/** The AI service's reply handling: how the text of a refinement reply
    becomes a well-formed AIResponse, and how the text of a summary reply
    becomes a summary. The model calls and `JSON.parse` are external: their
    results are parameters. */
module Gemini {
  import opened Wrappers
  import opened Types
  import Text
  import TaskDrawer

  /** What a model call produced: it threw, or it answered with a text that
      may be absent. */
  datatype ApiCall = ApiThrew | ApiText(text: Option<string>)

  /** The fields of a parsed refinement reply the service reads. A field is
      `None` when it is missing or holds a value of another JSON type. */
  datatype JsonReply = JsonReply(description: Option<string>, priority: Option<string>, subTasks: Option<seq<string>>)

  /** What `JSON.parse` made of the reply text: it threw, it produced `null`
      (reading a field of which throws), or it produced a value whose fields
      can be read. */
  datatype Parsed = ParseThrew | ParsedNull | ParsedValue(reply: JsonReply)

  /** The priority of the reply: the parsed value when it is one of the
      enum's string values, else medium. */
  function ParsePriority(v: Option<string>): (r: Priority)
    ensures forall p :: v == Some(PriorityName(p)) ==> r == p
    ensures (forall p :: v != Some(PriorityName(p))) ==> r == Medium
  {
    if v == Some("low") then assert v == Some(PriorityName(Low)); Low
    else if v == Some("medium") then assert v == Some(PriorityName(Medium)); Medium
    else if v == Some("high") then assert v == Some(PriorityName(High)); High
    else Medium
  }

  /** Every priority survives the trip through its string value. */
  lemma PriorityRoundTrip(p: Priority)
    ensures ParsePriority(Some(PriorityName(p))) == p
  {
  }

  /** The refinement reply as the service returns it. Nothing (`null`) when
      the call threw, the text is absent or empty, parsing the trimmed text
      threw, or it parsed to `null`. Otherwise a response whose description
      is the parsed one or "" when falsy, whose priority is normalised into
      the enum, and whose sub-tasks are the parsed list or empty when
      absent. */
  function NormaliseReply(call: ApiCall, parse: string -> Parsed): (r: Option<AIResponse>)
    ensures r.Some? <==>
      && call.ApiText? && call.text.Some? && call.text.value != ""
      && parse(Text.Trim(call.text.value)).ParsedValue?
    ensures r.Some? ==>
      var j := parse(Text.Trim(call.text.value)).reply;
      && (j.description.Some? ==> r.value.description == j.description.value)
      && (j.description.None? ==> r.value.description == "")
      && (forall p :: j.priority == Some(PriorityName(p)) ==> r.value.priority == p)
      && ((forall p :: j.priority != Some(PriorityName(p))) ==> r.value.priority == Medium)
      && (j.subTasks.Some? ==> r.value.subTasks == j.subTasks.value)
      && (j.subTasks.None? ==> r.value.subTasks == [])
  {
    match call
    case ApiThrew => None
    case ApiText(text) =>
      if text.None? || text.value == "" then None
      else match parse(Text.Trim(text.value))
        case ParseThrew => None
        case ParsedNull => None
        case ParsedValue(j) =>
          Some(AIResponse(j.description.GetOr(""), ParsePriority(j.priority), j.subTasks.GetOr([])))
  }

  /** The summary as the service returns it: the trimmed reply text, or
      nothing when the call threw or the trimmed text is absent or empty. */
  function Summary(call: ApiCall): (r: Option<string>)
    ensures r.Some? <==> call.ApiText? && call.text.Some? && !Text.AllWhitespace(call.text.value)
    ensures r.Some? ==> r.value == Text.Trim(call.text.value)
    ensures r.Some? ==> r.value != "" && Text.Trim(r.value) == r.value
    ensures r.Some? ==> exists k :: Text.OccursAt(call.text.value, r.value, k)
  {
    match call
    case ApiThrew => None
    case ApiText(text) =>
      if text.None? then None
      else
        var t := Text.Trim(text.value);
        Text.BlankIffAllWhitespace(text.value);
        Text.TrimIdempotent(text.value);
        Text.TrimIsInfix(text.value);
        if t == "" then None else Some(t)
  }

  /** A reply that is not all whitespace yields a summary, and that summary
      always updates the task in the drawer, stored as returned (a summary
      is only ever returned for such a reply). */
  lemma SummaryAlwaysApplies(t: Task, text: string)
    requires !Text.AllWhitespace(text)
    ensures Summary(ApiText(Some(text))).Some?
    ensures TaskDrawer.Summarise(t, Summary(ApiText(Some(text)))).Some?
    ensures TaskDrawer.Summarise(t, Summary(ApiText(Some(text)))).value.summary == Summary(ApiText(Some(text)))
  {
  }

  /** Refining a titled task with a reply the service accepted sets a
      priority from the enum (the parsed one, else medium) and one sub-task
      per suggestion. */
  lemma RefineUsesNormalisedReply(t: Task, title: string, call: ApiCall, parse: string -> Parsed, ids: seq<Id>, stamps: seq<string>)
    requires title != "" && NormaliseReply(call, parse).Some?
    requires |ids| == |NormaliseReply(call, parse).value.subTasks| && |stamps| == |ids|
    ensures var r := TaskDrawer.Refine(t, title, NormaliseReply(call, parse), ids, stamps);
      var j := parse(Text.Trim(call.text.value)).reply;
      && r.Some?
      && ((forall p :: j.priority != Some(PriorityName(p))) ==> r.value.priority == Medium)
      && |SubTasksOf(r.value)| == |j.subTasks.GetOr([])|
  {
  }
}

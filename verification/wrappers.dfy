/** The optional value used for every `T | undefined` and `T | null` of the
    application: an absent project reference, an absent sub-task list, a
    lookup that found nothing. */
module Wrappers {

  datatype Option<+T> = None | Some(value: T) {

    /** The value, or `default` when absent (the `x || default` and `x ?? default`
        idioms of the application when `x` is an object or array). */
    function GetOr(default: T): T {
      match this
      case Some(v) => v
      case None => default
    }
  }
}

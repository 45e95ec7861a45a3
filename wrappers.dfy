/** Small result types shared by every module of the model. */
module Wrappers {

  datatype Option<+T> = None | Some(value: T) {
    function GetOr(default: T): T {
      match this
      case Some(v) => v
      case None => default
    }
  }

  /** The `(success, message)` pair every service and handler of the system returns. */
  datatype Reply = Reply(success: bool, message: string)
}

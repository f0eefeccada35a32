/** Option and Result values shared by every module of the model. */
module Wrappers {

  datatype Option<+T> = None | Some(value: T) {
    function GetOr(default: T): T {
      match this
      case Some(v) => v
      case None => default
    }
  }

  /** The exceptions of the program that the model keeps as values. */
  datatype Error =
    | EmptyRecord      // IndexError from most_common(1)[0] on an identity with no vectors
    | UnreadableImage  // load_image_file on a path that is not a readable image

  datatype Result<+T> = Ok(value: T) | Err(error: Error)
}

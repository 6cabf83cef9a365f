/** The error responses of the route handlers and the carriers the operations
    return in place of an HTTP response. */
module Results {

  /** A value that may be absent: a missing or falsy request field, an
      optional schema field. */
  datatype Option<+T> = None | Some(value: T)

  /** One constructor per distinct error response of the post and friend routes. */
  datatype Error =
    | MissingUserId     // "User ID is required"
    | MissingAuthorId   // "Author ID is required"
    | EmptyComment      // "Comment content cannot be empty"
    | InvalidPrivacy    // "Invalid privacy setting"
    | UnknownViewer     // feed: "User not found"
    | UnknownUser       // like and share: "User not found"
    | UnknownAuthor     // comment: "Author not found"
    | PostNotFound      // like and comment: "Post not found"
    | OriginalNotFound  // share: "Original post not found"
    | NullUserRecord    // friend routes: a user lookup came back empty and the handler threw

  /** The HTTP status each error is answered with. */
  function Status(e: Error): nat {
    match e
    case UnknownViewer | PostNotFound | OriginalNotFound => 404
    case _ => 400
  }

  datatype Result<+T> = Ok(value: T) | Err(error: Error)
}

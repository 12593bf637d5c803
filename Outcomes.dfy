/** Outcomes of the store's operations: a nullable value, and a value or the
    exception the C# code throws instead of returning. */
module Outcomes {

  /** A value that may be absent (C# `null`). */
  datatype Option<+T> = None | Some(value: T)

  /** The two exceptions the services raise. */
  datatype Error =
    | NoMatchingElement          // LINQ `First` found no element satisfying its predicate
    | AuthorNotFound(authorId: int)  // "Author with ID {authorId} not found." from AddPost

  /** A returned value, or the exception thrown in its place. */
  datatype Result<+T> = Ok(value: T) | Err(error: Error)
}

/** The error-carrying shapes that the filesystem's operations return, after
    Rust's `Option`, `std::io::Result` and `std::io::ErrorKind`. */
module Io {

  datatype Option<+T> = None | Some(value: T)

  /** Only the two kinds the in-memory filesystem ever raises. */
  datatype ErrorKind =
    | Other         // a path segment is missing during traversal
    | InvalidInput  // a seek to a negative position

  datatype Result<+T> = Ok(value: T) | Err(error: ErrorKind)
}

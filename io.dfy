/** The operating-system facts the core reacts to, as values. */
module Io {
  import opened Numbers

  /** The part of `std::io::ErrorKind` the core tells apart: `NotFound` and everything else. */
  datatype ErrorKind = NotFound | PermissionDenied | OtherKind

  /** A `std::io::Error`: its kind and its `to_string()` text. */
  datatype IoError = IoError(kind: ErrorKind, message: string)

  /** One call of `Read::read` on a one-byte buffer: the error, or the count and `buf[0]`. */
  datatype ReadResult = ReadFailed(error: IoError) | ReadOk(got: nat, first: Byte)

  /** What a child's standard output yields, read after read. */
  type Stream = seq<ReadResult>
}

/**
 * Shared vocabulary of the model: machine integers, optional values and
 * results, the gRPC status codes the service answers with, and the shape of a
 * response stream.
 */
module Common {

  newtype byte = x: int | 0 <= x < 0x100
  type Bytes = seq<byte>

  type i8 = x: int | -0x80 <= x < 0x80
  type i16 = x: int | -0x8000 <= x < 0x8000
  type i32 = x: int | -0x8000_0000 <= x < 0x8000_0000
  type i64 = x: int | -0x8000_0000_0000_0000 <= x < 0x8000_0000_0000_0000
  type i128 = x: int | -0x8000_0000_0000_0000_0000_0000_0000_0000 <= x < 0x8000_0000_0000_0000_0000_0000_0000_0000
  type u8 = x: int | 0 <= x < 0x100
  type u16 = x: int | 0 <= x < 0x1_0000
  type u32 = x: int | 0 <= x < 0x1_0000_0000
  type u64 = x: int | 0 <= x < 0x1_0000_0000_0000_0000

  const I64_MAX: int := 0x7FFF_FFFF_FFFF_FFFF

  datatype Option<+T> = None | Some(value: T)

  datatype Result<+T, +E> = Ok(value: T) | Err(error: E)

  /** The gRPC status codes (tonic's `Code` without `Ok`); status messages are not modelled. */
  datatype Status =
    | Cancelled | Unknown | InvalidArgument | DeadlineExceeded | NotFound | AlreadyExists
    | PermissionDenied | ResourceExhausted | FailedPrecondition | Aborted | OutOfRange
    | Unimplemented | Internal | Unavailable | DataLoss | Unauthenticated

  /** A finite response stream: each item is a value or a status. */
  type Stream<T> = seq<Result<T, Status>>

  /**
   * `out` answers the requests `reqs[from..]` one for one and in order, and it is
   * cut short only right after an error item (a `?` inside the stream body yields
   * the error and ends the stream).
   */
  ghost predicate AnswersInOrder<Q, R>(reqs: seq<Q>, from: nat, out: seq<Result<R, Status>>)
  {
    from <= |reqs| && |out| <= |reqs| - from &&
    (|out| < |reqs| - from ==> |out| > 0 && out[|out| - 1].Err?)
  }
}

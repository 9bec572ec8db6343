/**
 * Translation of engine errors into gRPC status codes (src/interop.rs).
 *
 * Only the code of each status is modelled; the human-readable message and the
 * attached source error are not.
 */
module Interop {
  import opened Common
  import Conv

  /** The variants of DuckDB's error type; `OtherDuckError` stands for the variants the crate may add later. */
  datatype DuckError =
    | DuckDBFailure | FromSqlConversionFailure | IntegralValueOutOfRange | Utf8Error | NulError
    | InvalidParameterName | InvalidPath | ExecuteReturnedResults | QueryReturnedNoRows
    | InvalidColumnIndex | InvalidColumnName | InvalidColumnType | ArrowTypeToDuckdbType
    | StatementChangedRows | ToSqlConversionFailure | InvalidQuery | MultipleStatement
    | InvalidParameterCount | AppendError | OtherDuckError

  /** The primary result codes SQLite reports inside a `SqliteFailure`; `OtherCode` covers codes added later. */
  datatype SqliteCode =
    | InternalMalfunction | CodePermissionDenied | OperationAborted | DatabaseBusy | DatabaseLocked
    | OutOfMemory | ReadOnly | OperationInterrupted | SystemIoFailure | DatabaseCorrupt
    | CodeNotFound | DiskFull | CannotOpen | FileLockingProtocolFailed | SchemaChanged | TooBig
    | ConstraintViolation | TypeMismatch | ApiMisuse | NoLargeFileSupport
    | AuthorizationForStatementDenied | ParameterOutOfRange | NotADatabase | CodeUnknown | OtherCode

  /** The variants of rusqlite's error type; `OtherSqliteError` covers the remaining ones. */
  datatype SqliteError =
    | SqliteFailure(code: SqliteCode) | SqliteSingleThreadedMode | FromSqlConversionFailure
    | IntegralValueOutOfRange | Utf8Error | NulError | InvalidParameterName | InvalidPath
    | ExecuteReturnedResults | QueryReturnedNoRows | InvalidColumnIndex | InvalidColumnName
    | InvalidColumnType | StatementChangedRows | ToSqlConversionFailure | InvalidQuery
    | UnwindingPanic | MultipleStatement | InvalidParameterCount | OtherSqliteError

  /** DuckDB errors: everything is `Internal` except range, text-encoding and unrecognised errors. */
  function DuckDbStatus(e: DuckError): (s: Status)
    ensures s == OutOfRange <==> e.IntegralValueOutOfRange?
    ensures s == DataLoss <==> e.Utf8Error? || e.NulError?
    ensures s == Unknown <==> e.OtherDuckError?
    ensures s == Internal <==> !(e.IntegralValueOutOfRange? || e.Utf8Error? || e.NulError? || e.OtherDuckError?)
    ensures s in {OutOfRange, DataLoss, Unknown, Internal}
  {
    match e
    case IntegralValueOutOfRange => OutOfRange
    case Utf8Error => DataLoss
    case NulError => DataLoss
    case OtherDuckError => Unknown
    case _ => Internal
  }

  /** The SQLite result codes that report a bad request rather than a fault of the engine. */
  predicate IsArgumentCode(c: SqliteCode)
  {
    c in {ReadOnly, ConstraintViolation, TypeMismatch, NoLargeFileSupport, NotADatabase}
  }

  /** The SQLite result codes reported as an internal fault. */
  predicate IsInternalCode(c: SqliteCode)
  {
    c in {InternalMalfunction, DatabaseLocked, SystemIoFailure, FileLockingProtocolFailed, SchemaChanged, ApiMisuse}
  }

  function SqliteCodeStatus(c: SqliteCode): (s: Status)
    ensures s == NotFound <==> c == CodeNotFound || c == CannotOpen
    ensures s == InvalidArgument <==> IsArgumentCode(c)
    ensures s == Internal <==> IsInternalCode(c)
    ensures s == Unavailable <==> c == DatabaseBusy || c == OperationInterrupted
    ensures s == ResourceExhausted <==> c == OutOfMemory || c == DiskFull || c == TooBig
    ensures s == PermissionDenied <==> c == CodePermissionDenied
    ensures s == Aborted <==> c == OperationAborted
    ensures s == DataLoss <==> c == DatabaseCorrupt
    ensures s == Unauthenticated <==> c == AuthorizationForStatementDenied
    ensures s == OutOfRange <==> c == ParameterOutOfRange
    ensures s == Unknown <==> c == CodeUnknown || c == OtherCode
  {
    match c
    case CodeNotFound => NotFound
    case InternalMalfunction => Internal
    case CodePermissionDenied => PermissionDenied
    case OperationAborted => Aborted
    case DatabaseBusy => Unavailable
    case DatabaseLocked => Internal
    case OutOfMemory => ResourceExhausted
    case ReadOnly => InvalidArgument
    case OperationInterrupted => Unavailable
    case SystemIoFailure => Internal
    case DatabaseCorrupt => DataLoss
    case DiskFull => ResourceExhausted
    case CannotOpen => NotFound
    case FileLockingProtocolFailed => Internal
    case SchemaChanged => Internal
    case TooBig => ResourceExhausted
    case ConstraintViolation => InvalidArgument
    case TypeMismatch => InvalidArgument
    case ApiMisuse => Internal
    case NoLargeFileSupport => InvalidArgument
    case AuthorizationForStatementDenied => Unauthenticated
    case ParameterOutOfRange => OutOfRange
    case NotADatabase => InvalidArgument
    case CodeUnknown => Unknown
    case OtherCode => Unknown
  }

  /** rusqlite errors that describe a request the engine cannot carry out as written. */
  predicate IsArgumentError(e: SqliteError)
  {
    e.FromSqlConversionFailure? || e.InvalidParameterName? || e.InvalidPath? ||
    e.ExecuteReturnedResults? || e.QueryReturnedNoRows? || e.InvalidColumnIndex? ||
    e.InvalidColumnName? || e.InvalidColumnType? || e.StatementChangedRows? ||
    e.ToSqlConversionFailure? || e.InvalidQuery? || e.MultipleStatement? || e.InvalidParameterCount?
  }

  function SqliteStatus(e: SqliteError): (s: Status)
    ensures e.SqliteFailure? ==> s == SqliteCodeStatus(e.code)
    ensures !e.SqliteFailure? ==> (s == InvalidArgument <==> IsArgumentError(e))
    ensures !e.SqliteFailure? ==> (s == Internal <==> e.SqliteSingleThreadedMode? || e.UnwindingPanic?)
    ensures !e.SqliteFailure? ==> (s == OutOfRange <==> e.IntegralValueOutOfRange?)
    ensures !e.SqliteFailure? ==> (s == FailedPrecondition <==> e.Utf8Error? || e.NulError?)
    ensures !e.SqliteFailure? ==> (s == Unknown <==> e.OtherSqliteError?)
  {
    match e
    case SqliteFailure(c) => SqliteCodeStatus(c)
    case SqliteSingleThreadedMode => Internal
    case IntegralValueOutOfRange => OutOfRange
    case Utf8Error => FailedPrecondition
    case NulError => FailedPrecondition
    case UnwindingPanic => Internal
    case OtherSqliteError => Unknown
    case _ => InvalidArgument
  }

  /** A protobuf enumeration value the decoder does not know. */
  function UnknownEnumValueStatus(value: int): (s: Status)
    ensures s == InvalidArgument
  {
    InvalidArgument
  }

  /** A value with no protobuf representation (src/interop.rs and the `From` impl in src/conv.rs agree). */
  function UnsupportedStatus(u: Conv.Unsupported): (s: Status)
    ensures s == Unimplemented
  {
    Unimplemented
  }

  /**
   * The same condition is reported differently by the two SQL engines: a lookup that
   * finds no row is an internal fault for DuckDB and a bad argument for SQLite, and
   * text-encoding errors are data loss for one and a failed precondition for the other.
   */
  lemma EnginesDisagree()
    ensures DuckDbStatus(DuckError.QueryReturnedNoRows) == Internal
    ensures SqliteStatus(SqliteError.QueryReturnedNoRows) == InvalidArgument
    ensures DuckDbStatus(DuckError.Utf8Error) == DataLoss
    ensures SqliteStatus(SqliteError.Utf8Error) == FailedPrecondition
  {
  }
}

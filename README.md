# buffdb request execution, modelled in Dafny

buffdb is a small database server. Clients send it gRPC streams of key-value,
blob and raw-query requests. This project models the layer that executes those
requests:

- the three storage backends (DuckDB, SQLite, RocksDB), each serving streaming
  get / set / delete / eq / not_eq requests for key-value pairs and get / store /
  update / delete / eq_data / not_eq_data requests for blobs;
- the `all_eq` / `all_not_eq` comparison helpers the backends share;
- conversion of DuckDB and SQLite cell values into protobuf values, and of
  engine errors into gRPC status codes;
- the gRPC handlers, which translate wire messages to backend requests and back;
- raw-query routing by target store and the raw-query handler;
- the older single-request RocksDB stores (`src/kv`, `src/blob`);
- the older per-call SQLite stores (`src/store/kv`, `src/store/blob`) and their
  per-thread connection cache.

Storage engines are modelled by the tables they hold: a map from key to value,
or from id to blob row. An engine failure cannot be predicted from the tables,
so it is a parameter: a map from the position of the request that meets the
failure to the error it raises, or a flag or set naming the failing call.
Random ids are a parameter too (the ids a draw yields). A stream is a finite
sequence of items, each a value or an error status. SHA-256 is a digest
function parameter. Verdicts are proved both for any digest and for an
injective one.

Modules, one per source file:

| module | file | models |
|---|---|---|
| `Common` | common.dfy | `Result`, `Option`, gRPC status codes, fixed-width integer types |
| `KvStructs`, `BlobStructs`, `QueryStructs` | structs.dfy | backend request and response records |
| `ProtoKv`, `ProtoBlob`, `ProtoQuery` | proto.dfy | wire messages |
| `Comparator` | comparator.dfy | `src/backend/helpers.rs` |
| `Streams`, `Maps` | streams.dfy, maps.dfy | the `stream!` request loops shared by the backends |
| `Interop` | interop.dfy | `src/interop.rs` |
| `Conv` | conv.dfy | `src/conv.rs` |
| `DuckDbBackend` | duckdb.dfy | `src/backend/duckdb.rs` |
| `SqliteBackend` | sqlite.dfy | `src/backend/sqlite.rs` |
| `RocksDbBackend` | rocksdb.dfy | `src/backend/rocksdb.rs` |
| `KvHandler` | kv_handler.dfy | `src/handler/kv.rs` |
| `BlobHandler` | blob_handler.dfy | `src/handler/blob.rs` |
| `QueryRouting` | query_routing.dfy | `src/query.rs` |
| `QueryHandler` | query_handler.dfy | `src/handler/query.rs` |
| `LegacyKv` | legacy_kv.dfy | `src/kv/mod.rs` |
| `LegacyBlob` | legacy_blob.dfy | `src/blob/mod.rs` |
| `StoreConnections` | store_connections.dfy | the thread-local connection cache of `src/store` |
| `StoreKv` | store_kv.dfy | `src/store/kv/mod.rs` |
| `StoreBlob` | store_blob.dfy | `src/store/blob/mod.rs` |

A backend whose fields the source updates is a class. The fields are the shared
`initialized` flag, whether each table exists, and the tables. Each streaming
operation is a method. Its `ensures` ties the answer and the new tables to a
specification function over the request stream. The properties are proved as
lemmas about those functions. The comparison loops and the query-routing loop
are `while` loops, proved equal to recursive specification functions.

Two stream disciplines occur in the source:

- DuckDB and RocksDB pass an inbound error item on and keep serving.
- SQLite's `stream.message().await?` ends the call at an inbound error.

A backend error yields one error item and ends the stream in all three.

## Model

| member | source | states |
|---|---|---|
| Comparator.EqFrom | src/backend/helpers.rs:20-26 | From a position on: Ok(true) exactly when every later item is a value with the first value's digest. Ok(false) stops at a mismatching value. An error is the first error item met. Nothing after the deciding item is pulled. |
| Comparator.EqVerdict | src/backend/helpers.rs:6-27 | `all_eq`: Ok(true) exactly when every item is a value with the first value's digest (an empty stream is all-equal). Ok(false) stops at a mismatching value; an error is the error item met first. Counts the items pulled. |
| Comparator.DistinctFromShape | src/backend/helpers.rs:37-43 | From a position on: Ok(true) exactly when every item is a value whose digest is neither in the set seen nor repeated. Ok(false) stops at the first repeat; an error is the error item met first. |
| Comparator.NotEqVerdict | src/backend/helpers.rs:30-46 | `all_not_eq`: Ok(true) exactly when all items are values with pairwise distinct digests. Ok(false) names a value whose digest was already seen. An error is the error item met first. |
| Comparator.AllEq | src/backend/helpers.rs:6-27 | The loop returns EqVerdict's answer and stops after as many items as EqVerdict pulls. |
| Comparator.AllNotEq | src/backend/helpers.rs:30-46 | The loop with a set of digests returns NotEqVerdict's answer and stops where it does. |
| Comparator.VerdictsDecideValues | src/backend/helpers.rs:17-18 | With an injective digest, comparing digests is comparing values: all-equal and all-distinct hold exactly for the values themselves. |
| Comparator.EqFromStopsAtError | src/backend/helpers.rs:20-24 | An error item reached before any mismatch is the answer of the loop. |
| Comparator.EqStopsAtError | src/backend/helpers.rs:11-24 | `all_eq` answers the first error item when every earlier value matches the first. |
| Comparator.DistinctFromStopsAtError | src/backend/helpers.rs:37-43 | An error item reached while all earlier values are fresh and distinct is the answer of the loop. |
| Comparator.NotEqStopsAtError | src/backend/helpers.rs:37-43 | `all_not_eq` answers the first error item when every earlier value is distinct. |
| Streams.ServeReadsShape | src/backend/rocksdb.rs:74-89 | A read-only request loop: the items answer the requests in order. No item except the last ends the stream, and the stream is cut short only by an item that ends it. |
| Streams.ServeShape | src/backend/duckdb.rs:173-187 | A state-changing request loop answers requests in order. An inbound error item is passed on as it is. Only the last item may end the stream, and it is cut short only by an item that ends it. |
| Streams.UpToError | src/handler/kv.rs:71-88 | A stream relayed through a fallible map: a prefix of the input that ends at its first error, if any. |
| Streams.MapOk | src/handler/blob.rs:74-95 | An item-by-item map: same length, values mapped, errors kept. |
| Streams.Relay | src/handler/kv.rs:71-88 | A relayed stream: values mapped and errors kept, up to and including the first error; the whole stream when there is no error. |
| Streams.RunReads | src/backend/rocksdb.rs:74-89 | The loop yields exactly ServeReads. |
| Streams.RunSteps | src/backend/rocksdb.rs:100-110 | The loop yields exactly Serve's items and leaves Serve's final state. |
| Streams.Replies | src/backend/rocksdb.rs:95-114 | A loop without faults: one reply per request, errors in place. With pass-through (or no error item) it answers every request. |
| Streams.ServeWithoutFaults | src/backend/rocksdb.rs:95-114 | A step that never fails and applies an update is served as the replies plus every update applied in order. |
| Streams.ServeReadsAgree | src/backend/rocksdb.rs:74-89 | Two answer functions that agree on every request serve the same stream. |
| Maps.LastWrite | src/backend/rocksdb.rs:100-106 | The position of the last request naming a key, or none: no later request names it. |
| Maps.UpsertLastWins | src/backend/rocksdb.rs:95-114 | After a stream of puts each key holds the value of the last request naming it. A key no request names keeps its old entry, or its absence. |
| Maps.RemoveDeletes | src/backend/rocksdb.rs:116-135 | After a stream of deletes a key remains exactly when it was there and no request names it, with its old value. |
| Interop.DuckDbStatus | src/interop.rs:20-68 | DuckDB errors map to out-of-range, data-loss, unknown or internal, each exactly for its error kinds. |
| Interop.SqliteCodeStatus | src/interop.rs:70-148 | Each SQLite error code maps to one status. Every status is stated as an if-and-only-if over the codes. |
| Interop.SqliteStatus | src/interop.rs:70-148 | A SQLite failure maps by its code. The other error kinds map to invalid-argument, internal, out-of-range, failed-precondition or unknown, each exactly for its kinds. |
| Interop.UnknownEnumValueStatus | src/interop.rs:150-154 | An unknown enumeration value is invalid-argument. |
| Interop.UnsupportedStatus | src/interop.rs:156-160 | An unsupported value is unimplemented. |
| Interop.EnginesDisagree | src/interop.rs:20-148 | The engines differ on no-rows (DuckDB internal, SQLite invalid-argument) and on bad UTF-8 (data-loss against failed-precondition). |
| Conv.TruncDivRem | src/conv.rs:108-120 | Rust's truncating `/` and `%` on i64: quotient times divisor plus remainder is the dividend. The remainder is below the divisor in size and carries the dividend's sign. |
| Conv.CastI32 | src/conv.rs:121-124 | `as i32` keeps values that fit and otherwise agrees modulo 2^32. |
| Conv.SplitTimestampExact | src/conv.rs:108-125 | Splitting a timestamp into seconds and nanoseconds loses nothing. The nanoseconds stay under one second and share the sign, so the 32-bit cast is exact. |
| Conv.NatToString | src/conv.rs:248-257 | `{}` of a natural number: at least one decimal digit and no leading zero. |
| Conv.NatToStringRoundTrip | src/conv.rs:248-257 | The decimal text of a natural number parses back to it. |
| Conv.IntToStringRoundTrip | src/conv.rs:248-257 | The decimal text of an integer, sign included, parses back to it. |
| Conv.ToProtoValueVerdict | src/conv.rs:185-281 | A nested DuckDB value converts exactly when no date or map occurs in it at any depth. A 128-bit integer nested in it converts. |
| Conv.ToProtoList | src/conv.rs:258-265 | A list converts exactly when every element does. The result holds each element's conversion in order. A failure is the error of the first element that cannot be converted. |
| Conv.ToProtoFields | src/conv.rs:266-273 | A struct converts exactly when every field does. A failure is the error of the first field that cannot be converted. The last field's name maps to its converted value. |
| Conv.ToProtoFieldsValues | src/conv.rs:266-273 | Each name of a converted struct holds the converted value of the last field with that name, so a repeated name keeps its last value. |
| Conv.ToProtoFieldsKeys | src/conv.rs:266-273 | The keys of a converted struct are exactly its field names. |
| Conv.TryIntoAnyVerdict | src/conv.rs:88-183 | A top-level DuckDB value converts exactly when it is not a 128-bit integer and is representable. A 128-bit integer is reported as unsupported. |
| Conv.NestingChangesTheVerdict | src/conv.rs:97-100 | A 128-bit integer fails at the top level but converts inside a union or a list. A blob is bytes at the top level but an empty value when nested. |
| Conv.SqliteToAny | src/conv.rs:283-295 | Every SQLite value converts, each kind to its own protobuf kind. |
| Conv.SqliteToAnyInjective | src/conv.rs:283-295 | Different SQLite values never convert to the same protobuf value. |
| DuckDbBackend.KvLookup | src/backend/duckdb.rs:144-167 | With the table and no fault a key is found exactly when present. A found value is the stored one. Any error is one of the DuckDB statuses. |
| DuckDbBackend.ReadColumns | src/backend/duckdb.rs:63-71 | Reading a row's columns: the values before the first failing column, in order, and that column's error. |
| DuckDbBackend.RowItems | src/backend/duckdb.rs:60-73 | A row sends its first column error, if any, then the response with the columns read before it. |
| DuckDbBackend.RowSentOnce | src/backend/duckdb.rs:60-73 | Each row yields exactly one response, even when a column fails. |
| DuckDbBackend.EveryRowSentOnce | src/backend/duckdb.rs:60-74 | Every fetched row is sent exactly once, in fetch order. |
| DuckDbBackend.PushRow | src/backend/duckdb.rs:60-73 | The column loop sends exactly RowItems. |
| DuckDbBackend.Query | src/backend/duckdb.rs:52-93 | The query's items are those of the rows the engine returns, each row sent once in fetch order. The connection comes back untouched. Past 64 items the source blocks on its bounded channel (see "## Left out"). |
| DuckDbBackend.Execute | src/backend/duckdb.rs:95-123 | The number of rows changed, or the engine's error as a status. The connection comes back unchanged. |
| DuckDbBackend.DuckDb.constructor | src/backend/duckdb.rs:25-30 | A backend over a file that may already hold either table, not yet initialized. |
| DuckDbBackend.DuckDb.InitializeKv | src/backend/duckdb.rs:125-133 | Creates the key-value table if missing and sets the shared flag. A schema failure changes nothing. |
| DuckDbBackend.DuckDb.InitializeBlob | src/backend/duckdb.rs:279-291 | Creates the id sequence and the blob table if missing and sets the shared flag. A schema failure changes nothing. |
| DuckDbBackend.DuckDb.ConnectKv | src/backend/duckdb.rs:135-142 | Opens the database and initializes only while the shared flag is clear. The rows stay as they were. |
| DuckDbBackend.DuckDb.ConnectBlob | src/backend/duckdb.rs:293-300 | As ConnectKv, for the blob side. |
| DuckDbBackend.DuckDb.KvGet | src/backend/duckdb.rs:144-167 | A refused connection is the call's error. Otherwise the answers are ServeReads over the lookups, inbound errors passed on. The table is unchanged. |
| DuckDbBackend.DuckDb.KvSet | src/backend/duckdb.rs:169-192 | The replies and the new table are those of the set loop. A refused connection changes no row. |
| DuckDbBackend.DuckDb.KvDelete | src/backend/duckdb.rs:194-214 | The replies and the new table are those of the delete loop. A refused connection changes no row. |
| DuckDbBackend.DuckDb.KvEq | src/backend/duckdb.rs:216-241 | `eq` is the all-equal verdict on the looked-up values. The table is unchanged. |
| DuckDbBackend.DuckDb.KvNotEq | src/backend/duckdb.rs:243-268 | `not_eq` is the all-distinct verdict on the looked-up values. The table is unchanged. |
| DuckDbBackend.DuckDb.BlobGet | src/backend/duckdb.rs:302-332 | The answers are ServeReads over the blob lookups. The blobs are unchanged. |
| DuckDbBackend.DuckDb.BlobStore | src/backend/duckdb.rs:334-360 | The replies and the new blobs are those of the store loop. |
| DuckDbBackend.DuckDb.BlobUpdate | src/backend/duckdb.rs:362-404 | The replies and the new blobs are those of the update loop. |
| DuckDbBackend.DuckDb.BlobDelete | src/backend/duckdb.rs:406-426 | The replies and the new blobs are those of the delete loop. |
| DuckDbBackend.DuckDb.BlobEqData | src/backend/duckdb.rs:428-451 | `eq_data` is the all-equal verdict on the data columns read. |
| DuckDbBackend.DuckDb.BlobNotEqData | src/backend/duckdb.rs:453-476 | `not_eq_data` is the all-distinct verdict on the data columns read. |
| DuckDbBackend.KvSetLastWins | src/backend/duckdb.rs:169-192 | Without faults a set stream echoes every key, inbound errors in place. Each key ends with the value of the last set naming it, and the others keep theirs. |
| DuckDbBackend.KvDeleteRemoves | src/backend/duckdb.rs:194-214 | Without faults a delete stream echoes every key. The keys that remain are exactly those no request names, with their values. |
| DuckDbBackend.KvSetKeepsEmpty | src/backend/duckdb.rs:169-192 | Without the table every set fails and nothing is written. |
| DuckDbBackend.KvDeleteKeepsEmpty | src/backend/duckdb.rs:194-214 | Without the table a delete stream writes nothing. |
| DuckDbBackend.KvGetEndsAtMissingKey | src/backend/duckdb.rs:144-167 | A get stream answers the stored values up to the first absent key, where it ends with DuckDB's no-rows status (internal). |
| DuckDbBackend.StoreKeepsValid | src/backend/duckdb.rs:334-360 | Store keeps every existing row and only advances the sequence. Without the table it changes nothing. |
| DuckDbBackend.StoreIssuesFreshIds | src/backend/duckdb.rs:334-360 | Every id store answers comes from the sequence: not used before and increasing along the stream. |
| DuckDbBackend.StoreKeepsWhatItStored | src/backend/duckdb.rs:334-360 | Each answered id holds exactly the row its request stored. |
| DuckDbBackend.UpdateKeepsIds | src/backend/duckdb.rs:362-404 | Update never adds or removes a blob and never moves the sequence, whatever fails. |
| DuckDbBackend.DeleteKeepsValid | src/backend/duckdb.rs:406-426 | Delete only removes rows and leaves the sequence, so ids are never reused. |
| DuckDbBackend.UpdateRewritesNamedColumns | src/backend/duckdb.rs:371-398 | Without faults every update echoes its id. It rewrites, in order, exactly the columns it names. |
| DuckDbBackend.NoOpUpdatesNeverFail | src/backend/duckdb.rs:371-398 | An update naming no column answers its id without touching the engine, even when the engine would fail. |
| DuckDbBackend.DataVerdictsIgnoreMetadata | src/backend/duckdb.rs:428-476 | Both data verdicts depend only on the data column. |
| DuckDbBackend.BlobFirstLeavesNoKvTable | src/backend/duckdb.rs:125-142 | Because the two sides share one flag, connecting the blob side first leaves no key-value table, and every set then fails. |
| SqliteBackend.MaxRowid | src/backend/sqlite.rs:325-345 | The largest rowid in use, or 0 for an empty table. |
| SqliteBackend.KvLookup | src/backend/sqlite.rs:152-169 | With the table and no fault a key is found exactly when present. An absent key is the no-rows error (invalid-argument). |
| SqliteBackend.ReadColumnsShape | src/backend/sqlite.rs:72-80 | The converted values before the first failing column, and that column's error. |
| SqliteBackend.RowItems | src/backend/sqlite.rs:72-84 | A row sends its first column error, if any, then the row read so far. |
| SqliteBackend.QueryOutcome | src/backend/sqlite.rs:59-89 | An error from an inbound item ends the call as that item's error. A stream with no inbound error always succeeds. QueryStopsAtFirstFailure states the whole outcome. |
| SqliteBackend.QueryStopsAtFirstFailure | src/backend/sqlite.rs:59-89 | Every query before the stop position arrived and fetched rows, and their items come first, query after query. A failed prepare or query adds one error item and stops processing, whatever follows. An inbound error there fails the call. So the call fails exactly when an inbound error comes before the first failed query. |
| SqliteBackend.ExecuteOutcome | src/backend/sqlite.rs:109-117 | Succeeds exactly when every request arrives and executes. Then there is one count per statement, in order. ExecuteFailsWithFirstError states which error a failure returns. |
| SqliteBackend.ExecuteFailsWithFirstError | src/backend/sqlite.rs:109-117 | Every request before the first stop arrived and its statement ran. The call fails exactly when there is such a stop. It fails with the inbound error found there, unchanged, or with the status of the statement that failed there. |
| SqliteBackend.PushRow | src/backend/sqlite.rs:72-84 | The column loop sends exactly RowItems. |
| SqliteBackend.PushRows | src/backend/sqlite.rs:69-82 | The row loop sends the items of every row, in order (RowsItems). |
| SqliteBackend.Query | src/backend/sqlite.rs:48-97 | A database that does not open is the call's error. Otherwise the call answers QueryOutcome, whose meaning QueryStopsAtFirstFailure gives. |
| SqliteBackend.Execute | src/backend/sqlite.rs:99-127 | A database that does not open is the call's error. Otherwise the call answers ExecuteOutcome. |
| SqliteBackend.Sqlite.constructor | src/backend/sqlite.rs:24-29 | A backend over a file that may already hold either table, not yet initialized. |
| SqliteBackend.Sqlite.InitializeKv | src/backend/sqlite.rs:135-142 | Creates the key-value table if missing and sets the shared flag. A schema failure changes nothing. |
| SqliteBackend.Sqlite.InitializeBlob | src/backend/sqlite.rs:276-285 | Creates the blob table if missing and sets the shared flag. A schema failure changes nothing. |
| SqliteBackend.Sqlite.ConnectKv | src/backend/sqlite.rs:144-150 | Opens the database and initializes only while the shared flag is clear. |
| SqliteBackend.Sqlite.ConnectBlob | src/backend/sqlite.rs:287-293 | As ConnectKv, for the blob side. |
| SqliteBackend.Sqlite.KvGet | src/backend/sqlite.rs:152-169 | The answers are ServeReads over the lookups, ending at an inbound error. The table is unchanged. |
| SqliteBackend.Sqlite.KvSet | src/backend/sqlite.rs:171-185 | The replies and the new table are those of the set loop. |
| SqliteBackend.Sqlite.KvDelete | src/backend/sqlite.rs:187-201 | The replies and the new table are those of the delete loop. |
| SqliteBackend.Sqlite.KvEq | src/backend/sqlite.rs:203-237 | The inline loop gives the all-equal verdict on the looked-up values. |
| SqliteBackend.Sqlite.KvNotEq | src/backend/sqlite.rs:239-266 | The inline loop gives the all-distinct verdict on the looked-up values. |
| SqliteBackend.Sqlite.BlobGet | src/backend/sqlite.rs:295-323 | The answers are ServeReads over the blob lookups. |
| SqliteBackend.Sqlite.BlobStore | src/backend/sqlite.rs:325-345 | The replies and the new rows are those of the store loop. |
| SqliteBackend.Sqlite.BlobUpdate | src/backend/sqlite.rs:347-387 | The replies and the new rows are those of the update loop. An id above the largest 64-bit signed integer cannot be bound and ends the stream with invalid-argument. |
| SqliteBackend.Sqlite.BlobDelete | src/backend/sqlite.rs:389-403 | The replies and the new rows are those of the delete loop. An id above the largest 64-bit signed integer cannot be bound and ends the stream with invalid-argument. |
| SqliteBackend.Sqlite.BlobEqData | src/backend/sqlite.rs:405-437 | The all-equal verdict on the data columns read. |
| SqliteBackend.Sqlite.BlobNotEqData | src/backend/sqlite.rs:439-469 | The all-distinct verdict on the data columns read. |
| SqliteBackend.KvSetLastWins | src/backend/sqlite.rs:171-185 | Without faults or inbound errors, a set stream echoes every key. Each key holds the value of its last set. |
| SqliteBackend.KvDeleteRemoves | src/backend/sqlite.rs:187-201 | Without faults or inbound errors, a delete stream echoes every key. Exactly the keys no request names remain. |
| SqliteBackend.KvSetKeepsEmpty | src/backend/sqlite.rs:171-185 | Without the table a set stream writes nothing. |
| SqliteBackend.KvDeleteKeepsEmpty | src/backend/sqlite.rs:187-201 | Without the table a delete stream writes nothing. |
| SqliteBackend.StoreKeepsValid | src/backend/sqlite.rs:325-345 | Store only adds rows under valid rowids and keeps every existing row. Without the table it changes nothing. |
| SqliteBackend.StoreIssuesFreshRowids | src/backend/sqlite.rs:325-345 | Every rowid store answers is above every rowid there before and increases along the stream. |
| SqliteBackend.DeletedLargestRowidIsReused | src/backend/sqlite.rs:325-345 | Once the blob with the largest rowid is deleted, the next store can get that rowid back. |
| SqliteBackend.UpdateRewritesNamedColumns | src/backend/sqlite.rs:362-383 | Without faults, and with every id that a non-no-op update names within the 64-bit signed range, an update stream echoes every id. It rewrites, in order, the columns each request names. |
| SqliteBackend.UpdateEndsAtUnboundId | src/backend/sqlite.rs:362-383 | An update that is not a no-op and names an id above the largest 64-bit signed integer fails to bind it. The stream ends there with invalid-argument, after echoing the earlier ids. |
| SqliteBackend.DeleteEndsAtUnboundId | src/backend/sqlite.rs:389-403 | A delete naming an id above the largest 64-bit signed integer fails to bind it. The stream ends there with invalid-argument, after echoing the earlier ids. |
| SqliteBackend.UpdateKeepsIds | src/backend/sqlite.rs:347-387 | Update never adds or removes a blob. |
| SqliteBackend.DeleteKeepsValid | src/backend/sqlite.rs:389-403 | Delete only removes rows. |
| RocksDbBackend.KvLookup | src/backend/rocksdb.rs:76-82 | Without a fault a key is found exactly when present. An absent key is not-found. |
| RocksDbBackend.RocksDb.constructor | src/backend/rocksdb.rs:36-38 | A backend over a database directory and what it holds. |
| RocksDbBackend.RocksDb.KvGet | src/backend/rocksdb.rs:69-93 | A database that does not open is the call's error. Otherwise the answers are ServeReads over the lookups. |
| RocksDbBackend.RocksDb.KvSet | src/backend/rocksdb.rs:95-114 | The replies and the new table are those of the set loop. The blob columns are untouched. |
| RocksDbBackend.RocksDb.KvDelete | src/backend/rocksdb.rs:116-135 | The replies and the new table are those of the delete loop. The blob columns are untouched. |
| RocksDbBackend.RocksDb.KvEq | src/backend/rocksdb.rs:137-158 | The all-equal verdict on the looked-up values. |
| RocksDbBackend.RocksDb.KvNotEq | src/backend/rocksdb.rs:160-185 | The all-distinct verdict on the looked-up values. |
| RocksDbBackend.RocksDb.BlobGet | src/backend/rocksdb.rs:193-227 | The answers are ServeReads over the blob lookups. |
| RocksDbBackend.RocksDb.BlobStore | src/backend/rocksdb.rs:229-279 | The replies and the new columns are those of the store loop. The key-value table is untouched. |
| RocksDbBackend.RocksDb.BlobUpdate | src/backend/rocksdb.rs:281-317 | The replies and the new columns are those of the update loop. |
| RocksDbBackend.RocksDb.BlobDelete | src/backend/rocksdb.rs:319-343 | The replies and the new columns are those of the delete loop. |
| RocksDbBackend.RocksDb.BlobEqData | src/backend/rocksdb.rs:345-371 | The all-equal verdict on the data column. |
| RocksDbBackend.RocksDb.BlobNotEqData | src/backend/rocksdb.rs:373-399 | The all-distinct verdict on the data column. |
| RocksDbBackend.KvSetLastWins | src/backend/rocksdb.rs:95-114 | Without faults a set stream echoes every key, inbound errors in place. Each key holds the value of its last set. |
| RocksDbBackend.KvDeleteRemoves | src/backend/rocksdb.rs:116-135 | Without faults a delete stream leaves exactly the keys no request names. |
| RocksDbBackend.KvGetEndsAtMissingKey | src/backend/rocksdb.rs:69-93 | A get stream answers the stored values up to the first absent key and ends there with not-found. |
| RocksDbBackend.LookupsUpToMissing | src/backend/rocksdb.rs:137-185 | The value lookups of eq and not_eq are the stored values up to a first absent key, which is not-found. |
| RocksDbBackend.EqOnMissingKeyIsNotFound | src/backend/rocksdb.rs:137-158 | All-equal meets an absent key as a not-found error, not as false. |
| RocksDbBackend.NotEqOnMissingKeyIsNotFound | src/backend/rocksdb.rs:160-185 | All-distinct meets an absent key as a not-found error, not as true. |
| RocksDbBackend.StoreUsesFreeId | src/backend/rocksdb.rs:240-271 | With working probes a successful store lands on an id with no data. It reads back the stored data, and no existing data changes. |
| RocksDbBackend.StoreGivesUpAfterTwoCollisions | src/backend/rocksdb.rs:249-256 | Two taken draws fail the store with internal and write nothing. |
| RocksDbBackend.StoreKeepsExistingData | src/backend/rocksdb.rs:229-279 | With working probes a store stream never overwrites existing data. |
| RocksDbBackend.UpdateThenGet | src/backend/rocksdb.rs:281-317 | A get after an update sees the new data or metadata it names. Other ids are unaffected. |
| RocksDbBackend.UpdateAppliesAll | src/backend/rocksdb.rs:281-317 | Without faults every update echoes its id and all are applied in order. |
| RocksDbBackend.DeleteCanOrphanMetadata | src/backend/rocksdb.rs:319-343 | Delete is not atomic. A failure after the data delete leaves the metadata, and the blob is already not-found. |
| RocksDbBackend.StaleMetadataSurvivesStore | src/backend/rocksdb.rs:229-317 | Metadata written under an id with no data is picked up by a later store to that id that carries no metadata. |
| KvHandler.Streaming | src/handler/kv.rs:71-88 | The backend's refusal is the call's error. Otherwise the responses are relayed in order, up to and including the first error: a shorter relay ends with the backend's error item. |
| KvHandler.BackendSeesKeysInOrder | src/handler/kv.rs:71-88 | The backend receives the inbound keys in order, and nothing after a transport error. |
| KvHandler.GetOverRocksDbAnswersEachKey | src/handler/kv.rs:71-88 | Over RocksDB, with every key present and no fault, get answers every key's value in order. |
| KvHandler.SetOverRocksDbEchoesEachKey | src/handler/kv.rs:90-110 | Over RocksDB without faults, set echoes every key in order. |
| BlobHandler.ToUpdate | src/handler/blob.rs:119-139 | `should_update_metadata.then_some(metadata)`: no metadata change without the flag, else the metadata to write. |
| BlobHandler.Mapping | src/handler/blob.rs:74-95 | The backend's refusal is the call's error. Otherwise every response is mapped item by item, errors kept. |
| BlobHandler.UpdateFlagDecidesMetadata | src/handler/blob.rs:119-139 | Over RocksDB the flag alone decides whether the metadata changes. |
| BlobHandler.BackendsAgreeOnUpdate | src/handler/blob.rs:119-139 | SQLite reading the flag itself and RocksDB reading the translated request rewrite a blob the same way. |
| BlobHandler.StoreCarriesIssuedIds | src/handler/blob.rs:97-117 | Store responses carry exactly the ids the backend issued, in order. They run up to and including the store stream's first error. |
| QueryRouting.DecodeTarget | src/query.rs:73 | Decoding the target succeeds exactly for the two enumeration values. Any other value is invalid-argument. |
| QueryRouting.TargetRoundTrip | src/query.rs:73 | Decoding undoes encoding, so each target has one wire value. |
| QueryRouting.Route | src/query.rs:72-89 | The routing loop yields exactly Routed's items and threads both connections as Routed does. |
| QueryRouting.Query | src/query.rs:64-93 | A connection that fails is the call's error. Otherwise the call answers the routed items. |
| QueryRouting.Execute | src/query.rs:95-123 | A connection that fails is the call's error. Otherwise there is one result per routed statement. |
| QueryRouting.ConnectionsServeOwnTarget | src/query.rs:72-89 | Each connection runs exactly the queries of its own target, in arrival order. |
| QueryRouting.LaterRequestsOnlyAppend | src/query.rs:72-89 | More requests only add items at the end. |
| QueryRouting.UnknownTargetEndsStream | src/query.rs:72-73 | A target that is not an enumeration value ends the stream with an invalid-argument error. Nothing after it is read. |
| QueryHandler.ConvertFields | src/handler/query.rs:94-102 | A row converts exactly when every field does, field by field. A failure is the first failing field's. |
| QueryHandler.ConvertItem | src/handler/query.rs:94-102 | An error item passes through. A row converts exactly when every field does, otherwise it is unimplemented. |
| QueryHandler.Query | src/handler/query.rs:67-105 | A connection that fails is the call's error. Otherwise each routed item is converted in place. |
| QueryHandler.Execute | src/handler/query.rs:107-141 | A connection that fails is the call's error. Otherwise each routed count is kept in place. |
| QueryHandler.ConversionIsPerItem | src/handler/query.rs:94-102 | Conversion never ends, drops or reorders the stream: one output per routed item. |
| QueryHandler.DuckDbHugeIntRowIsUnimplemented | src/handler/query.rs:94-102 | A DuckDB row with a top-level 128-bit integer is answered as unimplemented. |
| QueryHandler.SqliteRowsAlwaysConvert | src/handler/query.rs:94-102 | Every SQLite row converts, field for field. |
| QueryHandler.UnknownTargetEndsHandlerStream | src/handler/query.rs:73-102 | An undecodable target still ends the handler's stream with an error. |
| LegacyKv.ValueAt | src/kv/mod.rs:38-53 | A get answers the stored value. An absent key is not-found and a failed read internal. |
| LegacyKv.KvStore.constructor | src/kv/mod.rs:26-33 | A store over the database's key-value pairs. |
| LegacyKv.KvStore.Get | src/kv/mod.rs:38-53 | Answers ValueAt. |
| LegacyKv.KvStore.Set | src/kv/mod.rs:55-66 | Echoes the key and puts the value. A failure is internal and changes nothing. |
| LegacyKv.KvStore.Delete | src/kv/mod.rs:68-79 | Echoes the key and removes it, present or not. A failure is internal and changes nothing. |
| LegacyKv.GetAgreesWithStreamingBackend | src/kv/mod.rs:38-53 | Without failures get answers as the streaming RocksDB backend does. |
| LegacyKv.SetThenGet | src/kv/mod.rs:109-126 | A set is read back, and other keys keep their answers. |
| LegacyKv.SetDeleteThenGet | src/kv/mod.rs:127-150 | After set and delete the key is not-found, and other keys keep their answers. |
| LegacyKv.DeleteAbsentKey | src/kv/mod.rs:68-79 | Deleting an absent key succeeds and changes nothing. |
| LegacyKv.FailedWritesChangeNothing | src/kv/mod.rs:55-79 | A failed set or delete leaves the table as it was. |
| LegacyBlob.GetAnswer | src/blob/mod.rs:42-70 | A get succeeds exactly when both reads work and the data exists. A failed read is internal, absent data not-found. Without failures it agrees with the streaming RocksDB backend. |
| LegacyBlob.Fetched | src/blob/mod.rs:177-184 | `multi_get_cf`: one entry per id, in order, present exactly when the id has data. |
| LegacyBlob.AllEqual | src/blob/mod.rs:192-199 | `eq_data`'s verdict holds exactly when every value is present and equal to the first. |
| LegacyBlob.NotEqVerdict | src/blob/mod.rs:224-236 | As intended: Ok(true) exactly when every value is present and all are distinct. An absent id is not-found, and false names a repeated value. |
| LegacyBlob.BlobStore.constructor | src/blob/mod.rs:30-37 | A store over the two column families. |
| LegacyBlob.BlobStore.Get | src/blob/mod.rs:42-70 | Answers GetAnswer; nothing changes. |
| LegacyBlob.BlobStore.Store | src/blob/mod.rs:72-117 | The result and both columns afterwards are StoreOutcome's: a retry after a collision, the data put, then the metadata put. |
| LegacyBlob.BlobStore.Update | src/blob/mod.rs:119-154 | The result and both columns afterwards are UpdateOutcome's: the data put, then the metadata put or delete. |
| LegacyBlob.BlobStore.Delete | src/blob/mod.rs:156-175 | The result and both columns afterwards are DeleteOutcome's: both deletes are attempted. |
| LegacyBlob.BlobStore.EqData | src/blob/mod.rs:177-202 | A failed read is internal. Otherwise Ok(true) exactly when every id has data equal to the first id's. |
| LegacyBlob.BlobStore.NotEqData | src/blob/mod.rs:204-237 | A failed read is internal. Otherwise the loop with a set of values met answers NotEqVerdict (corrected: an absent id is not-found). |
| LegacyBlob.StoreUsesFreeId | src/blob/mod.rs:72-117 | With working reads a successful store used the first free draw and wrote the bytes there. |
| LegacyBlob.StoreGivesUpAfterTwoCollisions | src/blob/mod.rs:85-98 | Two taken draws give internal and write nothing. |
| LegacyBlob.FailedProbeOverwrites | src/blob/mod.rs:85-98 | A failed collision read counts as free, so existing data under the drawn id is overwritten. |
| LegacyBlob.StoreThenGet | src/blob/mod.rs:72-117 | A stored blob reads back with its bytes. Its metadata is the stored one, or stale metadata already under that id. |
| LegacyBlob.StoreCanOrphanMetadata | src/blob/mod.rs:102-116 | A failed data put still writes the metadata, leaving metadata with no blob. |
| LegacyBlob.UpdateAgreesWithStreamingBackend | src/blob/mod.rs:119-154 | Without failures an update echoes its id and changes the columns as the streaming RocksDB backend does. |
| LegacyBlob.UpdateThenGet | src/blob/mod.rs:289-390 | Reading back an updated blob gives the new bytes when given and the new metadata when flagged. |
| LegacyBlob.UpdateCanCreate | src/blob/mod.rs:119-154 | Update does not check existence: bytes under a new id create the blob. |
| LegacyBlob.UpdateFailsAfterDataPut | src/blob/mod.rs:119-154 | A failed metadata write after the data put fails the call but keeps the new bytes. |
| LegacyBlob.DeleteThenGet | src/blob/mod.rs:392-437 | A delete echoes the id, a later get fails (not-found without read failures), and a second delete changes nothing. |
| LegacyBlob.DeleteFailureIsPartial | src/blob/mod.rs:156-175 | A failed data delete still removes the metadata. |
| LegacyBlob.ComparisonsOnStoredBlobs | src/blob/mod.rs:442-552 | The store's own tests: equal bytes are all-equal, a different third blob is not, and the same pairs give not-equal false and true. |
| LegacyBlob.NotEqAsWritten | src/blob/mod.rs:224-236 | As written: true exactly when the values before the first absent id are fresh and pairwise distinct, whatever follows that id. |
| LegacyBlob.AsWrittenTrueOnAbsentId | src/blob/mod.rs:224-230 | As written, `not_eq_data` answers true whenever the intended check would not answer false, so every absent-id case is true. |
| LegacyBlob.NotEqAsWrittenMissesDuplicates | src/blob/mod.rs:224-230 | With an absent id first and two equal blobs after it, the code as written answers true; the intended check says not-found. |
| StoreConnections.Opened | src/store/mod.rs:20-27 | A newly opened connection sees an empty in-memory database, or the file's contents. |
| StoreConnections.Connections.constructor | src/store/mod.rs:8-11 | A thread starts with no cached connection. |
| StoreConnections.Connections.Connect | src/store/kv/mod.rs:39-42 | `or_insert_with`: opens a connection only when the location has none, and then reuses it. |
| StoreConnections.Connections.Commit | src/store/kv/mod.rs:52 | The statement's effect is kept in the cached connection. |
| StoreConnections.ReuseSeesLastWrite | src/store/mod.rs:8-11 | Reaching a location again sees what the last use left there. Other locations are untouched. |
| StoreKv.WithKvTable | src/store/kv/mod.rs:44-50 | Creating the table if missing keeps an existing table and the blob table. |
| StoreKv.GetAnswer | src/store/kv/mod.rs:59-73 | The stored value. Any failure, an absent key included, is not-found. |
| StoreKv.KvStore.constructor | src/store/kv/mod.rs:19-33 | Only records the location; nothing is opened. |
| StoreKv.KvStore.WithDb | src/store/kv/mod.rs:35-54 | The cached connection with the table made sure of, kept in the cache. |
| StoreKv.KvStore.Get | src/store/kv/mod.rs:59-73 | Answers GetAnswer on the cached database. |
| StoreKv.KvStore.Set | src/store/kv/mod.rs:75-92 | REPLACE echoes the key and writes the value. A failure is internal. |
| StoreKv.KvStore.Delete | src/store/kv/mod.rs:94-108 | Answers the removed value and removes it. A failure or absent key is not-found. |
| StoreKv.TableCreationIsIdempotent | src/store/kv/mod.rs:44-50 | Making sure of the table twice is making sure of it once, and it keeps the rows. |
| StoreKv.SetThenGet | src/store/kv/mod.rs:137-156 | A set is read back, and other keys keep their answers. |
| StoreKv.DeleteReturnsRemovedValue | src/store/kv/mod.rs:157-183 | Delete answers the removed value. A later get and a second delete are not-found. |
| StoreKv.AgreesWithStreamingBackend | src/store/kv/mod.rs:59-92 | Writes the same rows as the SQLite backend and answers present keys alike. An absent key is not-found here but invalid-argument there. |
| StoreBlob.WithBlobTable | src/store/blob/mod.rs:40-55 | Creating the table if missing keeps an existing table and the key-value table. |
| StoreBlob.GetAnswer | src/store/blob/mod.rs:72-90 | The stored row, exactly when the table holds the id and the id binds as a signed 64-bit integer. Any failure, a missing table or row or an unbindable id included, is not-found. |
| StoreBlob.BlobStore.constructor | src/store/blob/mod.rs:19-55 | Creating a store makes sure of the table on the cached connection. |
| StoreBlob.BlobStore.WithDb | src/store/blob/mod.rs:57-67 | The cached connection, kept in the cache. |
| StoreBlob.BlobStore.Get | src/store/blob/mod.rs:72-90 | Answers GetAnswer on the cached database. |
| StoreBlob.BlobStore.Store | src/store/blob/mod.rs:92-107 | The rowid and the table afterwards are StoreOutcome's. |
| StoreBlob.BlobStore.Update | src/store/blob/mod.rs:109-154 | A no-op answers the id and touches nothing. Otherwise the result and table are UpdateOutcome's. |
| StoreBlob.BlobStore.Delete | src/store/blob/mod.rs:156-170 | The removed row and the table afterwards are DeleteOutcome's. |
| StoreBlob.StoreIssuesFreshRowid | src/store/blob/mod.rs:92-107 | A store gets a rowid above every existing one, keeps every row and reads back the stored blob. |
| StoreBlob.UpdateThenGet | src/store/blob/mod.rs:214-303 | Updating an existing row rewrites the named columns, and a get reads that back. |
| StoreBlob.UpdateOfMissingRow | src/store/blob/mod.rs:112-153 | Updating a missing row fails, except the no-op, which succeeds without looking. Neither changes the table. |
| StoreBlob.DeleteReturnsRemovedRow | src/store/blob/mod.rs:156-170 | Delete answers the removed row. A later get and a second delete are not-found, and other rows stay. |
| StoreBlob.UnboundIdFails | src/store/blob/mod.rs:72-170 | An id above the largest signed 64-bit integer fails to bind: get and delete are not-found, an update other than the no-op is internal, whatever the table holds, and the table is unchanged. |
| StoreBlob.MissingTableFailsEverything | src/store/blob/mod.rs:40-55 | On a connection without the table every statement fails. |
| StoreBlob.AgreesWithStreamingBackend | src/store/blob/mod.rs:92-170 | Allocates rowids, rewrites rows and deletes them exactly as the streaming SQLite backend does. |

## Left out

- RocksDB's in-memory location: the source rejects it at connection time and no model of it is given.
- The channels, boxing, `async` and tracing around each stream: a stream is a finite sequence, read to its end. The SQLite backend's `query` and `execute` and the DuckDB backend's `query` send every item into a channel bounded at 64 before the stream that reads it exists (src/backend/sqlite.rs and src/backend/duckdb.rs:55-89). Past 64 items the source blocks, while the model answers every item. That blocking is not modelled.
- The meaning of raw SQL text: a query is an opaque string, and its rows or row count come from an engine parameter.
- SHA-256 is a digest function parameter. Collisions are not ruled out, except where a lemma assumes an injective digest.
- Floating-point values are carried symbolically. Decimal-to-double and integer-to-double conversions are not computed.
- SQLite's random rowid probe once the largest rowid is taken: both the backend and `src/store/blob` model it as failure.
- The numbering of the `TargetStore` enumeration: key-value is 0 and blob is 1. The protobuf definition is not part of this model.
- RocksDB's own error-to-status mapping: each engine failure carries the status it surfaces as.
- `cf_handle(...).unwrap()` and the UTF-8 `expect` in the single-request RocksDB stores, and the same UTF-8 `expect` in the streaming backends (`src/backend/sqlite.rs`, `src/backend/duckdb.rs`, `src/backend/rocksdb.rs`): these panics are not modelled. Stored strings are valid by construction.
- The text of status messages: only status codes are modelled.
- The `DatabaseError` wrapper: its `From` conversion to a status is not part of this model. `src/handler/query.rs`, the DuckDB backend (`src/backend/duckdb.rs`) and the RocksDB backend send errors through it; RocksDB failures carry their status as a parameter. The model assumes it converts as `IntoTonicStatus` does in `src/interop.rs`: every DuckDB error gets `Interop.DuckDbStatus`'s code, and `DuckDbBackend.KvGetEndsAtMissingKey` and `Interop.EnginesDisagree` rest on that. An undecodable target is given the enumeration error's invalid-argument status.
- The per-thread connection cache of `src/store` is modelled for one thread.
- A `CREATE TABLE` in `src/store` whose failure the source ignores: it is assumed to succeed.
- Packing a converted value into `google.protobuf.Any` (type URL and encoding): the model stops at the concrete value.
- The time between the collision check and the put in the RocksDB stores: nothing else writes in between.
- `try_into().expect("more than 10^19 rows altered")` on a row count: counts are u64 values.

## Findings

| source | as written | input that shows it | evidently intended | confidence | as-written member | corrected member |
|---|---|---|---|---|---|---|
| src/blob/mod.rs:224-230 | `not_eq_data` answers true as soon as it meets an id with no blob, without looking at the remaining ids | ids `[missing, id1, id2]` where `missing` has no data and `id1`, `id2` hold equal bytes: answers true although two blobs are equal | each requested id must exist (the comment above the check). An absent id is not-found, as in `src/backend/rocksdb.rs:373-399`, and true only when every blob is present and all are distinct | not executed | LegacyBlob.NotEqAsWrittenMissesDuplicates | LegacyBlob.NotEqVerdict |

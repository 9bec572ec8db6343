/**
 * The SQLite backend (src/backend/sqlite.rs).
 *
 * The engine is modelled by its two tables: `kv(key, value)` and
 * `blob(data, metadata)` addressed by SQLite's implicit `rowid`. A new row gets
 * the largest rowid in the table plus one (1 in an empty table), so deleting the
 * newest blob lets its id be handed out again. As in the DuckDB backend, both
 * sides share one `initialized` flag.
 *
 * Unlike the DuckDB backend, an error item in the request stream is not passed
 * on: `message().await?` returns from the stream body (or from the whole call,
 * for `query` and `execute`, which read every request before answering).
 */
module SqliteBackend {
  import opened Common
  import Interop
  import Conv
  import Streams
  import Maps
  import Comparator
  import ProtoKv
  import ProtoBlob

  type SqliteError = Interop.SqliteError
  type KvTable = map<string, string>

  /** The blob messages as this file reads and writes them: the data field is named `bytes` here. */
  datatype BlobGetResponse = BlobGetResponse(bytes: Bytes, metadata: Option<string>)
  datatype BlobStoreRequest = BlobStoreRequest(bytes: Bytes, metadata: Option<string>)
  datatype BlobUpdateRequest = BlobUpdateRequest(id: u64, bytes: Option<Bytes>, shouldUpdateMetadata: bool, metadata: Option<string>)
  /** A raw query as this file reads it: the query text alone. */
  datatype RawQuery = RawQuery(query: string)

  datatype BlobRow = BlobRow(data: Bytes, metadata: Option<string>)
  type BlobTable = map<u64, BlobRow>

  /** Rowids are positive 64-bit signed integers. */
  ghost predicate ValidRows(rows: BlobTable)
  {
    forall id | id in rows :: 1 <= id <= I64_MAX
  }

  datatype Env = Env(openFault: Option<SqliteError>, schemaFault: Option<SqliteError>, faults: map<nat, SqliteError>)

  /** A statement on a table that does not exist fails with SQLite's generic error code. */
  function NoTable(): Status
  {
    Interop.SqliteStatus(Interop.SqliteError.SqliteFailure(Interop.SqliteCode.CodeUnknown))
  }

  /** A row the query needed is not there (`query_row` found none). */
  function NoRow(): Status
  {
    Interop.SqliteStatus(Interop.SqliteError.QueryReturnedNoRows)
  }

  function OpenOutcome(initialized: bool, env: Env): Result<(), Status>
  {
    if env.openFault.Some? then Err(Interop.SqliteStatus(env.openFault.value))
    else if !initialized && env.schemaFault.Some? then Err(Interop.SqliteStatus(env.schemaFault.value))
    else Ok(())
  }

  function TableAfterConnect(initialized: bool, hadTable: bool, env: Env): bool
  {
    hadTable || (!initialized && OpenOutcome(initialized, env).Ok?)
  }

  /** No id in `ids` is above `x`. */
  predicate Bounds(ids: set<u64>, x: int)
  {
    forall y | y in ids :: y <= x
  }

  /** There is a largest id in a non-empty set of ids. */
  lemma {:induction false} LargestIdExists(ids: set<u64>)
    requires ids != {}
    decreases |ids|
    ensures exists x :: x in ids && Bounds(ids, x)
  {
    var z :| z in ids;
    var rest := ids - {z};
    if rest == {} {
      assert ids == {z};
      assert Bounds(ids, z);
    } else {
      LargestIdExists(rest);
      var x :| x in rest && Bounds(rest, x);
      var top := if z > x then z else x;
      forall y | y in ids
        ensures y <= top
      {
        if y != z {
          assert y in rest;
        }
      }
      assert top in ids && Bounds(ids, top);
    }
  }

  /** The largest rowid in use, 0 for an empty table. */
  function MaxRowid(ids: set<u64>): (m: nat)
    ensures forall id | id in ids :: id <= m
    ensures ids != {} ==> m in ids
    ensures ids == {} ==> m == 0
  {
    if ids == {} then 0
    else
      LargestIdExists(ids);
      var x :| x in ids && Bounds(ids, x);
      x
  }

  // ----- key-value requests -------------------------------------------------

  function KvLookup(table: bool, kv: KvTable, faults: map<nat, SqliteError>, key: string, k: nat): (r: Result<string, Status>)
    ensures k !in faults && table ==> (r.Ok? <==> key in kv)
    ensures r.Ok? ==> key in kv && r.value == kv[key]
    ensures k !in faults && table && key !in kv ==> r == Err(InvalidArgument)
  {
    if k in faults then Err(Interop.SqliteStatus(faults[k]))
    else if !table then Err(NoTable())
    else if key in kv then Ok(kv[key])
    else Err(NoRow())
  }

  function KvGetAnswer(table: bool, kv: KvTable, faults: map<nat, SqliteError>): (ProtoKv.GetRequest, nat) -> Result<ProtoKv.GetResponse, Status>
  {
    (q: ProtoKv.GetRequest, k: nat) =>
      var r := KvLookup(table, kv, faults, q.key, k);
      if r.Ok? then Ok(ProtoKv.GetResponse(r.value)) else Err(r.error)
  }

  function KvValueAnswer<Q>(table: bool, kv: KvTable, faults: map<nat, SqliteError>, key: Q -> string): (Q, nat) -> Result<string, Status>
  {
    (q: Q, k: nat) => KvLookup(table, kv, faults, key(q), k)
  }

  function SetKey(q: ProtoKv.SetRequest): string { q.key }
  function SetValue(q: ProtoKv.SetRequest): string { q.value }
  function SetEcho(q: ProtoKv.SetRequest): ProtoKv.SetResponse { ProtoKv.SetResponse(q.key) }
  function DeleteKey(q: ProtoKv.DeleteRequest): string { q.key }
  function DeleteEcho(q: ProtoKv.DeleteRequest): ProtoKv.DeleteResponse { ProtoKv.DeleteResponse(q.key) }
  function EqKey(q: ProtoKv.EqRequest): string { q.key }
  function NotEqKey(q: ProtoKv.NotEqRequest): string { q.key }

  /** `INSERT OR REPLACE INTO kv`, answered with the key. */
  function KvSetStep(table: bool, faults: map<nat, SqliteError>): (KvTable, ProtoKv.SetRequest, nat) -> (Result<ProtoKv.SetResponse, Status>, KvTable)
  {
    (kv: KvTable, q: ProtoKv.SetRequest, k: nat) =>
      if k in faults then (Err(Interop.SqliteStatus(faults[k])), kv)
      else if !table then (Err(NoTable()), kv)
      else (Ok(SetEcho(q)), kv[q.key := q.value])
  }

  /** `DELETE FROM kv WHERE key = ?`, answered with the key whether or not it was there. */
  function KvDeleteStep(table: bool, faults: map<nat, SqliteError>): (KvTable, ProtoKv.DeleteRequest, nat) -> (Result<ProtoKv.DeleteResponse, Status>, KvTable)
  {
    (kv: KvTable, q: ProtoKv.DeleteRequest, k: nat) =>
      if k in faults then (Err(Interop.SqliteStatus(faults[k])), kv)
      else if !table then (Err(NoTable()), kv)
      else (Ok(DeleteEcho(q)), kv - {q.key})
  }

  // ----- blob requests ------------------------------------------------------

  /**
   * rusqlite binds a `u64` parameter through a conversion that fails above the
   * largest 64-bit signed integer; the statement is prepared first, so a missing
   * table is reported before it.
   */
  predicate Bindable(id: u64) { id <= I64_MAX }

  function Unbindable(): Status
  {
    Interop.SqliteStatus(Interop.SqliteError.ToSqlConversionFailure)
  }

  function BlobGetAnswer(table: bool, rows: BlobTable, faults: map<nat, SqliteError>): (ProtoBlob.GetRequest, nat) -> Result<BlobGetResponse, Status>
  {
    (q: ProtoBlob.GetRequest, k: nat) =>
      if k in faults then Err(Interop.SqliteStatus(faults[k]))
      else if !table then Err(NoTable())
      else if !Bindable(q.id) then Err(Unbindable())
      else if q.id !in rows then Err(NoRow())
      else Ok(BlobGetResponse(rows[q.id].data, rows[q.id].metadata))
  }

  /**
   * `INSERT INTO blob ... RETURNING rowid`: the new row gets the largest rowid
   * plus one. When the largest rowid is already the largest 64-bit integer,
   * SQLite probes for an unused one at random; the model reports the table full.
   */
  function BlobStoreStep(table: bool, faults: map<nat, SqliteError>): (BlobTable, BlobStoreRequest, nat) -> (Result<ProtoBlob.StoreResponse, Status>, BlobTable)
  {
    (rows: BlobTable, q: BlobStoreRequest, k: nat) =>
      if k in faults then (Err(Interop.SqliteStatus(faults[k])), rows)
      else if !table then (Err(NoTable()), rows)
      else if MaxRowid(rows.Keys) >= I64_MAX then (Err(Interop.SqliteStatus(Interop.SqliteError.SqliteFailure(Interop.SqliteCode.DiskFull))), rows)
      else
        var id := MaxRowid(rows.Keys) + 1;
        (Ok(ProtoBlob.StoreResponse(id)), rows[id := BlobRow(q.bytes, q.metadata)])
  }

  /** The row after an update: new data if given; the metadata (NULL for `None`) if the flag is set. */
  function Rewrite(row: BlobRow, bytes: Option<Bytes>, shouldUpdateMetadata: bool, metadata: Option<string>): BlobRow
  {
    BlobRow(if bytes.Some? then bytes.value else row.data, if shouldUpdateMetadata then metadata else row.metadata)
  }

  function UpdateEcho(q: BlobUpdateRequest): ProtoBlob.UpdateResponse { ProtoBlob.UpdateResponse(q.id) }

  /** `(None, false)`: no statement runs. */
  predicate NoOpUpdate(q: BlobUpdateRequest) { q.bytes.None? && !q.shouldUpdateMetadata }

  function ApplyUpdate(rows: BlobTable, q: BlobUpdateRequest): BlobTable
  {
    if NoOpUpdate(q) || q.id !in rows then rows
    else rows[q.id := Rewrite(rows[q.id], q.bytes, q.shouldUpdateMetadata, q.metadata)]
  }

  /**
   * `UPDATE blob SET ... WHERE rowid = ?` for the columns the request names; a
   * rowid with no row changes nothing, a rowid that cannot be bound ends the stream.
   */
  function BlobUpdateStep(table: bool, faults: map<nat, SqliteError>): (BlobTable, BlobUpdateRequest, nat) -> (Result<ProtoBlob.UpdateResponse, Status>, BlobTable)
  {
    (rows: BlobTable, q: BlobUpdateRequest, k: nat) =>
      if NoOpUpdate(q) then (Ok(UpdateEcho(q)), rows)
      else if k in faults then (Err(Interop.SqliteStatus(faults[k])), rows)
      else if !table then (Err(NoTable()), rows)
      else if !Bindable(q.id) then (Err(Unbindable()), rows)
      else (Ok(UpdateEcho(q)), ApplyUpdate(rows, q))
  }

  function BlobDeleteStep(table: bool, faults: map<nat, SqliteError>): (BlobTable, ProtoBlob.DeleteRequest, nat) -> (Result<ProtoBlob.DeleteResponse, Status>, BlobTable)
  {
    (rows: BlobTable, q: ProtoBlob.DeleteRequest, k: nat) =>
      if k in faults then (Err(Interop.SqliteStatus(faults[k])), rows)
      else if !table then (Err(NoTable()), rows)
      else if !Bindable(q.id) then (Err(Unbindable()), rows)
      else (Ok(ProtoBlob.DeleteResponse(q.id)), rows - {q.id})
  }

  function EqDataId(q: ProtoBlob.EqDataRequest): u64 { q.id }
  function NotEqDataId(q: ProtoBlob.NotEqDataRequest): u64 { q.id }

  function BlobDataAnswer<Q>(table: bool, rows: BlobTable, faults: map<nat, SqliteError>, id: Q -> u64): (Q, nat) -> Result<Bytes, Status>
  {
    (q: Q, k: nat) =>
      if k in faults then Err(Interop.SqliteStatus(faults[k]))
      else if !table then Err(NoTable())
      else if !Bindable(id(q)) then Err(Unbindable())
      else if id(q) !in rows then Err(NoRow())
      else Ok(rows[id(q)].data)
  }

  // ----- raw queries --------------------------------------------------------

  type Row = seq<Result<Conv.SqliteValue, SqliteError>>

  /** What the engine does with one query: preparing or running it fails, or it yields rows. */
  datatype QueryRun = PrepareFailed(error: SqliteError) | QueryFailed(error: SqliteError) | Fetched(rows: seq<Row>)

  /** The values of `row` from column `i` on, converted, up to the first failing column, and its error. */
  function ReadColumns(row: Row, i: nat): (seq<Conv.ConcreteValue>, Option<SqliteError>)
    requires i <= |row|
    decreases |row| - i
  {
    if i == |row| then ([], None)
    else match row[i]
      case Err(e) => ([], Some(e))
      case Ok(v) =>
        var rest := ReadColumns(row, i + 1);
        ([Conv.SqliteToAny(v).value] + rest.0, rest.1)
  }

  /**
   * What reading a row from column `i` gives: the converted values of the
   * columns up to the first failing one, in order, and that column's error;
   * no error exactly when every column was read.
   */
  lemma {:induction false} ReadColumnsShape(row: Row, i: nat)
    requires i <= |row|
    decreases |row| - i
    ensures var r := ReadColumns(row, i);
      |r.0| <= |row| - i &&
      (forall j | i <= j < i + |r.0| :: row[j].Ok? && r.0[j - i] == Conv.SqliteToAny(row[j].value).value) &&
      (r.1.None? <==> |r.0| == |row| - i) &&
      (r.1.Some? ==> row[i + |r.0|] == Err(r.1.value))
  {
    if i < |row| && row[i].Ok? {
      ReadColumnsShape(row, i + 1);
      var rest := ReadColumns(row, i + 1).0;
      var r := ReadColumns(row, i).0;
      forall k | 1 <= k < |r|
        ensures r[k] == rest[k - 1]
      {
      }
    }
  }

  /** One row sends the error of its first failing column, if any, then the row read so far. */
  function RowItems(row: Row): (r: seq<Result<ProtoQueryResult, Status>>)
    ensures 1 <= |r| <= 2 && r[|r| - 1] == Ok(ProtoQueryResult(ReadColumns(row, 0).0))
    ensures |r| == 2 <==> ReadColumns(row, 0).1.Some?
    ensures |r| == 2 ==> ReadColumns(row, 0).1.Some? && r[0] == Err(Interop.SqliteStatus(ReadColumns(row, 0).1.value))
  {
    var read := ReadColumns(row, 0);
    if read.1.Some? then [Err(Interop.SqliteStatus(read.1.value)), Ok(ProtoQueryResult(read.0))]
    else [Ok(ProtoQueryResult(read.0))]
  }

  /** A row of converted values (`query::QueryResult`). */
  datatype ProtoQueryResult = ProtoQueryResult(fields: seq<Conv.ConcreteValue>)

  function RowsItems(rows: seq<Row>): seq<Result<ProtoQueryResult, Status>>
  {
    if rows == [] then [] else RowsItems(rows[..|rows| - 1]) + RowItems(rows[|rows| - 1])
  }

  /** A prefix of items followed by what the rest of the call produces; an error of the call discards the prefix. */
  function Prepend<T>(prefix: seq<T>, rest: Result<seq<T>, Status>): Result<seq<T>, Status>
  {
    if rest.Err? then rest else Ok(prefix + rest.value)
  }

  lemma PrependNothing<T>(rest: Result<seq<T>, Status>)
    ensures Prepend([], rest) == rest
  {
    if rest.Ok? {
      assert [] + rest.value == rest.value;
    }
  }

  lemma PrependTwice<T>(a: seq<T>, b: seq<T>, rest: Result<seq<T>, Status>)
    ensures Prepend(a, Prepend(b, rest)) == Prepend(a + b, rest)
  {
    if rest.Ok? {
      assert a + (b + rest.value) == (a + b) + rest.value;
    }
  }

  /**
   * What `query` returns for the requests from position `k` on: the items of
   * each query in turn; after a failed prepare or query, its one error item and
   * nothing more; an error in the request stream fails the whole call.
   */
  function QueryOutcome(reqs: seq<Result<RawQuery, Status>>, k: nat, run: (nat, string) -> QueryRun): (r: Result<seq<Result<ProtoQueryResult, Status>>, Status>)
    requires k <= |reqs|
    decreases |reqs| - k
    ensures r.Err? ==> exists j | k <= j < |reqs| :: reqs[j] == Err(r.error)
    ensures (forall j | k <= j < |reqs| :: reqs[j].Ok?) ==> r.Ok?
  {
    if k == |reqs| then Ok([])
    else match reqs[k]
      case Err(e) => Err(e)
      case Ok(q) =>
        match run(k, q.query)
        case PrepareFailed(e) => Ok([Err(Interop.SqliteStatus(e))])
        case QueryFailed(e) => Ok([Err(Interop.SqliteStatus(e))])
        case Fetched(rows) => Prepend(RowsItems(rows), QueryOutcome(reqs, k + 1, run))
  }

  /** The first position from `k` on whose request does not arrive or whose query does not fetch rows; `|reqs|` if none. */
  function FirstStop(reqs: seq<Result<RawQuery, Status>>, k: nat, run: (nat, string) -> QueryRun): (m: nat)
    requires k <= |reqs|
    decreases |reqs| - k
    ensures k <= m <= |reqs|
  {
    if k == |reqs| then k
    else if reqs[k].Ok? && run(k, reqs[k].value.query).Fetched? then FirstStop(reqs, k + 1, run)
    else k
  }

  /** The items of the queries from `k` to `m` (excluded) that fetched rows, query after query. */
  function FetchedItems(reqs: seq<Result<RawQuery, Status>>, k: nat, m: nat, run: (nat, string) -> QueryRun): seq<Result<ProtoQueryResult, Status>>
    requires k <= m <= |reqs|
    decreases m - k
  {
    if k == m then []
    else
      var items := if reqs[k].Ok? && run(k, reqs[k].value.query).Fetched? then RowsItems(run(k, reqs[k].value.query).rows) else [];
      items + FetchedItems(reqs, k + 1, m, run)
  }

  /**
   * What `query` does, stated by where it stops: every query before the stop
   * position arrived and fetched rows, and their items come first, in order.
   * If no query stops, those items are the answer. An error in the request
   * stream at the stop position fails the whole call with that error. A failed
   * prepare or query there adds its one error item and ends the processing,
   * whatever requests follow. So the call fails exactly when an inbound error
   * comes before the first failed query.
   */
  lemma {:induction false} QueryStopsAtFirstFailure(reqs: seq<Result<RawQuery, Status>>, k: nat, run: (nat, string) -> QueryRun)
    requires k <= |reqs|
    decreases |reqs| - k
    ensures var m := FirstStop(reqs, k, run);
      var items := FetchedItems(reqs, k, m, run);
      var r := QueryOutcome(reqs, k, run);
      (forall j | k <= j < m :: reqs[j].Ok? && run(j, reqs[j].value.query).Fetched?) &&
      (r.Err? <==> m < |reqs| && reqs[m].Err?) &&
      (m == |reqs| ==> r == Ok(items)) &&
      (m < |reqs| && reqs[m].Err? ==> r == Err(reqs[m].error)) &&
      (m < |reqs| && reqs[m].Ok? ==>
        !run(m, reqs[m].value.query).Fetched? && r == Ok(items + [Err(Interop.SqliteStatus(run(m, reqs[m].value.query).error))]))
  {
    if k < |reqs| && reqs[k].Ok? && run(k, reqs[k].value.query).Fetched? {
      QueryStopsAtFirstFailure(reqs, k + 1, run);
      var m := FirstStop(reqs, k + 1, run);
      var head := RowsItems(run(k, reqs[k].value.query).rows);
      var rest := FetchedItems(reqs, k + 1, m, run);
      assert FetchedItems(reqs, k, m, run) == head + rest;
      assert QueryOutcome(reqs, k, run) == Prepend(head, QueryOutcome(reqs, k + 1, run));
      if m < |reqs| && reqs[m].Ok? {
        var e := [Err(Interop.SqliteStatus(run(m, reqs[m].value.query).error))];
        assert head + (rest + e) == (head + rest) + e;
      }
    } else if k < |reqs| && reqs[k].Ok? {
      var e := [Err(Interop.SqliteStatus(run(k, reqs[k].value.query).error))];
      assert FetchedItems(reqs, k, k, run) + e == e;
    }
  }

  /**
   * What `execute` returns for the requests from position `k` on: one count per
   * query, in order, when every request arrives and every statement runs; the
   * first error otherwise, with no counts.
   */
  function ExecuteOutcome(reqs: seq<Result<RawQuery, Status>>, k: nat, exec: (nat, string) -> Result<u64, SqliteError>): (r: Result<seq<Result<ProtoRowsChanged, Status>>, Status>)
    requires k <= |reqs|
    decreases |reqs| - k
    ensures r.Ok? <==> forall j | k <= j < |reqs| :: reqs[j].Ok? && exec(j, reqs[j].value.query).Ok?
    ensures r.Ok? ==> |r.value| == |reqs| - k
    ensures r.Ok? ==> forall j | 0 <= j < |r.value| :: r.value[j] == Ok(ProtoRowsChanged(exec(k + j, reqs[k + j].value.query).value))
  {
    if k == |reqs| then Ok([])
    else match reqs[k]
      case Err(e) => Err(e)
      case Ok(q) =>
        match exec(k, q.query)
        case Err(e) => Err(Interop.SqliteStatus(e))
        case Ok(n) =>
          var rest := ExecuteOutcome(reqs, k + 1, exec);
          if rest.Err? then rest
          else
            var r := [Ok(ProtoRowsChanged(n))] + rest.value;
            assert forall j | 1 <= j < |r| :: r[j] == rest.value[j - 1];
            Ok(r)
  }

  datatype ProtoRowsChanged = ProtoRowsChanged(rowsChanged: u64)

  /** The first position from `k` on whose request does not arrive or whose statement fails; `|reqs|` if none. */
  function ExecuteStop(reqs: seq<Result<RawQuery, Status>>, k: nat, exec: (nat, string) -> Result<u64, SqliteError>): (m: nat)
    requires k <= |reqs|
    decreases |reqs| - k
    ensures k <= m <= |reqs|
    ensures m < |reqs| ==> reqs[m].Err? || exec(m, reqs[m].value.query).Err?
  {
    if k == |reqs| then k
    else if reqs[k].Ok? && exec(k, reqs[k].value.query).Ok? then ExecuteStop(reqs, k + 1, exec)
    else k
  }

  /**
   * Which error a failed `execute` returns: every request before the stop
   * position arrived and its statement ran; the call fails exactly when there
   * is a stop position, and then with the inbound error found there unchanged,
   * or with the status of the statement that failed there.
   */
  lemma {:induction false} ExecuteFailsWithFirstError(reqs: seq<Result<RawQuery, Status>>, k: nat, exec: (nat, string) -> Result<u64, SqliteError>)
    requires k <= |reqs|
    decreases |reqs| - k
    ensures var m := ExecuteStop(reqs, k, exec);
      var r := ExecuteOutcome(reqs, k, exec);
      (forall j | k <= j < m :: reqs[j].Ok? && exec(j, reqs[j].value.query).Ok?) &&
      (r.Ok? <==> m == |reqs|) &&
      (m < |reqs| ==> r == Err(if reqs[m].Err? then reqs[m].error else Interop.SqliteStatus(exec(m, reqs[m].value.query).error)))
  {
    if k < |reqs| && reqs[k].Ok? && exec(k, reqs[k].value.query).Ok? {
      ExecuteFailsWithFirstError(reqs, k + 1, exec);
    }
  }


  /** Pushing one row: converted values column by column, stopping at the first failing column. */
  method PushRow(row: Row) returns (sent: seq<Result<ProtoQueryResult, Status>>)
    ensures sent == RowItems(row)
  {
    ghost var read := ReadColumns(row, 0);
    sent := [];
    var values: seq<Conv.ConcreteValue> := [];
    var i := 0;
    while i < |row|
      invariant 0 <= i <= |row|
      invariant values + ReadColumns(row, i).0 == read.0
      invariant ReadColumns(row, i).1 == read.1
    {
      ReadColumnsStep(row, i);
      if row[i].Err? {
        sent := [Err(Interop.SqliteStatus(row[i].error))];
        break;
      }
      var value := Conv.SqliteToAny(row[i].value).value;
      Streams.AppendAssoc(values, [value], ReadColumns(row, i + 1).0);
      values := values + [value];
      i := i + 1;
    }
    assert values + [] == values;
    sent := sent + [Ok(ProtoQueryResult(values))];
  }

  /** One column of a row: a failing column stops the read, any other is converted and the read goes on. */
  lemma ReadColumnsStep(row: Row, i: nat)
    requires i < |row|
    ensures row[i].Err? ==> ReadColumns(row, i) == ([], Some(row[i].error))
    ensures row[i].Ok? ==> ReadColumns(row, i) == ([Conv.SqliteToAny(row[i].value).value] + ReadColumns(row, i + 1).0, ReadColumns(row, i + 1).1)
  {
  }

  /** Pushing the rows of one query, row by row. */
  method PushRows(rows: seq<Row>) returns (sent: seq<Result<ProtoQueryResult, Status>>)
    ensures sent == RowsItems(rows)
  {
    sent := [];
    var i := 0;
    while i < |rows|
      invariant 0 <= i <= |rows|
      invariant sent == RowsItems(rows[..i])
    {
      var items := PushRow(rows[i]);
      sent := sent + items;
      assert rows[..i + 1][..i] == rows[..i];
      i := i + 1;
    }
    assert rows[..|rows|] == rows;
  }

  /**
   * `QueryBackend::query`: opens the database, then reads every request and
   * runs its query before any item is returned.
   */
  method Query(openFault: Option<SqliteError>, reqs: seq<Result<RawQuery, Status>>, run: (nat, string) -> QueryRun)
    returns (r: Result<seq<Result<ProtoQueryResult, Status>>, Status>)
    ensures openFault.Some? ==> r == Err(Interop.SqliteStatus(openFault.value))
    ensures openFault.None? ==> r == QueryOutcome(reqs, 0, run)
  {
    if openFault.Some? {
      return Err(Interop.SqliteStatus(openFault.value));
    }
    var sent: seq<Result<ProtoQueryResult, Status>> := [];
    PrependNothing(QueryOutcome(reqs, 0, run));
    var k := 0;
    while k < |reqs|
      invariant 0 <= k <= |reqs|
      invariant Prepend(sent, QueryOutcome(reqs, k, run)) == QueryOutcome(reqs, 0, run)
    {
      match reqs[k] {
        case Err(e) =>
          return Err(e);
        case Ok(q) =>
          match run(k, q.query) {
            case PrepareFailed(e) =>
              return Ok(sent + [Err(Interop.SqliteStatus(e))]);
            case QueryFailed(e) =>
              return Ok(sent + [Err(Interop.SqliteStatus(e))]);
            case Fetched(rows) =>
              var items := PushRows(rows);
              PrependTwice(sent, items, QueryOutcome(reqs, k + 1, run));
              sent := sent + items;
          }
      }
      k := k + 1;
    }
    assert sent + [] == sent;
    return Ok(sent);
  }

  /**
   * `QueryBackend::execute`: opens the database, then runs every request's
   * statement, failing the whole call at the first error.
   */
  method Execute(openFault: Option<SqliteError>, reqs: seq<Result<RawQuery, Status>>, exec: (nat, string) -> Result<u64, SqliteError>)
    returns (r: Result<seq<Result<ProtoRowsChanged, Status>>, Status>)
    ensures openFault.Some? ==> r == Err(Interop.SqliteStatus(openFault.value))
    ensures openFault.None? ==> r == ExecuteOutcome(reqs, 0, exec)
  {
    if openFault.Some? {
      return Err(Interop.SqliteStatus(openFault.value));
    }
    var sent: seq<Result<ProtoRowsChanged, Status>> := [];
    PrependNothing(ExecuteOutcome(reqs, 0, exec));
    var k := 0;
    while k < |reqs|
      invariant 0 <= k <= |reqs|
      invariant Prepend(sent, ExecuteOutcome(reqs, k, exec)) == ExecuteOutcome(reqs, 0, exec)
    {
      match reqs[k] {
        case Err(e) =>
          return Err(e);
        case Ok(q) =>
          match exec(k, q.query) {
            case Err(e) =>
              return Err(Interop.SqliteStatus(e));
            case Ok(n) =>
              assert ExecuteOutcome(reqs, k, exec) == Prepend([Ok(ProtoRowsChanged(n))], ExecuteOutcome(reqs, k + 1, exec));
              PrependTwice(sent, [Ok(ProtoRowsChanged(n))], ExecuteOutcome(reqs, k + 1, exec));
              sent := sent + [Ok(ProtoRowsChanged(n))];
          }
      }
      k := k + 1;
    }
    assert sent + [] == sent;
    return Ok(sent);
  }

  // ----- the backend object -------------------------------------------------

  class Sqlite {
    var initialized: bool
    var hasKvTable: bool
    var kv: KvTable
    var hasBlobTable: bool
    var blob: BlobTable

    ghost predicate Valid()
      reads this
    {
      (!hasKvTable ==> kv == map[]) && (!hasBlobTable ==> blob == map[]) && ValidRows(blob)
    }

    /** `at_location`: a backend over a database file that may already hold either table. */
    constructor (hasKvTable: bool, kv: KvTable, hasBlobTable: bool, blob: BlobTable)
      requires (!hasKvTable ==> kv == map[]) && (!hasBlobTable ==> blob == map[]) && ValidRows(blob)
      ensures Valid() && !initialized
      ensures this.hasKvTable == hasKvTable && this.kv == kv && this.hasBlobTable == hasBlobTable && this.blob == blob
    {
      initialized := false;
      this.hasKvTable := hasKvTable;
      this.kv := kv;
      this.hasBlobTable := hasBlobTable;
      this.blob := blob;
    }

    twostate predicate ConnectedKv(env: Env, ok: bool)
      reads this
    {
      ok == OpenOutcome(old(initialized), env).Ok? &&
      initialized == (old(initialized) || ok) &&
      hasKvTable == TableAfterConnect(old(initialized), old(hasKvTable), env) &&
      hasBlobTable == old(hasBlobTable) && blob == old(blob)
    }

    twostate predicate ConnectedBlob(env: Env, ok: bool)
      reads this
    {
      ok == OpenOutcome(old(initialized), env).Ok? &&
      initialized == (old(initialized) || ok) &&
      hasBlobTable == TableAfterConnect(old(initialized), old(hasBlobTable), env) &&
      hasKvTable == old(hasKvTable) && kv == old(kv)
    }

    /** `CREATE TABLE IF NOT EXISTS kv`, then set the flag. */
    method InitializeKv(env: Env) returns (r: Result<(), Status>)
      requires Valid()
      modifies this
      ensures Valid()
      ensures env.schemaFault.Some? ==> r == Err(Interop.SqliteStatus(env.schemaFault.value)) && unchanged(this)
      ensures env.schemaFault.None? ==> r == Ok(()) && initialized && hasKvTable
      ensures kv == old(kv) && hasBlobTable == old(hasBlobTable) && blob == old(blob)
    {
      if env.schemaFault.Some? {
        return Err(Interop.SqliteStatus(env.schemaFault.value));
      }
      hasKvTable := true;
      initialized := true;
      return Ok(());
    }

    /** `CREATE TABLE IF NOT EXISTS blob`, then set the flag. */
    method InitializeBlob(env: Env) returns (r: Result<(), Status>)
      requires Valid()
      modifies this
      ensures Valid()
      ensures env.schemaFault.Some? ==> r == Err(Interop.SqliteStatus(env.schemaFault.value)) && unchanged(this)
      ensures env.schemaFault.None? ==> r == Ok(()) && initialized && hasBlobTable
      ensures blob == old(blob) && hasKvTable == old(hasKvTable) && kv == old(kv)
    {
      if env.schemaFault.Some? {
        return Err(Interop.SqliteStatus(env.schemaFault.value));
      }
      hasBlobTable := true;
      initialized := true;
      return Ok(());
    }

    method ConnectKv(env: Env) returns (r: Result<(), Status>)
      requires Valid()
      modifies this
      ensures Valid() && ConnectedKv(env, r.Ok?) && kv == old(kv)
      ensures r == OpenOutcome(old(initialized), env)
    {
      if env.openFault.Some? {
        return Err(Interop.SqliteStatus(env.openFault.value));
      }
      if !initialized {
        r := InitializeKv(env);
        if r.Err? {
          return;
        }
      }
      return Ok(());
    }

    method ConnectBlob(env: Env) returns (r: Result<(), Status>)
      requires Valid()
      modifies this
      ensures Valid() && ConnectedBlob(env, r.Ok?) && blob == old(blob)
      ensures r == OpenOutcome(old(initialized), env)
    {
      if env.openFault.Some? {
        return Err(Interop.SqliteStatus(env.openFault.value));
      }
      if !initialized {
        r := InitializeBlob(env);
        if r.Err? {
          return;
        }
      }
      return Ok(());
    }

    method KvGet(env: Env, reqs: seq<Result<ProtoKv.GetRequest, Status>>) returns (r: Result<Stream<ProtoKv.GetResponse>, Status>)
      requires Valid()
      modifies this
      ensures Valid() && ConnectedKv(env, r.Ok?) && kv == old(kv)
      ensures r.Err? ==> r == Err(OpenOutcome(old(initialized), env).error)
      ensures r.Ok? ==> r.value == Streams.ServeReads(reqs, 0, KvGetAnswer(hasKvTable, kv, env.faults), false)
    {
      var c := ConnectKv(env);
      if c.Err? {
        return Err(c.error);
      }
      var out := Streams.RunReads(reqs, KvGetAnswer(hasKvTable, kv, env.faults), false);
      return Ok(out);
    }

    method KvSet(env: Env, reqs: seq<Result<ProtoKv.SetRequest, Status>>) returns (r: Result<Stream<ProtoKv.SetResponse>, Status>)
      requires Valid()
      modifies this
      ensures Valid() && ConnectedKv(env, r.Ok?)
      ensures r.Err? ==> r == Err(OpenOutcome(old(initialized), env).error) && kv == old(kv)
      ensures r.Ok? ==> (r.value, kv) == Streams.Serve(old(kv), reqs, 0, KvSetStep(hasKvTable, env.faults), false)
    {
      var c := ConnectKv(env);
      if c.Err? {
        return Err(c.error);
      }
      var out, after := Streams.RunSteps(kv, reqs, KvSetStep(hasKvTable, env.faults), false);
      KvSetKeepsEmpty(kv, reqs, 0, hasKvTable, env.faults);
      kv := after;
      return Ok(out);
    }

    method KvDelete(env: Env, reqs: seq<Result<ProtoKv.DeleteRequest, Status>>) returns (r: Result<Stream<ProtoKv.DeleteResponse>, Status>)
      requires Valid()
      modifies this
      ensures Valid() && ConnectedKv(env, r.Ok?)
      ensures r.Err? ==> r == Err(OpenOutcome(old(initialized), env).error) && kv == old(kv)
      ensures r.Ok? ==> (r.value, kv) == Streams.Serve(old(kv), reqs, 0, KvDeleteStep(hasKvTable, env.faults), false)
    {
      var c := ConnectKv(env);
      if c.Err? {
        return Err(c.error);
      }
      var out, after := Streams.RunSteps(kv, reqs, KvDeleteStep(hasKvTable, env.faults), false);
      KvDeleteKeepsEmpty(kv, reqs, 0, hasKvTable, env.faults);
      kv := after;
      return Ok(out);
    }

    /** `eq`, with the all-equal loop written inline in the source; it is the same loop as `all_eq`. */
    method KvEq<H(==)>(env: Env, reqs: seq<Result<ProtoKv.EqRequest, Status>>, digest: string -> H) returns (r: Result<bool, Status>)
      requires Valid()
      modifies this
      ensures Valid() && ConnectedKv(env, OpenOutcome(old(initialized), env).Ok?) && kv == old(kv)
      ensures OpenOutcome(old(initialized), env).Err? ==> r == Err(OpenOutcome(old(initialized), env).error)
      ensures OpenOutcome(old(initialized), env).Ok? ==>
        r == Comparator.EqVerdict(Streams.ServeReads(reqs, 0, KvValueAnswer(hasKvTable, kv, env.faults, EqKey), false), digest).0
    {
      var c := ConnectKv(env);
      if c.Err? {
        return Err(c.error);
      }
      var values := Streams.RunReads(reqs, KvValueAnswer(hasKvTable, kv, env.faults, EqKey), false);
      var pulled;
      r, pulled := Comparator.AllEq(values, digest);
    }

    /** `not_eq`, with the set of digests kept inline in the source; it is the same loop as `all_not_eq`. */
    method KvNotEq<H(==)>(env: Env, reqs: seq<Result<ProtoKv.NotEqRequest, Status>>, digest: string -> H) returns (r: Result<bool, Status>)
      requires Valid()
      modifies this
      ensures Valid() && ConnectedKv(env, OpenOutcome(old(initialized), env).Ok?) && kv == old(kv)
      ensures OpenOutcome(old(initialized), env).Err? ==> r == Err(OpenOutcome(old(initialized), env).error)
      ensures OpenOutcome(old(initialized), env).Ok? ==>
        r == Comparator.NotEqVerdict(Streams.ServeReads(reqs, 0, KvValueAnswer(hasKvTable, kv, env.faults, NotEqKey), false), digest).0
    {
      var c := ConnectKv(env);
      if c.Err? {
        return Err(c.error);
      }
      var values := Streams.RunReads(reqs, KvValueAnswer(hasKvTable, kv, env.faults, NotEqKey), false);
      var pulled;
      r, pulled := Comparator.AllNotEq(values, digest);
    }

    method BlobGet(env: Env, reqs: seq<Result<ProtoBlob.GetRequest, Status>>) returns (r: Result<Stream<BlobGetResponse>, Status>)
      requires Valid()
      modifies this
      ensures Valid() && ConnectedBlob(env, r.Ok?) && blob == old(blob)
      ensures r.Err? ==> r == Err(OpenOutcome(old(initialized), env).error)
      ensures r.Ok? ==> r.value == Streams.ServeReads(reqs, 0, BlobGetAnswer(hasBlobTable, blob, env.faults), false)
    {
      var c := ConnectBlob(env);
      if c.Err? {
        return Err(c.error);
      }
      var out := Streams.RunReads(reqs, BlobGetAnswer(hasBlobTable, blob, env.faults), false);
      return Ok(out);
    }

    method BlobStore(env: Env, reqs: seq<Result<BlobStoreRequest, Status>>) returns (r: Result<Stream<ProtoBlob.StoreResponse>, Status>)
      requires Valid()
      modifies this
      ensures Valid() && ConnectedBlob(env, r.Ok?)
      ensures r.Err? ==> r == Err(OpenOutcome(old(initialized), env).error) && blob == old(blob)
      ensures r.Ok? ==> (r.value, blob) == Streams.Serve(old(blob), reqs, 0, BlobStoreStep(hasBlobTable, env.faults), false)
    {
      var c := ConnectBlob(env);
      if c.Err? {
        return Err(c.error);
      }
      var out, after := Streams.RunSteps(blob, reqs, BlobStoreStep(hasBlobTable, env.faults), false);
      StoreKeepsValid(blob, reqs, 0, hasBlobTable, env.faults);
      blob := after;
      return Ok(out);
    }

    method BlobUpdate(env: Env, reqs: seq<Result<BlobUpdateRequest, Status>>) returns (r: Result<Stream<ProtoBlob.UpdateResponse>, Status>)
      requires Valid()
      modifies this
      ensures Valid() && ConnectedBlob(env, r.Ok?)
      ensures r.Err? ==> r == Err(OpenOutcome(old(initialized), env).error) && blob == old(blob)
      ensures r.Ok? ==> (r.value, blob) == Streams.Serve(old(blob), reqs, 0, BlobUpdateStep(hasBlobTable, env.faults), false)
    {
      var c := ConnectBlob(env);
      if c.Err? {
        return Err(c.error);
      }
      var out, after := Streams.RunSteps(blob, reqs, BlobUpdateStep(hasBlobTable, env.faults), false);
      UpdateKeepsIds(blob, reqs, 0, hasBlobTable, env.faults);
      blob := after;
      return Ok(out);
    }

    method BlobDelete(env: Env, reqs: seq<Result<ProtoBlob.DeleteRequest, Status>>) returns (r: Result<Stream<ProtoBlob.DeleteResponse>, Status>)
      requires Valid()
      modifies this
      ensures Valid() && ConnectedBlob(env, r.Ok?)
      ensures r.Err? ==> r == Err(OpenOutcome(old(initialized), env).error) && blob == old(blob)
      ensures r.Ok? ==> (r.value, blob) == Streams.Serve(old(blob), reqs, 0, BlobDeleteStep(hasBlobTable, env.faults), false)
    {
      var c := ConnectBlob(env);
      if c.Err? {
        return Err(c.error);
      }
      var out, after := Streams.RunSteps(blob, reqs, BlobDeleteStep(hasBlobTable, env.faults), false);
      DeleteKeepsValid(blob, reqs, 0, hasBlobTable, env.faults);
      blob := after;
      return Ok(out);
    }

    method BlobEqData<H(==)>(env: Env, reqs: seq<Result<ProtoBlob.EqDataRequest, Status>>, digest: Bytes -> H) returns (r: Result<bool, Status>)
      requires Valid()
      modifies this
      ensures Valid() && ConnectedBlob(env, OpenOutcome(old(initialized), env).Ok?) && blob == old(blob)
      ensures OpenOutcome(old(initialized), env).Err? ==> r == Err(OpenOutcome(old(initialized), env).error)
      ensures OpenOutcome(old(initialized), env).Ok? ==>
        r == Comparator.EqVerdict(Streams.ServeReads(reqs, 0, BlobDataAnswer(hasBlobTable, blob, env.faults, EqDataId), false), digest).0
    {
      var c := ConnectBlob(env);
      if c.Err? {
        return Err(c.error);
      }
      var values := Streams.RunReads(reqs, BlobDataAnswer(hasBlobTable, blob, env.faults, EqDataId), false);
      var pulled;
      r, pulled := Comparator.AllEq(values, digest);
    }

    method BlobNotEqData<H(==)>(env: Env, reqs: seq<Result<ProtoBlob.NotEqDataRequest, Status>>, digest: Bytes -> H) returns (r: Result<bool, Status>)
      requires Valid()
      modifies this
      ensures Valid() && ConnectedBlob(env, OpenOutcome(old(initialized), env).Ok?) && blob == old(blob)
      ensures OpenOutcome(old(initialized), env).Err? ==> r == Err(OpenOutcome(old(initialized), env).error)
      ensures OpenOutcome(old(initialized), env).Ok? ==>
        r == Comparator.NotEqVerdict(Streams.ServeReads(reqs, 0, BlobDataAnswer(hasBlobTable, blob, env.faults, NotEqDataId), false), digest).0
    {
      var c := ConnectBlob(env);
      if c.Err? {
        return Err(c.error);
      }
      var values := Streams.RunReads(reqs, BlobDataAnswer(hasBlobTable, blob, env.faults, NotEqDataId), false);
      var pulled;
      r, pulled := Comparator.AllNotEq(values, digest);
    }
  }

  // ----- what the streams do to the tables ----------------------------------

  function AnyTable(t: KvTable): bool { true }
  function AnyRows(t: BlobTable): bool { true }

  /**
   * With the table in place, no engine failure and no error in the request
   * stream, a set stream answers every request with its key and leaves every key
   * with the value of the last request naming it, every other key as it was.
   */
  lemma KvSetLastWins(kv: KvTable, reqs: seq<Result<ProtoKv.SetRequest, Status>>, faults: map<nat, SqliteError>)
    requires forall k | 0 <= k < |reqs| :: k !in faults && reqs[k].Ok?
    ensures var r := Streams.Serve(kv, reqs, 0, KvSetStep(true, faults), false);
      |r.0| == |reqs| && (forall j | 0 <= j < |reqs| :: r.0[j] == Ok(ProtoKv.SetResponse(reqs[j].value.key))) &&
      forall key ::
        var w := Maps.LastWrite(reqs, 0, SetKey, key);
        (w.Some? ==> key in r.1 && r.1[key] == reqs[w.value].value.value) &&
        (w.None? ==> (key in r.1 <==> key in kv) && (key in kv ==> r.1[key] == kv[key]))
  {
    forall t: KvTable, q: ProtoKv.SetRequest, k: nat | AnyTable(t) && 0 <= k < |reqs|
      ensures KvSetStep(true, faults)(t, q, k) == (Ok(SetEcho(q)), Maps.Upsert(SetKey, SetValue)(t, q))
    {
      assert KvSetStep(true, faults)(t, q, k) == (Ok(SetEcho(q)), t[q.key := q.value]);
      assert Maps.Upsert(SetKey, SetValue)(t, q) == t[SetKey(q) := SetValue(q)];
    }
    Streams.ServeWithoutFaults(kv, reqs, 0, KvSetStep(true, faults), SetEcho, Maps.Upsert(SetKey, SetValue), AnyTable, false);
    Maps.UpsertLastWins(kv, reqs, 0, SetKey, SetValue, false);
  }

  /**
   * With the table in place, no engine failure and no error in the request
   * stream, a delete stream answers every request with its key and leaves exactly
   * the keys no request names.
   */
  lemma KvDeleteRemoves(kv: KvTable, reqs: seq<Result<ProtoKv.DeleteRequest, Status>>, faults: map<nat, SqliteError>)
    requires forall k | 0 <= k < |reqs| :: k !in faults && reqs[k].Ok?
    ensures var r := Streams.Serve(kv, reqs, 0, KvDeleteStep(true, faults), false);
      |r.0| == |reqs| && (forall j | 0 <= j < |reqs| :: r.0[j] == Ok(ProtoKv.DeleteResponse(reqs[j].value.key))) &&
      forall key :: (key in r.1 <==> key in kv && Maps.LastWrite(reqs, 0, DeleteKey, key).None?) && (key in r.1 ==> r.1[key] == kv[key])
  {
    forall t: KvTable, q: ProtoKv.DeleteRequest, k: nat | AnyTable(t) && 0 <= k < |reqs|
      ensures KvDeleteStep(true, faults)(t, q, k) == (Ok(DeleteEcho(q)), Maps.Remove<ProtoKv.DeleteRequest, string, string>(DeleteKey)(t, q))
    {
      assert KvDeleteStep(true, faults)(t, q, k) == (Ok(DeleteEcho(q)), t - {q.key});
      assert Maps.Remove<ProtoKv.DeleteRequest, string, string>(DeleteKey)(t, q) == t - {DeleteKey(q)};
    }
    Streams.ServeWithoutFaults(kv, reqs, 0, KvDeleteStep(true, faults), DeleteEcho, Maps.Remove<ProtoKv.DeleteRequest, string, string>(DeleteKey), AnyTable, false);
    Maps.RemoveDeletes(kv, reqs, 0, DeleteKey, false);
  }

  lemma {:induction false} KvSetKeepsEmpty(kv: KvTable, reqs: seq<Result<ProtoKv.SetRequest, Status>>, from: nat, table: bool, faults: map<nat, SqliteError>)
    requires from <= |reqs|
    decreases |reqs| - from
    ensures !table ==> Streams.Serve(kv, reqs, from, KvSetStep(table, faults), false).1 == kv
  {
  }

  lemma {:induction false} KvDeleteKeepsEmpty(kv: KvTable, reqs: seq<Result<ProtoKv.DeleteRequest, Status>>, from: nat, table: bool, faults: map<nat, SqliteError>)
    requires from <= |reqs|
    decreases |reqs| - from
    ensures !table ==> Streams.Serve(kv, reqs, from, KvDeleteStep(table, faults), false).1 == kv
  {
  }

  /** Store only adds rows, each under a valid rowid; a store on a missing table changes nothing. */
  lemma {:induction false} StoreKeepsValid(rows: BlobTable, reqs: seq<Result<BlobStoreRequest, Status>>, from: nat, table: bool, faults: map<nat, SqliteError>)
    requires from <= |reqs| && ValidRows(rows)
    decreases |reqs| - from
    ensures var rows' := Streams.Serve(rows, reqs, from, BlobStoreStep(table, faults), false).1;
      ValidRows(rows') && (!table ==> rows' == rows) &&
      (forall id | id in rows :: id in rows' && rows'[id] == rows[id])
  {
    if from < |reqs| {
      match reqs[from]
      case Err(_) =>
      case Ok(q) =>
        if from !in faults && table && MaxRowid(rows.Keys) < I64_MAX {
          var id := MaxRowid(rows.Keys) + 1;
          var rows1 := rows[id := BlobRow(q.bytes, q.metadata)];
          assert id !in rows;
          assert BlobStoreStep(table, faults)(rows, q, from) == (Ok(ProtoBlob.StoreResponse(id)), rows1);
          StoreKeepsValid(rows1, reqs, from + 1, table, faults);
        }
    }
  }

  /**
   * Store hands out rowids above every rowid in the table before the stream,
   * growing strictly along the stream, and each answered rowid holds the row its
   * request stored.
   */
  lemma {:induction false} StoreIssuesFreshRowids(rows: BlobTable, reqs: seq<Result<BlobStoreRequest, Status>>, from: nat, table: bool, faults: map<nat, SqliteError>)
    requires from <= |reqs|
    decreases |reqs| - from
    ensures var r := Streams.Serve(rows, reqs, from, BlobStoreStep(table, faults), false);
      rows.Keys <= r.1.Keys &&
      (forall j | 0 <= j < |r.0| && r.0[j].Ok? :: MaxRowid(rows.Keys) < r.0[j].value.id <= MaxRowid(r.1.Keys)) &&
      (forall i, j | 0 <= i < j < |r.0| && r.0[i].Ok? && r.0[j].Ok? :: r.0[i].value.id < r.0[j].value.id)
  {
    if from < |reqs| {
      match reqs[from]
      case Err(e) =>
      case Ok(q) =>
        var (item, rows1) := BlobStoreStep(table, faults)(rows, q, from);
        if item.Ok? {
          StoreIssuesFreshRowids(rows1, reqs, from + 1, table, faults);
          var last := Streams.Serve(rows1, reqs, from + 1, BlobStoreStep(table, faults), false).1;
          assert item.value.id in rows1.Keys;
          assert MaxRowid(rows.Keys) < item.value.id <= MaxRowid(rows1.Keys) <= MaxRowid(last.Keys);
          assert Streams.Serve(rows, reqs, from, BlobStoreStep(table, faults), false) ==
            ([item] + Streams.Serve(rows1, reqs, from + 1, BlobStoreStep(table, faults), false).0, last);
          forall j | 1 <= j < |Streams.Serve(rows, reqs, from, BlobStoreStep(table, faults), false).0|
            ensures Streams.Serve(rows, reqs, from, BlobStoreStep(table, faults), false).0[j] ==
                    Streams.Serve(rows1, reqs, from + 1, BlobStoreStep(table, faults), false).0[j - 1]
          {
          }
        }
    }
  }

  /**
   * Rowids can be handed out again: once the blob with the largest rowid is
   * deleted, the next store gets a rowid no larger than the deleted one.
   */
  lemma DeletedLargestRowidIsReused(rows: BlobTable, q: BlobStoreRequest, k: nat, faults: map<nat, SqliteError>)
    requires rows != map[] && ValidRows(rows) && k !in faults
    ensures var gone := MaxRowid(rows.Keys);
      var r := BlobStoreStep(true, faults)(rows - {gone}, q, k);
      r.0.Ok? && r.0.value.id <= gone
  {
    var gone := MaxRowid(rows.Keys);
    var left := rows - {gone};
    var m := MaxRowid(left.Keys);
    if left.Keys != {} {
      assert m in rows.Keys && m != gone;
    }
    assert m < gone <= I64_MAX;
    assert BlobStoreStep(true, faults)(left, q, k) == (Ok(ProtoBlob.StoreResponse(m + 1)), left[m + 1 := BlobRow(q.bytes, q.metadata)]);
  }

  /**
   * With the table in place and no engine failure, an update stream whose ids
   * can all be bound answers each request with its id and rewrites the named
   * columns of each row that exists.
   */
  lemma {:induction false} UpdateRewritesNamedColumns(rows: BlobTable, reqs: seq<Result<BlobUpdateRequest, Status>>, from: nat, faults: map<nat, SqliteError>)
    requires from <= |reqs|
    requires forall k | from <= k < |reqs| :: k !in faults
    requires forall k | from <= k < |reqs| && reqs[k].Ok? && !NoOpUpdate(reqs[k].value) :: Bindable(reqs[k].value.id)
    decreases |reqs| - from
    ensures Streams.Serve(rows, reqs, from, BlobUpdateStep(true, faults), false) ==
      (Streams.Replies(reqs, from, UpdateEcho, false), Streams.Applied(rows, reqs, from, ApplyUpdate, false))
  {
    if from < |reqs| && reqs[from].Ok? {
      var q := reqs[from].value;
      assert BlobUpdateStep(true, faults)(rows, q, from) == (Ok(UpdateEcho(q)), ApplyUpdate(rows, q));
      UpdateRewritesNamedColumns(ApplyUpdate(rows, q), reqs, from + 1, faults);
    }
  }

  /**
   * An update naming an id above the largest 64-bit signed integer, and not a
   * no-op, cannot bind it: after the earlier updates are echoed, the stream ends
   * there with invalid-argument.
   */
  lemma {:induction false} UpdateEndsAtUnboundId(rows: BlobTable, reqs: seq<Result<BlobUpdateRequest, Status>>, from: nat, faults: map<nat, SqliteError>, m: nat)
    requires from <= m < |reqs|
    requires forall k | from <= k <= m :: k !in faults && reqs[k].Ok?
    requires forall k | from <= k < m :: !NoOpUpdate(reqs[k].value) ==> Bindable(reqs[k].value.id)
    requires !NoOpUpdate(reqs[m].value) && !Bindable(reqs[m].value.id)
    decreases m - from
    ensures var r := Streams.Serve(rows, reqs, from, BlobUpdateStep(true, faults), false).0;
      |r| == m - from + 1 && r[m - from] == Err(InvalidArgument) &&
      forall j | from <= j < m :: r[j - from] == Ok(UpdateEcho(reqs[j].value))
  {
    var q := reqs[from].value;
    if from == m {
      assert BlobUpdateStep(true, faults)(rows, q, from) == (Err(Unbindable()), rows);
    } else {
      var rows1 := ApplyUpdate(rows, q);
      assert BlobUpdateStep(true, faults)(rows, q, from) == (Ok(UpdateEcho(q)), rows1);
      UpdateEndsAtUnboundId(rows1, reqs, from + 1, faults, m);
      var rest := Streams.Serve(rows1, reqs, from + 1, BlobUpdateStep(true, faults), false).0;
      var r := Streams.Serve(rows, reqs, from, BlobUpdateStep(true, faults), false).0;
      assert r == [Ok(UpdateEcho(q))] + rest;
      forall j | from < j < m
        ensures r[j - from] == Ok(UpdateEcho(reqs[j].value))
      {
        assert r[j - from] == rest[j - (from + 1)];
      }
    }
  }

  /**
   * A delete naming an id above the largest 64-bit signed integer cannot bind
   * it: after the earlier deletes are echoed, the stream ends there with
   * invalid-argument.
   */
  lemma {:induction false} DeleteEndsAtUnboundId(rows: BlobTable, reqs: seq<Result<ProtoBlob.DeleteRequest, Status>>, from: nat, faults: map<nat, SqliteError>, m: nat)
    requires from <= m < |reqs|
    requires forall k | from <= k <= m :: k !in faults && reqs[k].Ok?
    requires forall k | from <= k < m :: Bindable(reqs[k].value.id)
    requires !Bindable(reqs[m].value.id)
    decreases m - from
    ensures var r := Streams.Serve(rows, reqs, from, BlobDeleteStep(true, faults), false).0;
      |r| == m - from + 1 && r[m - from] == Err(InvalidArgument) &&
      forall j | from <= j < m :: r[j - from] == Ok(ProtoBlob.DeleteResponse(reqs[j].value.id))
  {
    var q := reqs[from].value;
    if from == m {
      assert BlobDeleteStep(true, faults)(rows, q, from) == (Err(Unbindable()), rows);
    } else {
      var rows1 := rows - {q.id};
      assert BlobDeleteStep(true, faults)(rows, q, from) == (Ok(ProtoBlob.DeleteResponse(q.id)), rows1);
      DeleteEndsAtUnboundId(rows1, reqs, from + 1, faults, m);
      var rest := Streams.Serve(rows1, reqs, from + 1, BlobDeleteStep(true, faults), false).0;
      var r := Streams.Serve(rows, reqs, from, BlobDeleteStep(true, faults), false).0;
      assert r == [Ok(ProtoBlob.DeleteResponse(q.id))] + rest;
      forall j | from < j < m
        ensures r[j - from] == Ok(ProtoBlob.DeleteResponse(reqs[j].value.id))
      {
        assert r[j - from] == rest[j - (from + 1)];
      }
    }
  }

  /** Update never creates or removes a blob, whatever fails. */
  lemma {:induction false} UpdateKeepsIds(rows: BlobTable, reqs: seq<Result<BlobUpdateRequest, Status>>, from: nat, table: bool, faults: map<nat, SqliteError>)
    requires from <= |reqs| && ValidRows(rows)
    decreases |reqs| - from
    ensures var rows' := Streams.Serve(rows, reqs, from, BlobUpdateStep(table, faults), false).1;
      ValidRows(rows') && rows'.Keys == rows.Keys && (!table ==> rows' == rows)
  {
    if from < |reqs| {
      match reqs[from]
      case Err(_) =>
      case Ok(q) =>
        var (item, rows1) := BlobUpdateStep(table, faults)(rows, q, from);
        if item.Ok? {
          UpdateKeepsIds(rows1, reqs, from + 1, table, faults);
        }
    }
  }

  lemma {:induction false} DeleteKeepsValid(rows: BlobTable, reqs: seq<Result<ProtoBlob.DeleteRequest, Status>>, from: nat, table: bool, faults: map<nat, SqliteError>)
    requires from <= |reqs| && ValidRows(rows)
    decreases |reqs| - from
    ensures var rows' := Streams.Serve(rows, reqs, from, BlobDeleteStep(table, faults), false).1;
      ValidRows(rows') && rows'.Keys <= rows.Keys && (!table ==> rows' == rows)
  {
    if from < |reqs| {
      match reqs[from]
      case Err(_) =>
      case Ok(q) =>
        var (item, rows1) := BlobDeleteStep(table, faults)(rows, q, from);
        if item.Ok? {
          DeleteKeepsValid(rows1, reqs, from + 1, table, faults);
        }
    }
  }
}

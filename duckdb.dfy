/**
 * The DuckDB backend (src/backend/duckdb.rs).
 *
 * The engine is modelled by the two tables it holds: `kv(key, value)` and
 * `blob(id, data, metadata)` with ids drawn from the sequence `blob_id_seq`.
 * Whether each table exists is part of the state, because the key-value and blob
 * sides share one `initialized` flag: whichever side connects first stops the
 * other from creating its table. Engine failures that the model cannot predict
 * (a file that will not open, a statement that fails) come in through `Env`,
 * keyed by the position of the request that meets them.
 */
module DuckDbBackend {
  import opened Common
  import Interop
  import Conv
  import Streams
  import Maps
  import Comparator
  import KvStructs
  import BlobStructs
  import QueryStructs

  type DuckError = Interop.DuckError
  type KvTable = map<string, string>

  datatype BlobRow = BlobRow(data: Bytes, metadata: Option<string>)

  /** The blob table and the next value of `blob_id_seq`. */
  datatype Blobs = Blobs(rows: map<u64, BlobRow>, next: nat)

  /** The id column is DuckDB's 32-bit `INTEGER`. */
  const INTEGER_MAX: int := 0x7FFF_FFFF

  /** The sequence starts at 1 and every id in the table was drawn from it. */
  ghost predicate ValidBlobs(b: Blobs)
  {
    b.next >= 1 && forall id | id in b.rows :: 1 <= id < b.next
  }

  /**
   * What the engine does that the model cannot predict: opening the database may
   * fail, creating the schema may fail, and the statement run for request `k`
   * fails with `faults[k]` when `k` is a key.
   */
  datatype Env = Env(openFault: Option<DuckError>, schemaFault: Option<DuckError>, faults: map<nat, DuckError>)

  /** A statement on a table that does not exist fails inside the engine. */
  function NoTable(): Status
  {
    Interop.DuckDbStatus(Interop.DuckError.DuckDBFailure)
  }

  /** The outcome of `connect_kv`/`connect_blob`: open the database, then create the schema unless already done. */
  function OpenOutcome(initialized: bool, env: Env): Result<(), Status>
  {
    if env.openFault.Some? then Err(Interop.DuckDbStatus(env.openFault.value))
    else if !initialized && env.schemaFault.Some? then Err(Interop.DuckDbStatus(env.schemaFault.value))
    else Ok(())
  }

  /** Whether a table exists after a connection: it did before, or this connection ran `initialize`. */
  function TableAfterConnect(initialized: bool, hadTable: bool, env: Env): bool
  {
    hadTable || (!initialized && OpenOutcome(initialized, env).Ok?)
  }

  // ----- key-value requests -------------------------------------------------

  /** `SELECT value FROM kv WHERE key = ?` through `query_row`: no row is an error. */
  function KvLookup(table: bool, kv: KvTable, faults: map<nat, DuckError>, key: string, k: nat): (r: Result<string, Status>)
    ensures k !in faults && table ==> (r.Ok? <==> key in kv)
    ensures r.Ok? ==> key in kv && r.value == kv[key]
    ensures r.Err? ==> r.error in {Internal, OutOfRange, DataLoss, Unknown}
  {
    if k in faults then Err(Interop.DuckDbStatus(faults[k]))
    else if !table then Err(NoTable())
    else if key in kv then Ok(kv[key])
    else Err(Interop.DuckDbStatus(Interop.DuckError.QueryReturnedNoRows))
  }

  function KvGetAnswer(table: bool, kv: KvTable, faults: map<nat, DuckError>): (KvStructs.GetRequest, nat) -> Result<KvStructs.GetResponse, Status>
  {
    (q: KvStructs.GetRequest, k: nat) =>
      var r := KvLookup(table, kv, faults, q.key, k);
      if r.Ok? then Ok(KvStructs.GetResponse(r.value)) else Err(r.error)
  }

  /** The value stream `eq` and `not_eq` hand to the comparator. */
  function KvValueAnswer<Q>(table: bool, kv: KvTable, faults: map<nat, DuckError>, key: Q -> string): (Q, nat) -> Result<string, Status>
  {
    (q: Q, k: nat) => KvLookup(table, kv, faults, key(q), k)
  }

  function SetKey(q: KvStructs.SetRequest): string { q.key }
  function SetValue(q: KvStructs.SetRequest): string { q.value }
  function SetEcho(q: KvStructs.SetRequest): KvStructs.SetResponse { KvStructs.SetResponse(q.key) }
  function DeleteKey(q: KvStructs.DeleteRequest): string { q.key }
  function DeleteEcho(q: KvStructs.DeleteRequest): KvStructs.DeleteResponse { KvStructs.DeleteResponse(q.key) }
  function EqKey(q: KvStructs.EqRequest): string { q.key }
  function NotEqKey(q: KvStructs.NotEqRequest): string { q.key }

  /** `INSERT OR REPLACE INTO kv`, answered with the key. */
  function KvSetStep(table: bool, faults: map<nat, DuckError>): (KvTable, KvStructs.SetRequest, nat) -> (Result<KvStructs.SetResponse, Status>, KvTable)
  {
    (kv: KvTable, q: KvStructs.SetRequest, k: nat) =>
      if k in faults then (Err(Interop.DuckDbStatus(faults[k])), kv)
      else if !table then (Err(NoTable()), kv)
      else (Ok(SetEcho(q)), kv[q.key := q.value])
  }

  /** `DELETE FROM kv WHERE key = ?`, answered with the key whether or not it was there. */
  function KvDeleteStep(table: bool, faults: map<nat, DuckError>): (KvTable, KvStructs.DeleteRequest, nat) -> (Result<KvStructs.DeleteResponse, Status>, KvTable)
  {
    (kv: KvTable, q: KvStructs.DeleteRequest, k: nat) =>
      if k in faults then (Err(Interop.DuckDbStatus(faults[k])), kv)
      else if !table then (Err(NoTable()), kv)
      else (Ok(DeleteEcho(q)), kv - {q.key})
  }

  // ----- blob requests ------------------------------------------------------

  /** `SELECT data, metadata FROM blob WHERE id = ?` through `query_row`. */
  function BlobGetAnswer(table: bool, b: Blobs, faults: map<nat, DuckError>): (BlobStructs.GetRequest, nat) -> Result<BlobStructs.GetResponse, Status>
  {
    (q: BlobStructs.GetRequest, k: nat) =>
      if k in faults then Err(Interop.DuckDbStatus(faults[k]))
      else if !table then Err(NoTable())
      else if q.id !in b.rows then Err(Interop.DuckDbStatus(Interop.DuckError.QueryReturnedNoRows))
      else Ok(BlobStructs.GetResponse(b.rows[q.id].data, b.rows[q.id].metadata))
  }

  /** `INSERT INTO blob(data, metadata) ... RETURNING id`: the id is the next value of the sequence. */
  function BlobStoreStep(table: bool, faults: map<nat, DuckError>): (Blobs, BlobStructs.StoreRequest, nat) -> (Result<BlobStructs.StoreResponse, Status>, Blobs)
  {
    (b: Blobs, q: BlobStructs.StoreRequest, k: nat) =>
      if k in faults then (Err(Interop.DuckDbStatus(faults[k])), b)
      else if !table then (Err(NoTable()), b)
      else if b.next > INTEGER_MAX then (Err(Interop.DuckDbStatus(Interop.DuckError.DuckDBFailure)), b)
      else (Ok(BlobStructs.StoreResponse(b.next)), Blobs(b.rows[b.next := BlobRow(q.data, q.metadata)], b.next + 1))
  }

  /** The row after an update: each column given is replaced, `Some(None)` metadata storing NULL. */
  function Rewrite(row: BlobRow, data: Option<Bytes>, metadata: Option<Option<string>>): BlobRow
  {
    BlobRow(if data.Some? then data.value else row.data, if metadata.Some? then metadata.value else row.metadata)
  }

  /**
   * `UPDATE blob SET ... WHERE id = ?` for the columns the request names; with
   * neither column named no statement runs. An id with no row changes nothing.
   */
  function BlobUpdateStep(table: bool, faults: map<nat, DuckError>): (Blobs, BlobStructs.UpdateRequest, nat) -> (Result<BlobStructs.UpdateResponse, Status>, Blobs)
  {
    (b: Blobs, q: BlobStructs.UpdateRequest, k: nat) =>
      if NoOpUpdate(q) then (Ok(UpdateEcho(q)), b)
      else if k in faults then (Err(Interop.DuckDbStatus(faults[k])), b)
      else if !table then (Err(NoTable()), b)
      else (Ok(UpdateEcho(q)), ApplyUpdate(b, q))
  }

  function UpdateEcho(q: BlobStructs.UpdateRequest): BlobStructs.UpdateResponse { BlobStructs.UpdateResponse(q.id) }

  /** An update that names neither column. */
  predicate NoOpUpdate(q: BlobStructs.UpdateRequest) { q.data.None? && q.metadata.None? }

  /** What a successful update does to the table: rewrite the row under the id, if there is one. */
  function ApplyUpdate(b: Blobs, q: BlobStructs.UpdateRequest): Blobs
  {
    if NoOpUpdate(q) || q.id !in b.rows then b
    else Blobs(b.rows[q.id := Rewrite(b.rows[q.id], q.data, q.metadata)], b.next)
  }

  /** `DELETE FROM blob WHERE id = ?`, answered with the id whether or not it was there. */
  function BlobDeleteStep(table: bool, faults: map<nat, DuckError>): (Blobs, BlobStructs.DeleteRequest, nat) -> (Result<BlobStructs.DeleteResponse, Status>, Blobs)
  {
    (b: Blobs, q: BlobStructs.DeleteRequest, k: nat) =>
      if k in faults then (Err(Interop.DuckDbStatus(faults[k])), b)
      else if !table then (Err(NoTable()), b)
      else (Ok(BlobStructs.DeleteResponse(q.id)), Blobs(b.rows - {q.id}, b.next))
  }

  function EqDataId(q: BlobStructs.EqDataRequest): u64 { q.id }
  function NotEqDataId(q: BlobStructs.NotEqDataRequest): u64 { q.id }

  /** `SELECT data FROM blob WHERE id = ?`: only the data column is read. */
  function BlobDataAnswer<Q>(table: bool, b: Blobs, faults: map<nat, DuckError>, id: Q -> u64): (Q, nat) -> Result<Bytes, Status>
  {
    (q: Q, k: nat) =>
      if k in faults then Err(Interop.DuckDbStatus(faults[k]))
      else if !table then Err(NoTable())
      else if id(q) !in b.rows then Err(Interop.DuckDbStatus(Interop.DuckError.QueryReturnedNoRows))
      else Ok(b.rows[id(q)].data)
  }

  // ----- raw queries (`Queryable`) ---------------------------------------

  /** One fetched row: reading column `i` gives a value or an engine error. */
  type Row = seq<Result<Conv.DuckValue, DuckError>>

  /**
   * What the engine does with a query: preparing or running it fails, or it
   * yields rows until `rows.next()` gives no row or an error (both end the rows
   * the same way, so the rows here are those fetched before the end).
   */
  datatype QueryRun = PrepareFailed(error: DuckError) | QueryFailed(error: DuckError) | Fetched(rows: seq<Row>)

  /** Reading the columns of `row` from `i` on: the values read before the first failing column, and its error. */
  function ReadColumns(row: Row, i: nat): (r: (seq<Conv.DuckValue>, Option<DuckError>))
    requires i <= |row|
    decreases |row| - i
    ensures |r.0| <= |row| - i
    ensures forall j | i <= j < i + |r.0| :: row[j] == Ok(r.0[j - i])
    ensures r.1.None? <==> |r.0| == |row| - i
    ensures r.1.Some? ==> row[i + |r.0|] == Err(r.1.value)
  {
    if i == |row| then ([], None)
    else match row[i]
      case Err(e) => ([], Some(e))
      case Ok(v) =>
        var rest := ReadColumns(row, i + 1);
        ([v] + rest.0, rest.1)
  }

  /**
   * What one row sends: the error of its first failing column, if any, and then
   * in every case the row with the columns read so far.
   */
  function RowItems(row: Row): (r: seq<Result<QueryStructs.QueryResponse<Conv.DuckValue>, Status>>)
    ensures 1 <= |r| <= 2 && r[|r| - 1] == Ok(QueryStructs.QueryResponse(ReadColumns(row, 0).0))
    ensures |r| == 2 <==> ReadColumns(row, 0).1.Some?
    ensures |r| == 2 ==> ReadColumns(row, 0).1.Some? && r[0] == Err(Interop.DuckDbStatus(ReadColumns(row, 0).1.value))
  {
    var read := ReadColumns(row, 0);
    if read.1.Some? then
      [Err(Interop.DuckDbStatus(read.1.value)), Ok(QueryStructs.QueryResponse(read.0))]
    else
      [Ok(QueryStructs.QueryResponse(read.0))]
  }

  /** What the rows send, in fetch order. */
  function RowsItems(rows: seq<Row>): seq<Result<QueryStructs.QueryResponse<Conv.DuckValue>, Status>>
  {
    if rows == [] then [] else RowsItems(rows[..|rows| - 1]) + RowItems(rows[|rows| - 1])
  }

  /** Everything `query` sends down its channel. */
  function QueryItems(run: QueryRun): seq<Result<QueryStructs.QueryResponse<Conv.DuckValue>, Status>>
  {
    match run
    case PrepareFailed(e) => [Err(Interop.DuckDbStatus(e))]
    case QueryFailed(e) => [Err(Interop.DuckDbStatus(e))]
    case Fetched(rows) => RowsItems(rows)
  }

  /** The rows a stream of query items carries, dropping the errors. */
  function Responses<T>(items: seq<Result<T, Status>>): seq<T>
  {
    if items == [] then []
    else Responses(items[..|items| - 1]) + (if items[|items| - 1].Ok? then [items[|items| - 1].value] else [])
  }

  /** A row sends exactly one response, holding the columns read before its first failing column. */
  lemma RowSentOnce(row: Row)
    ensures Responses(RowItems(row)) == [QueryStructs.QueryResponse(ReadColumns(row, 0).0)]
  {
    var items := RowItems(row);
    if |items| == 2 {
      assert items[..1][..0] == [];
      assert Responses(items[..1]) == [];
      assert Responses(items) == Responses(items[..1]) + [items[1].value];
    } else {
      assert items[..0] == [];
      assert Responses(items) == Responses(items[..0]) + [items[0].value];
    }
  }

  /**
   * Every fetched row is sent exactly once, in fetch order, holding the columns
   * read before its first failing column.
   */
  lemma {:induction false} EveryRowSentOnce(rows: seq<Row>)
    ensures |Responses(RowsItems(rows))| == |rows|
    ensures forall k | 0 <= k < |rows| :: Responses(RowsItems(rows))[k] == QueryStructs.QueryResponse(ReadColumns(rows[k], 0).0)
  {
    if rows != [] {
      var init := rows[..|rows| - 1];
      var last := rows[|rows| - 1];
      EveryRowSentOnce(init);
      assert RowsItems(rows) == RowsItems(init) + RowItems(last);
      ResponsesAppend(RowsItems(init), RowItems(last));
      RowSentOnce(last);
      var all := Responses(RowsItems(rows));
      assert all == Responses(RowsItems(init)) + [QueryStructs.QueryResponse(ReadColumns(last, 0).0)];
      forall k | 0 <= k < |rows|
        ensures all[k] == QueryStructs.QueryResponse(ReadColumns(rows[k], 0).0)
      {
        if k < |rows| - 1 {
          assert rows[k] == init[k];
        }
      }
    }
  }

  lemma {:induction false} ResponsesAppend<T>(a: seq<Result<T, Status>>, b: seq<Result<T, Status>>)
    decreases |b|
    ensures Responses(a + b) == Responses(a) + Responses(b)
  {
    if b != [] {
      var b0 := b[..|b| - 1];
      ResponsesAppend(a, b0);
      assert (a + b)[..|a + b| - 1] == a + b0;
      assert b[|b| - 1] == (a + b)[|a + b| - 1];
    } else {
      assert a + b == a;
    }
  }

  /** Pushing one row: its values column by column, stopping at the first failing column. */
  method PushRow(row: Row) returns (sent: seq<Result<QueryStructs.QueryResponse<Conv.DuckValue>, Status>>)
    ensures sent == RowItems(row)
  {
    ghost var read := ReadColumns(row, 0);
    sent := [];
    var values: seq<Conv.DuckValue> := [];
    var i := 0;
    while i < |row|
      invariant 0 <= i <= |row|
      invariant values + ReadColumns(row, i).0 == read.0
      invariant ReadColumns(row, i).1 == read.1
    {
      match row[i] {
        case Ok(v) =>
          assert ReadColumns(row, i) == ([v] + ReadColumns(row, i + 1).0, ReadColumns(row, i + 1).1);
          values := values + [v];
        case Err(e) =>
          assert ReadColumns(row, i) == ([], Some(e));
          sent := [Err(Interop.DuckDbStatus(e))];
          break;
      }
      i := i + 1;
    }
    assert values == read.0;
    sent := sent + [Ok(QueryStructs.QueryResponse(values))];
  }

  /**
   * `Queryable::query`: runs the query and pushes what each fetched row sends,
   * then hands back the items with the connection unchanged.
   */
  method Query<C>(query: string, connection: C, engine: string -> QueryRun)
    returns (items: seq<Result<QueryStructs.QueryResponse<Conv.DuckValue>, Status>>, conn: C)
    ensures items == QueryItems(engine(query)) && conn == connection
  {
    conn := connection;
    items := [];
    match engine(query) {
      case PrepareFailed(e) =>
        items := [Err(Interop.DuckDbStatus(e))];
      case QueryFailed(e) =>
        items := [Err(Interop.DuckDbStatus(e))];
      case Fetched(rows) =>
        var r := 0;
        while r < |rows|
          invariant 0 <= r <= |rows|
          invariant items == RowsItems(rows[..r])
        {
          var sent := PushRow(rows[r]);
          items := items + sent;
          assert rows[..r + 1][..r] == rows[..r];
          r := r + 1;
        }
        assert rows[..|rows|] == rows;
    }
  }

  /** `Queryable::execute`: the number of rows changed, or the engine's error; the connection comes back unchanged. */
  function Execute<C>(query: string, connection: C, engine: string -> Result<u64, DuckError>): (r: (Result<QueryStructs.ExecuteResponse, Status>, C))
    ensures r.1 == connection
    ensures r.0.Ok? <==> engine(query).Ok?
    ensures r.0.Ok? ==> r.0.value.rowsChanged == engine(query).value
    ensures r.0.Err? ==> r.0.error == Interop.DuckDbStatus(engine(query).error)
  {
    match engine(query)
    case Ok(n) => (Ok(QueryStructs.ExecuteResponse(n)), connection)
    case Err(e) => (Err(Interop.DuckDbStatus(e)), connection)
  }

  // ----- the backend object -------------------------------------------------

  class DuckDb {
    /** Set by `initialize` on either side; nothing clears it. */
    var initialized: bool
    var hasKvTable: bool
    var kv: KvTable
    var hasBlobTable: bool
    var blob: Blobs

    ghost predicate Valid()
      reads this
    {
      (!hasKvTable ==> kv == map[]) && (!hasBlobTable ==> blob == Blobs(map[], 1)) && ValidBlobs(blob)
    }

    /** `at_location`: a backend over a database file that may already hold either table. */
    constructor (hasKvTable: bool, kv: KvTable, hasBlobTable: bool, blob: Blobs)
      requires (!hasKvTable ==> kv == map[]) && (!hasBlobTable ==> blob == Blobs(map[], 1)) && ValidBlobs(blob)
      ensures Valid() && !initialized
      ensures this.hasKvTable == hasKvTable && this.kv == kv && this.hasBlobTable == hasBlobTable && this.blob == blob
    {
      initialized := false;
      this.hasKvTable := hasKvTable;
      this.kv := kv;
      this.hasBlobTable := hasBlobTable;
      this.blob := blob;
    }

    /** A connection was made (`ok`) or refused; the flag and the table existence moved accordingly. */
    twostate predicate ConnectedKv(env: Env, ok: bool)
      reads this
    {
      ok == OpenOutcome(old(initialized), env).Ok? &&
      initialized == (old(initialized) || ok) &&
      hasKvTable == TableAfterConnect(old(initialized), old(hasKvTable), env) &&
      hasBlobTable == old(hasBlobTable) && blob == old(blob)
    }

    twostate predicate ConnectedBlob(env: Env, ok: bool)
      reads this
    {
      ok == OpenOutcome(old(initialized), env).Ok? &&
      initialized == (old(initialized) || ok) &&
      hasBlobTable == TableAfterConnect(old(initialized), old(hasBlobTable), env) &&
      hasKvTable == old(hasKvTable) && kv == old(kv)
    }

    /** The key-value `initialize`: `CREATE TABLE IF NOT EXISTS kv`, then set the flag. */
    method InitializeKv(env: Env) returns (r: Result<(), Status>)
      requires Valid()
      modifies this
      ensures Valid()
      ensures env.schemaFault.Some? ==> r == Err(Interop.DuckDbStatus(env.schemaFault.value)) && unchanged(this)
      ensures env.schemaFault.None? ==> r == Ok(()) && initialized && hasKvTable
      ensures kv == old(kv) && hasBlobTable == old(hasBlobTable) && blob == old(blob)
    {
      if env.schemaFault.Some? {
        return Err(Interop.DuckDbStatus(env.schemaFault.value));
      }
      hasKvTable := true;
      initialized := true;
      return Ok(());
    }

    /** The blob `initialize`: create `blob_id_seq` (from 1) and the blob table if missing, then set the flag. */
    method InitializeBlob(env: Env) returns (r: Result<(), Status>)
      requires Valid()
      modifies this
      ensures Valid()
      ensures env.schemaFault.Some? ==> r == Err(Interop.DuckDbStatus(env.schemaFault.value)) && unchanged(this)
      ensures env.schemaFault.None? ==> r == Ok(()) && initialized && hasBlobTable
      ensures blob == old(blob) && hasKvTable == old(hasKvTable) && kv == old(kv)
    {
      if env.schemaFault.Some? {
        return Err(Interop.DuckDbStatus(env.schemaFault.value));
      }
      hasBlobTable := true;
      initialized := true;
      return Ok(());
    }

    /** `connect_kv`: the schema is created only while the shared flag is clear. */
    method ConnectKv(env: Env) returns (r: Result<(), Status>)
      requires Valid()
      modifies this
      ensures Valid() && ConnectedKv(env, r.Ok?) && kv == old(kv)
      ensures r == OpenOutcome(old(initialized), env)
    {
      if env.openFault.Some? {
        return Err(Interop.DuckDbStatus(env.openFault.value));
      }
      if !initialized {
        r := InitializeKv(env);
        if r.Err? {
          return;
        }
      }
      return Ok(());
    }

    /** `connect_blob`: the schema is created only while the shared flag is clear. */
    method ConnectBlob(env: Env) returns (r: Result<(), Status>)
      requires Valid()
      modifies this
      ensures Valid() && ConnectedBlob(env, r.Ok?) && blob == old(blob)
      ensures r == OpenOutcome(old(initialized), env)
    {
      if env.openFault.Some? {
        return Err(Interop.DuckDbStatus(env.openFault.value));
      }
      if !initialized {
        r := InitializeBlob(env);
        if r.Err? {
          return;
        }
      }
      return Ok(());
    }

    method KvGet(env: Env, reqs: seq<Result<KvStructs.GetRequest, Status>>) returns (r: Result<Stream<KvStructs.GetResponse>, Status>)
      requires Valid()
      modifies this
      ensures Valid() && ConnectedKv(env, r.Ok?) && kv == old(kv)
      ensures r.Err? ==> r == Err(OpenOutcome(old(initialized), env).error)
      ensures r.Ok? ==> r.value == Streams.ServeReads(reqs, 0, KvGetAnswer(hasKvTable, kv, env.faults), true)
    {
      var c := ConnectKv(env);
      if c.Err? {
        return Err(c.error);
      }
      var out := Streams.RunReads(reqs, KvGetAnswer(hasKvTable, kv, env.faults), true);
      return Ok(out);
    }

    method KvSet(env: Env, reqs: seq<Result<KvStructs.SetRequest, Status>>) returns (r: Result<Stream<KvStructs.SetResponse>, Status>)
      requires Valid()
      modifies this
      ensures Valid() && ConnectedKv(env, r.Ok?)
      ensures r.Err? ==> r == Err(OpenOutcome(old(initialized), env).error) && kv == old(kv)
      ensures r.Ok? ==> (r.value, kv) == Streams.Serve(old(kv), reqs, 0, KvSetStep(hasKvTable, env.faults), true)
    {
      var c := ConnectKv(env);
      if c.Err? {
        return Err(c.error);
      }
      var out, after := Streams.RunSteps(kv, reqs, KvSetStep(hasKvTable, env.faults), true);
      KvSetKeepsEmpty(kv, reqs, 0, hasKvTable, env.faults);
      kv := after;
      return Ok(out);
    }

    method KvDelete(env: Env, reqs: seq<Result<KvStructs.DeleteRequest, Status>>) returns (r: Result<Stream<KvStructs.DeleteResponse>, Status>)
      requires Valid()
      modifies this
      ensures Valid() && ConnectedKv(env, r.Ok?)
      ensures r.Err? ==> r == Err(OpenOutcome(old(initialized), env).error) && kv == old(kv)
      ensures r.Ok? ==> (r.value, kv) == Streams.Serve(old(kv), reqs, 0, KvDeleteStep(hasKvTable, env.faults), true)
    {
      var c := ConnectKv(env);
      if c.Err? {
        return Err(c.error);
      }
      var out, after := Streams.RunSteps(kv, reqs, KvDeleteStep(hasKvTable, env.faults), true);
      KvDeleteKeepsEmpty(kv, reqs, 0, hasKvTable, env.faults);
      kv := after;
      return Ok(out);
    }

    /** `eq`: all looked-up values equal, by digest, through `all_eq`. */
    method KvEq<H(==)>(env: Env, reqs: seq<Result<KvStructs.EqRequest, Status>>, digest: string -> H) returns (r: Result<bool, Status>)
      requires Valid()
      modifies this
      ensures Valid() && ConnectedKv(env, OpenOutcome(old(initialized), env).Ok?) && kv == old(kv)
      ensures OpenOutcome(old(initialized), env).Err? ==> r == Err(OpenOutcome(old(initialized), env).error)
      ensures OpenOutcome(old(initialized), env).Ok? ==>
        r == Comparator.EqVerdict(Streams.ServeReads(reqs, 0, KvValueAnswer(hasKvTable, kv, env.faults, EqKey), true), digest).0
    {
      var c := ConnectKv(env);
      if c.Err? {
        return Err(c.error);
      }
      var values := Streams.RunReads(reqs, KvValueAnswer(hasKvTable, kv, env.faults, EqKey), true);
      var pulled;
      r, pulled := Comparator.AllEq(values, digest);
    }

    /** `not_eq`: all looked-up values pairwise different, by digest, through `all_not_eq`. */
    method KvNotEq<H(==)>(env: Env, reqs: seq<Result<KvStructs.NotEqRequest, Status>>, digest: string -> H) returns (r: Result<bool, Status>)
      requires Valid()
      modifies this
      ensures Valid() && ConnectedKv(env, OpenOutcome(old(initialized), env).Ok?) && kv == old(kv)
      ensures OpenOutcome(old(initialized), env).Err? ==> r == Err(OpenOutcome(old(initialized), env).error)
      ensures OpenOutcome(old(initialized), env).Ok? ==>
        r == Comparator.NotEqVerdict(Streams.ServeReads(reqs, 0, KvValueAnswer(hasKvTable, kv, env.faults, NotEqKey), true), digest).0
    {
      var c := ConnectKv(env);
      if c.Err? {
        return Err(c.error);
      }
      var values := Streams.RunReads(reqs, KvValueAnswer(hasKvTable, kv, env.faults, NotEqKey), true);
      var pulled;
      r, pulled := Comparator.AllNotEq(values, digest);
    }

    method BlobGet(env: Env, reqs: seq<Result<BlobStructs.GetRequest, Status>>) returns (r: Result<Stream<BlobStructs.GetResponse>, Status>)
      requires Valid()
      modifies this
      ensures Valid() && ConnectedBlob(env, r.Ok?) && blob == old(blob)
      ensures r.Err? ==> r == Err(OpenOutcome(old(initialized), env).error)
      ensures r.Ok? ==> r.value == Streams.ServeReads(reqs, 0, BlobGetAnswer(hasBlobTable, blob, env.faults), true)
    {
      var c := ConnectBlob(env);
      if c.Err? {
        return Err(c.error);
      }
      var out := Streams.RunReads(reqs, BlobGetAnswer(hasBlobTable, blob, env.faults), true);
      return Ok(out);
    }

    method BlobStore(env: Env, reqs: seq<Result<BlobStructs.StoreRequest, Status>>) returns (r: Result<Stream<BlobStructs.StoreResponse>, Status>)
      requires Valid()
      modifies this
      ensures Valid() && ConnectedBlob(env, r.Ok?)
      ensures r.Err? ==> r == Err(OpenOutcome(old(initialized), env).error) && blob == old(blob)
      ensures r.Ok? ==> (r.value, blob) == Streams.Serve(old(blob), reqs, 0, BlobStoreStep(hasBlobTable, env.faults), true)
    {
      var c := ConnectBlob(env);
      if c.Err? {
        return Err(c.error);
      }
      var out, after := Streams.RunSteps(blob, reqs, BlobStoreStep(hasBlobTable, env.faults), true);
      StoreKeepsValid(blob, reqs, 0, hasBlobTable, env.faults);
      blob := after;
      return Ok(out);
    }

    method BlobUpdate(env: Env, reqs: seq<Result<BlobStructs.UpdateRequest, Status>>) returns (r: Result<Stream<BlobStructs.UpdateResponse>, Status>)
      requires Valid()
      modifies this
      ensures Valid() && ConnectedBlob(env, r.Ok?)
      ensures r.Err? ==> r == Err(OpenOutcome(old(initialized), env).error) && blob == old(blob)
      ensures r.Ok? ==> (r.value, blob) == Streams.Serve(old(blob), reqs, 0, BlobUpdateStep(hasBlobTable, env.faults), true)
    {
      var c := ConnectBlob(env);
      if c.Err? {
        return Err(c.error);
      }
      var out, after := Streams.RunSteps(blob, reqs, BlobUpdateStep(hasBlobTable, env.faults), true);
      UpdateKeepsIds(blob, reqs, 0, hasBlobTable, env.faults);
      blob := after;
      return Ok(out);
    }

    method BlobDelete(env: Env, reqs: seq<Result<BlobStructs.DeleteRequest, Status>>) returns (r: Result<Stream<BlobStructs.DeleteResponse>, Status>)
      requires Valid()
      modifies this
      ensures Valid() && ConnectedBlob(env, r.Ok?)
      ensures r.Err? ==> r == Err(OpenOutcome(old(initialized), env).error) && blob == old(blob)
      ensures r.Ok? ==> (r.value, blob) == Streams.Serve(old(blob), reqs, 0, BlobDeleteStep(hasBlobTable, env.faults), true)
    {
      var c := ConnectBlob(env);
      if c.Err? {
        return Err(c.error);
      }
      var out, after := Streams.RunSteps(blob, reqs, BlobDeleteStep(hasBlobTable, env.faults), true);
      DeleteKeepsValid(blob, reqs, 0, hasBlobTable, env.faults);
      blob := after;
      return Ok(out);
    }

    /** `eq_data`: all data columns equal, by digest, through `all_eq`. */
    method BlobEqData<H(==)>(env: Env, reqs: seq<Result<BlobStructs.EqDataRequest, Status>>, digest: Bytes -> H) returns (r: Result<bool, Status>)
      requires Valid()
      modifies this
      ensures Valid() && ConnectedBlob(env, OpenOutcome(old(initialized), env).Ok?) && blob == old(blob)
      ensures OpenOutcome(old(initialized), env).Err? ==> r == Err(OpenOutcome(old(initialized), env).error)
      ensures OpenOutcome(old(initialized), env).Ok? ==>
        r == Comparator.EqVerdict(Streams.ServeReads(reqs, 0, BlobDataAnswer(hasBlobTable, blob, env.faults, EqDataId), true), digest).0
    {
      var c := ConnectBlob(env);
      if c.Err? {
        return Err(c.error);
      }
      var values := Streams.RunReads(reqs, BlobDataAnswer(hasBlobTable, blob, env.faults, EqDataId), true);
      var pulled;
      r, pulled := Comparator.AllEq(values, digest);
    }

    /** `not_eq_data`: all data columns pairwise different, by digest, through `all_not_eq`. */
    method BlobNotEqData<H(==)>(env: Env, reqs: seq<Result<BlobStructs.NotEqDataRequest, Status>>, digest: Bytes -> H) returns (r: Result<bool, Status>)
      requires Valid()
      modifies this
      ensures Valid() && ConnectedBlob(env, OpenOutcome(old(initialized), env).Ok?) && blob == old(blob)
      ensures OpenOutcome(old(initialized), env).Err? ==> r == Err(OpenOutcome(old(initialized), env).error)
      ensures OpenOutcome(old(initialized), env).Ok? ==>
        r == Comparator.NotEqVerdict(Streams.ServeReads(reqs, 0, BlobDataAnswer(hasBlobTable, blob, env.faults, NotEqDataId), true), digest).0
    {
      var c := ConnectBlob(env);
      if c.Err? {
        return Err(c.error);
      }
      var values := Streams.RunReads(reqs, BlobDataAnswer(hasBlobTable, blob, env.faults, NotEqDataId), true);
      var pulled;
      r, pulled := Comparator.AllNotEq(values, digest);
    }
  }

  // ----- what the streams do to the tables ----------------------------------

  /** Every state is acceptable to the key-value streams. */
  function AnyTable(t: KvTable): bool { true }

  /**
   * With the table in place and no engine failure, a set stream answers every
   * request with its key, in order (inbound errors in place), and leaves every
   * key with the value of the last request naming it, every other key as it was.
   */
  lemma KvSetLastWins(kv: KvTable, reqs: seq<Result<KvStructs.SetRequest, Status>>, faults: map<nat, DuckError>)
    requires forall k | 0 <= k < |reqs| :: k !in faults
    ensures var r := Streams.Serve(kv, reqs, 0, KvSetStep(true, faults), true);
      r.0 == Streams.Replies(reqs, 0, SetEcho, true) &&
      forall key ::
        var w := Maps.LastWrite(reqs, 0, SetKey, key);
        (w.Some? ==> key in r.1 && r.1[key] == reqs[w.value].value.value) &&
        (w.None? ==> (key in r.1 <==> key in kv) && (key in kv ==> r.1[key] == kv[key]))
  {
    forall t: KvTable, q: KvStructs.SetRequest, k: nat | AnyTable(t) && 0 <= k < |reqs|
      ensures KvSetStep(true, faults)(t, q, k) == (Ok(SetEcho(q)), Maps.Upsert(SetKey, SetValue)(t, q))
    {
      assert KvSetStep(true, faults)(t, q, k) == (Ok(SetEcho(q)), t[q.key := q.value]);
      assert Maps.Upsert(SetKey, SetValue)(t, q) == t[SetKey(q) := SetValue(q)];
    }
    Streams.ServeWithoutFaults(kv, reqs, 0, KvSetStep(true, faults), SetEcho, Maps.Upsert(SetKey, SetValue), AnyTable, true);
    Maps.UpsertLastWins(kv, reqs, 0, SetKey, SetValue, true);
  }

  /**
   * With the table in place and no engine failure, a delete stream answers every
   * request with its key and leaves exactly the keys no request names, with their values.
   */
  lemma KvDeleteRemoves(kv: KvTable, reqs: seq<Result<KvStructs.DeleteRequest, Status>>, faults: map<nat, DuckError>)
    requires forall k | 0 <= k < |reqs| :: k !in faults
    ensures var r := Streams.Serve(kv, reqs, 0, KvDeleteStep(true, faults), true);
      r.0 == Streams.Replies(reqs, 0, DeleteEcho, true) &&
      forall key :: (key in r.1 <==> key in kv && Maps.LastWrite(reqs, 0, DeleteKey, key).None?) && (key in r.1 ==> r.1[key] == kv[key])
  {
    forall t: KvTable, q: KvStructs.DeleteRequest, k: nat | AnyTable(t) && 0 <= k < |reqs|
      ensures KvDeleteStep(true, faults)(t, q, k) == (Ok(DeleteEcho(q)), Maps.Remove<KvStructs.DeleteRequest, string, string>(DeleteKey)(t, q))
    {
      assert KvDeleteStep(true, faults)(t, q, k) == (Ok(DeleteEcho(q)), t - {q.key});
      assert Maps.Remove<KvStructs.DeleteRequest, string, string>(DeleteKey)(t, q) == t - {DeleteKey(q)};
    }
    Streams.ServeWithoutFaults(kv, reqs, 0, KvDeleteStep(true, faults), DeleteEcho, Maps.Remove<KvStructs.DeleteRequest, string, string>(DeleteKey), AnyTable, true);
    Maps.RemoveDeletes(kv, reqs, 0, DeleteKey, true);
  }

  /**
   * On a missing table every set request fails (so the stream ends at the first
   * one) and nothing changes.
   */
  lemma {:induction false} KvSetKeepsEmpty(kv: KvTable, reqs: seq<Result<KvStructs.SetRequest, Status>>, from: nat, table: bool, faults: map<nat, DuckError>)
    requires from <= |reqs|
    decreases |reqs| - from
    ensures var r := Streams.Serve(kv, reqs, from, KvSetStep(table, faults), true);
      !table ==> r.1 == kv && forall j | 0 <= j < |r.0| :: r.0[j].Err?
  {
    if from < |reqs| && !table {
      match reqs[from]
      case Err(e) =>
        KvSetKeepsEmpty(kv, reqs, from + 1, table, faults);
        var rest := Streams.Serve(kv, reqs, from + 1, KvSetStep(table, faults), true);
        assert Streams.Serve(kv, reqs, from, KvSetStep(table, faults), true) == ([Err(e)] + rest.0, rest.1);
      case Ok(q) =>
    }
  }

  lemma {:induction false} KvDeleteKeepsEmpty(kv: KvTable, reqs: seq<Result<KvStructs.DeleteRequest, Status>>, from: nat, table: bool, faults: map<nat, DuckError>)
    requires from <= |reqs|
    decreases |reqs| - from
    ensures !table ==> Streams.Serve(kv, reqs, from, KvDeleteStep(table, faults), true).1 == kv
  {
    if from < |reqs| && !table {
      match reqs[from]
      case Err(_) => KvDeleteKeepsEmpty(kv, reqs, from + 1, table, faults);
      case Ok(q) =>
    }
  }

  /**
   * A get stream with the table in place and no engine failure answers the keys
   * present with their values, and ends at the first absent key with the
   * status of `QueryReturnedNoRows`, the answers before it kept.
   */
  lemma KvGetEndsAtMissingKey(kv: KvTable, reqs: seq<Result<KvStructs.GetRequest, Status>>, faults: map<nat, DuckError>, m: nat)
    requires forall k | 0 <= k < |reqs| :: k !in faults
    requires m < |reqs| && reqs[m].Ok? && reqs[m].value.key !in kv
    requires forall k | 0 <= k < m && reqs[k].Ok? :: reqs[k].value.key in kv
    ensures var out := Streams.ServeReads(reqs, 0, KvGetAnswer(true, kv, faults), true);
      |out| == m + 1 && out[m] == Err(Internal) &&
      forall k | 0 <= k < m :: out[k] == (if reqs[k].Ok? then Ok(KvStructs.GetResponse(kv[reqs[k].value.key])) else Err(reqs[k].error))
  {
    var out := Streams.ServeReads(reqs, 0, KvGetAnswer(true, kv, faults), true);
    Streams.ServeReadsShape(reqs, 0, KvGetAnswer(true, kv, faults), true);
    KvGetAnswersBefore(kv, reqs, faults, m);
    assert Streams.Ends(reqs, m, Streams.Answer(reqs, KvGetAnswer(true, kv, faults), m), true);
    assert |out| > m;
    assert out[m] == Streams.Answer(reqs, KvGetAnswer(true, kv, faults), m);
  }

  /** The get answers up to a first absent key: the value or the inbound error, then the no-rows status. */
  lemma KvGetAnswersBefore(kv: KvTable, reqs: seq<Result<KvStructs.GetRequest, Status>>, faults: map<nat, DuckError>, m: nat)
    requires forall k | 0 <= k < |reqs| :: k !in faults
    requires m < |reqs| && reqs[m].Ok? && reqs[m].value.key !in kv
    requires forall k | 0 <= k < m && reqs[k].Ok? :: reqs[k].value.key in kv
    ensures Streams.Answer(reqs, KvGetAnswer(true, kv, faults), m) == Err(Internal)
    ensures forall k | 0 <= k < m ::
      Streams.Answer(reqs, KvGetAnswer(true, kv, faults), k) ==
        (if reqs[k].Ok? then Ok(KvStructs.GetResponse(kv[reqs[k].value.key])) else Err(reqs[k].error)) &&
      !Streams.Ends(reqs, k, Streams.Answer(reqs, KvGetAnswer(true, kv, faults), k), true)
  {
    assert Streams.Answer(reqs, KvGetAnswer(true, kv, faults), m) == Err(Internal);
    forall k | 0 <= k < m
      ensures Streams.Answer(reqs, KvGetAnswer(true, kv, faults), k) ==
        (if reqs[k].Ok? then Ok(KvStructs.GetResponse(kv[reqs[k].value.key])) else Err(reqs[k].error))
    {
      if reqs[k].Ok? {
        assert KvLookup(true, kv, faults, reqs[k].value.key, k) == Ok(kv[reqs[k].value.key]);
      }
    }
  }

  /**
   * Store only adds rows and only moves the sequence forward, so the table stays
   * valid; a store on a missing table changes nothing.
   */
  lemma {:induction false} StoreKeepsValid(b: Blobs, reqs: seq<Result<BlobStructs.StoreRequest, Status>>, from: nat, table: bool, faults: map<nat, DuckError>)
    requires from <= |reqs| && ValidBlobs(b)
    decreases |reqs| - from
    ensures var b' := Streams.Serve(b, reqs, from, BlobStoreStep(table, faults), true).1;
      ValidBlobs(b') && b'.next >= b.next && (!table ==> b' == b) &&
      (forall id | id in b.rows :: id in b'.rows && b'.rows[id] == b.rows[id])
  {
    if from < |reqs| {
      match reqs[from]
      case Err(_) =>
        StoreKeepsValid(b, reqs, from + 1, table, faults);
      case Ok(q) =>
        var (item, b1) := BlobStoreStep(table, faults)(b, q, from);
        if item.Ok? {
          StoreKeepsValid(b1, reqs, from + 1, table, faults);
        }
    }
  }

  /**
   * Store hands out ids from the sequence: every id it answers was not in the
   * table before (it is at least the sequence's old value), and the ids answered
   * grow strictly along the stream.
   */
  lemma {:induction false} StoreIssuesFreshIds(b: Blobs, reqs: seq<Result<BlobStructs.StoreRequest, Status>>, from: nat, table: bool, faults: map<nat, DuckError>)
    requires from <= |reqs|
    decreases |reqs| - from
    ensures var r := Streams.Serve(b, reqs, from, BlobStoreStep(table, faults), true);
      b.next <= r.1.next &&
      (forall j | 0 <= j < |r.0| && r.0[j].Ok? :: b.next <= r.0[j].value.id < r.1.next) &&
      (forall i, j | 0 <= i < j < |r.0| && r.0[i].Ok? && r.0[j].Ok? :: r.0[i].value.id < r.0[j].value.id)
  {
    if from < |reqs| {
      match reqs[from]
      case Err(e) =>
        StoreIssuesFreshIds(b, reqs, from + 1, table, faults);
        assert Streams.Serve(b, reqs, from, BlobStoreStep(table, faults), true) ==
          ([Err(e)] + Streams.Serve(b, reqs, from + 1, BlobStoreStep(table, faults), true).0,
           Streams.Serve(b, reqs, from + 1, BlobStoreStep(table, faults), true).1);
      case Ok(q) =>
        var (item, b1) := BlobStoreStep(table, faults)(b, q, from);
        if item.Ok? {
          StoreIssuesFreshIds(b1, reqs, from + 1, table, faults);
          assert item.value.id == b.next < b1.next;
          assert Streams.Serve(b, reqs, from, BlobStoreStep(table, faults), true) ==
            ([item] + Streams.Serve(b1, reqs, from + 1, BlobStoreStep(table, faults), true).0,
             Streams.Serve(b1, reqs, from + 1, BlobStoreStep(table, faults), true).1);
          forall j | 1 <= j < |Streams.Serve(b, reqs, from, BlobStoreStep(table, faults), true).0|
            ensures Streams.Serve(b, reqs, from, BlobStoreStep(table, faults), true).0[j] ==
                    Streams.Serve(b1, reqs, from + 1, BlobStoreStep(table, faults), true).0[j - 1]
          {
          }
        }
    }
  }

  /** Each id among the answers `r.0` to the requests from `from` on holds, in the blobs `r.1`, the row its request stored. */
  ghost predicate StoredRowsKept(reqs: seq<Result<BlobStructs.StoreRequest, Status>>, from: nat, r: (seq<Result<BlobStructs.StoreResponse, Status>>, Blobs))
  {
    forall j | 0 <= j < |r.0| && from + j < |reqs| && r.0[j].Ok? ::
      reqs[from + j].Ok? && r.0[j].value.id in r.1.rows &&
      r.1.rows[r.0[j].value.id] == BlobRow(reqs[from + j].value.data, reqs[from + j].value.metadata)
  }

  /** The row under each id store answers with is the row that request stored. */
  lemma {:induction false} StoreKeepsWhatItStored(b: Blobs, reqs: seq<Result<BlobStructs.StoreRequest, Status>>, from: nat, table: bool, faults: map<nat, DuckError>)
    requires from <= |reqs| && ValidBlobs(b)
    decreases |reqs| - from
    ensures StoredRowsKept(reqs, from, Streams.Serve(b, reqs, from, BlobStoreStep(table, faults), true))
  {
    if from < |reqs| {
      match reqs[from]
      case Err(e) =>
        StoreKeepsWhatItStored(b, reqs, from + 1, table, faults);
        KeptPastInboundError(reqs, from, e, Streams.Serve(b, reqs, from + 1, BlobStoreStep(table, faults), true));
      case Ok(q) =>
        var (item, b1) := BlobStoreStep(table, faults)(b, q, from);
        if item.Ok? {
          StoreKeepsWhatItStored(b1, reqs, from + 1, table, faults);
          StoreKeepsValid(b1, reqs, from + 1, table, faults);
          KeptPastStore(reqs, from, item, Streams.Serve(b1, reqs, from + 1, BlobStoreStep(table, faults), true));
        }
    }
  }

  /** An inbound error answered in place keeps what the answers after it say. */
  lemma KeptPastInboundError(reqs: seq<Result<BlobStructs.StoreRequest, Status>>, from: nat, e: Status,
                             rest: (seq<Result<BlobStructs.StoreResponse, Status>>, Blobs))
    requires from < |reqs| && reqs[from] == Err(e) && StoredRowsKept(reqs, from + 1, rest)
    ensures StoredRowsKept(reqs, from, ([Err(e)] + rest.0, rest.1))
  {
    var out := [Err(e)] + rest.0;
    forall j | 1 <= j < |out|
      ensures out[j] == rest.0[j - 1]
    {
    }
  }

  /** A store whose row is still there at the end keeps what the answers after it say. */
  lemma KeptPastStore(reqs: seq<Result<BlobStructs.StoreRequest, Status>>, from: nat, item: Result<BlobStructs.StoreResponse, Status>,
                      rest: (seq<Result<BlobStructs.StoreResponse, Status>>, Blobs))
    requires from < |reqs| && reqs[from].Ok? && item.Ok? && StoredRowsKept(reqs, from + 1, rest)
    requires item.value.id in rest.1.rows && rest.1.rows[item.value.id] == BlobRow(reqs[from].value.data, reqs[from].value.metadata)
    ensures StoredRowsKept(reqs, from, ([item] + rest.0, rest.1))
  {
    var out := [item] + rest.0;
    forall j | 1 <= j < |out|
      ensures out[j] == rest.0[j - 1]
    {
    }
  }

  /** Update never creates or removes a blob, and leaves the sequence alone, whatever fails. */
  lemma {:induction false} UpdateKeepsIds(b: Blobs, reqs: seq<Result<BlobStructs.UpdateRequest, Status>>, from: nat, table: bool, faults: map<nat, DuckError>)
    requires from <= |reqs| && ValidBlobs(b)
    decreases |reqs| - from
    ensures var b' := Streams.Serve(b, reqs, from, BlobUpdateStep(table, faults), true).1;
      ValidBlobs(b') && b'.rows.Keys == b.rows.Keys && b'.next == b.next && (!table ==> b' == b)
  {
    if from < |reqs| {
      match reqs[from]
      case Err(_) =>
        UpdateKeepsIds(b, reqs, from + 1, table, faults);
      case Ok(q) =>
        var (item, b1) := BlobUpdateStep(table, faults)(b, q, from);
        if item.Ok? {
          UpdateKeepsIds(b1, reqs, from + 1, table, faults);
        }
    }
  }

  /** Delete only removes rows and leaves the sequence alone, so ids are never reused. */
  lemma {:induction false} DeleteKeepsValid(b: Blobs, reqs: seq<Result<BlobStructs.DeleteRequest, Status>>, from: nat, table: bool, faults: map<nat, DuckError>)
    requires from <= |reqs| && ValidBlobs(b)
    decreases |reqs| - from
    ensures var b' := Streams.Serve(b, reqs, from, BlobDeleteStep(table, faults), true).1;
      ValidBlobs(b') && b'.rows.Keys <= b.rows.Keys && b'.next == b.next && (!table ==> b' == b) &&
      (forall id | id in b'.rows :: b'.rows[id] == b.rows[id])
  {
    if from < |reqs| {
      match reqs[from]
      case Err(_) =>
        DeleteKeepsValid(b, reqs, from + 1, table, faults);
      case Ok(q) =>
        var (item, b1) := BlobDeleteStep(table, faults)(b, q, from);
        if item.Ok? {
          DeleteKeepsValid(b1, reqs, from + 1, table, faults);
        }
    }
  }

  /** Every blob table is acceptable to the update stream. */
  function AnyBlobs(b: Blobs): bool { true }

  /**
   * With the table in place and no engine failure, an update stream answers
   * every request with its id and rewrites, in order, the named columns of each
   * row that exists: data only, metadata only (`Some(None)` storing NULL), both,
   * or nothing.
   */
  lemma UpdateRewritesNamedColumns(b: Blobs, reqs: seq<Result<BlobStructs.UpdateRequest, Status>>, faults: map<nat, DuckError>)
    requires forall k | 0 <= k < |reqs| :: k !in faults
    ensures Streams.Serve(b, reqs, 0, BlobUpdateStep(true, faults), true) ==
      (Streams.Replies(reqs, 0, UpdateEcho, true), Streams.Applied(b, reqs, 0, ApplyUpdate, true))
  {
    forall t: Blobs, q: BlobStructs.UpdateRequest, k: nat | AnyBlobs(t) && 0 <= k < |reqs|
      ensures BlobUpdateStep(true, faults)(t, q, k) == (Ok(UpdateEcho(q)), ApplyUpdate(t, q))
    {
    }
    Streams.ServeWithoutFaults(b, reqs, 0, BlobUpdateStep(true, faults), UpdateEcho, ApplyUpdate, AnyBlobs, true);
  }

  /**
   * An update stream naming no column never touches the engine: it answers every
   * request with its id even when the table is missing or the engine would fail,
   * and changes nothing.
   */
  lemma {:induction false} NoOpUpdatesNeverFail(b: Blobs, reqs: seq<Result<BlobStructs.UpdateRequest, Status>>, from: nat, table: bool, faults: map<nat, DuckError>)
    requires from <= |reqs|
    requires forall k | from <= k < |reqs| && reqs[k].Ok? :: NoOpUpdate(reqs[k].value)
    decreases |reqs| - from
    ensures Streams.Serve(b, reqs, from, BlobUpdateStep(table, faults), true) == (Streams.Replies(reqs, from, UpdateEcho, true), b)
  {
    if from < |reqs| {
      NoOpUpdatesNeverFail(b, reqs, from + 1, table, faults);
    }
  }

  /**
   * `eq_data` and `not_eq_data` read only the data column: two tables with the
   * same ids and the same data give the same verdicts, whatever the metadata.
   */
  lemma DataVerdictsIgnoreMetadata<H>(b1: Blobs, b2: Blobs, eqs: seq<Result<BlobStructs.EqDataRequest, Status>>,
                                          neqs: seq<Result<BlobStructs.NotEqDataRequest, Status>>, table: bool, faults: map<nat, DuckError>, digest: Bytes -> H)
    requires b1.rows.Keys == b2.rows.Keys
    requires forall id | id in b1.rows :: b1.rows[id].data == b2.rows[id].data
    ensures Comparator.EqVerdict(Streams.ServeReads(eqs, 0, BlobDataAnswer(table, b1, faults, EqDataId), true), digest) ==
            Comparator.EqVerdict(Streams.ServeReads(eqs, 0, BlobDataAnswer(table, b2, faults, EqDataId), true), digest)
    ensures Comparator.NotEqVerdict(Streams.ServeReads(neqs, 0, BlobDataAnswer(table, b1, faults, NotEqDataId), true), digest) ==
            Comparator.NotEqVerdict(Streams.ServeReads(neqs, 0, BlobDataAnswer(table, b2, faults, NotEqDataId), true), digest)
  {
    Streams.ServeReadsAgree(eqs, 0, BlobDataAnswer(table, b1, faults, EqDataId), BlobDataAnswer(table, b2, faults, EqDataId), true);
    Streams.ServeReadsAgree(neqs, 0, BlobDataAnswer(table, b1, faults, NotEqDataId), BlobDataAnswer(table, b2, faults, NotEqDataId), true);
  }

  /**
   * The key-value and blob sides share one `initialized` flag: on a fresh
   * database whose first connection is a blob one, the key-value table is never
   * created, so every set request fails and nothing is stored.
   */
  method BlobFirstLeavesNoKvTable(env: Env, reqs: seq<Result<KvStructs.SetRequest, Status>>)
    returns (db: DuckDb, r: Result<Stream<KvStructs.SetResponse>, Status>)
    requires OpenOutcome(false, env).Ok?
    ensures !db.hasKvTable && db.kv == map[] && db.hasBlobTable
    ensures r.Ok? && forall j | 0 <= j < |r.value| :: r.value[j].Err?
  {
    db := new DuckDb(false, map[], false, Blobs(map[], 1));
    var c := db.ConnectBlob(env);
    r := db.KvSet(env, reqs);
    KvSetKeepsEmpty(map[], reqs, 0, false, env.faults);
  }
}

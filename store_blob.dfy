/**
 * The request-per-call SQLite blob store (src/store/blob/mod.rs).
 *
 * Blobs are rows of `blob_store (bytes, metadata)` keyed by SQLite's rowid.
 * Creating a store makes sure the table exists through the thread's connection
 * cache; the calls reach the same cached connection and do not create the
 * table again, so on a connection that lacks it every statement fails. Get and
 * delete report any failure as not-found, store and update as internal.
 * Delete answers the row it removed. An update that changes nothing runs no
 * statement at all; any other update of a rowid with no row fails, because
 * `RETURNING` yields nothing.
 *
 * A failing statement is a parameter (`fails`).
 */
module StoreBlob {
  import opened Common
  import SqliteBackend
  import ProtoBlob
  import StoreConnections

  datatype BlobData = BlobData(bytes: Bytes, metadata: Option<string>)
  datatype UpdateRequest = UpdateRequest(id: u64, bytes: Option<Bytes>, shouldUpdateMetadata: bool, metadata: Option<string>)

  type Table = Option<SqliteBackend.BlobTable>

  /** `CREATE TABLE IF NOT EXISTS blob_store`: creates an empty table only when there is none. */
  function WithBlobTable(db: StoreConnections.Database): (d: StoreConnections.Database)
    ensures d.blobTable.Some? && d.kvTable == db.kvTable
    ensures db.blobTable.Some? ==> d == db
    ensures db.blobTable.None? ==> d.blobTable == Some(map[])
  {
    if db.blobTable.Some? then db else db.(blobTable := Some(map[]))
  }

  /**
   * `SELECT bytes, metadata ... WHERE rowid = ?1`. The id is bound as a
   * signed 64-bit integer: one above the largest fails to bind, and that
   * failure is not-found like any other.
   */
  function GetAnswer(table: Table, id: u64, fails: bool): (r: Result<BlobData, Status>)
    ensures r.Ok? <==> !fails && table.Some? && id in table.value && SqliteBackend.Bindable(id)
    ensures r.Ok? ==> r.value == BlobData(table.value[id].data, table.value[id].metadata)
    ensures r.Err? ==> r.error == NotFound
  {
    if fails || table.None? || id !in table.value || !SqliteBackend.Bindable(id) then Err(NotFound)
    else Ok(BlobData(table.value[id].data, table.value[id].metadata))
  }

  /**
   * `INSERT ... RETURNING rowid`: SQLite's next rowid is one past the largest.
   * When the largest is already the largest 64-bit signed integer, SQLite
   * would probe random rowids; here that case fails.
   */
  function StoreOutcome(table: Table, req: BlobData, fails: bool): (Result<u64, Status>, Table)
  {
    if fails || table.None? || SqliteBackend.MaxRowid(table.value.Keys) >= I64_MAX then (Err(Internal), table)
    else
      var id := SqliteBackend.MaxRowid(table.value.Keys) + 1;
      (Ok(id), Some(table.value[id := SqliteBackend.BlobRow(req.bytes, req.metadata)]))
  }

  predicate NoOpUpdate(req: UpdateRequest)
  {
    req.bytes.None? && !req.shouldUpdateMetadata
  }

  /**
   * The four `UPDATE` cases: the no-op echoes the id untouched, the others
   * need the row and an id that binds.
   */
  function UpdateOutcome(table: Table, req: UpdateRequest, fails: bool): (Result<u64, Status>, Table)
  {
    if NoOpUpdate(req) then (Ok(req.id), table)
    else if fails || table.None? || req.id !in table.value || !SqliteBackend.Bindable(req.id) then (Err(Internal), table)
    else (Ok(req.id), Some(table.value[req.id := SqliteBackend.Rewrite(table.value[req.id], req.bytes, req.shouldUpdateMetadata, req.metadata)]))
  }

  /** `DELETE ... RETURNING bytes, metadata`: the removed row and the table afterwards. */
  function DeleteOutcome(table: Table, id: u64, fails: bool): (Result<BlobData, Status>, Table)
  {
    if fails || table.None? || id !in table.value || !SqliteBackend.Bindable(id) then (Err(NotFound), table)
    else (Ok(BlobData(table.value[id].data, table.value[id].metadata)), Some(table.value - {id}))
  }

  class BlobStore {
    const location: StoreConnections.Location
    const cache: StoreConnections.Connections

    /** `new` / `new_in_memory`: reach the location once and make sure of the table. */
    constructor (location0: StoreConnections.Location, cache0: StoreConnections.Connections)
      modifies cache0
      ensures location == location0 && cache == cache0
      ensures cache.dbs == old(cache0.dbs)[location0 := WithBlobTable(StoreConnections.Current(old(cache0.dbs), cache0.files, location0))]
    {
      location := location0;
      cache := cache0;
      new;
      var db := cache0.Connect(location0);
      cache0.Commit(location0, WithBlobTable(db));
    }

    /** `with_db`: the cached connection's table, opening the connection on first use. */
    method WithDb() returns (db: StoreConnections.Database)
      modifies cache
      ensures db == StoreConnections.Current(old(cache.dbs), cache.files, location)
      ensures cache.dbs == old(cache.dbs)[location := db]
    {
      db := cache.Connect(location);
    }

    method Get(id: u64, fails: bool) returns (r: Result<BlobData, Status>)
      modifies cache
      ensures var db := StoreConnections.Current(old(cache.dbs), cache.files, location);
        cache.dbs == old(cache.dbs)[location := db] && r == GetAnswer(db.blobTable, id, fails)
    {
      var db := WithDb();
      if fails || db.blobTable.None? || id !in db.blobTable.value || !SqliteBackend.Bindable(id) {
        return Err(NotFound);
      }
      var row := db.blobTable.value[id];
      r := Ok(BlobData(row.data, row.metadata));
    }

    method Store(req: BlobData, fails: bool) returns (r: Result<u64, Status>)
      modifies cache
      ensures var db := StoreConnections.Current(old(cache.dbs), cache.files, location);
        var (res, table') := StoreOutcome(db.blobTable, req, fails);
        r == res && cache.dbs == old(cache.dbs)[location := db.(blobTable := table')]
    {
      var db := WithDb();
      if fails || db.blobTable.None? {
        return Err(Internal);
      }
      var rows := db.blobTable.value;
      var top := SqliteBackend.MaxRowid(rows.Keys);
      if top >= I64_MAX {
        assert db.(blobTable := Some(rows)) == db;
        return Err(Internal);
      }
      var id: u64 := top + 1;
      cache.Commit(location, db.(blobTable := Some(rows[id := SqliteBackend.BlobRow(req.bytes, req.metadata)])));
      r := Ok(id);
    }

    method Update(req: UpdateRequest, fails: bool) returns (r: Result<u64, Status>)
      modifies cache
      ensures NoOpUpdate(req) ==> r == Ok(req.id) && cache.dbs == old(cache.dbs)
      ensures !NoOpUpdate(req) ==>
        var db := StoreConnections.Current(old(cache.dbs), cache.files, location);
        var (res, table') := UpdateOutcome(db.blobTable, req, fails);
        r == res && cache.dbs == old(cache.dbs)[location := db.(blobTable := table')]
    {
      if req.bytes.None? && !req.shouldUpdateMetadata {
        return Ok(req.id);
      }
      var db := WithDb();
      if fails || db.blobTable.None? || req.id !in db.blobTable.value || !SqliteBackend.Bindable(req.id) {
        return Err(Internal);
      }
      var rows := db.blobTable.value;
      var row := rows[req.id];
      var data := if req.bytes.Some? then req.bytes.value else row.data;
      var metadata := if req.shouldUpdateMetadata then req.metadata else row.metadata;
      cache.Commit(location, db.(blobTable := Some(rows[req.id := SqliteBackend.BlobRow(data, metadata)])));
      r := Ok(req.id);
    }

    method Delete(id: u64, fails: bool) returns (r: Result<BlobData, Status>)
      modifies cache
      ensures var db := StoreConnections.Current(old(cache.dbs), cache.files, location);
        var (res, table') := DeleteOutcome(db.blobTable, id, fails);
        r == res && cache.dbs == old(cache.dbs)[location := db.(blobTable := table')]
    {
      var db := WithDb();
      if fails || db.blobTable.None? || id !in db.blobTable.value || !SqliteBackend.Bindable(id) {
        return Err(NotFound);
      }
      var rows := db.blobTable.value;
      var row := rows[id];
      cache.Commit(location, db.(blobTable := Some(rows - {id})));
      r := Ok(BlobData(row.data, row.metadata));
    }
  }

  // ----- properties ---------------------------------------------------------

  /**
   * A store succeeds on a table whose rowids are not exhausted, with a rowid
   * larger than every existing one; it keeps every existing row and the new
   * rowid reads back the stored blob.
   */
  lemma StoreIssuesFreshRowid(rows: SqliteBackend.BlobTable, req: BlobData)
    requires SqliteBackend.MaxRowid(rows.Keys) < I64_MAX
    ensures var (r, table') := StoreOutcome(Some(rows), req, false);
      r.Ok? && 1 <= r.value <= I64_MAX && r.value !in rows &&
      (forall id | id in rows :: id < r.value) &&
      table' == Some(rows[r.value := SqliteBackend.BlobRow(req.bytes, req.metadata)]) &&
      GetAnswer(table', r.value, false) == Ok(req)
  {
  }

  /**
   * Updating an existing row: the bytes are replaced when given, the metadata
   * when the flag is set (an absent value clears it), and a get reads that
   * back.
   */
  lemma UpdateThenGet(rows: SqliteBackend.BlobTable, req: UpdateRequest)
    requires SqliteBackend.ValidRows(rows) && req.id in rows
    ensures var (r, table') := UpdateOutcome(Some(rows), req, false);
      r == Ok(req.id) &&
      GetAnswer(table', req.id, false) == Ok(BlobData(
        if req.bytes.Some? then req.bytes.value else rows[req.id].data,
        if req.shouldUpdateMetadata then req.metadata else rows[req.id].metadata))
  {
  }

  /**
   * An update of a rowid with no row fails, except the no-op, which succeeds
   * without looking; neither changes the table.
   */
  lemma UpdateOfMissingRow(rows: SqliteBackend.BlobTable, req: UpdateRequest)
    requires req.id !in rows
    ensures UpdateOutcome(Some(rows), req, false) == (if NoOpUpdate(req) then Ok(req.id) else Err(Internal), Some(rows))
  {
  }

  /**
   * Delete answers the row it removed; a get afterwards and a second delete
   * are both not-found, and the other rows stay.
   */
  lemma DeleteReturnsRemovedRow(rows: SqliteBackend.BlobTable, id: u64, other: u64)
    requires SqliteBackend.ValidRows(rows) && id in rows
    ensures var (r, table') := DeleteOutcome(Some(rows), id, false);
      r == Ok(BlobData(rows[id].data, rows[id].metadata)) &&
      GetAnswer(table', id, false) == Err(NotFound) &&
      DeleteOutcome(table', id, false).0 == Err(NotFound) &&
      (other != id ==> GetAnswer(table', other, false) == GetAnswer(Some(rows), other, false))
  {
  }

  /**
   * An id above the largest signed 64-bit integer does not bind: get and
   * delete are not-found and an update other than the no-op is internal,
   * whatever the table holds, and none of them changes it.
   */
  lemma UnboundIdFails(table: Table, id: u64, upd: UpdateRequest)
    requires id > I64_MAX && upd.id > I64_MAX && !NoOpUpdate(upd)
    ensures GetAnswer(table, id, false) == Err(NotFound)
    ensures UpdateOutcome(table, upd, false) == (Err(Internal), table)
    ensures DeleteOutcome(table, id, false) == (Err(NotFound), table)
  {
  }

  /** On a connection without the table, every statement fails. */
  lemma MissingTableFailsEverything(id: u64, req: BlobData, upd: UpdateRequest)
    requires !NoOpUpdate(upd)
    ensures GetAnswer(None, id, false) == Err(NotFound)
    ensures StoreOutcome(None, req, false) == (Err(Internal), None)
    ensures UpdateOutcome(None, upd, false) == (Err(Internal), None)
    ensures DeleteOutcome(None, id, false) == (Err(NotFound), None)
  {
  }

  /**
   * This store allocates rowids, rewrites rows and deletes them exactly as the
   * streaming SQLite backend does.
   */
  lemma AgreesWithStreamingBackend(rows: SqliteBackend.BlobTable, req: BlobData, upd: UpdateRequest, k: nat)
    requires SqliteBackend.ValidRows(rows) && SqliteBackend.MaxRowid(rows.Keys) < I64_MAX && upd.id in rows
    ensures var (r, table') := StoreOutcome(Some(rows), req, false);
      var (r2, rows2) := SqliteBackend.BlobStoreStep(true, map[])(rows, SqliteBackend.BlobStoreRequest(req.bytes, req.metadata), k);
      r.Ok? && r2 == Ok(ProtoBlob.StoreResponse(r.value)) && table' == Some(rows2)
    ensures UpdateOutcome(Some(rows), upd, false).1 ==
      Some(SqliteBackend.BlobUpdateStep(true, map[])(rows, SqliteBackend.BlobUpdateRequest(upd.id, upd.bytes, upd.shouldUpdateMetadata, upd.metadata), k).1)
    ensures DeleteOutcome(Some(rows), upd.id, false).1 ==
      Some(SqliteBackend.BlobDeleteStep(true, map[])(rows, ProtoBlob.DeleteRequest(upd.id), k).1)
  {
    StoreAgrees(rows, req, k);
    UpdateAgrees(rows, upd, k);
    DeleteAgrees(rows, upd.id, k);
  }

  lemma StoreAgrees(rows: SqliteBackend.BlobTable, req: BlobData, k: nat)
    requires SqliteBackend.MaxRowid(rows.Keys) < I64_MAX
    ensures var (r, table') := StoreOutcome(Some(rows), req, false);
      var (r2, rows2) := SqliteBackend.BlobStoreStep(true, map[])(rows, SqliteBackend.BlobStoreRequest(req.bytes, req.metadata), k);
      r.Ok? && r2 == Ok(ProtoBlob.StoreResponse(r.value)) && table' == Some(rows2)
  {
    var id := SqliteBackend.MaxRowid(rows.Keys) + 1;
    var row := SqliteBackend.BlobRow(req.bytes, req.metadata);
    assert StoreOutcome(Some(rows), req, false) == (Ok(id), Some(rows[id := row]));
    assert SqliteBackend.BlobStoreStep(true, map[])(rows, SqliteBackend.BlobStoreRequest(req.bytes, req.metadata), k)
      == (Ok(ProtoBlob.StoreResponse(id)), rows[id := row]);
  }

  lemma UpdateAgrees(rows: SqliteBackend.BlobTable, upd: UpdateRequest, k: nat)
    requires upd.id in rows && upd.id <= I64_MAX
    ensures UpdateOutcome(Some(rows), upd, false).1 ==
      Some(SqliteBackend.BlobUpdateStep(true, map[])(rows, SqliteBackend.BlobUpdateRequest(upd.id, upd.bytes, upd.shouldUpdateMetadata, upd.metadata), k).1)
  {
    assert SqliteBackend.Bindable(upd.id);
  }

  lemma DeleteAgrees(rows: SqliteBackend.BlobTable, id: u64, k: nat)
    requires id in rows && id <= I64_MAX
    ensures DeleteOutcome(Some(rows), id, false).1 ==
      Some(SqliteBackend.BlobDeleteStep(true, map[])(rows, ProtoBlob.DeleteRequest(id), k).1)
  {
    assert SqliteBackend.Bindable(id);
  }
}

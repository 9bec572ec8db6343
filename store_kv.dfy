/**
 * The request-per-call SQLite key-value store (src/store/kv/mod.rs).
 *
 * Every call reaches its location's database through the thread's connection
 * cache and first makes sure the `kv_store` table exists. `get` answers the
 * stored value, `set` is a REPLACE that echoes the key, `delete` removes the
 * row and answers the value it held. A failing statement is a parameter
 * (`fails`); for `get` and `delete` every failure, an absent key included, is
 * reported as not-found, for `set` as internal.
 */
module StoreKv {
  import opened Common
  import SqliteBackend
  import ProtoKv
  import StoreConnections

  /** `CREATE TABLE IF NOT EXISTS kv_store`: creates an empty table only when there is none. */
  function WithKvTable(db: StoreConnections.Database): (d: StoreConnections.Database)
    ensures d.kvTable.Some? && d.blobTable == db.blobTable
    ensures db.kvTable.Some? ==> d == db
    ensures db.kvTable.None? ==> d.kvTable == Some(map[])
  {
    if db.kvTable.Some? then db else db.(kvTable := Some(map[]))
  }

  /** `SELECT value ... WHERE key = ?1`. */
  function GetAnswer(kv: map<string, string>, key: string, fails: bool): (r: Result<string, Status>)
    ensures r.Ok? <==> !fails && key in kv
    ensures r.Ok? ==> r.value == kv[key]
    ensures r.Err? ==> r.error == NotFound
  {
    if fails || key !in kv then Err(NotFound) else Ok(kv[key])
  }

  /** `REPLACE INTO ... RETURNING key`: the answer and the table afterwards. */
  function SetOutcome(kv: map<string, string>, key: string, value: string, fails: bool): (Result<string, Status>, map<string, string>)
  {
    if fails then (Err(Internal), kv) else (Ok(key), kv[key := value])
  }

  /** `DELETE ... RETURNING value`: the removed value and the table afterwards. */
  function DeleteOutcome(kv: map<string, string>, key: string, fails: bool): (Result<string, Status>, map<string, string>)
  {
    if fails || key !in kv then (Err(NotFound), kv) else (Ok(kv[key]), kv - {key})
  }

  class KvStore {
    const location: StoreConnections.Location
    const cache: StoreConnections.Connections

    /** `new` / `new_in_memory`: only the location; nothing is opened yet. */
    constructor (location0: StoreConnections.Location, cache0: StoreConnections.Connections)
      ensures location == location0 && cache == cache0
    {
      location := location0;
      cache := cache0;
    }

    /** `with_db`: the cached connection, with the table made sure of. */
    method WithDb() returns (db: StoreConnections.Database)
      modifies cache
      ensures db == WithKvTable(StoreConnections.Current(old(cache.dbs), cache.files, location))
      ensures cache.dbs == old(cache.dbs)[location := db]
    {
      db := cache.Connect(location);
      db := WithKvTable(db);
      cache.Commit(location, db);
    }

    method Get(key: string, fails: bool) returns (r: Result<string, Status>)
      modifies cache
      ensures var db := WithKvTable(StoreConnections.Current(old(cache.dbs), cache.files, location));
        cache.dbs == old(cache.dbs)[location := db] && r == GetAnswer(db.kvTable.value, key, fails)
    {
      var db := WithDb();
      var kv := db.kvTable.value;
      if !fails && key in kv {
        r := Ok(kv[key]);
      } else {
        r := Err(NotFound);
      }
    }

    method Set(key: string, value: string, fails: bool) returns (r: Result<string, Status>)
      modifies cache
      ensures var db := WithKvTable(StoreConnections.Current(old(cache.dbs), cache.files, location));
        var (res, kv') := SetOutcome(db.kvTable.value, key, value, fails);
        r == res && cache.dbs == old(cache.dbs)[location := db.(kvTable := Some(kv'))]
    {
      var db := WithDb();
      if fails {
        return Err(Internal);
      }
      var kv := db.kvTable.value;
      cache.Commit(location, db.(kvTable := Some(kv[key := value])));
      r := Ok(key);
    }

    method Delete(key: string, fails: bool) returns (r: Result<string, Status>)
      modifies cache
      ensures var db := WithKvTable(StoreConnections.Current(old(cache.dbs), cache.files, location));
        var (res, kv') := DeleteOutcome(db.kvTable.value, key, fails);
        r == res && cache.dbs == old(cache.dbs)[location := db.(kvTable := Some(kv'))]
    {
      var db := WithDb();
      var kv := db.kvTable.value;
      if fails || key !in kv {
        assert db.(kvTable := Some(kv)) == db;
        return Err(NotFound);
      }
      var value := kv[key];
      cache.Commit(location, db.(kvTable := Some(kv - {key})));
      r := Ok(value);
    }
  }

  // ----- properties ---------------------------------------------------------

  /** Making sure of the table twice is making sure of it once, and keeps the rows. */
  lemma TableCreationIsIdempotent(db: StoreConnections.Database)
    ensures WithKvTable(WithKvTable(db)) == WithKvTable(db)
    ensures db.kvTable.Some? ==> WithKvTable(db).kvTable == db.kvTable
  {
  }

  /** A set is read back and leaves every other key's answer alone. */
  lemma SetThenGet(kv: map<string, string>, key: string, value: string, other: string)
    ensures var (r, kv') := SetOutcome(kv, key, value, false);
      r == Ok(key) && GetAnswer(kv', key, false) == Ok(value) &&
      (other != key ==> GetAnswer(kv', other, false) == GetAnswer(kv, other, false))
  {
  }

  /**
   * Delete answers the value it removed; a get afterwards and a second delete
   * are both not-found.
   */
  lemma DeleteReturnsRemovedValue(kv: map<string, string>, key: string)
    requires key in kv
    ensures var (r, kv') := DeleteOutcome(kv, key, false);
      r == Ok(kv[key]) && GetAnswer(kv', key, false) == Err(NotFound) &&
      DeleteOutcome(kv', key, false) == (Err(NotFound), kv')
  {
  }

  /**
   * This store and the streaming SQLite backend write the same rows, but they
   * report an absent key differently: not-found here, and the no-rows error's
   * invalid-argument status in the backend.
   */
  lemma AgreesWithStreamingBackend(kv: map<string, string>, key: string, value: string, k: nat)
    ensures SetOutcome(kv, key, value, false).1 == SqliteBackend.KvSetStep(true, map[])(kv, ProtoKv.SetRequest(key, value), k).1
    ensures key in kv ==> GetAnswer(kv, key, false) == SqliteBackend.KvLookup(true, kv, map[], key, k)
    ensures key !in kv ==> GetAnswer(kv, key, false) == Err(NotFound) && SqliteBackend.KvLookup(true, kv, map[], key, k) == Err(InvalidArgument)
  {
  }
}

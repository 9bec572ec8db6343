/**
 * The per-thread SQLite connection cache of the request-per-call stores
 * (`with_db` in src/store/kv/mod.rs and src/store/blob/mod.rs).
 *
 * A thread keeps one connection per location. The first use of a location
 * opens it: a fresh in-memory database, or the database file at a path; every
 * later use on that thread reuses the same connection, and so the same
 * database. Both stores share the cache, so a key-value store and a blob store
 * at one location work on one database.
 *
 * One thread is modelled. What a file holds when it is first opened is given
 * by `files` (an absent path opens an empty database).
 */
module StoreConnections {
  import opened Common
  import SqliteBackend

  datatype Location = InMemory | OnDisk(path: string)

  /** A database: the `kv_store` and `blob_store` tables, each present or not. */
  datatype Database = Database(kvTable: Option<map<string, string>>, blobTable: Option<SqliteBackend.BlobTable>)

  function Empty(): Database { Database(None, None) }

  /** `Location::to_connection`: what a newly opened connection sees. */
  function Opened(files: map<string, Database>, loc: Location): (db: Database)
    ensures loc.InMemory? ==> db == Empty()
    ensures loc.OnDisk? ==> db == (if loc.path in files then files[loc.path] else Empty())
  {
    match loc
    case InMemory => Empty()
    case OnDisk(path) => if path in files then files[path] else Empty()
  }

  /** The database a use of `loc` reaches: the cached connection's, or a newly opened one. */
  function Current(dbs: map<Location, Database>, files: map<string, Database>, loc: Location): Database
  {
    if loc in dbs then dbs[loc] else Opened(files, loc)
  }

  class Connections {
    const files: map<string, Database>
    var dbs: map<Location, Database>

    /** The thread starts with no connection. */
    constructor (files0: map<string, Database>)
      ensures files == files0 && dbs == map[]
    {
      files := files0;
      dbs := map[];
    }

    /**
     * `map.entry(location).or_insert_with(|| location.to_connection())`: opens a
     * connection only when the location has none.
     */
    method Connect(loc: Location) returns (db: Database)
      modifies this
      ensures db == Current(old(dbs), files, loc)
      ensures dbs == old(dbs)[loc := db]
      ensures loc in old(dbs) ==> dbs == old(dbs)
    {
      if loc !in dbs {
        dbs := dbs[loc := Opened(files, loc)];
      }
      db := dbs[loc];
    }

    /** The statement run through the connection left `db` behind. */
    method Commit(loc: Location, db: Database)
      modifies this
      ensures dbs == old(dbs)[loc := db]
    {
      dbs := dbs[loc := db];
    }
  }

  /**
   * Reaching a location again gives the database the last use left there,
   * and other locations are untouched.
   */
  lemma ReuseSeesLastWrite(dbs: map<Location, Database>, files: map<string, Database>, loc: Location, other: Location, db: Database)
    ensures Current(dbs[loc := db], files, loc) == db
    ensures other != loc ==> Current(dbs[loc := db], files, other) == Current(dbs, files, other)
  {
  }
}

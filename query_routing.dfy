/**
 * Routing raw queries to the key-value or the blob database (src/query.rs).
 *
 * A call opens a connection to each database, then reads the requests one at
 * a time. Each request names its target as a protobuf enumeration value; the
 * query runs on that target's connection, the connection the engine hands back
 * replaces the one held, and every item the engine yields is passed on (engine
 * errors included) before the next request is read. A transport error or a
 * target that is not an enumeration value is yielded and ends the stream.
 *
 * The engine is a parameter: `run(query, connection)` gives the items of one
 * query and the connection after it.
 */
module QueryRouting {
  import opened Common
  import Interop
  import QueryStructs
  import ProtoQuery

  /** The wire numbering of `TargetStore`. */
  function EncodeTarget(t: QueryStructs.TargetStore): i32
  {
    match t
    case KeyValue => 0
    case Blob => 1
  }

  /** `TargetStore::try_from`: the two known values, and an invalid-argument status for any other. */
  function DecodeTarget(t: i32): (r: Result<QueryStructs.TargetStore, Status>)
    ensures r.Ok? <==> t == 0 || t == 1
    ensures r.Err? ==> r.error == InvalidArgument
  {
    if t == 0 then Ok(QueryStructs.KeyValue)
    else if t == 1 then Ok(QueryStructs.Blob)
    else Err(Interop.UnknownEnumValueStatus(t))
  }

  /** Decoding undoes encoding, so each target has exactly one wire value. */
  lemma TargetRoundTrip(t: QueryStructs.TargetStore, w: i32)
    ensures DecodeTarget(EncodeTarget(t)) == Ok(t)
    ensures DecodeTarget(w).Ok? ==> EncodeTarget(DecodeTarget(w).value) == w
  {
  }

  /**
   * The items the loop yields from request `from` on, with the key-value and
   * blob connections it is left holding.
   */
  function Routed<C, R>(reqs: seq<Result<ProtoQuery.RawQuery, Status>>, from: nat, kv: C, blob: C, run: (string, C) -> (seq<Result<R, Status>>, C)): (seq<Result<R, Status>>, C, C)
    requires from <= |reqs|
    decreases |reqs| - from
  {
    if from == |reqs| then ([], kv, blob)
    else match reqs[from]
      case Err(e) => ([Err(e)], kv, blob)
      case Ok(q) =>
        match DecodeTarget(q.target)
        case Err(e) => ([Err(e)], kv, blob)
        case Ok(KeyValue) =>
          var (items, kv') := run(q.query, kv);
          var rest := Routed(reqs, from + 1, kv', blob, run);
          (items + rest.0, rest.1, rest.2)
        case Ok(Blob) =>
          var (items, blob') := run(q.query, blob);
          var rest := Routed(reqs, from + 1, kv, blob', run);
          (items + rest.0, rest.1, rest.2)
  }

  /** The loop of the `stream!` body, threading both connections. */
  method Route<C, R>(reqs: seq<Result<ProtoQuery.RawQuery, Status>>, kv0: C, blob0: C, run: (string, C) -> (seq<Result<R, Status>>, C))
    returns (out: seq<Result<R, Status>>, kv: C, blob: C)
    ensures (out, kv, blob) == Routed(reqs, 0, kv0, blob0, run)
  {
    out, kv, blob := [], kv0, blob0;
    var i := 0;
    while i < |reqs|
      invariant 0 <= i <= |reqs|
      invariant out + Routed(reqs, i, kv, blob, run).0 == Routed(reqs, 0, kv0, blob0, run).0
      invariant Routed(reqs, i, kv, blob, run).1 == Routed(reqs, 0, kv0, blob0, run).1
      invariant Routed(reqs, i, kv, blob, run).2 == Routed(reqs, 0, kv0, blob0, run).2
    {
      match reqs[i] {
        case Err(e) =>
          assert Routed(reqs, i, kv, blob, run) == ([Err(e)], kv, blob);
          out := out + [Err(e)];
          return;
        case Ok(q) =>
          var target := DecodeTarget(q.target);
          if target.Err? {
            assert Routed(reqs, i, kv, blob, run) == ([Err(target.error)], kv, blob);
            out := out + [Err(target.error)];
            return;
          }
          if target.value == QueryStructs.KeyValue {
            var (items, conn) := run(q.query, kv);
            assert Routed(reqs, i, kv, blob, run).0 == items + Routed(reqs, i + 1, conn, blob, run).0;
            out := out + items;
            kv := conn;
          } else {
            var (items, conn) := run(q.query, blob);
            assert Routed(reqs, i, kv, blob, run).0 == items + Routed(reqs, i + 1, kv, conn, run).0;
            out := out + items;
            blob := conn;
          }
      }
      i := i + 1;
    }
    assert out + [] == out;
  }

  /** `query`: both connections first, then the routed items. */
  method Query<C, R>(kvConnect: Result<C, Status>, blobConnect: Result<C, Status>, reqs: seq<Result<ProtoQuery.RawQuery, Status>>, run: (string, C) -> (seq<Result<R, Status>>, C))
    returns (r: Result<seq<Result<R, Status>>, Status>)
    ensures kvConnect.Err? ==> r == Err(kvConnect.error)
    ensures kvConnect.Ok? && blobConnect.Err? ==> r == Err(blobConnect.error)
    ensures kvConnect.Ok? && blobConnect.Ok? ==> r == Ok(Routed(reqs, 0, kvConnect.value, blobConnect.value, run).0)
  {
    if kvConnect.Err? {
      return Err(kvConnect.error);
    }
    if blobConnect.Err? {
      return Err(blobConnect.error);
    }
    var out, kv, blob := Route(reqs, kvConnect.value, blobConnect.value, run);
    return Ok(out);
  }

  /** A statement run as a query that yields its one result. */
  function Single<C, E>(exec: (string, C) -> (Result<E, Status>, C)): (string, C) -> (seq<Result<E, Status>>, C)
  {
    (query: string, c: C) => ([exec(query, c).0], exec(query, c).1)
  }

  /** `execute`: the same loop, one result per statement. */
  method Execute<C, E>(kvConnect: Result<C, Status>, blobConnect: Result<C, Status>, reqs: seq<Result<ProtoQuery.RawQuery, Status>>, exec: (string, C) -> (Result<E, Status>, C))
    returns (r: Result<seq<Result<E, Status>>, Status>)
    ensures kvConnect.Err? ==> r == Err(kvConnect.error)
    ensures kvConnect.Ok? && blobConnect.Err? ==> r == Err(blobConnect.error)
    ensures kvConnect.Ok? && blobConnect.Ok? ==> r == Ok(Routed(reqs, 0, kvConnect.value, blobConnect.value, Single(exec)).0)
  {
    r := Query(kvConnect, blobConnect, reqs, Single(exec));
  }

  // ----- properties ---------------------------------------------------------

  /** Request `j` arrived and names a known target. */
  predicate Routable(reqs: seq<Result<ProtoQuery.RawQuery, Status>>, j: nat)
    requires j < |reqs|
  {
    reqs[j].Ok? && DecodeTarget(reqs[j].value.target).Ok?
  }

  /** The texts of the queries from `from` on that name target `t`, in order. */
  function QueriesFor(reqs: seq<Result<ProtoQuery.RawQuery, Status>>, from: nat, t: QueryStructs.TargetStore): seq<string>
    requires from <= |reqs|
    decreases |reqs| - from
  {
    if from == |reqs| then []
    else if reqs[from].Ok? && DecodeTarget(reqs[from].value.target) == Ok(t) then [reqs[from].value.query] + QueriesFor(reqs, from + 1, t)
    else QueriesFor(reqs, from + 1, t)
  }

  /** The connection after running `qs` on it one after another. */
  function Thread<C, R>(c: C, qs: seq<string>, run: (string, C) -> (seq<Result<R, Status>>, C)): C
    decreases |qs|
  {
    if qs == [] then c else Thread(run(qs[0], c).1, qs[1..], run)
  }

  /**
   * Each connection serves only its own target's queries, in arrival order,
   * each run on the connection the previous one handed back.
   */
  lemma {:induction false} ConnectionsServeOwnTarget<C, R>(reqs: seq<Result<ProtoQuery.RawQuery, Status>>, from: nat, kv: C, blob: C, run: (string, C) -> (seq<Result<R, Status>>, C))
    requires from <= |reqs| && forall j | from <= j < |reqs| :: Routable(reqs, j)
    decreases |reqs| - from
    ensures Routed(reqs, from, kv, blob, run).1 == Thread(kv, QueriesFor(reqs, from, QueryStructs.KeyValue), run)
    ensures Routed(reqs, from, kv, blob, run).2 == Thread(blob, QueriesFor(reqs, from, QueryStructs.Blob), run)
  {
    if from < |reqs| {
      assert Routable(reqs, from);
      var q := reqs[from].value;
      if DecodeTarget(q.target) == Ok(QueryStructs.KeyValue) {
        ConnectionsServeOwnTarget(reqs, from + 1, run(q.query, kv).1, blob, run);
        assert QueriesFor(reqs, from, QueryStructs.KeyValue)[1..] == QueriesFor(reqs, from + 1, QueryStructs.KeyValue);
      } else {
        ConnectionsServeOwnTarget(reqs, from + 1, kv, run(q.query, blob).1, run);
        assert QueriesFor(reqs, from, QueryStructs.Blob)[1..] == QueriesFor(reqs, from + 1, QueryStructs.Blob);
      }
    }
  }

  /**
   * Later requests only add items at the end: what the loop yields for a
   * prefix of the requests is a prefix of what it yields for all of them, so
   * every item of a query is out before the next request is read.
   */
  lemma {:induction false} LaterRequestsOnlyAppend<C, R>(reqs: seq<Result<ProtoQuery.RawQuery, Status>>, extra: seq<Result<ProtoQuery.RawQuery, Status>>, from: nat, kv: C, blob: C, run: (string, C) -> (seq<Result<R, Status>>, C))
    requires from <= |reqs|
    decreases |reqs| - from
    ensures Routed(reqs, from, kv, blob, run).0 <= Routed(reqs + extra, from, kv, blob, run).0
  {
    var all := reqs + extra;
    if from < |reqs| {
      assert all[from] == reqs[from];
      match reqs[from]
      case Err(e) =>
      case Ok(q) =>
        match DecodeTarget(q.target)
        case Err(e) =>
        case Ok(KeyValue) =>
          LaterRequestsOnlyAppend(reqs, extra, from + 1, run(q.query, kv).1, blob, run);
        case Ok(Blob) =>
          LaterRequestsOnlyAppend(reqs, extra, from + 1, kv, run(q.query, blob).1, run);
    }
  }

  /**
   * A target that is not an enumeration value ends the stream with an
   * invalid-argument status: nothing after that request changes the output.
   */
  lemma {:induction false} UnknownTargetEndsStream<C, R>(reqs: seq<Result<ProtoQuery.RawQuery, Status>>, from: nat, m: nat, kv: C, blob: C, run: (string, C) -> (seq<Result<R, Status>>, C))
    requires from <= m < |reqs| && forall j | from <= j < m :: Routable(reqs, j)
    requires reqs[m].Ok? && DecodeTarget(reqs[m].value.target).Err?
    decreases m - from
    ensures var out := Routed(reqs, from, kv, blob, run).0;
      |out| > 0 && out[|out| - 1] == Err(InvalidArgument) &&
      out == Routed(reqs[..m + 1], from, kv, blob, run).0
  {
    var prefix := reqs[..m + 1];
    assert prefix[from] == reqs[from];
    forall j | from <= j < m ensures Routable(prefix, j) {
      assert Routable(reqs, j);
      assert prefix[j] == reqs[j];
    }
    if from < m {
      assert Routable(reqs, from);
      var q := reqs[from].value;
      if DecodeTarget(q.target) == Ok(QueryStructs.KeyValue) {
        UnknownTargetEndsStream(reqs, from + 1, m, run(q.query, kv).1, blob, run);
        UnknownTargetEndsStream(prefix, from + 1, m, run(q.query, kv).1, blob, run);
        assert prefix[..m + 1] == prefix;
      } else {
        UnknownTargetEndsStream(reqs, from + 1, m, kv, run(q.query, blob).1, run);
        UnknownTargetEndsStream(prefix, from + 1, m, kv, run(q.query, blob).1, run);
        assert prefix[..m + 1] == prefix;
      }
    }
  }
}

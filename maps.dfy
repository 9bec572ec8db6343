/**
 * What a stream of writes does to a table kept as a map: an upsert stream
 * leaves every key with the value of its last write, and a delete stream removes
 * exactly the keys it names. The stores use these as the reference for their
 * set and delete streams.
 */
module Maps {
  import opened Common
  import Streams

  /** Writing `val(q)` under `key(q)`, replacing what was there ("INSERT OR REPLACE", `put`). */
  function Upsert<Q, K(==), V>(key: Q -> K, val: Q -> V): (map<K, V>, Q) -> map<K, V>
  {
    (m: map<K, V>, q: Q) => m[key(q) := val(q)]
  }

  /** Removing `key(q)`, whether or not it is there ("DELETE ... WHERE", `delete`). */
  function Remove<Q, K(==), V>(key: Q -> K): (map<K, V>, Q) -> map<K, V>
  {
    (m: map<K, V>, q: Q) => m - {key(q)}
  }

  /** Request `j` is a request (not an inbound error) naming key `k`. */
  predicate Names<Q, K(==)>(reqs: seq<Result<Q, Status>>, key: Q -> K, k: K, j: int)
  {
    0 <= j < |reqs| && reqs[j].Ok? && key(reqs[j].value) == k
  }

  /** The position of the last request from `from` on that names `k`, if any. */
  function LastWrite<Q, K(==)>(reqs: seq<Result<Q, Status>>, from: nat, key: Q -> K, k: K): (w: Option<nat>)
    requires from <= |reqs|
    decreases |reqs| - from
    ensures w.Some? ==> from <= w.value && Names(reqs, key, k, w.value)
    ensures w.Some? ==> forall j | w.value < j < |reqs| :: !Names(reqs, key, k, j)
    ensures w.None? ==> forall j | from <= j < |reqs| :: !Names(reqs, key, k, j)
  {
    if from == |reqs| then None
    else
      var later := LastWrite(reqs, from + 1, key, k);
      if later.Some? then later
      else if Names(reqs, key, k, from) then Some(from)
      else None
  }

  /**
   * Last write wins: after the upserts from `from` on, a key some request names
   * holds the value of the last such request, and every other key is as before.
   */
  lemma {:induction false} UpsertLastWins<Q, K, V>(m: map<K, V>, reqs: seq<Result<Q, Status>>, from: nat, key: Q -> K, val: Q -> V, passErrors: bool)
    requires from <= |reqs|
    requires passErrors || forall j | from <= j < |reqs| :: reqs[j].Ok?
    decreases |reqs| - from
    ensures forall k ::
      var w := LastWrite(reqs, from, key, k);
      var r := Streams.Applied(m, reqs, from, Upsert(key, val), passErrors);
      (w.Some? ==> k in r && r[k] == val(reqs[w.value].value)) &&
      (w.None? ==> (k in r <==> k in m) && (k in m ==> r[k] == m[k]))
  {
    if from < |reqs| {
      match reqs[from]
      case Err(_) =>
        UpsertLastWins(m, reqs, from + 1, key, val, passErrors);
      case Ok(q) =>
        UpsertLastWins(m[key(q) := val(q)], reqs, from + 1, key, val, passErrors);
    }
  }

  /**
   * After the deletes from `from` on, the keys left are the keys that were there
   * and that no request names, each with its old value.
   */
  lemma {:induction false} RemoveDeletes<Q, K, V>(m: map<K, V>, reqs: seq<Result<Q, Status>>, from: nat, key: Q -> K, passErrors: bool)
    requires from <= |reqs|
    requires passErrors || forall j | from <= j < |reqs| :: reqs[j].Ok?
    decreases |reqs| - from
    ensures forall k ::
      var r := Streams.Applied(m, reqs, from, Remove<Q, K, V>(key), passErrors);
      (k in r <==> k in m && LastWrite(reqs, from, key, k).None?) && (k in r ==> r[k] == m[k])
  {
    if from < |reqs| {
      match reqs[from]
      case Err(_) =>
        RemoveDeletes(m, reqs, from + 1, key, passErrors);
      case Ok(q) =>
        RemoveDeletes(m - {key(q)}, reqs, from + 1, key, passErrors);
    }
  }
}

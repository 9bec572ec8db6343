/**
 * The single-request RocksDB key-value store (src/kv/mod.rs).
 *
 * One request, one response: `get` reads a key, `set` puts a value and echoes
 * the key, `delete` removes a key and echoes it without checking that it was
 * there. A failing storage call is a parameter (`fails`) and becomes an
 * internal status.
 */
module LegacyKv {
  import opened Common
  import RocksDbBackend

  /** `get`: the stored value, not-found for an absent key, internal on a failed read. */
  function ValueAt(kv: map<string, string>, key: string, fails: bool): (r: Result<string, Status>)
    ensures r.Ok? <==> !fails && key in kv
    ensures r.Ok? ==> r.value == kv[key]
    ensures r.Err? ==> r.error == (if fails then Internal else NotFound)
  {
    if fails then Err(Internal)
    else if key in kv then Ok(kv[key])
    else Err(NotFound)
  }

  /** `set`: the echoed key and the table afterwards. */
  function SetOutcome(kv: map<string, string>, key: string, value: string, fails: bool): (Result<string, Status>, map<string, string>)
  {
    if fails then (Err(Internal), kv) else (Ok(key), kv[key := value])
  }

  /** `delete`: the echoed key and the table afterwards. */
  function DeleteOutcome(kv: map<string, string>, key: string, fails: bool): (Result<string, Status>, map<string, string>)
  {
    if fails then (Err(Internal), kv) else (Ok(key), kv - {key})
  }

  /** A store opened on a RocksDB database. */
  class KvStore {
    var kv: map<string, string>

    constructor (kv0: map<string, string>)
      ensures kv == kv0
    {
      kv := kv0;
    }

    method Get(key: string, fails: bool) returns (r: Result<string, Status>)
      ensures r == ValueAt(kv, key, fails)
    {
      if fails {
        return Err(Internal);
      }
      if key in kv {
        return Ok(kv[key]);
      }
      return Err(NotFound);
    }

    method Set(key: string, value: string, fails: bool) returns (r: Result<string, Status>)
      modifies this
      ensures (r, kv) == SetOutcome(old(kv), key, value, fails)
    {
      if fails {
        return Err(Internal);
      }
      kv := kv[key := value];
      return Ok(key);
    }

    method Delete(key: string, fails: bool) returns (r: Result<string, Status>)
      modifies this
      ensures (r, kv) == DeleteOutcome(old(kv), key, fails)
    {
      if fails {
        return Err(Internal);
      }
      kv := kv - {key};
      return Ok(key);
    }
  }

  // ----- properties ---------------------------------------------------------

  /** Without a storage failure, `get` answers as the streaming RocksDB backend does. */
  lemma GetAgreesWithStreamingBackend(kv: map<string, string>, key: string, k: nat)
    ensures ValueAt(kv, key, false) == RocksDbBackend.KvLookup(kv, map[], key, k)
  {
  }

  /** A set is read back, every other key keeps its answer, and the key is echoed. */
  lemma SetThenGet(kv: map<string, string>, key: string, value: string, other: string)
    ensures var (r, kv') := SetOutcome(kv, key, value, false);
      r == Ok(key) && ValueAt(kv', key, false) == Ok(value) &&
      (other != key ==> ValueAt(kv', other, false) == ValueAt(kv, other, false))
  {
  }

  /**
   * Set, delete, get: the delete echoes the key and the get is not-found;
   * other keys keep their answer.
   */
  lemma SetDeleteThenGet(kv: map<string, string>, key: string, value: string, other: string)
    ensures var kv1 := SetOutcome(kv, key, value, false).1;
      var (r, kv2) := DeleteOutcome(kv1, key, false);
      r == Ok(key) && ValueAt(kv2, key, false) == Err(NotFound) &&
      (other != key ==> ValueAt(kv2, other, false) == ValueAt(kv, other, false))
  {
  }

  /** Deleting an absent key still succeeds and changes nothing. */
  lemma DeleteAbsentKey(kv: map<string, string>, key: string)
    requires key !in kv
    ensures DeleteOutcome(kv, key, false) == (Ok(key), kv)
  {
    assert kv - {key} == kv;
  }

  /** A failed write leaves the table as it was. */
  lemma FailedWritesChangeNothing(kv: map<string, string>, key: string, value: string)
    ensures SetOutcome(kv, key, value, true) == (Err(Internal), kv)
    ensures DeleteOutcome(kv, key, true) == (Err(Internal), kv)
  {
  }
}

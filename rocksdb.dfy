/**
 * The RocksDB backend (src/backend/rocksdb.rs).
 *
 * Key-value pairs live in the default column family; a blob lives in two
 * column families, `data` and `metadata`, both keyed by the blob's id. The two
 * are separate maps: nothing ties a metadata entry to a data entry, and updates
 * write to whichever the request names without checking that the blob exists.
 *
 * Ids are drawn at random; the draws are a parameter (`draws(k, 0)` and
 * `draws(k, 1)` are the two candidates for request `k`). Engine failures are a
 * parameter too, each carrying the status it surfaces as. An error item in the
 * request stream is passed on and serving goes on.
 */
module RocksDbBackend {
  import opened Common
  import Streams
  import Maps
  import Comparator
  import KvStructs
  import BlobStructs

  type KvTable = map<string, string>

  /** The two column families of the blob store. */
  datatype Columns = Columns(data: map<u64, Bytes>, metadata: map<u64, string>)

  /**
   * An engine failure while serving a request. `partial` matters only for
   * delete, which is not transactional: the data was already removed when
   * removing the metadata failed.
   */
  datatype Fault = Fault(status: Status, partial: bool)

  /**
   * The engine around a call: whether opening the database fails, which
   * requests meet an engine failure, which collision probes fail (request,
   * attempt), and the random ids drawn (request, attempt).
   */
  datatype Env = Env(openFault: Option<Status>, faults: map<nat, Fault>, probeFaults: set<(nat, nat)>, draws: (nat, nat) -> u64)

  // ----- key-value requests -------------------------------------------------

  function KvLookup(kv: KvTable, faults: map<nat, Fault>, key: string, k: nat): (r: Result<string, Status>)
    ensures k !in faults ==> (r.Ok? <==> key in kv)
    ensures r.Ok? ==> key in kv && r.value == kv[key]
    ensures k !in faults && key !in kv ==> r == Err(NotFound)
  {
    if k in faults then Err(faults[k].status)
    else if key in kv then Ok(kv[key])
    else Err(NotFound)
  }

  function KvGetAnswer(kv: KvTable, faults: map<nat, Fault>): (KvStructs.GetRequest, nat) -> Result<KvStructs.GetResponse, Status>
  {
    (q: KvStructs.GetRequest, k: nat) =>
      var r := KvLookup(kv, faults, q.key, k);
      if r.Ok? then Ok(KvStructs.GetResponse(r.value)) else Err(r.error)
  }

  function KvValueAnswer<Q>(kv: KvTable, faults: map<nat, Fault>, key: Q -> string): (Q, nat) -> Result<string, Status>
  {
    (q: Q, k: nat) => KvLookup(kv, faults, key(q), k)
  }

  function SetKey(q: KvStructs.SetRequest): string { q.key }
  function SetValue(q: KvStructs.SetRequest): string { q.value }
  function SetEcho(q: KvStructs.SetRequest): KvStructs.SetResponse { KvStructs.SetResponse(q.key) }
  function DeleteKey(q: KvStructs.DeleteRequest): string { q.key }
  function DeleteEcho(q: KvStructs.DeleteRequest): KvStructs.DeleteResponse { KvStructs.DeleteResponse(q.key) }
  function EqKey(q: KvStructs.EqRequest): string { q.key }
  function NotEqKey(q: KvStructs.NotEqRequest): string { q.key }

  /** `put`, answered with the key. */
  function KvSetStep(faults: map<nat, Fault>): (KvTable, KvStructs.SetRequest, nat) -> (Result<KvStructs.SetResponse, Status>, KvTable)
  {
    (kv: KvTable, q: KvStructs.SetRequest, k: nat) =>
      if k in faults then (Err(faults[k].status), kv)
      else (Ok(SetEcho(q)), kv[q.key := q.value])
  }

  /** `delete`, answered with the key whether or not it was there. */
  function KvDeleteStep(faults: map<nat, Fault>): (KvTable, KvStructs.DeleteRequest, nat) -> (Result<KvStructs.DeleteResponse, Status>, KvTable)
  {
    (kv: KvTable, q: KvStructs.DeleteRequest, k: nat) =>
      if k in faults then (Err(faults[k].status), kv)
      else (Ok(DeleteEcho(q)), kv - {q.key})
  }

  // ----- blob requests ------------------------------------------------------

  /** A get of `id` when nothing fails: not found without data; the metadata if there is any. */
  function BlobAt(b: Columns, id: u64): Result<BlobStructs.GetResponse, Status>
  {
    if id !in b.data then Err(NotFound)
    else Ok(BlobStructs.GetResponse(b.data[id], if id in b.metadata then Some(b.metadata[id]) else None))
  }

  function BlobGetAnswer(b: Columns, faults: map<nat, Fault>): (BlobStructs.GetRequest, nat) -> Result<BlobStructs.GetResponse, Status>
  {
    (q: BlobStructs.GetRequest, k: nat) =>
      if k in faults then Err(faults[k].status) else BlobAt(b, q.id)
  }

  /** The collision probe of attempt `attempt` finds data under `id`; a failed probe finds nothing. */
  predicate Taken(b: Columns, probeFaults: set<(nat, nat)>, k: nat, attempt: nat, id: u64)
  {
    (k, attempt) !in probeFaults && id in b.data
  }

  /**
   * Store: the first drawn id, or the second if the first is taken; both taken
   * fails. The data, and the metadata only when there is some, are written in
   * one transaction, so a failure writes nothing.
   */
  function BlobStoreStep(faults: map<nat, Fault>, probeFaults: set<(nat, nat)>, draws: (nat, nat) -> u64): (Columns, BlobStructs.StoreRequest, nat) -> (Result<BlobStructs.StoreResponse, Status>, Columns)
  {
    (b: Columns, q: BlobStructs.StoreRequest, k: nat) =>
      var retry := Taken(b, probeFaults, k, 0, draws(k, 0));
      var id := if retry then draws(k, 1) else draws(k, 0);
      if retry && Taken(b, probeFaults, k, 1, id) then (Err(Internal), b)
      else if k in faults then (Err(faults[k].status), b)
      else (Ok(BlobStructs.StoreResponse(id)),
            Columns(b.data[id := q.data], if q.metadata.Some? then b.metadata[id := q.metadata.value] else b.metadata))
  }

  /** The columns after an update: the data if given; the metadata set, cleared or left as the request says. */
  function ApplyUpdate(b: Columns, q: BlobStructs.UpdateRequest): Columns
  {
    Columns(
      if q.data.Some? then b.data[q.id := q.data.value] else b.data,
      match q.metadata
      case None => b.metadata
      case Some(None) => b.metadata - {q.id}
      case Some(Some(m)) => b.metadata[q.id := m])
  }

  function UpdateEcho(q: BlobStructs.UpdateRequest): BlobStructs.UpdateResponse { BlobStructs.UpdateResponse(q.id) }

  /** Update writes in one transaction, whether or not the blob exists. */
  function BlobUpdateStep(faults: map<nat, Fault>): (Columns, BlobStructs.UpdateRequest, nat) -> (Result<BlobStructs.UpdateResponse, Status>, Columns)
  {
    (b: Columns, q: BlobStructs.UpdateRequest, k: nat) =>
      if k in faults then (Err(faults[k].status), b)
      else (Ok(UpdateEcho(q)), ApplyUpdate(b, q))
  }

  /** Delete removes the data, then the metadata, outside any transaction. */
  function BlobDeleteStep(faults: map<nat, Fault>): (Columns, BlobStructs.DeleteRequest, nat) -> (Result<BlobStructs.DeleteResponse, Status>, Columns)
  {
    (b: Columns, q: BlobStructs.DeleteRequest, k: nat) =>
      if k in faults then
        (Err(faults[k].status), if faults[k].partial then Columns(b.data - {q.id}, b.metadata) else b)
      else (Ok(BlobStructs.DeleteResponse(q.id)), Columns(b.data - {q.id}, b.metadata - {q.id}))
  }

  function EqDataId(q: BlobStructs.EqDataRequest): u64 { q.id }
  function NotEqDataId(q: BlobStructs.NotEqDataRequest): u64 { q.id }

  function BlobDataAnswer<Q>(b: Columns, faults: map<nat, Fault>, id: Q -> u64): (Q, nat) -> Result<Bytes, Status>
  {
    (q: Q, k: nat) =>
      if k in faults then Err(faults[k].status)
      else if id(q) !in b.data then Err(NotFound)
      else Ok(b.data[id(q)])
  }

  // ----- the backend object -------------------------------------------------

  class RocksDb {
    var kv: KvTable
    var blob: Columns

    /** `at_location`: a backend over a database directory and what it holds. */
    constructor (kv: KvTable, blob: Columns)
      ensures this.kv == kv && this.blob == blob
    {
      this.kv := kv;
      this.blob := blob;
    }

    method KvGet(env: Env, reqs: seq<Result<KvStructs.GetRequest, Status>>) returns (r: Result<Stream<KvStructs.GetResponse>, Status>)
      ensures env.openFault.Some? ==> r == Err(env.openFault.value)
      ensures env.openFault.None? ==> r == Ok(Streams.ServeReads(reqs, 0, KvGetAnswer(kv, env.faults), true))
    {
      if env.openFault.Some? {
        return Err(env.openFault.value);
      }
      var out := Streams.RunReads(reqs, KvGetAnswer(kv, env.faults), true);
      return Ok(out);
    }

    method KvSet(env: Env, reqs: seq<Result<KvStructs.SetRequest, Status>>) returns (r: Result<Stream<KvStructs.SetResponse>, Status>)
      modifies this
      ensures blob == old(blob)
      ensures env.openFault.Some? ==> r == Err(env.openFault.value) && kv == old(kv)
      ensures env.openFault.None? ==> r.Ok? && (r.value, kv) == Streams.Serve(old(kv), reqs, 0, KvSetStep(env.faults), true)
    {
      if env.openFault.Some? {
        return Err(env.openFault.value);
      }
      var out, after := Streams.RunSteps(kv, reqs, KvSetStep(env.faults), true);
      kv := after;
      return Ok(out);
    }

    method KvDelete(env: Env, reqs: seq<Result<KvStructs.DeleteRequest, Status>>) returns (r: Result<Stream<KvStructs.DeleteResponse>, Status>)
      modifies this
      ensures blob == old(blob)
      ensures env.openFault.Some? ==> r == Err(env.openFault.value) && kv == old(kv)
      ensures env.openFault.None? ==> r.Ok? && (r.value, kv) == Streams.Serve(old(kv), reqs, 0, KvDeleteStep(env.faults), true)
    {
      if env.openFault.Some? {
        return Err(env.openFault.value);
      }
      var out, after := Streams.RunSteps(kv, reqs, KvDeleteStep(env.faults), true);
      kv := after;
      return Ok(out);
    }

    method KvEq<H(==)>(env: Env, reqs: seq<Result<KvStructs.EqRequest, Status>>, digest: string -> H) returns (r: Result<bool, Status>)
      ensures env.openFault.Some? ==> r == Err(env.openFault.value)
      ensures env.openFault.None? ==> r == Comparator.EqVerdict(Streams.ServeReads(reqs, 0, KvValueAnswer(kv, env.faults, EqKey), true), digest).0
    {
      if env.openFault.Some? {
        return Err(env.openFault.value);
      }
      var values := Streams.RunReads(reqs, KvValueAnswer(kv, env.faults, EqKey), true);
      var pulled;
      r, pulled := Comparator.AllEq(values, digest);
    }

    method KvNotEq<H(==)>(env: Env, reqs: seq<Result<KvStructs.NotEqRequest, Status>>, digest: string -> H) returns (r: Result<bool, Status>)
      ensures env.openFault.Some? ==> r == Err(env.openFault.value)
      ensures env.openFault.None? ==> r == Comparator.NotEqVerdict(Streams.ServeReads(reqs, 0, KvValueAnswer(kv, env.faults, NotEqKey), true), digest).0
    {
      if env.openFault.Some? {
        return Err(env.openFault.value);
      }
      var values := Streams.RunReads(reqs, KvValueAnswer(kv, env.faults, NotEqKey), true);
      var pulled;
      r, pulled := Comparator.AllNotEq(values, digest);
    }

    method BlobGet(env: Env, reqs: seq<Result<BlobStructs.GetRequest, Status>>) returns (r: Result<Stream<BlobStructs.GetResponse>, Status>)
      ensures env.openFault.Some? ==> r == Err(env.openFault.value)
      ensures env.openFault.None? ==> r == Ok(Streams.ServeReads(reqs, 0, BlobGetAnswer(blob, env.faults), true))
    {
      if env.openFault.Some? {
        return Err(env.openFault.value);
      }
      var out := Streams.RunReads(reqs, BlobGetAnswer(blob, env.faults), true);
      return Ok(out);
    }

    method BlobStore(env: Env, reqs: seq<Result<BlobStructs.StoreRequest, Status>>) returns (r: Result<Stream<BlobStructs.StoreResponse>, Status>)
      modifies this
      ensures kv == old(kv)
      ensures env.openFault.Some? ==> r == Err(env.openFault.value) && blob == old(blob)
      ensures env.openFault.None? ==> r.Ok? && (r.value, blob) == Streams.Serve(old(blob), reqs, 0, BlobStoreStep(env.faults, env.probeFaults, env.draws), true)
    {
      if env.openFault.Some? {
        return Err(env.openFault.value);
      }
      var out, after := Streams.RunSteps(blob, reqs, BlobStoreStep(env.faults, env.probeFaults, env.draws), true);
      blob := after;
      return Ok(out);
    }

    method BlobUpdate(env: Env, reqs: seq<Result<BlobStructs.UpdateRequest, Status>>) returns (r: Result<Stream<BlobStructs.UpdateResponse>, Status>)
      modifies this
      ensures kv == old(kv)
      ensures env.openFault.Some? ==> r == Err(env.openFault.value) && blob == old(blob)
      ensures env.openFault.None? ==> r.Ok? && (r.value, blob) == Streams.Serve(old(blob), reqs, 0, BlobUpdateStep(env.faults), true)
    {
      if env.openFault.Some? {
        return Err(env.openFault.value);
      }
      var out, after := Streams.RunSteps(blob, reqs, BlobUpdateStep(env.faults), true);
      blob := after;
      return Ok(out);
    }

    method BlobDelete(env: Env, reqs: seq<Result<BlobStructs.DeleteRequest, Status>>) returns (r: Result<Stream<BlobStructs.DeleteResponse>, Status>)
      modifies this
      ensures kv == old(kv)
      ensures env.openFault.Some? ==> r == Err(env.openFault.value) && blob == old(blob)
      ensures env.openFault.None? ==> r.Ok? && (r.value, blob) == Streams.Serve(old(blob), reqs, 0, BlobDeleteStep(env.faults), true)
    {
      if env.openFault.Some? {
        return Err(env.openFault.value);
      }
      var out, after := Streams.RunSteps(blob, reqs, BlobDeleteStep(env.faults), true);
      blob := after;
      return Ok(out);
    }

    method BlobEqData<H(==)>(env: Env, reqs: seq<Result<BlobStructs.EqDataRequest, Status>>, digest: Bytes -> H) returns (r: Result<bool, Status>)
      ensures env.openFault.Some? ==> r == Err(env.openFault.value)
      ensures env.openFault.None? ==> r == Comparator.EqVerdict(Streams.ServeReads(reqs, 0, BlobDataAnswer(blob, env.faults, EqDataId), true), digest).0
    {
      if env.openFault.Some? {
        return Err(env.openFault.value);
      }
      var values := Streams.RunReads(reqs, BlobDataAnswer(blob, env.faults, EqDataId), true);
      var pulled;
      r, pulled := Comparator.AllEq(values, digest);
    }

    method BlobNotEqData<H(==)>(env: Env, reqs: seq<Result<BlobStructs.NotEqDataRequest, Status>>, digest: Bytes -> H) returns (r: Result<bool, Status>)
      ensures env.openFault.Some? ==> r == Err(env.openFault.value)
      ensures env.openFault.None? ==> r == Comparator.NotEqVerdict(Streams.ServeReads(reqs, 0, BlobDataAnswer(blob, env.faults, NotEqDataId), true), digest).0
    {
      if env.openFault.Some? {
        return Err(env.openFault.value);
      }
      var values := Streams.RunReads(reqs, BlobDataAnswer(blob, env.faults, NotEqDataId), true);
      var pulled;
      r, pulled := Comparator.AllNotEq(values, digest);
    }
  }

  // ----- properties ---------------------------------------------------------

  function AnyTable(t: KvTable): bool { true }
  function AnyColumns(b: Columns): bool { true }

  /**
   * Without engine failures a set stream answers every request (inbound errors
   * in place) and leaves every key with the value of the last request naming it.
   */
  lemma KvSetLastWins(kv: KvTable, reqs: seq<Result<KvStructs.SetRequest, Status>>, faults: map<nat, Fault>)
    requires forall k | 0 <= k < |reqs| :: k !in faults
    ensures var r := Streams.Serve(kv, reqs, 0, KvSetStep(faults), true);
      r.0 == Streams.Replies(reqs, 0, SetEcho, true) &&
      forall key ::
        var w := Maps.LastWrite(reqs, 0, SetKey, key);
        (w.Some? ==> key in r.1 && r.1[key] == reqs[w.value].value.value) &&
        (w.None? ==> (key in r.1 <==> key in kv) && (key in kv ==> r.1[key] == kv[key]))
  {
    forall t: KvTable, q: KvStructs.SetRequest, k: nat | AnyTable(t) && 0 <= k < |reqs|
      ensures KvSetStep(faults)(t, q, k) == (Ok(SetEcho(q)), Maps.Upsert(SetKey, SetValue)(t, q))
    {
      assert KvSetStep(faults)(t, q, k) == (Ok(SetEcho(q)), t[q.key := q.value]);
      assert Maps.Upsert(SetKey, SetValue)(t, q) == t[SetKey(q) := SetValue(q)];
    }
    Streams.ServeWithoutFaults(kv, reqs, 0, KvSetStep(faults), SetEcho, Maps.Upsert(SetKey, SetValue), AnyTable, true);
    Maps.UpsertLastWins(kv, reqs, 0, SetKey, SetValue, true);
  }

  /** Without engine failures a delete stream answers every request and leaves exactly the keys no request names. */
  lemma KvDeleteRemoves(kv: KvTable, reqs: seq<Result<KvStructs.DeleteRequest, Status>>, faults: map<nat, Fault>)
    requires forall k | 0 <= k < |reqs| :: k !in faults
    ensures var r := Streams.Serve(kv, reqs, 0, KvDeleteStep(faults), true);
      r.0 == Streams.Replies(reqs, 0, DeleteEcho, true) &&
      forall key :: (key in r.1 <==> key in kv && Maps.LastWrite(reqs, 0, DeleteKey, key).None?) && (key in r.1 ==> r.1[key] == kv[key])
  {
    forall t: KvTable, q: KvStructs.DeleteRequest, k: nat | AnyTable(t) && 0 <= k < |reqs|
      ensures KvDeleteStep(faults)(t, q, k) == (Ok(DeleteEcho(q)), Maps.Remove<KvStructs.DeleteRequest, string, string>(DeleteKey)(t, q))
    {
      assert KvDeleteStep(faults)(t, q, k) == (Ok(DeleteEcho(q)), t - {q.key});
      assert Maps.Remove<KvStructs.DeleteRequest, string, string>(DeleteKey)(t, q) == t - {DeleteKey(q)};
    }
    Streams.ServeWithoutFaults(kv, reqs, 0, KvDeleteStep(faults), DeleteEcho, Maps.Remove<KvStructs.DeleteRequest, string, string>(DeleteKey), AnyTable, true);
    Maps.RemoveDeletes(kv, reqs, 0, DeleteKey, true);
  }

  /**
   * A get stream ends at the first key that is not there, with a not-found
   * error; every request before it is answered with its value or its inbound error.
   */
  lemma KvGetEndsAtMissingKey(kv: KvTable, reqs: seq<Result<KvStructs.GetRequest, Status>>, faults: map<nat, Fault>, m: nat)
    requires forall k | 0 <= k < |reqs| :: k !in faults
    requires m < |reqs| && reqs[m].Ok? && reqs[m].value.key !in kv
    requires forall k | 0 <= k < m && reqs[k].Ok? :: reqs[k].value.key in kv
    ensures var out := Streams.ServeReads(reqs, 0, KvGetAnswer(kv, faults), true);
      |out| == m + 1 && out[m] == Err(NotFound) &&
      forall k | 0 <= k < m :: out[k] == (if reqs[k].Ok? then Ok(KvStructs.GetResponse(kv[reqs[k].value.key])) else Err(reqs[k].error))
  {
    var out := Streams.ServeReads(reqs, 0, KvGetAnswer(kv, faults), true);
    Streams.ServeReadsShape(reqs, 0, KvGetAnswer(kv, faults), true);
    KvGetAnswersBefore(kv, reqs, faults, m);
    assert Streams.Ends(reqs, m, Streams.Answer(reqs, KvGetAnswer(kv, faults), m), true);
    assert |out| > m;
    assert out[m] == Streams.Answer(reqs, KvGetAnswer(kv, faults), m);
  }

  /** The get answers up to a first absent key: the value or the inbound error, then not-found. */
  lemma KvGetAnswersBefore(kv: KvTable, reqs: seq<Result<KvStructs.GetRequest, Status>>, faults: map<nat, Fault>, m: nat)
    requires forall k | 0 <= k < |reqs| :: k !in faults
    requires m < |reqs| && reqs[m].Ok? && reqs[m].value.key !in kv
    requires forall k | 0 <= k < m && reqs[k].Ok? :: reqs[k].value.key in kv
    ensures Streams.Answer(reqs, KvGetAnswer(kv, faults), m) == Err(NotFound)
    ensures forall k | 0 <= k < m ::
      Streams.Answer(reqs, KvGetAnswer(kv, faults), k) ==
        (if reqs[k].Ok? then Ok(KvStructs.GetResponse(kv[reqs[k].value.key])) else Err(reqs[k].error)) &&
      !Streams.Ends(reqs, k, Streams.Answer(reqs, KvGetAnswer(kv, faults), k), true)
  {
    assert Streams.Answer(reqs, KvGetAnswer(kv, faults), m) == Err(NotFound);
    forall k | 0 <= k < m
      ensures Streams.Answer(reqs, KvGetAnswer(kv, faults), k) ==
        (if reqs[k].Ok? then Ok(KvStructs.GetResponse(kv[reqs[k].value.key])) else Err(reqs[k].error))
    {
      if reqs[k].Ok? {
        assert KvLookup(kv, faults, reqs[k].value.key, k) == Ok(kv[reqs[k].value.key]);
      }
    }
  }

  /** The lookups of a stream of present keys are their values, up to and including a first absent key, which is not found. */
  lemma LookupsUpToMissing<Q>(kv: KvTable, reqs: seq<Result<Q, Status>>, faults: map<nat, Fault>, key: Q -> string, m: nat)
    requires forall k | 0 <= k < |reqs| :: k !in faults
    requires m < |reqs| && (forall k | 0 <= k <= m :: reqs[k].Ok?) && key(reqs[m].value) !in kv
    requires forall k | 0 <= k < m :: key(reqs[k].value) in kv
    ensures var out := Streams.ServeReads(reqs, 0, KvValueAnswer(kv, faults, key), true);
      |out| > m && out[m] == Err(NotFound) && forall k | 0 <= k < m :: out[k] == Ok(kv[key(reqs[k].value)])
  {
    var out := Streams.ServeReads(reqs, 0, KvValueAnswer(kv, faults, key), true);
    Streams.ServeReadsShape(reqs, 0, KvValueAnswer(kv, faults, key), true);
    assert Streams.Answer(reqs, KvValueAnswer(kv, faults, key), m) == Err(NotFound);
    forall k | 0 <= k < m
      ensures Streams.Answer(reqs, KvValueAnswer(kv, faults, key), k) == Ok(kv[key(reqs[k].value)])
      ensures !Streams.Ends(reqs, k, Streams.Answer(reqs, KvValueAnswer(kv, faults, key), k), true)
    {
    }
    assert |out| > m;
  }

  /**
   * The all-equal check meets an absent key as a not-found error, not as a
   * false: when every earlier key holds a value with the digest of the first,
   * the answer is not found.
   */
  lemma EqOnMissingKeyIsNotFound<H>(kv: KvTable, reqs: seq<Result<KvStructs.EqRequest, Status>>, faults: map<nat, Fault>, digest: string -> H, m: nat)
    requires forall k | 0 <= k < |reqs| :: k !in faults
    requires m < |reqs| && (forall k | 0 <= k <= m :: reqs[k].Ok?) && reqs[m].value.key !in kv
    requires forall k | 0 <= k < m :: reqs[0].value.key in kv && reqs[k].value.key in kv && digest(kv[reqs[k].value.key]) == digest(kv[reqs[0].value.key])
    ensures Comparator.EqVerdict(Streams.ServeReads(reqs, 0, KvValueAnswer(kv, faults, EqKey), true), digest).0 == Err(NotFound)
  {
    var out := Streams.ServeReads(reqs, 0, KvValueAnswer(kv, faults, EqKey), true);
    LookupsUpToMissing(kv, reqs, faults, EqKey, m);
    forall k | 0 <= k < m
      ensures Comparator.MatchesFirst(out, digest, k)
    {
      assert out[k] == Ok(kv[reqs[k].value.key]) && out[0] == Ok(kv[reqs[0].value.key]);
    }
    Comparator.EqStopsAtError(out, digest, m);
  }

  /**
   * The all-distinct check meets an absent key as a not-found error, not as a
   * true or false: when the earlier keys hold values of pairwise different
   * digests, the answer is not found.
   */
  lemma NotEqOnMissingKeyIsNotFound<H>(kv: KvTable, reqs: seq<Result<KvStructs.NotEqRequest, Status>>, faults: map<nat, Fault>, digest: string -> H, m: nat)
    requires forall k | 0 <= k < |reqs| :: k !in faults
    requires m < |reqs| && (forall k | 0 <= k <= m :: reqs[k].Ok?) && reqs[m].value.key !in kv
    requires forall k | 0 <= k < m :: reqs[k].value.key in kv
    requires forall i, j | 0 <= i < j < m :: digest(kv[reqs[i].value.key]) != digest(kv[reqs[j].value.key])
    ensures Comparator.NotEqVerdict(Streams.ServeReads(reqs, 0, KvValueAnswer(kv, faults, NotEqKey), true), digest).0 == Err(NotFound)
  {
    var out := Streams.ServeReads(reqs, 0, KvValueAnswer(kv, faults, NotEqKey), true);
    LookupsUpToMissing(kv, reqs, faults, NotEqKey, m);
    forall i, j | 0 <= i < j < m
      ensures digest(out[i].value) != digest(out[j].value)
    {
      assert out[i] == Ok(kv[reqs[i].value.key]) && out[j] == Ok(kv[reqs[j].value.key]);
    }
    Comparator.NotEqStopsAtError(out, digest, m);
  }

  /**
   * A stored blob never lands on an id the collision probe saw taken: with both
   * probes working, a successful store writes under an id that held no data,
   * with exactly the data and metadata of the request.
   */
  lemma StoreUsesFreeId(b: Columns, q: BlobStructs.StoreRequest, k: nat, faults: map<nat, Fault>, probeFaults: set<(nat, nat)>, draws: (nat, nat) -> u64)
    requires (k, 0) !in probeFaults && (k, 1) !in probeFaults
    ensures var r := BlobStoreStep(faults, probeFaults, draws)(b, q, k);
      r.0.Ok? ==> r.0.value.id !in b.data && BlobAt(r.1, r.0.value.id) == Ok(BlobStructs.GetResponse(q.data, if q.metadata.Some? then q.metadata else if r.0.value.id in b.metadata then Some(b.metadata[r.0.value.id]) else None))
    ensures var r := BlobStoreStep(faults, probeFaults, draws)(b, q, k);
      r.0.Ok? ==> forall id | id in b.data :: id in r.1.data && r.1.data[id] == b.data[id]
  {
    var retry := Taken(b, probeFaults, k, 0, draws(k, 0));
    var id := if retry then draws(k, 1) else draws(k, 0);
    var r := BlobStoreStep(faults, probeFaults, draws)(b, q, k);
    if r.0.Ok? {
      assert !(retry && Taken(b, probeFaults, k, 1, id)) && k !in faults;
      assert r == (Ok(BlobStructs.StoreResponse(id)),
        Columns(b.data[id := q.data], if q.metadata.Some? then b.metadata[id := q.metadata.value] else b.metadata));
      assert id !in b.data;
    }
  }

  /** Two taken draws fail the store with an internal error and write nothing. */
  lemma StoreGivesUpAfterTwoCollisions(b: Columns, q: BlobStructs.StoreRequest, k: nat, faults: map<nat, Fault>, probeFaults: set<(nat, nat)>, draws: (nat, nat) -> u64)
    requires (k, 0) !in probeFaults && (k, 1) !in probeFaults
    requires draws(k, 0) in b.data && draws(k, 1) in b.data
    ensures BlobStoreStep(faults, probeFaults, draws)(b, q, k) == (Err(Internal), b)
  {
  }

  /**
   * With working probes a store stream never overwrites data: every blob held
   * before the stream holds the same data after it.
   */
  lemma {:induction false} StoreKeepsExistingData(b: Columns, reqs: seq<Result<BlobStructs.StoreRequest, Status>>, from: nat, faults: map<nat, Fault>, probeFaults: set<(nat, nat)>, draws: (nat, nat) -> u64)
    requires from <= |reqs|
    requires forall k, a | from <= k < |reqs| && 0 <= a < 2 :: (k, a) !in probeFaults
    decreases |reqs| - from
    ensures var b' := Streams.Serve(b, reqs, from, BlobStoreStep(faults, probeFaults, draws), true).1;
      forall id | id in b.data :: id in b'.data && b'.data[id] == b.data[id]
  {
    if from < |reqs| {
      match reqs[from]
      case Err(_) =>
        StoreKeepsExistingData(b, reqs, from + 1, faults, probeFaults, draws);
      case Ok(q) =>
        StoreUsesFreeId(b, q, from, faults, probeFaults, draws);
        var (item, b1) := BlobStoreStep(faults, probeFaults, draws)(b, q, from);
        if item.Ok? {
          StoreKeepsExistingData(b1, reqs, from + 1, faults, probeFaults, draws);
        }
    }
  }

  /**
   * A get after an update sees what the update wrote: the new data if the
   * request carried some (else the old data, and not found if there was none),
   * and the new, cleared or unchanged metadata.
   */
  lemma UpdateThenGet(b: Columns, q: BlobStructs.UpdateRequest)
    ensures var g := BlobAt(ApplyUpdate(b, q), q.id);
      (g.Ok? <==> q.data.Some? || q.id in b.data) &&
      (g.Ok? ==> g.value.data == (if q.data.Some? then q.data.value else b.data[q.id])) &&
      (g.Ok? ==> g.value.metadata == (if q.metadata.Some? then q.metadata.value else if q.id in b.metadata then Some(b.metadata[q.id]) else None))
    ensures forall id | id != q.id :: BlobAt(ApplyUpdate(b, q), id) == BlobAt(b, id)
  {
  }

  /** Without engine failures an update stream answers every request with its id and applies every update in order. */
  lemma UpdateAppliesAll(b: Columns, reqs: seq<Result<BlobStructs.UpdateRequest, Status>>, faults: map<nat, Fault>)
    requires forall k | 0 <= k < |reqs| :: k !in faults
    ensures Streams.Serve(b, reqs, 0, BlobUpdateStep(faults), true) ==
      (Streams.Replies(reqs, 0, UpdateEcho, true), Streams.Applied(b, reqs, 0, ApplyUpdate, true))
  {
    forall t: Columns, q: BlobStructs.UpdateRequest, k: nat | AnyColumns(t) && 0 <= k < |reqs|
      ensures BlobUpdateStep(faults)(t, q, k) == (Ok(UpdateEcho(q)), ApplyUpdate(t, q))
    {
    }
    Streams.ServeWithoutFaults(b, reqs, 0, BlobUpdateStep(faults), UpdateEcho, ApplyUpdate, AnyColumns, true);
  }

  /**
   * Delete is not atomic: a delete that fails after removing the data leaves
   * the metadata behind, so the blob is gone for a get while its metadata stays.
   * A delete that succeeds removes both.
   */
  lemma DeleteCanOrphanMetadata(b: Columns, q: BlobStructs.DeleteRequest, k: nat, faults: map<nat, Fault>)
    ensures var r := BlobDeleteStep(faults)(b, q, k);
      (k !in faults ==> r.0.Ok? && q.id !in r.1.data && q.id !in r.1.metadata) &&
      (k in faults && faults[k].partial ==> r.0 == Err(faults[k].status) && BlobAt(r.1, q.id) == Err(NotFound) && r.1.metadata == b.metadata) &&
      (k in faults && !faults[k].partial ==> r.0 == Err(faults[k].status) && r.1 == b)
  {
  }

  /**
   * Metadata outlives its blob: an update naming an id with no data still
   * writes the metadata, and a later store that draws that id without metadata
   * of its own hands the old metadata back on a get.
   */
  lemma StaleMetadataSurvivesStore(b: Columns, id: u64, m: string, d: Bytes, k: nat, faults: map<nat, Fault>, probeFaults: set<(nat, nat)>, draws: (nat, nat) -> u64)
    requires id !in b.data && k !in faults && (k, 0) !in probeFaults && draws(k, 0) == id
    ensures var b1 := ApplyUpdate(b, BlobStructs.UpdateRequest(id, None, Some(Some(m))));
      var r := BlobStoreStep(faults, probeFaults, draws)(b1, BlobStructs.StoreRequest(d, None), k);
      BlobAt(b1, id) == Err(NotFound) && r.0 == Ok(BlobStructs.StoreResponse(id)) &&
      BlobAt(r.1, id) == Ok(BlobStructs.GetResponse(d, Some(m)))
  {
    var b1 := ApplyUpdate(b, BlobStructs.UpdateRequest(id, None, Some(Some(m))));
    assert b1.data == b.data && b1.metadata == b.metadata[id := m];
    assert !Taken(b1, probeFaults, k, 0, draws(k, 0));
  }
}

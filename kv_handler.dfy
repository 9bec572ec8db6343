/**
 * The key-value gRPC handler (src/handler/kv.rs).
 *
 * Each call turns the inbound message stream into the backend's request
 * stream, field for field and in arrival order, ending it at the first
 * transport error (`message().await?`). The streaming calls turn each backend
 * response back into a message, ending the outbound stream at the first backend
 * error (`res?`); `eq` and `not_eq` return the backend's answer unchanged.
 *
 * The backend is a parameter: a function from the request stream it is handed
 * to its result. Wrapping a backend's serving function gives the end-to-end
 * behaviour of a concrete store.
 */
module KvHandler {
  import opened Common
  import Streams
  import ProtoKv
  import KvStructs
  import RocksDbBackend

  function ToGet(m: ProtoKv.GetRequest): KvStructs.GetRequest { KvStructs.GetRequest(m.key) }
  function ToSet(m: ProtoKv.SetRequest): KvStructs.SetRequest { KvStructs.SetRequest(m.key, m.value) }
  function ToDelete(m: ProtoKv.DeleteRequest): KvStructs.DeleteRequest { KvStructs.DeleteRequest(m.key) }
  function ToEq(m: ProtoKv.EqRequest): KvStructs.EqRequest { KvStructs.EqRequest(m.key) }
  function ToNotEq(m: ProtoKv.NotEqRequest): KvStructs.NotEqRequest { KvStructs.NotEqRequest(m.key) }
  function FromGet(r: KvStructs.GetResponse): ProtoKv.GetResponse { ProtoKv.GetResponse(r.value) }
  function FromSet(r: KvStructs.SetResponse): ProtoKv.SetResponse { ProtoKv.SetResponse(r.key) }
  function FromDelete(r: KvStructs.DeleteResponse): ProtoKv.DeleteResponse { ProtoKv.DeleteResponse(r.key) }

  /**
   * A streaming call: the backend gets the relayed requests; its refusal is the
   * call's error, and otherwise its responses are relayed back.
   */
  function Streaming<P, Q, R, S>(inbound: Stream<P>, toBackend: P -> Q, backend: Stream<Q> -> Result<Stream<R>, Status>, fromBackend: R -> S): (r: Result<Stream<S>, Status>)
    ensures var call := backend(Streams.Relay(inbound, toBackend));
      (r.Err? <==> call.Err?) && (r.Err? ==> r.error == call.error) &&
      (r.Ok? ==> (
        |r.value| <= |call.value| &&
        (forall j | 0 <= j < |r.value| :: r.value[j] == (if call.value[j].Ok? then Ok(fromBackend(call.value[j].value)) else Err(call.value[j].error))) &&
        (forall j | 0 <= j < |r.value| - 1 :: call.value[j].Ok?) &&
        (|r.value| < |call.value| ==> |r.value| > 0 && call.value[|r.value| - 1].Err?) &&
        ((forall j | 0 <= j < |call.value| :: call.value[j].Ok?) ==> |r.value| == |call.value|)))
  {
    match backend(Streams.Relay(inbound, toBackend))
    case Err(e) => Err(e)
    case Ok(out) => Ok(Streams.Relay(out, fromBackend))
  }

  function Get(inbound: Stream<ProtoKv.GetRequest>, backend: Stream<KvStructs.GetRequest> -> Result<Stream<KvStructs.GetResponse>, Status>): Result<Stream<ProtoKv.GetResponse>, Status>
  {
    Streaming(inbound, ToGet, backend, FromGet)
  }

  function Set(inbound: Stream<ProtoKv.SetRequest>, backend: Stream<KvStructs.SetRequest> -> Result<Stream<KvStructs.SetResponse>, Status>): Result<Stream<ProtoKv.SetResponse>, Status>
  {
    Streaming(inbound, ToSet, backend, FromSet)
  }

  function Delete(inbound: Stream<ProtoKv.DeleteRequest>, backend: Stream<KvStructs.DeleteRequest> -> Result<Stream<KvStructs.DeleteResponse>, Status>): Result<Stream<ProtoKv.DeleteResponse>, Status>
  {
    Streaming(inbound, ToDelete, backend, FromDelete)
  }

  function Eq(inbound: Stream<ProtoKv.EqRequest>, backend: Stream<KvStructs.EqRequest> -> Result<bool, Status>): Result<bool, Status>
  {
    backend(Streams.Relay(inbound, ToEq))
  }

  function NotEq(inbound: Stream<ProtoKv.NotEqRequest>, backend: Stream<KvStructs.NotEqRequest> -> Result<bool, Status>): Result<bool, Status>
  {
    backend(Streams.Relay(inbound, ToNotEq))
  }

  /**
   * The backend sees the inbound keys in order, and nothing after a transport
   * error: the error is the last request it is handed.
   */
  lemma BackendSeesKeysInOrder(inbound: Stream<ProtoKv.GetRequest>, m: nat)
    requires m < |inbound| && inbound[m].Err? && forall j | 0 <= j < m :: inbound[j].Ok?
    ensures var sent := Streams.Relay(inbound, ToGet);
      |sent| == m + 1 && sent[m] == Err(inbound[m].error) &&
      forall j | 0 <= j < m :: sent[j] == Ok(KvStructs.GetRequest(inbound[j].value.key))
  {
    assert inbound[m].Err?;
  }

  /** The RocksDB get stream as the backend of this handler. */
  function RocksDbGet(kv: RocksDbBackend.KvTable, faults: map<nat, RocksDbBackend.Fault>): Stream<KvStructs.GetRequest> -> Result<Stream<KvStructs.GetResponse>, Status>
  {
    (reqs: Stream<KvStructs.GetRequest>) => Ok(Streams.ServeReads(reqs, 0, RocksDbBackend.KvGetAnswer(kv, faults), true))
  }

  /**
   * Over RocksDB, when every message arrives, every key is there and nothing
   * fails, a get call answers with the value of each key, in order.
   */
  lemma GetOverRocksDbAnswersEachKey(kv: RocksDbBackend.KvTable, faults: map<nat, RocksDbBackend.Fault>, inbound: Stream<ProtoKv.GetRequest>)
    requires forall k | 0 <= k < |inbound| :: k !in faults && inbound[k].Ok? && inbound[k].value.key in kv
    ensures var r := Get(inbound, RocksDbGet(kv, faults));
      r.Ok? && |r.value| == |inbound| && forall j | 0 <= j < |inbound| :: r.value[j] == Ok(ProtoKv.GetResponse(kv[inbound[j].value.key]))
  {
    var sent := Streams.Relay(inbound, ToGet);
    var answer := RocksDbBackend.KvGetAnswer(kv, faults);
    var out := Streams.ServeReads(sent, 0, answer, true);
    Streams.ServeReadsShape(sent, 0, answer, true);
    forall j | 0 <= j < |sent|
      ensures Streams.Answer(sent, answer, j) == Ok(KvStructs.GetResponse(kv[inbound[j].value.key]))
    {
      assert sent[j] == Ok(ToGet(inbound[j].value));
    }
    assert RocksDbGet(kv, faults)(sent) == Ok(out);
  }

  /** The RocksDB set stream as the backend of this handler. */
  function RocksDbSet(kv: RocksDbBackend.KvTable, faults: map<nat, RocksDbBackend.Fault>): Stream<KvStructs.SetRequest> -> Result<Stream<KvStructs.SetResponse>, Status>
  {
    (reqs: Stream<KvStructs.SetRequest>) => Ok(Streams.Serve(kv, reqs, 0, RocksDbBackend.KvSetStep(faults), true).0)
  }

  /**
   * Over RocksDB, when every message arrives and nothing fails, a set call
   * answers each message with its own key, in order.
   */
  lemma SetOverRocksDbEchoesEachKey(kv: RocksDbBackend.KvTable, faults: map<nat, RocksDbBackend.Fault>, inbound: Stream<ProtoKv.SetRequest>)
    requires forall k | 0 <= k < |inbound| :: k !in faults && inbound[k].Ok?
    ensures var r := Set(inbound, RocksDbSet(kv, faults));
      r.Ok? && |r.value| == |inbound| && forall j | 0 <= j < |inbound| :: r.value[j] == Ok(ProtoKv.SetResponse(inbound[j].value.key))
  {
    var sent := Streams.Relay(inbound, ToSet);
    RocksDbBackend.KvSetLastWins(kv, sent, faults);
    var out := Streams.Serve(kv, sent, 0, RocksDbBackend.KvSetStep(faults), true).0;
    assert out == Streams.Replies(sent, 0, RocksDbBackend.SetEcho, true);
    assert RocksDbSet(kv, faults)(sent) == Ok(out);
  }
}

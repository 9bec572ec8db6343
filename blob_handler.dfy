/**
 * The blob gRPC handler (src/handler/blob.rs).
 *
 * Requests are relayed to the backend field for field, in arrival order, up
 * to the first transport error. Get and store responses are relayed back up to
 * the first backend error; update and delete responses are mapped item by item
 * (`map_ok`), so an error item passes through in place. The wire form of an
 * update carries a flag and an optional value; the handler turns them into the
 * backend's three-way metadata update.
 */
module BlobHandler {
  import opened Common
  import Streams
  import ProtoBlob
  import BlobStructs
  import KvHandler
  import RocksDbBackend
  import SqliteBackend

  function ToGet(m: ProtoBlob.GetRequest): BlobStructs.GetRequest { BlobStructs.GetRequest(m.id) }
  function ToStore(m: ProtoBlob.StoreRequest): BlobStructs.StoreRequest { BlobStructs.StoreRequest(m.data, m.metadata) }
  function ToDelete(m: ProtoBlob.DeleteRequest): BlobStructs.DeleteRequest { BlobStructs.DeleteRequest(m.id) }
  function ToEqData(m: ProtoBlob.EqDataRequest): BlobStructs.EqDataRequest { BlobStructs.EqDataRequest(m.id) }
  function ToNotEqData(m: ProtoBlob.NotEqDataRequest): BlobStructs.NotEqDataRequest { BlobStructs.NotEqDataRequest(m.id) }
  function FromGet(r: BlobStructs.GetResponse): ProtoBlob.GetResponse { ProtoBlob.GetResponse(r.data, r.metadata) }
  function FromStore(r: BlobStructs.StoreResponse): ProtoBlob.StoreResponse { ProtoBlob.StoreResponse(r.id) }
  function FromUpdate(r: BlobStructs.UpdateResponse): ProtoBlob.UpdateResponse { ProtoBlob.UpdateResponse(r.id) }
  function FromDelete(r: BlobStructs.DeleteResponse): ProtoBlob.DeleteResponse { ProtoBlob.DeleteResponse(r.id) }

  /** `should_update_metadata.then_some(metadata)`: no change without the flag, else the metadata to write (`None` clears it). */
  function ToUpdate(m: ProtoBlob.UpdateRequest): (r: BlobStructs.UpdateRequest)
    ensures r.id == m.id && r.data == m.data
    ensures r.metadata.None? <==> !m.shouldUpdateMetadata
    ensures r.metadata.Some? ==> r.metadata.value == m.metadata
  {
    BlobStructs.UpdateRequest(m.id, m.data, if m.shouldUpdateMetadata then Some(m.metadata) else None)
  }

  /**
   * A call whose responses are mapped item by item: the backend's refusal is
   * the call's error, and otherwise every response is converted in place, errors
   * passed on unchanged.
   */
  function Mapping<P, Q, R, S>(inbound: Stream<P>, toBackend: P -> Q, backend: Stream<Q> -> Result<Stream<R>, Status>, fromBackend: R -> S): (r: Result<Stream<S>, Status>)
    ensures var call := backend(Streams.Relay(inbound, toBackend));
      (r.Err? <==> call.Err?) && (r.Err? ==> r.error == call.error) &&
      (r.Ok? ==> (
        |r.value| == |call.value| &&
        forall j | 0 <= j < |r.value| :: r.value[j] == (if call.value[j].Ok? then Ok(fromBackend(call.value[j].value)) else Err(call.value[j].error))))
  {
    match backend(Streams.Relay(inbound, toBackend))
    case Err(e) => Err(e)
    case Ok(out) => Ok(Streams.MapOk(out, fromBackend))
  }

  function Get(inbound: Stream<ProtoBlob.GetRequest>, backend: Stream<BlobStructs.GetRequest> -> Result<Stream<BlobStructs.GetResponse>, Status>): Result<Stream<ProtoBlob.GetResponse>, Status>
  {
    KvHandler.Streaming(inbound, ToGet, backend, FromGet)
  }

  function Store(inbound: Stream<ProtoBlob.StoreRequest>, backend: Stream<BlobStructs.StoreRequest> -> Result<Stream<BlobStructs.StoreResponse>, Status>): Result<Stream<ProtoBlob.StoreResponse>, Status>
  {
    KvHandler.Streaming(inbound, ToStore, backend, FromStore)
  }

  function Update(inbound: Stream<ProtoBlob.UpdateRequest>, backend: Stream<BlobStructs.UpdateRequest> -> Result<Stream<BlobStructs.UpdateResponse>, Status>): Result<Stream<ProtoBlob.UpdateResponse>, Status>
  {
    Mapping(inbound, ToUpdate, backend, FromUpdate)
  }

  function Delete(inbound: Stream<ProtoBlob.DeleteRequest>, backend: Stream<BlobStructs.DeleteRequest> -> Result<Stream<BlobStructs.DeleteResponse>, Status>): Result<Stream<ProtoBlob.DeleteResponse>, Status>
  {
    Mapping(inbound, ToDelete, backend, FromDelete)
  }

  function EqData(inbound: Stream<ProtoBlob.EqDataRequest>, backend: Stream<BlobStructs.EqDataRequest> -> Result<bool, Status>): Result<bool, Status>
  {
    backend(Streams.Relay(inbound, ToEqData))
  }

  function NotEqData(inbound: Stream<ProtoBlob.NotEqDataRequest>, backend: Stream<BlobStructs.NotEqDataRequest> -> Result<bool, Status>): Result<bool, Status>
  {
    backend(Streams.Relay(inbound, ToNotEqData))
  }

  /**
   * Over RocksDB, the flag decides the metadata: without it a get after the
   * update sees the old metadata whatever the message's metadata field holds;
   * with it the get sees the message's metadata, an absent one clearing it.
   */
  lemma UpdateFlagDecidesMetadata(b: RocksDbBackend.Columns, m: ProtoBlob.UpdateRequest)
    requires m.id in b.data
    ensures var g := RocksDbBackend.BlobAt(RocksDbBackend.ApplyUpdate(b, ToUpdate(m)), m.id);
      g.Ok? &&
      (!m.shouldUpdateMetadata ==> g.value.metadata == RocksDbBackend.BlobAt(b, m.id).value.metadata) &&
      (m.shouldUpdateMetadata ==> g.value.metadata == m.metadata)
  {
    RocksDbBackend.UpdateThenGet(b, ToUpdate(m));
  }

  /**
   * The SQLite backend reads the flag itself, the RocksDB backend reads the
   * handler's three-way field; on an existing blob both rewrite it the same way.
   */
  lemma BackendsAgreeOnUpdate(b: RocksDbBackend.Columns, row: SqliteBackend.BlobRow, m: ProtoBlob.UpdateRequest)
    requires m.id in b.data && RocksDbBackend.BlobAt(b, m.id) == Ok(BlobStructs.GetResponse(row.data, row.metadata))
    ensures var after := SqliteBackend.Rewrite(row, m.data, m.shouldUpdateMetadata, m.metadata);
      RocksDbBackend.BlobAt(RocksDbBackend.ApplyUpdate(b, ToUpdate(m)), m.id) == Ok(BlobStructs.GetResponse(after.data, after.metadata))
  {
    RocksDbBackend.UpdateThenGet(b, ToUpdate(m));
  }

  /** The RocksDB store stream as the backend of this handler. */
  function RocksDbStore(b: RocksDbBackend.Columns, env: RocksDbBackend.Env): Stream<BlobStructs.StoreRequest> -> Result<Stream<BlobStructs.StoreResponse>, Status>
  {
    (reqs: Stream<BlobStructs.StoreRequest>) => Ok(Streams.Serve(b, reqs, 0, RocksDbBackend.BlobStoreStep(env.faults, env.probeFaults, env.draws), true).0)
  }

  /**
   * Store responses carry exactly the ids the backend issued: over RocksDB,
   * response `j` is the `j`-th id the store stream hands out, and the responses
   * run up to and including the store stream's first error.
   */
  lemma StoreCarriesIssuedIds(b: RocksDbBackend.Columns, env: RocksDbBackend.Env, inbound: Stream<ProtoBlob.StoreRequest>)
    ensures var r := Store(inbound, RocksDbStore(b, env));
      var out := Streams.Serve(b, Streams.Relay(inbound, ToStore), 0, RocksDbBackend.BlobStoreStep(env.faults, env.probeFaults, env.draws), true).0;
      r.Ok? && |r.value| <= |out| &&
      (|r.value| < |out| ==> |r.value| > 0 && out[|r.value| - 1].Err?) &&
      (forall j | 0 <= j < |r.value| - 1 :: out[j].Ok?) &&
      forall j | 0 <= j < |r.value| :: r.value[j] == (if out[j].Ok? then Ok(ProtoBlob.StoreResponse(out[j].value.id)) else Err(out[j].error))
  {
    var sent := Streams.Relay(inbound, ToStore);
    assert RocksDbStore(b, env)(sent) == Ok(Streams.Serve(b, sent, 0, RocksDbBackend.BlobStoreStep(env.faults, env.probeFaults, env.draws), true).0);
  }
}

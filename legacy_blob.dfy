/**
 * The single-request RocksDB blob store (src/blob/mod.rs).
 *
 * Blobs live in two column families keyed by a 64-bit id: `data` holds the
 * bytes and `metadata` the optional metadata string. Each call is one request
 * and one response; the writes of a call are separate puts and deletes with no
 * transaction, so a failure part-way leaves the earlier writes in place.
 *
 * Storage failures are parameters: `readFails` and `writeFails` name the
 * column families whose reads or writes fail during the call. Random ids are
 * parameters too: `first` and `second` are the two ids `generate_id` would
 * draw.
 */
module LegacyBlob {
  import opened Common
  import BlobStructs
  import RocksDbBackend

  datatype Column = DataColumn | MetadataColumn
  datatype BlobData = BlobData(bytes: Bytes, metadata: Option<string>)
  datatype UpdateRequest = UpdateRequest(id: u64, bytes: Option<Bytes>, shouldUpdateMetadata: bool, metadata: Option<string>)

  /**
   * `get`: the data read decides first (a failed read is internal, no value is
   * not-found), then the metadata read (a failed read is internal, no value is
   * `None`). Without failures it answers as the streaming RocksDB backend does.
   */
  function GetAnswer(data: map<u64, Bytes>, metadata: map<u64, string>, id: u64, readFails: set<Column>): (r: Result<BlobData, Status>)
    ensures r.Ok? <==> DataColumn !in readFails && id in data && MetadataColumn !in readFails
    ensures r.Err? ==> r.error == Internal || (r.error == NotFound && id !in data)
    ensures readFails == {} ==>
      match RocksDbBackend.BlobAt(RocksDbBackend.Columns(data, metadata), id)
      case Ok(g) => r == Ok(BlobData(g.data, g.metadata))
      case Err(e) => r == Err(e)
  {
    if DataColumn in readFails then Err(Internal)
    else if id !in data then Err(NotFound)
    else if MetadataColumn in readFails then Err(Internal)
    else Ok(BlobData(data[id], if id in metadata then Some(metadata[id]) else None))
  }

  /** The collision check: only a successful read that finds data counts as taken. */
  predicate Taken(data: map<u64, Bytes>, readFails: set<Column>, id: u64)
  {
    DataColumn !in readFails && id in data
  }

  /** `store`: the id used, the result and both columns afterwards. */
  function StoreOutcome(data: map<u64, Bytes>, metadata: map<u64, string>, req: BlobData, first: u64, second: u64, readFails: set<Column>, writeFails: set<Column>): (Result<u64, Status>, map<u64, Bytes>, map<u64, string>)
  {
    if Taken(data, readFails, first) && Taken(data, readFails, second) then (Err(Internal), data, metadata)
    else
      var id := if Taken(data, readFails, first) then second else first;
      var dataFails := DataColumn in writeFails;
      var metadataFails := req.metadata.Some? && MetadataColumn in writeFails;
      (if dataFails || metadataFails then Err(Internal) else Ok(id),
       if dataFails then data else data[id := req.bytes],
       if req.metadata.Some? && !metadataFails then metadata[id := req.metadata.value] else metadata)
  }

  /** `update`: the data put first (its failure ends the call), then the metadata put or delete. */
  function UpdateOutcome(data: map<u64, Bytes>, metadata: map<u64, string>, req: UpdateRequest, writeFails: set<Column>): (Result<u64, Status>, map<u64, Bytes>, map<u64, string>)
  {
    if req.bytes.Some? && DataColumn in writeFails then (Err(Internal), data, metadata)
    else
      var data' := if req.bytes.Some? then data[req.id := req.bytes.value] else data;
      if !req.shouldUpdateMetadata then (Ok(req.id), data', metadata)
      else if MetadataColumn in writeFails then (Err(Internal), data', metadata)
      else (Ok(req.id), data', if req.metadata.Some? then metadata[req.id := req.metadata.value] else metadata - {req.id})
  }

  /** `delete`: both deletes are attempted; either failure is internal. */
  function DeleteOutcome(data: map<u64, Bytes>, metadata: map<u64, string>, id: u64, writeFails: set<Column>): (Result<u64, Status>, map<u64, Bytes>, map<u64, string>)
  {
    (if DataColumn in writeFails || MetadataColumn in writeFails then Err(Internal) else Ok(id),
     if DataColumn in writeFails then data else data - {id},
     if MetadataColumn in writeFails then metadata else metadata - {id})
  }

  /** `multi_get_cf` over the data column: the stored bytes of each id, in order. */
  function Fetched(data: map<u64, Bytes>, ids: seq<u64>): (r: seq<Option<Bytes>>)
    ensures |r| == |ids|
    ensures forall j | 0 <= j < |ids| :: (r[j].Some? <==> ids[j] in data) && (r[j].Some? ==> r[j].value == data[ids[j]])
  {
    seq(|ids|, j requires 0 <= j < |ids| => if ids[j] in data then Some(data[ids[j]]) else None)
  }

  /**
   * `eq_data`'s verdict on the fetched values: no values are all equal, a
   * missing first value is not, and otherwise every value must equal the
   * first. So it holds exactly when every value is present and all are equal.
   */
  function AllEqual(blobs: seq<Option<Bytes>>): (r: bool)
    ensures r <==> forall j | 0 <= j < |blobs| :: blobs[j].Some? && blobs[j] == blobs[0]
  {
    if blobs == [] then true
    else if blobs[0].None? then false
    else forall j | 1 <= j < |blobs| :: blobs[j] == blobs[0]
  }

  /** Every fetched value is present and no two are equal. */
  predicate PresentAndDistinct(blobs: seq<Option<Bytes>>, seen: set<Bytes>)
  {
    (forall j | 0 <= j < |blobs| :: blobs[j].Some? && blobs[j].value !in seen) &&
    (forall i, j | 0 <= i < j < |blobs| :: blobs[i] != blobs[j])
  }

  /**
   * `not_eq_data`'s loop AS WRITTEN, with `seen` the values inserted so far: an
   * absent id answers true on the spot, a repeated value false.
   */
  function NotEqAsWritten(blobs: seq<Option<Bytes>>, seen: set<Bytes>): (r: bool)
    decreases |blobs|
    ensures r <==> PresentAndDistinct(blobs[..FirstAbsent(blobs)], seen)
  {
    if blobs == [] then true
    else match blobs[0]
      case None => true
      case Some(b) =>
        assert blobs[..FirstAbsent(blobs)] == [Some(b)] + blobs[1..][..FirstAbsent(blobs[1..])];
        PresentAndDistinctCons(b, blobs[1..][..FirstAbsent(blobs[1..])], seen);
        if b in seen then false else NotEqAsWritten(blobs[1..], seen + {b})
  }

  /** The position of the first absent value, or the length when every value is present. */
  function FirstAbsent(blobs: seq<Option<Bytes>>): (n: nat)
    ensures n <= |blobs|
  {
    if blobs == [] || blobs[0].None? then 0 else 1 + FirstAbsent(blobs[1..])
  }

  /** A present first value joins the values seen, for the rest to be checked against. */
  lemma PresentAndDistinctCons(b: Bytes, rest: seq<Option<Bytes>>, seen: set<Bytes>)
    ensures PresentAndDistinct([Some(b)] + rest, seen) <==> b !in seen && PresentAndDistinct(rest, seen + {b})
  {
    var s := [Some(b)] + rest;
    if b !in seen && PresentAndDistinct(rest, seen + {b}) {
      forall i, j | 0 <= i < j < |s|
        ensures s[i] != s[j]
      {
        assert s[j] == rest[j - 1];
        if i > 0 {
          assert s[i] == rest[i - 1];
        }
      }
    }
    if PresentAndDistinct(s, seen) {
      assert s[0] == Some(b);
      forall j | 0 <= j < |rest|
        ensures rest[j].Some? && rest[j].value !in seen + {b}
      {
        assert rest[j] == s[j + 1] && s[0] != s[j + 1];
      }
      forall i, j | 0 <= i < j < |rest|
        ensures rest[i] != rest[j]
      {
        assert rest[i] == s[i + 1] && rest[j] == s[j + 1];
      }
    }
  }

  /**
   * `not_eq_data` as intended: each requested id must exist, so an absent id
   * is not-found (as in the streaming RocksDB backend); a repeated value is
   * false; true means every value is present and they are pairwise distinct.
   */
  function NotEqVerdict(blobs: seq<Option<Bytes>>, seen: set<Bytes>): (r: Result<bool, Status>)
    decreases |blobs|
    ensures r == Ok(true) <==> PresentAndDistinct(blobs, seen)
    ensures r.Err? ==> r.error == NotFound && exists j | 0 <= j < |blobs| :: blobs[j].None?
    ensures r == Ok(false) ==> exists j | 0 <= j < |blobs| :: blobs[j].Some? && (blobs[j].value in seen || exists i | 0 <= i < j :: blobs[i] == blobs[j])
  {
    if blobs == [] then Ok(true)
    else match blobs[0]
      case None => Err(NotFound)
      case Some(b) =>
        if b in seen then Ok(false)
        else
          var rest := NotEqVerdict(blobs[1..], seen + {b});
          assert forall j | 1 <= j < |blobs| :: blobs[j] == blobs[1..][j - 1];
          rest
  }

  /** A store opened on a RocksDB database holding the two column families. */
  class BlobStore {
    var data: map<u64, Bytes>
    var metadata: map<u64, string>

    constructor (data0: map<u64, Bytes>, metadata0: map<u64, string>)
      ensures data == data0 && metadata == metadata0
    {
      data := data0;
      metadata := metadata0;
    }

    method Get(id: u64, readFails: set<Column>) returns (r: Result<BlobData, Status>)
      ensures r == GetAnswer(data, metadata, id, readFails)
    {
      if DataColumn in readFails {
        return Err(Internal);
      }
      if id !in data {
        return Err(NotFound);
      }
      var bytes := data[id];
      if MetadataColumn in readFails {
        return Err(Internal);
      }
      var meta := if id in metadata then Some(metadata[id]) else None;
      return Ok(BlobData(bytes, meta));
    }

    method Store(req: BlobData, first: u64, second: u64, readFails: set<Column>, writeFails: set<Column>) returns (r: Result<u64, Status>)
      modifies this
      ensures (r, data, metadata) == StoreOutcome(old(data), old(metadata), req, first, second, readFails, writeFails)
    {
      var id := first;
      if Taken(data, readFails, id) {
        id := second;
        if Taken(data, readFails, id) {
          return Err(Internal);
        }
      }
      var dataOk := DataColumn !in writeFails;
      if dataOk {
        data := data[id := req.bytes];
      }
      var metadataOk := true;
      if req.metadata.Some? {
        metadataOk := MetadataColumn !in writeFails;
        if metadataOk {
          metadata := metadata[id := req.metadata.value];
        }
      }
      r := if dataOk && metadataOk then Ok(id) else Err(Internal);
    }

    method Update(req: UpdateRequest, writeFails: set<Column>) returns (r: Result<u64, Status>)
      modifies this
      ensures (r, data, metadata) == UpdateOutcome(old(data), old(metadata), req, writeFails)
    {
      if req.bytes.Some? {
        if DataColumn in writeFails {
          return Err(Internal);
        }
        data := data[req.id := req.bytes.value];
      }
      if req.shouldUpdateMetadata {
        if MetadataColumn in writeFails {
          return Err(Internal);
        }
        if req.metadata.Some? {
          metadata := metadata[req.id := req.metadata.value];
        } else {
          metadata := metadata - {req.id};
        }
      }
      return Ok(req.id);
    }

    method Delete(id: u64, writeFails: set<Column>) returns (r: Result<u64, Status>)
      modifies this
      ensures (r, data, metadata) == DeleteOutcome(old(data), old(metadata), id, writeFails)
    {
      var dataOk := DataColumn !in writeFails;
      if dataOk {
        data := data - {id};
      }
      var metadataOk := MetadataColumn !in writeFails;
      if metadataOk {
        metadata := metadata - {id};
      }
      if !dataOk {
        return Err(Internal);
      }
      r := if metadataOk then Ok(id) else Err(Internal);
    }

    /** `eq_data`: true exactly when every id holds data and all the data is equal. */
    method EqData(ids: seq<u64>, readFails: set<Column>) returns (r: Result<bool, Status>)
      ensures |ids| > 0 && DataColumn in readFails ==> r == Err(Internal)
      ensures !(|ids| > 0 && DataColumn in readFails) ==> r == Ok(AllEqual(Fetched(data, ids)))
      ensures r == Ok(true) <==> !(|ids| > 0 && DataColumn in readFails) && forall j | 0 <= j < |ids| :: ids[0] in data && ids[j] in data && data[ids[j]] == data[ids[0]]
    {
      if |ids| > 0 && DataColumn in readFails {
        return Err(Internal);
      }
      var blobs := Fetched(data, ids);
      return Ok(AllEqual(blobs));
    }

    /**
     * `not_eq_data` with a set of the values met so far, answering as
     * intended for an absent id (see `NotEqAsWritten` for the code as written).
     */
    method NotEqData(ids: seq<u64>, readFails: set<Column>) returns (r: Result<bool, Status>)
      ensures |ids| > 0 && DataColumn in readFails ==> r == Err(Internal)
      ensures !(|ids| > 0 && DataColumn in readFails) ==> r == NotEqVerdict(Fetched(data, ids), {})
    {
      if |ids| > 0 && DataColumn in readFails {
        return Err(Internal);
      }
      var blobs := Fetched(data, ids);
      var unique: set<Bytes> := {};
      var i := 0;
      while i < |blobs|
        invariant 0 <= i <= |blobs|
        invariant NotEqVerdict(blobs[i..], unique) == NotEqVerdict(blobs, {})
      {
        assert blobs[i..][1..] == blobs[i + 1..];
        match blobs[i] {
          case None =>
            return Err(NotFound);
          case Some(b) =>
            if b in unique {
              return Ok(false);
            }
            unique := unique + {b};
        }
        i := i + 1;
      }
      return Ok(true);
    }
  }

  // ----- properties ---------------------------------------------------------

  /**
   * With working reads, a store that succeeds used a free id: the first draw
   * unless it was taken, then the second; every existing blob keeps its data
   * and the new id holds the stored bytes.
   */
  lemma StoreUsesFreeId(data: map<u64, Bytes>, metadata: map<u64, string>, req: BlobData, first: u64, second: u64, writeFails: set<Column>)
    ensures var (r, data', _) := StoreOutcome(data, metadata, req, first, second, {}, writeFails);
      r.Ok? ==>
        r.value !in data && (r.value == first || (first in data && r.value == second)) &&
        data' == data[r.value := req.bytes]
  {
  }

  /** Two taken draws in a row give up with an internal status and write nothing. */
  lemma StoreGivesUpAfterTwoCollisions(data: map<u64, Bytes>, metadata: map<u64, string>, req: BlobData, first: u64, second: u64, writeFails: set<Column>)
    requires first in data && second in data
    ensures StoreOutcome(data, metadata, req, first, second, {}, writeFails) == (Err(Internal), data, metadata)
  {
  }

  /**
   * A failed collision check counts as a free id: the first draw is used
   * even when it already holds a blob, whose data is overwritten.
   */
  lemma FailedProbeOverwrites(data: map<u64, Bytes>, metadata: map<u64, string>, req: BlobData, first: u64, second: u64)
    requires first in data
    ensures var (r, data', _) := StoreOutcome(data, metadata, req, first, second, {DataColumn}, {});
      r == Ok(first) && data'[first] == req.bytes
  {
  }

  /**
   * A stored blob reads back with its bytes. Its metadata is the stored one
   * when given; when not, metadata left under the id by earlier writes shows
   * through.
   */
  lemma StoreThenGet(data: map<u64, Bytes>, metadata: map<u64, string>, req: BlobData, first: u64, second: u64)
    ensures var (r, data', metadata') := StoreOutcome(data, metadata, req, first, second, {}, {});
      r.Ok? ==> (GetAnswer(data', metadata', r.value, {}) ==
        Ok(BlobData(req.bytes, if req.metadata.Some? then req.metadata else if r.value in metadata then Some(metadata[r.value]) else None)))
  {
  }

  /** A failed data put still writes the metadata: the call fails and leaves metadata with no blob. */
  lemma StoreCanOrphanMetadata(data: map<u64, Bytes>, metadata: map<u64, string>, bytes: Bytes, m: string, first: u64, second: u64)
    requires first !in data
    ensures var (r, data', metadata') := StoreOutcome(data, metadata, BlobData(bytes, Some(m)), first, second, {}, {DataColumn});
      r == Err(Internal) && data' == data && first in metadata' && metadata'[first] == m
  {
  }

  /**
   * Without failures an update echoes its id and changes the columns exactly
   * as the streaming RocksDB backend does for the handler's three-way
   * metadata field.
   */
  lemma UpdateAgreesWithStreamingBackend(data: map<u64, Bytes>, metadata: map<u64, string>, req: UpdateRequest)
    ensures var (r, data', metadata') := UpdateOutcome(data, metadata, req, {});
      r == Ok(req.id) &&
      RocksDbBackend.Columns(data', metadata') ==
        RocksDbBackend.ApplyUpdate(RocksDbBackend.Columns(data, metadata),
          BlobStructs.UpdateRequest(req.id, req.bytes, if req.shouldUpdateMetadata then Some(req.metadata) else None))
  {
  }

  /**
   * Reading back an updated blob: new bytes when given, and the metadata
   * named by the flag (the message's value, `None` clearing it) or else kept.
   */
  lemma UpdateThenGet(data: map<u64, Bytes>, metadata: map<u64, string>, req: UpdateRequest)
    requires req.id in data
    ensures var (r, data', metadata') := UpdateOutcome(data, metadata, req, {});
      var g := GetAnswer(data', metadata', req.id, {});
      g.Ok? &&
      g.value.bytes == (if req.bytes.Some? then req.bytes.value else data[req.id]) &&
      g.value.metadata == (if req.shouldUpdateMetadata then req.metadata else if req.id in metadata then Some(metadata[req.id]) else None)
  {
    var m := if req.shouldUpdateMetadata then Some(req.metadata) else None;
    RocksDbBackend.UpdateThenGet(RocksDbBackend.Columns(data, metadata), BlobStructs.UpdateRequest(req.id, req.bytes, m));
  }

  /** Update does not check that the blob exists: new bytes under a fresh id create it. */
  lemma UpdateCanCreate(data: map<u64, Bytes>, metadata: map<u64, string>, id: u64, bytes: Bytes)
    requires id !in data
    ensures var (r, data', metadata') := UpdateOutcome(data, metadata, UpdateRequest(id, Some(bytes), false, None), {});
      r == Ok(id) && GetAnswer(data', metadata', id, {}).Ok?
  {
  }

  /** A failed metadata write after a data put leaves the new bytes in place although the call fails. */
  lemma UpdateFailsAfterDataPut(data: map<u64, Bytes>, metadata: map<u64, string>, req: UpdateRequest)
    requires req.bytes.Some? && req.shouldUpdateMetadata
    ensures var (r, data', metadata') := UpdateOutcome(data, metadata, req, {MetadataColumn});
      r == Err(Internal) && data'[req.id] == req.bytes.value && metadata' == metadata
  {
  }

  /**
   * A delete that succeeds echoes the id and a get then fails (not-found with
   * working reads); deleting again changes nothing.
   */
  lemma DeleteThenGet(data: map<u64, Bytes>, metadata: map<u64, string>, id: u64, readFails: set<Column>)
    ensures var (r, data', metadata') := DeleteOutcome(data, metadata, id, {});
      r == Ok(id) &&
      GetAnswer(data', metadata', id, readFails).Err? &&
      (readFails == {} ==> GetAnswer(data', metadata', id, readFails) == Err(NotFound)) &&
      DeleteOutcome(data', metadata', id, {}) == (Ok(id), data', metadata')
  {
    var (_, data', metadata') := DeleteOutcome(data, metadata, id, {});
    assert data' - {id} == data';
    assert metadata' - {id} == metadata';
  }

  /** A failed data delete still removes the metadata. */
  lemma DeleteFailureIsPartial(data: map<u64, Bytes>, metadata: map<u64, string>, id: u64)
    ensures var (r, data', metadata') := DeleteOutcome(data, metadata, id, {DataColumn});
      r == Err(Internal) && data' == data && id !in metadata'
  {
  }

  /**
   * The comparisons the store's own tests make: two blobs of equal bytes and a
   * third of other bytes.
   */
  lemma ComparisonsOnStoredBlobs(data: map<u64, Bytes>, id1: u64, id2: u64, id3: u64)
    requires id1 in data && id2 in data && id3 in data
    requires data[id1] == data[id2] && data[id3] != data[id1]
    ensures AllEqual(Fetched(data, [id1, id2]))
    ensures !AllEqual(Fetched(data, [id1, id2, id3]))
    ensures NotEqVerdict(Fetched(data, [id1, id2]), {}) == Ok(false)
    ensures NotEqVerdict(Fetched(data, [id1, id3]), {}) == Ok(true)
  {
    var two := Fetched(data, [id1, id2]);
    var three := Fetched(data, [id1, id2, id3]);
    assert three[2] != three[0];
    var other := Fetched(data, [id1, id3]);
    assert PresentAndDistinct(other, {});
  }

  /**
   * As written, `not_eq_data` answers true whenever the intended check would
   * report an absent id, whatever values the other ids hold.
   */
  lemma {:induction false} AsWrittenTrueOnAbsentId(blobs: seq<Option<Bytes>>, seen: set<Bytes>)
    decreases |blobs|
    ensures NotEqAsWritten(blobs, seen) <==> NotEqVerdict(blobs, seen) != Ok(false)
  {
    if blobs != [] && blobs[0].Some? && blobs[0].value !in seen {
      AsWrittenTrueOnAbsentId(blobs[1..], seen + {blobs[0].value});
    }
  }

  /**
   * The input that shows it: an absent id followed by two blobs of equal
   * bytes. The code as written says the data are all different; the intended
   * check reports the absent id.
   */
  lemma NotEqAsWrittenMissesDuplicates(data: map<u64, Bytes>, missing: u64, id1: u64, id2: u64)
    requires missing !in data && id1 in data && id2 in data && id1 != id2 && data[id1] == data[id2]
    ensures var blobs := Fetched(data, [missing, id1, id2]);
      NotEqAsWritten(blobs, {}) && blobs[1] == blobs[2] &&
      NotEqVerdict(blobs, {}) == Err(NotFound)
  {
    var blobs := Fetched(data, [missing, id1, id2]);
    assert blobs[0].None?;
  }
}

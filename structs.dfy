/**
 * The request and response records the backends exchange with the handlers
 * (src/structs/kv.rs, src/structs/blob.rs, src/structs/query.rs). They carry no
 * behaviour of their own.
 */
module KvStructs {
  datatype GetRequest = GetRequest(key: string)
  datatype GetResponse = GetResponse(value: string)
  datatype SetRequest = SetRequest(key: string, value: string)
  datatype SetResponse = SetResponse(key: string)
  datatype DeleteRequest = DeleteRequest(key: string)
  datatype DeleteResponse = DeleteResponse(key: string)
  datatype EqRequest = EqRequest(key: string)
  datatype NotEqRequest = NotEqRequest(key: string)
}

module BlobStructs {
  import opened Common

  datatype GetRequest = GetRequest(id: u64)
  /** The backends build this response from a data and a metadata column. */
  datatype GetResponse = GetResponse(data: Bytes, metadata: Option<string>)
  datatype StoreRequest = StoreRequest(data: Bytes, metadata: Option<string>)
  datatype StoreResponse = StoreResponse(id: u64)
  /**
   * `metadata` is three-way: `None` leaves the metadata alone, `Some(None)`
   * clears it and `Some(Some(m))` sets it to `m`.
   */
  datatype UpdateRequest = UpdateRequest(id: u64, data: Option<Bytes>, metadata: Option<Option<string>>)
  datatype UpdateResponse = UpdateResponse(id: u64)
  datatype DeleteRequest = DeleteRequest(id: u64)
  datatype DeleteResponse = DeleteResponse(id: u64)
  datatype EqDataRequest = EqDataRequest(id: u64)
  datatype NotEqDataRequest = NotEqDataRequest(id: u64)
}

module QueryStructs {
  import opened Common

  datatype TargetStore = KeyValue | Blob
  datatype RawQuery = RawQuery(query: string, target: TargetStore)
  datatype QueryResponse<T> = QueryResponse(fields: seq<T>)
  datatype ExecuteResponse = ExecuteResponse(rowsChanged: u64)
}

/**
 * The gRPC messages of the key-value, blob and query services, as the handlers
 * and the SQLite backend read and write them. The generated protobuf code is not
 * part of this model; the shapes follow the fields the Rust code uses.
 */
module ProtoKv {
  datatype GetRequest = GetRequest(key: string)
  datatype GetResponse = GetResponse(value: string)
  datatype SetRequest = SetRequest(key: string, value: string)
  datatype SetResponse = SetResponse(key: string)
  datatype DeleteRequest = DeleteRequest(key: string)
  datatype DeleteResponse = DeleteResponse(key: string)
  datatype EqRequest = EqRequest(key: string)
  datatype NotEqRequest = NotEqRequest(key: string)
}

module ProtoBlob {
  import opened Common

  datatype GetRequest = GetRequest(id: u64)
  datatype GetResponse = GetResponse(data: Bytes, metadata: Option<string>)
  datatype StoreRequest = StoreRequest(data: Bytes, metadata: Option<string>)
  datatype StoreResponse = StoreResponse(id: u64)
  /** On the wire the three-way metadata update is a flag plus an optional value. */
  datatype UpdateRequest = UpdateRequest(id: u64, data: Option<Bytes>, shouldUpdateMetadata: bool, metadata: Option<string>)
  datatype UpdateResponse = UpdateResponse(id: u64)
  datatype DeleteRequest = DeleteRequest(id: u64)
  datatype DeleteResponse = DeleteResponse(id: u64)
  datatype EqDataRequest = EqDataRequest(id: u64)
  datatype NotEqDataRequest = NotEqDataRequest(id: u64)
}

module ProtoQuery {
  import opened Common
  import Conv

  /** The target is an `i32` holding a `TargetStore` enumeration value. */
  datatype RawQuery = RawQuery(query: string, target: i32)
  /** A row as converted values (the `Any` packing of each value is not modelled). */
  datatype QueryResult = QueryResult(fields: seq<Conv.ConcreteValue>)
  datatype RowsChanged = RowsChanged(rowsChanged: u64)
}

/**
 * The raw-query gRPC handler (src/handler/query.rs).
 *
 * The requests are routed exactly as in `QueryRouting`; the handler then maps
 * each item of the routed stream on its own. An error item passes through
 * unchanged. A row is converted field by field into protobuf values; the first
 * field that has no representation turns that row, and only that row, into an
 * unimplemented status. An execute result keeps only its changed-row count.
 */
module QueryHandler {
  import opened Common
  import Interop
  import Conv
  import QueryStructs
  import ProtoQuery
  import QueryRouting

  /**
   * `fields.into_iter().map(try_into_protobuf_any).collect()`: every field
   * converted in order, or the failure of the first field that cannot be.
   */
  function ConvertFields<A>(fields: seq<A>, convert: A -> Result<Conv.ConcreteValue, Conv.Unsupported>): (r: Result<seq<Conv.ConcreteValue>, Conv.Unsupported>)
    ensures r.Ok? <==> forall i | 0 <= i < |fields| :: convert(fields[i]).Ok?
    ensures r.Ok? ==> |r.value| == |fields| && forall i | 0 <= i < |fields| :: r.value[i] == convert(fields[i]).value
    ensures r.Err? ==> exists i | 0 <= i < |fields| :: convert(fields[i]) == Err(r.error) && forall k | 0 <= k < i :: convert(fields[k]).Ok?
  {
    if fields == [] then Ok([])
    else match convert(fields[0])
      case Err(u) => Err(u)
      case Ok(v) =>
        match ConvertFields(fields[1..], convert)
        case Err(u) => Err(u)
        case Ok(vs) => Ok([v] + vs)
  }

  /** The per-item map of `query`: `item?` first, then the row's fields. */
  function ConvertItem<A>(item: Result<QueryStructs.QueryResponse<A>, Status>, convert: A -> Result<Conv.ConcreteValue, Conv.Unsupported>): (r: Result<ProtoQuery.QueryResult, Status>)
    ensures item.Err? ==> r == Err(item.error)
    ensures item.Ok? ==> (r.Ok? <==> forall i | 0 <= i < |item.value.fields| :: convert(item.value.fields[i]).Ok?)
    ensures item.Ok? && r.Err? ==> r.error == Unimplemented
    ensures r.Ok? ==> |r.value.fields| == |item.value.fields|
    ensures r.Ok? ==> forall i | 0 <= i < |r.value.fields| :: r.value.fields[i] == convert(item.value.fields[i]).value
  {
    match item
    case Err(e) => Err(e)
    case Ok(resp) =>
      match ConvertFields(resp.fields, convert)
      case Err(u) => Err(Interop.UnsupportedStatus(u))
      case Ok(vs) => Ok(ProtoQuery.QueryResult(vs))
  }

  /** The per-item map of `execute`. */
  function ExecuteItem(item: Result<QueryStructs.ExecuteResponse, Status>): Result<ProtoQuery.RowsChanged, Status>
  {
    match item
    case Err(e) => Err(e)
    case Ok(resp) => Ok(ProtoQuery.RowsChanged(resp.rowsChanged))
  }

  /** `stream.map(...)`: each item mapped in place. */
  function Mapped<T, U>(items: seq<T>, f: T -> U): seq<U>
  {
    seq(|items|, j requires 0 <= j < |items| => f(items[j]))
  }

  function Convert<A>(convert: A -> Result<Conv.ConcreteValue, Conv.Unsupported>): Result<QueryStructs.QueryResponse<A>, Status> -> Result<ProtoQuery.QueryResult, Status>
  {
    (item: Result<QueryStructs.QueryResponse<A>, Status>) => ConvertItem(item, convert)
  }

  /** `query`: connect to both databases, route the requests, convert each row. */
  method Query<C, A>(kvConnect: Result<C, Status>, blobConnect: Result<C, Status>, reqs: seq<Result<ProtoQuery.RawQuery, Status>>,
                     run: (string, C) -> (seq<Result<QueryStructs.QueryResponse<A>, Status>>, C),
                     convert: A -> Result<Conv.ConcreteValue, Conv.Unsupported>)
    returns (r: Result<seq<Result<ProtoQuery.QueryResult, Status>>, Status>)
    ensures kvConnect.Err? ==> r == Err(kvConnect.error)
    ensures kvConnect.Ok? && blobConnect.Err? ==> r == Err(blobConnect.error)
    ensures kvConnect.Ok? && blobConnect.Ok? ==>
      r == Ok(Mapped(QueryRouting.Routed(reqs, 0, kvConnect.value, blobConnect.value, run).0, Convert(convert)))
  {
    var routed := QueryRouting.Query(kvConnect, blobConnect, reqs, run);
    match routed {
      case Err(e) => r := Err(e);
      case Ok(items) => r := Ok(Mapped(items, Convert(convert)));
    }
  }

  /** `execute`: connect to both databases, route the statements, keep each count. */
  method Execute<C>(kvConnect: Result<C, Status>, blobConnect: Result<C, Status>, reqs: seq<Result<ProtoQuery.RawQuery, Status>>,
                    exec: (string, C) -> (Result<QueryStructs.ExecuteResponse, Status>, C))
    returns (r: Result<seq<Result<ProtoQuery.RowsChanged, Status>>, Status>)
    ensures kvConnect.Err? ==> r == Err(kvConnect.error)
    ensures kvConnect.Ok? && blobConnect.Err? ==> r == Err(blobConnect.error)
    ensures kvConnect.Ok? && blobConnect.Ok? ==>
      r == Ok(Mapped(QueryRouting.Routed(reqs, 0, kvConnect.value, blobConnect.value, QueryRouting.Single(exec)).0, ExecuteItem))
  {
    var routed := QueryRouting.Execute(kvConnect, blobConnect, reqs, exec);
    match routed {
      case Err(e) => r := Err(e);
      case Ok(items) => r := Ok(Mapped(items, ExecuteItem));
    }
  }

  // ----- properties ---------------------------------------------------------

  /**
   * Conversion never ends or reorders the stream: one output per routed item,
   * errors passed through, and a row that cannot be converted becomes an
   * unimplemented status in its own place while the rows around it still
   * arrive.
   */
  lemma ConversionIsPerItem<A>(items: seq<Result<QueryStructs.QueryResponse<A>, Status>>, convert: A -> Result<Conv.ConcreteValue, Conv.Unsupported>)
    ensures var out := Mapped(items, Convert(convert));
      |out| == |items| &&
      (forall j | 0 <= j < |items| && items[j].Err? :: out[j] == Err(items[j].error)) &&
      (forall j | 0 <= j < |items| && items[j].Ok? && out[j].Err? :: out[j].error == Unimplemented)
  {
  }

  /**
   * In DuckDB a top-level 128-bit integer column has no protobuf form: the
   * row that holds one becomes an unimplemented status.
   */
  lemma DuckDbHugeIntRowIsUnimplemented(fields: seq<Conv.DuckValue>, i: nat)
    requires i < |fields| && fields[i].HugeInt?
    ensures ConvertItem(Ok(QueryStructs.QueryResponse(fields)), Conv.TryIntoAny) == Err(Unimplemented)
  {
    assert Conv.TryIntoAny(fields[i]).Err?;
  }

  /** Every SQLite row converts, field for field. */
  lemma SqliteRowsAlwaysConvert(fields: seq<Conv.SqliteValue>)
    ensures var r := ConvertItem(Ok(QueryStructs.QueryResponse(fields)), Conv.SqliteToAny);
      r.Ok? && |r.value.fields| == |fields| &&
      forall i | 0 <= i < |fields| :: r.value.fields[i] == Conv.SqliteToAny(fields[i]).value
  {
  }

  /**
   * A target that is not an enumeration value still ends the handler's stream
   * with an invalid-argument status: the conversion passes it through last.
   */
  lemma UnknownTargetEndsHandlerStream<C, A>(reqs: seq<Result<ProtoQuery.RawQuery, Status>>, m: nat, kv: C, blob: C,
                                              run: (string, C) -> (seq<Result<QueryStructs.QueryResponse<A>, Status>>, C),
                                              convert: A -> Result<Conv.ConcreteValue, Conv.Unsupported>)
    requires m < |reqs| && forall j | 0 <= j < m :: QueryRouting.Routable(reqs, j)
    requires reqs[m].Ok? && QueryRouting.DecodeTarget(reqs[m].value.target).Err?
    ensures var out := Mapped(QueryRouting.Routed(reqs, 0, kv, blob, run).0, Convert(convert));
      |out| > 0 && out[|out| - 1] == Err(InvalidArgument) &&
      out == Mapped(QueryRouting.Routed(reqs[..m + 1], 0, kv, blob, run).0, Convert(convert))
  {
    QueryRouting.UnknownTargetEndsStream(reqs, 0, m, kv, blob, run);
  }
}

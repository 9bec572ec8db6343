/**
 * The request/response loop every streaming backend operation runs: read a
 * request, act on it, answer it, until the requests run out or an answer ends
 * the stream.
 *
 * An engine error is yielded and ends the stream. An error item in the request
 * stream is either passed on and serving goes on (`passErrors`, the DuckDB and
 * RocksDB backends) or yielded and ends the stream (the SQLite backend, whose
 * `message().await?` returns from the stream body).
 */
module Streams {
  import opened Common

  /** The answer to request `k` when answering one request does not change anything. */
  function Answer<Q, R>(reqs: seq<Result<Q, Status>>, answer: (Q, nat) -> Result<R, Status>, k: nat): Result<R, Status>
    requires k < |reqs|
  {
    match reqs[k]
    case Err(e) => Err(e)
    case Ok(q) => answer(q, k)
  }

  /** An item that ends the stream: an engine error, or any error when inbound errors are not passed on. */
  predicate Ends<Q, R>(reqs: seq<Result<Q, Status>>, k: nat, item: Result<R, Status>, passErrors: bool)
    requires k < |reqs|
  {
    item.Err? && !(passErrors && reqs[k].Err?)
  }

  /** Serving read-only requests from position `from` on: answer each in turn until an answer ends the stream. */
  function ServeReads<Q, R>(reqs: seq<Result<Q, Status>>, from: nat, answer: (Q, nat) -> Result<R, Status>, passErrors: bool): seq<Result<R, Status>>
    requires from <= |reqs|
    decreases |reqs| - from
  {
    if from == |reqs| then []
    else
      var item := Answer(reqs, answer, from);
      if Ends(reqs, from, item, passErrors) then [item]
      else [item] + ServeReads(reqs, from + 1, answer, passErrors)
  }

  /**
   * The shape of a read-only stream: the answers are the answers to the
   * requests in order, none but the last ends the stream, and the stream falls
   * short of the requests only when its last answer ends it.
   */
  lemma {:induction false} ServeReadsShape<Q, R>(reqs: seq<Result<Q, Status>>, from: nat, answer: (Q, nat) -> Result<R, Status>, passErrors: bool)
    requires from <= |reqs|
    decreases |reqs| - from
    ensures var out := ServeReads(reqs, from, answer, passErrors);
      AnswersInOrder(reqs, from, out) &&
      (forall j | 0 <= j < |out| :: out[j] == Answer(reqs, answer, from + j)) &&
      (forall j | 0 <= j < |out| - 1 :: !Ends(reqs, from + j, out[j], passErrors)) &&
      (|out| < |reqs| - from ==> Ends(reqs, from + |out| - 1, out[|out| - 1], passErrors))
  {
    if from < |reqs| {
      var item := Answer(reqs, answer, from);
      if !Ends(reqs, from, item, passErrors) {
        var rest := ServeReads(reqs, from + 1, answer, passErrors);
        ServeReadsShape(reqs, from + 1, answer, passErrors);
        var out := ServeReads(reqs, from, answer, passErrors);
        assert out == [item] + rest;
        forall j | 1 <= j < |out|
          ensures out[j] == rest[j - 1]
        {
        }
      }
    }
  }

  /**
   * Serving requests that change a state `S` from position `from` on: each
   * request is answered by `step` in the state the previous ones left. The
   * result is the answers and the final state. Inbound errors are answered in
   * place, and only the last answer can end the stream.
   */
  function Serve<S, Q, R>(s: S, reqs: seq<Result<Q, Status>>, from: nat, step: (S, Q, nat) -> (Result<R, Status>, S), passErrors: bool): (r: (seq<Result<R, Status>>, S))
    requires from <= |reqs|
    decreases |reqs| - from
  {
    if from == |reqs| then ([], s)
    else match reqs[from]
      case Err(e) =>
        if passErrors then
          var rest := Serve(s, reqs, from + 1, step, passErrors);
          ([Err(e)] + rest.0, rest.1)
        else ([Err(e)], s)
      case Ok(q) =>
        var (item, s') := step(s, q, from);
        if item.Err? then ([item], s')
        else
          var rest := Serve(s', reqs, from + 1, step, passErrors);
          ([item] + rest.0, rest.1)
  }

  /**
   * The shape of what serving yields: one answer per request in order, inbound
   * errors answered in place, none but the last answer ending the stream, and
   * the stream falling short of the requests only when its last answer ends it.
   */
  lemma {:induction false} ServeShape<S, Q, R>(s: S, reqs: seq<Result<Q, Status>>, from: nat, step: (S, Q, nat) -> (Result<R, Status>, S), passErrors: bool)
    requires from <= |reqs|
    decreases |reqs| - from
    ensures var r := Serve(s, reqs, from, step, passErrors).0;
      AnswersInOrder(reqs, from, r) &&
      (forall j | 0 <= j < |r| :: reqs[from + j].Err? ==> r[j] == Err(reqs[from + j].error)) &&
      (forall j | 0 <= j < |r| - 1 :: !Ends(reqs, from + j, r[j], passErrors)) &&
      (|r| < |reqs| - from ==> Ends(reqs, from + |r| - 1, r[|r| - 1], passErrors))
  {
    if from < |reqs| {
      match reqs[from]
      case Err(e) =>
        if passErrors {
          ServeShape(s, reqs, from + 1, step, passErrors);
        }
      case Ok(q) =>
        var (item, s') := step(s, q, from);
        if item.Ok? {
          ServeShape(s', reqs, from + 1, step, passErrors);
        }
    }
  }

  /** Takes the stream up to and including its first error (`res?` inside a stream body). */
  function UpToError<T>(s: seq<Result<T, Status>>): (r: seq<Result<T, Status>>)
    ensures |r| <= |s| && r == s[..|r|]
    ensures forall j | 0 <= j < |r| - 1 :: r[j].Ok?
    ensures |r| < |s| ==> |r| > 0 && r[|r| - 1].Err?
  {
    if s == [] then []
    else if s[0].Err? then [s[0]]
    else [s[0]] + UpToError(s[1..])
  }

  /** Applies `f` to every value and passes errors through unchanged (`map_ok`). */
  function MapOk<A, B>(s: seq<Result<A, Status>>, f: A -> B): (r: seq<Result<B, Status>>)
    ensures |r| == |s|
    ensures forall j | 0 <= j < |s| :: r[j] == (if s[j].Ok? then Ok(f(s[j].value)) else Err(s[j].error))
  {
    seq(|s|, j requires 0 <= j < |s| => if s[j].Ok? then Ok(f(s[j].value)) else Err(s[j].error))
  }

  /**
   * A `stream!` that forwards each item as `Ok(f(x))` and ends at the first
   * error, which it yields (`item?`): the items before the error, converted
   * one for one and in order, then the error.
   */
  function Relay<A, B>(s: seq<Result<A, Status>>, f: A -> B): (r: seq<Result<B, Status>>)
    ensures |r| <= |s|
    ensures forall j | 0 <= j < |r| :: r[j] == (if s[j].Ok? then Ok(f(s[j].value)) else Err(s[j].error))
    ensures forall j | 0 <= j < |r| - 1 :: s[j].Ok?
    ensures |r| < |s| ==> |r| > 0 && s[|r| - 1].Err?
    ensures (forall j | 0 <= j < |s| :: s[j].Ok?) ==> |r| == |s|
  {
    UpToError(MapOk(s, f))
  }

  /** The loop of a read-only `stream!` body: answers each request in turn until one ends the stream. */
  method RunReads<Q, R>(reqs: seq<Result<Q, Status>>, answer: (Q, nat) -> Result<R, Status>, passErrors: bool) returns (out: seq<Result<R, Status>>)
    ensures out == ServeReads(reqs, 0, answer, passErrors)
  {
    out := [];
    var i := 0;
    while i < |reqs|
      invariant 0 <= i <= |reqs|
      invariant out + ServeReads(reqs, i, answer, passErrors) == ServeReads(reqs, 0, answer, passErrors)
    {
      var item := Answer(reqs, answer, i);
      ServeReadsStep(reqs, i, answer, passErrors);
      if Ends(reqs, i, item, passErrors) {
        out := out + [item];
        return;
      }
      AppendAssoc(out, [item], ServeReads(reqs, i + 1, answer, passErrors));
      out := out + [item];
      i := i + 1;
    }
  }

  /** One turn of the read loop: the answer to request `from`, then the rest unless it ends the stream. */
  lemma ServeReadsStep<Q, R>(reqs: seq<Result<Q, Status>>, from: nat, answer: (Q, nat) -> Result<R, Status>, passErrors: bool)
    requires from < |reqs|
    ensures var item := Answer(reqs, answer, from);
      ServeReads(reqs, from, answer, passErrors) ==
        if Ends(reqs, from, item, passErrors) then [item] else [item] + ServeReads(reqs, from + 1, answer, passErrors)
  {
  }

  lemma AppendAssoc<T>(a: seq<T>, b: seq<T>, c: seq<T>)
    ensures (a + b) + c == a + (b + c)
  {
  }

  /** The loop of a `stream!` body that changes a state: the state is threaded from one request to the next. */
  method RunSteps<S, Q, R>(s: S, reqs: seq<Result<Q, Status>>, step: (S, Q, nat) -> (Result<R, Status>, S), passErrors: bool)
    returns (out: seq<Result<R, Status>>, last: S)
    ensures out == Serve(s, reqs, 0, step, passErrors).0 && last == Serve(s, reqs, 0, step, passErrors).1
  {
    out := [];
    last := s;
    var i := 0;
    while i < |reqs|
      invariant 0 <= i <= |reqs|
      invariant out + Serve(last, reqs, i, step, passErrors).0 == Serve(s, reqs, 0, step, passErrors).0
      invariant Serve(last, reqs, i, step, passErrors).1 == Serve(s, reqs, 0, step, passErrors).1
    {
      var (item, next) := Turn(last, reqs, i, step);
      StepsAdvance(s, reqs, i, step, passErrors, out, last);
      out := out + [item];
      last := next;
      if Ends(reqs, i, item, passErrors) {
        return;
      }
      i := i + 1;
    }
  }

  /** Answering request `k` in state `s`: an inbound error is answered as itself and changes nothing. */
  function Turn<S, Q, R>(s: S, reqs: seq<Result<Q, Status>>, k: nat, step: (S, Q, nat) -> (Result<R, Status>, S)): (Result<R, Status>, S)
    requires k < |reqs|
  {
    match reqs[k]
    case Err(e) => (Err(e), s)
    case Ok(q) => step(s, q, k)
  }

  /**
   * One turn of the state-changing loop: with `done` answered before request
   * `i` and `last` the state then, the turn's answer and state either complete
   * the stream or leave the rest from `i + 1` to come.
   */
  lemma StepsAdvance<S, Q, R>(s: S, reqs: seq<Result<Q, Status>>, i: nat, step: (S, Q, nat) -> (Result<R, Status>, S), passErrors: bool,
                              done: seq<Result<R, Status>>, last: S)
    requires i < |reqs|
    requires done + Serve(last, reqs, i, step, passErrors).0 == Serve(s, reqs, 0, step, passErrors).0
    requires Serve(last, reqs, i, step, passErrors).1 == Serve(s, reqs, 0, step, passErrors).1
    ensures var (item, next) := Turn(last, reqs, i, step);
      if Ends(reqs, i, item, passErrors) then
        done + [item] == Serve(s, reqs, 0, step, passErrors).0 && next == Serve(s, reqs, 0, step, passErrors).1
      else
        (done + [item]) + Serve(next, reqs, i + 1, step, passErrors).0 == Serve(s, reqs, 0, step, passErrors).0 &&
        Serve(next, reqs, i + 1, step, passErrors).1 == Serve(s, reqs, 0, step, passErrors).1
  {
    var (item, next) := Turn(last, reqs, i, step);
    if !Ends(reqs, i, item, passErrors) {
      var rest := Serve(next, reqs, i + 1, step, passErrors).0;
      assert Serve(last, reqs, i, step, passErrors).0 == [item] + rest;
      assert (done + [item]) + rest == done + ([item] + rest);
    }
  }

  /** The reply to request `k` of a stream whose every request succeeds with `f` of it. */
  function Reply<Q, R>(req: Result<Q, Status>, f: Q -> R): Result<R, Status>
  {
    match req
    case Ok(q) => Ok(f(q))
    case Err(e) => Err(e)
  }

  /**
   * The replies from position `from` on when no request fails in the engine:
   * one reply per request, inbound errors in place, and (unless they are passed
   * on) nothing after the first inbound error.
   */
  function Replies<Q, R>(reqs: seq<Result<Q, Status>>, from: nat, f: Q -> R, passErrors: bool): (r: seq<Result<R, Status>>)
    requires from <= |reqs|
    decreases |reqs| - from
    ensures AnswersInOrder(reqs, from, r)
    ensures forall j | 0 <= j < |r| :: r[j] == Reply(reqs[from + j], f)
    ensures passErrors ==> |r| == |reqs| - from
    ensures (forall j | from <= j < |reqs| :: reqs[j].Ok?) ==> |r| == |reqs| - from
  {
    if from == |reqs| then []
    else if reqs[from].Err? && !passErrors then [Err(reqs[from].error)]
    else [Reply(reqs[from], f)] + Replies(reqs, from + 1, f, passErrors)
  }

  /** The state after `upd` has been applied for every request served from position `from` on. */
  function Applied<S, Q>(s: S, reqs: seq<Result<Q, Status>>, from: nat, upd: (S, Q) -> S, passErrors: bool): S
    requires from <= |reqs|
    decreases |reqs| - from
  {
    if from == |reqs| then s
    else match reqs[from]
      case Err(_) => if passErrors then Applied(s, reqs, from + 1, upd, passErrors) else s
      case Ok(q) => Applied(upd(s, q), reqs, from + 1, upd, passErrors)
  }

  /**
   * When every request in a state satisfying `inv` succeeds with `f` of it and
   * moves the state by `upd`, serving replies to every request and leaves the
   * state all the updates produce.
   */
  lemma {:induction false} ServeWithoutFaults<S, Q, R>(s: S, reqs: seq<Result<Q, Status>>, from: nat, step: (S, Q, nat) -> (Result<R, Status>, S),
                                                     f: Q -> R, upd: (S, Q) -> S, inv: S -> bool, passErrors: bool)
    requires from <= |reqs| && inv(s)
    requires forall t, q | inv(t) :: inv(upd(t, q))
    requires forall t, q, k | inv(t) && from <= k < |reqs| :: step(t, q, k) == (Ok(f(q)), upd(t, q))
    decreases |reqs| - from
    ensures Serve(s, reqs, from, step, passErrors) == (Replies(reqs, from, f, passErrors), Applied(s, reqs, from, upd, passErrors))
  {
    if from < |reqs| {
      match reqs[from]
      case Err(_) =>
        if passErrors {
          ServeWithoutFaults(s, reqs, from + 1, step, f, upd, inv, passErrors);
        }
      case Ok(q) =>
        assert step(s, q, from) == (Ok(f(q)), upd(s, q));
        ServeWithoutFaults(upd(s, q), reqs, from + 1, step, f, upd, inv, passErrors);
    }
  }

  /** Read-only serving depends only on the answers the requests get. */
  lemma {:induction false} ServeReadsAgree<Q, R>(reqs: seq<Result<Q, Status>>, from: nat, a: (Q, nat) -> Result<R, Status>, b: (Q, nat) -> Result<R, Status>, passErrors: bool)
    requires from <= |reqs|
    requires forall q, k | from <= k < |reqs| :: a(q, k) == b(q, k)
    decreases |reqs| - from
    ensures ServeReads(reqs, from, a, passErrors) == ServeReads(reqs, from, b, passErrors)
  {
    if from < |reqs| {
      ServeReadsAgree(reqs, from + 1, a, b, passErrors);
    }
  }
}

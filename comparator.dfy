/**
 * The all-equal and all-distinct checks shared by the backends
 * (src/backend/helpers.rs).
 *
 * Both consume a stream of lookup results one item at a time and compare
 * digests of the values rather than the values themselves. The digest (SHA-256
 * in the source) is a parameter. Each check stops at the first item that
 * decides the answer, or at the first error, and returns how many items it
 * pulled; the rest of the stream is never read.
 */
module Comparator {
  import opened Common

  /** Item `j` is a value whose digest equals that of the first item, itself a value. */
  ghost predicate MatchesFirst<T, H, E>(items: seq<Result<T, E>>, digest: T -> H, j: int)
  {
    0 <= j < |items| && items[0].Ok? && items[j].Ok? && digest(items[j].value) == digest(items[0].value)
  }

  /** The all-equal check from position `from` on, with the digest of the first item as `reference`. */
  function EqFrom<T, H(==), E>(items: seq<Result<T, E>>, digest: T -> H, reference: H, from: nat): (v: (Result<bool, E>, nat))
    requires 1 <= from <= |items| && items[0].Ok? && reference == digest(items[0].value)
    decreases |items| - from
    ensures from <= v.1 <= |items|
    ensures forall j | from <= j < v.1 - 1 :: MatchesFirst(items, digest, j)
    ensures v.0 == Ok(true) <==> forall j | from <= j < |items| :: MatchesFirst(items, digest, j)
    ensures v.0 == Ok(true) ==> v.1 == |items|
    ensures v.0 == Ok(false) ==> v.1 > from && items[v.1 - 1].Ok? && !MatchesFirst(items, digest, v.1 - 1)
    ensures v.0.Err? ==> v.1 > from && items[v.1 - 1] == Err(v.0.error)
  {
    if from == |items| then (Ok(true), from)
    else match items[from]
      case Err(e) =>
        assert !MatchesFirst(items, digest, from);
        (Err(e), from + 1)
      case Ok(x) =>
        if digest(x) != reference then
          assert !MatchesFirst(items, digest, from);
          (Ok(false), from + 1)
        else EqFrom(items, digest, reference, from + 1)
  }

  /**
   * What `all_eq` answers, with the number of items it pulls: true exactly when
   * every item is a value with the digest of the first (so the empty stream is
   * true); false at the first value whose digest differs; the error of the first
   * failed item met before that.
   */
  function EqVerdict<T, H(==), E>(items: seq<Result<T, E>>, digest: T -> H): (v: (Result<bool, E>, nat))
    ensures v.1 <= |items| && (|items| > 0 ==> v.1 >= 1)
    ensures forall j | 0 <= j < v.1 - 1 :: MatchesFirst(items, digest, j)
    ensures v.0 == Ok(true) <==> forall j | 0 <= j < |items| :: MatchesFirst(items, digest, j)
    ensures v.0 == Ok(true) ==> v.1 == |items|
    ensures v.0 == Ok(false) ==> v.1 >= 2 && items[v.1 - 1].Ok? && !MatchesFirst(items, digest, v.1 - 1)
    ensures v.0.Err? ==> v.1 >= 1 && items[v.1 - 1] == Err(v.0.error)
  {
    if |items| == 0 then (Ok(true), 0)
    else match items[0]
      case Err(e) =>
        assert !MatchesFirst(items, digest, 0);
        (Err(e), 1)
      case Ok(first) => EqFrom(items, digest, digest(first), 1)
  }

  /** The items in `[from, to)` are all values. */
  ghost predicate AllValues<T, E>(items: seq<Result<T, E>>, from: int, to: int)
  {
    forall j | from <= j < to && 0 <= j < |items| :: items[j].Ok?
  }

  /** The values in `[from, to)` have pairwise different digests, none of them in `seen`. */
  ghost predicate Fresh<T, H, E>(items: seq<Result<T, E>>, digest: T -> H, seen: set<H>, from: int, to: int)
    requires 0 <= from && to <= |items| && AllValues(items, from, to)
  {
    (forall j | from <= j < to :: digest(items[j].value) !in seen) &&
    (forall j, k | from <= j < k < to :: digest(items[j].value) != digest(items[k].value))
  }

  /** The all-distinct check from position `from` on, `seen` holding the digests met so far. */
  function DistinctFrom<T, H(==), E>(items: seq<Result<T, E>>, digest: T -> H, seen: set<H>, from: nat): (v: (Result<bool, E>, nat))
    requires from <= |items|
    decreases |items| - from
    ensures from <= v.1 <= |items|
  {
    if from == |items| then (Ok(true), from)
    else match items[from]
      case Err(e) => (Err(e), from + 1)
      case Ok(x) =>
        if digest(x) in seen then (Ok(false), from + 1)
        else DistinctFrom(items, digest, seen + {digest(x)}, from + 1)
  }

  /**
   * What the all-distinct check from `from` decides: true exactly when every
   * remaining item is a value and their digests are pairwise different and
   * not in `seen`; false at a value whose digest was met before; otherwise the
   * error of the item it stopped at, every item before which was a fresh value.
   */
  lemma {:induction false} DistinctFromShape<T, H, E>(items: seq<Result<T, E>>, digest: T -> H, seen: set<H>, from: nat)
    requires from <= |items|
    decreases |items| - from
    ensures var v := DistinctFrom(items, digest, seen, from);
      (v.0 == Ok(true) <==> AllValues(items, from, |items|) && Fresh(items, digest, seen, from, |items|)) &&
      (v.0 == Ok(true) ==> v.1 == |items|) &&
      (v.1 > from ==> AllValues(items, from, v.1 - 1) && Fresh(items, digest, seen, from, v.1 - 1)) &&
      (v.0 == Ok(false) ==>
        v.1 > from && items[v.1 - 1].Ok? &&
        (digest(items[v.1 - 1].value) in seen ||
         exists j | from <= j < v.1 - 1 :: digest(items[j].value) == digest(items[v.1 - 1].value))) &&
      (v.0.Err? ==> v.1 > from && items[v.1 - 1] == Err(v.0.error))
  {
    if from < |items| && items[from].Ok? && digest(items[from].value) !in seen {
      var d := digest(items[from].value);
      DistinctFromShape(items, digest, seen + {d}, from + 1);
      var v := DistinctFrom(items, digest, seen + {d}, from + 1);
      if v.0 == Ok(false) && digest(items[v.1 - 1].value) in seen + {d} && digest(items[v.1 - 1].value) !in seen {
        assert digest(items[from].value) == digest(items[v.1 - 1].value);
      }
    }
  }

  /**
   * What `all_not_eq` answers, with the number of items it pulls: true exactly
   * when every item is a value and no two digests coincide; false at the first
   * value whose digest was met before; the error of the first failed item met
   * before that.
   */
  function NotEqVerdict<T, H(==), E>(items: seq<Result<T, E>>, digest: T -> H): (v: (Result<bool, E>, nat))
    ensures v.1 <= |items| && (|items| > 0 ==> v.1 >= 1)
    ensures v.0 == Ok(true) <==> AllValues(items, 0, |items|) && Fresh(items, digest, {}, 0, |items|)
    ensures v.0 == Ok(true) ==> v.1 == |items|
    ensures v.0 == Ok(false) ==>
      v.1 >= 2 && items[v.1 - 1].Ok? &&
      exists j | 0 <= j < v.1 - 1 :: items[j].Ok? && digest(items[j].value) == digest(items[v.1 - 1].value)
    ensures v.0.Err? ==> v.1 >= 1 && items[v.1 - 1] == Err(v.0.error)
  {
    DistinctFromShape(items, digest, {}, 0);
    DistinctFrom(items, digest, {}, 0)
  }

  /** `all_eq`: pulls items until one decides the answer or fails. */
  method AllEq<T, H(==), E>(items: seq<Result<T, E>>, digest: T -> H) returns (r: Result<bool, E>, pulled: nat)
    ensures (r, pulled) == EqVerdict(items, digest)
  {
    if |items| == 0 {
      return Ok(true), 0;
    }
    if items[0].Err? {
      return Err(items[0].error), 1;
    }
    var firstHash := digest(items[0].value);
    var i := 1;
    while i < |items|
      invariant 1 <= i <= |items|
      invariant EqFrom(items, digest, firstHash, i) == EqVerdict(items, digest)
    {
      match items[i]
      case Err(e) =>
        return Err(e), i + 1;
      case Ok(x) =>
        if firstHash != digest(x) {
          return Ok(false), i + 1;
        }
      i := i + 1;
    }
    return Ok(true), |items|;
  }

  /** `all_not_eq`: inserts each digest into a set and stops when an insertion finds it already there. */
  method AllNotEq<T, H(==), E>(items: seq<Result<T, E>>, digest: T -> H) returns (r: Result<bool, E>, pulled: nat)
    ensures (r, pulled) == NotEqVerdict(items, digest)
  {
    var uniqueValues: set<H> := {};
    var i := 0;
    while i < |items|
      invariant 0 <= i <= |items|
      invariant DistinctFrom(items, digest, uniqueValues, i) == NotEqVerdict(items, digest)
    {
      match items[i]
      case Err(e) =>
        return Err(e), i + 1;
      case Ok(x) =>
        var h := digest(x);
        if h in uniqueValues {
          return Ok(false), i + 1;
        }
        uniqueValues := uniqueValues + {h};
      i := i + 1;
    }
    return Ok(true), |items|;
  }

  /**
   * With a digest that tells values apart, the digest checks decide value
   * equality: all-equal is true exactly when every item is a value equal to the
   * first, and all-distinct exactly when every item is a value and no two are equal.
   */
  lemma VerdictsDecideValues<T, H, E>(items: seq<Result<T, E>>, digest: T -> H)
    requires forall x, y :: digest(x) == digest(y) ==> x == y
    ensures EqVerdict(items, digest).0 == Ok(true) <==>
      forall j | 0 <= j < |items| :: items[j].Ok? && items[0].Ok? && items[j].value == items[0].value
    ensures NotEqVerdict(items, digest).0 == Ok(true) <==>
      (forall j | 0 <= j < |items| :: items[j].Ok?) &&
      (forall j, k | 0 <= j < k < |items| :: items[j].value != items[k].value)
  {
    forall j | 0 <= j < |items|
      ensures MatchesFirst(items, digest, j) <==> items[j].Ok? && items[0].Ok? && items[j].value == items[0].value
    {
    }
  }

  /** Past the first item, an error met before any mismatch is the answer of the all-equal check. */
  lemma {:induction false} EqFromStopsAtError<T, H, E>(items: seq<Result<T, E>>, digest: T -> H, reference: H, from: nat, m: nat)
    requires 1 <= from <= m < |items| && items[0].Ok? && reference == digest(items[0].value)
    requires items[m].Err? && forall k | from <= k < m :: MatchesFirst(items, digest, k)
    decreases m - from
    ensures EqFrom(items, digest, reference, from).0 == Err(items[m].error)
  {
    if from < m {
      assert MatchesFirst(items, digest, from);
      EqFromStopsAtError(items, digest, reference, from + 1, m);
    }
  }

  /**
   * An error decides the all-equal check when it comes before any mismatch:
   * the answer is that error.
   */
  lemma EqStopsAtError<T, H, E>(items: seq<Result<T, E>>, digest: T -> H, m: nat)
    requires m < |items| && items[m].Err?
    requires forall k | 0 <= k < m :: MatchesFirst(items, digest, k)
    ensures EqVerdict(items, digest).0 == Err(items[m].error)
  {
    if m > 0 {
      assert MatchesFirst(items, digest, 0);
      EqFromStopsAtError(items, digest, digest(items[0].value), 1, m);
    }
  }

  /** An error met before any repeated digest, none of them in `seen`, is the answer of the all-distinct check. */
  lemma {:induction false} DistinctFromStopsAtError<T, H, E>(items: seq<Result<T, E>>, digest: T -> H, seen: set<H>, from: nat, m: nat)
    requires from <= m < |items| && items[m].Err?
    requires forall k | from <= k < m :: items[k].Ok? && digest(items[k].value) !in seen
    requires forall i, j | from <= i < j < m :: digest(items[i].value) != digest(items[j].value)
    decreases m - from
    ensures DistinctFrom(items, digest, seen, from).0 == Err(items[m].error)
  {
    if from < m {
      DistinctFromStopsAtError(items, digest, seen + {digest(items[from].value)}, from + 1, m);
    }
  }

  /**
   * An error decides the all-distinct check when every item before it is a
   * value and no two of those share a digest: the answer is that error.
   */
  lemma NotEqStopsAtError<T, H, E>(items: seq<Result<T, E>>, digest: T -> H, m: nat)
    requires m < |items| && items[m].Err?
    requires forall k | 0 <= k < m :: items[k].Ok?
    requires forall i, j | 0 <= i < j < m :: digest(items[i].value) != digest(items[j].value)
    ensures NotEqVerdict(items, digest).0 == Err(items[m].error)
  {
    DistinctFromStopsAtError(items, digest, {}, 0, m);
  }
}

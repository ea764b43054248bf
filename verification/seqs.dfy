/** Generic sequence helpers: element-wise mapping and a model of the order in
    which a set of concurrent tasks hands its results to a single receiver. */
module Seqs {
  import opened Wrappers

  /** Applies `f` to every element, keeping positions. */
  function Map<A, B>(f: A -> B, xs: seq<A>): (r: seq<B>)
    ensures |r| == |xs|
    ensures forall i :: 0 <= i < |xs| ==> r[i] == f(xs[i])
  {
    seq(|xs|, i requires 0 <= i < |xs| => f(xs[i]))
  }

  lemma MapConcat<A, B>(f: A -> B, xs: seq<A>, ys: seq<A>)
    ensures Map(f, xs + ys) == Map(f, xs) + Map(f, ys)
  {
  }

  lemma AppendAssoc<T>(a: seq<T>, b: seq<T>, c: seq<T>)
    ensures (a + b) + c == a + (b + c)
  {
  }

  /** `xs` without the element at position `k`. */
  function RemoveAt<T>(xs: seq<T>, k: nat): (r: seq<T>)
    requires k < |xs|
    ensures |r| == |xs| - 1
    ensures multiset(r) + multiset{xs[k]} == multiset(xs)
  {
    assert xs == xs[..k] + [xs[k]] + xs[k+1..];
    xs[..k] + xs[k+1..]
  }

  lemma Cancel<T>(a: multiset<T>, b: multiset<T>, x: T)
    requires multiset{x} + a == b + multiset{x}
    ensures a == b
  {
    forall y ensures a[y] == b[y] {
      assert (multiset{x} + a)[y] == (b + multiset{x})[y];
    }
  }

  /** Mapping commutes with reordering: two sequences holding the same
      elements map to two sequences holding the same elements. */
  lemma {:induction false} MapMultiset<A, B>(f: A -> B, xs: seq<A>, ys: seq<A>)
    requires multiset(xs) == multiset(ys)
    ensures multiset(Map(f, xs)) == multiset(Map(f, ys))
    decreases |xs|
  {
    if |xs| == 0 {
      NoElements(ys, xs);
    } else {
      var k := FindMatch(xs, ys);
      RemoveMatching(xs, ys, k);
      MapMultiset(f, xs[1..], RemoveAt(ys, k));
      MapRemoveAt(f, ys, k);
      assert xs == [xs[0]] + xs[1..];
      MapConcat(f, [xs[0]], xs[1..]);
    }
  }

  lemma MapRemoveAt<A, B>(f: A -> B, ys: seq<A>, k: nat)
    requires k < |ys|
    ensures multiset(Map(f, ys)) == multiset(Map(f, [ys[k]])) + multiset(Map(f, RemoveAt(ys, k)))
  {
    SplitAt(ys, k);
    MapConcat(f, ys[..k] + [ys[k]], ys[k+1..]);
    MapConcat(f, ys[..k], [ys[k]]);
    MapConcat(f, ys[..k], ys[k+1..]);
  }

  /** The order in which `pending` tasks complete when, at each step, the
      scheduler lets the task at position `picks[0]` of those still running
      finish next. Every choice sequence is admissible, so no precondition
      restricts `picks`; a missing or out-of-range pick means position 0. */
  function Schedule<T>(pending: seq<T>, picks: seq<nat>): (order: seq<T>)
    ensures |order| == |pending|
    ensures multiset(order) == multiset(pending)
    decreases |pending|
  {
    if |pending| == 0 then []
    else
      var k := if |picks| == 0 || picks[0] >= |pending| then 0 else picks[0];
      var rest := Schedule(RemoveAt(pending, k), if |picks| == 0 then [] else picks[1..]);
      assert multiset([pending[k]] + rest) == multiset{pending[k]} + multiset(rest);
      [pending[k]] + rest
  }

  /** With no scheduler choices the tasks complete in the order they were started. */
  lemma {:induction false} ScheduleWithoutPicksKeepsOrder<T>(pending: seq<T>)
    ensures Schedule(pending, []) == pending
    decreases |pending|
  {
    if |pending| > 0 {
      assert RemoveAt(pending, 0) == pending[1..];
      ScheduleWithoutPicksKeepsOrder(pending[1..]);
    }
  }

  /** Picking position `k` first lets `pending[k]` complete first. */
  lemma ScheduleStep<T>(pending: seq<T>, k: nat, rest: seq<nat>)
    requires k < |pending|
    ensures Schedule(pending, [k] + rest) == [pending[k]] + Schedule(RemoveAt(pending, k), rest)
  {
    assert ([k] + rest)[1..] == rest;
  }

  /** Every reordering of the tasks is a completion order some scheduler can
      produce, so `Schedule` covers all interleavings and nothing else. */
  lemma {:induction false} ScheduleReachesEveryPermutation<T>(pending: seq<T>, order: seq<T>)
    returns (picks: seq<nat>)
    requires multiset(order) == multiset(pending)
    ensures Schedule(pending, picks) == order
    decreases |pending|
  {
    if |pending| == 0 {
      NoElements(order, pending);
      picks := [];
    } else {
      var k := FindMatch(order, pending);
      RemoveMatching(order, pending, k);
      var rest := ScheduleReachesEveryPermutation(RemoveAt(pending, k), order[1..]);
      picks := [k] + rest;
      ScheduleStep(pending, k, rest);
      FirstAndRest(order);
    }
  }

  /** The values `f` yields, in order, skipping the elements it rejects. */
  function FilterMap<T, U>(f: T -> Option<U>, xs: seq<T>): (r: seq<U>)
    ensures |r| <= |xs|
    ensures |r| == |xs| <==> forall i :: 0 <= i < |xs| ==> f(xs[i]).Some?
    decreases |xs|
  {
    if |xs| == 0 then []
    else
      var rest := FilterMap(f, xs[1..]);
      assert forall i :: 0 < i < |xs| ==> xs[i] == xs[1..][i - 1];
      match f(xs[0])
      case Some(y) => [y] + rest
      case None => rest
  }

  lemma {:induction false} FilterMapConcat<T, U>(f: T -> Option<U>, xs: seq<T>, ys: seq<T>)
    ensures FilterMap(f, xs + ys) == FilterMap(f, xs) + FilterMap(f, ys)
    decreases |xs|
  {
    if |xs| == 0 {
      assert xs + ys == ys;
    } else {
      assert (xs + ys)[0] == xs[0];
      assert (xs + ys)[1..] == xs[1..] + ys;
      FilterMapConcat(f, xs[1..], ys);
    }
  }

  lemma FilterMapAround<T, U>(f: T -> Option<U>, a: seq<T>, x: T, b: seq<T>)
    ensures multiset(FilterMap(f, a + [x] + b)) == multiset(FilterMap(f, [x])) + multiset(FilterMap(f, a + b))
  {
    FilterMapConcat(f, a + [x], b);
    FilterMapConcat(f, a, [x]);
    FilterMapConcat(f, a, b);
  }

  lemma FilterMapFirst<T, U>(f: T -> Option<U>, xs: seq<T>)
    requires |xs| > 0
    ensures multiset(FilterMap(f, xs)) == multiset(FilterMap(f, [xs[0]])) + multiset(FilterMap(f, xs[1..]))
  {
    assert xs == [xs[0]] + xs[1..];
    FilterMapConcat(f, [xs[0]], xs[1..]);
  }

  lemma SplitAt<T>(ys: seq<T>, k: nat)
    requires k < |ys|
    ensures ys == ys[..k] + [ys[k]] + ys[k+1..]
    ensures RemoveAt(ys, k) == ys[..k] + ys[k+1..]
  {
  }

  lemma FilterMapRemoveAt<T, U>(f: T -> Option<U>, ys: seq<T>, k: nat)
    requires k < |ys|
    ensures multiset(FilterMap(f, ys)) == multiset(FilterMap(f, [ys[k]])) + multiset(FilterMap(f, RemoveAt(ys, k)))
  {
    SplitAt(ys, k);
    FilterMapAround(f, ys[..k], ys[k], ys[k+1..]);
  }

  lemma NoElements<T>(xs: seq<T>, ys: seq<T>)
    requires multiset(xs) == multiset(ys) && |ys| == 0
    ensures xs == []
  {
    assert |xs| == |multiset(xs)| == 0;
  }

  lemma FirstAndRest<T>(xs: seq<T>)
    requires |xs| > 0
    ensures xs == [xs[0]] + xs[1..]
  {
  }

  /** Where the first element of `xs` sits in a reordering `ys`. */
  lemma FindMatch<T>(xs: seq<T>, ys: seq<T>) returns (k: nat)
    requires |xs| > 0 && multiset(xs) == multiset(ys)
    ensures k < |ys| && ys[k] == xs[0]
  {
    assert xs[0] in multiset(ys);
    k :| 0 <= k < |ys| && ys[k] == xs[0];
  }

  /** Taking one occurrence of `x` out of two equal multisets leaves equal multisets. */
  lemma RemoveMatching<T>(xs: seq<T>, ys: seq<T>, k: nat)
    requires |xs| > 0 && k < |ys| && ys[k] == xs[0]
    requires multiset(xs) == multiset(ys)
    ensures multiset(xs[1..]) == multiset(RemoveAt(ys, k))
  {
    assert xs == [xs[0]] + xs[1..];
    assert multiset(xs) == multiset{xs[0]} + multiset(xs[1..]);
    Cancel(multiset(xs[1..]), multiset(RemoveAt(ys, k)), xs[0]);
  }

  /** Reordering the input reorders the output and nothing more. */
  lemma {:induction false} FilterMapMultiset<T, U>(f: T -> Option<U>, xs: seq<T>, ys: seq<T>)
    requires multiset(xs) == multiset(ys)
    ensures multiset(FilterMap(f, xs)) == multiset(FilterMap(f, ys))
    decreases |xs|
  {
    if |xs| == 0 {
      NoElements(ys, xs);
    } else {
      var k := FindMatch(xs, ys);
      RemoveMatching(xs, ys, k);
      FilterMapMultiset(f, xs[1..], RemoveAt(ys, k));
      FilterMapRemoveAt(f, ys, k);
      FilterMapFirst(f, xs);
    }
  }

  predicate StrictlyIncreasing(idx: seq<nat>) {
    forall a, b :: 0 <= a < b < |idx| ==> idx[a] < idx[b]
  }

  /** `idx` lists ascending exactly the positions of `xs` that `f` accepts,
      and `ys[k]` is what `f` yields at position `idx[k]`. */
  ghost predicate Selects<T, U>(f: T -> Option<U>, xs: seq<T>, ys: seq<U>, idx: seq<nat>) {
    && |idx| == |ys|
    && StrictlyIncreasing(idx)
    && (forall k :: 0 <= k < |idx| ==> idx[k] < |xs| && f(xs[idx[k]]) == Some(ys[k]))
    && (forall i :: 0 <= i < |xs| && f(xs[i]).Some? ==> i in idx)
  }

  function Shift(idx: seq<nat>): (r: seq<nat>)
    ensures |r| == |idx|
    ensures forall k :: 0 <= k < |idx| ==> r[k] == idx[k] + 1
  {
    seq(|idx|, k requires 0 <= k < |idx| => idx[k] + 1)
  }

  lemma ShiftCovers<T, U>(f: T -> Option<U>, x: T, xs: seq<T>, idx: seq<nat>)
    requires forall i :: 0 <= i < |xs| && f(xs[i]).Some? ==> i in idx
    ensures forall i :: 0 < i <= |xs| && f(([x] + xs)[i]).Some? ==> i in Shift(idx)
  {
    forall i | 0 < i <= |xs| && f(([x] + xs)[i]).Some? ensures i in Shift(idx) {
      assert ([x] + xs)[i] == xs[i - 1];
      assert i - 1 in idx;
      var k :| 0 <= k < |idx| && idx[k] == i - 1;
      assert Shift(idx)[k] == i;
    }
  }

  lemma SelectsSkip<T, U>(f: T -> Option<U>, x: T, xs: seq<T>, ys: seq<U>, idx: seq<nat>)
    requires Selects(f, xs, ys, idx) && f(x).None?
    ensures Selects(f, [x] + xs, ys, Shift(idx))
  {
    ShiftCovers(f, x, xs, idx);
    ShiftIncreasing(idx);
    forall k | 0 <= k < |idx| ensures ([x] + xs)[Shift(idx)[k]] == xs[idx[k]] {
      assert Shift(idx)[k] == idx[k] + 1;
    }
  }

  lemma ShiftIncreasing(idx: seq<nat>)
    requires StrictlyIncreasing(idx)
    ensures StrictlyIncreasing(Shift(idx))
  {
  }

  lemma ZeroShiftIncreasing(idx: seq<nat>)
    requires StrictlyIncreasing(idx)
    ensures StrictlyIncreasing([0] + Shift(idx))
  {
    var idx' := [0] + Shift(idx);
    forall a, b | 0 <= a < b < |idx'| ensures idx'[a] < idx'[b] {
      assert idx'[b] == idx[b - 1] + 1;
      if a > 0 {
        assert idx'[a] == idx[a - 1] + 1;
      }
    }
  }

  lemma SelectsKeep<T, U>(f: T -> Option<U>, x: T, xs: seq<T>, ys: seq<U>, idx: seq<nat>)
    requires Selects(f, xs, ys, idx) && f(x).Some?
    ensures Selects(f, [x] + xs, [f(x).value] + ys, [0] + Shift(idx))
  {
    var all := [x] + xs;
    var idx' := [0] + Shift(idx);
    var ys' := [f(x).value] + ys;
    ZeroShiftIncreasing(idx);
    forall k | 0 <= k < |idx'| ensures idx'[k] < |all| && f(all[idx'[k]]) == Some(ys'[k]) {
      if k > 0 {
        assert idx'[k] == idx[k - 1] + 1;
        assert all[idx'[k]] == xs[idx[k - 1]];
      }
    }
    ShiftCovers(f, x, xs, idx);
    forall i | 0 <= i < |all| && f(all[i]).Some? ensures i in idx' {
      if i > 0 {
        assert i in Shift(idx);
      }
    }
  }

  /** `FilterMap` keeps input order: its output is an ordered selection of
      the accepted positions, each one present. */
  lemma {:induction false} FilterMapSelects<T, U>(f: T -> Option<U>, xs: seq<T>) returns (idx: seq<nat>)
    ensures Selects(f, xs, FilterMap(f, xs), idx)
    decreases |xs|
  {
    if |xs| == 0 {
      idx := [];
    } else {
      var tail := FilterMapSelects(f, xs[1..]);
      assert xs == [xs[0]] + xs[1..];
      if f(xs[0]).Some? {
        SelectsKeep(f, xs[0], xs[1..], FilterMap(f, xs[1..]), tail);
        idx := [0] + Shift(tail);
      } else {
        SelectsSkip(f, xs[0], xs[1..], FilterMap(f, xs[1..]), tail);
        idx := Shift(tail);
      }
    }
  }
}

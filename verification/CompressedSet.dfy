/**
  The interval set of src/Generics/CompressedSet.hpp.

  The ordered map holder_ is a sequence of intervals in key order and an iterator is an
  index into it. The Integer type is given by its numeric limits.
 */
module CompressedSet {

  datatype Interval = Interval(first: int, second: int)

  /** std::numeric_limits<Integer> */
  datatype Limits = Limits(min: int, max: int)

  /** A position kept across calls: end(), or the interval with this index. */
  datatype Memo = End | At(index: nat)

  datatype CheckStatus = CS_NONE | CS_ALL | CS_SOME

  // ---------------------------------------------------------------- the abstraction

  /** The form promised by the class comment: ordered, disjoint, and never adjacent. */
  ghost predicate Canonical(h: seq<Interval>, lim: Limits)
  {
    && (forall i :: 0 <= i < |h| ==> lim.min <= h[i].first <= h[i].second <= lim.max)
    && (forall i, j :: 0 <= i < j < |h| ==> h[i].second + 1 < h[j].first)
  }

  predicate Covers(v: Interval, x: int)
  {
    v.first <= x <= v.second
  }

  ghost predicate Holds(h: seq<Interval>, x: int)
  {
    exists i :: 0 <= i < |h| && Covers(h[i], x)
  }

  ghost function Elements(h: seq<Interval>, lim: Limits): set<int>
  {
    set x | lim.min <= x <= lim.max && Holds(h, x)
  }

  function Range(low: int, high: int): set<int>
  {
    set x | low <= x <= high && Covers(Interval(low, high), x)
  }

  /** An interval [max, max] is never below `safe_next(max)`, so remove() leaves it. */
  function Survivor(s: set<int>, high: int, lim: Limits): set<int>
  {
    if high == lim.max && lim.max in s && lim.max - 1 !in s then {lim.max} else {}
  }

  /** What remove(low, high) does to the represented set. */
  function Removed(s: set<int>, low: int, high: int, lim: Limits): set<int>
  {
    if low > high then s else s - Range(low, high) + Survivor(s, high, lim)
  }

  /** remove() is set difference exactly when it is not asked to drop an isolated maximum. */
  lemma RemoveIsDifferenceExactly(s: set<int>, low: int, high: int, lim: Limits)
    requires lim.min <= low <= high <= lim.max
    ensures Removed(s, low, high, lim) == s - Range(low, high)
       <==> !(high == lim.max && lim.max in s && lim.max - 1 !in s)
  {
    if high == lim.max && lim.max in s && lim.max - 1 !in s {
      assert lim.max in Removed(s, low, high, lim);
      assert lim.max in Range(low, high);
    }
  }

  // ---------------------------------------------------------------- canonical form is unique

  lemma FirstIsLeast(h: seq<Interval>, lim: Limits, x: int)
    requires Canonical(h, lim) && Holds(h, x)
    ensures |h| > 0 && h[0].first <= x
  {
  }

  lemma GapAfterFirst(h: seq<Interval>, lim: Limits)
    requires Canonical(h, lim) && |h| > 0
    ensures Holds(h, h[0].second) && !Holds(h, h[0].second + 1)
    ensures forall x :: h[0].first <= x <= h[0].second ==> Holds(h, x)
  {
    assert Covers(h[0], h[0].second);
    forall x | h[0].first <= x <= h[0].second ensures Holds(h, x) {
      assert Covers(h[0], x);
    }
  }

  lemma TailHolds(h: seq<Interval>, lim: Limits, x: int)
    requires Canonical(h, lim) && |h| > 0
    ensures Canonical(h[1..], lim)
    ensures Holds(h[1..], x) <==> Holds(h, x) && !Covers(h[0], x)
  {
    if Holds(h, x) && !Covers(h[0], x) {
      var i :| 0 <= i < |h| && Covers(h[i], x);
      assert Covers(h[1..][i - 1], x);
    }
    if Holds(h[1..], x) {
      var i :| 0 <= i < |h[1..]| && Covers(h[1..][i], x);
      assert Covers(h[i + 1], x);
    }
  }

  /** Two canonical holders of the same integers are the same holder. */
  lemma {:induction false} CanonicalFormIsUnique(g: seq<Interval>, h: seq<Interval>, lim: Limits)
    requires Canonical(g, lim) && Canonical(h, lim)
    requires forall x :: Holds(g, x) <==> Holds(h, x)
    ensures g == h
    decreases |g|
  {
    if |g| > 0 {
      GapAfterFirst(g, lim);
      FirstIsLeast(h, lim, g[0].first);
      GapAfterFirst(h, lim);
      FirstIsLeast(g, lim, h[0].first);
      assert g[0].first == h[0].first;
      assert g[0] == h[0];
      forall x ensures Holds(g[1..], x) <==> Holds(h[1..], x) {
        TailHolds(g, lim, x);
        TailHolds(h, lim, x);
      }
      TailHolds(g, lim, 0);
      TailHolds(h, lim, 0);
      CanonicalFormIsUnique(g[1..], h[1..], lim);
    } else if |h| > 0 {
      GapAfterFirst(h, lim);
      assert false;
    }
  }

  // ---------------------------------------------------------------- splicing

  /** h[p..q] is replaced by one interval. */
  function Splice(h: seq<Interval>, p: nat, v: Interval, q: nat): seq<Interval>
    requires p <= q <= |h|
  {
    h[..p] + [v] + h[q..]
  }

  lemma SpliceHolds(h: seq<Interval>, p: nat, v: Interval, q: nat, x: int)
    requires p <= q <= |h|
    ensures Holds(Splice(h, p, v, q), x) <==>
            Covers(v, x) || Holds(h[..p], x) || Holds(h[q..], x)
  {
    var s := Splice(h, p, v, q);
    assert s[p] == v;
    if Holds(h[..p], x) {
      var i :| 0 <= i < p && Covers(h[..p][i], x);
      assert Covers(s[i], x);
    }
    if Holds(h[q..], x) {
      var i :| 0 <= i < |h| - q && Covers(h[q..][i], x);
      assert Covers(s[p + 1 + i], x);
    }
    if Holds(s, x) {
      var i :| 0 <= i < |s| && Covers(s[i], x);
      if i < p {
        assert Covers(h[..p][i], x);
      } else if i > p {
        assert Covers(h[q..][i - p - 1], x);
      }
    }
  }

  lemma HoldsInParts(h: seq<Interval>, p: nat, q: nat, x: int)
    requires p <= q <= |h|
    ensures Holds(h, x) <==> Holds(h[..p], x) || Holds(h[p..q], x) || Holds(h[q..], x)
  {
    if Holds(h, x) {
      var i :| 0 <= i < |h| && Covers(h[i], x);
      if i < p {
        assert Covers(h[..p][i], x);
      } else if i < q {
        assert Covers(h[p..q][i - p], x);
      } else {
        assert Covers(h[q..][i - q], x);
      }
    }
    if Holds(h[..p], x) {
      var i :| 0 <= i < p && Covers(h[..p][i], x);
      assert Covers(h[i], x);
    }
    if Holds(h[p..q], x) {
      var i :| 0 <= i < q - p && Covers(h[p..q][i], x);
      assert Covers(h[p + i], x);
    }
    if Holds(h[q..], x) {
      var i :| 0 <= i < |h| - q && Covers(h[q..][i], x);
      assert Covers(h[q + i], x);
    }
  }

  /** std::map::lower_bound: the first interval that does not start below `v`. */
  function LowerBound(h: seq<Interval>, v: int): (i: nat)
    ensures i <= |h|
    ensures forall j :: 0 <= j < i ==> h[j].first < v
    ensures i < |h| ==> h[i].first >= v
  {
    if |h| == 0 || h[0].first >= v then 0 else 1 + LowerBound(h[1..], v)
  }

  /** Generics::safe_next */
  function SafeNext(number: int, lim: Limits): int
  {
    if number < lim.max then number + 1 else number
  }

  // ---------------------------------------------------------------- add: what its loop keeps

  /**
    The holder is h with h[p..q] merged, together with [low, high], into `v`.
   */
  ghost predicate Merging(h: seq<Interval>, lim: Limits, p: nat, v: Interval, q: nat, low: int, high: int)
  {
    && p <= q <= |h|
    && lim.min <= v.first <= low <= high <= v.second <= lim.max
    && (p > 0 ==> h[p - 1].second + 1 < v.first)
    && (forall j :: p <= j < |h| ==> v.first <= h[j].first)
    && (forall x :: Covers(v, x) <==> low <= x <= high || Holds(h[p..q], x))
    && (v.second > high ==> q == |h| || v.second + 1 < h[q].first)
  }

  lemma MergeNext(h: seq<Interval>, lim: Limits, p: nat, v: Interval, q: nat, low: int, high: int)
    requires Canonical(h, lim) && Merging(h, lim, p, v, q, low, high)
    requires q < |h| && h[q].first <= SafeNext(high, lim)
    ensures Merging(h, lim, p, if h[q].second > high then Interval(v.first, h[q].second) else v, q + 1, low, high)
  {
    var v' := if h[q].second > high then Interval(v.first, h[q].second) else v;
    forall x ensures Covers(v', x) <==> low <= x <= high || Holds(h[p..q + 1], x) {
      assert h[p..q + 1][..q - p] == h[p..q];
      HoldsInParts(h[p..q + 1], q - p, q - p, x);
      assert h[p..q + 1][q - p..] == [h[q]];
      assert Holds([h[q]], x) <==> Covers(h[q], x) by {
        if Covers(h[q], x) { assert Covers([h[q]][0], x); }
      }
    }
  }

  /** r is canonical and holds the integers of h and those of [low, high]. */
  ghost predicate IsUnion(r: seq<Interval>, h: seq<Interval>, low: int, high: int, lim: Limits)
  {
    Canonical(r, lim) && forall x :: Holds(r, x) <==> Holds(h, x) || low <= x <= high
  }

  lemma UnionOfElements(r: seq<Interval>, h: seq<Interval>, low: int, high: int, lim: Limits)
    requires IsUnion(r, h, low, high, lim) && lim.min <= low <= high <= lim.max
    ensures Elements(r, lim) == Elements(h, lim) + Range(low, high) && Canonical(r, lim)
  {
  }

  lemma SpliceCanonical(h: seq<Interval>, lim: Limits, p: nat, v: Interval, q: nat, low: int, high: int)
    requires Canonical(h, lim) && Merging(h, lim, p, v, q, low, high)
    requires v.second > high || q == |h| || h[q].first > SafeNext(high, lim)
    ensures Canonical(Splice(h, p, v, q), lim)
  {
    hide Holds, Covers;
    assert q < |h| ==> v.second + 1 < h[q].first;
    SpliceApart(h, lim, p, v, q);
  }

  lemma SpliceAt(h: seq<Interval>, p: nat, v: Interval, q: nat, i: nat)
    requires p <= q <= |h| && i < |Splice(h, p, v, q)|
    ensures |Splice(h, p, v, q)| == p + 1 + |h| - q
    ensures Splice(h, p, v, q)[i] == if i < p then h[i] else if i == p then v else h[i - p - 1 + q]
  {
  }

  lemma SplicePair(h: seq<Interval>, lim: Limits, p: nat, v: Interval, q: nat, i: nat, j: nat)
    requires Canonical(h, lim) && p <= q <= |h| && v.first <= v.second
    requires (p > 0 ==> h[p - 1].second + 1 < v.first) && (q < |h| ==> v.second + 1 < h[q].first)
    requires i < j < |Splice(h, p, v, q)|
    ensures Splice(h, p, v, q)[i].second + 1 < Splice(h, p, v, q)[j].first
  {
    SpliceAt(h, p, v, q, i);
    SpliceAt(h, p, v, q, j);
    hide Splice;
    if i < p <= j {
      assert h[i].second <= h[p - 1].second;
    }
    if i <= p < j {
      assert h[q].first <= h[j - p - 1 + q].first;
    }
  }

  lemma SpliceApart(h: seq<Interval>, lim: Limits, p: nat, v: Interval, q: nat)
    requires Canonical(h, lim) && p <= q <= |h| && lim.min <= v.first <= v.second <= lim.max
    requires (p > 0 ==> h[p - 1].second + 1 < v.first) && (q < |h| ==> v.second + 1 < h[q].first)
    ensures Canonical(Splice(h, p, v, q), lim)
  {
    hide Splice;
    var r := Splice(h, p, v, q);
    forall i | 0 <= i < |r| ensures lim.min <= r[i].first <= r[i].second <= lim.max {
      SpliceAt(h, p, v, q, i);
    }
    forall i, j | 0 <= i < j < |r| ensures r[i].second + 1 < r[j].first {
      SplicePair(h, lim, p, v, q, i, j);
    }
  }

  lemma MergeDone(h: seq<Interval>, lim: Limits, p: nat, v: Interval, q: nat, low: int, high: int)
    requires Canonical(h, lim) && Merging(h, lim, p, v, q, low, high)
    requires v.second > high || q == |h| || h[q].first > SafeNext(high, lim)
    ensures IsUnion(Splice(h, p, v, q), h, low, high, lim)
  {
    SpliceCanonical(h, lim, p, v, q, low, high);
    hide Canonical, Splice;
    forall x ensures Holds(Splice(h, p, v, q), x) <==> Holds(h, x) || low <= x <= high {
      SpliceHolds(h, p, v, q, x);
      HoldsInParts(h, p, q, x);
    }
  }

  /** The absorbing loop of add(), from the turn that looks at the interval after `base`. */
  function Absorbed(h: seq<Interval>, base: nat, high: int, lim: Limits): seq<Interval>
    requires base < |h|
    decreases |h|
  {
    if base + 1 == |h| || h[base + 1].first > SafeNext(high, lim) then h
    else if h[base + 1].second > high then
      h[base := Interval(h[base].first, h[base + 1].second)][..base + 1] + h[base + 2..]
    else
      Absorbed(h[..base + 1] + h[base + 2..], base, high, lim)
  }

  lemma AbsorbedStep(h: seq<Interval>, lim: Limits, p: nat, v: Interval, q: nat, high: int)
    requires p <= q <= |h|
    ensures Absorbed(Splice(h, p, v, q), p, high, lim) ==
            if q == |h| || h[q].first > SafeNext(high, lim) then Splice(h, p, v, q)
            else if h[q].second > high then Splice(h, p, Interval(v.first, h[q].second), q + 1)
            else Absorbed(Splice(h, p, v, q + 1), p, high, lim)
  {
    var s := Splice(h, p, v, q);
    if q < |h| {
      assert s[p + 1] == h[q];
      var w := Interval(v.first, h[q].second);
      assert s[p := w][..p + 1] + s[p + 2..] == Splice(h, p, w, q + 1);
      assert s[..p + 1] + s[p + 2..] == Splice(h, p, v, q + 1);
    }
  }

  lemma {:induction false} AbsorbedIsUnion(h: seq<Interval>, lim: Limits, p: nat, v: Interval, q: nat,
                                           low: int, high: int)
    requires Canonical(h, lim) && Merging(h, lim, p, v, q, low, high)
    ensures IsUnion(Absorbed(Splice(h, p, v, q), p, high, lim), h, low, high, lim)
    decreases |h| - q
  {
    hide Canonical, Absorbed, IsUnion;
    AbsorbedStep(h, lim, p, v, q, high);
    if q == |h| || h[q].first > SafeNext(high, lim) {
      MergeDone(h, lim, p, v, q, low, high);
    } else {
      MergeNext(h, lim, p, v, q, low, high);
      if h[q].second > high {
        MergeDone(h, lim, p, Interval(v.first, h[q].second), q + 1, low, high);
      } else {
        AbsorbedIsUnion(h, lim, p, v, q + 1, low, high);
      }
    }
  }

  /** The iterator both add() and remove() start from: max(itor->first) <= low. */
  function Start(h: seq<Interval>, low: int): nat
  {
    var i := LowerBound(h, low);
    if (i == |h| || h[i].first != low) && i != 0 then i - 1 else i
  }

  predicate Detached(h: seq<Interval>, low: int, lim: Limits)
  {
    var i := Start(h, low);
    i >= |h| || h[i].first > low || SafeNext(h[i].second, lim) < low
  }

  lemma NothingMergedYet(h: seq<Interval>, lim: Limits, low: int, high: int)
    requires Canonical(h, lim) && lim.min <= low <= high <= lim.max && Detached(h, low, lim)
    ensures var p := LowerBound(h, low); Merging(h, lim, p, Interval(low, high), p, low, high)
  {
    GapAt(h, lim, low);
    hide Detached, LowerBound, SafeNext;
    StartMerging(h, lim, LowerBound(h, low), low, high);
  }

  lemma StartMerging(h: seq<Interval>, lim: Limits, p: nat, low: int, high: int)
    requires Canonical(h, lim) && lim.min <= low <= high <= lim.max && p <= |h|
    requires (p > 0 ==> h[p - 1].second + 1 < low) && (p < |h| ==> low < h[p].first)
    ensures Merging(h, lim, p, Interval(low, high), p, low, high)
  {
    forall x ensures !Holds(h[p..p], x) {
      assert h[p..p] == [];
    }
    hide Holds;
    forall j | p <= j < |h| ensures low <= h[j].first {
      assert h[p].first <= h[j].first;
    }
    hide Canonical;
  }

  lemma GapAt(h: seq<Interval>, lim: Limits, low: int)
    requires Canonical(h, lim) && lim.min <= low <= lim.max && Detached(h, low, lim)
    ensures var p := LowerBound(h, low);
            p <= |h| && (p > 0 ==> h[p - 1].second + 1 < low) && (p < |h| ==> low < h[p].first)
  {
  }

  /** A new interval goes to its place in key order without touching its left neighbour. */
  lemma SeedFresh(h: seq<Interval>, lim: Limits, low: int, high: int)
    requires Canonical(h, lim) && lim.min <= low <= high <= lim.max && Detached(h, low, lim)
    ensures var p := LowerBound(h, low);
            IsUnion(Absorbed(Splice(h, p, Interval(low, high), p), p, high, lim), h, low, high, lim)
  {
    hide Detached, Start, LowerBound, Merging, Canonical, Absorbed, IsUnion, Splice;
    var p := LowerBound(h, low);
    NothingMergedYet(h, lim, low, high);
    AbsorbedIsUnion(h, lim, p, Interval(low, high), p, low, high);
  }

  /** The interval found at the start absorbs [low, high]. */
  lemma SeedExtend(h: seq<Interval>, lim: Limits, p: nat, low: int, high: int)
    requires Canonical(h, lim) && p < |h| && lim.min <= low <= high <= lim.max
    requires h[p].first <= low <= SafeNext(h[p].second, lim)
    ensures var v := Interval(h[p].first, if h[p].second < high then high else h[p].second);
            IsUnion(Absorbed(h[p := v], p, high, lim), h, low, high, lim)
  {
    var v := Interval(h[p].first, if h[p].second < high then high else h[p].second);
    assert Merging(h, lim, p, v, p + 1, low, high) by {
      assert h[p..p + 1] == [h[p]];
      forall x ensures Holds([h[p]], x) <==> Covers(h[p], x) {
        HoldsOneOrTwo(h[p], h[p], x);
      }
    }
    AbsorbedIsUnion(h, lim, p, v, p + 1, low, high);
    assert h[p := v] == Splice(h, p, v, p + 1);
  }

  // ---------------------------------------------------------------- remove: what its loop keeps

  /** Every integer of h outside [low, high] is still held and nothing new is. */
  ghost predicate Shrinking(h: seq<Interval>, now: seq<Interval>, low: int, high: int)
  {
    forall x :: (Holds(now, x) ==> Holds(h, x)) && (Holds(h, x) && !(low <= x <= high) ==> Holds(now, x))
  }

  /** h with interval k replaced by `parts`. */
  function Replaced(h: seq<Interval>, k: nat, parts: seq<Interval>): seq<Interval>
    requires k < |h|
  {
    h[..k] + parts + h[k + 1..]
  }

  lemma ShrinkOne(h: seq<Interval>, now: seq<Interval>, k: nat, parts: seq<Interval>, low: int, high: int)
    requires Shrinking(h, now, low, high) && k < |now|
    requires forall x :: Holds(parts, x) <==> Covers(now[k], x) && !(low <= x <= high)
    ensures Shrinking(h, Replaced(now, k, parts), low, high)
  {
    var after := Replaced(now, k, parts);
    forall x
      ensures Holds(after, x) ==> Holds(h, x)
      ensures Holds(h, x) && !(low <= x <= high) ==> Holds(after, x)
    {
      HoldsInParts(now, k, k + 1, x);
      assert now[k..k + 1] == [now[k]];
      assert Holds([now[k]], x) <==> Covers(now[k], x) by {
        if Covers(now[k], x) { assert Covers([now[k]][0], x); }
      }
      HoldsInParts(after, k, k + |parts|, x);
      assert after[..k] == now[..k] && after[k..k + |parts|] == parts && after[k + |parts|..] == now[k + 1..];
    }
  }

  lemma HoldsOneOrTwo(a: Interval, b: Interval, x: int)
    ensures Holds([a], x) <==> Covers(a, x)
    ensures Holds([a, b], x) <==> Covers(a, x) || Covers(b, x)
  {
    assert [a][0] == a && [a, b][0] == a && [a, b][1] == b;
  }

  ghost predicate AllAbove(h: seq<Interval>, k: nat, low: int, lim: Limits)
  {
    forall j :: k <= j < |h| ==> h[j].second <= lim.max && (k < j ==> h[j].first > low)
  }

  /** The carving loop of remove(), from the turn that looks at interval k. */
  ghost function Carved(h: seq<Interval>, k: nat, low: int, high: int, lim: Limits): seq<Interval>
    requires k <= |h| && AllAbove(h, k, low, lim) && low <= high
    decreases k < |h| && h[k].first < low <= h[k].second, |h| - k
  {
    if k == |h| || h[k].first >= SafeNext(high, lim) then h
    else if h[k].first >= low then
      if h[k].second <= high then Carved(h[..k] + h[k + 1..], k, low, high, lim)
      else Replaced(h, k, [Interval(SafeNext(high, lim), h[k].second)])
    else if h[k].second < low then Carved(h, k + 1, low, high, lim)
    else if h[k].second <= high then Carved(h[k := Interval(h[k].first, low - 1)], k, low, high, lim)
    else
      var parts := [Interval(h[k].first, low - 1), Interval(SafeNext(high, lim), h[k].second)];
      Carved(Replaced(h, k, parts), k, low, high, lim)
  }

  /** What every turn of the carving loop keeps, h being the holder before the call. */
  ghost predicate Carving(h: seq<Interval>, now: seq<Interval>, k: nat, low: int, high: int, lim: Limits)
  {
    && lim.min <= low <= high <= lim.max
    && Canonical(now, lim) && Shrinking(h, now, low, high)
    && k <= |now| && AllAbove(now, k, low, lim)
    && (forall j :: 0 <= j < k ==> now[j].second < low)
    && (high == lim.max ==> LoneMax(now, lim) == LoneMax(h, lim))
  }

  ghost predicate LoneMax(h: seq<Interval>, lim: Limits)
  {
    |h| > 0 && h[|h| - 1].first == lim.max
  }

  lemma CanonicalWithout(h: seq<Interval>, k: nat, lim: Limits)
    requires Canonical(h, lim) && k < |h|
    ensures Canonical(h[..k] + h[k + 1..], lim)
  {
  }

  lemma CarveErase(h: seq<Interval>, now: seq<Interval>, k: nat, low: int, high: int, lim: Limits)
    requires Carving(h, now, k, low, high, lim) && k < |now|
    requires low <= now[k].first < SafeNext(high, lim) && now[k].second <= high
    ensures Carving(h, now[..k] + now[k + 1..], k, low, high, lim)
  {
    var after := now[..k] + now[k + 1..];
    assert Shrinking(h, after, low, high) by {
      ShrinkOne(h, now, k, [], low, high);
      assert Replaced(now, k, []) == after;
    }
    CanonicalWithout(now, k, lim);
    assert forall j :: 0 <= j < k ==> after[j] == now[j];
    assert forall j :: k <= j < |after| ==> after[j] == now[j + 1];
  }

  lemma CarveTrim(h: seq<Interval>, now: seq<Interval>, k: nat, low: int, high: int, lim: Limits)
    requires Carving(h, now, k, low, high, lim) && k < |now|
    requires now[k].first < low <= now[k].second <= high
    ensures Carving(h, now[k := Interval(now[k].first, low - 1)], k, low, high, lim)
  {
    var v := Interval(now[k].first, low - 1);
    forall x { HoldsOneOrTwo(v, v, x); }
    ShrinkOne(h, now, k, [v], low, high);
    assert Replaced(now, k, [v]) == now[k := v];
  }

  lemma CarveSplit(h: seq<Interval>, now: seq<Interval>, k: nat, low: int, high: int, lim: Limits)
    requires Carving(h, now, k, low, high, lim) && k < |now|
    requires now[k].first < low && high < now[k].second
    ensures var parts := [Interval(now[k].first, low - 1), Interval(high + 1, now[k].second)];
            Carving(h, Replaced(now, k, parts), k, low, high, lim)
  {
    var a, b := Interval(now[k].first, low - 1), Interval(high + 1, now[k].second);
    forall x { HoldsOneOrTwo(a, b, x); }
    ShrinkOne(h, now, k, [a, b], low, high);
    CanonicalSplit(now, k, low, high, lim);
    hide Shrinking, Canonical;
    var after := Replaced(now, k, [a, b]);
    assert forall j :: 0 <= j < k ==> after[j] == now[j];
    assert forall j :: k + 1 < j < |after| ==> after[j] == now[j - 1];
  }

  lemma CanonicalSplit(h: seq<Interval>, k: nat, low: int, high: int, lim: Limits)
    requires Canonical(h, lim) && k < |h| && low <= high && h[k].first < low && high < h[k].second
    ensures Canonical(Replaced(h, k, [Interval(h[k].first, low - 1), Interval(high + 1, h[k].second)]), lim)
  {
    var a, b := Interval(h[k].first, low - 1), Interval(high + 1, h[k].second);
    var after := Replaced(h, k, [a, b]);
    forall i | 0 <= i < |after|
      ensures var p := if i <= k then i else i - 1; h[p].first <= after[i].first <= after[i].second <= h[p].second
    {
      assert after[i] == if i < k then h[i] else if i == k then a else if i == k + 1 then b else h[i - 1];
    }
    assert after[k] == a && after[k + 1] == b;
    hide Replaced;
    forall i, j | 0 <= i < j < |after| ensures after[i].second + 1 < after[j].first {
      var p, q := if i <= k then i else i - 1, if j <= k then j else j - 1;
      assert p < q ==> h[p].second + 1 < h[q].first;
    }
  }

  lemma CarveLast(h: seq<Interval>, now: seq<Interval>, k: nat, low: int, high: int, lim: Limits)
    requires Carving(h, now, k, low, high, lim) && k < |now|
    requires low <= now[k].first <= high < now[k].second
    ensures Carving(h, Replaced(now, k, [Interval(high + 1, now[k].second)]), k, low, high, lim)
  {
    var v := Interval(high + 1, now[k].second);
    forall x { HoldsOneOrTwo(v, v, x); }
    ShrinkOne(h, now, k, [v], low, high);
  }

  lemma {:induction false} CarvedIsRemoved(h: seq<Interval>, now: seq<Interval>, k: nat,
                                           low: int, high: int, lim: Limits)
    requires Canonical(h, lim) && Carving(h, now, k, low, high, lim)
    ensures var r := Carved(now, k, low, high, lim);
            Canonical(r, lim) && Elements(r, lim) == Removed(Elements(h, lim), low, high, lim)
    decreases k < |now| && now[k].first < low <= now[k].second, |now| - k
  {
    if k == |now| || now[k].first >= SafeNext(high, lim) {
      RemoveDone(h, now, lim, k, low, high);
    } else if now[k].first >= low {
      if now[k].second <= high {
        CarveErase(h, now, k, low, high, lim);
        CarvedIsRemoved(h, now[..k] + now[k + 1..], k, low, high, lim);
      } else {
        CarveLast(h, now, k, low, high, lim);
        RemoveDone(h, Replaced(now, k, [Interval(high + 1, now[k].second)]), lim, k, low, high);
      }
    } else if now[k].second < low {
      CarvedIsRemoved(h, now, k + 1, low, high, lim);
    } else if now[k].second <= high {
      CarveTrim(h, now, k, low, high, lim);
      CarvedIsRemoved(h, now[k := Interval(now[k].first, low - 1)], k, low, high, lim);
    } else {
      CarveSplit(h, now, k, low, high, lim);
      var parts := [Interval(now[k].first, low - 1), Interval(high + 1, now[k].second)];
      CarvedIsRemoved(h, Replaced(now, k, parts), k, low, high, lim);
    }
  }

  lemma CarveStart(h: seq<Interval>, lim: Limits, low: int, high: int)
    requires Canonical(h, lim) && lim.min <= low <= high <= lim.max
    ensures var k := Start(h, low);
            && k <= |h| && AllAbove(h, k, low, lim)
            && var r := Carved(h, k, low, high, lim);
               Canonical(r, lim) && Elements(r, lim) == Removed(Elements(h, lim), low, high, lim)
  {
    var k := Start(h, low);
    forall j | 0 <= j < k ensures h[j].second < low {
      assert h[j].second + 1 < h[k].first;
    }
    CarvedIsRemoved(h, h, k, low, high, lim);
  }

  lemma RemoveDone(h: seq<Interval>, now: seq<Interval>, lim: Limits, k: nat, low: int, high: int)
    requires Canonical(h, lim) && Carving(h, now, k, low, high, lim)
    requires k == |now| || now[k].first >= SafeNext(high, lim)
    ensures Elements(now, lim) == Removed(Elements(h, lim), low, high, lim)
  {
    var s := Elements(h, lim);
    assert LoneMax(h, lim) <==> (lim.max in s && lim.max - 1 !in s) by {
      LastAlone(h, lim);
    }
    LastAlone(now, lim);
    forall x | lim.min <= x <= lim.max
      ensures Holds(now, x) <==> x in Removed(s, low, high, lim)
    {
      if low <= x <= high && Holds(now, x) {
        var i :| 0 <= i < |now| && Covers(now[i], x);
        assert i >= k;
        assert now[i].first >= now[k].first;
        assert x == high == lim.max == now[i].first;
      }
    }
  }

  /** The last interval starts at max exactly when max is held and max - 1 is not. */
  lemma LastAlone(h: seq<Interval>, lim: Limits)
    requires Canonical(h, lim)
    ensures LoneMax(h, lim) <==> (lim.min <= lim.max && Holds(h, lim.max) && !Holds(h, lim.max - 1))
  {
    if |h| > 0 && h[|h| - 1].first == lim.max {
      assert Covers(h[|h| - 1], lim.max);
    }
    if lim.min <= lim.max && Holds(h, lim.max) && !Holds(h, lim.max - 1) {
      var i :| 0 <= i < |h| && Covers(h[i], lim.max);
      assert i == |h| - 1;
      assert !Covers(h[i], lim.max - 1);
    }
  }

  // ---------------------------------------------------------------- sets of intervals

  lemma ElementsGrow(h: seq<Interval>, i: nat, lim: Limits)
    requires Canonical(h, lim) && i < |h|
    ensures Elements(h[..i + 1], lim) == Elements(h[..i], lim) + Range(h[i].first, h[i].second)
  {
    forall x ensures Holds(h[..i + 1], x) <==> Holds(h[..i], x) || Covers(h[i], x) {
      HoldsInParts(h[..i + 1], i, i, x);
      assert h[..i + 1][..i] == h[..i] && h[..i + 1][i..] == [h[i]];
      HoldsOneOrTwo(h[i], h[i], x);
    }
  }

  ghost function RemovedPrefix(s: set<int>, h: seq<Interval>, lim: Limits): set<int>
  {
    s - Elements(h, lim) + if lim.max in Elements(h, lim) then Survivor(s, lim.max, lim) else {}
  }

  lemma RemovedPrefixGrows(s: set<int>, h: seq<Interval>, i: nat, lim: Limits)
    requires Canonical(h, lim) && i < |h| && lim.min <= lim.max
    ensures Removed(RemovedPrefix(s, h[..i], lim), h[i].first, h[i].second, lim) == RemovedPrefix(s, h[..i + 1], lim)
  {
    ElementsGrow(h, i, lim);
    var e := Elements(h[..i], lim);
    assert lim.max !in e && (h[i].second == lim.max ==> lim.max - 1 !in e) by {
      forall x | x in e ensures x + 1 < h[i].first {
        var j :| 0 <= j < i && Covers(h[..i][j], x);
        assert h[j].second + 1 < h[i].first;
      }
    }
  }

  // ---------------------------------------------------------------- queries

  /** Only the interval before lower_bound can hold a value that starts no interval. */
  lemma OnlyNeighbour(h: seq<Interval>, lim: Limits, i: nat, value: int)
    requires Canonical(h, lim) && 0 < i <= |h| && lim.min <= value <= lim.max
    requires h[i - 1].first < value && (i < |h| ==> value < h[i].first)
    ensures value in Elements(h, lim) <==> value <= h[i - 1].second
  {
    if value <= h[i - 1].second {
      assert Covers(h[i - 1], value);
    }
  }

  /** The status check_presence() computes, with lower_bound at i. */
  function Presence(h: seq<Interval>, i: nat, low: int, high: int): CheckStatus
    requires i <= |h|
  {
    if i < |h| && h[i].first == low then
      if h[i].second >= high then CS_ALL else CS_SOME
    else if i < |h| && h[i].first <= high then CS_SOME
    else if i == 0 || h[i - 1].second < low then CS_NONE
    else if h[i - 1].second >= high then CS_ALL else CS_SOME
  }

  lemma PresenceIsExact(h: seq<Interval>, lim: Limits, low: int, high: int)
    requires Canonical(h, lim) && lim.min <= low <= high <= lim.max
    ensures var status := Presence(h, LowerBound(h, low), low, high);
            && (status == CS_ALL <==> Range(low, high) <= Elements(h, lim))
            && (status == CS_NONE <==> Range(low, high) !! Elements(h, lim))
  {
    var i := LowerBound(h, low);
    hide LowerBound;
    if i < |h| && h[i].first == low {
      StartsAt(h, lim, i, low, high);
    } else if i == 0 {
      NothingBefore(h, lim, low, high);
    } else {
      OnlyNeighbour(h, lim, i, low);
      if h[i - 1].second >= low {
        StartsAt(h, lim, i - 1, low, high);
      } else if i == |h| || h[i].first > high {
        forall x | low <= x <= high ensures x !in Elements(h, lim) {
          OnlyNeighbour(h, lim, i, x);
        }
      } else {
        assert Covers(h[i], h[i].first);
        assert h[i].first in Range(low, high) && low in Range(low, high);
      }
    }
  }

  /** low is held by interval i. */
  lemma StartsAt(h: seq<Interval>, lim: Limits, i: nat, low: int, high: int)
    requires Canonical(h, lim) && i < |h| && Covers(h[i], low) && lim.min <= low <= high <= lim.max
    ensures Range(low, high) <= Elements(h, lim) <==> high <= h[i].second
    ensures !(Range(low, high) !! Elements(h, lim))
  {
    assert low in Range(low, high);
    if high <= h[i].second {
      forall x | low <= x <= high ensures x in Elements(h, lim) {
        assert Covers(h[i], x);
      }
    } else {
      var x := h[i].second + 1;
      assert x in Range(low, high) && !Holds(h, x);
    }
  }

  lemma NothingBefore(h: seq<Interval>, lim: Limits, low: int, high: int)
    requires Canonical(h, lim) && lim.min <= low <= high <= lim.max
    requires |h| > 0 ==> low < h[0].first
    ensures !(Range(low, high) <= Elements(h, lim))
    ensures Range(low, high) !! Elements(h, lim) <==> |h| == 0 || high < h[0].first
  {
    assert low in Range(low, high);
    if |h| > 0 && h[0].first <= high {
      assert Covers(h[0], h[0].first);
      assert h[0].first in Range(low, high);
    }
  }

  // ---------------------------------------------------------------- the class

  class CompressedSet {
    const lim: Limits
    var holder: seq<Interval>
    var lastFound: Memo

    ghost predicate Valid()
      reads this
    {
      lim.min <= lim.max && Canonical(holder, lim) && (lastFound.At? ==> lastFound.index < |holder|)
    }

    ghost function Contents(): set<int>
      reads this
    {
      Elements(holder, lim)
    }

    constructor (lim: Limits)
      requires lim.min <= lim.max
      ensures Valid() && Contents() == {} && this.lim == lim
    {
      this.lim := lim;
      holder := [];
      lastFound := End;
    }

    /** Inserting new element or modifying existing */
    method Seed(itor: nat, low: int, high: int) returns (base: nat)
      requires Canonical(holder, lim) && lim.min <= low <= high <= lim.max && itor == Start(holder, low)
      modifies this`holder
      ensures base < |holder|
      ensures IsUnion(Absorbed(holder, base, high, lim), old(holder), low, high, lim)
    {
      if itor == |holder| || holder[itor].first > low || SafeNext(holder[itor].second, lim) < low {
        SeedFresh(holder, lim, low, high);
        base := LowerBound(holder, low);
        holder := Splice(holder, base, Interval(low, high), base);
      } else {
        SeedExtend(holder, lim, itor, low, high);
        base := itor;
        if holder[itor].second < high {
          holder := holder[itor := Interval(holder[itor].first, high)];
        } else {
          assert holder == holder[itor := holder[itor]];
        }
      }
    }

    method Add(low: int, high: int)
      requires Valid() && lim.min <= low <= lim.max && lim.min <= high <= lim.max
      modifies this
      ensures Valid()
      ensures Contents() == old(Contents()) + Range(low, high)
    {
      hide Canonical, Elements, IsUnion, LowerBound;
      if low > high {
        assert Range(low, high) == {};
        return;
      }
      lastFound := End;

      var itor: nat := LowerBound(holder, low);
      if (itor == |holder| || holder[itor].first != low) && itor != 0 {
        itor := itor - 1;
      }
      ghost var h := holder;
      itor := Seed(itor, low, high);

      // Removing overlapped
      var base := itor;
      var highNext := SafeNext(high, lim);
      ghost var target := Absorbed(holder, base, high, lim);
      itor := itor + 1;
      while itor < |holder| && holder[itor].first <= highNext
        invariant itor == base + 1 <= |holder| && lastFound == End
        invariant Absorbed(holder, base, high, lim) == target
        decreases |holder|
      {
        if holder[itor].second > high {
          holder := holder[base := Interval(holder[base].first, holder[itor].second)];
          holder := holder[..itor] + holder[itor + 1..];
          assert holder == target;
          break;
        }
        holder := holder[..itor] + holder[itor + 1..];
      }
      assert holder == target;
      UnionOfElements(holder, h, low, high, lim);
    }

    /** The loop of remove(), entered with `start`. */
    method Carve(start: nat, low: int, high: int)
      requires start <= |holder| && AllAbove(holder, start, low, lim) && low <= high <= lim.max
      modifies this`holder
      ensures holder == Carved(old(holder), start, low, high, lim)
    {
      ghost var target := Carved(holder, start, low, high, lim);
      var itor: nat, highNext := start, SafeNext(high, lim);
      while itor < |holder| && holder[itor].first < highNext
        invariant itor <= |holder| && AllAbove(holder, itor, low, lim)
        invariant Carved(holder, itor, low, high, lim) == target
        decreases itor < |holder| && holder[itor].first < low <= holder[itor].second, |holder| - itor
      {
        var first, second := holder[itor].first, holder[itor].second;
        if first >= low {
          if second <= high {
            holder := holder[..itor] + holder[itor + 1..];
            continue;
          }
          holder := Replaced(holder, itor, [Interval(highNext, second)]);
          return;
        }
        if second < low {
          itor := itor + 1;
          continue;
        }
        if second <= high {
          holder := holder[itor := Interval(first, low - 1)];
          continue;
        }
        holder := Replaced(holder, itor, [Interval(first, low - 1), Interval(highNext, second)]);
      }
    }

    method Remove(low: int, high: int)
      requires Valid() && lim.min <= low <= lim.max && lim.min <= high <= lim.max
      modifies this
      ensures Valid()
      ensures Contents() == Removed(old(Contents()), low, high, lim)
    {
      if low > high {
        return;
      }
      lastFound := End;
      var itor: nat := LowerBound(holder, low);
      if (itor == |holder| || holder[itor].first != low) && itor != 0 {
        itor := itor - 1;
      }
      CarveStart(holder, lim, low, high);
      Carve(itor, low, high);
    }

    /** Adds every interval of another set. */
    method AddSet(cset: CompressedSet)
      requires Valid() && cset.Valid() && cset.lim == lim
      modifies this
      ensures Valid()
      ensures Contents() == old(Contents()) + old(cset.Contents())
    {
      if this == cset {
        return;
      }
      var i := 0;
      while i < |cset.holder|
        invariant i <= |cset.holder| && Valid()
        invariant Contents() == old(Contents()) + Elements(cset.holder[..i], lim)
      {
        var v := cset.holder[i];
        ElementsGrow(cset.holder, i, lim);
        Add(v.first, v.second);
        i := i + 1;
      }
      assert cset.holder[..i] == cset.holder;
    }

    /** Removes every interval of another set; the set itself is left alone by remove(*this). */
    method RemoveSet(cset: CompressedSet)
      requires Valid() && cset.Valid() && cset.lim == lim
      modifies this
      ensures Valid()
      ensures this == cset ==> Contents() == old(Contents())
      ensures this != cset ==> Contents() == old(Contents()) - cset.Contents() +
                               if lim.max in cset.Contents() then Survivor(old(Contents()), lim.max, lim) else {}
    {
      if this == cset {
        return;
      }
      var i := 0;
      while i < |cset.holder|
        invariant i <= |cset.holder| && Valid()
        invariant Contents() == RemovedPrefix(old(Contents()), cset.holder[..i], lim)
      {
        var v := cset.holder[i];
        RemovedPrefixGrows(old(Contents()), cset.holder, i, lim);
        Remove(v.first, v.second);
        i := i + 1;
      }
      assert cset.holder[..i] == cset.holder;
    }

    method Clear()
      requires lim.min <= lim.max
      modifies this
      ensures Valid() && Contents() == {}
    {
      holder := [];
      lastFound := End;
    }

    /** Membership; the memo moves, the set does not. */
    method Belongs(value: int) returns (found: bool)
      requires Valid() && lim.min <= value <= lim.max
      modifies this`lastFound
      ensures Valid()
      ensures found <==> value in Contents()
    {
      if lastFound.At? && holder[lastFound.index].first <= value && holder[lastFound.index].second >= value {
        assert Covers(holder[lastFound.index], value);
        return true;
      }
      var i := LowerBound(holder, value);
      lastFound := if i < |holder| then At(i) else End;
      if lastFound.At? && holder[i].first == value {
        assert Covers(holder[i], value);
        return true;
      }
      if i == 0 {
        return false;
      }
      lastFound := At(i - 1);
      OnlyNeighbour(holder, lim, i, value);
      return value <= holder[i - 1].second;
    }

    method CheckPresence(low: int, high: int) returns (status: CheckStatus)
      requires Valid() && lim.min <= low <= lim.max && lim.min <= high <= lim.max
      ensures low > high ==> status == CS_NONE
      ensures low <= high ==> (status == CS_ALL <==> Range(low, high) <= Contents())
      ensures low <= high ==> (status == CS_NONE <==> Range(low, high) !! Contents())
    {
      if low > high {
        return CS_NONE;
      }
      PresenceIsExact(holder, lim, low, high);
      var i := LowerBound(holder, low);
      if i < |holder| {
        if holder[i].first == low {
          return if holder[i].second >= high then CS_ALL else CS_SOME;
        }
        if holder[i].first <= high {
          return CS_SOME;
        }
      }
      if i == 0 {
        return CS_NONE;
      }
      if holder[i - 1].second < low {
        return CS_NONE;
      }
      return if holder[i - 1].second >= high then CS_ALL else CS_SOME;
    }
  }

  // ---------------------------------------------------------------- whole runs

  datatype Call =
    | AddRange(low: int, high: int)
    | RemoveRange(low: int, high: int)
    | ClearAll
    | AskBelongs(value: int)
    | AskPresence(low: int, high: int)

  datatype Reply = Yes | No | Status(status: CheckStatus)

  /** The arguments are values of the Integer type. */
  predicate InLimits(call: Call, lim: Limits)
  {
    match call
    case ClearAll => true
    case AskBelongs(v) => lim.min <= v <= lim.max
    case _ => lim.min <= call.low <= lim.max && lim.min <= call.high <= lim.max
  }

  function PlainPresence(s: set<int>, low: int, high: int): CheckStatus
  {
    if low > high || Range(low, high) !! s then CS_NONE
    else if Range(low, high) <= s then CS_ALL
    else CS_SOME
  }

  /** The replies a plain set of integers would give to the same calls. */
  function PlainReplies(s: set<int>, calls: seq<Call>, lim: Limits): seq<Reply>
    decreases |calls|
  {
    if calls == [] then [] else
      match calls[0]
      case AddRange(low, high) => PlainReplies(s + Range(low, high), calls[1..], lim)
      case RemoveRange(low, high) => PlainReplies(Removed(s, low, high, lim), calls[1..], lim)
      case ClearAll => PlainReplies({}, calls[1..], lim)
      case AskBelongs(v) => [if v in s then Yes else No] + PlainReplies(s, calls[1..], lim)
      case AskPresence(low, high) => [Status(PlainPresence(s, low, high))] + PlainReplies(s, calls[1..], lim)
  }

  method Serve(cs: CompressedSet, call: Call) returns (replies: seq<Reply>)
    requires cs.Valid() && InLimits(call, cs.lim)
    modifies cs
    ensures cs.Valid()
    ensures forall rest ::
              PlainReplies(old(cs.Contents()), [call] + rest, cs.lim) ==
              replies + PlainReplies(cs.Contents(), rest, cs.lim)
  {
    replies := [];
    match call {
      case AddRange(low, high) => cs.Add(low, high);
      case RemoveRange(low, high) => cs.Remove(low, high);
      case ClearAll => cs.Clear();
      case AskBelongs(v) =>
        var found := cs.Belongs(v);
        replies := [if found then Yes else No];
      case AskPresence(low, high) =>
        var status := cs.CheckPresence(low, high);
        replies := [Status(status)];
    }
    forall rest
      ensures PlainReplies(old(cs.Contents()), [call] + rest, cs.lim) ==
              replies + PlainReplies(cs.Contents(), rest, cs.lim)
    {
      assert ([call] + rest)[1..] == rest;
    }
  }

  /** Over any run of calls, memo included, the class answers as the plain set does. */
  method Replay(lim: Limits, calls: seq<Call>) returns (replies: seq<Reply>)
    requires lim.min <= lim.max
    requires forall i :: 0 <= i < |calls| ==> InLimits(calls[i], lim)
    ensures replies == PlainReplies({}, calls, lim)
  {
    var cs := new CompressedSet(lim);
    replies := [];
    assert forall s: set<int> :: PlainReplies(s, [], lim) == [];
    hide PlainReplies, Elements, Canonical;
    var i := 0;
    while i < |calls|
      invariant i <= |calls| && cs.Valid() && cs.lim == lim && fresh(cs)
      invariant PlainReplies({}, calls, lim) == replies + PlainReplies(cs.Contents(), calls[i..], lim)
    {
      assert calls[i..] == [calls[i]] + calls[i + 1..];
      var more := Serve(cs, calls[i]);
      replies := replies + more;
      i := i + 1;
    }
  }

  /** The run that shows it: the maximum alone is added and removed, and still belongs. */
  lemma LoneMaximumStays(lim: Limits)
    requires lim.min <= lim.max
    ensures var m := lim.max;
            PlainReplies({}, [AddRange(m, m), RemoveRange(m, m), AskBelongs(m)], lim) == [Yes]
  {
    var m := lim.max;
    var calls := [AddRange(m, m), RemoveRange(m, m), AskBelongs(m)];
    assert calls[1..] == [RemoveRange(m, m), AskBelongs(m)] && calls[1..][1..] == [AskBelongs(m)];
    assert {} + Range(m, m) == {m} && Removed({m}, m, m, lim) == {m};
    hide Range, Removed;
    assert [AskBelongs(m)][1..] == [];
    assert PlainReplies({m}, [AskBelongs(m)], lim) == [Yes];
    assert PlainReplies({m}, calls[1..], lim) == [Yes];
  }
}

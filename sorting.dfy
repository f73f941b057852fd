/**
 * The in-place sort of a group's candidate list, ascending by ratio. The
 * sort the page relies on is stable, so candidates with equal ratios keep
 * the order in which they were collected.
 */
module Sorting {
  import opened CandidateList

  /** Ascending by ratio. */
  predicate SortedByRatio(s: seq<Candidate>) {
    forall i, j :: 0 <= i < j < |s| ==> s[i].ratio <= s[j].ratio
  }

  /**
   * Inserts x into a list sorted by ratio, after every element whose ratio
   * does not exceed x's: the element walks in from the right end.
   */
  function InsertByRatio(sorted: seq<Candidate>, x: Candidate): (r: seq<Candidate>)
    ensures |r| == |sorted| + 1
  {
    if sorted == [] then [x]
    else
      var n := |sorted| - 1;
      if sorted[n].ratio > x.ratio then InsertByRatio(sorted[..n], x) + [sorted[n]]
      else sorted + [x]
  }

  /** Insertion sort by ratio, taking the elements in list order. */
  function SortByRatio(s: seq<Candidate>): (r: seq<Candidate>)
    ensures |r| == |s|
  {
    if s == [] then []
    else
      var n := |s| - 1;
      InsertByRatio(SortByRatio(s[..n]), s[n])
  }

  /** The candidates whose ratio is q, in list order. */
  function WithRatio(s: seq<Candidate>, q: real): seq<Candidate> {
    if s == [] then []
    else
      var n := |s| - 1;
      WithRatio(s[..n], q) + (if s[n].ratio == q then [s[n]] else [])
  }

  /** Inserting adds exactly x. */
  lemma {:induction false} InsertPermutes(sorted: seq<Candidate>, x: Candidate)
    ensures multiset(InsertByRatio(sorted, x)) == multiset(sorted) + multiset{x}
  {
    if sorted != [] {
      var n := |sorted| - 1;
      assert sorted == sorted[..n] + [sorted[n]];
      if sorted[n].ratio > x.ratio {
        InsertPermutes(sorted[..n], x);
      }
    }
  }

  /** The sort's result is a permutation of its input. */
  lemma {:induction false} SortPermutes(s: seq<Candidate>)
    ensures multiset(SortByRatio(s)) == multiset(s)
  {
    if s != [] {
      var n := |s| - 1;
      assert s == s[..n] + [s[n]];
      SortPermutes(s[..n]);
      InsertPermutes(SortByRatio(s[..n]), s[n]);
    }
  }

  /** A bound on the ratios of the list and of x bounds the ratios after inserting x. */
  lemma {:induction false} InsertBounded(sorted: seq<Candidate>, x: Candidate, b: real)
    requires forall k :: 0 <= k < |sorted| ==> sorted[k].ratio <= b
    requires x.ratio <= b
    ensures forall k :: 0 <= k < |InsertByRatio(sorted, x)| ==> InsertByRatio(sorted, x)[k].ratio <= b
  {
    if sorted != [] {
      var n := |sorted| - 1;
      if sorted[n].ratio > x.ratio {
        InsertBounded(sorted[..n], x, b);
      }
    }
  }

  lemma {:induction false} InsertKeepsSorted(sorted: seq<Candidate>, x: Candidate)
    requires SortedByRatio(sorted)
    ensures SortedByRatio(InsertByRatio(sorted, x))
  {
    if sorted != [] {
      var n := |sorted| - 1;
      var last := sorted[n];
      if last.ratio > x.ratio {
        var init := sorted[..n];
        InsertKeepsSorted(init, x);
        InsertBounded(init, x, last.ratio);
        var r := InsertByRatio(init, x);
        var t := r + [last];
        assert InsertByRatio(sorted, x) == t;
        forall i, j | 0 <= i < j < |t| ensures t[i].ratio <= t[j].ratio {
          if j < |r| {
            assert t[i] == r[i] && t[j] == r[j];
          } else {
            assert t[i] == r[i] && t[j] == last;
          }
        }
      } else {
        var t := sorted + [x];
        assert InsertByRatio(sorted, x) == t;
        forall i, j | 0 <= i < j < |t| ensures t[i].ratio <= t[j].ratio {
          assert t[i] == sorted[i];
        }
      }
    }
  }

  /** The sort's result is ordered by ratio. */
  lemma {:induction false} SortIsSorted(s: seq<Candidate>)
    ensures SortedByRatio(SortByRatio(s))
  {
    if s != [] {
      var n := |s| - 1;
      SortIsSorted(s[..n]);
      InsertKeepsSorted(SortByRatio(s[..n]), s[n]);
    }
  }

  lemma {:induction false} WithRatioAppend(xs: seq<Candidate>, ys: seq<Candidate>, q: real)
    ensures WithRatio(xs + ys, q) == WithRatio(xs, q) + WithRatio(ys, q)
  {
    if ys == [] {
      assert xs + ys == xs;
    } else {
      var n := |ys| - 1;
      assert (xs + ys)[..|xs| + n] == xs + ys[..n];
      WithRatioAppend(xs, ys[..n], q);
    }
  }

  lemma WithRatioSingle(c: Candidate, q: real)
    ensures WithRatio([c], q) == if c.ratio == q then [c] else []
  {
    assert [c][..0] == [];
  }

  lemma {:induction false} InsertStable(sorted: seq<Candidate>, x: Candidate, q: real)
    ensures WithRatio(InsertByRatio(sorted, x), q) == WithRatio(sorted, q) + WithRatio([x], q)
  {
    WithRatioSingle(x, q);
    if sorted == [] {
      assert InsertByRatio(sorted, x) == [x];
    } else {
      var n := |sorted| - 1;
      var init, last := sorted[..n], sorted[n];
      assert sorted == init + [last];
      WithRatioAppend(init, [last], q);
      WithRatioSingle(last, q);
      if last.ratio > x.ratio {
        var r := InsertByRatio(init, x);
        assert InsertByRatio(sorted, x) == r + [last];
        InsertStable(init, x, q);
        WithRatioAppend(r, [last], q);
        var lo, hi := WithRatio([x], q), WithRatio([last], q);
        // x and last cannot both have ratio q, so their parts commute
        assert lo == [] || hi == [];
        calc {
          WithRatio(r + [last], q);
          WithRatio(r, q) + hi;
          (WithRatio(init, q) + lo) + hi;
          (WithRatio(init, q) + hi) + lo;
          WithRatio(sorted, q) + lo;
        }
      } else {
        assert InsertByRatio(sorted, x) == sorted + [x];
        WithRatioAppend(sorted, [x], q);
      }
    }
  }

  /** The sort is stable: for every ratio, the candidates with that ratio keep their relative order. */
  lemma {:induction false} SortIsStable(s: seq<Candidate>, q: real)
    ensures WithRatio(SortByRatio(s), q) == WithRatio(s, q)
  {
    if s != [] {
      var n := |s| - 1;
      SortIsStable(s[..n], q);
      InsertStable(SortByRatio(s[..n]), s[n], q);
      WithRatioSingle(s[n], q);
    }
  }

  /**
   * Where x lands: right after the last element, from the right, whose ratio
   * does not exceed its own, with every larger element after it.
   */
  lemma {:induction false} InsertPosition(t: seq<Candidate>, j: int, x: Candidate)
    requires 0 <= j <= |t| && (j == 0 || t[j - 1].ratio <= x.ratio)
    requires forall k :: j <= k < |t| ==> t[k].ratio > x.ratio
    ensures InsertByRatio(t, x) == t[..j] + [x] + t[j..]
  {
    if j < |t| {
      var n := |t| - 1;
      var init := t[..n];
      assert t[n].ratio > x.ratio;
      assert forall k :: j <= k < |init| ==> init[k] == t[k];
      assert j == 0 || init[j - 1] == t[j - 1];
      InsertPosition(init, j, x);
      assert InsertByRatio(t, x) == InsertByRatio(init, x) + [t[n]];
      assert init[..j] == t[..j];
      assert t[j..] == init[j..] + [t[n]];
    } else {
      assert t[..j] == t;
    }
  }

  /**
   * Shifts the elements of a[..i] whose ratio exceeds x's one place right,
   * from the right end, and returns the gap left where x belongs.
   */
  method ShiftLarger(a: array<Candidate>, i: int, x: Candidate) returns (j: int)
    requires 0 <= i < a.Length
    modifies a
    ensures 0 <= j <= i
    ensures j == 0 || a[j - 1].ratio <= x.ratio
    ensures forall k :: 0 <= k < j ==> a[k] == old(a[k])
    ensures forall k :: j < k <= i ==> a[k] == old(a[k - 1]) && a[k].ratio > x.ratio
    ensures forall k :: j <= k < i ==> old(a[k]).ratio > x.ratio
    ensures forall k :: i < k < a.Length ==> a[k] == old(a[k])
  {
    j := i;
    while j > 0 && a[j - 1].ratio > x.ratio
      invariant 0 <= j <= i
      invariant forall k :: 0 <= k < j ==> a[k] == old(a[k])
      invariant forall k :: j < k <= i ==> a[k] == old(a[k - 1]) && a[k].ratio > x.ratio
      invariant forall k :: j <= k < i ==> old(a[k]).ratio > x.ratio
      invariant forall k :: i < k < a.Length ==> a[k] == old(a[k])
    {
      a[j] := a[j - 1];
      j := j - 1;
    }
  }

  /** Moves a[i] left past every earlier element with a larger ratio: one step of the insertion sort. */
  method InsertAt(a: array<Candidate>, i: int)
    requires 0 <= i < a.Length
    modifies a
    ensures a[..i + 1] == InsertByRatio(old(a[..i]), old(a[i]))
    ensures forall k :: i < k < a.Length ==> a[k] == old(a[k])
  {
    var x := a[i];
    ghost var t := a[..i];
    var j := ShiftLarger(a, i, x);
    a[j] := x;
    ghost var r := t[..j] + [x] + t[j..];
    forall k | 0 <= k <= i ensures a[k] == r[k] {
      if k < j {
        assert r[k] == t[k];
      } else if j < k {
        assert r[k] == t[k - 1];
      }
    }
    assert a[..i + 1] == r;
    assert forall k :: j <= k < |t| ==> t[k].ratio > x.ratio;
    InsertPosition(t, j, x);
  }

  /** Sorts the candidate array in place, ascending by ratio, stable for equal ratios. */
  method SortCandidates(a: array<Candidate>)
    modifies a
    ensures a[..] == SortByRatio(old(a[..]))
  {
    ghost var orig := a[..];
    var i := 0;
    while i < a.Length
      invariant 0 <= i <= a.Length
      invariant a[..i] == SortByRatio(orig[..i])
      invariant forall k :: i <= k < a.Length ==> a[k] == orig[k]
    {
      assert orig[..i + 1][..i] == orig[..i];
      InsertAt(a, i);
      i := i + 1;
    }
    assert orig[..a.Length] == orig;
  }
}

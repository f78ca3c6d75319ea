/** Closed integer intervals and the sorted, merged IntervalSet (Interval.cpp). */
module Intervals {
  import opened Geometry

  /** The closed interval [a, b]. */
  datatype Interval = Interval(a: int, b: int)

  /** Interval::disjoints: closed intervals sharing no integer. */
  predicate Disjoints(i: Interval, o: Interval)
  {
    i.b < o.a || o.b < i.a
  }

  /** Interval::intersects */
  predicate IntervalIntersects(i: Interval, o: Interval)
  {
    !Disjoints(i, o)
  }

  /** Interval::has */
  predicate HasValue(i: Interval, v: int)
  {
    i.a <= v <= i.b
  }

  /** For well-formed intervals, `intersects` means sharing an integer. */
  lemma IntervalIntersectsIffCommonValue(i: Interval, o: Interval)
    requires i.a <= i.b && o.a <= o.b
    ensures IntervalIntersects(i, o) <==> exists v :: HasValue(i, v) && HasValue(o, v)
  {
    if IntervalIntersects(i, o) {
      assert HasValue(i, Max(i.a, o.a)) && HasValue(o, Max(i.a, o.a));
    }
  }

  // ----- Interval::extend ---------------------------------------------------

  /** Interval::extend as written: the lower bound becomes the smaller one, but the
      upper bound ALSO becomes the smaller one. */
  function ExtendAsWritten(i: Interval, o: Interval): (r: Interval)
    requires IntervalIntersects(i, o)
    ensures r.a <= i.a && r.a <= o.a && (r.a == i.a || r.a == o.a)
    ensures r.b <= i.b && r.b <= o.b && (r.b == i.b || r.b == o.b)
  {
    Interval(Min(i.a, o.a), Min(i.b, o.b))
  }

  /** Extending [0,5] by the overlapping [3,10] loses the values 6..10 of the argument. */
  lemma ExtendAsWrittenCounterexample()
    ensures var r := ExtendAsWritten(Interval(0, 5), Interval(3, 10));
      HasValue(Interval(3, 10), 10) && !HasValue(r, 10)
  {}

  /** The evidently intended extension: the hull of two overlapping intervals. */
  function Extend(i: Interval, o: Interval): (r: Interval)
    requires IntervalIntersects(i, o) && i.a <= i.b && o.a <= o.b
    ensures forall v :: HasValue(r, v) <==> HasValue(i, v) || HasValue(o, v)
  {
    Interval(Min(i.a, o.a), Max(i.b, o.b))
  }

  // ----- IntervalSet ----------------------------------------------------------

  /** The IntervalSet invariant: every interval is well formed and the list is sorted
      and strictly separated (an interval ends before the next one starts). */
  predicate Valid(s: seq<Interval>)
  {
    && (forall k :: 0 <= k < |s| ==> s[k].a <= s[k].b)
    && (forall j, k :: 0 <= j < k < |s| ==> s[j].b < s[k].a)
  }

  /** IntervalSet::has */
  predicate Covers(s: seq<Interval>, v: int)
  {
    exists k :: 0 <= k < |s| && HasValue(s[k], v)
  }

  /** IntervalSet::intersects(Interval) */
  predicate SetIntersects(s: seq<Interval>, i: Interval)
  {
    exists k :: 0 <= k < |s| && IntervalIntersects(s[k], i)
  }

  /** First index at or after `k` whose upper bound is >= a (lower_bound on Interval::b). */
  function LowerBoundB(s: seq<Interval>, a: int, k: nat): (idx: nat)
    requires k <= |s|
    ensures k <= idx <= |s|
    ensures forall j :: k <= j < idx ==> s[j].b < a
    ensures idx < |s| ==> s[idx].b >= a
    decreases |s| - k
  {
    if k == |s| || s[k].b >= a then k else LowerBoundB(s, a, k + 1)
  }

  /** First index at or after `k` whose lower bound is > b (upper_bound on Interval::a). */
  function UpperBoundA(s: seq<Interval>, b: int, k: nat): (idx: nat)
    requires k <= |s|
    ensures k <= idx <= |s|
    ensures forall j :: k <= j < idx ==> s[j].a <= b
    ensures idx < |s| ==> s[idx].a > b
    decreases |s| - k
  {
    if k == |s| || s[k].a > b then k else UpperBoundA(s, b, k + 1)
  }

  /** s0 with the intervals [start, end) replaced by the single interval `fused`. */
  function Splice(s0: seq<Interval>, start: nat, end: nat, fused: Interval): (r: seq<Interval>)
    requires start <= end <= |s0|
    ensures |r| == start + 1 + |s0| - end
    ensures forall j :: 0 <= j < start ==> r[j] == s0[j]
    ensures r[start] == fused
    ensures forall j :: start < j < |r| ==> r[j] == s0[j - start - 1 + end]
  {
    s0[..start] + [fused] + s0[end..]
  }

  /** The list Insert works on: an empty set first receives [a, b]. */
  function Seeded(s: seq<Interval>, a: int, b: int): seq<Interval>
  {
    if |s| == 0 then [Interval(a, b)] else s
  }

  /** IntervalSet::insert(a, b). An empty set first receives [a, b]; then the
      intervals meeting [a, b] are found and either [a, b] is inserted before them
      (none meets it) or they are fused with [a, b] into one interval. */
  function Insert(s: seq<Interval>, a: int, b: int): seq<Interval>
    requires a <= b
  {
    var s0 := Seeded(s, a, b);
    var start := LowerBoundB(s0, a, 0);
    var end := UpperBoundA(s0, b, start);
    if start == end then Splice(s0, start, end, Interval(a, b))
    else Splice(s0, start, end, Interval(Min(s0[start].a, a), Max(s0[end - 1].b, b)))
  }

  /** On a valid list the two searches delimit exactly the intervals meeting [a, b]. */
  lemma BoundsDelimit(s0: seq<Interval>, a: int, b: int)
    requires Valid(s0) && a <= b
    ensures var start := LowerBoundB(s0, a, 0);
      var end := UpperBoundA(s0, b, start);
      && (forall j :: end <= j < |s0| ==> s0[j].a > b)
      && (forall j :: start <= j < end ==> s0[j].b >= a)
  {
    var start := LowerBoundB(s0, a, 0);
    var end := UpperBoundA(s0, b, start);
    forall j | end <= j < |s0|
      ensures s0[j].a > b
    {
      if j > end {
        assert s0[end].a <= s0[end].b < s0[j].a;
      }
    }
    forall j | start <= j < end
      ensures s0[j].b >= a
    {
      if j > start {
        assert s0[start].b < s0[j].a <= s0[j].b;
      }
    }
  }

  /** Shape of Insert: a kept prefix, one new or fused interval, a kept suffix. */
  lemma InsertShape(s: seq<Interval>, a: int, b: int)
    returns (s0: seq<Interval>, start: nat, end: nat, fused: Interval)
    requires Valid(s) && a <= b
    ensures s0 == Seeded(s, a, b) && Valid(s0)
    ensures start <= end <= |s0|
    ensures Insert(s, a, b) == Splice(s0, start, end, fused)
    ensures forall j :: 0 <= j < start ==> s0[j].b < a
    ensures forall j :: end <= j < |s0| ==> s0[j].a > b
    ensures forall j :: start <= j < end ==> s0[j].a <= b && s0[j].b >= a
    ensures fused.a == (if start == end then a else Min(s0[start].a, a))
    ensures fused.b == (if start == end then b else Max(s0[end - 1].b, b))
  {
    s0 := Seeded(s, a, b);
    start := LowerBoundB(s0, a, 0);
    end := UpperBoundA(s0, b, start);
    BoundsDelimit(s0, a, b);
    fused := if start == end then Interval(a, b) else Interval(Min(s0[start].a, a), Max(s0[end - 1].b, b));
  }

  /** Replacing a run of a valid list by an interval that fits between the kept
      prefix and the kept suffix gives a valid list. */
  lemma SpliceValid(s0: seq<Interval>, start: nat, end: nat, fused: Interval)
    requires Valid(s0) && start <= end <= |s0| && fused.a <= fused.b
    requires forall j :: 0 <= j < start ==> s0[j].b < fused.a
    requires forall j :: end <= j < |s0| ==> fused.b < s0[j].a
    ensures Valid(Splice(s0, start, end, fused))
  {
    var r := Splice(s0, start, end, fused);
    forall j, k | 0 <= j < k < |r|
      ensures r[j].b < r[k].a
    {
      if k < start {
        assert r[j] == s0[j] && r[k] == s0[k];
      } else if k == start {
        assert r[j] == s0[j];
      } else if j < start {
        assert r[j] == s0[j] && r[k] == s0[k - start - 1 + end];
      } else if j > start {
        assert r[j] == s0[j - start - 1 + end] && r[k] == s0[k - start - 1 + end];
      }
    }
    forall k | 0 <= k < |r|
      ensures r[k].a <= r[k].b
    {
      if k < start {
        assert r[k] == s0[k];
      } else if k > start {
        assert r[k] == s0[k - start - 1 + end];
      }
    }
  }

  /** Insert keeps the IntervalSet invariant. */
  lemma {:induction false} InsertValid(s: seq<Interval>, a: int, b: int)
    requires Valid(s) && a <= b
    ensures Valid(Insert(s, a, b))
  {
    var s0, start, end, fused := InsertShape(s, a, b);
    forall j | 0 <= j < start
      ensures s0[j].b < fused.a
    {
      if start < end { assert s0[j].b < s0[start].a; }
    }
    forall j | end <= j < |s0|
      ensures fused.b < s0[j].a
    {
      if start < end && end - 1 < j { assert s0[end - 1].b < s0[j].a; }
    }
    SpliceValid(s0, start, end, fused);
  }

  /** The seeded list covers what the set covered, plus [a, b] when the set was empty. */
  lemma SeededCoverage(s: seq<Interval>, a: int, b: int, v: int)
    ensures Covers(Seeded(s, a, b), v) <==> Covers(s, v) || (|s| == 0 && a <= v <= b)
  {
    if |s| == 0 && Covers(Seeded(s, a, b), v) {
      assert HasValue(Seeded(s, a, b)[0], v);
    }
    if |s| == 0 && a <= v <= b {
      assert HasValue(Seeded(s, a, b)[0], v);
    }
  }

  /** A value covered by a splice is covered by the fused interval or by the old list. */
  lemma SpliceCoverageSound(s0: seq<Interval>, start: nat, end: nat, fused: Interval, v: int)
    requires start <= end <= |s0|
    requires Covers(Splice(s0, start, end, fused), v)
    ensures HasValue(fused, v) || Covers(s0, v)
  {
    var r := Splice(s0, start, end, fused);
    var k :| 0 <= k < |r| && HasValue(r[k], v);
    if k < start {
      assert HasValue(s0[k], v);
    } else if k > start {
      assert HasValue(s0[k - start - 1 + end], v);
    }
  }

  /** A splice covers the fused interval and the kept prefix and suffix. */
  lemma SpliceCoverageComplete(s0: seq<Interval>, start: nat, end: nat, fused: Interval, v: int, k: nat)
    requires start <= end <= |s0|
    requires HasValue(fused, v) || (k < |s0| && (k < start || end <= k) && HasValue(s0[k], v))
    ensures Covers(Splice(s0, start, end, fused), v)
  {
    var r := Splice(s0, start, end, fused);
    if HasValue(fused, v) {
      assert HasValue(r[start], v);
    } else if k < start {
      assert HasValue(r[k], v);
    } else {
      assert HasValue(r[k - end + start + 1], v);
    }
  }

  /** Whatever Insert covers was covered before or lies in [a, b]. */
  lemma InsertCoverageSound(s: seq<Interval>, a: int, b: int, v: int)
    requires Valid(s) && a <= b
    requires Covers(Insert(s, a, b), v)
    ensures Covers(s, v) || a <= v <= b
  {
    var s0, start, end, fused := InsertShape(s, a, b);
    SpliceCoverageSound(s0, start, end, fused, v);
    SeededCoverage(s, a, b, v);
    if HasValue(fused, v) && v < a {
      assert HasValue(s0[start], v);
    } else if HasValue(fused, v) && v > b {
      assert HasValue(s0[end - 1], v);
    }
  }

  /** Insert loses nothing that was covered and covers all of [a, b]. */
  lemma InsertCoverageComplete(s: seq<Interval>, a: int, b: int, v: int)
    requires Valid(s) && a <= b
    requires Covers(s, v) || a <= v <= b
    ensures Covers(Insert(s, a, b), v)
  {
    var s0, start, end, fused := InsertShape(s, a, b);
    SeededCoverage(s, a, b, v);
    if a <= v <= b {
      SpliceCoverageComplete(s0, start, end, fused, v, 0);
    } else {
      var k :| 0 <= k < |s0| && HasValue(s0[k], v);
      if start <= k < end {
        assert s0[start].a <= s0[k].a by {
          if start < k { assert s0[start].a <= s0[start].b < s0[k].a; }
        }
        assert s0[k].b <= s0[end - 1].b by {
          if k < end - 1 { assert s0[k].b < s0[end - 1].a <= s0[end - 1].b; }
        }
      }
      SpliceCoverageComplete(s0, start, end, fused, v, k);
    }
  }

  /** After insert(a, b), v is covered iff it was covered before or a <= v <= b. */
  lemma InsertCoverage(s: seq<Interval>, a: int, b: int, v: int)
    requires Valid(s) && a <= b
    ensures Covers(Insert(s, a, b), v) <==> Covers(s, v) || a <= v <= b
  {
    if Covers(Insert(s, a, b), v) {
      InsertCoverageSound(s, a, b, v);
    }
    if Covers(s, v) || a <= v <= b {
      InsertCoverageComplete(s, a, b, v);
    }
  }

  /** Inserting a range that one stored interval already holds changes nothing. */
  lemma {:induction false} InsertContained(s: seq<Interval>, a: int, b: int, k: nat)
    requires Valid(s) && a <= b && k < |s| && s[k].a <= a && b <= s[k].b
    ensures Insert(s, a, b) == s
  {
    var start := LowerBoundB(s, a, 0);
    assert forall j :: 0 <= j < k ==> s[j].b < a by {
      forall j | 0 <= j < k ensures s[j].b < a { assert s[j].b < s[k].a; }
    }
    assert start == k;
    var end := UpperBoundA(s, b, start);
    assert end == k + 1 by {
      if k + 1 < |s| { assert s[k + 1].a > s[k].b >= b; }
    }
    assert Insert(s, a, b) == Splice(s, k, k + 1, Interval(Min(s[k].a, a), Max(s[k].b, b)));
    assert s[..k] + [s[k]] + s[k + 1..] == s;
  }

  /** Inserting into an empty set yields exactly [a, b]. */
  lemma InsertIntoEmpty(a: int, b: int)
    requires a <= b
    ensures Insert([], a, b) == [Interval(a, b)]
  {}

  /** A set built by successive inserts (the do-not-split rows of the XY-cut). */
  function InsertAll(s: seq<Interval>, ranges: seq<Interval>): seq<Interval>
    requires forall k :: 0 <= k < |ranges| ==> ranges[k].a <= ranges[k].b
    decreases |ranges|
  {
    if |ranges| == 0 then s
    else InsertAll(Insert(s, ranges[0].a, ranges[0].b), ranges[1..])
  }

  /** Any sequence of well-formed inserts keeps the invariant and covers exactly the
      union of what was covered and the inserted ranges. */
  lemma {:induction false} InsertAllCorrect(s: seq<Interval>, ranges: seq<Interval>)
    requires Valid(s)
    requires forall k :: 0 <= k < |ranges| ==> ranges[k].a <= ranges[k].b
    ensures Valid(InsertAll(s, ranges))
    ensures forall v :: Covers(InsertAll(s, ranges), v) <==> Covers(s, v) || Covers(ranges, v)
    decreases |ranges|
  {
    if |ranges| > 0 {
      var s1 := Insert(s, ranges[0].a, ranges[0].b);
      InsertValid(s, ranges[0].a, ranges[0].b);
      InsertAllCorrect(s1, ranges[1..]);
      forall v
        ensures Covers(InsertAll(s, ranges), v) <==> Covers(s, v) || Covers(ranges, v)
      {
        InsertCoverage(s, ranges[0].a, ranges[0].b, v);
        if Covers(ranges[1..], v) {
          var k :| 0 <= k < |ranges[1..]| && HasValue(ranges[1..][k], v);
          assert HasValue(ranges[k + 1], v);
        }
        if Covers(ranges, v) {
          var k :| 0 <= k < |ranges| && HasValue(ranges[k], v);
          if k > 0 { assert HasValue(ranges[1..][k - 1], v); }
        }
      }
    }
  }

  /** Some stored interval holds all of [c, d]. */
  predicate Holds(s: seq<Interval>, c: int, d: int)
  {
    exists k :: 0 <= k < |s| && s[k].a <= c && d <= s[k].b
  }

  /** After insert(a, b) one interval holds the whole of [a, b]. */
  lemma InsertHoldsRange(s: seq<Interval>, a: int, b: int)
    requires Valid(s) && a <= b
    ensures Holds(Insert(s, a, b), a, b)
  {
    var s0, start, end, fused := InsertShape(s, a, b);
    assert Insert(s, a, b)[start] == fused;
  }

  /** A range held by one interval stays held by one interval after an insert:
      fusing only widens intervals. */
  lemma InsertKeepsHeld(s: seq<Interval>, a: int, b: int, c: int, d: int)
    requires Valid(s) && a <= b && Holds(s, c, d)
    ensures Holds(Insert(s, a, b), c, d)
  {
    var k :| 0 <= k < |s| && s[k].a <= c && d <= s[k].b;
    var s0, start, end, fused := InsertShape(s, a, b);
    SpliceKeepsHeld(s0, start, end, fused, k, c, d);
  }

  /** The splice step of InsertKeepsHeld: an interval outside [start, end) is
      copied, one inside it is covered by `fused`. */
  lemma SpliceKeepsHeld(s0: seq<Interval>, start: nat, end: nat, fused: Interval, k: nat, c: int, d: int)
    requires Valid(s0) && start <= end <= |s0| && k < |s0|
    requires s0[k].a <= c && d <= s0[k].b
    requires start < end ==> fused.a <= s0[start].a && s0[end - 1].b <= fused.b
    ensures Holds(Splice(s0, start, end, fused), c, d)
  {
    var r := Splice(s0, start, end, fused);
    if k < start {
      assert r[k] == s0[k];
    } else if k >= end {
      assert r[k - end + start + 1] == s0[k];
    } else {
      assert s0[start].a <= s0[k].a by {
        if start < k { assert s0[start].b < s0[k].a; }
      }
      assert s0[k].b <= s0[end - 1].b by {
        if k < end - 1 { assert s0[k].b < s0[end - 1].a; }
      }
      assert r[start] == fused;
    }
  }

  /** After a run of inserts every inserted range is held by one interval. */
  lemma {:induction false} InsertAllHolds(s: seq<Interval>, ranges: seq<Interval>, j: int)
    requires Valid(s)
    requires forall k :: 0 <= k < |ranges| ==> ranges[k].a <= ranges[k].b
    requires 0 <= j < |ranges|
    ensures Holds(InsertAll(s, ranges), ranges[j].a, ranges[j].b)
    decreases |ranges|
  {
    if j == 0 {
      InsertAllHoldsFirst(s, ranges);
    } else {
      var s1 := Insert(s, ranges[0].a, ranges[0].b);
      var rest := ranges[1..];
      assert InsertAll(s, ranges) == InsertAll(s1, rest);
      InsertValid(s, ranges[0].a, ranges[0].b);
      InsertAllHolds(s1, rest, j - 1);
      assert rest[j - 1] == ranges[j];
    }
  }

  /** The first inserted range is held after the whole run. */
  lemma InsertAllHoldsFirst(s: seq<Interval>, ranges: seq<Interval>)
    requires Valid(s)
    requires forall k :: 0 <= k < |ranges| ==> ranges[k].a <= ranges[k].b
    requires 0 < |ranges|
    ensures Holds(InsertAll(s, ranges), ranges[0].a, ranges[0].b)
  {
    var s1 := Insert(s, ranges[0].a, ranges[0].b);
    var rest := ranges[1..];
    assert InsertAll(s, ranges) == InsertAll(s1, rest);
    InsertValid(s, ranges[0].a, ranges[0].b);
    InsertHoldsRange(s, ranges[0].a, ranges[0].b);
    InsertAllKeepsHeld(s1, rest, ranges[0].a, ranges[0].b);
  }

  lemma {:induction false} InsertAllKeepsHeld(s: seq<Interval>, ranges: seq<Interval>, c: int, d: int)
    requires Valid(s) && Holds(s, c, d)
    requires forall k :: 0 <= k < |ranges| ==> ranges[k].a <= ranges[k].b
    ensures Holds(InsertAll(s, ranges), c, d)
    decreases |ranges|
  {
    if |ranges| > 0 {
      InsertKeepsHeld(s, ranges[0].a, ranges[0].b, c, d);
      InsertValid(s, ranges[0].a, ranges[0].b);
      InsertAllKeepsHeld(Insert(s, ranges[0].a, ranges[0].b), ranges[1..], c, d);
    }
  }

  /** On a valid set, `intersects(i)` means that some integer of i is covered. */
  lemma SetIntersectsIffCoveredValue(s: seq<Interval>, i: Interval)
    requires Valid(s) && i.a <= i.b
    ensures SetIntersects(s, i) <==> exists v :: i.a <= v <= i.b && Covers(s, v)
  {
    if SetIntersects(s, i) {
      var k :| 0 <= k < |s| && IntervalIntersects(s[k], i);
      var v := Max(s[k].a, i.a);
      assert HasValue(s[k], v);
      assert i.a <= v <= i.b && Covers(s, v);
    }
    if exists v :: i.a <= v <= i.b && Covers(s, v) {
      var v :| i.a <= v <= i.b && Covers(s, v);
      var k :| 0 <= k < |s| && HasValue(s[k], v);
      assert IntervalIntersects(s[k], i);
      assert SetIntersects(s, i);
    }
  }

  // ----- The unit tests of UTInterval ------------------------------------------

  lemma UnitTestMerge()
    ensures InsertAll([], [Interval(2, 5), Interval(8, 15), Interval(5, 8)]) == [Interval(2, 15)]
  {}

  lemma UnitTestInsertFirst()
    ensures InsertAll([], [Interval(2, 5), Interval(8, 15), Interval(-1, 1)])
         == [Interval(-1, 1), Interval(2, 5), Interval(8, 15)]
  {}

  lemma UnitTestInsertLast()
    ensures InsertAll([], [Interval(2, 5), Interval(8, 15), Interval(18, 21)])
         == [Interval(2, 5), Interval(8, 15), Interval(18, 21)]
  {}

  lemma UnitTestInsertMiddle()
    ensures InsertAll([], [Interval(2, 5), Interval(8, 15), Interval(6, 7)])
         == [Interval(2, 5), Interval(6, 7), Interval(8, 15)]
  {}

  lemma UnitTestMergeLeft()
    ensures InsertAll([], [Interval(2, 5), Interval(8, 15), Interval(4, 7)])
         == [Interval(2, 7), Interval(8, 15)]
  {}

  lemma UnitTestMergeRight()
    ensures InsertAll([], [Interval(2, 5), Interval(8, 15), Interval(6, 17)])
         == [Interval(2, 5), Interval(6, 17)]
  {}
}

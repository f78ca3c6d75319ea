/** Line boxes from the watershed labels (DOMLinesExtractor.cpp): a per-label
    bounding-box accumulator, the greedy merge of labels lying on the same text line
    with its label remap table, and the emission of one LINE region per line. */
module Lines {
  import opened Geometry
  import opened Signal
  import opened Layout
  import opened Config

  // ----- The bbox accumulator -------------------------------------------------

  /** The `bbox` accumulator: coordinate extrema, coordinate sums and a pixel count. */
  datatype BBoxAcc = BBoxAcc(xmin: int, xmax: int, ymin: int, ymax: int, mcX: int, mcY: int, count: int)

  /** A fresh accumulator (`init()`): extrema at the int sentinels, sums and count 0. */
  const Fresh: BBoxAcc := BBoxAcc(INT_MAX, INT_MIN, INT_MAX, INT_MIN, 0, 0, 0)

  /** take(point) */
  function TakePoint(a: BBoxAcc, p: Point2D): BBoxAcc
  {
    BBoxAcc(Min(a.xmin, p.x), Max(a.xmax, p.x), Min(a.ymin, p.y), Max(a.ymax, p.y),
            a.mcX + p.x, a.mcY + p.y, a.count + 1)
  }

  /** take(bbox): the union of two accumulators. */
  function TakeAcc(a: BBoxAcc, o: BBoxAcc): BBoxAcc
  {
    BBoxAcc(Min(a.xmin, o.xmin), Max(a.xmax, o.xmax), Min(a.ymin, o.ymin), Max(a.ymax, o.ymax),
            a.mcX + o.mcX, a.mcY + o.mcY, a.count + o.count)
  }

  /** box(): the inclusive extent as a box, or the empty default box unless the
      extrema differ strictly along both axes. */
  function AccBox(a: BBoxAcc): (b: Box)
    ensures !Empty(b) <==> a.xmin < a.xmax && a.ymin < a.ymax
    ensures !Empty(b) ==> b.x == a.xmin && b.X1() == a.xmax + 1 && b.y == a.ymin && b.Y1() == a.ymax + 1
  {
    if a.xmin < a.xmax && a.ymin < a.ymax then Box(a.xmin, a.ymin, a.xmax - a.xmin + 1, a.ymax - a.ymin + 1)
    else Box(0, 0, 0, 0)
  }

  /** get_mc_y(): the mean row of the accumulated pixels. */
  function Centroid(a: BBoxAcc): real
  {
    if a.count == 0 then 0.0 else a.mcY as real / a.count as real
  }

  /** An ink pixel of the region and its watershed label. */
  datatype Ink = Ink(p: Point2D, mark: int)

  /** Pixel coordinates are C++ ints. */
  predicate InIntRange(ps: seq<Ink>)
  {
    forall k :: 0 <= k < |ps| ==> INT_MIN <= ps[k].p.x <= INT_MAX && INT_MIN <= ps[k].p.y <= INT_MAX
  }

  /** `labeling::accumulate` restricted to the labels of S: every ink pixel whose
      label is in S is taken, in scan order. */
  function Accumulate(ps: seq<Ink>, labels: set<int>): BBoxAcc
  {
    if |ps| == 0 then Fresh
    else
      var a := Accumulate(ps[..|ps| - 1], labels);
      if ps[|ps| - 1].mark in labels then TakePoint(a, ps[|ps| - 1].p) else a
  }

  /** take(bbox) is the union: merging the accumulators of two disjoint label sets
      gives the accumulator of their union. */
  lemma {:induction false} AccumulateUnion(ps: seq<Ink>, s: set<int>, t: set<int>)
    requires s !! t
    ensures TakeAcc(Accumulate(ps, s), Accumulate(ps, t)) == Accumulate(ps, s + t)
  {
    if |ps| > 0 {
      AccumulateUnion(ps[..|ps| - 1], s, t);
    }
  }

  /** The accumulated extrema enclose every taken pixel, and the count is positive
      as soon as one pixel is taken. */
  lemma {:induction false} AccumulateEncloses(ps: seq<Ink>, labels: set<int>, k: int)
    requires 0 <= k < |ps| && ps[k].mark in labels
    ensures var a := Accumulate(ps, labels);
      a.xmin <= ps[k].p.x <= a.xmax && a.ymin <= ps[k].p.y <= a.ymax && a.count >= 1
  {
    AccumulateCount(ps[..|ps| - 1], labels);
    if k < |ps| - 1 {
      assert ps[..|ps| - 1][k] == ps[k];
      AccumulateEncloses(ps[..|ps| - 1], labels, k);
    }
  }

  lemma {:induction false} AccumulateCount(ps: seq<Ink>, labels: set<int>)
    ensures Accumulate(ps, labels).count >= 0
  {
    if |ps| > 0 {
      AccumulateCount(ps[..|ps| - 1], labels);
    }
  }

  /** Without a taken pixel the accumulator stays fresh; otherwise its count is positive. */
  lemma {:induction false} AccumulateNothing(ps: seq<Ink>, labels: set<int>)
    ensures (forall k :: 0 <= k < |ps| ==> ps[k].mark !in labels) <==> Accumulate(ps, labels) == Fresh
  {
    if |ps| > 0 {
      var init := ps[..|ps| - 1];
      assert forall k :: 0 <= k < |init| ==> init[k] == ps[k];
      AccumulateNothing(init, labels);
      if forall k :: 0 <= k < |ps| ==> ps[k].mark !in labels {
      } else {
        var k :| 0 <= k < |ps| && ps[k].mark in labels;
        AccumulateEncloses(ps, labels, k);
      }
    }
  }

  /** The box of an accumulator holds every taken pixel. */
  lemma AccBoxHoldsPixels(ps: seq<Ink>, labels: set<int>, k: int)
    requires 0 <= k < |ps| && ps[k].mark in labels
    requires !Empty(AccBox(Accumulate(ps, labels)))
    ensures Has(AccBox(Accumulate(ps, labels)), ps[k].p)
  {
    AccumulateEncloses(ps, labels, k);
  }

  /** Ink that fits in one row (or one column) has no box: box() needs the extrema
      to differ strictly, so such a label never becomes a LINE. */
  lemma {:induction false} FlatInkHasNoBox(ps: seq<Ink>, labels: set<int>, x: int, y: int)
    requires InIntRange(ps)
    requires (forall k :: 0 <= k < |ps| && ps[k].mark in labels ==> ps[k].p.y == y)
          || (forall k :: 0 <= k < |ps| && ps[k].mark in labels ==> ps[k].p.x == x)
    ensures Empty(AccBox(Accumulate(ps, labels)))
  {
    if forall k :: 0 <= k < |ps| && ps[k].mark in labels ==> ps[k].p.y == y {
      FlatRowExtrema(ps, labels, y);
    } else {
      FlatColumnExtrema(ps, labels, x);
    }
  }

  lemma {:induction false} FlatRowExtrema(ps: seq<Ink>, labels: set<int>, y: int)
    requires InIntRange(ps)
    requires forall k :: 0 <= k < |ps| && ps[k].mark in labels ==> ps[k].p.y == y
    ensures var a := Accumulate(ps, labels); a == Fresh || (a.ymin == y && a.ymax == y)
  {
    if |ps| > 0 {
      var init := ps[..|ps| - 1];
      assert forall k :: 0 <= k < |init| ==> init[k] == ps[k];
      FlatRowExtrema(init, labels, y);
    }
  }

  lemma {:induction false} FlatColumnExtrema(ps: seq<Ink>, labels: set<int>, x: int)
    requires InIntRange(ps)
    requires forall k :: 0 <= k < |ps| && ps[k].mark in labels ==> ps[k].p.x == x
    ensures var a := Accumulate(ps, labels); a == Fresh || (a.xmin == x && a.xmax == x)
  {
    if |ps| > 0 {
      var init := ps[..|ps| - 1];
      assert forall k :: 0 <= k < |init| ==> init[k] == ps[k];
      FlatColumnExtrema(init, labels, x);
    }
  }

  // ----- Candidate labels and their order ----------------------------------------

  /** One accumulator per watershed label 0..nlabel (`labeling::accumulate`). */
  function LabelAccs(ps: seq<Ink>, nlabel: nat): (r: seq<BBoxAcc>)
    ensures |r| == nlabel + 1
    ensures forall l :: 0 <= l <= nlabel ==> r[l] == Accumulate(ps, {l})
  {
    seq(nlabel + 1, l => Accumulate(ps, {l}))
  }

  predicate Increasing(s: seq<int>)
  {
    forall j, k :: 0 <= j < k < |s| ==> s[j] < s[k]
  }

  predicate LabelsIn(s: seq<int>, n: int)
  {
    forall k :: 0 <= k < |s| ==> 1 <= s[k] < n
  }

  /** The labels from `i` on whose box is not empty, in increasing order: the
      second half of the stable partition of 1..nlabel by emptiness. */
  function Candidates(attr: seq<BBoxAcc>, i: nat): (r: seq<int>)
    requires 1 <= i <= |attr|
    ensures forall x :: x in r <==> i <= x < |attr| && !Empty(AccBox(attr[x]))
    ensures Increasing(r)
    ensures forall k :: 0 <= k < |r| ==> i <= r[k] < |attr|
    decreases |attr| - i
  {
    if i == |attr| then []
    else
      var rest := Candidates(attr, i + 1);
      if Empty(AccBox(attr[i])) then rest else [i] + rest
  }

  function Key(attr: seq<BBoxAcc>, l: int): real
    requires 0 <= l < |attr|
  {
    Centroid(attr[l])
  }

  /** Ordered by centroid, ties by label: the order a stable sort by centroid gives
      to labels listed in increasing order. */
  predicate SortedLex(attr: seq<BBoxAcc>, s: seq<int>)
    requires forall k :: 0 <= k < |s| ==> 0 <= s[k] < |attr|
  {
    forall j, k :: 0 <= j < k < |s| ==>
      Key(attr, s[j]) < Key(attr, s[k]) || (Key(attr, s[j]) == Key(attr, s[k]) && s[j] < s[k])
  }

  /** Insert x after every element whose centroid is not larger (stable insertion). */
  function InsertByCentroid(attr: seq<BBoxAcc>, x: int, s: seq<int>): (r: seq<int>)
    requires 0 <= x < |attr| && forall k :: 0 <= k < |s| ==> 0 <= s[k] < |attr|
    ensures multiset(r) == multiset(s) + multiset{x}
    ensures forall k :: 0 <= k < |r| ==> 0 <= r[k] < |attr|
  {
    if |s| == 0 then [x]
    else if Key(attr, s[0]) <= Key(attr, x) then
      assert s == [s[0]] + s[1..];
      [s[0]] + InsertByCentroid(attr, x, s[1..])
    else [x] + s
  }

  /** Inserting a label larger than all present keeps the order by (centroid, label). */
  lemma {:induction false} InsertKeepsSorted(attr: seq<BBoxAcc>, x: int, s: seq<int>)
    requires 0 <= x < |attr| && forall k :: 0 <= k < |s| ==> 0 <= s[k] < |attr|
    requires SortedLex(attr, s) && forall k :: 0 <= k < |s| ==> s[k] < x
    ensures SortedLex(attr, InsertByCentroid(attr, x, s))
  {
    if |s| > 0 && Key(attr, s[0]) <= Key(attr, x) {
      var tail := s[1..];
      InsertKeepsSorted(attr, x, tail);
      var rest := InsertByCentroid(attr, x, tail);
      forall k | 0 <= k < |rest|
        ensures Key(attr, s[0]) < Key(attr, rest[k]) || (Key(attr, s[0]) == Key(attr, rest[k]) && s[0] < rest[k])
      {
        assert rest[k] in multiset(tail) + multiset{x};
        if rest[k] != x {
          var i :| 0 <= i < |tail| && tail[i] == rest[k];
          assert s[i + 1] == rest[k];
        }
      }
      assert InsertByCentroid(attr, x, s) == [s[0]] + rest;
    }
  }

  /** `stable_sort` of the candidates by centroid. */
  function SortByCentroid(attr: seq<BBoxAcc>, labels: seq<int>): (r: seq<int>)
    requires forall k :: 0 <= k < |labels| ==> 0 <= labels[k] < |attr|
    ensures multiset(r) == multiset(labels) && |r| == |labels|
    ensures forall k :: 0 <= k < |r| ==> 0 <= r[k] < |attr|
  {
    if |labels| == 0 then []
    else
      var init := labels[..|labels| - 1];
      var x := labels[|labels| - 1];
      assert labels == init + [x];
      assert multiset(labels) == multiset(init) + multiset{x};
      var sorted := SortByCentroid(attr, init);
      InsertByCentroid(attr, x, sorted)
  }

  /** Labels listed in increasing order come out ordered by (centroid, label): the
      sort is stable. */
  lemma {:induction false} SortIsStable(attr: seq<BBoxAcc>, labels: seq<int>)
    requires forall k :: 0 <= k < |labels| ==> 0 <= labels[k] < |attr|
    requires Increasing(labels)
    ensures SortedLex(attr, SortByCentroid(attr, labels))
  {
    if |labels| > 0 {
      var init := labels[..|labels| - 1];
      var x := labels[|labels| - 1];
      SortIsStable(attr, init);
      var sorted := SortByCentroid(attr, init);
      forall k | 0 <= k < |sorted|
        ensures sorted[k] < x
      {
        assert sorted[k] in multiset(init);
      }
      InsertKeepsSorted(attr, x, sorted);
    }
  }

  /** A stably sorted list of distinct labels: SortedLex forbids repetitions. */
  lemma SortedLexDistinct(attr: seq<BBoxAcc>, s: seq<int>, j: int, k: int)
    requires forall i :: 0 <= i < |s| ==> 0 <= s[i] < |attr|
    requires SortedLex(attr, s) && 0 <= j < k < |s|
    ensures s[j] != s[k]
  {
  }

  /** The labels of the sorted candidates are those of the candidates. */
  lemma SortedAreCandidates(attr: seq<BBoxAcc>, labels: seq<int>, x: int)
    requires forall k :: 0 <= k < |labels| ==> 0 <= labels[k] < |attr|
    ensures x in SortByCentroid(attr, labels) <==> x in labels
  {
    var r := SortByCentroid(attr, labels);
    assert x in r <==> x in multiset(r);
    assert x in labels <==> x in multiset(labels);
  }

  // ----- Same-line merging: the reference definition -------------------------------

  function Cents(attr: seq<BBoxAcc>, sorted: seq<int>): (c: seq<real>)
    requires forall k :: 0 <= k < |sorted| ==> 0 <= sorted[k] < |attr|
    ensures |c| == |sorted| && forall k :: 0 <= k < |sorted| ==> c[k] == Centroid(attr[sorted[k]])
  {
    seq(|sorted|, k requires 0 <= k < |sorted| => Centroid(attr[sorted[k]]))
  }

  /** lead[k] is the position of the line leader of position k of the sorted
      candidates: the first position starts a line; a later one joins the current
      line when its centroid is less than one x-height below the leader's, and
      starts a new line otherwise. */
  predicate LeadsOf(c: seq<real>, xh: real, lead: seq<int>)
  {
    && |lead| == |c|
    && (forall k :: 0 <= k < |lead| ==> 0 <= lead[k] <= k)
    && (forall p, k {:trigger lead[p], lead[k]} :: 0 <= p < |c| && 0 <= k < |c| && k == p + 1 ==>
          lead[k] == if c[k] - c[lead[p]] < xh then lead[p] else k)
  }

  function Leads(c: seq<real>, xh: real): (lead: seq<int>)
    ensures LeadsOf(c, xh, lead)
  {
    if |c| == 0 then []
    else
      var n := |c| - 1;
      var init := Leads(c[..n], xh);
      assert forall k :: 0 <= k < n ==> c[..n][k] == c[k];
      init + [if n == 0 then 0 else if c[n] - c[init[n - 1]] < xh then init[n - 1] else n]
  }

  /** Leaders lead themselves. */
  lemma {:induction false} LeaderLeads(c: seq<real>, xh: real, lead: seq<int>, k: int)
    requires LeadsOf(c, xh, lead) && 0 <= k < |c|
    ensures lead[lead[k]] == lead[k]
  {
    if k > 0 && lead[k] == lead[k - 1] {
      LeaderLeads(c, xh, lead, k - 1);
    }
  }

  /** A line occupies consecutive positions. */
  lemma {:induction false} LineContiguous(c: seq<real>, xh: real, lead: seq<int>, k: int)
    requires LeadsOf(c, xh, lead) && 0 <= k < |c|
    ensures forall j :: lead[k] <= j <= k ==> lead[j] == lead[k]
  {
    if k > 0 && lead[k] == lead[k - 1] {
      LineContiguous(c, xh, lead, k - 1);
    }
  }

  predicate NonDecreasing(c: seq<real>)
  {
    forall j, k :: 0 <= j < k < |c| ==> c[j] <= c[k]
  }

  /** On centroids in sorted order, a member of a line lies in [c, c + kxheight)
      of its leader's centroid c. */
  lemma MemberNearLeader(c: seq<real>, xh: real, lead: seq<int>, k: int)
    requires LeadsOf(c, xh, lead) && NonDecreasing(c) && 0 <= k < |c|
    ensures c[lead[k]] <= c[k] && (lead[k] == k || c[k] < c[lead[k]] + xh)
  {
    if lead[k] != k {
      assert lead[k] == lead[k - 1] && c[k] - c[lead[k - 1]] < xh;
      assert c[lead[k]] <= c[k];
    }
  }

  /** Two consecutive line leaders are at least one x-height apart. */
  lemma LinesApart(c: seq<real>, xh: real, lead: seq<int>, p: int, q: int)
    requires LeadsOf(c, xh, lead) && 0 <= p < q < |c|
    requires lead[p] == p && lead[q] == q
    requires forall j :: p < j < q ==> lead[j] != j
    ensures c[q] - c[p] >= xh
  {
    LineContiguous(c, xh, lead, q - 1);
    LeaderLeads(c, xh, lead, q - 1);
  }

  /** The accumulator of the line led by position j, over the positions before m:
      the leader's accumulator, then every member's taken in order. */
  function GroupAcc(attr: seq<BBoxAcc>, sorted: seq<int>, lead: seq<int>, j: int, m: int): BBoxAcc
    requires forall k :: 0 <= k < |sorted| ==> 0 <= sorted[k] < |attr|
    requires |lead| == |sorted| && 0 <= j < m <= |sorted|
    decreases m
  {
    if m == j + 1 then attr[sorted[j]]
    else
      var g := GroupAcc(attr, sorted, lead, j, m - 1);
      if lead[m - 1] == j then TakeAcc(g, attr[sorted[m - 1]]) else g
  }

  lemma GroupAccNext(attr: seq<BBoxAcc>, sorted: seq<int>, lead: seq<int>, j: int, m: int)
    requires forall k :: 0 <= k < |sorted| ==> 0 <= sorted[k] < |attr|
    requires |lead| == |sorted| && 0 <= j < m < |sorted|
    ensures GroupAcc(attr, sorted, lead, j, m + 1)
         == if lead[m] == j then TakeAcc(GroupAcc(attr, sorted, lead, j, m), attr[sorted[m]])
            else GroupAcc(attr, sorted, lead, j, m)
  {
  }

  /** A line's accumulator has a box when its leader's has one. */
  lemma {:induction false} GroupAccHasBox(attr: seq<BBoxAcc>, sorted: seq<int>, lead: seq<int>, j: int, m: int)
    requires forall k :: 0 <= k < |sorted| ==> 0 <= sorted[k] < |attr|
    requires |lead| == |sorted| && 0 <= j < m <= |sorted|
    requires !Empty(AccBox(attr[sorted[j]]))
    ensures !Empty(AccBox(GroupAcc(attr, sorted, lead, j, m)))
    decreases m
  {
    if m > j + 1 {
      GroupAccHasBox(attr, sorted, lead, j, m - 1);
    }
  }

  /** The labels of the line led by position j, among the positions before m. */
  function GroupLabels(sorted: seq<int>, lead: seq<int>, j: int, m: int): set<int>
    requires |lead| == |sorted| && 0 <= m <= |sorted|
  {
    set k | 0 <= k < m && j <= k && lead[k] == j :: sorted[k]
  }

  lemma GroupLabelsStep(sorted: seq<int>, lead: seq<int>, j: int, m: int)
    requires |lead| == |sorted| && 0 <= j < m < |sorted|
    ensures lead[m] == j ==> GroupLabels(sorted, lead, j, m + 1) == GroupLabels(sorted, lead, j, m) + {sorted[m]}
    ensures lead[m] != j ==> GroupLabels(sorted, lead, j, m + 1) == GroupLabels(sorted, lead, j, m)
  {
  }

  lemma GroupLabelsFirst(sorted: seq<int>, lead: seq<int>, j: int)
    requires |lead| == |sorted| && 0 <= j < |sorted| && lead[j] == j
    requires forall k :: 0 <= k < |lead| ==> lead[k] <= k
    ensures GroupLabels(sorted, lead, j, j + 1) == {sorted[j]}
  {
  }

  predicate Distinct(s: seq<int>)
  {
    forall a, b :: 0 <= a < b < |s| ==> s[a] != s[b]
  }

  /** Distinct positions carry distinct labels, so a later label is not yet in the group. */
  lemma GroupLabelsBefore(sorted: seq<int>, lead: seq<int>, j: int, m: int)
    requires |lead| == |sorted| && Distinct(sorted) && 0 <= m < |sorted|
    ensures sorted[m] !in GroupLabels(sorted, lead, j, m)
  {
    forall k | 0 <= k < m
      ensures sorted[k] != sorted[m]
    {
    }
  }

  /** Per-label accumulators of the ink. */
  predicate AccsOf(ps: seq<Ink>, attr: seq<BBoxAcc>)
  {
    forall l :: 0 <= l < |attr| ==> attr[l] == Accumulate(ps, {l})
  }

  /** A line's accumulator is that of the ink of all its labels together. */
  lemma {:induction false} GroupAccIsUnion(ps: seq<Ink>, attr: seq<BBoxAcc>, sorted: seq<int>, lead: seq<int>, j: int, m: int)
    requires AccsOf(ps, attr)
    requires forall k :: 0 <= k < |sorted| ==> 0 <= sorted[k] < |attr|
    requires Distinct(sorted) && |lead| == |sorted| && 0 <= j < m <= |sorted| && lead[j] == j
    requires forall k :: 0 <= k < |lead| ==> lead[k] <= k
    ensures GroupAcc(attr, sorted, lead, j, m) == Accumulate(ps, GroupLabels(sorted, lead, j, m))
    decreases m
  {
    if m == j + 1 {
      GroupLabelsFirst(sorted, lead, j);
    } else {
      GroupAccIsUnion(ps, attr, sorted, lead, j, m - 1);
      GroupAccUnionStep(ps, attr, sorted, lead, j, m - 1);
    }
  }

  /** The induction step of GroupAccIsUnion: position m either joins the line,
      adding its label's ink, or leaves both sides unchanged. */
  lemma GroupAccUnionStep(ps: seq<Ink>, attr: seq<BBoxAcc>, sorted: seq<int>, lead: seq<int>, j: int, m: int)
    requires AccsOf(ps, attr)
    requires forall k :: 0 <= k < |sorted| ==> 0 <= sorted[k] < |attr|
    requires Distinct(sorted) && |lead| == |sorted| && 0 <= j < m < |sorted| && lead[j] == j
    requires forall k :: 0 <= k < |lead| ==> lead[k] <= k
    requires GroupAcc(attr, sorted, lead, j, m) == Accumulate(ps, GroupLabels(sorted, lead, j, m))
    ensures GroupAcc(attr, sorted, lead, j, m + 1) == Accumulate(ps, GroupLabels(sorted, lead, j, m + 1))
  {
    var before := GroupLabels(sorted, lead, j, m);
    GroupLabelsStep(sorted, lead, j, m);
    if lead[m] == j {
      GroupLabelsBefore(sorted, lead, j, m);
      AccumulateUnion(ps, before, {sorted[m]});
    }
  }

  // ----- Same-line merging: the scan of compute_line_bboxes ------------------------

  /** The scan's state: the accumulators, the `newlabels` table, the current line
      leader `prev` and its centroid `a`. */
  datatype Merge = Merge(attr: seq<BBoxAcc>, remap: seq<int>, prev: int, ref: real)

  predicate Sized(sorted: seq<int>, st: Merge)
  {
    && |st.remap| == |st.attr|
    && (forall k :: 0 <= k < |sorted| ==> 0 <= sorted[k] < |st.attr|)
    && 0 <= st.prev < |st.attr|
  }

  /** `attr[prev].take(attr[cur]); attr[cur].init(); newlabels[cur] = prev;` */
  function Joined(cur: int, st: Merge): (r: Merge)
    requires 0 <= cur < |st.attr| && 0 <= st.prev < |st.attr| && |st.remap| == |st.attr|
    ensures |r.attr| == |st.attr| && |r.remap| == |st.remap| && r.prev == st.prev && r.ref == st.ref
  {
    Merge(st.attr[st.prev := TakeAcc(st.attr[st.prev], st.attr[cur])][cur := Fresh],
          st.remap[cur := st.prev], st.prev, st.ref)
  }

  /** One iteration: the label at position k joins the current line when its
      centroid is less than an x-height below the leader's, and becomes the new
      leader otherwise. */
  function MergeStep(sorted: seq<int>, xh: real, k: int, st: Merge): (r: Merge)
    requires 0 <= k < |sorted| && Sized(sorted, st)
    ensures Sized(sorted, r) && |r.attr| == |st.attr|
  {
    var cur := sorted[k];
    var b := Centroid(st.attr[cur]);
    if b - st.ref < xh then Joined(cur, st) else Merge(st.attr, st.remap, cur, b)
  }

  function MergeFrom(sorted: seq<int>, xh: real, k: int, st: Merge): (r: Merge)
    requires 0 <= k <= |sorted| && Sized(sorted, st)
    ensures Sized(sorted, r) && |r.attr| == |st.attr|
    decreases |sorted| - k
  {
    if k == |sorted| then st else MergeFrom(sorted, xh, k + 1, MergeStep(sorted, xh, k, st))
  }

  predicate CentsOf(attr0: seq<BBoxAcc>, sorted: seq<int>, c: seq<real>)
    requires forall i :: 0 <= i < |sorted| ==> 0 <= sorted[i] < |attr0|
  {
    |c| == |sorted| && forall j :: 0 <= j < |sorted| ==> c[j] == Centroid(attr0[sorted[j]])
  }

  /** Processed labels are remapped to the label of their leader. */
  predicate RemapDone(sorted: seq<int>, lead: seq<int>, k: int, st: Merge)
    requires |lead| == |sorted| && Sized(sorted, st) && k <= |sorted|
    requires forall i :: 0 <= i < |lead| ==> 0 <= lead[i] <= i
  {
    forall j :: 0 <= j < k ==> st.remap[sorted[j]] == sorted[lead[j]]
  }

  /** A processed leader holds its line's accumulator so far, a member a fresh one. */
  predicate AccsDone(attr0: seq<BBoxAcc>, sorted: seq<int>, lead: seq<int>, k: int, st: Merge)
    requires forall i :: 0 <= i < |sorted| ==> 0 <= sorted[i] < |attr0|
    requires |lead| == |sorted| && Sized(sorted, st) && k <= |sorted|
  {
    forall j :: 0 <= j < k ==>
      st.attr[sorted[j]] == if lead[j] == j then GroupAcc(attr0, sorted, lead, j, k) else Fresh
  }

  /** Labels not yet processed, and labels that are not candidates, are untouched. */
  predicate Untouched(attr0: seq<BBoxAcc>, sorted: seq<int>, k: int, st: Merge)
    requires Sized(sorted, st) && |st.attr| == |attr0| && 0 <= k
  {
    && (forall j :: k <= j < |sorted| ==> st.attr[sorted[j]] == attr0[sorted[j]] && st.remap[sorted[j]] == sorted[j])
    && (forall x :: 0 <= x < |attr0| && x !in sorted ==> st.attr[x] == attr0[x] && st.remap[x] == x)
  }

  /** The scan after k positions agrees with the reference: `prev` is the leader of
      position k - 1, processed labels are remapped to their leader, a leader holds
      its line's accumulator and a member a fresh one, and everything else is as
      it was. */
  predicate ScanInv(attr0: seq<BBoxAcc>, sorted: seq<int>, c: seq<real>, lead: seq<int>, k: int, st: Merge)
    requires forall i :: 0 <= i < |sorted| ==> 0 <= sorted[i] < |attr0|
    requires |c| == |sorted| && |lead| == |sorted| && 1 <= k <= |sorted|
    requires forall i :: 0 <= i < |lead| ==> 0 <= lead[i] <= i
  {
    && Sized(sorted, st) && |st.attr| == |attr0|
    && st.prev == sorted[lead[k - 1]] && st.ref == c[lead[k - 1]]
    && RemapDone(sorted, lead, k, st)
    && AccsDone(attr0, sorted, lead, k, st)
    && Untouched(attr0, sorted, k, st)
  }

  function Identity(n: nat): (r: seq<int>)
    ensures |r| == n && forall x :: 0 <= x < n ==> r[x] == x
  {
    seq(n, x => x)
  }

  /** The state before the loop: nothing merged, the first label leads. */
  lemma ScanStart(attr0: seq<BBoxAcc>, sorted: seq<int>, c: seq<real>, xh: real, lead: seq<int>)
    requires forall i :: 0 <= i < |sorted| ==> 0 <= sorted[i] < |attr0|
    requires 1 <= |sorted| && Distinct(sorted) && CentsOf(attr0, sorted, c) && LeadsOf(c, xh, lead)
    ensures ScanInv(attr0, sorted, c, lead, 1,
                    Merge(attr0, Identity(|attr0|), sorted[0], Centroid(attr0[sorted[0]])))
  {
  }

  /** The label at position k joins the line of the leader at position l. */
  lemma StepJoins(attr0: seq<BBoxAcc>, sorted: seq<int>, c: seq<real>, xh: real, lead: seq<int>, k: int, st: Merge)
    requires forall i :: 0 <= i < |sorted| ==> 0 <= sorted[i] < |attr0|
    requires Distinct(sorted) && CentsOf(attr0, sorted, c) && LeadsOf(c, xh, lead) && 1 <= k < |sorted|
    requires ScanInv(attr0, sorted, c, lead, k, st)
    requires lead[k] != k
    ensures ScanInv(attr0, sorted, c, lead, k + 1, Joined(sorted[k], st))
  {
    var l := lead[k - 1];
    LeaderLeads(c, xh, lead, k - 1);
    assert st.attr[sorted[k]] == attr0[sorted[k]];
    JoinsAccs(attr0, sorted, lead, k, l, st);
    JoinsRemap(sorted, lead, k, l, st);
    JoinsUntouched(attr0, sorted, k, l, st);
  }

  lemma JoinsAccs(attr0: seq<BBoxAcc>, sorted: seq<int>, lead: seq<int>, k: int, l: int, st: Merge)
    requires forall i :: 0 <= i < |sorted| ==> 0 <= sorted[i] < |attr0|
    requires Distinct(sorted) && |lead| == |sorted| && 1 <= k < |sorted|
    requires Sized(sorted, st) && |st.attr| == |attr0|
    requires 0 <= l < k && st.prev == sorted[l] && lead[l] == l && lead[k] == l
    requires AccsDone(attr0, sorted, lead, k, st)
    requires st.attr[sorted[k]] == attr0[sorted[k]]
    ensures AccsDone(attr0, sorted, lead, k + 1, Joined(sorted[k], st))
  {
    var cur := sorted[k];
    var p := sorted[l];
    var next := Joined(cur, st);
    assert st.attr[p] == GroupAcc(attr0, sorted, lead, l, k);
    forall j | 0 <= j <= k
      ensures next.attr[sorted[j]]
           == if lead[j] == j then GroupAcc(attr0, sorted, lead, j, k + 1) else Fresh
    {
      if j < k {
        GroupAccNext(attr0, sorted, lead, j, k);
        assert sorted[j] != cur;
        if j != l {
          assert sorted[j] != p;
          assert next.attr[sorted[j]] == st.attr[sorted[j]];
        } else {
          assert next.attr[sorted[j]] == TakeAcc(st.attr[p], attr0[cur]);
        }
      }
    }
  }

  lemma JoinsRemap(sorted: seq<int>, lead: seq<int>, k: int, l: int, st: Merge)
    requires Distinct(sorted) && |lead| == |sorted| && 1 <= k < |sorted|
    requires forall i :: 0 <= i < |lead| ==> 0 <= lead[i] <= i
    requires Sized(sorted, st)
    requires 0 <= l < k && st.prev == sorted[l] && lead[k] == l
    requires RemapDone(sorted, lead, k, st)
    ensures RemapDone(sorted, lead, k + 1, Joined(sorted[k], st))
  {
    var cur := sorted[k];
    var next := Joined(cur, st);
    forall j | 0 <= j <= k
      ensures next.remap[sorted[j]] == sorted[lead[j]]
    {
      if j < k {
        assert sorted[j] != cur;
        assert st.remap[sorted[j]] == sorted[lead[j]];
      }
    }
  }

  lemma JoinsUntouched(attr0: seq<BBoxAcc>, sorted: seq<int>, k: int, l: int, st: Merge)
    requires Distinct(sorted) && 1 <= k < |sorted|
    requires Sized(sorted, st) && |st.attr| == |attr0|
    requires 0 <= l < k && st.prev == sorted[l]
    requires Untouched(attr0, sorted, k, st)
    ensures Untouched(attr0, sorted, k + 1, Joined(sorted[k], st))
  {
    var cur := sorted[k];
    var p := sorted[l];
    var next := Joined(cur, st);
    forall j | k + 1 <= j < |sorted|
      ensures next.attr[sorted[j]] == attr0[sorted[j]] && next.remap[sorted[j]] == sorted[j]
    {
      assert sorted[j] != cur && sorted[j] != p;
    }
    assert cur in sorted && p in sorted;
    forall x | 0 <= x < |attr0| && x !in sorted
      ensures next.attr[x] == attr0[x] && next.remap[x] == x
    {
      assert x != cur && x != p;
    }
  }

  /** The label at position k starts a new line. */
  lemma StepLeads(attr0: seq<BBoxAcc>, sorted: seq<int>, c: seq<real>, xh: real, lead: seq<int>, k: int, st: Merge)
    requires forall i :: 0 <= i < |sorted| ==> 0 <= sorted[i] < |attr0|
    requires Distinct(sorted) && CentsOf(attr0, sorted, c) && LeadsOf(c, xh, lead) && 1 <= k < |sorted|
    requires ScanInv(attr0, sorted, c, lead, k, st)
    requires lead[k] == k
    ensures ScanInv(attr0, sorted, c, lead, k + 1, Merge(st.attr, st.remap, sorted[k], c[k]))
  {
    assert st.attr[sorted[k]] == attr0[sorted[k]];
    LeadsAccs(attr0, sorted, lead, k, st, c[k]);
    LeadsRemap(sorted, lead, k, st, c[k]);
  }

  lemma LeadsAccs(attr0: seq<BBoxAcc>, sorted: seq<int>, lead: seq<int>, k: int, st: Merge, b: real)
    requires forall i :: 0 <= i < |sorted| ==> 0 <= sorted[i] < |attr0|
    requires |lead| == |sorted| && 1 <= k < |sorted| && lead[k] == k
    requires Sized(sorted, st) && |st.attr| == |attr0|
    requires AccsDone(attr0, sorted, lead, k, st)
    requires st.attr[sorted[k]] == attr0[sorted[k]]
    ensures AccsDone(attr0, sorted, lead, k + 1, Merge(st.attr, st.remap, sorted[k], b))
  {
    forall j | 0 <= j <= k
      ensures st.attr[sorted[j]]
           == if lead[j] == j then GroupAcc(attr0, sorted, lead, j, k + 1) else Fresh
    {
      if j < k {
        GroupAccNext(attr0, sorted, lead, j, k);
      }
    }
  }

  lemma LeadsRemap(sorted: seq<int>, lead: seq<int>, k: int, st: Merge, b: real)
    requires |lead| == |sorted| && 1 <= k < |sorted| && lead[k] == k
    requires forall i :: 0 <= i < |lead| ==> 0 <= lead[i] <= i
    requires Sized(sorted, st)
    requires RemapDone(sorted, lead, k, st)
    requires st.remap[sorted[k]] == sorted[k]
    ensures RemapDone(sorted, lead, k + 1, Merge(st.attr, st.remap, sorted[k], b))
  {
  }

  /** One iteration keeps the scan in step with the reference. */
  lemma StepAny(attr0: seq<BBoxAcc>, sorted: seq<int>, c: seq<real>, xh: real, lead: seq<int>, k: int, st: Merge)
    requires forall i :: 0 <= i < |sorted| ==> 0 <= sorted[i] < |attr0|
    requires Distinct(sorted) && CentsOf(attr0, sorted, c) && LeadsOf(c, xh, lead) && 1 <= k < |sorted|
    requires ScanInv(attr0, sorted, c, lead, k, st)
    ensures ScanInv(attr0, sorted, c, lead, k + 1, MergeStep(sorted, xh, k, st))
  {
    assert Centroid(st.attr[sorted[k]]) == c[k];
    if lead[k] != k {
      StepJoins(attr0, sorted, c, xh, lead, k, st);
      assert MergeStep(sorted, xh, k, st) == Joined(sorted[k], st);
    } else {
      StepLeads(attr0, sorted, c, xh, lead, k, st);
      assert MergeStep(sorted, xh, k, st) == Merge(st.attr, st.remap, sorted[k], c[k]);
    }
  }

  /** One iteration, stated on the state it leads to rather than on how it is built. */
  lemma ScanStep(attr0: seq<BBoxAcc>, sorted: seq<int>, c: seq<real>, xh: real, lead: seq<int>,
                 k: int, st: Merge, fin: Merge) returns (next: Merge)
    requires forall i :: 0 <= i < |sorted| ==> 0 <= sorted[i] < |attr0|
    requires Distinct(sorted) && CentsOf(attr0, sorted, c) && LeadsOf(c, xh, lead) && 1 <= k < |sorted|
    requires Sized(sorted, st) && fin == MergeFrom(sorted, xh, k, st)
    ensures Sized(sorted, next) && fin == MergeFrom(sorted, xh, k + 1, next)
    ensures ScanInv(attr0, sorted, c, lead, k, st) ==> ScanInv(attr0, sorted, c, lead, k + 1, next)
  {
    next := MergeStep(sorted, xh, k, st);
    if ScanInv(attr0, sorted, c, lead, k, st) {
      StepAny(attr0, sorted, c, xh, lead, k, st);
    }
  }

  /** The whole scan computes the reference lines. */
  lemma {:induction false} ScanAll(attr0: seq<BBoxAcc>, sorted: seq<int>, c: seq<real>, xh: real, lead: seq<int>,
                                   k: int, st: Merge, fin: Merge)
    requires forall i :: 0 <= i < |sorted| ==> 0 <= sorted[i] < |attr0|
    requires Distinct(sorted) && CentsOf(attr0, sorted, c) && LeadsOf(c, xh, lead) && 1 <= k <= |sorted|
    requires ScanInv(attr0, sorted, c, lead, k, st)
    requires fin == MergeFrom(sorted, xh, k, st)
    ensures ScanInv(attr0, sorted, c, lead, |sorted|, fin)
    decreases |sorted| - k
  {
    if k < |sorted| {
      var next := ScanStep(attr0, sorted, c, xh, lead, k, st, fin);
      ScanAll(attr0, sorted, c, xh, lead, k + 1, next, fin);
    }
  }

  // ----- Emission ---------------------------------------------------------------

  /** One LINE region, in sorted order, for every label whose box is still not empty
      after merging; its mask instance is the label. */
  function EmitLines(sorted: seq<int>, attr: seq<BBoxAcc>, parentId: int, i: int): seq<LayoutRegion>
    requires forall k :: 0 <= k < |sorted| ==> 0 <= sorted[k] < |attr|
    requires 0 <= i <= |sorted|
    decreases |sorted| - i
  {
    if i == |sorted| then []
    else
      var b := AccBox(attr[sorted[i]]);
      var rest := EmitLines(sorted, attr, parentId, i + 1);
      if !Empty(b) then [LayoutRegion(b, LINE, parentId, sorted[i])] + rest else rest
  }

  /** The positions from i on that lead a line, in increasing order, with no leader
      between two consecutive ones. */
  function LeaderPositions(lead: seq<int>, i: int): (r: seq<int>)
    requires 0 <= i <= |lead|
    ensures forall m :: 0 <= m < |r| ==> i <= r[m] < |lead| && lead[r[m]] == r[m]
    ensures Increasing(r)
    decreases |lead| - i
  {
    if i == |lead| then []
    else
      var rest := LeaderPositions(lead, i + 1);
      if lead[i] == i then [i] + rest else rest
  }

  /** Every leader from i on is listed. */
  lemma {:induction false} LeaderPositionsComplete(lead: seq<int>, i: int, k: int)
    requires 0 <= i <= k < |lead| && lead[k] == k
    ensures k in LeaderPositions(lead, i)
    decreases |lead| - i
  {
    if i < k {
      LeaderPositionsComplete(lead, i + 1, k);
    }
  }

  /** No leader lies between two consecutive listed ones. */
  lemma {:induction false} LeaderPositionsGapless(lead: seq<int>, i: int, m: int, j: int)
    requires 0 <= i <= |lead|
    requires 0 <= m < |LeaderPositions(lead, i)| - 1
    requires LeaderPositions(lead, i)[m] < j < LeaderPositions(lead, i)[m + 1]
    ensures lead[j] != j
    decreases |lead| - i
  {
    var rest := LeaderPositions(lead, i + 1);
    if lead[i] == i {
      var r := [i] + rest;
      assert LeaderPositions(lead, i) == r;
      if m > 0 {
        assert r[m] == rest[m - 1] && r[m + 1] == rest[m];
        LeaderPositionsGapless(lead, i + 1, m - 1, j);
      } else {
        forall q | 0 <= q < |rest|
          ensures rest[q] != j
        {
          assert rest[0] <= rest[q];
        }
        if lead[j] == j {
          LeaderPositionsComplete(lead, i + 1, j);
        }
      }
    } else {
      LeaderPositionsGapless(lead, i + 1, m, j);
    }
  }

  /** The LINE of the line led by position k: the box of the ink of all its labels,
      with the leader's label as mask instance. */
  function LineAt(ps: seq<Ink>, sorted: seq<int>, lead: seq<int>, parentId: int, k: int): LayoutRegion
    requires |lead| == |sorted| && 0 <= k < |sorted|
  {
    LayoutRegion(AccBox(Accumulate(ps, GroupLabels(sorted, lead, k, |sorted|))), LINE, parentId, sorted[k])
  }

  function LinesOf(ps: seq<Ink>, sorted: seq<int>, lead: seq<int>, parentId: int, pos: seq<int>): (r: seq<LayoutRegion>)
    requires |lead| == |sorted| && forall m :: 0 <= m < |pos| ==> 0 <= pos[m] < |sorted|
    ensures |r| == |pos| && forall m :: 0 <= m < |pos| ==> r[m] == LineAt(ps, sorted, lead, parentId, pos[m])
  {
    seq(|pos|, m requires 0 <= m < |pos| => LineAt(ps, sorted, lead, parentId, pos[m]))
  }

  lemma LinesOfCons(ps: seq<Ink>, sorted: seq<int>, lead: seq<int>, parentId: int, i: int, rest: seq<int>)
    requires |lead| == |sorted| && 0 <= i < |sorted| && forall m :: 0 <= m < |rest| ==> 0 <= rest[m] < |sorted|
    ensures LinesOf(ps, sorted, lead, parentId, [i] + rest)
         == [LineAt(ps, sorted, lead, parentId, i)] + LinesOf(ps, sorted, lead, parentId, rest)
  {
  }

  /** After the scan, the emitted regions are exactly the lines of the reference:
      one per leader, in order, each boxing the ink of all its merged labels. */
  lemma {:induction false} EmitIsLines(ps: seq<Ink>, attr0: seq<BBoxAcc>, sorted: seq<int>, lead: seq<int>,
                                       parentId: int, i: int, st: Merge)
    requires AccsOf(ps, attr0)
    requires forall k :: 0 <= k < |sorted| ==> 0 <= sorted[k] < |attr0| && !Empty(AccBox(attr0[sorted[k]]))
    requires Distinct(sorted) && |lead| == |sorted| && forall k :: 0 <= k < |lead| ==> 0 <= lead[k] <= k
    requires Sized(sorted, st) && |st.attr| == |attr0| && AccsDone(attr0, sorted, lead, |sorted|, st)
    requires 0 <= i <= |sorted|
    ensures EmitLines(sorted, st.attr, parentId, i) == LinesOf(ps, sorted, lead, parentId, LeaderPositions(lead, i))
    decreases |sorted| - i
  {
    if i < |sorted| {
      EmitIsLines(ps, attr0, sorted, lead, parentId, i + 1, st);
      var rest := LeaderPositions(lead, i + 1);
      var tail := EmitLines(sorted, st.attr, parentId, i + 1);
      if lead[i] == i {
        assert st.attr[sorted[i]] == GroupAcc(attr0, sorted, lead, i, |sorted|);
        GroupAccHasBox(attr0, sorted, lead, i, |sorted|);
        GroupAccIsUnion(ps, attr0, sorted, lead, i, |sorted|);
        assert EmitLines(sorted, st.attr, parentId, i) == [LineAt(ps, sorted, lead, parentId, i)] + tail;
        assert LeaderPositions(lead, i) == [i] + rest;
        LinesOfCons(ps, sorted, lead, parentId, i, rest);
      } else {
        assert st.attr[sorted[i]] == Fresh;
        assert EmitLines(sorted, st.attr, parentId, i) == tail;
      }
    }
  }

  // ----- compute_line_bboxes ------------------------------------------------------

  /** The candidate labels of the region in the order the merge scans them. */
  function LineOrder(ps: seq<Ink>, nlabel: nat): (order: seq<int>)
    ensures forall k :: 0 <= k < |order| ==> 1 <= order[k] <= nlabel
    ensures forall x :: x in order <==> 1 <= x <= nlabel && !Empty(AccBox(Accumulate(ps, {x})))
    ensures Distinct(order) && SortedLex(LabelAccs(ps, nlabel), order)
  {
    var attr := LabelAccs(ps, nlabel);
    var cands := Candidates(attr, 1);
    var order := SortByCentroid(attr, cands);
    SortIsStable(attr, cands);
    forall x
      ensures x in order <==> x in cands
    {
      SortedAreCandidates(attr, cands, x);
    }
    forall a, b | 0 <= a < b < |order|
      ensures order[a] != order[b]
    {
      SortedLexDistinct(attr, order, a, b);
    }
    order
  }

  /** The line leader of every position of the scan order. */
  function LineLeads(ps: seq<Ink>, nlabel: nat, xh: real): (lead: seq<int>)
    ensures LeadsOf(Cents(LabelAccs(ps, nlabel), LineOrder(ps, nlabel)), xh, lead)
  {
    Leads(Cents(LabelAccs(ps, nlabel), LineOrder(ps, nlabel)), xh)
  }

  /** The state before the loop: `newlabels` is the identity, the first label leads. */
  function MergeStart(attr0: seq<BBoxAcc>, sorted: seq<int>): Merge
    requires 1 <= |sorted| && 0 <= sorted[0] < |attr0|
  {
    Merge(attr0, Identity(|attr0|), sorted[0], Centroid(attr0[sorted[0]]))
  }

  /** The scan over the sorted candidates ends in step with the reference. */
  lemma ScanOutcome(ps: seq<Ink>, nlabel: nat, parentId: int, xh: real)
    requires |LineOrder(ps, nlabel)| > 0
    ensures var attr0 := LabelAccs(ps, nlabel);
      var order := LineOrder(ps, nlabel);
      var lead := LineLeads(ps, nlabel, xh);
      var st := MergeFrom(order, xh, 1, MergeStart(attr0, order));
      && |st.remap| == nlabel + 1
      && EmitLines(order, st.attr, parentId, 0) == LinesOf(ps, order, lead, parentId, LeaderPositions(lead, 0))
      && (forall k :: 0 <= k < |order| ==> st.remap[order[k]] == order[lead[k]])
      && (forall x :: 0 <= x <= nlabel && x !in order ==> st.remap[x] == x)
  {
    var attr0 := LabelAccs(ps, nlabel);
    var order := LineOrder(ps, nlabel);
    var lead := LineLeads(ps, nlabel, xh);
    var c := Cents(attr0, order);
    ScanStart(attr0, order, c, xh, lead);
    var st := MergeFrom(order, xh, 1, MergeStart(attr0, order));
    ScanAll(attr0, order, c, xh, lead, 1, MergeStart(attr0, order), st);
    EmitIsLines(ps, attr0, order, lead, parentId, 0, st);
  }

  /** What compute_line_bboxes produces: the LINE regions and the label table the
      watershed image is rewritten through (`newlabels`). */
  datatype LineBoxes = LineBoxes(lines: seq<LayoutRegion>, remap: seq<int>)

  /** compute_line_bboxes: accumulate the ink of every label, keep the labels with a
      box, sort them by centroid, merge each label into the current line while its
      centroid is less than kxheight below the line leader's, and emit one LINE per
      line. The LINEs are those of the reference: one per leader in scan order,
      boxing the ink of all the labels merged into it; the table maps every merged
      label to its leader and leaves every other label alone. */
  function ComputeLineBoxes(ps: seq<Ink>, nlabel: nat, parentId: int, config: KConfig): (r: LineBoxes)
    ensures |r.remap| == nlabel + 1
  {
    var attr0 := LabelAccs(ps, nlabel);
    var order := LineOrder(ps, nlabel);
    if |order| == 0 then LineBoxes([], Identity(nlabel + 1))
    else
      var st := MergeFrom(order, config.kxheight, 1, MergeStart(attr0, order));
      ScanOutcome(ps, nlabel, parentId, config.kxheight);
      LineBoxes(EmitLines(order, st.attr, parentId, 0), st.remap)
  }

  /** The LINEs are those of the reference: one per leader in scan order, boxing the
      ink of all the labels merged into it. */
  lemma LinesAreReference(ps: seq<Ink>, nlabel: nat, parentId: int, config: KConfig)
    ensures var lead := LineLeads(ps, nlabel, config.kxheight);
      ComputeLineBoxes(ps, nlabel, parentId, config).lines
        == LinesOf(ps, LineOrder(ps, nlabel), lead, parentId, LeaderPositions(lead, 0))
  {
    if |LineOrder(ps, nlabel)| > 0 {
      ScanOutcome(ps, nlabel, parentId, config.kxheight);
    }
  }

  /** The table maps every merged label to its line's leader and leaves every other
      label alone. */
  lemma RemapIsReference(ps: seq<Ink>, nlabel: nat, parentId: int, config: KConfig)
    ensures var r := ComputeLineBoxes(ps, nlabel, parentId, config);
      var order := LineOrder(ps, nlabel);
      var lead := LineLeads(ps, nlabel, config.kxheight);
      && (forall k :: 0 <= k < |order| ==> r.remap[order[k]] == order[lead[k]])
      && (forall x :: 0 <= x <= nlabel && x !in order ==> r.remap[x] == x)
  {
    if |LineOrder(ps, nlabel)| > 0 {
      ScanOutcome(ps, nlabel, parentId, config.kxheight);
    }
  }

  // ----- What the result promises ---------------------------------------------------

  /** A relabelling table over 0..n that keeps the background 0, stays within the
      labels and is idempotent: every label it produces is one it keeps. */
  predicate LabelTable(remap: seq<int>, n: nat)
  {
    && |remap| == n + 1 && remap[0] == 0
    && (forall x :: 0 <= x <= n ==> 0 <= remap[x] <= n)
    && (forall x, y {:trigger remap[x], remap[y]} :: 0 <= x <= n && 0 <= y <= n && y == remap[x] ==> remap[y] == y)
  }

  /** A table that sends each listed label to its leader's label and keeps the rest
      is a relabelling table. */
  lemma TableFacts(order: seq<int>, lead: seq<int>, c: seq<real>, xh: real, remap: seq<int>, n: nat)
    requires LeadsOf(c, xh, lead) && |c| == |order| && Distinct(order)
    requires forall k :: 0 <= k < |order| ==> 1 <= order[k] <= n
    requires |remap| == n + 1
    requires forall k :: 0 <= k < |order| ==> remap[order[k]] == order[lead[k]]
    requires forall x :: 0 <= x <= n && x !in order ==> remap[x] == x
    ensures LabelTable(remap, n)
  {
    assert 0 !in order;
    forall x | 0 <= x <= n
      ensures 0 <= remap[x] <= n && remap[remap[x]] == remap[x]
    {
      if x in order {
        var k :| 0 <= k < |order| && order[k] == x;
        LeaderLeads(c, xh, lead, k);
      }
    }
  }

  /** The `newlabels` table keeps the background label 0, stays within the labels,
      and is idempotent: a leader maps to itself. */
  lemma RemapTable(ps: seq<Ink>, nlabel: nat, parentId: int, config: KConfig)
    ensures LabelTable(ComputeLineBoxes(ps, nlabel, parentId, config).remap, nlabel)
  {
    var r := ComputeLineBoxes(ps, nlabel, parentId, config);
    var order := LineOrder(ps, nlabel);
    var lead := LineLeads(ps, nlabel, config.kxheight);
    var c := Cents(LabelAccs(ps, nlabel), order);
    RemapIsReference(ps, nlabel, parentId, config);
    TableFacts(order, lead, c, config.kxheight, r.remap, nlabel);
  }

  /** A label whose ink has no box is not merged: the table keeps it. */
  lemma RemapKeepsBoxless(ps: seq<Ink>, nlabel: nat, parentId: int, config: KConfig, x: int)
    requires 0 <= x <= nlabel && Empty(AccBox(Accumulate(ps, {x})))
    ensures ComputeLineBoxes(ps, nlabel, parentId, config).remap[x] == x
  {
    RemapIsReference(ps, nlabel, parentId, config);
    assert x !in LineOrder(ps, nlabel);
  }

  /** Every LINE is a non-empty box under the region's parent, and its mask instance
      is a candidate label that leads its line. */
  lemma LineShape(ps: seq<Ink>, nlabel: nat, parentId: int, config: KConfig, m: int)
    requires 0 <= m < |ComputeLineBoxes(ps, nlabel, parentId, config).lines|
    ensures var r := ComputeLineBoxes(ps, nlabel, parentId, config);
      var line := r.lines[m];
      && line.category == LINE && line.parentId == parentId && !Empty(line.bbox)
      && line.maskInstanceId in LineOrder(ps, nlabel) && r.remap[line.maskInstanceId] == line.maskInstanceId
  {
    var r := ComputeLineBoxes(ps, nlabel, parentId, config);
    var attr0 := LabelAccs(ps, nlabel);
    var order := LineOrder(ps, nlabel);
    var lead := LineLeads(ps, nlabel, config.kxheight);
    var pos := LeaderPositions(lead, 0);
    LinesAreReference(ps, nlabel, parentId, config);
    RemapIsReference(ps, nlabel, parentId, config);
    var j := pos[m];
    assert r.lines[m] == LineAt(ps, order, lead, parentId, j);
    GroupAccIsUnion(ps, attr0, order, lead, j, |order|);
    GroupAccHasBox(attr0, order, lead, j, |order|);
  }

  /** A LINE holds every ink pixel whose label the table sends to its mask instance. */
  lemma LineHoldsItsInk(ps: seq<Ink>, nlabel: nat, parentId: int, config: KConfig, m: int, k: int)
    requires 0 <= m < |ComputeLineBoxes(ps, nlabel, parentId, config).lines|
    requires 0 <= k < |ps| && ps[k].mark in LineOrder(ps, nlabel)
    requires var r := ComputeLineBoxes(ps, nlabel, parentId, config);
      r.remap[ps[k].mark] == r.lines[m].maskInstanceId
    ensures Has(ComputeLineBoxes(ps, nlabel, parentId, config).lines[m].bbox, ps[k].p)
  {
    var r := ComputeLineBoxes(ps, nlabel, parentId, config);
    var attr0 := LabelAccs(ps, nlabel);
    var order := LineOrder(ps, nlabel);
    var lead := LineLeads(ps, nlabel, config.kxheight);
    var pos := LeaderPositions(lead, 0);
    LinesAreReference(ps, nlabel, parentId, config);
    RemapIsReference(ps, nlabel, parentId, config);
    var j := pos[m];
    assert r.lines[m] == LineAt(ps, order, lead, parentId, j);
    var i :| 0 <= i < |order| && order[i] == ps[k].mark;
    assert order[lead[i]] == order[j];
    assert lead[i] == j;
    var group := GroupLabels(order, lead, j, |order|);
    assert ps[k].mark in group;
    GroupAccIsUnion(ps, attr0, order, lead, j, |order|);
    GroupAccHasBox(attr0, order, lead, j, |order|);
    AccBoxHoldsPixels(ps, group, k);
  }

  /** The LINEs come in centroid order, each at least kxheight below the previous one
      (centroids of the leading labels). */
  lemma LinesApartByCentroid(ps: seq<Ink>, nlabel: nat, parentId: int, config: KConfig, m: int)
    requires 0 <= m < |ComputeLineBoxes(ps, nlabel, parentId, config).lines| - 1
    ensures var lines := ComputeLineBoxes(ps, nlabel, parentId, config).lines;
      Centroid(Accumulate(ps, {lines[m + 1].maskInstanceId})) - Centroid(Accumulate(ps, {lines[m].maskInstanceId}))
        >= config.kxheight
  {
    var order := LineOrder(ps, nlabel);
    var lead := LineLeads(ps, nlabel, config.kxheight);
    var c := Cents(LabelAccs(ps, nlabel), order);
    var pos := LeaderPositions(lead, 0);
    LinesAreReference(ps, nlabel, parentId, config);
    forall j | pos[m] < j < pos[m + 1]
      ensures lead[j] != j
    {
      LeaderPositionsGapless(lead, 0, m, j);
    }
    LinesApart(c, config.kxheight, lead, pos[m], pos[m + 1]);
  }

  /** A candidate label's centroid lies in [c, c + kxheight) of its line's leading
      label's centroid c: the table only merges labels of one text line. */
  lemma MergedLabelNearLine(ps: seq<Ink>, nlabel: nat, parentId: int, config: KConfig, x: int)
    requires x in LineOrder(ps, nlabel)
    ensures var r := ComputeLineBoxes(ps, nlabel, parentId, config);
      var cx := Centroid(Accumulate(ps, {x}));
      var cl := Centroid(Accumulate(ps, {r.remap[x]}));
      cl <= cx && (r.remap[x] == x || cx < cl + config.kxheight)
  {
    var attr0 := LabelAccs(ps, nlabel);
    var order := LineOrder(ps, nlabel);
    var lead := LineLeads(ps, nlabel, config.kxheight);
    var c := Cents(attr0, order);
    var r := ComputeLineBoxes(ps, nlabel, parentId, config);
    RemapIsReference(ps, nlabel, parentId, config);
    var k :| 0 <= k < |order| && order[k] == x;
    SortedCentsNonDecreasing(attr0, order);
    MemberNearLeader(c, config.kxheight, lead, k);
    var l := lead[k];
    assert r.remap[x] == order[l];
    assert c[k] == Centroid(Accumulate(ps, {x}));
    assert c[l] == Centroid(Accumulate(ps, {order[l]}));
  }

  lemma SortedCentsNonDecreasing(attr: seq<BBoxAcc>, order: seq<int>)
    requires forall k :: 0 <= k < |order| ==> 0 <= order[k] < |attr|
    requires SortedLex(attr, order)
    ensures NonDecreasing(Cents(attr, order))
  {
    var c := Cents(attr, order);
    forall a, b | 0 <= a < b < |c|
      ensures c[a] <= c[b]
    {
      assert Key(attr, order[a]) <= Key(attr, order[b]);
    }
  }
}

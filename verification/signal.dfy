/** 1-D signal primitives: the gap-based splitter `partitions` and the
    plateau-aware peak finder `find_peaks` (signal.cpp). */
module Signal {

  const UINT8_MAX: int := 255
  const INT_MAX: int := 0x7fff_ffff
  const INT_MIN: int := -0x8000_0000

  // ===========================================================================
  // partitions / split_section_T
  // ===========================================================================

  /** The two overloads of `partitions`: over bytes a non-zero value is a separator
      and 255 forces a split; over ints a value >= threshold is a separator and
      INT_MAX forces a split. */
  datatype Proj = Bytes | AtLeast(threshold: int)

  predicate IsSep(p: Proj, x: int)
  {
    match p
    case Bytes => x != 0
    case AtLeast(t) => x >= t
  }

  /** std::numeric_limits<T>::max() of the element type. */
  function MaxValue(p: Proj): int
  {
    match p
    case Bytes => UINT8_MAX
    case AtLeast(_) => INT_MAX
  }

  /** The int overload's threshold is itself an int, so INT_MAX is a separator. */
  predicate ThresholdFits(p: Proj)
  {
    p.AtLeast? ==> INT_MIN <= p.threshold <= INT_MAX
  }

  /** Start of the maximal separator run that ends just before or at k. */
  function SepRunStart(p: Proj, data: seq<int>, k: nat): (s: nat)
    requires k <= |data|
    ensures s <= k
    ensures forall j :: s <= j < k ==> IsSep(p, data[j])
    ensures s == 0 || !IsSep(p, data[s - 1])
  {
    if k > 0 && IsSep(p, data[k - 1]) then SepRunStart(p, data, k - 1) else k
  }

  /** End (exclusive) of the maximal separator run that starts at or after k. */
  function SepRunEnd(p: Proj, data: seq<int>, k: nat): (e: nat)
    requires k <= |data|
    ensures k <= e <= |data|
    ensures forall j :: k <= j < e ==> IsSep(p, data[j])
    ensures e == |data| || !IsSep(p, data[e])
    decreases |data| - k
  {
    if k < |data| && IsSep(p, data[k]) then SepRunEnd(p, data, k + 1) else k
  }

  /** Some position of [a, b) holds the forcing maximum. */
  predicate ForcedIn(p: Proj, data: seq<int>, a: int, b: int)
    requires 0 <= a <= b <= |data|
  {
    exists k :: a <= k < b && data[k] == MaxValue(p)
  }

  /** Position k is a separator whose maximal run splits the signal: the run is
      leading, trailing, at least `minSep` long, or holds a forcing maximum. */
  predicate Cut(p: Proj, data: seq<int>, minSep: int, k: int)
  {
    && 0 <= k < |data|
    && IsSep(p, data[k])
    && var a := SepRunStart(p, data, k);
       var b := SepRunEnd(p, data, k);
       a == 0 || b == |data| || b - a >= minSep || ForcedIn(p, data, a, b)
  }

  /** [l, r) is a maximal stretch free of cuts, bounded by cuts or the ends. */
  predicate IsSection(p: Proj, data: seq<int>, minSep: int, l: int, r: int)
  {
    && 0 <= l < r <= |data|
    && (l == 0 || Cut(p, data, minSep, l - 1))
    && (r == |data| || Cut(p, data, minSep, r))
    && forall k :: l <= k < r ==> !Cut(p, data, minSep, k)
  }

  /** A section may start at l: l opens the signal or follows a cut, and is no cut. */
  predicate MayStart(p: Proj, data: seq<int>, minSep: int, l: int)
  {
    (l == 0 || Cut(p, data, minSep, l - 1)) && !Cut(p, data, minSep, l)
  }

  /** The sections the splitter reports: cut-free stretches of at least `minSec`. */
  predicate Reported(p: Proj, data: seq<int>, minSep: int, minSec: int, l: int, r: int)
  {
    IsSection(p, data, minSep, l, r) && r - l >= minSec
  }

  /** Sections in increasing order, each ending strictly before the next starts. */
  predicate Ordered(sections: seq<(int, int)>)
  {
    forall j, k :: 0 <= j < k < |sections| ==> sections[j].1 < sections[k].0
  }

  /** All positions of a maximal separator run [a, b) share its bounds. */
  lemma {:induction false} RunBounds(p: Proj, data: seq<int>, a: nat, b: nat, k: nat)
    requires a <= k < b <= |data|
    requires forall j :: a <= j < b ==> IsSep(p, data[j])
    requires a == 0 || !IsSep(p, data[a - 1])
    requires b == |data| || !IsSep(p, data[b])
    ensures SepRunStart(p, data, k) == a && SepRunEnd(p, data, k) == b
    decreases k - a
  {
    if k > a {
      RunBounds(p, data, a, b, k - 1);
      assert SepRunStart(p, data, k) == SepRunStart(p, data, k - 1);
    }
    RunEndFrom(p, data, b, k);
  }

  lemma {:induction false} RunEndFrom(p: Proj, data: seq<int>, b: nat, k: nat)
    requires k <= b <= |data|
    requires forall j :: k <= j < b ==> IsSep(p, data[j])
    requires b == |data| || !IsSep(p, data[b])
    ensures SepRunEnd(p, data, k) == b
    decreases b - k
  {
    if k < b {
      RunEndFrom(p, data, b, k + 1);
    }
  }

  /** Every position of a separator run lies in its own maximal run. */
  lemma RunOfSep(p: Proj, data: seq<int>, k: nat)
    requires k < |data| && IsSep(p, data[k])
    ensures SepRunStart(p, data, k) <= k < SepRunEnd(p, data, k)
    ensures forall j :: SepRunStart(p, data, k) <= j < SepRunEnd(p, data, k) ==>
      SepRunStart(p, data, j) == SepRunStart(p, data, k) && SepRunEnd(p, data, j) == SepRunEnd(p, data, k)
  {
    var a, b := SepRunStart(p, data, k), SepRunEnd(p, data, k);
    forall j | a <= j < b
      ensures SepRunStart(p, data, j) == a && SepRunEnd(p, data, j) == b
    {
      RunBounds(p, data, a, b, j);
    }
  }

  /** First index at or after i that is not a separator. */
  function SkipSeps(p: Proj, data: seq<int>, i: nat): (j: nat)
    requires i <= |data|
    ensures i <= j <= |data|
    ensures forall k :: i <= k < j ==> IsSep(p, data[k])
    ensures j == |data| || !IsSep(p, data[j])
    decreases |data| - i
  {
    if i < |data| && IsSep(p, data[i]) then SkipSeps(p, data, i + 1) else i
  }

  /** First index at or after i that is a separator. */
  function SkipNonSeps(p: Proj, data: seq<int>, i: nat): (j: nat)
    requires i <= |data|
    ensures i <= j <= |data|
    ensures forall k :: i <= k < j ==> !IsSep(p, data[k])
    ensures j == |data| || IsSep(p, data[j])
    decreases |data| - i
  {
    if i < |data| && !IsSep(p, data[i]) then SkipNonSeps(p, data, i + 1) else i
  }

  /** The loop invariant of split_section_T's outer loop: where the scan stands ... */
  ghost predicate ScanPos(p: Proj, data: seq<int>, minSep: int, i: nat, left: nat)
  {
    && left <= i <= |data|
    && (i == |data| || !IsSep(p, data[i]))
    && (i == |data| ==> left == |data|)
    && (left == 0 || left == |data| || Cut(p, data, minSep, left - 1))
    && (forall k :: left <= k < i ==> !Cut(p, data, minSep, k))
  }

  /** ... and what it has emitted: exactly the reported sections starting before `left`. */
  ghost predicate ScanAcc(p: Proj, data: seq<int>, minSep: int, minSec: int, left: nat, acc: seq<(int, int)>)
  {
    && (forall m :: 0 <= m < |acc| ==> Reported(p, data, minSep, minSec, acc[m].0, acc[m].1))
    && Ordered(acc)
    && (|acc| > 0 ==> acc[|acc| - 1].1 < left || left == |data|)
    && (forall l, r :: Reported(p, data, minSep, minSec, l, r) && l < left ==> (l, r) in acc)
  }

  ghost predicate ScanInv(p: Proj, data: seq<int>, minSep: int, minSec: int, i: nat, left: nat, acc: seq<(int, int)>)
  {
    ScanPos(p, data, minSep, i, left) && ScanAcc(p, data, minSep, minSec, left, acc)
  }

  /** One iteration of the outer loop of split_section_T: skip the 0-section to
      `right`, the following 1-section to `j`, and close the current section when
      the 1-section ends the signal, is long enough, or holds a forcing maximum;
      a closed section is kept when it is at least `minSec` long. */
  function Scan(p: Proj, data: seq<int>, minSep: int, minSec: int, i: nat, left: nat, acc: seq<(int, int)>)
    : seq<(int, int)>
    requires i <= |data|
    decreases |data| - i
  {
    if i == |data| then acc
    else
      var right := SkipNonSeps(p, data, i);
      var j := SkipSeps(p, data, right);
      var cut := j == |data| || j - right >= minSep || ForcedIn(p, data, right, j);
      var acc' := if cut && right - left >= minSec then acc + [(left, right)] else acc;
      var left' := if cut then j else left;
      Scan(p, data, minSep, minSec, j, left', acc')
  }

  /** The separators of a maximal run [a, b) that does not start the signal are
      cuts exactly when the run ends the signal, is long enough or is forced. */
  lemma RunCuts(p: Proj, data: seq<int>, minSep: int, a: nat, b: nat)
    requires 0 < a <= b <= |data|
    requires forall j :: a <= j < b ==> IsSep(p, data[j])
    requires !IsSep(p, data[a - 1])
    requires b == |data| || !IsSep(p, data[b])
    ensures forall k :: a <= k < b ==>
      (Cut(p, data, minSep, k) <==> (b == |data| || b - a >= minSep || ForcedIn(p, data, a, b)))
  {
    forall k | a <= k < b
      ensures SepRunStart(p, data, k) == a && SepRunEnd(p, data, k) == b
    {
      RunBounds(p, data, a, b, k);
    }
  }

  /** A stretch free of cuts between a cut (or the start) and a cut (or the end)
      is a section, and it is the only section starting at its left end. */
  lemma ClosedSection(p: Proj, data: seq<int>, minSep: int, left: nat, right: nat)
    requires left < right <= |data|
    requires left == 0 || Cut(p, data, minSep, left - 1)
    requires right == |data| || Cut(p, data, minSep, right)
    requires forall k :: left <= k < right ==> !Cut(p, data, minSep, k)
    ensures IsSection(p, data, minSep, left, right)
    ensures forall r :: IsSection(p, data, minSep, left, r) ==> r == right
  {
    forall r | IsSection(p, data, minSep, left, r)
      ensures r == right
    {
      assert r < right ==> Cut(p, data, minSep, r);
      assert r > right ==> !Cut(p, data, minSep, right);
    }
  }

  /** The invariant survives one iteration. */
  lemma ScanStep(p: Proj, data: seq<int>, minSep: int, minSec: int, i: nat, left: nat, acc: seq<(int, int)>)
    requires ScanInv(p, data, minSep, minSec, i, left, acc) && i < |data|
    ensures var right := SkipNonSeps(p, data, i);
      var j := SkipSeps(p, data, right);
      var cut := j == |data| || j - right >= minSep || ForcedIn(p, data, right, j);
      var acc' := if cut && right - left >= minSec then acc + [(left, right)] else acc;
      var left' := if cut then j else left;
      ScanInv(p, data, minSep, minSec, j, left', acc')
  {
    var right := SkipNonSeps(p, data, i);
    var j := SkipSeps(p, data, right);
    var cut := j == |data| || j - right >= minSep || ForcedIn(p, data, right, j);
    RunCuts(p, data, minSep, right, j);
    if cut {
      assert forall k :: left <= k < right ==> !Cut(p, data, minSep, k);
      assert j < |data| ==> Cut(p, data, minSep, j - 1);
      CutStepAcc(p, data, minSep, minSec, left, acc, right, j);
    } else {
      NoCutStepInv(p, data, minSep, minSec, i, left, acc, right, j);
    }
  }

  /** The emitted sections after an iteration that closes the section [left, right)
      at the cut run [right, j). */
  lemma CutStepAcc(p: Proj, data: seq<int>, minSep: int, minSec: int, left: nat, acc: seq<(int, int)>,
                   right: nat, j: nat)
    requires left < right <= j <= |data|
    requires left == 0 || Cut(p, data, minSep, left - 1)
    requires right == |data| || Cut(p, data, minSep, right)
    requires forall k :: left <= k < right ==> !Cut(p, data, minSep, k)
    requires forall k :: right <= k < j ==> Cut(p, data, minSep, k)
    requires ScanAcc(p, data, minSep, minSec, left, acc) && left < |data|
    requires right < j || j == |data|
    ensures var acc' := if right - left >= minSec then acc + [(left, right)] else acc;
      ScanAcc(p, data, minSep, minSec, j, acc')
  {
    var acc' := if right - left >= minSec then acc + [(left, right)] else acc;
    ClosedSection(p, data, minSep, left, right);
    NoStartBetween(p, data, minSep, left, right, j);
    CutComplete(p, data, minSep, minSec, left, right, j, acc, acc');
    if right - left >= minSec {
      ReportedProper(p, data, minSep, minSec, acc);
      CutOrdered(acc, left, right, j, |data|);
      ReportedAppend(p, data, minSep, minSec, acc, left, right);
    }
  }

  /** A reported section is a non-empty range. */
  lemma ReportedProper(p: Proj, data: seq<int>, minSep: int, minSec: int, acc: seq<(int, int)>)
    requires forall m :: 0 <= m < |acc| ==> Reported(p, data, minSep, minSec, acc[m].0, acc[m].1)
    ensures forall m :: 0 <= m < |acc| ==> acc[m].0 < acc[m].1
  {
  }

  /** Appending [left, right) after sections that end before left keeps them ordered. */
  lemma CutOrdered(acc: seq<(int, int)>, left: int, right: int, j: int, n: int)
    requires forall m :: 0 <= m < |acc| ==> acc[m].0 < acc[m].1
    requires Ordered(acc) && (|acc| > 0 ==> acc[|acc| - 1].1 < left || left == n)
    requires left < right <= j <= n && left < n && (right < j || j == n)
    ensures Ordered(acc + [(left, right)])
    ensures (acc + [(left, right)])[|acc|].1 < j || j == n
  {
    OrderedAppend(acc, (left, right));
  }

  lemma ReportedAppend(p: Proj, data: seq<int>, minSep: int, minSec: int, acc: seq<(int, int)>, l: int, r: int)
    requires forall m :: 0 <= m < |acc| ==> Reported(p, data, minSep, minSec, acc[m].0, acc[m].1)
    requires Reported(p, data, minSep, minSec, l, r)
    ensures var acc' := acc + [(l, r)];
      forall m :: 0 <= m < |acc'| ==> Reported(p, data, minSep, minSec, acc'[m].0, acc'[m].1)
  {
    var acc' := acc + [(l, r)];
    forall m | 0 <= m < |acc'|
      ensures Reported(p, data, minSep, minSec, acc'[m].0, acc'[m].1)
    {
      if m < |acc| {
        assert acc'[m] == acc[m];
      }
    }
  }

  /** No section starts strictly inside a cut-free stretch followed by a cut run. */
  lemma NoStartBetween(p: Proj, data: seq<int>, minSep: int, left: nat, right: nat, j: nat)
    requires left < right <= j
    requires forall k :: left <= k < right ==> !Cut(p, data, minSep, k)
    requires forall k :: right <= k < j ==> Cut(p, data, minSep, k)
    ensures forall l :: left < l < j ==> !MayStart(p, data, minSep, l)
  {
    forall l | left < l < j
      ensures !MayStart(p, data, minSep, l)
    {
      if l <= right {
        assert !Cut(p, data, minSep, l - 1);
      } else {
        assert Cut(p, data, minSep, l);
      }
    }
  }

  lemma OrderedAppend(acc: seq<(int, int)>, s: (int, int))
    requires Ordered(acc)
    requires forall m :: 0 <= m < |acc| ==> acc[m].0 < acc[m].1
    requires |acc| > 0 ==> acc[|acc| - 1].1 < s.0
    ensures Ordered(acc + [s])
  {
    forall m | 0 <= m < |acc|
      ensures acc[m].1 < s.0
    {
      assert m < |acc| - 1 ==> acc[m].1 < acc[|acc| - 1].0;
    }
  }

  /** After closing [left, right) every reported section starting before j is known. */
  lemma CutComplete(p: Proj, data: seq<int>, minSep: int, minSec: int, left: nat, right: nat, j: nat,
                    acc: seq<(int, int)>, acc': seq<(int, int)>)
    requires acc' == if right - left >= minSec then acc + [(left, right)] else acc
    requires forall l, r :: Reported(p, data, minSep, minSec, l, r) && l < left ==> (l, r) in acc
    requires IsSection(p, data, minSep, left, right)
    requires forall r :: IsSection(p, data, minSep, left, r) ==> r == right
    requires forall l :: left < l < j ==> !MayStart(p, data, minSep, l)
    ensures forall l, r :: Reported(p, data, minSep, minSec, l, r) && l < j ==> (l, r) in acc'
  {
    forall l, r | Reported(p, data, minSep, minSec, l, r) && l < j
      ensures (l, r) in acc'
    {
      assert MayStart(p, data, minSep, l);
    }
  }

  /** The invariant after an iteration whose separator run [right, j) is no cut. */
  lemma NoCutStepInv(p: Proj, data: seq<int>, minSep: int, minSec: int, i: nat, left: nat, acc: seq<(int, int)>,
                     right: nat, j: nat)
    requires ScanInv(p, data, minSep, minSec, i, left, acc) && i < |data|
    requires i < right <= j < |data|
    requires forall k :: i <= k < right ==> !IsSep(p, data[k])
    requires !IsSep(p, data[j])
    requires forall k :: right <= k < j ==> !Cut(p, data, minSep, k)
    ensures ScanInv(p, data, minSep, minSec, j, left, acc)
  {
  }

  /** The outer loop computes exactly the reported sections, in order. */
  lemma {:induction false} ScanCorrect(p: Proj, data: seq<int>, minSep: int, minSec: int, i: nat, left: nat,
                                       acc: seq<(int, int)>)
    requires ScanInv(p, data, minSep, minSec, i, left, acc)
    ensures var r := Scan(p, data, minSep, minSec, i, left, acc);
      && Ordered(r)
      && (forall m :: 0 <= m < |r| ==> Reported(p, data, minSep, minSec, r[m].0, r[m].1))
      && (forall l, r' :: Reported(p, data, minSep, minSec, l, r') ==> (l, r') in r)
    decreases |data| - i
  {
    if i < |data| {
      ScanStep(p, data, minSep, minSec, i, left, acc);
      var right := SkipNonSeps(p, data, i);
      var j := SkipSeps(p, data, right);
      var cut := j == |data| || j - right >= minSep || ForcedIn(p, data, right, j);
      var acc' := if cut && right - left >= minSec then acc + [(left, right)] else acc;
      var left' := if cut then j else left;
      ScanCorrect(p, data, minSep, minSec, j, left', acc');
    }
  }

  /** split_section_T: the sections of `data` separated by separator runs. */
  function SplitSection(p: Proj, data: seq<int>, minSep: int, minSec: int): (r: seq<(int, int)>)
    ensures Ordered(r)
    ensures forall m :: 0 <= m < |r| ==> Reported(p, data, minSep, minSec, r[m].0, r[m].1)
    ensures forall l, r' :: Reported(p, data, minSep, minSec, l, r') ==> (l, r') in r
  {
    var i := SkipSeps(p, data, 0);
    LeadingRunIsCut(p, data, minSep, i);
    ScanCorrect(p, data, minSep, minSec, i, i, []);
    Scan(p, data, minSep, minSec, i, i, [])
  }

  /** Every separator of the leading run is a cut, so no section starts inside it. */
  lemma LeadingRunIsCut(p: Proj, data: seq<int>, minSep: int, i: nat)
    requires i <= |data|
    requires forall k :: 0 <= k < i ==> IsSep(p, data[k])
    requires i == |data| || !IsSep(p, data[i])
    ensures forall k :: 0 <= k < i ==> Cut(p, data, minSep, k)
    ensures forall l, r :: l < i ==> !IsSection(p, data, minSep, l, r)
  {
    forall k | 0 <= k < i
      ensures Cut(p, data, minSep, k)
    {
      RunBounds(p, data, 0, i, k);
    }
    forall l, r | l < i
      ensures !IsSection(p, data, minSep, l, r)
    {
      assert 0 <= l ==> Cut(p, data, minSep, l);
    }
  }

  /** partitions(span<const uint8_t>, min_separator_size, min_section_size) */
  function Partitions(data: seq<int>, minSep: int, minSec: int): seq<(int, int)>
  {
    SplitSection(Bytes, data, minSep, minSec)
  }

  /** partitions(span<const int>, threshold, min_separator_size, min_section_size) */
  function PartitionsThreshold(data: seq<int>, threshold: int, minSep: int, minSec: int): seq<(int, int)>
  {
    SplitSection(AtLeast(threshold), data, minSep, minSec)
  }

  /** What a section looks like: it starts and ends on non-separators, is
      bounded by separators or the ends of the signal, holds no forcing maximum,
      and every separator run inside it lies strictly inside and is shorter than
      `minSep`. */
  lemma SectionShape(p: Proj, data: seq<int>, minSep: int, l: int, r: int)
    requires ThresholdFits(p)
    requires IsSection(p, data, minSep, l, r)
    ensures !IsSep(p, data[l]) && !IsSep(p, data[r - 1])
    ensures l == 0 || IsSep(p, data[l - 1])
    ensures r == |data| || IsSep(p, data[r])
    ensures forall k :: l <= k < r ==> data[k] != MaxValue(p)
    ensures forall k :: l <= k < r && IsSep(p, data[k]) ==>
      l < SepRunStart(p, data, k) && SepRunEnd(p, data, k) < r
      && SepRunEnd(p, data, k) - SepRunStart(p, data, k) < minSep
  {
    forall k | l <= k < r && IsSep(p, data[k])
      ensures l < SepRunStart(p, data, k) && SepRunEnd(p, data, k) < r
      ensures SepRunEnd(p, data, k) - SepRunStart(p, data, k) < minSep
      ensures !ForcedIn(p, data, SepRunStart(p, data, k), SepRunEnd(p, data, k))
    {
      SepInsideSection(p, data, minSep, l, r, k);
    }
    MaxIsSep(p);
    forall k | l <= k < r
      ensures data[k] != MaxValue(p)
    {
      if IsSep(p, data[k]) {
        RunOfSep(p, data, k);
      }
    }
  }

  lemma MaxIsSep(p: Proj)
    requires ThresholdFits(p)
    ensures IsSep(p, MaxValue(p))
  {
  }

  /** A separator inside a section belongs to a run that is not a cut. */
  lemma SepInsideSection(p: Proj, data: seq<int>, minSep: int, l: int, r: int, k: nat)
    requires IsSection(p, data, minSep, l, r)
    requires l <= k < r && IsSep(p, data[k])
    ensures l < SepRunStart(p, data, k) && SepRunEnd(p, data, k) < r
    ensures SepRunEnd(p, data, k) - SepRunStart(p, data, k) < minSep
    ensures !ForcedIn(p, data, SepRunStart(p, data, k), SepRunEnd(p, data, k))
  {
    RunOfSep(p, data, k);
    var a, b := SepRunStart(p, data, k), SepRunEnd(p, data, k);
    assert !Cut(p, data, minSep, k);

  }

  /** The signal of the documentation's worked example. */
  const Worked: seq<int> := [1, 0, 0, 0, 1, 1, 0, 0, 1, 1, 1, 0, 0, 1]

  /** Worked example, first iteration: the 1-run at 4..5 is too short to cut. */
  lemma WorkedFirstRun()
    ensures Scan(AtLeast(1), Worked, 3, 0, 1, 1, []) == Scan(AtLeast(1), Worked, 3, 0, 6, 1, [])
  {
    var p := AtLeast(1);
    assert SkipNonSeps(p, Worked, 1) == 4 && SkipSeps(p, Worked, 4) == 6;
    assert !ForcedIn(p, Worked, 4, 6);
  }

  /** Worked example, second iteration: the 1-run at 8..10 closes (1, 8). */
  lemma WorkedSecondRun()
    ensures Scan(AtLeast(1), Worked, 3, 0, 6, 1, []) == Scan(AtLeast(1), Worked, 3, 0, 11, 11, [(1, 8)])
  {
    var p := AtLeast(1);
    assert SkipNonSeps(p, Worked, 6) == 8 && SkipSeps(p, Worked, 8) == 11;
  }

  /** Worked example, last iteration: the end of the signal closes (11, 13). */
  lemma WorkedLastRun()
    ensures Scan(AtLeast(1), Worked, 3, 0, 11, 11, [(1, 8)]) == [(1, 8), (11, 13)]
  {
    var p := AtLeast(1);
    assert SkipNonSeps(p, Worked, 12) == 13 && SkipNonSeps(p, Worked, 11) == 13 && SkipSeps(p, Worked, 13) == 14;
    assert Scan(p, Worked, 3, 0, 11, 11, [(1, 8)]) == Scan(p, Worked, 3, 0, 14, 14, [(1, 8), (11, 13)]);
  }

  /** The worked example of the documentation: [1,0,0,0,1,1,0,0,1,1,1,0,0,1] with
      threshold 1 and min_separator_size 3 gives [(1,8), (11,13)]; the 1-run
      of length 2 at 4..5 does not split. */
  lemma PartitionsWorkedExample()
    ensures PartitionsThreshold([1, 0, 0, 0, 1, 1, 0, 0, 1, 1, 1, 0, 0, 1], 1, 3, 0) == [(1, 8), (11, 13)]
  {
    assert SkipSeps(AtLeast(1), Worked, 0) == 1;
    WorkedFirstRun();
    WorkedSecondRun();
    WorkedLastRun();
  }

  // ===========================================================================
  // find_peaks
  // ===========================================================================

  /** First index of the run of values equal to c[i] that holds i. */
  function PlateauStart(c: seq<real>, i: nat): (s: nat)
    requires i < |c|
    ensures s <= i
    ensures forall j :: s <= j <= i ==> c[j] == c[i]
    ensures s == 0 || c[s - 1] != c[i]
  {
    if i > 0 && c[i - 1] == c[i] then PlateauStart(c, i - 1) else i
  }

  /** Last index of the run of values equal to c[i] that holds i. */
  function PlateauEnd(c: seq<real>, i: nat): (e: nat)
    requires i < |c|
    ensures i <= e < |c|
    ensures forall j :: i <= j <= e ==> c[j] == c[i]
    ensures e == |c| - 1 || c[e + 1] != c[i]
    decreases |c| - i
  {
    if i + 1 < |c| && c[i + 1] == c[i] then PlateauEnd(c, i + 1) else i
  }

  /** Nothing to the left of i's plateau is greater: it opens the signal or rises. */
  predicate RisesTo(c: seq<real>, i: nat)
    requires i < |c|
  {
    var s := PlateauStart(c, i);
    s == 0 || c[s - 1] < c[i]
  }

  /** Nothing to the right of i's plateau is greater: it closes the signal or falls. */
  predicate FallsFrom(c: seq<real>, i: nat)
    requires i < |c|
  {
    var e := PlateauEnd(c, i);
    e == |c| - 1 || c[e + 1] < c[i]
  }

  /** i lies on a plateau (possibly one sample wide) whose neighbours are both
      strictly lower or absent: a local maximum of the signal. */
  predicate IsPeak(c: seq<real>, i: int)
  {
    0 <= i < |c| && RisesTo(c, i) && FallsFrom(c, i)
  }

  /** The order find_peaks returns: by non-increasing value. */
  predicate ByDecreasingValue(c: seq<real>, s: seq<int>)
  {
    && (forall k :: 0 <= k < |s| ==> 0 <= s[k] < |c|)
    && forall j, k :: 0 <= j < k < |s| ==> c[s[j]] >= c[s[k]]
  }

  /** Inserts index x after every index of greater or equal value. */
  function InsertByValue(c: seq<real>, x: int, s: seq<int>): (r: seq<int>)
    requires 0 <= x < |c| && forall k :: 0 <= k < |s| ==> 0 <= s[k] < |c|
    ensures multiset(r) == multiset(s) + multiset{x}
    ensures forall k :: 0 <= k < |r| ==> 0 <= r[k] < |c|
  {
    if |s| == 0 then [x]
    else if c[s[0]] >= c[x] then
      var tail := s[1..];
      assert s == [s[0]] + tail;
      var rest := InsertByValue(c, x, tail);
      assert multiset([s[0]] + rest) == multiset{s[0]} + multiset(rest);
      [s[0]] + rest
    else [x] + s
  }

  /** An index no lower in value than every index of an ordered sequence may be put
      in front of it. */
  lemma ConsOrdered(c: seq<real>, a: int, rest: seq<int>)
    requires 0 <= a < |c| && ByDecreasingValue(c, rest)
    requires forall k :: 0 <= k < |rest| ==> c[a] >= c[rest[k]]
    ensures ByDecreasingValue(c, [a] + rest)
  {
    var r := [a] + rest;
    forall j, k | 0 <= j < k < |r|
      ensures c[r[j]] >= c[r[k]]
    {
      assert r[k] == rest[k - 1];
      if j > 0 {
        assert r[j] == rest[j - 1];
      }
    }
  }

  /** Inserting into a sequence ordered by value keeps it ordered. */
  lemma {:induction false} InsertKeepsOrder(c: seq<real>, x: int, s: seq<int>)
    requires 0 <= x < |c| && ByDecreasingValue(c, s)
    ensures ByDecreasingValue(c, InsertByValue(c, x, s))
  {
    if |s| == 0 {
      assert InsertByValue(c, x, s) == [x];
    } else if c[s[0]] >= c[x] {
      var tail := s[1..];
      InsertKeepsOrder(c, x, tail);
      var rest := InsertByValue(c, x, tail);
      forall k | 0 <= k < |rest|
        ensures c[s[0]] >= c[rest[k]]
      {
        assert rest[k] in multiset(tail) + multiset{x};
        if rest[k] != x {
          var i :| 0 <= i < |tail| && tail[i] == rest[k];
          assert s[i + 1] == rest[k];
        }
      }
      ConsOrdered(c, s[0], rest);
      assert InsertByValue(c, x, s) == [s[0]] + rest;
    } else {
      forall k | 0 <= k < |s|
        ensures c[x] >= c[s[k]]
      {
        assert c[s[0]] >= c[s[k]] || k == 0;
      }
      ConsOrdered(c, x, s);
    }
  }

  /** The sort of find_peaks. std::ranges::sort is not stable, so the source fixes no
      order among equal values; this one keeps equal values in index order. */
  function SortByValue(c: seq<real>, s: seq<int>): (r: seq<int>)
    requires forall k :: 0 <= k < |s| ==> 0 <= s[k] < |c|
    ensures multiset(r) == multiset(s)
    ensures ByDecreasingValue(c, r)
  {
    if |s| == 0 then []
    else
      assert s == [s[0]] + s[1..];
      var sorted := SortByValue(c, s[1..]);
      InsertKeepsOrder(c, s[0], sorted);
      InsertByValue(c, s[0], sorted)
  }

  /** A strictly increasing sequence holds each of its values once. */
  lemma {:induction false} IncreasingCounts(s: seq<int>)
    requires forall j, k :: 0 <= j < k < |s| ==> s[j] < s[k]
    ensures forall x :: multiset(s)[x] == if x in s then 1 else 0
  {
    if |s| > 0 {
      IncreasingCounts(s[1..]);
      assert s == [s[0]] + s[1..];
      assert s[0] !in s[1..];
    }
  }

  /** Entering i from its left neighbour decides whether i's plateau rises. */
  lemma RisesToStep(c: seq<real>, i: nat)
    requires 1 <= i < |c|
    ensures RisesTo(c, i) == (c[i - 1] < c[i] || (c[i - 1] == c[i] && RisesTo(c, i - 1)))
  {
  }

  /** Leaving i towards its right neighbour decides whether i's plateau falls;
      neighbours on one plateau share the rising side. */
  lemma FallsFromStep(c: seq<real>, i: nat)
    requires i + 1 < |c|
    ensures FallsFrom(c, i) == (c[i + 1] < c[i] || (c[i + 1] == c[i] && FallsFrom(c, i + 1)))
    ensures c[i + 1] == c[i] ==> RisesTo(c, i + 1) == RisesTo(c, i)
  {
  }

  /** The forward pass of find_peaks. */
  method MarkRising(c: seq<real>) returns (isPeak: seq<bool>)
    ensures |isPeak| == |c|
    ensures forall k :: 0 <= k < |c| ==> isPeak[k] == RisesTo(c, k)
  {
    var n := |c|;
    isPeak := seq(n, _ => true);
    var i := 1;
    while i < n
      invariant n == 0 || 1 <= i <= n
      invariant |isPeak| == n
      invariant forall k :: 0 <= k < n && k < i ==> isPeak[k] == RisesTo(c, k)
      invariant forall k :: i <= k < n ==> isPeak[k]
    {
      RisesToStep(c, i);
      if c[i - 1] > c[i] {
        isPeak := isPeak[i := false];
      } else if c[i - 1] == c[i] && !isPeak[i - 1] {
        isPeak := isPeak[i := false];
      }
      i := i + 1;
    }
  }

  /** The backward pass of find_peaks, over the marks of the forward pass. */
  method MarkFalling(c: seq<real>, rising: seq<bool>) returns (isPeak: seq<bool>)
    requires |rising| == |c|
    requires forall k :: 0 <= k < |c| ==> rising[k] == RisesTo(c, k)
    ensures |isPeak| == |c|
    ensures forall k :: 0 <= k < |c| ==> isPeak[k] == IsPeak(c, k)
  {
    var n := |c|;
    isPeak := rising;
    if n > 0 {
      assert PlateauEnd(c, n - 1) == n - 1;
    }
    var i := n - 2;
    while i >= 0
      invariant -1 <= i <= n - 2 || (n == 0 && i == -2)
      invariant |isPeak| == n
      invariant forall k :: 0 <= k <= i ==> isPeak[k] == RisesTo(c, k)
      invariant forall k :: 0 <= k < n && i < k ==> isPeak[k] == IsPeak(c, k)
    {
      FallsFromStep(c, i);
      if c[i + 1] > c[i] {
        isPeak := isPeak[i := false];
      } else if c[i + 1] == c[i] && !isPeak[i + 1] {
        isPeak := isPeak[i := false];
      }
      i := i - 1;
    }
  }

  /** The marked indices, in increasing order. */
  method CollectMarked(marks: seq<bool>) returns (found: seq<int>)
    ensures forall j, k :: 0 <= j < k < |found| ==> found[j] < found[k]
    ensures forall k :: 0 <= k < |found| ==> 0 <= found[k] < |marks|
    ensures forall k :: k in found <==> 0 <= k < |marks| && marks[k]
  {
    found := [];
    var i := 0;
    while i < |marks|
      invariant 0 <= i <= |marks|
      invariant forall k :: 0 <= k < |found| ==> 0 <= found[k] < i
      invariant forall j, k :: 0 <= j < k < |found| ==> found[j] < found[k]
      invariant forall k :: k in found <==> 0 <= k < i && marks[k]
    {
      if marks[i] {
        found := found + [i];
      }
      i := i + 1;
    }
  }

  /** find_peaks: the indices of the local maxima (every index of a maximal
      plateau), each once, by non-increasing value. */
  method FindPeaks(c: seq<real>) returns (peaks: seq<int>)
    ensures forall i :: multiset(peaks)[i] == if IsPeak(c, i) then 1 else 0
    ensures ByDecreasingValue(c, peaks)
  {
    var rising := MarkRising(c);
    var isPeak := MarkFalling(c, rising);
    var found := CollectMarked(isPeak);
    IncreasingCounts(found);
    peaks := SortByValue(c, found);
  }
}

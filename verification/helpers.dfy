/** Small image and array helpers of the DOM builder (DOMBuilder_helpers.cpp). */
module Helpers {
  import opened Geometry
  import opened Raster
  import opened Numeric

  const UINT_MAX: int := 0xffff_ffff

  /** The sum of a sequence, accumulated from the left. */
  function Sum(s: seq<int>): int
  {
    if |s| == 0 then 0 else Sum(s[..|s| - 1]) + s[|s| - 1]
  }

  lemma SumAppend(s: seq<int>, x: int)
    ensures Sum(s + [x]) == Sum(s) + x
  {
    assert (s + [x])[..|s|] == s;
  }

  /** Sum of the element-wise sum of two sequences. */
  lemma {:induction false} SumPointwise(a: seq<int>, b: seq<int>, c: seq<int>)
    requires |a| == |b| == |c|
    requires forall k :: 0 <= k < |c| ==> c[k] == a[k] + b[k]
    ensures Sum(c) == Sum(a) + Sum(b)
  {
    if |c| > 0 {
      var n := |c| - 1;
      SumPointwise(a[..n], b[..n], c[..n]);
    }
  }

  /** A sum of non-negative values only grows along a prefix. */
  lemma {:induction false} SumPrefixMonotonic(s: seq<int>, j: nat, k: nat)
    requires j <= k <= |s|
    requires forall i :: 0 <= i < |s| ==> s[i] >= 0
    ensures Sum(s[..j]) <= Sum(s[..k])
    decreases k - j
  {
    if j < k {
      SumPrefixMonotonic(s, j, k - 1);
      assert s[..k][..k - 1] == s[..k - 1];
    }
  }

  // ----- sum_along_x_axis / sum_along_y_axis --------------------------------------

  /** The reference row sums: one per row of the domain. */
  function RowSums(img: Image): (r: seq<int>)
    requires WellFormed(img)
    ensures |r| == img.dom.height
  {
    seq(img.dom.height, y requires 0 <= y < img.dom.height => Sum(RowAt(img, y)))
  }

  /** The reference column sums: one per column of the domain. */
  function ColumnSums(img: Image): (r: seq<int>)
    requires WellFormed(img)
    ensures |r| == img.dom.width
  {
    seq(img.dom.width, x requires 0 <= x < img.dom.width => Sum(ColumnAt(img, x)))
  }

  /** sum_along_x_axis: the running accumulation of each row. */
  method SumAlongX(img: Image) returns (sum: seq<int>)
    requires WellFormed(img)
    ensures sum == RowSums(img)
  {
    sum := [];
    var y := 0;
    while y < img.dom.height
      invariant 0 <= y <= img.dom.height
      invariant sum == RowSums(img)[..y]
    {
      var line := img.rows[y];
      var acc := 0;
      var x := 0;
      while x < img.dom.width
        invariant 0 <= x <= img.dom.width
        invariant acc == Sum(line[..x])
      {
        SumAppend(line[..x], line[x]);
        assert line[..x + 1] == line[..x] + [line[x]];
        acc := acc + line[x];
        x := x + 1;
      }
      assert line[..img.dom.width] == line;
      sum := sum + [acc];
      y := y + 1;
    }
  }

  /** sum_along_y_axis: every pixel, in raster order, is added to the sum of its
      column (indexed from the domain's left edge). */
  method SumAlongY(img: Image) returns (sum: seq<int>)
    requires WellFormed(img)
    ensures sum == ColumnSums(img)
  {
    var w := img.dom.width;
    sum := seq(w, _ => 0);
    var y := 0;
    while y < img.dom.height
      invariant 0 <= y <= img.dom.height
      invariant |sum| == w
      invariant forall c :: 0 <= c < w ==> sum[c] == Sum(ColumnAt(img, c)[..y])
    {
      var x := 0;
      while x < w
        invariant 0 <= x <= w
        invariant |sum| == w
        invariant forall c :: 0 <= c < x ==> sum[c] == Sum(ColumnAt(img, c)[..y + 1])
        invariant forall c :: x <= c < w ==> sum[c] == Sum(ColumnAt(img, c)[..y])
      {
        ColumnStep(img, x, y);
        sum := sum[x := sum[x] + img.rows[y][x]];
        x := x + 1;
      }
      y := y + 1;
    }
    forall c | 0 <= c < w
      ensures sum[c] == ColumnSums(img)[c]
    {
      assert ColumnAt(img, c)[..img.dom.height] == ColumnAt(img, c);
    }
  }

  lemma ColumnStep(img: Image, x: int, y: int)
    requires WellFormed(img) && 0 <= x < img.dom.width && 0 <= y < img.dom.height
    ensures Sum(ColumnAt(img, x)[..y + 1]) == Sum(ColumnAt(img, x)[..y]) + img.rows[y][x]
  {
    assert ColumnAt(img, x)[..y + 1][..y] == ColumnAt(img, x)[..y];
  }

  /** The rows without the last one. */
  function DropLastRow(img: Image): (r: Image)
    requires WellFormed(img) && img.dom.height > 0
    ensures WellFormed(r)
  {
    Image(Box(img.dom.x, img.dom.y, img.dom.width, img.dom.height - 1), img.rows[..img.dom.height - 1])
  }

  /** Both projections add up to the same total: the sum of all pixels. */
  lemma {:induction false} ProjectionTotals(img: Image)
    requires WellFormed(img)
    ensures Sum(RowSums(img)) == Sum(ColumnSums(img))
    decreases img.dom.height
  {
    if img.dom.height == 0 {
      ZeroColumns(img);
    } else {
      var top := DropLastRow(img);
      ProjectionTotals(top);
      RowSumsSplit(img);
      ColumnSumsSplit(img);
      SumPointwise(ColumnSums(top), img.rows[img.dom.height - 1], ColumnSums(img));
    }
  }

  lemma RowSumsSplit(img: Image)
    requires WellFormed(img) && img.dom.height > 0
    ensures Sum(RowSums(img)) == Sum(RowSums(DropLastRow(img))) + Sum(img.rows[img.dom.height - 1])
  {
    var h := img.dom.height - 1;
    assert RowSums(img)[..h] == RowSums(DropLastRow(img));
  }

  lemma ColumnSumsSplit(img: Image)
    requires WellFormed(img) && img.dom.height > 0
    ensures forall x :: 0 <= x < img.dom.width ==>
      ColumnSums(img)[x] == ColumnSums(DropLastRow(img))[x] + img.rows[img.dom.height - 1][x]
  {
    var h := img.dom.height - 1;
    var top := DropLastRow(img);
    forall x | 0 <= x < img.dom.width
      ensures ColumnSums(img)[x] == ColumnSums(top)[x] + img.rows[h][x]
    {
      assert ColumnAt(img, x)[..h] == ColumnAt(top, x);
    }
  }

  lemma {:induction false} ZeroColumns(img: Image)
    requires WellFormed(img) && img.dom.height == 0
    ensures Sum(ColumnSums(img)) == 0
  {
    var z := seq(img.dom.width, _ => 0);
    forall x | 0 <= x < img.dom.width
      ensures ColumnSums(img)[x] == z[x] + z[x]
    {
      assert ColumnAt(img, x) == [];
    }
    SumPointwise(z, z, ColumnSums(img));
    AllZero(z);
  }

  lemma {:induction false} AllZero(z: seq<int>)
    requires forall k :: 0 <= k < |z| ==> z[k] == 0
    ensures Sum(z) == 0
  {
    if |z| > 0 {
      AllZero(z[..|z| - 1]);
    }
  }

  // ----- detect_leading_space ------------------------------------------------------

  /** detect_leading_space(values, n, threshold): the first index whose value is
      below the threshold, or n. */
  function DetectLeadingSpace(values: seq<int>, threshold: int): (i: nat)
    ensures i <= |values|
    ensures forall k :: 0 <= k < i ==> values[k] >= threshold
    ensures i < |values| ==> values[i] < threshold
  {
    if |values| == 0 then 0
    else if values[0] < threshold then 0
    else 1 + DetectLeadingSpace(values[1..], threshold)
  }

  /** detect_leading_space(values, n) over bytes: the first non-zero index, or n.
      The declaration's comment announces the first zero; the loop breaks on the
      first non-zero value. */
  function DetectLeadingSpaceBytes(values: seq<int>): (i: nat)
    ensures i <= |values|
    ensures forall k :: 0 <= k < i ==> values[k] == 0
    ensures i < |values| ==> values[i] != 0
  {
    if |values| == 0 then 0
    else if values[0] != 0 then 0
    else 1 + DetectLeadingSpaceBytes(values[1..])
  }

  // ----- get_rank / rank -------------------------------------------------------------

  /** get_rank(histogram, n, rank): turn the histogram into its prefix sums, in
      place, then return the first index whose cumulated count reaches
      int(rank * total), or n. (std::lower_bound is a binary search; on the
      non-decreasing prefix sums it finds the same index as this scan.) */
  method GetRank(histogram: seq<int>, rank: real) returns (idx: int, prefix: seq<int>)
    requires |histogram| >= 1
    requires forall k :: 0 <= k < |histogram| ==> histogram[k] >= 0
    requires Sum(histogram) <= UINT_MAX
    requires 0.0 <= rank && rank * Sum(histogram) as real < UINT_MAX as real + 1.0
    ensures |prefix| == |histogram|
    ensures forall k :: 0 <= k < |prefix| ==> prefix[k] == Sum(histogram[..k + 1])
    ensures 0 <= idx <= |histogram|
    ensures forall k :: 0 <= k < idx ==> prefix[k] < RankThreshold(Sum(histogram), rank)
    ensures forall k :: idx <= k < |prefix| ==> prefix[k] >= RankThreshold(Sum(histogram), rank)
    ensures rank <= 1.0 ==> idx < |histogram|
  {
    var n := |histogram|;
    prefix := histogram;
    var acc := 0;
    var i := 0;
    while i < n
      invariant 0 <= i <= n && |prefix| == n
      invariant acc == Sum(histogram[..i])
      invariant forall k :: 0 <= k < i ==> prefix[k] == Sum(histogram[..k + 1])
    {
      SumAppend(histogram[..i], histogram[i]);
      assert histogram[..i + 1] == histogram[..i] + [histogram[i]];
      acc := acc + histogram[i];
      prefix := prefix[i := acc];
      i := i + 1;
    }
    assert histogram[..n] == histogram;
    var r := RankThreshold(Sum(histogram), rank);
    idx := 0;
    while idx < n && prefix[idx] < r
      invariant 0 <= idx <= n
      invariant forall k :: 0 <= k < idx ==> prefix[k] < r
    {
      idx := idx + 1;
    }
    forall k | idx <= k < n
      ensures prefix[k] >= r
    {
      SumPrefixMonotonic(histogram, idx + 1, k + 1);
    }
    if rank <= 1.0 {
      SumPrefixMonotonic(histogram, 0, n);
      RankThresholdAtMostTotal(Sum(histogram), rank);
      assert prefix[n - 1] == Sum(histogram);
    }
  }

  /** int(rank * total), the count the rank lookup must reach. */
  function RankThreshold(total: int, rank: real): int
  {
    Trunc(rank * total as real)
  }

  lemma RankThresholdAtMostTotal(total: int, rank: real)
    requires 0 <= total && 0.0 <= rank <= 1.0
    ensures 0 <= RankThreshold(total, rank) <= total
  {
    var t := total as real;
    var x := rank * t;
    assert 0.0 <= x by {
      MulNonNegative(rank, t);
    }
    assert x <= t by {
      MulNonNegative(1.0 - rank, t);
      assert (1.0 - rank) * t == t - x;
    }
    assert RankThreshold(total, rank) == Trunc(x);
  }

  lemma MulNonNegative(a: real, b: real)
    requires 0.0 <= a && 0.0 <= b
    ensures 0.0 <= a * b
  {
  }

  /** The number of values equal to v. */
  function CountEq(values: seq<int>, v: int): (c: nat)
    ensures c <= |values|
  {
    if |values| == 0 then 0 else CountEq(values[..|values| - 1], v) + (if values[|values| - 1] == v then 1 else 0)
  }

  /** The number of values at most v. */
  function CountAtMost(values: seq<int>, v: int): (c: nat)
    ensures c <= |values|
  {
    if |values| == 0 then 0 else CountAtMost(values[..|values| - 1], v) + (if values[|values| - 1] <= v then 1 else 0)
  }

  lemma {:induction false} CountAtMostStep(values: seq<int>, v: int)
    ensures CountAtMost(values, v) == CountAtMost(values, v - 1) + CountEq(values, v)
  {
    if |values| > 0 {
      CountAtMostStep(values[..|values| - 1], v);
    }
  }

  lemma {:induction false} CountAtMostBelowRange(values: seq<int>, v: int)
    requires forall k :: 0 <= k < |values| ==> values[k] > v
    ensures CountAtMost(values, v) == 0
  {
    if |values| > 0 {
      CountAtMostBelowRange(values[..|values| - 1], v);
    }
  }

  lemma {:induction false} CountAtMostAboveRange(values: seq<int>, v: int)
    requires forall k :: 0 <= k < |values| ==> values[k] <= v
    ensures CountAtMost(values, v) == |values|
  {
    if |values| > 0 {
      CountAtMostAboveRange(values[..|values| - 1], v);
    }
  }

  /** The 256-bin histogram of byte values. */
  function Histogram(values: seq<int>): (h: seq<int>)
    ensures |h| == 256
    ensures forall v :: 0 <= v < 256 ==> h[v] >= 0
  {
    seq(256, v requires 0 <= v < 256 => CountEq(values, v))
  }

  /** Cumulated bins count the values at most the bin. */
  lemma {:induction false} HistogramPrefix(values: seq<int>, k: nat)
    requires forall i :: 0 <= i < |values| ==> 0 <= values[i] <= 255
    requires k <= 256
    ensures Sum(Histogram(values)[..k]) == CountAtMost(values, k - 1)
  {
    if k == 0 {
      CountAtMostBelowRange(values, -1);
    } else {
      HistogramPrefix(values, k - 1);
      assert Histogram(values)[..k][..k - 1] == Histogram(values)[..k - 1];
      CountAtMostStep(values, k - 1);
    }
  }

  /** All pixels of an image, row after row. */
  function Pixels(rows: seq<seq<int>>): seq<int>
  {
    if |rows| == 0 then [] else Pixels(rows[..|rows| - 1]) + rows[|rows| - 1]
  }

  lemma {:induction false} PixelsAreBytes(img: Image, k: nat)
    requires WellFormed(img) && IsBytes(img) && k <= |img.rows|
    ensures forall i :: 0 <= i < |Pixels(img.rows[..k])| ==> 0 <= Pixels(img.rows[..k])[i] <= 255
  {
    if k > 0 {
      PixelsAreBytes(img, k - 1);
      assert img.rows[..k][..k - 1] == img.rows[..k - 1];
    }
  }

  /** rank(input, r): the smallest grey level v such that at least int(r * N) of
      the N pixels are at most v. For 0 <= r <= 1 it is a grey level. */
  method Rank(img: Image, r: real) returns (v: int)
    requires WellFormed(img) && IsBytes(img)
    requires |Pixels(img.rows)| <= UINT_MAX
    requires 0.0 <= r && r * |Pixels(img.rows)| as real < UINT_MAX as real + 1.0
    ensures 0 <= v <= 256
    ensures v < 256 ==> CountAtMost(Pixels(img.rows), v) >= RankThreshold(|Pixels(img.rows)|, r)
    ensures forall u :: 0 <= u < v ==> CountAtMost(Pixels(img.rows), u) < RankThreshold(|Pixels(img.rows)|, r)
    ensures r <= 1.0 ==> v <= 255
  {
    var values := Pixels(img.rows);
    assert img.rows[..|img.rows|] == img.rows;
    PixelsAreBytes(img, |img.rows|);
    var h := Histogram(values);
    HistogramPrefix(values, 256);
    assert h[..256] == h;
    CountAtMostAboveRange(values, 255);
    var prefix;
    v, prefix := GetRank(h, r);
    forall u | 0 <= u < 256
      ensures prefix[u] == CountAtMost(values, u)
    {
      HistogramPrefix(values, u + 1);
    }
  }
}

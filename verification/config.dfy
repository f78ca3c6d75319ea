/** The layout thresholds derived from the x-height (config.cpp, config.hpp). */
module Config {
  import opened Numeric

  /** Maximal deviation, in degrees, for a segment to count as horizontal or vertical. */
  const kAngleTolerance: real := 5.0
  /** Grey level below which a pixel counts as ink for the layout. */
  const kLayoutWhiteLevel: int := 150
  /** Fraction of the page probed as margin by the border detection (0.1f). */
  const kLayoutPageMargin: real := 0.1

  /** The per-document part of KConfig; the float members are exact reals. */
  datatype KConfig = KConfig(
    kxheight: real,
    kOneEm: real,
    kLineHeight: real,
    kWordSpacing: real,
    kWordWidth: real,
    kLayoutBlockOpeningWidth: int,
    kLayoutBlockOpeningHeight: int,
    kLayoutBlockMinHeight: int,
    kLayoutBlockMinWidth: int,
    kColumnMinSpacing: int,
    kColumnMinSize: int,
    kCountEmptyLine: int,
    kSectionMinSpacing: int,
    kSectionMinSize: int)

  /** C++ `n / 2` on int: the quotient truncated toward zero. */
  function HalveTowardZero(n: int): (h: int)
    ensures n >= 0 ==> 0 <= 2 * h <= n < 2 * h + 2
    ensures n < 0 ==> 2 * h - 2 < n <= 2 * h <= 0
  {
    if n >= 0 then n / 2 else -((-n) / 2)
  }

  /** The x-height the thresholds are derived from: halved when scale is 0. */
  function EffectiveXHeight(xheight: int, scale: int): int
  {
    if scale == 0 then HalveTowardZero(xheight) else xheight
  }

  /** KConfig::KConfig(xheight, scale). */
  function MakeConfig(xheight: int, scale: int): (c: KConfig)
    ensures var xh := EffectiveXHeight(xheight, scale);
      && c.kxheight == xh as real
      && c.kOneEm == 1.5 * c.kxheight && c.kLineHeight == 2.0 * c.kxheight
      && c.kWordSpacing == 0.5 * c.kxheight && c.kWordWidth == 4.0 * c.kxheight
      && c.kLayoutBlockOpeningWidth == c.kColumnMinSpacing
      && c.kLayoutBlockOpeningHeight == xh && c.kSectionMinSize == xh
      && c.kColumnMinSize == 9 * xh
      && (xh >= 0 ==>
           && c.kColumnMinSpacing == (3 * xh + 1) / 2
           && c.kLayoutBlockMinHeight == (xh + 1) / 2
           && c.kLayoutBlockMinWidth == 10 * xh
           && c.kSectionMinSpacing == (xh + 1) / 2
           && c.kCountEmptyLine == (3 * xh + 2) / 4)
  {
    var xh := EffectiveXHeight(xheight, scale);
    var oneEm := 1.5 * xh as real;
    ConversionsOfIntegers(xh);
    ConversionsOfIntegers(9 * xh);
    RoundOfQuarter(xh);
    KConfig(
      xh as real, oneEm, 2.0 * xh as real, 0.5 * xh as real, 4.0 * xh as real,
      Round(oneEm), Round(xh as real),
      Trunc(0.5 * xh as real + 0.5), Trunc(10.0 * xh as real + 0.5),
      Round(1.0 * oneEm), Round(6.0 * oneEm),
      Round(0.5 * oneEm),
      Round(0.5 * xh as real), Round(xh as real))
  }

  /** The roundings of multiples of a quarter of a non-negative integer. */
  lemma RoundOfQuarter(xh: int)
    ensures xh >= 0 ==> Round(1.5 * xh as real) == (3 * xh + 1) / 2
    ensures xh >= 0 ==> Round(0.5 * xh as real) == (xh + 1) / 2
    ensures xh >= 0 ==> Round(0.75 * xh as real) == (3 * xh + 2) / 4
    ensures xh >= 0 ==> Trunc(0.5 * xh as real + 0.5) == (xh + 1) / 2
    ensures xh >= 0 ==> Trunc(10.0 * xh as real + 0.5) == 10 * xh
  {
    if xh >= 0 {
      FloorOfFraction(3 * xh + 1, 2);
      FloorOfFraction(xh + 1, 2);
      FloorOfFraction(3 * xh + 2, 4);
      FloorOfFraction(20 * xh + 1, 2);
    }
  }

  /** The floor of n/d as a real is Euclidean integer division. */
  lemma FloorOfFraction(n: int, d: int)
    requires n >= 0 && d > 0
    ensures (n as real / d as real).Floor == n / d
  {
    var q := n / d;
    var r := n as real / d as real;
    assert r * d as real == n as real;
    assert q as real * d as real <= n as real < (q + 1) as real * d as real;
    CancelFactor(q as real, r, d as real);
    CancelFactorStrict(r, (q + 1) as real, d as real);
  }

  lemma CancelFactor(a: real, b: real, d: real)
    requires d > 0.0 && a * d <= b * d
    ensures a <= b
  {
  }

  lemma CancelFactorStrict(a: real, b: real, d: real)
    requires d > 0.0 && a * d < b * d
    ensures a < b
  {
  }

  /** Halving toward zero never decreases with its argument. */
  lemma HalveMonotonic(a: int, b: int)
    requires a <= b
    ensures HalveTowardZero(a) <= HalveTowardZero(b)
  {
  }

  /** A larger x-height never yields a smaller threshold. */
  lemma ThresholdsMonotonic(x1: int, x2: int, scale: int)
    requires x1 <= x2
    ensures var c1, c2 := MakeConfig(x1, scale), MakeConfig(x2, scale);
      && c1.kxheight <= c2.kxheight && c1.kOneEm <= c2.kOneEm && c1.kLineHeight <= c2.kLineHeight
      && c1.kWordSpacing <= c2.kWordSpacing && c1.kWordWidth <= c2.kWordWidth
      && c1.kLayoutBlockOpeningWidth <= c2.kLayoutBlockOpeningWidth
      && c1.kLayoutBlockOpeningHeight <= c2.kLayoutBlockOpeningHeight
      && c1.kLayoutBlockMinHeight <= c2.kLayoutBlockMinHeight
      && c1.kLayoutBlockMinWidth <= c2.kLayoutBlockMinWidth
      && c1.kColumnMinSpacing <= c2.kColumnMinSpacing && c1.kColumnMinSize <= c2.kColumnMinSize
      && c1.kCountEmptyLine <= c2.kCountEmptyLine
      && c1.kSectionMinSpacing <= c2.kSectionMinSpacing && c1.kSectionMinSize <= c2.kSectionMinSize
  {
    HalveMonotonic(x1, x2);
    var a, b := EffectiveXHeight(x1, scale) as real, EffectiveXHeight(x2, scale) as real;
    assert a <= b;
    RoundMonotonic(1.5 * a, 1.5 * b);
    RoundMonotonic(0.5 * 1.5 * a, 0.5 * 1.5 * b);
    RoundMonotonic(0.5 * a, 0.5 * b);
    TruncMonotonic(0.5 * a + 0.5, 0.5 * b + 0.5);
    TruncMonotonic(10.0 * a + 0.5, 10.0 * b + 0.5);
  }

  /** A 10-pixel x-height at full scale. */
  lemma ConfigExample()
    ensures var c := MakeConfig(10, 1);
      && c.kOneEm == 15.0 && c.kLineHeight == 20.0
      && c.kColumnMinSpacing == 15 && c.kColumnMinSize == 90
      && c.kCountEmptyLine == 8 && c.kSectionMinSpacing == 5 && c.kSectionMinSize == 10
      && c.kLayoutBlockMinHeight == 5 && c.kLayoutBlockMinWidth == 100
  {
  }
}

/** Grey-level images over a rectangular domain (mln::image2d<uint8_t>). */
module Raster {
  import opened Geometry

  /** An image on the domain `dom`: pixel (x, y) of the domain is
      rows[y - dom.y][x - dom.x]. */
  datatype Image = Image(dom: Box, rows: seq<seq<int>>)

  /** One row per line of the domain, one value per column. */
  predicate WellFormed(img: Image)
  {
    && img.dom.width >= 0 && img.dom.height >= 0
    && |img.rows| == img.dom.height
    && forall y :: 0 <= y < |img.rows| ==> |img.rows[y]| == img.dom.width
  }

  /** Every pixel is a byte. */
  predicate IsBytes(img: Image)
  {
    forall y, x :: 0 <= y < |img.rows| && 0 <= x < |img.rows[y]| ==> 0 <= img.rows[y][x] <= 255
  }

  /** The value at absolute position (x, y). */
  function Pixel(img: Image, x: int, y: int): int
    requires WellFormed(img) && Has(img.dom, Point2D(x, y))
  {
    img.rows[y - img.dom.y][x - img.dom.x]
  }

  /** Row k of the domain, counted from its top. */
  function RowAt(img: Image, k: int): (r: seq<int>)
    requires WellFormed(img) && 0 <= k < img.dom.height
    ensures |r| == img.dom.width
  {
    img.rows[k]
  }

  /** Column k of the domain, counted from its left. */
  function ColumnAt(img: Image, k: int): (c: seq<int>)
    requires WellFormed(img) && 0 <= k < img.dom.width
    ensures |c| == img.dom.height
    ensures forall y :: 0 <= y < |c| ==> c[y] == img.rows[y][k]
  {
    seq(img.dom.height, y requires 0 <= y < img.dom.height => img.rows[y][k])
  }

  /** `input.clip(roi)`: the sub-image on `roi`, which lies inside the domain. */
  function Clip(img: Image, roi: Box): (r: Image)
    requires WellFormed(img) && roi.width >= 0 && roi.height >= 0 && Contains(img.dom, roi)
    ensures WellFormed(r) && r.dom == roi
    ensures forall x, y :: Has(roi, Point2D(x, y)) ==> Pixel(r, x, y) == Pixel(img, x, y)
  {
    var dx := roi.x - img.dom.x;
    var dy := roi.y - img.dom.y;
    Image(roi, seq(roi.height, i requires 0 <= i < roi.height => img.rows[dy + i][dx .. dx + roi.width]))
  }

  /** Clipping keeps bytes bytes. */
  lemma ClipBytes(img: Image, roi: Box)
    requires WellFormed(img) && IsBytes(img) && roi.width >= 0 && roi.height >= 0 && Contains(img.dom, roi)
    ensures IsBytes(Clip(img, roi))
  {
    var r := Clip(img, roi);
    forall y, x | 0 <= y < |r.rows| && 0 <= x < |r.rows[y]|
      ensures 0 <= r.rows[y][x] <= 255
    {
      assert r.rows[y][x] == img.rows[roi.y - img.dom.y + y][roi.x - img.dom.x + x];
    }
  }
}

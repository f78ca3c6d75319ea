/** 2x2 down-sampling `subsample_T` (subsample.cpp). */
module Subsample {
  import opened Geometry
  import opened Raster

  /** The output value of one 2x2 block, from its top-left, top-right and
      bottom-left pixels; the bottom-left pixel is counted twice and the
      bottom-right one is never read. Integer division of a non-negative sum. */
  function BlockValue(tl: int, tr: int, bl: int): (v: int)
    requires tl >= 0 && tr >= 0 && bl >= 0
    ensures 4 * v <= tl + tr + 2 * bl < 4 * v + 4
  {
    (tl + tr + bl + bl) / 4
  }

  /** subsample_T(input): an image of (width/2) x (height/2) whose pixel (x, y)
      averages pixels (2x, 2y), (2x+1, 2y) and twice (2x, 2y+1) of the input.
      The input domain starts at (0, 0), where the source reads it. */
  function Subsample(img: Image): (out: Image)
    requires WellFormed(img) && IsBytes(img) && img.dom.x == 0 && img.dom.y == 0
    ensures WellFormed(out)
    ensures out.dom == Box(0, 0, img.dom.width / 2, img.dom.height / 2)
    ensures forall y, x :: 0 <= y < out.dom.height && 0 <= x < out.dom.width ==>
      2 * x + 1 < img.dom.width && 2 * y + 1 < img.dom.height
    ensures forall y, x :: 0 <= y < out.dom.height && 0 <= x < out.dom.width ==>
      var sum := img.rows[2 * y][2 * x] + img.rows[2 * y][2 * x + 1] + 2 * img.rows[2 * y + 1][2 * x];
      4 * out.rows[y][x] <= sum < 4 * out.rows[y][x] + 4
  {
    var w := img.dom.width / 2;
    var h := img.dom.height / 2;
    Image(Box(0, 0, w, h),
          seq(h, y requires 0 <= y < h =>
            seq(w, x requires 0 <= x < w =>
              BlockValue(img.rows[2 * y][2 * x], img.rows[2 * y][2 * x + 1], img.rows[2 * y + 1][2 * x]))))
  }

  /** Each output pixel lies between the least and the greatest pixel it reads,
      so the output holds bytes again. */
  lemma SubsampleBounds(img: Image, x: int, y: int)
    requires WellFormed(img) && IsBytes(img) && img.dom.x == 0 && img.dom.y == 0
    requires 0 <= y < img.dom.height / 2 && 0 <= x < img.dom.width / 2
    ensures var v := Subsample(img).rows[y][x];
      var a, b, c := img.rows[2 * y][2 * x], img.rows[2 * y][2 * x + 1], img.rows[2 * y + 1][2 * x];
      Min(a, Min(b, c)) <= v <= Max(a, Max(b, c))
  {
  }

  lemma SubsampleIsBytes(img: Image)
    requires WellFormed(img) && IsBytes(img) && img.dom.x == 0 && img.dom.y == 0
    ensures IsBytes(Subsample(img))
  {
    var out := Subsample(img);
    forall y, x | 0 <= y < |out.rows| && 0 <= x < |out.rows[y]|
      ensures 0 <= out.rows[y][x] <= 255
    {
      SubsampleBounds(img, x, y);
    }
  }

  /** Two images that agree everywhere except on pixels with both coordinates odd
      have the same subsampling: pixel (2x+1, 2y+1) is never read. */
  lemma SubsampleIgnoresOddCorners(img: Image, other: Image)
    requires WellFormed(img) && IsBytes(img) && img.dom.x == 0 && img.dom.y == 0
    requires WellFormed(other) && IsBytes(other) && other.dom == img.dom
    requires forall y, x :: 0 <= y < |img.rows| && 0 <= x < img.dom.width && (y % 2 == 0 || x % 2 == 0) ==>
      other.rows[y][x] == img.rows[y][x]
    ensures Subsample(other) == Subsample(img)
  {
    var a, b := Subsample(img), Subsample(other);
    forall y | 0 <= y < a.dom.height
      ensures a.rows[y] == b.rows[y]
    {
      forall x | 0 <= x < a.dom.width
        ensures a.rows[y][x] == b.rows[y][x]
      {
        ReadPixelsAgree(img, other, x, y);
        PixelOf(img, x, y);
        PixelOf(other, x, y);
      }
    }
  }

  lemma PixelOf(img: Image, x: int, y: int)
    requires WellFormed(img) && IsBytes(img) && img.dom.x == 0 && img.dom.y == 0
    requires 0 <= y < img.dom.height / 2 && 0 <= x < img.dom.width / 2
    ensures Subsample(img).rows[y][x] == BlockValue(img.rows[2 * y][2 * x], img.rows[2 * y][2 * x + 1], img.rows[2 * y + 1][2 * x])
  {
  }

  lemma ReadPixelsAgree(img: Image, other: Image, x: int, y: int)
    requires WellFormed(img) && WellFormed(other) && other.dom == img.dom
    requires forall y, x :: 0 <= y < |img.rows| && 0 <= x < img.dom.width && (y % 2 == 0 || x % 2 == 0) ==>
      other.rows[y][x] == img.rows[y][x]
    requires 0 <= y < img.dom.height / 2 && 0 <= x < img.dom.width / 2
    ensures other.rows[2 * y][2 * x] == img.rows[2 * y][2 * x]
    ensures other.rows[2 * y][2 * x + 1] == img.rows[2 * y][2 * x + 1]
    ensures other.rows[2 * y + 1][2 * x] == img.rows[2 * y + 1][2 * x]
  {
    assert (2 * y) % 2 == 0 && (2 * x) % 2 == 0;
  }

  /** A constant image subsamples to the same constant. */
  lemma SubsampleConstant(img: Image, c: int, x: int, y: int)
    requires WellFormed(img) && IsBytes(img) && img.dom.x == 0 && img.dom.y == 0
    requires forall j, i :: 0 <= j < |img.rows| && 0 <= i < img.dom.width ==> img.rows[j][i] == c
    requires 0 <= y < img.dom.height / 2 && 0 <= x < img.dom.width / 2
    ensures Subsample(img).rows[y][x] == c
  {
  }

  // ---------------------------------------------------------------------------
  // The block mean the down-sampling evidently intends

  /** The image mirrored along its diagonal: pixel (x, y) becomes pixel (y, x). */
  function Transpose(img: Image): (t: Image)
    requires WellFormed(img) && img.dom.x == 0 && img.dom.y == 0
    ensures WellFormed(t) && t.dom == Box(0, 0, img.dom.height, img.dom.width)
    ensures forall y, x :: 0 <= y < img.dom.width && 0 <= x < img.dom.height ==> t.rows[y][x] == img.rows[x][y]
  {
    Image(Box(0, 0, img.dom.height, img.dom.width),
          seq(img.dom.width, y requires 0 <= y < img.dom.width =>
            seq(img.dom.height, x requires 0 <= x < img.dom.height => img.rows[x][y])))
  }

  /** As written, the down-sampling does not commute with the transposition: the
      block [[0, 0], [255, 0]] gives 127 and its mirror [[0, 255], [0, 0]] gives 63,
      although both blocks hold the same four values. */
  lemma SubsampleAsWrittenCounterexample()
    ensures var img := Image(Box(0, 0, 2, 2), [[0, 0], [255, 0]]);
      && Transpose(img) == Image(Box(0, 0, 2, 2), [[0, 255], [0, 0]])
      && Subsample(img).rows[0][0] == 127
      && Subsample(Transpose(img)).rows[0][0] == 63
  {
    var img := Image(Box(0, 0, 2, 2), [[0, 0], [255, 0]]);
    var t := Transpose(img);
    assert t.rows[0] == [0, 255] && t.rows[1] == [0, 0];
    assert t.rows == [[0, 255], [0, 0]];
  }

  /** subsample_T with the bottom-right pixel read in place of the second read of
      the bottom-left one: each output pixel is the mean of its 2x2 block,
      rounded down. */
  function SubsampleMean(img: Image): (out: Image)
    requires WellFormed(img) && IsBytes(img) && img.dom.x == 0 && img.dom.y == 0
    ensures WellFormed(out)
    ensures out.dom == Box(0, 0, img.dom.width / 2, img.dom.height / 2)
    ensures forall y, x :: 0 <= y < out.dom.height && 0 <= x < out.dom.width ==>
      var sum := img.rows[2 * y][2 * x] + img.rows[2 * y][2 * x + 1] + img.rows[2 * y + 1][2 * x] + img.rows[2 * y + 1][2 * x + 1];
      4 * out.rows[y][x] <= sum < 4 * out.rows[y][x] + 4
  {
    var w := img.dom.width / 2;
    var h := img.dom.height / 2;
    Image(Box(0, 0, w, h),
          seq(h, y requires 0 <= y < h =>
            seq(w, x requires 0 <= x < w =>
              (img.rows[2 * y][2 * x] + img.rows[2 * y][2 * x + 1] + img.rows[2 * y + 1][2 * x] + img.rows[2 * y + 1][2 * x + 1]) / 4)))
  }

  lemma TransposeBytes(img: Image)
    requires WellFormed(img) && IsBytes(img) && img.dom.x == 0 && img.dom.y == 0
    ensures IsBytes(Transpose(img))
  {
    var t := Transpose(img);
    forall y, x | 0 <= y < |t.rows| && 0 <= x < |t.rows[y]|
      ensures 0 <= t.rows[y][x] <= 255
    {
      assert t.rows[y][x] == img.rows[x][y];
    }
  }

  /** The block mean treats both axes alike: down-sampling the mirrored image
      gives the mirrored down-sampling. */
  lemma SubsampleMeanTranspose(img: Image)
    requires WellFormed(img) && IsBytes(img) && img.dom.x == 0 && img.dom.y == 0
    ensures IsBytes(Transpose(img))
    ensures SubsampleMean(Transpose(img)) == Transpose(SubsampleMean(img))
  {
    TransposeBytes(img);
    var a := SubsampleMean(Transpose(img));
    var b := Transpose(SubsampleMean(img));
    assert a.dom == b.dom;
    forall y | 0 <= y < a.dom.height
      ensures a.rows[y] == b.rows[y]
    {
      forall x | 0 <= x < a.dom.width
        ensures a.rows[y][x] == b.rows[y][x]
      {
      }
    }
  }

  /** Where the two bottom pixels of a block are equal, the source and the block
      mean agree. */
  lemma SubsampleMatchesMean(img: Image, x: int, y: int)
    requires WellFormed(img) && IsBytes(img) && img.dom.x == 0 && img.dom.y == 0
    requires 0 <= y < img.dom.height / 2 && 0 <= x < img.dom.width / 2
    requires img.rows[2 * y + 1][2 * x + 1] == img.rows[2 * y + 1][2 * x]
    ensures Subsample(img).rows[y][x] == SubsampleMean(img).rows[y][x]
  {
  }
}

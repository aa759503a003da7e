/**
 * The scaler's size arithmetic: the new width is the requested width and
 * the new height is half the aspect-scaled height, rounded down, so that
 * text cells, about twice as tall as wide, keep the picture's proportions.
 */
module Scaling {
  import opened Arith

  /** Image dimensions in pixels. */
  datatype Size = Size(width: int, height: int)

  /** The size the image is resized to for a requested width. */
  function ScaleSize(original: Size, newWidth: nat): (r: Size)
    requires original.width >= 1 && original.height >= 0
    ensures r.width == newWidth && r.height >= 0
    ensures 2 * original.width * r.height <= newWidth * original.height
    ensures newWidth * original.height < 2 * original.width * (r.height + 1)
  {
    NonNegProduct(newWidth, original.height);
    FloorDiv(newWidth * original.height, 2 * original.width);
    Size(newWidth, newWidth * original.height / (2 * original.width))
  }

  /** A taller original never gives a shorter result. */
  lemma ScaleMonotone(a: Size, b: Size, newWidth: nat)
    requires a.width == b.width >= 1 && 0 <= a.height <= b.height
    ensures ScaleSize(a, newWidth).height <= ScaleSize(b, newWidth).height
  {
    var cell := 2 * a.width;
    MulMonotone(a.height, b.height, newWidth);
    var ha, hb := ScaleSize(a, newWidth).height, ScaleSize(b, newWidth).height;
    if ha > hb {
      MulMonotone(hb + 1, ha, cell);
    }
  }

  /** An image whose aspect-scaled height is below two pixels is scaled to
      height 0; nothing guards against it. */
  lemma ScaleFlat(original: Size, newWidth: nat)
    requires original.width >= 1 && original.height >= 0
    requires newWidth * original.height < 2 * original.width
    ensures ScaleSize(original, newWidth).height == 0
  {
    var h := ScaleSize(original, newWidth).height;
    MulMonotone(1, if h >= 1 then h else 1, 2 * original.width);
  }

  /** 200 x 100 at width 100 gives 100 x 25; a square gives half its width. */
  lemma ScaleExamples(side: int, newWidth: nat)
    requires side >= 1
    ensures ScaleSize(Size(200, 100), 100) == Size(100, 25)
    ensures ScaleSize(Size(side, side), newWidth).height == newWidth / 2
  {
    var q, r := newWidth / 2, newWidth % 2;
    assert newWidth * side == q * (2 * side) + r * side;
    assert 0 <= r * side < 2 * side;
    DivUnique(newWidth * side, 2 * side, q, r * side);
  }
}

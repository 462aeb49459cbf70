/** The frame compositor: places the resized image on a black canvas of the
    original image's size so that the two bottom-right corners meet. */
module Compositor {

  newtype uint8 = x: int | 0 <= x < 256

  /** One pixel of a three-channel 8-bit raster, in the channel order the
      image was read in. */
  datatype Pixel = Pixel(b: uint8, g: uint8, r: uint8)

  /** The value a zero-filled canvas holds. */
  const Black: Pixel := Pixel(0, 0, 0)

  /** A raster as rows of pixels, row 0 at the top. */
  type Image = seq<seq<Pixel>>

  predicate IsImage(img: Image, width: int, height: int) {
    |img| == height && forall y :: 0 <= y < |img| ==> |img[y]| == width
  }

  /** A raster with at least one row and one column, all rows of equal width. */
  predicate IsNonEmptyImage(img: Image) {
    |img| > 0 && |img[0]| > 0 && IsImage(img, |img[0]|, |img|)
  }

  function Max(a: int, b: int): int { if a >= b then a else b }
  function Min(a: int, b: int): int { if a <= b then a else b }

  /** Destination rectangle [dstX0,dstX1) x [dstY0,dstY1) on the canvas and
      source rectangle [srcX0,srcX1) x [srcY0,srcY1) in the resized image. */
  datatype Placement = Placement(
    dstX0: int, dstY0: int, dstX1: int, dstY1: int,
    srcX0: int, srcY0: int, srcX1: int, srcY1: int)

  /** The rectangle arithmetic of the compositing step, for a w x h canvas and
      a newW x newH resized image whose offsets are w - newW and h - newH. */
  function Place(w: int, h: int, newW: int, newH: int): (p: Placement)
    requires w >= 0 && h >= 0 && newW > 0 && newH > 0
    // the destination lies on the canvas and the source in the resized image
    ensures 0 <= p.dstX0 <= p.dstX1 <= w && 0 <= p.dstY0 <= p.dstY1 <= h
    ensures 0 <= p.srcX0 <= p.srcX1 <= newW && 0 <= p.srcY0 <= p.srcY1 <= newH
    // both rectangles have the same width and height
    ensures p.dstX1 - p.dstX0 == p.srcX1 - p.srcX0 == Min(w, newW)
    ensures p.dstY1 - p.dstY0 == p.srcY1 - p.srcY0 == Min(h, newH)
    // their bottom-right corners are the corners of canvas and image
    ensures p.dstX1 == w && p.dstY1 == h && p.srcX1 == newW && p.srcY1 == newH
    // the copy is a translation by the offsets
    ensures p.srcX0 - p.dstX0 == newW - w && p.srcY0 - p.dstY0 == newH - h
    // something is copied exactly when the canvas is not empty
    ensures (p.dstX1 > p.dstX0 && p.dstY1 > p.dstY0) <==> (w > 0 && h > 0)
  {
    var xOffset, yOffset := w - newW, h - newH;
    var dstX0, dstY0 := Max(0, xOffset), Max(0, yOffset);
    var dstX1, dstY1 := Min(w, xOffset + newW), Min(h, yOffset + newH);
    var srcX0, srcY0 := Max(0, -xOffset), Max(0, -yOffset);
    Placement(dstX0, dstY0, dstX1, dstY1,
              srcX0, srcY0, srcX0 + (dstX1 - dstX0), srcY0 + (dstY1 - dstY0))
  }

  /** Canvas pixel (y, x) under the bottom-right anchor: the resized image's
      pixel at (y - yOffset, x - xOffset) where that exists, black elsewhere. */
  function AnchoredPixel(img: Image, w: int, h: int, y: int, x: int): Pixel
    requires IsNonEmptyImage(img) && 0 <= y < h && 0 <= x < w
  {
    var yOffset, xOffset := h - |img|, w - |img[0]|;
    if yOffset <= y && xOffset <= x then img[y - yOffset][x - xOffset] else Black
  }

  /** The whole w x h canvas the compositing step produces from img. */
  function Composed(img: Image, w: nat, h: nat): (canvas: Image)
    requires IsNonEmptyImage(img)
    ensures IsImage(canvas, w, h)
  {
    seq(h, y requires 0 <= y < h =>
      seq(w, x requires 0 <= x < w => AnchoredPixel(img, w, h, y, x)))
  }

  /** The value of a canvas array, row by row. */
  function Snapshot(canvas: array2<Pixel>): (img: Image)
    reads canvas
    ensures IsImage(img, canvas.Length1, canvas.Length0)
    ensures forall y, x :: 0 <= y < canvas.Length0 && 0 <= x < canvas.Length1 ==> img[y][x] == canvas[y, x]
  {
    seq(canvas.Length0, y reads canvas requires 0 <= y < canvas.Length0 =>
      seq(canvas.Length1, x reads canvas requires 0 <= x < canvas.Length1 => canvas[y, x]))
  }

  /** Allocates a zero-filled h x w canvas and copies the placement's source
      rectangle of resized onto its destination rectangle. */
  method Composite(resized: Image, w: nat, h: nat) returns (frame: Image)
    requires IsNonEmptyImage(resized)
    ensures frame == Composed(resized, w, h)
  {
    var newH, newW := |resized|, |resized[0]|;
    var canvas := new Pixel[h, w]((_, _) => Black);
    var p := Place(w, h, newW, newH);
    if p.dstX1 > p.dstX0 && p.dstY1 > p.dstY0 {
      var y := p.dstY0;
      while y < p.dstY1
        invariant p.dstY0 <= y <= p.dstY1
        invariant forall i, j :: 0 <= i < h && 0 <= j < w ==>
          canvas[i, j] == if p.dstY0 <= i < y && p.dstX0 <= j then AnchoredPixel(resized, w, h, i, j) else Black
      {
        var x := p.dstX0;
        while x < p.dstX1
          invariant p.dstX0 <= x <= p.dstX1
          invariant forall i, j :: 0 <= i < h && 0 <= j < w ==>
            canvas[i, j] ==
              if (p.dstY0 <= i < y && p.dstX0 <= j) || (i == y && p.dstX0 <= j < x)
              then AnchoredPixel(resized, w, h, i, j) else Black
        {
          canvas[y, x] := resized[p.srcY0 + (y - p.dstY0)][p.srcX0 + (x - p.dstX0)];
          x := x + 1;
        }
        y := y + 1;
      }
    }
    assert forall i, j :: 0 <= i < h && 0 <= j < w ==> canvas[i, j] == AnchoredPixel(resized, w, h, i, j);
    frame := Snapshot(canvas);
    SameImage(frame, Composed(resized, w, h), w, h);
  }

  /** Two w x h rasters that agree on every pixel are equal. */
  lemma SameImage(a: Image, b: Image, w: int, h: int)
    requires IsImage(a, w, h) && IsImage(b, w, h)
    requires forall y, x :: 0 <= y < h && 0 <= x < w ==> a[y][x] == b[y][x]
    ensures a == b
  {
    forall y | 0 <= y < h ensures a[y] == b[y] {
      assert |a[y]| == w == |b[y]|;
    }
  }

  /** The canvas in terms of the placement: inside the destination rectangle
      pixel (y, x) is the resized image's pixel translated by the offsets;
      outside it the canvas keeps its zero fill. */
  lemma ComposedFollowsPlacement(img: Image, w: nat, h: nat)
    requires IsNonEmptyImage(img)
    ensures var p := Place(w, h, |img[0]|, |img|);
      var canvas := Composed(img, w, h);
      forall y, x :: 0 <= y < h && 0 <= x < w ==>
        canvas[y][x] ==
          if p.dstY0 <= y < p.dstY1 && p.dstX0 <= x < p.dstX1
          then img[p.srcY0 + (y - p.dstY0)][p.srcX0 + (x - p.dstX0)]
          else Black
  {
  }

  /** The resized image's bottom-right pixel lands on the canvas's. */
  lemma BottomRightCornersMeet(img: Image, w: nat, h: nat)
    requires IsNonEmptyImage(img) && w > 0 && h > 0
    ensures Composed(img, w, h)[h - 1][w - 1] == img[|img| - 1][|img[0]| - 1]
  {
  }

  /** An image at least as large as the canvas covers all of it, and only its
      bottom-right w x h part shows: its top rows and left columns are cropped. */
  lemma EnlargedIsCropped(img: Image, w: nat, h: nat)
    requires IsNonEmptyImage(img) && |img[0]| >= w && |img| >= h
    ensures var canvas := Composed(img, w, h);
      forall y, x :: 0 <= y < h && 0 <= x < w ==>
        canvas[y][x] == img[y + (|img| - h)][x + (|img[0]| - w)]
  {
  }

  /** An image at most as large as the canvas appears whole in its bottom-right
      corner, and the band above and to the left of it stays black. */
  lemma ShrunkIsLetterboxed(img: Image, w: nat, h: nat)
    requires IsNonEmptyImage(img) && |img[0]| <= w && |img| <= h
    ensures var canvas := Composed(img, w, h);
      var yOffset, xOffset := h - |img|, w - |img[0]|;
      (forall sy, sx :: 0 <= sy < |img| && 0 <= sx < |img[0]| ==>
        canvas[sy + yOffset][sx + xOffset] == img[sy][sx]) &&
      (forall y, x :: 0 <= y < h && 0 <= x < w && (y < yOffset || x < xOffset) ==>
        canvas[y][x] == Black)
  {
  }
}

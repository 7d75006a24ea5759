/** Images as row-major grids, OpenCV's sub-matrix view
    `img(Range(r0, r1), Range(c0, c1))` and `flip(img, -1)`, and the two
    corner regions of the flattened card that the matcher reads. */
module Regions {
  import opened Geometry

  /** `img` has `rows` rows of `cols` pixels each. */
  predicate IsImage<T>(img: seq<seq<T>>, rows: nat, cols: nat) {
    |img| == rows && forall r :: 0 <= r < rows ==> |img[r]| == cols
  }

  /** The half-open window `[r0, r1) x [c0, c1)` of rows and columns. */
  datatype Window = Window(r0: nat, r1: nat, c0: nat, c1: nat)

  predicate Fits(w: Window, rows: nat, cols: nat) {
    w.r0 <= w.r1 <= rows && w.c0 <= w.c1 <= cols
  }

  /** `img(Range(r0, r1), Range(c0, c1))`. */
  function Crop<T>(img: seq<seq<T>>, rows: nat, cols: nat, w: Window): (out: seq<seq<T>>)
    requires IsImage(img, rows, cols) && Fits(w, rows, cols)
    ensures IsImage(out, w.r1 - w.r0, w.c1 - w.c0)
    ensures forall i, j :: 0 <= i < w.r1 - w.r0 && 0 <= j < w.c1 - w.c0 ==>
      out[i][j] == img[w.r0 + i][w.c0 + j]
  {
    seq(w.r1 - w.r0, i requires 0 <= i < w.r1 - w.r0 =>
      seq(w.c1 - w.c0, j requires 0 <= j < w.c1 - w.c0 => img[w.r0 + i][w.c0 + j]))
  }

  /** `flip(img, -1)`: mirrors both axes, a rotation by 180 degrees. */
  function Flip<T>(img: seq<seq<T>>, rows: nat, cols: nat): (out: seq<seq<T>>)
    requires IsImage(img, rows, cols)
    ensures IsImage(out, rows, cols)
    ensures forall i, j :: 0 <= i < rows && 0 <= j < cols ==>
      out[i][j] == img[rows - 1 - i][cols - 1 - j]
  {
    seq(rows, i requires 0 <= i < rows =>
      seq(cols, j requires 0 <= j < cols => img[rows - 1 - i][cols - 1 - j]))
  }

  lemma {:induction false} ImageExtensional<T>(a: seq<seq<T>>, b: seq<seq<T>>, rows: nat, cols: nat)
    requires IsImage(a, rows, cols) && IsImage(b, rows, cols)
    requires forall i, j :: 0 <= i < rows && 0 <= j < cols ==> a[i][j] == b[i][j]
    ensures a == b
  {
    forall i | 0 <= i < rows
      ensures a[i] == b[i]
    {
      assert forall j :: 0 <= j < cols ==> a[i][j] == b[i][j];
    }
  }

  /** Flipping twice gives back the image. */
  lemma FlipInvolution<T>(img: seq<seq<T>>, rows: nat, cols: nat)
    requires IsImage(img, rows, cols)
    ensures Flip(Flip(img, rows, cols), rows, cols) == img
  {
    ImageExtensional(Flip(Flip(img, rows, cols), rows, cols), img, rows, cols);
  }

  /** The top-left corner region `(Range(0, 150), Range(0, 70))`. */
  const TOP_WINDOW := Window(0, 150, 0, 70)

  /** The bottom-right corner region `(Range(149, 299), Range(129, 199))`. */
  const BOTTOM_WINDOW := Window(149, 299, 129, 199)

  /** Height and width of both corner regions. */
  const REGION_HEIGHT: nat := 150
  const REGION_WIDTH: nat := 70

  /** The region of the card matched as it stands. */
  function TopRegion<T>(card: seq<seq<T>>): (out: seq<seq<T>>)
    requires IsImage(card, CARD_HEIGHT, CARD_WIDTH)
    ensures IsImage(out, REGION_HEIGHT, REGION_WIDTH)
    ensures forall i, j :: 0 <= i < REGION_HEIGHT && 0 <= j < REGION_WIDTH ==> out[i][j] == card[i][j]
  {
    Crop(card, CARD_HEIGHT, CARD_WIDTH, TOP_WINDOW)
  }

  /** The opposite corner region, turned upright by a 180 degree flip. */
  function BottomRegion<T>(card: seq<seq<T>>): (out: seq<seq<T>>)
    requires IsImage(card, CARD_HEIGHT, CARD_WIDTH)
    ensures IsImage(out, REGION_HEIGHT, REGION_WIDTH)
    ensures forall i, j :: 0 <= i < REGION_HEIGHT && 0 <= j < REGION_WIDTH ==>
      out[i][j] == card[298 - i][198 - j]
  {
    Flip(Crop(card, CARD_HEIGHT, CARD_WIDTH, BOTTOM_WINDOW), REGION_HEIGHT, REGION_WIDTH)
  }

  /** The card is the warp flipped by 180 degrees. Its top region is then
      the warp's own bottom-right 150 x 70 corner `[150, 300) x [130, 200)`,
      turned upright. */
  lemma TopRegionOfFlippedWarp<T>(warped: seq<seq<T>>)
    requires IsImage(warped, CARD_HEIGHT, CARD_WIDTH)
    ensures TopRegion(Flip(warped, CARD_HEIGHT, CARD_WIDTH)) ==
      Flip(Crop(warped, CARD_HEIGHT, CARD_WIDTH, Window(150, 300, 130, 200)), REGION_HEIGHT, REGION_WIDTH)
  {
    ImageExtensional(TopRegion(Flip(warped, CARD_HEIGHT, CARD_WIDTH)),
      Flip(Crop(warped, CARD_HEIGHT, CARD_WIDTH, Window(150, 300, 130, 200)), REGION_HEIGHT, REGION_WIDTH),
      REGION_HEIGHT, REGION_WIDTH);
  }

  /** Its bottom region is the warp's window `[1, 151) x [1, 71)`: one pixel
      inside the warp's top-left corner, not the corner itself. */
  lemma BottomRegionOfFlippedWarp<T>(warped: seq<seq<T>>)
    requires IsImage(warped, CARD_HEIGHT, CARD_WIDTH)
    ensures BottomRegion(Flip(warped, CARD_HEIGHT, CARD_WIDTH)) ==
      Crop(warped, CARD_HEIGHT, CARD_WIDTH, Window(1, 151, 1, 71))
  {
    ImageExtensional(BottomRegion(Flip(warped, CARD_HEIGHT, CARD_WIDTH)),
      Crop(warped, CARD_HEIGHT, CARD_WIDTH, Window(1, 151, 1, 71)),
      REGION_HEIGHT, REGION_WIDTH);
  }
}

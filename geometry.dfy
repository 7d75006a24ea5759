/** Plain geometric values shared by the card pipeline: OpenCV's integer
    `Point` and `Rect`, and the fixed size of a flattened card. */
module Geometry {

  /** An integer pixel coordinate (OpenCV `Point`). */
  datatype Point = Point(x: int, y: int)

  /** An axis-aligned box as `boundingRect` returns it: the top-left corner
      and a non-negative extent. */
  datatype Rect = Rect(x: int, y: int, width: nat, height: nat)

  /** The default-constructed point, (0, 0). */
  const ORIGIN := Point(0, 0)

  /** Size of the perspective-corrected card image (`CARD_WIDTH`, `CARD_HEIGHT`). */
  const CARD_WIDTH: nat := 200
  const CARD_HEIGHT: nat := 300

  /** The key whose minimum marks the top-left and whose maximum marks the
      bottom-right corner. */
  function SumKey(p: Point): int { p.x + p.y }

  /** The key whose minimum marks the top-right and whose maximum marks the
      bottom-left corner. */
  function DiffKey(p: Point): int { p.y - p.x }

  function Sums(points: seq<Point>): seq<int> {
    seq(|points|, i requires 0 <= i < |points| => SumKey(points[i]))
  }

  function Diffs(points: seq<Point>): seq<int> {
    seq(|points|, i requires 0 <= i < |points| => DiffKey(points[i]))
  }
}

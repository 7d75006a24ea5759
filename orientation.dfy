/** The orientation decision of the native `transform_image`: which four
    points become the source quadrilateral of the perspective warp, chosen
    from the bounding box's aspect ratio, and the fixed destination corners.
    The comparisons with 0.8 and 1.2 times the height are decided exactly,
    by integer cross-multiplication. */
module Orientation {
  import opened Geometry
  import opened CornerOrder

  /** `width <= 0.8 * height`. */
  function IsVertical(width: int, height: int): (b: bool)
    ensures b <==> (width as real) <= 0.8 * (height as real)
  {
    5 * width <= 4 * height
  }

  /** `width > 1.2 * height`. */
  function IsHorizontal(width: int, height: int): (b: bool)
    ensures b <==> (width as real) > 1.2 * (height as real)
  {
    5 * width > 6 * height
  }

  /** `width > 0.8 * height && width < 1.2 * height`. */
  function IsNearSquare(width: int, height: int): (b: bool)
    ensures b <==> 0.8 * (height as real) < (width as real) < 1.2 * (height as real)
  {
    5 * width > 4 * height && 5 * width < 6 * height
  }

  /** For a positive height at most one orientation test holds, and none
      holds exactly when the width is 1.2 times the height. */
  lemma OrientationCases(width: int, height: int)
    requires height > 0
    ensures !(IsVertical(width, height) && IsHorizontal(width, height))
    ensures !(IsVertical(width, height) && IsNearSquare(width, height))
    ensures !(IsHorizontal(width, height) && IsNearSquare(width, height))
    ensures !IsVertical(width, height) && !IsHorizontal(width, height) && !IsNearSquare(width, height)
            <==> (width as real) == 1.2 * (height as real)
  {
  }

  /** The near-square case orders the RAW approximated points, by which of
      `points[1]` and `points[3]` lies higher. */
  function NearSquareRect(points: seq<Point>): (r: seq<Point>)
    requires |points| >= 4
    ensures |r| == 4
  {
    if points[1].y <= points[3].y then [points[1], points[0], points[3], points[2]]
    else [points[0], points[3], points[2], points[1]]
  }

  /** Both near-square orders walk the first four raw points backwards,
      each point once: from `points[1]` when it lies no lower than
      `points[3]`, otherwise from `points[0]`. */
  lemma NearSquareRectReverses(points: seq<Point>)
    requires |points| >= 4
    ensures var start := if points[1].y <= points[3].y then 1 else 0;
      forall i :: 0 <= i < 4 ==> NearSquareRect(points)[i] == points[(start - i) % 4]
  {
    var start := if points[1].y <= points[3].y then 1 else 0;
    assert (start - 0) % 4 == start && (start - 1) % 4 == (start + 3) % 4;
    assert (start - 2) % 4 == start + 2 && (start - 3) % 4 == (start + 1) % 4;
  }

  /** The source quadrilateral `temp_rect` of `transform_image`, given the
      ordered corners `[tl, tr, br, bl]` and the raw approximated points.
      The three orientation tests run in turn and a later one overwrites an
      earlier; when none fires, every slot keeps its default (0, 0). */
  function SourceRect(corners: seq<Point>, points: seq<Point>, width: int, height: int): (r: seq<Point>)
    requires |corners| == 4
    requires IsNearSquare(width, height) ==> |points| >= 4
    ensures |r| == 4
  {
    if IsNearSquare(width, height) then NearSquareRect(points)
    else if IsHorizontal(width, height) then [corners[3], corners[0], corners[1], corners[2]]
    else if IsVertical(width, height) then corners
    else [ORIGIN, ORIGIN, ORIGIN, ORIGIN]
  }

  /** The source quadrilateral for each aspect ratio: clockwise-rotated
      corners for a wide box, the corners as they are for a tall one, the
      raw points for a near-square one, and four origins when the width is
      exactly 1.2 times a positive height. */
  lemma SourceRectCases(corners: seq<Point>, points: seq<Point>, width: int, height: int)
    requires |corners| == 4
    requires IsNearSquare(width, height) ==> |points| >= 4
    ensures (width as real) > 1.2 * (height as real) ==>
      SourceRect(corners, points, width, height) == [corners[3], corners[0], corners[1], corners[2]]
    ensures (width as real) <= 0.8 * (height as real) && height >= 0 ==>
      SourceRect(corners, points, width, height) == corners
    ensures 0.8 * (height as real) < (width as real) < 1.2 * (height as real) ==>
      SourceRect(corners, points, width, height) ==
        if points[1].y <= points[3].y then [points[1], points[0], points[3], points[2]]
        else [points[0], points[3], points[2], points[1]]
    ensures height > 0 && (width as real) == 1.2 * (height as real) ==>
      SourceRect(corners, points, width, height) == [ORIGIN, ORIGIN, ORIGIN, ORIGIN]
  {
    if height > 0 {
      OrientationCases(width, height);
    }
  }

  /** The slot assignments of `transform_image` on the array `temp_rect`. */
  method AssignTempRect(fourPoints: seq<Point>, points: seq<Point>, width: int, height: int) returns (src: seq<Point>)
    requires |fourPoints| == 4
    requires IsNearSquare(width, height) ==> |points| >= 4
    ensures src == SourceRect(fourPoints, points, width, height)
  {
    var tempRect := new Point[4](_ => ORIGIN);
    assert tempRect[..] == [ORIGIN, ORIGIN, ORIGIN, ORIGIN];

    if 5 * width <= 4 * height {
      tempRect[0] := fourPoints[0];
      tempRect[1] := fourPoints[1];
      tempRect[2] := fourPoints[2];
      tempRect[3] := fourPoints[3];
      assert tempRect[..] == fourPoints;
    }

    if 5 * width > 6 * height {
      tempRect[0] := fourPoints[3];
      tempRect[1] := fourPoints[0];
      tempRect[2] := fourPoints[1];
      tempRect[3] := fourPoints[2];
      assert tempRect[..] == [fourPoints[3], fourPoints[0], fourPoints[1], fourPoints[2]];
    }

    if 5 * width > 4 * height && 5 * width < 6 * height {
      if points[1].y <= points[3].y {
        tempRect[0] := points[1];
        tempRect[1] := points[0];
        tempRect[2] := points[3];
        tempRect[3] := points[2];
        assert tempRect[..] == NearSquareRect(points);
      }
      if points[1].y > points[3].y {
        tempRect[0] := points[0];
        tempRect[1] := points[3];
        tempRect[2] := points[2];
        tempRect[3] := points[1];
        assert tempRect[..] == NearSquareRect(points);
      }
    }
    src := tempRect[..];
  }

  /** `transform_image` up to the perspective warp: orders the corners with
      `find_four_points`, then fills `temp_rect`. */
  method TransformSourceRect(points: seq<Point>, width: int, height: int) returns (src: seq<Point>)
    requires |points| > 0
    requires IsNearSquare(width, height) ==> |points| >= 4
    ensures src == SourceRect(CppCorners(points), points, width, height)
  {
    var fourPoints := FindFourPoints(points);
    src := AssignTempRect(fourPoints, points, width, height);
  }

  /** The destination corners `dst` of the warp: the corners of the
      200 x 300 card, already in the canonical `[tl, tr, br, bl]` order
      that the corner orderer produces. */
  function Destination(): (d: seq<Point>)
    ensures |d| == 4
    ensures forall p :: p in d ==> (p.x == 0 || p.x == CARD_WIDTH - 1) && (p.y == 0 || p.y == CARD_HEIGHT - 1)
    ensures forall i, j :: 0 <= i < j < 4 ==> d[i] != d[j]
  {
    [Point(0, 0), Point(CARD_WIDTH - 1, 0), Point(CARD_WIDTH - 1, CARD_HEIGHT - 1), Point(0, CARD_HEIGHT - 1)]
  }

  /** Ordering the destination corners leaves them as they are. */
  lemma DestinationOrdered()
    ensures CppCorners(Destination()) == Destination()
  {
    var d := Destination();
    assert LeastPoint(d, SumKey, d[0]) by {
      forall q | q in d && q != d[0] ensures SumKey(d[0]) < SumKey(q) {
      }
    }
    assert LeastPoint(d, DiffKey, d[1]) by {
      forall q | q in d && q != d[1] ensures DiffKey(d[1]) < DiffKey(q) {
      }
    }
    assert GreatestPoint(d, SumKey, d[2]) by {
      forall q | q in d && q != d[2] ensures SumKey(q) < SumKey(d[2]) {
      }
    }
    assert GreatestPoint(d, DiffKey, d[3]) by {
      forall q | q in d && q != d[3] ensures DiffKey(q) < DiffKey(d[3]) {
      }
    }
    CornersIndependentOfVertexOrder(d, d, d[0], d[1], d[2], d[3]);
  }
}

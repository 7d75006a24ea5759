/** Corner ordering of the native pipeline (`find_four_points`): the
    top-left and bottom-right corners are the extremes of x+y, the
    top-right and bottom-left corners the extremes of y-x. Ties follow
    `std::minmax_element`: the FIRST smallest and the LAST largest key. */
module CornerOrder {
  import opened Geometry

  /** `i` is the first index holding the smallest key. */
  predicate IsFirstMin(keys: seq<int>, i: int) {
    && 0 <= i < |keys|
    && (forall j :: 0 <= j < |keys| ==> keys[i] <= keys[j])
    && (forall j :: 0 <= j < i ==> keys[i] < keys[j])
  }

  /** `i` is the last index holding the largest key. */
  predicate IsLastMax(keys: seq<int>, i: int) {
    && 0 <= i < |keys|
    && (forall j :: 0 <= j < |keys| ==> keys[j] <= keys[i])
    && (forall j :: i < j < |keys| ==> keys[j] < keys[i])
  }

  /** `i` is the first index holding the largest key (numpy's `argmax`). */
  predicate IsFirstMax(keys: seq<int>, i: int) {
    && 0 <= i < |keys|
    && (forall j :: 0 <= j < |keys| ==> keys[j] <= keys[i])
    && (forall j :: 0 <= j < i ==> keys[j] < keys[i])
  }

  function FirstArgMin(keys: seq<int>): (i: nat)
    requires |keys| > 0
    ensures IsFirstMin(keys, i)
    decreases |keys|
  {
    if |keys| == 1 then 0
    else
      var i := FirstArgMin(keys[..|keys| - 1]);
      if keys[|keys| - 1] < keys[i] then |keys| - 1 else i
  }

  function LastArgMax(keys: seq<int>): (i: nat)
    requires |keys| > 0
    ensures IsLastMax(keys, i)
    decreases |keys|
  {
    if |keys| == 1 then 0
    else
      var i := LastArgMax(keys[..|keys| - 1]);
      if keys[|keys| - 1] >= keys[i] then |keys| - 1 else i
  }

  function FirstArgMax(keys: seq<int>): (i: nat)
    requires |keys| > 0
    ensures IsFirstMax(keys, i)
    decreases |keys|
  {
    if |keys| == 1 then 0
    else
      var i := FirstArgMax(keys[..|keys| - 1]);
      if keys[|keys| - 1] > keys[i] then |keys| - 1 else i
  }

  /** The three index characterisations each pick exactly one index. */
  lemma ExtremeIndicesUnique(keys: seq<int>, i: int, j: int)
    ensures IsFirstMin(keys, i) && IsFirstMin(keys, j) ==> i == j
    ensures IsLastMax(keys, i) && IsLastMax(keys, j) ==> i == j
    ensures IsFirstMax(keys, i) && IsFirstMax(keys, j) ==> i == j
  {
    if IsFirstMin(keys, i) && IsFirstMin(keys, j) {
      assert keys[i] <= keys[j] && keys[j] <= keys[i];
    }
    if IsLastMax(keys, i) && IsLastMax(keys, j) {
      assert keys[i] <= keys[j] && keys[j] <= keys[i];
    }
    if IsFirstMax(keys, i) && IsFirstMax(keys, j) {
      assert keys[i] <= keys[j] && keys[j] <= keys[i];
    }
  }

  /** `std::minmax_element`: the first smallest and the last largest element. */
  method MinMaxElement(keys: seq<int>) returns (lo: nat, hi: nat)
    requires |keys| > 0
    ensures IsFirstMin(keys, lo) && IsLastMax(keys, hi)
  {
    lo, hi := 0, 0;
    for i := 1 to |keys|
      invariant IsFirstMin(keys[..i], lo)
      invariant IsLastMax(keys[..i], hi)
    {
      if keys[i] < keys[lo] {
        lo := i;
      }
      if keys[i] >= keys[hi] {
        hi := i;
      }
    }
    assert keys[..|keys|] == keys;
  }

  /** The corners `[tl, tr, br, bl]` that `find_four_points` returns. */
  function CppCorners(points: seq<Point>): (r: seq<Point>)
    requires |points| > 0
    ensures |r| == 4
  {
    var tl := FirstArgMin(Sums(points));
    var tr := FirstArgMin(Diffs(points));
    var br := LastArgMax(Sums(points));
    var bl := LastArgMax(Diffs(points));
    [points[tl], points[tr], points[br], points[bl]]
  }

  /** Each corner is the input point at the index its extremum rule
      selects: the first smallest x+y, the first smallest y-x, the last
      largest x+y and the last largest y-x. The four need not be distinct. */
  lemma CppCornersSpec(points: seq<Point>)
    requires |points| > 0
    ensures exists i :: IsFirstMin(Sums(points), i) && CppCorners(points)[0] == points[i]
    ensures exists i :: IsFirstMin(Diffs(points), i) && CppCorners(points)[1] == points[i]
    ensures exists i :: IsLastMax(Sums(points), i) && CppCorners(points)[2] == points[i]
    ensures exists i :: IsLastMax(Diffs(points), i) && CppCorners(points)[3] == points[i]
  {
    var tl, tr := FirstArgMin(Sums(points)), FirstArgMin(Diffs(points));
    var br, bl := LastArgMax(Sums(points)), LastArgMax(Diffs(points));
    assert IsFirstMin(Sums(points), tl) && CppCorners(points)[0] == points[tl];
    assert IsFirstMin(Diffs(points), tr) && CppCorners(points)[1] == points[tr];
    assert IsLastMax(Sums(points), br) && CppCorners(points)[2] == points[br];
    assert IsLastMax(Diffs(points), bl) && CppCorners(points)[3] == points[bl];
  }

  /** `find_four_points`: fills the key vectors, then takes their extremes. */
  method FindFourPoints(points: seq<Point>) returns (out: seq<Point>)
    requires |points| > 0
    ensures out == CppCorners(points)
  {
    var sumValues := new int[|points|];
    for i := 0 to |points|
      invariant sumValues[..i] == Sums(points)[..i]
    {
      sumValues[i] := points[i].x + points[i].y;
    }
    assert sumValues[..] == Sums(points);
    var minIndex, maxIndex := MinMaxElement(sumValues[..]);
    var tl, br := points[minIndex], points[maxIndex];

    var diffValues := new int[|points|];
    for i := 0 to |points|
      invariant diffValues[..i] == Diffs(points)[..i]
    {
      diffValues[i] := points[i].y - points[i].x;
    }
    assert diffValues[..] == Diffs(points);
    var minIndexDiff, maxIndexDiff := MinMaxElement(diffValues[..]);
    var tr, bl := points[minIndexDiff], points[maxIndexDiff];

    ExtremeIndicesUnique(Sums(points), minIndex, FirstArgMin(Sums(points)));
    ExtremeIndicesUnique(Sums(points), maxIndex, LastArgMax(Sums(points)));
    ExtremeIndicesUnique(Diffs(points), minIndexDiff, FirstArgMin(Diffs(points)));
    ExtremeIndicesUnique(Diffs(points), maxIndexDiff, LastArgMax(Diffs(points)));
    out := [tl, tr, br, bl];
  }

  /** `p` is the only point value of `points` with the smallest `key`. */
  predicate LeastPoint(points: seq<Point>, key: Point -> int, p: Point) {
    p in points && forall q :: q in points && q != p ==> key(p) < key(q)
  }

  /** `p` is the only point value of `points` with the largest `key`. */
  predicate GreatestPoint(points: seq<Point>, key: Point -> int, p: Point) {
    p in points && forall q :: q in points && q != p ==> key(q) < key(p)
  }

  lemma LeastPointSelected(points: seq<Point>, keys: seq<int>, key: Point -> int, p: Point, i: int)
    requires |keys| == |points| && forall k :: 0 <= k < |points| ==> keys[k] == key(points[k])
    requires LeastPoint(points, key, p)
    requires 0 <= i < |keys| && forall j :: 0 <= j < |keys| ==> keys[i] <= keys[j]
    ensures points[i] == p
  {
    var j :| 0 <= j < |points| && points[j] == p;
    assert keys[i] <= keys[j];
  }

  lemma GreatestPointSelected(points: seq<Point>, keys: seq<int>, key: Point -> int, p: Point, i: int)
    requires |keys| == |points| && forall k :: 0 <= k < |points| ==> keys[k] == key(points[k])
    requires GreatestPoint(points, key, p)
    requires 0 <= i < |keys| && forall j :: 0 <= j < |keys| ==> keys[j] <= keys[i]
    ensures points[i] == p
  {
    var j :| 0 <= j < |points| && points[j] == p;
    assert keys[j] <= keys[i];
  }

  /** When each of the four extremes is attained by a single point value,
      the corners owe nothing to the order of the input: any reordering of
      the vertices (a rotation of a convex quadrilateral's vertex list
      among them) gives the same `[tl, tr, br, bl]`. */
  lemma CornersIndependentOfVertexOrder(a: seq<Point>, b: seq<Point>, tl: Point, tr: Point, br: Point, bl: Point)
    requires forall q :: q in a <==> q in b
    requires LeastPoint(a, SumKey, tl) && LeastPoint(a, DiffKey, tr)
    requires GreatestPoint(a, SumKey, br) && GreatestPoint(a, DiffKey, bl)
    ensures |a| > 0 && |b| > 0
    ensures CppCorners(a) == [tl, tr, br, bl]
    ensures CppCorners(b) == [tl, tr, br, bl]
  {
    forall s | s == a || s == b
      ensures CppCorners(s) == [tl, tr, br, bl]
    {
      assert LeastPoint(s, SumKey, tl) && LeastPoint(s, DiffKey, tr);
      assert GreatestPoint(s, SumKey, br) && GreatestPoint(s, DiffKey, bl);
      LeastPointSelected(s, Sums(s), SumKey, tl, FirstArgMin(Sums(s)));
      LeastPointSelected(s, Diffs(s), DiffKey, tr, FirstArgMin(Diffs(s)));
      GreatestPointSelected(s, Sums(s), SumKey, br, LastArgMax(Sums(s)));
      GreatestPointSelected(s, Diffs(s), DiffKey, bl, LastArgMax(Diffs(s)));
    }
  }
}

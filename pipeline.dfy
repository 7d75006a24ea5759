/** The decision logic of the native entry point `process_image` and of
    `preprocess_image`. What OpenCV computes is an input: each traced
    contour arrives as a `Candidate` (its area, the vertex count of its 5%
    approximation, its bounding box and its 1% approximation); the
    perspective warp is a function from a source quadrilateral to a
    200 x 300 binary image; template correlation is a function from a probe
    image and a template index to the best correlation score. */
module Pipeline {
  import opened Geometry
  import opened CornerOrder
  import opened Orientation
  import opened Regions
  import opened TemplateMatch
  import Arith

  const CARD_MIN_AREA: nat := 30
  const CARD_MAX_AREA: nat := 5

  type Image = seq<seq<int>>

  /** What OpenCV reports about one traced contour. */
  datatype Candidate = Candidate(
    area: real,           // contourArea
    coarseVertices: nat,  // vertices of approxPolyDP at 5% of the perimeter
    box: Rect,            // boundingRect
    corners: seq<Point>)  // approxPolyDP at 1% of the perimeter

  /** `QueryCard` without the contour itself: box, corners, center and the
      flipped card image. */
  datatype QueryCard = QueryCard(box: Rect, corners: seq<Point>, center: Point, warped: Image)

  /** One detection: the image-relative box (x-min, y-min, x-max, y-max),
      the rank label (0..13) and the suit label (0..4). */
  datatype Detection = Detection(bbox: seq<real>, rank: nat, suit: nat)

  /** The `Results` of `process_image`, as values. */
  datatype Results = Results(bboxes: seq<real>, ranks: seq<nat>, suits: seq<nat>, len: nat)

  /** The accept filter: area strictly between the integer quotients
      `H*W/30` and `H*W/5`, and exactly four vertices at 5% tolerance. */
  predicate Accepts(c: Candidate, imageHeight: nat, imageWidth: nat) {
    && c.area > ((imageHeight * imageWidth) / CARD_MIN_AREA) as real
    && c.area < ((imageHeight * imageWidth) / CARD_MAX_AREA) as real
    && c.coarseVertices == 4
  }

  /** An accepted contour has four coarse vertices and a positive area below
      a fifth of the image, which is therefore at least one pixel high and
      wide. */
  lemma AcceptsBounds(c: Candidate, imageHeight: nat, imageWidth: nat)
    requires Accepts(c, imageHeight, imageWidth)
    ensures c.coarseVertices == 4
    ensures 0.0 < c.area < (imageHeight * imageWidth) as real / 5.0
    ensures imageHeight >= 1 && imageWidth >= 1
  {
  }

  /** The perspective warp always yields a card-sized image. */
  ghost predicate WarpsToCard(warp: seq<Point> -> Image) {
    forall q :: IsImage(warp(q), CARD_HEIGHT, CARD_WIDTH)
  }

  /** The 1% approximation can be ordered and, for a near-square box, has
      the four raw points the near-square case reads. */
  predicate CornersUsable(c: Candidate) {
    |c.corners| > 0 && (IsNearSquare(c.box.width, c.box.height) ==> |c.corners| >= 4)
  }

  /** The card's center: the midpoint of its bounding box, rounded down. */
  function Center(box: Rect): (c: Point)
    ensures box.width >= 1 ==> box.x <= c.x < box.x + box.width
    ensures box.height >= 1 ==> box.y <= c.y < box.y + box.height
    ensures box.width - 1 <= 2 * (c.x - box.x) <= box.width
    ensures box.height - 1 <= 2 * (c.y - box.y) <= box.height
  {
    Point(box.x + box.width / 2, box.y + box.height / 2)
  }

  /** The flattened card the matcher reads: the warp through the source
      quadrilateral, flipped by 180 degrees. */
  function CardImage(c: Candidate, warp: seq<Point> -> Image): (card: Image)
    requires CornersUsable(c) && WarpsToCard(warp)
    ensures IsImage(card, CARD_HEIGHT, CARD_WIDTH)
  {
    var src := SourceRect(CppCorners(c.corners), c.corners, c.box.width, c.box.height);
    Flip(warp(src), CARD_HEIGHT, CARD_WIDTH)
  }

  /** `preprocess_image`, without the contour and the polygon approximation
      (inputs here). */
  method PreprocessImage(c: Candidate, warp: seq<Point> -> Image) returns (q: QueryCard)
    requires CornersUsable(c) && WarpsToCard(warp)
    ensures q.box == c.box && q.corners == c.corners
    ensures q.center == Center(c.box)
    ensures q.warped == CardImage(c, warp)
  {
    var points := c.corners;
    var cardBox := c.box;
    var centerX := cardBox.x + cardBox.width / 2;
    var centerY := cardBox.y + cardBox.height / 2;
    assert Point(centerX, centerY) == Center(cardBox);
    var src := TransformSourceRect(points, cardBox.width, cardBox.height);
    assert src == SourceRect(CppCorners(c.corners), c.corners, c.box.width, c.box.height);
    var warped := warp(src);
    assert IsImage(warped, CARD_HEIGHT, CARD_WIDTH);
    q := QueryCard(cardBox, points, Point(centerX, centerY), Flip(warped, CARD_HEIGHT, CARD_WIDTH));
  }

  /** The score of every template of a bank against one probe region. */
  function ScoresOf(region: Image, score: (Image, nat) -> real, n: nat): (s: seq<real>)
    ensures |s| == n
  {
    seq(n, k requires 0 <= k < n => score(region, k))
  }

  /** `match_rank`'s outcome for one region: a label in 0..13. */
  function RankMatch(region: Image, rankScore: (Image, nat) -> real): (m: Match)
    ensures m.id <= NUM_RANKS
  {
    MatchOutcomeBound(ScoresOf(region, rankScore, NUM_RANKS * NUM_RANK_TYPES), NUM_RANKS, NUM_RANK_TYPES, DEFAULT_THRESHOLD);
    MatchOutcome(ScoresOf(region, rankScore, NUM_RANKS * NUM_RANK_TYPES), NUM_RANK_TYPES, DEFAULT_THRESHOLD)
  }

  /** `match_suit`'s outcome for one region: a label in 0..4. */
  function SuitMatch(region: Image, suitScore: (Image, nat) -> real): (m: Match)
    ensures m.id <= NUM_SUITS
  {
    MatchOutcomeBound(ScoresOf(region, suitScore, NUM_SUITS * NUM_SUIT_TYPES), NUM_SUITS, NUM_SUIT_TYPES, DEFAULT_THRESHOLD);
    MatchOutcome(ScoresOf(region, suitScore, NUM_SUITS * NUM_SUIT_TYPES), NUM_SUIT_TYPES, DEFAULT_THRESHOLD)
  }

  /** The box in image-relative coordinates, `[x/W, y/H, (x+w)/W, (y+h)/H]`. */
  function NormalizedBox(box: Rect, imageHeight: nat, imageWidth: nat): (r: seq<real>)
    requires imageHeight >= 1 && imageWidth >= 1
    ensures |r| == 4
  {
    var w, h := imageWidth as real, imageHeight as real;
    [box.x as real / w, box.y as real / h, (box.x + box.width) as real / w, (box.y + box.height) as real / h]
  }

  /** Scaling the normalised box back by the image size gives the pixel box;
      its minimum corner precedes its maximum corner, and a box inside the
      image has all four coordinates in [0, 1]. */
  lemma NormalizedBoxScales(box: Rect, imageHeight: nat, imageWidth: nat)
    requires imageHeight >= 1 && imageWidth >= 1
    ensures var r := NormalizedBox(box, imageHeight, imageWidth);
      && r[0] * (imageWidth as real) == box.x as real
      && r[1] * (imageHeight as real) == box.y as real
      && r[2] * (imageWidth as real) == (box.x + box.width) as real
      && r[3] * (imageHeight as real) == (box.y + box.height) as real
      && r[0] <= r[2] && r[1] <= r[3]
    ensures 0 <= box.x && box.x + box.width <= imageWidth && 0 <= box.y && box.y + box.height <= imageHeight ==>
      var r := NormalizedBox(box, imageHeight, imageWidth);
      forall k :: 0 <= k < 4 ==> 0.0 <= r[k] <= 1.0
  {
    var w, h := imageWidth as real, imageHeight as real;
    var r := NormalizedBox(box, imageHeight, imageWidth);
    Arith.DivMono(box.x as real, (box.x + box.width) as real, w);
    Arith.DivMono(box.y as real, (box.y + box.height) as real, h);
    if 0 <= box.x && box.x + box.width <= imageWidth && 0 <= box.y && box.y + box.height <= imageHeight {
      Arith.DivMono(0.0, box.x as real, w);
      Arith.DivMono((box.x + box.width) as real, w, w);
      Arith.DivMono(0.0, box.y as real, h);
      Arith.DivMono((box.y + box.height) as real, h, h);
    }
  }

  /** The rank label of a card: the arbitration winner between the two
      corner regions. */
  function RankOf(card: Image, rankScore: (Image, nat) -> real): (rank: nat)
    requires IsImage(card, CARD_HEIGHT, CARD_WIDTH)
    ensures rank <= NUM_RANKS
  {
    var top, bottom := RankMatch(TopRegion(card), rankScore), RankMatch(BottomRegion(card), rankScore);
    Arbitrate((top.id, top.score), (bottom.id, bottom.score)).0
  }

  /** The rank label is 0 exactly when no rank template of either region
      beat the threshold, since a region that matched has a positive score
      and so always wins over one that did not. */
  lemma RankOfUnmatched(card: Image, rankScore: (Image, nat) -> real)
    requires IsImage(card, CARD_HEIGHT, CARD_WIDTH)
    ensures RankOf(card, rankScore) == 0 <==>
      NoneEligible(ScoresOf(TopRegion(card), rankScore, NUM_RANKS * NUM_RANK_TYPES), DEFAULT_THRESHOLD) &&
      NoneEligible(ScoresOf(BottomRegion(card), rankScore, NUM_RANKS * NUM_RANK_TYPES), DEFAULT_THRESHOLD)
  {
    MatchOutcomeSpec(ScoresOf(TopRegion(card), rankScore, NUM_RANKS * NUM_RANK_TYPES), NUM_RANK_TYPES, DEFAULT_THRESHOLD);
    MatchOutcomeSpec(ScoresOf(BottomRegion(card), rankScore, NUM_RANKS * NUM_RANK_TYPES), NUM_RANK_TYPES, DEFAULT_THRESHOLD);
  }

  /** The suit label of a card, chosen like the rank but independently of it. */
  function SuitOf(card: Image, suitScore: (Image, nat) -> real): (suit: nat)
    requires IsImage(card, CARD_HEIGHT, CARD_WIDTH)
    ensures suit <= NUM_SUITS
  {
    var top, bottom := SuitMatch(TopRegion(card), suitScore), SuitMatch(BottomRegion(card), suitScore);
    Arbitrate((top.id, top.score), (bottom.id, bottom.score)).0
  }

  /** The suit label is 0 exactly when no suit template of either region
      beat the threshold. */
  lemma SuitOfUnmatched(card: Image, suitScore: (Image, nat) -> real)
    requires IsImage(card, CARD_HEIGHT, CARD_WIDTH)
    ensures SuitOf(card, suitScore) == 0 <==>
      NoneEligible(ScoresOf(TopRegion(card), suitScore, NUM_SUITS * NUM_SUIT_TYPES), DEFAULT_THRESHOLD) &&
      NoneEligible(ScoresOf(BottomRegion(card), suitScore, NUM_SUITS * NUM_SUIT_TYPES), DEFAULT_THRESHOLD)
  {
    MatchOutcomeSpec(ScoresOf(TopRegion(card), suitScore, NUM_SUITS * NUM_SUIT_TYPES), NUM_SUIT_TYPES, DEFAULT_THRESHOLD);
    MatchOutcomeSpec(ScoresOf(BottomRegion(card), suitScore, NUM_SUITS * NUM_SUIT_TYPES), NUM_SUIT_TYPES, DEFAULT_THRESHOLD);
  }

  /** The detection emitted for an accepted candidate. */
  function Detect(c: Candidate, imageHeight: nat, imageWidth: nat, warp: seq<Point> -> Image,
                  rankScore: (Image, nat) -> real, suitScore: (Image, nat) -> real): (d: Detection)
    requires Accepts(c, imageHeight, imageWidth) && CornersUsable(c) && WarpsToCard(warp)
    ensures |d.bbox| == 4 && d.rank <= NUM_RANKS && d.suit <= NUM_SUITS
  {
    AcceptsBounds(c, imageHeight, imageWidth);
    var card := CardImage(c, warp);
    Detection(NormalizedBox(c.box, imageHeight, imageWidth), RankOf(card, rankScore), SuitOf(card, suitScore))
  }

  /** Contours that can each be classified: accepted, with corners the warp
      can use, under a warp that yields a card image. */
  ghost predicate Classifiable(acc: seq<Candidate>, imageHeight: nat, imageWidth: nat, warp: seq<Point> -> Image) {
    && WarpsToCard(warp)
    && forall k :: 0 <= k < |acc| ==> Accepts(acc[k], imageHeight, imageWidth) && CornersUsable(acc[k])
  }

  /** What `process_image` may assume of its inputs: the warp yields a card
      image, and every contour the filter accepts has corners the warp can
      use. */
  ghost predicate WellFormed(contours: seq<Candidate>, imageHeight: nat, imageWidth: nat, warp: seq<Point> -> Image) {
    Classifiable(Accepted(contours, imageHeight, imageWidth), imageHeight, imageWidth, warp)
  }

  /** The contours the size and shape filter accepts, in contour order. */
  function Accepted(contours: seq<Candidate>, imageHeight: nat, imageWidth: nat): (acc: seq<Candidate>)
    ensures |acc| <= |contours|
    ensures forall k :: 0 <= k < |acc| ==> Accepts(acc[k], imageHeight, imageWidth)
    decreases |contours|
  {
    if |contours| == 0 then []
    else
      var n := |contours| - 1;
      Accepted(contours[..n], imageHeight, imageWidth) +
        if Accepts(contours[n], imageHeight, imageWidth) then [contours[n]] else []
  }

  /** Filtering keeps the contour order: the accepted contours of a frame
      are those of its first part followed by those of the rest. */
  lemma {:induction false} AcceptedAppend(a: seq<Candidate>, b: seq<Candidate>, imageHeight: nat, imageWidth: nat)
    ensures Accepted(a + b, imageHeight, imageWidth) ==
      Accepted(a, imageHeight, imageWidth) + Accepted(b, imageHeight, imageWidth)
    decreases |b|
  {
    if |b| > 0 {
      var n := |b| - 1;
      assert (a + b)[..|a + b| - 1] == a + b[..n];
      assert (a + b)[|a + b| - 1] == b[n];
      AcceptedAppend(a, b[..n], imageHeight, imageWidth);
    } else {
      assert a + b == a;
    }
  }

  /** A single contour is accepted exactly when its area lies strictly
      between `H*W/30` and `H*W/5` (integer quotients) and its 5%
      approximation has four vertices. */
  lemma AcceptedOfOne(c: Candidate, imageHeight: nat, imageWidth: nat)
    ensures Accepted([c], imageHeight, imageWidth) ==
      if c.area > ((imageHeight * imageWidth) / 30) as real && c.area < ((imageHeight * imageWidth) / 5) as real
         && c.coarseVertices == 4 then [c] else []
  {
    assert [c][..0] == [];
  }

  /** `f` applied to each element of `xs`, in order. */
  function MapSeq<A, B>(f: A --> B, xs: seq<A>): (ys: seq<B>)
    requires forall k :: 0 <= k < |xs| ==> f.requires(xs[k])
    ensures |ys| == |xs|
    decreases |xs|
  {
    if |xs| == 0 then []
    else
      var n := |xs| - 1;
      assert forall k :: 0 <= k < n ==> xs[..n][k] == xs[k];
      MapSeq(f, xs[..n]) + [f(xs[n])]
  }

  /** Element `k` of the mapped sequence is `f` of element `k`. */
  lemma {:induction false} MapSeqPointwise<A, B>(f: A --> B, xs: seq<A>)
    requires forall k :: 0 <= k < |xs| ==> f.requires(xs[k])
    ensures forall k :: 0 <= k < |xs| ==> MapSeq(f, xs)[k] == f(xs[k])
    decreases |xs|
  {
    if |xs| > 0 {
      var n := |xs| - 1;
      assert forall k :: 0 <= k < n ==> xs[..n][k] == xs[k];
      MapSeqPointwise(f, xs[..n]);
    }
  }

  /** Mapping keeps the order: the map of a concatenation is the
      concatenation of the maps. */
  lemma {:induction false} MapSeqAppend<A, B>(f: A --> B, xs: seq<A>, ys: seq<A>)
    requires forall k :: 0 <= k < |xs + ys| ==> f.requires((xs + ys)[k])
    ensures forall k :: 0 <= k < |xs| ==> f.requires(xs[k])
    ensures forall k :: 0 <= k < |ys| ==> f.requires(ys[k])
    ensures MapSeq(f, xs + ys) == MapSeq(f, xs) + MapSeq(f, ys)
    decreases |ys|
  {
    assert forall k :: 0 <= k < |xs| ==> (xs + ys)[k] == xs[k];
    assert forall k :: 0 <= k < |ys| ==> (xs + ys)[|xs| + k] == ys[k];
    if |ys| == 0 {
      assert xs + ys == xs;
    } else {
      var n := |ys| - 1;
      assert (xs + ys)[..|xs + ys| - 1] == xs + ys[..n];
      assert (xs + ys)[|xs + ys| - 1] == ys[n];
      MapSeqAppend(f, xs, ys[..n]);
    }
  }

  /** Mapping one more element appends its image. */
  lemma MapSeqSnoc<A, B>(f: A --> B, xs: seq<A>, x: A)
    requires forall k :: 0 <= k < |xs| ==> f.requires(xs[k])
    requires f.requires(x)
    ensures forall k :: 0 <= k < |xs + [x]| ==> f.requires((xs + [x])[k])
    ensures MapSeq(f, xs + [x]) == MapSeq(f, xs) + [f(x)]
  {
    assert (xs + [x])[..|xs|] == xs;
  }

  /** The classification of one contour, as a partial function defined on
      the contours the filter accepts and the warp can use. */
  ghost function Classify(imageHeight: nat, imageWidth: nat, warp: seq<Point> -> Image,
                          rankScore: (Image, nat) -> real, suitScore: (Image, nat) -> real): (f: Candidate --> Detection)
    ensures forall c :: Accepts(c, imageHeight, imageWidth) && CornersUsable(c) && WarpsToCard(warp) ==> f.requires(c)
  {
    c requires Accepts(c, imageHeight, imageWidth) && CornersUsable(c) && WarpsToCard(warp) =>
      Detect(c, imageHeight, imageWidth, warp, rankScore, suitScore)
  }

  /** The detections of a frame: one per accepted contour, in contour order. */
  ghost function Detections(contours: seq<Candidate>, imageHeight: nat, imageWidth: nat, warp: seq<Point> -> Image,
                            rankScore: (Image, nat) -> real, suitScore: (Image, nat) -> real): (ds: seq<Detection>)
    requires WellFormed(contours, imageHeight, imageWidth, warp)
    ensures |ds| == |Accepted(contours, imageHeight, imageWidth)|
    ensures forall k :: 0 <= k < |ds| ==> |ds[k].bbox| == 4 && ds[k].rank <= NUM_RANKS && ds[k].suit <= NUM_SUITS
  {
    var f := Classify(imageHeight, imageWidth, warp, rankScore, suitScore);
    MapSeqPointwise(f, Accepted(contours, imageHeight, imageWidth));
    MapSeq(f, Accepted(contours, imageHeight, imageWidth))
  }

  /** Detection `k` of a frame classifies its `k`-th accepted contour. */
  lemma DetectionsSpec(contours: seq<Candidate>, imageHeight: nat, imageWidth: nat, warp: seq<Point> -> Image,
                       rankScore: (Image, nat) -> real, suitScore: (Image, nat) -> real, k: nat)
    requires WellFormed(contours, imageHeight, imageWidth, warp)
    requires k < |Accepted(contours, imageHeight, imageWidth)|
    ensures Detections(contours, imageHeight, imageWidth, warp, rankScore, suitScore)[k] ==
      Detect(Accepted(contours, imageHeight, imageWidth)[k], imageHeight, imageWidth, warp, rankScore, suitScore)
  {
    MapSeqPointwise(Classify(imageHeight, imageWidth, warp, rankScore, suitScore), Accepted(contours, imageHeight, imageWidth));
  }

  /** Detections are order-preserving: a frame's detections are those of
      its first part followed by those of the rest. */
  lemma DetectionsAppend(a: seq<Candidate>, b: seq<Candidate>, imageHeight: nat, imageWidth: nat,
                         warp: seq<Point> -> Image,
                         rankScore: (Image, nat) -> real, suitScore: (Image, nat) -> real)
    requires WellFormed(a + b, imageHeight, imageWidth, warp)
    ensures WellFormed(a, imageHeight, imageWidth, warp) && WellFormed(b, imageHeight, imageWidth, warp)
    ensures Detections(a + b, imageHeight, imageWidth, warp, rankScore, suitScore) ==
      Detections(a, imageHeight, imageWidth, warp, rankScore, suitScore) +
      Detections(b, imageHeight, imageWidth, warp, rankScore, suitScore)
  {
    WellFormedAppend(a, b, imageHeight, imageWidth, warp);
    AcceptedAppend(a, b, imageHeight, imageWidth);
    MapSeqAppend(Classify(imageHeight, imageWidth, warp, rankScore, suitScore),
                 Accepted(a, imageHeight, imageWidth), Accepted(b, imageHeight, imageWidth));
  }

  /** Both parts of a well-formed frame are well formed. */
  lemma WellFormedAppend(a: seq<Candidate>, b: seq<Candidate>, imageHeight: nat, imageWidth: nat, warp: seq<Point> -> Image)
    requires WellFormed(a + b, imageHeight, imageWidth, warp)
    ensures WellFormed(a, imageHeight, imageWidth, warp) && WellFormed(b, imageHeight, imageWidth, warp)
  {
    AcceptedAppend(a, b, imageHeight, imageWidth);
    var accA, accB := Accepted(a, imageHeight, imageWidth), Accepted(b, imageHeight, imageWidth);
    assert forall k :: 0 <= k < |accA| ==> (accA + accB)[k] == accA[k];
    assert forall k :: 0 <= k < |accB| ==> (accA + accB)[|accA| + k] == accB[k];
  }

  /** Lays the boxes out flat: box `i`, coordinate `j` goes to `4*i + j`. */
  method FlattenBoxes(pointDets: seq<seq<real>>) returns (bboxes: seq<real>)
    requires forall i :: 0 <= i < |pointDets| ==> |pointDets[i]| == 4
    ensures |bboxes| == 4 * |pointDets|
    ensures forall i, j :: 0 <= i < |pointDets| && 0 <= j < 4 ==> bboxes[4 * i + j] == pointDets[i][j]
  {
    var out := new real[4 * |pointDets|];
    var index := 0;
    for i := 0 to |pointDets|
      invariant index == 4 * i
      invariant forall i', j :: 0 <= i' < i && 0 <= j < 4 ==> out[4 * i' + j] == pointDets[i'][j]
    {
      var p := pointDets[i];
      for j := 0 to |p|
        invariant index == 4 * i + j
        invariant forall i', j' :: 0 <= i' < i && 0 <= j' < 4 ==> out[4 * i' + j'] == pointDets[i'][j']
        invariant forall j' :: 0 <= j' < j ==> out[4 * i + j'] == p[j']
      {
        out[index] := p[j];
        index := index + 1;
      }
    }
    bboxes := out[..];
  }

  /** Matching both corner regions of a flattened card, and the
      arbitration of `process_image`: the top region wins only with a
      strictly higher score. */
  method MatchCard(card: Image, rankScore: (Image, nat) -> real, suitScore: (Image, nat) -> real)
    returns (rank: nat, suit: nat)
    requires IsImage(card, CARD_HEIGHT, CARD_WIDTH)
    ensures rank == RankOf(card, rankScore) && suit == SuitOf(card, suitScore)
  {
    var top := TopRegion(card);
    var suitTop, suitValTop := MatchSuit(ScoresOf(top, suitScore, NUM_SUITS * NUM_SUIT_TYPES), DEFAULT_THRESHOLD);
    var rankTop, rankValTop := MatchRank(ScoresOf(top, rankScore, NUM_RANKS * NUM_RANK_TYPES), DEFAULT_THRESHOLD);

    var lbCardImage := BottomRegion(card);
    var suitBottom, suitValBottom := MatchSuit(ScoresOf(lbCardImage, suitScore, NUM_SUITS * NUM_SUIT_TYPES), DEFAULT_THRESHOLD);
    var rankBottom, rankValBottom := MatchRank(ScoresOf(lbCardImage, rankScore, NUM_RANKS * NUM_RANK_TYPES), DEFAULT_THRESHOLD);

    if suitValTop > suitValBottom {
      suit := suitTop;
    } else {
      suit := suitBottom;
    }
    if rankValTop > rankValBottom {
      rank := rankTop;
    } else {
      rank := rankBottom;
    }
  }

  /** The body of `process_image`'s loop for one accepted contour:
      preprocess, match both regions, arbitrate, normalise the box. */
  method ClassifyCard(c: Candidate, imageHeight: nat, imageWidth: nat, warp: seq<Point> -> Image,
                      rankScore: (Image, nat) -> real, suitScore: (Image, nat) -> real)
    returns (bbox: seq<real>, rank: nat, suit: nat)
    requires Accepts(c, imageHeight, imageWidth) && CornersUsable(c) && WarpsToCard(warp)
    ensures Detection(bbox, rank, suit) == Detect(c, imageHeight, imageWidth, warp, rankScore, suitScore)
  {
    var card := PreprocessImage(c, warp);

    rank, suit := MatchCard(card.warped, rankScore, suitScore);

    AcceptsBounds(c, imageHeight, imageWidth);
    bbox := NormalizedBox(card.box, imageHeight, imageWidth);
  }

  /** Extending the frame by one contour extends the accepted contours by
      that contour exactly when the filter accepts it. */
  lemma AcceptedStep(contours: seq<Candidate>, i: nat, imageHeight: nat, imageWidth: nat)
    requires i < |contours|
    ensures Accepted(contours[..i + 1], imageHeight, imageWidth) ==
      Accepted(contours[..i], imageHeight, imageWidth) +
        if Accepts(contours[i], imageHeight, imageWidth) then [contours[i]] else []
  {
    assert contours[..i + 1][..i] == contours[..i];
    assert contours[..i + 1][i] == contours[i];
  }

  /** Every prefix of a well-formed frame is well formed. */
  lemma WellFormedPrefix(contours: seq<Candidate>, i: nat, imageHeight: nat, imageWidth: nat, warp: seq<Point> -> Image)
    requires WellFormed(contours, imageHeight, imageWidth, warp) && i <= |contours|
    ensures WellFormed(contours[..i], imageHeight, imageWidth, warp)
  {
    assert contours[..i] + contours[i..] == contours;
    WellFormedAppend(contours[..i], contours[i..], imageHeight, imageWidth, warp);
  }

  /** One more contour adds its detection exactly when the filter accepts
      it. */
  lemma DetectionsStep(contours: seq<Candidate>, i: nat, imageHeight: nat, imageWidth: nat, warp: seq<Point> -> Image,
                       rankScore: (Image, nat) -> real, suitScore: (Image, nat) -> real)
    requires WellFormed(contours, imageHeight, imageWidth, warp) && i < |contours|
    ensures WellFormed(contours[..i], imageHeight, imageWidth, warp)
    ensures WellFormed(contours[..i + 1], imageHeight, imageWidth, warp)
    ensures Accepts(contours[i], imageHeight, imageWidth) ==> CornersUsable(contours[i])
    ensures Detections(contours[..i + 1], imageHeight, imageWidth, warp, rankScore, suitScore) ==
      Detections(contours[..i], imageHeight, imageWidth, warp, rankScore, suitScore) +
        if Accepts(contours[i], imageHeight, imageWidth)
        then [Detect(contours[i], imageHeight, imageWidth, warp, rankScore, suitScore)] else []
  {
    WellFormedPrefix(contours, i, imageHeight, imageWidth, warp);
    WellFormedPrefix(contours, i + 1, imageHeight, imageWidth, warp);
    AcceptedStep(contours, i, imageHeight, imageWidth);
    var pre := Accepted(contours[..i], imageHeight, imageWidth);
    var f := Classify(imageHeight, imageWidth, warp, rankScore, suitScore);
    var c := contours[i];
    if Accepts(c, imageHeight, imageWidth) {
      assert (pre + [c])[|pre|] == c;
      assert Accepted(contours[..i + 1], imageHeight, imageWidth) == pre + [c];
      MapSeqSnoc(f, pre, c);
      assert f(c) == Detect(c, imageHeight, imageWidth, warp, rankScore, suitScore);
    } else {
      assert pre + [] == pre;
      assert Accepted(contours[..i + 1], imageHeight, imageWidth) == pre;
      assert Detections(contours[..i], imageHeight, imageWidth, warp, rankScore, suitScore) + [] ==
        Detections(contours[..i], imageHeight, imageWidth, warp, rankScore, suitScore);
    }
  }

  /** The three parallel vectors read as one sequence of detections. */
  function Zip(bboxes: seq<seq<real>>, ranks: seq<nat>, suits: seq<nat>): (ds: seq<Detection>)
    requires |bboxes| == |ranks| == |suits|
    ensures |ds| == |bboxes|
    ensures forall k :: 0 <= k < |ds| ==> ds[k] == Detection(bboxes[k], ranks[k], suits[k])
  {
    seq(|bboxes|, k requires 0 <= k < |bboxes| => Detection(bboxes[k], ranks[k], suits[k]))
  }

  /** Appending one entry to each vector appends one detection. */
  lemma ZipSnoc(bboxes: seq<seq<real>>, ranks: seq<nat>, suits: seq<nat>, bbox: seq<real>, rank: nat, suit: nat)
    requires |bboxes| == |ranks| == |suits|
    ensures Zip(bboxes + [bbox], ranks + [rank], suits + [suit]) == Zip(bboxes, ranks, suits) + [Detection(bbox, rank, suit)]
  {
    var z, z' := Zip(bboxes, ranks, suits), Zip(bboxes + [bbox], ranks + [rank], suits + [suit]);
    assert forall k :: 0 <= k < |z| ==> z'[k] == z[k];
  }

  /** An accepted contour of a well-formed frame has corners the warp can
      use. */
  lemma AcceptedUsable(contours: seq<Candidate>, i: nat, imageHeight: nat, imageWidth: nat, warp: seq<Point> -> Image)
    requires WellFormed(contours, imageHeight, imageWidth, warp) && i < |contours|
    requires Accepts(contours[i], imageHeight, imageWidth)
    ensures CornersUsable(contours[i]) && WarpsToCard(warp)
  {
    WellFormedPrefix(contours, i + 1, imageHeight, imageWidth, warp);
    AcceptedStep(contours, i, imageHeight, imageWidth);
    var acc := Accepted(contours[..i + 1], imageHeight, imageWidth);
    assert acc[|acc| - 1] == contours[i];
  }

  /** The loop step of `process_image` for an accepted contour: appending
      its classification to the three vectors keeps them equal to the
      detections of the frame read so far. */
  lemma CollectAppend(contours: seq<Candidate>, i: nat, imageHeight: nat, imageWidth: nat, warp: seq<Point> -> Image,
                      rankScore: (Image, nat) -> real, suitScore: (Image, nat) -> real,
                      bboxes: seq<seq<real>>, ranks: seq<nat>, suits: seq<nat>, bbox: seq<real>, rank: nat, suit: nat)
    requires WellFormed(contours, imageHeight, imageWidth, warp) && i < |contours|
    requires WellFormed(contours[..i], imageHeight, imageWidth, warp)
    requires |bboxes| == |ranks| == |suits|
    requires Zip(bboxes, ranks, suits) == Detections(contours[..i], imageHeight, imageWidth, warp, rankScore, suitScore)
    requires Accepts(contours[i], imageHeight, imageWidth) && CornersUsable(contours[i]) && WarpsToCard(warp)
    requires Detection(bbox, rank, suit) == Detect(contours[i], imageHeight, imageWidth, warp, rankScore, suitScore)
    ensures WellFormed(contours[..i + 1], imageHeight, imageWidth, warp)
    ensures Zip(bboxes + [bbox], ranks + [rank], suits + [suit]) ==
      Detections(contours[..i + 1], imageHeight, imageWidth, warp, rankScore, suitScore)
  {
    DetectionsStep(contours, i, imageHeight, imageWidth, warp, rankScore, suitScore);
    ZipSnoc(bboxes, ranks, suits, bbox, rank, suit);
  }

  /** The loop step of `process_image` for a rejected contour: the
      detections of the frame read so far do not change. */
  lemma CollectSkip(contours: seq<Candidate>, i: nat, imageHeight: nat, imageWidth: nat, warp: seq<Point> -> Image,
                    rankScore: (Image, nat) -> real, suitScore: (Image, nat) -> real)
    requires WellFormed(contours, imageHeight, imageWidth, warp) && i < |contours|
    requires !Accepts(contours[i], imageHeight, imageWidth)
    ensures WellFormed(contours[..i], imageHeight, imageWidth, warp)
    ensures WellFormed(contours[..i + 1], imageHeight, imageWidth, warp)
    ensures Detections(contours[..i + 1], imageHeight, imageWidth, warp, rankScore, suitScore) ==
      Detections(contours[..i], imageHeight, imageWidth, warp, rankScore, suitScore)
  {
    DetectionsStep(contours, i, imageHeight, imageWidth, warp, rankScore, suitScore);
  }

  /** The loop of `process_image`: one classified detection per accepted
      contour, in contour order, in three parallel vectors. */
  method CollectDetections(imageHeight: nat, imageWidth: nat, contours: seq<Candidate>, warp: seq<Point> -> Image,
                           rankScore: (Image, nat) -> real, suitScore: (Image, nat) -> real)
    returns (pointDets: seq<seq<real>>, rankDets: seq<nat>, suitDets: seq<nat>)
    requires WellFormed(contours, imageHeight, imageWidth, warp)
    ensures |pointDets| == |rankDets| == |suitDets| == |Detections(contours, imageHeight, imageWidth, warp, rankScore, suitScore)|
    ensures forall k :: 0 <= k < |pointDets| ==>
      Detection(pointDets[k], rankDets[k], suitDets[k]) ==
        Detections(contours, imageHeight, imageWidth, warp, rankScore, suitScore)[k]
  {
    pointDets, rankDets, suitDets := [], [], [];
    WellFormedPrefix(contours, 0, imageHeight, imageWidth, warp);
    for i := 0 to |contours|
      invariant WellFormed(contours[..i], imageHeight, imageWidth, warp)
      invariant |pointDets| == |rankDets| == |suitDets|
      invariant Zip(pointDets, rankDets, suitDets) ==
        Detections(contours[..i], imageHeight, imageWidth, warp, rankScore, suitScore)
    {
      var c := contours[i];
      if c.area > ((imageHeight * imageWidth) / CARD_MIN_AREA) as real
         && c.area < ((imageHeight * imageWidth) / CARD_MAX_AREA) as real
         && c.coarseVertices == 4
      {
        AcceptedUsable(contours, i, imageHeight, imageWidth, warp);
        var bbox, rank, suit := ClassifyCard(c, imageHeight, imageWidth, warp, rankScore, suitScore);
        CollectAppend(contours, i, imageHeight, imageWidth, warp, rankScore, suitScore,
                      pointDets, rankDets, suitDets, bbox, rank, suit);
        pointDets := pointDets + [bbox];
        rankDets := rankDets + [rank];
        suitDets := suitDets + [suit];
      } else {
        CollectSkip(contours, i, imageHeight, imageWidth, warp, rankScore, suitScore);
      }
    }
    assert contours[..|contours|] == contours;
  }

  /** `process_image` after contour tracing: filters, classifies and
      collects the detections, then flattens the boxes into `Results`. */
  method ProcessImage(imageHeight: nat, imageWidth: nat, contours: seq<Candidate>, warp: seq<Point> -> Image,
                      rankScore: (Image, nat) -> real, suitScore: (Image, nat) -> real) returns (results: Results)
    requires WellFormed(contours, imageHeight, imageWidth, warp)
    ensures results.len == |Detections(contours, imageHeight, imageWidth, warp, rankScore, suitScore)|
    ensures |results.ranks| == |results.suits| == results.len && |results.bboxes| == 4 * results.len
    ensures forall i :: 0 <= i < results.len ==>
      results.ranks[i] == Detections(contours, imageHeight, imageWidth, warp, rankScore, suitScore)[i].rank &&
      results.suits[i] == Detections(contours, imageHeight, imageWidth, warp, rankScore, suitScore)[i].suit
    ensures forall i, j :: 0 <= i < results.len && 0 <= j < 4 ==>
      results.bboxes[4 * i + j] == Detections(contours, imageHeight, imageWidth, warp, rankScore, suitScore)[i].bbox[j]
  {
    var pointDets, rankDets, suitDets := CollectDetections(imageHeight, imageWidth, contours, warp, rankScore, suitScore);

    var len := |rankDets|;
    var bboxes: seq<real> := [];
    if len > 0 {
      bboxes := FlattenBoxes(pointDets);
    }
    results := Results(bboxes, rankDets, suitDets, len);
  }
}

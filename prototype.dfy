/** The prototype script `five_cards_flattener_full_card.py`: the same
    pipeline as the native entry point, with its own corner tie-breaks, an
    inclusive horizontal test, string labels and "Unknown" for no match. */
module Prototype {
  import opened Geometry
  import opened CornerOrder
  import opened Orientation
  import opened Regions
  import opened TemplateMatch
  import opened Pipeline

  /** The corners `[tl, tr, br, bl]` of `flattener`: `np.argmin` and
      `np.argmax` both keep the FIRST occurrence, for all four corners. */
  function PyCorners(points: seq<Point>): (r: seq<Point>)
    requires |points| > 0
    ensures |r| == 4
    ensures exists i :: IsFirstMin(Sums(points), i) && r[0] == points[i]
    ensures exists i :: IsFirstMin(Diffs(points), i) && r[1] == points[i]
    ensures exists i :: IsFirstMax(Sums(points), i) && r[2] == points[i]
    ensures exists i :: IsFirstMax(Diffs(points), i) && r[3] == points[i]
  {
    var tl := FirstArgMin(Sums(points));
    var br := FirstArgMax(Sums(points));
    var tr := FirstArgMin(Diffs(points));
    var bl := FirstArgMax(Diffs(points));
    [points[tl], points[tr], points[br], points[bl]]
  }

  /** `w >= 1.2 * h`: the prototype's horizontal test is inclusive. */
  function PyIsHorizontal(width: int, height: int): (b: bool)
    ensures b <==> (width as real) >= 1.2 * (height as real)
  {
    5 * width >= 6 * height
  }

  /** For a positive height exactly one of the prototype's three
      orientation tests holds. */
  lemma PyOrientationCases(width: int, height: int)
    requires height > 0
    ensures IsVertical(width, height) || PyIsHorizontal(width, height) || IsNearSquare(width, height)
    ensures !(IsVertical(width, height) && PyIsHorizontal(width, height))
    ensures !(IsVertical(width, height) && IsNearSquare(width, height))
    ensures !(PyIsHorizontal(width, height) && IsNearSquare(width, height))
  {
  }

  /** `temp_rect` of `flattener`. The tests run in the order vertical,
      horizontal, diamond, a later one overwriting an earlier; for a
      bounding box (non-negative sides) one of them always fires, so no slot
      keeps its zero default. */
  function PySourceRect(corners: seq<Point>, points: seq<Point>, width: nat, height: nat): (r: seq<Point>)
    requires |corners| == 4
    requires IsNearSquare(width, height) ==> |points| >= 4
    ensures |r| == 4
    ensures (width as real) >= 1.2 * (height as real) ==> r == [corners[3], corners[0], corners[1], corners[2]]
    ensures (width as real) <= 0.8 * (height as real) && height > 0 ==> r == corners
    ensures 0.8 * (height as real) < (width as real) < 1.2 * (height as real) ==>
      if points[1].y <= points[3].y then r == [points[1], points[0], points[3], points[2]]
      else r == [points[0], points[3], points[2], points[1]]
  {
    if PyIsHorizontal(width, height) then [corners[3], corners[0], corners[1], corners[2]]
    else if IsVertical(width, height) then corners
    else NearSquareRect(points)
  }

  /** The native and the prototype source quadrilaterals coincide whenever
      the ordered corners do and the width is not exactly 1.2 times the
      height. */
  lemma SourceRectsAgree(corners: seq<Point>, points: seq<Point>, width: nat, height: nat)
    requires |corners| == 4
    requires IsNearSquare(width, height) ==> |points| >= 4
    requires 5 * width != 6 * height
    ensures PySourceRect(corners, points, width, height) == SourceRect(corners, points, width, height)
  {
  }

  /** At exactly `w == 1.2 * h` the native code leaves every source point at
      (0, 0) while the prototype takes the horizontal order. */
  lemma SourceRectsDifferAtRatio(corners: seq<Point>, points: seq<Point>, width: nat, height: nat)
    requires |corners| == 4
    requires height > 0 && 5 * width == 6 * height
    ensures SourceRect(corners, points, width, height) == [ORIGIN, ORIGIN, ORIGIN, ORIGIN]
    ensures PySourceRect(corners, points, width, height) == [corners[3], corners[0], corners[1], corners[2]]
  {
    OrientationCases(width, height);
  }

  /** The largest key is held by a single index. */
  predicate UniqueMax(keys: seq<int>) {
    exists i :: 0 <= i < |keys| && forall j :: 0 <= j < |keys| && j != i ==> keys[j] < keys[i]
  }

  /** Without a tie for the largest key, first and last occurrence agree. */
  lemma UniqueMaxArgs(keys: seq<int>)
    requires |keys| > 0 && UniqueMax(keys)
    ensures FirstArgMax(keys) == LastArgMax(keys)
  {
    var m :| 0 <= m < |keys| && forall j :: 0 <= j < |keys| && j != m ==> keys[j] < keys[m];
    var f, l := FirstArgMax(keys), LastArgMax(keys);
    assert keys[f] == keys[l];
  }

  /** The two tie-break rules select the same corners when the largest x+y
      and the largest y-x are each held by one vertex. */
  lemma CornersAgreeWithoutMaxTies(points: seq<Point>)
    requires |points| > 0
    requires UniqueMax(Sums(points)) && UniqueMax(Diffs(points))
    ensures PyCorners(points) == CppCorners(points)
  {
    UniqueMaxArgs(Sums(points));
    UniqueMaxArgs(Diffs(points));
  }

  /** With the vertices (0,0), (1,1), (2,0), (0,2) the sum 2 is largest
      three times: the native code takes the last, (0,2), as the
      bottom-right corner, the prototype the first, (1,1). */
  lemma CornersDifferOnMaxTie()
    ensures var p := [Point(0, 0), Point(1, 1), Point(2, 0), Point(0, 2)];
      CppCorners(p)[2] == Point(0, 2) && PyCorners(p)[2] == Point(1, 1)
  {
    var p := [Point(0, 0), Point(1, 1), Point(2, 0), Point(0, 2)];
    var s := Sums(p);
    assert s == [0, 2, 2, 2];
    assert IsLastMax(s, 3);
    assert IsFirstMax(s, 1);
    ExtremeIndicesUnique(s, 3, LastArgMax(s));
    ExtremeIndicesUnique(s, 1, FirstArgMax(s));
  }

  /** The prototype's `flattener` and the native `transform_image` hand the
      warp the same source quadrilateral unless the width is exactly 1.2
      times the height or the largest x+y or y-x is tied. */
  lemma FlattenerMatchesNative(points: seq<Point>, width: nat, height: nat)
    requires |points| > 0
    requires IsNearSquare(width, height) ==> |points| >= 4
    requires 5 * width != 6 * height
    requires UniqueMax(Sums(points)) && UniqueMax(Diffs(points))
    ensures PySourceRect(PyCorners(points), points, width, height) ==
      SourceRect(CppCorners(points), points, width, height)
  {
    CornersAgreeWithoutMaxTies(points);
    SourceRectsAgree(PyCorners(points), points, width, height);
  }

  /** The suit letters, in template order. */
  const SUIT_LETTERS: string := "cdhs"

  /** `match_suit`'s result: "Unknown", or the suit at position `index` of
      the list `SUIT_LETTERS`. */
  datatype PySuit = SuitUnknown | SuitAt(index: nat)

  /** `match_rank`'s result: a rank `1..13` or the string "Unknown". */
  datatype PyRank = RankUnknown | RankValue(n: nat)

  /** The prototype's suit for a native-style label number. */
  function SuitName(id: nat): PySuit {
    if id == 0 then SuitUnknown else SuitAt(id - 1)
  }

  /** The prototype's rank for a native-style label number. */
  function RankName(id: nat): (r: PyRank)
  {
    if id == 0 then RankUnknown else RankValue(id)
  }

  /** What `match_suit` returns for the scores of its eight templates: the
      letter of the first template with a strictly best score above 0.5 and
      that score, or "Unknown" with 0. */
  function PySuitOutcome(scores: seq<real>): (r: (PySuit, real))
    requires |scores| == NUM_SUITS * NUM_SUIT_TYPES
  {
    var m := MatchOutcome(scores, NUM_SUIT_TYPES, DEFAULT_THRESHOLD);
    MatchOutcomeBound(scores, NUM_SUITS, NUM_SUIT_TYPES, DEFAULT_THRESHOLD);
    (SuitName(m.id), m.score)
  }

  /** "Unknown" with score 0 exactly when no template beat the threshold;
      otherwise the letter and score of the first best template. */
  lemma PySuitOutcomeSpec(scores: seq<real>)
    requires |scores| == NUM_SUITS * NUM_SUIT_TYPES
    ensures var r := PySuitOutcome(scores);
      && (r.0 == SuitUnknown <==> NoneEligible(scores, DEFAULT_THRESHOLD))
      && (r.0 == SuitUnknown ==> r.1 == 0.0)
      && (r.0 != SuitUnknown ==>
            exists k :: IsBestIndex(scores, DEFAULT_THRESHOLD, k) &&
              r.0 == SuitAt(k / NUM_SUIT_TYPES) && k / NUM_SUIT_TYPES < |SUIT_LETTERS| && r.1 == scores[k])
  {
    MatchOutcomeSpec(scores, NUM_SUIT_TYPES, DEFAULT_THRESHOLD);
    MatchOutcomeBound(scores, NUM_SUITS, NUM_SUIT_TYPES, DEFAULT_THRESHOLD);
  }

  /** What `match_rank` returns for the scores of its 26 templates: the rank
      `1..13` of the first template with a strictly best score above 0.5 and
      that score, or "Unknown" with 0. */
  function PyRankOutcome(scores: seq<real>): (r: (PyRank, real))
    requires |scores| == NUM_RANKS * NUM_RANK_TYPES
  {
    var m := MatchOutcome(scores, NUM_RANK_TYPES, DEFAULT_THRESHOLD);
    (RankName(m.id), m.score)
  }

  /** "Unknown" with score 0 exactly when no template beat the threshold;
      otherwise the rank and score of the first best template. */
  lemma PyRankOutcomeSpec(scores: seq<real>)
    requires |scores| == NUM_RANKS * NUM_RANK_TYPES
    ensures var r := PyRankOutcome(scores);
      && (r.0 == RankUnknown <==> NoneEligible(scores, DEFAULT_THRESHOLD))
      && (r.0 == RankUnknown ==> r.1 == 0.0)
      && (r.0 != RankUnknown ==>
            exists k :: IsBestIndex(scores, DEFAULT_THRESHOLD, k) &&
              r.0 == RankValue(k / NUM_RANK_TYPES + 1) && r.1 == scores[k])
  {
    MatchOutcomeSpec(scores, NUM_RANK_TYPES, DEFAULT_THRESHOLD);
  }

  /** `match_suit`, with the correlation score of each template an input:
      `for s in suits` visits the letter at position `i`, `for i in
      range(0, 2)` its styles. */
  method PyMatchSuit(scores: seq<real>) returns (suit: PySuit, suitVal: real)
    requires |scores| == NUM_SUITS * NUM_SUIT_TYPES
    ensures (suit, suitVal) == PySuitOutcome(scores)
  {
    suit := SuitUnknown;
    suitVal := 0.0;
    ghost var m := Match(0, 0.0);
    for i := 0 to |SUIT_LETTERS|
      invariant i * NUM_SUIT_TYPES <= |scores|
      invariant m == MatchOutcome(scores[..i * NUM_SUIT_TYPES], NUM_SUIT_TYPES, DEFAULT_THRESHOLD)
      invariant suitVal == m.score && suit == SuitName(m.id)
    {
      for j := 0 to NUM_SUIT_TYPES
        invariant i * NUM_SUIT_TYPES + j <= |scores|
        invariant m == MatchOutcome(scores[..i * NUM_SUIT_TYPES + j], NUM_SUIT_TYPES, DEFAULT_THRESHOLD)
        invariant suitVal == m.score && suit == SuitName(m.id)
      {
        TemplateLayout(i, j, NUM_SUITS, NUM_SUIT_TYPES);
        MatchOutcomeStep(scores, i * NUM_SUIT_TYPES + j, NUM_SUIT_TYPES, DEFAULT_THRESHOLD);
        var maxVal := scores[i * NUM_SUIT_TYPES + j];
        if maxVal > DEFAULT_THRESHOLD && maxVal > suitVal {
          suitVal := maxVal;
          suit := SuitAt(i);
          m := Match(i + 1, maxVal);
        }
      }
      TemplateLayout(i, NUM_SUIT_TYPES - 1, NUM_SUITS, NUM_SUIT_TYPES);
    }
    assert scores[..NUM_SUITS * NUM_SUIT_TYPES] == scores;
  }

  /** `match_rank`, with the correlation score of each template an input:
      `for i in range(1, 14)` visits rank `i`, `for j in range(0, 2)` its
      styles. */
  method PyMatchRank(scores: seq<real>) returns (rank: PyRank, rankVal: real)
    requires |scores| == NUM_RANKS * NUM_RANK_TYPES
    ensures (rank, rankVal) == PyRankOutcome(scores)
  {
    rank := RankUnknown;
    rankVal := 0.0;
    ghost var m := Match(0, 0.0);
    for i := 1 to NUM_RANKS + 1
      invariant (i - 1) * NUM_RANK_TYPES <= |scores|
      invariant m == MatchOutcome(scores[..(i - 1) * NUM_RANK_TYPES], NUM_RANK_TYPES, DEFAULT_THRESHOLD)
      invariant rankVal == m.score && rank == RankName(m.id)
    {
      for j := 0 to NUM_RANK_TYPES
        invariant (i - 1) * NUM_RANK_TYPES + j <= |scores|
        invariant m == MatchOutcome(scores[..(i - 1) * NUM_RANK_TYPES + j], NUM_RANK_TYPES, DEFAULT_THRESHOLD)
        invariant rankVal == m.score && rank == RankName(m.id)
      {
        TemplateLayout(i - 1, j, NUM_RANKS, NUM_RANK_TYPES);
        MatchOutcomeStep(scores, (i - 1) * NUM_RANK_TYPES + j, NUM_RANK_TYPES, DEFAULT_THRESHOLD);
        var maxVal := scores[(i - 1) * NUM_RANK_TYPES + j];
        if maxVal > DEFAULT_THRESHOLD && maxVal > rankVal {
          rankVal := maxVal;
          rank := RankValue(i);
          m := Match(i, maxVal);
        }
      }
      TemplateLayout(i - 1, NUM_RANK_TYPES - 1, NUM_RANKS, NUM_RANK_TYPES);
    }
    assert scores[..NUM_RANKS * NUM_RANK_TYPES] == scores;
  }

  /** The script's loop over the sorted contours: flags each card in
      `cnt_is_card` and advances the card counter `k` from 1. */
  method MarkCards(contours: seq<Candidate>, imageHeight: nat, imageWidth: nat) returns (cntIsCard: seq<int>, k: nat)
    ensures |cntIsCard| == |contours|
    ensures forall i :: 0 <= i < |contours| ==>
      cntIsCard[i] == if Accepts(contours[i], imageHeight, imageWidth) then 1 else 0
    ensures k == 1 + |Accepted(contours, imageHeight, imageWidth)|
  {
    var flags := new int[|contours|](_ => 0);
    k := 1;
    for i := 0 to |contours|
      invariant forall j :: 0 <= j < i ==> flags[j] == if Accepts(contours[j], imageHeight, imageWidth) then 1 else 0
      invariant forall j :: i <= j < |contours| ==> flags[j] == 0
      invariant k == 1 + |Accepted(contours[..i], imageHeight, imageWidth)|
    {
      assert contours[..i + 1][..i] == contours[..i];
      var size := contours[i].area;
      if size > ((imageHeight * imageWidth) / CARD_MIN_AREA) as real
         && size < ((imageHeight * imageWidth) / CARD_MAX_AREA) as real
         && contours[i].coarseVertices == 4
      {
        flags[i] := 1;
        k := k + 1;
      }
    }
    assert contours[..|contours|] == contours;
    cntIsCard := flags[..];
  }

  /** The script's suit for a card from its two corner probes: the
      arbitration winner, "Unknown" exactly when neither corner matched. */
  function PySuitLabel(top: Image, bottom: Image, suitScore: (Image, nat) -> real): (suit: PySuit)
    ensures suit == SuitUnknown <==>
      NoneEligible(ScoresOf(top, suitScore, NUM_SUITS * NUM_SUIT_TYPES), DEFAULT_THRESHOLD) &&
      NoneEligible(ScoresOf(bottom, suitScore, NUM_SUITS * NUM_SUIT_TYPES), DEFAULT_THRESHOLD)
  {
    PySuitOutcomeSpec(ScoresOf(top, suitScore, NUM_SUITS * NUM_SUIT_TYPES));
    PySuitOutcomeSpec(ScoresOf(bottom, suitScore, NUM_SUITS * NUM_SUIT_TYPES));
    Arbitrate(PySuitOutcome(ScoresOf(top, suitScore, NUM_SUITS * NUM_SUIT_TYPES)),
              PySuitOutcome(ScoresOf(bottom, suitScore, NUM_SUITS * NUM_SUIT_TYPES))).0
  }

  /** The script's rank for a card, chosen like the suit on the rank scores
      alone. */
  function PyRankLabel(top: Image, bottom: Image, rankScore: (Image, nat) -> real): (rank: PyRank)
    ensures rank == RankUnknown <==>
      NoneEligible(ScoresOf(top, rankScore, NUM_RANKS * NUM_RANK_TYPES), DEFAULT_THRESHOLD) &&
      NoneEligible(ScoresOf(bottom, rankScore, NUM_RANKS * NUM_RANK_TYPES), DEFAULT_THRESHOLD)
  {
    PyRankOutcomeSpec(ScoresOf(top, rankScore, NUM_RANKS * NUM_RANK_TYPES));
    PyRankOutcomeSpec(ScoresOf(bottom, rankScore, NUM_RANKS * NUM_RANK_TYPES));
    Arbitrate(PyRankOutcome(ScoresOf(top, rankScore, NUM_RANKS * NUM_RANK_TYPES)),
              PyRankOutcome(ScoresOf(bottom, rankScore, NUM_RANKS * NUM_RANK_TYPES))).0
  }

  /** The script's labelling of one card: the top corner `[0:150, 0:70]`
      and the bottom corner `[149:299, 129:199]`, the latter turned by the
      interpolating `rotate` (a parameter), each matched, and each label
      arbitrated on its own scores with ties going to the bottom corner. */
  method PyLabelCard(card: Image, rotate: Image -> Image,
                     rankScore: (Image, nat) -> real, suitScore: (Image, nat) -> real)
    returns (suit: PySuit, rank: PyRank)
    requires IsImage(card, CARD_HEIGHT, CARD_WIDTH)
    ensures var top, bottom := TopRegion(card), rotate(Crop(card, CARD_HEIGHT, CARD_WIDTH, BOTTOM_WINDOW));
      suit == PySuitLabel(top, bottom, suitScore) && rank == PyRankLabel(top, bottom, rankScore)
  {
    var top := TopRegion(card);
    var suit1, suitVal1 := PyMatchSuit(ScoresOf(top, suitScore, NUM_SUITS * NUM_SUIT_TYPES));
    var rank1, rankVal1 := PyMatchRank(ScoresOf(top, rankScore, NUM_RANKS * NUM_RANK_TYPES));

    var leftBottomCard := rotate(Crop(card, CARD_HEIGHT, CARD_WIDTH, BOTTOM_WINDOW));
    var suit2, suitVal2 := PyMatchSuit(ScoresOf(leftBottomCard, suitScore, NUM_SUITS * NUM_SUIT_TYPES));
    var rank2, rankVal2 := PyMatchRank(ScoresOf(leftBottomCard, rankScore, NUM_RANKS * NUM_RANK_TYPES));

    if suitVal1 > suitVal2 {
      suit := suit1;
    } else {
      suit := suit2;
    }
    if rankVal1 > rankVal2 {
      rank := rank1;
    } else {
      rank := rank2;
    }
  }
}

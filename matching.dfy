/** Template selection of the native `match_rank` and `match_suit`. Each
    template's correlation score (the maximum of OpenCV's normalised
    correlation map) is an input; the templates are visited in the order
    `i * types + j` (class `i`, style variant `j`), and a score replaces the
    running best only when it exceeds the threshold AND is strictly greater
    than the running best, which starts at 0.0. */
module TemplateMatch {
  import Arith

  datatype Option<T> = None | Some(value: T)

  const NUM_RANKS: nat := 13
  const NUM_RANK_TYPES: nat := 2
  const NUM_SUITS: nat := 4
  const NUM_SUIT_TYPES: nat := 2

  /** The default `max_val_thresh`. */
  const DEFAULT_THRESHOLD: real := 0.5

  /** A match: the class label (0 when nothing matched) and its score. */
  datatype Match = Match(id: nat, score: real)

  /** A score that can win: above the threshold and above the initial
      running best 0.0 (for a non-negative threshold, the first implies the
      second). */
  predicate Eligible(s: real, thresh: real) {
    s > thresh && s > 0.0
  }

  /** `k` is the first template whose score is the largest eligible one. */
  predicate IsBestIndex(scores: seq<real>, thresh: real, k: int) {
    && 0 <= k < |scores|
    && Eligible(scores[k], thresh)
    && (forall j :: 0 <= j < |scores| && Eligible(scores[j], thresh) ==> scores[j] <= scores[k])
    && (forall j :: 0 <= j < k && Eligible(scores[j], thresh) ==> scores[j] < scores[k])
  }

  predicate NoneEligible(scores: seq<real>, thresh: real) {
    forall j :: 0 <= j < |scores| ==> !Eligible(scores[j], thresh)
  }

  /** Argmax with threshold, first winner kept on ties. */
  function BestIndex(scores: seq<real>, thresh: real): (r: Option<nat>)
    ensures r.None? <==> NoneEligible(scores, thresh)
    ensures r.Some? ==> IsBestIndex(scores, thresh, r.value)
    decreases |scores|
  {
    if |scores| == 0 then None
    else
      var prev := BestIndex(scores[..|scores| - 1], thresh);
      var s := scores[|scores| - 1];
      if Eligible(s, thresh) && (prev.None? || s > scores[prev.value]) then Some(|scores| - 1)
      else prev
  }

  lemma BestIndexUnique(scores: seq<real>, thresh: real, k: int, l: int)
    requires IsBestIndex(scores, thresh, k) && IsBestIndex(scores, thresh, l)
    ensures k == l
  {
  }

  /** What the matcher reports after visiting the templates in order: the
      running result of the update rule, starting from `(0, 0.0)`. A score
      replaces the running best when it exceeds the threshold and is
      strictly greater than the running best score; it is labelled with its
      class `k / types + 1`. */
  function MatchOutcome(scores: seq<real>, types: nat, thresh: real): (m: Match)
    requires types > 0
    ensures m.score >= 0.0
    ensures m.id == 0 <==> m.score == 0.0
    decreases |scores|
  {
    if |scores| == 0 then Match(0, 0.0)
    else
      var k := |scores| - 1;
      var m := MatchOutcome(scores[..k], types, thresh);
      if scores[k] > thresh && scores[k] > m.score then Match(k / types + 1, scores[k]) else m
  }

  /** The running result is the class of the reference argmax `BestIndex`
      and its score, or `(0, 0.0)` when no score is eligible. */
  lemma {:induction false} MatchOutcomeIsBest(scores: seq<real>, types: nat, thresh: real)
    requires types > 0
    ensures var m, b := MatchOutcome(scores, types, thresh), BestIndex(scores, thresh);
      && (b.None? ==> m == Match(0, 0.0))
      && (b.Some? ==> m == Match(b.value / types + 1, scores[b.value]))
    decreases |scores|
  {
    if |scores| > 0 {
      var k := |scores| - 1;
      MatchOutcomeIsBest(scores[..k], types, thresh);
      var prev := BestIndex(scores[..k], thresh);
      if prev.Some? {
        assert scores[..k][prev.value] == scores[prev.value];
      }
    }
  }

  /** What the matcher promises: a non-negative score at least every score
      above the threshold; label 0 with score 0.0 exactly when no score is
      eligible; otherwise the class and score of the first best template. */
  lemma MatchOutcomeSpec(scores: seq<real>, types: nat, thresh: real)
    requires types > 0
    ensures var m := MatchOutcome(scores, types, thresh);
      && m.score >= 0.0
      && (forall j :: 0 <= j < |scores| && scores[j] > thresh ==> scores[j] <= m.score)
      && (m.id == 0 <==> NoneEligible(scores, thresh))
      && (m.id == 0 ==> m.score == 0.0)
      && (m.id != 0 ==> exists k :: IsBestIndex(scores, thresh, k) && m.id == k / types + 1 && m.score == scores[k])
  {
    MatchOutcomeIsBest(scores, types, thresh);
    var b := BestIndex(scores, thresh);
    if b.Some? {
      assert IsBestIndex(scores, thresh, b.value);
    }
  }

  /** Over `classes * types` templates the label is at most `classes`. */
  lemma MatchOutcomeBound(scores: seq<real>, classes: nat, types: nat, thresh: real)
    requires types > 0 && |scores| == classes * types
    ensures MatchOutcome(scores, types, thresh).id <= classes
  {
    MatchOutcomeIsBest(scores, types, thresh);
    var b := BestIndex(scores, thresh);
    if b.Some? {
      Arith.DivBelow(b.value, classes, types);
    }
  }

  /** One step of the matcher's loop: visiting template `k` updates the
      outcome of the first `k` templates exactly as the source's test does. */
  lemma MatchOutcomeStep(scores: seq<real>, k: nat, types: nat, thresh: real)
    requires k < |scores| && types > 0
    ensures var m := MatchOutcome(scores[..k], types, thresh);
      MatchOutcome(scores[..k + 1], types, thresh) ==
        if scores[k] > thresh && scores[k] > m.score then Match(k / types + 1, scores[k]) else m
  {
    assert scores[..k + 1][..k] == scores[..k];
    assert scores[..k + 1][k] == scores[k];
  }

  /** Template `i * types + j` belongs to class `i`. */
  lemma TemplateLayout(i: nat, j: nat, classes: nat, types: nat)
    requires i < classes && j < types
    ensures i * types + j < classes * types
    ensures (i * types + j) / types == i
    ensures i * types + types == (i + 1) * types
  {
    Arith.DivLayout(i, j, types);
    Arith.MulMono(i + 1, classes, types);
    assert (i + 1) * types == i * types + types;
  }

  /** The loops of `match_rank` / `match_suit` over `classes * types` scores. */
  method MatchTemplates(scores: seq<real>, classes: nat, types: nat, thresh: real) returns (id: nat, score: real)
    requires types > 0 && |scores| == classes * types
    ensures Match(id, score) == MatchOutcome(scores, types, thresh)
    ensures id <= classes
  {
    score := 0.0;
    id := 0;
    for i := 0 to classes
      invariant i * types <= |scores|
      invariant Match(id, score) == MatchOutcome(scores[..i * types], types, thresh)
      invariant id <= i
    {
      for j := 0 to types
        invariant i * types + j <= |scores|
        invariant Match(id, score) == MatchOutcome(scores[..i * types + j], types, thresh)
        invariant id <= i + 1
      {
        TemplateLayout(i, j, classes, types);
        MatchOutcomeStep(scores, i * types + j, types, thresh);
        var maxVal := scores[i * types + j];
        if maxVal > thresh && maxVal > score {
          score := maxVal;
          id := i + 1;
        }
      }
      TemplateLayout(i, types - 1, classes, types);
    }
    assert scores[..classes * types] == scores;
  }

  /** `match_rank`: 13 ranks with 2 template styles each; labels 1..13. */
  method MatchRank(scores: seq<real>, thresh: real) returns (rank: nat, rankVal: real)
    requires |scores| == NUM_RANKS * NUM_RANK_TYPES
    ensures Match(rank, rankVal) == MatchOutcome(scores, NUM_RANK_TYPES, thresh)
    ensures rank <= NUM_RANKS
  {
    rank, rankVal := MatchTemplates(scores, NUM_RANKS, NUM_RANK_TYPES, thresh);
  }

  /** `match_suit`: 4 suits with 2 template styles each; labels 1..4. */
  method MatchSuit(scores: seq<real>, thresh: real) returns (suit: nat, suitVal: real)
    requires |scores| == NUM_SUITS * NUM_SUIT_TYPES
    ensures Match(suit, suitVal) == MatchOutcome(scores, NUM_SUIT_TYPES, thresh)
    ensures suit <= NUM_SUITS
  {
    suit, suitVal := MatchTemplates(scores, NUM_SUITS, NUM_SUIT_TYPES, thresh);
  }

  /** The choice between the two corner regions' results: the one with the
      higher score, the bottom region's on a tie. */
  function Arbitrate<L>(top: (L, real), bottom: (L, real)): (w: (L, real))
    ensures w == top || w == bottom
    ensures w.1 >= top.1 && w.1 >= bottom.1
    ensures top.1 == bottom.1 ==> w == bottom
  {
    if top.1 > bottom.1 then top else bottom
  }

  /** A probe that is one of the templates: with correlation scores at most
      1.0, the first template scoring exactly 1.0 wins with score 1.0. */
  lemma PerfectMatchWins(scores: seq<real>, types: nat, thresh: real, k: nat)
    requires types > 0 && thresh < 1.0
    requires forall j :: 0 <= j < |scores| ==> scores[j] <= 1.0
    requires k < |scores| && scores[k] == 1.0
    requires forall j :: 0 <= j < k ==> scores[j] < 1.0
    ensures MatchOutcome(scores, types, thresh) == Match(k / types + 1, 1.0)
  {
    assert IsBestIndex(scores, thresh, k);
    MatchOutcomeIsBest(scores, types, thresh);
    var b := BestIndex(scores, thresh);
    BestIndexUnique(scores, thresh, k, b.value);
  }
}

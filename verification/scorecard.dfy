/**
 * The write-once scorecard of game_engine.Scorecard. A category that has no
 * entry in `scores` is unfilled (`None` in the source); once written, an
 * entry is never overwritten, and a 0 counts as filled. `yahtzeeBonusCount`
 * is the number of bonus Yahtzees the rules suite credits to the card.
 */
module Scorecards {
  import opened Categories

  datatype Scorecard = Scorecard(scores: map<Category, int>, yahtzeeBonusCount: nat)

  const UpperBonusThreshold: int := 63
  const UpperBonusValue: int := 35
  const YahtzeeBonusValue: int := 100

  /** A fresh scorecard: thirteen empty categories, no bonus. */
  function Empty(): (sc: Scorecard)
    ensures forall c :: !IsFilled(sc, c)
    ensures sc.yahtzeeBonusCount == 0
  {
    Scorecard(map[], 0)
  }

  predicate IsFilled(sc: Scorecard, c: Category) {
    c in sc.scores
  }

  /** The score recorded for `c`, or 0 while it is unfilled (how the section
      totals treat `None`). */
  function ScoreOr0(sc: Scorecard, c: Category): int {
    if c in sc.scores then sc.scores[c] else 0
  }

  /** `with_score` (and `set_score` on a value): records `v` for `c` unless
      `c` is already filled; nothing else on the card changes. */
  function WithScore(sc: Scorecard, c: Category, v: int): (r: Scorecard)
    ensures IsFilled(r, c)
    ensures IsFilled(sc, c) ==> r == sc
    ensures !IsFilled(sc, c) ==> r.scores[c] == v
    ensures forall d :: d != c ==> (IsFilled(r, d) <==> IsFilled(sc, d)) && ScoreOr0(r, d) == ScoreOr0(sc, d)
    ensures r.yahtzeeBonusCount == sc.yahtzeeBonusCount
  {
    if IsFilled(sc, c) then sc else sc.(scores := sc.scores[c := v])
  }

  /** Sum of the recorded scores of `cats`, unfilled ones adding 0. */
  function SectionTotal(sc: Scorecard, cats: seq<Category>): int {
    if |cats| == 0 then 0 else ScoreOr0(sc, cats[0]) + SectionTotal(sc, cats[1..])
  }

  function UpperTotal(sc: Scorecard): int {
    SectionTotal(sc, UpperCategories)
  }

  function LowerTotal(sc: Scorecard): int {
    SectionTotal(sc, LowerCategories)
  }

  /** 35 once the upper section reaches 63. */
  function UpperBonus(sc: Scorecard): (b: int)
    ensures b == 0 || b == UpperBonusValue
    ensures b == UpperBonusValue <==> UpperTotal(sc) >= UpperBonusThreshold
  {
    if UpperTotal(sc) >= UpperBonusThreshold then UpperBonusValue else 0
  }

  /** The three-term total of `get_grand_total` as written in game_engine.py. */
  function ShownGrandTotal(sc: Scorecard): int {
    UpperTotal(sc) + UpperBonus(sc) + LowerTotal(sc)
  }

  /** The grand total the rules suite expects: the three-term total plus 100
      for every bonus Yahtzee. */
  function GrandTotal(sc: Scorecard): (t: int)
    ensures t == ShownGrandTotal(sc) + YahtzeeBonusValue * sc.yahtzeeBonusCount
    ensures t == SectionTotal(sc, AllCategories) + UpperBonus(sc) + YahtzeeBonusValue * sc.yahtzeeBonusCount
  {
    SectionTotalConcat(sc, UpperCategories, LowerCategories);
    assert UpperCategories + LowerCategories == AllCategories;
    UpperTotal(sc) + UpperBonus(sc) + LowerTotal(sc) + YahtzeeBonusValue * sc.yahtzeeBonusCount
  }

  /** The total of two lists of categories side by side is the sum of their
      totals. */
  lemma {:induction false} SectionTotalConcat(sc: Scorecard, a: seq<Category>, b: seq<Category>)
    ensures SectionTotal(sc, a + b) == SectionTotal(sc, a) + SectionTotal(sc, b)
  {
    if |a| > 0 {
      assert (a + b)[1..] == a[1..] + b;
      SectionTotalConcat(sc, a[1..], b);
    } else {
      assert a + b == b;
    }
  }

  predicate IsComplete(sc: Scorecard) {
    forall c :: IsFilled(sc, c)
  }

  /** The unfilled categories, in canonical order. */
  function Unfilled(sc: Scorecard, cats: seq<Category>): (u: seq<Category>)
    ensures |u| <= |cats|
    ensures forall c :: c in u <==> c in cats && !IsFilled(sc, c)
  {
    if |cats| == 0 then []
    else if IsFilled(sc, cats[0]) then Unfilled(sc, cats[1..])
    else [cats[0]] + Unfilled(sc, cats[1..])
  }

  function Open(sc: Scorecard): seq<Category> {
    Unfilled(sc, AllCategories)
  }

  // ---------------------------------------------------------------------

  /** A card is complete exactly when no category is left open. */
  lemma CompleteIffNoneOpen(sc: Scorecard)
    ensures IsComplete(sc) <==> |Open(sc)| == 0
  {
    Categories.AllCategoriesDistinct();
    if |Open(sc)| > 0 {
      assert Open(sc)[0] in Open(sc);
    }
  }

  /** A section total only sees the categories it lists. */
  lemma {:induction false} SectionTotalOther(sc: Scorecard, cats: seq<Category>, c: Category, v: int)
    requires c !in cats
    ensures SectionTotal(WithScore(sc, c, v), cats) == SectionTotal(sc, cats)
  {
    if |cats| > 0 {
      SectionTotalOther(sc, cats[1..], c, v);
    }
  }

  /** Filling an open category that a section lists once adds its score to
      that section. */
  lemma {:induction false} SectionTotalAdd(sc: Scorecard, cats: seq<Category>, c: Category, v: int)
    requires !IsFilled(sc, c)
    requires forall i, j :: 0 <= i < j < |cats| ==> cats[i] != cats[j]
    requires c in cats
    ensures SectionTotal(WithScore(sc, c, v), cats) == SectionTotal(sc, cats) + v
  {
    if cats[0] == c {
      assert c !in cats[1..];
      SectionTotalOther(sc, cats[1..], c, v);
    } else {
      SectionTotalAdd(sc, cats[1..], c, v);
    }
  }

  lemma UpperListsUpper(c: Category)
    ensures IsUpper(c) <==> c in UpperCategories
    ensures !IsUpper(c) <==> c in LowerCategories
    ensures forall i, j :: 0 <= i < j < |UpperCategories| ==> UpperCategories[i] != UpperCategories[j]
    ensures forall i, j :: 0 <= i < j < |LowerCategories| ==> LowerCategories[i] != LowerCategories[j]
  {
  }

  /** Recording `v` in an open upper category raises the upper total by `v`
      and leaves the lower total alone. */
  lemma SectionsAfterUpperScore(sc: Scorecard, c: Category, v: int)
    requires !IsFilled(sc, c) && IsUpper(c)
    ensures UpperTotal(WithScore(sc, c, v)) == UpperTotal(sc) + v
    ensures LowerTotal(WithScore(sc, c, v)) == LowerTotal(sc)
  {
    UpperListsUpper(c);
    SectionTotalAdd(sc, UpperCategories, c, v);
    SectionTotalOther(sc, LowerCategories, c, v);
  }

  /** Recording `v` in an open lower category raises the lower total by `v`
      and leaves the upper total alone. */
  lemma SectionsAfterLowerScore(sc: Scorecard, c: Category, v: int)
    requires !IsFilled(sc, c) && !IsUpper(c)
    ensures UpperTotal(WithScore(sc, c, v)) == UpperTotal(sc)
    ensures LowerTotal(WithScore(sc, c, v)) == LowerTotal(sc) + v
  {
    UpperListsUpper(c);
    SectionTotalOther(sc, UpperCategories, c, v);
    SectionTotalAdd(sc, LowerCategories, c, v);
  }

  /** Recording `v` in an open category raises the grand total by `v` plus
      whatever upper bonus the new upper total earns; a lower category never
      changes the bonus, and a filled category changes nothing. */
  lemma GrandTotalAfterWithScore(sc: Scorecard, c: Category, v: int)
    ensures var r := WithScore(sc, c, v);
      if IsFilled(sc, c) then GrandTotal(r) == GrandTotal(sc)
      else
        GrandTotal(r) == GrandTotal(sc) + v + UpperBonus(r) - UpperBonus(sc)
        && (!IsUpper(c) ==> UpperBonus(r) == UpperBonus(sc))
  {
    if !IsFilled(sc, c) {
      if IsUpper(c) {
        SectionsAfterUpperScore(sc, c, v);
      } else {
        SectionsAfterLowerScore(sc, c, v);
      }
    }
  }

  /** Filling an open category removes exactly that category from the open
      list and leaves every other category as it was. */
  lemma {:induction false} UnfilledAfterWithScore(sc: Scorecard, cats: seq<Category>, c: Category, v: int)
    requires !IsFilled(sc, c)
    requires forall i, j :: 0 <= i < j < |cats| ==> cats[i] != cats[j]
    requires c in cats
    ensures |Unfilled(WithScore(sc, c, v), cats)| == |Unfilled(sc, cats)| - 1
  {
    var r := WithScore(sc, c, v);
    if cats[0] == c {
      assert c !in cats[1..];
      UnfilledSame(sc, r, cats[1..]);
    } else {
      UnfilledAfterWithScore(sc, cats[1..], c, v);
    }
  }

  /** Two cards that agree on which of `cats` are filled leave the same
      categories open. */
  lemma {:induction false} UnfilledSame(a: Scorecard, b: Scorecard, cats: seq<Category>)
    requires forall c :: c in cats ==> (IsFilled(a, c) <==> IsFilled(b, c))
    ensures Unfilled(a, cats) == Unfilled(b, cats)
  {
    if |cats| > 0 {
      UnfilledSame(a, b, cats[1..]);
    }
  }

  /** Cards that agree on which categories are filled have the same open
      categories. */
  lemma OpenSame(a: Scorecard, b: Scorecard)
    requires a.scores.Keys == b.scores.Keys
    ensures Open(a) == Open(b)
  {
    UnfilledSame(a, b, AllCategories);
  }

  /** One fewer category is open after recording a score in an open one. */
  lemma OpenAfterWithScore(sc: Scorecard, c: Category, v: int)
    requires !IsFilled(sc, c)
    ensures |Open(WithScore(sc, c, v))| == |Open(sc)| - 1
  {
    Categories.AllCategoriesDistinct();
    UnfilledAfterWithScore(sc, AllCategories, c, v);
  }

  /** The grand total of a card whose recorded scores are all non-negative is
      non-negative. */
  lemma {:induction false} SectionTotalNonNegative(sc: Scorecard, cats: seq<Category>)
    requires forall c :: c in sc.scores ==> sc.scores[c] >= 0
    ensures SectionTotal(sc, cats) >= 0
  {
    if |cats| > 0 {
      SectionTotalNonNegative(sc, cats[1..]);
    }
  }

  lemma GrandTotalNonNegative(sc: Scorecard)
    requires forall c :: c in sc.scores ==> sc.scores[c] >= 0
    ensures GrandTotal(sc) >= 0
  {
    SectionTotalNonNegative(sc, UpperCategories);
    SectionTotalNonNegative(sc, LowerCategories);
  }
}

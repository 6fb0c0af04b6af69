/**
 * `GreedyStrategy` of ai.py: take a good score when one is showing, else
 * hold towards a small straight or the most common face; with no roll left,
 * score the best category or waste the cheapest one.
 */
module Greedy {
  import opened Options
  import opened Categories
  import opened Dice
  import opened Scoring
  import opened Scorecards
  import opened Engine
  import opened Ai

  // ---------------------------------------------------------------------
  // First position of a maximum

  /** The first position holding the largest entry: `max` over a sequence
      keeps the earliest of equal maxima, and so do the `>`-updating loops of
      `_best_score` and `Counter.most_common(1)`. */
  function FirstMax(xs: seq<int>): (i: nat)
    requires |xs| > 0
    ensures i < |xs|
    ensures forall j :: 0 <= j < |xs| ==> xs[j] <= xs[i]
    ensures forall j :: 0 <= j < i ==> xs[j] < xs[i]
  {
    FirstMaxFrom(xs, 0, 1)
  }

  function FirstMaxFrom(xs: seq<int>, best: nat, k: nat): (i: nat)
    requires best < k <= |xs|
    requires forall j :: 0 <= j < k ==> xs[j] <= xs[best]
    requires forall j :: 0 <= j < best ==> xs[j] < xs[best]
    ensures i < |xs|
    ensures forall j :: 0 <= j < |xs| ==> xs[j] <= xs[i]
    ensures forall j :: 0 <= j < i ==> xs[j] < xs[i]
    decreases |xs| - k
  {
    if k == |xs| then best
    else if xs[k] > xs[best] then FirstMaxFrom(xs, k, k + 1)
    else FirstMaxFrom(xs, best, k + 1)
  }

  // ---------------------------------------------------------------------
  // _check_good_scores

  /** A category with the score at which the greedy player takes it. */
  datatype Good = Good(category: Category, threshold: int)

  /** The order `_check_good_scores` tries: the fixed-score categories at
      full value, the upper categories at three times their face, four and
      three of a kind at 20, Chance at 25. */
  const GoodOrder: seq<Good> := [
    Good(Yahtzee, 50), Good(LargeStraight, 40), Good(SmallStraight, 30), Good(FullHouse, 25),
    Good(Ones, 3), Good(Twos, 6), Good(Threes, 9), Good(Fours, 12), Good(Fives, 15), Good(Sixes, 18),
    Good(FourOfKind, 20), Good(ThreeOfKind, 20),
    Good(Chance, 25)]

  predicate GoodHit(g: Good, sc: Scorecard, vals: seq<int>)
    requires ValidFaces(vals)
  {
    !IsFilled(sc, g.category) && CalculateScore(g.category, vals) >= g.threshold
  }

  /** The position of the first hit in `gs`, or `|gs|` when there is none. */
  function FirstHit(gs: seq<Good>, sc: Scorecard, vals: seq<int>): (k: nat)
    requires ValidFaces(vals)
    ensures k <= |gs|
    ensures k < |gs| ==> GoodHit(gs[k], sc, vals)
    ensures forall j :: 0 <= j < k ==> !GoodHit(gs[j], sc, vals)
  {
    if |gs| == 0 then 0
    else if GoodHit(gs[0], sc, vals) then 0
    else 1 + FirstHit(gs[1..], sc, vals)
  }

  /** `_check_good_scores`: the first category in the order above that is
      open and reaches its threshold, if any. */
  function CheckGoodScores(sc: Scorecard, vals: seq<int>): (r: Option<Category>)
    requires ValidFaces(vals)
  {
    var k := FirstHit(GoodOrder, sc, vals);
    if k < |GoodOrder| then Some(GoodOrder[k].category) else None
  }

  /** A good score is open and reaches its threshold, and no category
      earlier in the order does; no good score means none does. */
  lemma CheckGoodScoresFirst(sc: Scorecard, vals: seq<int>)
    requires ValidFaces(vals)
    ensures CheckGoodScores(sc, vals).None? <==>
      forall k :: 0 <= k < |GoodOrder| ==> !GoodHit(GoodOrder[k], sc, vals)
    ensures CheckGoodScores(sc, vals).Some? ==>
      exists k :: 0 <= k < |GoodOrder| && GoodOrder[k].category == CheckGoodScores(sc, vals).value
        && GoodHit(GoodOrder[k], sc, vals)
        && forall j :: 0 <= j < k ==> !GoodHit(GoodOrder[j], sc, vals)
  {
    var k := FirstHit(GoodOrder, sc, vals);
    if k < |GoodOrder| {
      assert GoodOrder[k].category == CheckGoodScores(sc, vals).value;
    }
  }

  /** An open Yahtzee is always taken first. */
  lemma YahtzeeTakenFirst(sc: Scorecard, vals: seq<int>)
    requires ValidFaces(vals) && !IsFilled(sc, Yahtzee)
    requires forall i :: 0 <= i < |vals| ==> vals[i] == vals[0]
    ensures CheckGoodScores(sc, vals) == Some(Yahtzee)
  {
    YahtzeeIff(vals);
  }

  // ---------------------------------------------------------------------
  // _choose_holds

  /** The small-straight window `{lo, .., lo+3}`. */
  predicate InWindow(v: int, lo: int) {
    lo <= v <= lo + 3
  }

  /** `len(straight & value_set)`: how many faces of the window are showing. */
  function WindowOverlap(vals: seq<int>, lo: int): nat {
    |set v | v in vals && InWindow(v, lo)|
  }

  /** The first window, of 1-4, 2-5 and 3-6, sharing at least three faces
      with the dice. */
  function FirstWindow(vals: seq<int>): (r: Option<int>)
    ensures r.Some? ==> 1 <= r.value <= 3 && WindowOverlap(vals, r.value) >= 3
    ensures forall lo :: 1 <= lo <= 3 && (r.None? || lo < r.value) ==> WindowOverlap(vals, lo) < 3
  {
    if WindowOverlap(vals, 1) >= 3 then Some(1)
    else if WindowOverlap(vals, 2) >= 3 then Some(2)
    else if WindowOverlap(vals, 3) >= 3 then Some(3)
    else None
  }

  /** From position `i` on: the first die of each window face. */
  function StraightHoldFrom(vals: seq<int>, lo: int, i: nat): (h: seq<int>)
    requires i <= |vals|
    ensures forall k :: 0 <= k < |h| ==>
      i <= h[k] < |vals| && InWindow(vals[h[k]], lo) && vals[h[k]] !in vals[..h[k]]
    ensures forall j :: i <= j < |vals| && InWindow(vals[j], lo) && vals[j] !in vals[..j] ==> j in h
    ensures forall j, k :: 0 <= j < k < |h| ==> h[j] < h[k]
    decreases |vals| - i
  {
    if i == |vals| then []
    else
      var rest := StraightHoldFrom(vals, lo, i + 1);
      if InWindow(vals[i], lo) && vals[i] !in vals[..i] then [i] + rest else rest
  }

  /** From position `i` on: every die showing `v`. */
  function FaceHoldFrom(vals: seq<int>, v: int, i: nat): (h: seq<int>)
    requires i <= |vals|
    ensures forall k :: 0 <= k < |h| ==> i <= h[k] < |vals| && vals[h[k]] == v
    ensures forall j :: i <= j < |vals| && vals[j] == v ==> j in h
    ensures forall j, k :: 0 <= j < k < |h| ==> h[j] < h[k]
    decreases |vals| - i
  {
    if i == |vals| then []
    else
      var rest := FaceHoldFrom(vals, v, i + 1);
      if vals[i] == v then [i] + rest else rest
  }

  /** How often each die's face occurs, die by die. */
  function FaceCounts(vals: seq<int>): (cs: seq<int>)
    ensures |cs| == |vals|
    ensures forall j :: 0 <= j < |vals| ==> cs[j] == Count(vals, vals[j])
  {
    seq(|vals|, j requires 0 <= j < |vals| => Count(vals, vals[j]) as int)
  }

  /** `counts.most_common(1)[0][0]`: a face of greatest count, the one
      seen first in dice order among equally common faces. */
  function MostCommon(vals: seq<int>): (v: int)
    requires |vals| > 0
  {
    vals[FirstMax(FaceCounts(vals))]
  }

  /** `_choose_holds`. */
  function ChooseHolds(vals: seq<int>): (h: seq<int>)
    requires |vals| > 0
  {
    match FirstWindow(vals)
    case Some(lo) => StraightHoldFrom(vals, lo, 0)
    case None => FaceHoldFrom(vals, MostCommon(vals), 0)
  }

  /** The most common face occurs at least as often as any face, and of
      equally common faces it is the one whose first die comes first. */
  lemma MostCommonIsMost(vals: seq<int>)
    requires |vals| > 0
    ensures MostCommon(vals) in vals
    ensures forall u :: Count(vals, u) <= Count(vals, MostCommon(vals))
    ensures forall u :: u in vals && u != MostCommon(vals) && Count(vals, u) == Count(vals, MostCommon(vals)) ==>
      FirstIndex(vals, MostCommon(vals)) < FirstIndex(vals, u)
  {
    var cs := FaceCounts(vals);
    var i := FirstMax(cs);
    var v := vals[i];
    forall u ensures Count(vals, u) <= Count(vals, v) {
      if u in vals {
        var j :| 0 <= j < |vals| && vals[j] == u;
        assert cs[j] <= cs[i];
      }
    }
    forall u | u in vals && u != v && Count(vals, u) == Count(vals, v)
      ensures FirstIndex(vals, v) < FirstIndex(vals, u)
    {
      var f := FirstIndex(vals, u);
      assert cs[f] == cs[i];
      assert f != i;
    }
  }

  /** The position of the first die showing `v`. */
  function FirstIndex(vals: seq<int>, v: int): (i: nat)
    requires v in vals
    ensures i < |vals| && vals[i] == v
    ensures forall j :: 0 <= j < i ==> vals[j] != v
  {
    if vals[0] == v then 0
    else
      assert vals == [vals[0]] + vals[1..];
      1 + FirstIndex(vals[1..], v)
  }

  /** The holds are increasing die positions 0..4; a straight hold keeps the
      first die of each showing window face and nothing else, and otherwise
      every die of the most common face is held. */
  lemma ChooseHoldsShape(vals: seq<int>)
    requires ValidFaces(vals)
    ensures WellFormedHold(ChooseHolds(vals))
    ensures FirstWindow(vals).Some? ==> forall j :: 0 <= j < |vals| ==>
      (j in ChooseHolds(vals) <==> InWindow(vals[j], FirstWindow(vals).value) && vals[j] !in vals[..j])
    ensures FirstWindow(vals).None? ==> forall j :: 0 <= j < |vals| ==>
      (j in ChooseHolds(vals) <==> vals[j] == MostCommon(vals))
  {
    var h := ChooseHolds(vals);
    forall j | 0 <= j < |vals| && j in h
      ensures FirstWindow(vals).Some? ==> InWindow(vals[j], FirstWindow(vals).value) && vals[j] !in vals[..j]
      ensures FirstWindow(vals).None? ==> vals[j] == MostCommon(vals)
    {
      var k :| 0 <= k < |h| && h[k] == j;
    }
  }

  // ---------------------------------------------------------------------
  // _best_score and _waste_category

  /** The score `_best_score` ranks by: five more for an upper category at
      or above three times its face. */
  function Adjusted(c: Category, vals: seq<int>): (a: int)
    requires ValidFaces(vals)
  {
    var score := CalculateScore(c, vals);
    if IsUpper(c) && score >= 3 * Face(c) then score + 5 else score
  }

  /** The ranking scores of `cats`, in order. */
  function AdjustedAll(cats: seq<Category>, vals: seq<int>): (xs: seq<int>)
    requires ValidFaces(vals)
    ensures |xs| == |cats|
    ensures forall k :: 0 <= k < |cats| ==> xs[k] == Adjusted(cats[k], vals)
  {
    seq(|cats|, k requires 0 <= k < |cats| => Adjusted(cats[k], vals))
  }

  /** `waste_order`: the categories to give up a zero in, cheapest first. */
  const WasteOrder: seq<Category> := [
    Yahtzee, LargeStraight, FullHouse, SmallStraight, Ones, Twos, Threes,
    FourOfKind, ThreeOfKind, Fours, Fives, Sixes, Chance]

  /** The position of the first open category of `cats`, or `|cats|`. */
  function FirstOpen(cats: seq<Category>, sc: Scorecard): (k: nat)
    ensures k <= |cats|
    ensures k < |cats| ==> !IsFilled(sc, cats[k])
    ensures forall j :: 0 <= j < k ==> IsFilled(sc, cats[j])
  {
    if |cats| == 0 then 0
    else if !IsFilled(sc, cats[0]) then 0
    else 1 + FirstOpen(cats[1..], sc)
  }

  /** `_waste_category`: the first open category in the waste order (the
      first open category overall if the order had none). */
  function WasteCategory(sc: Scorecard): (c: Category)
    requires |Open(sc)| > 0
  {
    var k := FirstOpen(WasteOrder, sc);
    if k < |WasteOrder| then WasteOrder[k] else Open(sc)[0]
  }

  /** The waste order lists every category: the position of `c` in it. */
  lemma WastePosition(c: Category) returns (j: nat)
    ensures j < |WasteOrder| && WasteOrder[j] == c
  {
    j := match c
      case Yahtzee => 0
      case LargeStraight => 1
      case FullHouse => 2
      case SmallStraight => 3
      case Ones => 4
      case Twos => 5
      case Threes => 6
      case FourOfKind => 7
      case ThreeOfKind => 8
      case Fours => 9
      case Fives => 10
      case Sixes => 11
      case Chance => 12;
  }

  /** The waste category is the first open one in the waste order; the
      fallback to the first open category never applies. */
  lemma WasteIsFirstOpen(sc: Scorecard)
    requires |Open(sc)| > 0
    ensures !IsFilled(sc, WasteCategory(sc))
    ensures exists k :: (0 <= k < |WasteOrder| && WasteOrder[k] == WasteCategory(sc)
      && forall j :: 0 <= j < k ==> IsFilled(sc, WasteOrder[j]))
  {
    var c := Open(sc)[0];
    assert c in Open(sc);
    var j := WastePosition(c);
    var k := FirstOpen(WasteOrder, sc);
    assert k <= j;
    assert WasteCategory(sc) == WasteOrder[k];
  }

  /** `_best_score`: the open category of highest ranking score, the first
      in enum order among equals; when that score is 0, the waste category. */
  function BestScore(sc: Scorecard, vals: seq<int>): (c: Category)
    requires ValidFaces(vals) && |Open(sc)| > 0
  {
    var open := Open(sc);
    var xs := AdjustedAll(open, vals);
    var i := FirstMax(xs);
    if xs[i] == 0 then WasteCategory(sc) else open[i]
  }

  /** The best score is an open category. */
  lemma BestScoreOpen(sc: Scorecard, vals: seq<int>)
    requires ValidFaces(vals) && |Open(sc)| > 0
    ensures !IsFilled(sc, BestScore(sc, vals))
  {
    var open := Open(sc);
    var i := FirstMax(AdjustedAll(open, vals));
    assert open[i] in open;
    WasteIsFirstOpen(sc);
  }

  /** When no open category scores anything, the best score is the waste
      category. */
  lemma BestScoreWastes(sc: Scorecard, vals: seq<int>)
    requires ValidFaces(vals) && |Open(sc)| > 0
    requires forall d :: d in Open(sc) ==> CalculateScore(d, vals) == 0
    ensures BestScore(sc, vals) == WasteCategory(sc)
  {
    var open := Open(sc);
    var i := FirstMax(AdjustedAll(open, vals));
    assert open[i] in open;
    AdjustedZero(open[i], vals);
  }

  /** When some open category scores above zero, the best score has the
      highest ranking score of all open categories, and it comes first in
      enum order among open categories ranked equally. */
  lemma BestScoreIsBest(sc: Scorecard, vals: seq<int>, d: Category)
    requires ValidFaces(vals) && |Open(sc)| > 0
    requires d in Open(sc) && CalculateScore(d, vals) > 0
    ensures forall e :: e in Open(sc) ==> Adjusted(e, vals) <= Adjusted(BestScore(sc, vals), vals)
    ensures forall k :: (0 <= k < |Open(sc)| && Open(sc)[k] != BestScore(sc, vals)
      && Adjusted(Open(sc)[k], vals) == Adjusted(BestScore(sc, vals), vals)
      ==> Index(BestScore(sc, vals)) < Index(Open(sc)[k]))
  {
    var open := Open(sc);
    var xs := AdjustedAll(open, vals);
    var i := FirstMax(xs);
    BestIsMaxOf(open, xs, i, d);
    assert BestScore(sc, vals) == open[i];
    OpenInOrder(sc);
    forall k | 0 <= k < |open| && open[k] != open[i] && xs[k] == xs[i]
      ensures Index(open[i]) < Index(open[k])
    {
      assert !(k < i) && k != i;
    }
  }

  /** The first maximum is positive once some entry is. */
  lemma BestIsMaxOf(open: seq<Category>, xs: seq<int>, i: nat, d: Category)
    requires |xs| == |open| && i < |xs|
    requires forall j :: 0 <= j < |xs| ==> xs[j] <= xs[i]
    requires d in open
    requires forall j :: 0 <= j < |xs| && open[j] == d ==> xs[j] > 0
    ensures xs[i] > 0
  {
    var j :| 0 <= j < |open| && open[j] == d;
  }

  /** The ranking score is the category's score or five more; only an
      upper category on target (three of its face or better) gets the five. */
  lemma AdjustedAtLeastScore(c: Category, vals: seq<int>)
    requires ValidFaces(vals)
    ensures Adjusted(c, vals) >= CalculateScore(c, vals) >= 0
    ensures Adjusted(c, vals) == CalculateScore(c, vals) || Adjusted(c, vals) == CalculateScore(c, vals) + 5
    ensures Adjusted(c, vals) > CalculateScore(c, vals) <==> IsUpper(c) && Count(vals, Face(c)) >= 3
  {
  }

  /** A category that scores nothing ranks at nothing. */
  lemma AdjustedZero(c: Category, vals: seq<int>)
    requires ValidFaces(vals) && CalculateScore(c, vals) == 0
    ensures Adjusted(c, vals) == 0
  {
    if IsUpper(c) {
      assert 3 * Face(c) > 0;
    }
  }

  /** Categories listed in strictly increasing enum order. */
  predicate InEnumOrder(cats: seq<Category>) {
    forall i, j :: 0 <= i < j < |cats| ==> Index(cats[i]) < Index(cats[j])
  }

  /** Dropping the filled categories keeps the enum order. */
  lemma {:induction false} UnfilledInOrder(sc: Scorecard, cats: seq<Category>)
    requires InEnumOrder(cats)
    ensures InEnumOrder(Unfilled(sc, cats))
    decreases |cats|
  {
    if |cats| > 0 {
      var rest := cats[1..];
      TailInOrder(cats);
      UnfilledInOrder(sc, rest);
      if !IsFilled(sc, cats[0]) {
        ConsInOrder(cats[0], Unfilled(sc, rest), rest);
      }
    }
  }

  lemma TailInOrder(cats: seq<Category>)
    requires InEnumOrder(cats) && |cats| > 0
    ensures InEnumOrder(cats[1..])
  {
    var rest := cats[1..];
    forall i, j | 0 <= i < j < |rest| ensures Index(rest[i]) < Index(rest[j]) {
      assert rest[i] == cats[i + 1] && rest[j] == cats[j + 1];
    }
  }

  /** A category before everything of an ordered list drawn from `cats`
      extends it in order. */
  lemma ConsInOrder(c: Category, u: seq<Category>, cats: seq<Category>)
    requires InEnumOrder(u)
    requires forall d :: d in u ==> d in cats
    requires forall k :: 0 <= k < |cats| ==> Index(c) < Index(cats[k])
    ensures InEnumOrder([c] + u)
  {
    var v := [c] + u;
    forall i, j | 0 <= i < j < |v| ensures Index(v[i]) < Index(v[j]) {
      assert v[j] == u[j - 1];
      assert u[j - 1] in cats;
      if i > 0 {
        assert v[i] == u[i - 1];
      }
    }
  }

  /** The open list is in enum order. */
  lemma OpenInOrder(sc: Scorecard)
    ensures InEnumOrder(Open(sc))
  {
    AllCategoriesDistinct();
    forall i, j | 0 <= i < j < |AllCategories|
      ensures Index(AllCategories[i]) < Index(AllCategories[j])
    {
      IndexOfPosition(i);
      IndexOfPosition(j);
    }
    UnfilledInOrder(sc, AllCategories);
  }

  lemma IndexOfPosition(i: nat)
    requires i < |AllCategories|
    ensures Index(AllCategories[i]) == i
  {
    AllCategoriesDistinct();
  }

  // ---------------------------------------------------------------------
  // choose_action

  /** `GreedyStrategy.choose_action`. */
  function GreedyChoose(s: GameState): (a: Action)
    requires ValidDice(s.dice) && (s.rollsUsed >= MaxRolls ==> |Open(s.scorecard)| > 0)
  {
    var vals := Values(s.dice);
    if s.rollsUsed >= MaxRolls then ScoreAction(BestScore(s.scorecard, vals))
    else match CheckGoodScores(s.scorecard, vals)
      case Some(c) => ScoreAction(c)
      case None => RollAction(ChooseHolds(vals))
  }

  /** The greedy strategy scores once the rolls are used up, only scores
      open categories and holds real dice. */
  lemma GreedyLegal(s: GameState)
    requires ValidDice(s.dice) && (s.rollsUsed >= MaxRolls ==> |Open(s.scorecard)| > 0)
    ensures s.rollsUsed >= MaxRolls ==> GreedyChoose(s).ScoreAction?
    ensures GreedyChoose(s).ScoreAction? ==> !IsFilled(s.scorecard, GreedyChoose(s).category)
    ensures GreedyChoose(s).RollAction? ==> WellFormedHold(GreedyChoose(s).hold)
  {
    var vals := Values(s.dice);
    if s.rollsUsed >= MaxRolls {
      BestScoreOpen(s.scorecard, vals);
    } else {
      GoodScoreOpen(s.scorecard, vals);
      ChooseHoldsShape(vals);
    }
  }

  /** A good score is an open category. */
  lemma GoodScoreOpen(sc: Scorecard, vals: seq<int>)
    requires ValidFaces(vals)
    ensures CheckGoodScores(sc, vals).Some? ==> !IsFilled(sc, CheckGoodScores(sc, vals).value)
  {
  }

  /** The greedy player as a strategy on every state. With the rolls used
      up on a finished card, where `choose_action` has no category to offer,
      it names Chance. */
  function GreedyStrategy(s: GameState): Action {
    if ValidDice(s.dice) && (s.rollsUsed >= MaxRolls ==> |Open(s.scorecard)| > 0) then GreedyChoose(s)
    else ScoreAction(Chance)
  }

  /** During a game the greedy player only scores open categories. */
  lemma GreedyScoresOpen()
    ensures ScoresOpen(GreedyStrategy)
  {
    forall s | Valid(s) && !s.gameOver && s.rollsUsed >= 1 && GreedyStrategy(s).ScoreAction?
      ensures !IsFilled(s.scorecard, GreedyStrategy(s).category)
    {
      CompleteIffNoneOpen(s.scorecard);
      GreedyLegal(s);
    }
  }

  /** `play_game` with the greedy player fills the whole card within
      thirteen turns. */
  lemma GreedyGameEnds(start: seq<int>, turns: seq<seq<seq<int>>>)
    requires ValidFaces(start) && Supply(turns) && |turns| >= NumCategories
    ensures ScoresOpen(GreedyStrategy) && PlayGame(GreedyStrategy, start, turns).gameOver
      && IsComplete(PlayGame(GreedyStrategy, start, turns).scorecard)
  {
    GreedyScoresOpen();
    PlayGameEnds(GreedyStrategy, start, turns);
  }
}

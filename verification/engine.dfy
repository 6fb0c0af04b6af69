/**
 * The game-state transitions of the rules engine: rolling, holding, scoring
 * a category in context (Yahtzee bonus and joker rule) and game over.
 *
 * Every roll takes the freshly rolled faces from its caller, one per die;
 * an unheld die takes the face at its own position.
 */
module Engine {
  import opened Categories
  import opened Dice
  import opened Scoring
  import opened Scorecards

  const MaxRolls: int := 3
  const NumRounds: int := 13

  datatype GameState = GameState(
    dice: seq<Die>,
    scorecard: Scorecard,
    rollsUsed: int,
    currentRound: int,
    gameOver: bool)

  /** Unheld dice showing `faces`. */
  function FreshDice(faces: seq<int>): (d: seq<Die>)
    ensures |d| == |faces| && Values(d) == faces
    ensures forall i :: 0 <= i < |d| ==> !d[i].held
  {
    seq(|faces|, i requires 0 <= i < |faces| => Die(faces[i], false))
  }

  /** The same faces with every hold released. */
  function Unhold(dice: seq<Die>): (d: seq<Die>)
    ensures |d| == |dice| && Values(d) == Values(dice)
    ensures forall i :: 0 <= i < |d| ==> !d[i].held
  {
    seq(|dice|, i requires 0 <= i < |dice| => dice[i].(held := false))
  }

  /** Scores recorded so far lie in 0..50. */
  predicate ScoresInRange(sc: Scorecard) {
    forall c :: c in sc.scores ==> 0 <= sc.scores[c] <= 50
  }

  /** What every reachable single-player state satisfies. */
  predicate Valid(s: GameState) {
    && ValidDice(s.dice)
    && 0 <= s.rollsUsed <= MaxRolls
    && ScoresInRange(s.scorecard)
    && (s.gameOver <==> IsComplete(s.scorecard))
    && s.currentRound == (if s.gameOver then NumRounds else NumRounds + 1 - |Open(s.scorecard)|)
  }

  /** `GameState.create_initial` (and `reset_game`): five unheld dice showing
      the supplied faces, an empty card, no rolls, round 1, not over. */
  function CreateInitial(faces: seq<int>): (s: GameState)
    requires ValidFaces(faces)
    ensures Valid(s)
    ensures Values(s.dice) == faces && forall i :: 0 <= i < |s.dice| ==> !s.dice[i].held
    ensures forall c :: !IsFilled(s.scorecard, c)
    ensures s.rollsUsed == 0 && s.currentRound == 1 && !s.gameOver
  {
    InitialValid(faces);
    GameState(FreshDice(faces), Empty(), 0, 1, false)
  }

  /** The fresh state is valid: thirteen open categories put it in round 1. */
  lemma InitialValid(faces: seq<int>)
    requires ValidFaces(faces)
    ensures Valid(GameState(FreshDice(faces), Empty(), 0, 1, false))
  {
    var d := FreshDice(faces);
    assert Values(d) == faces;
    assert ValidDice(d);
    OpenOfEmpty();
    assert NumRounds + 1 - |Open(Empty())| == 1;
  }

  lemma {:induction false} UnfilledOfEmpty(cats: seq<Category>)
    ensures Unfilled(Empty(), cats) == cats
  {
    if |cats| > 0 {
      UnfilledOfEmpty(cats[1..]);
      assert cats == [cats[0]] + cats[1..];
    }
  }

  lemma OpenOfEmpty()
    ensures |Open(Empty())| == NumCategories
    ensures !IsComplete(Empty())
  {
    UnfilledOfEmpty(AllCategories);
    assert !IsFilled(Empty(), Ones);
  }

  // ---------------------------------------------------------------------
  // Rolling and holding

  predicate CanRoll(s: GameState) {
    s.rollsUsed < MaxRolls && !s.gameOver
  }

  /** Every die rolled: held dice stay, unheld dice take their new face. */
  function RollAll(dice: seq<Die>, faces: seq<int>): (r: seq<Die>)
    requires |faces| == |dice|
    ensures |r| == |dice|
    ensures forall i :: 0 <= i < |r| ==> r[i] == RollDie(dice[i], faces[i])
  {
    seq(|dice|, i requires 0 <= i < |dice| => RollDie(dice[i], faces[i]))
  }

  /** `roll_dice`: when a roll is allowed, rolls every unheld die and uses up
      one roll; otherwise the state is returned unchanged. */
  function RollDice(s: GameState, faces: seq<int>): (r: GameState)
    requires |faces| == |s.dice|
    ensures !CanRoll(s) ==> r == s
    ensures CanRoll(s) ==>
      && r.rollsUsed == s.rollsUsed + 1
      && r.scorecard == s.scorecard && r.currentRound == s.currentRound && r.gameOver == s.gameOver
      && |r.dice| == |s.dice|
      && (forall i :: 0 <= i < |s.dice| && s.dice[i].held ==> r.dice[i] == s.dice[i])
      && (forall i :: 0 <= i < |s.dice| && !s.dice[i].held ==> r.dice[i] == Die(faces[i], false))
  {
    if CanRoll(s) then s.(dice := RollAll(s.dice, faces), rollsUsed := s.rollsUsed + 1) else s
  }

  /** `toggle_die_hold`: refused before the first roll of a turn, after game
      over and for an index outside the dice; otherwise flips one hold flag. */
  function ToggleDieHold(s: GameState, i: int): (r: GameState)
    ensures s.rollsUsed == 0 || s.gameOver || i < 0 || i >= |s.dice| ==> r == s
    ensures !(s.rollsUsed == 0 || s.gameOver || i < 0 || i >= |s.dice|) ==>
      && r.scorecard == s.scorecard && r.rollsUsed == s.rollsUsed
      && r.currentRound == s.currentRound && r.gameOver == s.gameOver
      && |r.dice| == |s.dice|
      && r.dice[i].held == !s.dice[i].held && r.dice[i].value == s.dice[i].value
      && (forall j :: 0 <= j < |s.dice| && j != i ==> r.dice[j] == s.dice[j])
  {
    if s.rollsUsed == 0 || s.gameOver || i < 0 || i >= |s.dice| then s
    else s.(dice := s.dice[i := ToggleDie(s.dice[i])])
  }

  // ---------------------------------------------------------------------
  // Scoring in context

  predicate AllEqual(vals: seq<int>) {
    forall i :: 0 <= i < |vals| ==> vals[i] == vals[0]
  }

  predicate YahtzeeHolds50(sc: Scorecard) {
    Yahtzee in sc.scores && sc.scores[Yahtzee] == 50
  }

  /** The joker rule is in force: a further Yahtzee after a 50 in the Yahtzee
      box, whose matching upper category is already filled. */
  predicate JokerActive(vals: seq<int>, sc: Scorecard)
    requires ValidFaces(vals)
  {
    AllEqual(vals) && YahtzeeHolds50(sc) && IsFilled(sc, UpperFor(vals[0]))
  }

  /** `calculate_score_in_context`: under the joker rule Full House, Small
      Straight and Large Straight score their fixed values; every other case
      is `calculate_score`. */
  function ScoreInContext(c: Category, vals: seq<int>, sc: Scorecard): (r: nat)
    requires ValidFaces(vals)
  {
    if JokerActive(vals, sc) && c.FullHouse? then 25
    else if JokerActive(vals, sc) && c.SmallStraight? then 30
    else if JokerActive(vals, sc) && c.LargeStraight? then 40
    else CalculateScore(c, vals)
  }

  /** The card after scoring `c` with `vals`: one more bonus Yahtzee when the
      dice are a Yahtzee and the Yahtzee box already holds 50, then the
      in-context score written into `c` if it is still open. */
  function RecordScore(sc: Scorecard, c: Category, vals: seq<int>): (r: Scorecard)
    requires ValidFaces(vals)
    ensures r.yahtzeeBonusCount
         == sc.yahtzeeBonusCount + (if AllEqual(vals) && YahtzeeHolds50(sc) then 1 else 0)
    ensures r.scores == (if IsFilled(sc, c) then sc.scores else sc.scores[c := ScoreInContext(c, vals, sc)])
  {
    var bonus := if AllEqual(vals) && YahtzeeHolds50(sc) then 1 else 0;
    WithScore(sc.(yahtzeeBonusCount := sc.yahtzeeBonusCount + bonus), c, ScoreInContext(c, vals, sc))
  }

  predicate CanSelectCategory(s: GameState, c: Category) {
    s.rollsUsed > 0 && !s.gameOver && !IsFilled(s.scorecard, c)
  }

  /** `select_category`: when allowed, records the in-context score, starts
      the next turn (no rolls, no holds) and advances the round unless the
      card is now complete, which ends the game; otherwise no change. */
  function SelectCategory(s: GameState, c: Category): (r: GameState)
    requires ValidDice(s.dice)
    ensures !CanSelectCategory(s, c) ==> r == s
    ensures CanSelectCategory(s, c) ==>
      && r.scorecard == RecordScore(s.scorecard, c, Values(s.dice))
      && r.rollsUsed == 0
      && Values(r.dice) == Values(s.dice)
      && (forall i :: 0 <= i < |r.dice| ==> !r.dice[i].held)
      && r.gameOver == IsComplete(r.scorecard)
      && r.currentRound == (if r.gameOver then s.currentRound else s.currentRound + 1)
  {
    if !CanSelectCategory(s, c) then s
    else
      var sc := RecordScore(s.scorecard, c, Values(s.dice));
      var over := IsComplete(sc);
      GameState(Unhold(s.dice), sc, 0, if over then s.currentRound else s.currentRound + 1, over)
  }

  // ---------------------------------------------------------------------
  // Properties of the in-context score

  /** Outside the joker rule the in-context score is the plain score; under
      it, Full House, Small Straight and Large Straight earn 25, 30 and 40,
      and 3/4 of a kind and Chance earn the sum of the five equal dice. */
  lemma JokerScores(c: Category, vals: seq<int>, sc: Scorecard)
    requires ValidFaces(vals)
    ensures !JokerActive(vals, sc) ==> ScoreInContext(c, vals, sc) == CalculateScore(c, vals)
    ensures JokerActive(vals, sc) ==>
      && (c.FullHouse? ==> ScoreInContext(c, vals, sc) == 25)
      && (c.SmallStraight? ==> ScoreInContext(c, vals, sc) == 30)
      && (c.LargeStraight? ==> ScoreInContext(c, vals, sc) == 40)
      && (c.ThreeOfKind? || c.FourOfKind? || c.Chance? ==> ScoreInContext(c, vals, sc) == 5 * vals[0])
      && (IsUpper(c) ==> ScoreInContext(c, vals, sc) == (if Face(c) == vals[0] then 5 * vals[0] else 0))
  {
    if JokerActive(vals, sc) {
      YahtzeeIff(vals);
      FiveOfKindScores(vals);
      AllEqualCount(vals);
      if IsUpper(c) && Face(c) != vals[0] {
        assert vals[0] in multiset(vals);
        assert Count(vals, Face(c)) == 0 by {
          assert vals == [vals[0], vals[0], vals[0], vals[0], vals[0]];
        }
      }
    }
  }

  /** The joker rule only ever raises a score, and every in-context score
      stays within 0..50. */
  lemma InContextBounds(c: Category, vals: seq<int>, sc: Scorecard)
    requires ValidFaces(vals)
    ensures CalculateScore(c, vals) <= ScoreInContext(c, vals, sc) <= 50
  {
    ScoreBounds(c, vals);
  }

  // ---------------------------------------------------------------------
  // The invariant and the course of a game

  /** Rolling, holding and scoring keep a valid state valid. */
  lemma RollPreservesValid(s: GameState, faces: seq<int>)
    requires Valid(s) && ValidFaces(faces)
    ensures Valid(RollDice(s, faces))
  {
  }

  lemma TogglePreservesValid(s: GameState, i: int)
    requires Valid(s)
    ensures Valid(ToggleDieHold(s, i))
  {
  }

  /** Recording a score in an open category closes exactly one category. */
  lemma RecordScoreClosesOne(sc: Scorecard, c: Category, vals: seq<int>)
    requires ValidFaces(vals) && !IsFilled(sc, c)
    ensures |Open(RecordScore(sc, c, vals))| == |Open(sc)| - 1
  {
    var bonus := if AllEqual(vals) && YahtzeeHolds50(sc) then 1 else 0;
    var sc1 := sc.(yahtzeeBonusCount := sc.yahtzeeBonusCount + bonus);
    OpenSame(sc, sc1);
    OpenAfterWithScore(sc1, c, ScoreInContext(c, vals, sc));
    assert RecordScore(sc, c, vals) == WithScore(sc1, c, ScoreInContext(c, vals, sc));
  }

  /** Recording a score keeps every recorded score within 0..50. */
  lemma RecordScoreInRange(sc: Scorecard, c: Category, vals: seq<int>)
    requires ValidFaces(vals) && ScoresInRange(sc)
    ensures ScoresInRange(RecordScore(sc, c, vals))
  {
    var v := ScoreInContext(c, vals, sc);
    InContextBounds(c, vals, sc);
    var r := RecordScore(sc, c, vals);
    forall d | d in r.scores ensures 0 <= r.scores[d] <= 50 {
      if d == c && !IsFilled(sc, c) {
        assert r.scores[d] == v;
      } else {
        assert r.scores[d] == sc.scores[d];
      }
    }
  }

  lemma SelectPreservesValid(s: GameState, c: Category)
    requires Valid(s)
    ensures Valid(SelectCategory(s, c))
  {
    if CanSelectCategory(s, c) {
      var r := SelectCategory(s, c);
      RecordScoreClosesOne(s.scorecard, c, Values(s.dice));
      RecordScoreInRange(s.scorecard, c, Values(s.dice));
      assert ValidDice(r.dice) by {
        assert Values(r.dice) == Values(s.dice);
      }
      ValidAfterScoring(s, r);
    }
  }

  /** The invariant is re-established by any step that closes one category
      of a running game and moves the round on as scoring does; stated over
      an arbitrary successor so that the proof works with these facts alone. */
  lemma ValidAfterScoring(s: GameState, r: GameState)
    requires Valid(s) && !s.gameOver
    requires ValidDice(r.dice) && r.rollsUsed == 0 && ScoresInRange(r.scorecard)
    requires |Open(r.scorecard)| == |Open(s.scorecard)| - 1
    requires r.gameOver == IsComplete(r.scorecard)
    requires r.currentRound == (if r.gameOver then s.currentRound else s.currentRound + 1)
    ensures Valid(r)
  {
    CompleteIffNoneOpen(r.scorecard);
    CompleteIffNoneOpen(s.scorecard);
  }

  /** In a valid state the rolls used lie in 0..3 and the round in 1..13,
      and the game is over exactly when the card is complete. */
  lemma ValidBounds(s: GameState)
    requires Valid(s)
    ensures 0 <= s.rollsUsed <= MaxRolls
    ensures 1 <= s.currentRound <= NumRounds
    ensures s.gameOver <==> IsComplete(s.scorecard)
  {
    CompleteIffNoneOpen(s.scorecard);
    Categories.AllCategoriesDistinct();
  }

  /** After game over, rolling, holding and scoring change nothing. */
  lemma GameOverFreezes(s: GameState, faces: seq<int>, i: int, c: Category)
    requires Valid(s) && s.gameOver && |faces| == |s.dice|
    ensures RollDice(s, faces) == s
    ensures ToggleDieHold(s, i) == s
    ensures SelectCategory(s, c) == s
  {
  }

  /** One turn: a roll with the supplied faces, then scoring `c`. */
  function PlayTurn(s: GameState, faces: seq<int>, c: Category): GameState
    requires Valid(s) && ValidFaces(faces)
  {
    RollPreservesValid(s, faces);
    SelectCategory(RollDice(s, faces), c)
  }

  /** Turn after turn, one per listed category. */
  function PlayTurns(s: GameState, rolls: seq<seq<int>>, cats: seq<Category>): (r: GameState)
    requires Valid(s) && |rolls| == |cats|
    requires forall k :: 0 <= k < |rolls| ==> ValidFaces(rolls[k])
    ensures Valid(r)
    decreases |cats|
  {
    if |cats| == 0 then s
    else
      RollPreservesValid(s, rolls[0]);
      SelectPreservesValid(RollDice(s, rolls[0]), cats[0]);
      PlayTurns(PlayTurn(s, rolls[0], cats[0]), rolls[1..], cats[1..])
  }

  /** Scoring every still-open category once, in any order, one turn each,
      ends the game with a complete card. */
  lemma {:induction false} OpenCategoriesEndGame(s: GameState, rolls: seq<seq<int>>, cats: seq<Category>)
    requires Valid(s) && s.rollsUsed == 0
    requires |rolls| == |cats| && forall k :: 0 <= k < |rolls| ==> ValidFaces(rolls[k])
    requires forall i, j :: 0 <= i < j < |cats| ==> cats[i] != cats[j]
    requires forall k :: 0 <= k < |cats| ==> !IsFilled(s.scorecard, cats[k])
    requires |cats| == |Open(s.scorecard)|
    ensures PlayTurns(s, rolls, cats).gameOver
    ensures IsComplete(PlayTurns(s, rolls, cats).scorecard)
    decreases |cats|
  {
    CompleteIffNoneOpen(s.scorecard);
    if |cats| > 0 {
      var s2 := PlayTurn(s, rolls[0], cats[0]);
      TurnClosesOne(s, rolls[0], cats[0]);
      forall k | 0 <= k < |cats[1..]| ensures !IsFilled(s2.scorecard, cats[1..][k]) {
        assert cats[1..][k] == cats[k + 1];
      }
      OpenCategoriesEndGame(s2, rolls[1..], cats[1..]);
      assert PlayTurns(s, rolls, cats) == PlayTurns(s2, rolls[1..], cats[1..]);
    }
  }

  /** A turn that scores an open category closes just that one and leaves
      the next turn's start state valid. */
  lemma TurnClosesOne(s: GameState, faces: seq<int>, c: Category)
    requires Valid(s) && s.rollsUsed == 0 && !s.gameOver && ValidFaces(faces) && !IsFilled(s.scorecard, c)
    ensures var r := PlayTurn(s, faces, c);
      && Valid(r) && r.rollsUsed == 0
      && |Open(r.scorecard)| == |Open(s.scorecard)| - 1
      && forall d :: d != c ==> (IsFilled(r.scorecard, d) <==> IsFilled(s.scorecard, d))
  {
    var s1 := RollDice(s, faces);
    RollPreservesValid(s, faces);
    SelectClosesOne(s1, c);
  }

  /** Scoring an open category after a roll closes just that one and
      starts the next turn. */
  lemma SelectClosesOne(s: GameState, c: Category)
    requires Valid(s) && CanSelectCategory(s, c)
    ensures var r := SelectCategory(s, c);
      && Valid(r) && r.rollsUsed == 0
      && |Open(r.scorecard)| == |Open(s.scorecard)| - 1
      && forall d :: d != c ==> (IsFilled(r.scorecard, d) <==> IsFilled(s.scorecard, d))
  {
    SelectPreservesValid(s, c);
    RecordScoreClosesOne(s.scorecard, c, Values(s.dice));
  }

  /** A full game from the initial state: thirteen turns scoring the
      thirteen categories in any order end with game over and a complete
      card. */
  lemma FullGameEnds(s: GameState, faces: seq<int>, rolls: seq<seq<int>>, cats: seq<Category>)
    requires ValidFaces(faces) && s == CreateInitial(faces)
    requires |rolls| == |cats| == NumCategories && forall k :: 0 <= k < |rolls| ==> ValidFaces(rolls[k])
    requires forall i, j :: 0 <= i < j < |cats| ==> cats[i] != cats[j]
    ensures Valid(s) && PlayTurns(s, rolls, cats).gameOver
    ensures IsComplete(PlayTurns(s, rolls, cats).scorecard)
  {
    OpenOfEmpty();
    OpenCategoriesEndGame(s, rolls, cats);
  }
}

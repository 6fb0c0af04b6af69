/**
 * The strategy interface of ai.py and the game loop that drives it: the two
 * action types, `_apply_holds`, `play_turn`, `play_game` and the legality
 * of `RandomStrategy`.
 *
 * A strategy is a function from the game state to an action. The faces of
 * every roll are supplied by the caller: each turn comes with three face
 * vectors, the `k`-th used by the roll that makes `rolls_used` equal `k+1`.
 */
module Ai {
  import opened Categories
  import opened Dice
  import opened Scorecards
  import opened Engine

  /** `RollAction(hold)` (hold the listed dice, reroll the rest) or
      `ScoreAction(category)`. */
  datatype Action = RollAction(hold: seq<int>) | ScoreAction(category: Category)

  /** Hold indices as a strategy should produce them: increasing die
      positions 0..4. */
  predicate WellFormedHold(hold: seq<int>) {
    && (forall k :: 0 <= k < |hold| ==> 0 <= hold[k] < NumDice)
    && (forall j, k :: 0 <= j < k < |hold| ==> hold[j] < hold[k])
  }

  // ---------------------------------------------------------------------
  // _apply_holds

  /** Dice `i` to 4 brought to the requested hold state, one engine toggle
      per die whose flag differs. */
  function ApplyHoldsFrom(s: GameState, hold: seq<int>, i: nat): (r: GameState)
    requires |s.dice| == NumDice && i <= NumDice
    ensures r.scorecard == s.scorecard && r.rollsUsed == s.rollsUsed
    ensures r.currentRound == s.currentRound && r.gameOver == s.gameOver
    ensures |r.dice| == NumDice && Values(r.dice) == Values(s.dice)
    ensures forall j :: 0 <= j < i ==> r.dice[j] == s.dice[j]
    ensures s.rollsUsed == 0 || s.gameOver ==> r == s
    ensures s.rollsUsed > 0 && !s.gameOver ==>
      forall j :: i <= j < NumDice ==> (r.dice[j].held <==> j in hold)
    decreases NumDice - i
  {
    if i == NumDice then s
    else
      var t := if (i in hold) != s.dice[i].held then ToggleDieHold(s, i) else s;
      ApplyHoldsFrom(t, hold, i + 1)
  }

  /** `_apply_holds`: after it (in a turn that has rolled) die `i` is held
      exactly when `i` is listed; no face changes. */
  function ApplyHolds(s: GameState, hold: seq<int>): (r: GameState)
    requires |s.dice| == NumDice
    ensures r.scorecard == s.scorecard && r.rollsUsed == s.rollsUsed
    ensures r.currentRound == s.currentRound && r.gameOver == s.gameOver
    ensures Values(r.dice) == Values(s.dice)
    ensures s.rollsUsed == 0 || s.gameOver ==> r == s
    ensures s.rollsUsed > 0 && !s.gameOver ==>
      |r.dice| == NumDice && forall j :: 0 <= j < NumDice ==> (r.dice[j].held <==> j in hold)
  {
    ApplyHoldsFrom(s, hold, 0)
  }

  /** Dice already held as requested are left as they are. */
  lemma HoldsAlreadyApplied(s: GameState, hold: seq<int>)
    requires |s.dice| == NumDice
    requires forall j :: 0 <= j < NumDice ==> (s.dice[j].held <==> j in hold)
    ensures ApplyHolds(s, hold) == s
  {
    var r := ApplyHolds(s, hold);
    if s.rollsUsed > 0 && !s.gameOver {
      SameDice(r.dice, s.dice);
    }
  }

  /** Dice with the same faces and the same hold flags are the same dice. */
  lemma SameDice(a: seq<Die>, b: seq<Die>)
    requires |a| == |b| && Values(a) == Values(b)
    requires forall j :: 0 <= j < |a| ==> a[j].held == b[j].held
    ensures a == b
  {
    forall j | 0 <= j < |a| ensures a[j] == b[j] {
      assert a[j].value == Values(a)[j];
    }
  }

  /** Applying holds keeps a valid state valid. */
  lemma ApplyHoldsPreservesValid(s: GameState, hold: seq<int>)
    requires Valid(s)
    ensures Valid(ApplyHolds(s, hold))
  {
    var r := ApplyHolds(s, hold);
    forall j | 0 <= j < |r.dice| ensures IsFace(r.dice[j].value) {
      assert r.dice[j].value == Values(r.dice)[j] == Values(s.dice)[j];
    }
  }

  // ---------------------------------------------------------------------
  // play_turn and play_game

  /** A turn that is in progress, by the strategy's decisions; a roll
      request with no roll left scores the first open category instead. */
  function TurnLoop(s: GameState, strategy: GameState -> Action, rolls: seq<seq<int>>): GameState
    requires Valid(s) && !s.gameOver && s.rollsUsed >= 1
    requires |rolls| == MaxRolls && forall k :: 0 <= k < |rolls| ==> ValidFaces(rolls[k])
    decreases MaxRolls - s.rollsUsed
  {
    match strategy(s)
    case ScoreAction(c) => SelectCategory(s, c)
    case RollAction(hold) =>
      if !CanRoll(s) then
        CompleteIffNoneOpen(s.scorecard);
        SelectCategory(s, Open(s.scorecard)[0])
      else
        ApplyHoldsPreservesValid(s, hold);
        var t := ApplyHolds(s, hold);
        RollPreservesValid(t, rolls[t.rollsUsed]);
        TurnLoop(RollDice(t, rolls[t.rollsUsed]), strategy, rolls)
  }

  /** `play_turn`: the mandatory first roll, then the strategy's decisions. */
  function PlayTurn(s: GameState, strategy: GameState -> Action, rolls: seq<seq<int>>): GameState
    requires Valid(s) && !s.gameOver && s.rollsUsed == 0
    requires |rolls| == MaxRolls && forall k :: 0 <= k < |rolls| ==> ValidFaces(rolls[k])
  {
    RollPreservesValid(s, rolls[0]);
    TurnLoop(RollDice(s, rolls[0]), strategy, rolls)
  }

  /** A strategy that only ever scores a category that is still open. */
  ghost predicate ScoresOpen(strategy: GameState -> Action) {
    forall s :: Valid(s) && !s.gameOver && s.rollsUsed >= 1 && strategy(s).ScoreAction? ==>
      !IsFilled(s.scorecard, strategy(s).category)
  }

  /** With such a strategy every turn fills exactly one category and leaves
      a valid state at the start of the next turn. */
  lemma {:induction false} TurnLoopFillsOne(s: GameState, strategy: GameState -> Action, rolls: seq<seq<int>>)
    requires Valid(s) && !s.gameOver && s.rollsUsed >= 1
    requires |rolls| == MaxRolls && forall k :: 0 <= k < |rolls| ==> ValidFaces(rolls[k])
    requires ScoresOpen(strategy)
    ensures Valid(TurnLoop(s, strategy, rolls)) && TurnLoop(s, strategy, rolls).rollsUsed == 0
    ensures |Open(TurnLoop(s, strategy, rolls).scorecard)| == |Open(s.scorecard)| - 1
    decreases MaxRolls - s.rollsUsed
  {
    match strategy(s)
    case ScoreAction(c) =>
      ScoreFillsOne(s, c);
    case RollAction(hold) =>
      if !CanRoll(s) {
        CompleteIffNoneOpen(s.scorecard);
        var c := Open(s.scorecard)[0];
        assert c in Open(s.scorecard);
        ScoreFillsOne(s, c);
      } else {
        ApplyHoldsPreservesValid(s, hold);
        var t := ApplyHolds(s, hold);
        RollPreservesValid(t, rolls[t.rollsUsed]);
        TurnLoopFillsOne(RollDice(t, rolls[t.rollsUsed]), strategy, rolls);
      }
  }

  /** Scoring an open category after a roll fills exactly it. */
  lemma ScoreFillsOne(s: GameState, c: Category)
    requires Valid(s) && !s.gameOver && s.rollsUsed >= 1 && !IsFilled(s.scorecard, c)
    ensures Valid(SelectCategory(s, c)) && SelectCategory(s, c).rollsUsed == 0
    ensures |Open(SelectCategory(s, c).scorecard)| == |Open(s.scorecard)| - 1
  {
    SelectPreservesValid(s, c);
    RecordScoreClosesOne(s.scorecard, c, Values(s.dice));
  }

  /** `play_turn` ends with exactly one more category filled. */
  lemma PlayTurnFillsOne(s: GameState, strategy: GameState -> Action, rolls: seq<seq<int>>)
    requires Valid(s) && !s.gameOver && s.rollsUsed == 0
    requires |rolls| == MaxRolls && forall k :: 0 <= k < |rolls| ==> ValidFaces(rolls[k])
    requires ScoresOpen(strategy)
    ensures Valid(PlayTurn(s, strategy, rolls)) && PlayTurn(s, strategy, rolls).rollsUsed == 0
    ensures |Open(PlayTurn(s, strategy, rolls).scorecard)| == |Open(s.scorecard)| - 1
  {
    RollPreservesValid(s, rolls[0]);
    TurnLoopFillsOne(RollDice(s, rolls[0]), strategy, rolls);
  }

  /** Face vectors for every roll of every turn. */
  predicate Supply(turns: seq<seq<seq<int>>>) {
    forall t :: 0 <= t < |turns| ==>
      |turns[t]| == MaxRolls && forall k :: 0 <= k < MaxRolls ==> ValidFaces(turns[t][k])
  }

  /** `while not state.game_over: state = play_turn(state, strategy)`, one
      turn per supplied face set (the supply bounds the loop). */
  function PlayTurns(s: GameState, strategy: GameState -> Action, turns: seq<seq<seq<int>>>): (r: GameState)
    requires Valid(s) && s.rollsUsed == 0 && Supply(turns)
    requires ScoresOpen(strategy)
    ensures Valid(r) && r.rollsUsed == 0
    decreases |turns|
  {
    if s.gameOver || |turns| == 0 then s
    else
      PlayTurnFillsOne(s, strategy, turns[0]);
      PlayTurns(PlayTurn(s, strategy, turns[0]), strategy, turns[1..])
  }

  /** `play_game`: from the initial state until the game is over. */
  function PlayGame(strategy: GameState -> Action, start: seq<int>, turns: seq<seq<seq<int>>>): GameState
    requires ValidFaces(start) && Supply(turns) && ScoresOpen(strategy)
  {
    PlayTurns(CreateInitial(start), strategy, turns)
  }

  /** As many turns as there are open categories end the game. */
  lemma {:induction false} PlayTurnsEnds(s: GameState, strategy: GameState -> Action, turns: seq<seq<seq<int>>>)
    requires Valid(s) && s.rollsUsed == 0 && Supply(turns) && ScoresOpen(strategy)
    requires |turns| >= |Open(s.scorecard)|
    ensures PlayTurns(s, strategy, turns).gameOver
    ensures IsComplete(PlayTurns(s, strategy, turns).scorecard)
    decreases |turns|
  {
    CompleteIffNoneOpen(s.scorecard);
    if !s.gameOver {
      PlayTurnFillsOne(s, strategy, turns[0]);
      PlayTurnsEnds(PlayTurn(s, strategy, turns[0]), strategy, turns[1..]);
    }
  }

  /** A game played by a strategy that scores open categories is over,
      with a complete card, after thirteen turns. */
  lemma PlayGameEnds(strategy: GameState -> Action, start: seq<int>, turns: seq<seq<seq<int>>>)
    requires ValidFaces(start) && Supply(turns) && ScoresOpen(strategy)
    requires |turns| >= NumCategories
    ensures PlayGame(strategy, start, turns).gameOver
    ensures IsComplete(PlayGame(strategy, start, turns).scorecard)
  {
    OpenOfEmpty();
    PlayTurnsEnds(CreateInitial(start), strategy, turns);
  }

  // ---------------------------------------------------------------------
  // RandomStrategy

  /** The positions whose coin came up heads: `tuple(i for i in range(5)
      if random.random() < 0.5)` with the coins supplied. */
  function HeldByCoins(coins: seq<bool>, i: nat): (h: seq<int>)
    requires i <= |coins|
    ensures forall k :: 0 <= k < |h| ==> i <= h[k] < |coins| && coins[h[k]]
    ensures forall j :: i <= j < |coins| && coins[j] ==> j in h
    ensures forall j, k :: 0 <= j < k < |h| ==> h[j] < h[k]
    decreases |coins| - i
  {
    if i == |coins| then []
    else
      var rest := HeldByCoins(coins, i + 1);
      if coins[i] then [i] + rest else rest
  }

  /** `RandomStrategy.choose_action` with its random draws supplied: the
      reroll coin, five hold coins and the position of the category picked
      among the open ones. */
  function RandomChoose(s: GameState, reroll: bool, coins: seq<bool>, pick: nat): (a: Action)
    requires |coins| == NumDice && pick < |Open(s.scorecard)|
  {
    if s.rollsUsed >= MaxRolls || !reroll then ScoreAction(Open(s.scorecard)[pick])
    else RollAction(HeldByCoins(coins, 0))
  }

  /** Whatever the draws, the random strategy scores once the rolls are
      used up, only scores open categories and holds real dice. */
  lemma RandomLegal(s: GameState, reroll: bool, coins: seq<bool>, pick: nat)
    requires |coins| == NumDice && pick < |Open(s.scorecard)|
    ensures s.rollsUsed >= MaxRolls ==> RandomChoose(s, reroll, coins, pick).ScoreAction?
    ensures RandomChoose(s, reroll, coins, pick).ScoreAction? ==>
      !IsFilled(s.scorecard, RandomChoose(s, reroll, coins, pick).category)
    ensures RandomChoose(s, reroll, coins, pick).RollAction? ==>
      WellFormedHold(RandomChoose(s, reroll, coins, pick).hold)
  {
    assert Open(s.scorecard)[pick] in Open(s.scorecard);
  }
}

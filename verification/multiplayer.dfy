/**
 * The multiplayer transitions of the rules engine (`mp_*`): two or more
 * players share the dice and take turns round-robin, each on their own
 * scorecard; every transition delegates to its single-player counterpart
 * on the acting player's view of the game.
 */
module Multiplayer {
  import opened Categories
  import opened Dice
  import opened Scorecards
  import opened Engine

  datatype MpGameState = MpGameState(
    numPlayers: int,
    scorecards: seq<Scorecard>,
    currentPlayerIndex: int,
    dice: seq<Die>,
    rollsUsed: int,
    currentRound: int,
    gameOver: bool)

  predicate AllComplete(cards: seq<Scorecard>) {
    forall p :: 0 <= p < |cards| ==> IsComplete(cards[p])
  }

  /** Categories still open, summed over all players. */
  function TotalOpen(cards: seq<Scorecard>): nat {
    if |cards| == 0 then 0 else |Open(cards[0])| + TotalOpen(cards[1..])
  }

  /** Well-formed: one card per player and an acting player among them. */
  predicate MpWellFormed(s: MpGameState) {
    s.numPlayers >= 1 && |s.scorecards| == s.numPlayers
    && 0 <= s.currentPlayerIndex < s.numPlayers
  }

  /** What every reachable multiplayer state satisfies: players before the
      acting one have already scored this round, the others not yet. */
  predicate MpValid(s: MpGameState) {
    && MpWellFormed(s)
    && ValidDice(s.dice)
    && 0 <= s.rollsUsed <= MaxRolls
    && CardsInRange(s.scorecards)
    && (s.gameOver <==> AllComplete(s.scorecards))
    && (s.gameOver ==> s.currentRound == NumRounds && s.currentPlayerIndex == 0)
    && (!s.gameOver ==> 1 <= s.currentRound <= NumRounds
                         && RoundProgress(s.scorecards, s.currentPlayerIndex, s.currentRound))
  }

  predicate CardsInRange(cards: seq<Scorecard>) {
    forall p :: 0 <= p < |cards| ==> ScoresInRange(cards[p])
  }

  /** In round `round` with player `idx` to act, every player before `idx`
      has filled `round` categories and every later one `round - 1`. */
  predicate RoundProgress(cards: seq<Scorecard>, idx: int, round: int) {
    forall p :: 0 <= p < |cards| ==>
      |Open(cards[p])| == (if p < idx then NumRounds - round else NumRounds + 1 - round)
  }

  /** `MultiplayerGameState.create_initial(n)`: `n` empty cards, player 0 to
      act, five unheld dice showing the supplied faces, round 1. */
  function MpCreateInitial(n: int, faces: seq<int>): (s: MpGameState)
    requires n >= 1 && ValidFaces(faces)
    ensures MpWellFormed(s)
    ensures s.numPlayers == n && |s.scorecards| == n
    ensures forall p, c :: 0 <= p < n ==> !IsFilled(s.scorecards[p], c)
    ensures s.currentPlayerIndex == 0 && s.rollsUsed == 0 && s.currentRound == 1 && !s.gameOver
    ensures Values(s.dice) == faces && forall i :: 0 <= i < |s.dice| ==> !s.dice[i].held
  {
    MpGameState(n, EmptyCards(n), 0, FreshDice(faces), 0, 1, false)
  }

  /** One empty card per player. */
  function EmptyCards(n: nat): (cards: seq<Scorecard>)
    ensures |cards| == n && forall p :: 0 <= p < n ==> cards[p] == Empty()
  {
    seq(n, _ => Empty())
  }

  /** `mp_get_current_scorecard`. */
  function MpCurrentScorecard(s: MpGameState): Scorecard
    requires MpWellFormed(s)
  {
    s.scorecards[s.currentPlayerIndex]
  }

  /** The single-player view of the acting player's turn, through which the
      multiplayer transitions delegate. */
  function AsSingle(s: MpGameState): GameState
    requires MpWellFormed(s)
  {
    GameState(s.dice, MpCurrentScorecard(s), s.rollsUsed, s.currentRound, s.gameOver)
  }

  predicate MpCanRoll(s: MpGameState)
    requires MpWellFormed(s)
  {
    CanRoll(AsSingle(s))
  }

  predicate MpCanSelectCategory(s: MpGameState, c: Category)
    requires MpWellFormed(s)
  {
    CanSelectCategory(AsSingle(s), c)
  }

  /** `mp_roll_dice`: the single-player roll applied to the shared dice. */
  function MpRollDice(s: MpGameState, faces: seq<int>): (r: MpGameState)
    requires MpWellFormed(s) && |faces| == |s.dice|
    ensures !MpCanRoll(s) ==> r == s
    ensures MpCanRoll(s) ==>
      && r.rollsUsed == s.rollsUsed + 1
      && r.scorecards == s.scorecards && r.currentPlayerIndex == s.currentPlayerIndex
      && r.currentRound == s.currentRound && r.gameOver == s.gameOver
      && |r.dice| == |s.dice|
      && (forall i :: 0 <= i < |s.dice| && s.dice[i].held ==> r.dice[i] == s.dice[i])
      && (forall i :: 0 <= i < |s.dice| && !s.dice[i].held ==> r.dice[i] == Die(faces[i], false))
  {
    var g := RollDice(AsSingle(s), faces);
    if MpCanRoll(s) then s.(dice := g.dice, rollsUsed := g.rollsUsed) else s
  }

  /** `mp_toggle_die_hold`: the single-player hold toggle. */
  function MpToggleDieHold(s: MpGameState, i: int): (r: MpGameState)
    requires MpWellFormed(s)
    ensures s.rollsUsed == 0 || s.gameOver || i < 0 || i >= |s.dice| ==> r == s
    ensures !(s.rollsUsed == 0 || s.gameOver || i < 0 || i >= |s.dice|) ==>
      && r == s.(dice := r.dice)
      && |r.dice| == |s.dice|
      && r.dice[i].held == !s.dice[i].held && r.dice[i].value == s.dice[i].value
      && (forall j :: 0 <= j < |s.dice| && j != i ==> r.dice[j] == s.dice[j])
  {
    var g := ToggleDieHold(AsSingle(s), i);
    s.(dice := g.dice)
  }

  /** The player after `idx`, wrapping from the last back to player 0. */
  function NextPlayer(idx: int, n: int): (next: int)
    requires 0 <= idx < n
    ensures 0 <= next < n
    ensures next == 0 <==> idx + 1 == n
    ensures next != 0 ==> next == idx + 1
  {
    if idx + 1 == n then 0 else idx + 1
  }

  /** The turn passes on modulo the number of players. */
  lemma NextPlayerModulo(idx: int, n: int)
    requires 0 <= idx < n
    ensures NextPlayer(idx, n) == (idx + 1) % n
  {
  }

  /** `mp_select_category`: records the acting player's score as a
      single-player scoring would (bonus Yahtzee and joker rule included),
      passes the turn to the next player, advances the round when play wraps
      back to player 0, and ends the game once every card is complete. */
  function MpSelectCategory(s: MpGameState, c: Category): (r: MpGameState)
    requires MpWellFormed(s) && ValidDice(s.dice)
    ensures !MpCanSelectCategory(s, c) ==> r == s
    ensures MpCanSelectCategory(s, c) ==>
      && r.numPlayers == s.numPlayers && |r.scorecards| == |s.scorecards|
      && r.scorecards[s.currentPlayerIndex] == RecordScore(MpCurrentScorecard(s), c, Values(s.dice))
      && (forall p :: 0 <= p < |s.scorecards| && p != s.currentPlayerIndex ==> r.scorecards[p] == s.scorecards[p])
      && r.currentPlayerIndex == NextPlayer(s.currentPlayerIndex, s.numPlayers)
      && r.currentRound == (if r.currentPlayerIndex == 0 && !r.gameOver then s.currentRound + 1 else s.currentRound)
      && r.gameOver == AllComplete(r.scorecards)
      && r.rollsUsed == 0 && Values(r.dice) == Values(s.dice)
      && (forall i :: 0 <= i < |r.dice| ==> !r.dice[i].held)
  {
    if !MpCanSelectCategory(s, c) then s
    else
      var idx := s.currentPlayerIndex;
      var cards := s.scorecards[idx := RecordScore(s.scorecards[idx], c, Values(s.dice))];
      var next := NextPlayer(idx, s.numPlayers);
      var over := AllComplete(cards);
      MpGameState(s.numPlayers, cards, next, Unhold(s.dice), 0,
                  if next == 0 && !over then s.currentRound + 1 else s.currentRound, over)
  }

  /** The acting player's card and the dice after a multiplayer scoring are
      exactly those of a single-player scoring of the same turn. */
  lemma MpSelectAsSingle(s: MpGameState, c: Category)
    requires MpWellFormed(s) && ValidDice(s.dice) && MpCanSelectCategory(s, c)
    ensures MpSelectCategory(s, c).scorecards[s.currentPlayerIndex] == SelectCategory(AsSingle(s), c).scorecard
    ensures MpSelectCategory(s, c).dice == SelectCategory(AsSingle(s), c).dice
    ensures MpSelectCategory(s, c).rollsUsed == SelectCategory(AsSingle(s), c).rollsUsed
  {
  }
}

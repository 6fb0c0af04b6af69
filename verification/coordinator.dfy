/**
 * `GameCoordinator` of game_coordinator.py: the per-frame state machine
 * around the rules engine. It owns the game (one player or several), the
 * roll animation and turn-transition timers, the paced AI player and a
 * snapshot undo stack. Each action and each `tick` is a function from one
 * coordinator record to the next; the faces a roll would draw and the AI's
 * decisions are parameters.
 */
module Coordinators {
  import opened Options
  import opened Categories
  import opened Dice
  import opened Scorecards
  import opened Engine
  import opened Multiplayer
  import opened GameLogs
  import opened Ai

  // ---------------------------------------------------------------------
  // Speed presets

  datatype Speed = Slow | Normal | Fast

  /** `SPEED_NAMES`, slowest first. */
  const SpeedNames: seq<Speed> := [Slow, Normal, Fast]

  /** AI delay, roll animation and hold-show pause, in frames. */
  datatype Timings = Timings(aiDelay: int, rollDuration: int, holdShow: int)

  /** `SPEED_PRESETS`. */
  function Preset(sp: Speed): (t: Timings)
    ensures t.aiDelay >= 1 && t.rollDuration >= 1 && t.holdShow >= 1
  {
    match sp
    case Slow => Timings(60, 90, 30)
    case Normal => Timings(30, 60, 20)
    case Fast => Timings(10, 20, 8)
  }

  /** `SPEED_NAMES.index(speed)`. */
  function SpeedIndex(sp: Speed): (i: nat)
    ensures i < |SpeedNames| && SpeedNames[i] == sp
  {
    match sp
    case Slow => 0
    case Normal => 1
    case Fast => 2
  }

  /** Frames the multiplayer "next player" overlay stays up. */
  const TransitionDuration: int := 45

  // ---------------------------------------------------------------------
  // The game, single-player or multiplayer

  datatype Game = Single(state: GameState) | Multi(mp: MpGameState)

  predicate GameWf(g: Game) {
    match g
    case Single(s) => ValidDice(s.dice)
    case Multi(m) => MpWellFormed(m) && ValidDice(m.dice)
  }

  function NumPlayers(g: Game): int {
    match g
    case Single(_) => 1
    case Multi(m) => m.numPlayers
  }

  /** The property accessors of the coordinator (`dice`, `rolls_used`, ...),
      read from whichever state is active. */
  function GameDice(g: Game): seq<Die> {
    match g
    case Single(s) => s.dice
    case Multi(m) => m.dice
  }

  function RollsUsed(g: Game): int {
    match g
    case Single(s) => s.rollsUsed
    case Multi(m) => m.rollsUsed
  }

  function CurrentRound(g: Game): int {
    match g
    case Single(s) => s.currentRound
    case Multi(m) => m.currentRound
  }

  predicate GameOver(g: Game) {
    match g
    case Single(s) => s.gameOver
    case Multi(m) => m.gameOver
  }

  function PlayerIndex(g: Game): int {
    match g
    case Single(_) => 0
    case Multi(m) => m.currentPlayerIndex
  }

  /** The acting player's turn as a single-player state: the view the AI
      strategies decide on. */
  function View(g: Game): GameState
    requires GameWf(g)
  {
    match g
    case Single(s) => s
    case Multi(m) => AsSingle(m)
  }

  predicate GameCanRoll(g: Game)
    requires GameWf(g)
  {
    CanRoll(View(g))
  }

  predicate GameCanSelect(g: Game, c: Category)
    requires GameWf(g)
  {
    CanSelectCategory(View(g), c)
  }

  function GameRoll(g: Game, faces: seq<int>): (r: Game)
    requires GameWf(g) && ValidFaces(faces)
    ensures GameWf(r) && NumPlayers(r) == NumPlayers(g)
    ensures GameCanRoll(g) ==> RollsUsed(r) == RollsUsed(g) + 1
  {
    match g
    case Single(s) => Single(RollDice(s, faces))
    case Multi(m) => Multi(MpRollDice(m, faces))
  }

  function GameToggle(g: Game, i: int): (r: Game)
    requires GameWf(g)
    ensures GameWf(r) && NumPlayers(r) == NumPlayers(g)
    ensures View(r).scorecard == View(g).scorecard && RollsUsed(r) == RollsUsed(g)
    ensures GameOver(r) == GameOver(g) && PlayerIndex(r) == PlayerIndex(g)
  {
    match g
    case Single(s) => Single(ToggleDieHold(s, i))
    case Multi(m) => Multi(MpToggleDieHold(m, i))
  }

  function GameSelect(g: Game, c: Category): (r: Game)
    requires GameWf(g)
    ensures GameWf(r) && NumPlayers(r) == NumPlayers(g)
    ensures !GameCanSelect(g, c) ==> r == g
    ensures GameCanSelect(g, c) ==> RollsUsed(r) == 0
  {
    match g
    case Single(s) => Single(SelectCategory(s, c))
    case Multi(m) => Multi(MpSelectCategory(m, c))
  }

  /** The AI's hold request applied die by die on the shared dice, as the
      multiplayer branch of `tick` does with `mp_toggle_die_hold`. */
  function MpApplyHoldsFrom(m: MpGameState, hold: seq<int>, i: nat): (r: MpGameState)
    requires MpWellFormed(m) && |m.dice| == NumDice && i <= NumDice
    ensures r == m.(dice := r.dice) && |r.dice| == NumDice
    decreases NumDice - i
  {
    if i == NumDice then m
    else
      var t := if (i in hold) != m.dice[i].held then MpToggleDieHold(m, i) else m;
      MpApplyHoldsFrom(t, hold, i + 1)
  }

  function GameApplyHolds(g: Game, hold: seq<int>): (r: Game)
    requires GameWf(g)
  {
    match g
    case Single(s) => Single(ApplyHolds(s, hold))
    case Multi(m) => Multi(MpApplyHoldsFrom(m, hold, 0))
  }

  /** The multiplayer hold loop acts on the acting player's view exactly as
      the single-player one does, and touches nothing but the dice. */
  lemma {:induction false} MpApplyHoldsAsSingle(m: MpGameState, hold: seq<int>, i: nat)
    requires MpWellFormed(m) && |m.dice| == NumDice && i <= NumDice
    ensures AsSingle(MpApplyHoldsFrom(m, hold, i)) == ApplyHoldsFrom(AsSingle(m), hold, i)
    decreases NumDice - i
  {
    if i < NumDice {
      var t := if (i in hold) != m.dice[i].held then MpToggleDieHold(m, i) else m;
      MpHoldStep(m, hold, i, t);
      MpApplyHoldsAsSingle(t, hold, i + 1);
      AsSingleStep(m, hold, i, t);
    }
  }

  /** The hold loops agree from die `i` once they agree from die `i + 1`. */
  lemma AsSingleStep(m: MpGameState, hold: seq<int>, i: nat, t: MpGameState)
    requires MpWellFormed(m) && |m.dice| == NumDice && i < NumDice
    requires t == if (i in hold) != m.dice[i].held then MpToggleDieHold(m, i) else m
    requires MpWellFormed(t) && |t.dice| == NumDice
    requires AsSingle(MpApplyHoldsFrom(t, hold, i + 1)) == ApplyHoldsFrom(AsSingle(t), hold, i + 1)
    ensures AsSingle(MpApplyHoldsFrom(m, hold, i)) == ApplyHoldsFrom(AsSingle(m), hold, i)
  {
    MpHoldStep(m, hold, i, t);
    SingleHoldStep(AsSingle(m), hold, i, AsSingle(t));
  }

  /** One step of the multiplayer hold loop, and its view. */
  lemma MpHoldStep(m: MpGameState, hold: seq<int>, i: nat, t: MpGameState)
    requires MpWellFormed(m) && |m.dice| == NumDice && i < NumDice
    requires t == if (i in hold) != m.dice[i].held then MpToggleDieHold(m, i) else m
    ensures MpWellFormed(t) && |t.dice| == NumDice
    ensures MpApplyHoldsFrom(m, hold, i) == MpApplyHoldsFrom(t, hold, i + 1)
    ensures AsSingle(t) == if (i in hold) != AsSingle(m).dice[i].held then ToggleDieHold(AsSingle(m), i) else AsSingle(m)
  {
    if (i in hold) != m.dice[i].held {
      MpToggleAsSingle(m, i);
    }
  }

  /** One step of the single-player hold loop. */
  lemma SingleHoldStep(s: GameState, hold: seq<int>, i: nat, t: GameState)
    requires |s.dice| == NumDice && i < NumDice
    requires t == if (i in hold) != s.dice[i].held then ToggleDieHold(s, i) else s
    ensures |t.dice| == NumDice
    ensures ApplyHoldsFrom(s, hold, i) == ApplyHoldsFrom(t, hold, i + 1)
  {
  }

  /** One multiplayer toggle is the single-player toggle of the acting
      player's view. */
  lemma MpToggleAsSingle(m: MpGameState, i: int)
    requires MpWellFormed(m)
    ensures AsSingle(MpToggleDieHold(m, i)) == ToggleDieHold(AsSingle(m), i)
  {
  }

  /** Applying holds keeps the game well formed. */
  lemma GameApplyHoldsWf(g: Game, hold: seq<int>)
    requires GameWf(g)
    ensures GameWf(GameApplyHolds(g, hold)) && NumPlayers(GameApplyHolds(g, hold)) == NumPlayers(g)
    ensures GameOver(GameApplyHolds(g, hold)) == GameOver(g)
    ensures PlayerIndex(GameApplyHolds(g, hold)) == PlayerIndex(g)
  {
    match g
    case Single(s) => SingleApplyHoldsWf(s, hold);
    case Multi(m) => MultiApplyHoldsWf(m, hold);
  }

  lemma SingleApplyHoldsWf(s: GameState, hold: seq<int>)
    requires ValidDice(s.dice)
    ensures ValidDice(ApplyHolds(s, hold).dice) && ApplyHolds(s, hold).gameOver == s.gameOver
  {
    FacesValid(ApplyHolds(s, hold).dice, Values(s.dice));
  }

  lemma MultiApplyHoldsWf(m: MpGameState, hold: seq<int>)
    requires MpWellFormed(m) && ValidDice(m.dice)
    ensures var r := MpApplyHoldsFrom(m, hold, 0);
      MpWellFormed(r) && ValidDice(r.dice) && r.gameOver == m.gameOver
      && r.numPlayers == m.numPlayers && r.currentPlayerIndex == m.currentPlayerIndex
  {
    var r := MpApplyHoldsFrom(m, hold, 0);
    MpApplyHoldsAsSingle(m, hold, 0);
    assert r.dice == ApplyHolds(AsSingle(m), hold).dice;
    SingleApplyHoldsWf(AsSingle(m), hold);
  }

  // ---------------------------------------------------------------------
  // The coordinator record

  /** What `_push_undo` saves: the game and every timer and flag it
      restores, plus the log length to cut back to. */
  datatype Snapshot = Snapshot(
    game: Game,
    aiNeedsFirstRoll: bool,
    aiTimer: int,
    isRolling: bool,
    rollTimer: int,
    aiShowingHolds: bool,
    aiHoldTimer: int,
    turnTransition: bool,
    turnTransitionTimer: int,
    aiShowingScoreChoice: bool,
    aiScoreChoiceCategory: Option<Category>,
    aiScoreChoiceTimer: int,
    logLength: nat)

  /** `GameCoordinator`. `ais[p]` says whether player `p` is played by a
      strategy (a single player is player 0). */
  datatype Coordinator = Coordinator(
    game: Game,
    ais: seq<bool>,
    speed: Speed,
    timings: Timings,
    aiTimer: int,
    aiNeedsFirstRoll: bool,
    aiShowingHolds: bool,
    aiHoldTimer: int,
    isRolling: bool,
    rollTimer: int,
    finalValues: seq<int>,
    pending: Option<Game>,
    turnTransition: bool,
    turnTransitionTimer: int,
    undo: seq<Snapshot>,
    log: Log,
    lastScored: Option<Category>,
    aiShowingScoreChoice: bool,
    aiScoreChoiceCategory: Option<Category>,
    aiScoreChoiceAction: Option<Category>,
    aiScoreChoiceTimer: int)

  /** A fresh game for `n` players (one unless `multiplayer`): the state
      `create_initial` builds, on the supplied faces. */
  function NewGame(multiplayer: bool, n: int, faces: seq<int>): (g: Game)
    requires ValidFaces(faces) && n >= 1 && (!multiplayer ==> n == 1)
    ensures Fits(g, n) && g.Multi? == multiplayer
    ensures RollsUsed(g) == 0 && !GameOver(g) && PlayerIndex(g) == 0 && CurrentRound(g) == 1
    ensures Values(GameDice(g)) == faces
  {
    if multiplayer then NewMulti(n, faces) else NewSingle(faces)
  }

  function NewSingle(faces: seq<int>): (g: Game)
    requires ValidFaces(faces)
    ensures Fits(g, 1) && g.Single?
    ensures RollsUsed(g) == 0 && !GameOver(g) && PlayerIndex(g) == 0 && CurrentRound(g) == 1
    ensures Values(GameDice(g)) == faces
  {
    var s := CreateInitial(faces);
    FacesValid(s.dice, faces);
    assert ValidDice(s.dice);
    assert GameWf(Single(s));
    Single(s)
  }

  function NewMulti(n: int, faces: seq<int>): (g: Game)
    requires ValidFaces(faces) && n >= 1
    ensures Fits(g, n) && g.Multi?
    ensures RollsUsed(g) == 0 && !GameOver(g) && PlayerIndex(g) == 0 && CurrentRound(g) == 1
    ensures Values(GameDice(g)) == faces
  {
    var m := MpCreateInitial(n, faces);
    FacesValid(m.dice, faces);
    Multi(m)
  }

  /** Valid dice show a valid roll. */
  lemma DiceFaces(d: seq<Die>)
    requires ValidDice(d)
    ensures ValidFaces(Values(d))
  {
  }

  /** Dice showing valid faces are valid dice. */
  lemma FacesValid(d: seq<Die>, faces: seq<int>)
    requires ValidFaces(faces) && Values(d) == faces
    ensures ValidDice(d)
  {
    forall j | 0 <= j < |d| ensures IsFace(d[j].value) {
      assert d[j].value == Values(d)[j];
    }
  }

  /** A game fit for a coordinator with `n` player slots. */
  predicate Fits(g: Game, n: int) {
    GameWf(g) && NumPlayers(g) == n
  }

  /** What every coordinator satisfies: the active, pending and saved games
      are well formed for its players, a roll in flight has its result
      pending, and the timings are its preset's. */
  predicate Wf(c: Coordinator) {
    && |c.ais| >= 1
    && Fits(c.game, |c.ais|)
    && (c.pending.Some? ==> Fits(c.pending.value, |c.ais|))
    && (c.isRolling ==> c.pending.Some?)
    && (forall k :: 0 <= k < |c.undo| && c.undo[k].isRolling ==> c.pending.Some?)
    && (forall k :: 0 <= k < |c.undo| ==> Fits(c.undo[k].game, |c.ais|))
    && c.timings == Preset(c.speed)
  }

  /** `GameCoordinator(...)`: one player (`multiplayer` false, `ais` of
      length one) or several, the faces of the initial dice supplied; a
      multiplayer game opens with the transition overlay. */
  function Create(multiplayer: bool, ais: seq<bool>, speed: Speed, faces: seq<int>): (c: Coordinator)
    requires ValidFaces(faces) && |ais| >= 1 && (!multiplayer ==> |ais| == 1)
    ensures Wf(c)
    ensures c.game.Multi? == multiplayer && c.turnTransition == multiplayer
    ensures c.undo == [] && c.log == [] && !c.isRolling && c.aiNeedsFirstRoll
    ensures RollsUsed(c.game) == 0 && !GameOver(c.game) && PlayerIndex(c.game) == 0
  {
    var g := NewGame(multiplayer, |ais|, faces);
    Coordinator(g, ais, speed, Preset(speed), 0, true, false, 0, false, 0, [], None,
                multiplayer, 0, [], [], None, false, None, None, 0)
  }

  /** `is_current_player_human`. */
  predicate IsCurrentHuman(c: Coordinator)
    requires Wf(c)
  {
    var p := PlayerIndex(c.game);
    0 <= p < |c.ais| && !c.ais[p]
  }

  /** `can_roll_now`. */
  predicate CanRollNow(c: Coordinator)
    requires Wf(c)
  {
    !c.isRolling && GameCanRoll(c.game)
  }

  // ---------------------------------------------------------------------
  // Undo

  function Snap(c: Coordinator): Snapshot {
    Snapshot(c.game, c.aiNeedsFirstRoll, c.aiTimer, c.isRolling, c.rollTimer,
             c.aiShowingHolds, c.aiHoldTimer, c.turnTransition, c.turnTransitionTimer,
             c.aiShowingScoreChoice, c.aiScoreChoiceCategory, c.aiScoreChoiceTimer, |c.log|)
  }

  /** `_push_undo`: a snapshot on a human's turn, nothing on an AI's. */
  function PushUndo(c: Coordinator): (r: Coordinator)
    requires Wf(c)
    ensures Wf(r) && r == c.(undo := r.undo)
    ensures IsCurrentHuman(c) ==> r.undo == c.undo + [Snap(c)]
    ensures !IsCurrentHuman(c) ==> r.undo == c.undo
  {
    if IsCurrentHuman(c) then c.(undo := c.undo + [Snap(c)]) else c
  }

  /** `can_undo`. */
  predicate CanUndo(c: Coordinator)
    requires Wf(c)
  {
    |c.undo| > 0 && IsCurrentHuman(c) && !c.isRolling && !c.turnTransition && !GameOver(c.game)
  }

  /** Putting a snapshot back: its fields, and the log cut to its length
      (a slice past the end keeps the whole log). */
  function Restore(c: Coordinator, s: Snapshot): Coordinator {
    c.(game := s.game, aiNeedsFirstRoll := s.aiNeedsFirstRoll, aiTimer := s.aiTimer,
       isRolling := s.isRolling, rollTimer := s.rollTimer,
       aiShowingHolds := s.aiShowingHolds, aiHoldTimer := s.aiHoldTimer,
       turnTransition := s.turnTransition, turnTransitionTimer := s.turnTransitionTimer,
       aiShowingScoreChoice := s.aiShowingScoreChoice, aiScoreChoiceCategory := s.aiScoreChoiceCategory,
       aiScoreChoiceTimer := s.aiScoreChoiceTimer,
       log := if s.logLength <= |c.log| then c.log[..s.logLength] else c.log)
  }

  /** `undo`: refused (no change) when the stack is empty, on an AI turn,
      while rolling, during a transition or after the game; otherwise the
      most recent snapshot is popped and put back. */
  function Undo(c: Coordinator): (res: (bool, Coordinator))
    requires Wf(c)
    ensures res.0 == CanUndo(c)
    ensures !res.0 ==> res.1 == c
    ensures res.0 ==> Wf(res.1) && res.1.undo == c.undo[..|c.undo| - 1]
    ensures res.0 ==> res.1.game == c.undo[|c.undo| - 1].game
    ensures res.0 ==> |res.1.log| == if c.undo[|c.undo| - 1].logLength <= |c.log| then c.undo[|c.undo| - 1].logLength else |c.log|
    ensures res.0 ==> res.1.log <= c.log
  {
    if !CanUndo(c) then (false, c)
    else
      var n := |c.undo| - 1;
      (true, Restore(c.(undo := c.undo[..n]), c.undo[n]))
  }

  // ---------------------------------------------------------------------
  // Actions

  /** `roll_dice`: unless a roll is animating or the engine refuses one,
      saves an undo snapshot and starts the animation with the rolled state
      pending; the game itself changes only when the animation ends. */
  function RollDiceAction(c: Coordinator, faces: seq<int>): (r: Coordinator)
    requires Wf(c) && ValidFaces(faces)
    ensures Wf(r) && r.ais == c.ais
    ensures !CanRollNow(c) ==> r == c
    ensures CanRollNow(c) ==>
      && r.isRolling && r.rollTimer == 0 && r.game == c.game && r.log == c.log
      && r.undo == PushUndo(c).undo
      && r.pending.Some? && RollsUsed(r.pending.value) == RollsUsed(c.game) + 1
      && r.finalValues == Values(GameDice(r.pending.value))
  {
    if c.isRolling || !GameCanRoll(c.game) then c
    else
      var d := PushUndo(c);
      var g := GameRoll(c.game, faces);
      d.(isRolling := true, rollTimer := 0, finalValues := Values(GameDice(g)), pending := Some(g))
  }

  /** `toggle_hold`: saves a snapshot (even when the engine then ignores
      the toggle) and toggles die `i`. */
  function ToggleHold(c: Coordinator, i: int): (r: Coordinator)
    requires Wf(c)
    ensures Wf(r)
    ensures r.undo == PushUndo(c).undo && r.log == c.log
    ensures r == c.(game := r.game, undo := r.undo)
  {
    var d := PushUndo(c);
    d.(game := GameToggle(c.game, i))
  }

  /** `_on_turn_scored`: single-player returns at once; in multiplayer the
      AI state and the undo stack are cleared and, unless the game just
      ended, the transition overlay comes up. */
  function OnTurnScored(c: Coordinator): (r: Coordinator)
    requires Wf(c)
    ensures Wf(r) && r.ais == c.ais && r.game == c.game && r.log == c.log
    ensures c.game.Single? ==> r == c
    ensures c.game.Multi? ==> r.undo == [] && r.aiNeedsFirstRoll && !r.aiShowingScoreChoice && !r.aiShowingHolds
    ensures c.game.Multi? ==> (r.turnTransition <==> !GameOver(c.game) || c.turnTransition)
  {
    if c.game.Single? then c
    else
      var d := c.(aiNeedsFirstRoll := true, aiTimer := 0, aiShowingHolds := false, aiHoldTimer := 0,
                  aiShowingScoreChoice := false, aiScoreChoiceCategory := None,
                  aiScoreChoiceAction := None, aiScoreChoiceTimer := 0, undo := []);
      if !GameOver(c.game) then d.(turnTransition := true, turnTransitionTimer := 0) else d
  }

  /** Scoring `cat` on the current dice: the in-context score is logged for
      the acting player and turn, then the engine records it. */
  function Score(c: Coordinator, cat: Category): (r: Coordinator)
    requires Wf(c)
    ensures Wf(r) && r.game == GameSelect(c.game, cat) && r.lastScored == Some(cat)
    ensures var e := LogEntry(CurrentRound(c.game), PlayerIndex(c.game), ScoreEvent, Values(GameDice(c.game)),
                              None, Some(cat), Some(ScoreInContext(cat, Values(GameDice(c.game)), View(c.game).scorecard)), 0);
      r.log == c.log + [e]
    ensures r == c.(game := r.game, lastScored := r.lastScored, log := r.log)
  {
    var vals := Values(GameDice(c.game));
    DiceFaces(GameDice(c.game));
    var score := ScoreInContext(cat, vals, View(c.game).scorecard);
    c.(game := GameSelect(c.game, cat), lastScored := Some(cat),
       log := LogScore(c.log, CurrentRound(c.game), PlayerIndex(c.game), cat, score, vals))
  }

  /** `select_category`: when the engine allows `cat`, saves a snapshot,
      scores it and, in multiplayer, hands over the turn; otherwise returns
      false and changes nothing. */
  function SelectCategoryAction(c: Coordinator, cat: Category): (res: (bool, Coordinator))
    requires Wf(c)
    ensures Wf(res.1)
    ensures res.0 == GameCanSelect(c.game, cat)
    ensures !res.0 ==> res.1 == c
    ensures res.0 ==> res.1.game == GameSelect(c.game, cat) && res.1.lastScored == Some(cat)
    ensures res.0 ==> |res.1.log| == |c.log| + 1 && res.1.log[..|c.log|] == c.log
    ensures res.0 && c.game.Single? ==> res.1.undo == PushUndo(c).undo
    ensures res.0 && c.game.Multi? ==>
      res.1.undo == [] && (!GameOver(res.1.game) ==> res.1.turnTransition && res.1.turnTransitionTimer == 0)
  {
    if !GameCanSelect(c.game, cat) then (false, c)
    else (true, OnTurnScored(Score(PushUndo(c), cat)))
  }

  /** `reset_game`: a fresh game with the supplied faces, every timer and
      flag back to its start value, an empty undo stack and log; the speed
      and the players stay. */
  function ResetGame(c: Coordinator, faces: seq<int>): (r: Coordinator)
    requires Wf(c) && ValidFaces(faces)
    ensures Wf(r) && r.undo == [] && r.log == [] && !r.isRolling && r.aiNeedsFirstRoll
    ensures r.game.Multi? == c.game.Multi? && NumPlayers(r.game) == NumPlayers(c.game)
    ensures RollsUsed(r.game) == 0 && !GameOver(r.game) && PlayerIndex(r.game) == 0 && CurrentRound(r.game) == 1
    ensures Values(GameDice(r.game)) == faces
    ensures r.speed == c.speed && r.timings == c.timings && r.ais == c.ais
    ensures c.game.Multi? ==> r.turnTransition && r.turnTransitionTimer == 0
  {
    var g := NewGame(c.game.Multi?, |c.ais|, faces);
    c.(game := g,
       turnTransition := if c.game.Multi? then true else c.turnTransition,
       turnTransitionTimer := if c.game.Multi? then 0 else c.turnTransitionTimer,
       aiNeedsFirstRoll := true, aiTimer := 0, aiShowingHolds := false, aiHoldTimer := 0,
       isRolling := false, rollTimer := 0, undo := [], lastScored := None,
       aiShowingScoreChoice := false, aiScoreChoiceCategory := None, aiScoreChoiceAction := None,
       aiScoreChoiceTimer := 0, log := Clear())
  }

  /** `change_speed`: one step along slow, normal, fast, taking the new
      preset's timings; refused (false, no change) past either end. */
  function ChangeSpeed(c: Coordinator, direction: int): (res: (bool, Coordinator))
    requires Wf(c)
    ensures Wf(res.1)
    ensures res.0 <==> 0 <= SpeedIndex(c.speed) + direction < |SpeedNames|
    ensures !res.0 ==> res.1 == c
    ensures res.0 ==>
      SpeedIndex(res.1.speed) == SpeedIndex(c.speed) + direction && res.1 == c.(speed := res.1.speed, timings := Preset(res.1.speed))
  {
    var i := SpeedIndex(c.speed) + direction;
    if 0 <= i < |SpeedNames| then
      var sp := SpeedNames[i];
      (true, c.(speed := sp, timings := Preset(sp)))
    else (false, c)
  }

  // ---------------------------------------------------------------------
  // The frame update

  /** `tick`: one frame. The first active phase, in this order, advances:
      the turn transition, the roll animation (committing the pending roll
      and logging it when the animation ends), the AI's hold-show pause
      (rolling when it ends), the AI's score preview (scoring when it ends),
      and finally the paced AI decision. `choose` is the acting AI's
      strategy and `faces` the faces a roll started this frame draws. */
  function Tick(c: Coordinator, choose: GameState -> Action, faces: seq<int>): (r: Coordinator)
    requires Wf(c) && ValidFaces(faces)
    ensures Wf(r) && r.ais == c.ais
  {
    if c.turnTransition then
      var t := c.turnTransitionTimer + 1;
      c.(turnTransitionTimer := t, turnTransition := t < TransitionDuration)
    else if c.isRolling then
      TickRolling(c)
    else if c.aiShowingHolds then
      var t := c.aiHoldTimer + 1;
      if t >= c.timings.holdShow then RollDiceAction(c.(aiHoldTimer := t, aiShowingHolds := false), faces)
      else c.(aiHoldTimer := t)
    else if c.aiShowingScoreChoice then
      TickScoreChoice(c)
    else if !IsCurrentHuman(c) && !GameOver(c.game) then
      TickAi(c, choose, faces)
    else c
  }

  /** The roll animation's frame: the pending roll is committed and logged
      on the frame the timer reaches the roll duration. */
  function TickRolling(c: Coordinator): (r: Coordinator)
    requires Wf(c) && c.isRolling
    ensures Wf(r) && r.ais == c.ais
  {
    var t := c.rollTimer + 1;
    if t < c.timings.rollDuration then c.(rollTimer := t)
    else
      var g := c.pending.value;
      c.(rollTimer := t, game := g, isRolling := false,
         log := LogRoll(c.log, CurrentRound(g), PlayerIndex(g), RollsUsed(g), Values(GameDice(g))))
  }

  /** The score preview's frame: when the pause is over the previewed
      category is scored and logged; the single-player branch re-arms the
      AI's first roll, the multiplayer one hands over the turn. The
      preview is only ever shown together with its action, so the branch
      without one is unreachable; it just lets the timer run. */
  function TickScoreChoice(c: Coordinator): (r: Coordinator)
    requires Wf(c)
    ensures Wf(r) && r.ais == c.ais
  {
    var t := c.aiScoreChoiceTimer + 1;
    if t < c.timings.holdShow || c.aiScoreChoiceAction.None? then c.(aiScoreChoiceTimer := t)
    else CommitPreview(c.(aiScoreChoiceTimer := t), c.aiScoreChoiceAction.value)
  }

  /** Scoring the previewed category and closing the preview. */
  function CommitPreview(c: Coordinator, cat: Category): (r: Coordinator)
    requires Wf(c)
    ensures Wf(r) && r.ais == c.ais
  {
    var d := ClosePreview(Score(c, cat));
    if c.game.Multi? then OnTurnScored(d) else d.(aiNeedsFirstRoll := true)
  }

  function ClosePreview(c: Coordinator): (r: Coordinator)
    requires Wf(c)
    ensures Wf(r) && r.ais == c.ais
  {
    c.(aiShowingScoreChoice := false, aiScoreChoiceCategory := None, aiScoreChoiceAction := None)
  }

  /** The AI's paced decision: nothing until the delay has passed; then the
      mandatory first roll, or the strategy's action (a score is previewed,
      holds are applied and shown before the roll). The reason text the
      coordinator reads from the action is not modelled. */
  function TickAi(c: Coordinator, choose: GameState -> Action, faces: seq<int>): (r: Coordinator)
    requires Wf(c) && ValidFaces(faces)
    ensures Wf(r) && r.ais == c.ais
  {
    var t := c.aiTimer + 1;
    if t < c.timings.aiDelay then c.(aiTimer := t)
    else
      var d := c.(aiTimer := 0);
      if d.aiNeedsFirstRoll then RollDiceAction(d, faces).(aiNeedsFirstRoll := false)
      else match choose(View(d.game))
        case ScoreAction(cat) =>
          d.(aiShowingScoreChoice := true, aiScoreChoiceCategory := Some(cat),
             aiScoreChoiceAction := Some(cat), aiScoreChoiceTimer := 0)
        case RollAction(hold) =>
          GameApplyHoldsWf(d.game, hold);
          d.(game := GameApplyHolds(d.game, hold), aiShowingHolds := true, aiHoldTimer := 0)
  }

  /** `n` frames, the `k`-th drawing `rolls[k]` if it starts a roll. */
  function Ticks(c: Coordinator, choose: GameState -> Action, rolls: seq<seq<int>>): (r: Coordinator)
    requires Wf(c) && forall k :: 0 <= k < |rolls| ==> ValidFaces(rolls[k])
    ensures Wf(r)
    decreases |rolls|
  {
    if |rolls| == 0 then c else Ticks(Tick(c, choose, rolls[0]), choose, rolls[1..])
  }
}

/**
 * What the coordinator's timers and undo stack promise over several calls:
 * an animation or pause lasts exactly its preset number of frames, and
 * undo takes back the most recent human action.
 */
module CoordinatorProofs {
  import opened Options
  import opened Categories
  import opened Dice
  import opened Engine
  import opened GameLogs
  import opened Ai
  import opened Coordinators

  predicate AllValid(rolls: seq<seq<int>>) {
    forall k :: 0 <= k < |rolls| ==> ValidFaces(rolls[k])
  }

  lemma AllValidTail(rolls: seq<seq<int>>)
    requires AllValid(rolls) && |rolls| > 0
    ensures ValidFaces(rolls[0]) && AllValid(rolls[1..])
  {
    assert forall k :: 0 <= k < |rolls| - 1 ==> rolls[1..][k] == rolls[k + 1];
  }

  // ---------------------------------------------------------------------
  // Speed

  /** A step faster and a step back restore the coordinator. */
  lemma ChangeSpeedUndoes(c: Coordinator, direction: int)
    requires Wf(c) && ChangeSpeed(c, direction).0
    ensures ChangeSpeed(ChangeSpeed(c, direction).1, -direction) == (true, c)
  {
  }

  /** The fastest preset refuses to go faster and the slowest to go slower;
      from normal speed both steps succeed. */
  lemma SpeedEnds(c: Coordinator)
    requires Wf(c)
    ensures c.speed == Fast ==> ChangeSpeed(c, 1) == (false, c)
    ensures c.speed == Slow ==> ChangeSpeed(c, -1) == (false, c)
    ensures c.speed == Normal ==> ChangeSpeed(c, 1).1.timings == Timings(10, 20, 8)
    ensures c.speed == Normal ==> ChangeSpeed(c, -1).1.timings == Timings(60, 90, 30)
  {
  }

  // ---------------------------------------------------------------------
  // The roll animation

  /** Before the roll duration is reached a frame only advances the roll
      timer: the game, and so `rolls_used`, stay as they were. */
  lemma {:induction false} RollingTicks(c: Coordinator, choose: GameState -> Action, rolls: seq<seq<int>>)
    requires Wf(c) && AllValid(rolls)
    requires c.isRolling && !c.turnTransition
    requires c.rollTimer + |rolls| < c.timings.rollDuration
    ensures Ticks(c, choose, rolls) == c.(rollTimer := c.rollTimer + |rolls|)
    decreases |rolls|
  {
    if |rolls| > 0 {
      AllValidTail(rolls);
      assert Tick(c, choose, rolls[0]) == c.(rollTimer := c.rollTimer + 1);
      RollingTicks(c.(rollTimer := c.rollTimer + 1), choose, rolls[1..]);
    }
  }

  /** The pending roll is committed, and logged with its roll number, on
      exactly the frame the roll timer reaches the roll duration. */
  lemma {:induction false} RollCommitsOnTime(c: Coordinator, choose: GameState -> Action, rolls: seq<seq<int>>)
    requires Wf(c) && AllValid(rolls) && |rolls| >= 1
    requires c.isRolling && !c.turnTransition && c.pending.Some?
    requires c.rollTimer + |rolls| == c.timings.rollDuration
    ensures var g := c.pending.value;
      Ticks(c, choose, rolls) == c.(rollTimer := c.timings.rollDuration, game := g, isRolling := false,
        log := LogRoll(c.log, CurrentRound(g), PlayerIndex(g), RollsUsed(g), Values(GameDice(g))))
    decreases |rolls|
  {
    AllValidTail(rolls);
    if |rolls| > 1 {
      assert Tick(c, choose, rolls[0]) == c.(rollTimer := c.rollTimer + 1);
      RollCommitsOnTime(c.(rollTimer := c.rollTimer + 1), choose, rolls[1..]);
    }
  }

  /** A roll the player starts shows its result after exactly the roll
      duration: one frame earlier the game is untouched, on that frame it
      holds the rolled dice and one more roll used. */
  lemma RollLifecycle(c: Coordinator, faces: seq<int>, choose: GameState -> Action, rolls: seq<seq<int>>)
    requires Wf(c) && ValidFaces(faces) && AllValid(rolls)
    requires CanRollNow(c) && !c.turnTransition
    requires 1 <= |rolls| <= c.timings.rollDuration
    ensures var r := Ticks(RollDiceAction(c, faces), choose, rolls);
      && (|rolls| < c.timings.rollDuration ==> r.isRolling && r.game == c.game)
      && (|rolls| == c.timings.rollDuration ==>
            !r.isRolling && r.game == GameRoll(c.game, faces) && RollsUsed(r.game) == RollsUsed(c.game) + 1)
  {
    var d := RollDiceAction(c, faces);
    if |rolls| < c.timings.rollDuration {
      RollingTicks(d, choose, rolls);
    } else {
      RollCommitsOnTime(d, choose, rolls);
    }
  }

  // ---------------------------------------------------------------------
  // The turn transition

  /** While the transition is up and its duration not reached, a frame
      only advances its timer. */
  lemma {:induction false} TransitionWaits(c: Coordinator, choose: GameState -> Action, rolls: seq<seq<int>>)
    requires Wf(c) && AllValid(rolls)
    requires c.turnTransition && c.turnTransitionTimer + |rolls| < TransitionDuration
    ensures Ticks(c, choose, rolls) == c.(turnTransitionTimer := c.turnTransitionTimer + |rolls|)
    decreases |rolls|
  {
    if |rolls| > 0 {
      AllValidTail(rolls);
      assert Tick(c, choose, rolls[0]) == c.(turnTransitionTimer := c.turnTransitionTimer + 1);
      TransitionWaits(c.(turnTransitionTimer := c.turnTransitionTimer + 1), choose, rolls[1..]);
    }
  }

  /** The transition goes down on the frame its timer reaches the
      transition duration, and nothing else changes. */
  lemma {:induction false} TransitionEnds(c: Coordinator, choose: GameState -> Action, rolls: seq<seq<int>>)
    requires Wf(c) && AllValid(rolls) && |rolls| >= 1
    requires c.turnTransition && c.turnTransitionTimer + |rolls| == TransitionDuration
    ensures Ticks(c, choose, rolls) == c.(turnTransitionTimer := TransitionDuration, turnTransition := false)
    decreases |rolls|
  {
    AllValidTail(rolls);
    if |rolls| > 1 {
      assert Tick(c, choose, rolls[0]) == c.(turnTransitionTimer := c.turnTransitionTimer + 1);
      TransitionEnds(c.(turnTransitionTimer := c.turnTransitionTimer + 1), choose, rolls[1..]);
    }
  }

  // ---------------------------------------------------------------------
  // The AI's hold-show pause

  /** Before the hold-show duration is reached a frame only advances the
      pause timer. */
  lemma {:induction false} HoldShowWaits(c: Coordinator, choose: GameState -> Action, rolls: seq<seq<int>>)
    requires Wf(c) && AllValid(rolls)
    requires c.aiShowingHolds && !c.isRolling && !c.turnTransition
    requires c.aiHoldTimer + |rolls| < c.timings.holdShow
    ensures Ticks(c, choose, rolls) == c.(aiHoldTimer := c.aiHoldTimer + |rolls|)
    decreases |rolls|
  {
    if |rolls| > 0 {
      AllValidTail(rolls);
      HoldShowWaitFrame(c, choose, rolls[0]);
      HoldShowWaits(c.(aiHoldTimer := c.aiHoldTimer + 1), choose, rolls[1..]);
    }
  }

  /** The pause before an AI roll ends, and the roll starts with the faces
      of that frame, on exactly the frame the pause timer reaches the
      hold-show duration. */
  lemma {:induction false} HoldShowEnds(c: Coordinator, choose: GameState -> Action, rolls: seq<seq<int>>)
    requires Wf(c) && AllValid(rolls) && |rolls| >= 1
    requires c.aiShowingHolds && !c.isRolling && !c.turnTransition
    requires c.aiHoldTimer + |rolls| == c.timings.holdShow
    ensures Ticks(c, choose, rolls) ==
      RollDiceAction(c.(aiHoldTimer := c.timings.holdShow, aiShowingHolds := false), rolls[|rolls| - 1])
    decreases |rolls|
  {
    AllValidTail(rolls);
    if |rolls| > 1 {
      var d := c.(aiHoldTimer := c.aiHoldTimer + 1);
      HoldShowWaitFrame(c, choose, rolls[0]);
      assert Ticks(c, choose, rolls) == Ticks(d, choose, rolls[1..]);
      HoldShowEnds(d, choose, rolls[1..]);
      assert rolls[1..][|rolls| - 2] == rolls[|rolls| - 1];
    } else {
      HoldShowLastFrame(c, choose, rolls[0]);
      assert Ticks(c, choose, rolls) == Tick(c, choose, rolls[0]);
    }
  }

  lemma HoldShowWaitFrame(c: Coordinator, choose: GameState -> Action, faces: seq<int>)
    requires Wf(c) && ValidFaces(faces)
    requires c.aiShowingHolds && !c.isRolling && !c.turnTransition
    requires c.aiHoldTimer + 1 < c.timings.holdShow
    ensures Tick(c, choose, faces) == c.(aiHoldTimer := c.aiHoldTimer + 1)
  {
  }

  lemma HoldShowLastFrame(c: Coordinator, choose: GameState -> Action, faces: seq<int>)
    requires Wf(c) && ValidFaces(faces)
    requires c.aiShowingHolds && !c.isRolling && !c.turnTransition
    requires c.aiHoldTimer + 1 == c.timings.holdShow
    ensures Tick(c, choose, faces) ==
      RollDiceAction(c.(aiHoldTimer := c.timings.holdShow, aiShowingHolds := false), faces)
  {
  }

  // ---------------------------------------------------------------------
  // Undo

  /** Taking back a hold toggle restores the coordinator exactly. */
  lemma UndoToggle(c: Coordinator, i: int)
    requires Wf(c) && IsCurrentHuman(c) && !c.isRolling && !c.turnTransition && !GameOver(c.game)
    ensures Undo(ToggleHold(c, i)) == (true, c)
  {
    var t := ToggleHold(c, i);
    assert t.undo == c.undo + [Snap(c)];
    assert t.undo[..|t.undo| - 1] == c.undo;
    assert c.log[..|c.log|] == c.log;
  }

  /** Undo is last in, first out: two toggles are taken back newest
      first. */
  lemma UndoTwice(c: Coordinator, i: int, j: int)
    requires Wf(c) && IsCurrentHuman(c) && !c.isRolling && !c.turnTransition && !GameOver(c.game)
    ensures var once := ToggleHold(c, i);
      Undo(ToggleHold(once, j)) == (true, once) && Undo(once) == (true, c)
  {
    var once := ToggleHold(c, i);
    UndoToggle(c, i);
    UndoToggle(once, j);
  }

  /** In a single-player game a scoring can be taken back (the undo stack
      survives the scoring) while the game goes on: card, dice and log
      return to what they were; only the score animation's category
      remains. */
  lemma UndoScoreSingle(c: Coordinator, cat: Category)
    requires Wf(c) && c.game.Single? && IsCurrentHuman(c) && !c.isRolling && !c.turnTransition
    requires GameCanSelect(c.game, cat) && !GameOver(SelectCategoryAction(c, cat).1.game)
    ensures Undo(SelectCategoryAction(c, cat).1) == (true, c.(lastScored := Some(cat)))
  {
    var r := SelectCategoryAction(c, cat).1;
    assert r.undo == c.undo + [Snap(c)];
    assert r.undo[..|r.undo| - 1] == c.undo;
    assert r.log[..|c.log|] == c.log;
  }

  /** In a multiplayer game a scoring cannot be taken back: it empties the
      undo stack. */
  lemma NoUndoAcrossTurns(c: Coordinator, cat: Category)
    requires Wf(c) && c.game.Multi? && GameCanSelect(c.game, cat)
    ensures !CanUndo(SelectCategoryAction(c, cat).1)
  {
  }

  /** An AI's actions leave no snapshot behind. */
  lemma AiTurnPushesNothing(c: Coordinator, i: int, faces: seq<int>)
    requires Wf(c) && !IsCurrentHuman(c) && ValidFaces(faces)
    ensures ToggleHold(c, i).undo == c.undo && RollDiceAction(c, faces).undo == c.undo
  {
  }
}

/**
 * What the frontend adapter promises over several calls: keyboard
 * navigation steps back to where it came from, the zero-score dialog ends
 * in the same scoring as a direct choice, overlays close in order,
 * filters cycle, the final scores are saved once per game, and the
 * preferences on file follow every change.
 */
module FrontendProofs {
  import opened Options
  import opened Categories
  import opened Dice
  import opened Scorecards
  import opened Engine
  import opened Ai
  import opened Coordinators
  import Settings
  import ScoreHistory
  import opened Frontend

  // ---------------------------------------------------------------------
  // Keyboard navigation

  /** Stepping forward from an open row and back again returns to it. */
  lemma NextThenPrev(sc: Scorecard, i: int, k: int, p: int)
    requires OpenAt(sc, i) && IsNextOpen(sc, i, k) && IsPrevOpen(sc, k, p)
    ensures p == i
  {
    assert OpenAt(sc, p);
    if OpenAbove(sc, i) {
      assert OpenBelow(sc, k) by { assert OpenAt(sc, i) && i < k; }
      assert i <= p;
      assert p <= i;
    } else {
      assert !OpenBelow(sc, k);
      assert i <= p;
      assert p <= i;
    }
  }

  /** Stepping back from an open row and forward again returns to it. */
  lemma PrevThenNext(sc: Scorecard, i: int, p: int, k: int)
    requires OpenAt(sc, i) && IsPrevOpen(sc, i, p) && IsNextOpen(sc, p, k)
    ensures k == i
  {
    assert OpenAt(sc, k);
    if OpenBelow(sc, i) {
      assert OpenAbove(sc, p) by { assert OpenAt(sc, i) && p < i; }
      assert k <= i;
      assert i <= k;
    } else {
      assert !OpenAbove(sc, p);
      assert k <= i;
      assert i <= k;
    }
  }

  /** Navigation is cyclic both ways: one step forward and one back (or
      back and then forward) from an open row comes home. */
  lemma NavigateRoundTrip(a: Adapter, i: int)
    requires AdapterWf(a) && a.kbSelected == Some(i) && OpenAt(CurrentCard(a), i)
    ensures NavigateCategory(NavigateCategory(a, 1), -1).kbSelected == Some(i)
    ensures NavigateCategory(NavigateCategory(a, -1), 1).kbSelected == Some(i)
  {
    var sc := CurrentCard(a);
    assert OpenAbove(sc, -1) by { assert OpenAt(sc, i) && -1 < i; }
    var f := NavigateCategory(a, 1);
    var ff := NavigateCategory(f, -1);
    NextThenPrev(sc, i, f.kbSelected.value, ff.kbSelected.value);
    var b := NavigateCategory(a, -1);
    var bb := NavigateCategory(b, 1);
    PrevThenNext(sc, i, b.kbSelected.value, bb.kbSelected.value);
  }

  /** With nothing selected the first step lands on the first open row
      going forward and on the last one going back. */
  lemma NavigateFromNothing(a: Adapter)
    requires AdapterWf(a) && a.kbSelected.None? && OpenAbove(CurrentCard(a), -1)
    ensures var k := NavigateCategory(a, 1).kbSelected.value;
      OpenAt(CurrentCard(a), k) && forall j :: j < k ==> !OpenAt(CurrentCard(a), j)
    ensures var k := NavigateCategory(a, -1).kbSelected.value;
      OpenAt(CurrentCard(a), k) && forall j :: k < j ==> !OpenAt(CurrentCard(a), j)
  {
    var sc := CurrentCard(a);
    var j :| OpenAt(sc, j) && -1 < j;
    assert OpenBelow(sc, NumCategories) by { assert OpenAt(sc, j) && j < NumCategories; }
  }

  // ---------------------------------------------------------------------
  // The zero-score confirmation

  /** A zero score goes through the dialog: the first click only asks;
      "yes" then scores exactly as a direct choice would, and "no" leaves
      the adapter as it was. */
  lemma ZeroScoreFlow(a: Adapter, cat: Category)
    requires AdapterWf(a) && a.confirmZero.None?
    requires !IsFilled(CurrentCard(a), cat) && RollsUsed(a.coord.game) != 0 && ScoreNow(a, cat) == 0
    ensures var asked := TryScoreCategory(a, cat);
      && asked == (false, a.(confirmZero := Some(cat)))
      && ConfirmZeroYes(asked.1) == Commit(a, cat)
      && ConfirmZeroNo(asked.1) == a
  {
    var b := a.(confirmZero := Some(cat));
    assert TryScoreCategory(a, cat) == (false, b);
    assert b.(confirmZero := None) == a;
    assert ConfirmZeroYes(b) == Commit(a, cat);
  }

  /** Without a pending category "yes" does nothing. */
  lemma ConfirmWithoutPending(a: Adapter)
    requires AdapterWf(a) && a.confirmZero.None?
    ensures ConfirmZeroYes(a) == (false, a) && ConfirmZeroNo(a) == a
  {
  }

  /** An open, rolled, non-zero category is scored at once, with the same
      result as the coordinator's own scoring. */
  lemma NonZeroScoresAtOnce(a: Adapter, cat: Category)
    requires AdapterWf(a) && !GameOver(a.coord.game)
    requires !IsFilled(CurrentCard(a), cat) && RollsUsed(a.coord.game) > 0 && ScoreNow(a, cat) > 0
    ensures TryScoreCategory(a, cat) == (true, a.(coord := SelectCategoryAction(a.coord, cat).1, kbSelected := None))
  {
    assert GameCanSelect(a.coord.game, cat);
  }

  // ---------------------------------------------------------------------
  // Overlays

  /** Closing the top overlay right after opening help closes help and
      leaves the other overlays shut. */
  lemma HelpThenClose(a: Adapter)
    requires AdapterWf(a) && !a.coord.isRolling && !GameOver(a.coord.game) && !a.showingHelp
    ensures CloseTopOverlay(ToggleHelp(a)) ==
      (true, a.(showingHistory := false, showingReplay := false, kbSelected := None))
  {
  }

  /** Three presses of "close" shut every overlay, whichever were open. */
  lemma CloseThrice(a: Adapter)
    requires AdapterWf(a)
    ensures var r := CloseTopOverlay(CloseTopOverlay(CloseTopOverlay(a).1).1).1;
      !HasActiveOverlay(r)
  {
  }

  /** Opening and closing the history overlay puts the filters back on
      "all" and keeps replay shut. */
  lemma HistoryOpenClose(a: Adapter)
    requires AdapterWf(a) && !a.coord.isRolling && !GameOver(a.coord.game) && !a.showingHelp && !a.showingHistory
    ensures var r := ToggleHistory(ToggleHistory(a));
      r == a.(showingReplay := false, kbSelected := None, playerFilter := 0, modeFilter := 0)
      && PlayerFilterName(r) == "all" && ModeFilterName(r) == "all"
  {
  }

  // ---------------------------------------------------------------------
  // Filters

  lemma PlayerFilterStep(a: Adapter)
    requires AdapterWf(a)
    ensures CyclePlayerFilter(a) == a.(playerFilter := if a.playerFilter == 4 then 0 else a.playerFilter + 1)
  {
  }

  lemma ModeFilterStep(a: Adapter)
    requires AdapterWf(a)
    ensures CycleModeFilter(a) == a.(modeFilter := if a.modeFilter == 2 then 0 else a.modeFilter + 1)
  {
  }

  /** Cycling a filter through all its options comes back to where it
      started. */
  lemma FiltersCycle(a: Adapter)
    requires AdapterWf(a)
    ensures CyclePlayerFilter(CyclePlayerFilter(CyclePlayerFilter(CyclePlayerFilter(CyclePlayerFilter(a))))) == a
    ensures CycleModeFilter(CycleModeFilter(CycleModeFilter(a))) == a
  {
    var p1 := CyclePlayerFilter(a);
    PlayerFilterStep(a);
    var p2 := CyclePlayerFilter(p1);
    PlayerFilterStep(p1);
    var p3 := CyclePlayerFilter(p2);
    PlayerFilterStep(p2);
    var p4 := CyclePlayerFilter(p3);
    PlayerFilterStep(p3);
    PlayerFilterStep(p4);
    var m1 := CycleModeFilter(a);
    ModeFilterStep(a);
    var m2 := CycleModeFilter(m1);
    ModeFilterStep(m1);
    ModeFilterStep(m2);
  }

  /** From the last option a filter wraps to "all". */
  lemma FilterWraps(a: Adapter)
    requires AdapterWf(a)
    ensures PlayerFilterName(a) == "optimal" ==> PlayerFilterName(CyclePlayerFilter(a)) == "all"
    ensures ModeFilterName(a) == "multiplayer" ==> ModeFilterName(CycleModeFilter(a)) == "all"
  {
  }

  // ---------------------------------------------------------------------
  // Saving the final scores

  /** The scores are saved at most once per game: a second save changes
      nothing, whatever date it carries. */
  lemma SaveScoresOnce(a: Adapter, players: seq<Player>, d1: string, d2: string)
    requires AdapterWf(a) && |players| == NumPlayers(a.coord.game)
    ensures SaveScores(SaveScores(a, players, d1), players, d2) == SaveScores(a, players, d1)
  {
  }

  /** A single-player game's save appends its grand total under the
      player's type as the newest entry. */
  lemma SaveSingleEntry(a: Adapter, players: seq<Player>, date: string)
    requires AdapterWf(a) && a.coord.game.Single? && |players| == 1
    requires GameOver(a.coord.game) && !a.scoresSaved
    ensures var entries := ScoreHistory.LoadScores(SaveScores(a, players, date).scoresFile);
      |entries| > 0 &&
      entries[|entries| - 1] ==
        ScoreHistory.Entry(GrandTotal(CurrentCard(a)), if a.coord.ais[0] then players[0].strategyName else "human",
                           None, date, ScoreHistory.SingleMode)
  {
  }

  /** A multiplayer game's save ends the history with one entry per seat,
      in seat order, each the seat's grand total under its name and type. */
  lemma SaveMultiEntries(a: Adapter, players: seq<Player>, date: string)
    requires AdapterWf(a) && a.coord.game.Multi? && |players| == NumPlayers(a.coord.game)
    requires GameOver(a.coord.game) && !a.scoresSaved && |players| <= ScoreHistory.MaxEntries
    ensures var entries := ScoreHistory.LoadScores(SaveScores(a, players, date).scoresFile);
      var n := |entries|;
      n >= |players| &&
      forall i :: 0 <= i < |players| ==>
        entries[n - |players| + i] ==
          ScoreHistory.Entry(GrandTotal(a.coord.game.mp.scorecards[i]),
                             if a.coord.ais[i] then players[i].strategyName else "human",
                             Some(players[i].name), date, ScoreHistory.MultiplayerMode)
  {
    var results := Results(a.coord.game.mp.scorecards, players, a.coord.ais);
    ScoreHistory.RecordMultiplayerKeeps(a.scoresFile, results, date);
  }

  /** A reset saves a finished game that was not saved yet, never one that
      was, and re-arms the save for the next game. */
  lemma ResetSavesOnce(a: Adapter, players: seq<Player>, date: string, faces: seq<int>)
    requires AdapterWf(a) && |players| == NumPlayers(a.coord.game) && ValidFaces(faces)
    ensures var r := DoReset(a, players, date, faces);
      && (a.scoresSaved || !GameOver(a.coord.game) ==> r.scoresFile == a.scoresFile)
      && (!a.scoresSaved && GameOver(a.coord.game) ==> r.scoresFile == RecordFinal(a, players, date))
      && !r.scoresSaved && !GameOver(r.coord.game)
  {
  }

  // ---------------------------------------------------------------------
  // The frame update

  /** The game-over handling fires on one frame only: the frame after it
      reports no new game over. */
  lemma GameOverOnce(a: Adapter, choose: GameState -> Action, f1: seq<int>, f2: seq<int>, players: seq<Player>, date: string)
    requires AdapterWf(a) && ValidFaces(f1) && ValidFaces(f2) && |players| == |a.coord.ais|
    requires Update(a, choose, f1, players, date).0.gameOverTriggered
    ensures var b := Update(a, choose, f1, players, date).1;
      b.scoresSaved && !Update(b, choose, f2, players, date).0.gameOverTriggered
  {
    var c := Tick(a.coord, choose, f1);
    var b := AfterFrame(a, c, players, date);
    assert Update(a, choose, f1, players, date).1 == b;
    assert GameOver(c.game) && !a.gameOverSoundPlayed;
    assert b.scoresSaved && b.gameOverSoundPlayed;
    assert b.coord.ais == a.coord.ais;
    var c2 := Tick(b.coord, choose, f2);
    assert Update(b, choose, f2, players, date).0 == Detect(b.coord, c2, true);
  }

  /** An AI's scoring is reported: in a single-player game the AI plays, the
      frame that commits the previewed score on an open category reports
      `scored`. */
  lemma AiScoringReported(c: Coordinator, choose: GameState -> Action, faces: seq<int>, cat: Category)
    requires Wf(c) && ValidFaces(faces) && c.game.Single? && c.ais[0]
    requires !c.turnTransition && !c.isRolling && !c.aiShowingHolds && c.aiShowingScoreChoice
    requires c.aiScoreChoiceAction == Some(cat) && c.aiScoreChoiceTimer + 1 >= c.timings.holdShow
    requires GameCanSelect(c.game, cat)
    ensures Detect(c, Tick(c, choose, faces), false).scored
  {
  }

  function AdvanceFlashN(a: Adapter, n: nat): Adapter {
    if n == 0 then a else AdvanceFlash(AdvanceFlashN(a, n - 1))
  }

  /** A flash at timer `t` is still showing after `n` more frames exactly
      while `t + n` is below the flash duration, and its timer counts the
      frames. */
  lemma {:induction false} FlashLasts(a: Adapter, n: nat)
    requires a.flashCategory.Some? && a.flashTimer < FlashDuration && a.flashTimer + n <= FlashDuration
    ensures var r := AdvanceFlashN(a, n);
      && r.flashTimer == a.flashTimer + n
      && (r.flashCategory.Some? <==> a.flashTimer + n < FlashDuration)
      && (r.flashCategory.Some? ==> r.flashCategory == a.flashCategory)
  {
    if n > 0 {
      FlashLasts(a, n - 1);
      var r := AdvanceFlashN(a, n - 1);
      assert AdvanceFlashN(a, n) == AdvanceFlash(r);
    }
  }

  /** A score signal shows its category for the whole flash: it is set on
      the frame of the signal and gone exactly when the duration has
      passed. */
  lemma FlashShowsScore(b: Adapter, k: nat)
    requires AdapterWf(b) && b.coord.lastScored.Some? && 1 + k <= FlashDuration
    ensures var r := AdvanceFlashN(Settle(b), k);
      && r.flashTimer == 1 + k
      && (r.flashCategory.Some? <==> 1 + k < FlashDuration)
      && (r.flashCategory.Some? ==> r.flashCategory == b.coord.lastScored)
  {
    FlashLasts(Settle(b), k);
  }

  // ---------------------------------------------------------------------
  // Keyboard and mouse selection

  /** The keyboard selection and the hover are never set together. */
  predicate OneSelection(a: Adapter) {
    !(a.kbSelected.Some? && a.hovered.Some?)
  }

  /** Keyboard navigation and the mouse hover keep at most one selection. */
  lemma OneSelectionNavigateHover(a: Adapter, c: Category, direction: int)
    requires AdapterWf(a) && OneSelection(a)
    ensures OneSelection(NavigateCategory(a, direction))
    ensures OneSelection(SetHoveredCategory(a, c))
    ensures OneSelection(ClearHover(a))
  {
  }

  /** Scoring and opening overlays keep at most one selection. */
  lemma OneSelectionScoring(a: Adapter, c: Category)
    requires AdapterWf(a) && OneSelection(a)
    ensures OneSelection(TryScoreCategory(a, c).1)
    ensures OneSelection(ConfirmZeroYes(a).1)
  {
  }

  lemma OneSelectionOverlays(a: Adapter)
    requires AdapterWf(a) && OneSelection(a)
    ensures OneSelection(ToggleHelp(a)) && OneSelection(ToggleHistory(a))
  {
  }

  // ---------------------------------------------------------------------
  // Preferences

  /** After any change of preference the settings file reads back as the
      adapter's current preferences. */
  lemma PreferencesPersist(a: Adapter, direction: int)
    requires AdapterWf(a)
    ensures var r := ToggleColorblind(a); Settings.LoadSettings(r.settingsFile) == Preferences(r)
    ensures var r := ToggleDarkMode(a); Settings.LoadSettings(r.settingsFile) == Preferences(r)
    ensures var r := ToggleSound(a); Settings.LoadSettings(r.settingsFile) == Preferences(r)
    ensures var r := ChangeSpeedAction(a, direction);
      r.0 ==> Settings.LoadSettings(r.1.settingsFile) == Preferences(r.1)
  {
  }
}

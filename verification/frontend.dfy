/**
 * `frontend_adapter.py`: the UI state every frontend shares, wrapped
 * around a coordinator: the help, history and replay overlays, the
 * zero-score confirmation, keyboard navigation over the open categories,
 * the score flash, the history filters, the persisted preferences and
 * the once-per-game save of the final scores. The settings and scores
 * files are values held in the adapter.
 */
module Frontend {
  import opened Options
  import opened Categories
  import opened Dice
  import opened Scorecards
  import opened Engine
  import opened Ai
  import opened Coordinators
  import Settings
  import ScoreHistory

  /** `CATEGORY_ORDER`: the scorecard rows, in enum order. */
  const CategoryOrder: seq<Category> := AllCategories

  /** `score_flash_duration`, in frames. */
  const FlashDuration: int := 30

  /** The history overlay's filter options; the first means no filter. */
  const PlayerFilters: seq<string> := ["all", "human", "greedy", "ev", "optimal"]
  const ModeFilters: seq<string> := ["all", "single", "multiplayer"]

  /** `FrontendAdapter`. A history filter is kept as its position in its
      option list. */
  datatype Adapter = Adapter(
    coord: Coordinator,
    showingHelp: bool,
    showingHistory: bool,
    showingReplay: bool,
    confirmZero: Option<Category>,
    kbSelected: Option<int>,
    hovered: Option<Category>,
    flashCategory: Option<Category>,
    flashTimer: int,
    colorblindMode: bool,
    darkMode: bool,
    soundEnabled: bool,
    playerFilter: nat,
    modeFilter: nat,
    gameOverSoundPlayed: bool,
    scoresSaved: bool,
    settingsFile: Settings.Stored,
    scoresFile: ScoreHistory.Stored)

  predicate AdapterWf(a: Adapter) {
    Wf(a.coord) && a.playerFilter < |PlayerFilters| && a.modeFilter < |ModeFilters|
  }

  /** `FrontendAdapter(coordinator)`: no overlay, nothing selected, no
      flash, both filters on "all", colours and sound off. */
  function NewAdapter(c: Coordinator, settingsFile: Settings.Stored, scoresFile: ScoreHistory.Stored): (a: Adapter)
    requires Wf(c)
    ensures AdapterWf(a) && a.coord == c && !HasActiveOverlay(a) && !IsInputBlocked(a)
    ensures a.kbSelected.None? && a.hovered.None? && a.flashCategory.None?
    ensures PlayerFilterName(a) == "all" && ModeFilterName(a) == "all"
    ensures !a.gameOverSoundPlayed && !a.scoresSaved
  {
    Adapter(c, false, false, false, None, None, None, None, 0, false, false, false, 0, 0,
            false, false, settingsFile, scoresFile)
  }

  function CurrentCard(a: Adapter): Scorecard
    requires AdapterWf(a)
  {
    View(a.coord.game).scorecard
  }

  /** `has_active_overlay`. */
  predicate HasActiveOverlay(a: Adapter) {
    a.showingHelp || a.showingHistory || a.showingReplay
  }

  /** `is_input_blocked`. */
  predicate IsInputBlocked(a: Adapter) {
    HasActiveOverlay(a) || a.confirmZero.Some?
  }

  function PlayerFilterName(a: Adapter): string
    requires AdapterWf(a)
  {
    PlayerFilters[a.playerFilter]
  }

  function ModeFilterName(a: Adapter): string
    requires AdapterWf(a)
  {
    ModeFilters[a.modeFilter]
  }

  // ---------------------------------------------------------------------
  // Overlays

  /** `toggle_help`: refused while rolling or after the game; opening help
      closes the other overlays and drops the keyboard selection. */
  function ToggleHelp(a: Adapter): (r: Adapter)
    requires AdapterWf(a)
    ensures AdapterWf(r)
    ensures a.coord.isRolling || GameOver(a.coord.game) ==> r == a
    ensures !a.coord.isRolling && !GameOver(a.coord.game) ==>
      r.showingHelp == !a.showingHelp &&
      if r.showingHelp then r == a.(showingHelp := true, showingHistory := false, showingReplay := false, kbSelected := None)
      else r == a.(showingHelp := false)
  {
    if a.coord.isRolling || GameOver(a.coord.game) then a
    else if !a.showingHelp then
      a.(showingHelp := true, showingHistory := false, showingReplay := false, kbSelected := None)
    else a.(showingHelp := false)
  }

  /** `toggle_history`: refused while rolling, after the game or under
      help; opening closes replay and drops the keyboard selection, closing
      puts both filters back on "all". */
  function ToggleHistory(a: Adapter): (r: Adapter)
    requires AdapterWf(a)
    ensures AdapterWf(r)
    ensures a.coord.isRolling || GameOver(a.coord.game) || a.showingHelp ==> r == a
    ensures !a.coord.isRolling && !GameOver(a.coord.game) && !a.showingHelp ==>
      r.showingHistory == !a.showingHistory &&
      if r.showingHistory then r == a.(showingHistory := true, showingReplay := false, kbSelected := None)
      else r == a.(showingHistory := false, playerFilter := 0, modeFilter := 0)
  {
    if a.coord.isRolling || GameOver(a.coord.game) || a.showingHelp then a
    else if !a.showingHistory then a.(showingHistory := true, showingReplay := false, kbSelected := None)
    else a.(showingHistory := false, playerFilter := 0, modeFilter := 0)
  }

  /** `toggle_replay`: only once the game is over. */
  function ToggleReplay(a: Adapter): (r: Adapter)
    requires AdapterWf(a)
    ensures AdapterWf(r)
    ensures r == if GameOver(a.coord.game) then a.(showingReplay := !a.showingReplay) else a
  {
    if !GameOver(a.coord.game) then a else a.(showingReplay := !a.showingReplay)
  }

  /** `close_top_overlay`: closes help, else replay, else history (putting
      the filters back on "all"); false, and no change, when none is
      open. */
  function CloseTopOverlay(a: Adapter): (res: (bool, Adapter))
    requires AdapterWf(a)
    ensures AdapterWf(res.1)
    ensures res.0 == HasActiveOverlay(a)
    ensures !res.0 ==> res.1 == a
    ensures a.showingHelp ==> res.1 == a.(showingHelp := false)
    ensures !a.showingHelp && a.showingReplay ==> res.1 == a.(showingReplay := false)
    ensures !a.showingHelp && !a.showingReplay && a.showingHistory ==>
      res.1 == a.(showingHistory := false, playerFilter := 0, modeFilter := 0)
  {
    if a.showingHelp then (true, a.(showingHelp := false))
    else if a.showingReplay then (true, a.(showingReplay := false))
    else if a.showingHistory then (true, a.(showingHistory := false, playerFilter := 0, modeFilter := 0))
    else (false, a)
  }

  // ---------------------------------------------------------------------
  // Scoring and the zero-score confirmation

  /** The score `cat` would take on the current dice and card. */
  function ScoreNow(a: Adapter, cat: Category): nat
    requires AdapterWf(a)
  {
    DiceFaces(GameDice(a.coord.game));
    ScoreInContext(cat, Values(GameDice(a.coord.game)), CurrentCard(a))
  }

  /** The coordinator scoring `cat`, and on success the keyboard selection
      dropped; no change when the coordinator refuses. */
  function Commit(a: Adapter, cat: Category): (res: (bool, Adapter))
    requires AdapterWf(a)
    ensures AdapterWf(res.1)
    ensures res.0 == GameCanSelect(a.coord.game, cat)
    ensures res.0 ==> res.1 == a.(coord := SelectCategoryAction(a.coord, cat).1, kbSelected := None)
    ensures !res.0 ==> res.1 == a
  {
    var (ok, c) := SelectCategoryAction(a.coord, cat);
    if ok then (true, a.(coord := c, kbSelected := None)) else (false, a)
  }

  /** `try_score_category`: refused for a filled category or before the
      first roll; a zero score only asks for confirmation; any other score
      is committed at once. */
  function TryScoreCategory(a: Adapter, cat: Category): (res: (bool, Adapter))
    requires AdapterWf(a)
    ensures AdapterWf(res.1)
    ensures IsFilled(CurrentCard(a), cat) || RollsUsed(a.coord.game) == 0 ==> res == (false, a)
    ensures !IsFilled(CurrentCard(a), cat) && RollsUsed(a.coord.game) != 0 && ScoreNow(a, cat) == 0 ==>
      res == (false, a.(confirmZero := Some(cat)))
    ensures res.0 ==> ScoreNow(a, cat) > 0 && res.1 == a.(coord := SelectCategoryAction(a.coord, cat).1, kbSelected := None)
    ensures res.1.coord != a.coord ==> res.0
  {
    if IsFilled(CurrentCard(a), cat) || RollsUsed(a.coord.game) == 0 then (false, a)
    else if ScoreNow(a, cat) == 0 then (false, a.(confirmZero := Some(cat)))
    else Commit(a, cat)
  }

  /** `confirm_zero_yes`: clears the pending category and scores it; false
      when none was pending. */
  function ConfirmZeroYes(a: Adapter): (res: (bool, Adapter))
    requires AdapterWf(a)
    ensures AdapterWf(res.1) && res.1.confirmZero.None?
    ensures a.confirmZero.None? ==> res == (false, a)
    ensures a.confirmZero.Some? ==> res == Commit(a.(confirmZero := None), a.confirmZero.value)
  {
    if a.confirmZero.None? then (false, a)
    else Commit(a.(confirmZero := None), a.confirmZero.value)
  }

  /** `confirm_zero_no`. */
  function ConfirmZeroNo(a: Adapter): (r: Adapter)
    ensures r.confirmZero.None? && r == a.(confirmZero := None)
  {
    a.(confirmZero := None)
  }

  // ---------------------------------------------------------------------
  // Keyboard navigation

  /** Row `i` of the scorecard is still open. */
  predicate OpenAt(sc: Scorecard, i: int) {
    0 <= i < |CategoryOrder| && !IsFilled(sc, CategoryOrder[i])
  }

  ghost predicate OpenAbove(sc: Scorecard, cur: int) {
    exists j :: OpenAt(sc, j) && cur < j
  }

  ghost predicate OpenBelow(sc: Scorecard, cur: int) {
    exists j :: OpenAt(sc, j) && j < cur
  }

  /** `k` is the open row after `cur`, wrapping round to the first open
      row. */
  ghost predicate IsNextOpen(sc: Scorecard, cur: int, k: int) {
    && OpenAt(sc, k)
    && (OpenAbove(sc, cur) ==> cur < k && forall j :: cur < j < k ==> !OpenAt(sc, j))
    && (!OpenAbove(sc, cur) ==> forall j :: j < k ==> !OpenAt(sc, j))
  }

  /** `k` is the open row before `cur`, wrapping round to the last open
      row. */
  ghost predicate IsPrevOpen(sc: Scorecard, cur: int, k: int) {
    && OpenAt(sc, k)
    && (OpenBelow(sc, cur) ==> k < cur && forall j :: k < j < cur ==> !OpenAt(sc, j))
    && (!OpenBelow(sc, cur) ==> forall j :: k < j ==> !OpenAt(sc, j))
  }

  predicate Increasing(s: seq<int>) {
    forall i, j :: 0 <= i < j < |s| ==> s[i] < s[j]
  }

  lemma ConsIncreasing(x: int, s: seq<int>)
    requires Increasing(s) && forall y :: y in s ==> x < y
    ensures Increasing([x] + s)
  {
    var r := [x] + s;
    forall i, j | 0 <= i < j < |r| ensures r[i] < r[j] {
      if i == 0 {
        assert r[j] == s[j - 1];
        assert s[j - 1] in s;
      }
    }
  }

  lemma IncreasingTail(s: seq<int>)
    requires Increasing(s) && |s| > 0
    ensures Increasing(s[1..]) && forall y :: y in s[1..] ==> s[0] < y
  {
    forall y | y in s[1..] ensures s[0] < y {
      var j :| 0 <= j < |s[1..]| && s[1..][j] == y;
      assert s[j + 1] == y;
    }
  }

  /** The first entry of an increasing list is its least, the last its
      greatest. */
  lemma IncreasingEnds(s: seq<int>)
    requires Increasing(s) && |s| > 0
    ensures forall y :: y in s ==> s[0] <= y <= s[|s| - 1]
  {
  }

  /** The open rows from row `k` on, ascending. */
  function UnfilledFrom(sc: Scorecard, k: nat): (u: seq<int>)
    requires k <= |CategoryOrder|
    ensures Increasing(u)
    ensures forall i :: i in u <==> k <= i && OpenAt(sc, i)
    decreases |CategoryOrder| - k
  {
    if k == |CategoryOrder| then []
    else
      var rest := UnfilledFrom(sc, k + 1);
      if OpenAt(sc, k) then
        ConsIncreasing(k, rest);
        [k] + rest
      else rest
  }

  /** The `unfilled` list of `navigate_category`. */
  function UnfilledRows(sc: Scorecard): (u: seq<int>)
    ensures Increasing(u)
    ensures forall i :: i in u <==> OpenAt(sc, i)
  {
    UnfilledFrom(sc, 0)
  }

  /** The entries of an increasing list above `cur`, in order. */
  function Above(u: seq<int>, cur: int): (r: seq<int>)
    requires Increasing(u)
    ensures Increasing(r)
    ensures forall x :: x in r <==> x in u && cur < x
  {
    if |u| == 0 then []
    else
      IncreasingTail(u);
      var rest := Above(u[1..], cur);
      if cur < u[0] then
        ConsIncreasing(u[0], rest);
        [u[0]] + rest
      else rest
  }

  /** The entries of an increasing list below `cur`, in order. */
  function Below(u: seq<int>, cur: int): (r: seq<int>)
    requires Increasing(u)
    ensures Increasing(r)
    ensures forall x :: x in r <==> x in u && x < cur
  {
    if |u| == 0 then []
    else
      IncreasingTail(u);
      var rest := Below(u[1..], cur);
      if u[0] < cur then
        ConsIncreasing(u[0], rest);
        [u[0]] + rest
      else rest
  }

  /** The row the keyboard moves to from `cur` (`None` for no selection). */
  function NextRow(u: seq<int>, cur: Option<int>, direction: int): (k: int)
    requires Increasing(u) && |u| > 0
    ensures k in u
  {
    if cur.None? then (if direction > 0 then u[0] else u[|u| - 1])
    else if direction > 0 then
      var c := Above(u, cur.value);
      if |c| > 0 then c[0] else u[0]
    else
      var c := Below(u, cur.value);
      if |c| > 0 then c[|c| - 1] else u[|u| - 1]
  }

  lemma NextRowForward(sc: Scorecard, cur: Option<int>, direction: int)
    requires direction > 0 && |UnfilledRows(sc)| > 0
    ensures IsNextOpen(sc, cur.GetOr(-1), NextRow(UnfilledRows(sc), cur, direction))
  {
    NextRowForwardIn(sc, UnfilledRows(sc), cur, direction);
  }

  lemma NextRowForwardIn(sc: Scorecard, u: seq<int>, cur: Option<int>, direction: int)
    requires direction > 0 && Increasing(u) && |u| > 0
    requires forall i :: i in u <==> OpenAt(sc, i)
    ensures IsNextOpen(sc, cur.GetOr(-1), NextRow(u, cur, direction))
  {
    IncreasingEnds(u);
    var c := Above(u, cur.GetOr(-1));
    if |c| > 0 {
      IncreasingEnds(c);
    } else {
      assert !OpenAbove(sc, cur.GetOr(-1));
    }
  }

  lemma NextRowBackward(sc: Scorecard, cur: Option<int>, direction: int)
    requires direction <= 0 && |UnfilledRows(sc)| > 0
    ensures IsPrevOpen(sc, cur.GetOr(NumCategories), NextRow(UnfilledRows(sc), cur, direction))
  {
    NextRowBackwardIn(sc, UnfilledRows(sc), cur, direction);
  }

  lemma NextRowBackwardIn(sc: Scorecard, u: seq<int>, cur: Option<int>, direction: int)
    requires direction <= 0 && Increasing(u) && |u| > 0
    requires forall i :: i in u <==> OpenAt(sc, i)
    ensures IsPrevOpen(sc, cur.GetOr(NumCategories), NextRow(u, cur, direction))
  {
    IncreasingEnds(u);
    var c := Below(u, cur.GetOr(NumCategories));
    if |c| > 0 {
      IncreasingEnds(c);
    } else {
      assert !OpenBelow(sc, cur.GetOr(NumCategories));
    }
  }

  lemma NextRowSpec(sc: Scorecard, cur: Option<int>, direction: int)
    requires |UnfilledRows(sc)| > 0
    ensures direction > 0 ==> IsNextOpen(sc, cur.GetOr(-1), NextRow(UnfilledRows(sc), cur, direction))
    ensures direction <= 0 ==> IsPrevOpen(sc, cur.GetOr(NumCategories), NextRow(UnfilledRows(sc), cur, direction))
  {
    if direction > 0 {
      NextRowForward(sc, cur, direction);
    } else {
      NextRowBackward(sc, cur, direction);
    }
  }

  /** `navigate_category`: a no-op when every row is filled; otherwise the
      selection moves to the next open row (forward) or the previous one
      (backward), wrapping round, starting from the first or last open row
      when nothing is selected; the hover is cleared. */
  function NavigateCategory(a: Adapter, direction: int): (r: Adapter)
    requires AdapterWf(a)
    ensures AdapterWf(r) && r.coord == a.coord
    ensures (forall j :: !OpenAt(CurrentCard(a), j)) ==> r == a
    ensures OpenAt(CurrentCard(a), r.kbSelected.GetOr(-1)) ==>
      r == a.(kbSelected := r.kbSelected, hovered := None)
    ensures OpenAbove(CurrentCard(a), -1) ==>
      && r.kbSelected.Some?
      && (direction > 0 ==> IsNextOpen(CurrentCard(a), a.kbSelected.GetOr(-1), r.kbSelected.value))
      && (direction <= 0 ==> IsPrevOpen(CurrentCard(a), a.kbSelected.GetOr(NumCategories), r.kbSelected.value))
  {
    var sc := CurrentCard(a);
    var u := UnfilledRows(sc);
    if |u| == 0 then a
    else
      var k := NextRow(u, a.kbSelected, direction);
      NextRowSpec(sc, a.kbSelected, direction);
      a.(kbSelected := Some(k), hovered := None)
  }

  /** `set_hovered_category`: the mouse takes over from the keyboard. */
  function SetHoveredCategory(a: Adapter, c: Category): (r: Adapter)
    ensures r.hovered == Some(c) && r.kbSelected.None?
    ensures r == a.(hovered := r.hovered, kbSelected := r.kbSelected)
  {
    a.(hovered := Some(c), kbSelected := None)
  }

  /** `clear_hover`. */
  function ClearHover(a: Adapter): (r: Adapter)
    ensures r.hovered.None? && r == a.(hovered := None)
  {
    a.(hovered := None)
  }

  // ---------------------------------------------------------------------
  // History filters

  /** `cycle_player_filter`: the next option, wrapping round. */
  function CyclePlayerFilter(a: Adapter): (r: Adapter)
    requires AdapterWf(a)
    ensures AdapterWf(r) && r == a.(playerFilter := r.playerFilter)
    ensures PlayerFilterName(r) == PlayerFilters[(a.playerFilter + 1) % |PlayerFilters|]
  {
    a.(playerFilter := (a.playerFilter + 1) % |PlayerFilters|)
  }

  /** `cycle_mode_filter`: the next option, wrapping round. */
  function CycleModeFilter(a: Adapter): (r: Adapter)
    requires AdapterWf(a)
    ensures AdapterWf(r) && r == a.(modeFilter := r.modeFilter)
    ensures ModeFilterName(r) == ModeFilters[(a.modeFilter + 1) % |ModeFilters|]
  {
    a.(modeFilter := (a.modeFilter + 1) % |ModeFilters|)
  }

  // ---------------------------------------------------------------------
  // Preferences

  function SpeedName(sp: Speed): string {
    match sp
    case Slow => "slow"
    case Normal => "normal"
    case Fast => "fast"
  }

  /** The dictionary `_save_settings` writes. */
  function Preferences(a: Adapter): (p: Settings.Prefs)
    ensures p.Keys == Settings.Defaults.Keys
  {
    map["colorblind_mode" := Settings.Bool(a.colorblindMode),
        "sound_enabled" := Settings.Bool(a.soundEnabled),
        "speed" := Settings.Text(SpeedName(a.coord.speed)),
        "dark_mode" := Settings.Bool(a.darkMode)]
  }

  /** `_save_settings`. */
  function SavePreferences(a: Adapter): (r: Adapter)
    ensures r == a.(settingsFile := r.settingsFile)
    ensures Settings.LoadSettings(r.settingsFile) == Preferences(a)
  {
    Settings.SaveLoadRoundTrip(a.settingsFile, Preferences(a));
    a.(settingsFile := Settings.SaveSettings(a.settingsFile, Preferences(a), true))
  }

  /** `toggle_colorblind`. */
  function ToggleColorblind(a: Adapter): (r: Adapter)
    ensures r.colorblindMode == !a.colorblindMode
    ensures r == a.(colorblindMode := r.colorblindMode, settingsFile := r.settingsFile)
  {
    SavePreferences(a.(colorblindMode := !a.colorblindMode))
  }

  /** `toggle_dark_mode`. */
  function ToggleDarkMode(a: Adapter): (r: Adapter)
    ensures r.darkMode == !a.darkMode
    ensures r == a.(darkMode := r.darkMode, settingsFile := r.settingsFile)
  {
    SavePreferences(a.(darkMode := !a.darkMode))
  }

  /** `toggle_sound`. */
  function ToggleSound(a: Adapter): (r: Adapter)
    ensures r.soundEnabled == !a.soundEnabled
    ensures r == a.(soundEnabled := r.soundEnabled, settingsFile := r.settingsFile)
  {
    SavePreferences(a.(soundEnabled := !a.soundEnabled))
  }

  /** `change_speed`: the preferences are saved only when the speed
      changed. */
  function ChangeSpeedAction(a: Adapter, direction: int): (res: (bool, Adapter))
    requires AdapterWf(a)
    ensures AdapterWf(res.1)
    ensures res.0 == ChangeSpeed(a.coord, direction).0
    ensures !res.0 ==> res.1 == a
    ensures res.0 ==> res.1 == a.(coord := ChangeSpeed(a.coord, direction).1, settingsFile := res.1.settingsFile)
  {
    var (ok, c) := ChangeSpeed(a.coord, direction);
    if ok then (true, SavePreferences(a.(coord := c))) else (false, a)
  }

  // ---------------------------------------------------------------------
  // Game actions

  /** `do_roll`: true when a roll is animating afterwards. */
  function DoRoll(a: Adapter, faces: seq<int>): (res: (bool, Adapter))
    requires AdapterWf(a) && ValidFaces(faces)
    ensures AdapterWf(res.1) && res.1 == a.(coord := RollDiceAction(a.coord, faces))
    ensures CanRollNow(a.coord) ==> res.0
    ensures !CanRollNow(a.coord) ==> res.0 == a.coord.isRolling
  {
    var c := RollDiceAction(a.coord, faces);
    (c.isRolling, a.(coord := c))
  }

  /** `do_hold`. */
  function DoHold(a: Adapter, i: int): (r: Adapter)
    requires AdapterWf(a)
    ensures AdapterWf(r) && r == a.(coord := ToggleHold(a.coord, i))
  {
    a.(coord := ToggleHold(a.coord, i))
  }

  /** `do_undo`. */
  function DoUndo(a: Adapter): (res: (bool, Adapter))
    requires AdapterWf(a)
    ensures AdapterWf(res.1) && res.0 == CanUndo(a.coord)
    ensures res.1 == a.(coord := Undo(a.coord).1)
  {
    var (ok, c) := Undo(a.coord);
    (ok, a.(coord := c))
  }

  // ---------------------------------------------------------------------
  // Saving the final scores

  /** A seat's entry of `player_configs`: the player's name and the name a
      strategy playing the seat is recorded under (its class name without
      `Strategy`, lower-cased). Whether a strategy plays the seat is the
      coordinator's `ais`. */
  datatype Player = Player(name: string, strategyName: string)

  /** The player type a seat's score is recorded under: `"human"` when no
      strategy plays it, the strategy's name otherwise. */
  function PlayerType(p: Player, ai: bool): (t: string)
    ensures !ai ==> t == "human"
    ensures ai ==> t == p.strategyName
  {
    if ai then p.strategyName else "human"
  }

  /** The coordinator's `all_scorecards`. */
  function Cards(g: Game): (cards: seq<Scorecard>)
    requires GameWf(g)
    ensures |cards| == NumPlayers(g)
  {
    match g
    case Single(s) => [s.scorecard]
    case Multi(m) => m.scorecards
  }

  function Results(cards: seq<Scorecard>, players: seq<Player>, ais: seq<bool>): (r: seq<ScoreHistory.PlayerResult>)
    requires |cards| == |players| == |ais|
    ensures |r| == |players|
    ensures forall i :: 0 <= i < |r| ==>
      r[i] == ScoreHistory.PlayerResult(players[i].name, GrandTotal(cards[i]), PlayerType(players[i], ais[i]))
  {
    seq(|players|, i requires 0 <= i < |players| =>
      ScoreHistory.PlayerResult(players[i].name, GrandTotal(cards[i]), PlayerType(players[i], ais[i])))
  }

  /** What saving the final scores writes: one single-player entry, or one
      entry per seat. */
  function RecordFinal(a: Adapter, players: seq<Player>, date: string): (f: ScoreHistory.Stored)
    requires AdapterWf(a) && |players| == NumPlayers(a.coord.game)
    ensures f.EntryList?
  {
    match a.coord.game
    case Single(s) =>
      ScoreHistory.RecordScore(a.scoresFile, GrandTotal(s.scorecard), PlayerType(players[0], a.coord.ais[0]), date)
    case Multi(m) =>
      ScoreHistory.RecordMultiplayerScores(a.scoresFile, Results(m.scorecards, players, a.coord.ais), date)
  }

  /** `_save_scores`: records the finished game's grand totals once; a
      second call, or a call before the game is over, changes nothing. */
  function SaveScores(a: Adapter, players: seq<Player>, date: string): (r: Adapter)
    requires AdapterWf(a) && |players| == NumPlayers(a.coord.game)
    ensures AdapterWf(r) && r.coord == a.coord
    ensures a.scoresSaved || !GameOver(a.coord.game) ==> r == a
    ensures !a.scoresSaved && GameOver(a.coord.game) ==>
      r == a.(scoresSaved := true, scoresFile := RecordFinal(a, players, date))
    ensures GameOver(a.coord.game) ==> r.scoresSaved
  {
    if a.scoresSaved || !GameOver(a.coord.game) then a
    else a.(scoresSaved := true, scoresFile := RecordFinal(a, players, date))
  }

  /** `do_reset`: saves a finished game's scores if that has not happened
      yet, starts a fresh game on the coordinator and re-arms the
      game-over handling. */
  function DoReset(a: Adapter, players: seq<Player>, date: string, faces: seq<int>): (r: Adapter)
    requires AdapterWf(a) && |players| == NumPlayers(a.coord.game) && ValidFaces(faces)
    ensures AdapterWf(r)
    ensures r.coord == ResetGame(a.coord, faces)
    ensures r.scoresFile == SaveScores(a, players, date).scoresFile
    ensures !r.scoresSaved && !r.gameOverSoundPlayed && !r.showingReplay
    ensures r.confirmZero.None? && r.kbSelected.None?
  {
    var b := SaveScores(a, players, date);
    b.(coord := ResetGame(b.coord, faces), gameOverSoundPlayed := false, scoresSaved := false,
       showingReplay := false, confirmZero := None, kbSelected := None)
  }

  // ---------------------------------------------------------------------
  // The frame update

  /** The events `update` reports. */
  datatype Events = Events(rollStarted: bool, rollEnded: bool, scored: bool, gameOverTriggered: bool)

  /** Takes the coordinator's "just scored" signal: the flash starts on
      that category and the keyboard selection and pending confirmation
      are dropped. */
  function ConsumeScoreSignal(a: Adapter): (r: Adapter)
    requires AdapterWf(a)
    ensures AdapterWf(r) && r.coord.lastScored.None?
    ensures a.coord.lastScored.None? ==> r == a
    ensures a.coord.lastScored.Some? ==>
      r == a.(coord := a.coord.(lastScored := None), flashCategory := a.coord.lastScored, flashTimer := 0,
              kbSelected := None, confirmZero := None)
  {
    if a.coord.lastScored.Some? then
      a.(coord := a.coord.(lastScored := None), flashCategory := a.coord.lastScored, flashTimer := 0,
         kbSelected := None, confirmZero := None)
    else a
  }

  /** One frame of the score flash: it ends when its timer reaches the
      flash duration. */
  function AdvanceFlash(a: Adapter): (r: Adapter)
    ensures a.flashCategory.None? ==> r == a
    ensures a.flashCategory.Some? ==>
      r == a.(flashTimer := a.flashTimer + 1, flashCategory := r.flashCategory) &&
      (r.flashCategory.Some? <==> a.flashTimer + 1 < FlashDuration) &&
      (r.flashCategory.Some? ==> r.flashCategory == a.flashCategory)
  {
    if a.flashCategory.None? then a
    else
      var t := a.flashTimer + 1;
      a.(flashTimer := t, flashCategory := if t >= FlashDuration then None else a.flashCategory)
  }

  /** The game-over handling of `update`, once per game: the flag is set
      and the scores saved. */
  function OnGameOver(a: Adapter, players: seq<Player>, date: string): (r: Adapter)
    requires AdapterWf(a) && |players| == NumPlayers(a.coord.game)
    ensures AdapterWf(r) && r.coord == a.coord
    ensures !(GameOver(a.coord.game) && !a.gameOverSoundPlayed) ==> r == a
    ensures GameOver(a.coord.game) && !a.gameOverSoundPlayed ==>
      r == SaveScores(a.(gameOverSoundPlayed := true), players, date) && r.scoresSaved
  {
    if GameOver(a.coord.game) && !a.gameOverSoundPlayed then
      SaveScores(a.(gameOverSoundPlayed := true), players, date)
    else a
  }

  /** The end of `update`: the score signal taken and the flash advanced. */
  function Settle(b: Adapter): (r: Adapter)
    requires AdapterWf(b)
    ensures AdapterWf(r) && r.coord == b.coord.(lastScored := None)
    ensures r.gameOverSoundPlayed == b.gameOverSoundPlayed && r.scoresSaved == b.scoresSaved
    ensures b.coord.lastScored.Some? ==> r.flashCategory == b.coord.lastScored && r.flashTimer == 1
  {
    AdvanceFlash(ConsumeScoreSignal(b))
  }

  /** The events of a frame in which the coordinator moved from `before`
      to `c`; `played` says whether the game-over handling already ran. */
  function Detect(before: Coordinator, c: Coordinator, played: bool): (e: Events)
    requires Wf(c)
    ensures e.rollStarted <==> c.isRolling && !before.isRolling
    ensures e.rollEnded <==> before.isRolling && !c.isRolling
    ensures e.gameOverTriggered <==> GameOver(c.game) && !played
    ensures e.scored ==> !IsCurrentHuman(c)
  {
    var scored := !IsCurrentHuman(c) && (CurrentRound(c.game) != CurrentRound(before.game) || (GameOver(c.game) && !GameOver(before.game)));
    Events(c.isRolling && !before.isRolling, before.isRolling && !c.isRolling, scored, GameOver(c.game) && !played)
  }

  /** The adapter after a frame in which the coordinator moved to `c`. */
  function AfterFrame(a: Adapter, c: Coordinator, players: seq<Player>, date: string): (r: Adapter)
    requires AdapterWf(a) && Wf(c) && |players| == |c.ais|
    ensures AdapterWf(r)
    ensures r.coord == c.(lastScored := None)
    ensures GameOver(c.game) ==> r.gameOverSoundPlayed
    ensures GameOver(c.game) && !a.gameOverSoundPlayed ==> r.scoresSaved
    ensures c.lastScored.Some? ==> r.flashCategory == c.lastScored && r.flashTimer == 1
  {
    Settle(OnGameOver(a.(coord := c), players, date))
  }

  /** `update`: one coordinator frame, then the events it produced, the
      once-per-game game-over handling, the score signal and the flash. */
  function Update(a: Adapter, choose: GameState -> Action, faces: seq<int>, players: seq<Player>, date: string)
    : (res: (Events, Adapter))
    requires AdapterWf(a) && ValidFaces(faces) && |players| == |a.coord.ais|
    ensures AdapterWf(res.1)
    ensures var c := Tick(a.coord, choose, faces);
      && res.0 == Detect(a.coord, c, a.gameOverSoundPlayed)
      && res.1 == AfterFrame(a, c, players, date)
    ensures var c := Tick(a.coord, choose, faces);
      && res.1.coord == c.(lastScored := None) && res.1.coord.ais == a.coord.ais
      && (res.0.rollStarted <==> res.1.coord.isRolling && !a.coord.isRolling)
      && (res.0.rollEnded <==> a.coord.isRolling && !res.1.coord.isRolling)
      && (res.0.gameOverTriggered <==> GameOver(res.1.coord.game) && !a.gameOverSoundPlayed)
      && (res.0.gameOverTriggered ==> res.1.scoresSaved && res.1.gameOverSoundPlayed)
      && (GameOver(res.1.coord.game) ==> res.1.gameOverSoundPlayed)
      && (c.lastScored.Some? ==> res.1.flashCategory == c.lastScored && res.1.flashTimer == 1)
      && (res.0.scored ==> !IsCurrentHuman(c))
  {
    var c := Tick(a.coord, choose, faces);
    (Detect(a.coord, c, a.gameOverSoundPlayed), AfterFrame(a, c, players, date))
  }
}

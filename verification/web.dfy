/**
 * `web.py`: turning a client's JSON action into a call on the frontend
 * adapter. A message is a map from keys to JSON values; a command the
 * server does not know, or a malformed argument, leaves the adapter
 * alone.
 */
module Web {
  import opened Options
  import opened Categories
  import opened Dice
  import opened Ai
  import opened Coordinators
  import opened Frontend

  /** The JSON values a message field can hold; `JOther` is an array or an
      object. A JSON boolean counts as an integer for Python's
      `isinstance(x, int)`. */
  datatype Json = JInt(i: int) | JBool(b: bool) | JString(s: string) | JNull | JOther

  type Message = map<string, Json>

  /** The category with display name `name` among `cats`, the first one
      found. */
  function FindByName(cats: seq<Category>, name: string): (r: Option<Category>)
    ensures r.Some? ==> r.value in cats && Name(r.value) == name
    ensures r.None? ==> forall c :: c in cats ==> Name(c) != name
  {
    if |cats| == 0 then None
    else if Name(cats[0]) == name then Some(cats[0])
    else FindByName(cats[1..], name)
  }

  /** `_category_by_name`: exact, case-sensitive match on the display
      name. */
  function CategoryByName(name: string): (r: Option<Category>)
    ensures r.Some? ==> Name(r.value) == name
    ensures r.None? ==> forall c: Category :: Name(c) != name
  {
    AllCategoriesDistinct();
    FindByName(AllCategories, name)
  }

  /** Looking a category up by its own name finds it. */
  lemma CategoryByNameRoundTrip(c: Category)
    ensures CategoryByName(Name(c)) == Some(c)
  {
    var r := CategoryByName(Name(c));
    NamesInjective(r.value, c);
  }

  /** `action.get(key, default)`. */
  function Get(m: Message, key: string, default: Json): Json {
    if key in m then m[key] else default
  }

  /** The commands the server knows. */
  datatype Command =
    | Roll | Hold | Score | ConfirmYes | ConfirmNo | NavigateCmd | Hover | ClearHoverCmd
    | UndoCmd | Reset | HelpCmd | HistoryCmd | ReplayCmd | DarkModeCmd | ColorblindCmd
    | SoundCmd | SpeedUp | SpeedDown | PlayerFilterCmd | ModeFilterCmd

  /** Each command's name on the wire. */
  const CommandNames: seq<(string, Command)> := [
    ("roll", Roll), ("hold", Hold), ("score", Score), ("confirm_zero_yes", ConfirmYes),
    ("confirm_zero_no", ConfirmNo), ("navigate_category", NavigateCmd), ("hover", Hover),
    ("clear_hover", ClearHoverCmd), ("undo", UndoCmd), ("reset", Reset),
    ("toggle_help", HelpCmd), ("toggle_history", HistoryCmd), ("toggle_replay", ReplayCmd),
    ("toggle_dark_mode", DarkModeCmd), ("toggle_colorblind", ColorblindCmd),
    ("toggle_sound", SoundCmd), ("speed_up", SpeedUp), ("speed_down", SpeedDown),
    ("cycle_player_filter", PlayerFilterCmd), ("cycle_mode_filter", ModeFilterCmd)]

  /** No two entries of `table` share a name. */
  predicate NamesDistinct(table: seq<(string, Command)>) {
    forall i, j :: 0 <= i < j < |table| ==> table[i].0 != table[j].0
  }

  /** A name's length and first letter, which already tell the command
      names apart. */
  function NameKey(s: string): (int, char) {
    (|s|, if |s| > 0 then s[0] else ' ')
  }

  lemma CommandKeysDistinct()
    ensures forall i, j :: 0 <= i < j < |CommandNames| ==> NameKey(CommandNames[i].0) != NameKey(CommandNames[j].0)
  {
  }

  lemma CommandNamesDistinct()
    ensures NamesDistinct(CommandNames)
  {
    CommandKeysDistinct();
  }

  /** The command named `s` in `table`, the first entry that matches. */
  function Lookup(table: seq<(string, Command)>, s: string): (r: Option<Command>)
    ensures r.Some? ==> (s, r.value) in table
    ensures r.None? ==> forall p :: p in table ==> p.0 != s
  {
    if |table| == 0 then None
    else if table[0].0 == s then Some(table[0].1)
    else Lookup(table[1..], s)
  }

  /** In a table without repeated names, every entry's name finds that
      entry's command. */
  lemma {:induction false} LookupNamed(table: seq<(string, Command)>, i: int)
    requires NamesDistinct(table) && 0 <= i < |table|
    ensures Lookup(table, table[i].0) == Some(table[i].1)
    decreases |table|
  {
    if i > 0 {
      var rest := table[1..];
      assert table[0].0 != table[i].0;
      assert rest[i - 1] == table[i];
      assert NamesDistinct(rest) by {
        forall a, b | 0 <= a < b < |rest| ensures rest[a].0 != rest[b].0 {
          assert rest[a] == table[a + 1] && rest[b] == table[b + 1];
        }
      }
      LookupNamed(rest, i - 1);
    }
  }

  /** The command of a message: `action` must be a string naming one;
      a missing key reads as the empty string, which names none. */
  function ParseCommand(m: Message): (r: Option<Command>)
    ensures r.Some? ==>
      Get(m, "action", JString("")).JString? && (Get(m, "action", JString("")).s, r.value) in CommandNames
  {
    var v := Get(m, "action", JString(""));
    if v.JString? then Lookup(CommandNames, v.s) else None
  }

  /** A string `action` that names a command in the table is parsed as
      that command. */
  lemma ParseCommandNamed(m: Message, i: int)
    requires 0 <= i < |CommandNames| && Get(m, "action", JString("")) == JString(CommandNames[i].0)
    ensures ParseCommand(m) == Some(CommandNames[i].1)
  {
    CommandNamesDistinct();
    LookupNamed(CommandNames, i);
  }

  /** The `die_index` the hold guard lets through: an integer (a boolean
      being one) in 0..4. */
  function HoldIndex(m: Message): (r: Option<int>)
    ensures r.Some? ==> 0 <= r.value < NumDice
    ensures r.Some? <==>
      "die_index" in m && ((m["die_index"].JInt? && 0 <= m["die_index"].i < NumDice) || m["die_index"].JBool?)
  {
    if "die_index" !in m then None
    else match m["die_index"]
      case JInt(i) => if 0 <= i < NumDice then Some(i) else None
      case JBool(b) => Some(if b then 1 else 0)
      case _ => None
  }

  /** The category a message names; anything but a known display name
      names none. */
  function NamedCategory(m: Message): (r: Option<Category>)
    ensures r.Some? ==> Get(m, "category", JString("")) == JString(Name(r.value))
  {
    var v := Get(m, "category", JString(""));
    if v.JString? then CategoryByName(v.s) else None
  }

  /** The `direction` of a navigation message, defaulting to forward;
      `None` for a value Python cannot compare with 0. */
  function Direction(m: Message): (r: Option<int>)
    ensures "direction" !in m ==> r == Some(1)
    ensures "direction" in m && m["direction"].JInt? ==> r == Some(m["direction"].i)
    ensures r.None? <==> "direction" in m && !m["direction"].JInt? && !m["direction"].JBool?
  {
    match Get(m, "direction", JInt(1))
    case JInt(d) => Some(d)
    case JBool(b) => Some(if b then 1 else 0)
    case _ => None
  }

  /** `_handle_action`. `faces` are the faces a roll or a reset draws and
      `players` and `date` what a reset records if it saves the scores.
      `None` is the handler raising: navigation with a direction that is
      not a number, while a row is open. */
  function HandleAction(a: Adapter, m: Message, faces: seq<int>, players: seq<Player>, date: string): (r: Option<Adapter>)
    requires AdapterWf(a) && ValidFaces(faces) && |players| == |a.coord.ais|
    ensures r.Some? ==> AdapterWf(r.value)
    ensures ParseCommand(m).None? ==> r == Some(a)
    ensures r.None? ==> ParseCommand(m) == Some(NavigateCmd) && Direction(m).None?
  {
    match ParseCommand(m)
    case None => Some(a)
    case Some(cmd) => Dispatch(a, cmd, m, faces, players, date)
  }

  /** The commands that act on the game itself. */
  predicate IsGameCommand(cmd: Command) {
    cmd in {Roll, Hold, Score, ConfirmYes, ConfirmNo, UndoCmd, Reset}
  }

  function Dispatch(a: Adapter, cmd: Command, m: Message, faces: seq<int>, players: seq<Player>, date: string): (r: Option<Adapter>)
    requires AdapterWf(a) && ValidFaces(faces) && |players| == |a.coord.ais|
    ensures r.Some? ==> AdapterWf(r.value)
    ensures r.None? ==> cmd == NavigateCmd && Direction(m).None?
  {
    if IsGameCommand(cmd) then Some(GameCommand(a, cmd, m, faces, players, date))
    else if cmd == NavigateCmd then Navigate(a, Direction(m))
    else if cmd == Hover then Some(HoverCommand(a, m))
    else Some(ViewCommand(a, cmd))
  }

  /** `roll`, `hold`, `score`, the zero-score answers, `undo` and `reset`. */
  function GameCommand(a: Adapter, cmd: Command, m: Message, faces: seq<int>, players: seq<Player>, date: string): (r: Adapter)
    requires AdapterWf(a) && ValidFaces(faces) && |players| == |a.coord.ais|
    requires IsGameCommand(cmd)
    ensures AdapterWf(r)
  {
    match cmd
    case Roll => DoRoll(a, faces).1
    case Hold => HoldMessage(a, m)
    case Score => ScoreMessage(a, m)
    case ConfirmYes => ConfirmZeroYes(a).1
    case ConfirmNo => ConfirmZeroNo(a)
    case UndoCmd => DoUndo(a).1
    case Reset => DoReset(a, players, date, faces)
  }

  /** `hold`: only a die index that passes the guard reaches the adapter. */
  function HoldMessage(a: Adapter, m: Message): (r: Adapter)
    requires AdapterWf(a)
    ensures AdapterWf(r)
  {
    match HoldIndex(m)
    case Some(i) => DoHold(a, i)
    case None => a
  }

  /** `score`: only a known display name reaches the adapter. */
  function ScoreMessage(a: Adapter, m: Message): (r: Adapter)
    requires AdapterWf(a)
    ensures AdapterWf(r)
  {
    match NamedCategory(m)
    case Some(c) => TryScoreCategory(a, c).1
    case None => a
  }

  /** `hover`: a known name sets the hover, anything else clears it. */
  function HoverCommand(a: Adapter, m: Message): (r: Adapter)
    requires AdapterWf(a)
    ensures AdapterWf(r)
    ensures r.coord == a.coord && r.kbSelected.None? == (a.kbSelected.None? || NamedCategory(m).Some?)
    ensures r.hovered == NamedCategory(m)
  {
    match NamedCategory(m)
    case Some(c) => SetHoveredCategory(a, c)
    case None => ClearHover(a)
  }

  /** The commands that change only what is shown: overlays, preferences,
      speed and history filters. */
  function ViewCommand(a: Adapter, cmd: Command): (r: Adapter)
    requires AdapterWf(a)
    requires !IsGameCommand(cmd) && cmd != NavigateCmd && cmd != Hover
    ensures AdapterWf(r)
    ensures r.coord.game == a.coord.game
  {
    match cmd
    case ClearHoverCmd => ClearHover(a)
    case HelpCmd => ToggleHelp(a)
    case HistoryCmd => ToggleHistory(a)
    case ReplayCmd => ToggleReplay(a)
    case DarkModeCmd => ToggleDarkMode(a)
    case ColorblindCmd => ToggleColorblind(a)
    case SoundCmd => ToggleSound(a)
    case SpeedUp => ChangeSpeedAction(a, 1).1
    case SpeedDown => ChangeSpeedAction(a, -1).1
    case PlayerFilterCmd => CyclePlayerFilter(a)
    case ModeFilterCmd => CycleModeFilter(a)
  }

  /** `navigate_category` with a direction that may not be a number: with
      every row filled it returns before comparing; otherwise the
      comparison raises. */
  function Navigate(a: Adapter, direction: Option<int>): (r: Option<Adapter>)
    requires AdapterWf(a)
    ensures r.Some? ==> AdapterWf(r.value)
    ensures direction.Some? ==> r == Some(NavigateCategory(a, direction.value))
    ensures r.None? ==> direction.None?
  {
    match direction
    case Some(d) => Some(NavigateCategory(a, d))
    case None => if |UnfilledRows(CurrentCard(a))| == 0 then Some(a) else None
  }

  // ---------------------------------------------------------------------
  // Lemmas

  /** A message naming a command is dispatched on it. */
  lemma HandleDispatches(a: Adapter, m: Message, faces: seq<int>, players: seq<Player>, date: string, cmd: Command)
    requires AdapterWf(a) && ValidFaces(faces) && |players| == |a.coord.ais|
    requires ParseCommand(m) == Some(cmd)
    ensures HandleAction(a, m, faces, players, date) == Dispatch(a, cmd, m, faces, players, date)
  {
  }

  lemma DispatchGroups(a: Adapter, m: Message, faces: seq<int>, players: seq<Player>, date: string, cmd: Command)
    requires AdapterWf(a) && ValidFaces(faces) && |players| == |a.coord.ais|
    ensures IsGameCommand(cmd) ==> Dispatch(a, cmd, m, faces, players, date) == Some(GameCommand(a, cmd, m, faces, players, date))
    ensures cmd == NavigateCmd ==> Dispatch(a, cmd, m, faces, players, date) == Navigate(a, Direction(m))
    ensures cmd == Hover ==> Dispatch(a, cmd, m, faces, players, date) == Some(HoverCommand(a, m))
  {
  }

  /** A hold message reaches the adapter exactly when its die index passes
      the guard; otherwise it changes nothing. */
  lemma HoldGuard(a: Adapter, m: Message, faces: seq<int>, players: seq<Player>, date: string)
    requires AdapterWf(a) && ValidFaces(faces) && |players| == |a.coord.ais|
    requires ParseCommand(m) == Some(Hold)
    ensures HoldIndex(m).Some? ==> HandleAction(a, m, faces, players, date) == Some(DoHold(a, HoldIndex(m).value))
    ensures HoldIndex(m).None? ==> HandleAction(a, m, faces, players, date) == Some(a)
  {
    HandleDispatches(a, m, faces, players, date, Hold);
    DispatchGroups(a, m, faces, players, date, Hold);
    MessageCommands(a, m, faces, players, date);
  }

  /** A score message scores the named category through the adapter; an
      unknown, empty or missing name changes nothing. */
  lemma ScoreByName(a: Adapter, m: Message, faces: seq<int>, players: seq<Player>, date: string)
    requires AdapterWf(a) && ValidFaces(faces) && |players| == |a.coord.ais|
    requires ParseCommand(m) == Some(Score)
    ensures var r := HandleAction(a, m, faces, players, date);
      forall c: Category :: Get(m, "category", JString("")) == JString(Name(c)) ==> r == Some(TryScoreCategory(a, c).1)
    ensures var r := HandleAction(a, m, faces, players, date);
      (forall c: Category :: Get(m, "category", JString("")) != JString(Name(c))) ==> r == Some(a)
  {
    HandleDispatches(a, m, faces, players, date, Score);
    DispatchGroups(a, m, faces, players, date, Score);
    MessageCommands(a, m, faces, players, date);
    forall c: Category | Get(m, "category", JString("")) == JString(Name(c))
      ensures NamedCategory(m) == Some(c)
    {
      CategoryByNameRoundTrip(c);
    }
  }

  lemma MessageCommands(a: Adapter, m: Message, faces: seq<int>, players: seq<Player>, date: string)
    requires AdapterWf(a) && ValidFaces(faces) && |players| == |a.coord.ais|
    ensures GameCommand(a, Score, m, faces, players, date) == ScoreMessage(a, m)
    ensures GameCommand(a, Hold, m, faces, players, date) == HoldMessage(a, m)
  {
  }

  /** A hover message over an unknown name clears the hover. */
  lemma HoverUnknownClears(a: Adapter, m: Message, faces: seq<int>, players: seq<Player>, date: string)
    requires AdapterWf(a) && ValidFaces(faces) && |players| == |a.coord.ais|
    requires ParseCommand(m) == Some(Hover) && NamedCategory(m).None?
    ensures HandleAction(a, m, faces, players, date) == Some(ClearHover(a))
  {
    HandleDispatches(a, m, faces, players, date, Hover);
    DispatchGroups(a, m, faces, players, date, Hover);
  }

  /** A message without a command, or with one the server does not know,
      changes nothing, whatever else it carries. */
  lemma UnknownCommandIgnored(a: Adapter, m: Message, faces: seq<int>, players: seq<Player>, date: string)
    requires AdapterWf(a) && ValidFaces(faces) && |players| == |a.coord.ais|
    requires forall p :: p in CommandNames ==> Get(m, "action", JString("")) != JString(p.0)
    ensures HandleAction(a, m, faces, players, date) == Some(a)
  {
  }

  /** A navigation message without a direction moves forward. */
  lemma NavigateDefaultsForward(a: Adapter, m: Message, faces: seq<int>, players: seq<Player>, date: string)
    requires AdapterWf(a) && ValidFaces(faces) && |players| == |a.coord.ais|
    requires ParseCommand(m) == Some(NavigateCmd) && "direction" !in m
    ensures HandleAction(a, m, faces, players, date) == Some(NavigateCategory(a, 1))
  {
    HandleDispatches(a, m, faces, players, date, NavigateCmd);
    DispatchGroups(a, m, faces, players, date, NavigateCmd);
  }
}

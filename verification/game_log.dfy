/**
 * `game_log.py`: the replay log, an append-only list of roll, hold and
 * score events with per-turn and per-player views.
 */
module GameLogs {
  import opened Options
  import opened Categories

  datatype EventKind = RollEvent | HoldEvent | ScoreEvent

  /** `LogEntry`; the optional fields are those the event kind leaves unset. */
  datatype LogEntry = LogEntry(
    turn: int,
    playerIndex: int,
    kind: EventKind,
    diceValues: seq<int>,
    heldIndices: Option<seq<int>>,
    category: Option<Category>,
    score: Option<int>,
    rollNumber: int)

  type Log = seq<LogEntry>

  /** `log_roll`. */
  function LogRoll(log: Log, turn: int, player: int, rollNumber: int, dice: seq<int>): (r: Log)
    ensures |r| == |log| + 1 && r[..|log|] == log
    ensures var e := r[|log|];
      && e.kind == RollEvent && e.turn == turn && e.playerIndex == player
      && e.rollNumber == rollNumber && e.diceValues == dice
      && e.heldIndices.None? && e.category.None? && e.score.None?
  {
    log + [LogEntry(turn, player, RollEvent, dice, None, None, None, rollNumber)]
  }

  /** `log_hold_change`. */
  function LogHoldChange(log: Log, turn: int, player: int, held: seq<int>, dice: seq<int>): (r: Log)
    ensures |r| == |log| + 1 && r[..|log|] == log
    ensures var e := r[|log|];
      && e.kind == HoldEvent && e.turn == turn && e.playerIndex == player
      && e.heldIndices == Some(held) && e.diceValues == dice
      && e.category.None? && e.score.None? && e.rollNumber == 0
  {
    log + [LogEntry(turn, player, HoldEvent, dice, Some(held), None, None, 0)]
  }

  /** `log_score`. */
  function LogScore(log: Log, turn: int, player: int, c: Category, score: int, dice: seq<int>): (r: Log)
    ensures |r| == |log| + 1 && r[..|log|] == log
    ensures var e := r[|log|];
      && e.kind == ScoreEvent && e.turn == turn && e.playerIndex == player
      && e.category == Some(c) && e.score == Some(score) && e.diceValues == dice
      && e.heldIndices.None? && e.rollNumber == 0
  {
    log + [LogEntry(turn, player, ScoreEvent, dice, None, Some(c), Some(score), 0)]
  }

  /** The entries of `log` that `keep` accepts, in log order. */
  function Select(log: Log, keep: LogEntry -> bool): (r: Log)
    ensures |r| <= |log|
    ensures forall e :: e in r <==> e in log && keep(e)
  {
    if |log| == 0 then []
    else
      var rest := Select(log[1..], keep);
      if keep(log[0]) then [log[0]] + rest else rest
  }

  predicate OfTurn(e: LogEntry, turn: int, player: int) {
    e.turn == turn && e.playerIndex == player
  }

  predicate IsScoreOf(e: LogEntry, player: int) {
    e.kind == ScoreEvent && e.playerIndex == player
  }

  /** `get_turn_entries`. */
  function TurnEntries(log: Log, turn: int, player: int): (r: Log)
    ensures forall e :: e in r <==> e in log && OfTurn(e, turn, player)
  {
    Select(log, e => OfTurn(e, turn, player))
  }

  /** `get_score_entries`. */
  function ScoreEntries(log: Log, player: int): (r: Log)
    ensures forall e :: e in r <==> e in log && IsScoreOf(e, player)
  {
    Select(log, e => IsScoreOf(e, player))
  }

  /** `clear`. */
  function Clear(): (r: Log)
    ensures |r| == 0
  {
    []
  }

  /** Selection distributes over appending, so the views list entries in
      the order they were logged. */
  lemma {:induction false} SelectAppend(log: Log, more: Log, keep: LogEntry -> bool)
    ensures Select(log + more, keep) == Select(log, keep) + Select(more, keep)
    decreases |log|
  {
    if |log| == 0 {
      assert log + more == more;
    } else {
      assert (log + more)[0] == log[0];
      assert (log + more)[1..] == log[1..] + more;
      SelectAppend(log[1..], more, keep);
    }
  }

  /** The entries of one event, selected. */
  lemma SelectOne(e: LogEntry, keep: LogEntry -> bool)
    ensures Select([e], keep) == if keep(e) then [e] else []
  {
    assert [e][1..] == [];
  }

  /** Logging a score adds exactly that entry at the end of the scoring
      player's score view and of its turn view; other players' score views
      and other turns' views are unchanged. */
  lemma LogScoreViews(log: Log, turn: int, player: int, c: Category, score: int, dice: seq<int>)
    ensures var r := LogScore(log, turn, player, c, score, dice);
      && ScoreEntries(r, player) == ScoreEntries(log, player) + [r[|log|]]
      && TurnEntries(r, turn, player) == TurnEntries(log, turn, player) + [r[|log|]]
      && (forall q :: q != player ==> ScoreEntries(r, q) == ScoreEntries(log, q))
      && (forall t, q :: (t, q) != (turn, player) ==> TurnEntries(r, t, q) == TurnEntries(log, t, q))
  {
    var r := LogScore(log, turn, player, c, score, dice);
    var e := r[|log|];
    assert r == log + [e];
    SelectAppend(log, [e], x => IsScoreOf(x, player));
    SelectOne(e, x => IsScoreOf(x, player));
    SelectAppend(log, [e], x => OfTurn(x, turn, player));
    SelectOne(e, x => OfTurn(x, turn, player));
    forall q | q != player ensures ScoreEntries(r, q) == ScoreEntries(log, q) {
      SelectAppend(log, [e], x => IsScoreOf(x, q));
      SelectOne(e, x => IsScoreOf(x, q));
    }
    forall t, q | (t, q) != (turn, player) ensures TurnEntries(r, t, q) == TurnEntries(log, t, q) {
      SelectAppend(log, [e], x => OfTurn(x, t, q));
      SelectOne(e, x => OfTurn(x, t, q));
    }
  }

  /** Rolls and hold changes never show up among score entries. */
  lemma LogRollNotScored(log: Log, turn: int, player: int, rollNumber: int, dice: seq<int>, q: int)
    ensures ScoreEntries(LogRoll(log, turn, player, rollNumber, dice), q) == ScoreEntries(log, q)
  {
    var r := LogRoll(log, turn, player, rollNumber, dice);
    var e := r[|log|];
    assert r == log + [e];
    SelectAppend(log, [e], x => IsScoreOf(x, q));
    SelectOne(e, x => IsScoreOf(x, q));
  }

  /** A cleared log has no turn or score entries. */
  lemma ClearEmpty(turn: int, player: int)
    ensures TurnEntries(Clear(), turn, player) == [] && ScoreEntries(Clear(), player) == []
  {
  }
}

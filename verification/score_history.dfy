/**
 * `score_history.py`: the list of finished games' scores kept in a JSON
 * file, capped at the newest thousand, and the high-score view over it.
 * The file is a value here: what reading it yields, and what saving
 * writes.
 */
module ScoreHistory {
  import opened Options

  /** `MAX_ENTRIES`. */
  const MaxEntries := 1000

  datatype Mode = SingleMode | MultiplayerMode

  /** One recorded score; `name` is set only for multiplayer entries. */
  datatype Entry = Entry(score: int, playerType: string, name: Option<string>, date: string, mode: Mode)

  /** What reading the scores file yields: a missing, unreadable or
      unparsable file, a JSON value other than a list, or a list. */
  datatype Stored = Unreadable | NotAList | EntryList(entries: seq<Entry>)

  /** One player's result handed to `record_multiplayer_scores`. */
  datatype PlayerResult = PlayerResult(name: string, score: int, playerType: string)

  /** `_load_scores`: anything but a list reads as no scores. */
  function LoadScores(f: Stored): (r: seq<Entry>)
    ensures f.EntryList? ==> r == f.entries
    ensures !f.EntryList? ==> |r| == 0
  {
    if f.EntryList? then f.entries else []
  }

  /** `_save_scores`. */
  function SaveScores(entries: seq<Entry>): (r: Stored)
    ensures LoadScores(r) == entries
  {
    EntryList(entries)
  }

  /** The newest `MaxEntries` of `entries`, oldest dropped first. */
  function Cap(entries: seq<Entry>): (r: seq<Entry>)
    ensures |r| <= MaxEntries
    ensures |r| == if |entries| > MaxEntries then MaxEntries else |entries|
    ensures r == entries[|entries| - |r|..]
  {
    if |entries| > MaxEntries then entries[|entries| - MaxEntries..] else entries
  }

  /** `record_score`: appends a single-player entry dated `date`. */
  function RecordScore(f: Stored, score: int, playerType: string, date: string): (r: Stored)
    ensures r.EntryList? && |r.entries| <= MaxEntries
    ensures var n := |LoadScores(f)| + 1; |r.entries| == if n > MaxEntries then MaxEntries else n
    ensures |r.entries| > 0 && r.entries[|r.entries| - 1] == Entry(score, playerType, None, date, SingleMode)
    ensures var before := LoadScores(f);
      r.entries[..|r.entries| - 1] == before[|before| + 1 - |r.entries|..]
  {
    var before := LoadScores(f);
    var after := Cap(before + [Entry(score, playerType, None, date, SingleMode)]);
    assert after[..|after| - 1] == before[|before| + 1 - |after|..];
    SaveScores(after)
  }

  function ResultEntries(results: seq<PlayerResult>, date: string): (r: seq<Entry>)
    ensures |r| == |results|
    ensures forall i :: 0 <= i < |results| ==>
      r[i] == Entry(results[i].score, results[i].playerType, Some(results[i].name), date, MultiplayerMode)
  {
    if |results| == 0 then []
    else
      var p := results[0];
      [Entry(p.score, p.playerType, Some(p.name), date, MultiplayerMode)] + ResultEntries(results[1..], date)
  }

  /** `record_multiplayer_scores`: one entry per player, all sharing one
      date, appended in the players' order (`RecordMultiplayerKeeps`). */
  function RecordMultiplayerScores(f: Stored, results: seq<PlayerResult>, date: string): (r: Stored)
    ensures r.EntryList? && |r.entries| <= MaxEntries
    ensures var n := |LoadScores(f)| + |results|; |r.entries| == if n > MaxEntries then MaxEntries else n
  {
    SaveScores(Cap(LoadScores(f) + ResultEntries(results, date)))
  }

  /** After a multiplayer record the history ends with the players'
      entries, in order and sharing the date, behind the newest part of
      what was stored before. */
  lemma RecordMultiplayerKeeps(f: Stored, results: seq<PlayerResult>, date: string)
    ensures var r := RecordMultiplayerScores(f, results, date).entries; var n := |r|;
      && (|results| <= MaxEntries ==>
            n >= |results| &&
            forall i :: 0 <= i < |results| ==>
              r[n - |results| + i] == Entry(results[i].score, results[i].playerType, Some(results[i].name), date, MultiplayerMode))
      && (n >= |results| ==> r[..n - |results|] == LoadScores(f)[|LoadScores(f)| + |results| - n..])
  {
    var added := ResultEntries(results, date);
    CapAppend(LoadScores(f), added);
  }

  /** Capping `before + added` keeps all of `added` when it fits, behind
      the newest part of `before`. */
  lemma CapAppend(before: seq<Entry>, added: seq<Entry>)
    ensures var r := Cap(before + added);
      && (|added| <= MaxEntries ==> forall i :: 0 <= i < |added| ==> r[|r| - |added| + i] == added[i])
      && (|r| >= |added| ==> r[..|r| - |added|] == before[|before| + |added| - |r|..])
  {
    var all := before + added;
    var r := Cap(all);
    if |added| <= MaxEntries {
      forall i | 0 <= i < |added| ensures r[|r| - |added| + i] == added[i] {
        assert r[|r| - |added| + i] == all[|all| - |added| + i];
      }
    }
    if |r| >= |added| {
      assert r[..|r| - |added|] == all[|all| - |r|..|all| - |added|];
    }
  }

  /** `get_all_scores`. */
  function AllScores(f: Stored): (r: seq<Entry>)
    ensures f.EntryList? ==> r == f.entries
  {
    LoadScores(f)
  }

  // ---------------------------------------------------------------------
  // High scores

  predicate Descending(s: seq<Entry>) {
    forall i, j :: 0 <= i < j < |s| ==> s[i].score >= s[j].score
  }

  /** The entries of `s` scoring exactly `v`, in order. */
  function WithScore(s: seq<Entry>, v: int): (r: seq<Entry>)
    ensures |r| <= |s|
  {
    if |s| == 0 then []
    else (if s[0].score == v then [s[0]] else []) + WithScore(s[1..], v)
  }

  /** Inserts `e` into a descending list before every entry that does not
      score more than it. */
  function Insert(e: Entry, s: seq<Entry>): (r: seq<Entry>)
    requires Descending(s)
    ensures Descending(r)
    ensures multiset(r) == multiset(s) + multiset{e}
    ensures |r| == |s| + 1 && (r[0] == e || (|s| > 0 && r[0] == s[0]))
  {
    if |s| == 0 then [e]
    else if s[0].score <= e.score then
      ConsDescending(e, s);
      [e] + s
    else
      var rest := Insert(e, s[1..]);
      assert s == [s[0]] + s[1..];
      ConsDescending(s[0], rest);
      [s[0]] + rest
  }

  lemma ConsDescending(x: Entry, s: seq<Entry>)
    requires Descending(s) && (|s| == 0 || x.score >= s[0].score)
    ensures Descending([x] + s)
  {
    var r := [x] + s;
    forall i, j | 0 <= i < j < |r| ensures r[i].score >= r[j].score {
      if i == 0 && j > 1 {
        assert r[j] == s[j - 1];
      }
    }
  }

  /** Python's stable `sort(key=score, reverse=True)`, as insertion sort. */
  function SortDescending(s: seq<Entry>): (r: seq<Entry>)
    ensures Descending(r)
    ensures multiset(r) == multiset(s)
  {
    if |s| == 0 then []
    else
      assert s == [s[0]] + s[1..];
      Insert(s[0], SortDescending(s[1..]))
  }

  /** Python's `s[:limit]`: a negative limit counts from the end. */
  function PrefixTo(s: seq<Entry>, limit: int): (r: seq<Entry>)
    ensures limit >= 0 ==> |r| == if limit < |s| then limit else |s|
    ensures limit < 0 ==> |r| == if |s| + limit > 0 then |s| + limit else 0
    ensures r == s[..|r|]
  {
    var n := if limit >= 0 then (if limit < |s| then limit else |s|)
             else (if |s| + limit > 0 then |s| + limit else 0);
    s[..n]
  }

  predicate OfType(e: Entry, playerType: Option<string>) {
    playerType.None? || e.playerType == playerType.value
  }

  function OfTypeOnly(s: seq<Entry>, playerType: Option<string>): (r: seq<Entry>)
    ensures forall e :: e in r <==> e in s && OfType(e, playerType)
    ensures multiset(r) <= multiset(s)
    ensures playerType.None? ==> r == s
  {
    if |s| == 0 then []
    else
      assert s == [s[0]] + s[1..];
      (if OfType(s[0], playerType) then [s[0]] else []) + OfTypeOnly(s[1..], playerType)
  }

  /** The filter keeps every copy of an entry of the type and no copy of
      any other entry. */
  lemma {:induction false} OfTypeOnlyCounts(s: seq<Entry>, playerType: Option<string>)
    ensures var r := OfTypeOnly(s, playerType);
      forall e :: multiset(r)[e] == if OfType(e, playerType) then multiset(s)[e] else 0
    decreases |s|
  {
    if |s| > 0 {
      var t := s[1..];
      OfTypeOnlyCounts(t, playerType);
      assert s == [s[0]] + t;
      var h := if OfType(s[0], playerType) then [s[0]] else [];
      var rt := OfTypeOnly(t, playerType);
      assert OfTypeOnly(s, playerType) == h + rt;
      assert multiset(h + rt) == multiset(h) + multiset(rt);
      assert multiset(s) == multiset{s[0]} + multiset(t);
    }
  }

  /** `get_high_scores`: the entries of the player type, highest first,
      cut to `limit`. */
  function HighScores(f: Stored, playerType: Option<string>, limit: int): (r: seq<Entry>)
    ensures Descending(r)
    ensures forall e :: e in r ==> e in LoadScores(f) && OfType(e, playerType)
    ensures limit >= 0 ==> |r| <= limit
    ensures var n := |OfTypeOnly(LoadScores(f), playerType)|;
      limit >= 0 ==> |r| == if limit < n then limit else n
  {
    var kept := OfTypeOnly(LoadScores(f), playerType);
    var sorted := SortDescending(kept);
    SortKeepsLength(kept);
    var r := PrefixTo(sorted, limit);
    assert forall e :: e in r ==> e in multiset(sorted);
    r
  }

  // ---------------------------------------------------------------------
  // Lemmas

  lemma WithScoreCons(x: Entry, s: seq<Entry>, v: int)
    ensures WithScore([x] + s, v) == (if x.score == v then [x] else []) + WithScore(s, v)
  {
    assert ([x] + s)[1..] == s;
  }

  /** Entries that tie keep their order in the sort: the sort is stable. */
  lemma {:induction false} InsertStable(e: Entry, s: seq<Entry>, v: int)
    requires Descending(s)
    ensures WithScore(Insert(e, s), v) == (if e.score == v then [e] else []) + WithScore(s, v)
    decreases |s|
  {
    if |s| == 0 {
      WithScoreCons(e, [], v);
    } else if s[0].score <= e.score {
      WithScoreCons(e, s, v);
    } else {
      var t := s[1..];
      var rest := Insert(e, t);
      assert Insert(e, s) == [s[0]] + rest;
      InsertStable(e, t, v);
      WithScoreCons(s[0], rest, v);
      assert s == [s[0]] + t;
      WithScoreCons(s[0], t, v);
      var x := if s[0].score == v then [s[0]] else [];
      var y := if e.score == v then [e] else [];
      assert x == [] || y == [];
      SwapEmpty(x, y, WithScore(t, v));
    }
  }

  /** Two pieces of which one is empty can be put in either order. */
  lemma SwapEmpty(x: seq<Entry>, y: seq<Entry>, w: seq<Entry>)
    requires x == [] || y == []
    ensures x + (y + w) == y + (x + w)
  {
    if x == [] {
      assert x + (y + w) == y + w == y + (x + w);
    } else {
      assert y + (x + w) == x + w == x + (y + w);
    }
  }

  lemma {:induction false} SortStable(s: seq<Entry>, v: int)
    ensures WithScore(SortDescending(s), v) == WithScore(s, v)
    decreases |s|
  {
    if |s| > 0 {
      SortStable(s[1..], v);
      InsertStable(s[0], SortDescending(s[1..]), v);
    }
  }

  /** The high-score list is the first part of the stably sorted entries
      of the player type: no entry left out scores more than the last
      one shown, and ties are shown in the order they were recorded. */
  lemma HighScoresTop(f: Stored, playerType: Option<string>, limit: int)
    ensures var kept := OfTypeOnly(LoadScores(f), playerType);
      var sorted := SortDescending(kept);
      var r := HighScores(f, playerType, limit);
      && r == sorted[..|r|]
      && multiset(sorted) == multiset(kept)
      && (forall v :: WithScore(sorted, v) == WithScore(kept, v))
      && (forall e :: e in kept && e !in r && |r| > 0 ==> e.score <= r[|r| - 1].score)
      && (limit >= 0 ==> |r| == if limit < |kept| then limit else |kept|)
      && (limit < 0 ==> |r| == if |kept| + limit > 0 then |kept| + limit else 0)
  {
    var kept := OfTypeOnly(LoadScores(f), playerType);
    var sorted := SortDescending(kept);
    var r := HighScores(f, playerType, limit);
    HighScoresSlice(f, playerType, limit, kept, sorted, r);
    SortStableAll(kept);
    LeftOutScoreLower(kept, sorted, r);
  }

  lemma SortStableAll(s: seq<Entry>)
    ensures forall v :: WithScore(SortDescending(s), v) == WithScore(s, v)
  {
    forall v ensures WithScore(SortDescending(s), v) == WithScore(s, v) {
      SortStable(s, v);
    }
  }

  /** No entry missing from a prefix of a descending sort of `kept`
      scores more than the prefix's last entry. */
  lemma LeftOutScoreLower(kept: seq<Entry>, sorted: seq<Entry>, r: seq<Entry>)
    requires sorted == SortDescending(kept) && |r| <= |sorted| && r == sorted[..|r|]
    ensures forall e :: e in kept && e !in r && |r| > 0 ==> e.score <= r[|r| - 1].score
  {
    forall e | e in kept && e !in r && |r| > 0 ensures e.score <= r[|r| - 1].score {
      assert e in multiset(sorted);
      var j :| 0 <= j < |sorted| && sorted[j] == e;
      assert forall k :: 0 <= k < |r| ==> r[k] != e;
      assert j >= |r|;
    }
  }

  /** The high scores are the sorted entries of the type cut to `limit`,
      and sorting keeps their number. */
  lemma HighScoresSlice(f: Stored, playerType: Option<string>, limit: int, kept: seq<Entry>, sorted: seq<Entry>, r: seq<Entry>)
    requires kept == OfTypeOnly(LoadScores(f), playerType) && sorted == SortDescending(kept)
    requires r == HighScores(f, playerType, limit)
    ensures |sorted| == |kept| && |r| <= |sorted| && r == sorted[..|r|]
    ensures limit >= 0 ==> |r| == if limit < |kept| then limit else |kept|
    ensures limit < 0 ==> |r| == if |kept| + limit > 0 then |kept| + limit else 0
  {
    SortKeepsLength(kept);
  }

  lemma SortKeepsLength(s: seq<Entry>)
    ensures |SortDescending(s)| == |s|
  {
    assert |multiset(SortDescending(s))| == |multiset(s)|;
  }

  /** Recording never lets the history grow past the cap, and once full
      every new score pushes out exactly the oldest one. */
  lemma RecordWhenFull(f: Stored, score: int, playerType: string, date: string)
    requires f.EntryList? && |f.entries| == MaxEntries
    ensures var r := RecordScore(f, score, playerType, date);
      r.entries == f.entries[1..] + [Entry(score, playerType, None, date, SingleMode)]
  {
  }

  /** A stored list survives saving and loading unchanged. */
  lemma SaveLoad(entries: seq<Entry>)
    ensures LoadScores(SaveScores(entries)) == entries
  {
  }
}

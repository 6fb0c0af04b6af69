/**
 * The invariant of the multiplayer game and what the transitions keep of
 * it: every player before the acting one has scored one more category in
 * the current round than every later one, and the game is over exactly
 * when every card is complete.
 */
module MultiplayerProofs {
  import opened Categories
  import opened Dice
  import opened Scorecards
  import opened Engine
  import opened Multiplayer

  /** A new game satisfies the invariant. */
  lemma MpInitialValid(n: int, faces: seq<int>)
    requires n >= 1 && ValidFaces(faces)
    ensures MpValid(MpCreateInitial(n, faces))
  {
    EmptyCardsStart(n);
  }

  /** `n` empty cards are all at the start of round 1, and not complete. */
  lemma EmptyCardsStart(n: int)
    requires n >= 1
    ensures RoundProgress(EmptyCards(n), 0, 1)
    ensures !AllComplete(EmptyCards(n))
    ensures CardsInRange(EmptyCards(n))
  {
    EmptyCardsProgress(n);
    EmptyCardsIncomplete(n);
  }

  lemma EmptyCardsProgress(n: int)
    requires n >= 1
    ensures RoundProgress(EmptyCards(n), 0, 1)
  {
    OpenOfEmpty();
  }

  lemma EmptyCardsIncomplete(n: int)
    requires n >= 1
    ensures !AllComplete(EmptyCards(n))
  {
    assert !IsFilled(EmptyCards(n)[0], Ones);
  }

  lemma {:induction false} TotalOpenZero(cards: seq<Scorecard>)
    ensures TotalOpen(cards) == 0 <==> AllComplete(cards)
  {
    if |cards| > 0 {
      TotalOpenZero(cards[1..]);
      CompleteIffNoneOpen(cards[0]);
      if AllComplete(cards[1..]) && IsComplete(cards[0]) {
        forall p | 0 <= p < |cards| ensures IsComplete(cards[p]) {
          if p > 0 {
            assert cards[p] == cards[1..][p - 1];
          }
        }
      }
    }
  }

  lemma {:induction false} TotalOpenUpdate(cards: seq<Scorecard>, p: int, sc: Scorecard)
    requires 0 <= p < |cards|
    ensures TotalOpen(cards[p := sc]) == TotalOpen(cards) - |Open(cards[p])| + |Open(sc)|
  {
    if p == 0 {
      assert cards[p := sc][1..] == cards[1..];
    } else {
      TotalOpenUpdate(cards[1..], p - 1, sc);
      assert cards[p := sc][1..] == cards[1..][p - 1 := sc];
    }
  }

  /** After a scoring every recorded score is still within 0..50. */
  lemma MpSelectCardsInRange(s: MpGameState, c: Category)
    requires MpValid(s) && MpCanSelectCategory(s, c)
    ensures CardsInRange(MpSelectCategory(s, c).scorecards)
  {
    RecordScoreInRange(s.scorecards[s.currentPlayerIndex], c, Values(s.dice));
  }

  /** After a scoring the acting player has joined those who have scored
      this round. */
  lemma MpSelectOpenCounts(s: MpGameState, c: Category)
    requires MpValid(s) && MpCanSelectCategory(s, c)
    ensures forall p :: 0 <= p < s.numPlayers ==>
      |Open(MpSelectCategory(s, c).scorecards[p])|
        == (if p <= s.currentPlayerIndex then NumRounds - s.currentRound else NumRounds + 1 - s.currentRound)
  {
    RecordScoreClosesOne(s.scorecards[s.currentPlayerIndex], c, Values(s.dice));
  }

  /** The invariant is re-established by any step that records one score
      for the acting player, passes the turn on and advances the round as
      scoring does; stated over an arbitrary successor so that the proof
      works with these facts alone. */
  lemma {:induction false} MpValidAfterScoring(s: MpGameState, r: MpGameState)
    requires MpValid(s)
    requires r.numPlayers == s.numPlayers && |r.scorecards| == |s.scorecards|
    requires r.currentPlayerIndex == NextPlayer(s.currentPlayerIndex, s.numPlayers)
    requires r.currentRound == (if r.currentPlayerIndex == 0 && !r.gameOver then s.currentRound + 1 else s.currentRound)
    requires r.gameOver == AllComplete(r.scorecards)
    requires ValidDice(r.dice) && r.rollsUsed == 0 && CardsInRange(r.scorecards)
    requires forall p :: 0 <= p < s.numPlayers ==>
      |Open(r.scorecards[p])|
        == (if p <= s.currentPlayerIndex then NumRounds - s.currentRound else NumRounds + 1 - s.currentRound)
    ensures MpValid(r)
  {
    if s.currentPlayerIndex + 1 < s.numPlayers {
      CompleteIffNoneOpen(r.scorecards[s.numPlayers - 1]);
    } else if s.currentRound == NumRounds {
      forall p | 0 <= p < |r.scorecards| ensures IsComplete(r.scorecards[p]) {
        CompleteIffNoneOpen(r.scorecards[p]);
      }
    } else {
      CompleteIffNoneOpen(r.scorecards[0]);
    }
  }

  /** Scoring keeps a valid multiplayer state valid. */
  lemma MpSelectPreservesValid(s: MpGameState, c: Category)
    requires MpValid(s)
    ensures MpValid(MpSelectCategory(s, c))
  {
    if MpCanSelectCategory(s, c) {
      var r := MpSelectCategory(s, c);
      MpSelectCardsInRange(s, c);
      MpSelectOpenCounts(s, c);
      assert ValidDice(r.dice) by {
        assert Values(r.dice) == Values(s.dice);
      }
      MpValidAfterScoring(s, r);
    }
  }

  lemma MpRollPreservesValid(s: MpGameState, faces: seq<int>)
    requires MpValid(s) && ValidFaces(faces)
    ensures MpValid(MpRollDice(s, faces))
  {
  }

  lemma MpTogglePreservesValid(s: MpGameState, i: int)
    requires MpValid(s)
    ensures MpValid(MpToggleDieHold(s, i))
  {
  }

  /** A successful scoring closes exactly one category over all the cards,
      and the game is over exactly when none is left open. */
  lemma MpScoringClosesOne(s: MpGameState, c: Category)
    requires MpValid(s) && MpCanSelectCategory(s, c)
    ensures TotalOpen(MpSelectCategory(s, c).scorecards) == TotalOpen(s.scorecards) - 1
    ensures MpSelectCategory(s, c).gameOver <==> TotalOpen(MpSelectCategory(s, c).scorecards) == 0
  {
    var idx := s.currentPlayerIndex;
    var r := MpSelectCategory(s, c);
    RecordScoreClosesOne(s.scorecards[idx], c, Values(s.dice));
    RecordScoreInRange(s.scorecards[idx], c, Values(s.dice));
    TotalOpenUpdate(s.scorecards, idx, r.scorecards[idx]);
    assert r.scorecards == s.scorecards[idx := r.scorecards[idx]];
    TotalOpenZero(r.scorecards);
  }

  /** After game over, multiplayer rolling, holding and scoring change nothing. */
  lemma MpGameOverFreezes(s: MpGameState, faces: seq<int>, i: int, c: Category)
    requires MpValid(s) && s.gameOver && |faces| == |s.dice|
    ensures MpRollDice(s, faces) == s
    ensures MpToggleDieHold(s, i) == s
    ensures MpSelectCategory(s, c) == s
  {
  }

  /** In a valid multiplayer state the round stays within 1..13. */
  lemma MpValidBounds(s: MpGameState)
    requires MpValid(s)
    ensures 1 <= s.currentRound <= NumRounds
    ensures s.gameOver <==> TotalOpen(s.scorecards) == 0
  {
    TotalOpenZero(s.scorecards);
  }
}

/**
 * Scoring of five dice in one category (game_engine.calculate_score and its
 * helpers). The helpers follow the source's own formulation: face counts in
 * `Counter` key order, `max(counts.values())`, `sorted(counts, reverse=True)`,
 * set inclusion for straights. The lemmas state what those formulations
 * mean in terms of face counts alone.
 */
module Scoring {
  import opened Categories
  import opened Dice

  /** The distinct faces of `s` in order of first occurrence, which is the
      key order of `Counter(values)`. */
  function Distinct(s: seq<int>): (d: seq<int>)
    ensures forall i, j :: 0 <= i < j < |d| ==> d[i] != d[j]
    ensures forall v :: v in d <==> v in s
  {
    if |s| == 0 then []
    else
      var d := Distinct(s[..|s| - 1]);
      var last := s[|s| - 1];
      assert s == s[..|s| - 1] + [last];
      if last in d then d else d + [last]
  }

  /** `counts.values()`: the multiplicity of each distinct face, in key order. */
  function CountsOf(s: seq<int>): seq<nat> {
    var d := Distinct(s);
    seq(|d|, i requires 0 <= i < |d| => Count(s, d[i]))
  }

  /** Python's `max` of a non-empty list of counts. */
  function MaxOf(xs: seq<nat>): (m: nat)
    requires |xs| > 0
    ensures forall i :: 0 <= i < |xs| ==> xs[i] <= m
    ensures exists i :: 0 <= i < |xs| && xs[i] == m
  {
    if |xs| == 1 then xs[0]
    else
      var rest := MaxOf(xs[1..]);
      assert forall i :: 1 <= i < |xs| ==> xs[i] == xs[1..][i - 1];
      if xs[0] >= rest then xs[0] else rest
  }

  predicate SortedDesc(xs: seq<nat>) {
    forall i :: 0 < i < |xs| ==> xs[i - 1] >= xs[i]
  }

  function Insert(x: nat, xs: seq<nat>): (r: seq<nat>)
    requires SortedDesc(xs)
    ensures SortedDesc(r)
    ensures multiset(r) == multiset(xs) + multiset{x}
    ensures |r| == |xs| + 1
    ensures |xs| > 0 ==> r[0] == x || r[0] == xs[0]
  {
    if |xs| == 0 then [x]
    else if x >= xs[0] then [x] + xs
    else
      assert xs == [xs[0]] + xs[1..];
      [xs[0]] + Insert(x, xs[1..])
  }

  /** `sorted(xs, reverse=True)`. */
  function SortDesc(xs: seq<nat>): (r: seq<nat>)
    ensures SortedDesc(r)
    ensures multiset(r) == multiset(xs)
  {
    if |xs| == 0 then []
    else
      assert xs == [xs[0]] + xs[1..];
      Insert(xs[0], SortDesc(xs[1..]))
  }

  predicate HasNOfKind(s: seq<int>, n: int)
    requires |s| > 0
  {
    MaxOf(CountsOf(s)) >= n
  }

  predicate HasFullHouse(s: seq<int>) {
    SortDesc(CountsOf(s)) == [3, 2]
  }

  function ValueSet(s: seq<int>): set<int> {
    set v | v in s
  }

  predicate HasSmallStraight(s: seq<int>) {
    var vs := ValueSet(s);
    {1, 2, 3, 4} <= vs || {2, 3, 4, 5} <= vs || {3, 4, 5, 6} <= vs
  }

  predicate HasLargeStraight(s: seq<int>) {
    var vs := ValueSet(s);
    vs == {1, 2, 3, 4, 5} || vs == {2, 3, 4, 5, 6}
  }

  predicate HasYahtzee(s: seq<int>)
    requires |s| > 0
  {
    HasNOfKind(s, 5)
  }

  /** `calculate_score(category, dice)` on the five faces of a roll. */
  function CalculateScore(c: Category, s: seq<int>): (r: nat)
    requires ValidFaces(s)
    ensures IsUpper(c) ==> r == Face(c) * Count(s, Face(c))
    ensures c.Chance? ==> r == Sum(s)
    ensures c.FullHouse? ==> r == 0 || r == 25
    ensures c.SmallStraight? ==> r == 0 || r == 30
    ensures c.LargeStraight? ==> r == 0 || r == 40
    ensures c.Yahtzee? ==> r == 0 || r == 50
  {
    SumBounds(s);
    match c
    case Ones => Count(s, 1)
    case Twos => Count(s, 2) * 2
    case Threes => Count(s, 3) * 3
    case Fours => Count(s, 4) * 4
    case Fives => Count(s, 5) * 5
    case Sixes => Count(s, 6) * 6
    case ThreeOfKind => if HasNOfKind(s, 3) then Sum(s) else 0
    case FourOfKind => if HasNOfKind(s, 4) then Sum(s) else 0
    case FullHouse => if HasFullHouse(s) then 25 else 0
    case SmallStraight => if HasSmallStraight(s) then 30 else 0
    case LargeStraight => if HasLargeStraight(s) then 40 else 0
    case Yahtzee => if HasYahtzee(s) then 50 else 0
    case Chance => Sum(s)
  }

  // ---------------------------------------------------------------------
  // What the Counter-based formulations mean

  /** Some face occurs at least `n` times exactly when the largest count does. */
  lemma NOfKindIff(s: seq<int>, n: int)
    requires |s| > 0
    ensures HasNOfKind(s, n) <==> exists v :: Count(s, v) >= n
  {
    var cs := CountsOf(s);
    var d := Distinct(s);
    if HasNOfKind(s, n) {
      var i :| 0 <= i < |cs| && cs[i] == MaxOf(cs);
      assert Count(s, d[i]) >= n;
    }
    if v :| Count(s, v) >= n {
      if n <= 0 {
        assert cs[0] >= 0;
      } else {
        assert v in multiset(s);
        assert v in s;
        var i :| 0 <= i < |d| && d[i] == v;
        assert cs[i] == Count(s, v);
      }
    }
  }

  /** A multiset contained in `multiset(s)` and as large as it is all of it. */
  lemma FillsMultiset(s: seq<int>, m: multiset<int>)
    requires m <= multiset(s) && |m| == |s|
    ensures multiset(s) == m
  {
    var rest := multiset(s) - m;
    assert multiset(s) == m + rest;
    assert |rest| == 0;
  }

  /** Sorted counts [3, 2] mean three of one face and two of another. */
  lemma FullHouseSound(s: seq<int>)
    requires ValidFaces(s) && HasFullHouse(s)
    ensures exists a, b :: a != b && Count(s, a) == 3 && Count(s, b) == 2
  {
    var d := Distinct(s);
    var cs := CountsOf(s);
    assert multiset(cs) == multiset([3, 2]);
    assert |cs| == |multiset(cs)| == 2;
    assert cs[0] in multiset([3, 2]) && cs[1] in multiset([3, 2]);
    if cs[0] == 3 {
      assert cs[1] == 2 by { assert cs[1] != 3 || multiset(cs)[3] == 2; }
      assert Count(s, d[0]) == 3 && Count(s, d[1]) == 2;
    } else {
      assert cs[1] == 3 by { assert cs[1] != 2 || multiset(cs)[2] == 2; }
      assert Count(s, d[1]) == 3 && Count(s, d[0]) == 2;
    }
  }

  /** Three of one face and two of another leave no room for a third face. */
  lemma OnlyTwoFaces(s: seq<int>, a: int, b: int)
    requires ValidFaces(s) && a != b && Count(s, a) == 3 && Count(s, b) == 2
    ensures forall v :: v in s ==> v == a || v == b
    ensures forall v :: Count(s, v) > 0 ==> v == a || v == b
  {
    FillsMultiset(s, multiset{a, a, a, b, b});
    forall v | v in s ensures v == a || v == b {
      assert v in multiset(s);
    }
  }

  /** A sequence without repeats drawn from `S` is no longer than `S` is large. */
  lemma {:induction false} DistinctWithin(d: seq<int>, S: set<int>)
    requires forall i, j :: 0 <= i < j < |d| ==> d[i] != d[j]
    requires forall k :: 0 <= k < |d| ==> d[k] in S
    ensures |d| <= |S|
  {
    if |d| > 0 {
      var rest := S - {d[0]};
      forall k | 0 <= k < |d| - 1 ensures d[1..][k] in rest {
        assert d[1..][k] == d[k + 1];
      }
      DistinctWithin(d[1..], rest);
    }
  }

  /** With three of one face and two of another, the distinct faces are
      those two, in order of first appearance. */
  lemma TwoFacesDistinct(s: seq<int>, a: int, b: int)
    requires ValidFaces(s) && a != b && Count(s, a) == 3 && Count(s, b) == 2
    ensures Distinct(s) == [a, b] || Distinct(s) == [b, a]
  {
    var d := Distinct(s);
    OnlyTwoFaces(s, a, b);
    assert a in multiset(s) && b in multiset(s);
    assert a in d && b in d;
    forall k | 0 <= k < |d| ensures d[k] in {a, b} {
      assert d[k] in s;
    }
    DistinctWithin(d, {a, b});
    assert |d| == 2;
  }

  /** Three of one face and two of another give sorted counts [3, 2]. */
  lemma FullHouseComplete(s: seq<int>, a: int, b: int)
    requires ValidFaces(s) && a != b && Count(s, a) == 3 && Count(s, b) == 2
    ensures HasFullHouse(s)
  {
    TwoFacesDistinct(s, a, b);
    if Distinct(s) == [a, b] {
      assert CountsOf(s) == [3, 2];
    } else {
      assert CountsOf(s) == [2, 3];
    }
  }

  /** A full house is exactly three of one face and two of another. */
  lemma FullHouseIff(s: seq<int>)
    requires ValidFaces(s)
    ensures HasFullHouse(s) <==> exists a, b :: a != b && Count(s, a) == 3 && Count(s, b) == 2
  {
    if HasFullHouse(s) {
      FullHouseSound(s);
    }
    if a, b :| a != b && Count(s, a) == 3 && Count(s, b) == 2 {
      FullHouseComplete(s, a, b);
    }
  }

  /** The faces of a roll are the five faces of `lo..lo+4` exactly when they
      form that set. */
  lemma RunSetIff(s: seq<int>, lo: int)
    requires ValidFaces(s)
    ensures ValueSet(s) == {lo, lo + 1, lo + 2, lo + 3, lo + 4}
        <==> multiset(s) == multiset{lo, lo + 1, lo + 2, lo + 3, lo + 4}
  {
    var vs := ValueSet(s);
    var run := {lo, lo + 1, lo + 2, lo + 3, lo + 4};
    if vs == run {
      assert lo in vs && lo + 1 in vs && lo + 2 in vs && lo + 3 in vs && lo + 4 in vs;
      FillsMultiset(s, multiset{lo, lo + 1, lo + 2, lo + 3, lo + 4});
    }
    if multiset(s) == multiset{lo, lo + 1, lo + 2, lo + 3, lo + 4} {
      forall v ensures v in vs <==> v in run {
        assert v in s <==> v in multiset(s);
      }
    }
  }

  /** A large straight is a permutation of 1..5 or of 2..6. */
  lemma LargeStraightIff(s: seq<int>)
    requires ValidFaces(s)
    ensures CalculateScore(LargeStraight, s) == 40 <==>
      (multiset(s) == multiset{1, 2, 3, 4, 5} || multiset(s) == multiset{2, 3, 4, 5, 6})
  {
    RunSetIff(s, 1);
    RunSetIff(s, 2);
  }

  /** Five equal faces count one face five times. */
  lemma AllEqualCount(s: seq<int>)
    requires ValidFaces(s)
    requires forall i :: 0 <= i < |s| ==> s[i] == s[0]
    ensures Count(s, s[0]) == 5
  {
    assert s == [s[0], s[0], s[0], s[0], s[0]];
  }

  /** A face counted five times is every face. */
  lemma CountFiveAllEqual(s: seq<int>, v: int)
    requires ValidFaces(s) && Count(s, v) >= 5
    ensures forall i :: 0 <= i < |s| ==> s[i] == s[0]
  {
    FillsMultiset(s, multiset{v, v, v, v, v});
    forall i | 0 <= i < |s| ensures s[i] == v {
      assert s[i] in multiset(s);
    }
  }

  /** Yahtzee scores 50 exactly when all five faces are equal. */
  lemma YahtzeeIff(s: seq<int>)
    requires ValidFaces(s)
    ensures CalculateScore(Yahtzee, s) == 50 <==> forall i :: 0 <= i < |s| ==> s[i] == s[0]
  {
    NOfKindIff(s, 5);
    if forall i :: 0 <= i < |s| ==> s[i] == s[0] {
      AllEqualCount(s);
    }
    if v :| Count(s, v) >= 5 {
      CountFiveAllEqual(s, v);
    }
  }

  // ---------------------------------------------------------------------
  // Properties of calculate_score

  /** Reordered dice show the same set of faces. */
  lemma PermutationSameFaces(s: seq<int>, t: seq<int>)
    requires multiset(s) == multiset(t)
    ensures ValueSet(s) == ValueSet(t)
  {
    forall v ensures v in s <==> v in t {
      assert v in s <==> v in multiset(s);
      assert v in t <==> v in multiset(t);
    }
  }

  /** Scores depend only on the multiset of faces, never on dice order. */
  lemma ScoreOrderIndependent(c: Category, s: seq<int>, t: seq<int>)
    requires ValidFaces(s) && multiset(s) == multiset(t)
    ensures ValidFaces(t)
    ensures CalculateScore(c, s) == CalculateScore(c, t)
  {
    assert |t| == |multiset(t)| == |multiset(s)| == |s|;
    SumPermutation(s, t);
    assert forall v :: Count(s, v) == Count(t, v);
    match c
    case ThreeOfKind =>
      NOfKindIff(s, 3); NOfKindIff(t, 3);
    case FourOfKind =>
      NOfKindIff(s, 4); NOfKindIff(t, 4);
    case Yahtzee =>
      NOfKindIff(s, 5); NOfKindIff(t, 5);
    case FullHouse =>
      FullHouseIff(s); FullHouseIff(t);
    case SmallStraight =>
      PermutationSameFaces(s, t);
    case LargeStraight =>
      PermutationSameFaces(s, t);
    case _ =>
  }

  /** Three and four of a kind score the full sum exactly when some face
      occurs that often, and otherwise 0. */
  lemma OfKindScores(s: seq<int>)
    requires ValidFaces(s)
    ensures CalculateScore(ThreeOfKind, s) == (if exists v :: Count(s, v) >= 3 then Sum(s) else 0)
    ensures CalculateScore(FourOfKind, s) == (if exists v :: Count(s, v) >= 4 then Sum(s) else 0)
  {
    NOfKindIff(s, 3);
    NOfKindIff(s, 4);
  }

  /** Every score lies in 0..50. */
  lemma ScoreBounds(c: Category, s: seq<int>)
    requires ValidFaces(s)
    ensures 0 <= CalculateScore(c, s) <= 50
  {
    SumBounds(s);
    SumByFaces(s);
  }

  /** Four of a kind never makes a full house. */
  lemma FourOfKindIsNoFullHouse(s: seq<int>, v: int)
    requires ValidFaces(s) && Count(s, v) >= 4
    ensures CalculateScore(FullHouse, s) == 0
  {
    FullHouseIff(s);
    if a, b :| a != b && Count(s, a) == 3 && Count(s, b) == 2 {
      OnlyTwoFaces(s, a, b);
      assert false;
    }
  }

  /** Five equal faces: both of-a-kind categories and Chance score the sum
      (five times the face), Full House and both straights score 0. */
  lemma FiveOfKindScores(s: seq<int>)
    requires ValidFaces(s) && CalculateScore(Yahtzee, s) == 50
    ensures CalculateScore(ThreeOfKind, s) == 5 * s[0]
    ensures CalculateScore(FourOfKind, s) == 5 * s[0]
    ensures CalculateScore(Chance, s) == 5 * s[0]
    ensures CalculateScore(FullHouse, s) == 0
    ensures CalculateScore(SmallStraight, s) == 0
    ensures CalculateScore(LargeStraight, s) == 0
  {
    YahtzeeIff(s);
    FiveOfKindSums(s);
    FiveOfKindNoPattern(s);
  }

  lemma FiveOfKindSums(s: seq<int>)
    requires ValidFaces(s) && forall i :: 0 <= i < |s| ==> s[i] == s[0]
    ensures CalculateScore(ThreeOfKind, s) == 5 * s[0]
    ensures CalculateScore(FourOfKind, s) == 5 * s[0]
    ensures CalculateScore(Chance, s) == 5 * s[0]
  {
    AllEqualCount(s);
    NOfKindIff(s, 3);
    NOfKindIff(s, 4);
    SumOfEqual(s, s[0]);
  }

  lemma FiveOfKindNoPattern(s: seq<int>)
    requires ValidFaces(s) && forall i :: 0 <= i < |s| ==> s[i] == s[0]
    ensures CalculateScore(FullHouse, s) == 0
    ensures CalculateScore(SmallStraight, s) == 0
    ensures CalculateScore(LargeStraight, s) == 0
  {
    AllEqualCount(s);
    FourOfKindIsNoFullHouse(s, s[0]);
    FiveOfKindNoStraight(s);
  }

  lemma FiveOfKindNoStraight(s: seq<int>)
    requires ValidFaces(s) && forall i :: 0 <= i < |s| ==> s[i] == s[0]
    ensures CalculateScore(SmallStraight, s) == 0
    ensures CalculateScore(LargeStraight, s) == 0
  {
    assert ValueSet(s) == {s[0]} by {
      assert s == [s[0], s[0], s[0], s[0], s[0]];
    }
  }

  /** Every large straight also counts as a small straight. */
  lemma LargeImpliesSmall(s: seq<int>)
    requires ValidFaces(s) && CalculateScore(LargeStraight, s) == 40
    ensures CalculateScore(SmallStraight, s) == 30
  {
  }

  /** The six upper-section scores of a roll add up to its Chance score. */
  lemma UpperScoresSumToChance(s: seq<int>)
    requires ValidFaces(s)
    ensures CalculateScore(Ones, s) + CalculateScore(Twos, s) + CalculateScore(Threes, s)
          + CalculateScore(Fours, s) + CalculateScore(Fives, s) + CalculateScore(Sixes, s)
         == CalculateScore(Chance, s)
  {
    SumByFaces(s);
  }
}

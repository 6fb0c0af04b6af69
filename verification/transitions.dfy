/**
 * `TRANSITIONS` of dice_tables.py: for a held multiset of faces, the
 * distribution over the combos that result from keeping those faces and
 * rerolling the other dice.
 *
 * Each outcome carries the number of ordered rerolls that produce it; its
 * probability is that number over 6^k for `k` rerolled dice, which is what
 * the source accumulates as a sum of (1/6)^k terms.
 */
module Transitions {
  import opened Dice
  import opened Combos
  import opened DiceTables
  import opened Multinomial

  /** One entry of a transition list: a combo index and the number of
      ordered rerolls landing on it. */
  datatype Outcome = Outcome(index: nat, ways: nat)

  /** Some entry is for combo `j`. */
  predicate HasIndex(os: seq<Outcome>, j: nat) {
    |os| > 0 && (os[0].index == j || HasIndex(os[1..], j))
  }

  /** No combo has two entries (the keys of a dict). */
  predicate DistinctIndices(os: seq<Outcome>) {
    |os| == 0 || (!HasIndex(os[1..], os[0].index) && DistinctIndices(os[1..]))
  }

  predicate AllPositive(os: seq<Outcome>) {
    forall k :: 0 <= k < |os| ==> os[k].ways >= 1
  }

  /** The ordered rerolls recorded for combo `i` (0 when it is absent). */
  function WaysOf(os: seq<Outcome>, i: nat): nat {
    if |os| == 0 then 0
    else (if os[0].index == i then os[0].ways else 0) + WaysOf(os[1..], i)
  }

  function TotalWays(os: seq<Outcome>): nat {
    if |os| == 0 then 0 else os[0].ways + TotalWays(os[1..])
  }

  /** `outcome_probs[idx] = outcome_probs.get(idx, 0.0) + prob`: the entry for
      `i` gains one reroll, or a new entry is appended at the end (a dict
      keeps insertion order). */
  function Bump(acc: seq<Outcome>, i: nat): (r: seq<Outcome>)
    ensures TotalWays(r) == TotalWays(acc) + 1
    ensures AllPositive(acc) ==> AllPositive(r)
  {
    if |acc| == 0 then [Outcome(i, 1)]
    else if acc[0].index == i then [acc[0].(ways := acc[0].ways + 1)] + acc[1..]
    else [acc[0]] + Bump(acc[1..], i)
  }

  /** Bumping adds one reroll to combo `i` and to no other. */
  lemma {:induction false} BumpWays(acc: seq<Outcome>, i: nat, j: nat)
    ensures WaysOf(Bump(acc, i), j) == WaysOf(acc, j) + (if j == i then 1 else 0)
  {
    if |acc| > 0 && acc[0].index != i {
      BumpWays(acc[1..], i, j);
      assert Bump(acc, i)[1..] == Bump(acc[1..], i);
    } else if |acc| > 0 {
      assert Bump(acc, i)[1..] == acc[1..];
    }
  }

  /** After bumping, the combos with an entry are the old ones and `i`. */
  lemma {:induction false} BumpHasIndex(acc: seq<Outcome>, i: nat, j: nat)
    ensures HasIndex(Bump(acc, i), j) <==> HasIndex(acc, j) || j == i
  {
    if |acc| > 0 && acc[0].index != i {
      BumpHasIndex(acc[1..], i, j);
      assert Bump(acc, i)[1..] == Bump(acc[1..], i);
    } else if |acc| > 0 {
      assert Bump(acc, i)[1..] == acc[1..];
    }
  }

  /** Bumping keeps the indices distinct. */
  lemma {:induction false} BumpDistinct(acc: seq<Outcome>, i: nat)
    requires DistinctIndices(acc)
    ensures DistinctIndices(Bump(acc, i))
  {
    if |acc| > 0 && acc[0].index != i {
      BumpDistinct(acc[1..], i);
      BumpHasIndex(acc[1..], i, acc[0].index);
      assert Bump(acc, i)[1..] == Bump(acc[1..], i);
    } else if |acc| > 0 {
      assert Bump(acc, i)[1..] == acc[1..];
    }
  }

  /** The combo reached by keeping `held` and rolling `reroll`. */
  function ResultIndex(held: seq<int>, reroll: seq<int>): nat
    requires AllFaces(held) && AllFaces(reroll) && |held| + |reroll| == NumDice
  {
    var all := held + reroll;
    JoinValid(held, reroll);
    SortIsCombo(all);
    ComboIndex(SortAsc(all))
  }

  lemma JoinValid(held: seq<int>, reroll: seq<int>)
    requires AllFaces(held) && AllFaces(reroll) && |held| + |reroll| == NumDice
    ensures ValidFaces(held + reroll)
  {
    var all := held + reroll;
    forall k | 0 <= k < |all| ensures IsFace(all[k]) {
      if k >= |held| {
        assert all[k] == reroll[k - |held|];
      }
    }
  }

  /** The combo reached holds exactly the kept and the rolled faces. */
  lemma ResultFaces(held: seq<int>, reroll: seq<int>)
    requires AllFaces(held) && AllFaces(reroll) && |held| + |reroll| == NumDice
    ensures ResultIndex(held, reroll) < |AllCombos()|
    ensures multiset(AllCombos()[ResultIndex(held, reroll)]) == multiset(held) + multiset(reroll)
  {
    JoinValid(held, reroll);
    SortIsCombo(held + reroll);
  }

  /** Every reroll in `rs` rolls exactly `k` faces. */
  predicate Rerolls(rs: seq<seq<int>>, k: nat) {
    forall j :: 0 <= j < |rs| ==> |rs[j]| == k && AllFaces(rs[j])
  }

  /** The combo each reroll of `rs` completes `held` to, in order. */
  function Landings(held: seq<int>, rs: seq<seq<int>>): (ls: seq<nat>)
    requires AllFaces(held) && |held| <= NumDice && Rerolls(rs, NumDice - |held|)
    ensures |ls| == |rs|
    ensures forall j :: 0 <= j < |rs| ==> ls[j] == ResultIndex(held, rs[j])
  {
    seq(|rs|, j requires 0 <= j < |rs| => ResultIndex(held, rs[j]))
  }

  /** The loop of `_build_transitions`, given the combo each reroll lands
      on: the outcome of each one is bumped in turn. */
  function Tally(ls: seq<nat>, acc: seq<Outcome>): (r: seq<Outcome>)
    ensures TotalWays(r) == TotalWays(acc) + |ls|
    ensures AllPositive(acc) ==> AllPositive(r)
  {
    if |ls| == 0 then acc else Tally(ls[1..], Bump(acc, ls[0]))
  }

  /** `TRANSITIONS[held]`: holding all five dice leads to their own combo
      with certainty; otherwise every ordered reroll of the other dice is
      counted towards the combo it completes. */
  function Transition(held: seq<int>): seq<Outcome>
    requires AllFaces(held) && |held| <= NumDice
  {
    if |held| == NumDice then Certain(held) else RerollAll(held)
  }

  /** Holding every die: the held combo, reached in the one way. */
  function Certain(held: seq<int>): seq<Outcome>
    requires AllFaces(held) && |held| == NumDice
  {
    SortIsCombo(held);
    [Outcome(ComboIndex(SortAsc(held)), 1)]
  }

  /** The tally over every ordered roll of the other dice. */
  function RerollAll(held: seq<int>): seq<Outcome>
    requires AllFaces(held) && |held| <= NumDice
  {
    ProductRerolls(Rerolled(held));
    Tally(Landings(held, Products(Rerolled(held))), [])
  }

  lemma ProductRerolls(k: nat)
    ensures Rerolls(Products(k), k) && |Products(k)| == Pow6(k)
  {
    ProductsSize(k);
  }

  /** The number of dice rerolled when `held` is kept. */
  function Rerolled(held: seq<int>): nat
    requires |held| <= NumDice
  {
    NumDice - |held|
  }

  // ---------------------------------------------------------------------
  // The tally

  /** The counts of a tally are those of its landings. */
  lemma {:induction false} TallyWays(ls: seq<nat>, acc: seq<Outcome>, i: nat)
    ensures WaysOf(Tally(ls, acc), i) == WaysOf(acc, i) + multiset(ls)[i]
  {
    if |ls| > 0 {
      TallyWays(ls[1..], Bump(acc, ls[0]), i);
      BumpWays(acc, ls[0], i);
      assert ls == [ls[0]] + ls[1..];
    }
  }

  lemma {:induction false} TallyDistinct(ls: seq<nat>, acc: seq<Outcome>)
    requires DistinctIndices(acc)
    ensures DistinctIndices(Tally(ls, acc))
  {
    if |ls| > 0 {
      BumpDistinct(acc, ls[0]);
      TallyDistinct(ls[1..], Bump(acc, ls[0]));
    }
  }

  /** The combo of an outcome contains the held faces. */
  predicate Extends(held: seq<int>, i: nat) {
    i < |AllCombos()| && multiset(held) <= multiset(AllCombos()[i])
  }

  predicate AllExtend(held: seq<int>, os: seq<Outcome>) {
    |os| == 0 || (Extends(held, os[0].index) && AllExtend(held, os[1..]))
  }

  lemma {:induction false} BumpExtends(held: seq<int>, acc: seq<Outcome>, i: nat)
    requires AllExtend(held, acc) && Extends(held, i)
    ensures AllExtend(held, Bump(acc, i))
  {
    if |acc| > 0 && acc[0].index != i {
      BumpExtends(held, acc[1..], i);
      assert Bump(acc, i)[1..] == Bump(acc[1..], i);
    } else if |acc| > 0 {
      assert Bump(acc, i)[1..] == acc[1..];
    }
  }

  lemma {:induction false} TallyExtends(held: seq<int>, ls: seq<nat>, acc: seq<Outcome>)
    requires forall j :: 0 <= j < |ls| ==> Extends(held, ls[j])
    requires AllExtend(held, acc)
    ensures AllExtend(held, Tally(ls, acc))
  {
    if |ls| > 0 {
      BumpExtends(held, acc, ls[0]);
      TallyExtends(held, ls[1..], Bump(acc, ls[0]));
    }
  }

  /** Keeping `held` and rolling the rest gives a combo containing `held`. */
  lemma LandingsExtend(held: seq<int>, rs: seq<seq<int>>)
    requires AllFaces(held) && |held| <= NumDice && Rerolls(rs, NumDice - |held|)
    ensures forall j :: 0 <= j < |rs| ==> Extends(held, Landings(held, rs)[j])
  {
    forall j | 0 <= j < |rs| ensures Extends(held, Landings(held, rs)[j]) {
      ResultFaces(held, rs[j]);
    }
  }

  /** Ways are recorded only for combos that have an entry. */
  lemma {:induction false} WaysHasIndex(os: seq<Outcome>, i: nat)
    ensures WaysOf(os, i) > 0 ==> HasIndex(os, i)
  {
    if |os| > 0 {
      WaysHasIndex(os[1..], i);
    }
  }

  lemma {:induction false} HasIndexExtends(held: seq<int>, os: seq<Outcome>, i: nat)
    requires AllExtend(held, os) && HasIndex(os, i)
    ensures Extends(held, i)
  {
    if os[0].index != i {
      HasIndexExtends(held, os[1..], i);
    }
  }

  // ---------------------------------------------------------------------
  // TRANSITIONS[held]

  /** The index of the held combo, with what it is. */
  lemma CertainIndex(held: seq<int>) returns (i: nat)
    requires AllFaces(held) && |held| == NumDice
    ensures Extends(held, i) && Transition(held) == [Outcome(i, 1)]
    ensures IsCombo(SortAsc(held)) && i == ComboIndex(SortAsc(held))
  {
    SortIsCombo(held);
    i := ComboIndex(SortAsc(held));
    assert multiset(AllCombos()[i]) == multiset(held);
  }

  lemma SingleShape(held: seq<int>, i: nat)
    requires Extends(held, i)
    ensures DistinctIndices([Outcome(i, 1)]) && AllPositive([Outcome(i, 1)]) && AllExtend(held, [Outcome(i, 1)])
    ensures TotalWays([Outcome(i, 1)]) == 1
  {
    assert [Outcome(i, 1)][1..] == [];
  }

  /** A reroll transition is the tally of its landings. */
  lemma RerollAllIs(held: seq<int>) returns (ls: seq<nat>)
    requires AllFaces(held) && |held| < NumDice
    ensures Rerolls(Products(Rerolled(held)), Rerolled(held))
    ensures |Products(Rerolled(held))| == Pow6(Rerolled(held))
    ensures ls == Landings(held, Products(Rerolled(held)))
    ensures Transition(held) == Tally(ls, [])
  {
    ProductRerolls(Rerolled(held));
    ls := Landings(held, Products(Rerolled(held)));
  }

  /** The weights of a transition add up to 6^k for `k` rerolled dice: its
      probabilities sum to 1. */
  lemma TransitionTotal(held: seq<int>)
    requires AllFaces(held) && |held| <= NumDice
    ensures TotalWays(Transition(held)) == Pow6(Rerolled(held))
  {
    if |held| == NumDice {
      var i := CertainIndex(held);
      SingleShape(held, i);
    } else {
      var ls := RerollAllIs(held);
    }
  }

  /** A transition lists each combo at most once, with a positive weight,
      and only combos containing the held faces. */
  lemma TransitionShape(held: seq<int>)
    requires AllFaces(held) && |held| <= NumDice
    ensures DistinctIndices(Transition(held))
    ensures AllPositive(Transition(held))
    ensures AllExtend(held, Transition(held))
  {
    if |held| == NumDice {
      var i := CertainIndex(held);
      SingleShape(held, i);
    } else {
      var ls := RerollAllIs(held);
      LandingsExtend(held, Products(Rerolled(held)));
      TallyShape(held, ls);
    }
  }

  lemma TallyShape(held: seq<int>, ls: seq<nat>)
    requires forall j :: 0 <= j < |ls| ==> Extends(held, ls[j])
    ensures DistinctIndices(Tally(ls, [])) && AllPositive(Tally(ls, [])) && AllExtend(held, Tally(ls, []))
  {
    TallyDistinct(ls, []);
    TallyExtends(held, ls, []);
  }

  /** After a reroll, each combo's weight is the number of ordered rerolls
      of the free dice that complete the held faces to it. */
  lemma TransitionWays(held: seq<int>, i: nat)
    requires AllFaces(held) && |held| < NumDice
    ensures Rerolls(Products(Rerolled(held)), Rerolled(held))
    ensures WaysOf(Transition(held), i) == multiset(Landings(held, Products(Rerolled(held))))[i]
  {
    var ls := RerollAllIs(held);
    TallyWays(ls, [], i);
  }

  /** The combos reachable from a hold are exactly those containing it. */
  lemma TransitionSupport(held: seq<int>, i: nat)
    requires AllFaces(held) && |held| <= NumDice
    ensures WaysOf(Transition(held), i) > 0 <==> Extends(held, i)
  {
    TransitionShape(held);
    WaysHasIndex(Transition(held), i);
    if WaysOf(Transition(held), i) > 0 {
      HasIndexExtends(held, Transition(held), i);
    }
    if Extends(held, i) {
      if |held| == NumDice {
        CertainReaches(held, i);
      } else {
        RerollReaches(held, i);
      }
    }
  }

  /** With every die held, the one combo containing the hold is its own. */
  lemma CertainReaches(held: seq<int>, i: nat)
    requires AllFaces(held) && |held| == NumDice && Extends(held, i)
    ensures WaysOf(Transition(held), i) > 0
  {
    var j := CertainIndex(held);
    ComboIndexInverse(i);
    SubMultisetFull(multiset(held), multiset(AllCombos()[i]));
    SortedUnique(SortAsc(held), AllCombos()[i]);
  }

  /** A sub-multiset as large as the whole is the whole. */
  lemma SubMultisetFull(a: multiset<int>, b: multiset<int>)
    requires a <= b && |a| == |b|
    ensures a == b
  {
    var d := b - a;
    assert b == a + d;
    assert |d| == 0;
  }

  /** Some ordered roll of the free dice completes the hold to combo `i`. */
  lemma RerollReaches(held: seq<int>, i: nat)
    requires AllFaces(held) && |held| < NumDice && Extends(held, i)
    ensures WaysOf(Transition(held), i) > 0
  {
    ComboIndexInverse(i);
    var r := Completion(held, AllCombos()[i]);
    TransitionWays(held, i);
    HitsAt(held, i, r, Rerolled(held));
  }

  lemma HitsAt(held: seq<int>, i: nat, r: seq<int>, k: nat)
    requires AllFaces(held) && AllFaces(r) && |held| + |r| == NumDice && k == |r|
    requires i < |AllCombos()| && multiset(AllCombos()[i]) == multiset(held) + multiset(r)
    requires Rerolls(Products(k), k)
    ensures multiset(Landings(held, Products(k)))[i] > 0
  {
    ProductsComplete(r);
    LandsOn(held, Products(k), r, i);
  }

  /** A reroll in the list that completes the hold to `i` is counted. */
  lemma LandsOn(held: seq<int>, rs: seq<seq<int>>, r: seq<int>, i: nat)
    requires AllFaces(held) && |held| <= NumDice && Rerolls(rs, NumDice - |held|)
    requires r in rs
    requires i < |AllCombos()| && multiset(AllCombos()[i]) == multiset(held) + multiset(r)
    ensures multiset(Landings(held, rs))[i] > 0
  {
    var j :| 0 <= j < |rs| && rs[j] == r;
    SameCombo(held, r, i);
    assert Landings(held, rs)[j] == i;
  }

  /** The faces that complete `held` to the combo `c`, in some order. */
  function Completion(held: seq<int>, c: seq<int>): (r: seq<int>)
    requires AllFaces(held) && IsCombo(c) && multiset(held) <= multiset(c)
    ensures |held| + |r| == NumDice && AllFaces(r)
    ensures multiset(c) == multiset(held) + multiset(r)
  {
    var rest := multiset(c) - multiset(held);
    var r := Select(c, ChooseFlags(c, rest));
    ChooseFlagsSelects(c, rest);
    CompletionFaces(c, r);
    assert multiset(c) == multiset(held) + rest;
    assert |multiset(r)| == |r| && |multiset(held)| == |held|;
    r
  }

  lemma CompletionFaces(c: seq<int>, r: seq<int>)
    requires IsCombo(c) && multiset(r) <= multiset(c)
    ensures AllFaces(r)
  {
    forall k | 0 <= k < |r| ensures IsFace(r[k]) {
      assert r[k] in multiset(r);
      assert r[k] in multiset(c);
    }
  }

  /** The combo a reroll completes the hold to is the one with its faces. */
  lemma SameCombo(held: seq<int>, r: seq<int>, i: nat)
    requires AllFaces(held) && AllFaces(r) && |held| + |r| == NumDice
    requires i < |AllCombos()| && multiset(AllCombos()[i]) == multiset(held) + multiset(r)
    ensures ResultIndex(held, r) == i
  {
    AllCombosAreCombos();
    var j := ResultIndex(held, r);
    ResultFaces(held, r);
    SortedUnique(AllCombos()[i], AllCombos()[j]);
    ComboIndexInverse(i);
    ComboIndexInverse(j);
  }

  /** Holding all five dice yields the held combo with certainty. */
  lemma HoldAllCertain(held: seq<int>)
    requires AllFaces(held) && |held| == NumDice
    ensures IsCombo(SortAsc(held))
    ensures WaysOf(Transition(held), ComboIndex(SortAsc(held))) == TotalWays(Transition(held)) == 1
  {
    var i := CertainIndex(held);
    SingleShape(held, i);
  }

  /** Holding nothing, every combo can be rolled. */
  lemma HoldNoneReachesAll(held: seq<int>, i: nat)
    requires held == [] && i < |AllCombos()|
    ensures WaysOf(Transition(held), i) > 0
  {
    TransitionSupport(held, i);
  }

  // ---------------------------------------------------------------------
  // The roll from an empty hold and the multinomial weights

  /** A full roll lands on combo `c` exactly when it shows its faces. */
  lemma LandsOnCombo(r: seq<int>, c: seq<int>)
    requires AllFaces(r) && |r| == NumDice && IsCombo(c)
    ensures ResultIndex([], r) == ComboIndex(c) <==> Shows(r, multiset(c))
  {
    var e: seq<int> := [];
    assert e + r == r;
    ShowsMultiset(r, multiset(c));
    ResultFaces(e, r);
    if multiset(r) == multiset(c) {
      SameCombo(e, r, ComboIndex(c));
    }
  }

  /** Counting the landings on `c` counts the rolls that show it. */
  lemma LandingsCount(held: seq<int>, rs: seq<seq<int>>, c: seq<int>)
    requires held == [] && Rerolls(rs, NumDice) && IsCombo(c)
    ensures multiset(Landings(held, rs))[ComboIndex(c)] == RollsShowing(rs, multiset(c))
  {
    var ls := Landings(held, rs);
    forall j | 0 <= j < |rs|
      ensures ls[j] == ComboIndex(c) <==> Shows(rs[j], multiset(c))
    {
      LandsOnCombo(rs[j], c);
    }
    CountMatches(ls, rs, ComboIndex(c), multiset(c));
  }

  /** A list of combo indices that hits `i` exactly where the rolls show
      `m` counts `i` as often as the rolls show `m`. */
  lemma {:induction false} CountMatches(ls: seq<nat>, rs: seq<seq<int>>, i: nat, m: multiset<int>)
    requires |ls| == |rs|
    requires forall j :: 0 <= j < |rs| ==> (ls[j] == i <==> Shows(rs[j], m))
    ensures multiset(ls)[i] == RollsShowing(rs, m)
  {
    if |rs| > 0 {
      assert ls == [ls[0]] + ls[1..];
      CountMatches(ls[1..], rs[1..], i, m);
    }
  }

  /** `_multinomial_prob` and `TRANSITIONS[()]` agree: the weight of a combo
      is the number of ordered rolls of five fresh dice that land on it. */
  lemma WeightIsWays(held: seq<int>, c: seq<int>)
    requires held == [] && IsCombo(c)
    ensures Weight(c) == WaysOf(Transition(held), ComboIndex(c))
  {
    TransitionWays(held, ComboIndex(c));
    WeightCountsRolls(c);
    LandingsCount(held, Products(|c|), c);
  }

  /** A combo's roll probability is its share of the fresh-roll outcomes. */
  lemma RollProbabilityIsShare(held: seq<int>, c: seq<int>)
    requires held == [] && IsCombo(c)
    ensures RollProbability(c) == WaysOf(Transition(held), ComboIndex(c)) as real / TotalWays(Transition(held)) as real
  {
    WeightIsWays(held, c);
    TransitionTotal(held);
    assert Rerolled(held) == |c|;
    ShareOf(Weight(c), TotalWays(Transition(held)), Pow6(|c|), RollProbability(c));
  }

  lemma ShareOf(w: nat, t: nat, u: nat, p: real)
    requires u > 0 && t == u && p == w as real / u as real
    ensures p == w as real / t as real
  {
  }

  /** The ways of the combos below `n`, added up. */
  function SumWays(os: seq<Outcome>, n: nat): nat {
    if n == 0 then 0 else SumWays(os, n - 1) + WaysOf(os, n - 1)
  }

  lemma {:induction false} SumWaysNone(n: nat)
    ensures SumWays([], n) == 0
  {
    if n > 0 {
      SumWaysNone(n - 1);
    }
  }

  lemma {:induction false} SumWaysSplit(os: seq<Outcome>, n: nat)
    requires |os| > 0
    ensures SumWays(os, n) == SumWays(os[1..], n) + (if os[0].index < n then os[0].ways else 0)
  {
    if n > 0 {
      SumWaysSplit(os, n - 1);
    }
  }

  /** Over every combo, the ways add up to the whole tally. */
  lemma {:induction false} SumWaysTotal(held: seq<int>, os: seq<Outcome>)
    requires AllExtend(held, os)
    ensures SumWays(os, |AllCombos()|) == TotalWays(os)
  {
    if |os| == 0 {
      SumWaysNone(|AllCombos()|);
    } else {
      SumWaysSplit(os, |AllCombos()|);
      SumWaysTotal(held, os[1..]);
    }
  }

  /** `cs` lists combos, each at its own `COMBO_TO_INDEX` position. */
  predicate Listed(cs: seq<seq<int>>) {
    forall j :: 0 <= j < |cs| ==> IsCombo(cs[j]) && ComboIndex(cs[j]) == j
  }

  lemma ListedFront(cs: seq<seq<int>>)
    requires Listed(cs) && |cs| > 0
    ensures Listed(cs[..|cs| - 1])
  {
    var front := cs[..|cs| - 1];
    forall j | 0 <= j < |front| ensures IsCombo(front[j]) && ComboIndex(front[j]) == j {
      assert front[j] == cs[j];
    }
  }

  lemma {:induction false} WeightsAreWays(held: seq<int>, cs: seq<seq<int>>)
    requires held == [] && Listed(cs)
    ensures TotalWeight(cs) == SumWays(Transition(held), |cs|)
  {
    if |cs| > 0 {
      var front, c := cs[..|cs| - 1], cs[|cs| - 1];
      ListedFront(cs);
      WeightsAreWays(held, front);
      WeightIsWays(held, c);
    }
  }

  /** The multinomial weights of all the combos add up to 6^5: the roll
      probabilities sum to one. */
  lemma WeightsSum(held: seq<int>)
    requires held == []
    ensures (forall j :: 0 <= j < |AllCombos()| ==> IsCombo(AllCombos()[j])) && TotalWeight(AllCombos()) == Pow6(NumDice)
  {
    forall j | 0 <= j < |AllCombos()|
      ensures IsCombo(AllCombos()[j]) && ComboIndex(AllCombos()[j]) == j
    {
      ComboIndexInverse(j);
    }
    WeightsAreWays(held, AllCombos());
    TransitionShape(held);
    SumWaysTotal(held, Transition(held));
    TransitionTotal(held);
  }
}

/**
 * The precomputed tables of dice_tables.py: the multinomial weight of each
 * combo, `SCORE_TABLE`, `unique_holds`, the reroll `TRANSITIONS` and the
 * backward induction behind `CATEGORY_EV`.
 *
 * Probabilities are kept exact: a combo's roll probability is its weight
 * over 6^5, and a reroll outcome's probability is the number of ordered
 * rerolls producing it over 6^k; expected values are Dafny reals.
 */
module DiceTables {
  import opened Categories
  import opened Dice
  import opened Scoring
  import opened Combos
  import opened Multinomial

  // ---------------------------------------------------------------------
  // Multinomial weights (`_multinomial_prob` without the final / 6^5)

  /** 5! / (n1! n2! …): the number of ordered rolls showing combo `c`. */
  function Weight(c: seq<int>): nat
    requires IsCombo(c)
  {
    DivideByCounts(Factorial(NumDice), c, 1)
  }

  /** `_multinomial_prob`: the weight out of 6^5 = 7776. */
  function RollProbability(c: seq<int>): (p: real)
    requires IsCombo(c)
    ensures p == Weight(c) as real / Pow6(|c|) as real
  {
    assert Pow6(|c|) == Pow6(NumDice) == 7776;
    Weight(c) as real / 7776.0
  }

  /** The weights of the combos `cs`, added up. */
  function TotalWeight(cs: seq<seq<int>>): nat
    requires forall j :: 0 <= j < |cs| ==> IsCombo(cs[j])
  {
    if |cs| == 0 then 0 else TotalWeight(cs[..|cs| - 1]) + Weight(cs[|cs| - 1])
  }

  /** Five equal faces can be rolled in one order only. */
  lemma WeightFiveOfKind()
    ensures Weight([1, 1, 1, 1, 1]) == 1
  {
    var s := [1, 1, 1, 1, 1];
    assert multiset(s) == multiset{1, 1, 1, 1, 1};
    assert Count(s, 1) == 5;
    assert DivideByCounts(1, s, 2) == 1;
  }

  /** One-one-two-three-four can be rolled in 60 orders. */
  lemma WeightOnePair()
    ensures Weight([1, 1, 2, 3, 4]) == 60
  {
    var s := [1, 1, 2, 3, 4];
    assert multiset(s) == multiset{1, 1, 2, 3, 4};
  }

  /** A straight can be rolled in all 120 orders. */
  lemma WeightStraight()
    ensures Weight([2, 3, 4, 5, 6]) == 120
  {
    var s := [2, 3, 4, 5, 6];
    assert multiset(s) == multiset{2, 3, 4, 5, 6};
  }

  /** `_multinomial_prob`'s numerator counts what it says: the weight of
      combo `c` is the number of ordered rolls of its dice that show it. */
  lemma WeightCountsRolls(c: seq<int>)
    requires IsCombo(c)
    ensures Weight(c) == RollsShowing(Products(|c|), multiset(c))
  {
    var m := multiset(c);
    assert FacesOnly(m);
    CountSumLength(c);
    ArrangementsFactorials(m, |c|);
    ProductsShowing(m, |c|, 1);
    DivideExact(Arrangements(m, |c|, 1), c, 1);
  }

  // ---------------------------------------------------------------------
  // SCORE_TABLE

  /** One row: the score of combo `c` in each category, in enum order. */
  function ScoreRow(c: seq<int>): (row: seq<nat>)
    requires IsCombo(c)
    ensures |row| == NumCategories
    ensures forall cat :: row[Index(cat)] == CalculateScore(cat, c)
  {
    Categories.AllCategoriesDistinct();
    seq(NumCategories, j requires 0 <= j < NumCategories => CalculateScore(AllCategories[j], c))
  }

  /** `SCORE_TABLE`: one row per combo of `ALL_COMBOS`. */
  function ScoreTable(): (t: seq<seq<nat>>)
    ensures |t| == |AllCombos()|
    ensures forall i :: 0 <= i < |t| ==> IsCombo(AllCombos()[i]) && t[i] == ScoreRow(AllCombos()[i])
  {
    AllCombosAreCombos();
    seq(|AllCombos()|, i requires 0 <= i < |AllCombos()| => ScoreRow(AllCombos()[i]))
  }

  /** Looking a roll up in the table by its sorted combo gives the score of
      the roll itself, in whatever order its dice lie. */
  lemma ScoreTableLookup(roll: seq<int>, c: Category)
    requires ValidFaces(roll)
    ensures IsCombo(SortAsc(roll))
    ensures ScoreTable()[ComboIndex(SortAsc(roll))][Index(c)] == CalculateScore(c, roll)
  {
    SortIsCombo(roll);
    var combo := SortAsc(roll);
    ScoreOrderIndependent(c, roll, combo);
    RowLookup(ScoreTable(), ComboIndex(combo), combo, c);
  }

  lemma RowLookup(t: seq<seq<nat>>, i: nat, combo: seq<int>, c: Category)
    requires t == ScoreTable() && i < |AllCombos()| && AllCombos()[i] == combo && IsCombo(combo)
    ensures t[i][Index(c)] == CalculateScore(c, combo)
  {
    assert t[i] == ScoreRow(combo);
  }

  // ---------------------------------------------------------------------
  // unique_holds

  /** The low `n` bits of `mask`, bit 0 first. */
  function Bits(mask: nat, n: nat): (b: seq<bool>)
    ensures |b| == n
  {
    if n == 0 then [] else [mask % 2 == 1] + Bits(mask / 2, n - 1)
  }

  /** The elements of `s` whose flag in `b` is set, in order. */
  function Select(s: seq<int>, b: seq<bool>): seq<int>
    requires |b| == |s|
  {
    if |s| == 0 then [] else (if b[0] then [s[0]] else []) + Select(s[1..], b[1..])
  }

  /** The dice of `s` at the set bits of `mask`, bit `i` for die `i`. */
  function Pick(s: seq<int>, mask: nat): seq<int> {
    Select(s, Bits(mask, |s|))
  }

  /** `tuple(sorted(combo[i] for i in range(5) if mask & (1 << i)))`. */
  function HoldOf(combo: seq<int>, mask: nat): seq<int> {
    SortAsc(Pick(combo, mask))
  }

  /** `unique_holds(combo)`: the holds of all 32 masks; a set, as the source
      returns the contents of a set in no particular order. */
  function UniqueHolds(combo: seq<int>): set<seq<int>> {
    set mask: nat | mask < 32 :: HoldOf(combo, mask)
  }

  /** A sorted sub-multiset of `combo`. */
  predicate SubHold(h: seq<int>, combo: seq<int>) {
    Sorted(h) && multiset(h) <= multiset(combo)
  }

  lemma MultisetOfCons(s: seq<int>)
    requires |s| > 0
    ensures multiset(s) == multiset{s[0]} + multiset(s[1..])
  {
    assert s == [s[0]] + s[1..];
  }

  /** Selecting never invents a die. */
  lemma {:induction false} SelectSub(s: seq<int>, b: seq<bool>)
    requires |b| == |s|
    ensures multiset(Select(s, b)) <= multiset(s)
  {
    if |s| > 0 {
      SelectSub(s[1..], b[1..]);
      MultisetOfCons(s);
    }
  }

  function Pow2(n: nat): (p: nat)
    ensures p >= 1
  {
    if n == 0 then 1 else 2 * Pow2(n - 1)
  }

  /** The mask whose low bits are `b`, bit 0 first. */
  function FromBits(b: seq<bool>): nat {
    if |b| == 0 then 0 else (if b[0] then 1 else 0) + 2 * FromBits(b[1..])
  }

  /** Prepending bit `bit` to the mask `x`: the low bit is `bit`, the rest is `x`. */
  lemma HalveStep(bit: bool, x: nat)
    ensures ((if bit then 1 else 0) + 2 * x) % 2 == 1 <==> bit
    ensures ((if bit then 1 else 0) + 2 * x) / 2 == x
  {
  }

  /** A flag sequence read as a mask fits its width and reads back as itself. */
  lemma {:induction false} FromBitsRoundTrip(b: seq<bool>)
    ensures FromBits(b) < Pow2(|b|)
    ensures Bits(FromBits(b), |b|) == b
  {
    if |b| > 0 {
      FromBitsRoundTrip(b[1..]);
      var x := FromBits(b[1..]);
      var v := FromBits(b);
      assert v == (if b[0] then 1 else 0) + 2 * x;
      HalveStep(b[0], x);
      assert Bits(v, |b|) == [v % 2 == 1] + Bits(v / 2, |b| - 1);
      assert b == [b[0]] + b[1..];
    }
  }

  /** Flags choosing the sub-multiset `m` of `s`: each die is taken while
      its face is still wanted. */
  function ChooseFlags(s: seq<int>, m: multiset<int>): (b: seq<bool>)
    requires m <= multiset(s)
    ensures |b| == |s|
  {
    if |s| == 0 then []
    else
      MultisetOfCons(s);
      if s[0] in m then [true] + ChooseFlags(s[1..], m - multiset{s[0]})
      else [false] + ChooseFlags(s[1..], m)
  }

  lemma SelectTakeStep(s: seq<int>, b: seq<bool>, m: multiset<int>)
    requires |b| == |s| > 0 && b[0] && s[0] in m
    requires multiset(Select(s[1..], b[1..])) == m - multiset{s[0]}
    ensures multiset(Select(s, b)) == m
  {
    assert m == multiset{s[0]} + (m - multiset{s[0]});
  }

  /** The flags chosen for `m` select exactly `m`. */
  lemma {:induction false} ChooseFlagsSelects(s: seq<int>, m: multiset<int>)
    requires m <= multiset(s)
    ensures multiset(Select(s, ChooseFlags(s, m))) == m
  {
    if |s| > 0 {
      MultisetOfCons(s);
      var b := ChooseFlags(s, m);
      if s[0] in m {
        var m' := m - multiset{s[0]};
        ChooseFlagsSelects(s[1..], m');
        assert b[1..] == ChooseFlags(s[1..], m');
        SelectTakeStep(s, b, m);
      } else {
        ChooseFlagsSelects(s[1..], m);
        assert b[1..] == ChooseFlags(s[1..], m);
      }
    }
  }

  /** The holds are exactly the sorted sub-multisets of the combo. */
  lemma UniqueHoldsIff(combo: seq<int>, h: seq<int>)
    requires IsCombo(combo)
    ensures h in UniqueHolds(combo) <==> SubHold(h, combo)
  {
    if h in UniqueHolds(combo) {
      var mask: nat :| mask < 32 && HoldOf(combo, mask) == h;
      SelectSub(combo, Bits(mask, |combo|));
    }
    if SubHold(h, combo) {
      var mask := HoldMask(combo, h);
      assert HoldOf(combo, mask) in UniqueHolds(combo);
    }
  }

  /** The mask holding exactly the dice of a sorted sub-multiset. */
  lemma HoldMask(combo: seq<int>, h: seq<int>) returns (mask: nat)
    requires IsCombo(combo) && SubHold(h, combo)
    ensures mask < 32 && HoldOf(combo, mask) == h
  {
    var flags := ChooseFlags(combo, multiset(h));
    ChooseFlagsSelects(combo, multiset(h));
    FromBitsRoundTrip(flags);
    mask := FromBits(flags);
    assert Pow2(|combo|) == 32;
    SortedUnique(HoldOf(combo, mask), h);
  }

  /** Holding nothing and holding every die are always among the holds. */
  lemma HoldsIncludeNoneAndAll(combo: seq<int>)
    requires IsCombo(combo)
    ensures [] in UniqueHolds(combo) && combo in UniqueHolds(combo)
  {
    UniqueHoldsIff(combo, []);
    UniqueHoldsIff(combo, combo);
  }
}

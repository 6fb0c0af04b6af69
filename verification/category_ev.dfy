/**
 * `CATEGORY_EV` of dice_tables.py: the expected score of a turn devoted to
 * one category, by backward induction over the combos.
 *
 * After the last roll a combo is worth its score; one roll earlier it is
 * worth the better of scoring now and the best hold's expected value; the
 * category's value is the expectation of that over a full roll. Values are
 * exact reals.
 */
module CategoryEv {
  import opened Categories
  import opened Dice
  import opened Scoring
  import opened Combos
  import opened DiceTables
  import opened Transitions

  /** Every outcome names a combo of a table with `n` entries. */
  predicate IndicesBelow(os: seq<Outcome>, n: nat) {
    |os| == 0 || (os[0].index < n && IndicesBelow(os[1..], n))
  }

  lemma {:induction false} ExtendBelow(held: seq<int>, os: seq<Outcome>)
    requires AllExtend(held, os)
    ensures IndicesBelow(os, |AllCombos()|)
  {
    if |os| > 0 {
      ExtendBelow(held, os[1..]);
    }
  }

  /** The sum of weight times value over the outcomes. */
  function Expect(os: seq<Outcome>, values: seq<real>): real
    requires IndicesBelow(os, |values|)
  {
    if |os| == 0 then 0.0
    else os[0].ways as real * values[os[0].index] + Expect(os[1..], values)
  }

  /** The outcome list of a hold, with what the expectation needs of it. */
  lemma TransitionFacts(held: seq<int>)
    requires AllFaces(held) && |held| <= NumDice
    ensures IndicesBelow(Transition(held), |AllCombos()|)
    ensures TotalWays(Transition(held)) == Pow6(Rerolled(held))
  {
    TransitionShape(held);
    ExtendBelow(held, Transition(held));
    TransitionTotal(held);
  }

  /** `sum(prob * value[ci] for ci, prob in TRANSITIONS[held])`: the
      expected value, over the combos a hold leads to, of `values`. */
  function HoldEV(held: seq<int>, values: seq<real>): real
    requires AllFaces(held) && |held| <= NumDice && |values| == |AllCombos()|
  {
    TransitionFacts(held);
    Expect(Transition(held), values) / Pow6(Rerolled(held)) as real
  }

  // ---------------------------------------------------------------------
  // Expectations are averages

  predicate AtLeast(values: seq<real>, lo: real) {
    forall i :: 0 <= i < |values| ==> lo <= values[i]
  }

  predicate AtMost(values: seq<real>, hi: real) {
    forall i :: 0 <= i < |values| ==> values[i] <= hi
  }

  /** Every value lies within `lo..hi`. */
  predicate Within(values: seq<real>, lo: real, hi: real) {
    AtLeast(values, lo) && AtMost(values, hi)
  }

  lemma AboveStep(w: real, v: real, t: real, e: real, lo: real)
    requires w >= 0.0 && lo <= v && lo * t <= e
    ensures lo * (w + t) <= w * v + e
  {
    assert w * lo <= w * v;
  }

  lemma BelowStep(w: real, v: real, t: real, e: real, hi: real)
    requires w >= 0.0 && v <= hi && e <= hi * t
    ensures w * v + e <= hi * (w + t)
  {
    assert w * v <= w * hi;
  }

  /** A weighted sum of values of at least `lo` is at least `lo` times the
      total weight. */
  lemma {:induction false} ExpectAbove(os: seq<Outcome>, values: seq<real>, lo: real)
    requires IndicesBelow(os, |values|) && AtLeast(values, lo)
    ensures lo * TotalWays(os) as real <= Expect(os, values)
  {
    if |os| > 0 {
      ExpectAbove(os[1..], values, lo);
      AboveStep(os[0].ways as real, values[os[0].index], TotalWays(os[1..]) as real,
        Expect(os[1..], values), lo);
    }
  }

  /** A weighted sum of values of at most `hi` is at most `hi` times the
      total weight. */
  lemma {:induction false} ExpectBelow(os: seq<Outcome>, values: seq<real>, hi: real)
    requires IndicesBelow(os, |values|) && AtMost(values, hi)
    ensures Expect(os, values) <= hi * TotalWays(os) as real
  {
    if |os| > 0 {
      ExpectBelow(os[1..], values, hi);
      BelowStep(os[0].ways as real, values[os[0].index], TotalWays(os[1..]) as real,
        Expect(os[1..], values), hi);
    }
  }

  lemma WeightedMono(w: real, v: real, u: real)
    requires w >= 0.0 && v <= u
    ensures w * v <= w * u
  {
  }

  /** Raising the values never lowers the weighted sum. */
  lemma {:induction false} ExpectMono(os: seq<Outcome>, v: seq<real>, u: seq<real>)
    requires |v| == |u| && IndicesBelow(os, |v|)
    requires forall i :: 0 <= i < |v| ==> v[i] <= u[i]
    ensures Expect(os, v) <= Expect(os, u)
  {
    if |os| > 0 {
      ExpectMono(os[1..], v, u);
      WeightedMono(os[0].ways as real, v[os[0].index], u[os[0].index]);
    }
  }

  lemma AverageAbove(e: real, t: nat, lo: real)
    requires t > 0 && lo * t as real <= e
    ensures lo <= e / t as real
  {
  }

  lemma AverageBelow(e: real, t: nat, hi: real)
    requires t > 0 && e <= hi * t as real
    ensures e / t as real <= hi
  {
  }

  /** An average of values of at least `lo` is at least `lo`. */
  lemma AverageOfAbove(os: seq<Outcome>, values: seq<real>, n: nat, lo: real)
    requires IndicesBelow(os, |values|) && AtLeast(values, lo) && TotalWays(os) == n > 0
    ensures lo <= Expect(os, values) / n as real
  {
    ExpectAbove(os, values, lo);
    AverageAbove(Expect(os, values), n, lo);
  }

  /** An average of values of at most `hi` is at most `hi`. */
  lemma AverageOfBelow(os: seq<Outcome>, values: seq<real>, n: nat, hi: real)
    requires IndicesBelow(os, |values|) && AtMost(values, hi) && TotalWays(os) == n > 0
    ensures Expect(os, values) / n as real <= hi
  {
    ExpectBelow(os, values, hi);
    AverageBelow(Expect(os, values), n, hi);
  }

  /** A hold's expected value lies within the bounds of the values. */
  lemma HoldEVWithin(held: seq<int>, values: seq<real>, lo: real, hi: real)
    requires AllFaces(held) && |held| <= NumDice && |values| == |AllCombos()|
    requires Within(values, lo, hi)
    ensures lo <= HoldEV(held, values) <= hi
  {
    TransitionFacts(held);
    AverageOfAbove(Transition(held), values, Pow6(Rerolled(held)), lo);
    AverageOfBelow(Transition(held), values, Pow6(Rerolled(held)), hi);
  }

  lemma DivideMono(a: real, b: real, t: real)
    requires t > 0.0 && a <= b
    ensures a / t <= b / t
  {
  }

  lemma AverageMono(os: seq<Outcome>, v: seq<real>, u: seq<real>, n: nat)
    requires |v| == |u| && IndicesBelow(os, |v|) && n > 0
    requires forall i :: 0 <= i < |v| ==> v[i] <= u[i]
    ensures Expect(os, v) / n as real <= Expect(os, u) / n as real
  {
    ExpectMono(os, v, u);
    DivideMono(Expect(os, v), Expect(os, u), n as real);
  }

  /** A hold's expected value is monotone in the values. */
  lemma HoldEVMono(held: seq<int>, v: seq<real>, u: seq<real>)
    requires AllFaces(held) && |held| <= NumDice && |v| == |u| == |AllCombos()|
    requires forall i :: 0 <= i < |v| ==> v[i] <= u[i]
    ensures HoldEV(held, v) <= HoldEV(held, u)
  {
    TransitionFacts(held);
    AverageMono(Transition(held), v, u, Pow6(Rerolled(held)));
  }

  // ---------------------------------------------------------------------
  // The three phases

  /** `roll3_value`: each combo's score in category `cat`. */
  function Roll3Values(cat: Category): (v: seq<real>)
    ensures |v| == |AllCombos()|
  {
    var t := ScoreTable();
    seq(|AllCombos()|, i requires 0 <= i < |AllCombos()| => t[i][Index(cat)] as real)
  }

  /** The expected value of holding the dice at the set bits of `mask`. */
  function MaskEV(combo: seq<int>, values: seq<real>, mask: nat): real
    requires IsCombo(combo) && |values| == |AllCombos()|
  {
    HoldOfFaces(combo, mask);
    HoldEV(HoldOf(combo, mask), values)
  }

  /** The expected values of the 32 masks' holds, mask by mask. */
  function MaskEVs(combo: seq<int>, values: seq<real>): (evs: seq<real>)
    requires IsCombo(combo) && |values| == |AllCombos()|
    ensures |evs| == 32
  {
    seq(32, m requires 0 <= m < 32 => MaskEV(combo, values, m))
  }

  /** The best of `best` and `evs[k..]`, keeping the earlier value on ties
      as `if ev > best: best = ev` does. */
  function BestOf(evs: seq<real>, best: real, k: nat): real
    requires k <= |evs|
    decreases |evs| - k
  {
    if k == |evs| then best
    else BestOf(evs, if evs[k] > best then evs[k] else best, k + 1)
  }

  /** The hold of a mask is a valid partial roll. */
  lemma HoldOfFaces(combo: seq<int>, mask: nat)
    requires IsCombo(combo)
    ensures AllFaces(HoldOf(combo, mask)) && |HoldOf(combo, mask)| <= NumDice
  {
    var p := Pick(combo, mask);
    SelectSub(combo, Bits(mask, |combo|));
    var h := HoldOf(combo, mask);
    assert multiset(h) == multiset(p);
    CompletionFaces(combo, h);
    var rest := multiset(combo) - multiset(h);
    assert multiset(combo) == multiset(h) + rest;
    assert |multiset(combo)| == |multiset(h)| + |rest|;
    assert |multiset(h)| == |h| && |multiset(combo)| == |combo| == NumDice;
  }

  /** `roll2_value[i]`: scoring combo `i` now, or the best hold. */
  function Roll2Value(cat: Category, i: nat): real
    requires i < |AllCombos()|
  {
    ComboIndexInverse(i);
    var v := Roll3Values(cat);
    BestOf(MaskEVs(AllCombos()[i], v), v[i], 0)
  }

  function Roll2Values(cat: Category): (v: seq<real>)
    ensures |v| == |AllCombos()|
  {
    seq(|AllCombos()|, i requires 0 <= i < |AllCombos()| => Roll2Value(cat, i))
  }

  /** `CATEGORY_EV[cat]`: the expected roll-2 value of a full first roll. */
  function CategoryEV(cat: Category): real {
    HoldEV([], Roll2Values(cat))
  }

  // ---------------------------------------------------------------------
  // What the values promise

  /** The table's value after the last roll is the score of the roll. */
  lemma Roll3IsScore(cat: Category, roll: seq<int>)
    requires ValidFaces(roll)
    ensures IsCombo(SortAsc(roll))
    ensures Roll3Values(cat)[ComboIndex(SortAsc(roll))] == CalculateScore(cat, roll) as real
  {
    ScoreTableLookup(roll, cat);
  }

  /** Every roll-3 value is a score, within 0..50. */
  lemma Roll3Within(cat: Category)
    ensures Within(Roll3Values(cat), 0.0, 50.0)
  {
    var v := Roll3Values(cat);
    forall i | 0 <= i < |v| ensures 0.0 <= v[i] <= 50.0 {
      ComboIndexInverse(i);
      ScoreBounds(cat, AllCombos()[i]);
      RowLookup(ScoreTable(), i, AllCombos()[i], cat);
    }
  }

  /** The search returns the maximum of its start and every value it
      visits, and is one of them. */
  lemma {:induction false} BestOfIsMax(evs: seq<real>, best: real, k: nat)
    requires k <= |evs|
    ensures BestOf(evs, best, k) >= best
    ensures forall m :: k <= m < |evs| ==> BestOf(evs, best, k) >= evs[m]
    ensures BestOf(evs, best, k) == best || exists m :: k <= m < |evs| && BestOf(evs, best, k) == evs[m]
    decreases |evs| - k
  {
    if k < |evs| {
      BestOfIsMax(evs, if evs[k] > best then evs[k] else best, k + 1);
    }
  }

  /** A sorted sub-multiset of a combo is a hold the table can look up. */
  lemma SubHoldPlayable(h: seq<int>, combo: seq<int>)
    requires IsCombo(combo) && SubHold(h, combo)
    ensures AllFaces(h) && |h| <= NumDice
  {
    CompletionFaces(combo, h);
    var rest := multiset(combo) - multiset(h);
    assert multiset(combo) == multiset(h) + rest;
    assert |multiset(combo)| == |multiset(h)| + |rest|;
    assert |multiset(h)| == |h| && |multiset(combo)| == |combo| == NumDice;
  }

  /** The mask search visits exactly the expected values of the holds. */
  lemma MaskEVIsHold(combo: seq<int>, values: seq<real>, m: nat)
    requires IsCombo(combo) && |values| == |AllCombos()| && m < 32
    ensures SubHold(HoldOf(combo, m), combo)
    ensures AllFaces(HoldOf(combo, m)) && |HoldOf(combo, m)| <= NumDice
    ensures MaskEVs(combo, values)[m] == HoldEV(HoldOf(combo, m), values)
  {
    HoldOfFaces(combo, m);
    UniqueHoldsIff(combo, HoldOf(combo, m));
  }

  /** Every hold's expected value is among those the search visits. */
  lemma HoldIsMaskEV(combo: seq<int>, values: seq<real>, h: seq<int>) returns (m: nat)
    requires IsCombo(combo) && |values| == |AllCombos()| && SubHold(h, combo)
    requires AllFaces(h) && |h| <= NumDice
    ensures m < 32 && MaskEVs(combo, values)[m] == HoldEV(h, values)
  {
    m := HoldMask(combo, h);
    MaskEVIsHold(combo, values, m);
  }

  /** `Roll2Value` as the search over the combo's mask values. */
  lemma Roll2Unfold(cat: Category, i: nat) returns (combo: seq<int>, v: seq<real>, evs: seq<real>)
    requires i < |AllCombos()|
    ensures combo == AllCombos()[i] && IsCombo(combo) && v == Roll3Values(cat)
    ensures |v| == |AllCombos()| && evs == MaskEVs(combo, v)
    ensures Roll2Value(cat, i) == BestOf(evs, v[i], 0)
  {
    ComboIndexInverse(i);
    combo := AllCombos()[i];
    v := Roll3Values(cat);
    evs := MaskEVs(combo, v);
  }

  /** One roll before the end a combo is worth at least its score. */
  lemma Roll2AtLeastScore(cat: Category, i: nat)
    requires i < |AllCombos()|
    ensures Roll2Value(cat, i) >= Roll3Values(cat)[i]
  {
    var combo, v, evs := Roll2Unfold(cat, i);
    BestOfIsMax(evs, v[i], 0);
  }

  /** One roll before the end a combo is worth at least the expected value
      of any hold of its dice. */
  lemma Roll2AtLeastHold(cat: Category, i: nat, h: seq<int>)
    requires i < |AllCombos()| && SubHold(h, AllCombos()[i]) && AllFaces(h) && |h| <= NumDice
    ensures Roll2Value(cat, i) >= HoldEV(h, Roll3Values(cat))
  {
    var combo, v, evs := Roll2Unfold(cat, i);
    var m := HoldIsMaskEV(combo, v, h);
    BestOfIsMax(evs, v[i], 0);
  }

  /** The value is attained: it is the score, or the expected value of the
      returned hold. */
  lemma Roll2Attained(cat: Category, i: nat) returns (h: seq<int>)
    requires i < |AllCombos()|
    ensures SubHold(h, AllCombos()[i]) && AllFaces(h) && |h| <= NumDice
    ensures Roll2Value(cat, i) == Roll3Values(cat)[i] || Roll2Value(cat, i) == HoldEV(h, Roll3Values(cat))
  {
    var combo, v, evs := Roll2Unfold(cat, i);
    var m := BestOfWitness(evs, v[i]);
    MaskEVIsHold(combo, v, m);
    h := HoldOf(combo, m);
  }

  /** The value of combo `i` one roll before the end is the larger of its
      score and the best expected value of any hold. */
  lemma Roll2IsBest(cat: Category, i: nat)
    requires i < |AllCombos()|
    ensures Roll2Value(cat, i) >= Roll3Values(cat)[i]
    ensures forall h :: SubHold(h, AllCombos()[i]) && AllFaces(h) && |h| <= NumDice ==>
      Roll2Value(cat, i) >= HoldEV(h, Roll3Values(cat))
    ensures Roll2Value(cat, i) == Roll3Values(cat)[i]
      || exists h :: SubHold(h, AllCombos()[i]) && AllFaces(h) && |h| <= NumDice
           && Roll2Value(cat, i) == HoldEV(h, Roll3Values(cat))
  {
    Roll2AtLeastScore(cat, i);
    forall h | SubHold(h, AllCombos()[i]) && AllFaces(h) && |h| <= NumDice
      ensures Roll2Value(cat, i) >= HoldEV(h, Roll3Values(cat))
    {
      Roll2AtLeastHold(cat, i, h);
    }
    var h := Roll2Attained(cat, i);
  }

  /** Every roll-2 value is within 0..50. */
  lemma Roll2Within(cat: Category)
    ensures Within(Roll2Values(cat), 0.0, 50.0)
  {
    var v := Roll3Values(cat);
    Roll3Within(cat);
    forall i | 0 <= i < |AllCombos()| ensures 0.0 <= Roll2Values(cat)[i] <= 50.0 {
      Roll2Between(cat, i, v);
    }
  }

  lemma Roll2Between(cat: Category, i: nat, v: seq<real>)
    requires i < |AllCombos()| && v == Roll3Values(cat) && Within(v, 0.0, 50.0)
    ensures 0.0 <= Roll2Value(cat, i) <= 50.0
  {
    var h := Roll2Attained(cat, i);
    HoldEVWithin(h, v, 0.0, 50.0);
  }

  /** The expected score of a turn spent on one category lies within 0..50. */
  lemma CategoryEVWithin(cat: Category)
    ensures 0.0 <= CategoryEV(cat) <= 50.0
  {
    Roll2Within(cat);
    HoldEVWithin([], Roll2Values(cat), 0.0, 50.0);
  }

  /** Keeping the option to reroll is worth at least scoring the first roll
      as it falls. */
  lemma CategoryEVAtLeastFirstRoll(cat: Category)
    ensures CategoryEV(cat) >= HoldEV([], Roll3Values(cat))
  {
    var v := Roll3Values(cat);
    var u := Roll2Values(cat);
    forall i | 0 <= i < |v| ensures v[i] <= u[i] {
      Roll2AtLeastScore(cat, i);
    }
    HoldEVMono([], v, u);
  }

  /** The position whose value the search returns, unless it returns its start. */
  lemma BestOfWitness(evs: seq<real>, best: real) returns (m: nat)
    requires |evs| > 0
    ensures m < |evs| && (BestOf(evs, best, 0) == best || BestOf(evs, best, 0) == evs[m])
  {
    BestOfIsMax(evs, best, 0);
    m := 0;
    if BestOf(evs, best, 0) != best {
      m :| 0 <= m < |evs| && BestOf(evs, best, 0) == evs[m];
    }
  }
}

/**
 * The unordered five-dice outcomes of dice_tables.py: `ALL_COMBOS`, the 252
 * sorted tuples `combinations_with_replacement(range(1, 7), 5)` yields in
 * lexicographic order, its inverse `COMBO_TO_INDEX`, and the ordered rerolls
 * `product(range(1, 7), repeat=k)`, together with the ascending sort that
 * turns an ordered roll into its combo.
 */
module Combos {
  import opened Dice

  /** Non-decreasing. */
  predicate Sorted(s: seq<int>) {
    forall i :: 0 < i < |s| ==> s[i - 1] <= s[i]
  }

  /** Every entry lies in `lo..6`. */
  predicate InRange(s: seq<int>, lo: int) {
    forall i :: 0 <= i < |s| ==> lo <= s[i] <= 6
  }

  /** A sorted five-dice outcome. */
  predicate IsCombo(s: seq<int>) {
    |s| == NumDice && Sorted(s) && InRange(s, 1)
  }

  lemma {:induction false} SortedMin(s: seq<int>)
    requires Sorted(s)
    ensures forall j :: 0 <= j < |s| ==> s[0] <= s[j]
  {
    if |s| > 1 {
      SortedMin(s[1..]);
      assert forall j :: 1 <= j < |s| ==> s[j] == s[1..][j - 1];
    }
  }

  // ---------------------------------------------------------------------
  // Sorting

  function InsertAsc(x: int, s: seq<int>): (r: seq<int>)
    requires Sorted(s)
    ensures Sorted(r) && |r| == |s| + 1
    ensures multiset(r) == multiset(s) + multiset{x}
    ensures |s| > 0 ==> r[0] == x || r[0] == s[0]
  {
    if |s| == 0 then [x]
    else if x <= s[0] then [x] + s
    else
      assert s == [s[0]] + s[1..];
      [s[0]] + InsertAsc(x, s[1..])
  }

  /** `tuple(sorted(s))`. */
  function SortAsc(s: seq<int>): (r: seq<int>)
    ensures Sorted(r) && |r| == |s|
    ensures multiset(r) == multiset(s)
  {
    if |s| == 0 then []
    else
      assert s == [s[0]] + s[1..];
      InsertAsc(s[0], SortAsc(s[1..]))
  }

  /** A multiset has exactly one sorted arrangement. */
  lemma {:induction false} SortedUnique(a: seq<int>, b: seq<int>)
    requires Sorted(a) && Sorted(b) && multiset(a) == multiset(b)
    ensures a == b
  {
    if |a| > 0 {
      SortedHeadsEqual(a, b);
      DropHead(a);
      DropHead(b);
      SortedUnique(a[1..], b[1..]);
      assert a == [a[0]] + a[1..];
    } else {
      assert |b| == |multiset(b)| == 0;
    }
  }

  /** Two sorted arrangements of one multiset start with its least element. */
  lemma SortedHeadsEqual(a: seq<int>, b: seq<int>)
    requires Sorted(a) && Sorted(b) && multiset(a) == multiset(b) && |a| > 0
    ensures |b| == |a| && a[0] == b[0]
  {
    assert |a| == |multiset(a)| == |b|;
    SortedMin(a);
    SortedMin(b);
    assert a[0] in multiset(b) && b[0] in multiset(a);
  }

  /** Dropping the head keeps the rest of the multiset and the order. */
  lemma DropHead(a: seq<int>)
    requires Sorted(a) && |a| > 0
    ensures Sorted(a[1..])
    ensures multiset(a[1..]) == multiset(a) - multiset{a[0]}
  {
    assert a == [a[0]] + a[1..];
    assert multiset(a) == multiset{a[0]} + multiset(a[1..]);
  }

  /** Sorting a roll gives the one combo with the same faces. */
  lemma SortIsCombo(s: seq<int>)
    requires ValidFaces(s)
    ensures IsCombo(SortAsc(s))
    ensures forall v :: Count(SortAsc(s), v) == Count(s, v)
  {
    var r := SortAsc(s);
    forall i | 0 <= i < |r| ensures 1 <= r[i] <= 6 {
      assert r[i] in multiset(s);
    }
  }

  /** A sorted sequence sorts to itself. */
  lemma SortSorted(s: seq<int>)
    requires Sorted(s)
    ensures SortAsc(s) == s
  {
    SortedUnique(SortAsc(s), s);
  }

  // ---------------------------------------------------------------------
  // ALL_COMBOS and COMBO_TO_INDEX

  /** `v` put in front of each of `ts`. */
  function Prefixed(v: int, ts: seq<seq<int>>): (r: seq<seq<int>>)
    ensures |r| == |ts|
    ensures forall j :: 0 <= j < |ts| ==> r[j] == [v] + ts[j]
  {
    seq(|ts|, j requires 0 <= j < |ts| => [v] + ts[j])
  }

  /** The sorted `k`-tuples over `lo..6` in lexicographic order: those
      starting with `lo`, then those starting above it. */
  function CombosFrom(lo: int, k: nat): seq<seq<int>>
    requires 1 <= lo <= 7
    decreases k, 7 - lo
  {
    if k == 0 then [[]]
    else if lo == 7 then []
    else Prefixed(lo, CombosFrom(lo, k - 1)) + CombosFrom(lo + 1, k)
  }

  /** `ALL_COMBOS`. */
  function AllCombos(): seq<seq<int>> {
    CombosFrom(1, ComboSize())
  }

  /** The length of every combo, the number of dice. */
  function ComboSize(): nat {
    NumDice
  }

  /** Every listed tuple is sorted, of length `k` and within `lo..6`. */
  lemma {:induction false} CombosSound(lo: int, k: nat)
    requires 1 <= lo <= 7
    ensures forall j :: 0 <= j < |CombosFrom(lo, k)| ==>
      |CombosFrom(lo, k)[j]| == k && Sorted(CombosFrom(lo, k)[j]) && InRange(CombosFrom(lo, k)[j], lo)
    decreases k, 7 - lo
  {
    if k > 0 && lo < 7 {
      CombosSound(lo, k - 1);
      CombosSound(lo + 1, k);
      var first := Prefixed(lo, CombosFrom(lo, k - 1));
      var rest := CombosFrom(lo + 1, k);
      assert CombosFrom(lo, k) == first + rest;
      forall j | 0 <= j < |CombosFrom(lo, k)|
        ensures |CombosFrom(lo, k)[j]| == k && Sorted(CombosFrom(lo, k)[j]) && InRange(CombosFrom(lo, k)[j], lo)
      {
        if j < |first| {
          var u := CombosFrom(lo, k - 1)[j];
          assert CombosFrom(lo, k)[j] == [lo] + u;
        } else {
          assert CombosFrom(lo, k)[j] == rest[j - |first|];
        }
      }
    }
  }

  /** `COMBO_TO_INDEX` on the tuples over `lo..6`: the position of `s`. */
  function ComboIndexFrom(lo: int, k: nat, s: seq<int>): (i: nat)
    requires 1 <= lo <= 7 && |s| == k && Sorted(s) && InRange(s, lo)
    ensures i < |CombosFrom(lo, k)| && CombosFrom(lo, k)[i] == s
    decreases k, 7 - lo
  {
    if k == 0 then 0
    else if s[0] == lo then
      assert s == [lo] + s[1..];
      ComboIndexFrom(lo, k - 1, s[1..])
    else
      SortedMin(s);
      |CombosFrom(lo, k - 1)| + ComboIndexFrom(lo + 1, k, s)
  }

  /** `COMBO_TO_INDEX[s]`. */
  function ComboIndex(s: seq<int>): (i: nat)
    requires IsCombo(s)
    ensures i < |AllCombos()| && AllCombos()[i] == s
  {
    ComboIndexFrom(1, NumDice, s)
  }

  predicate NoDuplicates(xs: seq<seq<int>>) {
    forall i, j :: 0 <= i < j < |xs| ==> xs[i] != xs[j]
  }

  lemma DistinctConcat(a: seq<seq<int>>, b: seq<seq<int>>)
    requires NoDuplicates(a) && NoDuplicates(b)
    requires forall i, j :: 0 <= i < |a| && 0 <= j < |b| ==> a[i] != b[j]
    ensures NoDuplicates(a + b)
  {
    forall i, j | 0 <= i < j < |a + b| ensures (a + b)[i] != (a + b)[j] {
      if j < |a| {
      } else if i >= |a| {
        assert (a + b)[i] == b[i - |a|] && (a + b)[j] == b[j - |a|];
      } else {
        assert (a + b)[j] == b[j - |a|];
      }
    }
  }

  lemma PrefixedDistinct(v: int, ts: seq<seq<int>>)
    requires NoDuplicates(ts)
    ensures NoDuplicates(Prefixed(v, ts))
  {
    var r := Prefixed(v, ts);
    forall i, j | 0 <= i < j < |r| ensures r[i] != r[j] {
      assert r[i][1..] == ts[i] && r[j][1..] == ts[j];
    }
  }

  /** No tuple is listed twice. */
  lemma {:induction false} CombosDistinct(lo: int, k: nat)
    requires 1 <= lo <= 7
    ensures NoDuplicates(CombosFrom(lo, k))
    decreases k, 7 - lo
  {
    if k > 0 && lo < 7 {
      CombosDistinct(lo, k - 1);
      CombosDistinct(lo + 1, k);
      CombosSound(lo + 1, k);
      var first := Prefixed(lo, CombosFrom(lo, k - 1));
      var rest := CombosFrom(lo + 1, k);
      PrefixedDistinct(lo, CombosFrom(lo, k - 1));
      forall i, j | 0 <= i < |first| && 0 <= j < |rest| ensures first[i] != rest[j] {
        assert first[i][0] == lo;
        assert rest[j][0] >= lo + 1;
      }
      DistinctConcat(first, rest);
    }
  }

  /** Exactly the sorted five-dice outcomes are listed, each once. */
  lemma AllCombosAreCombos()
    ensures forall i :: 0 <= i < |AllCombos()| ==> IsCombo(AllCombos()[i])
    ensures NoDuplicates(AllCombos())
  {
    CombosSound(1, ComboSize());
    CombosDistinct(1, ComboSize());
  }

  /** `COMBO_TO_INDEX` inverts `ALL_COMBOS` in both directions. */
  lemma ComboIndexInverse(i: nat)
    requires i < |AllCombos()|
    ensures IsCombo(AllCombos()[i]) && ComboIndex(AllCombos()[i]) == i
  {
    AllCombosAreCombos();
  }

  // ---------------------------------------------------------------------
  // Ordered rerolls

  function Pow6(k: nat): (p: nat)
    ensures p >= 1
  {
    if k == 0 then 1 else 6 * Pow6(k - 1)
  }

  /** `product(range(lo, 7), range(1, 7), …)`: ordered `k`-tuples whose first
      face is at least `lo`, last position varying fastest. */
  function ProductsFrom(lo: int, k: nat): seq<seq<int>>
    requires 1 <= lo <= 7
    decreases k, 7 - lo
  {
    if k == 0 then [[]]
    else if lo == 7 then []
    else Prefixed(lo, ProductsFrom(1, k - 1)) + ProductsFrom(lo + 1, k)
  }

  /** `product(range(1, 7), repeat=k)`. */
  function Products(k: nat): seq<seq<int>> {
    ProductsFrom(1, k)
  }

  /** There are `(7 - lo) * 6^(k-1)` ordered rolls starting at `lo` or above. */
  lemma {:induction false} ProductsCount(lo: int, k: nat)
    requires 1 <= lo <= 7
    ensures |ProductsFrom(lo, k)| == (if k == 0 then 1 else (7 - lo) * Pow6(k - 1))
    decreases k, 7 - lo
  {
    if k > 0 && lo < 7 {
      ProductsCount(1, k - 1);
      ProductsCount(lo + 1, k);
      var p := Pow6(k - 1);
      var a := |ProductsFrom(1, k - 1)|;
      var b := |ProductsFrom(lo + 1, k)|;
      assert |ProductsFrom(lo, k)| == a + b;
      assert a == p by {
        if k > 1 {
          assert Pow6(k - 1) == 6 * Pow6(k - 2);
        }
      }
      assert b == (6 - lo) * p;
      assert (7 - lo) * p == p + (6 - lo) * p;
    }
  }

  /** The ordered rolls all have `k` faces. */
  lemma {:induction false} ProductsSound(lo: int, k: nat)
    requires 1 <= lo <= 7
    ensures forall j :: 0 <= j < |ProductsFrom(lo, k)| ==>
      |ProductsFrom(lo, k)[j]| == k && AllFaces(ProductsFrom(lo, k)[j])
    decreases k, 7 - lo
  {
    if k > 0 && lo < 7 {
      ProductsSound(1, k - 1);
      ProductsSound(lo + 1, k);
      var first := Prefixed(lo, ProductsFrom(1, k - 1));
      var rest := ProductsFrom(lo + 1, k);
      forall j | 0 <= j < |ProductsFrom(lo, k)|
        ensures |ProductsFrom(lo, k)[j]| == k && AllFaces(ProductsFrom(lo, k)[j])
      {
        if j < |first| {
          assert ProductsFrom(lo, k)[j] == [lo] + ProductsFrom(1, k - 1)[j];
        } else {
          assert ProductsFrom(lo, k)[j] == rest[j - |first|];
        }
      }
    }
  }

  lemma ProductsSize(k: nat)
    ensures |Products(k)| == Pow6(k)
    ensures forall j :: 0 <= j < |Products(k)| ==> |Products(k)[j]| == k && AllFaces(Products(k)[j])
  {
    ProductsCount(1, k);
    ProductsSound(1, k);
  }

  /** Every ordered roll of `k` faces occurs among the products. */
  function ProductIndexFrom(lo: int, k: nat, s: seq<int>): (i: nat)
    requires 1 <= lo <= 7 && |s| == k && AllFaces(s) && (k > 0 ==> lo <= s[0])
    ensures i < |ProductsFrom(lo, k)| && ProductsFrom(lo, k)[i] == s
    decreases k, 7 - lo
  {
    if k == 0 then 0
    else if s[0] == lo then
      var j := ProductIndexFrom(1, k - 1, s[1..]);
      ProductsFromFirst(lo, k, j);
      assert s == [lo] + s[1..];
      j
    else
      var j := ProductIndexFrom(lo + 1, k, s);
      ProductsFromRest(lo, k, j);
      |ProductsFrom(1, k - 1)| + j
  }

  lemma ProductsFromFirst(lo: int, k: nat, j: nat)
    requires 1 <= lo < 7 && k > 0 && j < |ProductsFrom(1, k - 1)|
    ensures j < |ProductsFrom(lo, k)| && ProductsFrom(lo, k)[j] == [lo] + ProductsFrom(1, k - 1)[j]
  {
  }

  lemma ProductsFromRest(lo: int, k: nat, j: nat)
    requires 1 <= lo < 7 && k > 0 && j < |ProductsFrom(lo + 1, k)|
    ensures |ProductsFrom(1, k - 1)| + j < |ProductsFrom(lo, k)|
    ensures ProductsFrom(lo, k)[|ProductsFrom(1, k - 1)| + j] == ProductsFrom(lo + 1, k)[j]
  {
  }

  lemma ProductsComplete(s: seq<int>)
    requires AllFaces(s)
    ensures s in Products(|s|)
  {
    var i := ProductIndexFrom(1, |s|, s);
  }
}

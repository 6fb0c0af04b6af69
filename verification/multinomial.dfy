/**
 * The multinomial count behind `_multinomial_prob` in dice_tables.py: the
 * number of ordered rolls that show a multiset of faces, and the identity
 * tying it to k! over the factorials of the face counts, which is what
 * makes the division face by face exact.
 */
module Multinomial {
  import opened Dice
  import opened Combos

  function Factorial(n: nat): (f: nat)
    ensures f >= 1
  {
    if n == 0 then 1 else n * Factorial(n - 1)
  }

  /** The numerator divided, face by face from `f` up to 6, by the factorial
      of that face's count (a face that is absent divides by 0! = 1, the
      same as being skipped). */
  function DivideByCounts(num: nat, c: seq<int>, f: int): nat
    decreases 7 - f
  {
    if f > 6 then num else DivideByCounts(num / Factorial(Count(c, f)), c, f + 1)
  }

  // Counting ordered rolls: `RollsShowing` counts the ordered
  // rolls of a list that show a given multiset of faces, `Arrangements`
  // counts them on `ProductsFrom` face by face, and the counts times the
  // factorials of the face counts make k!.

  /** The number of the ordered rolls in `rs` whose faces are `m`. */
  function RollsShowing(rs: seq<seq<int>>, m: multiset<int>): nat {
    if |rs| == 0 then 0
    else (if Shows(rs[0], m) then 1 else 0) + RollsShowing(rs[1..], m)
  }

  /** Roll `r` shows the faces `m`: its first die is one of them and the
      rest shows the others. */
  predicate Shows(r: seq<int>, m: multiset<int>) {
    if |r| == 0 then m == multiset{} else r[0] in m && Shows(r[1..], m - multiset{r[0]})
  }

  /** `Shows` is equality of the roll's multiset of faces with `m`. */
  lemma {:induction false} ShowsMultiset(r: seq<int>, m: multiset<int>)
    ensures Shows(r, m) <==> multiset(r) == m
  {
    if |r| > 0 {
      assert r == [r[0]] + r[1..];
      assert multiset(r) == multiset{r[0]} + multiset(r[1..]);
      ShowsMultiset(r[1..], m - multiset{r[0]});
      if multiset(r) == m {
        assert multiset(r[1..]) == m - multiset{r[0]};
      }
    } else {
      assert multiset(r) == multiset{};
    }
  }

  /** The ordered `k`-rolls whose first die shows at least `lo` and whose
      faces are `m`: those starting with `lo`, then those starting above. */
  function Arrangements(m: multiset<int>, k: nat, lo: int): nat
    requires 1 <= lo <= 7
    decreases k, 7 - lo
  {
    if k == 0 then (if m == multiset{} then 1 else 0)
    else if lo == 7 then 0
    else (if lo in m then Arrangements(m - multiset{lo}, k - 1, 1) else 0) + Arrangements(m, k, lo + 1)
  }

  /** The product of the factorials of the counts of faces `lo..6` in `m`. */
  function CountFactorials(m: multiset<int>, lo: int): nat
    requires 1 <= lo <= 7
    decreases 7 - lo
  {
    if lo == 7 then 1 else Factorial(m[lo]) * CountFactorials(m, lo + 1)
  }

  /** The counts of faces `lo..6` in `m`, added up. */
  function CountSum(m: multiset<int>, lo: int): nat
    requires 1 <= lo <= 7
    decreases 7 - lo
  {
    if lo == 7 then 0 else m[lo] + CountSum(m, lo + 1)
  }

  predicate FacesOnly(m: multiset<int>) {
    forall x :: x in m ==> 1 <= x <= 6
  }

  lemma {:induction false} RollsShowingConcat(a: seq<seq<int>>, b: seq<seq<int>>, m: multiset<int>)
    ensures RollsShowing(a + b, m) == RollsShowing(a, m) + RollsShowing(b, m)
  {
    if |a| > 0 {
      assert (a + b)[1..] == a[1..] + b;
      RollsShowingConcat(a[1..], b, m);
    } else {
      assert a + b == b;
    }
  }

  /** A roll starting with `v` shows `m` exactly when `m` holds a `v` and
      the rest of the roll shows the rest of `m`. */
  lemma PrefixedShows(v: int, t: seq<int>, m: multiset<int>)
    ensures Shows([v] + t, m) <==> v in m && Shows(t, m - multiset{v})
  {
    assert ([v] + t)[1..] == t;
  }

  lemma {:induction false} RollsShowingPrefixed(v: int, ts: seq<seq<int>>, m: multiset<int>)
    ensures RollsShowing(Prefixed(v, ts), m) == if v in m then RollsShowing(ts, m - multiset{v}) else 0
  {
    if |ts| > 0 {
      var p := Prefixed(v, ts);
      assert p[1..] == Prefixed(v, ts[1..]);
      PrefixedShows(v, ts[0], m);
      RollsShowingPrefixed(v, ts[1..], m);
    }
  }

  /** Counting on `ProductsFrom` agrees with `Arrangements`. */
  lemma {:induction false} ProductsShowing(m: multiset<int>, k: nat, lo: int)
    requires 1 <= lo <= 7
    ensures RollsShowing(ProductsFrom(lo, k), m) == Arrangements(m, k, lo)
    decreases k, 7 - lo, 1
  {
    if k == 0 {
      var e: seq<int> := [];
      assert multiset(e) == multiset{};
    } else if lo < 7 {
      ProductsShowingStep(m, k, lo);
    }
  }

  lemma {:induction false} ProductsShowingStep(m: multiset<int>, k: nat, lo: int)
    requires 1 <= lo <= 6 && k > 0
    ensures RollsShowing(ProductsFrom(lo, k), m) == Arrangements(m, k, lo)
    decreases k, 7 - lo, 0
  {
    if lo in m {
      ProductsShowing(m - multiset{lo}, k - 1, 1);
      ProductsShowing(m, k, lo + 1);
      ProductsRolls(m, k, lo);
    } else {
      ProductsShowing(m, k, lo + 1);
      ProductsRolls(m, k, lo);
    }
  }

  /** The rolls starting with `lo` show `m` as often as `Arrangements`
      counts once the rolls of the rest do. */
  lemma ProductsRolls(m: multiset<int>, k: nat, lo: int)
    requires 1 <= lo <= 6 && k > 0
    requires lo in m ==> RollsShowing(ProductsFrom(1, k - 1), m - multiset{lo}) == Arrangements(m - multiset{lo}, k - 1, 1)
    requires RollsShowing(ProductsFrom(lo + 1, k), m) == Arrangements(m, k, lo + 1)
    ensures RollsShowing(ProductsFrom(lo, k), m) == Arrangements(m, k, lo)
  {
    RollsShowingConcat(Prefixed(lo, ProductsFrom(1, k - 1)), ProductsFrom(lo + 1, k), m);
    RollsShowingPrefixed(lo, ProductsFrom(1, k - 1), m);
  }

  lemma {:induction false} CountFactorialsRemove(m: multiset<int>, f: int, lo: int)
    requires 1 <= lo <= 7 && 1 <= f <= 6 && f in m
    ensures CountFactorials(m, lo) == (if lo <= f then m[f] else 1) * CountFactorials(m - multiset{f}, lo)
    decreases 7 - lo
  {
    if lo < 7 {
      CountFactorialsRemove(m, f, lo + 1);
      var r := m - multiset{f};
      var above, aboveR := CountFactorials(m, lo + 1), CountFactorials(r, lo + 1);
      if lo == f {
        assert above == aboveR;
        FactorialStep(m[f], r[f]);
        Associate(m[f], Factorial(r[f]), aboveR);
      } else if lo < f {
        assert m[lo] == r[lo];
        assert above == m[f] * aboveR;
        Swap(Factorial(m[lo]), m[f], aboveR);
      } else {
        assert m[lo] == r[lo];
        assert above == aboveR;
      }
    }
  }

  lemma FactorialStep(n: nat, p: nat)
    requires n == p + 1
    ensures Factorial(n) == n * Factorial(p)
  {
  }

  lemma Associate(a: int, b: int, c: int)
    ensures (a * b) * c == a * (b * c)
  {
  }

  lemma Swap(a: int, n: int, x: int)
    ensures a * (n * x) == n * (a * x)
  {
  }

  lemma {:induction false} CountSumAdd(m: multiset<int>, x: int, lo: int)
    requires 1 <= lo <= 7 && 1 <= x <= 6
    ensures CountSum(m + multiset{x}, lo) == CountSum(m, lo) + (if lo <= x then 1 else 0)
    decreases 7 - lo
  {
    if lo < 7 {
      CountSumAdd(m, x, lo + 1);
    }
  }

  lemma {:induction false} CountSumEmpty(lo: int)
    requires 1 <= lo <= 7
    ensures CountSum(multiset{}, lo) == 0 && CountFactorials(multiset{}, lo) == 1
    decreases 7 - lo
  {
    if lo < 7 {
      CountSumEmpty(lo + 1);
    }
  }

  /** The face counts of a roll of faces add up to its length. */
  lemma {:induction false} CountSumLength(s: seq<int>)
    requires InRange(s, 1)
    ensures CountSum(multiset(s), 1) == |s|
  {
    if |s| == 0 {
      CountSumEmpty(1);
    } else {
      assert s == [s[0]] + s[1..];
      assert multiset(s) == multiset(s[1..]) + multiset{s[0]};
      CountSumLength(s[1..]);
      CountSumAdd(multiset(s[1..]), s[0], 1);
    }
  }

  lemma {:induction false} CountSumZeroFrom(m: multiset<int>, lo: int)
    requires 1 <= lo <= 7 && CountSum(m, lo) == 0
    ensures forall f :: lo <= f <= 6 ==> m[f] == 0
    decreases 7 - lo
  {
    if lo < 7 {
      CountSumZeroFrom(m, lo + 1);
    }
  }

  /** A multiset of faces with no face counted is empty. */
  lemma CountSumZero(m: multiset<int>)
    requires FacesOnly(m) && CountSum(m, 1) == 0
    ensures m == multiset{}
  {
    CountSumZeroFrom(m, 1);
    assert forall x :: m[x] == 0;
  }

  /** The arrangements starting at `lo` or above, weighted by the
      factorials, are (k-1)! for every die showing `lo..6`. */
  lemma {:induction false} ArrangementsStep(m: multiset<int>, k: nat, lo: int)
    requires FacesOnly(m) && CountSum(m, 1) == k && k > 0 && 1 <= lo <= 7
    ensures Arrangements(m, k, lo) * CountFactorials(m, 1) == Factorial(k - 1) * CountSum(m, lo)
    decreases k, 7 - lo
  {
    if lo < 7 {
      ArrangementsStep(m, k, lo + 1);
      ArrangementsHead(m, k, lo);
      var head := if lo in m then Arrangements(m - multiset{lo}, k - 1, 1) else 0;
      var rest := Arrangements(m, k, lo + 1);
      Distribute(head, rest, CountFactorials(m, 1), Factorial(k - 1), m[lo], CountSum(m, lo + 1),
        Arrangements(m, k, lo), CountSum(m, lo));
    }
  }

  /** The arrangements starting with `lo`, weighted by the factorials, are
      (k-1)! for every die showing `lo`. */
  lemma {:induction false} ArrangementsHead(m: multiset<int>, k: nat, lo: int)
    requires FacesOnly(m) && CountSum(m, 1) == k && k > 0 && 1 <= lo <= 6
    ensures (if lo in m then Arrangements(m - multiset{lo}, k - 1, 1) else 0) * CountFactorials(m, 1)
      == Factorial(k - 1) * m[lo]
    decreases k, 0
  {
    if lo in m {
      var r := m - multiset{lo};
      RemoveFace(m, lo);
      ArrangementsFactorials(r, k - 1);
      CountFactorialsRemove(m, lo, 1);
      Regroup(Arrangements(r, k - 1, 1), CountFactorials(r, 1), m[lo], CountFactorials(m, 1), Factorial(k - 1));
    }
  }

  /** Taking one die off leaves faces only, one fewer of them. */
  lemma RemoveFace(m: multiset<int>, f: int)
    requires FacesOnly(m) && 1 <= f <= 6 && f in m
    ensures FacesOnly(m - multiset{f}) && CountSum(m - multiset{f}, 1) + 1 == CountSum(m, 1)
  {
    var r := m - multiset{f};
    assert m == r + multiset{f};
    CountSumAdd(r, f, 1);
  }

  lemma Regroup(a: int, g: int, n: int, fs: int, f: int)
    requires a * g == f && fs == n * g
    ensures a * fs == f * n
  {
    assert a * (n * g) == (a * g) * n;
  }

  lemma Distribute(h: int, rest: int, fs: int, f: int, n: int, s: int, sum: int, total: int)
    requires h * fs == f * n && rest * fs == f * s && sum == h + rest && total == n + s
    ensures sum * fs == f * total
  {
  }

  /** The multinomial identity: the arrangements of `m` times the product
      of the factorials of its face counts is k!. */
  lemma {:induction false} ArrangementsFactorials(m: multiset<int>, k: nat)
    requires FacesOnly(m) && CountSum(m, 1) == k
    ensures Arrangements(m, k, 1) * CountFactorials(m, 1) == Factorial(k)
    decreases k, 8
  {
    if k == 0 {
      CountSumZero(m);
      CountSumEmpty(1);
    } else {
      ArrangementsStep(m, k, 1);
      FactorialStep(k, k - 1);
      assert Factorial(k - 1) * k == Factorial(k);
    }
  }

  /** Dividing `x` times the face-count factorials from `f` up recovers `x`. */
  lemma {:induction false} DivideExact(x: nat, c: seq<int>, f: int)
    requires 1 <= f <= 7
    ensures DivideByCounts(x * CountFactorials(multiset(c), f), c, f) == x
    decreases 7 - f
  {
    if f < 7 {
      var d, z := Factorial(Count(c, f)), CountFactorials(multiset(c), f + 1);
      assert CountFactorials(multiset(c), f) == d * z;
      Swap(x, d, z);
      MulDiv(d, x * z);
      DivideExact(x, c, f + 1);
    }
  }

  lemma MulDiv(d: nat, y: nat)
    requires d > 0
    ensures d * y / d == y
  {
    var q, r := d * y / d, d * y % d;
    assert d * (y - q) == r by {
      assert d * y == d * q + r;
    }
    if y - q >= 1 {
      MulMonotone(d, y - q);
    } else if y - q <= -1 {
      MulMonotone(d, q - y);
    }
  }

  lemma MulMonotone(d: nat, n: int)
    requires n >= 1
    ensures d * n >= d
  {
  }

}

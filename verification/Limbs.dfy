/** Sequences of 64-bit limbs, least significant first, and the bits in them: the storage of
    src/huge_number.h. Masks and shifts of the program are quotients and remainders of powers of two here. */
module Limbs {
  import opened Arithmetic

  const BITS: nat := 64
  const BASE: nat := 0x1_0000_0000_0000_0000

  type Limb = x: nat | x < BASE

  lemma BaseIsPow2()
    ensures Pow2(BITS) == BASE == Pow2(64) == 18446744073709551616
  {
    assert Pow2(8) == 256;
    Pow2Add(8, 8);
    Pow2Add(16, 16);
    Pow2Add(32, 32);
  }

  // ---------------------------------------------------------------- values

  /** Limb `i`, zero beyond the stored ones. */
  function At(d: seq<Limb>, i: nat): Limb {
    if i < |d| then d[i] else 0
  }

  function Place(i: nat): (r: nat)
    ensures r > 0
  {
    if i == 0 then 1 else BASE * Place(i - 1)
  }

  /** The number in the low `n` limbs. */
  function Low(d: seq<Limb>, n: nat): nat {
    if n == 0 then 0 else Low(d, n - 1) + At(d, n - 1) * Place(n - 1)
  }

  /** The number the limbs stand for. */
  function Val(d: seq<Limb>): nat {
    Low(d, |d|)
  }

  /** No zero limb at the top: the one way to write each number. */
  predicate Canonical(d: seq<Limb>) {
    d == [] || d[|d| - 1] != 0
  }

  lemma {:induction false} LowSame(a: seq<Limb>, b: seq<Limb>, n: nat)
    requires forall i :: 0 <= i < n ==> At(a, i) == At(b, i)
    ensures Low(a, n) == Low(b, n)
  {
    if n > 0 {
      LowSame(a, b, n - 1);
    }
  }

  lemma {:induction false} LowBound(d: seq<Limb>, n: nat)
    ensures Low(d, n) < Place(n)
  {
    if n > 0 {
      LowBound(d, n - 1);
      MulMono(At(d, n - 1), BASE - 1, Place(n - 1));
    }
  }

  /** Beyond the stored limbs there is nothing. */
  lemma {:induction false} LowAll(d: seq<Limb>, n: nat)
    requires n >= |d|
    ensures Low(d, n) == Val(d)
  {
    if n > |d| {
      LowAll(d, n - 1);
    }
  }

  /** Two numbers that agree from limb `i` up differ by their low parts. */
  lemma {:induction false} SameHigh(a: seq<Limb>, b: seq<Limb>, i: nat, n: nat)
    requires i <= n && forall k :: i <= k < n ==> At(a, k) == At(b, k)
    ensures Low(a, n) - Low(a, i) == Low(b, n) - Low(b, i)
  {
    if i < n {
      SameHigh(a, b, i, n - 1);
    }
  }

  lemma {:induction false} PlaceIsPow2(i: nat)
    ensures Place(i) == Pow2(BITS * i)
  {
    if i > 0 {
      PlaceIsPow2(i - 1);
      BaseIsPow2();
      Pow2Add(BITS, BITS * (i - 1));
    }
  }

  lemma {:induction false} PlaceMono(i: nat, j: nat)
    requires i <= j
    ensures Place(i) <= Place(j)
  {
    if i < j {
      PlaceMono(i, j - 1);
    }
  }

  /** A canonical number with a limb `i` that is not zero and none above is at least one place. */
  lemma TopBound(d: seq<Limb>)
    requires d != [] && Canonical(d)
    ensures Place(|d| - 1) <= Val(d) < Place(|d|)
  {
    LowBound(d, |d|);
    MulMono(1, d[|d| - 1], Place(|d| - 1));
  }

  lemma ZeroIsEmpty(d: seq<Limb>)
    requires Canonical(d)
    ensures Val(d) == 0 <==> d == []
  {
    if d != [] {
      TopBound(d);
    }
  }

  /** Comparing limb by limb from the top compares the numbers. */
  lemma HigherLimbWins(a: seq<Limb>, b: seq<Limb>, i: nat, n: nat)
    requires i < n && At(a, i) < At(b, i)
    requires forall k :: i < k < n ==> At(a, k) == At(b, k)
    ensures Low(a, n) < Low(b, n)
  {
    hide Place;
    LowBound(a, i);
    SameHigh(a, b, i + 1, n);
    MulLess(At(a, i), At(b, i), Place(i));
  }

  /** Equal values are equal limbs. */
  lemma {:induction false} CanonicalUnique(a: seq<Limb>, b: seq<Limb>)
    requires Canonical(a) && Canonical(b) && Val(a) == Val(b)
    ensures a == b
  {
    if |a| < |b| {
      LongerIsLarger(a, b);
    } else if |b| < |a| {
      LongerIsLarger(b, a);
    } else {
      SameLow(a, b, |a|);
      assert forall i :: 0 <= i < |a| ==> a[i] == At(a, i) == At(b, i) == b[i];
    }
  }

  lemma LongerIsLarger(a: seq<Limb>, b: seq<Limb>)
    requires Canonical(b) && |a| < |b|
    ensures Val(a) < Val(b)
  {
    LowBound(a, |a|);
    TopBound(b);
    PlaceMono(|a|, |b| - 1);
  }

  lemma {:induction false} SameLow(a: seq<Limb>, b: seq<Limb>, n: nat)
    requires Low(a, n) == Low(b, n)
    ensures forall i :: 0 <= i < n ==> At(a, i) == At(b, i)
  {
    if n > 0 {
      if At(a, n - 1) < At(b, n - 1) {
        HigherLimbWins(a, b, n - 1, n);
      } else if At(b, n - 1) < At(a, n - 1) {
        HigherLimbWins(b, a, n - 1, n);
      }
      SameLow(a, b, n - 1);
    }
  }
}

/** Halving a row of decimal digits from the top down, also when some digits are negative (src/huge_number.h:222-235,
    with C's division and C's `&` on negative values). */
module HalvedDigits {
  import opened Arithmetic

  /** Division by two towards zero. */
  function Trunc2(x: int): int {
    if x >= 0 then x / 2 else -((-x) / 2)
  }

  /** One pass: the halved digits, the lowest first, and the bit that falls out. */
  function HalvePass(ds: seq<int>): (r: (seq<int>, nat))
    ensures |r.0| == |ds| && r.1 <= 1
  {
    if ds == [] then ([], 0)
    else
      var (half, bit) := HalvePass(ds[1..]);
      var x := ds[0] + bit * 10;
      ([Trunc2(x)] + half, x % 2)
  }

  function Num(ds: seq<int>): int {
    if ds == [] then 0 else ds[0] + 10 * Num(ds[1..])
  }

  predicate NonNeg(ds: seq<int>) {
    forall i :: 0 <= i < |ds| ==> ds[i] >= 0
  }

  predicate AllZero(ds: seq<int>) {
    forall i :: 0 <= i < |ds| ==> ds[i] == 0
  }

  /** No place of the row is negative when its turn comes. */
  predicate Steady(ds: seq<int>) {
    ds != [] ==> Steady(ds[1..]) && ds[0] + HalvePass(ds[1..]).1 * 10 >= 0
  }

  /** A steady row is halved as the number it is. */
  lemma {:induction false} PassHalves(ds: seq<int>)
    requires Steady(ds)
    ensures Num(ds) == 2 * Num(HalvePass(ds).0) + HalvePass(ds).1 >= 0
    ensures NonNeg(HalvePass(ds).0) && Num(HalvePass(ds).0) >= 0
  {
    if ds != [] {
      PassHalves(ds[1..]);
      var half := HalvePass(ds).0;
      assert half[1..] == HalvePass(ds[1..]).0;
      assert forall i :: 0 < i < |half| ==> half[i] == half[1..][i - 1];
    }
  }

  lemma {:induction false} NonNegSteady(ds: seq<int>)
    requires NonNeg(ds)
    ensures Steady(ds) && Num(ds) >= 0 && (Num(ds) == 0 <==> AllZero(ds))
  {
    if ds != [] {
      NonNegSteady(ds[1..]);
      assert ds[0] >= 0;
      if Num(ds) == 0 {
        assert forall i :: 0 < i < |ds| ==> ds[i] == ds[1..][i - 1];
      }
    }
  }

  // ---------------------------------------------------------------- a negative top digit

  /** The top digit that is not zero, made positive. */
  function Mirror(ds: seq<int>): (r: seq<int>)
    ensures |r| == |ds|
  {
    if ds == [] then []
    else if AllZero(ds[1..]) then [AbsNat(ds[0])] + ds[1..]
    else [ds[0]] + Mirror(ds[1..])
  }

  lemma MirrorZero(ds: seq<int>)
    requires AllZero(ds)
    ensures Mirror(ds) == ds
  {
  }

  lemma {:induction false} PassZero(ds: seq<int>)
    requires AllZero(ds)
    ensures HalvePass(ds) == (ds, 0)
  {
    if ds != [] {
      PassZero(ds[1..]);
      assert ds[0] == 0 && [0] + ds[1..] == ds;
    }
  }

  /** Whether the top digit is negative makes no difference to the bits that fall out. */
  lemma {:induction false} PassMirrors(ds: seq<int>)
    requires Steady(Mirror(ds))
    ensures HalvePass(Mirror(ds)).1 == HalvePass(ds).1
    ensures HalvePass(Mirror(ds)).0 == Mirror(HalvePass(ds).0)
  {
    if ds != [] {
      var rest, m := ds[1..], Mirror(ds);
      if AllZero(rest) {
        PassZero(rest);
        assert m[1..] == rest;
      } else {
        assert m[0] == ds[0] && m[1..] == Mirror(rest);
        PassMirrors(rest);
        var half, bit := HalvePass(rest).0, HalvePass(rest).1;
        MirrorBelow(Trunc2(ds[0] + bit * 10), half);
      }
    }
  }

  lemma MirrorBelow(q: int, half: seq<int>)
    requires q >= 0
    ensures Mirror([q] + half) == [q] + Mirror(half)
  {
    assert ([q] + half)[1..] == half;
    if AllZero(half) {
      MirrorZero(half);
    }
  }

  lemma {:induction false} MirrorNonNeg(ds: seq<int>)
    requires NonNeg(ds)
    ensures Mirror(ds) == ds
  {
    if ds != [] {
      assert ds[0] >= 0;
      MirrorNonNeg(ds[1..]);
    }
  }

  lemma {:induction false} MirrorAbove(a: seq<int>, b: seq<int>)
    requires !AllZero(b)
    ensures Mirror(a + b) == a + Mirror(b)
  {
    if a == [] {
      assert a + b == b;
    } else {
      MirrorAbove(a[1..], b);
      assert (a + b)[1..] == a[1..] + b;
      var i :| 0 <= i < |b| && b[i] != 0;
      assert (a[1..] + b)[|a| - 1 + i] == b[i];
    }
  }

  // ---------------------------------------------------------------- zeros on top

  lemma {:induction false} ZeroOnTop(ds: seq<int>)
    ensures Mirror(ds + [0]) == Mirror(ds) + [0] && Num(ds + [0]) == Num(ds)
  {
    var r := ds + [0];
    if ds == [] {
      assert r == [0] && r[1..] == [];
    } else {
      ZeroOnTop(ds[1..]);
      assert r[1..] == ds[1..] + [0];
      assert r[1..][|ds| - 1] == 0;
      assert AllZero(r[1..]) <==> AllZero(ds[1..]) by {
        assert forall i :: 0 <= i < |ds| - 1 ==> r[1..][i] == ds[1..][i];
      }
    }
  }

  lemma {:induction false} PassZeroOnTop(ds: seq<int>)
    ensures HalvePass(ds + [0]) == (HalvePass(ds).0 + [0], HalvePass(ds).1)
    ensures Steady(ds + [0]) <==> Steady(ds)
  {
    var r := ds + [0];
    if ds == [] {
      assert r == [0] && r[1..] == [] && HalvePass(r[1..]) == ([], 0);
      assert [Trunc2(0)] + HalvePass(r[1..]).0 == [0] == ds + [0];
    } else {
      PassZeroOnTop(ds[1..]);
      assert r[1..] == ds[1..] + [0];
      var half := HalvePass(ds[1..]).0;
      var q := Trunc2(ds[0] + HalvePass(ds[1..]).1 * 10);
      assert [q] + (half + [0]) == ([q] + half) + [0];
    }
  }

  lemma ZeroDropped(ds: seq<int>)
    requires ds != [] && ds[|ds| - 1] == 0
    ensures var r := ds[..|ds| - 1];
      && Mirror(ds) == Mirror(r) + [0] && Num(Mirror(ds)) == Num(Mirror(r))
      && (NonNeg(Mirror(ds)) ==> NonNeg(Mirror(r))) && (AllZero(ds) <==> AllZero(r))
  {
    var r := ds[..|ds| - 1];
    assert ds == r + [0];
    ZeroOnTop(r);
    ZeroOnTop(Mirror(r));
    assert forall i :: 0 <= i < |r| ==> Mirror(ds)[i] == Mirror(r)[i];
  }

  lemma {:induction false} MirrorIsZero(ds: seq<int>)
    requires AllZero(Mirror(ds))
    ensures AllZero(ds)
  {
    if ds != [] && !AllZero(ds[1..]) {
      assert Mirror(ds)[1..] == Mirror(ds[1..]);
      MirrorIsZero(ds[1..]);
    } else if ds != [] {
      assert Mirror(ds)[0] == 0;
    }
  }

  // ---------------------------------------------------------------- rows put together

  function TenTo(k: nat): nat {
    if k == 0 then 1 else 10 * TenTo(k - 1)
  }

  lemma {:induction false} SteadyBelow(low: seq<int>, high: seq<int>)
    requires NonNeg(low) && Steady(high)
    ensures Steady(low + high) && Num(low + high) == Num(low) + TenTo(|low|) * Num(high)
  {
    if low == [] {
      assert low + high == high;
    } else {
      SteadyBelow(low[1..], high);
      assert low[0] >= 0;
      assert (low + high)[1..] == low[1..] + high;
      MulAssoc(10, TenTo(|low| - 1), Num(high));
    }
  }
}

/** Arbitrary-precision integers: sign and magnitude in 64-bit limbs (src/huge_number.h). Vectors passed by
    reference are passed by value here. A number may be combined with itself; where that makes a loop read the
    vector it changes, the loop is modelled as such. */
module HugeNumber {
  import opened Arithmetic
  import opened Bits
  import opened Limbs

  /** a += b on one limb, and whether it wrapped. */
  function PlusLimb(a: Limb, b: Limb): (r: (Limb, nat))
    ensures r.0 + r.1 * BASE == a + b && r.1 <= 1
  {
    var t := (a + b) % BASE;
    (t, if t < a || t < b then 1 else 0)
  }

  /** a -= b on one limb, and whether it borrowed. */
  function MinusLimb(a: Limb, b: Limb): (r: (Limb, nat))
    ensures r.0 - r.1 * BASE == a - b && r.1 <= 1
  {
    ((a - b) % BASE, if a < b then 1 else 0)
  }

  function Signed(s: bool, m: nat): int {
    var i: int := m;
    if s then -i else i
  }

  class HugeNumber {
    var data: seq<Limb>
    var sign: bool

    /** The one stored form of each number: no high zero limb, and no negative zero. */
    predicate Canon()
      reads this
    {
      Canonical(data) && (data == [] ==> !sign)
    }

    function Magnitude(): nat
      reads this
    {
      Val(data)
    }

    function Value(): int
      reads this
    {
      Signed(sign, Val(data))
    }

    constructor ()
      ensures Canon() && Value() == 0 && data == [] && !sign
    {
      data, sign := [], false;
    }

    constructor Copy(a: HugeNumber)
      ensures data == a.data && sign == a.sign
    {
      data, sign := a.data, a.sign;
    }

    method Reset(s: bool)
      modifies this
      ensures data == [] && sign == s
    {
      data, sign := [], s;
    }

    /** Drops high zero limbs; zero becomes non-negative. */
    method Shrink()
      modifies this
      ensures Canon() && Magnitude() == old(Magnitude())
      ensures data != [] ==> sign == old(sign)
      ensures data <= old(data)
    {
      ghost var d := data;
      var i: nat := |data|;
      while i > 0 && data[i - 1] == 0
        invariant i <= |data| && data == d
        invariant Low(d, i) == Val(d)
      {
        i := i - 1;
      }
      data := data[..i];
      LowSame(data, d, i);
      if data == [] && sign {
        sign := false;
      }
    }

    // -------------------------------------------------------------- addition

    /** |this| + |a| + b. */
    method AddAbs(a: seq<Limb>, b: Limb)
      modifies this`data
      ensures Magnitude() == old(Magnitude()) + Val(a) + b
      ensures old(Canonical(data)) && Canonical(a) ==> Canonical(data)
    {
      ghost var d := data;
      if b == 0 {
        if a == [] {
          return;
        }
        if data == [] {
          data := a;
          return;
        }
      }
      var c: Limb := b;
      var i: nat := 0;
      ghost var n := if |d| > |a| then |d| else |a|;
      while i < |a| || c != 0
        invariant i <= n + 1 && (i > n ==> c == 0)
        invariant AddDone(d, a, b, data, i, c)
        decreases n + 1 - i
      {
        hide AddDone;
        ghost var before, was := data, c;
        AddLength(d, a, b, data, i, c);
        var t := c;
        var carry := 0;
        if i < |a| {
          var r := PlusLimb(t, a[i]);
          t, carry := r.0, r.1;
        }
        if i < |data| {
          var r := PlusLimb(data[i], t);
          data := data[i := r.0];
          carry := carry + r.1;
        } else {
          data := data + [t];
        }
        c := carry;
        AddStep(d, a, b, before, i, was, data, c);
        i := i + 1;
      }
      AddResult(d, a, b, data, i);
    }

    /** The same loop when the other operand is this number's own vector, which grows and changes under it. */
    method AddAbsOwn()
      modifies this`data
      ensures Magnitude() == 2 * old(Magnitude())
      ensures old(Canonical(data)) ==> Canonical(data)
    {
      ghost var d := data;
      if data == [] {
        EmptyIsZero();
        return;
      }
      var c: Limb := 0;
      var i: nat := 0;
      while i < |data| || c != 0
        invariant i <= |d| + 1 && (i > |d| ==> c == 0)
        invariant AddDone(d, d, 0, data, i, c)
        decreases |d| + 1 - i
      {
        hide AddDone;
        ghost var before, was := data, c;
        AddLength(d, d, 0, data, i, c);
        var t := c;
        var carry := 0;
        if i < |data| {
          var r := PlusLimb(t, data[i]);
          t, carry := r.0, r.1;
        }
        if i < |data| {
          var r := PlusLimb(data[i], t);
          data := data[i := r.0];
          carry := carry + r.1;
        } else {
          data := data + [t];
        }
        c := carry;
        AddStep(d, d, 0, before, i, was, data, c);
        i := i + 1;
      }
      AddResult(d, d, 0, data, i);
    }

    /** |this| - |a| - b, which must not be negative; no limb beyond the stored ones is touched. */
    method SubAbs(a: seq<Limb>, b: Limb)
      requires Canonical(a) && Val(a) + b <= Magnitude()
      modifies this
      ensures Magnitude() == old(Magnitude()) - Val(a) - b
      ensures old(Canon()) ==> Canon() && (data != [] ==> sign == old(sign))
    {
      ghost var d := data;
      if a == [] && b == 0 {
        return;
      }
      var c: Limb := b;
      var i: nat := 0;
      while i < |a| || c != 0
        invariant i <= |d| && sign == old(sign)
        invariant SubDone(d, a, b, data, i, c)
        decreases |d| - i
      {
        hide SubDone;
        ghost var before, was := data, c;
        SubInBounds(d, a, b, data, i, c);
        var r := MinusLimb(data[i], c);
        data := data[i := r.0];
        c := r.1;
        if i < |a| {
          var r2 := MinusLimb(data[i], a[i]);
          data := data[i := r2.0];
          c := c + r2.1;
        }
        SubStep(d, a, b, before, i, was, data, c);
        i := i + 1;
      }
      SubResult(d, a, b, data, i);
      Shrink();
    }

    /** |a| + b - |this|, which must be positive. */
    method SubByAbs(a: seq<Limb>, b: Limb)
      requires Canonical(a) && (a == [] || b == 0) && Canonical(data) && Magnitude() < Val(a) + b
      modifies this
      ensures Magnitude() == Val(a) + b - old(Magnitude())
      ensures Canonical(data) && data != [] && sign == old(sign)
    {
      ghost var dd := data;
      if data == [] && b == 0 {
        data := a;
        ZeroIsEmpty(a);
        return;
      }
      var r: seq<Limb> := [];
      var c: Limb, d: Limb := b, 0;
      var i: nat := 0;
      ghost var n := if a == [] then 1 else |a|;
      while i < |a| || c != 0 || d != 0
        invariant i <= n && data == dd && sign == old(sign)
        invariant SubByDone(dd, a, b, r, i, c, d)
        decreases n - i
      {
        hide SubByDone;
        SubByInBounds(dd, a, b, r, i, c, d);
        ghost var before, wasC, wasD := r, c, d;
        var t := c;
        c := 0;
        var m := MinusLimb(t, d);
        t, d := m.0, m.1;
        if i < |a| {
          var q := PlusLimb(t, a[i]);
          t, c := q.0, q.1;
        }
        if i < |data| {
          var m2 := MinusLimb(t, data[i]);
          t, d := m2.0, d + m2.1;
        }
        ghost var c1, d1 := c, d;
        if c == d {
          c, d := 0, 0;
        }
        r := r + [t];
        SubByStep(dd, a, b, before, i, wasC, wasD, r, c, d, c1, d1);
        i := i + 1;
      }
      SubByResult(dd, a, b, r, i);
      data := r;
      Shrink();
      ZeroIsEmpty(data);
    }

    /** -1, 0 or 1, as the magnitude is smaller than, equal to or larger than |a|. */
    method Compare(a: seq<Limb>) returns (r: int)
      requires Canonical(data) && Canonical(a)
      ensures -1 <= r <= 1
      ensures r == -1 <==> Magnitude() < Val(a)
      ensures r == 1 <==> Magnitude() > Val(a)
    {
      if |data| < |a| {
        LongerIsLarger(data, a);
        return -1;
      } else if |data| > |a| {
        LongerIsLarger(a, data);
        return 1;
      }
      var i: int := |a| - 1;
      while i >= 0
        invariant -1 <= i < |a|
        invariant forall k: nat :: i < k < |a| ==> At(data, k) == At(a, k)
      {
        if data[i] < a[i] {
          HigherLimbWins(data, a, i, |a|);
          return -1;
        } else if data[i] > a[i] {
          HigherLimbWins(a, data, i, |a|);
          return 1;
        }
        i := i - 1;
      }
      LowSame(data, a, |a|);
      return 0;
    }

    /** The comparison with a single limb. */
    method CompareLimb(a: Limb) returns (r: int)
      requires Canonical(data)
      ensures -1 <= r <= 1
      ensures r == -1 <==> Magnitude() < a
      ensures r == 1 <==> Magnitude() > a
    {
      ZeroIsEmpty(data);
      if a == 0 {
        return if data == [] then 0 else 1;
      }
      if |data| < 1 {
        return -1;
      } else if |data| > 1 {
        TopBound(data);
        PlaceMono(1, |data| - 1);
        assert Place(1) == BASE;
        return 1;
      }
      assert Val(data) == data[0] by {
        OneLimb(data);
      }
      return if data[0] < a then -1 else if data[0] > a then 1 else 0;
    }

    /** += of a signed magnitude: exact, for every two numbers, and in canonical form. */
    method Add(s: bool, a: seq<Limb>)
      requires Canon() && Canonical(a)
      modifies this
      ensures Canon() && Value() == old(Value()) + Signed(s, Val(a))
    {
      ZeroIsEmpty(data);
      ZeroIsEmpty(a);
      if sign == s {
        AddAbs(a, 0);
        ZeroIsEmpty(data);
        return;
      }
      var c := Compare(a);
      if c == 0 {
        Reset(false);
      } else if c == 1 {
        SubAbs(a, 0);
        ZeroIsEmpty(data);
      } else {
        sign := s;
        SubByAbs(a, 0);
      }
    }

    /** += of a signed machine word, as ++ and -- use it. */
    method AddLimb(s: bool, b: Limb)
      requires Canon()
      modifies this
      ensures Canon() && Value() == old(Value()) + Signed(s, b)
    {
      ZeroIsEmpty(data);
      if sign == s {
        if b != 0 {
          AddAbs([], b);
        }
        ZeroIsEmpty(data);
        return;
      }
      var c := CompareLimb(b);
      if c == 0 {
        Reset(false);
      } else if c == 1 {
        if b != 0 {
          SubAbs([], b);
        }
        ZeroIsEmpty(data);
      } else {
        sign := s;
        if b != 0 {
          SubByAbs([], b);
        }
      }
    }

    /** this += a; `a` may be this number itself. */
    method Plus(a: HugeNumber)
      requires Canon() && a.Canon()
      modifies this
      ensures Canon() && Value() == old(Value()) + old(a.Value())
    {
      if a == this {
        ZeroIsEmpty(data);
        AddAbsOwn();
        ZeroIsEmpty(data);
      } else {
        Add(a.sign, a.data);
      }
    }

    /** this -= a; `a` may be this number itself. */
    method Minus(a: HugeNumber)
      requires Canon() && a.Canon()
      modifies this
      ensures Canon() && Value() == old(Value()) - old(a.Value())
    {
      Add(!a.sign, a.data);
    }

    /** a < b compares values. */
    method Less(s: bool, a: seq<Limb>) returns (r: bool)
      requires Canon() && Canonical(a) && (a == [] ==> !s)
      ensures r <==> Value() < Signed(s, Val(a))
    {
      ZeroIsEmpty(data);
      ZeroIsEmpty(a);
      if sign != s {
        return sign;
      }
      var c := Compare(a);
      r := if sign then c == 1 else c == -1;
    }

    /** Equality of the stored form is equality of values. */
    method Equal(a: HugeNumber) returns (r: bool)
      requires Canon() && a.Canon()
      ensures r <==> Value() == a.Value()
    {
      r := sign == a.sign && data == a.data;
      CanonicalForm(data, sign, a.data, a.sign);
    }

    method Negate()
      requires Canon()
      modifies this
      ensures Canon() && Value() == -old(Value())
    {
      ZeroIsEmpty(data);
      if data != [] {
        sign := !sign;
      }
    }

    // -------------------------------------------------------------- shifts

    /** Times 2^a. */
    method ShiftLeft(a: nat)
      requires Canon()
      modifies this
      ensures Canon() && Magnitude() == old(Magnitude()) * Pow2(a) && sign == old(sign)
    {
      if a == 0 || data == [] {
        return;
      }
      var r: seq<Limb> := [];
      var from := a;
      var i: nat := 0;
      while i < |data|
        invariant i <= |data| && data == old(data) && sign == old(sign)
        invariant from == a + BITS * i
        invariant Val(r) == Low(data, i) * Pow2(a) < Pow2(from)
      {
        hide Val, Pow2, ToBits, Low;
        ToBitsIs(r, from, BITS, data[i]);
        ShiftStep(data, i, a);
        r := ToBits(r, from, BITS, data[i]);
        from := from + BITS;
        i := i + 1;
      }
      data := r;
      Shrink();
      ZeroIsEmpty(data);
      ZeroIsEmpty(old(data));
      MulMono(1, Val(old(data)), Pow2(a));
    }

    /** The magnitude divided by 2^a, rounded towards zero. */
    method ShiftRight(a: nat)
      requires Canon()
      modifies this
      ensures Canon() && Magnitude() == old(Magnitude()) / Pow2(a)
      ensures data != [] ==> sign == old(sign)
    {
      if a == 0 {
        DivByOne(Val(data));
        return;
      }
      data := WordsFrom(data, a);
      Shrink();
    }

    /** The loop of shiftRight: word by word from bit `a` up. */
    static method WordsFrom(d: seq<Limb>, a: nat) returns (r: seq<Limb>)
      ensures Val(r) == Val(d) / Pow2(a)
    {
      hide Val, Pow2, GetBits, Place;
      ghost var x := Val(d) / Pow2(a);
      r := [];
      var from := a;
      StartDigits(x);
      while from < BITS * |d|
        invariant from == a + BITS * |r|
        invariant Val(r) == x % Place(|r|)
      {
        ShiftRightStep(d, a, r, x, from);
        r := r + [GetBits(d, from, BITS)];
        from := from + BITS;
      }
      ShiftedFits(d, a, |r|);
    }

    // -------------------------------------------------------------- multiplication

    /** Settles the sign and the trivial cases; true if nothing is left to do. */
    method MulSign(s: bool, zero: bool, one: bool) returns (done: bool)
      requires Canon()
      modifies this
      ensures old(data) == [] ==> done && data == [] && sign == old(sign)
      ensures old(data) != [] && zero ==> done && data == [] && !sign
      ensures old(data) != [] && !zero ==> done == one && data == old(data) && sign == (old(sign) != s)
    {
      if data == [] {
        return true;
      }
      if zero {
        Reset(false);
        return true;
      }
      sign := sign != s;
      return one;
    }

    /** The body of the multiplication loop. */
    static method MulRound(r: HugeNumber, t: HugeNumber, bit: nat)
      requires r != t && r.Canon() && t.Canon() && t.data != []
      modifies r, t
      ensures r.Canon() && r.Value() == old(r.Value()) + (if bit != 0 then old(t.Value()) else 0)
      ensures t.Canon() && t.data != [] && t.Magnitude() == old(t.Magnitude()) * 2 && t.sign == old(t.sign)
    {
      hide Val, Canonical;
      if bit != 0 {
        r.Add(t.sign, t.data);
      }
      ZeroIsEmpty(t.data);
      assert Pow2(1) == 2;
      t.ShiftLeft(1);
      ZeroIsEmpty(t.data);
    }

    /** Shift and add: the exact product. */
    method Mul(s: bool, a: seq<Limb>)
      requires Canon() && Canonical(a)
      modifies this
      ensures Canon() && Value() == old(Value()) * Signed(s, Val(a))
    {
      hide Val, Pow2, GetBits, Canonical, PartProduct, Shifted;
      ghost var m, was := Magnitude(), sign;
      ZeroIsEmpty(data);
      ZeroIsEmpty(a);
      SignedProduct(was, m, s, Val(a));
      var done := MulSign(s, a == [], false);
      if done {
        EmptyIsZero();
        TimesZero(m, Val(a));
        return;
      }
      var t := new HugeNumber.Copy(this);
      var r := new HugeNumber();
      var from := 0;
      NoBitsYet(Val(a), m);
      while from < BITS * |a|
        invariant t.Canon() && t.data != [] && t.Magnitude() == Shifted(m, from) && t.sign == sign
        invariant r.Canon() && r.Value() == Signed(sign, PartProduct(m, Val(a), from))
        invariant data == old(data) && sign == (was != s)
      {
        MulStepIs(a, from, m);
        MulRound(r, t, GetBits(a, from, 1));
        from := from + 1;
      }
      WholeProduct(a, from, m);
      SignedForm(r.data, r.sign, sign, m * Val(a));
      data := r.data;
      Shrink();
    }

    /** *= of a signed machine word. */
    method MulLimb(s: bool, a: Limb)
      requires Canon()
      modifies this
      ensures Canon() && Value() == old(Value()) * Signed(s, a)
    {
      hide Val, Pow2, Canonical, BitsAbove, PartProduct, Shifted;
      ghost var m, was := Magnitude(), sign;
      ZeroIsEmpty(data);
      SignedProduct(was, m, s, a);
      var done := MulSign(s, a == 0, a == 1);
      if done {
        EmptyIsZero();
        TimesZero(m, a);
        return;
      }
      var t := new HugeNumber.Copy(this);
      var r := new HugeNumber();
      var i: nat := a;
      ghost var from := 0;
      NoBitsYet(a, m);
      while i != 0
        invariant i == BitsAbove(a, from)
        invariant t.Canon() && t.data != [] && t.Magnitude() == Shifted(m, from) && t.sign == sign
        invariant r.Canon() && r.Value() == Signed(sign, PartProduct(m, a, from))
        invariant data == old(data) && sign == (was != s)
        decreases i
      {
        MulBit(a, from, m);
        MulRound(r, t, i % 2);
        i := i / 2;
        from := from + 1;
      }
      NoBitsLeft(a, from, m);
      SignedForm(r.data, r.sign, sign, m * a);
      data := r.data;
      Shrink();
    }

    // -------------------------------------------------------------- division

    /** The place of the highest one bit. */
    static method TopBit(a: seq<Limb>) returns (r: nat)
      requires a != [] && Canonical(a)
      ensures Pow2(r) <= Val(a) < Pow2(r + 1)
    {
      hide Pow2;
      var back := a[|a| - 1];
      var i: int := BITS - 1;
      BaseIsPow2();
      while i >= 0 && GetWord(back, i, 1) == 0
        invariant -1 <= i < BITS && back < Pow2(i + 1)
      {
        BitClear(back, i);
        i := i - 1;
      }
      TopBitSet(back, i);
      r := i + BITS * (|a| - 1);
      TopBitIs(a, i);
    }

    /** The body of the division loop: subtract if possible, and note it in the quotient. */
    static method DivRound(q: HugeNumber, r: HugeNumber, t: HugeNumber, p: nat) returns (k: nat)
      requires q != r && q != t && r != t && p > 0
      requires r.Canon() && !r.sign && t.Canon() && !t.sign && q.Magnitude() % Pow2(p) == 0
      modifies q, r
      ensures k == p - 1 && r.Canon() && !r.sign && q.sign == old(q.sign)
      ensures old(r.Magnitude()) < t.Magnitude() ==>
        r.Magnitude() == old(r.Magnitude()) && q.Magnitude() == old(q.Magnitude())
      ensures old(r.Magnitude()) >= t.Magnitude() ==>
        r.Magnitude() == old(r.Magnitude()) - t.Magnitude() && q.Magnitude() == old(q.Magnitude()) + Pow2(p - 1)
    {
      hide Val, Pow2, ToBitsReverse;
      var smaller := r.Less(t.sign, t.data);
      if !smaller {
        ghost var m := r.Magnitude() - t.Magnitude();
        r.Minus(t);
        SignedForm(r.data, r.sign, false, m);
        ToBitsReverseIs(q.data, p, 1, 1);
        OneBit(p);
        q.data := ToBitsReverse(q.data, p, 1, 1);
      }
      k := p - 1;
    }

    /** Shift and subtract. On entry |this| < 2^p * |a|; then |this| = q * |a| + r with r < |a|. */
    method DivModAbs(a: HugeNumber, q: HugeNumber, r: HugeNumber, p: nat)
      requires Canon() && a.Canon() && q != this && q != a && r != this && r != a && q != r
      requires 0 < p && a.data != [] && !r.sign && Magnitude() < Pow2(p) * a.Magnitude()
      modifies q, r
      ensures r.Canon() && !r.sign && q.sign == old(q.sign)
      ensures IsDivision(Magnitude(), a.Magnitude(), q.Magnitude(), r.Magnitude())
    {
      hide Val, Pow2, ToBitsReverse;
      ghost var n, b := Magnitude(), a.Magnitude();
      r.data := data;
      q.data := [];
      var t := new HugeNumber.Copy(a);
      t.ShiftLeft(p - 1);
      t.sign := false;
      var k := p;
      DivStart(n, b, p);
      assert q.Magnitude() == 0 by {
        EmptyIsZero();
      }
      while true
        invariant 0 < k <= p && r.Canon() && !r.sign && t.Canon() && !t.sign && q.sign == old(q.sign)
        invariant t.Magnitude() == b * Pow2(k - 1)
        invariant n == q.Magnitude() * b + r.Magnitude() && r.Magnitude() < Pow2(k) * b
        invariant q.Magnitude() % Pow2(k) == 0
        invariant n == Magnitude() && b == a.Magnitude() && data == old(data) && a.data == old(a.data)
        decreases k
      {
        DivStep(n, b, q.Magnitude(), r.Magnitude(), k);
        k := DivRound(q, r, t, k);
        if k < 1 {
          break;
        }
        t.ShiftRight(1);
      }
      DivEnd(q.Magnitude(), r.Magnitude(), b);
    }

    /** this /= a, rounded towards zero; refused for zero, where the program throws. */
    method Div(a: HugeNumber) returns (ok: bool)
      requires Canon() && a.Canon()
      modifies this
      ensures ok <==> old(a.Value()) != 0
      ensures ok ==> Canon() && Value() == TruncDiv(old(Value()), old(a.Value()))
      ensures !ok ==> data == old(data) && sign == old(sign)
    {
      hide Val, Pow2, TruncDiv, TruncMod, Canonical, IsDivision;
      ZeroIsEmpty(a.data);
      ZeroIsEmpty(data);
      if a.data == [] {
        return false;
      }
      ghost var x, y := Magnitude(), a.Magnitude();
      ghost var sx, sy := sign, a.sign;
      if data == [] {
        NothingDivided(y);
        TruncParts(sx, x, sy, y, 0, 0);
        return true;
      }
      var top := TopBit(data);
      var topA := TopBit(a.data);
      var p: int := top as int - topA as int + 1;
      if p > 0 {
        TopBitsBound(x, y, top, topA);
        var d := new HugeNumber();
        var r := new HugeNumber();
        DivModAbs(a, d, r, p);
        TruncParts(sx, x, sy, y, d.Magnitude(), r.Magnitude());
        data := d.data;
        sign := sign != a.sign;
        Shrink();
      } else {
        TopBitsLess(x, y, top, topA);
        TruncParts(sx, x, sy, y, 0, x);
        Reset(false);
        EmptyIsZero();
      }
      return true;
    }

    /** this %= a: the remainder of the division above. */
    method Mod(a: HugeNumber) returns (ok: bool)
      requires Canon() && a.Canon()
      modifies this
      ensures ok <==> old(a.Value()) != 0
      ensures ok ==> Canon() && Value() == TruncMod(old(Value()), old(a.Value()))
      ensures !ok ==> data == old(data) && sign == old(sign)
    {
      hide Val, Pow2, TruncDiv, TruncMod, Canonical, IsDivision;
      ZeroIsEmpty(a.data);
      ZeroIsEmpty(data);
      if a.data == [] {
        return false;
      }
      ghost var x, y := Magnitude(), a.Magnitude();
      ghost var sx, sy := sign, a.sign;
      if data == [] {
        NothingDivided(y);
        TruncParts(sx, x, sy, y, 0, 0);
        return true;
      }
      var top := TopBit(data);
      var topA := TopBit(a.data);
      var p: int := top as int - topA as int + 1;
      if p > 0 {
        TopBitsBound(x, y, top, topA);
        var q := new HugeNumber();
        var r := new HugeNumber();
        DivModAbs(a, q, r, p);
        TruncParts(sx, x, sy, y, q.Magnitude(), r.Magnitude());
        data := r.data;
        Shrink();
      } else {
        TopBitsLess(x, y, top, topA);
        TruncParts(sx, x, sy, y, 0, x);
      }
      return true;
    }
  }

  /** Division rounded towards zero, as C does it. */
  function TruncDiv(x: int, y: int): int
    requires y != 0
  {
    var a, b := AbsNat(x), AbsNat(y);
    DivBounds(a, b);
    Signed((x < 0) != (y < 0), a / b)
  }

  function TruncMod(x: int, y: int): int
    requires y != 0
  {
    var a, b := AbsNat(x), AbsNat(y);
    DivBounds(a, b);
    Signed(x < 0, a % b)
  }

  /** Quotient and remainder make up the dividend; the remainder is smaller than the divisor, and is zero
      or has the sign of the dividend. */
  lemma TruncDivMod(x: int, y: int)
    requires y != 0
    ensures x == TruncDiv(x, y) * y + TruncMod(x, y)
    ensures AbsNat(TruncMod(x, y)) < AbsNat(y) && (TruncMod(x, y) == 0 || (TruncMod(x, y) < 0 <==> x < 0))
  {
    var n, w := AbsNat(x), AbsNat(y);
    DivBounds(n, w);
    TruncSum(x < 0, y < 0, w, n / w, n % w);
  }

  /** No other pair does that. */
  lemma TruncUnique(x: int, y: int, q: int, m: int)
    requires y != 0 && x == q * y + m && AbsNat(m) < AbsNat(y) && (m == 0 || (m < 0 <==> x < 0))
    ensures q == TruncDiv(x, y) && m == TruncMod(x, y)
  {
    var n, w := AbsNat(x), AbsNat(y);
    var k := if (x < 0) != (y < 0) then -q else q;
    NegTimes(q, y);
    assert w * k == k * w;
    assert n == w * k + AbsNat(m);
    DivModUnique(n, w, k, AbsNat(m));
  }

  lemma NegTimes(q: int, y: int)
    ensures q * (-y) == -(q * y) && (-q) * y == -(q * y) && (-q) * (-y) == q * y
  {
  }

  lemma TruncSum(sx: bool, sy: bool, w: nat, d: nat, r: nat)
    ensures Signed(sx, w * d + r) == Signed(sx != sy, d) * Signed(sy, w) + Signed(sx, r)
  {
    SignedProduct(sx != sy, d, sy, w);
    assert d * w == w * d;
  }

  /** Quotient and remainder of natural numbers. */
  predicate IsDivision(x: nat, y: nat, q: nat, r: nat) { x == q * y + r && r < y }

  lemma TruncParts(sx: bool, x: nat, sy: bool, y: nat, q: nat, r: nat)
    requires (x == 0 ==> !sx) && IsDivision(x, y, q, r)
    ensures Signed(sy, y) != 0
    ensures TruncDiv(Signed(sx, x), Signed(sy, y)) == Signed(sx != sy, q)
    ensures TruncMod(Signed(sx, x), Signed(sy, y)) == Signed(sx, r)
  {
    assert q * y == y * q;
    DivModUnique(x, y, q, r);
  }

  lemma NothingDivided(y: nat)
    requires y > 0
    ensures IsDivision(0, y, 0, 0)
  {
  }

  lemma TopBitsBound(x: nat, y: nat, p: nat, pa: nat)
    requires x < Pow2(p + 1) && Pow2(pa) <= y && p >= pa
    ensures x < Pow2(p - pa + 1) * y
  {
    hide Pow2;
    Pow2Add(p - pa + 1, pa);
    MulMono(Pow2(pa), y, Pow2(p - pa + 1));
  }

  lemma TopBitsLess(x: nat, y: nat, p: nat, pa: nat)
    requires x < Pow2(p + 1) && Pow2(pa) <= y && p < pa
    ensures IsDivision(x, y, 0, x)
  {
    hide Pow2;
    Pow2Mono(p + 1, pa);
  }

  lemma BitClear(x: nat, i: nat)
    requires x < Pow2(i + 1) && GetWord(x, i, 1) == 0
    ensures x < Pow2(i)
  {
    assert Pow2(1) == 2;
    DivBounds(x, Pow2(i));
    if x / Pow2(i) >= 2 {
      MulMono(2, x / Pow2(i), Pow2(i));
    }
  }

  lemma TopBitSet(x: nat, i: int)
    requires -1 <= i && 0 < x < Pow2(i + 1) && (i >= 0 ==> GetWord(x, i, 1) != 0)
    ensures i >= 0 && Pow2(i) <= x
  {
    assert Pow2(0) == 1;
    if i >= 0 {
      DivBounds(x, Pow2(i));
      if x < Pow2(i) {
        DivModUnique(x, Pow2(i), 0, x);
        DivModUnique(0, Pow2(1), 0, 0);
      }
    }
  }

  lemma TopBitIs(a: seq<Limb>, i: nat)
    requires a != [] && Pow2(i) <= a[|a| - 1] < Pow2(i + 1)
    ensures Pow2(i + BITS * (|a| - 1)) <= Val(a) < Pow2(i + BITS * (|a| - 1) + 1)
  {
    hide Pow2, Place;
    var n, w := |a| - 1, a[|a| - 1];
    PlaceIsPow2(n);
    Pow2Add(i, BITS * n);
    Pow2Add(i + 1, BITS * n);
    LowBound(a, n);
    MulMono(Pow2(i), w, Place(n));
    MulLess(w, Pow2(i + 1), Place(n));
  }

  lemma OneBit(p: nat)
    requires p > 0
    ensures 1 % Pow2(1) == 1 && 1 * Pow2(p - 1) == Pow2(p - 1)
  {
    assert Pow2(1) == 2;
  }

  lemma EmptyIsZero()
    ensures Val([]) == 0 && Canonical([])
  {
  }

  lemma DivStart(n: nat, b: nat, p: nat)
    requires p > 0 && n < Pow2(p) * b
    ensures 0 % Pow2(p) == 0 && n == 0 * b + n
  {
    DivModUnique(0, Pow2(p), 0, 0);
  }

  /** What one round of the division does, whichever way the comparison goes. */
  lemma DivStep(n: nat, b: nat, q: nat, r: nat, k: nat)
    requires k > 0 && n == q * b + r && r < Pow2(k) * b && q % Pow2(k) == 0
    ensures var t := b * Pow2(k - 1);
      && (r < t ==> r < Pow2(k - 1) * b)
      && (r >= t ==> r - t < Pow2(k - 1) * b && n == (q + Pow2(k - 1)) * b + (r - t))
      && q % Pow2(k - 1) == 0 && (q + Pow2(k - 1)) % Pow2(k - 1) == 0
      && (k > 1 ==> t / Pow2(1) == b * Pow2(k - 2))
  {
    hide Pow2;
    var h := Pow2(k - 1);
    Pow2Twice(k);
    Distrib(b, h, h);
    Distrib(b, q, h);
    DivProduct(q, h, 2);
    DivBounds(q, h);
    DivModShift(q, 1, h);
    if k > 1 {
      HalfStep(b, k);
    }
  }

  lemma Pow2Twice(k: nat)
    requires k > 0
    ensures Pow2(k) == Pow2(k - 1) * 2
  {
  }

  lemma HalfStep(b: nat, k: nat)
    requires k > 1
    ensures b * Pow2(k - 1) / Pow2(1) == b * Pow2(k - 2)
  {
    hide Pow2;
    Pow2Twice(k - 1);
    Pow2Twice(1);
    PowZero();
    MulAssoc(b, Pow2(k - 2), 2);
    DivModUnique(b * Pow2(k - 1), 2, b * Pow2(k - 2), 0);
  }

  lemma PowZero()
    ensures Pow2(0) == 1
  {
  }

  lemma DivEnd(q: nat, r: nat, b: nat)
    requires r < Pow2(0) * b
    ensures r < b
  {
  }

  lemma TimesZero(m: nat, x: nat)
    ensures m == 0 || x == 0 ==> m * x == 0
  {
  }

  lemma MulStart(m: nat, x: nat)
    ensures m * Pow2(0) == m && m * (x % Pow2(0)) == 0
  {
    assert Pow2(0) == 1;
  }

  /** One bit of the multiplier: what it adds, and what it doubles. */
  lemma MulStepIs(a: seq<Limb>, from: nat, m: nat)
    requires from < BITS * |a|
    ensures Shifted(m, from + 1) == Shifted(m, from) * 2 && GetBits(a, from, 1) <= 1
    ensures PartProduct(m, Val(a), from + 1) ==
      PartProduct(m, Val(a), from) + (if GetBits(a, from, 1) != 0 then Shifted(m, from) else 0)
  {
    hide Val, GetBits, PartProduct, Shifted;
    GetBitsIs(a, from, 1);
    assert Pow2(1) == 2;
    MulBit(Val(a), from, m);
  }

  function BitsAbove(a: nat, k: nat): nat {
    DivBounds(a, Pow2(k));
    a / Pow2(k)
  }

  function Shifted(m: nat, k: nat): nat { m * Pow2(k) }

  /** The product with the low `k` bits. */
  function PartProduct(m: nat, a: nat, k: nat): nat { m * (a % Pow2(k)) }

  lemma NoBitsYet(a: nat, m: nat)
    ensures BitsAbove(a, 0) == a && Shifted(m, 0) == m && PartProduct(m, a, 0) == 0
  {
    MulStart(m, a);
  }

  /** One bit of a one-word multiplier. */
  lemma MulBit(a: nat, k: nat, m: nat)
    ensures BitsAbove(a, k + 1) == BitsAbove(a, k) / 2 && Shifted(m, k + 1) == Shifted(m, k) * 2
    ensures PartProduct(m, a, k + 1) == PartProduct(m, a, k) + (if BitsAbove(a, k) % 2 != 0 then Shifted(m, k) else 0)
  {
    assert Pow2(1) == 2;
    Pow2Add(k, 1);
    DivProduct(a, Pow2(k), 2);
    MulAssoc(m, Pow2(k), 2);
    Distrib(m, a % Pow2(k), Pow2(k) * (a / Pow2(k) % 2));
  }

  lemma NoBitsLeft(a: nat, k: nat, m: nat)
    requires BitsAbove(a, k) == 0
    ensures PartProduct(m, a, k) == m * a
  {
    DivBounds(a, Pow2(k));
  }

  lemma WholeProduct(a: seq<Limb>, from: nat, m: nat)
    requires from >= BITS * |a|
    ensures PartProduct(m, Val(a), from) == m * Val(a)
  {
    AllBits(a, from);
  }

  lemma AllBits(a: seq<Limb>, from: nat)
    requires from >= BITS * |a|
    ensures Val(a) % Pow2(from) == Val(a)
  {
    LowIsVal(a);
    PlaceIsPow2(|a|);
    Pow2Mono(BITS * |a|, from);
    DivModUnique(Val(a), Pow2(from), 0, Val(a));
  }

  lemma SignedForm(d: seq<Limb>, s: bool, u: bool, x: nat)
    requires Canonical(d) && (d == [] ==> !s) && Signed(s, Val(d)) == Signed(u, x)
    ensures Val(d) == x && (d != [] ==> s == u)
  {
    ZeroIsEmpty(d);
  }

  lemma SignedProduct(s: bool, m: nat, u: bool, x: nat)
    ensures Signed(s != u, m * x) == Signed(s, m) * Signed(u, x)
  {
  }

  lemma ShiftStep(d: seq<Limb>, i: nat, a: nat)
    requires i < |d|
    ensures d[i] % Pow2(BITS) == d[i]
    ensures Low(d, i) * Pow2(a) + d[i] * Pow2(a + BITS * i) == Low(d, i + 1) * Pow2(a)
  {
    hide Pow2;
    BaseIsPow2();
    PlaceIsPow2(i);
    Pow2Add(a, BITS * i);
    ShiftArith(Low(d, i), d[i], Place(i), Pow2(a));
  }

  lemma ShiftArith(low: nat, w: nat, p: nat, q: nat)
    ensures low * q + w * (q * p) == (low + w * p) * q
  {
    assert w * (q * p) == (w * p) * q;
    Distrib(q, low, w * p);
  }

  lemma PlaceNext(k: nat)
    ensures Place(k + 1) == Place(k) * BASE
  {
  }

  lemma AppendLimb(r: seq<Limb>, x: Limb)
    ensures Val(r + [x]) == Val(r) + x * Place(|r|)
  {
    LowSame(r + [x], r, |r|);
  }

  /** The word at bit a + 64 k is digit `k` of the quotient by 2^a. */
  lemma WordOfQuotient(d: seq<Limb>, a: nat, k: nat)
    ensures (Val(d) / Pow2(a + BITS * k)) % Pow2(BITS) == ((Val(d) / Pow2(a)) / Place(k)) % BASE
  {
    hide Pow2, Val, Place;
    BaseIsPow2();
    PlaceIsPow2(k);
    Pow2Add(a, BITS * k);
    DivProduct(Val(d), Pow2(a), Pow2(BITS * k));
  }

  /** With all words of the quotient taken, nothing of it is left out. */
  lemma ShiftedFits(d: seq<Limb>, a: nat, k: nat)
    requires a + BITS * k >= BITS * |d|
    ensures (Val(d) / Pow2(a)) % Place(k) == Val(d) / Pow2(a)
  {
    hide Pow2, Val, Place;
    LowIsVal(d);
    PlaceIsPow2(|d|);
    PlaceIsPow2(k);
    Pow2Add(a, BITS * k);
    Pow2Mono(BITS * |d|, a + BITS * k);
    QuotientBelow(Val(d), Pow2(a), Place(k));
    DivModUnique(Val(d) / Pow2(a), Place(k), 0, Val(d) / Pow2(a));
  }

  lemma ShiftRightStep(d: seq<Limb>, a: nat, r: seq<Limb>, x: nat, from: nat)
    requires x == Val(d) / Pow2(a) && from == a + BITS * |r| < BITS * |d| && Val(r) == x % Place(|r|)
    ensures GetBits(d, from, BITS) < BASE
    ensures Val(r + [GetBits(d, from, BITS)]) == x % Place(|r| + 1)
  {
    hide Pow2, Val, Place, GetBits;
    var k, g := |r|, GetBits(d, from, BITS);
    GetBitsIs(d, from, BITS);
    BaseIsPow2();
    WordOfQuotient(d, a, k);
    assert g == (x / Place(k)) % BASE;
    AppendLimb(r, g);
    NextDigit(x, k);
    assert g * Place(k) == Place(k) * g;
  }

  lemma DivByOne(x: nat)
    ensures x / Pow2(0) == x
  {
  }

  lemma StartDigits(x: nat)
    ensures Val([]) == x % Place(0)
  {
  }

  lemma NextDigit(x: nat, k: nat)
    ensures x % Place(k + 1) == x % Place(k) + Place(k) * ((x / Place(k)) % BASE)
  {
    hide Place;
    PlaceNext(k);
    DivProduct(x, Place(k), BASE);
  }

  lemma LowIsVal(d: seq<Limb>)
    ensures Val(d) < Place(|d|)
  {
    LowBound(d, |d|);
  }

  lemma QuotientBelow(x: nat, p: nat, q: nat)
    requires p > 0 && x < p * q
    ensures x / p < q
  {
    DivBounds(x, p);
    if x / p >= q {
      MulMono(q, x / p, p);
    }
  }

  lemma OneLimb(d: seq<Limb>)
    requires |d| == 1
    ensures Val(d) == d[0]
  {
    assert Low(d, 1) == Low(d, 0) + At(d, 0) * Place(0);
  }

  /** Two canonical numbers of equal value are stored alike. */
  lemma CanonicalForm(d: seq<Limb>, s: bool, e: seq<Limb>, u: bool)
    requires Canonical(d) && Canonical(e) && (d == [] ==> !s) && (e == [] ==> !u)
    ensures (d == e && s == u) <==> Signed(s, Val(d)) == Signed(u, Val(e))
  {
    ZeroIsEmpty(d);
    ZeroIsEmpty(e);
    if Val(d) == Val(e) {
      CanonicalUnique(d, e);
    }
  }

  /** The low `i` limbs of the sum are in place, `c` is carried, the other limbs are as they were. */
  ghost predicate AddDone(d: seq<Limb>, a: seq<Limb>, b: Limb, r: seq<Limb>, i: nat, c: nat) {
    && |r| == (if i > |d| then i else |d|)
    && (forall k: nat :: i <= k ==> At(r, k) == At(d, k))
    && Low(r, i) + c * Place(i) == Low(d, i) + Low(a, i) + b
    && (Canonical(d) && Canonical(a) && i >= |a| && c == 0 && i > 0 && r != [] ==> r[|r| - 1] != 0)
  }

  lemma AddLength(d: seq<Limb>, a: seq<Limb>, b: Limb, r: seq<Limb>, i: nat, c: nat)
    requires AddDone(d, a, b, r, i, c)
    ensures |r| == (if i > |d| then i else |d|) && At(r, i) == At(d, i)
  {
  }

  /** One limb of the addition: the limb and the carry it leaves add up. */
  lemma AddStep(d: seq<Limb>, a: seq<Limb>, b: Limb, r: seq<Limb>, i: nat, was: nat, r': seq<Limb>, c: nat)
    requires AddDone(d, a, b, r, i, was) && (i < |a| || was != 0)
    requires |r'| == if i < |r| then |r| else i + 1
    requires forall k: nat :: k != i ==> At(r', k) == At(r, k)
    requires At(r', i) + c * BASE == At(d, i) + At(a, i) + was
    ensures AddDone(d, a, b, r', i + 1, c)
  {
    LowSame(r', r, i);
    AddArith(At(r', i), c, At(d, i), At(a, i), was, Place(i));
    if Canonical(d) && Canonical(a) && i + 1 >= |a| && c == 0 {
      AddTop(d, a, b, r, i, was, r', c);
    }
  }

  lemma AddArith(x: nat, c: nat, d: nat, a: nat, was: nat, p: nat)
    requires x + c * BASE == d + a + was
    ensures x * p + c * (BASE * p) == d * p + a * p + was * p
  {
    MulAssoc(c, BASE, p);
    assert (x + c * BASE) * p == x * p + (c * BASE) * p;
    assert (d + a + was) * p == d * p + a * p + was * p;
  }

  /** The sum has no zero limb on top either. */
  lemma AddTop(d: seq<Limb>, a: seq<Limb>, b: Limb, r: seq<Limb>, i: nat, was: nat, r': seq<Limb>, c: nat)
    requires AddDone(d, a, b, r, i, was) && (i < |a| || was != 0)
    requires |r'| == if i < |r| then |r| else i + 1
    requires forall k: nat :: k != i ==> At(r', k) == At(r, k)
    requires At(r', i) + c * BASE == At(d, i) + At(a, i) + was
    requires Canonical(d) && Canonical(a) && i + 1 >= |a| && c == 0
    ensures r'[|r'| - 1] != 0
  {
    hide Low, Place;
    assert r'[|r'| - 1] == At(r', |r'| - 1);
    if i + 1 < |d| {
      assert At(r', |r'| - 1) == At(d, |d| - 1);
    } else {
      assert |r'| == i + 1;
      assert i < |a| ==> At(a, i) == a[|a| - 1];
    }
  }

  lemma AddResult(d: seq<Limb>, a: seq<Limb>, b: Limb, r: seq<Limb>, i: nat)
    requires AddDone(d, a, b, r, i, 0) && i >= |a|
    ensures Val(r) == Val(d) + Val(a) + b
  {
    SameHigh(r, d, i, |r| + i);
    LowAll(r, |r| + i);
    LowAll(d, |r| + i);
    LowAll(a, i);
  }

  // ---------------------------------------------------------------- subtraction, limb by limb

  /** The low `i` limbs of the difference are in place, `c` is borrowed, the other limbs are as they were. */
  ghost predicate SubDone(d: seq<Limb>, a: seq<Limb>, b: Limb, r: seq<Limb>, i: nat, c: nat) {
    && |r| == |d|
    && (forall k: nat :: i <= k ==> At(r, k) == At(d, k))
    && Low(r, i) + Low(a, i) + b == Low(d, i) + c * Place(i)
  }

  lemma SubInBounds(d: seq<Limb>, a: seq<Limb>, b: Limb, r: seq<Limb>, i: nat, c: nat)
    requires SubDone(d, a, b, r, i, c) && Canonical(a) && Val(a) + b <= Val(d) && (i < |a| || c != 0)
    ensures i < |d| == |r| && r[i] == At(d, i)
  {
    if i >= |d| {
      if i < |a| {
        LongerIsLarger(d, a);
      } else {
        LowAll(d, i);
        LowAll(a, i);
        LowBound(r, i);
        MulMono(1, c, Place(i));
      }
    }
    assert At(r, i) == At(d, i);
  }

  lemma SubStep(d: seq<Limb>, a: seq<Limb>, b: Limb, r: seq<Limb>, i: nat, was: nat, r': seq<Limb>, c: nat)
    requires SubDone(d, a, b, r, i, was) && i < |d| && |r'| == |r|
    requires forall k: nat :: k != i ==> At(r', k) == At(r, k)
    requires At(r', i) + At(a, i) + was == At(d, i) + c * BASE
    ensures SubDone(d, a, b, r', i + 1, c)
  {
    LowSame(r', r, i);
    AddArith(At(d, i), c, At(r', i), At(a, i), was, Place(i));
  }

  lemma SubResult(d: seq<Limb>, a: seq<Limb>, b: Limb, r: seq<Limb>, i: nat)
    requires SubDone(d, a, b, r, i, 0) && |a| <= i <= |d|
    ensures Val(r) == Val(d) - Val(a) - b
  {
    SameHigh(r, d, i, |d|);
    LowAll(a, i);
  }

  /** The low `i` limbs of |a| + b - |d|, with `c` carried and `e` borrowed. */
  ghost predicate SubByDone(d: seq<Limb>, a: seq<Limb>, b: Limb, r: seq<Limb>, i: nat, c: nat, e: nat) {
    && |r| == i
    && Low(r, i) + c * Place(i) + Low(d, i) == Low(a, i) + b + e * Place(i)
    && (c == e ==> c == 0)
  }

  /** Past the last limb of `a` nothing is carried or borrowed any more. */
  lemma SubByInBounds(d: seq<Limb>, a: seq<Limb>, b: Limb, r: seq<Limb>, i: nat, c: nat, e: nat)
    requires SubByDone(d, a, b, r, i, c, e) && Canonical(a) && (a == [] || b == 0)
    requires Canonical(d) && Val(d) < Val(a) + b
    requires i < |a| || c != 0 || e != 0
    ensures i < if a == [] then 1 else |a|
  {
    var n := if a == [] then 1 else |a|;
    NotLonger(d, a, b);
    if i >= n {
      LowAll(d, i);
      LowAll(a, i);
      LowBound(r, i);
      LowBound(a, n);
      LowAll(a, n);
      assert Place(1) == BASE;
      PlaceMono(n, i);
      NearlyEqual(c, e, Place(i), Low(r, i), Val(a) + b - Val(d));
    }
  }

  lemma NotLonger(d: seq<Limb>, a: seq<Limb>, b: Limb)
    requires Canonical(a) && (a == [] || b == 0) && Canonical(d) && Val(d) < Val(a) + b
    ensures |d| <= if a == [] then 1 else |a|
  {
    assert Place(1) == BASE;
    if a == [] && |d| > 1 {
      TopBound(d);
      PlaceMono(1, |d| - 1);
    } else if a != [] && |d| > |a| {
      LongerIsLarger(a, d);
    }
  }

  lemma NearlyEqual(c: nat, e: nat, p: nat, x: nat, y: nat)
    requires p > 0 && x < p && y < p && x + c * p == y + e * p
    ensures c == e
  {
    assert (c + 1) * p == c * p + p && (e + 1) * p == e * p + p;
    if c < e {
      MulMono(c + 1, e, p);
    } else if e < c {
      MulMono(e + 1, c, p);
    }
  }

  lemma SubByStep(d: seq<Limb>, a: seq<Limb>, b: Limb, r: seq<Limb>, i: nat, wasC: nat, wasD: nat,
                  r': seq<Limb>, c: nat, e: nat, c1: nat, e1: nat)
    requires SubByDone(d, a, b, r, i, wasC, wasD) && |r'| == i + 1 && r'[..i] == r
    requires At(r', i) + c1 * BASE + At(d, i) + wasD == wasC + At(a, i) + e1 * BASE
    requires if c1 == e1 then c == e == 0 else c == c1 && e == e1
    ensures SubByDone(d, a, b, r', i + 1, c, e)
  {
    LowSame(r', r, i);
    SubByArith(At(r', i), c1, At(d, i), wasD, wasC, At(a, i), e1, Place(i));
  }

  lemma SubByArith(x: nat, c: nat, d: nat, wasD: nat, wasC: nat, a: nat, e: nat, p: nat)
    requires x + c * BASE + d + wasD == wasC + a + e * BASE
    ensures x * p + c * (BASE * p) + d * p + wasD * p == wasC * p + a * p + e * (BASE * p)
  {
    MulAssoc(c, BASE, p);
    MulAssoc(e, BASE, p);
    assert (x + c * BASE + d + wasD) * p == x * p + (c * BASE) * p + d * p + wasD * p;
    assert (wasC + a + e * BASE) * p == wasC * p + a * p + (e * BASE) * p;
  }

  lemma SubByResult(d: seq<Limb>, a: seq<Limb>, b: Limb, r: seq<Limb>, i: nat)
    requires SubByDone(d, a, b, r, i, 0, 0) && i >= |a| && Canonical(d) && Canonical(a)
    requires (a == [] || b == 0) && Val(d) < Val(a) + b
    ensures Val(r) == Val(a) + b - Val(d)
  {
    NotLonger(d, a, b);
    LowAll(a, i);
    LowAll(d, i);
  }
}

/** Printing and parsing of the big integers (src/huge_number.h: toString, from, checkBase), proved
    against the notation of `Numerals.dfy`. */
module HugeText {
  import opened Arithmetic
  import opened Wrappers
  import opened Limbs
  import opened Bits
  import opened Numerals
  import opened HalvedDigits
  import H = HugeNumber

  // ---------------------------------------------------------------- bases 2, 8 and 16

  function Reverse(s: string): (r: string)
    ensures |r| == |s| && forall i :: 0 <= i < |r| ==> r[i] == s[|s| - 1 - i]
  {
    seq(|s|, i requires 0 <= i < |s| => s[|s| - 1 - i])
  }

  lemma ReverseConcat(a: string, b: string)
    ensures Reverse(a + b) == Reverse(b) + Reverse(a)
  {
  }

  /** `ret` spells the digits `ds`, the least significant first. */
  ghost predicate Spells(ret: string, ds: seq<nat>, upper: bool) {
    |ret| == |ds| && forall i :: 0 <= i < |ret| ==> ds[i] < 16 && ret[i] == DigitChar(ds[i], upper)
  }

  /** The `k`-th group of `n` bits is the next digit in base 2^n. */
  lemma NextGroup(d: seq<Limb>, ds: seq<nat>, n: nat)
    requires 0 < n <= BITS && n * |ds| < BITS * |d|
    requires NumOf(ds, Pow2(n)) == Val(d) % Pow2(n * |ds|)
    ensures GetBits(d, n * |ds|, n) < Pow2(n)
    ensures NumOf(ds + [GetBits(d, n * |ds|, n)], Pow2(n)) == Val(d) % Pow2(n * (|ds| + 1))
  {
    hide Val, Pow2, GetBits, NumOf, Power;
    var k := |ds|;
    var g := GetBits(d, n * k, n);
    GetBitsIs(d, n * k, n);
    FieldBound(Val(d), n * k, n);
    NumOfAppend(ds, g, Pow2(n));
    PowerIsPow2(n, k);
    assert n * (k + 1) == n * k + n;
    Pow2Add(n * k, n);
    DivProduct(Val(d), Pow2(n * k), Pow2(n));
    assert g * Pow2(n * k) == Pow2(n * k) * g;
  }

  lemma SmallPowers(n: nat)
    requires n == 1 || n == 3 || n == 4
    ensures Pow2(n) == (if n == 1 then 2 else if n == 3 then 8 else 16)
  {
    assert Pow2(2) == 4;
    assert Pow2(3) == 8;
  }

  /** The loop of toStringX: group by group from the low end. */
  method Groups(d: seq<Limb>, n: nat, upper: bool) returns (ret: string, ghost ds: seq<nat>)
    requires n == 1 || n == 3 || n == 4
    ensures Spells(ret, ds, upper) && IsDigits(ds, Pow2(n)) && NumOf(ds, Pow2(n)) == Val(d)
  {
    hide Val, Pow2, GetBits, NumOf;
    SmallPowers(n);
    ret, ds := "", [];
    var from := 0;
    NoGroups(Val(d), n);
    while from < BITS * |d|
      invariant from == n * |ds| && Spells(ret, ds, upper) && IsDigits(ds, Pow2(n))
      invariant NumOf(ds, Pow2(n)) == Val(d) % Pow2(n * |ds|)
    {
      NextGroup(d, ds, n);
      var g := GetBits(d, from, n);
      ret := ret + [DigitChar(g, upper)];
      ds := ds + [g];
      from := from + n;
    }
    H.AllBits(d, from);
  }

  lemma NoGroups(x: nat, n: nat)
    ensures NumOf([], Pow2(n)) == x % Pow2(n * 0)
  {
  }

  /** eraseTailIf on '0': the digits of the number without zeros on top. */
  method EraseZeros(s: string, ghost ds: seq<nat>, ghost base: nat, upper: bool) returns (ret: string)
    requires 1 < base <= 16 && Spells(s, ds, upper) && IsDigits(ds, base)
    ensures Spells(ret, DigitsOf(NumOf(ds, base), base), upper)
  {
    hide NumOf, DigitsOf, DigitChar;
    ret := s;
    ghost var left := ds;
    while ret != "" && ret[|ret| - 1] == '0'
      invariant Spells(ret, left, upper) && IsDigits(left, base) && NumOf(left, base) == NumOf(ds, base)
      decreases |ret|
    {
      DigitCharVal(left[|left| - 1], upper);
      NumOfTopZero(left, base);
      ret := ret[..|ret| - 1];
      left := left[..|left| - 1];
    }
    if left != [] {
      DigitCharVal(left[|left| - 1], upper);
      ZeroDigit(upper);
    }
    DigitsUnique(left, base);
  }

  lemma ZeroDigit(upper: bool)
    ensures DigitChar(0, upper) == '0'
  {
    DigitCharVal(0, upper);
  }

  /** toStringX: `mark` is the base mark written backwards. */
  method ToStringX(h: H.HugeNumber, n: nat, upper: bool, mark: string) returns (s: string)
    requires h.Canon() && (n == 1 || n == 3 || n == 4)
    ensures s == (if h.sign then "-" else "") + Reverse(mark)
      + (if h.Magnitude() == 0 then "0" else DigitText(Digits2(h.Magnitude(), n), upper))
  {
    hide Val, Pow2, NumOf, DigitsOf, DigitChar;
    ZeroIsEmpty(h.data);
    var ret := "";
    if h.data == [] {
      ret := ret + ['0'];
    } else {
      ret := PlainDigits(h.data, n, upper);
    }
    AssembleReversed(ret, mark, h.sign);
    ret := ret + mark;
    if h.sign {
      ret := ret + ['-'];
    }
    s := Reverse(ret);
  }

  method PlainDigits(d: seq<Limb>, n: nat, upper: bool) returns (ret: string)
    requires Canonical(d) && d != [] && (n == 1 || n == 3 || n == 4)
    ensures Reverse(ret) == DigitText(Digits2(Val(d), n), upper)
  {
    hide Val, Pow2, NumOf, DigitsOf, DigitChar;
    SmallPowers(n);
    ghost var ds;
    ret, ds := Groups(d, n, upper);
    ret := EraseZeros(ret, ds, Pow2(n), upper);
  }

  lemma AssembleReversed(digits: string, mark: string, neg: bool)
    ensures Reverse((digits + mark) + (if neg then ['-'] else "")) ==
      (if neg then "-" else "") + Reverse(mark) + Reverse(digits)
    ensures Reverse(digits + mark) == "" + Reverse(mark) + Reverse(digits)
    ensures digits == ['0'] ==> Reverse(digits) == "0"
  {
    ReverseConcat(digits, mark);
    ReverseConcat(digits + mark, ['-']);
    assert Reverse(['-']) == "-";
    assert "-" + (Reverse(mark) + Reverse(digits)) == ("-" + Reverse(mark)) + Reverse(digits);
    assert (digits + mark) + "" == digits + mark;
    assert "" + Reverse(mark) == Reverse(mark);
  }

  function Digits2(x: nat, n: nat): (ds: seq<nat>)
    requires n == 1 || n == 3 || n == 4
    ensures IsDigits(ds, 16)
  {
    SmallPowers(n);
    DigitsOf(x, Pow2(n))
  }

  // ---------------------------------------------------------------- base 10

  /** Reverses a string in place and adds `v` to every character. */
  method ReverseAdd(s: seq<int>, v: int) returns (r: seq<int>)
    ensures |r| == |s| && forall k :: 0 <= k < |s| ==> r[k] == s[|s| - 1 - k] + v
  {
    r := s;
    var i: int, j: int := 0, |s| - 1;
    while i <= j
      invariant 0 <= i && i + j == |s| - 1 && |r| == |s| && i <= j + 2
      invariant forall k :: 0 <= k < i && k < |s| ==> r[k] == s[|s| - 1 - k] + v
      invariant forall k :: j < k < |s| && 0 <= k ==> r[k] == s[|s| - 1 - k] + v
      invariant forall k :: i <= k <= j ==> r[k] == s[k]
    {
      var t := r[i];
      r := r[i := r[j] + v];
      if i < j {
        r := r[j := t + v];
      }
      i := i + 1;
      j := j - 1;
    }
  }

  /** ret = 2 * ret + add, digit by decimal digit. */
  method DoubleAdd(ds: seq<nat>, bit: nat) returns (ret: seq<nat>)
    requires IsDigits(ds, 10) && bit <= 1 && (ds == [] || ds[|ds| - 1] != 0)
    ensures IsDigits(ret, 10) && (ret == [] || ret[|ret| - 1] != 0)
    ensures NumOf(ret, 10) == 2 * NumOf(ds, 10) + bit
  {
    hide NumOf, Power;
    ret := ds;
    var add: nat := bit;
    var k: nat := 0;
    assert NumOf(ret[..0], 10) + add * Power(10, 0) == 2 * NumOf(ds[..0], 10) + bit by {
      NothingDone(ds, bit);
    }
    while k < |ret|
      invariant k <= |ret| == |ds| && add <= 1 && IsDigits(ret, 10)
      invariant forall i :: k <= i < |ds| ==> ret[i] == ds[i]
      invariant NumOf(ret[..k], 10) + add * Power(10, k) == 2 * NumOf(ds[..k], 10) + bit
      invariant k == |ds| > 0 ==> ret[k - 1] != 0 || add != 0
    {
      ghost var before, was := ret, add;
      var c: nat := ret[k] * 2 + add;
      add := if c > 9 then 1 else 0;
      if add != 0 {
        c := c - 10;
      }
      ret := ret[k := c];
      DoubleStep(ds, before, ret, k, was, add);
      k := k + 1;
    }
    assert ret[..k] == ret && ds[..k] == ds;
    if add != 0 {
      NumOfAppend(ret, add, 10);
      ret := ret + [add];
    }
  }

  lemma NothingDone(ds: seq<nat>, bit: nat)
    ensures NumOf(ds[..0], 10) + bit * Power(10, 0) == 2 * NumOf(ds[..0], 10) + bit
  {
  }

  lemma DoubleStep(ds: seq<nat>, a: seq<nat>, b: seq<nat>, k: nat, was: nat, add: nat)
    requires k < |ds| == |a| == |b| && b == a[k := b[k]] && a[k] == ds[k]
    requires b[k] + 10 * add == 2 * ds[k] + was
    ensures NumOf(a[..k], 10) + was * Power(10, k) - 2 * NumOf(ds[..k], 10)
         == NumOf(b[..k + 1], 10) + add * Power(10, k + 1) - 2 * NumOf(ds[..k + 1], 10)
  {
    hide NumOf;
    assert b[..k + 1] == a[..k] + [b[k]] && ds[..k + 1] == ds[..k] + [ds[k]];
    NumOfAppend(a[..k], b[k], 10);
    NumOfAppend(ds[..k], ds[k], 10);
    DoubleArith(b[k], add, ds[k], was, Power(10, k));
  }

  lemma DoubleArith(x: nat, add: nat, d: nat, was: nat, p: nat)
    requires x + 10 * add == 2 * d + was
    ensures x * p + add * (10 * p) == 2 * (d * p) + was * p
  {
    assert (x + 10 * add) * p == x * p + (10 * add) * p;
    assert (2 * d + was) * p == (2 * d) * p + was * p;
    MulAssoc(10, add, p);
    MulAssoc(2, d, p);
    assert add * (10 * p) == 10 * (add * p);
  }

  /** The bits from the top down, doubled into decimal digits. */
  method DecimalDigits(d: seq<Limb>) returns (ret: seq<nat>)
    ensures ret == DigitsOf(Val(d), 10)
  {
    hide Val, Pow2, GetBits, NumOf, DigitsOf;
    ret := [];
    var total := BITS * |d|;
    var from := 0;
    NothingAbove10(d);
    while from < total
      invariant from <= total && IsDigits(ret, 10) && (ret == [] || ret[|ret| - 1] != 0)
      invariant NumOf(ret, 10) == Val(d) / Pow2(total - from)
    {
      NextBitDown(d, total - 1 - from);
      ret := DoubleAdd(ret, GetBits(d, total - 1 - from, 1));
      from := from + 1;
    }
    H.DivByOne(Val(d));
    DigitsUnique(ret, 10);
  }

  lemma NothingAbove10(d: seq<Limb>)
    ensures NumOf([], 10) == Val(d) / Pow2(BITS * |d|)
  {
    LowBound(d, |d|);
    PlaceIsPow2(|d|);
    DivModUnique(Val(d), Pow2(BITS * |d|), 0, Val(d));
  }

  lemma NextBitDown(d: seq<Limb>, at: nat)
    requires at < BITS * |d|
    ensures GetBits(d, at, 1) <= 1
    ensures Val(d) / Pow2(at) == 2 * (Val(d) / Pow2(at + 1)) + GetBits(d, at, 1)
  {
    hide Val, GetBits;
    GetBitsIs(d, at, 1);
    assert Pow2(1) == 2;
    Pow2Add(at, 1);
    DivProduct(Val(d), Pow2(at), 2);
  }

  function Chars(codes: seq<int>): (s: string)
    requires forall i :: 0 <= i < |codes| ==> 0 <= codes[i] < 128
    ensures |s| == |codes| && forall i :: 0 <= i < |s| ==> s[i] == codes[i] as char
  {
    seq(|codes|, i requires 0 <= i < |codes| => codes[i] as char)
  }

  function Ints(ds: seq<nat>): (r: seq<int>)
    ensures |r| == |ds| && forall i :: 0 <= i < |r| ==> r[i] == ds[i]
  {
    seq(|ds|, i requires 0 <= i < |ds| => ds[i])
  }

  /** toString10. */
  method ToString10(h: H.HugeNumber) returns (s: string)
    requires h.Canon()
    ensures s == PrintText(h.Value(), 10, false, false)
  {
    hide Val, NumOf, DigitsOf, DigitChar;
    ZeroIsEmpty(h.data);
    var digits := DecimalDigits(h.data);
    var ret := Ints(digits);
    if ret == [] {
      ret := ret + [0];
    }
    if h.sign {
      ret := ret + ['-' as int - '0' as int];
    }
    ret := ReverseAdd(ret, '0' as int);
    s := Chars(ret);
    PrintDecimal(h.sign, h.Magnitude(), digits, s);
  }

  lemma PrintDecimal(neg: bool, m: nat, ds: seq<nat>, s: string)
    requires ds == DigitsOf(m, 10) && (neg ==> m > 0)
    requires var shown, off := ShownDigits(m, 10), if neg then 1 else 0;
      && |s| == |shown| + off && (neg ==> s[0] == '-')
      && forall k :: off <= k < |s| ==> s[k] as int == shown[|s| - 1 - k] + '0' as int
    ensures s == PrintText(H.Signed(neg, m), 10, false, false)
  {
    hide NumOf, DigitsOf, DigitChar, PrintText, ShownDigits, DigitText, IsDigits, Prefix;
    var shown, off := ShownDigits(m, 10), if neg then 1 else 0;
    PrintedDecimal(neg, m);
    forall k | off <= k < |s|
      ensures s[k] == DigitChar(shown[|s| - 1 - k], false)
    {
      DigitCode(shown[|s| - 1 - k], s[k]);
    }
    assert s == (if neg then "-" else "") + DigitText(shown, false);
  }

  lemma DigitCode(d: nat, c: char)
    requires d < 10 && c as int == d + '0' as int
    ensures c == DigitChar(d, false)
  {
    DigitCharVal(d, false);
  }

  lemma PrintedDecimal(neg: bool, m: nat)
    requires neg ==> m > 0
    ensures IsDigits(ShownDigits(m, 10), 10) && forall i :: 0 <= i < |ShownDigits(m, 10)| ==> ShownDigits(m, 10)[i] < 10
    ensures PrintText(H.Signed(neg, m), 10, false, false) ==
      (if neg then "-" else "") + DigitText(ShownDigits(m, 10), false)
  {
    hide NumOf, DigitsOf, DigitChar, PrintText, ShownDigits, DigitText, BodyText;
    PrintIsBody(H.Signed(neg, m), 10, false, false);
    BodyIsShown(m);
  }

  lemma BodyIsShown(m: nat)
    ensures BodyText(m, 10, false, false) == DigitText(ShownDigits(m, 10), false)
  {
    hide NumOf, DigitsOf, DigitChar, DigitText, ShownDigits;
    ShownText(m, 10, false);
    var text := DigitText(ShownDigits(m, 10), false);
    assert "" + text == text;
  }

  // ---------------------------------------------------------------- toString

  /** The base marks as the program stores them, backwards. */
  function BackMark(base: nat, upper: bool, showbase: bool): string {
    if !showbase then ""
    else if base == 16 then (if upper then "X0" else "x0")
    else if base == 8 then "0"
    else if base == 2 then (if upper then "B0" else "b0")
    else ""
  }

  lemma MarkIsPrefix(base: nat, upper: bool, showbase: bool)
    ensures Reverse(BackMark(base, upper, showbase)) == if showbase then Prefix(base, upper) else ""
  {
  }

  lemma PrintMarked(neg: bool, m: nat, n: nat, base: nat, upper: bool, showbase: bool, s: string)
    requires (n == 1 || n == 3 || n == 4) && IsBase(base) && Pow2(n) == base && (neg ==> m > 0)
    requires s == (if neg then "-" else "") + Reverse(BackMark(base, upper, showbase))
      + (if m == 0 then "0" else DigitText(Digits2(m, n), upper))
    ensures s == PrintText(H.Signed(neg, m), base, upper, showbase)
  {
    hide NumOf, DigitText, BackMark, Prefix, PrintText, BodyText, DigitsOf, Pow2, Reverse;
    PrintIsBody(H.Signed(neg, m), base, upper, showbase);
    BodyIsMarked(m, base, upper, showbase);
    Front3(if neg then "-" else "", Reverse(BackMark(base, upper, showbase)),
      if m == 0 then "0" else DigitText(DigitsOf(m, base), upper));
  }

  lemma BodyIsMarked(m: nat, base: nat, upper: bool, showbase: bool)
    requires IsBase(base)
    ensures BodyText(m, base, upper, showbase) ==
      Reverse(BackMark(base, upper, showbase)) + (if m == 0 then "0" else DigitText(DigitsOf(m, base), upper))
  {
    hide DigitText, BackMark, Prefix, DigitsOf, Reverse;
    MarkIsPrefix(base, upper, showbase);
  }

  lemma Front3(a: string, b: string, c: string)
    ensures a + b + c == a + (b + c)
  {
  }

  /** toString: the notation, in the bases the program supports; it throws for any other. */
  method ToString(h: H.HugeNumber, base: nat, upper: bool, showbase: bool) returns (r: Option<string>)
    requires h.Canon()
    ensures r.Some? <==> base == 2 || base == 8 || base == 10 || base == 16
    ensures r ==
      if base == 10 then Some(PrintText(h.Value(), 10, false, false))
      else if IsBase(base) then Some(PrintText(h.Value(), base, upper, showbase))
      else None
  {
    hide Val, NumOf, DigitsOf, DigitChar, PrintText, Pow2, DigitText;
    ZeroIsEmpty(h.data);
    var s := "";
    if base == 16 {
      SmallPowers(4);
      s := ToStringX(h, 4, upper, if showbase then (if upper then "X0" else "x0") else "");
      PrintMarked(h.sign, h.Magnitude(), 4, 16, upper, showbase, s);
    } else if base == 10 {
      s := ToString10(h);
    } else if base == 8 {
      SmallPowers(3);
      s := ToStringX(h, 3, upper, if showbase then "0" else "");
      PrintMarked(h.sign, h.Magnitude(), 3, 8, upper, showbase, s);
    } else if base == 2 {
      SmallPowers(1);
      s := ToStringX(h, 1, upper, if showbase then (if upper then "B0" else "b0") else "");
      PrintMarked(h.sign, h.Magnitude(), 1, 2, upper, showbase, s);
    } else {
      return None;
    }
    return Some(s);
  }

  // ---------------------------------------------------------------- checkBase

  /** One step of the state machine of checkBase, with its fall-through. */
  function CheckStep(r: int, c: char): int {
    if r == 0 && IsSign(c) then 0
    else if (r == 0 || r == 1) && c == '0' then 3
    else if r == 0 || r == 1 || r == 10 then (if IsDec(c) then 10 else -1)
    else if r == 3 && (c == 'b' || c == 'B') then 5
    else if r == 3 && (c == 'x' || c == 'X') then 7
    else if r == 3 || r == 8 then (if IsOct(c) then 8 else -1)
    else if r == 2 || r == 5 then (if IsBin(c) then 2 else -1)
    else if r == 7 || r == 16 then (if IsHex(c) then 16 else -1)
    else r
  }

  function CheckRun(s: string): int {
    if s == "" then 0 else CheckStep(CheckRun(s[..|s| - 1]), s[|s| - 1])
  }

  method CheckBase(a: string) returns (r: int)
    ensures r == CheckRun(a)
  {
    r := 0;
    var i: nat := 0;
    while i < |a|
      invariant i <= |a| && r == CheckRun(a[..i])
    {
      assert a[..i + 1][..i] == a[..i];
      r := CheckStep(r, a[i]);
      i := i + 1;
      if r < 0 {
        Rejected(a, i);
        break;
      }
    }
    assert i == |a| ==> a[..i] == a;
  }

  lemma {:induction false} Rejected(a: string, i: nat)
    requires i <= |a| && CheckRun(a[..i]) == -1
    ensures CheckRun(a) == -1
    decreases |a| - i
  {
    if i == |a| {
      assert a[..i] == a;
    } else {
      assert a[..i + 1][..i] == a[..i];
      Rejected(a, i + 1);
    }
  }

  /** All leading signs dropped. */
  function Unsigned(s: string): string {
    if s != "" && IsSign(s[0]) then Unsigned(s[1..]) else s
  }

  lemma {:induction false} UnsignedAppend(s: string, c: char)
    ensures Unsigned(s + [c]) == if Unsigned(s) == "" && IsSign(c) then "" else Unsigned(s) + [c]
  {
    if s == "" {
      assert "" + [c] == [c];
      assert [c][1..] == "";
    } else {
      assert (s + [c])[1..] == s[1..] + [c];
      if IsSign(s[0]) {
        UnsignedAppend(s[1..], c);
      }
    }
  }

  /** The states of checkBase, in terms of the text without its signs. */
  ghost predicate StateMeans(r: int, b: string) {
    && (r == 0 <==> b == "")
    && (r == 3 <==> b == "0")
    && (r == 5 <==> |b| == 2 && b[0] == '0' && (b[1] == 'b' || b[1] == 'B'))
    && (r == 7 <==> |b| == 2 && b[0] == '0' && (b[1] == 'x' || b[1] == 'X'))
    && (r == 2 <==> IsBinText(b)) && (r == 16 <==> IsHexText(b))
    && (r == 8 <==> IsOctText(b)) && (r == 10 <==> IsDecText(b))
    && r in {-1, 0, 2, 3, 5, 7, 8, 10, 16}
  }

  lemma AllOfAppend(s: string, c: char, p: char -> bool)
    ensures AllOf(s + [c], p) <==> AllOf(s, p) && p(c)
  {
    assert forall i :: 0 <= i < |s| ==> (s + [c])[i] == s[i];
    assert (s + [c])[|s|] == c;
  }

  lemma StateStep(r: int, b: string, c: char)
    requires StateMeans(r, b) && !(b == "" && IsSign(c))
    ensures StateMeans(CheckStep(r, c), b + [c])
  {
    hide AllOf;
    var d := b + [c];
    NothingToCheck();
    AllOfAppend(b, c, IsDec);
    if |b| == 0 {
      FirstStep(r, c);
      assert d == [c];
    } else {
      assert d[1..] == b[1..] + [c] && d[0] == b[0];
      AllOfAppend(b[1..], c, IsOct);
      if |b| == 1 {
        assert b == [b[0]] && d == [b[0], c] && b[1..] == "";
        SecondStep(r, b[0], c);
      } else {
        assert d[2..] == b[2..] + [c] && d[1] == b[1];
        AllOfAppend(b[2..], c, IsBin);
        AllOfAppend(b[2..], c, IsHex);
        if |b| == 2 {
          assert b[2..] == "";
        }
      }
    }
  }

  lemma FirstStep(r: int, c: char)
    requires StateMeans(r, "") && !IsSign(c)
    ensures StateMeans(CheckStep(r, c), [c])
  {
    assert [c][1..] == "";
  }

  lemma SecondStep(r: int, f: char, c: char)
    requires StateMeans(r, [f])
    ensures StateMeans(CheckStep(r, c), [f, c])
  {
    assert [f, c][1..] == [c] && [f, c][2..] == "" && [f][0] == f && [f, c][0] == f && [f, c][1] == c;
    assert r == 10 <==> IsDec(f) && f != '0';
    assert IsDecText([f, c]) <==> IsDec(f) && f != '0' && IsDec(c);
  }

  lemma NothingToCheck()
    ensures AllOf("", IsDec) && AllOf("", IsOct) && AllOf("", IsBin) && AllOf("", IsHex)
  {
  }

  /** What checkBase accepts, and as what, for every text. */
  lemma {:induction false} CheckRunMeans(s: string)
    ensures StateMeans(CheckRun(s), Unsigned(s))
  {
    hide StateMeans, CheckStep;
    if s == "" {
      NothingRead();
    } else {
      var p, c := s[..|s| - 1], s[|s| - 1];
      CheckRunMeans(p);
      assert s == p + [c];
      UnsignedAppend(p, c);
      if Unsigned(p) == "" && IsSign(c) {
        StillSigns(CheckRun(p), c);
      } else {
        StateStep(CheckRun(p), Unsigned(p), c);
      }
    }
  }

  lemma NothingRead()
    ensures StateMeans(0, "")
  {
  }

  lemma StillSigns(r: int, c: char)
    requires StateMeans(r, "") && IsSign(c)
    ensures StateMeans(CheckStep(r, c), "")
  {
  }

  /** At most one sign in front. */
  predicate OneSign(s: string) {
    |s| > 1 && IsSign(s[0]) ==> !IsSign(s[1])
  }

  /** A text with at most one sign is a number exactly when checkBase gives it one of the bases it reads. */
  lemma CheckBaseExact(s: string)
    requires OneSign(s)
    ensures Unsigned(s) == DropSign(s)
    ensures CheckRun(s) in {0, 2, 3, 8, 10, 16} <==> ParseText(s).Some?
  {
    hide CheckRun, NumOf, TextDigits;
    CheckRunMeans(s);
    assert Unsigned(s) == DropSign(s) by {
      if s != "" && IsSign(s[0]) && |s| > 1 {
        assert s[1..][0] == s[1];
      }
    }
  }

  /** More than one sign is let through: the state machine stays where it is on every leading sign. */
  lemma RepeatedSignsAccepted(signs: string, s: string)
    requires AllOf(signs, IsSign)
    ensures CheckRun(signs + s) == CheckRun(s)
    decreases |s|
  {
    if s == "" {
      assert signs + s == signs;
      OnlySigns(signs);
    } else {
      RepeatedSignsAccepted(signs, s[..|s| - 1]);
      assert (signs + s)[..|signs + s| - 1] == signs + s[..|s| - 1];
    }
  }

  lemma {:induction false} OnlySigns(signs: string)
    requires AllOf(signs, IsSign)
    ensures CheckRun(signs) == 0
  {
    if signs != "" {
      OnlySigns(signs[..|signs| - 1]);
    }
  }

  /** Which texts are accepted, for all texts: what remains without any leading signs must be a numeral. So
      the program accepts more than it should exactly on numerals behind several signs. */
  lemma AcceptsExactly(s: string)
    ensures CheckRun(s) in {0, 2, 3, 8, 10, 16} <==> ParseBody(Unsigned(s)).Some?
    ensures ParseText(s).Some? <==> OneSign(s) && ParseBody(Unsigned(s)).Some?
  {
    hide CheckRun, NumOf, TextDigits;
    CheckRunMeans(s);
    if OneSign(s) {
      CheckBaseExact(s);
    } else {
      assert s[1..][0] == s[1];
    }
  }

  /** What is left out in front is plus and minus characters, all of them and nothing else. */
  lemma {:induction false} OnlySignsDropped(s: string)
    ensures var k := |s| - |Unsigned(s)|;
      && 0 <= k && s[k..] == Unsigned(s) && (forall i :: 0 <= i < k ==> s[i] == '+' || s[i] == '-')
      && (Unsigned(s) != "" ==> Unsigned(s)[0] != '+' && Unsigned(s)[0] != '-')
  {
    if s != "" && IsSign(s[0]) {
      OnlySignsDropped(s[1..]);
    }
  }

  // ---------------------------------------------------------------- from

  /** Where the reading loops of `from` stop, going backwards. */
  predicate IsStop(c: char, n: nat) {
    if n == 1 then c == 'b' || c == 'B' else if n == 4 then c == 'x' || c == 'X' else IsSign(c)
  }

  ghost predicate BitText(s: string, n: nat) {
    forall i :: 0 <= i < |s| ==> IsHex(s[i]) && DigitVal(s[i]) < Pow2(n) && !IsStop(s[i], n) && (n < 4 ==> IsDec(s[i]))
  }

  lemma TextDigitsFront(c: char, s: string)
    requires IsHex(c) && AllOf(s, IsHex)
    ensures TextDigits([c] + s) == TextDigits(s) + [DigitVal(c)]
  {
  }

  /** Base 2^n: one group of bits a character, from the last character back to the base mark or the sign. */
  method ReadGroups(s: string, n: nat, ghost k: nat) returns (d: seq<Limb>)
    requires n == 1 || n == 3 || n == 4
    requires k <= |s| && BitText(s[k..], n) && (k == 0 || IsStop(s[k - 1], n))
    ensures AllOf(s[k..], IsHex) && Val(d) == NumOf(TextDigits(s[k..]), Pow2(n))
  {
    hide Val, NumOf, ToBits, Pow2, IsStop, TextDigits;
    d := [];
    var p, i: nat := 0, |s|;
    NothingReadYet(s, n);
    SmallPowers(n);
    while i > 0 && !IsStop(s[i - 1], n)
      invariant k <= i <= |s| && p == n * (|s| - i)
      invariant AllOf(s[i..], IsHex) && Val(d) == NumOf(TextDigits(s[i..]), Pow2(n)) < Pow2(p)
    {
      assert i > k;
      i := i - 1;
      assert s[k..][i - k] == s[i];
      var v: nat := if n == 4 then DigitVal(s[i]) else s[i] as nat - '0' as nat;
      ReadStep(d, s, i, n, p, v);
      d := ToBits(d, p, n, v);
      p := p + n;
    }
  }

  lemma NothingReadYet(s: string, n: nat)
    ensures s[|s|..] == "" && Val([]) == 0 && NumOf(TextDigits(""), Pow2(n)) == 0 && Pow2(0) == 1
  {
  }

  lemma ReadStep(d: seq<Limb>, s: string, i: nat, n: nat, p: nat, v: Limb)
    requires 0 < n <= BITS && i < |s| && p == n * (|s| - i - 1)
    requires AllOf(s[i + 1..], IsHex) && Val(d) == NumOf(TextDigits(s[i + 1..]), Pow2(n)) < Pow2(p)
    requires IsHex(s[i]) && v == DigitVal(s[i]) < Pow2(n)
    ensures p + n == n * (|s| - i) && AllOf(s[i..], IsHex)
    ensures Val(ToBits(d, p, n, v)) == NumOf(TextDigits(s[i..]), Pow2(n)) < Pow2(p + n)
  {
    hide Val, NumOf, ToBits, Pow2, TextDigits, Power;
    assert n * (|s| - i) == n * (|s| - i - 1) + n;
    assert s[i..] == [s[i]] + s[i + 1..];
    TextDigitsFront(s[i], s[i + 1..]);
    NumOfAppend(TextDigits(s[i + 1..]), v, Pow2(n));
    PowerIsPow2(n, |s| - i - 1);
    ToBitsIs(d, p, n, v);
    DivModUnique(v, Pow2(n), 0, v);
  }

  /** One pass of the decimal reader: halves the digits from the top down, and gives the bit that falls out. */
  method Halve(ds: seq<int>) returns (half: seq<int>, bit: nat)
    ensures (half, bit) == HalvePass(ds)
  {
    half, bit := ds, 0;
    var i: nat := |ds|;
    while i > 0
      invariant i <= |ds| == |half|
      invariant forall j :: 0 <= j < i ==> half[j] == ds[j]
      invariant (half[i..], bit) == HalvePass(ds[i..])
    {
      i := i - 1;
      var x := half[i] + bit * 10;
      ghost var rest := half[i + 1..];
      half := half[i := Trunc2(x)];
      bit := x % 2;
      assert ds[i..][1..] == ds[i + 1..] && half[i..] == [Trunc2(x)] + rest;
    }
    assert ds[0..] == ds && half[0..] == half;
  }

  /** The zeros on top erased. */
  method DropHighZeros(ds: seq<int>) returns (r: seq<int>)
    ensures Num(Mirror(r)) == Num(Mirror(ds)) && (NonNeg(Mirror(ds)) ==> NonNeg(Mirror(r)))
    ensures r == [] <==> AllZero(ds)
  {
    hide Mirror, Num;
    r := ds;
    while r != [] && r[|r| - 1] == 0
      invariant Num(Mirror(r)) == Num(Mirror(ds)) && (NonNeg(Mirror(ds)) ==> NonNeg(Mirror(r)))
      invariant AllZero(r) <==> AllZero(ds)
      decreases |r|
    {
      ZeroDropped(r);
      r := r[..|r| - 1];
    }
    assert r != [] ==> !AllZero(r);
  }

  /** Base 10: halve until nothing is left, collecting the bits that fall out. A row whose top digit is negative is
      read as if it were positive. */
  method HalvingBits(ds: seq<int>) returns (d: seq<Limb>)
    requires Steady(Mirror(ds))
    ensures Val(d) == Num(Mirror(ds))
  {
    hide Num, Mirror, Steady, NonNeg, AllZero, HalvePass, Val, Pow2, ToBits;
    d := [];
    var p: nat := 0;
    var t := ds;
    var end := false;
    NothingReadYet("", 1);
    PassHalves(Mirror(ds));
    while !end
      invariant Steady(Mirror(t)) && Num(Mirror(t)) >= 0 && Val(d) < Pow2(p)
      invariant Val(d) + Pow2(p) * Num(Mirror(t)) == Num(Mirror(ds))
      invariant end ==> Num(Mirror(t)) == 0
      decreases Num(Mirror(t)), !end
    {
      ghost var was := Num(Mirror(t));
      OnePass(t);
      var half, c := Halve(t);
      t := DropHighZeros(half);
      end := t == [];
      NonNegSteady(Mirror(t));
      if t == [] {
        ZerosAreNothing(half);
      }
      BitOut(d, p, c, was, Num(Mirror(t)));
      d := ToBits(d, p, 1, c);
      p := p + 1;
    }
  }

  /** What a pass leaves is half of what was there, and it is nothing but zeros when nothing is left. */
  lemma OnePass(t: seq<int>)
    requires Steady(Mirror(t))
    ensures var (half, bit) := HalvePass(t);
      && Num(Mirror(t)) == 2 * Num(Mirror(half)) + bit && NonNeg(Mirror(half)) && Num(Mirror(half)) >= 0
      && (Num(Mirror(half)) == 0 ==> AllZero(half))
  {
    hide Num, Mirror, Steady, NonNeg, AllZero, HalvePass;
    PassMirrors(t);
    PassHalves(Mirror(t));
    var half := HalvePass(t).0;
    NonNegSteady(Mirror(half));
    if Num(Mirror(half)) == 0 {
      MirrorIsZero(half);
    }
  }

  lemma ZerosAreNothing(half: seq<int>)
    requires AllZero(half)
    ensures Num(Mirror(half)) == 0
  {
    hide Num;
    MirrorZero(half);
    NonNegSteady(half);
  }

  lemma BitOut(d: seq<Limb>, p: nat, c: Limb, was: nat, now: nat)
    requires Val(d) < Pow2(p) && c <= 1 && was == 2 * now + c
    ensures Val(ToBits(d, p, 1, c)) < Pow2(p + 1)
    ensures Val(ToBits(d, p, 1, c)) + Pow2(p + 1) * now == Val(d) + Pow2(p) * was
  {
    hide Val, ToBits;
    ToBitsIs(d, p, 1, c);
    assert Pow2(1) == 2 && Pow2(p + 1) == 2 * Pow2(p);
    BitOutArith(Pow2(p), c, now);
  }

  lemma BitOutArith(q: nat, c: nat, now: nat)
    ensures c * q + (2 * q) * now == q * (2 * now + c)
  {
  }

  function Codes(s: string): (r: seq<int>)
    ensures |r| == |s| && forall i :: 0 <= i < |r| ==> r[i] == s[i] as int
  {
    seq(|s|, i requires 0 <= i < |s| => s[i] as int)
  }

  /** The signs in front. */
  function Signs(s: string): string {
    if s != "" && IsSign(s[0]) then [s[0]] + Signs(s[1..]) else ""
  }

  lemma {:induction false} SignsSplit(s: string)
    ensures s == Signs(s) + Unsigned(s) && AllOf(Signs(s), IsSign)
    ensures |Signs(s)| < 2 <==> OneSign(s)
  {
    if s != "" && IsSign(s[0]) {
      var rest := s[1..];
      SignsSplit(rest);
      assert s == [s[0]] + rest;
      assert [s[0]] + (Signs(rest) + Unsigned(rest)) == ([s[0]] + Signs(rest)) + Unsigned(rest);
    }
  }

  /** How far below '0' the code of a sign is. */
  function Below(c: char): int {
    if c == '-' then 3 else 5
  }

  /** Signs in the place of digits, the lowest first. */
  function SignDigits(g: string): (r: seq<int>)
    ensures |r| == |g| && forall i :: 0 <= i < |r| ==> r[i] == -Below(g[|g| - 1 - i])
  {
    seq(|g|, i requires 0 <= i < |g| => -Below(g[|g| - 1 - i]))
  }

  /** What the decimal reader makes of signs after the first: the code of the one on top counts up from zero, the codes
      of the others count down. */
  function SignsRead(g: string): int {
    if g == "" then 0
    else if |g| == 1 then Below(g[0])
    else 10 * SignsRead(g[..|g| - 1]) - Below(g[|g| - 1])
  }

  lemma TopSign(c: char)
    ensures var u := Mirror([-Below(c)]); Steady(u) && HalvePass(u).1 == 1 && Num(u) == Below(c) > 0
  {
    assert [-Below(c)][1..] == [];
    assert Mirror([-Below(c)]) == [Below(c)] && [Below(c)][1..] == [];
  }

  lemma LowerSign(c: char, u: seq<int>)
    requires Steady(u) && HalvePass(u).1 == 1 && Num(u) > 0
    ensures var r := [-Below(c)] + u;
      Steady(r) && HalvePass(r).1 == 1 && Num(r) == 10 * Num(u) - Below(c) > 0
  {
    assert ([-Below(c)] + u)[1..] == u;
  }

  lemma {:induction false} SignsSteady(g: string)
    requires g != ""
    ensures var u := Mirror(SignDigits(g)); Steady(u) && HalvePass(u).1 == 1 && Num(u) == SignsRead(g) > 0
    ensures !AllZero(SignDigits(g))
    decreases |g|
  {
    hide IsSign, Steady, HalvePass, Num;
    var l := SignDigits(g);
    assert l[0] == -Below(g[|g| - 1]) != 0;
    if |g| == 1 {
      TopSign(g[0]);
      assert l == [-Below(g[0])];
    } else {
      var h := g[..|g| - 1];
      SignsSteady(h);
      assert l[1..] == SignDigits(h);
      LowerSign(g[|g| - 1], Mirror(SignDigits(h)));
    }
  }

  lemma {:induction false} NumIsNumOf(ds: seq<nat>)
    ensures Num(ds) == NumOf(ds, 10)
  {
    if ds != [] {
      NumIsNumOf(ds[1..]);
    }
  }

  /** What signs after the first add in front of a decimal numeral. */
  function ExtraSigns(s: string): nat {
    hide Unsigned;
    SignsSplit(s);
    if OneSign(s) then 0
    else
      SignsSteady(Signs(s)[1..]);
      SignsRead(Signs(s)[1..])
  }

  /** The number that from(string) makes of a text it accepts. */
  function ReadAs(s: string): nat
    requires ParseBody(Unsigned(s)).Some?
  {
    hide NumOf, IsHex, Unsigned;
    var b := Unsigned(s);
    if IsDecText(b) then
      DecReadAs(s);
      NumOf(TextDigits(b), 10) + TenTo(|b|) * ExtraSigns(s)
    else ParseBody(b).value
  }

  lemma DecReadAs(s: string)
    requires IsDecText(Unsigned(s))
    ensures var b := Unsigned(s); AllOf(b, IsHex) && ParseBody(b) == Some(NumOf(TextDigits(b), 10))
  {
  }

  /** The number is the numeral's, unless the text is decimal and has two signs or more in front; of those, every one
      is read as another number. */
  lemma ReadExactly(s: string)
    requires ParseBody(Unsigned(s)).Some?
    ensures ReadAs(s) == ParseBody(Unsigned(s)).value <==> OneSign(s) || !IsDecText(Unsigned(s))
  {
    hide NumOf, TextDigits, ParseBody, TenTo, IsDec, SignsRead, Unsigned;
    var b := Unsigned(s);
    SignsSplit(s);
    if IsDecText(b) {
      DecReadAs(s);
      if !OneSign(s) {
        SignsSteady(Signs(s)[1..]);
        TenToPositive(|b|);
        MulAtLeast(TenTo(|b|), ExtraSigns(s));
      }
    }
  }

  lemma {:induction false} TenToPositive(k: nat)
    ensures TenTo(k) > 0
  {
    if k > 0 {
      TenToPositive(k - 1);
    }
  }

  /** "--5" is read as minus thirty-five. */
  lemma TwoSigns()
    ensures CheckRun("--5") == 10 && ReadAs("--5") == 35
  {
    assert "--5"[..2] == "--" && "--5"[..1] == "-" && "--"[..1] == "-" && "-"[..0] == "";
    assert "--5"[1..] == "-5" && "-5"[1..] == "5" && "5"[1..] == "";
    assert Signs("--5") == "--" && Signs("--5")[1..] == "-";
    assert TextDigits("5") == [5] && [5][1..] == [];
  }

  /** Base 10: the text with its first sign replaced by a zero, reversed and halved away. */
  method ReadDecimal(s: string) returns (d: seq<Limb>)
    requires s != "" && IsDecText(Unsigned(s))
    ensures ParseBody(Unsigned(s)).Some? && Val(d) == ReadAs(s)
  {
    hide NumOf, Val, TextDigits, IsDecText, ReadAs, Mirror, Num, Steady;
    var t := Codes(s);
    if IsSign(s[0]) {
      t := t[0 := '0' as int];
    }
    t := ReverseAdd(t, -('0' as int));
    DecimalRow(s, t);
    d := HalvingBits(t);
  }

  /** The row of digits and signs that is halved away. */
  lemma DecimalRow(s: string, t: seq<int>)
    requires s != "" && IsDecText(Unsigned(s)) && |t| == |s|
    requires forall i :: 0 <= i < |s| ==>
      t[i] == if i == |s| - 1 && IsSign(s[0]) then 0 else s[|s| - 1 - i] as int - '0' as int
    ensures ParseBody(Unsigned(s)).Some? && Steady(Mirror(t)) && Num(Mirror(t)) == ReadAs(s)
  {
    hide NumOf, TextDigits, Mirror, Num, Steady, SignsRead, TenTo;
    var b, g := Unsigned(s), Signs(s);
    SignsSplit(s);
    DecReadAs(s);
    RowParts(s, t);
    var low := TextDigits(b);
    NumIsNumOf(low);
    NonNegSteady(low);
    MirrorNonNeg(low);
    if g == "" {
      assert t == low;
    } else {
      var h := g[1..];
      var row := low + SignDigits(h);
      ZeroOnTop(row);
      ZeroOnTop(Mirror(row));
      PassZeroOnTop(Mirror(row));
      if h == "" {
        assert SignDigits(h) == [] && row == low;
      } else {
        SignsSteady(h);
        MirrorAbove(low, SignDigits(h));
        SteadyBelow(low, Mirror(SignDigits(h)));
      }
    }
  }

  lemma RowParts(s: string, t: seq<int>)
    requires s != "" && IsDecText(Unsigned(s)) && |t| == |s| && AllOf(Unsigned(s), IsHex)
    requires forall i :: 0 <= i < |s| ==>
      t[i] == if i == |s| - 1 && IsSign(s[0]) then 0 else s[|s| - 1 - i] as int - '0' as int
    ensures var b, g := Unsigned(s), Signs(s);
      if g == "" then t == TextDigits(b) else t == TextDigits(b) + SignDigits(g[1..]) + [0]
  {
    hide Unsigned, Signs, TextDigits, SignDigits, IsSign, IsHex;
    SignsSplit(s);
    var b, g := Unsigned(s), Signs(s);
    RowDigits(g, b, t);
    if g != "" {
      RowSigns(g, b, t);
      assert t == t[..|b|] + t[|b|..|t| - 1] + [t[|t| - 1]];
    } else {
      assert t[..|b|] == t;
    }
  }

  lemma RowDigits(g: string, b: string, t: seq<int>)
    requires AllOf(g, IsSign) && IsDecText(b) && AllOf(b, IsHex) && |t| == |g| + |b|
    requires forall i :: 0 <= i < |t| ==>
      t[i] == if i == |t| - 1 && IsSign((g + b)[0]) then 0 else (g + b)[|t| - 1 - i] as int - '0' as int
    ensures t[..|b|] == TextDigits(b)
  {
    hide IsHex;
    forall i | 0 <= i < |b|
      ensures t[i] == TextDigits(b)[i]
    {
      assert IsDec(b[|b| - 1 - i]) && (g + b)[|t| - 1 - i] == b[|b| - 1 - i];
      DecVal(b[|b| - 1 - i]);
    }
  }

  lemma DecVal(c: char)
    requires IsDec(c)
    ensures IsHex(c) && !IsSign(c) && DigitVal(c) == c as int - '0' as int
  {
  }

  lemma RowSigns(g: string, b: string, t: seq<int>)
    requires g != "" && AllOf(g, IsSign) && |t| == |g| + |b|
    requires forall i :: 0 <= i < |t| ==>
      t[i] == if i == |t| - 1 && IsSign((g + b)[0]) then 0 else (g + b)[|t| - 1 - i] as int - '0' as int
    ensures t[|b|..|t| - 1] == SignDigits(g[1..]) && t[|t| - 1] == 0
  {
    assert IsSign(g[0]) && (g + b)[0] == g[0];
    var d := SignDigits(g[1..]);
    forall i | 0 <= i < |g| - 1
      ensures t[|b| + i] == d[i]
    {
      var c := g[|g| - 1 - i];
      assert (g + b)[|t| - 1 - (|b| + i)] == c == g[1..][|g| - 2 - i] && IsSign(c);
    }
  }

  /** The numerals in bases 2, 8 and 16 as the reading loops see them. */
  lemma BitTexts(s: string)
    ensures var b := Unsigned(s); var sg := |s| - |b|;
      && sg >= 0
      && (IsBinText(b) ==> BitText(s[sg + 2..], 1) && s[sg + 2..] == b[2..] && IsStop(s[sg + 1], 1) && Pow2(1) == 2)
      && (IsHexText(b) ==> BitText(s[sg + 2..], 4) && s[sg + 2..] == b[2..] && IsStop(s[sg + 1], 4) && Pow2(4) == 16)
      && (IsOctText(b) ==> BitText(s[sg..], 3) && s[sg..] == b && (sg > 0 ==> IsStop(s[sg - 1], 3)) && Pow2(3) == 8)
  {
    hide Unsigned, Signs, BitText, Pow2, IsBinText, IsHexText, IsOctText;
    var b, g := Unsigned(s), Signs(s);
    SignsSplit(s);
    assert s == g + b && s[|g|..] == b && (g != "" ==> IsSign(g[|g| - 1]));
    if IsBinText(b) {
      BinBits(g, b);
    }
    if IsHexText(b) {
      HexBits(g, b);
    }
    if IsOctText(b) {
      OctBits(b);
    }
  }

  lemma BinBits(g: string, b: string)
    requires IsBinText(b)
    ensures |b| > 2 && (g + b)[|g| + 2..] == b[2..] && BitText(b[2..], 1)
    ensures (g + b)[|g| + 1] == b[1] && IsStop(b[1], 1) && Pow2(1) == 2
  {
    SmallPowers(1);
  }

  lemma HexBits(g: string, b: string)
    requires IsHexText(b)
    ensures |b| > 2 && (g + b)[|g| + 2..] == b[2..] && BitText(b[2..], 4)
    ensures (g + b)[|g| + 1] == b[1] && IsStop(b[1], 4) && Pow2(4) == 16
  {
    SmallPowers(4);
  }

  lemma OctBits(b: string)
    requires IsOctText(b)
    ensures BitText(b, 3) && Pow2(3) == 8
  {
    SmallPowers(3);
    forall i | 0 <= i < |b|
      ensures IsOct(b[i])
    {
      assert i > 0 ==> b[1..][i - 1] == b[i];
    }
  }

  /** The leading zero that marks base 8 is read as one more digit. */
  lemma LeadingZero(b: string)
    requires |b| > 1 && b[0] == '0' && AllOf(b[1..], IsHex)
    ensures AllOf(b, IsHex) && NumOf(TextDigits(b), 8) == NumOf(TextDigits(b[1..]), 8)
  {
    hide NumOf, TextDigits;
    assert b == [b[0]] + b[1..];
    TextDigitsFront(b[0], b[1..]);
    NumOfTopZero(TextDigits(b), 8);
    assert TextDigits(b)[..|b| - 1] == TextDigits(b[1..]);
  }

  /** from(string), for every text: the number `ReadAs` tells, with the sign of the first character, or an error that
      leaves the number as it was. */
  method FromText(h: H.HugeNumber, s: string) returns (ok: bool)
    modifies h
    ensures ok <==> ParseBody(Unsigned(s)).Some?
    ensures ok ==> h.Canon() && h.Value() == H.Signed(s != "" && s[0] == '-', ReadAs(s))
    ensures !ok ==> h.data == old(h.data) && h.sign == old(h.sign)
  {
    hide NumOf, Val, Pow2, TextDigits, CheckRun, DigitVal, Unsigned, OneSign, SignsRead, TenTo;
    AcceptsExactly(s);
    CheckRunMeans(s);
    BitTexts(s);
    ghost var b := Unsigned(s);
    ghost var sg := |s| - |b|;
    var r := CheckBase(s);
    if r == 0 || r == 3 {
      h.Reset(false);
      NothingReadYet("", 1);
    } else if r == 2 {
      h.Reset('-' == s[0]);
      h.data := ReadGroups(s, 1, sg + 2);
    } else if r == 8 {
      h.Reset('-' == s[0]);
      h.data := ReadGroups(s, 3, sg);
      LeadingZero(b);
    } else if r == 10 {
      h.Reset('-' == s[0]);
      h.data := ReadDecimal(s);
    } else if r == 16 {
      h.Reset('-' == s[0]);
      h.data := ReadGroups(s, 4, sg + 2);
    } else {
      return false;
    }
    NothingReadYet("", 1);
    h.Shrink();
    ok := true;
  }

  /** With at most one sign, the number is the one the text stands for. */
  lemma OneSignReads(s: string)
    requires OneSign(s)
    ensures ParseText(s).Some? <==> ParseBody(Unsigned(s)).Some?
    ensures ParseText(s).Some? ==> ParseText(s) == Some(H.Signed(s != "" && s[0] == '-', ReadAs(s)))
  {
    hide NumOf, TextDigits, CheckRun;
    CheckBaseExact(s);
  }

  /** Print and parse undo each other: whatever number is printed, in whatever base and style, reading the
      text back rebuilds it limb for limb. */
  method PrintThenParse(h: H.HugeNumber, base: nat, upper: bool, showbase: bool) returns (back: H.HugeNumber)
    requires h.Canon() && IsBase(base) && (base != 10 ==> showbase)
    ensures fresh(back) && back.data == h.data && back.sign == h.sign
  {
    hide NumOf, Val, Pow2, PrintText, ParseText;
    var s := ToString(h, base, upper, showbase);
    PrintParse(h.Value(), base, upper && base != 10, showbase && base != 10);
    PrintedSign(h.Value(), base, upper && base != 10, showbase && base != 10);
    back := new H.HugeNumber();
    var ok := FromText(back, s.value);
    OneSignReads(s.value);
    H.CanonicalForm(h.data, h.sign, back.data, back.sign);
  }

  lemma PrintedSign(x: int, base: nat, upper: bool, showbase: bool)
    requires IsBase(base)
    ensures OneSign(PrintText(x, base, upper, showbase))
  {
    hide NumOf, DigitsOf, BodyText;
    PrintIsBody(x, base, upper, showbase);
    FirstIsDigit(AbsNat(x), base, upper, showbase);
  }
}

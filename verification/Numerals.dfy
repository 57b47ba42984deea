/** Numbers written in a base, apart from how the program computes them: the notation that
    src/huge_number.h prints and reads. Digit sequences have the least significant digit first. */
module Numerals {
  import opened Arithmetic
  import opened Wrappers

  // ---------------------------------------------------------------- digits

  ghost predicate IsDigits(ds: seq<nat>, base: nat) {
    forall i :: 0 <= i < |ds| ==> ds[i] < base
  }

  function NumOf(ds: seq<nat>, base: nat): nat {
    if ds == [] then 0 else ds[0] + base * NumOf(ds[1..], base)
  }

  /** The digits of a number; none for zero. */
  function DigitsOf(x: nat, base: nat): (ds: seq<nat>)
    requires base > 1
    ensures IsDigits(ds, base) && (x > 0 ==> ds != [] && ds[|ds| - 1] != 0) && (x == 0 ==> ds == [])
    decreases x
  {
    if x == 0 then []
    else
      Smaller(x, base);
      [x % base] + DigitsOf(x / base, base)
  }

  lemma Smaller(x: nat, base: nat)
    requires base > 1 && x > 0
    ensures 0 <= x / base < x && 0 <= x % base < base
    ensures x / base == 0 ==> x % base == x
  {
    DivBounds(x, base);
    MulMono(2, base, x / base);
  }

  lemma {:induction false} NumOfDigits(x: nat, base: nat)
    requires base > 1
    ensures NumOf(DigitsOf(x, base), base) == x
    decreases x
  {
    if x > 0 {
      Smaller(x, base);
      DivBounds(x, base);
      NumOfDigits(x / base, base);
      var ds := DigitsOf(x, base);
      assert ds[1..] == DigitsOf(x / base, base);
    }
  }

  /** Digits without a zero on top are the digits of their number. */
  lemma {:induction false} DigitsUnique(ds: seq<nat>, base: nat)
    requires base > 1 && IsDigits(ds, base) && (ds == [] || ds[|ds| - 1] != 0)
    ensures DigitsOf(NumOf(ds, base), base) == ds
    ensures ds != [] ==> NumOf(ds, base) > 0
  {
    if ds != [] {
      var rest := ds[1..];
      DigitsUnique(rest, base);
      DivModUnique(NumOf(ds, base), base, NumOf(rest, base), ds[0]);
      if rest != [] {
        MulMono(1, NumOf(rest, base), base);
      }
      assert ds == [ds[0]] + rest;
    }
  }

  function Power(base: nat, k: nat): nat {
    if k == 0 then 1 else base * Power(base, k - 1)
  }

  lemma {:induction false} NumOfAppend(ds: seq<nat>, d: nat, base: nat)
    ensures NumOf(ds + [d], base) == NumOf(ds, base) + d * Power(base, |ds|)
  {
    if ds == [] {
      assert [] + [d] == [d];
      assert [d][1..] == [];
    } else {
      NumOfAppend(ds[1..], d, base);
      assert (ds + [d])[1..] == ds[1..] + [d];
      AppendArith(ds[0], base, NumOf(ds[1..], base), d, Power(base, |ds| - 1));
    }
  }

  lemma AppendArith(h: nat, base: nat, rest: nat, d: nat, p: nat)
    ensures h + base * (rest + d * p) == h + base * rest + d * (base * p)
  {
    Distrib(base, rest, d * p);
    assert base * (d * p) == d * (base * p);
  }

  lemma {:induction false} PowerIsPow2(n: nat, k: nat)
    ensures Power(Pow2(n), k) == Pow2(n * k)
  {
    if k > 0 {
      PowerIsPow2(n, k - 1);
      Pow2Add(n, n * (k - 1));
    }
  }

  /** A zero on top adds nothing. */
  lemma NumOfTopZero(ds: seq<nat>, base: nat)
    requires ds != [] && ds[|ds| - 1] == 0
    ensures NumOf(ds, base) == NumOf(ds[..|ds| - 1], base)
  {
    assert ds == ds[..|ds| - 1] + [0];
    NumOfAppend(ds[..|ds| - 1], 0, base);
  }

  // ---------------------------------------------------------------- characters

  const LOWER := "0123456789abcdef"
  const UPPER := "0123456789ABCDEF"

  function DigitChar(d: nat, upper: bool): char
    requires d < 16
  {
    if upper then UPPER[d] else LOWER[d]
  }

  predicate IsDec(c: char) { '0' <= c <= '9' }

  predicate IsHex(c: char) { IsDec(c) || 'a' <= c <= 'f' || 'A' <= c <= 'F' }

  predicate IsOct(c: char) { '0' <= c < '8' }

  predicate IsBin(c: char) { c == '0' || c == '1' }

  function DigitVal(c: char): (d: nat)
    requires IsHex(c)
    ensures d < 16 && (IsDec(c) ==> d < 10) && (IsOct(c) ==> d < 8) && (IsBin(c) ==> d < 2)
  {
    if IsDec(c) then c as nat - '0' as nat
    else if 'a' <= c <= 'f' then c as nat - 'a' as nat + 10
    else c as nat - 'A' as nat + 10
  }

  lemma DigitCharVal(d: nat, upper: bool)
    requires d < 16
    ensures IsHex(DigitChar(d, upper)) && DigitVal(DigitChar(d, upper)) == d
    ensures d < 10 ==> IsDec(DigitChar(d, upper)) && DigitChar(d, upper) == '0' + d as char
    ensures d < 8 ==> IsOct(DigitChar(d, upper))
    ensures d < 2 ==> IsBin(DigitChar(d, upper))
    ensures d > 0 ==> DigitChar(d, upper) != '0'
  {
    if d < 10 {
      assert DigitChar(d, upper) == ['0', '1', '2', '3', '4', '5', '6', '7', '8', '9'][d];
    } else {
      assert DigitChar(d, false) == ['a', 'b', 'c', 'd', 'e', 'f'][d - 10];
      assert DigitChar(d, true) == ['A', 'B', 'C', 'D', 'E', 'F'][d - 10];
    }
  }

  // ---------------------------------------------------------------- the notation

  /** The digits as text, most significant first. */
  function DigitText(ds: seq<nat>, upper: bool): (s: string)
    requires forall i :: 0 <= i < |ds| ==> ds[i] < 16
    ensures |s| == |ds| && forall i :: 0 <= i < |s| ==> s[i] == DigitChar(ds[|ds| - 1 - i], upper)
  {
    seq(|ds|, i requires 0 <= i < |ds| => DigitChar(ds[|ds| - 1 - i], upper))
  }

  predicate IsBase(base: nat) { base == 2 || base == 8 || base == 10 || base == 16 }

  function Prefix(base: nat, upper: bool): string {
    if base == 2 then (if upper then "0B" else "0b")
    else if base == 8 then "0"
    else if base == 16 then (if upper then "0X" else "0x")
    else ""
  }

  /** A number as text: sign, base mark if wanted, digits. */
  function PrintText(x: int, base: nat, upper: bool, showbase: bool): string
    requires IsBase(base)
  {
    var ds := DigitsOf(AbsNat(x), base);
    (if x < 0 then "-" else "") + (if showbase then Prefix(base, upper) else "")
    + (if ds == [] then "0" else DigitText(ds, upper))
  }

  predicate IsSign(c: char) { c == '+' || c == '-' }

  /** Text digits, most significant first, as a digit sequence. */
  function TextDigits(s: string): (ds: seq<nat>)
    requires forall i :: 0 <= i < |s| ==> IsHex(s[i])
    ensures |ds| == |s| && forall i :: 0 <= i < |ds| ==> ds[i] == DigitVal(s[|s| - 1 - i])
  {
    seq(|s|, i requires 0 <= i < |s| => DigitVal(s[|s| - 1 - i]))
  }

  function DropSign(s: string): string {
    if s != "" && IsSign(s[0]) then s[1..] else s
  }

  predicate AllOf(s: string, p: char -> bool) {
    forall i :: 0 <= i < |s| ==> p(s[i])
  }

  predicate IsBinText(s: string) { |s| > 2 && s[0] == '0' && (s[1] == 'b' || s[1] == 'B') && AllOf(s[2..], IsBin) }

  predicate IsHexText(s: string) { |s| > 2 && s[0] == '0' && (s[1] == 'x' || s[1] == 'X') && AllOf(s[2..], IsHex) }

  predicate IsOctText(s: string) { |s| > 1 && s[0] == '0' && AllOf(s[1..], IsOct) }

  predicate IsDecText(s: string) { |s| > 0 && s[0] != '0' && AllOf(s, IsDec) }

  /** The number an unsigned text stands for. Nothing at all, and a lone zero, are zero. */
  function ParseBody(s: string): Option<nat> {
    if s == "" || s == "0" then Some(0)
    else if IsBinText(s) then Some(NumOf(TextDigits(s[2..]), 2))
    else if IsHexText(s) then Some(NumOf(TextDigits(s[2..]), 16))
    else if IsOctText(s) then Some(NumOf(TextDigits(s[1..]), 8))
    else if IsDecText(s) then Some(NumOf(TextDigits(s), 10))
    else None
  }

  /** The number a text stands for, if it is one. */
  function ParseText(s: string): Option<int> {
    match ParseBody(DropSign(s))
    case None => None
    case Some(m) =>
      var i: int := m;
      Some(if s != "" && s[0] == '-' then -i else i)
  }

  // ---------------------------------------------------------------- reading back what was printed

  lemma TextDigitsBack(ds: seq<nat>, upper: bool)
    requires forall i :: 0 <= i < |ds| ==> ds[i] < 16
    ensures AllOf(DigitText(ds, upper), IsHex) && TextDigits(DigitText(ds, upper)) == ds
    ensures IsDigits(ds, 10) ==> AllOf(DigitText(ds, upper), IsDec)
    ensures IsDigits(ds, 8) ==> AllOf(DigitText(ds, upper), IsOct)
    ensures IsDigits(ds, 2) ==> AllOf(DigitText(ds, upper), IsBin)
  {
    var s := DigitText(ds, upper);
    forall i | 0 <= i < |s|
      ensures IsHex(s[i]) && DigitVal(s[i]) == ds[|ds| - 1 - i]
      ensures ds[|ds| - 1 - i] < 10 ==> IsDec(s[i])
      ensures ds[|ds| - 1 - i] < 8 ==> IsOct(s[i])
      ensures ds[|ds| - 1 - i] < 2 ==> IsBin(s[i])
    {
      DigitCharVal(ds[|ds| - 1 - i], upper);
    }
  }

  /** The unsigned part of a printed number. */
  function BodyText(x: nat, base: nat, upper: bool, showbase: bool): string
    requires IsBase(base)
  {
    (if showbase then Prefix(base, upper) else "") + (if x == 0 then "0" else DigitText(DigitsOf(x, base), upper))
  }

  lemma PrintIsBody(x: int, base: nat, upper: bool, showbase: bool)
    requires IsBase(base)
    ensures PrintText(x, base, upper, showbase) ==
      (if x < 0 then "-" else "") + BodyText(AbsNat(x), base, upper, showbase)
  {
    var mark := if showbase then Prefix(base, upper) else "";
    var ds := DigitsOf(AbsNat(x), base);
    var digits := if ds == [] then "0" else DigitText(ds, upper);
    var sign := if x < 0 then "-" else "";
    assert (sign + mark) + digits == sign + (mark + digits);
  }

  /** The digits printed, with the lone zero of zero. */
  function ShownDigits(x: nat, base: nat): (ds: seq<nat>)
    requires IsBase(base)
    ensures IsDigits(ds, base) && ds != []
    ensures x > 0 ==> ds[|ds| - 1] != 0
  {
    if x == 0 then [0] else DigitsOf(x, base)
  }

  lemma ShownText(x: nat, base: nat, upper: bool)
    requires IsBase(base)
    ensures NumOf(ShownDigits(x, base), base) == x
    ensures (if x == 0 then "0" else DigitText(DigitsOf(x, base), upper)) == DigitText(ShownDigits(x, base), upper)
  {
    NumOfDigits(x, base);
    if x == 0 {
      DigitCharVal(0, upper);
      assert DigitText([0], upper) == [DigitChar(0, upper)];
      assert NumOf([0], base) == 0;
    }
  }

  lemma MarkedBody(pre: string, text: string)
    requires AllOf(text, IsHex) && text != ""
    ensures |pre| == 2 && pre[0] == '0' && (pre[1] == 'b' || pre[1] == 'B') && AllOf(text, IsBin) ==>
      ParseBody(pre + text) == Some(NumOf(TextDigits(text), 2))
    ensures |pre| == 2 && pre[0] == '0' && (pre[1] == 'x' || pre[1] == 'X') ==>
      ParseBody(pre + text) == Some(NumOf(TextDigits(text), 16))
    ensures pre == "0" && AllOf(text, IsOct) ==> ParseBody(pre + text) == Some(NumOf(TextDigits(text), 8))
    ensures pre == "" && AllOf(text, IsDec) && text[0] != '0' ==>
      ParseBody(pre + text) == Some(NumOf(TextDigits(text), 10))
  {
    hide NumOf, TextDigits;
    var body := pre + text;
    assert |pre| == 2 ==> body[2..] == text && body[0] == pre[0] && body[1] == pre[1];
    assert |pre| == 1 ==> body[1..] == text && body[0] == pre[0] && body[1] == text[0];
    assert |pre| == 0 ==> body == text;
  }

  /** The unsigned part: parsing the printed digits, with their base mark, gives the number. */
  lemma BodyRoundTrip(x: nat, base: nat, upper: bool, showbase: bool)
    requires IsBase(base) && (base != 10 ==> showbase)
    ensures ParseBody(BodyText(x, base, upper, showbase)) == Some(x)
  {
    hide NumOf, DigitsOf, DigitText, DigitChar, ShownDigits, TextDigits, ParseBody;
    var ds := ShownDigits(x, base);
    ShownText(x, base, upper);
    TextDigitsBack(ds, upper);
    TopDigit(ds, upper);
    if base == 10 && x == 0 {
      LoneZero(if showbase then Prefix(base, upper) else "");
    } else {
      MarkedBody(if showbase then Prefix(base, upper) else "", DigitText(ds, upper));
    }
  }

  lemma TopDigit(ds: seq<nat>, upper: bool)
    requires IsDigits(ds, 16) && ds != []
    ensures DigitText(ds, upper) != "" && (DigitText(ds, upper)[0] == '0' <==> ds[|ds| - 1] == 0)
  {
    DigitCharVal(ds[|ds| - 1], upper);
  }

  lemma LoneZero(pre: string)
    requires pre == ""
    ensures ParseBody(pre + "0") == Some(0)
  {
    assert pre + "0" == "0";
  }

  /** Print, then parse: every number comes back, in every base that marks itself. */
  lemma PrintParse(x: int, base: nat, upper: bool, showbase: bool)
    requires IsBase(base) && (base != 10 ==> showbase)
    ensures ParseText(PrintText(x, base, upper, showbase)) == Some(x)
  {
    hide NumOf, DigitsOf, ParseBody, BodyText;
    BodyRoundTrip(AbsNat(x), base, upper, showbase);
    PrintIsBody(x, base, upper, showbase);
    FirstIsDigit(AbsNat(x), base, upper, showbase);
    SignedParse(x < 0, BodyText(AbsNat(x), base, upper, showbase));
  }

  lemma SignedParse(neg: bool, body: string)
    requires body != "" && IsHex(body[0])
    ensures var m := ParseBody(body);
      ParseText((if neg then "-" else "") + body) ==
        match m
        case None => None
        case Some(v) => (var i: int := v; Some(if neg then -i else i))
  {
    hide ParseBody;
    if neg {
      assert ("-" + body)[1..] == body;
    } else {
      assert "" + body == body;
    }
  }

  lemma FirstIsDigit(x: nat, base: nat, upper: bool, showbase: bool)
    requires IsBase(base)
    ensures BodyText(x, base, upper, showbase) != "" && IsHex(BodyText(x, base, upper, showbase)[0])
  {
    hide NumOf;
    var ds := DigitsOf(x, base);
    if x != 0 {
      DigitCharVal(ds[|ds| - 1], upper);
    }
  }

  /** The digits as they are printed: no letters below base 16, and there of the case asked for. */
  predicate IsShown(c: char, base: nat, upper: bool) {
    if base == 2 then '0' <= c <= '1'
    else if base == 8 then '0' <= c <= '7'
    else '0' <= c <= '9' || (base == 16 && if upper then 'A' <= c <= 'F' else 'a' <= c <= 'f')
  }

  /** Digits of the base in the case asked for, with no zero in front of another digit, that stand for `m`. */
  ghost predicate IsNumeral(digits: string, m: nat, base: nat, upper: bool) {
    && digits != "" && (forall i :: 0 <= i < |digits| ==> IsShown(digits[i], base, upper))
    && (digits[0] == '0' ==> |digits| == 1)
    && AllOf(digits, IsHex) && NumOf(TextDigits(digits), base) == m
  }

  /** What stands in front: a minus for negative numbers and no other sign, and a zero with the letter of the base. */
  ghost function InFront(x: int, base: nat, upper: bool, showbase: bool): string {
    (if x < 0 then "-" else "")
    + (if !showbase || base == 10 then ""
       else if base == 8 then "0"
       else ['0', if base == 2 then (if upper then 'B' else 'b') else if upper then 'X' else 'x'])
  }

  /** What is printed, told without the digits of a number: this in front of a numeral, and no other text is that. */
  lemma PrintedExactly(x: int, base: nat, upper: bool, showbase: bool, digits: string)
    requires IsBase(base)
    ensures (PrintText(x, base, upper, showbase) == InFront(x, base, upper, showbase) + digits) <==>
      IsNumeral(digits, AbsNat(x), base, upper)
  {
    hide NumOf, DigitsOf, DigitText, TextDigits, DigitChar, IsNumeral, InFront, PrintText, ShownDigits;
    var text := DigitText(ShownDigits(AbsNat(x), base), upper);
    var front := InFront(x, base, upper, showbase);
    FrontAndText(x, base, upper, showbase);
    ShownForm(AbsNat(x), base, upper);
    if front + text == front + digits {
      assert text == (front + text)[|front|..] == (front + digits)[|front|..] == digits;
    }
    if IsNumeral(digits, AbsNat(x), base, upper) {
      OnlyForm(digits, AbsNat(x), base, upper);
    }
  }

  lemma FrontAndText(x: int, base: nat, upper: bool, showbase: bool)
    requires IsBase(base)
    ensures PrintText(x, base, upper, showbase) ==
      InFront(x, base, upper, showbase) + DigitText(ShownDigits(AbsNat(x), base), upper)
  {
    hide NumOf, DigitsOf, DigitText, DigitChar, ShownDigits, PrintText;
    PrintIsBody(x, base, upper, showbase);
    ShownText(AbsNat(x), base, upper);
    assert (if showbase then Prefix(base, upper) else "") == InFront(AbsNat(x), base, upper, showbase);
  }

  lemma ShownForm(m: nat, base: nat, upper: bool)
    requires IsBase(base)
    ensures IsNumeral(DigitText(ShownDigits(m, base), upper), m, base, upper)
  {
    hide NumOf, DigitsOf, DigitChar, TextDigits, ShownDigits, IsShown, IsHex;
    var ds := ShownDigits(m, base);
    var text := DigitText(ds, upper);
    ShownText(m, base, upper);
    TextDigitsBack(ds, upper);
    TopDigit(ds, upper);
    NoZeroOnTop(m, base);
    forall i | 0 <= i < |text|
      ensures IsShown(text[i], base, upper)
    {
      ShownChar(ds[|ds| - 1 - i], base, upper);
    }
  }

  lemma NoZeroOnTop(m: nat, base: nat)
    requires IsBase(base)
    ensures var ds := ShownDigits(m, base); ds != [] && (ds[|ds| - 1] == 0 ==> |ds| == 1)
  {
  }

  lemma ShownChar(d: nat, base: nat, upper: bool)
    requires IsBase(base) && d < base
    ensures IsShown(DigitChar(d, upper), base, upper)
  {
    DigitCharVal(d, upper);
    if d >= 10 {
      assert DigitChar(d, false) == ['a', 'b', 'c', 'd', 'e', 'f'][d - 10];
      assert DigitChar(d, true) == ['A', 'B', 'C', 'D', 'E', 'F'][d - 10];
    }
  }

  lemma CharShown(c: char, base: nat, upper: bool)
    requires IsBase(base) && IsShown(c, base, upper)
    ensures IsHex(c) && DigitVal(c) < base && DigitChar(DigitVal(c), upper) == c
    ensures c == '0' <==> DigitVal(c) == 0
  {
    var d := DigitVal(c);
    if d < 10 {
      DigitCharVal(d, upper);
    } else {
      assert DigitChar(d, false) == ['a', 'b', 'c', 'd', 'e', 'f'][d - 10];
      assert DigitChar(d, true) == ['A', 'B', 'C', 'D', 'E', 'F'][d - 10];
    }
  }

  lemma OnlyForm(digits: string, m: nat, base: nat, upper: bool)
    requires IsBase(base) && IsNumeral(digits, m, base, upper)
    ensures DigitText(ShownDigits(m, base), upper) == digits
  {
    hide NumOf, DigitsOf, DigitChar, DigitText, TextDigits, IsShown, IsHex;
    var ds := TextDigits(digits);
    ShownBack(digits, base, upper);
    if ds[|ds| - 1] == 0 {
      assert ds == [0];
      OneZero(base);
    } else {
      DigitsUnique(ds, base);
    }
  }

  lemma ShownBack(digits: string, base: nat, upper: bool)
    requires IsBase(base) && digits != "" && AllOf(digits, IsHex)
    requires forall i :: 0 <= i < |digits| ==> IsShown(digits[i], base, upper)
    ensures var ds := TextDigits(digits);
      && IsDigits(ds, base) && |ds| == |digits| && (forall i :: 0 <= i < |ds| ==> ds[i] < 16)
      && DigitText(ds, upper) == digits && (ds[|ds| - 1] == 0 <==> digits[0] == '0')
  {
    hide DigitChar, DigitVal, IsShown;
    var ds := TextDigits(digits);
    forall i | 0 <= i < |digits|
      ensures ds[i] == DigitVal(digits[|digits| - 1 - i]) < base && DigitChar(ds[i], upper) == digits[|digits| - 1 - i]
      ensures ds[i] == 0 <==> digits[|digits| - 1 - i] == '0'
    {
      CharShown(digits[|digits| - 1 - i], base, upper);
    }
    assert DigitText(ds, upper) == digits;
  }

  lemma OneZero(base: nat)
    ensures NumOf([0], base) == 0
  {
    assert [0][1..] == [];
  }

  // ---------------------------------------------------------------- without the base mark

  /** Two or more digits stand for more in a larger base. */
  lemma {:induction false} LargerBase(ds: seq<nat>, small: nat, large: nat)
    requires 0 < small < large && ds != [] && ds[|ds| - 1] != 0
    ensures |ds| == 1 ==> NumOf(ds, small) == NumOf(ds, large) == ds[0]
    ensures |ds| > 1 ==> NumOf(ds, small) < NumOf(ds, large)
    ensures NumOf(ds, small) > 0
  {
    var rest := ds[1..];
    if |ds| > 1 {
      LargerBase(rest, small, large);
      MulMono(NumOf(rest, small), NumOf(rest, large), small);
      MulLess(small, large, NumOf(rest, large));
      MulMono(1, NumOf(rest, small), small);
    }
  }

  /** Base 2, 8 and 16 printed without their mark are read back right exactly for the numbers that are
      one decimal digit in that base. */
  lemma UnmarkedRoundTrip(x: int, base: nat, upper: bool)
    requires IsBase(base) && base != 10
    ensures ParseText(PrintText(x, base, upper, false)) == Some(x) <==> AbsNat(x) < base && AbsNat(x) < 10
  {
    hide NumOf, DigitsOf, ParseBody, BodyText, ParseText, PrintText, IsHex;
    var m := AbsNat(x);
    var body := BodyText(m, base, upper, false);
    PrintIsBody(x, base, upper, false);
    FirstIsDigit(m, base, upper, false);
    UnmarkedBody(m, base, upper);
    SignedParse(x < 0, body);
  }

  lemma UnmarkedBody(x: nat, base: nat, upper: bool)
    requires IsBase(base) && base != 10
    ensures ParseBody(BodyText(x, base, upper, false)) == Some(x) <==> x < base && x < 10
  {
    hide ParseBody, NumOf, DigitText, DigitsOf, IsDigits, BodyText;
    ShownText(x, base, upper);
    BareBody(x, base, upper);
    if x == 0 {
      LoneZero("");
      assert "" + "0" == "0";
    } else {
      var ds := DigitsOf(x, base);
      NotWider(ds, base);
      DigitsAsDecimal(ds, upper);
      UnmarkedCompare(x, base);
    }
  }

  lemma BareBody(x: nat, base: nat, upper: bool)
    requires IsBase(base)
    ensures BodyText(x, base, upper, false) == if x == 0 then "0" else DigitText(DigitsOf(x, base), upper)
  {
    hide DigitText, DigitsOf;
  }

  lemma NotWider(ds: seq<nat>, base: nat)
    requires IsBase(base) && IsDigits(ds, base)
    ensures IsDigits(ds, 16)
  {
  }

  /** Read as decimal digits, the digits of a number in another base are that number again exactly when there
      is one of them and it is a decimal digit. */
  lemma UnmarkedCompare(x: nat, base: nat)
    requires IsBase(base) && base != 10 && x > 0
    ensures var ds := DigitsOf(x, base); IsDigits(ds, 10) && NumOf(ds, 10) == x <==> x < base && x < 10
  {
    hide NumOf, DigitsOf;
    var ds := DigitsOf(x, base);
    NumOfDigits(x, base);
    OneDigit(x, base);
    if base < 10 {
      LargerBase(ds, base, 10);
    } else {
      LargerBase(ds, 10, base);
    }
    assert |ds| == 1 ==> (IsDigits(ds, 10) <==> ds[0] < 10);
  }

  lemma OneDigit(x: nat, base: nat)
    requires base > 1 && x > 0
    ensures x < base <==> |DigitsOf(x, base)| == 1
  {
    Smaller(x, base);
    if x < base {
      DivModUnique(x, base, 0, x);
    } else {
      DivMono(base, x, base);
      DivModUnique(base, base, 1, 0);
    }
  }

  /** Digits without a mark are read as decimal, if they all are decimal digits. */
  lemma DigitsAsDecimal(ds: seq<nat>, upper: bool)
    requires IsDigits(ds, 16) && ds != [] && ds[|ds| - 1] != 0
    ensures ParseBody(DigitText(ds, upper)) == if IsDigits(ds, 10) then Some(NumOf(ds, 10)) else None
  {
    hide NumOf, ParseBody, DigitChar, TextDigits, DigitVal, IsHex, DigitText, IsDigits;
    if IsDigits(ds, 10) {
      DecimalDigits(ds, upper);
    } else {
      NotDecimalDigits(ds, upper);
    }
  }

  lemma DecimalDigits(ds: seq<nat>, upper: bool)
    requires IsDigits(ds, 10) && ds != [] && ds[|ds| - 1] != 0
    ensures ParseBody(DigitText(ds, upper)) == Some(NumOf(ds, 10))
  {
    hide NumOf, ParseBody, DigitChar, TextDigits, DigitVal, IsHex, DigitText, IsDec, AllOf;
    var text := DigitText(ds, upper);
    TextDigitsBack(ds, upper);
    DigitCharVal(ds[|ds| - 1], upper);
    assert "" + text == text;
    MarkedBody("", text);
  }

  lemma NotDecimalDigits(ds: seq<nat>, upper: bool)
    requires IsDigits(ds, 16) && !IsDigits(ds, 10) && ds[|ds| - 1] != 0
    ensures ParseBody(DigitText(ds, upper)) == None
  {
    hide NumOf, ParseBody, DigitChar, TextDigits, DigitVal, IsHex, IsDec;
    var text := DigitText(ds, upper);
    DigitCharVal(ds[|ds| - 1], upper);
    var i :| 0 <= i < |ds| && ds[i] >= 10;
    assert text[|ds| - 1 - i] == DigitChar(ds[i], upper);
    NotDecimal(ds[i], upper);
    NotANumeral(text);
  }

  lemma NotANumeral(s: string)
    requires s != "" && s[0] != '0' && !AllOf(s, IsDec)
    ensures ParseBody(s) == None
  {
  }

  lemma NotDecimal(d: nat, upper: bool)
    requires 10 <= d < 16
    ensures !IsDec(DigitChar(d, upper))
  {
    assert DigitChar(d, false) == ['a', 'b', 'c', 'd', 'e', 'f'][d - 10];
    assert DigitChar(d, true) == ['A', 'B', 'C', 'D', 'E', 'F'][d - 10];
  }
}

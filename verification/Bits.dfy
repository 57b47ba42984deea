/** Reading and writing fields of up to 64 bits anywhere in a sequence of limbs, across limb borders
    (src/huge_number.h: mask, getBits, setBits, toBits, toBitsReverse). */
module Bits {
  import opened Arithmetic
  import opened Limbs

  // ---------------------------------------------------------------- fields of one word

  /** (x >> from) & mask(n) */
  function GetWord(x: nat, from: nat, n: nat): nat {
    (x / Pow2(from)) % Pow2(n)
  }

  /** The `n` bits from bit `from` on, as far as they are inside the word, are replaced by those of `v`. */
  function SetWord(x: Limb, from: nat, n: nat, v: nat): (r: Limb)
    requires from < BITS
    ensures from + n <= BITS ==> r + GetWord(x, from, n) * Pow2(from) == x + (v % Pow2(n)) * Pow2(from)
  {
    PutField(x, from, if n <= BITS - from then n else BITS - from, v)
  }

  /** A field inside the word. */
  function PutField(x: Limb, from: nat, k: nat, v: nat): (r: Limb)
    requires from + k <= BITS
    ensures r + GetWord(x, from, k) * Pow2(from) == x + (v % Pow2(k)) * Pow2(from)
  {
    hide Pow2, GetWord;
    SetWordFits(x, from, k, v);
    TakeAndGive(x, GetWord(x, from, k) * Pow2(from), (v % Pow2(k)) * Pow2(from))
  }

  function TakeAndGive(x: nat, taken: nat, given: nat): (r: Limb)
    requires taken <= x && x - taken + given < BASE
    ensures r + taken == x + given
  {
    x - taken + given
  }

  lemma SetWordFits(x: Limb, from: nat, k: nat, v: nat)
    requires from + k <= BITS
    ensures GetWord(x, from, k) * Pow2(from) <= x
    ensures x - GetWord(x, from, k) * Pow2(from) + (v % Pow2(k)) * Pow2(from) < BASE
  {
    Pow2Add(from, k);
    Pow2Add(from + k, BITS - from - k);
    BaseIsPow2();
    DivBounds(v, Pow2(k));
    FieldFits(x, Pow2(from), Pow2(k), Pow2(BITS - from - k), v % Pow2(k));
  }

  // ---------------------------------------------------------------- the limbs from one on

  function High(d: seq<Limb>, i: nat): nat
    decreases |d| - i
  {
    if i >= |d| then 0 else d[i] + BASE * High(d, i + 1)
  }

  lemma {:induction false} SplitAt(d: seq<Limb>, i: nat)
    requires i <= |d|
    ensures Val(d) == Low(d, i) + Place(i) * High(d, i)
    decreases |d| - i
  {
    if i < |d| {
      SplitAt(d, i + 1);
      SplitArith(Low(d, i), d[i], Place(i), High(d, i + 1));
    }
  }

  lemma SplitArith(low: nat, w: nat, p: nat, h: nat)
    ensures low + w * p + (BASE * p) * h == low + p * (w + BASE * h)
  {
    assert (BASE * p) * h == p * (BASE * h);
    Distrib(p, w, BASE * h);
  }

  lemma HighIsQuotient(d: seq<Limb>, i: nat)
    requires i <= |d|
    ensures Val(d) / Place(i) == High(d, i)
  {
    SplitAt(d, i);
    LowBound(d, i);
    DivModUnique(Val(d), Place(i), High(d, i), Low(d, i));
  }

  /** Cutting a word at bit `r`: the part of it above, and whole words above that. */
  lemma CutWord(w: Limb, y: nat, r: nat)
    requires r < BITS
    ensures (w + BASE * y) / Pow2(r) == w / Pow2(r) + Pow2(BITS - r) * y
    ensures w / Pow2(r) < Pow2(BITS - r)
  {
    hide Pow2;
    BaseIsPow2();
    Pow2Add(r, BITS - r);
    CutArith(w, y, Pow2(r), Pow2(BITS - r));
  }

  lemma CutArith(w: nat, y: nat, p: nat, q: nat)
    requires p > 0 && w < p * q
    ensures (w + (p * q) * y) / p == w / p + q * y
    ensures w / p < q
  {
    MulAssoc(p, q, y);
    DivModShift(w, q * y, p);
    DivBounds(w, p);
    if w / p >= q {
      MulMono(q, w / p, p);
    }
  }

  /** The low `n` bits of u + 2^s * y. */
  lemma LowField(u: nat, y: nat, s: nat, n: nat)
    requires u < Pow2(s)
    ensures n <= s ==> (u + Pow2(s) * y) % Pow2(n) == u % Pow2(n)
    ensures n > s ==> (u + Pow2(s) * y) % Pow2(n) == u + Pow2(s) * (y % Pow2(n - s))
    ensures n > s ==> u % Pow2(n) == u
  {
    if n <= s {
      Pow2Add(n, s - n);
      MulAssoc(Pow2(n), Pow2(s - n), y);
      DivModShift(u, Pow2(s - n) * y, Pow2(n));
    } else {
      Pow2Add(s, n - s);
      DivModUnique(u + Pow2(s) * y, Pow2(s), y, u);
      DivProduct(u + Pow2(s) * y, Pow2(s), Pow2(n - s));
      Pow2Mono(s, n);
      DivModUnique(u, Pow2(n), 0, u);
    }
  }

  // ---------------------------------------------------------------- fields of the whole number

  /** The field crosses into the next limb, and there is one. */
  predicate Straddles(d: seq<Limb>, from: nat, n: nat) {
    from % BITS + n > BITS && from / BITS + 1 < |d|
  }

  function GetBits(d: seq<Limb>, from: nat, n: nat): nat
    requires from / BITS < |d| && 0 < n <= BITS
  {
    var fi, ri := from / BITS, from % BITS;
    var val := GetWord(d[fi], ri, n);
    if Straddles(d, from, n) then
      var s1 := BITS - ri;
      WordIsLimb(d[fi], ri, n);
      SetWord(val, s1, n - s1, GetWord(d[fi + 1], 0, n - s1))
    else val
  }

  lemma WordIsLimb(x: Limb, from: nat, n: nat)
    ensures GetWord(x, from, n) < BASE
  {
    DivBounds(x, Pow2(from));
    DivBounds(x / Pow2(from), Pow2(n));
  }

  /** A field read is the digits of the number at that place. */
  lemma GetBitsIs(d: seq<Limb>, from: nat, n: nat)
    requires from / BITS < |d| && 0 < n <= BITS
    ensures GetBits(d, from, n) == (Val(d) / Pow2(from)) % Pow2(n)
  {
    hide High, Pow2, SetWord, Val, GetBits, Rest;
    QuotientParts(d, from);
    LowField(Rest(d, from), High(d, from / BITS + 1), BITS - from % BITS, n);
    GetBitsParts(d, from, n);
  }

  // The bits of limb from / BITS at place from and above.
  ghost function Rest(d: seq<Limb>, from: nat): nat
    requires from / BITS < |d|
  {
    hide Pow2;
    DivBounds(d[from / BITS], Pow2(from % BITS));
    d[from / BITS] / Pow2(from % BITS)
  }

  lemma GetBitsParts(d: seq<Limb>, from: nat, n: nat)
    requires from / BITS < |d| && 0 < n <= BITS
    ensures var s := BITS - from % BITS;
      GetBits(d, from, n) == if n <= s then Rest(d, from) % Pow2(n)
                             else Rest(d, from) + Pow2(s) * (High(d, from / BITS + 1) % Pow2(n - s))
  {
    hide High, Pow2, SetWord, Val, GetBits;
    if n > BITS - from % BITS {
      StraddleIs(d, from, n);
    } else {
      InsideIs(d, from, n);
    }
  }

  lemma InsideIs(d: seq<Limb>, from: nat, n: nat)
    requires from / BITS < |d| && 0 < n <= BITS && from % BITS + n <= BITS
    ensures GetBits(d, from, n) == (d[from / BITS] / Pow2(from % BITS)) % Pow2(n)
  {
  }

  lemma QuotientParts(d: seq<Limb>, from: nat)
    requires from / BITS < |d|
    ensures var fi, ri := from / BITS, from % BITS;
      && Val(d) / Pow2(from) == Rest(d, from) + Pow2(BITS - ri) * High(d, fi + 1)
      && Rest(d, from) < Pow2(BITS - ri)
  {
    hide High, Pow2, Val;
    QuotientAt(d, from);
    CutWord(d[from / BITS], High(d, from / BITS + 1), from % BITS);
  }

  lemma StraddleIs(d: seq<Limb>, from: nat, n: nat)
    requires from / BITS < |d| && 0 < n <= BITS && from % BITS + n > BITS
    ensures var fi, ri := from / BITS, from % BITS; var s := BITS - ri;
      GetBits(d, from, n) == d[fi] / Pow2(ri) + Pow2(s) * (High(d, fi + 1) % Pow2(n - s))
  {
    hide Pow2, SetWord, GetWord, High, Val;
    var fi, ri := from / BITS, from % BITS;
    var s := BITS - ri;
    var u := d[fi] / Pow2(ri);
    WholeWord(d[fi], ri, n);
    if fi + 1 < |d| {
      NextField(d, fi, n - s);
      FieldBound(d[fi + 1], 0, n - s);
      JoinField(u, s, n - s, GetWord(d[fi + 1], 0, n - s));
    } else {
      DivBounds(0, Pow2(n - s));
      assert High(d, fi + 1) == 0 by {
        NothingAbove(d, fi + 1);
      }
    }
  }

  lemma NothingAbove(d: seq<Limb>, i: nat)
    requires i >= |d|
    ensures High(d, i) == 0
  {
  }

  lemma FieldBound(x: nat, from: nat, n: nat)
    ensures GetWord(x, from, n) < Pow2(n)
  {
  }

  /** A field that reaches past the top of the word is all of the word from its place up. */
  lemma WholeWord(w: Limb, ri: nat, n: nat)
    requires ri < BITS && n >= BITS - ri
    ensures GetWord(w, ri, n) == w / Pow2(ri) < Pow2(BITS - ri)
    ensures w / Pow2(ri) < BASE
  {
    hide Pow2;
    CutWord(w, 0, ri);
    Pow2Mono(BITS - ri, n);
    DivBounds(w, Pow2(ri));
    DivModUnique(w / Pow2(ri), Pow2(n), 0, w / Pow2(ri));
  }

  lemma QuotientAt(d: seq<Limb>, from: nat)
    requires from / BITS < |d|
    ensures Val(d) / Pow2(from) == (d[from / BITS] + BASE * High(d, from / BITS + 1)) / Pow2(from % BITS)
  {
    var fi, ri := from / BITS, from % BITS;
    PlaceIsPow2(fi);
    Pow2Add(BITS * fi, ri);
    HighIsQuotient(d, fi);
    DivProduct(Val(d), Place(fi), Pow2(ri));
  }

  /** The low bits of what lies above limb `i` are the low bits of limb `i + 1`. */
  lemma NextField(d: seq<Limb>, i: nat, n: nat)
    requires i + 1 < |d| && n < BITS
    ensures High(d, i + 1) % Pow2(n) == GetWord(d[i + 1], 0, n)
  {
    BaseIsPow2();
    var w := d[i + 1];
    LowField(w, High(d, i + 2), BITS, n);
    assert Pow2(0) == 1;
    assert w / 1 == w;
  }

  lemma JoinField(u: nat, s: nat, n: nat, v: nat)
    requires 0 < s < BITS && s + n <= BITS && u < Pow2(s) && u < BASE && v < Pow2(n)
    ensures SetWord(u, s, n, v) == u + v * Pow2(s)
  {
    DivModUnique(u, Pow2(s), 0, u);
    DivModUnique(0, Pow2(n), 0, 0);
    DivModUnique(v, Pow2(n), 0, v);
  }

  // ---------------------------------------------------------------- writing a field

  function SetBits(d: seq<Limb>, from: nat, n: nat, v: Limb): (r: seq<Limb>)
    requires from / BITS < |d| && 0 < n <= BITS
    ensures |r| == |d|
  {
    var fi, ri := from / BITS, from % BITS;
    var d1 := d[fi := SetWord(d[fi], ri, n, v)];
    if Straddles(d, from, n) then
      var s1 := BITS - ri;
      d1[fi + 1 := SetWord(d1[fi + 1], 0, n - s1, GetWord(v, s1, n - s1))]
    else d1
  }

  lemma {:induction false} LowUpdate(d: seq<Limb>, i: nat, x: Limb, n: nat)
    requires i < |d|
    ensures Low(d[i := x], n) + (if i < n then d[i] * Place(i) else 0)
         == Low(d, n) + (if i < n then x * Place(i) else 0)
  {
    if n > 0 {
      LowUpdate(d, i, x, n - 1);
    }
  }

  /** Writing a field replaces those digits of the number and no others. */
  lemma SetBitsIs(d: seq<Limb>, from: nat, n: nat, v: Limb)
    requires 0 < n <= BITS && from + n <= BITS * |d|
    ensures Val(SetBits(d, from, n, v)) + ((Val(d) / Pow2(from)) % Pow2(n)) * Pow2(from)
         == Val(d) + (v % Pow2(n)) * Pow2(from)
  {
    hide High, Pow2, Val, SetWord, GetBits;
    GetBitsIs(d, from, n);
    if from % BITS + n <= BITS {
      SetInside(d, from, n, v);
    } else {
      SetAcross(d, from, n, v);
    }
  }

  lemma SetInside(d: seq<Limb>, from: nat, n: nat, v: Limb)
    requires 0 < n <= BITS && from + n <= BITS * |d| && from % BITS + n <= BITS
    ensures Val(SetBits(d, from, n, v)) + GetBits(d, from, n) * Pow2(from) == Val(d) + (v % Pow2(n)) * Pow2(from)
  {
    hide Pow2, SetWord;
    var fi, ri := from / BITS, from % BITS;
    var x := SetWord(d[fi], ri, n, v);
    LowUpdate(d, fi, x, |d|);
    PowerAt(from);
    Scale(x, GetWord(d[fi], ri, n), Pow2(ri), d[fi], v % Pow2(n), Place(fi));
  }

  lemma SetAcross(d: seq<Limb>, from: nat, n: nat, v: Limb)
    requires 0 < n <= BITS && from + n <= BITS * |d| && from % BITS + n > BITS
    ensures Val(SetBits(d, from, n, v)) + GetBits(d, from, n) * Pow2(from) == Val(d) + (v % Pow2(n)) * Pow2(from)
  {
    hide Pow2, High, Val, GetBits, SetBits, SetWord, GetWord, Place, Joined, LowWrite, HighWrite;
    var fi, ri := from / BITS, from % BITS;
    var low, high := LowWrite(d[fi], ri, n, v), HighWrite(d[fi + 1], ri, n, v);
    AcrossWords(d[fi], d[fi + 1], ri, n, v);
    SetAcrossVal(d, from, n, v);
    GetAcross(d, from, n, v);
    PowerAt(from);
    AcrossSum(Val(d), Val(SetBits(d, from, n, v)), low, high, Pow2(ri), Pow2(BITS - ri), Place(fi));
  }

  lemma SetAcrossVal(d: seq<Limb>, from: nat, n: nat, v: Limb)
    requires 0 < n <= BITS && from + n <= BITS * |d| && from % BITS + n > BITS
    ensures var fi, ri := from / BITS, from % BITS;
      var low, high := LowWrite(d[fi], ri, n, v), HighWrite(d[fi + 1], ri, n, v);
      Val(SetBits(d, from, n, v)) + low.was * Place(fi) + high.was * (BASE * Place(fi)) ==
        Val(d) + low.now * Place(fi) + high.now * (BASE * Place(fi))
  {
    hide Pow2, High, Val, GetBits, SetWord, GetWord, Place;
    var fi, ri := from / BITS, from % BITS;
    TwoLimbs(d, fi, LowWrite(d[fi], ri, n, v).now, HighWrite(d[fi + 1], ri, n, v).now);
  }

  lemma GetAcross(d: seq<Limb>, from: nat, n: nat, v: Limb)
    requires 0 < n <= BITS && from + n <= BITS * |d| && from % BITS + n > BITS
    ensures var fi, ri := from / BITS, from % BITS;
      GetBits(d, from, n) ==
        LowWrite(d[fi], ri, n, v).taken + Pow2(BITS - ri) * HighWrite(d[fi + 1], ri, n, v).taken
  {
    hide Pow2, High, Val, GetBits, SetWord, GetWord, Place;
    StraddleIs(d, from, n);
    NextField(d, from / BITS, n - (BITS - from % BITS));
  }

  /** A word before and after a field is written into it, and the field before and after. */
  datatype Write = Write(was: nat, now: nat, taken: nat, given: nat)

  /** What a field of `n` bits that begins at bit `ri` does to its first word. */
  function LowWrite(w: Limb, ri: nat, n: nat, v: Limb): Write
    requires ri < BITS
  {
    hide Pow2, SetWord;
    DivBounds(w, Pow2(ri));
    DivBounds(v, Pow2(BITS - ri));
    Write(w, SetWord(w, ri, n, v), w / Pow2(ri), v % Pow2(BITS - ri))
  }

  /** And to its second, which gets the bits left over. */
  function HighWrite(w: Limb, ri: nat, n: nat, v: Limb): Write
    requires ri < BITS < ri + n
  {
    hide Pow2, SetWord, GetWord;
    var s := BITS - ri;
    var rest := GetWord(v, s, n - s);
    Write(w, SetWord(w, 0, n - s, rest), GetWord(w, 0, n - s), rest)
  }

  /** The field begins `r` up in the low word and goes on at the bottom of the high one. */
  predicate Joined(low: Write, high: Write, r: nat, s: nat) {
    && low.now + low.taken * r == low.was + low.given * r
    && high.now + high.taken == high.was + high.given
    && r * s == BASE
  }

  lemma AcrossSum(before: nat, after: nat, low: Write, high: Write, r: nat, s: nat, p: nat)
    requires Joined(low, high, r, s)
    requires after + low.was * p + high.was * (BASE * p) == before + low.now * p + high.now * (BASE * p)
    ensures after + (low.taken + s * high.taken) * (r * p) == before + (low.given + s * high.given) * (r * p)
  {
    hide Joined;
    AcrossArith(low, high, r, s, p);
  }

  lemma TwoLimbs(d: seq<Limb>, i: nat, x0: Limb, x1: Limb)
    requires i + 1 < |d|
    ensures Val(d[i := x0][i + 1 := x1]) + d[i] * Place(i) + d[i + 1] * (BASE * Place(i))
         == Val(d) + x0 * Place(i) + x1 * (BASE * Place(i))
  {
    hide Low;
    LowUpdate(d, i, x0, |d|);
    LowUpdate(d[i := x0], i + 1, x1, |d|);
  }

  /** The two words of a field that crosses: what is written to them, and the field they make. */
  lemma AcrossWords(w0: Limb, w1: Limb, ri: nat, n: nat, v: Limb)
    requires ri < BITS && 0 < n <= BITS && ri + n > BITS
    ensures var low, high := LowWrite(w0, ri, n, v), HighWrite(w1, ri, n, v);
      Joined(low, high, Pow2(ri), Pow2(BITS - ri)) && v % Pow2(n) == low.given + Pow2(BITS - ri) * high.given
  {
    hide Pow2, SetWord, GetWord;
    BaseIsPow2();
    Pow2Add(ri, BITS - ri);
    SetWordCut(w0, ri, n, v);
    FieldParts(v, BITS - ri, n);
    FullWord(w1, ri + n - BITS, GetWord(v, BITS - ri, ri + n - BITS));
  }

  /** The low `n` bits of v are its low `s` bits and the field behind them. */
  lemma FieldParts(v: nat, s: nat, n: nat)
    requires s <= n
    ensures v % Pow2(n) == v % Pow2(s) + Pow2(s) * GetWord(v, s, n - s)
    ensures GetWord(v, s, n - s) < Pow2(n - s)
  {
    hide Pow2;
    Pow2Add(s, n - s);
    DivBounds(v / Pow2(s), Pow2(n - s));
    DivProduct(v, Pow2(s), Pow2(n - s));
  }

  lemma SetWordCut(x: Limb, ri: nat, n: nat, v: Limb)
    requires ri < BITS && n >= BITS - ri
    ensures SetWord(x, ri, n, v) + (x / Pow2(ri)) * Pow2(ri) == x + (v % Pow2(BITS - ri)) * Pow2(ri)
  {
    hide Pow2, SetWord, GetWord;
    SetWordClips(x, ri, n, v);
    WholeWord(x, ri, BITS - ri);
  }

  lemma SetWordClips(x: Limb, ri: nat, n: nat, v: Limb)
    requires ri < BITS && n >= BITS - ri
    ensures SetWord(x, ri, n, v) == SetWord(x, ri, BITS - ri, v)
  {
    hide Pow2, GetWord;
  }

  lemma FullWord(x: Limb, n: nat, vv: nat)
    requires n < BITS && vv < Pow2(n)
    ensures SetWord(x, 0, n, vv) + GetWord(x, 0, n) == x + vv
  {
    DivModUnique(vv, Pow2(n), 0, vv);
    assert Pow2(0) == 1;
  }

  lemma AcrossArith(low: Write, high: Write, r: nat, s: nat, p: nat)
    requires Joined(low, high, r, s)
    ensures low.now * p + high.now * (BASE * p) + (low.taken + s * high.taken) * (r * p)
         == low.was * p + high.was * (BASE * p) + (low.given + s * high.given) * (r * p)
  {
    AcrossField(low.taken, high.taken, r, s, p);
    AcrossField(low.given, high.given, r, s, p);
    assert low.now * p + (low.taken * r) * p == low.was * p + (low.given * r) * p by {
      assert (low.now + low.taken * r) * p == (low.was + low.given * r) * p;
    }
    assert high.now * (BASE * p) + high.taken * (BASE * p) == high.was * (BASE * p) + high.given * (BASE * p) by {
      assert (high.now + high.taken) * (BASE * p) == (high.was + high.given) * (BASE * p);
    }
  }

  lemma AcrossField(x: nat, y: nat, r: nat, s: nat, p: nat)
    requires r * s == BASE
    ensures (x + s * y) * (r * p) == (x * r) * p + y * (BASE * p)
  {
    Distrib(r * p, x, s * y);
    MulAssoc(x, r, p);
    assert (s * y) * (r * p) == y * ((r * s) * p);
  }

  lemma PowerAt(from: nat)
    ensures Pow2(from) == Pow2(from % BITS) * Place(from / BITS)
  {
    PlaceIsPow2(from / BITS);
    Pow2Add(from % BITS, BITS * (from / BITS));
  }

  lemma Scale(x: nat, f: nat, r: nat, w: nat, g: nat, p: nat)
    requires x + f * r == w + g * r
    ensures x * p + f * (r * p) == w * p + g * (r * p)
  {
    MulAssoc(f, r, p);
    MulAssoc(g, r, p);
    assert (x + f * r) * p == x * p + (f * r) * p;
    assert (w + g * r) * p == w * p + (g * r) * p;
  }

  // ---------------------------------------------------------------- growing by fields

  /** resize to at least as many limbs: zeros on top. */
  function Grow(d: seq<Limb>, k: nat): (r: seq<Limb>)
    requires k >= |d|
    ensures |r| == k
  {
    d + seq(k - |d|, _ => 0)
  }

  lemma GrowKeeps(d: seq<Limb>, k: nat)
    requires k >= |d|
    ensures Val(Grow(d, k)) == Val(d)
  {
    LowSame(Grow(d, k), d, k);
    LowAll(d, k);
  }

  function ToBits(d: seq<Limb>, from: nat, n: nat, v: Limb): (r: seq<Limb>)
    requires 0 < n <= BITS
    ensures BITS * |r| >= from + n && |r| >= |d|
  {
    var e := if BITS * |d| < from + n then Grow(d, (from + n + BITS - 1) / BITS) else d;
    SetBits(e, from, n, v)
  }

  function ToBitsReverse(d: seq<Limb>, from: nat, n: nat, v: Limb): (r: seq<Limb>)
    requires 0 < n <= BITS && n <= from
    ensures BITS * |r| >= from && |r| >= |d|
  {
    var e := if BITS * |d| < from then Grow(d, (from + BITS - 1) / BITS) else d;
    SetBits(e, from - n, n, v)
  }

  /** Appending a field above all the bits written so far. */
  lemma ToBitsIs(d: seq<Limb>, from: nat, n: nat, v: Limb)
    requires 0 < n <= BITS && Val(d) < Pow2(from)
    ensures Val(ToBits(d, from, n, v)) == Val(d) + (v % Pow2(n)) * Pow2(from) < Pow2(from + n)
  {
    hide Pow2, SetBits, Val, Grow;
    var e := if BITS * |d| < from + n then Grow(d, (from + n + BITS - 1) / BITS) else d;
    if BITS * |d| < from + n {
      GrowKeeps(d, (from + n + BITS - 1) / BITS);
    }
    SetBitsIs(e, from, n, v);
    DivModUnique(Val(d), Pow2(from), 0, Val(d));
    DivModUnique(0, Pow2(n), 0, 0);
    Pow2Add(from, n);
    FieldBound(v, 0, n);
    assert Pow2(from) * Pow2(n) == Pow2(n) * Pow2(from);
    MulLess(v % Pow2(n), Pow2(n), Pow2(from));
  }

  /** Writing a field below all the bits written so far. */
  lemma ToBitsReverseIs(d: seq<Limb>, from: nat, n: nat, v: Limb)
    requires 0 < n <= BITS && n <= from && Val(d) % Pow2(from) == 0
    ensures Val(ToBitsReverse(d, from, n, v)) == Val(d) + (v % Pow2(n)) * Pow2(from - n)
  {
    hide Pow2, SetBits, Val, Grow;
    var e := if BITS * |d| < from then Grow(d, (from + BITS - 1) / BITS) else d;
    if BITS * |d| < from {
      GrowKeeps(d, (from + BITS - 1) / BITS);
    }
    SetBitsIs(e, from - n, n, v);
    Pow2Add(from - n, n);
    ZeroField(Val(d), Pow2(from - n), Pow2(n));
  }

  lemma ZeroField(x: nat, p: nat, q: nat)
    requires p > 0 && q > 0 && x % (p * q) == 0
    ensures (x / p) % q == 0
  {
    DivProduct(x, p, q);
    if (x / p) % q != 0 {
      MulAtLeast(p, (x / p) % q);
    }
  }
}

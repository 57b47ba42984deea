/** Division, products and powers of two, as far as the model needs them. */
module Arithmetic {

  const TWO_TO_16: nat := 0x1_0000
  const TWO_TO_32: nat := 0x1_0000_0000

  function Min(a: nat, b: nat): nat { if a < b then a else b }

  function AbsNat(x: int): nat { if x < 0 then -x else x }

  /** Quotient and remainder are unique. */
  lemma DivModUnique(x: int, w: int, q: int, r: int)
    requires w > 0 && x == w * q + r && 0 <= r < w
    ensures x / w == q && x % w == r
  {
    var d, m := x / w, x % w;
    assert w * (d - q) == r - m;
    if d > q {
      MulAtLeast(w, d - q);
    } else if d < q {
      MulAtLeast(w, q - d);
    }
  }

  lemma MulAtLeast(w: int, k: int)
    requires w > 0 && k >= 1
    ensures w * k >= w
  {
  }

  lemma MulStep(i: nat, w: nat, n: nat)
    requires i < n
    ensures i * w <= (i + 1) * w == i * w + w <= n * w
  {
    assert n * w == (i + 1) * w + (n - i - 1) * w;
  }

  lemma MulMono(a: nat, b: nat, c: nat)
    requires a <= b
    ensures a * c <= b * c && c * a <= c * b
  {
  }

  lemma MulLess(x: nat, y: nat, p: nat)
    requires x < y
    ensures x * p + p <= y * p
  {
    MulMono(x + 1, y, p);
    assert (x + 1) * p == x * p + p;
  }

  lemma MulAssoc(a: int, b: int, c: int)
    ensures (a * b) * c == a * (b * c)
  {
  }

  /** Dividing by a product is dividing twice; the remainder has two parts. */
  lemma DivProduct(x: nat, a: nat, b: nat)
    requires a > 0 && b > 0
    ensures a * b > 0
    ensures x / (a * b) == (x / a) / b
    ensures x % (a * b) == x % a + a * ((x / a) % b)
  {
    var q, r := x / a, x % a;
    var q2, r2 := q / b, q % b;
    Distrib(a, b * q2, r2);
    MulAssoc(a, b, q2);
    MulLess(r2, b, a);
    assert a * r2 == r2 * a && a * b == b * a;
    assert x == (a * b) * q2 + (a * r2 + r);
    DivModUnique(x, a * b, q2, a * r2 + r);
  }

  lemma Distrib(a: int, x: int, y: int)
    ensures a * (x + y) == a * x + a * y
  {
  }

  /** Adding a multiple moves the quotient and leaves the remainder. */
  lemma DivModShift(x: nat, k: nat, w: nat)
    requires w > 0
    ensures (x + w * k) / w == x / w + k && (x + w * k) % w == x % w
  {
    var q, r := x / w, x % w;
    assert x + w * k == w * (q + k) + r;
    DivModUnique(x + w * k, w, q + k, r);
  }

  lemma DivMono(x: nat, y: nat, w: nat)
    requires w > 0 && x <= y
    ensures x / w <= y / w
  {
    var q, p := x / w, y / w;
    assert w * (p + 1) == w * p + w;
    if q > p {
      MulMono(p + 1, q, w);
    }
  }

  lemma DivBounds(x: nat, w: nat)
    requires w > 0
    ensures w * (x / w) <= x < w * (x / w) + w && x == w * (x / w) + x % w
    ensures 0 <= x / w <= x && 0 <= x % w <= x && x % w < w
  {
    MulMono(1, w, x / w);
  }

  /** Replacing one digit group of a number below p * q * s keeps it below. */
  lemma FieldFits(x: nat, p: nat, q: nat, s: nat, g: nat)
    requires p > 0 && q > 0 && s > 0 && x < (p * q) * s && g < q
    ensures ((x / p) % q) * p <= x
    ensures x - ((x / p) % q) * p + g * p < (p * q) * s
  {
    var f, low, top := (x / p) % q, x % p, x / (p * q);
    DivProduct(x, p, q);
    DivBounds(x, p * q);
    DivBounds(x, p);
    DivBounds(x / p, q);
    GroupFits(x, p, q, s, g, f, low, top);
  }

  lemma GroupFits(x: nat, p: nat, q: nat, s: nat, g: nat, f: nat, low: nat, top: nat)
    requires p * q > 0 && x == (p * q) * top + (low + p * f) && x < (p * q) * s
    requires low < p && f < q && g < q
    ensures f * p <= x && x - f * p + g * p < (p * q) * s
  {
    MulLess(g, q, p);
    MulMono(0, p * q, top);
    assert p * f == f * p && q * p == p * q;
    GroupBelow(x, p * q, top, s);
  }

  lemma GroupBelow(x: nat, w: nat, top: nat, s: nat)
    requires w > 0 && w * top <= x < w * s
    ensures w * top + w <= w * s
  {
    if top >= s {
      MulMono(s, top, w);
    } else {
      MulLess(top, s, w);
    }
  }

  // ---------------------------------------------------------------- powers of two

  function Pow2(k: nat): (r: nat)
    ensures r > 0
  {
    if k == 0 then 1 else 2 * Pow2(k - 1)
  }

  lemma {:induction false} Pow2Add(a: nat, b: nat)
    ensures Pow2(a + b) == Pow2(a) * Pow2(b)
  {
    if a > 0 {
      Pow2Add(a - 1, b);
      MulAssoc(2, Pow2(a - 1), Pow2(b));
    }
  }

  lemma {:induction false} Pow2Mono(a: nat, b: nat)
    requires a <= b
    ensures Pow2(a) <= Pow2(b)
  {
    if a < b {
      Pow2Mono(a, b - 1);
    }
  }
}

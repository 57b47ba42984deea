/** Positions on a ring: forward and shortest distances, and the next position on the way
    (the arithmetic behind the generators of src/bus/routetable.cpp). */
module Rings {
  import opened Arithmetic

  function Succ(i: nat, n: nat): (r: nat)
    requires i < n
    ensures r < n
  {
    if i + 1 == n then 0 else i + 1
  }

  lemma SuccIs(i: nat, n: nat)
    requires i < n
    ensures Succ(i, n) == (i + 1) % n
  {
    if i + 1 == n {
      DivModUnique(n, n, 1, 0);
    } else {
      DivModUnique(i + 1, n, 0, i + 1);
    }
  }

  function Pred(i: nat, n: nat): (r: nat)
    requires i < n
    ensures r < n
  {
    if i == 0 then n - 1 else i - 1
  }

  /** How many steps forward from `i` to `j`. */
  function Forward(i: nat, j: nat, n: nat): (d: nat)
    requires i < n && j < n
    ensures d < n && (d == 0 <==> i == j)
  {
    if j >= i then j - i else j + n - i
  }

  /** The position `k` steps ahead; `k` may go once around. */
  function Ahead(i: nat, k: nat, n: nat): (r: nat)
    requires i < n && k <= n
    ensures r < n && (k < n ==> Forward(i, r, n) == k)
  {
    if i + k < n then i + k else i + k - n
  }

  lemma StepAhead(i: nat, k: nat, n: nat)
    requires i < n && k < n
    ensures Ahead(i, 0, n) == i && Ahead(i, 1, n) == Succ(i, n) && Ahead(i, n, n) == i
    ensures Ahead(i, k + 1, n) == Succ(Ahead(i, k, n), n) == (Ahead(i, k, n) + 1) % n
    ensures k > 0 ==> Ahead(i, k, n) != i
  {
    SuccIs(Ahead(i, k, n), n);
  }

  /** The ring distance: forward, or the shorter way round when both directions are used. */
  function Distance(i: nat, j: nat, n: nat, both: bool): (d: nat)
    requires i < n && j < n
    ensures d < n && (d == 0 <==> i == j)
  {
    var f := Forward(i, j, n);
    if both && n - f < f then n - f else f
  }

  /** The neighbour on the way from `i` to `j`: backward when that is the shorter way and allowed. */
  function Toward(i: nat, j: nat, n: nat, both: bool): (r: nat)
    requires i < n && j < n
    ensures r < n && (n > 1 ==> r != i)
  {
    if both && Forward(i, j, n) > n / 2 then Pred(i, n) else Succ(i, n)
  }

  /** Each hop is one step closer. */
  lemma Closer(i: nat, j: nat, n: nat, both: bool)
    requires i < n && j < n && i != j
    ensures Distance(Toward(i, j, n, both), j, n, both) == Distance(i, j, n, both) - 1
  {
  }

  /** Nothing is shorter: one hop in either direction changes the distance by at most one, so the distance
      is the least number of hops. */
  lemma ShortestWay(i: nat, j: nat, n: nat)
    requires i < n && j < n
    ensures Distance(i, j, n, true) <= Distance(Succ(i, n), j, n, true) + 1
    ensures Distance(i, j, n, true) <= Distance(Pred(i, n), j, n, true) + 1
    ensures Distance(i, j, n, true) <= Distance(i, j, n, false)
  {
  }

  /** With both directions the way goes forward exactly when it is no longer than the way back, so also on a tie. */
  lemma ForwardOnTie(i: nat, j: nat, n: nat)
    requires i < n && j < n && i != j && n > 2
    ensures Toward(i, j, n, true) == (i + 1) % n <==> Forward(i, j, n) <= Forward(j, i, n)
    ensures Toward(i, j, n, true) == (i + n - 1) % n <==> Forward(i, j, n) > Forward(j, i, n)
    ensures Toward(i, j, n, false) == (i + 1) % n
    ensures (i + Forward(i, j, n)) % n == j
  {
    SuccIs(i, n);
    if i > 0 {
      DivModUnique(i + n - 1, n, 1, i - 1);
    } else {
      DivModUnique(n - 1, n, 0, n - 1);
    }
    if j >= i {
      DivModUnique(j, n, 0, j);
    } else {
      DivModUnique(j + n, n, 1, j);
    }
  }
}

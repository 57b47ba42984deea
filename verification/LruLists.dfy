/** The recency lists of the cache blocks, and the stack property of least-recently-used replacement. */
module LruLists {
  import opened Arithmetic
  import opened Wrappers

  type Line = nat

  /** list::remove. */
  function Remove(s: seq<Line>, l: Line): (r: seq<Line>)
    ensures forall x :: x in r <==> x in s && x != l
    ensures l !in s ==> r == s
  {
    if s == [] then []
    else
      var r := Remove(s[..|s| - 1], l);
      assert s == s[..|s| - 1] + [s[|s| - 1]];
      if s[|s| - 1] == l then r else r + [s[|s| - 1]]
  }

  /** The line becomes the most recent one. */
  function Front(s: seq<Line>, l: Line): (r: seq<Line>)
    ensures forall x :: x in r <==> x in s || x == l
  {
    [l] + Remove(s, l)
  }

  lemma {:induction false} RemoveOnce(s: seq<Line>, l: Line)
    requires NoRepeats(s)
    ensures NoRepeats(Remove(s, l)) && |Remove(s, l)| == |s| - (if l in s then 1 else 0)
  {
    if s != [] {
      var k := |s| - 1;
      assert s == s[..k] + [s[k]];
      RemoveOnce(s[..k], l);
      assert s[k] !in s[..k];
      assert s[k] !in Remove(s[..k], l);
    }
  }

  /** list::erase at the place find gives: the first occurrence goes. */
  function EraseFirst(s: seq<Line>, l: Line): (r: seq<Line>)
    ensures forall x :: x in r ==> x in s
    ensures l !in s ==> r == s
  {
    if s == [] then [] else if s[0] == l then s[1..] else [s[0]] + EraseFirst(s[1..], l)
  }

  lemma {:induction false} RemoveFront(x: Line, s: seq<Line>, l: Line)
    ensures Remove([x] + s, l) == (if x == l then [] else [x]) + Remove(s, l)
  {
    var t := [x] + s;
    if s != [] {
      var k := |s| - 1;
      var head, rest := if x == l then [] else [x], Remove(s[..k], l);
      RemoveFront(x, s[..k], l);
      assert t[..|t| - 1] == [x] + s[..k] && t[|t| - 1] == s[k];
      assert (head + rest) + [s[k]] == head + (rest + [s[k]]);
    } else {
      assert t == [x] && t[..0] == [];
    }
  }

  /** In a list without repetition the first occurrence is the only one. */
  lemma {:induction false} EraseIsRemove(s: seq<Line>, l: Line)
    requires NoRepeats(s)
    ensures EraseFirst(s, l) == Remove(s, l)
  {
    if s != [] {
      assert s == [s[0]] + s[1..];
      RemoveFront(s[0], s[1..], l);
      if s[0] == l {
        assert l !in s[1..];
      } else {
        EraseIsRemove(s[1..], l);
      }
    }
  }

  lemma FrontOnce(s: seq<Line>, l: Line)
    requires NoRepeats(s)
    ensures NoRepeats(Front(s, l)) && |Front(s, l)| == |s| + (if l in s then 0 else 1)
  {
    RemoveOnce(s, l);
  }

  /** What an access does to a list of at most `ways` lines. */
  function Touch(lru: seq<Line>, l: Line, ways: nat): seq<Line>
    requires ways > 0
  {
    if l in lru || |lru| < ways then Front(lru, l) else Front(lru[..|lru| - 1], l)
  }

  function Run(trace: seq<Line>, ways: nat): (lru: seq<Line>)
    requires ways > 0
  {
    if trace == [] then [] else Touch(Run(trace[..|trace| - 1], ways), trace[|trace| - 1], ways)
  }

  /** All lines ever accessed, the most recent first. */
  function Recency(trace: seq<Line>): (r: seq<Line>)
    ensures NoRepeats(r) && forall x :: x in r <==> x in trace
  {
    if trace == [] then []
    else
      assert trace == trace[..|trace| - 1] + [trace[|trace| - 1]];
      FrontOnce(Recency(trace[..|trace| - 1]), trace[|trace| - 1]);
      Front(Recency(trace[..|trace| - 1]), trace[|trace| - 1])
  }

  function Take(s: seq<Line>, n: nat): seq<Line> { if |s| <= n then s else s[..n] }

  lemma {:induction false} RemovePrefix(s: seq<Line>, l: Line, n: nat)
    requires n <= |s|
    ensures Remove(s[..n], l) <= Remove(s, l)
    decreases |s|
  {
    if n == |s| {
      assert s[..n] == s;
    } else {
      RemovePrefix(s[..|s| - 1], l, n);
      assert s[..|s| - 1][..n] == s[..n];
    }
  }

  lemma RemoveTake(s: seq<Line>, l: Line, n: nat)
    requires NoRepeats(s) && n <= |s|
    ensures var k := if l in s[..n] then n - 1 else n;
      k <= |Remove(s, l)| && Remove(s[..n], l) == Remove(s, l)[..k]
  {
    hide Remove;
    RemovePrefix(s, l, n);
    RemoveOnce(s[..n], l);
  }

  /** The stack property: with `ways` ways the cache holds the first `ways` lines of the recency order, so
      a larger cache always holds what a smaller one does. */
  lemma {:induction false} StackProperty(trace: seq<Line>, ways: nat)
    requires ways > 0
    ensures Run(trace, ways) == Take(Recency(trace), ways)
  {
    if trace != [] {
      var past, l := trace[..|trace| - 1], trace[|trace| - 1];
      StackProperty(past, ways);
      TouchTake(Recency(past), l, ways);
    }
  }

  lemma TouchTake(s: seq<Line>, l: Line, ways: nat)
    requires ways > 0 && NoRepeats(s)
    ensures Touch(Take(s, ways), l, ways) == Take(Front(s, l), ways)
  {
    hide Remove, NoRepeats;
    var r := Remove(s, l);
    RemoveOnce(s, l);
    if |s| <= ways {
      TouchShort(s, l, ways);
    } else if l in s[..ways] {
      RemoveTake(s, l, ways);
      assert ([l] + r)[..ways] == [l] + r[..ways - 1];
    } else {
      RemoveTake(s, l, ways - 1);
      assert s[..ways][..ways - 1] == s[..ways - 1];
      assert l !in s[..ways - 1];
      assert ([l] + r)[..ways] == [l] + r[..ways - 1];
    }
  }

  lemma TouchShort(s: seq<Line>, l: Line, ways: nat)
    requires ways > 0 && NoRepeats(s) && |s| <= ways
    ensures Touch(s, l, ways) == Take(Front(s, l), ways)
  {
    hide Remove, NoRepeats;
    RemoveOnce(s, l);
    if l !in s && |s| == ways {
      assert Remove(s, l) == s;
      assert ([l] + s)[..ways] == [l] + s[..ways - 1];
    }
  }

  lemma Inclusion(trace: seq<Line>, small: nat, large: nat, l: Line)
    requires 0 < small <= large && l in Run(trace, small)
    ensures Run(trace, small) <= Run(trace, large) && l in Run(trace, large)
  {
    StackProperty(trace, small);
    StackProperty(trace, large);
    assert Run(trace, small) == Run(trace, large)[..|Run(trace, small)|];
  }

  /** When a line was last accessed, as a position in the trace. */
  function LastUse(trace: seq<Line>, l: Line): (t: nat)
    requires l in trace
    ensures t < |trace| && trace[t] == l && l !in trace[t + 1..]
  {
    if trace[|trace| - 1] == l then |trace| - 1
    else
      assert trace == trace[..|trace| - 1] + [trace[|trace| - 1]];
      var t := LastUse(trace[..|trace| - 1], l);
      assert trace[t + 1..] == trace[..|trace| - 1][t + 1..] + [trace[|trace| - 1]];
      t
  }

  lemma {:induction false} RecencyOrder(trace: seq<Line>, i: nat, j: nat)
    requires i < j < |Recency(trace)|
    ensures LastUse(trace, Recency(trace)[i]) > LastUse(trace, Recency(trace)[j])
  {
    hide LastUse, Remove, NoRepeats, Recency;
    assert trace != [] by {
      assert Recency(trace)[j] in Recency(trace);
    }
    var p, l := trace[..|trace| - 1], trace[|trace| - 1];
    var r, now := Recency(p), Recency(trace);
    LastAccess(trace, now[j]);
    assert now[j] == Remove(r, l)[j - 1] && now[j] in Remove(r, l);
    if i > 0 {
      assert now[i] == Remove(r, l)[i - 1] && now[i] in Remove(r, l);
      LastAccess(trace, now[i]);
      var x, y := RemoveOrder(r, l, i - 1, j - 1);
      RecencyOrder(p, x, y);
      assert LastUse(p, r[x]) > LastUse(p, r[y]);
    }
  }

  lemma LastAccess(trace: seq<Line>, x: Line)
    requires trace != [] && x in trace
    ensures var p, l := trace[..|trace| - 1], trace[|trace| - 1];
      && Recency(trace) == [l] + Remove(Recency(p), l)
      && LastUse(trace, l) == |trace| - 1
      && (x != l ==> x in p && LastUse(trace, x) == LastUse(p, x) < |trace| - 1)
  {
    hide Remove;
    assert trace == trace[..|trace| - 1] + [trace[|trace| - 1]];
  }

  /** Removing keeps the order of the rest. */
  lemma {:induction false} RemoveOrder(s: seq<Line>, l: Line, i: nat, j: nat) returns (x: nat, y: nat)
    requires i < j < |Remove(s, l)|
    ensures x < y < |s| && s[x] == Remove(s, l)[i] && s[y] == Remove(s, l)[j]
  {
    var k := |s| - 1;
    var r := Remove(s[..k], l);
    if j < |r| {
      x, y := RemoveOrder(s[..k], l, i, j);
    } else {
      y := k;
      assert Remove(s, l)[i] in s[..k];
      x :| 0 <= x < k && s[..k][x] == Remove(s, l)[i];
    }
  }

  /** The line evicted by an access is the one used longest ago of all lines in the cache. */
  lemma EvictsOldest(trace: seq<Line>, ways: nat, x: Line)
    requires ways > 0 && |Run(trace, ways)| == ways && x in Run(trace, ways)
    ensures var out := Run(trace, ways)[ways - 1];
      && out in trace && x in trace && (x != out ==> LastUse(trace, out) < LastUse(trace, x))
  {
    hide Recency, Run, LastUse;
    StackProperty(trace, ways);
    var r := Recency(trace);
    assert r[ways - 1] in r;
    var i :| 0 <= i < ways && Run(trace, ways)[i] == x;
    assert r[i] == x && x in r;
    if i < ways - 1 {
      RecencyOrder(trace, i, ways - 1);
    }
  }

  // ---------------------------------------------------------------- several sets

  /** The set a line is filed under. */
  function IndexOf(l: Line, sets: nat): (i: nat)
    requires sets > 0
    ensures i < sets
  {
    ModBound(l, sets);
    l % sets
  }

  /** Bitwise and. */
  function BitAnd(a: nat, b: nat): nat {
    if a == 0 || b == 0 then 0
    else 2 * BitAnd(a / 2, b / 2) + if a % 2 == 1 && b % 2 == 1 then 1 else 0
  }

  /** The program computes the index as the low bits of the line: lindex & (set_count - 1). */
  lemma {:induction false} IndexIsLowBits(l: Line, k: nat)
    ensures BitAnd(l, Pow2(k) - 1) == IndexOf(l, Pow2(k)) == l % Pow2(k)
  {
    hide BitAnd, IndexOf;
    if k == 0 {
      DivModUnique(l, 1, l, 0);
      NoBits(l);
    } else {
      IndexIsLowBits(l / 2, k - 1);
      DivProduct(l, 2, Pow2(k - 1));
      LowestBit(l, Pow2(k - 1));
    }
    IndexIsMod(l, Pow2(k));
  }

  lemma NoBits(l: Line)
    ensures BitAnd(l, 0) == 0
  {
  }

  lemma IndexIsMod(l: Line, sets: nat)
    requires sets > 0
    ensures IndexOf(l, sets) == l % sets
  {
  }

  lemma LowestBit(l: Line, half: nat)
    requires half > 0
    ensures BitAnd(l, 2 * half - 1) == 2 * BitAnd(l / 2, half - 1) + l % 2
  {
    assert (2 * half - 1) / 2 == half - 1 && (2 * half - 1) % 2 == 1;
  }

  /** Two lines share a set exactly when they are a multiple of the number of sets apart. */
  lemma SameSet(a: Line, b: Line, sets: nat)
    requires sets > 0
    ensures IndexOf(a, sets) == IndexOf(b, sets) <==> (a - b) % sets == 0
  {
    var d := (a / sets) - (b / sets);
    var e := (a % sets) - (b % sets);
    DivBounds(a, sets);
    DivBounds(b, sets);
    Distrib(sets, a / sets, -(b / sets));
    assert a - b == sets * d + e;
    if e >= 0 {
      DivModUnique(a - b, sets, d, e);
    } else {
      assert sets * (d - 1) == sets * d - sets;
      DivModUnique(a - b, sets, d - 1, e + sets);
    }
  }

  /** The accesses that fall into one set. */
  function Falling(trace: seq<Line>, i: nat, sets: nat): seq<Line>
    requires sets > 0
  {
    if trace == [] then []
    else
      var l := trace[|trace| - 1];
      Falling(trace[..|trace| - 1], i, sets) + if IndexOf(l, sets) == i then [l] else []
  }

  /** A whole cache: each access touches the list of its set. */
  function RunSets(trace: seq<Line>, sets: nat, ways: nat): (r: seq<seq<Line>>)
    requires sets > 0 && ways > 0
    ensures |r| == sets
  {
    if trace == [] then seq(sets, _ => [])
    else
      var r := RunSets(trace[..|trace| - 1], sets, ways);
      var l := trace[|trace| - 1];
      r[IndexOf(l, sets) := Touch(r[IndexOf(l, sets)], l, ways)]
  }

  lemma ModBound(x: nat, n: nat)
    requires n > 0
    ensures 0 <= x % n < n
  {
  }

  lemma {:induction false} SetsIndependent(trace: seq<Line>, i: nat, sets: nat, ways: nat)
    requires i < sets && ways > 0
    ensures RunSets(trace, sets, ways)[i] == Run(Falling(trace, i, sets), ways)
  {
    hide Touch, IndexOf;
    if trace != [] {
      SetsIndependent(trace[..|trace| - 1], i, sets, ways);
      var f := Falling(trace[..|trace| - 1], i, sets);
      assert (f + [trace[|trace| - 1]])[..|f|] == f && f + [] == f;
    }
  }
}

/** The set-associative cache block with pinned lines (src/cache/cachecommon.h: GenericLRUCacheBlock).
    Payloads are handed out as values, not as pointers into the block. */
module LruCache {
  import opened Arithmetic
  import opened Wrappers
  import opened LruLists

  /** One set: its lines, its recency list, and the pinned lines of the whole block. The lines are the
      listed ones and the pinned ones, each line once, in its own set, and no more than there are ways. */
  ghost predicate SetOk<P>(lines: map<Line, P>, lru: seq<Line>, pinned: set<Line>, i: nat, sets: nat, ways: nat)
    requires sets > 0
  {
    && NoRepeats(lru)
    && (forall x :: x in lines <==> x in lru || (x in pinned && IndexOf(x, sets) == i))
    && (forall x :: x in lru ==> x !in pinned && IndexOf(x, sets) == i)
    && |lines| <= ways
  }

  class GenericLRUCacheBlock<P> {
    const setCount: nat
    const linePerSet: nat
    var sets: seq<map<Line, P>>
    var lrus: seq<seq<Line>>
    var pinned: set<Line>

    /** Lines are filed under their own set. */
    ghost predicate Shape()
      reads this
    {
      && setCount > 0 && |sets| == setCount && |lrus| == setCount
      && (forall i, x :: 0 <= i < setCount && x in sets[i] ==> IndexOf(x, setCount) == i)
      && (forall i, x :: 0 <= i < setCount && x in lrus[i] ==> IndexOf(x, setCount) == i)
    }

    ghost predicate Valid()
      reads this
    {
      Shape() && forall i :: 0 <= i < setCount ==> SetOk(sets[i], lrus[i], pinned, i, setCount, linePerSet)
    }

    /** The block as a plain map. */
    ghost function Get(l: Line): Option<P>
      requires Shape()
      reads this
    {
      var held := sets[IndexOf(l, setCount)];
      if l in held then Some(held[l]) else None
    }

    /** The lines of a set that may be evicted. */
    ghost function Lru(l: Line): seq<Line>
      requires Shape()
      reads this
    {
      lrus[IndexOf(l, setCount)]
    }

    constructor (setAddrOffset: nat, linePerSet: nat)
      ensures Valid() && setCount == Pow2(setAddrOffset) && this.linePerSet == linePerSet && pinned == {}
      ensures forall i :: 0 <= i < setCount ==> sets[i] == map[] && lrus[i] == []
      ensures forall l :: Get(l) == None
    {
      setCount, this.linePerSet := Pow2(setAddrOffset), linePerSet;
      sets, lrus := seq(Pow2(setAddrOffset), _ => map[]), seq(Pow2(setAddrOffset), _ => []);
      pinned := {};
    }

    method TagLru(l: Line)
      requires Shape()
      modifies this`lrus
      ensures Shape() && lrus == old(lrus)[IndexOf(l, setCount) := Front(old(Lru(l)), l)]
    {
      var i := IndexOf(l, setCount);
      lrus := lrus[i := Remove(lrus[i], l)];
      lrus := lrus[i := [l] + lrus[i]];
    }

    /** A lookup, which may count as an access. The block stays in order exactly when a pinned line is
        not counted. */
    method GetLine(l: Line, tag: bool) returns (r: Option<P>)
      requires Shape()
      modifies this`lrus
      ensures Shape() && r == old(Get(l))
      ensures lrus ==
        if r.Some? && tag then old(lrus)[IndexOf(l, setCount) := Front(old(Lru(l)), l)] else old(lrus)
      ensures old(Valid()) ==> (Valid() <==> !(tag && l in pinned))
    {
      var i := IndexOf(l, setCount);
      if l in sets[i] {
        r := Some(sets[i][l]);
        ghost var before := lrus;
        if tag {
          TagLru(l);
          if SetOk(sets[i], before[i], pinned, i, setCount, linePerSet) {
            Tagged(sets[i], before[i], pinned, i, setCount, linePerSet, l);
          }
        }
      } else {
        r := None;
      }
    }

    method UpdateLine(l: Line, v: P, tag: bool) returns (hit: bool)
      requires Shape()
      modifies this`sets, this`lrus
      ensures Shape() && hit == old(Get(l)).Some?
      ensures forall x :: Get(x) == if hit && x == l then Some(v) else old(Get(x))
      ensures lrus ==
        if hit && tag then old(lrus)[IndexOf(l, setCount) := Front(old(Lru(l)), l)] else old(lrus)
      ensures old(Valid()) ==> (Valid() <==> !(tag && l in pinned))
    {
      var i := IndexOf(l, setCount);
      hit := l in sets[i];
      if hit {
        ghost var was, before := sets[i], lrus;
        var updated: map<Line, P> := sets[i][l := v];
        sets := sets[i := updated];
        SameLines(was, sets[i], before[i], pinned, i, setCount, linePerSet);
        if tag {
          TagLru(l);
          if SetOk(sets[i], before[i], pinned, i, setCount, linePerSet) {
            Tagged(sets[i], before[i], pinned, i, setCount, linePerSet, l);
          }
        }
      }
    }

    method RemoveLine(l: Line)
      requires Shape()
      modifies this
      ensures Shape() && pinned == old(pinned) - {l}
      ensures var i := IndexOf(l, setCount);
        sets == old(sets)[i := old(sets)[i] - {l}] && lrus == old(lrus)[i := Remove(old(lrus)[i], l)]
      ensures forall x :: Get(x) == if x == l then None else old(Get(x))
      ensures old(Valid()) ==> Valid()
    {
      hide SetOk, NoRepeats;
      var i := IndexOf(l, setCount);
      ghost var held, lru, pins := sets[i], lrus[i], pinned;
      var less: map<Line, P> := sets[i] - {l};
      sets := sets[i := less];
      lrus := lrus[i := Remove(lrus[i], l)];
      pinned := pinned - {l};
      if SetOk(held, lru, pins, i, setCount, linePerSet) {
        Removed(held, lru, pins, i, setCount, linePerSet, l);
      }
      forall j | 0 <= j < setCount && j != i && SetOk(sets[j], lrus[j], pins, j, setCount, linePerSet)
        ensures SetOk(sets[j], lrus[j], pinned, j, setCount, linePerSet)
      {
        OtherSet(sets[j], lrus[j], pins, j, setCount, linePerSet, l);
      }
    }

    /** Writes a line into its set, as the most recent one. */
    method Put(l: Line, v: P)
      requires Shape()
      modifies this`sets, this`lrus
      ensures Shape() && lrus == old(lrus)[IndexOf(l, setCount) := Front(old(Lru(l)), l)]
      ensures forall x :: Get(x) == (if x == l then Some(v) else old(Get(x)))
      ensures old(Valid()) && (old(Get(l)).Some? || |old(sets)[IndexOf(l, setCount)]| < linePerSet) ==>
        (Valid() <==> l !in pinned)
    {
      hide SetOk, NoRepeats;
      var i := IndexOf(l, setCount);
      ghost var was, lru := sets[i], lrus[i];
      var updated: map<Line, P> := sets[i][l := v];
      sets := sets[i := updated];
      TagLru(l);
      if SetOk(was, lru, pinned, i, setCount, linePerSet) && (l in was || |was| < linePerSet) {
        Inserted(was, lru, pinned, i, setCount, linePerSet, l, v);
        assert SetOk(sets[i], lrus[i], pinned, i, setCount, linePerSet) <==> l !in pinned;
      }
      assert forall j :: 0 <= j < setCount && j != i ==> sets[j] == old(sets)[j] && lrus[j] == old(lrus)[j];
    }

    /** Takes the last listed line out of the set of `l`. */
    method Evict(l: Line) returns (victim: Line, v: P)
      requires Shape() && Lru(l) != [] && Lru(l)[|Lru(l)| - 1] in sets[IndexOf(l, setCount)]
      modifies this
      ensures Shape() && victim == old(Lru(l))[|old(Lru(l))| - 1] && Some(v) == old(Get(Lru(l)[|Lru(l)| - 1]))
      ensures |sets[IndexOf(l, setCount)]| + 1 == |old(sets)[IndexOf(l, setCount)]|
      ensures pinned == old(pinned) - {victim}
      ensures lrus == old(lrus)[IndexOf(l, setCount) := Remove(old(Lru(l)), victim)]
      ensures forall x :: Get(x) == (if x == victim then None else old(Get(x)))
      ensures old(Valid()) ==> Valid() && pinned == old(pinned) && victim !in pinned
    {
      hide SetOk, NoRepeats, Remove;
      var i := IndexOf(l, setCount);
      victim := lrus[i][|lrus[i]| - 1];
      assert victim in lrus[i];
      v := sets[i][victim];
      LessLines(sets[i], victim);
      if SetOk(sets[i], lrus[i], pinned, i, setCount, linePerSet) {
        NotPinned(sets[i], lrus[i], pinned, i, setCount, linePerSet, victim);
      }
      RemoveLine(victim);
    }

    /** Puts a line in, evicting the last listed line of a full set. A full set whose lines are all pinned is
        not handled by the program. The block stays in order exactly when the line was not pinned. */
    method InsertLine(l: Line, v: P) returns (replaced: Option<(Line, P)>)
      requires Shape()
      requires Get(l).Some? || |sets[IndexOf(l, setCount)]| < linePerSet ||
        (Lru(l) != [] && Lru(l)[|Lru(l)| - 1] in sets[IndexOf(l, setCount)])
      modifies this
      ensures Shape()
      ensures replaced.Some? <==> old(Get(l)) == None && |old(sets)[IndexOf(l, setCount)]| >= linePerSet
      ensures replaced == None ==>
        && pinned == old(pinned) && lrus == old(lrus)[IndexOf(l, setCount) := Front(old(Lru(l)), l)]
        && forall x :: Get(x) == if x == l then Some(v) else old(Get(x))
      ensures replaced.Some? ==>
        && old(Lru(l)) != [] && replaced.value.0 == old(Lru(l))[|old(Lru(l))| - 1]
        && Some(replaced.value.1) == old(Get(Lru(l)[|Lru(l)| - 1]))
        && pinned == old(pinned) - {replaced.value.0}
        && lrus == old(lrus)[IndexOf(l, setCount) := Front(Remove(old(Lru(l)), replaced.value.0), l)]
        && forall x :: Get(x) == if x == l then Some(v) else if x == replaced.value.0 then None else old(Get(x))
      ensures old(Valid()) ==> (Valid() <==> l !in old(pinned)) && pinned == old(pinned)
      ensures old(Valid()) && replaced.Some? ==> replaced.value.0 !in old(pinned)
    {
      hide SetOk, NoRepeats, Remove, Front;
      var i := IndexOf(l, setCount);
      if l in sets[i] || |sets[i]| < linePerSet {
        Put(l, v);
        replaced := None;
      } else {
        if SetOk(sets[i], lrus[i], pinned, i, setCount, linePerSet) {
          PinnedIsIn(sets[i], lrus[i], pinned, i, setCount, linePerSet, l);
        }
        var victim, payload := Evict(l);
        replaced := Some((victim, payload));
        Put(l, v);
      }
    }

    /** Forgets all lines, but not which of them were pinned: the block is in order afterwards exactly when
        none was. */
    method Clear()
      requires Shape()
      modifies this`sets, this`lrus
      ensures Shape() && forall l :: Get(l) == None
      ensures forall i :: 0 <= i < setCount ==> sets[i] == map[] && lrus[i] == []
      ensures Valid() <==> pinned == {}
    {
      sets := seq(setCount, _ => map[]);
      lrus := seq(setCount, _ => []);
      if l :| l in pinned {
        var i := IndexOf(l, setCount);
        assert !SetOk(sets[i], lrus[i], pinned, i, setCount, linePerSet);
      }
    }

    /** Takes a listed line out of the recency list, where it comes first. */
    method Pin(l: Line)
      requires Shape()
      modifies this`lrus, this`pinned
      ensures Shape()
      ensures pinned == if l in old(Lru(l)) then old(pinned) + {l} else old(pinned)
      ensures lrus == old(lrus)[IndexOf(l, setCount) := EraseFirst(old(Lru(l)), l)]
      ensures old(Valid()) ==> Valid() && l !in Lru(l)
    {
      hide SetOk, NoRepeats, EraseFirst;
      var i := IndexOf(l, setCount);
      ghost var lru, pins := lrus[i], pinned;
      if l in lrus[i] {
        lrus := lrus[i := EraseFirst(lrus[i], l)];
        pinned := pinned + {l};
      } else {
        assert lrus[i := lrus[i]] == lrus;
      }
      if SetOk(sets[i], lru, pins, i, setCount, linePerSet) {
        PinnedInSet(sets[i], lru, pins, i, setCount, linePerSet, l);
      }
      forall j | 0 <= j < setCount && j != i && SetOk(sets[j], lrus[j], pins, j, setCount, linePerSet)
        ensures SetOk(sets[j], lrus[j], pinned, j, setCount, linePerSet)
      {
        OtherSetPinned(sets[j], lrus[j], pins, j, setCount, linePerSet, l);
      }
    }

    /** Puts a pinned line back as the most recent one. */
    method Unpin(l: Line)
      requires Shape()
      modifies this`lrus, this`pinned
      ensures Shape() && pinned == old(pinned) - {l}
      ensures lrus ==
        if l in old(pinned) then old(lrus)[IndexOf(l, setCount) := [l] + old(Lru(l))] else old(lrus)
      ensures old(Valid()) ==> Valid()
    {
      hide SetOk, NoRepeats;
      var i := IndexOf(l, setCount);
      if l in pinned {
        if SetOk(sets[i], lrus[i], pinned, i, setCount, linePerSet) {
          Unpinned(sets[i], lrus[i], pinned, i, setCount, linePerSet, l);
        }
        forall j | 0 <= j < setCount && j != i && SetOk(sets[j], lrus[j], pinned, j, setCount, linePerSet)
          ensures SetOk(sets[j], lrus[j], pinned - {l}, j, setCount, linePerSet)
        {
          OtherSet(sets[j], lrus[j], pinned, j, setCount, linePerSet, l);
        }
        pinned := pinned - {l};
        lrus := lrus[i := [l] + lrus[i]];
      }
    }
  }

  /** Counting an access to a line of a set that is in order. */
  lemma Tagged<P>(lines: map<Line, P>, lru: seq<Line>, pinned: set<Line>, i: nat, sets: nat, ways: nat, l: Line)
    requires sets > 0 && SetOk(lines, lru, pinned, i, sets, ways) && l in lines
    ensures SetOk(lines, Front(lru, l), pinned, i, sets, ways) <==> l !in pinned
  {
    hide NoRepeats, IndexOf;
    FrontOnce(lru, l);
    if l in pinned {
      assert l in Front(lru, l);
    }
  }

  lemma SameLines<P>(a: map<Line, P>, b: map<Line, P>, lru: seq<Line>, pinned: set<Line>, i: nat, sets: nat, ways: nat)
    requires sets > 0 && a.Keys == b.Keys
    ensures SetOk(a, lru, pinned, i, sets, ways) <==> SetOk(b, lru, pinned, i, sets, ways)
  {
    assert |a| == |a.Keys| && |b| == |b.Keys|;
    assert forall x :: x in a <==> x in b;
  }

  lemma Removed<P>(lines: map<Line, P>, lru: seq<Line>, pinned: set<Line>, i: nat, sets: nat, ways: nat, l: Line)
    requires sets > 0 && SetOk(lines, lru, pinned, i, sets, ways)
    ensures SetOk(lines - {l}, Remove(lru, l), pinned - {l}, i, sets, ways)
    ensures l !in pinned ==> SetOk(lines - {l}, Remove(lru, l), pinned, i, sets, ways)
  {
    hide NoRepeats, IndexOf, Remove;
    var less, rest, pins := lines - {l}, Remove(lru, l), pinned - {l};
    RemoveOnce(lru, l);
    LessLines(lines, l);
    forall x
      ensures x in less <==> x in rest || (x in pins && IndexOf(x, sets) == i)
      ensures x in rest ==> x !in pins && IndexOf(x, sets) == i
    {
      assert x in less <==> x in lines && x != l;
    }
    assert SetOk(less, rest, pins, i, sets, ways);
    if l !in pinned {
      assert pins == pinned;
    }
  }

  lemma LessLines<P>(lines: map<Line, P>, l: Line)
    ensures |lines - {l}| == |lines| - if l in lines then 1 else 0
  {
    assert (lines - {l}).Keys == lines.Keys - {l};
  }

  lemma OtherSet<P>(lines: map<Line, P>, lru: seq<Line>, pinned: set<Line>, j: nat, sets: nat, ways: nat, l: Line)
    requires sets > 0 && SetOk(lines, lru, pinned, j, sets, ways) && IndexOf(l, sets) != j
    ensures SetOk(lines, lru, pinned - {l}, j, sets, ways)
  {
  }

  lemma OtherSetPinned<P>(lines: map<Line, P>, lru: seq<Line>, pinned: set<Line>, j: nat, sets: nat, ways: nat, l: Line)
    requires sets > 0 && SetOk(lines, lru, pinned, j, sets, ways) && IndexOf(l, sets) != j
    ensures SetOk(lines, lru, pinned + {l}, j, sets, ways)
  {
  }

  lemma Inserted<P>(lines: map<Line, P>, lru: seq<Line>, pinned: set<Line>, i: nat, sets: nat, ways: nat, l: Line, v: P)
    requires sets > 0 && SetOk(lines, lru, pinned, i, sets, ways) && IndexOf(l, sets) == i
    requires l in lines || |lines| < ways
    ensures SetOk(lines[l := v], Front(lru, l), pinned, i, sets, ways) <==> l !in pinned
  {
    hide NoRepeats, IndexOf;
    FrontOnce(lru, l);
    assert lines[l := v].Keys == lines.Keys + {l};
    assert l in Front(lru, l);
  }

  lemma NotPinned<P>(lines: map<Line, P>, lru: seq<Line>, pinned: set<Line>, i: nat, sets: nat, ways: nat, l: Line)
    requires sets > 0 && SetOk(lines, lru, pinned, i, sets, ways) && l in lru
    ensures l !in pinned && l in lines && |lines| <= ways
  {
  }

  lemma PinnedIsIn<P>(lines: map<Line, P>, lru: seq<Line>, pinned: set<Line>, i: nat, sets: nat, ways: nat, l: Line)
    requires sets > 0 && SetOk(lines, lru, pinned, i, sets, ways) && IndexOf(l, sets) == i && l !in lines
    ensures l !in pinned && |lines| <= ways
  {
  }

  lemma Pinned<P>(lines: map<Line, P>, lru: seq<Line>, pinned: set<Line>, i: nat, sets: nat, ways: nat, l: Line)
    requires sets > 0 && SetOk(lines, lru, pinned, i, sets, ways) && l in lru
    ensures SetOk(lines, Remove(lru, l), pinned + {l}, i, sets, ways)
  {
    hide NoRepeats, IndexOf;
    RemoveOnce(lru, l);
  }

  lemma PinnedInSet<P>(lines: map<Line, P>, lru: seq<Line>, pinned: set<Line>, i: nat, sets: nat, ways: nat, l: Line)
    requires sets > 0 && SetOk(lines, lru, pinned, i, sets, ways)
    ensures SetOk(lines, EraseFirst(lru, l), if l in lru then pinned + {l} else pinned, i, sets, ways)
    ensures l !in EraseFirst(lru, l)
  {
    hide NoRepeats, IndexOf, SetOk, EraseFirst;
    InOrderOnce(lines, lru, pinned, i, sets, ways);
    EraseIsRemove(lru, l);
    if l in lru {
      Pinned(lines, lru, pinned, i, sets, ways, l);
    }
  }

  lemma InOrderOnce<P>(lines: map<Line, P>, lru: seq<Line>, pinned: set<Line>, i: nat, sets: nat, ways: nat)
    requires sets > 0 && SetOk(lines, lru, pinned, i, sets, ways)
    ensures NoRepeats(lru)
  {
  }

  lemma Unpinned<P>(lines: map<Line, P>, lru: seq<Line>, pinned: set<Line>, i: nat, sets: nat, ways: nat, l: Line)
    requires sets > 0 && SetOk(lines, lru, pinned, i, sets, ways) && l in pinned && IndexOf(l, sets) == i
    ensures SetOk(lines, [l] + lru, pinned - {l}, i, sets, ways)
  {
    assert l !in lru;
  }

  // ---------------------------------------------------------------- runs of insertions

  ghost function Lines<P>(trace: seq<(Line, P)>): seq<Line> {
    seq(|trace|, i requires 0 <= i < |trace| => trace[i].0)
  }

  /** Without pinned lines a set holds exactly the lines of its list. */
  lemma ListedOnly<P>(lines: map<Line, P>, lru: seq<Line>, i: nat, sets: nat, ways: nat)
    requires sets > 0 && SetOk(lines, lru, {}, i, sets, ways)
    ensures |lines| == |lru| && forall x :: x in lines <==> x in lru
  {
    hide NoRepeats, IndexOf;
    NoRepeatsSize(lru);
    assert lines.Keys == Members(lru);
  }

  lemma RemoveLast(s: seq<Line>)
    requires s != [] && NoRepeats(s)
    ensures Remove(s, s[|s| - 1]) == s[..|s| - 1]
  {
    assert s[|s| - 1] !in s[..|s| - 1];
  }

  /** Any run of insertions into a fresh block: each set lists its lines by recency, as many as there are
      ways, and holds just those. With `StackProperty`, `Inclusion` and `EvictsOldest` this is what
      least-recently-used replacement means. */
  method Replay<P>(trace: seq<(Line, P)>, setAddrOffset: nat, ways: nat) returns (block: GenericLRUCacheBlock<P>)
    requires ways > 0
    ensures fresh(block) && block.Valid() && block.setCount == Pow2(setAddrOffset) && block.linePerSet == ways
    ensures forall i :: 0 <= i < block.setCount ==>
      && block.lrus[i] == Take(Recency(Falling(Lines(trace), i, block.setCount)), ways)
      && forall x :: x in block.sets[i] <==> x in block.lrus[i]
  {
    hide SetOk, RunSets, Falling, Recency, Run, Remove, Front;
    block := new GenericLRUCacheBlock(setAddrOffset, ways);
    NothingYet(block.setCount, ways);
    assert Lines(trace[..0]) == [];
    assert block.lrus == RunSets([], block.setCount, ways);
    var n: nat := 0;
    while n < |trace|
      invariant n <= |trace| && fresh(block) && block.Valid() && block.pinned == {}
      invariant block.setCount == Pow2(setAddrOffset) && block.linePerSet == ways
      invariant block.lrus == RunSets(Lines(trace[..n]), block.setCount, ways)
    {
      var l, v := trace[n].0, trace[n].1;
      ghost var i := IndexOf(l, block.setCount);
      ghost var lru := block.lrus[i];
      ListedOnly(block.sets[i], lru, i, block.setCount, ways);
      assert SetOk(block.sets[i], lru, block.pinned, i, block.setCount, ways);
      WithinWays(block.sets[i], lru, i, block.setCount, ways);
      var replaced := block.InsertLine(l, v);
      TouchIs(lru, l, ways);
      NextAccess(trace, n, block.setCount, ways);
      n := n + 1;
    }
    assert trace[..n] == trace;
    forall i | 0 <= i < block.setCount
      ensures block.lrus[i] == Take(Recency(Falling(Lines(trace), i, block.setCount)), ways)
      ensures forall x :: x in block.sets[i] <==> x in block.lrus[i]
    {
      SetsIndependent(Lines(trace), i, block.setCount, ways);
      StackProperty(Falling(Lines(trace), i, block.setCount), ways);
      ListedOnly(block.sets[i], block.lrus[i], i, block.setCount, ways);
    }
  }

  lemma NothingYet(sets: nat, ways: nat)
    requires sets > 0 && ways > 0
    ensures forall i :: 0 <= i < sets ==> RunSets([], sets, ways)[i] == []
  {
  }

  lemma WithinWays<P>(lines: map<Line, P>, lru: seq<Line>, i: nat, sets: nat, ways: nat)
    requires sets > 0 && SetOk(lines, lru, {}, i, sets, ways)
    ensures |lines| <= ways && NoRepeats(lru)
  {
  }

  lemma TouchIs(lru: seq<Line>, l: Line, ways: nat)
    requires ways > 0 && |lru| <= ways && NoRepeats(lru)
    ensures Touch(lru, l, ways) ==
      if l in lru || |lru| < ways then Front(lru, l) else Front(Remove(lru, lru[|lru| - 1]), l)
  {
    hide Remove, Front;
    if lru != [] {
      RemoveLast(lru);
    }
  }

  lemma NextAccess<P>(trace: seq<(Line, P)>, n: nat, sets: nat, ways: nat)
    requires n < |trace| && sets > 0 && ways > 0
    ensures var r, l := RunSets(Lines(trace[..n]), sets, ways), trace[n].0;
      RunSets(Lines(trace[..n + 1]), sets, ways) == r[IndexOf(l, sets) := Touch(r[IndexOf(l, sets)], l, ways)]
  {
    hide Touch, IndexOf;
    var t := Lines(trace[..n + 1]);
    assert t[..n] == Lines(trace[..n]) && t[n] == trace[n].0;
  }

  lemma FrontOfOne(l: Line)
    ensures Front([], l) == [l] && Remove([l], l) == [] && Pow2(0) == 1 && IndexOf(l, 1) == 0
  {
  }

  lemma TwiceIsWrong<P>(lines: map<Line, P>, l: Line, pinned: set<Line>, i: nat, sets: nat, ways: nat)
    requires sets > 0
    ensures !SetOk(lines, [l, l], pinned, i, sets, ways)
  {
    assert [l, l][0] == [l, l][1];
  }

  /** Clearing a block while a line is pinned, inserting the line again and unpinning it lists it twice. */
  method ClearedWhilePinned<P>(l: Line, v: P) returns (block: GenericLRUCacheBlock<P>)
    ensures fresh(block) && block.Shape() && !block.Valid() && block.Lru(l) == [l, l]
  {
    hide SetOk, Remove;
    FrontOfOne(l);
    block := new GenericLRUCacheBlock(0, 2);
    var replaced := block.InsertLine(l, v);
    assert block.Lru(l) == [l];
    block.Pin(l);
    block.Clear();
    replaced := block.InsertLine(l, v);
    block.Unpin(l);
    assert block.Lru(l) == [l, l];
    TwiceIsWrong(block.sets[0], l, block.pinned, 0, block.setCount, block.linePerSet);
  }
}

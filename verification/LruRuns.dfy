/** Runs of a cache block: any mix of its operations (src/cache/cachecommon.h). Lookups are those of a plain map less
    what was removed and evicted, and what is evicted is the line used longest ago of those not pinned. */
module LruRuns {
  import opened Arithmetic
  import opened Wrappers
  import opened LruLists
  import opened LruCache

  datatype Op<P> =
    | Get(l: Line, tag: bool)
    | Update(l: Line, v: P, tag: bool)
    | Insert(l: Line, v: P)
    | Erase(l: Line)
    | Pin(l: Line)
    | Unpin(l: Line)
    | Clear

  datatype Reply<P> = Found(v: P) | Hit | Miss | Evicted(l: Line, v: P) | Done

  /** An operation with its reply. */
  datatype Past<P> = Past(op: Op<P>, reply: Reply<P>)

  // ---------------------------------------------------------------- what a run should have done

  function Lookup<P>(m: map<Line, P>, x: Line): Option<P> {
    if x in m then Some(m[x]) else None
  }

  function KnownAfter<P>(m: map<Line, P>, e: Past<P>): map<Line, P> {
    match e.op
    case Update(l, v, _) => if l in m then m[l := v] else m
    case Insert(l, v) => (if e.reply.Evicted? then m - {e.reply.l} else m)[l := v]
    case Erase(l) => m - {l}
    case Clear => map[]
    case _ => m
  }

  /** The lines there should be, as a plain map. */
  function Known<P>(past: seq<Past<P>>): map<Line, P> {
    if past == [] then map[] else KnownAfter(Known(past[..|past| - 1]), past[|past| - 1])
  }

  function HeldAfter<P>(m: map<Line, P>, pinned: set<Line>, op: Op<P>): set<Line> {
    match op
    case Pin(l) => if l in m then pinned + {l} else pinned
    case Unpin(l) => pinned - {l}
    case Erase(l) => pinned - {l}
    case _ => pinned
  }

  /** The lines that are pinned. */
  function Held<P>(past: seq<Past<P>>): set<Line> {
    if past == [] then {}
    else HeldAfter(Known(past[..|past| - 1]), Held(past[..|past| - 1]), past[|past| - 1].op)
  }

  /** The operation makes the line the one used last. */
  predicate Uses<P>(before: seq<Past<P>>, op: Op<P>, x: Line) {
    match op
    case Get(l, tag) => tag && l == x && l in Known(before)
    case Update(l, _, tag) => tag && l == x && l in Known(before)
    case Insert(l, _) => l == x
    case Unpin(l) => l == x && l in Held(before)
    case _ => false
  }

  /** When a line was last used; one is the first operation, zero is never. */
  function LastUsed<P>(past: seq<Past<P>>, x: Line): (t: nat)
    ensures t <= |past|
  {
    if past == [] then 0
    else if Uses(past[..|past| - 1], past[|past| - 1].op, x) then |past|
    else LastUsed(past[..|past| - 1], x)
  }

  /** The lines of a set. */
  ghost function SetOf<P>(m: map<Line, P>, i: nat, sets: nat): set<Line>
    requires sets > 0
  {
    set x | x in m && IndexOf(x, sets) == i
  }

  /** What the block should reply after a run. */
  ghost predicate Right<P>(before: seq<Past<P>>, e: Past<P>, sets: nat, ways: nat)
    requires sets > 0
  {
    var m := Known(before);
    match e.op
    case Get(l, _) => e.reply == if l in m then Found(m[l]) else Miss
    case Update(l, _, _) => e.reply == if l in m then Hit else Miss
    case Insert(l, _) =>
      var full := |SetOf(m, IndexOf(l, sets), sets)| >= ways;
      if l in m || !full then e.reply == Done
      else
        && e.reply.Evicted?
        && var x := e.reply.l;
           && x in m && m[x] == e.reply.v && IndexOf(x, sets) == IndexOf(l, sets) && x !in Held(before)
           && forall y :: y in m && IndexOf(y, sets) == IndexOf(l, sets) && y !in Held(before) && y != x ==>
                LastUsed(before, x) < LastUsed(before, y)
    case _ => e.reply == Done
  }

  ghost predicate AllRight<P>(past: seq<Past<P>>, sets: nat, ways: nat)
    requires sets > 0
  {
    forall n :: 0 <= n < |past| ==> Right(past[..n], past[n], sets, ways)
  }

  /** The operation breaks the order of the block, or is not handled by the program: a pinned line counted as used, a
      block cleared with lines pinned, or a line put into a set full of pinned ones. */
  ghost predicate Breaks<P>(before: seq<Past<P>>, op: Op<P>, sets: nat, ways: nat)
    requires sets > 0
  {
    var m, pinned := Known(before), Held(before);
    match op
    case Get(l, tag) => tag && l in pinned
    case Update(l, _, tag) => tag && l in pinned
    case Insert(l, _) =>
      l in pinned ||
      (l !in m && |SetOf(m, IndexOf(l, sets), sets)| >= ways && SetOf(m, IndexOf(l, sets), sets) <= pinned)
    case Clear => pinned != {}
    case _ => false
  }

  // ---------------------------------------------------------------- the recency lists

  /** The last used first. */
  ghost predicate Sorted<P>(lru: seq<Line>, past: seq<Past<P>>) {
    forall a, b :: 0 <= a < b < |lru| ==> LastUsed(past, lru[a]) > LastUsed(past, lru[b])
  }

  lemma LaterUse<P>(past: seq<Past<P>>, e: Past<P>, x: Line)
    ensures LastUsed(past + [e], x) == if Uses(past, e.op, x) then |past| + 1 else LastUsed(past, x)
  {
    assert (past + [e])[..|past|] == past;
  }

  lemma SortedLater<P>(lru: seq<Line>, past: seq<Past<P>>, e: Past<P>)
    requires Sorted(lru, past) && forall x :: x in lru ==> !Uses(past, e.op, x)
    ensures Sorted(lru, past + [e])
  {
    hide LastUsed, Uses;
    forall a, b | 0 <= a < b < |lru|
      ensures LastUsed(past + [e], lru[a]) > LastUsed(past + [e], lru[b])
    {
      LaterUse(past, e, lru[a]);
      LaterUse(past, e, lru[b]);
    }
  }

  lemma SortedUsed<P>(lru: seq<Line>, l: Line, past: seq<Past<P>>, e: Past<P>)
    requires Sorted(lru, past) && Uses(past, e.op, l) && forall x :: x in lru ==> !Uses(past, e.op, x)
    ensures Sorted([l] + lru, past + [e])
  {
    hide LastUsed, Uses;
    SortedLater(lru, past, e);
    var r := [l] + lru;
    forall a, b | 0 <= a < b < |r|
      ensures LastUsed(past + [e], r[a]) > LastUsed(past + [e], r[b])
    {
      assert r[b] == lru[b - 1] && r[b] in lru;
      LaterUse(past, e, l);
      LaterUse(past, e, r[b]);
      if a > 0 {
        assert r[a] == lru[a - 1];
      }
    }
  }

  lemma SortedLess<P>(lru: seq<Line>, l: Line, past: seq<Past<P>>)
    requires Sorted(lru, past)
    ensures Sorted(Remove(lru, l), past)
  {
    hide LastUsed, Remove;
    var r := Remove(lru, l);
    forall a, b | 0 <= a < b < |r|
      ensures LastUsed(past, r[a]) > LastUsed(past, r[b])
    {
      var x, y := RemoveOrder(lru, l, a, b);
    }
  }

  // ---------------------------------------------------------------- the block and what it should be

  /** The block is in order, holds what it should, and lists it by last use. */
  ghost predicate Agrees<P>(
    sets: seq<map<Line, P>>, lrus: seq<seq<Line>>, pinned: set<Line>, past: seq<Past<P>>, ways: nat)
    requires |sets| == |lrus| > 0
  {
    && (forall i :: 0 <= i < |sets| ==> SetOk(sets[i], lrus[i], pinned, i, |sets|, ways))
    && (forall x :: x in Known(past) <==> x in sets[IndexOf(x, |sets|)])
    && (forall x :: x in Known(past) ==> Known(past)[x] == sets[IndexOf(x, |sets|)][x])
    && pinned == Held(past)
    && (forall i :: 0 <= i < |sets| ==> Sorted(lrus[i], past))
  }

  ghost predicate BlockAgrees<P>(block: GenericLRUCacheBlock<P>, past: seq<Past<P>>, ways: nat)
    reads block
  {
    && block.Valid() && block.linePerSet == ways
    && Agrees(block.sets, block.lrus, block.pinned, past, ways)
  }

  /** What a set holds, seen from the plain map. */
  lemma SetIs<P>(
    sets: seq<map<Line, P>>, lrus: seq<seq<Line>>, pinned: set<Line>, past: seq<Past<P>>, ways: nat, i: nat)
    requires |sets| == |lrus| > 0 && Agrees(sets, lrus, pinned, past, ways) && i < |sets|
    ensures SetOf(Known(past), i, |sets|) == sets[i].Keys && |SetOf(Known(past), i, |sets|)| == |sets[i]| <= ways
    ensures forall x :: x in lrus[i] <==> x in SetOf(Known(past), i, |sets|) && x !in pinned
    ensures NoRepeats(lrus[i]) && Sorted(lrus[i], past)
  {
    hide Known, Held, Sorted, IndexOf, NoRepeats;
    assert SetOk(sets[i], lrus[i], pinned, i, |sets|, ways);
    assert |sets[i]| == |sets[i].Keys|;
  }

  /** Only lines of its own set are used by an operation on a line. */
  lemma OthersLater<P>(
    sets: seq<map<Line, P>>, lrus: seq<seq<Line>>, pinned: set<Line>, past: seq<Past<P>>, ways: nat, e: Past<P>,
    l: Line, i: nat)
    requires |sets| == |lrus| > 0 && Agrees(sets, lrus, pinned, past, ways) && i < |sets|
    requires (forall x :: Uses(past, e.op, x) ==> x == l) && (IndexOf(l, |sets|) != i || !Uses(past, e.op, l))
    ensures Sorted(lrus[i], past + [e])
  {
    hide Known, Held, LastUsed, IndexOf, NoRepeats, Uses;
    SetIs(sets, lrus, pinned, past, ways, i);
    SortedLater(lrus[i], past, e);
  }

  lemma OneMore<P>(past: seq<Past<P>>, e: Past<P>)
    ensures Known(past + [e]) == KnownAfter(Known(past), e)
    ensures Held(past + [e]) == HeldAfter(Known(past), Held(past), e.op)
  {
    assert (past + [e])[..|past|] == past;
  }

  // ---------------------------------------------------------------- one operation

  /** The operation used at most line `l`, and changed the list of its set to one in order. */
  ghost predicate OneSet<P>(before: seq<seq<Line>>, after: seq<seq<Line>>, past: seq<Past<P>>, e: Past<P>, l: Line)
    requires |before| > 0
  {
    && (forall x :: Uses(past, e.op, x) ==> x == l)
    && |after| == |before| && after == before[IndexOf(l, |before|) := after[IndexOf(l, |before|)]]
    && Sorted(after[IndexOf(l, |before|)], past + [e])
  }

  /** The rest of the block follows. */
  lemma AgreesAfter<P>(
    sets: seq<map<Line, P>>, lrus: seq<seq<Line>>, pinned: set<Line>, past: seq<Past<P>>, ways: nat,
    block: GenericLRUCacheBlock<P>, e: Past<P>, l: Line)
    requires |sets| == |lrus| == block.setCount > 0 && Agrees(sets, lrus, pinned, past, ways)
    requires block.Valid() && block.linePerSet == ways && block.pinned == HeldAfter(Known(past), pinned, e.op)
    requires OneSet(lrus, block.lrus, past, e, l)
    requires forall x :: block.Get(x) == Lookup(KnownAfter(Known(past), e), x)
    ensures BlockAgrees(block, past + [e], ways)
  {
    hide Known, Held, KnownAfter, HeldAfter, Uses, LastUsed, SetOk, IndexOf, Sorted;
    OneMore(past, e);
    var after := Known(past + [e]);
    forall x
      ensures x in after <==> x in block.sets[IndexOf(x, block.setCount)]
      ensures x in after ==> after[x] == block.sets[IndexOf(x, block.setCount)][x]
    {
      assert block.Get(x) == Lookup(after, x);
    }
    forall i | 0 <= i < block.setCount
      ensures Sorted(block.lrus[i], past + [e])
    {
      if i != IndexOf(l, block.setCount) {
        OthersLater(sets, lrus, pinned, past, ways, e, l, i);
      }
    }
  }

  method DoGet<P>(block: GenericLRUCacheBlock<P>, ghost past: seq<Past<P>>, l: Line, tag: bool) returns (e: Past<P>)
    requires BlockAgrees(block, past, block.linePerSet)
    requires !Breaks(past, Get(l, tag), block.setCount, block.linePerSet)
    modifies block
    ensures e.op == Get(l, tag) && Right(past, e, block.setCount, block.linePerSet)
    ensures BlockAgrees(block, past + [e], block.linePerSet)
  {
    hide Known, Held, LastUsed, SetOk, IndexOf, Sorted, Remove, NoRepeats;
    ghost var sets, lrus, pinned := block.sets, block.lrus, block.pinned;
    ghost var i := IndexOf(l, block.setCount);
    SetIs(sets, lrus, pinned, past, block.linePerSet, i);
    var r := block.GetLine(l, tag);
    e := Past(Get(l, tag), if r.Some? then Found(r.value) else Miss);
    if r.Some? && tag {
      SortedFront(lrus[i], l, past, e);
    } else {
      SortedLater(lrus[i], past, e);
    }
    AgreesAfter(sets, lrus, pinned, past, block.linePerSet, block, e, l);
  }

  lemma SortedFront<P>(lru: seq<Line>, l: Line, past: seq<Past<P>>, e: Past<P>)
    requires Sorted(lru, past) && forall x :: Uses(past, e.op, x) <==> x == l
    ensures Sorted(Front(lru, l), past + [e])
  {
    hide LastUsed, Uses, Sorted;
    SortedLess(lru, l, past);
    SortedUsed(Remove(lru, l), l, past, e);
  }

  method DoUpdate<P>(block: GenericLRUCacheBlock<P>, ghost past: seq<Past<P>>, l: Line, v: P, tag: bool)
    returns (e: Past<P>)
    requires BlockAgrees(block, past, block.linePerSet)
    requires !Breaks(past, Update(l, v, tag), block.setCount, block.linePerSet)
    modifies block
    ensures e.op == Update(l, v, tag) && Right(past, e, block.setCount, block.linePerSet)
    ensures BlockAgrees(block, past + [e], block.linePerSet)
  {
    hide Known, Held, LastUsed, SetOk, IndexOf, Sorted, Remove, NoRepeats;
    ghost var sets, lrus, pinned := block.sets, block.lrus, block.pinned;
    ghost var i := IndexOf(l, block.setCount);
    SetIs(sets, lrus, pinned, past, block.linePerSet, i);
    var hit := block.UpdateLine(l, v, tag);
    e := Past(Update(l, v, tag), if hit then Hit else Miss);
    if hit && tag {
      SortedFront(lrus[i], l, past, e);
    } else {
      SortedLater(lrus[i], past, e);
    }
    AgreesAfter(sets, lrus, pinned, past, block.linePerSet, block, e, l);
  }

  method DoErase<P>(block: GenericLRUCacheBlock<P>, ghost past: seq<Past<P>>, l: Line) returns (e: Past<P>)
    requires BlockAgrees(block, past, block.linePerSet)
    modifies block
    ensures e.op == Erase(l) && Right(past, e, block.setCount, block.linePerSet)
    ensures BlockAgrees(block, past + [e], block.linePerSet)
  {
    hide Known, Held, LastUsed, SetOk, IndexOf, Sorted, Remove, NoRepeats;
    ghost var sets, lrus, pinned := block.sets, block.lrus, block.pinned;
    ghost var i := IndexOf(l, block.setCount);
    SetIs(sets, lrus, pinned, past, block.linePerSet, i);
    block.RemoveLine(l);
    e := Past(Erase(l), Done);
    SortedLess(lrus[i], l, past);
    SortedLater(Remove(lrus[i], l), past, e);
    AgreesAfter(sets, lrus, pinned, past, block.linePerSet, block, e, l);
  }

  method DoPin<P>(block: GenericLRUCacheBlock<P>, ghost past: seq<Past<P>>, l: Line) returns (e: Past<P>)
    requires BlockAgrees(block, past, block.linePerSet)
    modifies block
    ensures e.op == Pin(l) && Right(past, e, block.setCount, block.linePerSet)
    ensures BlockAgrees(block, past + [e], block.linePerSet)
  {
    hide Known, Held, LastUsed, SetOk, IndexOf, Sorted, Remove, EraseFirst, NoRepeats;
    ghost var sets, lrus, pinned := block.sets, block.lrus, block.pinned;
    ghost var i := IndexOf(l, block.setCount);
    SetIs(sets, lrus, pinned, past, block.linePerSet, i);
    block.Pin(l);
    e := Past(Pin(l), Done);
    EraseIsRemove(lrus[i], l);
    SortedLess(lrus[i], l, past);
    SortedLater(Remove(lrus[i], l), past, e);
    AgreesAfter(sets, lrus, pinned, past, block.linePerSet, block, e, l);
  }

  method DoUnpin<P>(block: GenericLRUCacheBlock<P>, ghost past: seq<Past<P>>, l: Line) returns (e: Past<P>)
    requires BlockAgrees(block, past, block.linePerSet)
    modifies block
    ensures e.op == Unpin(l) && Right(past, e, block.setCount, block.linePerSet)
    ensures BlockAgrees(block, past + [e], block.linePerSet)
  {
    hide Known, Held, LastUsed, SetOk, IndexOf, Sorted, Remove, NoRepeats;
    ghost var sets, lrus, pinned := block.sets, block.lrus, block.pinned;
    ghost var i := IndexOf(l, block.setCount);
    SetIs(sets, lrus, pinned, past, block.linePerSet, i);
    block.Unpin(l);
    e := Past(Unpin(l), Done);
    if l in pinned {
      SortedUsed(lrus[i], l, past, e);
    } else {
      SortedLater(lrus[i], past, e);
    }
    AgreesAfter(sets, lrus, pinned, past, block.linePerSet, block, e, l);
  }

  method DoClear<P>(block: GenericLRUCacheBlock<P>, ghost past: seq<Past<P>>) returns (e: Past<P>)
    requires BlockAgrees(block, past, block.linePerSet)
    requires !Breaks(past, Op<P>.Clear, block.setCount, block.linePerSet)
    modifies block
    ensures e.op == Clear && Right(past, e, block.setCount, block.linePerSet)
    ensures BlockAgrees(block, past + [e], block.linePerSet)
  {
    hide Known, Held, LastUsed, SetOk, IndexOf, Remove, NoRepeats;
    block.Clear();
    e := Past(Op<P>.Clear, Done);
    OneMore(past, e);
  }

  /** The last listed line is the one used longest ago of those not pinned. */
  lemma LastIsOldest<P>(
    sets: seq<map<Line, P>>, lrus: seq<seq<Line>>, pinned: set<Line>, past: seq<Past<P>>, ways: nat, i: nat)
    requires |sets| == |lrus| > 0 && Agrees(sets, lrus, pinned, past, ways) && i < |sets| && lrus[i] != []
    ensures var x := lrus[i][|lrus[i]| - 1];
      && x in SetOf(Known(past), i, |sets|) && x !in pinned
      && forall y :: y in SetOf(Known(past), i, |sets|) && y !in pinned && y != x ==>
           LastUsed(past, x) < LastUsed(past, y)
  {
    hide Known, Held, LastUsed, IndexOf, NoRepeats, SetOf;
    SetIs(sets, lrus, pinned, past, ways, i);
    var lru := lrus[i];
    assert lru[|lru| - 1] in lru;
    forall y | y in SetOf(Known(past), i, |sets|) && y !in pinned && y != lru[|lru| - 1]
      ensures LastUsed(past, lru[|lru| - 1]) < LastUsed(past, y)
    {
      assert y in lru;
      var k :| 0 <= k < |lru| && lru[k] == y;
    }
  }

  /** An insertion that breaks nothing finds room or a line to evict. */
  lemma InsertCan<P>(
    sets: seq<map<Line, P>>, lrus: seq<seq<Line>>, pinned: set<Line>, past: seq<Past<P>>, ways: nat, l: Line, v: P)
    requires |sets| == |lrus| > 0 && Agrees(sets, lrus, pinned, past, ways)
    requires !Breaks(past, Insert(l, v), |sets|, ways)
    ensures var i := IndexOf(l, |sets|); var lru := lrus[i];
      && l !in pinned
      && (l in sets[i] || |sets[i]| < ways || (lru != [] && lru[|lru| - 1] in sets[i]))
  {
    hide Known, Held, Sorted, IndexOf, NoRepeats, SetOk;
    var i := IndexOf(l, |sets|);
    SetIs(sets, lrus, pinned, past, ways, i);
    var lru := lrus[i];
    if l !in sets[i] && |sets[i]| >= ways {
      assert !(SetOf(Known(past), i, |sets|) <= pinned);
      var y :| y in SetOf(Known(past), i, |sets|) && y !in pinned;
      assert y in lru;
      assert lru[|lru| - 1] in lru;
    }
  }

  /** What is evicted is right. */
  lemma EvictsRight<P>(
    sets: seq<map<Line, P>>, lrus: seq<seq<Line>>, pinned: set<Line>, past: seq<Past<P>>, ways: nat, e: Past<P>)
    requires |sets| == |lrus| > 0 && Agrees(sets, lrus, pinned, past, ways) && e.op.Insert?
    requires var i := IndexOf(e.op.l, |sets|); var lru := lrus[i];
      if e.op.l in sets[i] || |sets[i]| < ways then e.reply == Done
      else lru != [] && lru[|lru| - 1] in sets[i] && e.reply == Evicted(lru[|lru| - 1], sets[i][lru[|lru| - 1]])
    ensures Right(past, e, |sets|, ways)
  {
    hide Known, Held, LastUsed, IndexOf, NoRepeats, Sorted, SetOk;
    var i := IndexOf(e.op.l, |sets|);
    SetIs(sets, lrus, pinned, past, ways, i);
    if lrus[i] != [] {
      LastIsOldest(sets, lrus, pinned, past, ways, i);
    }
  }

  method DoInsert<P>(block: GenericLRUCacheBlock<P>, ghost past: seq<Past<P>>, l: Line, v: P) returns (e: Past<P>)
    requires BlockAgrees(block, past, block.linePerSet)
    requires !Breaks(past, Insert(l, v), block.setCount, block.linePerSet)
    modifies block
    ensures e.op == Insert(l, v) && Right(past, e, block.setCount, block.linePerSet)
    ensures BlockAgrees(block, past + [e], block.linePerSet)
  {
    hide Known, Held, LastUsed, SetOk, IndexOf, Sorted, Remove, NoRepeats, Breaks, Right, SetOf;
    ghost var sets, lrus, pinned := block.sets, block.lrus, block.pinned;
    ghost var lru := lrus[IndexOf(l, block.setCount)];
    InsertCan(sets, lrus, pinned, past, block.linePerSet, l, v);
    var replaced := block.InsertLine(l, v);
    e := Past(Insert(l, v), match replaced case None => Done case Some(x) => Evicted(x.0, x.1));
    EvictsRight(sets, lrus, pinned, past, block.linePerSet, e);
    SetIs(sets, lrus, pinned, past, block.linePerSet, IndexOf(l, block.setCount));
    if replaced.Some? {
      SortedLess(lru, replaced.value.0, past);
      SortedFront(Remove(lru, replaced.value.0), l, past, e);
    } else {
      SortedFront(lru, l, past, e);
    }
    AgreesAfter(sets, lrus, pinned, past, block.linePerSet, block, e, l);
  }

  // ---------------------------------------------------------------- runs

  method Stops<P>(block: GenericLRUCacheBlock<P>, ghost past: seq<Past<P>>, op: Op<P>) returns (b: bool)
    requires BlockAgrees(block, past, block.linePerSet)
    ensures b <==> Breaks(past, op, block.setCount, block.linePerSet)
  {
    hide Known, Held, SetOk, IndexOf, Sorted, NoRepeats;
    match op
    case Get(l, tag) => b := tag && l in block.pinned;
    case Update(l, _, tag) => b := tag && l in block.pinned;
    case Insert(l, _) =>
      var i := IndexOf(l, block.setCount);
      SetIs(block.sets, block.lrus, block.pinned, past, block.linePerSet, i);
      b := l in block.pinned || (l !in block.sets[i] && |block.sets[i]| >= block.linePerSet && block.lrus[i] == []);
      if block.lrus[i] != [] {
        assert block.lrus[i][0] in block.lrus[i];
      }
    case Clear => b := block.pinned != {};
    case _ => b := false;
  }

  method Do<P>(block: GenericLRUCacheBlock<P>, ghost past: seq<Past<P>>, op: Op<P>) returns (e: Past<P>)
    requires BlockAgrees(block, past, block.linePerSet) && !Breaks(past, op, block.setCount, block.linePerSet)
    modifies block
    ensures e.op == op && Right(past, e, block.setCount, block.linePerSet)
    ensures BlockAgrees(block, past + [e], block.linePerSet)
  {
    hide BlockAgrees, Breaks, Right;
    match op
    case Get(l, tag) => e := DoGet(block, past, l, tag);
    case Update(l, v, tag) => e := DoUpdate(block, past, l, v, tag);
    case Insert(l, v) => e := DoInsert(block, past, l, v);
    case Erase(l) => e := DoErase(block, past, l);
    case Pin(l) => e := DoPin(block, past, l);
    case Unpin(l) => e := DoUnpin(block, past, l);
    case Clear => e := DoClear(block, past);
  }

  /** Any sequence of operations on a new block, up to the first that would put it out of order or that the program
      does not handle. Every reply is right: lookups are those of a plain map less what was removed and evicted; a
      line is evicted only from a full set, it is not pinned, and of all such lines it was used longest ago. In the end
      the block holds just the lines of the map, and no set has more than there are ways. */
  method Perform<P>(ops: seq<Op<P>>, setAddrOffset: nat, ways: nat)
    returns (block: GenericLRUCacheBlock<P>, past: seq<Past<P>>)
    ensures fresh(block) && block.Valid() && block.setCount == Pow2(setAddrOffset)
    ensures |past| <= |ops| && forall n :: 0 <= n < |past| ==> past[n].op == ops[n]
    ensures AllRight(past, block.setCount, ways)
    ensures |past| < |ops| ==> Breaks(past, ops[|past|], block.setCount, ways)
    ensures forall x :: block.Get(x) == Lookup(Known(past), x)
    ensures block.pinned == Held(past)
    ensures forall i :: 0 <= i < block.setCount ==> |SetOf(Known(past), i, block.setCount)| <= ways
  {
    hide Known, Held, Breaks, Right, BlockAgrees, SetOf;
    block := new GenericLRUCacheBlock(setAddrOffset, ways);
    past := [];
    NewAgrees(block, ways);
    while |past| < |ops|
      invariant fresh(block) && BlockAgrees(block, past, ways)
      invariant block.setCount == Pow2(setAddrOffset) && block.linePerSet == ways
      invariant |past| <= |ops| && forall n :: 0 <= n < |past| ==> past[n].op == ops[n]
      invariant AllRight(past, block.setCount, ways)
      decreases |ops| - |past|
    {
      var stop := Stops(block, past, ops[|past|]);
      if stop {
        break;
      }
      var e := Do(block, past, ops[|past|]);
      RightMore(past, e, block.setCount, ways);
      past := past + [e];
    }
    Shown(block, past, ways);
  }

  lemma RightMore<P>(past: seq<Past<P>>, e: Past<P>, sets: nat, ways: nat)
    requires sets > 0 && AllRight(past, sets, ways) && Right(past, e, sets, ways)
    ensures AllRight(past + [e], sets, ways)
  {
    hide Right;
    var r := past + [e];
    forall n | 0 <= n < |r|
      ensures Right(r[..n], r[n], sets, ways)
    {
      if n < |past| {
        assert r[..n] == past[..n] && r[n] == past[n];
      } else {
        assert r[..n] == past;
      }
    }
  }

  lemma NewAgrees<P>(block: GenericLRUCacheBlock<P>, ways: nat)
    requires block.Valid() && block.linePerSet == ways && block.pinned == {}
    requires forall i :: 0 <= i < block.setCount ==> block.sets[i] == map[] && block.lrus[i] == []
    ensures BlockAgrees(block, [], ways)
  {
    hide SetOk, IndexOf;
  }

  lemma Shown<P>(block: GenericLRUCacheBlock<P>, past: seq<Past<P>>, ways: nat)
    requires BlockAgrees(block, past, ways)
    ensures block.Valid() && block.pinned == Held(past)
    ensures forall x :: block.Get(x) == Lookup(Known(past), x)
    ensures forall i :: 0 <= i < block.setCount ==> |SetOf(Known(past), i, block.setCount)| <= ways
  {
    hide Known, Held, SetOk, IndexOf, Sorted, SetOf;
    forall i | 0 <= i < block.setCount
      ensures |SetOf(Known(past), i, block.setCount)| <= ways
    {
      SetIs(block.sets, block.lrus, block.pinned, past, ways, i);
    }
  }

  // ---------------------------------------------------------------- how many lines fit

  /** The lines of the same set that come before `l`, at most `m` of them. */
  ghost function Before(l: Line, sets: nat, m: nat): set<Line> {
    if m == 0 then {} else Before(l, sets, m - 1) + if sets * m <= l then {l - sets * m} else {}
  }

  lemma {:induction false} BeforeSize(l: Line, sets: nat, m: nat)
    ensures |Before(l, sets, m)| <= m
  {
    if m > 0 {
      BeforeSize(l, sets, m - 1);
    }
  }

  lemma {:induction false} BeforeHas(l: Line, sets: nat, m: nat, j: nat)
    requires 0 < j <= m && sets * j <= l
    ensures l - sets * j in Before(l, sets, m)
  {
    if j < m {
      BeforeHas(l, sets, m - 1, j);
    }
  }

  /** Of fewer consecutive lines than there are places, fewer than `ways` fall into the set of the next one. */
  lemma RoomLeft(held: set<Line>, from: Line, n: nat, sets: nat, ways: nat)
    requires sets > 0 && n < sets * ways
    requires forall x :: x in held ==> from <= x < from + n && IndexOf(x, sets) == IndexOf(from + n, sets)
    ensures |held| < ways
  {
    hide IndexOf;
    var l := from + n;
    var m: nat := ways - 1;
    forall x | x in held
      ensures x in Before(l, sets, m)
    {
      SameSet(l, x, sets);
      DivBounds(l - x, sets);
      var j := (l - x) / sets;
      if j >= ways {
        MulMono(ways, j, sets);
      }
      BeforeHas(l, sets, m, j);
    }
    BeforeSize(l, sets, m);
    Subset(held, Before(l, sets, m));
  }

  lemma {:induction false} Subset<T>(a: set<T>, b: set<T>)
    requires a <= b
    ensures |a| <= |b|
  {
    if x :| x in a {
      Subset(a - {x}, b - {x});
    }
  }

  /** Any row of consecutive lines fits a new block, as long as it is no longer than the block has places: nothing is
      evicted, and all of them are found, and nothing else. */
  method FillBlock<P>(from: Line, vs: seq<P>, setAddrOffset: nat, ways: nat)
    returns (block: GenericLRUCacheBlock<P>, evictions: nat)
    requires |vs| <= Pow2(setAddrOffset) * ways
    ensures fresh(block) && block.Valid() && evictions == 0
    ensures forall x: Line :: block.Get(x) == if from <= x < from + |vs| then Some(vs[x - from]) else None
  {
    hide SetOk, IndexOf;
    block := new GenericLRUCacheBlock(setAddrOffset, ways);
    evictions := 0;
    var n: nat := 0;
    while n < |vs|
      invariant n <= |vs| && fresh(block) && block.Valid() && block.pinned == {} && evictions == 0
      invariant block.setCount == Pow2(setAddrOffset) && block.linePerSet == ways
      invariant forall x: Line :: block.Get(x) == if from <= x < from + n then Some(vs[x - from]) else None
    {
      ghost var i := IndexOf(from + n, block.setCount);
      forall x | x in block.sets[i]
        ensures from <= x < from + n && IndexOf(x, block.setCount) == i
      {
        assert block.Get(x).Some?;
      }
      RoomLeft(block.sets[i].Keys, from, n, block.setCount, ways);
      assert |block.sets[i]| == |block.sets[i].Keys|;
      var replaced := block.InsertLine(from + n, vs[n]);
      evictions := evictions + if replaced.Some? then 1 else 0;
      n := n + 1;
    }
  }
}

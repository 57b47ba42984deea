/** The tick queue as three lists: the commented-out version in src/tickqueue.h, and runs of it over any number of
    queues. */
module TickLists {
  import opened Arithmetic

  // ---------------------------------------------------------------- the three lists

  /** What can be popped now, what waits in the queue, and what was pushed this tick. */
  datatype Lists<T> = Lists(pop: seq<T>, q: seq<T>, push: seq<T>) {
    function All(): seq<T> { pop + q + push }
  }

  /** Moves from the front of one list to the end of another, as long as the other has room. */
  function Move<T>(from: seq<T>, to: seq<T>, room: nat): (seq<T>, seq<T>)
    decreases |from|
  {
    if |to| < room && from != [] then Move(from[1..], to + [from[0]], room) else (from, to)
  }

  /** apply_next_tick of the list version: three moving loops, two of them only with a queue. */
  function ApplyLists<T>(l: Lists<T>, owid: nat, qsize: nat): Lists<T> {
    var (q, pop) := if qsize > 0 then Move(l.q, l.pop, owid) else (l.q, l.pop);
    var (push, pop') := Move(l.push, pop, owid);
    var (push', q') := if qsize > 0 then Move(push, q, qsize) else (push, q);
    Lists(pop', q', push')
  }

  lemma {:induction false} MoveIs<T>(from: seq<T>, to: seq<T>, room: nat)
    requires |to| <= room
    ensures var k := Min(room - |to|, |from|); Move(from, to, room) == (from[k..], to + from[..k])
    decreases |from|
  {
    if |to| < room && from != [] {
      MoveIs(from[1..], to + [from[0]], room);
      var k := Min(room - |to|, |from|);
      assert from[1..][k - 1..] == from[k..];
      assert from[..k] == [from[0]] + from[1..][..k - 1];
      assert (to + [from[0]]) + from[1..][..k - 1] == to + from[..k];
    } else {
      assert from[0..] == from && to + from[..0] == to;
    }
  }

  lemma MoveKeeps<T>(from: seq<T>, to: seq<T>, room: nat)
    requires |to| <= room
    ensures var (f, t) := Move(from, to, room);
      && t + f == to + from && to <= t && |t| <= room && |f| <= |from|
      && (|t| < room ==> f == []) && (|to| == room ==> (f, t) == (from, to))
  {
    MoveIs(from, to, room);
    var k := Min(room - |to|, |from|);
    assert (to + from[..k]) + from[k..] == to + from;
  }

  lemma Join3<T>(a: seq<T>, b: seq<T>, c: seq<T>)
    ensures a + b + c == a + (b + c)
  {
  }

  /** Nothing is lost, made up or overtaken in a tick: the order of all elements stays. */
  lemma ApplyKeepsOrder<T>(l: Lists<T>, owid: nat, qsize: nat)
    requires |l.pop| <= owid && |l.q| <= qsize
    ensures ApplyLists(l, owid, qsize).All() == l.All()
    ensures |ApplyLists(l, owid, qsize).pop| <= owid && |ApplyLists(l, owid, qsize).q| <= qsize
    ensures l.pop <= ApplyLists(l, owid, qsize).pop
  {
    hide Move;
    MoveKeeps(l.q, l.pop, owid);
    var (q, pop) := if qsize > 0 then Move(l.q, l.pop, owid) else (l.q, l.pop);
    MoveKeeps(l.push, pop, owid);
    var (push, pop') := Move(l.push, pop, owid);
    MoveKeeps(push, q, qsize);
    var (push', q') := if qsize > 0 then Move(push, q, qsize) else (push, q);
    assert pop + q == l.pop + l.q;
    Join3(pop', q', push');
    Join3(pop', q, push);
    assert pop' + q + push == pop + q + l.push by {
      if q == [] {
        assert pop' + q == pop' && pop + q == pop;
      } else {
        assert |pop| == owid && pop' == pop && push == l.push;
      }
    }
  }

  /** As much as possible moves up: a tick leaves room ahead only when nothing is waiting behind. */
  lemma ApplyMovesAll<T>(l: Lists<T>, owid: nat, qsize: nat)
    requires |l.pop| <= owid && |l.q| <= qsize
    ensures var r := ApplyLists(l, owid, qsize);
      && (|r.pop| < owid ==> r.q == [] && r.push == [])
      && (|r.q| < qsize ==> r.push == [])
  {
    hide Move;
    MoveKeeps(l.q, l.pop, owid);
    var (q, pop) := if qsize > 0 then Move(l.q, l.pop, owid) else (l.q, l.pop);
    MoveKeeps(l.push, pop, owid);
    var (push, pop') := Move(l.push, pop, owid);
    MoveKeeps(push, q, qsize);
  }

  /** What a tick leaves where: the output is filled from the oldest on, and then the queue. With the order kept, this
      is all there is to say of it. */
  lemma TickFills<T>(l: Lists<T>, owid: nat, qsize: nat)
    requires |l.pop| <= owid && |l.q| <= qsize
    ensures var r, all := ApplyLists(l, owid, qsize), l.All();
      var a, b := Min(owid, |all|), Min(qsize, |all| - Min(owid, |all|));
      r == Lists(all[..a], all[a..a + b], all[a + b..])
  {
    hide ApplyLists;
    ApplyKeepsOrder(l, owid, qsize);
    ApplyMovesAll(l, owid, qsize);
    var r := ApplyLists(l, owid, qsize);
    assert l.All() == r.pop + r.q + r.push;
  }

  lemma ApplyPushShrinks<T>(l: Lists<T>, owid: nat, qsize: nat)
    requires |l.pop| <= owid && |l.q| <= qsize
    ensures |ApplyLists(l, owid, qsize).push| <= |l.push|
  {
    hide Move;
    var (q, pop) := if qsize > 0 then Move(l.q, l.pop, owid) else (l.q, l.pop);
    MoveKeeps(l.q, l.pop, owid);
    MoveKeeps(l.push, pop, owid);
    MoveKeeps(Move(l.push, pop, owid).0, q, qsize);
  }

  // ---------------------------------------------------------------- runs over any number of queues

  datatype Sizes = Sizes(iwid: nat, owid: nat, qsize: nat)

  /** What the users of queues do. A push or a pass may be refused; a pop of nothing does not happen. */
  datatype Op<T> =
    | PushOp(i: nat, v: T)
    | PopOp(i: nat)
    | TickOp(i: nat)
    | PassOp(i: nat, j: nat, cnt: nat)
    | ClearOp(i: nat)

  /** A queue, with all that it has taken in and all that has left it. */
  datatype Logged<T> = Logged(lists: Lists<T>, accepted: seq<T>, gone: seq<T>)

  function Give<T>(l: Logged<T>, xs: seq<T>): Logged<T> {
    l.(lists := l.lists.(push := l.lists.push + xs), accepted := l.accepted + xs)
  }

  function Take<T>(l: Logged<T>, n: nat): Logged<T>
    requires n <= |l.lists.pop|
  {
    l.(lists := l.lists.(pop := l.lists.pop[n..]), gone := l.gone + l.lists.pop[..n])
  }

  /** The condition of the program's pass_to. */
  predicate CanPass<T>(t: seq<Logged<T>>, i: nat, j: nat, cnt: nat, sz: seq<Sizes>) {
    i < |t| && j < |t| && j < |sz| && cnt <= |t[i].lists.pop| && |t[j].lists.push| + cnt <= sz[j].iwid
  }

  function StepOp<T>(t: seq<Logged<T>>, op: Op<T>, sz: seq<Sizes>): (r: seq<Logged<T>>)
    requires |t| == |sz|
    ensures |r| == |sz|
  {
    match op
    case PushOp(i, v) => if i < |t| && |t[i].lists.push| < sz[i].iwid then t[i := Give(t[i], [v])] else t
    case PopOp(i) => if i < |t| && t[i].lists.pop != [] then t[i := Take(t[i], 1)] else t
    case TickOp(i) =>
      if i < |t| then t[i := t[i].(lists := ApplyLists(t[i].lists, sz[i].owid, sz[i].qsize))] else t
    case PassOp(i, j, cnt) =>
      if CanPass(t, i, j, cnt, sz) then
        var r := t[i := Take(t[i], cnt)];
        r[j := Give(r[j], t[i].lists.pop[..cnt])]
      else t
    case ClearOp(i) =>
      if i < |t| then t[i := Logged(Lists([], [], []), t[i].accepted, t[i].gone + t[i].lists.All())] else t
  }

  /** What each operation takes in and gives out: a push as long as the width is not used up, a pop whenever there is
      something to pop, a pass all or nothing, exactly when there is enough on one side and room on the other. */
  lemma OpExactly<T>(t: seq<Logged<T>>, op: Op<T>, sz: seq<Sizes>)
    requires |t| == |sz| && op.i < |t| && (op.PassOp? ==> op.j < |t|)
    ensures var r := StepOp(t, op, sz);
      match op
      case PushOp(i, v) => r[i].accepted == t[i].accepted + if |t[i].lists.push| < sz[i].iwid then [v] else []
      case PopOp(i) => r[i].gone == t[i].gone + if t[i].lists.pop != [] then [t[i].lists.pop[0]] else []
      case TickOp(i) => r[i].accepted == t[i].accepted && r[i].gone == t[i].gone
      case PassOp(i, j, cnt) =>
        var all := cnt <= |t[i].lists.pop| && |t[j].lists.push| + cnt <= sz[j].iwid;
        && r[i].gone == t[i].gone + (if all then t[i].lists.pop[..cnt] else [])
        && r[j].accepted == t[j].accepted + (if all then t[i].lists.pop[..cnt] else [])
      case ClearOp(i) => r[i].gone == t[i].gone + t[i].lists.All() && r[i].lists.All() == []
  {
    hide ApplyLists;
    var x := t[op.i];
    assert x.accepted + [] == x.accepted && x.gone + [] == x.gone;
    if op.PassOp? {
      assert t[op.j].accepted + [] == t[op.j].accepted;
    }
  }

  function RunOps<T>(ops: seq<Op<T>>, sz: seq<Sizes>): (r: seq<Logged<T>>)
    ensures |r| == |sz|
  {
    if ops == [] then seq(|sz|, _ => Logged(Lists([], [], []), [], []))
    else StepOp(RunOps(ops[..|ops| - 1], sz), ops[|ops| - 1], sz)
  }

  /** What came in is what left followed by what is inside, in order; and no region outgrows its width. */
  ghost predicate InLine<T>(l: Logged<T>, sz: Sizes) {
    && l.accepted == l.gone + l.lists.All()
    && |l.lists.pop| <= sz.owid && |l.lists.q| <= sz.qsize && |l.lists.push| <= sz.iwid
  }

  lemma GiveKeeps<T>(l: Logged<T>, xs: seq<T>, sz: Sizes)
    requires InLine(l, sz) && |l.lists.push| + |xs| <= sz.iwid
    ensures InLine(Give(l, xs), sz)
  {
    var x := l.lists;
    assert l.gone + (x.pop + x.q + (x.push + xs)) == (l.gone + (x.pop + x.q + x.push)) + xs;
  }

  lemma TakeKeeps<T>(l: Logged<T>, n: nat, sz: Sizes)
    requires InLine(l, sz) && n <= |l.lists.pop|
    ensures InLine(Take(l, n), sz)
  {
    var x := l.lists;
    assert x.pop == x.pop[..n] + x.pop[n..];
    assert (l.gone + x.pop[..n]) + (x.pop[n..] + x.q + x.push) == l.gone + (x.pop + x.q + x.push);
  }

  lemma TickKeeps<T>(l: Logged<T>, sz: Sizes)
    requires InLine(l, sz)
    ensures InLine(l.(lists := ApplyLists(l.lists, sz.owid, sz.qsize)), sz)
  {
    hide ApplyLists;
    ApplyKeepsOrder(l.lists, sz.owid, sz.qsize);
    ApplyPushShrinks(l.lists, sz.owid, sz.qsize);
  }

  lemma ClearKeeps<T>(l: Logged<T>, sz: Sizes)
    requires InLine(l, sz)
    ensures InLine(Logged(Lists([], [], []), l.accepted, l.gone + l.lists.All()), sz)
  {
    var none: seq<T> := [];
    assert none + none + none == none;
    assert l.accepted + none == l.accepted;
  }

  lemma StepOpKeeps<T>(t: seq<Logged<T>>, op: Op<T>, sz: seq<Sizes>)
    requires |t| == |sz| && forall i :: 0 <= i < |sz| ==> InLine(t[i], sz[i])
    ensures forall i :: 0 <= i < |sz| ==> InLine(StepOp(t, op, sz)[i], sz[i])
  {
    hide InLine, ApplyLists;
    if op.i < |t| {
      match op
      case PushOp(i, v) =>
        if |t[i].lists.push| < sz[i].iwid {
          GiveKeeps(t[i], [v], sz[i]);
        }
      case PopOp(i) =>
        if t[i].lists.pop != [] {
          TakeKeeps(t[i], 1, sz[i]);
        }
      case TickOp(i) => TickKeeps(t[i], sz[i]);
      case PassOp(i, j, cnt) =>
        if CanPass(t, i, j, cnt, sz) {
          TakeKeeps(t[i], cnt, sz[i]);
          var r := t[i := Take(t[i], cnt)];
          GiveKeeps(r[j], t[i].lists.pop[..cnt], sz[j]);
        }
      case ClearOp(i) => ClearKeeps(t[i], sz[i]);
    }
  }

  /** Over every run on any number of queues, of pushes, pops, ticks, passes from queue to queue and clears, every
      queue is first in, first out. */
  lemma {:induction false} FirstInFirstOut<T>(ops: seq<Op<T>>, sz: seq<Sizes>)
    ensures forall i :: 0 <= i < |sz| ==> InLine(RunOps(ops, sz)[i], sz[i])
  {
    hide StepOp;
    if ops != [] {
      FirstInFirstOut(ops[..|ops| - 1], sz);
      StepOpKeeps(RunOps(ops[..|ops| - 1], sz), ops[|ops| - 1], sz);
    } else {
      var none: seq<T> := [];
      assert none + none + none == none;
    }
  }

  // ---------------------------------------------------------------- queues in a row

  /** In at the first queue, from each queue to the next, out of the last. */
  predicate InRow<T>(op: Op<T>, n: nat) {
    match op
    case PushOp(i, _) => i == 0
    case PopOp(i) => i == n - 1
    case TickOp(_) => true
    case PassOp(i, j, _) => j == i + 1
    case ClearOp(_) => false
  }

  /** What is in the queues, from queue `k` back to the first. */
  function BackFrom<T>(t: seq<Logged<T>>, k: nat): seq<T>
    requires k < |t|
  {
    t[k].lists.All() + if k == 0 then [] else BackFrom(t, k - 1)
  }

  ghost predicate Linked<T>(t: seq<Logged<T>>) {
    forall k :: 0 <= k < |t| - 1 ==> t[k + 1].accepted == t[k].gone
  }

  lemma {:induction false} RowLinked<T>(ops: seq<Op<T>>, sz: seq<Sizes>)
    requires forall i :: 0 <= i < |ops| ==> InRow(ops[i], |sz|)
    ensures Linked(RunOps(ops, sz))
  {
    hide ApplyLists;
    if ops != [] {
      RowLinked(ops[..|ops| - 1], sz);
    }
  }

  lemma {:induction false} LinkedBack<T>(t: seq<Logged<T>>, sz: seq<Sizes>, k: nat)
    requires |t| == |sz| && (forall i :: 0 <= i < |sz| ==> InLine(t[i], sz[i])) && Linked(t) && k < |t|
    ensures t[0].accepted == t[k].gone + BackFrom(t, k)
  {
    if k > 0 {
      LinkedBack(t, sz, k - 1);
      assert t[k].accepted == t[k - 1].gone;
      assert (t[k].gone + t[k].lists.All()) + BackFrom(t, k - 1) == t[k].gone + (t[k].lists.All() + BackFrom(t, k - 1));
    } else {
      assert t[0].lists.All() + [] == t[0].lists.All();
    }
  }

  /** Queues in a row, as in a cache pipeline, are first in, first out from end to end: what the first has taken in
      is what the last has given out, followed by all that is on the way, from the last queue back to the first. */
  lemma RowInOrder<T>(ops: seq<Op<T>>, sz: seq<Sizes>)
    requires sz != [] && forall i :: 0 <= i < |ops| ==> InRow(ops[i], |sz|)
    ensures var t := RunOps(ops, sz);
      t[0].accepted == t[|sz| - 1].gone + BackFrom(t, |sz| - 1)
  {
    FirstInFirstOut(ops, sz);
    RowLinked(ops, sz);
    LinkedBack(RunOps(ops, sz), sz, |sz| - 1);
  }

  // ---------------------------------------------------------------- the sizes after a tick

  /** The sizes after a tick, as the cursor version computes them. */
  function SizesAfter(pop: nat, q: nat, push: nat, owid: nat, qsize: nat): (nat, nat, nat)
    requires pop <= owid && q <= qsize
  {
    var a := if qsize > 0 then Min(owid - pop, q) else 0;
    var b := Min(owid - pop - a, push);
    var c := if qsize > 0 then Min(qsize - (q - a), push - b) else 0;
    (pop + a + b, q - a + c, push - b - c)
  }

  lemma SameTotal(pop: nat, q: nat, push: nat, owid: nat, qsize: nat)
    requires pop <= owid && q <= qsize
    ensures var (a, b, c) := SizesAfter(pop, q, push, owid, qsize); a + b + c == pop + q + push
  {
  }

  /** The lists after a tick are the same elements in the same order, cut at the computed sizes. */
  lemma ApplyBySizes<T>(l: Lists<T>, r: Lists<T>, owid: nat, qsize: nat)
    requires |l.pop| <= owid && |l.q| <= qsize && r.All() == l.All()
    requires (|r.pop|, |r.q|, |r.push|) == SizesAfter(|l.pop|, |l.q|, |l.push|, owid, qsize)
    ensures r == ApplyLists(l, owid, qsize)
  {
    hide ApplyLists;
    var x := ApplyLists(l, owid, qsize);
    ApplyKeepsOrder(l, owid, qsize);
    ApplySizes(l, owid, qsize);
    SameParts(r.pop, r.q, r.push, x.pop, x.q, x.push);
  }

  lemma ApplySizes<T>(l: Lists<T>, owid: nat, qsize: nat)
    requires |l.pop| <= owid && |l.q| <= qsize
    ensures var x := ApplyLists(l, owid, qsize);
      (|x.pop|, |x.q|, |x.push|) == SizesAfter(|l.pop|, |l.q|, |l.push|, owid, qsize)
  {
    hide Move;
    MoveSizes(l.q, l.pop, owid);
    var (q, pop) := if qsize > 0 then Move(l.q, l.pop, owid) else (l.q, l.pop);
    MoveSizes(l.push, pop, owid);
    var (push, pop') := Move(l.push, pop, owid);
    MoveSizes(push, q, qsize);
  }

  lemma MoveSizes<T>(from: seq<T>, to: seq<T>, room: nat)
    requires |to| <= room
    ensures var k := Min(room - |to|, |from|);
      |Move(from, to, room).0| == |from| - k && |Move(from, to, room).1| == |to| + k
  {
    hide Move;
    MoveIs(from, to, room);
  }

  lemma SameParts<T>(a: seq<T>, b: seq<T>, c: seq<T>, x: seq<T>, y: seq<T>, z: seq<T>)
    requires |a| == |x| && |b| == |y| && |c| == |z| && (a + b) + c == (x + y) + z
    ensures a == x && b == y && c == z
  {
    assert a == ((a + b) + c)[..|a|] && x == ((x + y) + z)[..|a|];
    assert b == ((a + b) + c)[|a|..|a| + |b|] && y == ((x + y) + z)[|a|..|a| + |b|];
    assert c == ((a + b) + c)[|a| + |b|..] && z == ((x + y) + z)[|a| + |b|..];
  }
}

/** What the wires and the pipelines do in a tick, told from the state before and the state after: which packets cross
    each wire, and which leave each pipeline (src/bus/symmulcha.cpp:383-419). */
module BusTicks {
  import opened Wrappers
  import opened RouteTable
  import opened BusModel
  import opened BusPaths
  import opened BusSteps
  import opened BusOps
  import opened BusWays

  // ---------------------------------------------------------------- the wire

  /** A packet of channel `c` has crossed. */
  predicate Crossed(v: EdgeInChannel, v': EdgeInChannel, c: Channel)
    requires c < |v.output| && c < |v'.output|
  {
    v.output[c].None? && v'.output[c].Some?
  }

  /** The bytes that have crossed on the channels from `lo` up to `hi`. */
  function Carried(v: EdgeInChannel, v': EdgeInChannel, lo: nat, hi: nat): nat
    requires hi <= |v.output| && hi <= |v'.output|
    decreases hi
  {
    if hi <= lo then 0
    else Carried(v, v', lo, hi - 1) + if Crossed(v, v', hi - 1) then |v'.output[hi - 1].value.data| else 0
  }

  predicate SameSlots(v: EdgeInChannel, v': EdgeInChannel) {
    |v.input| == |v.output| == |v'.input| == |v'.output|
  }

  /** Channel by channel: what waits at a free slot crosses as long as fewer bytes than the width have crossed on the
      channels before, and everything else stays where it is. */
  predicate Wire(v: EdgeInChannel, v': EdgeInChannel, width: nat) {
    && SameSlots(v, v')
    && forall c :: 0 <= c < |v.input| ==>
         if v.input[c].Some? && v.output[c].None? && Carried(v, v', 0, c) < width
         then v'.output[c] == v.input[c] && v'.input[c].None?
         else v'.output[c] == v.output[c] && v'.input[c] == v.input[c]
  }

  /** The same from channel `lo` on, when `total` bytes have crossed before. */
  ghost predicate WireFrom(v: EdgeInChannel, v': EdgeInChannel, width: nat, lo: nat, total: nat) {
    && SameSlots(v, v')
    && (forall c :: 0 <= c < lo && c < |v.input| ==> v'.output[c] == v.output[c] && v'.input[c] == v.input[c])
    && forall c :: lo <= c < |v.input| ==>
         if v.input[c].Some? && v.output[c].None? && total + Carried(v, v', lo, c) < width
         then v'.output[c] == v.input[c] && v'.input[c].None?
         else v'.output[c] == v.output[c] && v'.input[c] == v.input[c]
  }

  lemma {:induction false} CarriedFirst(v: EdgeInChannel, v': EdgeInChannel, lo: nat, hi: nat)
    requires lo < hi <= |v.output| && hi <= |v'.output|
    ensures Carried(v, v', lo, hi) ==
      (if Crossed(v, v', lo) then |v'.output[lo].value.data| else 0) + Carried(v, v', lo + 1, hi)
    decreases hi
  {
    if lo + 1 < hi {
      CarriedFirst(v, v', lo, hi - 1);
    }
  }

  lemma {:induction false} SameCarried(u: EdgeInChannel, v: EdgeInChannel, v': EdgeInChannel, lo: nat, hi: nat)
    requires hi <= |u.output| && hi <= |v.output| && hi <= |v'.output|
    requires forall c :: lo <= c < hi ==> u.output[c] == v.output[c]
    ensures Carried(u, v', lo, hi) == Carried(v, v', lo, hi)
    decreases hi
  {
    if lo < hi {
      SameCarried(u, v, v', lo, hi - 1);
    }
  }

  lemma {:induction false} NothingCarried(v: EdgeInChannel, lo: nat, hi: nat)
    requires hi <= |v.output|
    ensures Carried(v, v, lo, hi) == 0
    decreases hi
  {
    if lo < hi {
      NothingCarried(v, lo, hi - 1);
    }
  }

  /** One channel more. */
  lemma WireMore(v: EdgeInChannel, u: EdgeInChannel, v': EdgeInChannel, width: nat, lo: nat, total: nat)
    requires SameSlots(v, u) && lo < |v.input| && total < width
    requires if v.input[lo].Some? && v.output[lo].None?
      then u == WithInput(WithOutput(v, lo, v.input[lo]), lo, None)
           && WireFrom(u, v', width, lo + 1, total + |v.input[lo].value.data|)
      else u == v && WireFrom(u, v', width, lo + 1, total)
    ensures WireFrom(v, v', width, lo, total)
  {
    hide Carried;
    assert u.output[lo] == v'.output[lo] && u.input[lo] == v'.input[lo];
    NothingYet(v, v', lo);
    forall c | lo < c < |v.input|
      ensures if v.input[c].Some? && v.output[c].None? && total + Carried(v, v', lo, c) < width
        then v'.output[c] == v.input[c] && v'.input[c].None?
        else v'.output[c] == v.output[c] && v'.input[c] == v.input[c]
    {
      CarriedFirst(v, v', lo, c);
      SameCarried(u, v, v', lo + 1, c);
      assert u.input[c] == v.input[c] && u.output[c] == v.output[c];
    }
  }

  lemma NothingYet(v: EdgeInChannel, v': EdgeInChannel, lo: nat)
    requires lo <= |v.output| && lo <= |v'.output|
    ensures Carried(v, v', lo, lo) == 0
  {
  }

  lemma NoMoreCross(v: EdgeInChannel, width: nat, lo: nat, total: nat)
    requires |v.input| == |v.output| && (total >= width || lo >= |v.input|)
    ensures WireFrom(v, v, width, lo, total)
  {
    hide Carried;
  }

  lemma {:induction false} EdgeStepWire(t: Topology, net: Net, e: nat, c: Channel, total: nat)
    requires Shape(t, net) && e < |net.edges| && c <= t.Channels()
    ensures var r := EdgeStep(t, net, e, c, total);
      && |r.edges| == |net.edges| && r == SetEdge(net, e, r.edges[e])
      && WireFrom(net.edges[e], r.edges[e], t.width, c, total)
    decreases t.Channels() - c
  {
    hide WireFrom, PortOk, NodeOk, SlotsOk;
    EdgeSlots(t, net, e);
    assert net == SetEdge(net, e, net.edges[e]);
    if c == t.Channels() || total >= t.width {
      NoMoreCross(net.edges[e], t.width, c, total);
    } else {
      var v := net.edges[e];
      if EdgeReady(v, c) {
        var net1 := EdgeMove(t, net, e, c);
        EdgeStepWire(t, net1, e, c + 1, total + |v.input[c].value.data|);
        WireMore(v, net1.edges[e], EdgeStep(t, net, e, c, total).edges[e], t.width, c, total);
      } else {
        EdgeStepWire(t, net, e, c + 1, total);
        WireMore(v, v, EdgeStep(t, net, e, c, total).edges[e], t.width, c, total);
      }
    }
  }

  /** process_edge: one edge changes, as its wire says, and nothing else. */
  lemma EdgeExactly(t: Topology, net: Net, e: nat)
    requires Shape(t, net) && e < |net.edges|
    ensures var r := EdgeStep(t, net, e, 0, 0);
      && |r.edges| == |net.edges| && r == SetEdge(net, e, r.edges[e])
      && Wire(net.edges[e], r.edges[e], t.width)
  {
    hide Carried, PortOk, NodeOk, EdgeOk;
    EdgeStepWire(t, net, e, 0, 0);
  }

  /** There is only one such outcome. */
  lemma WireUnique(v: EdgeInChannel, a: EdgeInChannel, b: EdgeInChannel, width: nat)
    requires Wire(v, a, width) && Wire(v, b, width)
    ensures a == b
  {
    WireSame(v, a, b, width, |v.input|);
    assert a.input == b.input && a.output == b.output;
  }

  lemma {:induction false} WireSame(v: EdgeInChannel, a: EdgeInChannel, b: EdgeInChannel, width: nat, k: nat)
    requires Wire(v, a, width) && Wire(v, b, width) && k <= |v.input|
    ensures Carried(v, a, 0, k) == Carried(v, b, 0, k)
    ensures forall c :: 0 <= c < k ==> a.input[c] == b.input[c] && a.output[c] == b.output[c]
  {
    if k > 0 {
      WireSame(v, a, b, width, k - 1);
    }
  }

  lemma {:induction false} TickEdgesExactly(t: Topology, net: Net, e: nat)
    requires Shape(t, net) && e <= |net.edges|
    ensures var r := TickEdges(t, net, e);
      && |r.edges| == |net.edges| && r == net.(edges := r.edges)
      && (forall k :: 0 <= k < e ==> r.edges[k] == net.edges[k])
      && (forall k :: e <= k < |net.edges| ==> Wire(net.edges[k], r.edges[k], t.width))
    decreases |net.edges| - e
  {
    hide EdgeStep, Wire, EdgeOk, PortOk, NodeOk;
    if e < |net.edges| {
      EdgeExactly(t, net, e);
      TickEdgesExactly(t, EdgeStep(t, net, e, 0, 0), e + 1);
    }
  }

  // ---------------------------------------------------------------- the pipeline

  /** Packets that are to go on from node `n`. */
  ghost predicate Going(t: Topology, n: Node, l: seq<MsgPack>) {
    forall i :: 0 <= i < |l| ==> l[i].tgt in t.nodeIds && l[i].tgt != n && l[i].cha < t.Channels()
  }

  /** The slot a packet leaves node `n` by: an edge and a channel. */
  ghost function Way(t: Topology, n: Node, p: MsgPack): (nat, Channel)
    requires t.Ok() && n in t.nodeIds && p.tgt in t.nodeIds && p.tgt != n
  {
    (EdgeFor(t, n, p.tgt), p.cha)
  }

  /** What is in an input slot; nothing where there is none. */
  ghost function InputAt(net: Net, w: (nat, Channel)): Option<MsgPack> {
    if w.0 < |net.edges| && w.1 < |net.edges[w.0].input| then net.edges[w.0].input[w.1] else None
  }

  ghost predicate Taken(net: Net, w: (nat, Channel)) { InputAt(net, w).Some? }

  /** The first packet that waits for this slot. */
  ghost predicate FirstFor(t: Topology, n: Node, l: seq<MsgPack>, i: nat, w: (nat, Channel))
    requires t.Ok() && n in t.nodeIds && Going(t, n, l) && i < |l|
  {
    Way(t, n, l[i]) == w && forall j :: 0 <= j < i ==> Way(t, n, l[j]) != w
  }

  /** Packet `i` leaves: its slot is free, and no packet before it waits for the same one. Packets that wait for other
      slots, also of the same edge, are not asked. */
  ghost predicate Leaves(t: Topology, net: Net, n: Node, l: seq<MsgPack>, i: nat)
    requires t.Ok() && n in t.nodeIds && Going(t, n, l) && i < |l|
  {
    !Taken(net, Way(t, n, l[i])) && FirstFor(t, n, l, i, Way(t, n, l[i]))
  }

  /** The packets that stay, in order. */
  ghost function Kept(t: Topology, net: Net, n: Node, l: seq<MsgPack>, k: nat): seq<MsgPack>
    requires t.Ok() && n in t.nodeIds && Going(t, n, l) && k <= |l|
  {
    if k == 0 then [] else Kept(t, net, n, l, k - 1) + if Leaves(t, net, n, l, k - 1) then [] else [l[k - 1]]
  }

  /** Everything is as it was but for the pipeline of the node and the input slots behind it. */
  ghost predicate OnlyPipeline(t: Topology, net: Net, net': Net, n: Node)
    requires Shape(t, net) && Shape(t, net') && n in net.nodes
  {
    && net'.ports == net.ports && net'.xmtidAlloc == net.xmtidAlloc
    && (forall k :: k in net.nodes && k != n ==> net'.nodes[k] == net.nodes[k])
    && net'.nodes[n].(pipeline := net.nodes[n].pipeline) == net.nodes[n]
    && (forall e :: 0 <= e < |net.edges| ==> net'.edges[e].output == net.edges[e].output)
  }

  /** Every free slot that a packet waits for gets the first one, every other slot is as it was, and what leaves is gone
      from the pipeline. */
  ghost predicate Pipeline(t: Topology, net: Net, net': Net, n: Node, l: seq<MsgPack>)
    requires t.Ok() && Shape(t, net) && Shape(t, net') && n in t.nodeIds && Going(t, n, l)
  {
    && OnlyPipeline(t, net, net', n)
    && Packs(net'.nodes[n].pipeline) == Kept(t, net, n, l, |l|)
    && (forall i :: 0 <= i < |l| && Leaves(t, net, n, l, i) ==>
          InputAt(net', Way(t, n, l[i])) == Some(l[i]))
    && (forall w: (nat, Channel) :: InputAt(net', w) != InputAt(net, w) ==>
          exists i :: 0 <= i < |l| && Leaves(t, net, n, l, i) && Way(t, n, l[i]) == w)
  }

  lemma PacksGoing(t: Topology, net: Net, n: Node)
    requires t.Ok() && Shape(t, net) && n in t.nodeIds
    ensures Going(t, n, Packs(net.nodes[n].pipeline))
  {
    hide Topology.Ok;
    forall i | 0 <= i < |net.nodes[n].pipeline|
      ensures var p := net.nodes[n].pipeline[i].pack; p.tgt in t.nodeIds && p.tgt != n && p.cha < t.Channels()
    {
      PipeTarget(t, net, n, i);
    }
  }

  lemma BlockedIsTaken(t: Topology, net: Net, n: Node, p: MsgPack)
    requires t.Ok() && Shape(t, net) && n in t.nodeIds && Addressed(t, p) && p.tgt != n && p.tgt in t.nodeIds
    ensures Blocked(t, net, n, p) <==> Taken(net, Way(t, n, p))
  {
    hide Topology.Ok, PortOk, NodeOk;
    EdgeSlots(t, net, EdgeFor(t, n, p.tgt));
  }

  lemma {:induction false} NoneLeaves(t: Topology, net: Net, n: Node, l: seq<MsgPack>, k: nat)
    requires t.Ok() && n in t.nodeIds && Going(t, n, l) && k <= |l|
    requires forall i :: 0 <= i < k ==> Taken(net, Way(t, n, l[i]))
    ensures Kept(t, net, n, l, k) == l[..k]
  {
    hide Topology.Ok, Taken;
    if k > 0 {
      NoneLeaves(t, net, n, l, k - 1);
    }
  }

  lemma {:induction false} SameKept(t: Topology, net: Net, net': Net, n: Node, l: seq<MsgPack>, k: nat)
    requires t.Ok() && n in t.nodeIds && Going(t, n, l) && k <= |l| && net'.edges == net.edges
    ensures Kept(t, net', n, l, k) == Kept(t, net, n, l, k)
  {
    hide Topology.Ok, FirstFor, Way, Going;
    if k > 0 {
      SameKept(t, net, net', n, l, k - 1);
      assert forall w: (nat, Channel) :: Taken(net', w) <==> Taken(net, w);
    }
  }

  /** Packet `i` has left into its slot, and all before it are held up: who else leaves is as before. */
  ghost predicate OneLeft(
    t: Topology, net: Net, net': Net, n: Node, l: seq<MsgPack>, l': seq<MsgPack>, i: nat)
    requires t.Ok() && n in t.nodeIds && Going(t, n, l) && i < |l|
  {
    && l' == l[..i] + l[i + 1..]
    && !Taken(net, Way(t, n, l[i]))
    && (forall j :: 0 <= j < i ==> Taken(net, Way(t, n, l[j])))
    && (forall w: (nat, Channel) :: Taken(net', w) <==> Taken(net, w) || w == Way(t, n, l[i]))
  }

  lemma StillGoing(t: Topology, n: Node, l: seq<MsgPack>, i: nat)
    requires Going(t, n, l) && i < |l|
    ensures Going(t, n, l[..i] + l[i + 1..])
  {
    var l' := l[..i] + l[i + 1..];
    assert forall j :: 0 <= j < |l'| ==> l'[j] == l[if j < i then j else j + 1];
  }

  lemma LeavesAsBefore(
    t: Topology, net: Net, net': Net, n: Node, l: seq<MsgPack>, l': seq<MsgPack>, i: nat, j: nat)
    requires t.Ok() && n in t.nodeIds && Going(t, n, l) && Going(t, n, l') && i < |l|
    requires OneLeft(t, net, net', n, l, l', i) && j < |l'|
    ensures Leaves(t, net', n, l', j) <==> Leaves(t, net, n, l, if j < i then j else j + 1)
    ensures Leaves(t, net, n, l, i)
  {
    hide Topology.Ok, Taken, Way;
    assert forall k :: 0 <= k < |l'| ==> l'[k] == l[if k < i then k else k + 1];
    var o := if j < i then j else j + 1;
    var w := Way(t, n, l[o]);
    assert l'[j] == l[o];
    if j >= i && Leaves(t, net', n, l', j) {
      forall k | 0 <= k < o
        ensures Way(t, n, l[k]) != w
      {
        if k != i {
          var m := if k < i then k else k - 1;
          assert l'[m] == l[k] && Way(t, n, l'[m]) != w;
        }
      }
    }
    if j >= i && Leaves(t, net, n, l, o) {
      assert Way(t, n, l[i]) != w;
      forall k | 0 <= k < j
        ensures Way(t, n, l'[k]) != w
      {
        assert Way(t, n, l[if k < i then k else k + 1]) != w;
      }
    }
  }

  lemma {:induction false} KeptAsBefore(
    t: Topology, net: Net, net': Net, n: Node, l: seq<MsgPack>, l': seq<MsgPack>, i: nat, k: nat)
    requires t.Ok() && n in t.nodeIds && Going(t, n, l) && Going(t, n, l') && i < |l|
    requires OneLeft(t, net, net', n, l, l', i) && k <= |l|
    ensures Kept(t, net, n, l, k) == Kept(t, net', n, l', if k <= i then k else k - 1)
  {
    hide Topology.Ok, Taken, Way, Going, Leaves;
    if k > 0 {
      KeptAsBefore(t, net, net', n, l, l', i, k - 1);
      if k - 1 != i {
        LeavesAsBefore(t, net, net', n, l, l', i, if k - 1 < i then k - 1 else k - 2);
      } else if |l'| > 0 {
        LeavesAsBefore(t, net, net', n, l, l', i, 0);
      } else {
        assert Leaves(t, net, n, l, i) by {
          OnlyOne(t, net, n, l, i);
        }
      }
    }
  }

  lemma OnlyOne(t: Topology, net: Net, n: Node, l: seq<MsgPack>, i: nat)
    requires t.Ok() && n in t.nodeIds && Going(t, n, l) && i < |l| == 1 && !Taken(net, Way(t, n, l[i]))
    ensures Leaves(t, net, n, l, i)
  {
    hide Topology.Ok;
  }

  lemma AheadTaken(t: Topology, net: Net, n: Node, i: nat, l: seq<MsgPack>)
    requires t.Ok() && Shape(t, net) && n in t.nodeIds && i <= |net.nodes[n].pipeline| && AheadBlocked(t, net, n, i)
    requires l == Packs(net.nodes[n].pipeline) && Going(t, n, l)
    ensures forall j :: 0 <= j < i ==> Taken(net, Way(t, n, l[j]))
  {
    hide Topology.Ok, EdgeOk, PortOk, NodeOk, Taken, Way;
    forall j | 0 <= j < i
      ensures Taken(net, Way(t, n, l[j]))
    {
      PipeTarget(t, net, n, j);
      assert Blocked(t, net, n, net.nodes[n].pipeline[j].pack);
      BlockedIsTaken(t, net, n, l[j]);
    }
  }

  /** What a packet that leaves changes: its slot, and the pipeline. */
  lemma PipeOutChanges(t: Topology, net: Net, n: Node, i: nat, e: nat)
    requires Shape(t, net) && n in net.nodes && i < |net.nodes[n].pipeline| && e < |net.edges|
    requires net.nodes[n].pipeline[i].pack.cha < t.Channels()
    ensures var l, net' := Packs(net.nodes[n].pipeline), PipeOut(t, net, n, i, e);
      && n in net'.nodes && |net'.edges| == |net.edges|
      && Packs(net'.nodes[n].pipeline) == l[..i] + l[i + 1..] && OnlyPipeline(t, net, net', n)
      && InputAt(net', (e, l[i].cha)) == Some(l[i])
      && forall w: (nat, Channel) :: w != (e, l[i].cha) ==> InputAt(net', w) == InputAt(net, w)
  {
    hide PortOk, NodeOk, Addressed;
    var l, net' := Packs(net.nodes[n].pipeline), PipeOut(t, net, n, i, e);
    assert Packs(net'.nodes[n].pipeline) == l[..i] + l[i + 1..];
  }

  lemma PipeOutLeft(t: Topology, net: Net, n: Node, i: nat)
    requires t.Ok() && Shape(t, net) && n in t.nodeIds && i < |net.nodes[n].pipeline| && AheadBlocked(t, net, n, i)
    requires !Blocked(t, net, n, net.nodes[n].pipeline[i].pack)
    ensures var l := Packs(net.nodes[n].pipeline);
      && Going(t, n, l)
      && var net', w := PipeOut(t, net, n, i, EdgeFor(t, n, l[i].tgt)), Way(t, n, l[i]);
         && OneLeft(t, net, net', n, l, Packs(net'.nodes[n].pipeline), i) && OnlyPipeline(t, net, net', n)
         && InputAt(net', w) == Some(l[i]) && forall v: (nat, Channel) :: v != w ==> InputAt(net', v) == InputAt(net, v)
  {
    hide Topology.Ok, EdgeOk, PortOk, NodeOk, InputAt, PipeOut, OnlyPipeline, Blocked, AheadBlocked;
    PacksGoing(t, net, n);
    var l := Packs(net.nodes[n].pipeline);
    PipeTarget(t, net, n, i);
    var e := EdgeFor(t, n, l[i].tgt);
    EdgeSlots(t, net, e);
    BlockedIsTaken(t, net, n, l[i]);
    AheadTaken(t, net, n, i, l);
    PipeOutChanges(t, net, n, i, e);
  }

  lemma {:induction false} ScanExactly(t: Topology, net: Net, n: Node, i: nat)
    requires t.Ok() && Shape(t, net) && n in t.nodeIds && i <= |net.nodes[n].pipeline| && AheadBlocked(t, net, n, i)
    ensures Going(t, n, Packs(net.nodes[n].pipeline))
    ensures Pipeline(t, net, PipeScan(t, net, n, i), n, Packs(net.nodes[n].pipeline))
    decreases |net.nodes[n].pipeline| - i
  {
    hide Topology.Ok, EdgeOk, PortOk, NodeOk, Pipeline, AheadBlocked, Stay, PipeOut, Going;
    PacksGoing(t, net, n);
    var pl := net.nodes[n].pipeline;
    if i == |pl| {
      AllHeld(t, net, n);
    } else {
      PipeTarget(t, net, n, i);
      if Blocked(t, net, n, pl[i].pack) {
        var net' := Stay(t, net, n, i);
        StayLength(t, net, n, i);
        StayAhead(t, net, n, i);
        ScanExactly(t, net', n, i + 1);
        StayPipeline(t, net, n, i, PipeScan(t, net', n, i + 1));
      } else {
        var net' := PipeOut(t, net, n, i, EdgeFor(t, n, pl[i].pack.tgt));
        PipeOutLength(t, net, n, i, EdgeFor(t, n, pl[i].pack.tgt));
        PipeOutAhead(t, net, n, i);
        ScanExactly(t, net', n, i);
        OutPipeline(t, net, n, i, PipeScan(t, net', n, i));
      }
    }
  }

  lemma AllHeld(t: Topology, net: Net, n: Node)
    requires t.Ok() && Shape(t, net) && n in t.nodeIds && AheadBlocked(t, net, n, |net.nodes[n].pipeline|)
    requires Going(t, n, Packs(net.nodes[n].pipeline))
    ensures Pipeline(t, net, net, n, Packs(net.nodes[n].pipeline))
  {
    hide Topology.Ok, EdgeOk, PortOk, NodeOk, Taken, Way;
    var l := Packs(net.nodes[n].pipeline);
    AheadTaken(t, net, n, |l|, l);
    NoneLeaves(t, net, n, l, |l|);
  }

  lemma StayPipeline(t: Topology, net: Net, n: Node, i: nat, r: Net)
    requires t.Ok() && Shape(t, net) && Shape(t, r) && n in t.nodeIds && i < |net.nodes[n].pipeline|
    requires Going(t, n, Packs(net.nodes[n].pipeline))
    requires var net' := Stay(t, net, n, i);
      Going(t, n, Packs(net'.nodes[n].pipeline)) && Pipeline(t, net', r, n, Packs(net'.nodes[n].pipeline))
    ensures Pipeline(t, net, r, n, Packs(net.nodes[n].pipeline))
  {
    hide Topology.Ok, EdgeOk, PortOk, NodeOk, Going, FirstFor, Way;
    var net' := Stay(t, net, n, i);
    var l := Packs(net.nodes[n].pipeline);
    assert Packs(net'.nodes[n].pipeline) == l;
    SameKept(t, net, net', n, l, |l|);
    assert forall w: (nat, Channel) :: Taken(net', w) <==> Taken(net, w);
    assert forall j :: 0 <= j < |l| ==> (Leaves(t, net', n, l, j) <==> Leaves(t, net, n, l, j));
  }

  lemma OutPipeline(t: Topology, net: Net, n: Node, i: nat, r: Net)
    requires t.Ok() && Shape(t, net) && Shape(t, r) && n in t.nodeIds && i < |net.nodes[n].pipeline|
    requires AheadBlocked(t, net, n, i) && !Blocked(t, net, n, net.nodes[n].pipeline[i].pack)
    requires Going(t, n, Packs(net.nodes[n].pipeline)) && net.nodes[n].pipeline[i].pack.tgt in t.nodeIds
    requires var net' := PipeOut(t, net, n, i, EdgeFor(t, n, net.nodes[n].pipeline[i].pack.tgt));
      Going(t, n, Packs(net'.nodes[n].pipeline)) && Pipeline(t, net', r, n, Packs(net'.nodes[n].pipeline))
    ensures Pipeline(t, net, r, n, Packs(net.nodes[n].pipeline))
  {
    hide Topology.Ok, EdgeOk, PortOk, NodeOk, Going, FirstFor, Way, PipeOut, AheadBlocked, InputAt, Leaves, Blocked,
      EdgeFor;
    PipeTarget(t, net, n, i);
    var net' := PipeOut(t, net, n, i, EdgeFor(t, n, net.nodes[n].pipeline[i].pack.tgt));
    var l, l' := Packs(net.nodes[n].pipeline), Packs(net'.nodes[n].pipeline);
    PipeOutLeft(t, net, n, i);
    KeptAsBefore(t, net, net', n, l, l', i, |l|);
    OutSlots(t, net, net', r, n, l, l', i);
    assert |l'| == |l| - 1;
  }

  lemma OutSlots(t: Topology, net: Net, net': Net, r: Net, n: Node, l: seq<MsgPack>, l': seq<MsgPack>, i: nat)
    requires t.Ok() && n in t.nodeIds && Going(t, n, l) && Going(t, n, l') && i < |l|
    requires OneLeft(t, net, net', n, l, l', i)
    requires forall j :: 0 <= j < |l'| && Leaves(t, net', n, l', j) ==> InputAt(r, Way(t, n, l'[j])) == Some(l'[j])
    requires forall w: (nat, Channel) :: InputAt(r, w) != InputAt(net', w) ==>
      exists j :: 0 <= j < |l'| && Leaves(t, net', n, l', j) && Way(t, n, l'[j]) == w
    requires InputAt(net', Way(t, n, l[i])) == Some(l[i])
    requires forall v: (nat, Channel) :: v != Way(t, n, l[i]) ==> InputAt(net', v) == InputAt(net, v)
    ensures forall j :: 0 <= j < |l| && Leaves(t, net, n, l, j) ==> InputAt(r, Way(t, n, l[j])) == Some(l[j])
    ensures forall w: (nat, Channel) :: InputAt(r, w) != InputAt(net, w) ==>
      exists j :: 0 <= j < |l| && Leaves(t, net, n, l, j) && Way(t, n, l[j]) == w
  {
    hide Topology.Ok, InputAt, Kept, Way;
    var w := Way(t, n, l[i]);
    assert Leaves(t, net, n, l, i) && Taken(net', w);
    assert forall j :: 0 <= j < |l'| ==> l'[j] == l[if j < i then j else j + 1];
    forall j | 0 <= j < |l| && Leaves(t, net, n, l, j)
      ensures InputAt(r, Way(t, n, l[j])) == Some(l[j])
    {
      if j == i {
        assert forall k :: 0 <= k < |l'| && Leaves(t, net', n, l', k) ==> Way(t, n, l'[k]) != w;
      } else {
        var k := if j < i then j else j - 1;
        LeavesAsBefore(t, net, net', n, l, l', i, k);
        assert Leaves(t, net', n, l', k);
      }
    }
    forall v: (nat, Channel) | InputAt(r, v) != InputAt(net, v)
      ensures exists j :: 0 <= j < |l| && Leaves(t, net, n, l, j) && Way(t, n, l[j]) == v
    {
      if v != w {
        var k :| 0 <= k < |l'| && Leaves(t, net', n, l', k) && Way(t, n, l'[k]) == v;
        LeavesAsBefore(t, net, net', n, l, l', i, k);
      }
    }
  }

  /** The pipeline half of process_node. */
  lemma PipelineExactly(t: Topology, net: Net, n: Node)
    requires t.Ok() && Shape(t, net) && n in t.nodeIds
    ensures Going(t, n, Packs(net.nodes[n].pipeline))
    ensures Pipeline(t, net, PipeScan(t, net, n, 0), n, Packs(net.nodes[n].pipeline))
  {
    hide Topology.Ok, EdgeOk, PortOk, NodeOk, Pipeline, Going;
    ScanExactly(t, net, n, 0);
  }
}

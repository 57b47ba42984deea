/** Messages as sequences of packets, and reassembly at the destination node
    (src/bus/symmulcha.cpp, the delivery branch of process_node, send and recv). */
module BusDelivery {
  import opened Arithmetic
  import opened RouteTable
  import opened BusModel
  import opened BusPaths

  datatype Msg = Msg(flow: Flow, xmtid: XmitId, data: seq<Byte>)

  /** What the network holds, seen from outside: for each flow, the messages sent and not yet received,
      oldest first; and for each receive buffer, the messages complete in it. */
  datatype Abs = Abs(queues: map<Flow, seq<Msg>>, ready: map<(Port, Channel), seq<Msg>>)
  {
    function Queue(f: Flow): seq<Msg> {
      if f in queues then queues[f] else []
    }

    function Ready(p: Port, c: Channel): seq<Msg> {
      if (p, c) in ready then ready[(p, c)] else []
    }
  }

  /** A message the packet header can describe: not empty, and its packets can be counted in 16 bits. */
  ghost predicate MsgOk(t: Topology, m: Msg)
    requires t.Ok()
  {
    && FlowOk(t, m.flow) && m.data != []
    && PacketCount(|m.data|, t.chaWidths[m.flow.cha]) < TWO_TO_16
  }

  ghost function Packets(t: Topology, m: Msg): seq<MsgPack>
    requires t.Ok() && MsgOk(t, m)
  {
    Packetize(t, m.flow.src, m.flow.dst, m.flow.cha, m.xmtid, m.data)
  }

  lemma PacketCountIsCeil(len: nat, w: nat)
    requires w > 0
    ensures PacketCount(len, w) == CeilDiv(len, w)
    ensures len > 0 ==> PacketCount(len, w) > 0
    ensures len <= w * PacketCount(len, w)
  {
    var q, r := (len + w - 1) / w, (len + w - 1) % w;
    assert len + w - 1 == w * q + r && 0 <= r < w;
    DivModUnique(w * q, w, q, 0);
  }

  /** A message of several packets: one that waits in an order list. */
  ghost predicate Several(t: Topology, m: Msg) {
    && m.flow.cha < t.Channels() && t.chaWidths[m.flow.cha] > 0
    && PacketCount(|m.data|, t.chaWidths[m.flow.cha]) > 1
  }

  lemma PacketsShape(t: Topology, m: Msg)
    requires t.Ok() && MsgOk(t, m)
    ensures 0 < |Packets(t, m)| < TWO_TO_16 && (Several(t, m) <==> |Packets(t, m)| > 1)
    ensures forall i :: 0 <= i < |Packets(t, m)| ==>
      var p := Packets(t, m)[i];
      && p.idx == i && p.cnt == |Packets(t, m)| && FlowOf(p) == m.flow && p.xmtid == m.xmtid
      && p.len == |m.data| && Addressed(t, p)
      && p.data == Chunk(m.data, i, t.chaWidths[m.flow.cha])
  {
    PacketCountIsCeil(|m.data|, t.chaWidths[m.flow.cha]);
  }

  ghost predicate AllOk(t: Topology, ms: seq<Msg>)
    requires t.Ok()
  {
    forall i :: 0 <= i < |ms| ==> MsgOk(t, ms[i])
  }

  ghost function Flatten(t: Topology, ms: seq<Msg>): seq<MsgPack>
    requires t.Ok() && AllOk(t, ms)
  {
    if ms == [] then [] else Packets(t, ms[0]) + Flatten(t, ms[1..])
  }

  ghost function Of(f: Flow, ms: seq<Msg>): seq<Msg> {
    if ms == [] then [] else (if ms[0].flow == f then [ms[0]] else []) + Of(f, ms[1..])
  }

  lemma {:induction false} OfAppend(f: Flow, ms: seq<Msg>, m: Msg)
    ensures Of(f, ms + [m]) == Of(f, ms) + (if m.flow == f then [m] else [])
  {
    if ms != [] {
      OfAppend(f, ms[1..], m);
      assert (ms + [m])[1..] == ms[1..] + [m];
    }
  }

  lemma {:induction false} FlattenConcat(t: Topology, a: seq<Msg>, b: seq<Msg>)
    requires t.Ok() && AllOk(t, a) && AllOk(t, b)
    ensures Flatten(t, a + b) == Flatten(t, a) + Flatten(t, b)
  {
    hide Topology.Ok, Packets, MsgOk;
    if a == [] {
      assert a + b == b;
    } else {
      FlattenConcat(t, a[1..], b);
      assert (a + b)[1..] == a[1..] + b;
      assert (a + b)[0] == a[0];
    }
  }

  lemma FlattenAt(t: Topology, q: seq<Msg>, k: nat)
    requires t.Ok() && AllOk(t, q) && k < |q|
    ensures Flatten(t, q) == Flatten(t, q[..k]) + (Packets(t, q[k]) + Flatten(t, q[k + 1..]))
  {
    hide Topology.Ok, Packets, MsgOk;
    assert q == q[..k] + q[k..];
    FlattenConcat(t, q[..k], q[k..]);
    assert q[k..][0] == q[k] && q[k..][1..] == q[k + 1..];
  }

  /** Cancelling the same beginning. */
  lemma Cancel(x: seq<MsgPack>, a: seq<MsgPack>, b: seq<MsgPack>)
    ensures x + a == x + b ==> a == b
    ensures x + a <= x + b ==> a <= b
  {
    if x + a <= x + b {
      assert (x + a)[|x|..] == a && (x + b)[|x|..] == b;
      assert forall i :: 0 <= i < |a| ==> a[i] == (x + a)[|x| + i] == (x + b)[|x| + i];
    }
  }

  lemma FlattenOne(t: Topology, m: Msg)
    requires t.Ok() && MsgOk(t, m)
    ensures Flatten(t, [m]) == Packets(t, m)
  {
    hide Topology.Ok, Packets, MsgOk;
    assert [m][1..] == [];
    assert Flatten(t, [m][1..]) == [];
  }

  /** Whole messages stay whole when one flow is picked out. */
  lemma {:induction false} FilterFlatten(t: Topology, f: Flow, ms: seq<Msg>)
    requires t.Ok() && AllOk(t, ms)
    ensures AllOk(t, Of(f, ms))
    ensures Filter(f, Flatten(t, ms)) == Flatten(t, Of(f, ms))
  {
    hide Topology.Ok, Packets, MsgOk;
    if ms != [] {
      var m, rest := ms[0], ms[1..];
      FilterFlatten(t, f, rest);
      FilterConcat(f, Packets(t, m), Flatten(t, rest));
      PacketsShape(t, m);
      if m.flow == f {
        FilterAll(f, Packets(t, m));
        assert Of(f, ms)[1..] == Of(f, rest);
      } else {
        FilterNone(f, Packets(t, m));
        assert Of(f, ms) == Of(f, rest);
      }
    }
  }

  // ---------------------------------------------------------------- the destination node

  ghost predicate HoldsFor(ob: map<XmitId, seq<MsgPack>>, x: XmitId, f: Flow) {
    x in ob && |ob[x]| > 0 && FlowOf(ob[x][0]) == f
  }

  /** The packets of a flow that wait for the rest of their message. */
  ghost function Partial(ob: map<XmitId, seq<MsgPack>>, f: Flow): seq<MsgPack> {
    if exists x :: HoldsFor(ob, x, f) then
      var x :| HoldsFor(ob, x, f); ob[x]
    else []
  }

  /** Each list belongs to one incomplete message, and no flow has two. */
  ghost predicate OrderBufOk(t: Topology, n: Node, ob: map<XmitId, seq<MsgPack>>) {
    && (forall x :: x in ob ==>
          && 0 < |ob[x]| < ob[x][0].cnt && ob[x][0].xmtid == x
          && Addressed(t, ob[x][0]) && ob[x][0].tgt == n)
    && (forall x, y ::
          x in ob && y in ob && ob[x] != [] && ob[y] != [] && FlowOf(ob[x][0]) == FlowOf(ob[y][0]) ==> x == y)
  }

  lemma PartialIs(t: Topology, n: Node, ob: map<XmitId, seq<MsgPack>>, x: XmitId, f: Flow)
    requires OrderBufOk(t, n, ob) && HoldsFor(ob, x, f)
    ensures Partial(ob, f) == ob[x]
  {
  }

  /** What has come in for a flow: complete messages, then the incomplete one. */
  ghost function Dest(t: Topology, net: Net, f: Flow): seq<MsgPack>
    requires t.Ok() && Shape(t, net) && FlowOk(t, f)
  {
    Filter(f, net.ports[f.dst].recvBuf[f.cha]) + Partial(net.nodes[DstNode(t, f)].orderBuf, f)
  }

  ghost predicate MsgsOk(t: Topology, a: Abs)
    requires t.Ok()
  {
    && (forall f :: AllOk(t, a.Queue(f)))
    && (forall p, c :: AllOk(t, a.Ready(p, c)))
    && (forall f, i :: 0 <= i < |a.Queue(f)| ==> a.Queue(f)[i].flow == f)
    && (forall p, c, i :: 0 <= i < |a.Ready(p, c)| ==>
          a.Ready(p, c)[i].flow.dst == p && a.Ready(p, c)[i].flow.cha == c)
  }

  /** No two messages of several packets in the network carry the same transmission id. */
  ghost predicate Distinct(t: Topology, a: Abs) {
    forall f, i, g, j ::
      && 0 <= i < |a.Queue(f)| && 0 <= j < |a.Queue(g)| && a.Queue(f)[i].xmtid == a.Queue(g)[j].xmtid
      && Several(t, a.Queue(f)[i]) && Several(t, a.Queue(g)[j])
      ==> f == g && i == j
  }

  /** The messages ready for a flow are the oldest of its queue. */
  ghost predicate ReadyOk(t: Topology, a: Abs) {
    forall f :: FlowOk(t, f) ==> Of(f, a.Ready(f.dst, f.cha)) <= a.Queue(f)
  }

  /** A receive buffer is a row of whole messages. */
  ghost predicate RecvOk(t: Topology, net: Net, a: Abs)
    requires t.Ok() && Shape(t, net) && MsgsOk(t, a)
  {
    forall p, c :: p in net.ports && 0 <= c < t.Channels() ==> net.ports[p].recvBuf[c] == Flatten(t, a.Ready(p, c))
  }

  ghost predicate OrdersOk(t: Topology, net: Net) {
    forall n :: n in net.nodes ==> OrderBufOk(t, n, net.nodes[n].orderBuf)
  }

  ghost predicate DestPrefix(t: Topology, net: Net, a: Abs)
    requires t.Ok() && Shape(t, net) && MsgsOk(t, a)
  {
    forall f :: FlowOk(t, f) ==> Dest(t, net, f) <= Flatten(t, a.Queue(f))
  }

  ghost predicate DestInv(t: Topology, net: Net, a: Abs)
    requires t.Ok() && Shape(t, net)
  {
    MsgsOk(t, a) && Distinct(t, a) && ReadyOk(t, a) && RecvOk(t, net, a) && OrdersOk(t, net) && DestPrefix(t, net, a)
  }

  /** A line that starts with `k` whole messages and goes on with a part of one: it is a part of message `k`. */
  lemma PartOfNext(t: Topology, q: seq<Msg>, k: nat, part: seq<MsgPack>)
    requires t.Ok() && k <= |q| && AllOk(t, q)
    requires part != [] && Flatten(t, q[..k]) + part <= Flatten(t, q)
    ensures k < |q|
    ensures |Packets(t, q[k])| > 0 && part[0] == Packets(t, q[k])[0]
    ensures |part| <= |Packets(t, q[k])| ==> part == Packets(t, q[k])[..|part|]
  {
    hide Topology.Ok, Packets, MsgOk, Flatten;
    assert q[..|q|] == q;
    if k < |q| {
      FlattenAt(t, q, k);
      Cancel(Flatten(t, q[..k]), part, Packets(t, q[k]) + Flatten(t, q[k + 1..]));
      PacketsShape(t, q[k]);
      BeginningOf(part, Packets(t, q[k]), Flatten(t, q[k + 1..]));
    }
  }

  lemma BeginningOf(part: seq<MsgPack>, a: seq<MsgPack>, b: seq<MsgPack>)
    requires part != [] && a != [] && part <= a + b
    ensures part[0] == a[0]
    ensures |part| <= |a| ==> part == a[..|part|]
  {
    assert part[0] == (a + b)[0];
    if |part| <= |a| {
      assert a[..|part|] == (a + b)[..|part|];
    }
  }

  lemma {:induction false} InsertAtEnd(l: seq<MsgPack>, p: MsgPack)
    requires forall i :: 0 <= i < |l| ==> l[i].idx < p.idx
    ensures InsertByIdx(l, p) == l + [p]
  {
    if l != [] {
      InsertAtEnd(l[1..], p);
    }
  }

  lemma PartialWitness(t: Topology, n: Node, ob: map<XmitId, seq<MsgPack>>, f: Flow)
    requires OrderBufOk(t, n, ob) && Partial(ob, f) != []
    ensures var part := Partial(ob, f);
      HoldsFor(ob, part[0].xmtid, f) && part == ob[part[0].xmtid] && |part| < part[0].cnt
  {
    var x :| HoldsFor(ob, x, f);
    PartialIs(t, n, ob, x, f);
  }

  /** The number of messages of a flow that are complete at the destination. */
  ghost function Done(a: Abs, f: Flow): nat {
    |Of(f, a.Ready(f.dst, f.cha))|
  }

  lemma DestLayout(t: Topology, net: Net, a: Abs, f: Flow)
    requires t.Ok() && Shape(t, net) && FlowOk(t, f)
    requires MsgsOk(t, a) && ReadyOk(t, a) && RecvOk(t, net, a)
    ensures Done(a, f) <= |a.Queue(f)|
    ensures Dest(t, net, f) ==
      Flatten(t, a.Queue(f)[..Done(a, f)]) + Partial(net.nodes[DstNode(t, f)].orderBuf, f)
  {
    hide Topology.Ok, Packets, MsgOk;
    FilterFlatten(t, f, a.Ready(f.dst, f.cha));
    assert Of(f, a.Ready(f.dst, f.cha)) == a.Queue(f)[..Done(a, f)];
  }

  /** An incomplete message is the first one of its flow that is not complete. */
  lemma HeldMessage(t: Topology, net: Net, a: Abs, f: Flow)
    requires t.Ok() && Shape(t, net) && FlowOk(t, f)
    requires DestInv(t, net, a) && Partial(net.nodes[DstNode(t, f)].orderBuf, f) != []
    ensures Done(a, f) < |a.Queue(f)|
    ensures var part := Partial(net.nodes[DstNode(t, f)].orderBuf, f);
      var m := a.Queue(f)[Done(a, f)];
      |part| < |Packets(t, m)| && part == Packets(t, m)[..|part|]
  {
    hide Topology.Ok, Packets, MsgOk;
    var part := Partial(net.nodes[DstNode(t, f)].orderBuf, f);
    DestLayout(t, net, a, f);
    assert Dest(t, net, f) <= Flatten(t, a.Queue(f));
    PartOfNext(t, a.Queue(f), Done(a, f), part);
    PacketsShape(t, a.Queue(f)[Done(a, f)]);
    PartialWitness(t, DstNode(t, f), net.nodes[DstNode(t, f)].orderBuf, f);
  }

  /** The packet that comes in next is the next packet of that message. */
  lemma NextInLine(t: Topology, net: Net, a: Abs, p: MsgPack)
    requires t.Ok() && Shape(t, net) && Addressed(t, p)
    requires DestInv(t, net, a)
    requires Dest(t, net, FlowOf(p)) + [p] <= Flatten(t, a.Queue(FlowOf(p)))
    ensures var f := FlowOf(p);
      var part := Partial(net.nodes[p.tgt].orderBuf, f);
      && Done(a, f) < |a.Queue(f)|
      && var m := a.Queue(f)[Done(a, f)];
      && |part| < |Packets(t, m)| && part == Packets(t, m)[..|part|] && p == Packets(t, m)[|part|]
  {
    hide Topology.Ok, Packets, MsgOk, Flatten, Of, OrderBufOk, EdgeOk, NodeOk;
    var f := FlowOf(p);
    var part := Partial(net.nodes[p.tgt].orderBuf, f);
    DestLayout(t, net, a, f);
    assert Dest(t, net, f) + [p] == Flatten(t, a.Queue(f)[..Done(a, f)]) + (part + [p]);
    PartOfNext(t, a.Queue(f), Done(a, f), part + [p]);
    var m := a.Queue(f)[Done(a, f)];
    PacketsShape(t, m);
    if part != [] {
      HeldMessage(t, net, a, f);
    }
    assert (part + [p])[|part|] == p;
  }

  /** What waits in the order buffer for a packet; nothing waits for a message's only packet. */
  function Waiting(ob: map<XmitId, seq<MsgPack>>, p: MsgPack): seq<MsgPack> {
    if p.cnt <= 1 then [] else OrderList(ob, p.xmtid)
  }

  /** A transmission id in the order buffer belongs to exactly the flow that has it. */
  lemma OrderListIsPartial(t: Topology, net: Net, a: Abs, p: MsgPack)
    requires t.Ok() && Shape(t, net) && Addressed(t, p)
    requires DestInv(t, net, a)
    requires Dest(t, net, FlowOf(p)) + [p] <= Flatten(t, a.Queue(FlowOf(p)))
    ensures var ob := net.nodes[p.tgt].orderBuf;
      && Waiting(ob, p) == Partial(ob, FlowOf(p))
      && (p.cnt > 1 && p.xmtid in ob ==> HoldsFor(ob, p.xmtid, FlowOf(p)))
      && (forall y :: HoldsFor(ob, y, FlowOf(p)) ==> p.cnt > 1 && y == p.xmtid)
  {
    hide Topology.Ok, Packets, MsgOk, Several, Flatten, Of, EdgeOk, NodeOk, PortOk;
    var f, x, ob := FlowOf(p), p.xmtid, net.nodes[p.tgt].orderBuf;
    NextInLine(t, net, a, p);
    PacketsShape(t, a.Queue(f)[Done(a, f)]);
    if p.cnt > 1 && x in ob {
      var g := FlowOf(ob[x][0]);
      PartialIs(t, p.tgt, ob, x, g);
      HeldMessage(t, net, a, g);
      PacketsShape(t, a.Queue(g)[Done(a, g)]);
      assert g == f;
    }
    forall y | HoldsFor(ob, y, f)
      ensures p.cnt > 1 && y == x
    {
      PartialIs(t, p.tgt, ob, y, f);
    }
  }

  // ---------------------------------------------------------------- one delivery

  lemma PartialUpdate(t: Topology, n: Node, ob: map<XmitId, seq<MsgPack>>, x: XmitId, l: seq<MsgPack>, f: Flow)
    requires OrderBufOk(t, n, ob)
    requires x in ob ==> HoldsFor(ob, x, f)
    requires forall y :: HoldsFor(ob, y, f) ==> y == x
    requires 0 < |l| < l[0].cnt && FlowOf(l[0]) == f && l[0].xmtid == x && Addressed(t, l[0]) && l[0].tgt == n
    ensures OrderBufOk(t, n, ob[x := l])
    ensures Partial(ob[x := l], f) == l
    ensures forall g :: g != f ==> Partial(ob[x := l], g) == Partial(ob, g)
  {
    var ob' := ob[x := l];
    assert forall y :: y in ob && y != x ==> !HoldsFor(ob, y, f);
    assert HoldsFor(ob', x, f);
    PartialIs(t, n, ob', x, f);
    forall g | g != f
      ensures Partial(ob', g) == Partial(ob, g)
    {
      SamePartial(t, n, ob, ob', g);
    }
  }

  lemma PartialRemove(t: Topology, n: Node, ob: map<XmitId, seq<MsgPack>>, x: XmitId, f: Flow)
    requires OrderBufOk(t, n, ob)
    requires x in ob ==> HoldsFor(ob, x, f)
    requires forall y :: HoldsFor(ob, y, f) ==> y == x
    ensures OrderBufOk(t, n, ob - {x})
    ensures Partial(ob - {x}, f) == []
    ensures forall g :: g != f ==> Partial(ob - {x}, g) == Partial(ob, g)
  {
    var ob' := ob - {x};
    assert forall y :: HoldsFor(ob', y, f) ==> HoldsFor(ob, y, f);
    forall g | g != f
      ensures Partial(ob', g) == Partial(ob, g)
    {
      SamePartial(t, n, ob, ob', g);
    }
  }

  lemma SamePartial(t: Topology, n: Node, a: map<XmitId, seq<MsgPack>>, b: map<XmitId, seq<MsgPack>>, g: Flow)
    requires OrderBufOk(t, n, a) && OrderBufOk(t, n, b)
    requires forall y :: HoldsFor(a, y, g) <==> HoldsFor(b, y, g)
    requires forall y :: HoldsFor(a, y, g) ==> y in b && a[y] == b[y]
    ensures Partial(a, g) == Partial(b, g)
  {
    if exists y :: HoldsFor(a, y, g) {
      var y :| HoldsFor(a, y, g);
      PartialIs(t, n, a, y, g);
      PartialIs(t, n, b, y, g);
    }
  }

  /** Message `m` becomes complete. */
  ghost function Finish(a: Abs, m: Msg): Abs {
    a.(ready := a.ready[(m.flow.dst, m.flow.cha) := a.Ready(m.flow.dst, m.flow.cha) + [m]])
  }

  lemma FinishKeeps(t: Topology, a: Abs, f: Flow)
    requires t.Ok() && MsgsOk(t, a) && Distinct(t, a) && ReadyOk(t, a) && FlowOk(t, f) && Done(a, f) < |a.Queue(f)|
    ensures var a' := Finish(a, a.Queue(f)[Done(a, f)]);
      MsgsOk(t, a') && Distinct(t, a') && ReadyOk(t, a')
  {
    hide Topology.Ok, MsgOk, FlowOk, Of, Several;
    var m := a.Queue(f)[Done(a, f)];
    var a' := Finish(a, m);
    assert forall g :: a'.Queue(g) == a.Queue(g);
    assert AllOk(t, a.Queue(f));
    assert m.flow == f;
    forall g | FlowOk(t, g)
      ensures Of(g, a'.Ready(g.dst, g.cha)) <= a'.Queue(g)
    {
      if g.dst == f.dst && g.cha == f.cha {
        OfAppend(g, a.Ready(f.dst, f.cha), m);
      }
    }
    forall g
      ensures AllOk(t, a'.Queue(g))
    {
      assert AllOk(t, a.Queue(g));
    }
    forall p, c
      ensures AllOk(t, a'.Ready(p, c))
    {
      assert AllOk(t, a.Queue(f)) && AllOk(t, a.Ready(p, c));
    }
    forall p, c, i | 0 <= i < |a'.Ready(p, c)|
      ensures a'.Ready(p, c)[i].flow.dst == p && a'.Ready(p, c)[i].flow.cha == c
    {
      if p == f.dst && c == f.cha && i == |a.Ready(p, c)| {
        assert a'.Ready(p, c)[i] == m;
      } else {
        assert a'.Ready(p, c)[i] == a.Ready(p, c)[i];
      }
    }
  }

  /** The receive buffer the message goes to holds it, whole, at its end; the others are as they were. */
  ghost predicate RecvGains(t: Topology, net: Net, net': Net, f: Flow, l: seq<MsgPack>)
    requires Shape(t, net) && Shape(t, net') && FlowOk(t, f)
  {
    && net'.ports[f.dst].recvBuf[f.cha] == net.ports[f.dst].recvBuf[f.cha] + l
    && forall p, c :: p in net.ports && 0 <= c < t.Channels() && (p, c) != (f.dst, f.cha) ==>
         net'.ports[p].recvBuf[c] == net.ports[p].recvBuf[c]
  }

  lemma FinishRecv(t: Topology, net: Net, net': Net, a: Abs, f: Flow)
    requires t.Ok() && MsgsOk(t, a) && Distinct(t, a) && ReadyOk(t, a) && FlowOk(t, f) && Done(a, f) < |a.Queue(f)|
    requires Shape(t, net) && Shape(t, net') && RecvOk(t, net, a)
    requires RecvGains(t, net, net', f, Packets(t, a.Queue(f)[Done(a, f)]))
    ensures var a' := Finish(a, a.Queue(f)[Done(a, f)]);
      MsgsOk(t, a') && RecvOk(t, net', a')
  {
    hide Topology.Ok, MsgOk, Packets;
    FinishKeeps(t, a, f);
    var m := a.Queue(f)[Done(a, f)];
    var a' := Finish(a, m);
    forall p, c | p in net'.ports && 0 <= c < t.Channels()
      ensures net'.ports[p].recvBuf[c] == Flatten(t, a'.Ready(p, c))
    {
      if p == f.dst && c == f.cha {
        FlattenConcat(t, a.Ready(p, c), [m]);
        FlattenOne(t, m);
      }
    }
  }

  /** The packet continues the list its transmission id has in the order buffer, or is the only one of its message. */
  ghost predicate Continues(t: Topology, n: Node, ob: map<XmitId, seq<MsgPack>>, p: MsgPack) {
    var part := Waiting(ob, p);
    && Addressed(t, p) && p.tgt == n
    && p.idx == |part| < p.cnt
    && (forall i :: 0 <= i < |part| ==> part[i].idx == i && FlowOf(part[i]) == FlowOf(p))
    && (p.cnt > 1 && p.xmtid in ob ==> HoldsFor(ob, p.xmtid, FlowOf(p)) && part[0].cnt == p.cnt)
    && (forall y :: HoldsFor(ob, y, FlowOf(p)) ==> p.cnt > 1 && y == p.xmtid)
  }

  /** The line of flow `g` at a node, as far as it passed through this receive buffer. */
  ghost function Line(rb: seq<MsgPack>, ob: map<XmitId, seq<MsgPack>>, g: Flow): seq<MsgPack> {
    Filter(g, rb) + Partial(ob, g)
  }

  lemma DeliverAtResult(t: Topology, n: Node, rb: seq<MsgPack>, ob: map<XmitId, seq<MsgPack>>, p: MsgPack)
    requires OrderBufOk(t, n, ob) && Continues(t, n, ob, p)
    ensures var l := Waiting(ob, p) + [p];
      DeliverAt(rb, ob, p) ==
        if p.cnt == 1 then (rb + [p], ob)
        else if p.idx + 1 == p.cnt then (rb + l, ob - {p.xmtid})
        else (rb, ob[p.xmtid := l])
  {
    hide Partial;
    if p.cnt > 1 {
      InsertAtEnd(OrderList(ob, p.xmtid), p);
    }
  }

  lemma DeliverAtEffect(t: Topology, n: Node, rb: seq<MsgPack>, ob: map<XmitId, seq<MsgPack>>, p: MsgPack, g: Flow)
    requires OrderBufOk(t, n, ob) && Continues(t, n, ob, p)
    ensures var (rb', ob') := DeliverAt(rb, ob, p);
      && OrderBufOk(t, n, ob')
      && Line(rb', ob', g) == Line(rb, ob, g) + (if g == FlowOf(p) then [p] else [])
      && (g != FlowOf(p) ==> Partial(ob', g) == Partial(ob, g))
      && rb' == rb + (if p.idx + 1 == p.cnt then Waiting(ob, p) + [p] else [])
  {
    hide DeliverAt, Partial;
    var f, x, part := FlowOf(p), p.xmtid, Waiting(ob, p);
    var l := part + [p];
    var (rb', ob') := DeliverAt(rb, ob, p);
    DeliverAtResult(t, n, rb, ob, p);
    ListIsPartial(t, n, ob, p);
    if p.idx + 1 == p.cnt {
      if p.cnt > 1 {
        PartialRemove(t, n, ob, x, f);
      }
      assert rb' == rb + l by {
        assert p.cnt == 1 ==> l == [p];
      }
      FilterConcat(g, rb, l);
      if g == f {
        FilterAll(f, l);
        assert Filter(g, rb) + l == Filter(g, rb) + part + [p];
      } else {
        FilterNone(g, l);
        assert Filter(g, rb) + [] == Filter(g, rb);
      }
    } else {
      PartialUpdate(t, n, ob, x, l, f);
    }
  }

  lemma ListIsPartial(t: Topology, n: Node, ob: map<XmitId, seq<MsgPack>>, p: MsgPack)
    requires OrderBufOk(t, n, ob) && Continues(t, n, ob, p)
    ensures Partial(ob, FlowOf(p)) == Waiting(ob, p)
  {
    if p.cnt > 1 && p.xmtid in ob {
      PartialIs(t, n, ob, p.xmtid, FlowOf(p));
    }
  }

  lemma NextContinues(t: Topology, net: Net, a: Abs, p: MsgPack)
    requires t.Ok() && Shape(t, net) && Addressed(t, p)
    requires DestInv(t, net, a)
    requires Dest(t, net, FlowOf(p)) + [p] <= Flatten(t, a.Queue(FlowOf(p)))
    ensures Continues(t, p.tgt, net.nodes[p.tgt].orderBuf, p)
    ensures var q, k := a.Queue(FlowOf(p)), Done(a, FlowOf(p));
      && k < |q|
      && (p.idx + 1 == p.cnt ==> Waiting(net.nodes[p.tgt].orderBuf, p) + [p] == Packets(t, q[k]))
  {
    hide Topology.Ok, Packets, MsgOk, Partial, OrderBufOk, Waiting, Continues, Flatten, EdgeOk, NodeOk, PortOk;
    NextInLine(t, net, a, p);
    OrderListIsPartial(t, net, a, p);
    assert AllOk(t, a.Queue(FlowOf(p)));
    ContinuesMsg(t, net.nodes[p.tgt].orderBuf, p, a.Queue(FlowOf(p))[Done(a, FlowOf(p))]);
  }

  lemma ContinuesMsg(t: Topology, ob: map<XmitId, seq<MsgPack>>, p: MsgPack, m: Msg)
    requires t.Ok() && MsgOk(t, m) && Addressed(t, p)
    requires var part := Waiting(ob, p);
      |part| < |Packets(t, m)| && part == Packets(t, m)[..|part|] && p == Packets(t, m)[|part|]
    requires p.cnt > 1 && p.xmtid in ob ==> HoldsFor(ob, p.xmtid, FlowOf(p))
    requires forall y :: HoldsFor(ob, y, FlowOf(p)) ==> p.cnt > 1 && y == p.xmtid
    ensures Continues(t, p.tgt, ob, p)
    ensures p.idx + 1 == p.cnt ==> Waiting(ob, p) + [p] == Packets(t, m)
  {
    hide Topology.Ok, Packets, MsgOk;
    PacketsShape(t, m);
  }

  /** What a delivery does to the line of every flow: the packet's own gets it at the end. */
  ghost predicate DestGains(t: Topology, net: Net, net': Net, p: MsgPack)
    requires t.Ok() && Shape(t, net) && Shape(t, net')
  {
    forall g :: FlowOk(t, g) ==> Dest(t, net', g) == Dest(t, net, g) + (if g == FlowOf(p) then [p] else [])
  }

  lemma DeliverGains(t: Topology, net: Net, p: MsgPack)
    requires t.Ok() && Shape(t, net) && Addressed(t, p)
    requires OrdersOk(t, net) && Continues(t, p.tgt, net.nodes[p.tgt].orderBuf, p)
    ensures var net' := Deliver(t, net, p.tgt, p);
      && DestGains(t, net, net', p) && OrdersOk(t, net')
      && RecvGains(t, net, net', FlowOf(p),
           if p.idx + 1 == p.cnt then Waiting(net.nodes[p.tgt].orderBuf, p) + [p] else [])
  {
    hide Topology.Ok, Partial, OrderBufOk, Continues, Filter, DeliverAt, EdgeOk, NodeOk;
    var f := FlowOf(p);
    var n := DstNode(t, f);
    var net' := Deliver(t, net, n, p);
    var rb, ob := net.ports[p.dst].recvBuf[p.cha], net.nodes[n].orderBuf;
    forall g | FlowOk(t, g)
      ensures Dest(t, net', g) == Dest(t, net, g) + (if g == f then [p] else [])
    {
      DeliverAtEffect(t, n, rb, ob, p, g);
    }
    DeliverAtEffect(t, n, rb, ob, p, f);
  }

  lemma NoRecvChange(t: Topology, net: Net, net': Net, a: Abs, f: Flow)
    requires t.Ok() && MsgsOk(t, a) && FlowOk(t, f)
    requires Shape(t, net) && Shape(t, net') && RecvOk(t, net, a)
    requires RecvGains(t, net, net', f, [])
    ensures RecvOk(t, net', a)
  {
    hide Topology.Ok, MsgOk, MsgsOk, Flatten;
  }

  lemma PrefixGrows(t: Topology, net: Net, net': Net, a: Abs, a': Abs, p: MsgPack)
    requires t.Ok() && Shape(t, net) && Shape(t, net') && MsgsOk(t, a) && MsgsOk(t, a')
    requires DestPrefix(t, net, a) && DestGains(t, net, net', p) && a'.queues == a.queues
    requires Addressed(t, p) && Dest(t, net, FlowOf(p)) + [p] <= Flatten(t, a.Queue(FlowOf(p)))
    ensures DestPrefix(t, net', a')
  {
    hide Topology.Ok, Dest, Flatten, MsgOk, Shape;
    assert forall g :: a'.Queue(g) == a.Queue(g);
  }

  /** Delivery keeps the destination invariant, whether or not it completes a message. */
  lemma DeliverKeeps(t: Topology, net: Net, a: Abs, p: MsgPack) returns (a': Abs)
    requires t.Ok() && Shape(t, net) && Addressed(t, p) && p.tgt in net.nodes
    requires DestInv(t, net, a)
    requires Dest(t, net, FlowOf(p)) + [p] <= Flatten(t, a.Queue(FlowOf(p)))
    ensures a'.queues == a.queues
    ensures DestGains(t, net, Deliver(t, net, p.tgt, p), p)
    ensures DestInv(t, Deliver(t, net, p.tgt, p), a')
  {
    hide Topology.Ok, Packets, MsgOk, Dest, Flatten, Continues, Deliver, MsgsOk, Distinct, ReadyOk, RecvOk, OrdersOk,
      DestPrefix, DestGains, RecvGains;
    var f := FlowOf(p);
    var net' := Deliver(t, net, p.tgt, p);
    NextContinues(t, net, a, p);
    DeliverGains(t, net, p);
    if p.idx + 1 == p.cnt {
      a' := Finish(a, a.Queue(f)[Done(a, f)]);
      FinishKeeps(t, a, f);
      FinishRecv(t, net, net', a, f);
    } else {
      a' := a;
      NoRecvChange(t, net, net', a, f);
    }
    PrefixGrows(t, net, net', a, a', p);
  }
}

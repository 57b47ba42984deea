/** Ticks, sends and receives keep the bus invariant; a tick changes no flow's messages, a send adds
    one at the back of its flow, a receive hands out the one at the front of its flow. */
module BusOps {
  import opened Arithmetic
  import opened RouteTable
  import opened BusModel
  import opened BusPaths
  import opened BusDelivery
  import opened BusInvariant
  import opened BusSteps

  // ---------------------------------------------------------------- tick

  lemma AcceptKeeps(t: Topology, net: Net, a: Abs, n: Node) returns (a': Abs)
    requires t.Ok() && Inv(t, net, a) && n in t.nodeIds
    ensures a'.queues == a.queues && Inv(t, Accept(t, net, n), a')
  {
    hide Topology.Ok, Routed, DestInv, FlowsOk, Arrive, EdgeOk, PortOk, NodeOk, RingScan, FirstFull, FirstNonEmpty,
      TakeOutput, TakeSend;
    NodeIndices(t, net, n);
    var ns := net.nodes[n];
    var rx := RingScan(RxReady(t, net, n), ns.rxPtr, |t.rxs[n]|);
    if rx.1 {
      var net0 := SetPtrs(t, net, n, rx.0, ns.sdPtr);
      QuietKeeps(t, net, net0, a);
      var e := t.rxs[n][rx.0];
      a' := TakeEdgeKeeps(t, net0, a, e, FirstFull(net.edges[e].output));
    } else {
      var sd := RingScan(SdReady(t, net, n), ns.sdPtr, |t.nodePorts[n]|);
      var net0 := SetPtrs(t, net, n, rx.0, sd.0);
      QuietKeeps(t, net, net0, a);
      if sd.1 {
        var port := t.nodePorts[n][sd.0];
        a' := TakeSendKeeps(t, net0, a, port, FirstNonEmpty(net.ports[port].sendBuf));
      } else {
        a' := a;
      }
    }
  }

  lemma StayAhead(t: Topology, net: Net, n: Node, i: nat)
    requires t.Ok() && Shape(t, net) && n in t.nodeIds && i < |net.nodes[n].pipeline|
    requires AheadBlocked(t, net, n, i) && Blocked(t, net, n, net.nodes[n].pipeline[i].pack)
    ensures AheadBlocked(t, Stay(t, net, n, i), n, i + 1)
  {
    hide Topology.Ok;
    var net' := Stay(t, net, n, i);
    forall j | 0 <= j < i + 1
      ensures Blocked(t, net', n, net'.nodes[n].pipeline[j].pack)
    {
      assert j < i ==> Blocked(t, net, n, net.nodes[n].pipeline[j].pack);
    }
  }

  lemma PipeOutAhead(t: Topology, net: Net, n: Node, i: nat)
    requires t.Ok() && Shape(t, net) && n in t.nodeIds && i < |net.nodes[n].pipeline|
    requires AheadBlocked(t, net, n, i) && net.nodes[n].pipeline[i].pack.tgt in t.nodeIds
    ensures AheadBlocked(t, PipeOut(t, net, n, i, EdgeFor(t, n, net.nodes[n].pipeline[i].pack.tgt)), n, i)
  {
    hide Topology.Ok;
    var net' := PipeOut(t, net, n, i, EdgeFor(t, n, net.nodes[n].pipeline[i].pack.tgt));
    forall j | 0 <= j < i
      ensures Blocked(t, net', n, net'.nodes[n].pipeline[j].pack)
    {
      assert Blocked(t, net, n, net.nodes[n].pipeline[j].pack);
    }
  }

  lemma {:induction false} PipeScanKeeps(t: Topology, net: Net, a: Abs, n: Node, i: nat)
    requires t.Ok() && Inv(t, net, a) && n in t.nodeIds && i <= |net.nodes[n].pipeline|
    requires AheadBlocked(t, net, n, i)
    ensures Inv(t, PipeScan(t, net, n, i), a)
    decreases |net.nodes[n].pipeline| - i
  {
    hide Topology.Ok, Routed, DestInv, FlowsOk, AheadBlocked, EdgeOk, PortOk, SamePackets;
    if i < |net.nodes[n].pipeline| {
      var p := net.nodes[n].pipeline[i].pack;
      if Blocked(t, net, n, p) {
        var net' := Stay(t, net, n, i);
        StaySame(t, net, n, i);
        QuietKeeps(t, net, net', a);
        StayAhead(t, net, n, i);
        PipeScanKeeps(t, net', a, n, i + 1);
      } else {
        PipeOutKeeps(t, net, a, n, i);
        var net' := PipeOut(t, net, n, i, EdgeFor(t, n, p.tgt));
        PipeOutAhead(t, net, n, i);
        PipeScanKeeps(t, net', a, n, i);
      }
    }
  }

  lemma NodeStepKeeps(t: Topology, net: Net, a: Abs, n: Node) returns (a': Abs)
    requires t.Ok() && Inv(t, net, a) && n in t.nodeIds
    ensures a'.queues == a.queues && Inv(t, NodeStep(t, net, n), a')
  {
    hide Topology.Ok, Routed, DestInv, FlowsOk, Accept, PipeScan;
    a' := AcceptKeeps(t, net, a, n);
    PipeScanKeeps(t, Accept(t, net, n), a', n, 0);
  }

  lemma {:induction false} EdgeStepKeeps(t: Topology, net: Net, a: Abs, e: nat, c: Channel, total: nat)
    requires t.Ok() && Inv(t, net, a) && e < |net.edges| && c <= t.Channels()
    ensures Inv(t, EdgeStep(t, net, e, c, total), a)
    decreases t.Channels() - c
  {
    hide Topology.Ok, Routed, DestInv, FlowsOk;
    if c < t.Channels() && total < t.width {
      if EdgeReady(net.edges[e], c) {
        EdgeMoveKeeps(t, net, a, e, c);
        EdgeStepKeeps(t, EdgeMove(t, net, e, c), a, e, c + 1, total + |net.edges[e].input[c].value.data|);
      } else {
        EdgeStepKeeps(t, net, a, e, c + 1, total);
      }
    }
  }

  lemma {:induction false} TickNodesKeeps(t: Topology, net: Net, a: Abs, i: nat) returns (a': Abs)
    requires t.Ok() && Inv(t, net, a) && i <= |t.nodeIds|
    ensures a'.queues == a.queues && Inv(t, TickNodes(t, net, i), a')
    decreases |t.nodeIds| - i
  {
    hide Topology.Ok, Routed, DestInv, FlowsOk, NodeStep;
    a' := a;
    if i < |t.nodeIds| {
      a' := NodeStepKeeps(t, net, a, t.nodeIds[i]);
      a' := TickNodesKeeps(t, NodeStep(t, net, t.nodeIds[i]), a', i + 1);
    }
  }

  lemma {:induction false} TickEdgesKeeps(t: Topology, net: Net, a: Abs, e: nat)
    requires t.Ok() && Inv(t, net, a) && e <= |net.edges|
    ensures Inv(t, TickEdges(t, net, e), a)
    decreases |net.edges| - e
  {
    hide Topology.Ok, Routed, DestInv, FlowsOk, EdgeStep;
    if e < |net.edges| {
      EdgeStepKeeps(t, net, a, e, 0, 0);
      TickEdgesKeeps(t, EdgeStep(t, net, e, 0, 0), a, e + 1);
    }
  }

  /** A tick keeps the invariant, and no flow's queue of messages changes. */
  lemma TickKeeps(t: Topology, net: Net, a: Abs) returns (a': Abs)
    requires t.Ok() && Inv(t, net, a)
    ensures a'.queues == a.queues && Inv(t, Tick(t, net), a')
  {
    hide Topology.Ok, Routed, DestInv, FlowsOk, TickNodes, TickEdges;
    a' := TickNodesKeeps(t, net, a, 0);
    TickEdgesKeeps(t, TickNodes(t, net, 0), a', 0);
  }

  // ---------------------------------------------------------------- send

  /** The message's packets can be counted in the header's 16 bits. */
  predicate Fits(t: Topology, cha: Channel, data: seq<Byte>)
    requires t.Ok() && cha < t.Channels()
  {
    PacketCount(|data|, t.chaWidths[cha]) < TWO_TO_16
  }

  /** A message of several packets needs an id that no other such message in the network has. */
  ghost predicate FreshFor(t: Topology, a: Abs, m: Msg) {
    Several(t, m) ==>
      forall f, i :: 0 <= i < |a.Queue(f)| && Several(t, a.Queue(f)[i]) ==> a.Queue(f)[i].xmtid != m.xmtid
  }

  /** One more message at the back of its flow. */
  ghost function Pushed(a: Abs, m: Msg): Abs {
    a.(queues := a.queues[m.flow := a.Queue(m.flow) + [m]])
  }

  /** What a send adds: an empty message has no packets, and leaves nothing behind. */
  ghost function AfterSend(t: Topology, net: Net, a: Abs, f: Flow, data: seq<Byte>): Abs {
    if data == [] then a else Pushed(a, Msg(f, net.xmtidAlloc, data))
  }

  lemma PushedMsgs(t: Topology, a: Abs, m: Msg)
    requires t.Ok() && MsgsOk(t, a) && MsgOk(t, m)
    ensures MsgsOk(t, Pushed(a, m))
    ensures Flatten(t, Pushed(a, m).Queue(m.flow)) == Flatten(t, a.Queue(m.flow)) + Packets(t, m)
    ensures forall f :: f != m.flow ==> Pushed(a, m).Queue(f) == a.Queue(f)
    ensures forall p, c :: Pushed(a, m).Ready(p, c) == a.Ready(p, c)
  {
    hide Topology.Ok, MsgOk, Packets, Flatten;
    var a' := Pushed(a, m);
    forall f
      ensures AllOk(t, a'.Queue(f))
    {
      assert AllOk(t, a.Queue(f));
    }
    forall p, c
      ensures AllOk(t, a'.Ready(p, c))
    {
      assert AllOk(t, a.Ready(p, c));
    }
    forall f, i | 0 <= i < |a'.Queue(f)|
      ensures a'.Queue(f)[i].flow == f
    {
      assert i < |a.Queue(f)| ==> a'.Queue(f)[i] == a.Queue(f)[i];
    }
    forall p, c, i | 0 <= i < |a'.Ready(p, c)|
      ensures a'.Ready(p, c)[i].flow.dst == p && a'.Ready(p, c)[i].flow.cha == c
    {
      assert a'.Ready(p, c) == a.Ready(p, c);
    }
    FlattenConcat(t, a.Queue(m.flow), [m]);
    FlattenOne(t, m);
  }

  lemma PushedInv(t: Topology, net: Net, a: Abs, m: Msg)
    requires t.Ok() && Shape(t, net) && DestInv(t, net, a) && MsgOk(t, m) && FreshFor(t, a, m)
    ensures DestInv(t, net, Pushed(a, m))
    ensures Flatten(t, Pushed(a, m).Queue(m.flow)) == Flatten(t, a.Queue(m.flow)) + Packets(t, m)
  {
    hide Topology.Ok, MsgOk, Packets, Dest, OrdersOk, Shape, Flatten, Distinct, FreshFor;
    var a' := Pushed(a, m);
    PushedMsgs(t, a, m);
    PushedDistinct(t, a, m);
    forall f | FlowOk(t, f)
      ensures Dest(t, net, f) <= Flatten(t, a'.Queue(f))
    {
      assert Dest(t, net, f) <= Flatten(t, a.Queue(f));
    }
    forall f | FlowOk(t, f)
      ensures Of(f, a'.Ready(f.dst, f.cha)) <= a'.Queue(f)
    {
      assert Of(f, a.Ready(f.dst, f.cha)) <= a.Queue(f);
      assert a.Queue(f) <= a'.Queue(f);
    }
  }

  lemma PushedDistinct(t: Topology, a: Abs, m: Msg)
    requires Distinct(t, a) && FreshFor(t, a, m)
    ensures Distinct(t, Pushed(a, m))
  {
    hide Several;
    var a' := Pushed(a, m);
    forall f, i, g, j |
      && 0 <= i < |a'.Queue(f)| && 0 <= j < |a'.Queue(g)| && a'.Queue(f)[i].xmtid == a'.Queue(g)[j].xmtid
      && Several(t, a'.Queue(f)[i]) && Several(t, a'.Queue(g)[j])
      ensures f == g && i == j
    {
      assert (f == m.flow && i == |a.Queue(f)|) || (i < |a.Queue(f)| && a'.Queue(f)[i] == a.Queue(f)[i]);
      assert (g == m.flow && j == |a.Queue(g)|) || (j < |a.Queue(g)| && a'.Queue(g)[j] == a.Queue(g)[j]);
    }
  }

  lemma SendSegs(t: Topology, net: Net, src: Port, dst: Port, cha: Channel, data: seq<Byte>, f: Flow, k: Node)
    requires t.Ok() && Shape(t, net) && src in t.portToNode && dst in t.portToNode && cha < t.Channels()
    requires CanSend(net, src, cha) && FlowOk(t, f) && k in t.nodeIds
    ensures Seg(t, Send(t, net, src, dst, cha, data), f, k) == Seg(t, net, f, k)
  {
    hide Topology.Ok, Filter, Partial, Packetize;
    var net' := Send(t, net, src, dst, cha, data);
    assert Dest(t, net', f) == Dest(t, net, f);
  }

  lemma SendUnsent(t: Topology, net: Net, src: Port, dst: Port, cha: Channel, data: seq<Byte>, f: Flow)
    requires t.Ok() && Shape(t, net) && src in t.portToNode && dst in t.portToNode && cha < t.Channels()
    requires CanSend(net, src, cha) && FlowOk(t, f)
    ensures Unsent(Send(t, net, src, dst, cha, data), f) == Unsent(net, f) +
      (if f == Flow(src, dst, cha) then Packetize(t, src, dst, cha, net.xmtidAlloc, data) else [])
  {
    hide Topology.Ok, PacketCount;
    var net' := Send(t, net, src, dst, cha, data);
    WidthPositive(t, cha);
    var packs := Packetize(t, src, dst, cha, net.xmtidAlloc, data);
    if f == Flow(src, dst, cha) {
      FilterAll(f, packs);
    } else if f.src == src && f.cha == cha {
      FilterNone(f, packs);
    }
  }

  lemma SendRouted(t: Topology, net: Net, src: Port, dst: Port, cha: Channel, data: seq<Byte>)
    requires t.Ok() && Shape(t, net) && Routed(t, net)
    requires src in t.portToNode && dst in t.portToNode && cha < t.Channels() && CanSend(net, src, cha)
    ensures Routed(t, Send(t, net, src, dst, cha, data))
  {
    hide Topology.Ok, Carried, SlotRouted, PacketCount;
  }

  lemma SendLine(t: Topology, net: Net, src: Port, dst: Port, cha: Channel, data: seq<Byte>, g: Flow)
    requires t.Ok() && Shape(t, net) && src in t.portToNode && dst in t.portToNode && cha < t.Channels()
    requires CanSend(net, src, cha) && FlowOk(t, g)
    ensures InFlight(t, Send(t, net, src, dst, cha, data), g) == InFlight(t, net, g) +
      (if g == Flow(src, dst, cha) then Packetize(t, src, dst, cha, net.xmtidAlloc, data) else [])
  {
    hide Topology.Ok, Seg, Unsent, PacketCount, InFlight, Packetize;
    WidthPositive(t, cha);
    var net' := Send(t, net, src, dst, cha, data);
    SendUnsent(t, net, src, dst, cha, data, g);
    forall k | k in t.nodeIds
      ensures Seg(t, net', g, k) == Seg(t, net, g, k)
    {
      SendSegs(t, net, src, dst, cha, data, g, k);
    }
    SegsGain(t, net, net', g,
      if g == Flow(src, dst, cha) then Packetize(t, src, dst, cha, net.xmtidAlloc, data) else []);
  }

  /** The packets the send adds are those of the message it adds. */
  lemma SendFlow(t: Topology, net: Net, a: Abs, f: Flow, data: seq<Byte>, g: Flow)
    requires t.Ok() && FlowOk(t, f) && MsgsOk(t, a) && MsgsOk(t, AfterSend(t, net, a, f, data)) && Fits(t, f.cha, data)
    ensures t.chaWidths[f.cha] > 0
    ensures Flatten(t, AfterSend(t, net, a, f, data).Queue(g)) == Flatten(t, a.Queue(g)) +
      (if g == f then Packetize(t, f.src, f.dst, f.cha, net.xmtidAlloc, data) else [])
  {
    hide Topology.Ok, Flatten, PacketCount;
    WidthPositive(t, f.cha);
    if data == [] {
      PacketCountIsCeil(0, t.chaWidths[f.cha]);
    } else {
      PushedMsgs(t, a, Msg(f, net.xmtidAlloc, data));
    }
  }

  lemma SendDest(t: Topology, net: Net, a: Abs, f: Flow, data: seq<Byte>)
    requires t.Ok() && Inv(t, net, a) && FlowOk(t, f) && CanSend(net, f.src, f.cha)
    requires Fits(t, f.cha, data) && FreshFor(t, a, Msg(f, net.xmtidAlloc, data))
    ensures DestInv(t, Send(t, net, f.src, f.dst, f.cha, data), AfterSend(t, net, a, f, data))
  {
    hide Topology.Ok, Routed, FlowsOk, DestInv, PacketCount, Packetize, FreshFor;
    var net' := Send(t, net, f.src, f.dst, f.cha, data);
    SameDestKeeps(t, net, net', a);
    if data != [] {
      PushedInv(t, net', a, Msg(f, net.xmtidAlloc, data));
    }
  }

  /** A send that fits, with an id of its own if it needs one, keeps the invariant; its flow gains the message. */
  lemma SendKeeps(t: Topology, net: Net, a: Abs, f: Flow, data: seq<Byte>)
    requires t.Ok() && Inv(t, net, a) && FlowOk(t, f) && CanSend(net, f.src, f.cha)
    requires Fits(t, f.cha, data) && FreshFor(t, a, Msg(f, net.xmtidAlloc, data))
    ensures Inv(t, Send(t, net, f.src, f.dst, f.cha, data), AfterSend(t, net, a, f, data))
  {
    hide Topology.Ok, Routed, Flatten, InFlight, FreshFor, RecvOk, OrdersOk, ReadyOk, Distinct, DestPrefix, Fits, Send,
      AfterSend, EdgeOk, PortOk, NodeOk, MsgOk, Packetize, PacketCount;
    var net' := Send(t, net, f.src, f.dst, f.cha, data);
    var a' := AfterSend(t, net, a, f, data);
    SendRouted(t, net, f.src, f.dst, f.cha, data);
    SendDest(t, net, a, f, data);
    forall g | FlowOk(t, g)
      ensures InFlight(t, net', g) == Flatten(t, a'.Queue(g))
    {
      SendLine(t, net, f.src, f.dst, f.cha, data, g);
      SendFlow(t, net, a, f, data, g);
      assert InFlight(t, net, g) == Flatten(t, a.Queue(g));
    }
  }

  /** More in the send buffer is more at the back of the line. */
  lemma SegsGain(t: Topology, net: Net, net': Net, f: Flow, l: seq<MsgPack>)
    requires t.Ok() && Shape(t, net) && Shape(t, net') && FlowOk(t, f)
    requires forall k :: k in t.nodeIds ==> Seg(t, net', f, k) == Seg(t, net, f, k)
    requires Unsent(net', f) == Unsent(net, f) + l
    ensures InFlight(t, net', f) == InFlight(t, net, f) + l
  {
    hide Topology.Ok, Seg, Unsent;
    assert Segs(t, net', f) == Segs(t, net, f);
    Assoc(Along(t, DstNode(t, f), SrcNode(t, f), Segs(t, net, f)), Unsent(net, f), l);
  }
}

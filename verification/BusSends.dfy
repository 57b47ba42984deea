/** When a port can send again: its send buffer holds the rest of the last message, and nothing else refuses a send
    (src/bus/symmulcha.cpp:193-242). */
module BusSends {
  import opened Arithmetic
  import opened RouteTable
  import opened BusModel
  import opened BusPaths
  import opened BusRuns
  import opened BusShortRuns
  import opened BusTicks
  import opened BusNodes
  import opened BusCensus

  /** The last message sent from a port on a channel, with its transmission id. */
  datatype Last = Never | Last(flow: Flow, id: XmitId, data: seq<Byte>)

  /** The id counter after `k` sends. */
  function IdAfter(id0: XmitId, k: nat): XmitId { (id0 + k) % TWO_TO_32 }

  function LastSent(evs: seq<Event>, p: Port, c: Channel, id0: XmitId): Last {
    if evs == [] then Never
    else
      var n := |evs| - 1;
      if evs[n].Sent? && evs[n].flow.src == p && evs[n].flow.cha == c
      then Last(evs[n].flow, IdAfter(id0, Sends(evs[..n])), evs[n].data)
      else LastSent(evs[..n], p, c, id0)
  }

  /** Its packets. */
  ghost function LastPackets(t: Topology, m: Last): seq<MsgPack> {
    if m.Last? && FlowOk(t, m.flow) && t.chaWidths[m.flow.cha] > 0
    then Packetize(t, m.flow.src, m.flow.dst, m.flow.cha, m.id, m.data)
    else []
  }

  ghost predicate IsRest(l: seq<MsgPack>, ps: seq<MsgPack>) { |l| <= |ps| && l == ps[|ps| - |l|..] }

  // ---------------------------------------------------------------- what a tick takes out of a send buffer

  lemma ArriveSends(t: Topology, net: Net, n: Node, q: MsgPack, p: Port, c: Channel)
    requires Shape(t, net) && Addressed(t, q) && n in net.nodes
    ensures SendAt(Arrive(t, net, n, q), p, c) == SendAt(net, p, c)
  {
    hide EdgeOk, NodeOk, DeliverAt;
  }

  lemma TookSends(t: Topology, net: Net, n: Node, r: Net, p: Port, c: Channel)
    requires t.Ok() && Shape(t, net) && n in t.nodeIds && n in net.nodes && n in t.rxs && n in t.nodePorts
    requires TookOne(t, net, n, r)
    ensures var l := SendAt(net, p, c); SendAt(r, p, c) == l || (l != [] && SendAt(r, p, c) == l[1..])
  {
    hide Topology.Ok, Shape, FirstEdge, FirstPort, Arrive, Addressed, OutputAt, NoEdge, NoPort;
    if i, d :| TookFromEdge(t, net, n, i, d, r) {
      EdgeSends(t, net, n, i, d, r, p, c);
    } else if NoEdge(t, net, n) && exists i, d :: TookFromPort(t, net, n, i, d, r) {
      var i, d :| TookFromPort(t, net, n, i, d, r);
      PortSends(t, net, n, i, d, r, p, c);
    }
  }

  lemma EdgeSends(t: Topology, net: Net, n: Node, i: nat, d: Channel, r: Net, p: Port, c: Channel)
    requires t.Ok() && Shape(t, net) && n in t.nodeIds && n in net.nodes && n in t.rxs && n in t.nodePorts
    requires TookFromEdge(t, net, n, i, d, r)
    ensures SendAt(r, p, c) == SendAt(net, p, c)
  {
    hide Topology.Ok, EdgeOk, PortOk, NodeOk, Arrive, Addressed;
    var q := OutputAt(net, (t.rxs[n][i], d)).value;
    var net1 := SetPtrs(t, net, n, i, net.nodes[n].sdPtr);
    ArriveSends(t, TakeOutput(t, net1, t.rxs[n][i], d), n, q, p, c);
  }

  lemma PortSends(t: Topology, net: Net, n: Node, i: nat, d: Channel, r: Net, p: Port, c: Channel)
    requires t.Ok() && Shape(t, net) && n in t.nodeIds && n in net.nodes && n in t.rxs && n in t.nodePorts
    requires TookFromPort(t, net, n, i, d, r)
    ensures var l := SendAt(net, p, c); SendAt(r, p, c) == l || (l != [] && SendAt(r, p, c) == l[1..])
  {
    hide Topology.Ok, EdgeOk, PortOk, NodeOk, Arrive, Addressed;
    var q := SendAt(net, t.nodePorts[n][i], d)[0];
    var net1 := SetPtrs(t, net, n, net.nodes[n].rxPtr, i);
    PtrsKeep(t, net, n, net.nodes[n].rxPtr, i);
    ArriveSends(t, TakeSend(t, net1, t.nodePorts[n][i], d), n, q, p, c);
  }

  /** A tick takes at most one packet out of a send buffer, from its front. */
  lemma TickSends(t: Topology, net: Net, p: Port, c: Channel)
    requires t.Ok() && Shape(t, net) && p in t.portToNode
    ensures var l := SendAt(net, p, c);
      SendAt(Tick(t, net), p, c) == l || (l != [] && SendAt(Tick(t, net), p, c) == l[1..])
  {
    hide Topology.Ok, Tick, NodeStep, Wire, Between, TookOne, Going, EdgeOk, PortOk, NodeOk;
    PortsPlaced(t);
    var n := t.portToNode[p];
    TickExactly(t, net);
    var mid := NodeExactly(t, net, n);
    TookSends(t, net, n, mid, p, c);
    assert PortAt(Tick(t, net), p) == PortAt(NodeStep(t, net, n), p);
  }

  // ---------------------------------------------------------------- over a run

  lemma StepSends(t: Topology, limit: nat, net: Net, ev: Event, net': Net, p: Port, c: Channel)
    requires t.Ok() && Shape(t, net) && PlainStep(t, limit, net, ev, net') && p in t.portToNode && c < t.Channels()
    ensures if ev.Sent? && ev.flow.src == p && ev.flow.cha == c then
        SendAt(net', p, c) == LastPackets(t, Last(ev.flow, net.xmtidAlloc, ev.data))
      else
        var l := SendAt(net, p, c); SendAt(net', p, c) == l || (l != [] && SendAt(net', p, c) == l[1..])
    ensures net'.xmtidAlloc == if ev.Sent? then (net.xmtidAlloc + 1) % TWO_TO_32 else net.xmtidAlloc
  {
    hide Topology.Ok, EdgeOk, NodeOk, Packetize, PacketCount, Tick, RecvData, IdFree, Addressed;
    match ev
    case Sent(f, data) =>
    case Received(f, buf, data) =>
    case Ticked =>
      TickSends(t, net, p, c);
      SameIds(t, net);
  }

  lemma SameIds(t: Topology, net: Net)
    requires t.Ok() && Shape(t, net)
    ensures Tick(t, net).xmtidAlloc == net.xmtidAlloc
  {
    hide Topology.Ok, Shape, Tick, NodeStep, Wire, Between;
    TickExactly(t, net);
  }

  /** Over every run: what a send buffer holds is the rest of the last message sent from its port on its channel. */
  lemma {:induction false} SendBufferIsRest(
    t: Topology, limit: nat, first: Net, evs: seq<Event>, last: Net, p: Port, c: Channel)
    requires t.Ok() && Fresh(t, first) && PlainRun(t, limit, first, evs, last) && p in t.portToNode && c < t.Channels()
    requires first.xmtidAlloc < TWO_TO_32
    ensures IsRest(SendAt(last, p, c), LastPackets(t, LastSent(evs, p, c, first.xmtidAlloc)))
    ensures last.xmtidAlloc == IdAfter(first.xmtidAlloc, Sends(evs))
    decreases evs
  {
    hide Topology.Ok, Shape, PlainStep, LastPackets, SendAt, Fresh, IdAfter;
    if evs == [] {
      FirstId(first.xmtidAlloc);
      NothingToSend(t, first, p, c);
    } else {
      var n := |evs| - 1;
      var net :| Shape(t, net) && PlainRun(t, limit, first, evs[..n], net) && PlainStep(t, limit, net, evs[n], last);
      SendBufferIsRest(t, limit, first, evs[..n], net, p, c);
      StepSends(t, limit, net, evs[n], last, p, c);
      NextId(first.xmtidAlloc, Sends(evs[..n]));
    }
  }

  lemma FirstId(id: XmitId)
    requires id < TWO_TO_32
    ensures IdAfter(id, 0) == id
  {
  }

  lemma NextId(id: XmitId, k: nat)
    ensures IdAfter(id, k + 1) == (IdAfter(id, k) + 1) % TWO_TO_32
  {
  }

  lemma NothingToSend(t: Topology, first: Net, p: Port, c: Channel)
    requires Fresh(t, first) && p in t.portToNode && c < t.Channels()
    ensures SendAt(first, p, c) == [] && LastPackets(t, Never) == []
  {
  }

  /** Over every run, whatever else is under way: a port can send on a channel exactly when the whole last message it
      has sent there, if it has sent any, has left its send buffer. */
  lemma CanSendExactly(
    t: Topology, limit: nat, first: Net, evs: seq<Event>, last: Net, p: Port, c: Channel)
    requires t.Ok() && Fresh(t, first) && PlainRun(t, limit, first, evs, last) && p in t.portToNode && c < t.Channels()
    requires first.xmtidAlloc < TWO_TO_32 && Shape(t, last)
    ensures p in last.ports && c < |last.ports[p].sendBuf|
    ensures var ps := LastPackets(t, LastSent(evs, p, c, first.xmtidAlloc));
      CanSend(last, p, c) <==> forall i :: 0 <= i < |ps| ==> ps[i] !in last.ports[p].sendBuf[c]
  {
    hide Topology.Ok, LastPackets, LastSent, PlainRun, Fresh, EdgeOk, NodeOk;
    SendBufferIsRest(t, limit, first, evs, last, p, c);
    assert p in last.ports.Keys && PortOk(t, last.ports[p]);
    var ps, l := LastPackets(t, LastSent(evs, p, c, first.xmtidAlloc)), last.ports[p].sendBuf[c];
    assert SendAt(last, p, c) == l;
    if l != [] {
      assert ps[|ps| - |l|] == l[0];
    }
  }

  /** Within the draining bound every port can send on every channel again. */
  lemma CanSendAgain(t: Topology, limit: nat, first: Net, evs: seq<Event>, mid: Net, more: seq<Event>, last: Net)
    requires t.Ok() && Fresh(t, first) && PlainRun(t, limit, first, evs, mid)
    requires PlainRun(t, limit, mid, more, last) && Sends(more) == 0 && DrainsIn(t, mid, Ticks(more))
    ensures Shape(t, last)
    ensures forall p, c :: p in t.portToNode && 0 <= c < t.Channels() ==>
      p in last.ports && c < |last.ports[p].sendBuf| && CanSend(last, p, c)
  {
    hide Topology.Ok, PlainRun, Fresh, DrainsIn, EdgeOk, NodeOk, AtHome;
    EveryRunDrains(t, limit, first, evs, mid, more, last);
    forall p, c | p in t.portToNode && 0 <= c < t.Channels()
      ensures p in last.ports && c < |last.ports[p].sendBuf| && CanSend(last, p, c)
    {
      assert p in last.ports.Keys && PortOk(t, last.ports[p]);
    }
  }
}

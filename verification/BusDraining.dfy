/** The bus cannot deadlock: every tick that starts with a packet under way brings one closer. */
module BusDraining {
  import opened Wrappers
  import opened RouteTable
  import opened BusModel
  import opened BusPaths
  import opened BusDelivery
  import opened BusInvariant
  import opened BusSteps
  import opened BusOps
  import opened BusMeasure
  import opened BusWays

  /** How many places the scan passes before it comes to place `i`. */
  function Ahead(ptr: nat, i: nat, size: nat): nat
    requires ptr < size && i < size
  {
    if i >= ptr then i - ptr else i + size - ptr
  }

  /** A scan that finds nothing has looked everywhere it had budget for. */
  lemma {:induction false} ScanMiss(ready: seq<bool>, ptr: nat, k: nat)
    requires ptr < |ready| && k <= |ready| && !RingScan(ready, ptr, k).1
    ensures forall i :: 0 <= i < |ready| && Ahead(ptr, i, |ready|) < k ==> !ready[i]
    decreases k
  {
    hide NextPlace;
    if k > 0 {
      var next := NextPlace(ptr, |ready|);
      NextPlaceIs(ptr, |ready|);
      ScanMiss(ready, next, k - 1);
      forall i | 0 <= i < |ready| && Ahead(ptr, i, |ready|) < k
        ensures !ready[i]
      {
        if i != ptr {
          assert Ahead(next, i, |ready|) == Ahead(ptr, i, |ready|) - 1;
        }
      }
    }
  }

  lemma ScanMissAll(ready: seq<bool>, ptr: nat)
    requires (ptr < |ready| || |ready| == 0) && !RingScan(ready, ptr, |ready|).1
    ensures forall i :: 0 <= i < |ready| ==> !ready[i]
  {
    if |ready| > 0 {
      ScanMiss(ready, ptr, |ready|);
    }
  }

  /** Nothing waits to come into the node. */
  ghost predicate NothingIn(t: Topology, net: Net, n: Node)
    requires Shape(t, net)
  {
    && (forall e, c :: 0 <= e < |net.edges| && t.edgeEnds[e].1 == n && 0 <= c < t.Channels() ==>
          net.edges[e].output[c].None?)
    && (forall p, c :: p in net.ports && t.portToNode[p] == n && 0 <= c < t.Channels() ==>
          net.ports[p].sendBuf[c] == [])
  }

  ghost predicate AllBlocked(t: Topology, net: Net, n: Node)
    requires t.Ok() && Shape(t, net) && n in t.nodeIds
  {
    forall i :: 0 <= i < |net.nodes[n].pipeline| ==> Blocked(t, net, n, net.nodes[n].pipeline[i].pack)
  }

  lemma PlacesOf(t: Topology, n: Node)
    requires t.Ok() && n in t.nodeIds
    ensures n in t.rxs && n in t.nodePorts
    ensures forall e :: 0 <= e < |t.edgeEnds| && t.edgeEnds[e].1 == n ==> e in t.rxs[n]
    ensures forall p :: p in t.portToNode && t.portToNode[p] == n ==> p in t.nodePorts[n]
  {
  }

  lemma ScansFindAll(t: Topology, net: Net, n: Node)
    requires t.Ok() && Shape(t, net) && n in t.nodeIds
    requires forall i :: 0 <= i < |t.rxs[n]| ==> !RxReady(t, net, n)[i]
    requires forall i :: 0 <= i < |t.nodePorts[n]| ==> !SdReady(t, net, n)[i]
    ensures NothingIn(t, net, n)
  {
    hide Topology.Ok, FirstFull, FirstNonEmpty;
    PlacesOf(t, n);
    NodeIndices(t, net, n);
    forall e, c | 0 <= e < |net.edges| && t.edgeEnds[e].1 == n && 0 <= c < t.Channels()
      ensures net.edges[e].output[c].None?
    {
      var i :| 0 <= i < |t.rxs[n]| && t.rxs[n][i] == e;
      assert !RxReady(t, net, n)[i];
    }
    forall p, c | p in net.ports && t.portToNode[p] == n && 0 <= c < t.Channels()
      ensures net.ports[p].sendBuf[c] == []
    {
      var i :| 0 <= i < |t.nodePorts[n]| && t.nodePorts[n][i] == p;
      assert !SdReady(t, net, n)[i];
    }
  }

  lemma AcceptProgress(t: Topology, net: Net, n: Node)
    requires t.Ok() && Shape(t, net) && Routed(t, net) && n in t.nodeIds
    ensures Measure(t, Accept(t, net, n)) < Measure(t, net)
      || (SamePackets(net, Accept(t, net, n)) && NothingIn(t, net, n))
  {
    hide Topology.Ok, Arrive, EdgeOk, PortOk, NodeOk, RingScan, FirstFull, FirstNonEmpty, NothingIn,
      TakeOutput, TakeSend, Measure, RxReady, SdReady, SlotRouted, PipesRouted, SendsRouted;
    NodeIndices(t, net, n);
    var ns := net.nodes[n];
    var rx := RingScan(RxReady(t, net, n), ns.rxPtr, |t.rxs[n]|);
    var sd := RingScan(SdReady(t, net, n), ns.sdPtr, |t.nodePorts[n]|);
    if rx.1 {
      var net0 := SetPtrs(t, net, n, rx.0, ns.sdPtr);
      SamePacketsWeight(t, net, net0);
      RxFound(t, net, n, rx.0);
      var e := t.rxs[n][rx.0];
      var c := FirstFull(net.edges[e].output);
      assert SlotRouted(t, e, c, net.edges[e].output[c]);
      TakeEdgeWeight(t, net0, e, c);
    } else {
      var net0 := SetPtrs(t, net, n, rx.0, sd.0);
      SamePacketsWeight(t, net, net0);
      if sd.1 {
        SdFound(t, net, n, sd.0);
        var p := t.nodePorts[n][sd.0];
        TakeSendInWeight(t, net0, p, FirstNonEmpty(net.ports[p].sendBuf));
      } else {
        ScanMissAll(RxReady(t, net, n), ns.rxPtr);
        ScanMissAll(SdReady(t, net, n), ns.sdPtr);
        ScansFindAll(t, net, n);
      }
    }
  }

  lemma RxFound(t: Topology, net: Net, n: Node, i: nat)
    requires t.Ok() && Shape(t, net) && n in t.nodeIds && i < |t.rxs[n]| && RxReady(t, net, n)[i]
    ensures var e := t.rxs[n][i];
      && e < |net.edges| && t.edgeEnds[e].1 == n && n in net.nodes
      && FirstFull(net.edges[e].output) < t.Channels() == |net.edges[e].output|
  {
    hide Topology.Ok, FirstFull;
    NodeIndices(t, net, n);
  }

  lemma SdFound(t: Topology, net: Net, n: Node, i: nat)
    requires t.Ok() && Shape(t, net) && n in t.nodeIds && i < |t.nodePorts[n]| && SdReady(t, net, n)[i]
    ensures var p := t.nodePorts[n][i];
      && p in net.ports && p in t.portToNode && t.portToNode[p] == n && n in net.nodes
      && FirstNonEmpty(net.ports[p].sendBuf) < t.Channels() == |net.ports[p].sendBuf|
  {
    hide Topology.Ok, FirstNonEmpty;
    NodeIndices(t, net, n);
  }

  lemma SamePacketsTrans(a: Net, b: Net, c: Net)
    requires SamePackets(a, b) && SamePackets(b, c)
    ensures SamePackets(a, c)
  {
  }

  lemma {:induction false} PipeScanProgress(t: Topology, net: Net, n: Node, i: nat)
    requires t.Ok() && Shape(t, net) && Routed(t, net) && n in t.nodeIds && i <= |net.nodes[n].pipeline|
    requires AheadBlocked(t, net, n, i)
    ensures Measure(t, PipeScan(t, net, n, i)) < Measure(t, net)
      || (SamePackets(net, PipeScan(t, net, n, i)) && AllBlocked(t, net, n))
    decreases |net.nodes[n].pipeline| - i
  {
    hide Topology.Ok, Routed, Measure, AheadBlocked, AllBlocked, EdgeOk, PortOk, SamePackets;
    if i == |net.nodes[n].pipeline| {
      AllAhead(t, net, n);
      SamePacketsSelf(net);
    } else if Blocked(t, net, n, net.nodes[n].pipeline[i].pack) {
      var net' := Stay(t, net, n, i);
      StaySame(t, net, n, i);
      QuietRouted(t, net, net');
      SamePacketsWeight(t, net, net');
      StayAhead(t, net, n, i);
      PipeScanProgress(t, net', n, i + 1);
      if SamePackets(net', PipeScan(t, net', n, i + 1)) && AllBlocked(t, net', n) {
        SamePacketsTrans(net, net', PipeScan(t, net', n, i + 1));
        BlockedBack(t, net, net', n);
      }
    } else {
      PipeOutRouted(t, net, n, i);
      PipeOutWeight(t, net, n, i);
      var net' := PipeOut(t, net, n, i, EdgeFor(t, n, net.nodes[n].pipeline[i].pack.tgt));
      PipeOutAhead(t, net, n, i);
      PipeScanProgress(t, net', n, i);
      if SamePackets(net', PipeScan(t, net', n, i)) {
        SamePacketsWeight(t, net', PipeScan(t, net', n, i));
      }
    }
  }

  lemma AllAhead(t: Topology, net: Net, n: Node)
    requires t.Ok() && Shape(t, net) && n in t.nodeIds && AheadBlocked(t, net, n, |net.nodes[n].pipeline|)
    ensures AllBlocked(t, net, n)
  {
  }

  lemma BlockedBack(t: Topology, net: Net, net': Net, n: Node)
    requires t.Ok() && Shape(t, net) && Shape(t, net') && n in t.nodeIds
    requires SamePackets(net, net') && AllBlocked(t, net', n)
    ensures AllBlocked(t, net, n)
  {
    hide Topology.Ok;
    forall i | 0 <= i < |net.nodes[n].pipeline|
      ensures Blocked(t, net, n, net.nodes[n].pipeline[i].pack)
    {
      assert Blocked(t, net', n, net'.nodes[n].pipeline[i].pack);
    }
  }

  ghost predicate NodeIdle(t: Topology, net: Net, n: Node)
    requires t.Ok() && Shape(t, net) && n in t.nodeIds
  {
    NothingIn(t, net, n) && AllBlocked(t, net, n)
  }

  lemma NodeIdleBack(t: Topology, net: Net, net': Net, n: Node)
    requires t.Ok() && Shape(t, net) && Shape(t, net') && n in t.nodeIds
    requires SamePackets(net, net') && NodeIdle(t, net', n)
    ensures NodeIdle(t, net, n)
  {
    hide Topology.Ok;
    BlockedBack(t, net, net', n);
  }

  lemma NodeStepProgress(t: Topology, net: Net, n: Node)
    requires t.Ok() && Shape(t, net) && Routed(t, net) && n in t.nodeIds
    ensures Measure(t, NodeStep(t, net, n)) < Measure(t, net)
      || (SamePackets(net, NodeStep(t, net, n)) && NodeIdle(t, net, n))
  {
    hide Topology.Ok, Routed, Measure, Accept, PipeScan, SamePackets, NothingIn, AllBlocked;
    var net1 := Accept(t, net, n);
    var net2 := PipeScan(t, net1, n, 0);
    AcceptRouted(t, net, n);
    AcceptProgress(t, net, n);
    PipeScanProgress(t, net1, n, 0);
    if SamePackets(net1, net2) {
      SamePacketsWeight(t, net1, net2);
    }
    if SamePackets(net, net1) {
      SamePacketsWeight(t, net, net1);
      if SamePackets(net1, net2) && AllBlocked(t, net1, n) {
        SamePacketsTrans(net, net1, net2);
        BlockedBack(t, net, net1, n);
      }
    }
  }

  ghost predicate NodesIdle(t: Topology, net: Net, i: nat)
    requires t.Ok() && Shape(t, net)
  {
    forall j :: i <= j < |t.nodeIds| ==> NodeIdle(t, net, t.nodeIds[j])
  }

  lemma {:induction false} TickNodesProgress(t: Topology, net: Net, i: nat)
    requires t.Ok() && Shape(t, net) && Routed(t, net) && i <= |t.nodeIds|
    ensures Measure(t, TickNodes(t, net, i)) < Measure(t, net)
      || (SamePackets(net, TickNodes(t, net, i)) && NodesIdle(t, net, i))
    decreases |t.nodeIds| - i
  {
    hide Topology.Ok, Routed, Measure, NodeStep, SamePackets, NodeIdle;
    if i < |t.nodeIds| {
      var n := t.nodeIds[i];
      var net1 := NodeStep(t, net, n);
      var net2 := TickNodes(t, net1, i + 1);
      NodeStepRouted(t, net, n);
      NodeStepProgress(t, net, n);
      TickNodesProgress(t, net1, i + 1);
      if SamePackets(net1, net2) {
        SamePacketsWeight(t, net1, net2);
      }
      if SamePackets(net, net1) {
        SamePacketsWeight(t, net, net1);
        if SamePackets(net1, net2) && NodesIdle(t, net1, i + 1) {
          SamePacketsTrans(net, net1, net2);
          forall j | i + 1 <= j < |t.nodeIds|
            ensures NodeIdle(t, net, t.nodeIds[j])
          {
            assert NodeIdle(t, net1, t.nodeIds[j]);
            NodeIdleBack(t, net, net1, t.nodeIds[j]);
          }
        }
      }
    } else {
      SamePacketsSelf(net);
    }
  }

  lemma SamePacketsSelf(net: Net)
    ensures SamePackets(net, net)
  {
  }

  ghost predicate EdgeIdle(t: Topology, e: EdgeInChannel, c: Channel)
    requires EdgeOk(t, e)
  {
    forall k :: c <= k < t.Channels() ==> !EdgeReady(e, k)
  }

  lemma {:induction false} EdgeStepProgress(t: Topology, net: Net, e: nat, c: Channel, total: nat)
    requires t.Ok() && Shape(t, net) && Routed(t, net) && e < |net.edges| && c <= t.Channels()
    ensures Measure(t, EdgeStep(t, net, e, c, total)) < Measure(t, net)
      || (EdgeStep(t, net, e, c, total) == net && (total < t.width ==> EdgeIdle(t, net.edges[e], c)))
    decreases t.Channels() - c
  {
    hide Topology.Ok, Measure, PipesRouted, SendsRouted, SlotRouted;
    if c < t.Channels() && total < t.width {
      if EdgeReady(net.edges[e], c) {
        assert SlotRouted(t, e, c, net.edges[e].input[c]);
        EdgeMoveWeight(t, net, e, c);
        EdgeMoveRouted(t, net, e, c);
        EdgeStepProgress(t, EdgeMove(t, net, e, c), e, c + 1, total + |net.edges[e].input[c].value.data|);
      } else {
        EdgeStepProgress(t, net, e, c + 1, total);
      }
    }
  }

  ghost predicate EdgesIdle(t: Topology, net: Net, e: nat)
    requires Shape(t, net)
  {
    forall k :: e <= k < |net.edges| ==> EdgeIdle(t, net.edges[k], 0)
  }

  lemma WidthIsPositive(t: Topology)
    requires t.Ok()
    ensures t.width > 0
  {
  }

  lemma {:induction false} TickEdgesProgress(t: Topology, net: Net, e: nat)
    requires t.Ok() && Shape(t, net) && Routed(t, net) && e <= |net.edges|
    ensures Measure(t, TickEdges(t, net, e)) < Measure(t, net)
      || (TickEdges(t, net, e) == net && EdgesIdle(t, net, e))
    decreases |net.edges| - e
  {
    hide Topology.Ok, Routed, Measure, EdgeStep, EdgeIdle;
    if e < |net.edges| {
      WidthIsPositive(t);
      EdgeStepRouted(t, net, e, 0, 0);
      EdgeStepProgress(t, net, e, 0, 0);
      TickEdgesProgress(t, EdgeStep(t, net, e, 0, 0), e + 1);
    }
  }

  /** Nothing is under way: send buffers, pipelines and edges are empty. */
  ghost predicate Drained(t: Topology, net: Net)
    requires Shape(t, net)
  {
    && (forall p, c :: p in net.ports && 0 <= c < t.Channels() ==> net.ports[p].sendBuf[c] == [])
    && (forall n :: n in net.nodes ==> net.nodes[n].pipeline == [])
    && (forall e, c :: 0 <= e < |net.edges| && 0 <= c < t.Channels() ==>
          net.edges[e].input[c].None? && net.edges[e].output[c].None?)
  }

  lemma HeadWaits(t: Topology, net: Net, n: Node)
    requires t.Ok() && Shape(t, net) && n in t.nodeIds && AllBlocked(t, net, n) && net.nodes[n].pipeline != []
    ensures exists e, c :: 0 <= e < |net.edges| && 0 <= c < t.Channels() && net.edges[e].input[c].Some?
  {
    hide Topology.Ok;
    var p := net.nodes[n].pipeline[0].pack;
    assert Blocked(t, net, n, p);
    assert p.tgt == DstNode(t, FlowOf(p));
    assert net.edges[EdgeFor(t, n, p.tgt)].input[p.cha].Some?;
  }

  /** If no node and no edge can move anything, there is nothing to move. */
  lemma IdleIsDrained(t: Topology, net: Net)
    requires t.Ok() && Shape(t, net) && NodesIdle(t, net, 0) && EdgesIdle(t, net, 0)
    ensures Drained(t, net)
  {
    hide Topology.Ok;
    forall e, c | 0 <= e < |net.edges| && 0 <= c < t.Channels()
      ensures net.edges[e].input[c].None? && net.edges[e].output[c].None?
    {
      EdgeEnd(t, e);
      var j :| 0 <= j < |t.nodeIds| && t.nodeIds[j] == t.edgeEnds[e].1;
      assert NodeIdle(t, net, t.nodeIds[j]);
      assert EdgeIdle(t, net.edges[e], 0);
      assert !EdgeReady(net.edges[e], c);
    }
    forall n | n in net.nodes
      ensures net.nodes[n].pipeline == []
    {
      var j :| 0 <= j < |t.nodeIds| && t.nodeIds[j] == n;
      assert NodeIdle(t, net, n);
      if net.nodes[n].pipeline != [] {
        HeadWaits(t, net, n);
      }
    }
    forall p, c | p in net.ports && 0 <= c < t.Channels()
      ensures net.ports[p].sendBuf[c] == []
    {
      PortPlace(t, p);
      var j :| 0 <= j < |t.nodeIds| && t.nodeIds[j] == t.portToNode[p];
      assert NodeIdle(t, net, t.nodeIds[j]);
    }
  }

  lemma EdgeEnd(t: Topology, e: nat)
    requires t.Ok() && e < |t.edgeEnds|
    ensures t.edgeEnds[e].1 in t.nodeIds
  {
  }

  /** No deadlock: while a packet is under way, each tick brings the network closer to empty. */
  lemma TickProgress(t: Topology, net: Net)
    requires t.Ok() && Shape(t, net) && Routed(t, net) && !Drained(t, net)
    ensures Measure(t, Tick(t, net)) < Measure(t, net)
  {
    hide Topology.Ok, Routed, Measure, TickNodes, TickEdges, Drained, NodesIdle, EdgesIdle;
    var net1 := TickNodes(t, net, 0);
    TickNodesRouted(t, net, 0);
    TickNodesProgress(t, net, 0);
    TickEdgesProgress(t, net1, 0);
    if SamePackets(net, net1) {
      SamePacketsWeight(t, net, net1);
      if EdgesIdle(t, net1, 0) && NodesIdle(t, net, 0) {
        EdgesIdleBack(t, net, net1);
        IdleIsDrained(t, net);
      }
    }
  }

  lemma EdgesIdleBack(t: Topology, net: Net, net': Net)
    requires Shape(t, net) && Shape(t, net') && SamePackets(net, net') && EdgesIdle(t, net', 0)
    ensures EdgesIdle(t, net, 0)
  {
  }

  lemma TickMonotone(t: Topology, net: Net)
    requires t.Ok() && Shape(t, net) && Routed(t, net)
    ensures Measure(t, Tick(t, net)) <= Measure(t, net)
  {
    hide Topology.Ok, Routed, Measure, TickNodes, TickEdges, NodesIdle, EdgesIdle;
    var net1 := TickNodes(t, net, 0);
    TickNodesRouted(t, net, 0);
    TickNodesProgress(t, net, 0);
    TickEdgesProgress(t, net1, 0);
    if SamePackets(net, net1) {
      SamePacketsWeight(t, net, net1);
    }
  }

  /** The measure is zero exactly when nothing is under way. */
  lemma DrainedIsZero(t: Topology, net: Net)
    requires t.Ok() && Shape(t, net) && Routed(t, net)
    ensures Drained(t, net) <==> Measure(t, net) == 0
  {
    hide Topology.Ok, Routed;
    if Drained(t, net) {
      ZeroNodes(t, net);
      ZeroEdges(t, net);
    } else {
      TickProgress(t, net);
    }
  }

  lemma ZeroNodes(t: Topology, net: Net)
    requires Shape(t, net) && Drained(t, net)
    ensures Total(NodeWeights(t, net)) == 0
  {
    forall i | 0 <= i < |t.nodeIds|
      ensures NodeWeights(t, net)[i] == 0
    {
      var n := t.nodeIds[i];
      assert PipeWeight(t, net, n) == 0;
      if n in t.nodePorts {
        forall j | 0 <= j < |t.nodePorts[n]|
          ensures PortWeights(t, net, n, t.nodePorts[n])[j] == 0
        {
          if t.nodePorts[n][j] in net.ports {
            var lists := net.ports[t.nodePorts[n][j]].sendBuf;
            AllZero(seq(|lists|, c requires 0 <= c < |lists| => ListWeight(t, n, lists[c], 1)));
          }
        }
        AllZero(PortWeights(t, net, n, t.nodePorts[n]));
      }
    }
    AllZero(NodeWeights(t, net));
  }

  lemma ZeroSlots(t: Topology, n: Node, slots: seq<Option<MsgPack>>, less: nat)
    requires forall c :: 0 <= c < |slots| ==> slots[c].None?
    ensures SlotsWeight(t, n, slots, less) == 0
  {
    AllZero(seq(|slots|, i requires 0 <= i < |slots| => SlotWeight(t, n, slots[i], less)));
  }

  lemma ZeroEdges(t: Topology, net: Net)
    requires Shape(t, net) && Drained(t, net)
    ensures Total(EdgeWeights(t, net)) == 0
  {
    forall e | 0 <= e < |net.edges|
      ensures EdgeWeights(t, net)[e] == 0
    {
      ZeroSlots(t, t.edgeEnds[e].0, net.edges[e].input, 1);
      ZeroSlots(t, t.edgeEnds[e].0, net.edges[e].output, 2);
    }
    AllZero(EdgeWeights(t, net));
  }

  lemma WholeOrMore(t: Topology, q: seq<Msg>, k: nat, part: seq<MsgPack>)
    requires t.Ok() && AllOk(t, q) && k < |q| && Flatten(t, q[..k]) + part == Flatten(t, q)
    ensures |part| >= |Packets(t, q[k])| > 0
  {
    hide Topology.Ok, MsgOk, Packets, Flatten;
    FlattenAt(t, q, k);
    PacketsShape(t, q[k]);
    Cancel(Flatten(t, q[..k]), part, Packets(t, q[k]) + Flatten(t, q[k + 1..]));
  }

  /** Then every message in flight lies complete in its receive buffer. */
  lemma DrainedIsComplete(t: Topology, net: Net, a: Abs, f: Flow)
    requires t.Ok() && Inv(t, net, a) && Drained(t, net) && FlowOk(t, f)
    ensures Of(f, a.Ready(f.dst, f.cha)) == a.Queue(f)
  {
    hide Topology.Ok, Routed, MsgOk, Packets, Flatten, Drained, InFlight, OrdersOk, Partial;
    DrainedLine(t, net, f);
    DestLayout(t, net, a, f);
    var k, q := Done(a, f), a.Queue(f);
    var part := Partial(net.nodes[DstNode(t, f)].orderBuf, f);
    assert Of(f, a.Ready(f.dst, f.cha)) <= q;
    assert Flatten(t, q[..k]) + part == Flatten(t, q);
    if k < |q| {
      WholeOrMore(t, q, k, part);
      HeldMessage(t, net, a, f);
    }
  }

  lemma DrainedLine(t: Topology, net: Net, f: Flow)
    requires t.Ok() && Shape(t, net) && Drained(t, net) && FlowOk(t, f)
    ensures InFlight(t, net, f) == Dest(t, net, f)
  {
    hide Topology.Ok, Dest;
    AlongEmpty(t, net, f, SrcNode(t, f));
  }

  lemma {:induction false} AlongEmpty(t: Topology, net: Net, f: Flow, n: Node)
    requires t.Ok() && Shape(t, net) && Drained(t, net) && FlowOk(t, f) && n in t.nodeIds
    ensures Along(t, DstNode(t, f), n, Segs(t, net, f)) == Dest(t, net, f)
    decreases t.Hops(n, DstNode(t, f))
  {
    hide Topology.Ok, Dest, Drained, EdgeOk, PortOk, NodeOk;
    if n != DstNode(t, f) {
      AlongEmpty(t, net, f, Hop(t, n, DstNode(t, f)));
      SegEmpty(t, net, f, n);
    }
  }

  lemma SegEmpty(t: Topology, net: Net, f: Flow, n: Node)
    requires t.Ok() && Shape(t, net) && Drained(t, net) && FlowOk(t, f) && n in t.nodeIds && n != DstNode(t, f)
    ensures Seg(t, net, f, n) == []
  {
    hide Topology.Ok, Dest, PortOk, NodeOk;
  }
}

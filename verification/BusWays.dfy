/** Whatever is sent, in whatever order, every packet stays on the way of its flow. */
module BusWays {
  import opened RouteTable
  import opened BusModel
  import opened BusPaths
  import opened BusInvariant
  import opened BusSteps

  lemma QuietRouted(t: Topology, net: Net, net': Net)
    requires t.Ok() && Shape(t, net) && Shape(t, net') && Routed(t, net) && SamePackets(net, net')
    ensures Routed(t, net')
  {
    hide Topology.Ok, Carried, SlotRouted, EdgeOk, PortOk, NodeOk;
  }

  lemma EdgeMoveRouted(t: Topology, net: Net, e: nat, c: Channel)
    requires t.Ok() && Shape(t, net) && Routed(t, net) && e < |net.edges| && c < t.Channels()
    ensures Routed(t, EdgeMove(t, net, e, c))
  {
    hide Topology.Ok, Carried, EdgeFor, PipesRouted, SendsRouted;
    var net' := EdgeMove(t, net, e, c);
    forall e', c' | 0 <= e' < |net.edges| && 0 <= c' < t.Channels()
      ensures SlotRouted(t, e', c', net'.edges[e'].input[c']) && SlotRouted(t, e', c', net'.edges[e'].output[c'])
    {
      assert SlotRouted(t, e', c', net.edges[e'].input[c']) && SlotRouted(t, e', c', net.edges[e'].output[c']);
    }
    EdgeOnly(t, net, net');
  }

  lemma EdgeOnly(t: Topology, net: Net, net': Net)
    requires t.Ok() && Shape(t, net) && Shape(t, net') && net'.nodes == net.nodes && net'.ports == net.ports
    requires PipesRouted(t, net) && SendsRouted(t, net)
    ensures PipesRouted(t, net') && SendsRouted(t, net')
  {
    hide Topology.Ok, Carried, EdgeOk, PortOk, NodeOk;
  }

  lemma TakeEdgeRouted(t: Topology, net: Net, e: nat, c: Channel)
    requires t.Ok() && Shape(t, net) && Routed(t, net) && e < |net.edges| && c < t.Channels()
    requires net.edges[e].output[c].Some?
    ensures t.edgeEnds[e].1 in net.nodes && Addressed(t, net.edges[e].output[c].value)
    ensures Routed(t, Arrive(t, TakeOutput(t, net, e, c), t.edgeEnds[e].1, net.edges[e].output[c].value))
  {
    hide Topology.Ok, OnPath, Routed, Deliver, Enqueue, PortOk, NodeOk;
    var p, at, n := net.edges[e].output[c].value, t.edgeEnds[e].0, t.edgeEnds[e].1;
    SlotIsRouted(t, net, e, c);
    var net1 := TakeOutput(t, net, e, c);
    TakeOutputRouted(t, net, e, c);
    if p.tgt == n {
      DeliverRouted(t, net1, p);
    } else {
      CarriedOn(t, p, at);
      EnqueueRouted(t, net1, n, p);
    }
  }

  lemma TakeSendInRouted(t: Topology, net: Net, port: Port, c: Channel)
    requires t.Ok() && Shape(t, net) && Routed(t, net) && port in net.ports && c < t.Channels()
    requires net.ports[port].sendBuf[c] != []
    ensures t.portToNode[port] in net.nodes && Addressed(t, net.ports[port].sendBuf[c][0])
    ensures Routed(t, Arrive(t, TakeSend(t, net, port, c), t.portToNode[port], net.ports[port].sendBuf[c][0]))
  {
    hide Topology.Ok, EdgesRouted, PipesRouted, Deliver, Enqueue, EdgeOk, NodeOk;
    var p := net.ports[port].sendBuf[c][0];
    assert p.src == port && p.cha == c;
    var n := SrcNode(t, FlowOf(p));
    var net1 := TakeSend(t, net, port, c);
    TakeSendRouted(t, net, port, c);
    if p.tgt == n {
      DeliverRouted(t, net1, p);
    } else {
      assert p.tgt == DstNode(t, FlowOf(p));
      assert Carried(t, p, n);
      EnqueueRouted(t, net1, n, p);
    }
  }

  lemma AcceptRouted(t: Topology, net: Net, n: Node)
    requires t.Ok() && Shape(t, net) && Routed(t, net) && n in t.nodeIds
    ensures Routed(t, Accept(t, net, n))
  {
    hide Topology.Ok, Routed, Arrive, EdgeOk, PortOk, NodeOk, RingScan, FirstFull, FirstNonEmpty, TakeOutput, TakeSend;
    NodeIndices(t, net, n);
    var ns := net.nodes[n];
    var rx := RingScan(RxReady(t, net, n), ns.rxPtr, |t.rxs[n]|);
    if rx.1 {
      var net0 := SetPtrs(t, net, n, rx.0, ns.sdPtr);
      QuietRouted(t, net, net0);
      var e := t.rxs[n][rx.0];
      TakeEdgeRouted(t, net0, e, FirstFull(net.edges[e].output));
    } else {
      var sd := RingScan(SdReady(t, net, n), ns.sdPtr, |t.nodePorts[n]|);
      var net0 := SetPtrs(t, net, n, rx.0, sd.0);
      QuietRouted(t, net, net0);
      if sd.1 {
        var port := t.nodePorts[n][sd.0];
        TakeSendInRouted(t, net0, port, FirstNonEmpty(net.ports[port].sendBuf));
      }
    }
  }

  lemma {:induction false} PipeScanRouted(t: Topology, net: Net, n: Node, i: nat)
    requires t.Ok() && Shape(t, net) && Routed(t, net) && n in t.nodeIds && i <= |net.nodes[n].pipeline|
    ensures Routed(t, PipeScan(t, net, n, i))
    decreases |net.nodes[n].pipeline| - i
  {
    hide Topology.Ok, Routed, EdgeOk, PortOk, NodeOk, SamePackets, Stay, PipeOut;
    if i < |net.nodes[n].pipeline| {
      PipeTarget(t, net, n, i);
      PipeOutRouted(t, net, n, i);
      if Blocked(t, net, n, net.nodes[n].pipeline[i].pack) {
        StaySame(t, net, n, i);
        QuietRouted(t, net, Stay(t, net, n, i));
        StayLength(t, net, n, i);
        PipeScanRouted(t, Stay(t, net, n, i), n, i + 1);
      } else {
        var e := EdgeFor(t, n, net.nodes[n].pipeline[i].pack.tgt);
        PipeOutLength(t, net, n, i, e);
        PipeScanRouted(t, PipeOut(t, net, n, i, e), n, i);
      }
    }
  }

  lemma StayLength(t: Topology, net: Net, n: Node, i: nat)
    requires Shape(t, net) && n in net.nodes && i < |net.nodes[n].pipeline|
    ensures n in Stay(t, net, n, i).nodes && |Stay(t, net, n, i).nodes[n].pipeline| == |net.nodes[n].pipeline|
  {
  }

  lemma PipeOutLength(t: Topology, net: Net, n: Node, i: nat, e: nat)
    requires Shape(t, net) && n in net.nodes && i < |net.nodes[n].pipeline| && e < |net.edges|
    ensures var net' := PipeOut(t, net, n, i, e);
      n in net'.nodes && |net'.nodes[n].pipeline| == |net.nodes[n].pipeline| - 1
  {
  }

  lemma NodeStepRouted(t: Topology, net: Net, n: Node)
    requires t.Ok() && Shape(t, net) && Routed(t, net) && n in t.nodeIds
    ensures Routed(t, NodeStep(t, net, n))
  {
    hide Topology.Ok, Routed, Accept, PipeScan;
    AcceptRouted(t, net, n);
    PipeScanRouted(t, Accept(t, net, n), n, 0);
  }

  lemma {:induction false} EdgeStepRouted(t: Topology, net: Net, e: nat, c: Channel, total: nat)
    requires t.Ok() && Shape(t, net) && Routed(t, net) && e < |net.edges| && c <= t.Channels()
    ensures Routed(t, EdgeStep(t, net, e, c, total))
    decreases t.Channels() - c
  {
    hide Topology.Ok, Routed;
    if c < t.Channels() && total < t.width {
      if EdgeReady(net.edges[e], c) {
        EdgeMoveRouted(t, net, e, c);
        EdgeStepRouted(t, EdgeMove(t, net, e, c), e, c + 1, total + |net.edges[e].input[c].value.data|);
      } else {
        EdgeStepRouted(t, net, e, c + 1, total);
      }
    }
  }

  lemma {:induction false} TickNodesRouted(t: Topology, net: Net, i: nat)
    requires t.Ok() && Shape(t, net) && Routed(t, net) && i <= |t.nodeIds|
    ensures Routed(t, TickNodes(t, net, i))
    decreases |t.nodeIds| - i
  {
    hide Topology.Ok, Routed, NodeStep;
    if i < |t.nodeIds| {
      NodeStepRouted(t, net, t.nodeIds[i]);
      TickNodesRouted(t, NodeStep(t, net, t.nodeIds[i]), i + 1);
    }
  }

  lemma {:induction false} TickEdgesRouted(t: Topology, net: Net, e: nat)
    requires t.Ok() && Shape(t, net) && Routed(t, net) && e <= |net.edges|
    ensures Routed(t, TickEdges(t, net, e))
    decreases |net.edges| - e
  {
    hide Topology.Ok, Routed, EdgeStep;
    if e < |net.edges| {
      EdgeStepRouted(t, net, e, 0, 0);
      TickEdgesRouted(t, EdgeStep(t, net, e, 0, 0), e + 1);
    }
  }

  lemma TickRouted(t: Topology, net: Net)
    requires t.Ok() && Shape(t, net) && Routed(t, net)
    ensures Routed(t, Tick(t, net))
  {
    hide Topology.Ok, Routed, TickNodes, TickEdges;
    TickNodesRouted(t, net, 0);
    TickEdgesRouted(t, TickNodes(t, net, 0), 0);
  }
}

/** How far the packets still have to go: every move lowers the sum by exactly one. */
module BusMeasure {
  import opened Wrappers
  import opened RouteTable
  import opened BusModel
  import opened BusPaths
  import opened BusInvariant
  import opened BusSteps

  function Total(s: seq<nat>): nat {
    if s == [] then 0 else s[0] + Total(s[1..])
  }

  lemma {:induction false} TotalOne(a: seq<nat>, b: seq<nat>, i: nat)
    requires |a| == |b| && i < |a|
    requires forall j :: 0 <= j < |a| && j != i ==> a[j] == b[j]
    ensures Total(a) + b[i] == Total(b) + a[i]
  {
    if i == 0 {
      assert a[1..] == b[1..];
    } else {
      TotalOne(a[1..], b[1..], i - 1);
    }
  }

  lemma {:induction false} AllZero(a: seq<nat>)
    requires forall i :: 0 <= i < |a| ==> a[i] == 0
    ensures Total(a) == 0
  {
    if a != [] {
      AllZero(a[1..]);
    }
  }

  ghost function Dist(t: Topology, n: Node, d: Node): nat {
    var r := WalkDist(t.route, n, d, t.Fuel());
    if r.Some? then r.value else 0
  }

  /** Packets waiting at node `n`: three for each hop left, and `extra` for being behind the pipeline. */
  ghost function ListWeight(t: Topology, n: Node, l: seq<MsgPack>, extra: nat): nat {
    Total(seq(|l|, i requires 0 <= i < |l| => 3 * Dist(t, n, l[i].tgt) + extra))
  }

  ghost function SlotWeight(t: Topology, n: Node, v: Option<MsgPack>, less: nat): nat {
    if v.Some? && 3 * Dist(t, n, v.value.tgt) >= less then 3 * Dist(t, n, v.value.tgt) - less else 0
  }

  ghost function SlotsWeight(t: Topology, n: Node, slots: seq<Option<MsgPack>>, less: nat): nat {
    Total(seq(|slots|, i requires 0 <= i < |slots| => SlotWeight(t, n, slots[i], less)))
  }

  /** On the wire: one closer than in the pipeline behind it, two closer on the far side. */
  ghost function EdgeWeight(t: Topology, n: Node, e: EdgeInChannel): nat {
    SlotsWeight(t, n, e.input, 1) + SlotsWeight(t, n, e.output, 2)
  }

  ghost function PortWeight(t: Topology, net: Net, n: Node, p: Port): nat {
    if p in net.ports then ListsWeight(t, n, net.ports[p].sendBuf) else 0
  }

  ghost function ListsWeight(t: Topology, n: Node, lists: seq<seq<MsgPack>>): nat {
    Total(seq(|lists|, c requires 0 <= c < |lists| => ListWeight(t, n, lists[c], 1)))
  }

  ghost function PortsWeight(t: Topology, net: Net, n: Node): nat {
    if n in t.nodePorts then Total(PortWeights(t, net, n, t.nodePorts[n])) else 0
  }

  ghost function PortWeights(t: Topology, net: Net, n: Node, ps: seq<Port>): (r: seq<nat>)
    ensures |r| == |ps| && forall i :: 0 <= i < |ps| ==> r[i] == PortWeight(t, net, n, ps[i])
  {
    seq(|ps|, i requires 0 <= i < |ps| => PortWeight(t, net, n, ps[i]))
  }

  ghost function PipeWeight(t: Topology, net: Net, n: Node): nat {
    if n in net.nodes then ListWeight(t, n, Packs(net.nodes[n].pipeline), 0) else 0
  }

  ghost function NodeWeights(t: Topology, net: Net): (r: seq<nat>)
    ensures |r| == |t.nodeIds|
  {
    seq(|t.nodeIds|, i requires 0 <= i < |t.nodeIds| =>
      PipeWeight(t, net, t.nodeIds[i]) + PortsWeight(t, net, t.nodeIds[i]))
  }

  ghost function EdgeWeights(t: Topology, net: Net): (r: seq<nat>)
    requires |net.edges| == |t.edgeEnds|
    ensures |r| == |net.edges|
  {
    seq(|net.edges|, e requires 0 <= e < |net.edges| => EdgeWeight(t, t.edgeEnds[e].0, net.edges[e]))
  }

  /** Three times the hops left plus the stage, over all packets not yet delivered. */
  ghost function Measure(t: Topology, net: Net): nat
    requires |net.edges| == |t.edgeEnds|
  {
    Total(NodeWeights(t, net)) + Total(EdgeWeights(t, net))
  }

  // ---------------------------------------------------------------- changes in one place

  lemma EdgeChange(t: Topology, net: Net, net': Net, e: nat)
    requires |net.edges| == |net'.edges| == |t.edgeEnds| && e < |net.edges|
    requires forall k :: 0 <= k < |net.edges| && k != e ==> net'.edges[k] == net.edges[k]
    ensures Total(EdgeWeights(t, net)) + EdgeWeight(t, t.edgeEnds[e].0, net'.edges[e])
         == Total(EdgeWeights(t, net')) + EdgeWeight(t, t.edgeEnds[e].0, net.edges[e])
  {
    TotalOne(EdgeWeights(t, net), EdgeWeights(t, net'), e);
  }

  lemma SameNodeWeights(t: Topology, net: Net, net': Net)
    requires forall n :: n in t.nodeIds ==>
      PipeWeight(t, net', n) == PipeWeight(t, net, n) && PortsWeight(t, net', n) == PortsWeight(t, net, n)
    ensures NodeWeights(t, net') == NodeWeights(t, net)
  {
    hide PipeWeight, PortsWeight;
  }

  lemma NodeChange(t: Topology, net: Net, net': Net, n: Node)
    requires t.Ok() && n in t.nodeIds
    requires forall k :: k in t.nodeIds && k != n ==>
      PipeWeight(t, net', k) == PipeWeight(t, net, k) && PortsWeight(t, net', k) == PortsWeight(t, net, k)
    ensures Total(NodeWeights(t, net)) + PipeWeight(t, net', n) + PortsWeight(t, net', n)
         == Total(NodeWeights(t, net')) + PipeWeight(t, net, n) + PortsWeight(t, net, n)
  {
    hide PipeWeight, PortsWeight;
    var i :| 0 <= i < |t.nodeIds| && t.nodeIds[i] == n;
    TotalOne(NodeWeights(t, net), NodeWeights(t, net'), i);
  }

  lemma SlotChange(t: Topology, n: Node, slots: seq<Option<MsgPack>>, c: nat, v: Option<MsgPack>, less: nat)
    requires c < |slots|
    ensures SlotsWeight(t, n, slots, less) + SlotWeight(t, n, v, less)
         == SlotsWeight(t, n, slots[c := v], less) + SlotWeight(t, n, slots[c], less)
  {
    hide SlotWeight;
    var a := seq(|slots|, i requires 0 <= i < |slots| => SlotWeight(t, n, slots[i], less));
    var slots' := slots[c := v];
    var b := seq(|slots'|, i requires 0 <= i < |slots'| => SlotWeight(t, n, slots'[i], less));
    TotalOne(a, b, c);
  }

  lemma {:induction false} ListCut(t: Topology, n: Node, a: seq<MsgPack>, p: MsgPack, b: seq<MsgPack>, extra: nat)
    ensures ListWeight(t, n, a + [p] + b, extra) == ListWeight(t, n, a + b, extra) + 3 * Dist(t, n, p.tgt) + extra
  {
    hide Dist;
    if a == [] {
      assert a + [p] + b == [p] + b;
      assert a + b == b;
      ListHead(t, n, p, b, extra);
    } else {
      ListCut(t, n, a[1..], p, b, extra);
      ListHead(t, n, a[0], a[1..] + [p] + b, extra);
      ListHead(t, n, a[0], a[1..] + b, extra);
      assert a + [p] + b == [a[0]] + (a[1..] + [p] + b);
      assert a + b == [a[0]] + (a[1..] + b);
    }
  }

  lemma ListHead(t: Topology, n: Node, p: MsgPack, b: seq<MsgPack>, extra: nat)
    ensures ListWeight(t, n, [p] + b, extra) == ListWeight(t, n, b, extra) + 3 * Dist(t, n, p.tgt) + extra
  {
    hide Dist;
    var l := [p] + b;
    var w := seq(|l|, i requires 0 <= i < |l| => 3 * Dist(t, n, l[i].tgt) + extra);
    assert w[1..] == seq(|b|, i requires 0 <= i < |b| => 3 * Dist(t, n, b[i].tgt) + extra);
  }

  // ---------------------------------------------------------------- what each move costs

  lemma DistHop(t: Topology, n: Node, d: Node)
    requires t.Ok() && n in t.nodeIds && d in t.nodeIds && n != d
    ensures Dist(t, n, d) == Dist(t, Hop(t, n, d), d) + 1
  {
    hide Topology.Ok;
    Reaches(t, n, d);
    Reaches(t, Hop(t, n, d), d);
    assert t.Hops(Hop(t, n, d), d) == t.Hops(n, d) - 1;
  }

  lemma DistSelf(t: Topology, n: Node)
    ensures Dist(t, n, n) == 0
  {
  }

  lemma NodesUntouched(t: Topology, net: Net, net': Net)
    requires net'.ports == net.ports && net'.nodes == net.nodes
    ensures NodeWeights(t, net') == NodeWeights(t, net)
  {
    hide ListWeight, PortsWeight;
    SamePortWeights(t, net, net');
    SameNodeWeights(t, net, net');
  }

  lemma TakeOutputWeight(t: Topology, net: Net, e: nat, c: Channel)
    requires t.Ok() && Shape(t, net) && e < |net.edges| && c < t.Channels() && net.edges[e].output[c].Some?
    requires SlotRouted(t, e, c, net.edges[e].output[c])
    ensures var p, n := net.edges[e].output[c].value, t.edgeEnds[e].0;
      Measure(t, net) == Measure(t, TakeOutput(t, net, e, c)) + 3 * Dist(t, n, p.tgt) - 2
  {
    hide Topology.Ok, OnPath, SlotsWeight, NodeWeights, EdgeWeights, Dist;
    var p, n := net.edges[e].output[c].value, t.edgeEnds[e].0;
    var net' := TakeOutput(t, net, e, c);
    NodesUntouched(t, net, net');
    EdgeChange(t, net, net', e);
    SlotChange(t, n, net.edges[e].output, c, None, 2);
    DistHop(t, n, p.tgt);
  }

  lemma EdgeMoveWeight(t: Topology, net: Net, e: nat, c: Channel)
    requires t.Ok() && Shape(t, net) && e < |net.edges| && c < t.Channels() && EdgeReady(net.edges[e], c)
    requires SlotRouted(t, e, c, net.edges[e].input[c])
    ensures Measure(t, net) == Measure(t, EdgeMove(t, net, e, c)) + 1
  {
    hide Topology.Ok, OnPath, SlotsWeight, NodeWeights, EdgeWeights, Dist;
    var p, n := net.edges[e].input[c].value, t.edgeEnds[e].0;
    var net' := EdgeMove(t, net, e, c);
    NodesUntouched(t, net, net');
    EdgeChange(t, net, net', e);
    SlotChange(t, n, net.edges[e].output, c, Some(p), 2);
    SlotChange(t, n, net.edges[e].input, c, None, 1);
    DistHop(t, n, p.tgt);
  }

  lemma EdgesUntouched(t: Topology, net: Net, net': Net)
    requires net'.edges == net.edges && |net.edges| == |t.edgeEnds|
    ensures EdgeWeights(t, net') == EdgeWeights(t, net)
  {
  }

  lemma PipeWeights(t: Topology, net: Net, net': Net, n: Node)
    requires t.Ok() && Shape(t, net) && Shape(t, net') && n in t.nodeIds
    requires net'.ports == net.ports
    requires forall k :: k in net.nodes && k != n ==> net'.nodes[k].pipeline == net.nodes[k].pipeline
    ensures Total(NodeWeights(t, net)) + PipeWeight(t, net', n) == Total(NodeWeights(t, net')) + PipeWeight(t, net, n)
  {
    hide Topology.Ok, ListWeight, PortsWeight, NodeWeights;
    SamePortWeights(t, net, net');
    NodeChange(t, net, net', n);
  }

  lemma PipeOutWeight(t: Topology, net: Net, n: Node, i: nat)
    requires t.Ok() && Shape(t, net) && n in t.nodeIds && i < |net.nodes[n].pipeline|
    requires !Blocked(t, net, n, net.nodes[n].pipeline[i].pack)
    ensures var p := net.nodes[n].pipeline[i].pack;
      p.tgt in t.nodeIds &&
      Measure(t, net) == Measure(t, PipeOut(t, net, n, i, EdgeFor(t, n, p.tgt))) + 1
  {
    hide Topology.Ok, SlotsWeight, NodeWeights, EdgeWeights, Dist, ListWeight, Packs, PortOk;
    var pl := net.nodes[n].pipeline;
    var p := pl[i].pack;
    assert p.tgt == DstNode(t, FlowOf(p));
    var e := EdgeFor(t, n, p.tgt);
    var net' := PipeOut(t, net, n, i, e);
    PipeWeights(t, net, net', n);
    EdgeChange(t, net, net', e);
    SlotChange(t, n, net.edges[e].input, p.cha, Some(p), 1);
    var ps := Packs(pl);
    assert ps == ps[..i] + [p] + ps[i + 1..];
    assert Packs(net'.nodes[n].pipeline) == ps[..i] + ps[i + 1..];
    ListCut(t, n, ps[..i], p, ps[i + 1..], 0);
    DistHop(t, n, p.tgt);
  }

  lemma EnqueueWeight(t: Topology, net: Net, n: Node, p: MsgPack)
    requires t.Ok() && Shape(t, net) && Addressed(t, p) && n in t.nodeIds && n in net.nodes && p.tgt != n
    ensures Measure(t, Enqueue(t, net, n, p)) == Measure(t, net) + 3 * Dist(t, n, p.tgt)
  {
    hide Topology.Ok, NodeWeights, EdgeWeights, Dist, ListWeight, Packs;
    var net' := Enqueue(t, net, n, p);
    EdgesUntouched(t, net, net');
    PipeWeights(t, net, net', n);
    var ps := Packs(net.nodes[n].pipeline);
    assert Packs(net'.nodes[n].pipeline) == ps + [p] + [];
    assert ps + [] == ps;
    ListCut(t, n, ps, p, [], 0);
  }

  lemma DeliverWeight(t: Topology, net: Net, p: MsgPack)
    requires t.Ok() && Shape(t, net) && Addressed(t, p) && p.tgt in net.nodes
    ensures Measure(t, Deliver(t, net, p.tgt, p)) == Measure(t, net)
  {
    hide Topology.Ok, Dist, ListWeight, DeliverAt, Total, EdgeWeights;
    var net' := Deliver(t, net, p.tgt, p);
    EdgesUntouched(t, net, net');
    SamePortWeights(t, net, net');
    SameNodeWeights(t, net, net');
  }

  lemma SamePortWeights(t: Topology, net: Net, net': Net)
    requires net'.ports.Keys == net.ports.Keys
    requires forall p :: p in net.ports ==> net'.ports[p].sendBuf == net.ports[p].sendBuf
    ensures forall n :: PortsWeight(t, net', n) == PortsWeight(t, net, n)
  {
    hide ListsWeight, Total;
    forall n
      ensures PortsWeight(t, net', n) == PortsWeight(t, net, n)
    {
      if n in t.nodePorts {
        assert PortWeights(t, net, n, t.nodePorts[n]) == PortWeights(t, net', n, t.nodePorts[n]);
      }
    }
  }

  lemma TakeSendWeight(t: Topology, net: Net, port: Port, c: Channel)
    requires t.Ok() && Shape(t, net) && port in t.portToNode && port in net.ports && c < t.Channels()
    requires net.ports[port].sendBuf[c] != []
    ensures var p := net.ports[port].sendBuf[c][0];
      Measure(t, net) == Measure(t, TakeSend(t, net, port, c)) + 3 * Dist(t, t.portToNode[port], p.tgt) + 1
  {
    hide Dist, ListWeight, Total, EdgeWeights, NodeWeights, Topology.Ok, ListsWeight, NodeOk, EdgeOk;
    PortPlace(t, port);
    var n := t.portToNode[port];
    var net' := TakeSend(t, net, port, c);
    var lists, l := net.ports[port].sendBuf, net.ports[port].sendBuf[c];
    EdgesUntouched(t, net, net');
    forall k | k in t.nodeIds && k != n
      ensures PipeWeight(t, net', k) == PipeWeight(t, net, k) && PortsWeight(t, net', k) == PortsWeight(t, net, k)
    {
      PortsOf(t, k);
      assert PortWeights(t, net, k, t.nodePorts[k]) == PortWeights(t, net', k, t.nodePorts[k]);
    }
    NodeChange(t, net, net', n);
    var i :| 0 <= i < |t.nodePorts[n]| && t.nodePorts[n][i] == port;
    PortsOf(t, n);
    TotalOne(PortWeights(t, net, n, t.nodePorts[n]), PortWeights(t, net', n, t.nodePorts[n]), i);
    ListsChange(t, n, lists, c, l[1..]);
    assert l == [] + [l[0]] + l[1..];
    assert [] + l[1..] == l[1..];
    ListCut(t, n, [], l[0], l[1..], 1);
  }

  lemma ListsChange(t: Topology, n: Node, lists: seq<seq<MsgPack>>, c: nat, l: seq<MsgPack>)
    requires c < |lists|
    ensures ListsWeight(t, n, lists) + ListWeight(t, n, l, 1) ==
      ListsWeight(t, n, lists[c := l]) + ListWeight(t, n, lists[c], 1)
  {
    hide ListWeight;
    var lists' := lists[c := l];
    TotalOne(seq(|lists|, i requires 0 <= i < |lists| => ListWeight(t, n, lists[i], 1)),
      seq(|lists'|, i requires 0 <= i < |lists'| => ListWeight(t, n, lists'[i], 1)), c);
  }

  lemma PortPlace(t: Topology, port: Port)
    requires t.Ok() && port in t.portToNode
    ensures var n := t.portToNode[port];
      n in t.nodeIds && n in t.nodePorts && port in t.nodePorts[n]
  {
  }

  lemma PortsOf(t: Topology, n: Node)
    requires t.Ok() && n in t.nodeIds
    ensures n in t.nodePorts
    ensures forall i :: 0 <= i < |t.nodePorts[n]| ==>
      t.nodePorts[n][i] in t.portToNode && t.portToNode[t.nodePorts[n][i]] == n
    ensures forall i, j :: 0 <= i < j < |t.nodePorts[n]| ==> t.nodePorts[n][i] != t.nodePorts[n][j]
  {
  }

  lemma SamePacketsWeight(t: Topology, net: Net, net': Net)
    requires Shape(t, net) && Shape(t, net') && SamePackets(net, net')
    ensures Measure(t, net') == Measure(t, net)
  {
    hide Total, ListWeight, Packs;
    EdgesUntouched(t, net, net');
    SamePortWeights(t, net, net');
    forall n | n in t.nodeIds
      ensures PipeWeight(t, net', n) == PipeWeight(t, net, n)
    {
      if n in net.nodes {
        assert Packs(net'.nodes[n].pipeline) == Packs(net.nodes[n].pipeline);
      }
    }
    SameNodeWeights(t, net, net');
  }

  /** A receive moves nothing that is under way. */
  lemma RecvWeight(t: Topology, net: Net, p: Port, c: Channel)
    requires Shape(t, net) && p in net.ports && c < t.Channels() && CanRecv(net, p, c)
    ensures Measure(t, Recv(t, net, p, c)) == Measure(t, net)
  {
    hide Total, ListWeight, Packs, ListsWeight;
    var net' := Recv(t, net, p, c);
    EdgesUntouched(t, net, net');
    SamePortWeights(t, net, net');
    SameNodeWeights(t, net, net');
  }

  /** A packet off an edge, or out of a send buffer, and into the node: one step closer. */
  lemma TakeEdgeWeight(t: Topology, net: Net, e: nat, c: Channel)
    requires t.Ok() && Shape(t, net) && e < |net.edges| && c < t.Channels() && net.edges[e].output[c].Some?
    requires SlotRouted(t, e, c, net.edges[e].output[c])
    ensures var p := net.edges[e].output[c].value; var n := t.edgeEnds[e].1;
      && n in net.nodes && Measure(t, net) == Measure(t, Arrive(t, TakeOutput(t, net, e, c), n, p)) + 1
  {
    hide Topology.Ok, Measure, OnPath, Dist;
    var p, at := net.edges[e].output[c].value, t.edgeEnds[e].0;
    var n := Hop(t, at, p.tgt);
    var net1 := TakeOutput(t, net, e, c);
    TakeOutputWeight(t, net, e, c);
    DistHop(t, at, p.tgt);
    DistSelf(t, n);
    if p.tgt == n {
      DeliverWeight(t, net1, p);
    } else {
      EnqueueWeight(t, net1, n, p);
    }
  }

  lemma TakeSendInWeight(t: Topology, net: Net, port: Port, c: Channel)
    requires t.Ok() && Shape(t, net) && port in t.portToNode && port in net.ports && c < t.Channels()
    requires net.ports[port].sendBuf[c] != []
    ensures var p := net.ports[port].sendBuf[c][0]; var n := t.portToNode[port];
      && n in net.nodes && Addressed(t, p)
      && Measure(t, net) == Measure(t, Arrive(t, TakeSend(t, net, port, c), n, p)) + 1
  {
    hide Topology.Ok, Measure, Dist;
    var p, n := net.ports[port].sendBuf[c][0], t.portToNode[port];
    PortPlace(t, port);
    var net1 := TakeSend(t, net, port, c);
    TakeSendWeight(t, net, port, c);
    DistSelf(t, n);
    assert Addressed(t, p) by {
      assert PortOk(t, net.ports[port]);
      assert ListOk(t, net.ports[port].sendBuf[c]);
    }
    if p.tgt == n {
      DeliverWeight(t, net1, p);
    } else {
      EnqueueWeight(t, net1, n, p);
    }
  }
}

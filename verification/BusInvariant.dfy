/** The invariant of the bus: the packets of each flow, read from the destination back to the sender,
    are exactly the packets of the messages in flight, in order. Every move of a packet keeps it. */
module BusInvariant {
  import opened Wrappers
  import opened RouteTable
  import opened BusModel
  import opened BusPaths
  import opened BusDelivery

  /** The packet is on its way, and node `n` lies on its way. */
  ghost predicate Carried(t: Topology, p: MsgPack, n: Node)
    requires t.Ok()
  {
    && Addressed(t, p) && n in t.nodeIds && p.tgt in t.nodeIds && p.tgt != n
    && t.portToNode[p.src] in t.nodeIds && OnPath(t, t.portToNode[p.src], p.tgt, n)
  }

  ghost predicate SlotRouted(t: Topology, e: nat, c: Channel, v: Option<MsgPack>)
    requires t.Ok() && e < |t.edgeEnds|
  {
    v.Some? ==>
      var p, n := v.value, t.edgeEnds[e].0;
      Carried(t, p, n) && e == EdgeFor(t, n, p.tgt) && p.cha == c
  }

  ghost predicate EdgesRouted(t: Topology, net: Net)
    requires t.Ok() && Shape(t, net)
  {
    forall e, c :: 0 <= e < |net.edges| && 0 <= c < t.Channels() ==>
      SlotRouted(t, e, c, net.edges[e].input[c]) && SlotRouted(t, e, c, net.edges[e].output[c])
  }

  ghost predicate PipesRouted(t: Topology, net: Net)
    requires t.Ok() && Shape(t, net)
  {
    forall n, i :: n in net.nodes && 0 <= i < |net.nodes[n].pipeline| ==> Carried(t, net.nodes[n].pipeline[i].pack, n)
  }

  ghost predicate SendsRouted(t: Topology, net: Net)
    requires t.Ok() && Shape(t, net)
  {
    forall p, c, i :: p in net.ports && 0 <= c < t.Channels() && 0 <= i < |net.ports[p].sendBuf[c]| ==>
      net.ports[p].sendBuf[c][i].src == p && net.ports[p].sendBuf[c][i].cha == c
  }

  ghost predicate Routed(t: Topology, net: Net)
    requires t.Ok() && Shape(t, net)
  {
    EdgesRouted(t, net) && PipesRouted(t, net) && SendsRouted(t, net)
  }

  // ---------------------------------------------------------------- the line of a flow

  /** What node `n` and the edge it sends the flow out by hold of the flow, front first. */
  ghost function Seg(t: Topology, net: Net, f: Flow, n: Node): seq<MsgPack>
    requires t.Ok() && Shape(t, net) && FlowOk(t, f) && n in t.nodeIds
  {
    if n == DstNode(t, f) then Dest(t, net, f)
    else
      var e := net.edges[EdgeFor(t, n, DstNode(t, f))];
      Slot(f, e.output[f.cha]) + Slot(f, e.input[f.cha]) + Filter(f, Packs(net.nodes[n].pipeline))
  }

  ghost function Segs(t: Topology, net: Net, f: Flow): (r: map<Node, seq<MsgPack>>)
    requires t.Ok() && Shape(t, net) && FlowOk(t, f)
    ensures r.Keys == NodeSet(t.nodeIds)
    ensures forall n :: n in t.nodeIds ==> r[n] == Seg(t, net, f, n)
  {
    hide Topology.Ok, Shape, Seg;
    map n | n in NodeSet(t.nodeIds) :: Seg(t, net, f, n)
  }

  ghost function Unsent(net: Net, f: Flow): seq<MsgPack>
    requires f.src in net.ports && f.cha < |net.ports[f.src].sendBuf|
  {
    Filter(f, net.ports[f.src].sendBuf[f.cha])
  }

  /** Every packet of the flow that the network holds, from the receive buffer back to the send buffer. */
  ghost function InFlight(t: Topology, net: Net, f: Flow): seq<MsgPack>
    requires t.Ok() && Shape(t, net) && FlowOk(t, f)
  {
    Along(t, DstNode(t, f), SrcNode(t, f), Segs(t, net, f)) + Unsent(net, f)
  }

  ghost predicate FlowsOk(t: Topology, net: Net, a: Abs)
    requires t.Ok() && Shape(t, net) && MsgsOk(t, a)
  {
    forall f :: FlowOk(t, f) ==> InFlight(t, net, f) == Flatten(t, a.Queue(f))
  }

  ghost predicate Inv(t: Topology, net: Net, a: Abs)
    requires t.Ok()
  {
    Shape(t, net) && Routed(t, net) && DestInv(t, net, a) && FlowsOk(t, net, a)
  }

  // ---------------------------------------------------------------- moves in general

  /** A step leaves every flow's line alone. */
  ghost predicate LinesKept(t: Topology, net: Net, net': Net)
    requires t.Ok() && Shape(t, net) && Shape(t, net')
  {
    forall f :: FlowOk(t, f) ==> InFlight(t, net', f) == InFlight(t, net, f)
  }

  /** A step leaves the destination side alone. */
  ghost predicate SameDest(net: Net, net': Net) {
    && net'.ports.Keys == net.ports.Keys && net'.nodes.Keys == net.nodes.Keys
    && (forall p :: p in net.ports ==> net'.ports[p].recvBuf == net.ports[p].recvBuf)
    && (forall n :: n in net.nodes ==> net'.nodes[n].orderBuf == net.nodes[n].orderBuf)
  }

  lemma SameDestKeeps(t: Topology, net: Net, net': Net, a: Abs)
    requires t.Ok() && Shape(t, net) && Shape(t, net') && SameDest(net, net') && DestInv(t, net, a)
    ensures DestInv(t, net', a)
    ensures forall f :: FlowOk(t, f) ==> Dest(t, net', f) == Dest(t, net, f)
  {
    hide Topology.Ok, OrderBufOk, Flatten, Filter, Partial, MsgOk, Distinct, ReadyOk;
    forall f | FlowOk(t, f)
      ensures Dest(t, net', f) == Dest(t, net, f)
    {
    }
    assert forall f :: FlowOk(t, f) ==> Dest(t, net, f) <= Flatten(t, a.Queue(f));
  }

  lemma SameSegs(t: Topology, net: Net, net': Net, f: Flow)
    requires t.Ok() && Shape(t, net) && Shape(t, net') && FlowOk(t, f)
    requires forall n :: n in t.nodeIds ==> Seg(t, net', f, n) == Seg(t, net, f, n)
    requires Unsent(net', f) == Unsent(net, f)
    ensures InFlight(t, net', f) == InFlight(t, net, f)
  {
    hide Topology.Ok, Shape, Seg, Unsent, Along;
    assert Segs(t, net', f) == Segs(t, net, f);
  }

  lemma Assoc(a: seq<MsgPack>, b: seq<MsgPack>, c: seq<MsgPack>)
    ensures (a + b) + c == a + (b + c)
  {
  }

  lemma PrefixTrans(a: seq<MsgPack>, b: seq<MsgPack>, c: seq<MsgPack>, d: seq<MsgPack>)
    requires a <= b <= c <= d
    ensures a <= d
  {
  }

  /** The packet at the front of a node's share goes to the back of the next node's. */
  lemma SegShift(t: Topology, net: Net, net': Net, p: MsgPack, n: Node)
    requires t.Ok() && Shape(t, net) && Shape(t, net') && Carried(t, p, n)
    requires var f := FlowOf(p);
      && Seg(t, net, f, n) == [p] + Seg(t, net', f, n)
      && Seg(t, net', f, Hop(t, n, p.tgt)) == Seg(t, net, f, Hop(t, n, p.tgt)) + [p]
      && (forall k :: k in t.nodeIds && k != n && k != Hop(t, n, p.tgt) ==> Seg(t, net', f, k) == Seg(t, net, f, k))
      && Unsent(net', f) == Unsent(net, f)
    ensures InFlight(t, net', FlowOf(p)) == InFlight(t, net, FlowOf(p))
  {
    hide Topology.Ok, Seg;
    var f := FlowOf(p);
    AlongShift(t, p.tgt, SrcNode(t, f), n, p, Segs(t, net, f), Segs(t, net', f));
  }

  /** The packet at the front of the send buffer goes to the back of its node's share. */
  lemma SegEnter(t: Topology, net: Net, net': Net, p: MsgPack)
    requires t.Ok() && Shape(t, net) && Shape(t, net') && Addressed(t, p)
    requires var f := FlowOf(p); var n := SrcNode(t, f);
      && Unsent(net, f) == [p] + Unsent(net', f)
      && Seg(t, net', f, n) == Seg(t, net, f, n) + [p]
      && (forall k :: k in t.nodeIds && k != n ==> Seg(t, net', f, k) == Seg(t, net, f, k))
    ensures InFlight(t, net', FlowOf(p)) == InFlight(t, net, FlowOf(p))
  {
    hide Topology.Ok, EdgeOk, NodeOk, ListOk, Seg, Segs, Along, Unsent;
    var f := FlowOf(p);
    var a, b := Segs(t, net, f), Segs(t, net', f);
    AlongAppend(t, DstNode(t, f), SrcNode(t, f), p, a, b);
    Assoc(Along(t, DstNode(t, f), SrcNode(t, f), a), [p], Unsent(net', f));
  }

  /** What is at the front of a node's share comes right after what the next node holds. */
  lemma FrontOfSeg(t: Topology, net: Net, f: Flow, n: Node, p: MsgPack, rest: seq<MsgPack>)
    requires t.Ok() && Shape(t, net) && FlowOk(t, f) && n in t.nodeIds && n != DstNode(t, f)
    requires OnPath(t, SrcNode(t, f), DstNode(t, f), n) && Hop(t, n, DstNode(t, f)) == DstNode(t, f)
    requires Seg(t, net, f, n) == [p] + rest
    ensures Dest(t, net, f) + [p] <= InFlight(t, net, f)
  {
    hide Topology.Ok, Dest, OnPath, Segs, Unsent;
    var s, d := Segs(t, net, f), DstNode(t, f);
    assert Along(t, d, d, s) == Dest(t, net, f);
    assert Along(t, d, n, s) == Dest(t, net, f) + ([p] + rest);
    Assoc(Dest(t, net, f), [p], rest);
    AlongPrefix(t, d, SrcNode(t, f), n, s);
    PrefixTrans(Dest(t, net, f) + [p], Along(t, d, n, s), Along(t, d, SrcNode(t, f), s), InFlight(t, net, f));
  }

  lemma CarriedFlow(t: Topology, p: MsgPack, n: Node)
    requires t.Ok() && Carried(t, p, n)
    ensures var f := FlowOf(p);
      && FlowOk(t, f) && DstNode(t, f) == p.tgt != n && n in t.nodeIds
      && OnPath(t, SrcNode(t, f), DstNode(t, f), n)
  {
    hide Topology.Ok, OnPath;
  }

  /** The packet in the output slot is at the front of the sending node's share. */
  lemma OutputSeg(t: Topology, net: Net, e: nat, c: Channel)
    requires t.Ok() && Shape(t, net) && e < |net.edges| && c < t.Channels() && net.edges[e].output[c].Some?
    requires SlotRouted(t, e, c, net.edges[e].output[c])
    ensures var p, n := net.edges[e].output[c].value, t.edgeEnds[e].0;
      var f := FlowOf(p);
      && FlowOk(t, f) && n in t.nodeIds
      && Seg(t, net, f, n) == [p] + (Slot(f, net.edges[e].input[c]) + Filter(f, Packs(net.nodes[n].pipeline)))
  {
    hide Topology.Ok, OnPath, Dest, Filter, Packs;
  }

  /** The packet in an output slot of an edge into its destination is the next of its flow to arrive. */
  lemma NextFromEdge(t: Topology, net: Net, a: Abs, e: nat, c: Channel)
    requires t.Ok() && Inv(t, net, a) && e < |net.edges| && c < t.Channels() && net.edges[e].output[c].Some?
    requires t.edgeEnds[e].1 == net.edges[e].output[c].value.tgt
    ensures var p := net.edges[e].output[c].value;
      Addressed(t, p) && Dest(t, net, FlowOf(p)) + [p] <= Flatten(t, a.Queue(FlowOf(p)))
  {
    hide Topology.Ok, Flatten, Dest, OnPath, DestInv, Along, Segs, Seg, InFlight, EdgeFor, PipesRouted, SendsRouted;
    var p, n := net.edges[e].output[c].value, t.edgeEnds[e].0;
    var f := FlowOf(p);
    assert SlotRouted(t, e, c, net.edges[e].output[c]);
    OutputSeg(t, net, e, c);
    CarriedFlow(t, p, n);
    FrontOfSeg(t, net, f, n, p, Slot(f, net.edges[e].input[c]) + Filter(f, Packs(net.nodes[n].pipeline)));
  }

  lemma NextFromSend(t: Topology, net: Net, a: Abs, port: Port, c: Channel)
    requires t.Ok() && Inv(t, net, a) && port in net.ports && c < t.Channels() && net.ports[port].sendBuf[c] != []
    requires t.portToNode[port] == net.ports[port].sendBuf[c][0].tgt
    ensures var p := net.ports[port].sendBuf[c][0];
      Addressed(t, p) && Dest(t, net, FlowOf(p)) + [p] <= Flatten(t, a.Queue(FlowOf(p)))
  {
    hide Topology.Ok, Flatten, Dest, OnPath;
    var p := net.ports[port].sendBuf[c][0];
    assert p.src == port && p.cha == c;
    var f := FlowOf(p);
    var u := Unsent(net, f);
    assert u == [p] + u[1..];
    assert InFlight(t, net, f) == (Dest(t, net, f) + [p]) + u[1..];
  }
}

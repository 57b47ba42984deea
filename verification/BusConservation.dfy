/** Conservation: the packets of the messages in flight are in the network, each at exactly one place, in order, and
    there is nothing else in it. */
module BusConservation {
  import opened Wrappers
  import opened RouteTable
  import opened BusModel
  import opened BusPaths
  import opened BusDelivery
  import opened BusInvariant
  import opened BusRuns

  // ---------------------------------------------------------------- the places of the network

  /** Where a packet can be: at a position of a send buffer, a pipeline, an order list or a receive buffer, or in
      an edge slot. */
  datatype Place =
    | InSend(port: Port, cha: Channel, i: nat)
    | InPipeline(node: Node, i: nat)
    | InInput(edge: nat, cha: Channel)
    | InOutput(edge: nat, cha: Channel)
    | InOrderList(node: Node, xmtid: XmitId, i: nat)
    | InReceive(port: Port, cha: Channel, i: nat)

  /** The place exists and has a packet. */
  ghost predicate Occupied(t: Topology, net: Net, x: Place)
    requires Shape(t, net)
  {
    match x
    case InSend(p, c, i) => p in net.ports && c < t.Channels() && i < |net.ports[p].sendBuf[c]|
    case InPipeline(n, i) => n in net.nodes && i < |net.nodes[n].pipeline|
    case InInput(e, c) => e < |net.edges| && c < t.Channels() && net.edges[e].input[c].Some?
    case InOutput(e, c) => e < |net.edges| && c < t.Channels() && net.edges[e].output[c].Some?
    case InOrderList(n, x, i) => n in net.nodes && x in net.nodes[n].orderBuf && i < |net.nodes[n].orderBuf[x]|
    case InReceive(p, c, i) => p in net.ports && c < t.Channels() && i < |net.ports[p].recvBuf[c]|
  }

  ghost function PacketAt(t: Topology, net: Net, x: Place): MsgPack
    requires Shape(t, net) && Occupied(t, net, x)
  {
    match x
    case InSend(p, c, i) => net.ports[p].sendBuf[c][i]
    case InPipeline(n, i) => net.nodes[n].pipeline[i].pack
    case InInput(e, c) => net.edges[e].input[c].value
    case InOutput(e, c) => net.edges[e].output[c].value
    case InOrderList(n, x, i) => net.nodes[n].orderBuf[x][i]
    case InReceive(p, c, i) => net.ports[p].recvBuf[c][i]
  }

  /** The part of a flow's line a place belongs to: what is unsent, or the share of a node. */
  datatype Part = Outgoing | Share(node: Node)

  ghost function PartOf(t: Topology, net: Net, x: Place): Part
    requires t.Ok() && Shape(t, net) && Occupied(t, net, x)
  {
    match x
    case InSend(p, c, i) => Outgoing
    case InPipeline(n, i) => Share(n)
    case InInput(e, c) => Share(t.edgeEnds[e].0)
    case InOutput(e, c) => Share(t.edgeEnds[e].0)
    case InOrderList(n, x, i) => Share(n)
    case InReceive(p, c, i) => Share(t.portToNode[p])
  }

  // ---------------------------------------------------------------- each place in its part

  /** What the invariant says of the packet at a place. */
  ghost predicate Belongs(t: Topology, net: Net, x: Place)
    requires t.Ok() && Shape(t, net) && Occupied(t, net, x)
  {
    var p := PacketAt(t, net, x);
    && FlowOk(t, FlowOf(p)) && p.tgt == DstNode(t, FlowOf(p))
    && match x
       case InSend(port, c, i) => port == p.src && c == p.cha
       case InPipeline(n, i) => n in t.nodeIds && n != p.tgt && OnPath(t, SrcNode(t, FlowOf(p)), p.tgt, n)
       case InInput(e, c) => OnEdge(t, p, e, c)
       case InOutput(e, c) => OnEdge(t, p, e, c)
       case InOrderList(n, y, i) =>
         n == p.tgt && y == p.xmtid && Partial(net.nodes[n].orderBuf, FlowOf(p)) == net.nodes[n].orderBuf[y]
       case InReceive(port, c, i) => port == p.dst && c == p.cha
  }

  ghost predicate OnEdge(t: Topology, p: MsgPack, e: nat, c: Channel)
    requires t.Ok() && FlowOk(t, FlowOf(p)) && e < |t.edgeEnds|
  {
    var n := t.edgeEnds[e].0;
    && n in t.nodeIds && p.tgt in t.nodeIds && n != p.tgt && OnPath(t, SrcNode(t, FlowOf(p)), p.tgt, n)
    && e == EdgeFor(t, n, p.tgt) && c == p.cha
  }

  lemma {:induction false} FlattenMember(t: Topology, ms: seq<Msg>, p: MsgPack)
    requires t.Ok() && AllOk(t, ms) && p in Flatten(t, ms)
    ensures exists i, j :: 0 <= i < |ms| && 0 <= j < |Packets(t, ms[i])| && Packets(t, ms[i])[j] == p
  {
    hide Topology.Ok, MsgOk, Packets;
    if p in Packets(t, ms[0]) {
      var j :| 0 <= j < |Packets(t, ms[0])| && Packets(t, ms[0])[j] == p;
    } else {
      FlattenMember(t, ms[1..], p);
      var i, j :| 0 <= i < |ms[1..]| && 0 <= j < |Packets(t, ms[1..][i])| && Packets(t, ms[1..][i])[j] == p;
      assert ms[i + 1] == ms[1..][i];
    }
  }

  lemma {:induction false} OnPathEnd(t: Topology, s: Node, d: Node)
    requires t.Ok() && s in t.nodeIds && d in t.nodeIds
    ensures OnPath(t, s, d, d)
    decreases t.Hops(s, d)
  {
    hide Topology.Ok;
    if s != d {
      OnPathEnd(t, Hop(t, s, d), d);
    }
  }

  lemma OrderedFields(t: Topology, net: Net, a: Abs, n: Node, y: XmitId, i: nat)
    requires t.Ok() && Inv(t, net, a) && n in net.nodes && y in net.nodes[n].orderBuf && i < |net.nodes[n].orderBuf[y]|
    ensures var p, l := net.nodes[n].orderBuf[y][i], net.nodes[n].orderBuf[y];
      Addressed(t, p) && n == p.tgt && y == p.xmtid && Partial(net.nodes[n].orderBuf, FlowOf(p)) == l
  {
    hide Topology.Ok, Routed, FlowsOk, MsgOk, Packets, Filter, Partial, Distinct, DestPrefix, ReadyOk, EdgeOk, PortOk,
      NodeOk, Flatten;
    var ob := net.nodes[n].orderBuf;
    var f := FlowOf(ob[y][0]);
    assert OrderBufOk(t, n, ob);
    PartialIs(t, n, ob, y, f);
    HeldMessage(t, net, a, f);
    var m := a.Queue(f)[Done(a, f)];
    PacketsShape(t, m);
    assert ob[y][i] == Packets(t, m)[i] && ob[y][0] == Packets(t, m)[0];
  }

  lemma ReceivedFields(t: Topology, net: Net, a: Abs, port: Port, c: Channel, i: nat)
    requires t.Ok() && Inv(t, net, a) && port in net.ports && c < t.Channels() && i < |net.ports[port].recvBuf[c]|
    ensures var p := net.ports[port].recvBuf[c][i]; Addressed(t, p) && port == p.dst && c == p.cha
  {
    hide Topology.Ok, Routed, FlowsOk, MsgOk, Packets, OrdersOk, Distinct, DestPrefix, ReadyOk, EdgeOk, NodeOk, Flatten;
    var ms, p := a.Ready(port, c), net.ports[port].recvBuf[c][i];
    assert AllOk(t, ms);
    assert net.ports[port].recvBuf[c] == Flatten(t, ms);
    FlattenMember(t, ms, p);
    var k, j :| 0 <= k < |ms| && 0 <= j < |Packets(t, ms[k])| && Packets(t, ms[k])[j] == p;
    PacketsShape(t, ms[k]);
  }

  lemma SlotBelongs(t: Topology, net: Net, e: nat, c: Channel, v: Option<MsgPack>)
    requires t.Ok() && e < |t.edgeEnds| && SlotRouted(t, e, c, v) && v.Some?
    ensures var p := v.value; FlowOk(t, FlowOf(p)) && p.tgt == DstNode(t, FlowOf(p)) && OnEdge(t, p, e, c)
  {
    hide Topology.Ok, OnPath;
    CarriedFlow(t, v.value, t.edgeEnds[e].0);
  }

  lemma AllBelong(t: Topology, net: Net, a: Abs, x: Place)
    requires t.Ok() && Inv(t, net, a) && Occupied(t, net, x)
    ensures Belongs(t, net, x) && FlowOk(t, FlowOf(PacketAt(t, net, x)))
  {
    hide Topology.Ok, DestInv, FlowsOk, OnPath, OnEdge;
    match x
    case InSend(port, c, i) =>
      assert ListOk(t, net.ports[port].sendBuf[c]);
      assert net.ports[port].sendBuf[c][i].src == port;
    case InPipeline(n, i) => CarriedFlow(t, net.nodes[n].pipeline[i].pack, n);
    case InInput(e, c) =>
      assert SlotRouted(t, e, c, net.edges[e].input[c]);
      SlotBelongs(t, net, e, c, net.edges[e].input[c]);
    case InOutput(e, c) =>
      assert SlotRouted(t, e, c, net.edges[e].output[c]);
      SlotBelongs(t, net, e, c, net.edges[e].output[c]);
    case InOrderList(n, y, i) => OrderedFields(t, net, a, n, y, i);
    case InReceive(port, c, i) => ReceivedFields(t, net, a, port, c, i);
  }

  /** A part lies on the way of the flow. */
  ghost predicate PartOnWay(t: Topology, f: Flow, part: Part)
    requires t.Ok() && FlowOk(t, f)
  {
    part.Share? ==> part.node in t.nodeIds && OnPath(t, SrcNode(t, f), DstNode(t, f), part.node)
  }

  lemma OnWay(t: Topology, net: Net, x: Place)
    requires t.Ok() && Shape(t, net) && Occupied(t, net, x) && Belongs(t, net, x)
    ensures PartOnWay(t, FlowOf(PacketAt(t, net, x)), PartOf(t, net, x))
  {
    hide Topology.Ok, Shape;
    var f := FlowOf(PacketAt(t, net, x));
    if x.InOrderList? || x.InReceive? {
      OnPathEnd(t, SrcNode(t, f), DstNode(t, f));
    }
  }

  // ---------------------------------------------------------------- packets laid out over places

  /** One packet of the row at each place, all places different. */
  ghost predicate Lays(t: Topology, net: Net, xs: seq<Place>, l: seq<MsgPack>)
    requires Shape(t, net)
  {
    && |xs| == |l| && NoRepeats(xs)
    && forall i :: 0 <= i < |xs| ==> Occupied(t, net, xs[i]) && PacketAt(t, net, xs[i]) == l[i]
  }

  lemma LaysBoth(t: Topology, net: Net, xs: seq<Place>, l: seq<MsgPack>, ys: seq<Place>, m: seq<MsgPack>)
    requires Shape(t, net) && Lays(t, net, xs, l) && Lays(t, net, ys, m) && forall x :: x in xs ==> x !in ys
    ensures Lays(t, net, xs + ys, l + m)
  {
    hide Shape, Occupied, PacketAt;
    var zs := xs + ys;
    forall i, j | 0 <= i < j < |zs|
      ensures zs[i] != zs[j]
    {
      if i < |xs| <= j {
        assert zs[i] in xs && zs[j] in ys;
      }
    }
  }

  lemma {:induction false} LayFilter(t: Topology, net: Net, f: Flow, l: seq<MsgPack>, k: nat, place: nat -> Place)
    returns (xs: seq<Place>)
    requires Shape(t, net) && k <= |l|
    requires forall i :: k <= i < |l| ==> Occupied(t, net, place(i)) && PacketAt(t, net, place(i)) == l[i]
    requires forall i, j :: k <= i < j < |l| ==> place(i) != place(j)
    ensures Lays(t, net, xs, Filter(f, l[k..]))
    ensures forall x :: x in xs ==> exists i :: k <= i < |l| && x == place(i)
    ensures forall i :: k <= i < |l| && FlowOf(l[i]) == f ==> place(i) in xs
    decreases |l| - k
  {
    hide Shape, Occupied, PacketAt, Lays;
    xs := [];
    if k == |l| {
      LaysNone(t, net);
      assert Filter(f, l[k..]) == [];
    } else {
      assert l[k..][0] == l[k] && l[k..][1..] == l[k + 1..];
      xs := LayFilter(t, net, f, l, k + 1, place);
      if FlowOf(l[k]) == f {
        LaysOne(t, net, place(k));
        LaysBoth(t, net, [place(k)], [l[k]], xs, Filter(f, l[k + 1..]));
        xs := [place(k)] + xs;
        assert Filter(f, l[k..]) == [l[k]] + Filter(f, l[k + 1..]);
      } else {
        assert Filter(f, l[k..]) == Filter(f, l[k + 1..]);
      }
    }
  }

  lemma LaysNone(t: Topology, net: Net)
    requires Shape(t, net)
    ensures Lays(t, net, [], [])
  {
  }

  lemma LaysOne(t: Topology, net: Net, x: Place)
    requires Shape(t, net) && Occupied(t, net, x)
    ensures Lays(t, net, [x], [PacketAt(t, net, x)])
  {
    hide Shape, Occupied, PacketAt;
  }

  /** All places of the part are among these, for packets of the flow. */
  ghost predicate Covers(t: Topology, net: Net, f: Flow, part: Part, xs: seq<Place>)
    requires t.Ok() && Shape(t, net)
  {
    forall x :: Occupied(t, net, x) && FlowOf(PacketAt(t, net, x)) == f && PartOf(t, net, x) == part ==> x in xs
  }

  ghost predicate Within(t: Topology, net: Net, part: Part, xs: seq<Place>)
    requires t.Ok() && Shape(t, net)
  {
    forall x :: x in xs ==> Occupied(t, net, x) && PartOf(t, net, x) == part
  }

  lemma LayUnsent(t: Topology, net: Net, a: Abs, f: Flow) returns (xs: seq<Place>)
    requires t.Ok() && Inv(t, net, a) && FlowOk(t, f)
    ensures Lays(t, net, xs, Unsent(net, f)) && Within(t, net, Outgoing, xs) && Covers(t, net, f, Outgoing, xs)
  {
    hide Topology.Ok, Routed, DestInv, FlowsOk, Belongs, Filter, EdgeOk, NodeOk;
    var l := net.ports[f.src].sendBuf[f.cha];
    xs := LayFilter(t, net, f, l, 0, (i: nat) => InSend(f.src, f.cha, i));
    assert l[0..] == l;
    forall x | Occupied(t, net, x) && FlowOf(PacketAt(t, net, x)) == f && PartOf(t, net, x) == Outgoing
      ensures x in xs
    {
      AllBelong(t, net, a, x);
      SendBelongs(t, net, x);
    }
  }

  lemma SendBelongs(t: Topology, net: Net, x: Place)
    requires t.Ok() && Shape(t, net) && Occupied(t, net, x) && Belongs(t, net, x) && x.InSend?
    ensures x.port == PacketAt(t, net, x).src && x.cha == PacketAt(t, net, x).cha
  {
    hide Topology.Ok, Shape;
  }

  /** The one order list with packets of the flow. */
  lemma LayOrdered(t: Topology, net: Net, f: Flow, n: Node) returns (xs: seq<Place>)
    requires Shape(t, net) && n in net.nodes && OrderBufOk(t, n, net.nodes[n].orderBuf)
    ensures var ob := net.nodes[n].orderBuf;
      && Lays(t, net, xs, Partial(ob, f))
      && (forall x :: x in xs ==> Occupied(t, net, x) && x.InOrderList? && x.node == n)
      && forall y, i :: y in ob && ob[y] == Partial(ob, f) && 0 <= i < |ob[y]| ==> InOrderList(n, y, i) in xs
  {
    hide Partial, EdgeOk, PortOk, NodeOk;
    var ob := net.nodes[n].orderBuf;
    var part := Partial(ob, f);
    xs := [];
    if part != [] {
      PartialWitness(t, n, ob, f);
      xs := seq(|part|, i requires 0 <= i < |part| => InOrderList(n, part[0].xmtid, i));
      forall y, i | y in ob && ob[y] == part && 0 <= i < |ob[y]|
        ensures InOrderList(n, y, i) in xs
      {
        assert xs[i] == InOrderList(n, y, i);
      }
    }
  }

  /** What has come in for a flow: the receive buffer, and the one order list with packets of the flow. */
  lemma LayDest(t: Topology, net: Net, a: Abs, f: Flow) returns (xs: seq<Place>)
    requires t.Ok() && Inv(t, net, a) && FlowOk(t, f)
    ensures var n := DstNode(t, f);
      Lays(t, net, xs, Seg(t, net, f, n)) && Within(t, net, Share(n), xs) && Covers(t, net, f, Share(n), xs)
  {
    hide Topology.Ok, Routed, FlowsOk, Filter, Partial, EdgeOk, MsgsOk, Distinct, ReadyOk, RecvOk, DestPrefix, Belongs,
      Lays;
    var n := DstNode(t, f);
    var rb, ob := net.ports[f.dst].recvBuf[f.cha], net.nodes[n].orderBuf;
    var part := Partial(ob, f);
    var rs := LayFilter(t, net, f, rb, 0, (i: nat) => InReceive(f.dst, f.cha, i));
    assert rb[0..] == rb;
    var os := LayOrdered(t, net, f, n);
    xs := rs + os;
    LaysBoth(t, net, rs, Filter(f, rb), os, part);
    forall x | Occupied(t, net, x) && FlowOf(PacketAt(t, net, x)) == f && PartOf(t, net, x) == Share(n)
      ensures x in xs
    {
      AllBelong(t, net, a, x);
      DestBelongs(t, net, x);
    }
  }

  lemma DestBelongs(t: Topology, net: Net, x: Place)
    requires t.Ok() && Shape(t, net) && Occupied(t, net, x) && Belongs(t, net, x)
    requires PartOf(t, net, x) == Share(DstNode(t, FlowOf(PacketAt(t, net, x))))
    ensures var p := PacketAt(t, net, x);
      if x.InReceive? then x.port == p.dst && x.cha == p.cha
      else x.InOrderList? && Partial(net.nodes[x.node].orderBuf, FlowOf(p)) == net.nodes[x.node].orderBuf[x.xmtid]
  {
    hide Topology.Ok, Partial;
  }

  lemma LaySlot(t: Topology, net: Net, f: Flow, v: Option<MsgPack>, x: Place) returns (xs: seq<Place>)
    requires Shape(t, net) && (v.Some? ==> Occupied(t, net, x) && PacketAt(t, net, x) == v.value)
    ensures Lays(t, net, xs, Slot(f, v)) && xs == if v.Some? && FlowOf(v.value) == f then [x] else []
  {
    hide Shape, Occupied, PacketAt;
    xs := if v.Some? && FlowOf(v.value) == f then [x] else [];
  }

  /** What a node on the way and the edge behind it hold of a flow. */
  lemma LayShare(t: Topology, net: Net, a: Abs, f: Flow, n: Node) returns (xs: seq<Place>)
    requires t.Ok() && Inv(t, net, a) && FlowOk(t, f) && n in t.nodeIds && n != DstNode(t, f)
    ensures Lays(t, net, xs, Seg(t, net, f, n)) && Within(t, net, Share(n), xs) && Covers(t, net, f, Share(n), xs)
  {
    hide Topology.Ok, Routed, DestInv, FlowsOk, Filter, PortOk, NodeOk, Belongs, Lays, Slot;
    var e := EdgeFor(t, n, DstNode(t, f));
    var output, input := net.edges[e].output[f.cha], net.edges[e].input[f.cha];
    var l := Packs(net.nodes[n].pipeline);
    var os := LaySlot(t, net, f, output, InOutput(e, f.cha));
    var ins := LaySlot(t, net, f, input, InInput(e, f.cha));
    var ps := LayFilter(t, net, f, l, 0, (i: nat) => InPipeline(n, i));
    assert l[0..] == l;
    LaysBoth(t, net, os, Slot(f, output), ins, Slot(f, input));
    LaysBoth(t, net, os + ins, Slot(f, output) + Slot(f, input), ps, Filter(f, l));
    xs := os + ins + ps;
    forall x | Occupied(t, net, x) && FlowOf(PacketAt(t, net, x)) == f && PartOf(t, net, x) == Share(n)
      ensures x in xs
    {
      AllBelong(t, net, a, x);
      ShareBelongs(t, net, x, n);
    }
  }

  lemma ShareBelongs(t: Topology, net: Net, x: Place, n: Node)
    requires t.Ok() && Shape(t, net) && Occupied(t, net, x) && Belongs(t, net, x)
    requires PartOf(t, net, x) == Share(n) && n != DstNode(t, FlowOf(PacketAt(t, net, x))) && n in t.nodeIds
    ensures var p := PacketAt(t, net, x);
      x.InPipeline? || ((x.InInput? || x.InOutput?) && x.edge == EdgeFor(t, n, DstNode(t, FlowOf(p))) && x.cha == p.cha)
  {
    hide Topology.Ok;
  }

  /** The way of a flow from a node on, destination first. */
  lemma {:induction false} LayAlong(t: Topology, net: Net, a: Abs, f: Flow, n: Node) returns (xs: seq<Place>)
    requires t.Ok() && Inv(t, net, a) && FlowOk(t, f) && n in t.nodeIds
    ensures Lays(t, net, xs, Along(t, DstNode(t, f), n, Segs(t, net, f)))
    ensures forall x :: x in xs ==> Occupied(t, net, x) && NotBeyond(t, f, n, PartOf(t, net, x))
    ensures forall m :: m in t.nodeIds && OnPath(t, n, DstNode(t, f), m) ==> Covers(t, net, f, Share(m), xs)
    decreases t.Hops(n, DstNode(t, f))
  {
    hide Topology.Ok, Routed, DestInv, FlowsOk, Shape, Seg, Lays, Covers, Occupied, PacketAt, PartOf;
    var d := DstNode(t, f);
    if n == d {
      xs := LayDest(t, net, a, f);
    } else {
      var ys := LayAlong(t, net, a, f, Hop(t, n, d));
      var zs := LayShare(t, net, a, f, n);
      xs := ys + zs;
      LaysBoth(t, net, ys, Along(t, d, Hop(t, n, d), Segs(t, net, f)), zs, Seg(t, net, f, n));
      forall m | m in t.nodeIds && OnPath(t, n, d, m)
        ensures Covers(t, net, f, Share(m), xs)
      {
        CoversMore(t, net, f, Share(m), ys, zs);
      }
    }
  }

  lemma CoversMore(t: Topology, net: Net, f: Flow, part: Part, xs: seq<Place>, ys: seq<Place>)
    requires t.Ok() && Shape(t, net) && (Covers(t, net, f, part, xs) || Covers(t, net, f, part, ys))
    ensures Covers(t, net, f, part, xs + ys)
  {
    hide Topology.Ok, Shape;
  }

  /** The part is the share of a node no further from the destination than `n`. */
  ghost predicate NotBeyond(t: Topology, f: Flow, n: Node, part: Part)
    requires t.Ok() && FlowOk(t, f) && n in t.nodeIds
  {
    part.Share? && part.node in t.nodeIds && t.Hops(part.node, DstNode(t, f)) <= t.Hops(n, DstNode(t, f))
  }

  // ---------------------------------------------------------------- conservation

  /** These packets of a flow are in the network, each at one place, and no others of the flow are. */
  ghost predicate ExactlyThere(t: Topology, net: Net, f: Flow, l: seq<MsgPack>)
    requires Shape(t, net)
  {
    exists xs :: Lays(t, net, xs, l) && forall x :: Occupied(t, net, x) && FlowOf(PacketAt(t, net, x)) == f ==> x in xs
  }

  /** The line of a flow is laid out over the places of the network, and takes up all that hold a packet of the flow. */
  lemma FlowLaidOut(t: Topology, net: Net, a: Abs, f: Flow) returns (xs: seq<Place>)
    requires t.Ok() && Inv(t, net, a) && FlowOk(t, f)
    ensures Lays(t, net, xs, InFlight(t, net, f))
    ensures forall x :: Occupied(t, net, x) && FlowOf(PacketAt(t, net, x)) == f ==> x in xs
  {
    hide Topology.Ok, Routed, DestInv, FlowsOk, EdgeOk, NodeOk, Lays, Covers, Occupied, PacketAt, PartOf, Belongs,
      Along, Unsent, OnPath;
    var ys := LayAlong(t, net, a, f, SrcNode(t, f));
    var zs := LayUnsent(t, net, a, f);
    xs := ys + zs;
    LaysBoth(t, net, ys, Along(t, DstNode(t, f), SrcNode(t, f), Segs(t, net, f)), zs, Unsent(net, f));
    forall x | Occupied(t, net, x) && FlowOf(PacketAt(t, net, x)) == f
      ensures x in xs
    {
      AllBelong(t, net, a, x);
      OnWay(t, net, x);
      Covered(t, net, f, PartOf(t, net, x), if PartOf(t, net, x) == Outgoing then zs else ys, x);
    }
  }

  lemma Covered(t: Topology, net: Net, f: Flow, part: Part, xs: seq<Place>, x: Place)
    requires t.Ok() && Shape(t, net) && Covers(t, net, f, part, xs)
    requires Occupied(t, net, x) && FlowOf(PacketAt(t, net, x)) == f && PartOf(t, net, x) == part
    ensures x in xs
  {
    hide Topology.Ok, Shape;
  }

  /** Conservation, in every run: of each flow, the packets of the messages sent and not yet received are in the
      network, each at exactly one place, and there is nothing else in it. */
  lemma EachPacketOnce(t: Topology, first: Net, evs: seq<Event>, last: Net) returns (a: Abs)
    requires t.Ok() && Fresh(t, first) && Run(t, first, evs, last)
    ensures Inv(t, last, a) && MsgsOk(t, a)
    ensures forall f :: SentLog(evs, f) == RecvLog(evs, f) + Datas(a.Queue(f))
    ensures forall f :: FlowOk(t, f) ==> ExactlyThere(t, last, f, Flatten(t, a.Queue(f)))
    ensures forall x :: Occupied(t, last, x) ==> FlowOk(t, FlowOf(PacketAt(t, last, x)))
  {
    hide Topology.Ok, Routed, Distinct, ReadyOk, RecvOk, OrdersOk, DestPrefix, Occupied, PacketAt, Lays, Flatten, MsgOk,
      InFlight, Belongs, Run, Fresh, Datas, SentLog, RecvLog;
    a := RunDelivers(t, first, evs, last);
    forall f | FlowOk(t, f)
      ensures ExactlyThere(t, last, f, Flatten(t, a.Queue(f)))
    {
      var xs := FlowLaidOut(t, last, a, f);
      assert AllOk(t, a.Queue(f));
      assert InFlight(t, last, f) == Flatten(t, a.Queue(f));
    }
    forall x | Occupied(t, last, x)
      ensures FlowOk(t, FlowOf(PacketAt(t, last, x)))
    {
      AllBelong(t, last, a, x);
    }
  }
}

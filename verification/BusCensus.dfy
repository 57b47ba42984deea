/** Conservation without conditions: whatever is sent, of whatever size and with whatever ids, every packet is in the
    network until it is received. */
module BusCensus {
  import opened Wrappers
  import opened RouteTable
  import opened BusModel
  import opened BusPaths
  import opened BusInvariant
  import opened BusSteps
  import opened BusOps
  import opened BusRecv
  import opened BusWays
  import opened BusMeasure
  import opened BusDraining
  import opened BusRuns
  import opened BusShortRuns

  type Bag = multiset<MsgPack>

  // ---------------------------------------------------------------- sums of bags

  ghost function Union(s: seq<Bag>): Bag {
    if s == [] then multiset{} else s[0] + Union(s[1..])
  }

  /** a and x together are b and y together. */
  ghost predicate Trade(a: Bag, x: Bag, b: Bag, y: Bag) {
    forall q :: a[q] + x[q] == b[q] + y[q]
  }

  lemma {:induction false} UnionOne(a: seq<Bag>, b: seq<Bag>, i: nat)
    requires |a| == |b| && i < |a|
    requires forall j :: 0 <= j < |a| && j != i ==> a[j] == b[j]
    ensures Trade(Union(a), b[i], Union(b), a[i])
  {
    if i == 0 {
      assert a[1..] == b[1..];
    } else {
      UnionOne(a[1..], b[1..], i - 1);
    }
  }

  lemma {:induction false} UnionHas(s: seq<Bag>, i: nat)
    requires i < |s|
    ensures s[i] <= Union(s)
  {
    if i > 0 {
      UnionHas(s[1..], i - 1);
    }
  }

  lemma {:induction false} UnionNone(s: seq<Bag>)
    requires forall i :: 0 <= i < |s| ==> s[i] == multiset{}
    ensures Union(s) == multiset{}
  {
    if s != [] {
      UnionNone(s[1..]);
    }
  }

  ghost function AnyKey<K>(m: map<K, Bag>): (k: K)
    requires m != map[]
    ensures k in m
  {
    var k :| k in m;
    k
  }

  ghost function MapUnion<K>(m: map<K, Bag>): Bag
    decreases |m|
  {
    if m == map[] then multiset{} else m[AnyKey(m)] + MapUnion(m - {AnyKey(m)})
  }

  lemma {:induction false} MapPick<K>(m: map<K, Bag>, k: K)
    requires k in m
    ensures MapUnion(m) == m[k] + MapUnion(m - {k})
    decreases |m|
  {
    var j := AnyKey(m);
    if j != k {
      MapPick(m - {j}, k);
      MapPick(m - {k}, j);
      var rest := m - {j} - {k};
      assert rest == m - {k} - {j};
      Exchange(m[j], m[k], MapUnion(rest));
    }
  }

  lemma Exchange(a: Bag, b: Bag, c: Bag)
    ensures a + (b + c) == b + (a + c)
  {
  }

  lemma MapPut<K>(m: map<K, Bag>, k: K, v: Bag)
    ensures Trade(MapUnion(m[k := v]), if k in m then m[k] else multiset{}, MapUnion(m), v)
  {
    MapPick(m[k := v], k);
    if k in m {
      MapPick(m, k);
      assert m[k := v] - {k} == m - {k};
    } else {
      assert m[k := v] - {k} == m;
    }
  }

  lemma {:induction false} MapNone<K>(m: map<K, Bag>)
    requires forall k :: k in m ==> m[k] == multiset{}
    ensures MapUnion(m) == multiset{}
    decreases |m|
  {
    if m != map[] {
      MapNone(m - {AnyKey(m)});
    }
  }

  // ---------------------------------------------------------------- what the network holds

  ghost function SlotBag(v: Option<MsgPack>): Bag {
    if v.Some? then multiset{v.value} else multiset{}
  }

  ghost function Slots(slots: seq<Option<MsgPack>>): Bag {
    Union(seq(|slots|, i requires 0 <= i < |slots| => SlotBag(slots[i])))
  }

  ghost function Lists(lists: seq<seq<MsgPack>>): Bag {
    Union(seq(|lists|, i requires 0 <= i < |lists| => multiset(lists[i])))
  }

  ghost function EdgeBag(e: EdgeInChannel): Bag {
    Slots(e.input) + Slots(e.output)
  }

  ghost function PortBag(p: PortStruct): Bag {
    Lists(p.sendBuf) + Lists(p.recvBuf)
  }

  ghost function OrderBags(ob: map<XmitId, seq<MsgPack>>): map<XmitId, Bag> {
    map x | x in ob :: multiset(ob[x])
  }

  ghost function OrderBag(ob: map<XmitId, seq<MsgPack>>): Bag {
    MapUnion(OrderBags(ob))
  }

  ghost function NodeBag(ns: NodeStruct): Bag {
    multiset(Packs(ns.pipeline)) + OrderBag(ns.orderBuf)
  }

  ghost function NodeBags(nodes: map<Node, NodeStruct>): map<Node, Bag> {
    map n | n in nodes :: NodeBag(nodes[n])
  }

  ghost function NodesBag(nodes: map<Node, NodeStruct>): Bag {
    MapUnion(NodeBags(nodes))
  }

  ghost function PortBags(ports: map<Port, PortStruct>): map<Port, Bag> {
    map p | p in ports :: PortBag(ports[p])
  }

  ghost function PortsBag(ports: map<Port, PortStruct>): Bag {
    MapUnion(PortBags(ports))
  }

  ghost function EdgeBags(edges: seq<EdgeInChannel>): (r: seq<Bag>)
    ensures |r| == |edges| && forall e :: 0 <= e < |r| ==> r[e] == EdgeBag(edges[e])
  {
    seq(|edges|, e requires 0 <= e < |edges| => EdgeBag(edges[e]))
  }

  ghost function EdgesBag(edges: seq<EdgeInChannel>): Bag {
    Union(EdgeBags(edges))
  }

  /** All packets in the network, each as often as it is there. */
  ghost function Census(net: Net): Bag {
    NodesBag(net.nodes) + PortsBag(net.ports) + EdgesBag(net.edges)
  }

  lemma NodePut(nodes: map<Node, NodeStruct>, n: Node, v: NodeStruct)
    requires n in nodes
    ensures Trade(NodesBag(nodes[n := v]), NodeBag(nodes[n]), NodesBag(nodes), NodeBag(v))
  {
    hide NodeBag, MapUnion;
    MapPut(NodeBags(nodes), n, NodeBag(v));
    assert NodeBags(nodes[n := v]) == NodeBags(nodes)[n := NodeBag(v)];
  }

  lemma PortPut(ports: map<Port, PortStruct>, p: Port, v: PortStruct)
    requires p in ports
    ensures Trade(PortsBag(ports[p := v]), PortBag(ports[p]), PortsBag(ports), PortBag(v))
  {
    hide PortBag, MapUnion;
    MapPut(PortBags(ports), p, PortBag(v));
    assert PortBags(ports[p := v]) == PortBags(ports)[p := PortBag(v)];
  }

  lemma EdgePut(edges: seq<EdgeInChannel>, e: nat, v: EdgeInChannel)
    requires e < |edges|
    ensures Trade(EdgesBag(edges[e := v]), EdgeBag(edges[e]), EdgesBag(edges), EdgeBag(v))
  {
    hide EdgeBag, Union;
    UnionOne(EdgeBags(edges), EdgeBags(edges[e := v]), e);
  }

  lemma SlotPut(slots: seq<Option<MsgPack>>, c: nat, v: Option<MsgPack>)
    requires c < |slots|
    ensures Trade(Slots(slots[c := v]), SlotBag(slots[c]), Slots(slots), SlotBag(v))
  {
    hide SlotBag, Union;
    var slots' := slots[c := v];
    UnionOne(seq(|slots|, i requires 0 <= i < |slots| => SlotBag(slots[i])),
      seq(|slots'|, i requires 0 <= i < |slots'| => SlotBag(slots'[i])), c);
  }

  lemma ListPut(lists: seq<seq<MsgPack>>, c: nat, l: seq<MsgPack>)
    requires c < |lists|
    ensures Trade(Lists(lists[c := l]), multiset(lists[c]), Lists(lists), multiset(l))
  {
    hide Union;
    var lists' := lists[c := l];
    UnionOne(seq(|lists|, i requires 0 <= i < |lists| => multiset(lists[i])),
      seq(|lists'|, i requires 0 <= i < |lists'| => multiset(lists'[i])), c);
  }

  lemma OrderPut(ob: map<XmitId, seq<MsgPack>>, x: XmitId, l: seq<MsgPack>)
    ensures Trade(OrderBag(ob[x := l]), multiset(OrderList(ob, x)), OrderBag(ob), multiset(l))
  {
    hide MapUnion;
    MapPut(OrderBags(ob), x, multiset(l));
    assert OrderBags(ob[x := l]) == OrderBags(ob)[x := multiset(l)];
  }

  lemma OrderRemove(ob: map<XmitId, seq<MsgPack>>, x: XmitId)
    ensures Trade(OrderBag(ob - {x}), multiset(OrderList(ob, x)), OrderBag(ob), multiset{})
  {
    hide MapUnion;
    if x in ob {
      assert OrderBags(ob - {x}) == OrderBags(ob) - {x};
      MapPick(OrderBags(ob), x);
    } else {
      assert ob - {x} == ob;
    }
  }

  // ---------------------------------------------------------------- the moves

  lemma {:induction false} InsertBag(l: seq<MsgPack>, p: MsgPack)
    ensures multiset(InsertByIdx(l, p)) == multiset(l) + multiset{p}
  {
    if l != [] {
      assert l == [l[0]] + l[1..];
      if l[0].idx < p.idx {
        InsertBag(l[1..], p);
      }
    }
  }

  /** A delivery keeps the packet, whether or not its message becomes complete. */
  lemma DeliverAtBag(rb: seq<MsgPack>, ob: map<XmitId, seq<MsgPack>>, p: MsgPack)
    ensures var (rb', ob') := DeliverAt(rb, ob, p);
      Trade(multiset(rb'), OrderBag(ob'), multiset(rb) + OrderBag(ob), multiset{p})
  {
    hide OrderBag, InsertByIdx, OrderList;
    var l := InsertByIdx(OrderList(ob, p.xmtid), p);
    InsertBag(OrderList(ob, p.xmtid), p);
    OrderPut(ob, p.xmtid, l);
    OrderRemove(ob, p.xmtid);
  }

  lemma RecvPut(p: PortStruct, c: Channel, l: seq<MsgPack>)
    requires c < |p.recvBuf|
    ensures Trade(PortBag(WithRecv(p, c, l)), multiset(p.recvBuf[c]), PortBag(p), multiset(l))
  {
    hide Lists;
    ListPut(p.recvBuf, c, l);
  }

  lemma SendPut(p: PortStruct, c: Channel, l: seq<MsgPack>)
    requires c < |p.sendBuf|
    ensures Trade(PortBag(WithSend(p, c, l)), multiset(p.sendBuf[c]), PortBag(p), multiset(l))
  {
    hide Lists;
    ListPut(p.sendBuf, c, l);
  }

  lemma DeliverCensus(t: Topology, net: Net, n: Node, p: MsgPack)
    requires Shape(t, net) && Addressed(t, p) && n in net.nodes
    ensures Census(Deliver(t, net, n, p)) == Census(net) + multiset{p}
  {
    hide EdgeOk, NodeOk, PortBag, OrderBag, NodesBag, PortsBag, EdgesBag, DeliverAt;
    var port, ns := net.ports[p.dst], net.nodes[n];
    var (rb, ob) := DeliverAt(port.recvBuf[p.cha], ns.orderBuf, p);
    DeliverAtBag(port.recvBuf[p.cha], ns.orderBuf, p);
    RecvPut(port, p.cha, rb);
    PortPut(net.ports, p.dst, WithRecv(port, p.cha, rb));
    NodePut(net.nodes, n, ns.(orderBuf := ob));
  }

  lemma EnqueueCensus(t: Topology, net: Net, n: Node, p: MsgPack)
    requires Shape(t, net) && Addressed(t, p) && n in net.nodes && p.tgt != n
    ensures Census(Enqueue(t, net, n, p)) == Census(net) + multiset{p}
  {
    hide Shape, OrderBag, NodesBag, PortsBag, EdgesBag;
    var ns := net.nodes[n];
    var ns' := ns.(pipeline := ns.pipeline + [PipelinedPack(p, t.routeLatency)]);
    assert Packs(ns'.pipeline) == Packs(ns.pipeline) + [p];
    NodePut(net.nodes, n, ns');
  }

  lemma ArriveCensus(t: Topology, net: Net, n: Node, p: MsgPack)
    requires Shape(t, net) && Addressed(t, p) && n in net.nodes
    ensures Census(Arrive(t, net, n, p)) == Census(net) + multiset{p}
  {
    hide Shape, Census, Deliver, Enqueue, Addressed;
    if p.tgt == n {
      DeliverCensus(t, net, n, p);
    } else {
      EnqueueCensus(t, net, n, p);
    }
  }

  lemma TakeOutputCensus(t: Topology, net: Net, e: nat, c: Channel)
    requires Shape(t, net) && e < |net.edges| && c < t.Channels() && net.edges[e].output[c].Some?
    ensures Census(net) == Census(TakeOutput(t, net, e, c)) + multiset{net.edges[e].output[c].value}
    ensures Addressed(t, net.edges[e].output[c].value)
  {
    hide Addressed, PortOk, NodeOk, NodesBag, PortsBag, EdgesBag, Slots;
    var v := net.edges[e];
    SlotPut(v.output, c, None);
    EdgePut(net.edges, e, WithOutput(v, c, None));
  }

  lemma TakeSendCensus(t: Topology, net: Net, p: Port, c: Channel)
    requires Shape(t, net) && p in net.ports && c < t.Channels() && net.ports[p].sendBuf[c] != []
    ensures Census(net) == Census(TakeSend(t, net, p, c)) + multiset{net.ports[p].sendBuf[c][0]}
    ensures Addressed(t, net.ports[p].sendBuf[c][0])
  {
    hide Addressed, EdgeOk, NodeOk, NodesBag, PortsBag, EdgesBag, PortBag;
    var port := net.ports[p];
    var l := port.sendBuf[c];
    assert l == [l[0]] + l[1..];
    SendPut(port, c, l[1..]);
    PortPut(net.ports, p, WithSend(port, c, l[1..]));
  }

  lemma QuietCensus(t: Topology, net: Net, net': Net)
    requires SamePackets(net, net')
    ensures Census(net') == Census(net) && SameDest(net, net')
  {
    hide OrderBag;
    forall n | n in net.nodes
      ensures NodeBag(net'.nodes[n]) == NodeBag(net.nodes[n])
    {
      assert Packs(net'.nodes[n].pipeline) == Packs(net.nodes[n].pipeline);
    }
    assert NodeBags(net'.nodes) == NodeBags(net.nodes);
  }

  lemma EdgeMoveCensus(t: Topology, net: Net, e: nat, c: Channel)
    requires Shape(t, net) && e < |net.edges| && c < t.Channels() && EdgeReady(net.edges[e], c)
    ensures Census(EdgeMove(t, net, e, c)) == Census(net) && SameDest(net, EdgeMove(t, net, e, c))
  {
    hide Addressed, PortOk, NodeOk, NodesBag, PortsBag, EdgesBag, Slots;
    var v := net.edges[e];
    SlotPut(v.output, c, v.input[c]);
    SlotPut(v.input, c, None);
    EdgePut(net.edges, e, WithInput(WithOutput(v, c, v.input[c]), c, None));
  }

  lemma PipeOutCensus(t: Topology, net: Net, n: Node, i: nat, e: nat)
    requires Shape(t, net) && n in net.nodes && i < |net.nodes[n].pipeline| && e < |net.edges|
    requires net.nodes[n].pipeline[i].pack.cha < t.Channels()
    requires !net.edges[e].input[net.nodes[n].pipeline[i].pack.cha].Some?
    ensures Census(PipeOut(t, net, n, i, e)) == Census(net) && SameDest(net, PipeOut(t, net, n, i, e))
  {
    hide Addressed, PortOk, NodeOk, NodesBag, PortsBag, EdgesBag, Slots, OrderBag, Packs;
    var ns, v := net.nodes[n], net.edges[e];
    var p := ns.pipeline[i].pack;
    var ns' := ns.(pipeline := ns.pipeline[..i] + ns.pipeline[i + 1..]);
    PipelineBag(ns.pipeline, i);
    NodePut(net.nodes, n, ns');
    SlotPut(v.input, p.cha, Some(p));
    EdgePut(net.edges, e, WithInput(v, p.cha, Some(p)));
  }

  lemma PipelineBag(pl: seq<PipelinedPack>, i: nat)
    requires i < |pl|
    ensures multiset(Packs(pl)) == multiset(Packs(pl[..i] + pl[i + 1..])) + multiset{pl[i].pack}
  {
    var ps := Packs(pl);
    assert ps == ps[..i] + [pl[i].pack] + ps[i + 1..];
    assert Packs(pl[..i] + pl[i + 1..]) == ps[..i] + ps[i + 1..];
  }

  // ---------------------------------------------------------------- where the packets end up

  predicate For(l: seq<MsgPack>, n: Node) {
    forall i :: 0 <= i < |l| ==> l[i].tgt == n
  }

  predicate OrdersFor(ob: map<XmitId, seq<MsgPack>>, n: Node) {
    forall x :: x in ob ==> For(ob[x], n)
  }

  /** What has come in is at the node it is meant for. */
  ghost predicate AtHome(t: Topology, net: Net)
    requires Shape(t, net)
  {
    && (forall p, c :: p in net.ports && 0 <= c < t.Channels() ==> For(net.ports[p].recvBuf[c], t.portToNode[p]))
    && (forall n :: n in net.nodes ==> OrdersFor(net.nodes[n].orderBuf, n))
  }

  lemma DeliverAtFor(rb: seq<MsgPack>, ob: map<XmitId, seq<MsgPack>>, p: MsgPack)
    requires For(rb, p.tgt) && OrdersFor(ob, p.tgt)
    ensures var (rb', ob') := DeliverAt(rb, ob, p); For(rb', p.tgt) && OrdersFor(ob', p.tgt)
  {
    hide InsertByIdx;
    var l, r := OrderList(ob, p.xmtid), InsertByIdx(OrderList(ob, p.xmtid), p);
    InsertBag(l, p);
    forall i | 0 <= i < |r|
      ensures r[i].tgt == p.tgt
    {
      assert r[i] in multiset(l) + multiset{p};
    }
  }

  lemma ArriveHome(t: Topology, net: Net, n: Node, p: MsgPack)
    requires Shape(t, net) && Addressed(t, p) && n in net.nodes && AtHome(t, net)
    ensures AtHome(t, Arrive(t, net, n, p))
  {
    hide EdgeOk, NodeOk, For, OrdersFor, DeliverAt;
    if p.tgt == n {
      DeliverAtFor(net.ports[p.dst].recvBuf[p.cha], net.nodes[n].orderBuf, p);
    }
  }

  lemma SameDestHome(t: Topology, net: Net, net': Net)
    requires Shape(t, net) && Shape(t, net') && SameDest(net, net') && AtHome(t, net)
    ensures AtHome(t, net')
  {
    hide EdgeOk, NodeOk, For, OrdersFor;
  }

  lemma TakeOutputDest(t: Topology, net: Net, e: nat, c: Channel)
    requires Shape(t, net) && e < |net.edges| && c < t.Channels()
    ensures SameDest(net, TakeOutput(t, net, e, c))
  {
    hide NodeOk, PortOk;
  }

  lemma TakeSendDest(t: Topology, net: Net, p: Port, c: Channel)
    requires Shape(t, net) && p in net.ports && c < t.Channels() && net.ports[p].sendBuf[c] != []
    ensures SameDest(net, TakeSend(t, net, p, c))
  {
    hide NodeOk, EdgeOk;
  }

  lemma SendSameDest(t: Topology, net: Net, f: Flow, data: seq<Byte>)
    requires t.Ok() && Shape(t, net) && FlowOk(t, f) && CanSend(net, f.src, f.cha)
    ensures SameDest(net, Send(t, net, f.src, f.dst, f.cha, data))
  {
    hide Topology.Ok, NodeOk, EdgeOk, Packetize;
  }

  lemma RecvHome(t: Topology, net: Net, p: Port, c: Channel)
    requires Shape(t, net) && p in net.ports && c < t.Channels() && CanRecv(net, p, c) && AtHome(t, net)
    ensures AtHome(t, Recv(t, net, p, c))
  {
    hide NodeOk, EdgeOk, OrdersFor;
    assert For(net.ports[p].recvBuf[c], t.portToNode[p]);
  }

  // ---------------------------------------------------------------- a tick

  lemma AcceptHome(t: Topology, net: Net, n: Node)
    requires t.Ok() && Shape(t, net) && n in t.nodeIds && AtHome(t, net)
    ensures AtHome(t, Accept(t, net, n))
  {
    hide Topology.Ok, Census, Arrive, EdgeOk, PortOk, NodeOk, RingScan, FirstFull, FirstNonEmpty, TakeOutput, TakeSend,
      SameDest, Addressed, AtHome;
    NodeIndices(t, net, n);
    var ns := net.nodes[n];
    var rx := RingScan(RxReady(t, net, n), ns.rxPtr, |t.rxs[n]|);
    if rx.1 {
      var net0 := SetPtrs(t, net, n, rx.0, ns.sdPtr);
      QuietCensus(t, net, net0);
      SameDestHome(t, net, net0);
      var e := t.rxs[n][rx.0];
      var c := FirstFull(net.edges[e].output);
      TakeOutputCensus(t, net0, e, c);
      TakeOutputDest(t, net0, e, c);
      SameDestHome(t, net0, TakeOutput(t, net0, e, c));
      ArriveHome(t, TakeOutput(t, net0, e, c), n, net.edges[e].output[c].value);
    } else {
      var sd := RingScan(SdReady(t, net, n), ns.sdPtr, |t.nodePorts[n]|);
      var net0 := SetPtrs(t, net, n, rx.0, sd.0);
      QuietCensus(t, net, net0);
      SameDestHome(t, net, net0);
      if sd.1 {
        var port := t.nodePorts[n][sd.0];
        var c := FirstNonEmpty(net.ports[port].sendBuf);
        TakeSendCensus(t, net0, port, c);
        TakeSendDest(t, net0, port, c);
        SameDestHome(t, net0, TakeSend(t, net0, port, c));
        ArriveHome(t, TakeSend(t, net0, port, c), n, net.ports[port].sendBuf[c][0]);
      }
    }
  }

  lemma AcceptCensus(t: Topology, net: Net, n: Node)
    requires t.Ok() && Shape(t, net) && n in t.nodeIds
    ensures Census(Accept(t, net, n)) == Census(net)
  {
    hide Topology.Ok, Census, Arrive, EdgeOk, PortOk, NodeOk, RingScan, FirstFull, FirstNonEmpty, TakeOutput, TakeSend,
      SameDest, Addressed;
    NodeIndices(t, net, n);
    var ns := net.nodes[n];
    var rx := RingScan(RxReady(t, net, n), ns.rxPtr, |t.rxs[n]|);
    if rx.1 {
      var net0 := SetPtrs(t, net, n, rx.0, ns.sdPtr);
      QuietCensus(t, net, net0);
      var e := t.rxs[n][rx.0];
      var c := FirstFull(net.edges[e].output);
      TakeOutputCensus(t, net0, e, c);
      ArriveCensus(t, TakeOutput(t, net0, e, c), n, net.edges[e].output[c].value);
    } else {
      var sd := RingScan(SdReady(t, net, n), ns.sdPtr, |t.nodePorts[n]|);
      var net0 := SetPtrs(t, net, n, rx.0, sd.0);
      QuietCensus(t, net, net0);
      if sd.1 {
        var port := t.nodePorts[n][sd.0];
        var c := FirstNonEmpty(net.ports[port].sendBuf);
        TakeSendCensus(t, net0, port, c);
        ArriveCensus(t, TakeSend(t, net0, port, c), n, net.ports[port].sendBuf[c][0]);
      }
    }
  }

  lemma {:induction false} PipeScanCensus(t: Topology, net: Net, n: Node, i: nat)
    requires t.Ok() && Shape(t, net) && n in t.nodeIds && i <= |net.nodes[n].pipeline|
    ensures Census(PipeScan(t, net, n, i)) == Census(net) && SameDest(net, PipeScan(t, net, n, i))
    decreases |net.nodes[n].pipeline| - i
  {
    hide Topology.Ok, Census, EdgeOk, PortOk, NodeOk, Stay, PipeOut, SameDest, SamePackets;
    if i < |net.nodes[n].pipeline| {
      PipeTarget(t, net, n, i);
      var p := net.nodes[n].pipeline[i].pack;
      if Blocked(t, net, n, p) {
        var net' := Stay(t, net, n, i);
        StaySame(t, net, n, i);
        StayLength(t, net, n, i);
        QuietCensus(t, net, net');
        PipeScanCensus(t, net', n, i + 1);
        SameDestTrans(net, net', PipeScan(t, net', n, i + 1));
      } else {
        var e := EdgeFor(t, n, p.tgt);
        var net' := PipeOut(t, net, n, i, e);
        PipeOutLength(t, net, n, i, e);
        PipeOutCensus(t, net, n, i, e);
        PipeScanCensus(t, net', n, i);
        SameDestTrans(net, net', PipeScan(t, net', n, i));
      }
    } else {
      SameDestSelf(net);
    }
  }

  lemma SameDestSelf(net: Net)
    ensures SameDest(net, net)
  {
  }

  lemma SameDestTrans(a: Net, b: Net, c: Net)
    requires SameDest(a, b) && SameDest(b, c)
    ensures SameDest(a, c)
  {
  }

  lemma {:induction false} EdgeStepCensus(t: Topology, net: Net, e: nat, c: Channel, total: nat)
    requires Shape(t, net) && e < |net.edges| && c <= t.Channels()
    ensures Census(EdgeStep(t, net, e, c, total)) == Census(net) && SameDest(net, EdgeStep(t, net, e, c, total))
    decreases t.Channels() - c
  {
    hide Census, SameDest, NodeOk, PortOk;
    SameDestSelf(net);
    if c < t.Channels() && total < t.width {
      if EdgeReady(net.edges[e], c) {
        EdgeMoveCensus(t, net, e, c);
        EdgeStepCensus(t, EdgeMove(t, net, e, c), e, c + 1, total + |net.edges[e].input[c].value.data|);
        SameDestTrans(net, EdgeMove(t, net, e, c), EdgeStep(t, net, e, c, total));
      } else {
        EdgeStepCensus(t, net, e, c + 1, total);
      }
    }
  }

  lemma {:induction false} TickNodesCensus(t: Topology, net: Net, i: nat)
    requires t.Ok() && Shape(t, net) && i <= |t.nodeIds|
    ensures Census(TickNodes(t, net, i)) == Census(net)
    ensures AtHome(t, net) ==> AtHome(t, TickNodes(t, net, i))
    decreases |t.nodeIds| - i
  {
    hide Topology.Ok, Shape, Census, Accept, PipeScan, AtHome, SameDest;
    if i < |t.nodeIds| {
      var n := t.nodeIds[i];
      AcceptCensus(t, net, n);
      PipeScanCensus(t, Accept(t, net, n), n, 0);
      if AtHome(t, net) {
        AcceptHome(t, net, n);
        SameDestHome(t, Accept(t, net, n), NodeStep(t, net, n));
      }
      TickNodesCensus(t, NodeStep(t, net, n), i + 1);
    }
  }

  lemma {:induction false} TickEdgesCensus(t: Topology, net: Net, e: nat)
    requires Shape(t, net) && e <= |net.edges|
    ensures Census(TickEdges(t, net, e)) == Census(net) && SameDest(net, TickEdges(t, net, e))
    decreases |net.edges| - e
  {
    hide Census, EdgeStep;
    if e < |net.edges| {
      EdgeStepCensus(t, net, e, 0, 0);
      TickEdgesCensus(t, EdgeStep(t, net, e, 0, 0), e + 1);
    }
  }

  /** A tick moves packets, and that is all it does to them. */
  lemma TickCensus(t: Topology, net: Net)
    requires t.Ok() && Shape(t, net)
    ensures Census(Tick(t, net)) == Census(net)
    ensures AtHome(t, net) ==> AtHome(t, Tick(t, net))
  {
    hide Topology.Ok, Shape, Census, TickNodes, TickEdges, AtHome, SameDest;
    TickNodesCensus(t, net, 0);
    TickEdgesCensus(t, TickNodes(t, net, 0), 0);
    if AtHome(t, net) {
      SameDestHome(t, TickNodes(t, net, 0), Tick(t, net));
    }
  }

  // ---------------------------------------------------------------- sends, receives and runs

  lemma SendCensus(t: Topology, net: Net, f: Flow, data: seq<Byte>)
    requires t.Ok() && Shape(t, net) && FlowOk(t, f) && CanSend(net, f.src, f.cha) && t.chaWidths[f.cha] > 0
    ensures Census(Send(t, net, f.src, f.dst, f.cha, data)) ==
      Census(net) + multiset(Packetize(t, f.src, f.dst, f.cha, net.xmtidAlloc, data))
  {
    hide Topology.Ok, Addressed, EdgeOk, NodeOk, NodesBag, PortsBag, EdgesBag, PortBag, Packetize;
    var port := net.ports[f.src];
    var packs := Packetize(t, f.src, f.dst, f.cha, net.xmtidAlloc, data);
    SendPut(port, f.cha, packs);
    PortPut(net.ports, f.src, WithSend(port, f.cha, packs));
  }

  lemma RecvCensus(t: Topology, net: Net, p: Port, c: Channel)
    requires Shape(t, net) && p in net.ports && c < t.Channels() && CanRecv(net, p, c)
    ensures var rb := net.ports[p].recvBuf[c];
      Census(net) == multiset(rb[..rb[0].cnt]) + Census(Recv(t, net, p, c))
  {
    hide Addressed, EdgeOk, NodeOk, NodesBag, PortsBag, EdgesBag, PortBag;
    var port := net.ports[p];
    var rb := port.recvBuf[c];
    assert rb == rb[..rb[0].cnt] + rb[rb[0].cnt..];
    RecvPut(port, c, rb[rb[0].cnt..]);
    PortPut(net.ports, p, WithRecv(port, c, rb[rb[0].cnt..]));
  }

  /** The packets that come in with an operation. */
  ghost function ComeIn(t: Topology, net: Net, ev: Event): Bag {
    if ev.Sent? && FlowOk(t, ev.flow) && t.chaWidths[ev.flow.cha] > 0 then
      multiset(Packetize(t, ev.flow.src, ev.flow.dst, ev.flow.cha, net.xmtidAlloc, ev.data))
    else multiset{}
  }

  /** The packets that are handed out by it. */
  ghost function GoOut(t: Topology, net: Net, ev: Event): Bag
    requires Shape(t, net)
  {
    if ev.Received? && FlowOk(t, ev.flow) && CanRecv(net, ev.flow.dst, ev.flow.cha) then
      var rb := net.ports[ev.flow.dst].recvBuf[ev.flow.cha];
      multiset(rb[..rb[0].cnt])
    else multiset{}
  }

  lemma StepCensus(t: Topology, limit: nat, net: Net, ev: Event, net': Net)
    requires t.Ok() && Shape(t, net) && PlainStep(t, limit, net, ev, net')
    ensures Census(net) + ComeIn(t, net, ev) == GoOut(t, net, ev) + Census(net')
  {
    hide Topology.Ok, Census, Packetize, PacketCount, Tick, Send, Recv, RecvData, EdgeOk, NodeOk, IdFree;
    match ev
    case Sent(f, data) => SendCensus(t, net, f, data);
    case Received(f, buf, data) => RecvCensus(t, net, f.dst, f.cha);
    case Ticked => TickCensus(t, net);
  }

  /** The states a run goes through. */
  ghost predicate Trail(t: Topology, limit: nat, nets: seq<Net>, evs: seq<Event>)
    requires t.Ok()
  {
    && |nets| == |evs| + 1
    && (forall i :: 0 <= i < |nets| ==> Shape(t, nets[i]))
    && (forall i :: 0 <= i < |evs| ==> PlainStep(t, limit, nets[i], evs[i], nets[i + 1]))
  }

  ghost function AllIn(t: Topology, nets: seq<Net>, evs: seq<Event>): Bag
    requires |nets| >= |evs|
  {
    if evs == [] then multiset{}
    else var n := |evs| - 1; AllIn(t, nets, evs[..n]) + ComeIn(t, nets[n], evs[n])
  }

  ghost function AllOut(t: Topology, nets: seq<Net>, evs: seq<Event>): Bag
    requires |nets| >= |evs| && forall i :: 0 <= i < |nets| ==> Shape(t, nets[i])
  {
    if evs == [] then multiset{}
    else var n := |evs| - 1; AllOut(t, nets, evs[..n]) + GoOut(t, nets[n], evs[n])
  }

  lemma {:induction false} TrailCensus(t: Topology, limit: nat, nets: seq<Net>, evs: seq<Event>)
    requires t.Ok() && Trail(t, limit, nets, evs)
    ensures Census(nets[0]) + AllIn(t, nets, evs) == AllOut(t, nets, evs) + Census(nets[|evs|])
    decreases evs
  {
    hide Topology.Ok, Shape, Census, PlainStep, ComeIn, GoOut;
    if evs != [] {
      var n := |evs| - 1;
      TrailCensus(t, limit, nets[..n + 1], evs[..n]);
      SamePast(t, nets, nets[..n + 1], evs[..n]);
      StepCensus(t, limit, nets[n], evs[n], nets[n + 1]);
      TradeOn(Census(nets[0]), AllIn(t, nets, evs[..n]), AllOut(t, nets, evs[..n]), Census(nets[n]),
        ComeIn(t, nets[n], evs[n]), GoOut(t, nets[n], evs[n]), Census(nets[n + 1]));
    }
  }

  lemma TradeOn(a: Bag, x: Bag, y: Bag, b: Bag, x': Bag, y': Bag, c: Bag)
    requires a + x == y + b && b + x' == y' + c
    ensures a + (x + x') == (y + y') + c
  {
    forall q
      ensures (a + (x + x'))[q] == ((y + y') + c)[q]
    {
      assert (a + x)[q] == (y + b)[q] && (b + x')[q] == (y' + c)[q];
    }
  }

  lemma {:induction false} SamePast(t: Topology, nets: seq<Net>, past: seq<Net>, evs: seq<Event>)
    requires |past| >= |evs| && past <= nets && forall i :: 0 <= i < |nets| ==> Shape(t, nets[i])
    ensures AllIn(t, past, evs) == AllIn(t, nets, evs) && AllOut(t, past, evs) == AllOut(t, nets, evs)
    decreases evs
  {
    hide Shape, ComeIn, GoOut;
    if evs != [] {
      SamePast(t, nets, past, evs[..|evs| - 1]);
    }
  }

  lemma {:induction false} RunTrail(t: Topology, limit: nat, first: Net, evs: seq<Event>, last: Net)
    returns (nets: seq<Net>)
    requires t.Ok() && Shape(t, first) && PlainRun(t, limit, first, evs, last) && Shape(t, last)
    ensures Trail(t, limit, nets, evs) && nets[0] == first && nets[|evs|] == last
    decreases evs
  {
    hide Topology.Ok, Shape, PlainStep;
    nets := [last];
    if evs != [] {
      var n := |evs| - 1;
      var net :| Shape(t, net) && PlainRun(t, limit, first, evs[..n], net) && PlainStep(t, limit, net, evs[n], last);
      nets := RunTrail(t, limit, first, evs[..n], net);
      nets := nets + [last];
    }
  }

  lemma FreshCensus(t: Topology, net: Net)
    requires Fresh(t, net)
    ensures Census(net) == multiset{}
  {
    hide Union, MapUnion, Addressed, NodeOk;
    forall n | n in net.nodes
      ensures NodeBag(net.nodes[n]) == multiset{}
    {
      MapNone(OrderBags(net.nodes[n].orderBuf));
    }
    MapNone(NodeBags(net.nodes));
    forall p | p in net.ports
      ensures PortBag(net.ports[p]) == multiset{}
    {
      ListsNone(net.ports[p].sendBuf);
      ListsNone(net.ports[p].recvBuf);
    }
    MapNone(PortBags(net.ports));
    forall e | 0 <= e < |net.edges|
      ensures EdgeBag(net.edges[e]) == multiset{}
    {
      SlotsNone(net.edges[e].input);
      SlotsNone(net.edges[e].output);
    }
    UnionNone(EdgeBags(net.edges));
  }

  lemma ListsNone(lists: seq<seq<MsgPack>>)
    requires forall c :: 0 <= c < |lists| ==> lists[c] == []
    ensures Lists(lists) == multiset{}
  {
    UnionNone(seq(|lists|, i requires 0 <= i < |lists| => multiset(lists[i])));
  }

  lemma SlotsNone(slots: seq<Option<MsgPack>>)
    requires forall c :: 0 <= c < |slots| ==> slots[c].None?
    ensures Slots(slots) == multiset{}
  {
    UnionNone(seq(|slots|, i requires 0 <= i < |slots| => SlotBag(slots[i])));
  }

  /** Over every run, of messages of any size and with any ids in use: what was sent, packet by packet, is what was
      handed out and what the network holds. */
  lemma NothingLost(t: Topology, limit: nat, first: Net, evs: seq<Event>, last: Net) returns (nets: seq<Net>)
    requires t.Ok() && Fresh(t, first) && PlainRun(t, limit, first, evs, last) && Shape(t, last)
    ensures Trail(t, limit, nets, evs) && nets[0] == first && nets[|evs|] == last
    ensures AllIn(t, nets, evs) == AllOut(t, nets, evs) + Census(last)
  {
    hide Topology.Ok, Shape, PlainRun, Census;
    nets := RunTrail(t, limit, first, evs, last);
    TrailCensus(t, limit, nets, evs);
    FreshCensus(t, first);
  }

  // ---------------------------------------------------------------- no run gets stuck

  lemma FreshRouted(t: Topology, net: Net)
    requires t.Ok() && Fresh(t, net)
    ensures Routed(t, net) && AtHome(t, net)
  {
    hide Topology.Ok, Carried, EdgeOk, NodeOk;
  }

  lemma StepRouted(t: Topology, limit: nat, net: Net, ev: Event, net': Net)
    requires t.Ok() && Shape(t, net) && Routed(t, net) && AtHome(t, net) && PlainStep(t, limit, net, ev, net')
    ensures Shape(t, net') && Routed(t, net') && AtHome(t, net')
  {
    hide Topology.Ok, Routed, Packetize, PacketCount, Tick, Send, Recv, RecvData, EdgeOk, NodeOk, PortOk, IdFree,
      AtHome, SameDest, Census;
    match ev
    case Sent(f, data) =>
      SendRouted(t, net, f.src, f.dst, f.cha, data);
      SendSameDest(t, net, f, data);
      SameDestHome(t, net, net');
    case Received(f, buf, data) =>
      RecvRouted(t, net, f.dst, f.cha);
      RecvHome(t, net, f.dst, f.cha);
    case Ticked =>
      TickRouted(t, net);
      TickCensus(t, net);
  }

  lemma {:induction false} RunRouted(t: Topology, limit: nat, first: Net, evs: seq<Event>, last: Net)
    requires t.Ok() && Shape(t, first) && Routed(t, first) && AtHome(t, first) && PlainRun(t, limit, first, evs, last)
    ensures Shape(t, last) && Routed(t, last) && AtHome(t, last)
    decreases evs
  {
    hide Topology.Ok, Shape, Routed, PlainStep, AtHome;
    if evs != [] {
      var n := |evs| - 1;
      var net :| Shape(t, net) && PlainRun(t, limit, first, evs[..n], net) && PlainStep(t, limit, net, evs[n], last);
      RunRouted(t, limit, first, evs[..n], net);
      StepRouted(t, limit, net, evs[n], last);
    }
  }

  /** Over every run, whatever was sent: once sending stops, a bounded number of ticks, with any receives between them,
      brings every packet out of the network, and all there is lies at the node it is meant for. */
  lemma EveryRunDrains(
    t: Topology, limit: nat, first: Net, evs: seq<Event>, mid: Net, more: seq<Event>, last: Net)
    requires t.Ok() && Fresh(t, first) && PlainRun(t, limit, first, evs, mid)
    requires PlainRun(t, limit, mid, more, last) && Sends(more) == 0 && DrainsIn(t, mid, Ticks(more))
    ensures Shape(t, last) && Drained(t, last) && AtHome(t, last)
  {
    hide Topology.Ok, Shape, Routed, Drained, Run, PlainRun, DrainsIn, AtHome;
    FreshRouted(t, first);
    RunRouted(t, limit, first, evs, mid);
    RunRouted(t, limit, mid, more, last);
    QuietRun(t, limit, mid, more, last);
    RunDrainsBy(t, mid, more, last, Ticks(more));
    DrainedBy(t, last);
  }

  lemma {:induction false} QuietRun(t: Topology, limit: nat, first: Net, evs: seq<Event>, last: Net)
    requires t.Ok() && PlainRun(t, limit, first, evs, last) && Sends(evs) == 0
    ensures Run(t, first, evs, last) && NoSends(evs)
    decreases evs
  {
    hide Topology.Ok, Shape, Step, Run;
    RunUnfolds(t, first, evs, last);
    if evs != [] {
      var n := |evs| - 1;
      var net :| Shape(t, net) && PlainRun(t, limit, first, evs[..n], net) && PlainStep(t, limit, net, evs[n], last);
      QuietRun(t, limit, first, evs[..n], net);
      assert evs == evs[..n] + [evs[n]];
    }
  }

  lemma DrainedBy(t: Topology, net: Net)
    requires t.Ok() && Shape(t, net) && Routed(t, net) && DrainsIn(t, net, 0)
    ensures Drained(t, net)
  {
    hide Topology.Ok, Routed, Measure;
    DrainedIsZero(t, net);
  }
}

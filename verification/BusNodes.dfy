/** What a node does in a tick concerns only what is around it, so that a tick does the same whatever the order in which
    the program walks its hash map of nodes (src/bus/symmulcha.cpp:174-181, 309-381). */
module BusNodes {
  import opened Wrappers
  import opened RouteTable
  import opened BusModel
  import opened BusPaths
  import opened BusDraining
  import opened BusWays
  import opened BusTicks

  // ---------------------------------------------------------------- which packet a node takes in

  ghost function OutputAt(net: Net, w: (nat, Channel)): Option<MsgPack> {
    if w.0 < |net.edges| && w.1 < |net.edges[w.0].output| then net.edges[w.0].output[w.1] else None
  }

  ghost function SendAt(net: Net, p: Port, c: Channel): seq<MsgPack> {
    if p in net.ports && c < |net.ports[p].sendBuf| then net.ports[p].sendBuf[c] else []
  }

  /** A scan once around finds the first ready place from the pointer on, or comes back to where it began. */
  lemma {:induction false} ScanFirst(ready: seq<bool>, ptr: nat, k: nat)
    requires ptr < |ready| && k <= |ready|
    ensures var r := RingScan(ready, ptr, k);
      if r.1 then
        Ahead(ptr, r.0, |ready|) < k && ready[r.0]
        && forall j :: 0 <= j < |ready| && Ahead(ptr, j, |ready|) < Ahead(ptr, r.0, |ready|) ==> !ready[j]
      else
        r.0 == (if ptr + k < |ready| then ptr + k else ptr + k - |ready|)
        && forall j :: 0 <= j < |ready| && Ahead(ptr, j, |ready|) < k ==> !ready[j]
    decreases k
  {
    hide NextPlace;
    if k > 0 && !ready[ptr] {
      var next := NextPlace(ptr, |ready|);
      NextPlaceIs(ptr, |ready|);
      ScanFirst(ready, next, k - 1);
      assert forall j :: 0 <= j < |ready| && j != ptr ==> Ahead(next, j, |ready|) == Ahead(ptr, j, |ready|) - 1;
    }
  }

  /** Going round from the pointer, `j` comes before `i`. */
  predicate Sooner(ptr: nat, j: nat, i: nat, size: nat)
    requires ptr < size && i < size
  {
    j < size && Ahead(ptr, j, size) < Ahead(ptr, i, size)
  }

  /** The lowest full channel of the first incoming edge that has one, from rx_ptr on. */
  ghost predicate FirstEdge(t: Topology, net: Net, n: Node, i: nat, c: Channel)
    requires n in net.nodes && n in t.rxs
  {
    && i < |t.rxs[n]| && net.nodes[n].rxPtr < |t.rxs[n]|
    && OutputAt(net, (t.rxs[n][i], c)).Some?
    && (forall d: Channel :: d < c ==> OutputAt(net, (t.rxs[n][i], d)).None?)
    && forall j: nat, d: Channel :: Sooner(net.nodes[n].rxPtr, j, i, |t.rxs[n]|) ==>
         OutputAt(net, (t.rxs[n][j], d)).None?
  }

  ghost predicate NoEdge(t: Topology, net: Net, n: Node)
    requires n in t.rxs
  {
    forall j: nat, d: Channel :: j < |t.rxs[n]| ==> OutputAt(net, (t.rxs[n][j], d)).None?
  }

  /** The lowest channel with packets to send of the first port that has one, from sd_ptr on. */
  ghost predicate FirstPort(t: Topology, net: Net, n: Node, i: nat, c: Channel)
    requires n in net.nodes && n in t.nodePorts
  {
    && i < |t.nodePorts[n]| && net.nodes[n].sdPtr < |t.nodePorts[n]|
    && SendAt(net, t.nodePorts[n][i], c) != []
    && (forall d: Channel :: d < c ==> SendAt(net, t.nodePorts[n][i], d) == [])
    && forall j: nat, d: Channel :: Sooner(net.nodes[n].sdPtr, j, i, |t.nodePorts[n]|) ==>
         SendAt(net, t.nodePorts[n][j], d) == []
  }

  ghost predicate NoPort(t: Topology, net: Net, n: Node)
    requires n in t.nodePorts
  {
    forall j: nat, d: Channel :: j < |t.nodePorts[n]| ==> SendAt(net, t.nodePorts[n][j], d) == []
  }

  ghost predicate TookFromEdge(t: Topology, net: Net, n: Node, i: nat, c: Channel, r: Net)
    requires t.Ok() && Shape(t, net) && n in t.nodeIds && n in net.nodes && n in t.rxs && n in t.nodePorts
  {
    && FirstEdge(t, net, n, i, c) && t.rxs[n][i] < |net.edges| && c < t.Channels()
    && (net.nodes[n].sdPtr < |t.nodePorts[n]| || net.nodes[n].sdPtr == 0)
    && var p := OutputAt(net, (t.rxs[n][i], c)).value;
       Addressed(t, p)
       && r == Arrive(t, TakeOutput(t, SetPtrs(t, net, n, i, net.nodes[n].sdPtr), t.rxs[n][i], c), n, p)
  }

  ghost predicate TookFromPort(t: Topology, net: Net, n: Node, i: nat, c: Channel, r: Net)
    requires t.Ok() && Shape(t, net) && n in t.nodeIds && n in net.nodes && n in t.rxs && n in t.nodePorts
  {
    && FirstPort(t, net, n, i, c) && t.nodePorts[n][i] in net.ports && c < t.Channels()
    && (net.nodes[n].rxPtr < |t.rxs[n]| || net.nodes[n].rxPtr == 0)
    && c < |net.ports[t.nodePorts[n][i]].sendBuf|
    && var p := SendAt(net, t.nodePorts[n][i], c)[0];
       Addressed(t, p)
       && r == Arrive(t, TakeSend(t, SetPtrs(t, net, n, net.nodes[n].rxPtr, i), t.nodePorts[n][i], c), n, p)
  }

  ghost predicate TookOne(t: Topology, net: Net, n: Node, r: Net)
    requires t.Ok() && Shape(t, net) && n in t.nodeIds && n in net.nodes && n in t.rxs && n in t.nodePorts
  {
    || (exists i, c :: TookFromEdge(t, net, n, i, c, r))
    || (NoEdge(t, net, n) && exists i, c :: TookFromPort(t, net, n, i, c, r))
    || (NoEdge(t, net, n) && NoPort(t, net, n) && r == net)
  }

  /** The first half of process_node: one packet off the first edge that has one; only if there is none, one out of the
      first send buffer that has one; and if there is none of these either, nothing changes. */
  lemma AcceptExactly(t: Topology, net: Net, n: Node)
    requires t.Ok() && Shape(t, net) && n in t.nodeIds
    ensures n in net.nodes && n in t.rxs && n in t.nodePorts && TookOne(t, net, n, Accept(t, net, n))
  {
    hide Topology.Ok, Arrive, EdgeOk, PortOk, NodeOk, RingScan, FirstFull, FirstNonEmpty, TakeOutput, TakeSend,
      RxReady, SdReady, FirstEdge, FirstPort, NoEdge, NoPort, Addressed;
    NodeIndices(t, net, n);
    var ns := net.nodes[n];
    var rx := RingScan(RxReady(t, net, n), ns.rxPtr, |t.rxs[n]|);
    var sd := RingScan(SdReady(t, net, n), ns.sdPtr, |t.nodePorts[n]|);
    if rx.1 {
      RxFound(t, net, n, rx.0);
      EdgeIsFirst(t, net, n);
      var c := FirstFull(net.edges[t.rxs[n][rx.0]].output);
      assert TookFromEdge(t, net, n, rx.0, c, Accept(t, net, n));
    } else {
      EdgeIsFirst(t, net, n);
      PortIsFirst(t, net, n);
      if sd.1 {
        SdFound(t, net, n, sd.0);
        var c := FirstNonEmpty(net.ports[t.nodePorts[n][sd.0]].sendBuf);
        assert TookFromPort(t, net, n, sd.0, c, Accept(t, net, n));
      } else {
        SamePtrs(t, net, n);
      }
    }
  }

  lemma SamePtrs(t: Topology, net: Net, n: Node)
    requires Shape(t, net) && n in net.nodes && n in t.rxs && n in t.nodePorts
    requires net.nodes[n].rxPtr < |t.rxs[n]| || net.nodes[n].rxPtr == 0
    requires net.nodes[n].sdPtr < |t.nodePorts[n]| || net.nodes[n].sdPtr == 0
    ensures SetPtrs(t, net, n, net.nodes[n].rxPtr, net.nodes[n].sdPtr) == net
  {
    hide EdgeOk, PortOk, NodeOk;
  }

  lemma EdgeIsFirst(t: Topology, net: Net, n: Node)
    requires t.Ok() && Shape(t, net) && n in t.nodeIds && n in net.nodes && n in t.rxs
    ensures var ptr := net.nodes[n].rxPtr; ptr < |t.rxs[n]| || |t.rxs[n]| == 0
    ensures var r := RingScan(RxReady(t, net, n), net.nodes[n].rxPtr, |t.rxs[n]|);
      if r.1 then
        r.0 < |t.rxs[n]| && t.rxs[n][r.0] < |net.edges|
        && var c := FirstFull(net.edges[t.rxs[n][r.0]].output);
           c < t.Channels() == |net.edges[t.rxs[n][r.0]].output| && FirstEdge(t, net, n, r.0, c)
           && Addressed(t, net.edges[t.rxs[n][r.0]].output[c].value)
      else r.0 == net.nodes[n].rxPtr && NoEdge(t, net, n)
  {
    hide Topology.Ok, PortOk, NodeOk, RingScan, FirstFull, RxReady, Addressed;
    NodeIndices(t, net, n);
    var ready, ptr := RxReady(t, net, n), net.nodes[n].rxPtr;
    forall j: nat | j < |ready|
      ensures !ready[j] ==> forall d: Channel :: OutputAt(net, (t.rxs[n][j], d)).None?
    {
      ReadyMeansFull(t, net, n, j);
    }
    if |ready| > 0 {
      ScanFirst(ready, ptr, |ready|);
      var r := RingScan(ready, ptr, |ready|);
      if r.1 {
        ReadyMeansFull(t, net, n, r.0);
      }
    }
  }

  lemma ReadyMeansFull(t: Topology, net: Net, n: Node, j: nat)
    requires t.Ok() && Shape(t, net) && n in t.nodeIds && j < |t.rxs[n]|
    ensures t.rxs[n][j] < |net.edges|
    ensures var out := net.edges[t.rxs[n][j]].output; var c := FirstFull(out);
      && |out| == t.Channels() && (RxReady(t, net, n)[j] <==> c < |out|)
      && (c == |out| ==> forall d: Channel :: OutputAt(net, (t.rxs[n][j], d)).None?)
      && (c < |out| ==> OutputAt(net, (t.rxs[n][j], c)).Some? && Addressed(t, out[c].value))
      && forall d: Channel :: d < c ==> OutputAt(net, (t.rxs[n][j], d)).None?
  {
    hide Topology.Ok, PortOk, NodeOk, FirstFull, Addressed;
    NodeIndices(t, net, n);
    assert EdgeOk(t, net.edges[t.rxs[n][j]]);
  }

  lemma PortIsFirst(t: Topology, net: Net, n: Node)
    requires t.Ok() && Shape(t, net) && n in t.nodeIds && n in net.nodes && n in t.nodePorts
    ensures var ptr := net.nodes[n].sdPtr; ptr < |t.nodePorts[n]| || |t.nodePorts[n]| == 0
    ensures var r := RingScan(SdReady(t, net, n), net.nodes[n].sdPtr, |t.nodePorts[n]|);
      if r.1 then
        r.0 < |t.nodePorts[n]| && t.nodePorts[n][r.0] in net.ports
        && var c := FirstNonEmpty(net.ports[t.nodePorts[n][r.0]].sendBuf);
           c < t.Channels() == |net.ports[t.nodePorts[n][r.0]].sendBuf| && FirstPort(t, net, n, r.0, c)
           && Addressed(t, net.ports[t.nodePorts[n][r.0]].sendBuf[c][0])
      else r.0 == net.nodes[n].sdPtr && NoPort(t, net, n)
  {
    hide Topology.Ok, EdgeOk, NodeOk, RingScan, FirstNonEmpty, SdReady, Addressed;
    NodeIndices(t, net, n);
    var ready, ptr := SdReady(t, net, n), net.nodes[n].sdPtr;
    forall j: nat | j < |ready|
      ensures !ready[j] ==> forall d: Channel :: SendAt(net, t.nodePorts[n][j], d) == []
    {
      ReadyMeansSends(t, net, n, j);
    }
    if |ready| > 0 {
      ScanFirst(ready, ptr, |ready|);
      var r := RingScan(ready, ptr, |ready|);
      if r.1 {
        ReadyMeansSends(t, net, n, r.0);
      }
    }
  }

  lemma ReadyMeansSends(t: Topology, net: Net, n: Node, j: nat)
    requires t.Ok() && Shape(t, net) && n in t.nodeIds && j < |t.nodePorts[n]|
    ensures t.nodePorts[n][j] in net.ports
    ensures var p := t.nodePorts[n][j]; var lists := net.ports[p].sendBuf; var c := FirstNonEmpty(lists);
      && |lists| == t.Channels() && (SdReady(t, net, n)[j] <==> c < |lists|)
      && (c == |lists| ==> forall d: Channel :: SendAt(net, p, d) == [])
      && (c < |lists| ==> SendAt(net, p, c) != [] && Addressed(t, lists[c][0]))
      && forall d: Channel :: d < c ==> SendAt(net, p, d) == []
  {
    hide Topology.Ok, EdgeOk, NodeOk, FirstNonEmpty, Addressed;
    NodeIndices(t, net, n);
    var p := t.nodePorts[n][j];
    assert PortOk(t, net.ports[p]);
    assert forall c :: 0 <= c < |net.ports[p].sendBuf| ==> ListOk(t, net.ports[p].sendBuf[c]);
  }

  /** process_node: first one packet comes in, and then the pipeline, with it at its end, lets out what can leave. */
  lemma NodeExactly(t: Topology, net: Net, n: Node) returns (mid: Net)
    requires t.Ok() && Shape(t, net) && n in t.nodeIds
    ensures n in net.nodes && n in t.rxs && n in t.nodePorts && TookOne(t, net, n, mid)
    ensures Shape(t, mid) && Going(t, n, Packs(mid.nodes[n].pipeline))
    ensures Pipeline(t, mid, NodeStep(t, net, n), n, Packs(mid.nodes[n].pipeline))
  {
    hide Topology.Ok, EdgeOk, PortOk, NodeOk, Accept, PipeScan, Going, Pipeline, TookOne;
    AcceptExactly(t, net, n);
    mid := Accept(t, net, n);
    PipelineExactly(t, mid, n);
  }

  // ---------------------------------------------------------------- what is around a node

  ghost function NodeAt(net: Net, n: Node): Option<NodeStruct> { if n in net.nodes then Some(net.nodes[n]) else None }

  ghost function PortAt(net: Net, p: Port): Option<PortStruct> { if p in net.ports then Some(net.ports[p]) else None }

  ghost function InputsOf(net: Net, e: nat): seq<Option<MsgPack>> {
    if e < |net.edges| then net.edges[e].input else []
  }

  ghost function OutputsOf(net: Net, e: nat): seq<Option<MsgPack>> {
    if e < |net.edges| then net.edges[e].output else []
  }

  /** The node, the ports on it, the output slots of the edges that lead to it, and the input slots of those that lead
      away from it. */
  ghost predicate SameAround(t: Topology, a: Net, b: Net, n: Node) {
    && NodeAt(a, n) == NodeAt(b, n)
    && (forall p :: p in t.portToNode && t.portToNode[p] == n ==> PortAt(a, p) == PortAt(b, p))
    && (forall e :: 0 <= e < |t.edgeEnds| && t.edgeEnds[e].1 == n ==> OutputsOf(a, e) == OutputsOf(b, e))
    && (forall e :: 0 <= e < |t.edgeEnds| && t.edgeEnds[e].0 == n ==> InputsOf(a, e) == InputsOf(b, e))
  }

  /** Only what is around `n` has changed. */
  ghost predicate SameElsewhere(t: Topology, a: Net, b: Net, n: Node) {
    && b.xmtidAlloc == a.xmtidAlloc
    && (forall k :: k != n ==> NodeAt(b, k) == NodeAt(a, k))
    && (forall p :: p in t.portToNode && t.portToNode[p] != n ==> PortAt(b, p) == PortAt(a, p))
    && (forall e :: 0 <= e < |t.edgeEnds| && t.edgeEnds[e].1 != n ==> OutputsOf(b, e) == OutputsOf(a, e))
    && (forall e :: 0 <= e < |t.edgeEnds| && t.edgeEnds[e].0 != n ==> InputsOf(b, e) == InputsOf(a, e))
  }

  lemma ElsewhereTrans(t: Topology, a: Net, b: Net, c: Net, n: Node)
    requires SameElsewhere(t, a, b, n) && SameElsewhere(t, b, c, n)
    ensures SameElsewhere(t, a, c, n)
  {
    hide NodeAt, PortAt, InputsOf, OutputsOf;
  }

  /** The same change in two networks that agree around the node. */
  ghost predicate Alike(t: Topology, a: Net, b: Net, a': Net, b': Net, n: Node) {
    SameAround(t, a', b', n) && SameElsewhere(t, a, a', n) && SameElsewhere(t, b, b', n)
  }

  lemma AlikeTrans(t: Topology, a: Net, b: Net, a': Net, b': Net, a'': Net, b'': Net, n: Node)
    requires Alike(t, a, b, a', b', n) && Alike(t, a', b', a'', b'', n)
    ensures Alike(t, a, b, a'', b'', n)
  {
    hide SameAround, SameElsewhere;
    ElsewhereTrans(t, a, a', a'', n);
    ElsewhereTrans(t, b, b', b'', n);
  }

  lemma PtrsAlike(t: Topology, a: Net, b: Net, n: Node, rx: nat, sd: nat)
    requires Shape(t, a) && Shape(t, b) && SameAround(t, a, b, n) && n in t.rxs && n in t.nodePorts
    requires n in a.nodes && n in b.nodes && (rx < |t.rxs[n]| || rx == 0) && (sd < |t.nodePorts[n]| || sd == 0)
    ensures Alike(t, a, b, SetPtrs(t, a, n, rx, sd), SetPtrs(t, b, n, rx, sd), n)
  {
    hide Shape;
  }

  lemma TakeOutputAlike(t: Topology, a: Net, b: Net, n: Node, e: nat, c: Channel)
    requires Shape(t, a) && Shape(t, b) && SameAround(t, a, b, n)
    requires e < |a.edges| && e < |b.edges| && c < t.Channels() && e < |t.edgeEnds| && t.edgeEnds[e].1 == n
    ensures Alike(t, a, b, TakeOutput(t, a, e, c), TakeOutput(t, b, e, c), n)
  {
    hide Shape;
    EdgeSlots(t, a, e);
    EdgeSlots(t, b, e);
    assert OutputsOf(a, e) == OutputsOf(b, e);
  }

  lemma TakeSendAlike(t: Topology, a: Net, b: Net, n: Node, p: Port, c: Channel)
    requires Shape(t, a) && Shape(t, b) && SameAround(t, a, b, n)
    requires p in a.ports && p in b.ports && c < t.Channels() && p in t.portToNode && t.portToNode[p] == n
    requires a.ports[p].sendBuf[c] != []
    ensures a.ports[p] == b.ports[p]
    ensures Alike(t, a, b, TakeSend(t, a, p, c), TakeSend(t, b, p, c), n)
  {
    hide Shape;
    PortSlots(t, a, p);
    assert PortAt(a, p) == PortAt(b, p);
  }

  lemma PortSlots(t: Topology, a: Net, p: Port)
    requires Shape(t, a) && p in a.ports
    ensures |a.ports[p].sendBuf| == |a.ports[p].recvBuf| == t.Channels()
  {
    assert PortOk(t, a.ports[p]);
  }

  lemma ArriveAlike(t: Topology, a: Net, b: Net, n: Node, p: MsgPack)
    requires Shape(t, a) && Shape(t, b) && SameAround(t, a, b, n) && Addressed(t, p) && n in a.nodes && n in b.nodes
    ensures Alike(t, a, b, Arrive(t, a, n, p), Arrive(t, b, n, p), n)
  {
    hide Shape, Alike, SameAround, Deliver, Enqueue;
    if p.tgt == n {
      DeliverAlike(t, a, b, n, p);
    } else {
      EnqueueAlike(t, a, b, n, p);
    }
  }

  lemma EnqueueAlike(t: Topology, a: Net, b: Net, n: Node, p: MsgPack)
    requires Shape(t, a) && Shape(t, b) && SameAround(t, a, b, n) && Addressed(t, p) && p.tgt != n
    requires n in a.nodes && n in b.nodes
    ensures Alike(t, a, b, Enqueue(t, a, n, p), Enqueue(t, b, n, p), n)
  {
    hide Shape;
  }

  lemma DeliverAlike(t: Topology, a: Net, b: Net, n: Node, p: MsgPack)
    requires Shape(t, a) && Shape(t, b) && SameAround(t, a, b, n) && Addressed(t, p) && p.tgt == n
    requires n in a.nodes && n in b.nodes
    ensures Alike(t, a, b, Deliver(t, a, n, p), Deliver(t, b, n, p), n)
  {
    hide Shape, DeliverAt;
    PortThere(t, a, p.dst);
    PortThere(t, b, p.dst);
    assert PortAt(a, p.dst) == PortAt(b, p.dst);
  }

  lemma PortThere(t: Topology, a: Net, p: Port)
    requires Shape(t, a) && p in t.portToNode
    ensures p in a.ports && |a.ports[p].recvBuf| == t.Channels()
  {
    assert p in a.ports.Keys;
    PortSlots(t, a, p);
  }

  lemma ReadyAlike(t: Topology, a: Net, b: Net, n: Node)
    requires t.Ok() && Shape(t, a) && Shape(t, b) && SameAround(t, a, b, n) && n in t.nodeIds
    ensures RxReady(t, a, n) == RxReady(t, b, n) && SdReady(t, a, n) == SdReady(t, b, n)
  {
    hide Topology.Ok, EdgeOk, NodeOk, PortOk, FirstFull, FirstNonEmpty;
    NodeIndices(t, a, n);
    NodeIndices(t, b, n);
    forall i | 0 <= i < |t.rxs[n]|
      ensures a.edges[t.rxs[n][i]].output == b.edges[t.rxs[n][i]].output
    {
      assert OutputsOf(a, t.rxs[n][i]) == OutputsOf(b, t.rxs[n][i]);
    }
    forall i | 0 <= i < |t.nodePorts[n]|
      ensures a.ports[t.nodePorts[n][i]] == b.ports[t.nodePorts[n][i]]
    {
      assert PortAt(a, t.nodePorts[n][i]) == PortAt(b, t.nodePorts[n][i]);
    }
  }

  lemma AcceptAlike(t: Topology, a: Net, b: Net, n: Node)
    requires t.Ok() && Shape(t, a) && Shape(t, b) && SameAround(t, a, b, n) && n in t.nodeIds
    ensures Alike(t, a, b, Accept(t, a, n), Accept(t, b, n), n)
  {
    hide Topology.Ok, Arrive, EdgeOk, PortOk, NodeOk, RingScan, FirstFull, FirstNonEmpty, TakeOutput, TakeSend,
      RxReady, SdReady, Addressed, SetPtrs, SameElsewhere;
    NodeIndices(t, a, n);
    NodeIndices(t, b, n);
    ReadyAlike(t, a, b, n);
    var ns := a.nodes[n];
    var rx := RingScan(RxReady(t, a, n), ns.rxPtr, |t.rxs[n]|);
    var sd := RingScan(SdReady(t, a, n), ns.sdPtr, |t.nodePorts[n]|);
    EdgeIsFirst(t, a, n);
    if rx.1 {
      var e := t.rxs[n][rx.0];
      var c := FirstFull(a.edges[e].output);
      var p := a.edges[e].output[c].value;
      var a1, b1 := SetPtrs(t, a, n, rx.0, ns.sdPtr), SetPtrs(t, b, n, rx.0, ns.sdPtr);
      PtrsAlike(t, a, b, n, rx.0, ns.sdPtr);
      PtrsKeep(t, a, n, rx.0, ns.sdPtr);
      PtrsKeep(t, b, n, rx.0, ns.sdPtr);
      var a2, b2 := TakeOutput(t, a1, e, c), TakeOutput(t, b1, e, c);
      TakeOutputAlike(t, a1, b1, n, e, c);
      ArriveAlike(t, a2, b2, n, p);
      AlikeTrans(t, a, b, a1, b1, a2, b2, n);
      AlikeTrans(t, a, b, a2, b2, Arrive(t, a2, n, p), Arrive(t, b2, n, p), n);
    } else {
      PortIsFirst(t, a, n);
      var a1, b1 := SetPtrs(t, a, n, rx.0, sd.0), SetPtrs(t, b, n, rx.0, sd.0);
      PtrsAlike(t, a, b, n, rx.0, sd.0);
      PtrsKeep(t, a, n, rx.0, sd.0);
      PtrsKeep(t, b, n, rx.0, sd.0);
      if sd.1 {
        var port := t.nodePorts[n][sd.0];
        var c := FirstNonEmpty(a.ports[port].sendBuf);
        var p := a.ports[port].sendBuf[c][0];
        var a2, b2 := TakeSend(t, a1, port, c), TakeSend(t, b1, port, c);
        TakeSendAlike(t, a1, b1, n, port, c);
        ArriveAlike(t, a2, b2, n, p);
        AlikeTrans(t, a, b, a1, b1, a2, b2, n);
        AlikeTrans(t, a, b, a2, b2, Arrive(t, a2, n, p), Arrive(t, b2, n, p), n);
      }
    }
  }

  lemma PtrsKeep(t: Topology, a: Net, n: Node, rx: nat, sd: nat)
    requires Shape(t, a) && n in a.nodes && n in t.rxs && n in t.nodePorts
    requires (rx < |t.rxs[n]| || rx == 0) && (sd < |t.nodePorts[n]| || sd == 0)
    ensures SetPtrs(t, a, n, rx, sd).edges == a.edges && SetPtrs(t, a, n, rx, sd).ports == a.ports
  {
    hide EdgeOk, PortOk, NodeOk;
  }

  lemma StayAlike(t: Topology, a: Net, b: Net, n: Node, i: nat)
    requires Shape(t, a) && Shape(t, b) && SameAround(t, a, b, n) && n in a.nodes && n in b.nodes
    requires i < |a.nodes[n].pipeline| && a.nodes[n] == b.nodes[n]
    ensures Alike(t, a, b, Stay(t, a, n, i), Stay(t, b, n, i), n)
  {
    hide Shape;
  }

  lemma PipeOutAlike(t: Topology, a: Net, b: Net, n: Node, i: nat, e: nat)
    requires Shape(t, a) && Shape(t, b) && SameAround(t, a, b, n) && n in a.nodes && n in b.nodes
    requires i < |a.nodes[n].pipeline| && a.nodes[n] == b.nodes[n]
    requires e < |a.edges| && e < |b.edges| && e < |t.edgeEnds| && t.edgeEnds[e].0 == n
    requires a.nodes[n].pipeline[i].pack.cha < t.Channels()
    ensures Alike(t, a, b, PipeOut(t, a, n, i, e), PipeOut(t, b, n, i, e), n)
  {
    hide Shape;
    EdgeSlots(t, a, e);
    EdgeSlots(t, b, e);
    assert InputsOf(a, e) == InputsOf(b, e);
  }

  lemma BlockedAlike(t: Topology, a: Net, b: Net, n: Node, p: MsgPack)
    requires t.Ok() && Shape(t, a) && Shape(t, b) && SameAround(t, a, b, n) && n in t.nodeIds
    requires Addressed(t, p) && p.tgt in t.nodeIds && p.tgt != n
    ensures Blocked(t, a, n, p) <==> Blocked(t, b, n, p)
  {
    hide Topology.Ok, Shape;
    var e := EdgeFor(t, n, p.tgt);
    EdgeSlots(t, a, e);
    EdgeSlots(t, b, e);
    assert InputsOf(a, e) == InputsOf(b, e);
  }

  lemma {:induction false} PipeScanAlike(t: Topology, a: Net, b: Net, n: Node, i: nat)
    requires t.Ok() && Shape(t, a) && Shape(t, b) && SameAround(t, a, b, n) && n in t.nodeIds
    requires i <= |a.nodes[n].pipeline| && i <= |b.nodes[n].pipeline|
    ensures Alike(t, a, b, PipeScan(t, a, n, i), PipeScan(t, b, n, i), n)
    decreases |a.nodes[n].pipeline| - i
  {
    hide Topology.Ok, Shape, Stay, PipeOut, SameElsewhere, SameAround, Blocked, EdgeFor, Addressed;
    NodeIndices(t, a, n);
    NodeIndices(t, b, n);
    SameNode(t, a, b, n);
    if i == |a.nodes[n].pipeline| {
      AlikeSelf(t, a, b, n);
    } else {
      PipeTarget(t, a, n, i);
      var p := a.nodes[n].pipeline[i].pack;
      BlockedAlike(t, a, b, n, p);
      if Blocked(t, a, n, p) {
        var a', b' := Stay(t, a, n, i), Stay(t, b, n, i);
        StayLength(t, a, n, i);
        StayLength(t, b, n, i);
        StayAlike(t, a, b, n, i);
        PipeScanAlike(t, a', b', n, i + 1);
        AlikeTrans(t, a, b, a', b', PipeScan(t, a', n, i + 1), PipeScan(t, b', n, i + 1), n);
      } else {
        var e := EdgeFor(t, n, p.tgt);
        EdgeSlots(t, a, e);
        EdgeSlots(t, b, e);
        assert p.cha < t.Channels() by {
          PackChannel(t, p);
        }
        var a', b' := PipeOut(t, a, n, i, e), PipeOut(t, b, n, i, e);
        PipeOutLength(t, a, n, i, e);
        PipeOutLength(t, b, n, i, e);
        PipeOutAlike(t, a, b, n, i, e);
        PipeScanAlike(t, a', b', n, i);
        AlikeTrans(t, a, b, a', b', PipeScan(t, a', n, i), PipeScan(t, b', n, i), n);
      }
    }
  }

  lemma PackChannel(t: Topology, p: MsgPack)
    requires Addressed(t, p)
    ensures p.cha < t.Channels()
  {
  }

  lemma SameNode(t: Topology, a: Net, b: Net, n: Node)
    requires SameAround(t, a, b, n) && n in a.nodes
    ensures n in b.nodes && a.nodes[n] == b.nodes[n]
  {
  }

  lemma AlikeSelf(t: Topology, a: Net, b: Net, n: Node)
    requires SameAround(t, a, b, n)
    ensures Alike(t, a, b, a, b, n)
  {
  }

  lemma NodeStepAlike(t: Topology, a: Net, b: Net, n: Node)
    requires t.Ok() && Shape(t, a) && Shape(t, b) && SameAround(t, a, b, n) && n in t.nodeIds
    ensures Alike(t, a, b, NodeStep(t, a, n), NodeStep(t, b, n), n)
  {
    hide Topology.Ok, EdgeOk, PortOk, NodeOk, Accept, PipeScan, SameElsewhere, SameAround;
    AcceptAlike(t, a, b, n);
    var a', b' := Accept(t, a, n), Accept(t, b, n);
    PipeScanAlike(t, a', b', n, 0);
    AlikeTrans(t, a, b, a', b', NodeStep(t, a, n), NodeStep(t, b, n), n);
  }

  // ---------------------------------------------------------------- the nodes in a tick

  lemma AroundOther(t: Topology, a: Net, b: Net, c: Net, n: Node, k: Node)
    requires n != k && SameAround(t, a, c, k) && SameElsewhere(t, a, b, n)
    ensures SameAround(t, b, c, k)
  {
    hide NodeAt, PortAt, InputsOf, OutputsOf;
  }

  /** The nodes before `i` have made their step, each as if it had been the first; the others have not. */
  ghost predicate Stepped(t: Topology, net: Net, now: Net, i: nat)
    requires t.Ok() && Shape(t, net)
  {
    && now.xmtidAlloc == net.xmtidAlloc
    && (forall j :: 0 <= j < i && j < |t.nodeIds| ==> SameAround(t, now, NodeStep(t, net, t.nodeIds[j]), t.nodeIds[j]))
    && (forall j :: i <= j < |t.nodeIds| ==> SameAround(t, now, net, t.nodeIds[j]))
  }

  lemma SteppedMore(t: Topology, net: Net, now: Net, i: nat)
    requires t.Ok() && Shape(t, net) && Shape(t, now) && i < |t.nodeIds| && Stepped(t, net, now, i)
    ensures Stepped(t, net, NodeStep(t, now, t.nodeIds[i]), i + 1)
  {
    hide Topology.Ok, Shape, NodeStep, SameAround, SameElsewhere;
    var n := t.nodeIds[i];
    NodesOnce(t);
    NodeStepAlike(t, now, net, n);
    var r := NodeStep(t, now, n);
    assert SameElsewhere(t, now, r, n) by {
      assert Alike(t, now, net, r, NodeStep(t, net, n), n);
    }
    assert r.xmtidAlloc == now.xmtidAlloc by {
      SameId(t, now, r, n);
    }
    forall j | 0 <= j < |t.nodeIds| && j != i
      ensures j < i ==> SameAround(t, r, NodeStep(t, net, t.nodeIds[j]), t.nodeIds[j])
      ensures j > i ==> SameAround(t, r, net, t.nodeIds[j])
    {
      if j < i {
        AroundOther(t, now, r, NodeStep(t, net, t.nodeIds[j]), n, t.nodeIds[j]);
      } else {
        AroundOther(t, now, r, net, n, t.nodeIds[j]);
      }
    }
  }

  lemma SameId(t: Topology, a: Net, b: Net, n: Node)
    requires SameElsewhere(t, a, b, n)
    ensures b.xmtidAlloc == a.xmtidAlloc
  {
  }

  lemma NodesOnce(t: Topology)
    requires t.Ok()
    ensures forall i, j :: 0 <= i < |t.nodeIds| && 0 <= j < |t.nodeIds| && i != j ==> t.nodeIds[i] != t.nodeIds[j]
  {
  }

  lemma {:induction false} NodesStepped(t: Topology, net: Net, now: Net, i: nat)
    requires t.Ok() && Shape(t, net) && Shape(t, now) && i <= |t.nodeIds| && Stepped(t, net, now, i)
    ensures Stepped(t, net, TickNodes(t, now, i), |t.nodeIds|)
    decreases |t.nodeIds| - i
  {
    hide Topology.Ok, Shape, NodeStep, Stepped;
    if i < |t.nodeIds| {
      SteppedMore(t, net, now, i);
      NodesStepped(t, net, NodeStep(t, now, t.nodeIds[i]), i + 1);
    }
  }

  lemma NothingStepped(t: Topology, net: Net)
    requires t.Ok() && Shape(t, net)
    ensures Stepped(t, net, net, 0)
  {
    hide Topology.Ok, Shape, NodeAt, PortAt, InputsOf, OutputsOf;
  }

  /** In the node half of a tick, around every node just its own step has happened, as if it had been made first. */
  lemma NodesEachAlone(t: Topology, net: Net, n: Node)
    requires t.Ok() && Shape(t, net) && n in t.nodeIds
    ensures SameAround(t, TickNodes(t, net, 0), NodeStep(t, net, n), n)
    ensures TickNodes(t, net, 0).xmtidAlloc == net.xmtidAlloc
  {
    hide Topology.Ok, Shape, NodeStep, SameAround, TickNodes;
    NothingStepped(t, net);
    NodesStepped(t, net, net, 0);
    var j :| 0 <= j < |t.nodeIds| && t.nodeIds[j] == n;
  }

  // ---------------------------------------------------------------- a whole tick

  /** What lies at both ends of an edge when all nodes have made their step: one has put packets in, the other has taken
      packets out. */
  ghost function Between(t: Topology, net: Net, e: nat): EdgeInChannel
    requires t.Ok() && Shape(t, net) && e < |t.edgeEnds|
  {
    EdgeEndsIn(t, e);
    EdgeInChannel(InputsOf(NodeStep(t, net, t.edgeEnds[e].0), e), OutputsOf(NodeStep(t, net, t.edgeEnds[e].1), e))
  }

  lemma EdgeEndsIn(t: Topology, e: nat)
    requires t.Ok() && e < |t.edgeEnds|
    ensures t.edgeEnds[e].0 in t.nodeIds && t.edgeEnds[e].1 in t.nodeIds
  {
  }

  /** The state after a tick, place by place: every node has made one step from the state before the tick, every wire
      has carried what its width allows of what these steps have left at it, and nothing else has happened. */
  ghost predicate TickDone(t: Topology, net: Net, r: Net)
    requires t.Ok() && Shape(t, net)
  {
    && Shape(t, r) && r.xmtidAlloc == net.xmtidAlloc
    && (forall n :: n in t.nodeIds ==> NodeAt(r, n) == NodeAt(NodeStep(t, net, n), n))
    && (forall p :: p in t.portToNode && t.portToNode[p] in t.nodeIds ==>
          PortAt(r, p) == PortAt(NodeStep(t, net, t.portToNode[p]), p))
    && (forall e :: 0 <= e < |t.edgeEnds| && e < |r.edges| ==> Wire(Between(t, net, e), r.edges[e], t.width))
  }

  lemma TickExactly(t: Topology, net: Net)
    requires t.Ok() && Shape(t, net)
    ensures TickDone(t, net, Tick(t, net))
  {
    hide Topology.Ok, EdgeOk, PortOk, NodeOk, NodeStep, TickNodes, TickEdges, Wire, Between, SameAround;
    var mid := TickNodes(t, net, 0);
    var r := Tick(t, net);
    TickEdgesExactly(t, mid, 0);
    forall n | n in t.nodeIds
      ensures NodeAt(r, n) == NodeAt(NodeStep(t, net, n), n)
      ensures forall p :: p in t.portToNode && t.portToNode[p] == n ==> PortAt(r, p) == PortAt(NodeStep(t, net, n), p)
    {
      NodesEachAlone(t, net, n);
      AroundParts(t, mid, NodeStep(t, net, n), n);
    }
    assert r.xmtidAlloc == net.xmtidAlloc by {
      SameCounter(t, net);
    }
    forall e | 0 <= e < |t.edgeEnds|
      ensures Between(t, net, e) == mid.edges[e]
    {
      EdgeIsBetween(t, net, e);
    }
  }

  lemma AroundParts(t: Topology, a: Net, b: Net, n: Node)
    requires SameAround(t, a, b, n)
    ensures NodeAt(a, n) == NodeAt(b, n)
    ensures forall p :: p in t.portToNode && t.portToNode[p] == n ==> PortAt(a, p) == PortAt(b, p)
  {
    hide NodeAt, PortAt;
  }

  lemma SameCounter(t: Topology, net: Net)
    requires t.Ok() && Shape(t, net)
    ensures TickNodes(t, net, 0).xmtidAlloc == net.xmtidAlloc
  {
    hide Topology.Ok, Shape, NodeStep, TickNodes, SameAround;
    NothingStepped(t, net);
    NodesStepped(t, net, net, 0);
  }

  lemma EdgeIsBetween(t: Topology, net: Net, e: nat)
    requires t.Ok() && Shape(t, net) && e < |t.edgeEnds|
    ensures var mid := TickNodes(t, net, 0); e < |mid.edges| && Between(t, net, e) == mid.edges[e]
  {
    hide Topology.Ok, EdgeOk, PortOk, NodeOk, NodeStep, TickNodes;
    EdgeEndsIn(t, e);
    NodesEachAlone(t, net, t.edgeEnds[e].0);
    NodesEachAlone(t, net, t.edgeEnds[e].1);
  }

  /** There is only one such state. */
  lemma TickUnique(t: Topology, net: Net, a: Net, b: Net)
    requires t.Ok() && Shape(t, net) && TickDone(t, net, a) && TickDone(t, net, b)
    ensures a == b
  {
    hide Topology.Ok, EdgeOk, PortOk, NodeOk, NodeStep, Wire, Between, NodeAt, PortAt;
    PortsPlaced(t);
    forall e | 0 <= e < |a.edges|
      ensures a.edges[e] == b.edges[e]
    {
      WireUnique(Between(t, net, e), a.edges[e], b.edges[e], t.width);
    }
    assert a.edges == b.edges;
    SameMaps(a, b);
  }

  lemma SameMaps(a: Net, b: Net)
    requires a.nodes.Keys == b.nodes.Keys && forall n :: n in a.nodes ==> NodeAt(a, n) == NodeAt(b, n)
    requires a.ports.Keys == b.ports.Keys && forall p :: p in a.ports ==> PortAt(a, p) == PortAt(b, p)
    ensures a.nodes == b.nodes && a.ports == b.ports
  {
  }

  lemma PortsPlaced(t: Topology)
    requires t.Ok()
    ensures forall p :: p in t.portToNode ==> t.portToNode[p] in t.nodeIds
  {
  }

  // ---------------------------------------------------------------- the order of the nodes

  /** The same bus, its nodes walked in another order. */
  ghost predicate Reordered(t: Topology, u: Topology) {
    t.Ok() && u.Ok() && u == t.(nodeIds := u.nodeIds) && NodeSet(u.nodeIds) == NodeSet(t.nodeIds)
  }

  lemma SameMembers(t: Topology, u: Topology, net: Net)
    requires Reordered(t, u)
    ensures forall n :: n in t.nodeIds <==> n in u.nodeIds
    ensures Shape(t, net) ==> Shape(u, net)
  {
    hide Topology.Ok, EdgeOk, PortOk, NodeOk;
    assert forall n :: n in t.nodeIds <==> n in NodeSet(t.nodeIds);
    assert forall n :: n in u.nodeIds <==> n in NodeSet(u.nodeIds);
    assert forall e :: EdgeOk(t, e) ==> EdgeOk(u, e) by {
      SameChecks(t, u);
    }
    SameChecks(t, u);
  }

  lemma SameChecks(t: Topology, u: Topology)
    requires u == t.(nodeIds := u.nodeIds)
    ensures forall e :: EdgeOk(t, e) <==> EdgeOk(u, e)
    ensures forall p :: PortOk(t, p) <==> PortOk(u, p)
    ensures forall n, ns :: NodeOk(t, n, ns) <==> NodeOk(u, n, ns)
  {
    assert forall p :: Addressed(t, p) <==> Addressed(u, p);
    assert forall l :: ListOk(t, l) <==> ListOk(u, l);
    assert forall l :: SlotsOk(t, l) <==> SlotsOk(u, l);
    assert forall n, l :: PipelineOk(t, n, l) <==> PipelineOk(u, n, l);
  }

  lemma AcceptReordered(t: Topology, u: Topology, net: Net, n: Node)
    requires Reordered(t, u) && Shape(t, net) && Shape(u, net) && n in t.nodeIds && n in u.nodeIds
    ensures Accept(u, net, n) == Accept(t, net, n)
  {
    hide Topology.Ok, Shape, DeliverAt, RingScan, FirstFull, FirstNonEmpty;
    NodeIndices(t, net, n);
    NodeIndices(u, net, n);
    assert RxReady(u, net, n) == RxReady(t, net, n);
    assert SdReady(u, net, n) == SdReady(t, net, n);
    EdgeIsFirst(t, net, n);
    PortIsFirst(t, net, n);
  }

  lemma {:induction false} PipeScanReordered(t: Topology, u: Topology, net: Net, n: Node, i: nat)
    requires Reordered(t, u) && Shape(t, net) && Shape(u, net) && n in t.nodeIds && n in u.nodeIds
    requires i <= |net.nodes[n].pipeline|
    ensures PipeScan(u, net, n, i) == PipeScan(t, net, n, i)
    decreases |net.nodes[n].pipeline| - i
  {
    hide Topology.Ok, Shape, Addressed, NodeSet;
    NodeIndices(t, net, n);
    if i < |net.nodes[n].pipeline| {
      PipeTarget(t, net, n, i);
      PipeTarget(u, net, n, i);
      var p := net.nodes[n].pipeline[i].pack;
      if Blocked(t, net, n, p) {
        assert Stay(u, net, n, i) == Stay(t, net, n, i);
        PipeScanReordered(t, u, Stay(t, net, n, i), n, i + 1);
      } else {
        var e := EdgeFor(t, n, p.tgt);
        EdgeSlots(t, net, e);
        assert PipeOut(u, net, n, i, e) == PipeOut(t, net, n, i, e);
        PipeScanReordered(t, u, PipeOut(t, net, n, i, e), n, i);
      }
    }
  }

  lemma NodeStepReordered(t: Topology, u: Topology, net: Net, n: Node)
    requires Reordered(t, u) && Shape(t, net) && Shape(u, net) && n in t.nodeIds && n in u.nodeIds
    ensures NodeStep(u, net, n) == NodeStep(t, net, n)
  {
    hide Topology.Ok, EdgeOk, PortOk, NodeOk, Accept, PipeScan;
    AcceptReordered(t, u, net, n);
    PipeScanReordered(t, u, Accept(t, net, n), n, 0);
  }

  /** A tick does the same in whatever order the nodes are walked. */
  lemma OrderIsImmaterial(t: Topology, u: Topology, net: Net)
    requires Reordered(t, u) && Shape(t, net)
    ensures Shape(u, net) && Tick(u, net) == Tick(t, net)
  {
    hide Topology.Ok, EdgeOk, PortOk, NodeOk, NodeStep, Tick, Wire, NodeAt, PortAt, InputsOf, OutputsOf;
    SameMembers(t, u, net);
    var r := Tick(t, net);
    SameMembers(t, u, r);
    TickExactly(t, net);
    TickExactly(u, net);
    forall n | n in t.nodeIds
      ensures NodeStep(u, net, n) == NodeStep(t, net, n)
    {
      NodeStepReordered(t, u, net, n);
    }
    forall e | 0 <= e < |t.edgeEnds|
      ensures Between(u, net, e) == Between(t, net, e)
    {
      EdgeEndsIn(t, e);
    }
    assert TickDone(u, net, r);
    TickUnique(u, net, Tick(u, net), r);
  }
}

/** The state of the symmetric multi-channel bus and what each of its operations does to it, as
    functions on values (src/bus/symmulcha.h, src/bus/symmulcha.cpp). `Bus.dfy` holds the class whose
    methods compute these functions step by step. */
module BusModel {
  import opened Arithmetic
  import opened Wrappers
  import opened RouteTable

  type Port = nat
  type Channel = nat
  type XmitId = nat
  type Byte = b: nat | b < 256

  datatype MsgPack = MsgPack(
    src: Port, dst: Port, tgt: Node, cha: Channel, xmtid: XmitId, len: nat, idx: nat, cnt: nat, data: seq<Byte>)

  datatype PipelinedPack = PipelinedPack(pack: MsgPack, cycleRemained: nat)

  /** One slot per channel on each side; None is the null pointer. */
  datatype EdgeInChannel = EdgeInChannel(input: seq<Option<MsgPack>>, output: seq<Option<MsgPack>>)

  datatype PortStruct = PortStruct(recvBuf: seq<seq<MsgPack>>, sendBuf: seq<seq<MsgPack>>)

  /** The fields of a node that change after construction. */
  datatype NodeStruct = NodeStruct(
    rxPtr: nat, sdPtr: nat, pipeline: seq<PipelinedPack>, orderBuf: map<XmitId, seq<MsgPack>>)

  /** What the constructor fixes. `nodeIds` and `nodePorts` carry the iteration orders of the hash
      maps, which may be any. An edge is known by its index; `txs` and `rxs` hold indices. */
  datatype Topology = Topology(
    chaWidths: seq<nat>, width: nat, routeLatency: nat,
    nodeIds: seq<Node>, portToNode: map<Port, Node>, nodePorts: map<Node, seq<Port>>,
    edgeEnds: seq<(Node, Node)>, txs: map<(Node, Node), nat>, rxs: map<Node, seq<nat>>, route: Table)
  {
    function Channels(): nat { |chaWidths| }

    function Fuel(): nat { |nodeIds| }

    /** The output of the constructor: consistent indices, and a table that gets everywhere. */
    ghost predicate Ok() {
      && width > 0
      && (forall c :: 0 <= c < |chaWidths| ==> chaWidths[c] > 0)
      && (forall i, j :: 0 <= i < j < |nodeIds| ==> nodeIds[i] != nodeIds[j])
      && (forall p :: p in portToNode ==> portToNode[p] in nodeIds)
      && nodePorts.Keys == NodeSet(nodeIds)
      && rxs.Keys == NodeSet(nodeIds)
      && (forall n, i :: n in nodePorts && 0 <= i < |nodePorts[n]| ==>
            nodePorts[n][i] in portToNode && portToNode[nodePorts[n][i]] == n)
      && (forall n, i, j :: n in nodePorts && 0 <= i < j < |nodePorts[n]| ==> nodePorts[n][i] != nodePorts[n][j])
      && (forall p :: p in portToNode ==> p in nodePorts[portToNode[p]])
      && EdgesOk()
      && Closed(route, NodeSet(nodeIds))
      && (forall s, d {:trigger WalkDist(route, s, d, Fuel())} :: s in nodeIds && d in nodeIds ==>
            WalkDist(route, s, d, Fuel()).Some?)
    }

    ghost predicate EdgesOk()
      requires rxs.Keys == NodeSet(nodeIds)
    {
      && (forall e :: 0 <= e < |edgeEnds| ==>
            edgeEnds[e].0 in nodeIds && edgeEnds[e].1 in nodeIds && e in rxs[edgeEnds[e].1])
      && (forall n, i :: n in rxs && 0 <= i < |rxs[n]| ==>
            rxs[n][i] < |edgeEnds| && edgeEnds[rxs[n][i]].1 == n)
      && (forall ab :: ab in txs ==> txs[ab] < |edgeEnds| && edgeEnds[txs[ab]] == ab)
      && (forall n, d {:trigger Next(route, n, d)} ::
            n in nodeIds && d in nodeIds && n != d && Next(route, n, d).Some? ==>
            (n, Next(route, n, d).value) in txs)
    }

    /** Hops left from `n` to `d`. */
    ghost function Hops(n: Node, d: Node): nat
      requires Ok() && n in nodeIds && d in nodeIds
    {
      WalkDist(route, n, d, Fuel()).value
    }
  }

  datatype Net = Net(
    nodes: map<Node, NodeStruct>, ports: map<Port, PortStruct>, edges: seq<EdgeInChannel>, xmtidAlloc: XmitId)

  /** A packet that can be handled where it is: known ports, and a known channel. */
  predicate Addressed(t: Topology, p: MsgPack) {
    && p.src in t.portToNode && p.dst in t.portToNode
    && p.tgt == t.portToNode[p.dst] && p.cha < t.Channels()
  }

  predicate SlotsOk(t: Topology, slots: seq<Option<MsgPack>>) {
    && |slots| == t.Channels()
    && forall c :: 0 <= c < |slots| && slots[c].Some? ==> Addressed(t, slots[c].value)
  }

  predicate ListOk(t: Topology, l: seq<MsgPack>) {
    forall i :: 0 <= i < |l| ==> Addressed(t, l[i])
  }

  predicate EdgeOk(t: Topology, e: EdgeInChannel) {
    SlotsOk(t, e.input) && SlotsOk(t, e.output)
  }

  predicate PortOk(t: Topology, p: PortStruct) {
    && |p.sendBuf| == t.Channels() && |p.recvBuf| == t.Channels()
    && forall c :: 0 <= c < |p.sendBuf| ==> ListOk(t, p.sendBuf[c])
  }

  predicate PipelineOk(t: Topology, n: Node, l: seq<PipelinedPack>) {
    forall i :: 0 <= i < |l| ==> Addressed(t, l[i].pack) && l[i].pack.tgt != n
  }

  predicate NodeOk(t: Topology, n: Node, ns: NodeStruct) {
    && PipelineOk(t, n, ns.pipeline)
    && (n in t.rxs ==> ns.rxPtr < |t.rxs[n]| || ns.rxPtr == 0)
    && (n in t.nodePorts ==> ns.sdPtr < |t.nodePorts[n]| || ns.sdPtr == 0)
  }

  /** Every buffer is there, and every packet in one is addressed. */
  ghost predicate Shape(t: Topology, net: Net) {
    && net.nodes.Keys == NodeSet(t.nodeIds)
    && net.ports.Keys == t.portToNode.Keys
    && |net.edges| == |t.edgeEnds|
    && (forall e :: 0 <= e < |net.edges| ==> EdgeOk(t, net.edges[e]))
    && (forall p :: p in net.ports ==> PortOk(t, net.ports[p]))
    && (forall n :: n in net.nodes ==> NodeOk(t, n, net.nodes[n]))
  }

  // ---------------------------------------------------------------- single-buffer updates

  function SetEdge(net: Net, e: nat, v: EdgeInChannel): Net
    requires e < |net.edges|
  {
    net.(edges := net.edges[e := v])
  }

  function SetPort(net: Net, p: Port, v: PortStruct): Net {
    net.(ports := net.ports[p := v])
  }

  function SetNode(net: Net, n: Node, v: NodeStruct): Net {
    net.(nodes := net.nodes[n := v])
  }

  function WithOutput(e: EdgeInChannel, c: Channel, v: Option<MsgPack>): EdgeInChannel
    requires c < |e.output|
  {
    e.(output := e.output[c := v])
  }

  function WithInput(e: EdgeInChannel, c: Channel, v: Option<MsgPack>): EdgeInChannel
    requires c < |e.input|
  {
    e.(input := e.input[c := v])
  }

  function WithSend(p: PortStruct, c: Channel, l: seq<MsgPack>): PortStruct
    requires c < |p.sendBuf|
  {
    p.(sendBuf := p.sendBuf[c := l])
  }

  function WithRecv(p: PortStruct, c: Channel, l: seq<MsgPack>): PortStruct
    requires c < |p.recvBuf|
  {
    p.(recvBuf := p.recvBuf[c := l])
  }

  // ---------------------------------------------------------------- picking a packet

  /** The first full slot, or the number of slots. */
  function FirstFull(slots: seq<Option<MsgPack>>): (c: nat)
    ensures c <= |slots|
    ensures forall i :: 0 <= i < c ==> slots[i].None?
    ensures c < |slots| ==> slots[c].Some?
  {
    if slots == [] || slots[0].Some? then 0 else 1 + FirstFull(slots[1..])
  }

  /** The first list that is not empty, or the number of lists. */
  function FirstNonEmpty(lists: seq<seq<MsgPack>>): (c: nat)
    ensures c <= |lists|
    ensures forall i :: 0 <= i < c ==> lists[i] == []
    ensures c < |lists| ==> lists[c] != []
  {
    if lists == [] || lists[0] != [] then 0 else 1 + FirstNonEmpty(lists[1..])
  }

  function NextPlace(ptr: nat, size: nat): nat
    requires size > 0
  {
    (ptr + 1) % size
  }

  lemma NextPlaceIs(ptr: nat, size: nat)
    requires ptr < size
    ensures NextPlace(ptr, size) == if ptr + 1 == size then 0 else ptr + 1
  {
  }

  /** A round-robin scan of at most `k` places from `ptr`: where it stops, and whether on a ready place. */
  function RingScan(ready: seq<bool>, ptr: nat, k: nat): (r: (nat, bool))
    requires ptr < |ready| || k == 0
    ensures r.1 ==> r.0 < |ready| && ready[r.0]
    ensures ptr < |ready| ==> r.0 < |ready|
    ensures k == 0 ==> r == (ptr, false)
    decreases k
  {
    if k == 0 then (ptr, false)
    else if ready[ptr] then (ptr, true)
    else
      NextPlaceIs(ptr, |ready|);
      RingScan(ready, NextPlace(ptr, |ready|), k - 1)
  }

  function RxReady(t: Topology, net: Net, n: Node): (r: seq<bool>)
    requires t.Ok() && Shape(t, net) && n in t.nodeIds
    ensures |r| == |t.rxs[n]|
  {
    seq(|t.rxs[n]|, i requires 0 <= i < |t.rxs[n]| =>
      FirstFull(net.edges[t.rxs[n][i]].output) < t.Channels())
  }

  function SdReady(t: Topology, net: Net, n: Node): (r: seq<bool>)
    requires t.Ok() && Shape(t, net) && n in t.nodeIds
    ensures |r| == |t.nodePorts[n]|
  {
    seq(|t.nodePorts[n]|, i requires 0 <= i < |t.nodePorts[n]| =>
      FirstNonEmpty(net.ports[t.nodePorts[n][i]].sendBuf) < t.Channels())
  }

  // ---------------------------------------------------------------- what a node does with a packet

  /** Before the first packet whose index is not smaller. */
  function InsertByIdx(l: seq<MsgPack>, p: MsgPack): (r: seq<MsgPack>)
    ensures |r| == |l| + 1
  {
    if l == [] || l[0].idx >= p.idx then [p] + l else [l[0]] + InsertByIdx(l[1..], p)
  }

  function OrderList(m: map<XmitId, seq<MsgPack>>, x: XmitId): seq<MsgPack> {
    if x in m then m[x] else []
  }

  /** A packet for this node: the receive buffer and the order buffer after it came in. */
  function DeliverAt(rb: seq<MsgPack>, ob: map<XmitId, seq<MsgPack>>, p: MsgPack):
    (seq<MsgPack>, map<XmitId, seq<MsgPack>>)
  {
    if p.cnt <= 1 then (rb + [p], ob)
    else
      var l := InsertByIdx(OrderList(ob, p.xmtid), p);
      if |l| == p.cnt then (rb + l, ob - {p.xmtid}) else (rb, ob[p.xmtid := l])
  }

  function Deliver(t: Topology, net: Net, n: Node, p: MsgPack): (r: Net)
    requires Shape(t, net) && Addressed(t, p) && n in net.nodes
    ensures Shape(t, r)
  {
    var (rb, ob) := DeliverAt(net.ports[p.dst].recvBuf[p.cha], net.nodes[n].orderBuf, p);
    SetNode(SetPort(net, p.dst, WithRecv(net.ports[p.dst], p.cha, rb)), n, net.nodes[n].(orderBuf := ob))
  }

  function Enqueue(t: Topology, net: Net, n: Node, p: MsgPack): (r: Net)
    requires Shape(t, net) && Addressed(t, p) && n in net.nodes && p.tgt != n
    ensures Shape(t, r)
  {
    var ns := net.nodes[n];
    SetNode(net, n, ns.(pipeline := ns.pipeline + [PipelinedPack(p, t.routeLatency)]))
  }

  function Arrive(t: Topology, net: Net, n: Node, p: MsgPack): (r: Net)
    requires Shape(t, net) && Addressed(t, p) && n in net.nodes
    ensures Shape(t, r)
  {
    if p.tgt == n then Deliver(t, net, n, p) else Enqueue(t, net, n, p)
  }

  /** The packet leaves the output slot. */
  function TakeOutput(t: Topology, net: Net, e: nat, c: Channel): (r: Net)
    requires Shape(t, net) && e < |net.edges| && c < t.Channels()
    ensures Shape(t, r)
  {
    SetEdge(net, e, WithOutput(net.edges[e], c, None))
  }

  /** The head leaves the send buffer. */
  function TakeSend(t: Topology, net: Net, p: Port, c: Channel): (r: Net)
    requires Shape(t, net) && p in net.ports && c < t.Channels() && net.ports[p].sendBuf[c] != []
    ensures Shape(t, r)
  {
    SetPort(net, p, WithSend(net.ports[p], c, net.ports[p].sendBuf[c][1..]))
  }

  function SetPtrs(t: Topology, net: Net, n: Node, rx: nat, sd: nat): (r: Net)
    requires Shape(t, net) && n in net.nodes && n in t.rxs && n in t.nodePorts
    requires rx < |t.rxs[n]| || rx == 0
    requires sd < |t.nodePorts[n]| || sd == 0
    ensures Shape(t, r)
  {
    SetNode(net, n, net.nodes[n].(rxPtr := rx, sdPtr := sd))
  }

  lemma NodeIndices(t: Topology, net: Net, n: Node)
    requires t.Ok() && Shape(t, net) && n in t.nodeIds
    ensures n in net.nodes && n in t.rxs && n in t.nodePorts
    ensures net.nodes[n].rxPtr < |t.rxs[n]| || (net.nodes[n].rxPtr == 0 && |t.rxs[n]| == 0)
    ensures net.nodes[n].sdPtr < |t.nodePorts[n]| || (net.nodes[n].sdPtr == 0 && |t.nodePorts[n]| == 0)
    ensures forall i :: 0 <= i < |t.rxs[n]| ==> t.rxs[n][i] < |net.edges| && t.edgeEnds[t.rxs[n][i]].1 == n
    ensures forall i :: 0 <= i < |t.nodePorts[n]| ==>
      t.nodePorts[n][i] in net.ports && t.portToNode[t.nodePorts[n][i]] == n
    ensures forall e :: 0 <= e < |net.edges| ==> |net.edges[e].output| == t.Channels()
    ensures forall p :: p in net.ports ==> |net.ports[p].sendBuf| == t.Channels()
  {
    assert NodeOk(t, n, net.nodes[n]);
  }

  /** First half of process_node: at most one packet comes in, off an incoming edge or, failing that,
      out of a send buffer of this node. */
  function Accept(t: Topology, net: Net, n: Node): (r: Net)
    requires t.Ok() && Shape(t, net) && n in t.nodeIds
    ensures Shape(t, r)
  {
    hide Topology.Ok, NodeOk, RingScan;
    NodeIndices(t, net, n);
    var ns := net.nodes[n];
    var rx := RingScan(RxReady(t, net, n), ns.rxPtr, |t.rxs[n]|);
    if rx.1 then
      var e := t.rxs[n][rx.0];
      var c := FirstFull(net.edges[e].output);
      var p := net.edges[e].output[c].value;
      Arrive(t, TakeOutput(t, SetPtrs(t, net, n, rx.0, ns.sdPtr), e, c), n, p)
    else
      var sd := RingScan(SdReady(t, net, n), ns.sdPtr, |t.nodePorts[n]|);
      var net' := SetPtrs(t, net, n, rx.0, sd.0);
      if sd.1 then
        var port := t.nodePorts[n][sd.0];
        var c := FirstNonEmpty(net.ports[port].sendBuf);
        var p := net.ports[port].sendBuf[c][0];
        Arrive(t, TakeSend(t, net', port, c), n, p)
      else net'
  }

  /** The edge the packet leaves node `n` by. The constructor's checks make it exist. */
  function EdgeFor(t: Topology, n: Node, d: Node): (e: nat)
    requires t.Ok() && n in t.nodeIds && d in t.nodeIds && n != d
    ensures e < |t.edgeEnds| && t.edgeEnds[e].0 == n
    ensures Next(t.route, n, d) == Some(t.edgeEnds[e].1) && t.edgeEnds[e].1 in t.nodeIds
  {
    assert WalkDist(t.route, n, d, t.Fuel()).Some?;
    t.txs[(n, t.route[n][d])]
  }

  lemma PipeTarget(t: Topology, net: Net, n: Node, i: nat)
    requires t.Ok() && Shape(t, net) && n in t.nodeIds && i < |net.nodes[n].pipeline|
    ensures var p := net.nodes[n].pipeline[i].pack; Addressed(t, p) && p.tgt != n && p.tgt in t.nodeIds
  {
    hide EdgeOk, PortOk;
    assert NodeOk(t, n, net.nodes[n]);
  }

  lemma EdgeSlots(t: Topology, net: Net, e: nat)
    requires Shape(t, net) && e < |t.edgeEnds|
    ensures e < |net.edges| && |net.edges[e].input| == |net.edges[e].output| == t.Channels()
  {
    hide PortOk, NodeOk;
    assert EdgeOk(t, net.edges[e]);
  }

  /** The slot a pipelined packet waits for is occupied. */
  predicate Blocked(t: Topology, net: Net, n: Node, p: MsgPack)
    requires t.Ok() && Shape(t, net) && n in t.nodeIds && Addressed(t, p) && p.tgt != n
  {
    net.edges[EdgeFor(t, n, p.tgt)].input[p.cha].Some?
  }

  /** Entry `i` stays; its latency is used up. */
  function Stay(t: Topology, net: Net, n: Node, i: nat): (r: Net)
    requires Shape(t, net) && n in net.nodes && i < |net.nodes[n].pipeline|
    ensures Shape(t, r)
  {
    var ns := net.nodes[n];
    SetNode(net, n, ns.(pipeline := ns.pipeline[i := PipelinedPack(ns.pipeline[i].pack, 0)]))
  }

  /** Entry `i` leaves into the input slot of edge `e`. */
  function PipeOut(t: Topology, net: Net, n: Node, i: nat, e: nat): (r: Net)
    requires Shape(t, net) && n in net.nodes && i < |net.nodes[n].pipeline| && e < |net.edges|
    ensures Shape(t, r)
  {
    var ns := net.nodes[n];
    var p := ns.pipeline[i].pack;
    SetEdge(SetNode(net, n, ns.(pipeline := ns.pipeline[..i] + ns.pipeline[i + 1..])),
      e, WithInput(net.edges[e], p.cha, Some(p)))
  }

  /** Second half of process_node, from pipeline entry `i` on: entries leave in order, each if its slot
      is free; an entry that stays has its latency used up. */
  function PipeScan(t: Topology, net: Net, n: Node, i: nat): (r: Net)
    requires t.Ok() && Shape(t, net) && n in t.nodeIds
    requires i <= |net.nodes[n].pipeline|
    ensures Shape(t, r)
    decreases |net.nodes[n].pipeline| - i
  {
    if i == |net.nodes[n].pipeline| then net
    else
      var p := net.nodes[n].pipeline[i].pack;
      if Blocked(t, net, n, p) then PipeScan(t, Stay(t, net, n, i), n, i + 1)
      else PipeScan(t, PipeOut(t, net, n, i, EdgeFor(t, n, p.tgt)), n, i)
  }

  function NodeStep(t: Topology, net: Net, n: Node): (r: Net)
    requires t.Ok() && Shape(t, net) && n in t.nodeIds
    ensures Shape(t, r)
  {
    PipeScan(t, Accept(t, net, n), n, 0)
  }

  predicate EdgeReady(e: EdgeInChannel, c: Channel)
    requires c < |e.input| && c < |e.output|
  {
    e.input[c].Some? && e.output[c].None?
  }

  function EdgeMove(t: Topology, net: Net, e: nat, c: Channel): (r: Net)
    requires Shape(t, net) && e < |net.edges| && c < t.Channels()
    ensures Shape(t, r)
  {
    var v := net.edges[e];
    SetEdge(net, e, WithInput(WithOutput(v, c, v.input[c]), c, None))
  }

  /** process_edge from channel `c` on, `total` bytes having moved already. */
  function EdgeStep(t: Topology, net: Net, e: nat, c: Channel, total: nat): (r: Net)
    requires Shape(t, net) && e < |net.edges| && c <= t.Channels()
    ensures Shape(t, r)
    decreases t.Channels() - c
  {
    if c == t.Channels() || total >= t.width then net
    else if EdgeReady(net.edges[e], c) then
      EdgeStep(t, EdgeMove(t, net, e, c), e, c + 1, total + |net.edges[e].input[c].value.data|)
    else EdgeStep(t, net, e, c + 1, total)
  }

  /** apply_next_tick, nodes `i` and later. */
  function TickNodes(t: Topology, net: Net, i: nat): (r: Net)
    requires t.Ok() && Shape(t, net) && i <= |t.nodeIds|
    ensures Shape(t, r)
    decreases |t.nodeIds| - i
  {
    if i == |t.nodeIds| then net else TickNodes(t, NodeStep(t, net, t.nodeIds[i]), i + 1)
  }

  /** apply_next_tick, edges `e` and later. */
  function TickEdges(t: Topology, net: Net, e: nat): (r: Net)
    requires Shape(t, net) && e <= |net.edges|
    ensures Shape(t, r)
    decreases |net.edges| - e
  {
    if e == |net.edges| then net else TickEdges(t, EdgeStep(t, net, e, 0, 0), e + 1)
  }

  function Tick(t: Topology, net: Net): (r: Net)
    requires t.Ok() && Shape(t, net)
    ensures Shape(t, r)
  {
    TickEdges(t, TickNodes(t, net, 0), 0)
  }

  // ---------------------------------------------------------------- send and recv

  function CeilDiv(x: nat, y: nat): nat
    requires y > 0
  {
    (x + y - 1) / y
  }

  function Align(x: nat, y: nat): nat
    requires y > 0
  {
    y * CeilDiv(x, y)
  }

  function PacketCount(len: nat, w: nat): nat
    requires w > 0
  {
    Align(len, w) / w
  }

  /** Bytes i*w up to (i+1)*w of the message, zeros past its end. */
  function Chunk(data: seq<Byte>, i: nat, w: nat): (r: seq<Byte>)
    ensures |r| == w
  {
    seq(w, j requires 0 <= j < w => if i * w + j < |data| then data[i * w + j] else 0)
  }

  /** Packet `i` of a message. The index and the count are 16-bit fields. */
  function MakePack(t: Topology, src: Port, dst: Port, cha: Channel, xmtid: XmitId, data: seq<Byte>, i: nat): MsgPack
    requires dst in t.portToNode && cha < t.Channels() && t.chaWidths[cha] > 0
  {
    var w := t.chaWidths[cha];
    MsgPack(src, dst, t.portToNode[dst], cha, xmtid, |data|,
      i % TWO_TO_16, PacketCount(|data|, w) % TWO_TO_16, Chunk(data, i, w))
  }

  function Packetize(t: Topology, src: Port, dst: Port, cha: Channel, xmtid: XmitId, data: seq<Byte>): (r: seq<MsgPack>)
    requires dst in t.portToNode && cha < t.Channels() && t.chaWidths[cha] > 0
    ensures |r| == PacketCount(|data|, t.chaWidths[cha])
  {
    seq(PacketCount(|data|, t.chaWidths[cha]), i requires 0 <= i => MakePack(t, src, dst, cha, xmtid, data, i))
  }

  predicate CanSend(net: Net, p: Port, c: Channel)
    requires p in net.ports && c < |net.ports[p].sendBuf|
  {
    net.ports[p].sendBuf[c] == []
  }

  lemma WidthPositive(t: Topology, c: Channel)
    requires t.Ok() && c < t.Channels()
    ensures t.chaWidths[c] > 0
  {
  }

  lemma PacketizeOk(t: Topology, src: Port, dst: Port, cha: Channel, xmtid: XmitId, data: seq<Byte>)
    requires src in t.portToNode && dst in t.portToNode && cha < t.Channels() && t.chaWidths[cha] > 0
    ensures ListOk(t, Packetize(t, src, dst, cha, xmtid, data))
  {
    hide PacketCount, Chunk;
  }

  lemma PutSendShape(t: Topology, net: Net, p: Port, c: Channel, packs: seq<MsgPack>, id: XmitId)
    requires Shape(t, net) && p in t.portToNode && c < t.Channels() && ListOk(t, packs)
    ensures p in net.ports && c < |net.ports[p].sendBuf|
    ensures Shape(t, SetPort(net, p, WithSend(net.ports[p], c, packs)).(xmtidAlloc := id))
  {
    hide Addressed, EdgeOk, NodeOk;
  }

  /** A send that finds the send buffer empty. */
  function Send(t: Topology, net: Net, src: Port, dst: Port, cha: Channel, data: seq<Byte>): (r: Net)
    requires t.Ok() && Shape(t, net) && src in t.portToNode && dst in t.portToNode && cha < t.Channels()
    requires CanSend(net, src, cha)
    ensures Shape(t, r)
  {
    hide Topology.Ok, Shape, Packetize;
    WidthPositive(t, cha);
    PacketizeOk(t, src, dst, cha, net.xmtidAlloc, data);
    var packs := Packetize(t, src, dst, cha, net.xmtidAlloc, data);
    PutSendShape(t, net, src, cha, packs, (net.xmtidAlloc + 1) % TWO_TO_32);
    SetPort(net, src, WithSend(net.ports[src], cha, packs)).(xmtidAlloc := (net.xmtidAlloc + 1) % TWO_TO_32)
  }

  predicate CanRecv(net: Net, p: Port, c: Channel)
    requires p in net.ports && c < |net.ports[p].recvBuf|
  {
    var rb := net.ports[p].recvBuf[c];
    rb != [] && |rb| >= rb[0].cnt
  }

  /** A recv that finds a message takes the head's packet count off the buffer. */
  function Recv(t: Topology, net: Net, p: Port, c: Channel): (r: Net)
    requires Shape(t, net) && p in net.ports && c < t.Channels() && CanRecv(net, p, c)
    ensures Shape(t, r)
  {
    var rb := net.ports[p].recvBuf[c];
    SetPort(net, p, WithRecv(net.ports[p], c, rb[rb[0].cnt..]))
  }

  function JoinData(l: seq<MsgPack>): seq<Byte> {
    if l == [] then [] else l[0].data + JoinData(l[1..])
  }

  /** vector::resize: cut off, or filled up with zeros. */
  function Resize(buf: seq<Byte>, n: nat): (r: seq<Byte>)
    ensures |r| == n
  {
    if |buf| >= n then buf[..n] else buf + seq(n - |buf|, _ => 0)
  }

  /** `bytes` copied over the beginning of `buf`. */
  function Overwrite(buf: seq<Byte>, bytes: seq<Byte>): seq<Byte> {
    if |bytes| < |buf| then bytes + buf[|bytes|..] else bytes
  }

  /** What recv makes of the caller's buffer from the packets it takes: resized to whole packets, overwritten
      with their bytes, cut to the length in the head packet. */
  function JoinInto(buf: seq<Byte>, packs: seq<MsgPack>, len: nat, w: nat): (r: seq<Byte>)
    requires w > 0
    ensures |r| == len
  {
    Resize(Overwrite(Resize(buf, Align(len, w)), JoinData(packs)), len)
  }

  /** The bytes that recv hands out, into a buffer that held `buf` before. */
  function RecvData(t: Topology, net: Net, p: Port, c: Channel, buf: seq<Byte>): seq<Byte>
    requires p in net.ports && c < |net.ports[p].recvBuf| && CanRecv(net, p, c)
    requires c < t.Channels() && t.chaWidths[c] > 0
  {
    var rb := net.ports[p].recvBuf[c];
    JoinInto(buf, rb[..rb[0].cnt], rb[0].len, t.chaWidths[c])
  }

  /** The program's check in recv: the packets it takes are numbered 0, 1, and so on. */
  predicate InOrder(rb: seq<MsgPack>) {
    rb != [] && |rb| >= rb[0].cnt ==> forall i :: 0 <= i < rb[0].cnt ==> rb[i].idx == i
  }
}

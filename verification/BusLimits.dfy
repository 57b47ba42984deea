/** Where delivery ends: transmission ids come round after 2^32 sends, packet counts after 2^16 packets. */
module BusLimits {
  import opened Arithmetic
  import opened Wrappers
  import opened RouteTable
  import opened BusModel
  import opened BusPaths
  import opened BusDelivery
  import opened BusInvariant
  import opened BusRuns
  import opened BusShortRuns

  // ---------------------------------------------------------------- one delivery

  /** All packets are of the flow of the first. */
  predicate OneFlow(l: seq<MsgPack>) {
    forall i :: 0 <= i < |l| ==> FlowOf(l[i]) == FlowOf(l[0])
  }

  /** Each order list has packets of one flow only. */
  predicate Unmixed(ob: map<XmitId, seq<MsgPack>>) {
    forall x :: x in ob ==> ob[x] != [] && OneFlow(ob[x])
  }

  lemma {:induction false} InsertMembers(l: seq<MsgPack>, p: MsgPack)
    ensures p in InsertByIdx(l, p)
    ensures forall q :: q in l ==> q in InsertByIdx(l, p)
    ensures forall q :: q in InsertByIdx(l, p) ==> q in l || q == p
  {
    if l != [] && l[0].idx < p.idx {
      InsertMembers(l[1..], p);
    }
  }

  lemma InsertOneFlow(l: seq<MsgPack>, p: MsgPack)
    requires OneFlow(l)
    ensures OneFlow(InsertByIdx(l, p)) <==> l == [] || FlowOf(l[0]) == FlowOf(p)
  {
    InsertMembers(l, p);
    var r := InsertByIdx(l, p);
    if l == [] || FlowOf(l[0]) == FlowOf(p) {
      forall i | 0 <= i < |r|
        ensures FlowOf(r[i]) == FlowOf(p)
      {
        assert r[i] in r;
      }
    } else {
      assert l[0] in r;
    }
  }

  /** A delivery mixes packets of two flows, in the order buffer or into the receive buffer, exactly when the packet
      is one of several and its id has a list of another flow. */
  lemma DeliveryMixesExactly(rb: seq<MsgPack>, ob: map<XmitId, seq<MsgPack>>, p: MsgPack)
    requires Unmixed(ob)
    ensures var (rb', ob') := DeliverAt(rb, ob, p);
      && rb <= rb'
      && (Unmixed(ob') && OneFlow(rb'[|rb|..]) <==>
            p.cnt <= 1 || OrderList(ob, p.xmtid) == [] || FlowOf(OrderList(ob, p.xmtid)[0]) == FlowOf(p))
  {
    var l := InsertByIdx(OrderList(ob, p.xmtid), p);
    var (rb', ob') := DeliverAt(rb, ob, p);
    InsertOneFlow(OrderList(ob, p.xmtid), p);
    assert rb'[|rb|..] == if p.cnt <= 1 then [p] else if |l| == p.cnt then l else [];
    if p.cnt > 1 && |l| != p.cnt {
      assert ob'[p.xmtid] == l;
      assert forall x :: x in ob && x != p.xmtid ==> ob'[x] == ob[x];
    }
  }

  lemma SecondCompletes(x: MsgPack, p: MsgPack)
    requires x.xmtid == p.xmtid == 7 && x.idx == 0 && p.idx == 1 && x.cnt == p.cnt == 2
    ensures DeliverAt([], map[7 := [x]], p) == ([x, p], map[])
  {
    assert InsertByIdx([], p) == [p];
    assert [x][1..] == [] && [x] + [p] == [x, p] == [] + [x, p];
    assert OrderList(map[7 := [x]], 7) == [x] && map[7 := [x]] - {7} == map[];
  }

  /** The lines of the flows alone do not show it: here two packets of different senders make one message, and yet the
      line of each flow at the node is what its packets are. */
  lemma LinesMissMixing(x: MsgPack, p: MsgPack)
    requires x.dst == p.dst && x.cha == p.cha && x.src != p.src && x.xmtid == p.xmtid == 7
    requires x.idx == 0 && p.idx == 1 && x.cnt == p.cnt == 2
    ensures var (rb, ob) := DeliverAt([], map[7 := [x]], p);
      && rb == [x, p] && ob == map[]
      && Line(rb, ob, FlowOf(p)) == Line([], map[7 := [x]], FlowOf(p)) + [p]
      && Line(rb, ob, FlowOf(x)) == Line([], map[7 := [x]], FlowOf(x))
  {
    hide DeliverAt, InsertByIdx, OrderList;
    SecondCompletes(x, p);
    assert [x][1..] == [] && [p][1..] == [] && [x] + [p] == [x, p];
    FilterConcat(FlowOf(x), [x], [p]);
    FilterConcat(FlowOf(p), [x], [p]);
    assert HoldsFor(map[7 := [x]], 7, FlowOf(x));
    assert Partial(map[7 := [x]], FlowOf(x)) == [x] && Partial(map[7 := [x]], FlowOf(p)) == [];
  }

  // ---------------------------------------------------------------- what every run would have to keep

  /** Runs of at most `sends` sends, each of fewer than `limit` packets, deliver in order and unchanged, over every
      network. */
  ghost predicate AlwaysDelivers(sends: nat, limit: nat) {
    forall t: Topology, first, evs, last, f |
      && t.Ok() && Fresh(t, first) && first.xmtidAlloc == 0 && PlainRun(t, limit, first, evs, last)
      && Sends(evs) <= sends ::
      RecvLog(evs, f) <= SentLog(evs, f)
  }

  ghost predicate HeadsInOrder(t: Topology, net: Net)
    requires Shape(t, net)
  {
    forall p, c :: p in net.ports && 0 <= c < t.Channels() ==> InOrder(net.ports[p].recvBuf[c])
  }

  /** In such runs the program's order check in recv never fails. */
  ghost predicate AlwaysInOrder(sends: nat, limit: nat) {
    forall t: Topology, first, evs, last |
      && t.Ok() && Fresh(t, first) && first.xmtidAlloc == 0 && PlainRun(t, limit, first, evs, last)
      && Sends(evs) <= sends && Shape(t, last) ::
      HeadsInOrder(t, last)
  }

  /** Nothing is sent, or nothing that takes more than one packet, or there are ids and counts for everything. */
  predicate WithinLimits(sends: nat, limit: nat) {
    sends == 0 || limit <= 2 || (sends <= TWO_TO_32 && limit <= TWO_TO_16)
  }

  /** Messages of one packet need no ids: a run with no others is a run in the sense of the delivery theorems. */
  lemma {:induction false} SmallRunsAreRuns(t: Topology, limit: nat, first: Net, evs: seq<Event>, last: Net)
    requires t.Ok() && PlainRun(t, limit, first, evs, last) && (limit <= 2 || Sends(evs) == 0)
    ensures Run(t, first, evs, last)
    decreases evs
  {
    hide Topology.Ok, Step, PlainStep, Shape, Run;
    RunUnfolds(t, first, evs, last);
    if evs != [] {
      var n := |evs| - 1;
      var net :| Shape(t, net) && PlainRun(t, limit, first, evs[..n], net) && PlainStep(t, limit, net, evs[n], last);
      SmallRunsAreRuns(t, limit, first, evs[..n], net);
      SmallStep(t, limit, net, evs[n], last);
    }
  }

  lemma SmallStep(t: Topology, limit: nat, net: Net, ev: Event, net': Net)
    requires t.Ok() && Shape(t, net) && PlainStep(t, limit, net, ev, net') && (limit <= 2 || !ev.Sent?)
    ensures Step(t, net, ev, net')
  {
    hide Topology.Ok, IdFree, PacketCount;
  }

  lemma LimitedRunsAreRuns(
    t: Topology, sends: nat, limit: nat, first: Net, evs: seq<Event>, last: Net)
    requires t.Ok() && Fresh(t, first) && first.xmtidAlloc == 0 && PlainRun(t, limit, first, evs, last)
    requires Sends(evs) <= sends && WithinLimits(sends, limit)
    ensures Run(t, first, evs, last)
  {
    hide Topology.Ok, Fresh, PlainRun, Run, Inv, IdsBelow;
    if sends == 0 || limit <= 2 {
      SmallRunsAreRuns(t, limit, first, evs, last);
    } else {
      var a := ShortRunsAreRuns(t, limit, first, evs, last);
    }
  }

  lemma ShortRunsDeliver(sends: nat, limit: nat)
    requires WithinLimits(sends, limit)
    ensures AlwaysDelivers(sends, limit)
  {
    hide Topology.Ok, Fresh, PlainRun, Run, Sends, WithinLimits;
    forall t: Topology, first, evs, last, f |
      t.Ok() && Fresh(t, first) && first.xmtidAlloc == 0 && PlainRun(t, limit, first, evs, last) && Sends(evs) <= sends
      ensures RecvLog(evs, f) <= SentLog(evs, f)
    {
      LimitedRunsAreRuns(t, sends, limit, first, evs, last);
      PerFlowFifo(t, first, evs, last, f);
    }
  }

  // ---------------------------------------------------------------- a network of one node

  /** One node with the ports 0 and 1, two channels of width 1, and no edges. */
  const LOOP: Topology := Topology(
    [1, 1], 1, 0, [0], map[0 := 0, 1 := 0], map[0 := [0, 1]], [], map[], map[0 := []], map[])

  const LINE0: Flow := Flow(0, 1, 0)
  const NOBODY: Flow := Flow(1, 0, 0)

  lemma LoopOk()
    ensures LOOP.Ok()
  {
    var t := LOOP;
    assert NodeSet(t.nodeIds) == {0};
    assert WalkDist(t.route, 0, 0, 1) == Some(0);
    assert t.EdgesOk() && Closed(t.route, {0});
  }

  /** What it holds while only port 0 has sent anything and port 1 has received nothing on channel 1: two send buffers,
      a receive buffer, and the order buffer. */
  datatype Held = Held(
    send0: seq<MsgPack>, send1: seq<MsgPack>, recv0: seq<MsgPack>, ob: map<XmitId, seq<MsgPack>>, id: XmitId)

  function At(h: Held): Net {
    Net(map[0 := NodeStruct(0, 0, [], h.ob)],
      map[0 := PortStruct([[], []], [h.send0, h.send1]), 1 := PortStruct([h.recv0, []], [[], []])], [], h.id)
  }

  predicate AllFor(l: seq<MsgPack>) {
    forall i :: 0 <= i < |l| ==> Addressed(LOOP, l[i])
  }

  predicate Fine(h: Held) {
    AllFor(h.send0) && AllFor(h.send1)
  }

  lemma AtShape(h: Held)
    requires Fine(h)
    ensures Shape(LOOP, At(h))
  {
    assert NodeSet(LOOP.nodeIds) == {0};
  }

  function WithPacks(h: Held, c: Channel, ps: seq<MsgPack>): Held {
    if c == 0 then h.(send0 := ps) else h.(send1 := ps)
  }

  /** Other packets in a send buffer of port 0. */
  lemma PutSend(h: Held, c: Channel, ps: seq<MsgPack>)
    requires c < 2
    ensures var net := At(h);
      && net.ports[0].sendBuf == [h.send0, h.send1] && net.ports[1].sendBuf == [[], []]
      && SetPort(net, 0, WithSend(net.ports[0], c, ps)) == At(WithPacks(h, c, ps))
  {
    assert c == 0 ==> [h.send0, h.send1][0 := ps] == [ps, h.send1];
    assert c == 1 ==> [h.send0, h.send1][1 := ps] == [h.send0, ps];
  }

  /** Something else in the receive buffer of channel 0 of port 1, and in the order buffer. */
  lemma PutRecv(h: Held, rb: seq<MsgPack>, ob: map<XmitId, seq<MsgPack>>)
    ensures var net := At(h);
      && net.ports[1].recvBuf == [h.recv0, []] && net.nodes[0].orderBuf == h.ob
      && SetNode(SetPort(net, 1, WithRecv(net.ports[1], 0, rb)), 0, net.nodes[0].(orderBuf := ob)) ==
           At(h.(recv0 := rb, ob := ob))
      && SetNode(SetPort(net, 1, WithRecv(net.ports[1], 1, [])), 0, net.nodes[0].(orderBuf := ob)) ==
           At(h.(ob := ob))
  {
    assert [h.recv0, []][0 := rb] == [rb, []] && [h.recv0, []][1 := []] == [h.recv0, []];
  }

  /** The channel with something to send, and the packet. */
  function NextCha(h: Held): Channel {
    if h.send0 != [] then 0 else 1
  }

  function NextPack(h: Held): MsgPack
    requires h.send0 != [] || h.send1 != []
  {
    if h.send0 != [] then h.send0[0] else h.send1[0]
  }

  /** The packet goes to port 1, and does not complete a message on channel 1. */
  predicate Comes(h: Held) {
    && (h.send0 != [] || h.send1 != [])
    && var p := NextPack(h);
       && p.dst == 1 && p.cha == NextCha(h)
       && (p.cha == 1 ==> p.cnt > 1 && |OrderList(h.ob, p.xmtid)| + 1 != p.cnt)
  }

  function AfterTick(h: Held): Held
    requires h.send0 != [] || h.send1 != []
  {
    var (rb, ob) := DeliverAt(h.recv0, h.ob, NextPack(h));
    WithPacks(h, NextCha(h), if h.send0 != [] then h.send0[1..] else h.send1[1..]).(recv0 := rb, ob := ob)
  }

  /** A tick brings in the head of the first send buffer that has one. */
  lemma LoopTick(h: Held)
    requires Fine(h) && Comes(h)
    ensures LOOP.Ok() && Shape(LOOP, At(h)) && Tick(LOOP, At(h)) == At(AfterTick(h))
  {
    hide Topology.Ok, DeliverAt;
    LoopOk();
    AtShape(h);
    LoopAccept(h);
    var net1 := Accept(LOOP, At(h), 0);
    assert net1.nodes[0].pipeline == [];
    assert TickNodes(LOOP, At(h), 0) == TickNodes(LOOP, net1, 1) == net1;
  }

  lemma LoopAccept(h: Held)
    requires Fine(h) && Comes(h)
    ensures LOOP.Ok() && Shape(LOOP, At(h)) && Accept(LOOP, At(h), 0) == At(AfterTick(h))
  {
    hide Topology.Ok, Shape, AfterTick, Arrive, FirstNonEmpty, RingScan, SdReady, At;
    LoopOk();
    AtShape(h);
    LoopPick(h);
    LoopArrive(h);
  }

  lemma LoopPick(h: Held)
    requires Fine(h) && (h.send0 != [] || h.send1 != [])
    ensures LOOP.Ok() && Shape(LOOP, At(h))
    ensures var net := At(h);
      && net.nodes[0] == NodeStruct(0, 0, [], h.ob)
      && RxReady(LOOP, net, 0) == [] && RingScan([], 0, 0) == (0, false)
      && RingScan(SdReady(LOOP, net, 0), 0, 2) == (0, true)
      && SetPtrs(LOOP, net, 0, 0, 0) == net
      && LOOP.nodePorts[0] == [0, 1] && net.ports[0].sendBuf == [h.send0, h.send1]
      && FirstNonEmpty([h.send0, h.send1]) == NextCha(h)
  {
    hide Topology.Ok, Shape, PortOk, NodeOk, EdgeOk, FirstFull;
    LoopOk();
    AtShape(h);
    var net := At(h);
    assert LOOP.nodePorts[0] == [0, 1];
    assert FirstNonEmpty([h.send0, h.send1]) == NextCha(h) by {
      assert [h.send0, h.send1][1..] == [h.send1];
    }
    var ready := SdReady(LOOP, net, 0);
    assert ready[0];
    assert net.nodes[0 := NodeStruct(0, 0, [], h.ob)] == net.nodes;
  }

  lemma LoopArrive(h: Held)
    requires Fine(h) && Comes(h)
    ensures Shape(LOOP, At(h))
    ensures Arrive(LOOP, TakeSend(LOOP, At(h), 0, NextCha(h)), 0, NextPack(h)) == At(AfterTick(h))
  {
    hide InsertByIdx, Shape, OrderList, At, SetPort, SetNode, DeliverAt;
    AtShape(h);
    var p, rest := NextPack(h), if h.send0 != [] then h.send0[1..] else h.send1[1..];
    PutSend(h, NextCha(h), rest);
    assert Addressed(LOOP, p) && p.tgt == 0;
    var (rb, ob) := DeliverAt(h.recv0, h.ob, p);
    PutRecv(WithPacks(h, NextCha(h), rest), rb, ob);
    if h.send0 == [] {
      StaysInOrder(h.recv0, h.ob, p);
    }
  }

  lemma StaysInOrder(rb: seq<MsgPack>, ob: map<XmitId, seq<MsgPack>>, p: MsgPack)
    requires p.cnt > 1 && |OrderList(ob, p.xmtid)| + 1 != p.cnt
    ensures DeliverAt(rb, ob, p).0 == rb && DeliverAt([], ob, p) == ([], DeliverAt(rb, ob, p).1)
  {
  }

  // ---------------------------------------------------------------- runs on it

  const EMPTY: Held := Held([], [], [], map[], 0)

  const START: Net := At(EMPTY)

  lemma StartFresh()
    ensures LOOP.Ok() && Fresh(LOOP, START) && START.xmtidAlloc == 0
  {
    hide Topology.Ok, Shape, PortOk, NodeOk, EdgeOk, Addressed;
    LoopOk();
    AtShape(EMPTY);
    assert START.edges == [] && START.nodes[0].orderBuf == map[];
    assert START.ports[0] == PortStruct([[], []], [[], []]) && START.ports[1] == PortStruct([[], []], [[], []]);
  }

  /** What is known of a run on it: its length in sends, and what it sent and received from port 0 to port 1 on
      channel 0. */
  ghost predicate Reached(
    limit: nat, evs: seq<Event>, net: Net, sends: nat, sent: seq<seq<Byte>>, got: seq<seq<Byte>>)
    requires LOOP.Ok()
  {
    && PlainRun(LOOP, limit, START, evs, net) && Sends(evs) == sends
    && SentLog(evs, LINE0) == sent && RecvLog(evs, LINE0) == got
  }

  lemma Extend(
    limit: nat, evs: seq<Event>, net: Net, sends: nat, sent: seq<seq<Byte>>, got: seq<seq<Byte>>, ev: Event, net': Net)
    requires LOOP.Ok() && Reached(limit, evs, net, sends, sent, got) && Shape(LOOP, net)
    requires PlainStep(LOOP, limit, net, ev, net')
    ensures Reached(limit, evs + [ev], net', if ev.Sent? then sends + 1 else sends,
      if ev.Sent? && ev.flow == LINE0 && ev.data != [] then sent + [ev.data] else sent,
      if ev.Received? && ev.flow == LINE0 then got + [ev.data] else got)
  {
    hide Topology.Ok, Shape, PlainStep;
    assert (evs + [ev])[..|evs|] == evs;
  }

  lemma AllAddressed(c: Channel, id: XmitId, data: seq<Byte>)
    requires c < 2
    ensures AllFor(Packetize(LOOP, 0, 1, c, id, data))
  {
    hide PacketCount, Chunk;
  }

  /** A send from port 0 to port 1 into an empty send buffer. */
  lemma LoopSend(h: Held, c: Channel, data: seq<Byte>)
    requires Fine(h) && c < 2 && (if c == 0 then h.send0 == [] else h.send1 == [])
    ensures LOOP.Ok() && Shape(LOOP, At(h))
    ensures var ps := Packetize(LOOP, 0, 1, c, h.id, data);
      && AllFor(ps)
      && Send(LOOP, At(h), 0, 1, c, data) == At(WithPacks(h, c, ps).(id := (h.id + 1) % TWO_TO_32))
  {
    hide Topology.Ok, Shape, Packetize, SetPort;
    LoopOk();
    AtShape(h);
    AllAddressed(c, h.id, data);
    PutSend(h, c, Packetize(LOOP, 0, 1, c, h.id, data));
  }

  lemma CountOnWidthOne(n: nat)
    ensures PacketCount(n, 1) == n
  {
  }

  lemma NoPackets(id: XmitId)
    ensures Packetize(LOOP, 1, 0, 0, id, []) == []
  {
    hide PacketCount;
    CountOnWidthOne(0);
  }

  /** An empty message from port 1 moves the id counter and nothing else. */
  lemma EmptySend(h: Held)
    requires Fine(h)
    ensures LOOP.Ok() && Shape(LOOP, At(h)) && CanSend(At(h), 1, 0)
    ensures Send(LOOP, At(h), 1, 0, 0, []) == At(h.(id := (h.id + 1) % TWO_TO_32))
  {
    hide Topology.Ok, Shape, Packetize;
    LoopOk();
    AtShape(h);
    NoPackets(h.id);
    var net := At(h);
    var none: seq<seq<MsgPack>> := [[], []];
    assert none[0 := []] == none;
    assert net.ports[1 := PortStruct([h.recv0, []], [[], []])] == net.ports;
  }

  lemma {:induction false} EmptySends(limit: nat, evs: seq<Event>, h: Held, sends: nat, k: nat)
    returns (more: seq<Event>)
    requires LOOP.Ok() && limit > 0 && Fine(h) && h.id + k <= TWO_TO_32 && h.id < TWO_TO_32
    requires Reached(limit, evs, At(h), sends, [], [])
    ensures Reached(limit, more, At(h.(id := (h.id + k) % TWO_TO_32)), sends + k, [], [])
    decreases k
  {
    hide Topology.Ok, Shape, At, Reached, PacketCount, Send;
    more := evs;
    if k == 0 {
      assert h.(id := h.id % TWO_TO_32) == h;
    } else {
      more := EmptySends(limit, evs, h, sends, k - 1);
      var g := h.(id := h.id + k - 1);
      EmptyStep(limit, g);
      var ev := Sent(NOBODY, []);
      Extend(limit, more, At(g), sends + k - 1, [], [], ev, At(h.(id := (h.id + k) % TWO_TO_32)));
      more := more + [ev];
    }
  }

  lemma EmptyStep(limit: nat, h: Held)
    requires limit > 0 && Fine(h)
    ensures LOOP.Ok() && Shape(LOOP, At(h))
    ensures PlainStep(LOOP, limit, At(h), Sent(NOBODY, []), At(h.(id := (h.id + 1) % TWO_TO_32)))
  {
    hide Topology.Ok, Shape, PacketCount, Send;
    CountOnWidthOne(0);
    EmptySend(h);
  }

  lemma ThenSend(
    limit: nat, evs: seq<Event>, h: Held, sends: nat, sent: seq<seq<Byte>>, c: Channel, data: seq<Byte>)
    returns (more: seq<Event>)
    requires LOOP.Ok() && Fine(h) && c < 2 && (if c == 0 then h.send0 == [] else h.send1 == [])
    requires data != [] && |data| < limit && Reached(limit, evs, At(h), sends, sent, [])
    ensures var ps := Packetize(LOOP, 0, 1, c, h.id, data);
      && AllFor(ps)
      && Reached(limit, more, At(WithPacks(h, c, ps).(id := (h.id + 1) % TWO_TO_32)), sends + 1,
           if c == 0 then sent + [data] else sent, [])
  {
    hide Topology.Ok, Shape, Reached, PacketCount, Packetize, Send;
    var ev := Sent(Flow(0, 1, c), data);
    LoopSend(h, c, data);
    CountOnWidthOne(|data|);
    Extend(limit, evs, At(h), sends, sent, [], ev, Send(LOOP, At(h), 0, 1, c, data));
    more := evs + [ev];
  }

  lemma ThenTick(limit: nat, evs: seq<Event>, h: Held, sends: nat, sent: seq<seq<Byte>>) returns (more: seq<Event>)
    requires LOOP.Ok() && Fine(h) && Comes(h) && Reached(limit, evs, At(h), sends, sent, [])
    ensures Reached(limit, more, At(AfterTick(h)), sends, sent, [])
  {
    hide Topology.Ok, Shape, Reached, AfterTick, Tick, At;
    LoopTick(h);
    assert PlainStep(LOOP, limit, At(h), Ticked, Tick(LOOP, At(h)));
    Extend(limit, evs, At(h), sends, sent, [], Ticked, Tick(LOOP, At(h)));
    more := evs + [Ticked];
  }

  // ---------------------------------------------------------------- an id used again

  function Half(cha: Channel, i: nat, b: Byte): MsgPack {
    MsgPack(0, 1, 0, cha, 0, 2, i, 2, [b])
  }

  lemma PairPackets(cha: Channel, a: Byte, b: Byte)
    requires cha < 2
    ensures Packetize(LOOP, 0, 1, cha, 0, [a, b]) == [Half(cha, 0, a), Half(cha, 1, b)]
  {
    hide PacketCount;
    CountOnWidthOne(2);
    assert Chunk([a, b], 0, 1) == [a] && Chunk([a, b], 1, 1) == [b];
    assert MakePack(LOOP, 0, 1, cha, 0, [a, b], 0) == Half(cha, 0, a);
    assert MakePack(LOOP, 0, 1, cha, 0, [a, b], 1) == Half(cha, 1, b);
  }

  lemma HalfArrives(recv0: seq<MsgPack>)
    ensures DeliverAt(recv0, map[], Half(1, 0, 5)) == (recv0, map[0 := [Half(1, 0, 5)]])
    ensures DeliverAt([], map[0 := [Half(1, 0, 5)]], Half(0, 0, 7)) == ([Half(0, 0, 7), Half(1, 0, 5)], map[])
  {
    var a, b := Half(1, 0, 5), Half(0, 0, 7);
    assert InsertByIdx([], a) == [a];
    assert InsertByIdx([a], b) == [b, a];
    assert OrderList(map[0 := [a]], 0) == [a];
    assert [] + [b, a] == [b, a];
    assert map[0 := [a]] - {0} == map[];
  }

  /** Where the run ends: a message of two packets half delivered, and one of two packets made of two halves. */
  const MIXED: Held := Held([Half(0, 1, 8)], [Half(1, 1, 6)], [Half(0, 0, 7), Half(1, 0, 5)], map[], 1)

  /** A message of two packets, half delivered; as many empty messages as it takes for its id to come again; and
      another of two packets, on the other channel: 2^32 + 1 sends in all. */
  lemma IdComesAgain(limit: nat) returns (evs: seq<Event>)
    requires limit > 2
    ensures LOOP.Ok() && Reached(limit, evs, At(MIXED), TWO_TO_32 + 1, [[7, 8]], [])
  {
    hide Topology.Ok, Shape, At, Reached, PacketCount, Packetize, Send, Tick, DeliverAt, PlainRun;
    StartFresh();
    HalfArrives([]);
    PairPackets(1, 5, 6);
    PairPackets(0, 7, 8);
    var ob := map[0 := [Half(1, 0, 5)]];
    evs := Begin(limit);
    evs := ThenSend(limit, evs, EMPTY, 0, [], 1, [5, 6]);
    evs := ThenTick(limit, evs, Held([], [Half(1, 0, 5), Half(1, 1, 6)], [], map[], 1), 1, []);
    evs := EmptySends(limit, evs, Held([], [Half(1, 1, 6)], [], ob, 1), 1, TWO_TO_32 - 1);
    evs := ThenSend(limit, evs, Held([], [Half(1, 1, 6)], [], ob, 0), TWO_TO_32, [], 0, [7, 8]);
    assert [] + [[7, 8]] == [[7, 8]];
    evs := ThenTick(limit, evs, Held([Half(0, 0, 7), Half(0, 1, 8)], [Half(1, 1, 6)], [], ob, 1), TWO_TO_32 + 1,
      [[7, 8]]);
  }

  lemma Begin(limit: nat) returns (evs: seq<Event>)
    requires LOOP.Ok()
    ensures Reached(limit, evs, START, 0, [], [])
  {
    hide Topology.Ok;
    evs := [];
  }

  // ---------------------------------------------------------------- what the receiver gets

  lemma RecvStep(limit: nat, net: Net, data: seq<Byte>)
    requires LOOP.Ok() && Shape(LOOP, net) && 1 in net.ports && CanRecv(net, 1, 0)
    requires FlowOf(net.ports[1].recvBuf[0][0]) == LINE0 && data == RecvData(LOOP, net, 1, 0, [])
    ensures PlainStep(LOOP, limit, net, Received(LINE0, [], data), Recv(LOOP, net, 1, 0))
  {
    hide Topology.Ok, RecvData, Recv;
  }

  lemma Delivered(sends: nat, limit: nat, evs: seq<Event>, last: Net)
    requires AlwaysDelivers(sends, limit) && LOOP.Ok() && Fresh(LOOP, START) && START.xmtidAlloc == 0
    requires PlainRun(LOOP, limit, START, evs, last) && Sends(evs) <= sends
    ensures RecvLog(evs, LINE0) <= SentLog(evs, LINE0)
  {
    hide Topology.Ok, Fresh, PlainRun, RecvLog, SentLog, Sends;
  }

  /** What is received is not what was sent. */
  lemma WrongBytes(limit: nat, evs: seq<Event>, net: Net, sends: nat, message: seq<Byte>, data: seq<Byte>)
    requires LOOP.Ok() && Reached(limit, evs, net, sends, [message], []) && Shape(LOOP, net)
    requires 1 in net.ports && CanRecv(net, 1, 0) && FlowOf(net.ports[1].recvBuf[0][0]) == LINE0
    requires RecvData(LOOP, net, 1, 0, []) == data != message
    ensures !AlwaysDelivers(sends, limit)
  {
    hide Topology.Ok, Shape, CanRecv, RecvData, Recv, PlainRun, PlainStep, Fresh, AlwaysDelivers, SentLog, RecvLog;
    StartFresh();
    var ev, last := Received(LINE0, [], data), Recv(LOOP, net, 1, 0);
    RecvStep(limit, net, data);
    Extend(limit, evs, net, sends, [message], [], ev, last);
    var more := evs + [ev];
    assert [] + [data] == [data];
    assert [data][0] != [message][0];
    if AlwaysDelivers(sends, limit) {
      Delivered(sends, limit, more, last);
    }
  }

  lemma MixedBytes()
    ensures JoinInto([], [Half(0, 0, 7), Half(1, 0, 5)], 2, 1) == [7, 5]
  {
    var l := [Half(0, 0, 7), Half(1, 0, 5)];
    assert l[1..] == [Half(1, 0, 5)] && l[1..][1..] == [];
    assert JoinData(l) == [7, 5];
    assert Align(2, 1) == 2;
  }

  /** One send more than there are ids, and the receiver may get bytes of two messages in one, out of order. */
  lemma TooManySends(limit: nat)
    requires limit > 2
    ensures !AlwaysDelivers(TWO_TO_32 + 1, limit) && !AlwaysInOrder(TWO_TO_32 + 1, limit)
  {
    hide Topology.Ok, Shape, JoinInto, PlainRun, AlwaysDelivers;
    var evs := IdComesAgain(limit);
    var rb, net := MIXED.recv0, At(MIXED);
    AtShape(MIXED);
    StartFresh();
    MixedBytes();
    assert rb[..2] == rb;
    assert net.ports[1].recvBuf[0] == rb;
    WrongBytes(limit, evs, net, TWO_TO_32 + 1, [7, 8], [7, 5]);
    assert rb[1].idx == 0 && !InOrder(rb);
    assert !HeadsInOrder(LOOP, net);
  }

  // ---------------------------------------------------------------- a message too large

  function Ones(n: nat): seq<Byte> {
    seq(n, _ => 1)
  }

  lemma BigHead(data: seq<Byte>)
    requires |data| == TWO_TO_16
    ensures var ps := Packetize(LOOP, 0, 1, 0, 0, data);
      && ps != [] && ps[0].cnt == 0 && ps[0].len == TWO_TO_16 && FlowOf(ps[0]) == LINE0
      && DeliverAt([], map[], ps[0]) == ([ps[0]], map[])
  {
    hide PacketCount, Chunk;
    CountOnWidthOne(TWO_TO_16);
    var p := Packetize(LOOP, 0, 1, 0, 0, data)[0];
    assert [] + [p] == [p];
  }

  /** Of a message of 2^16 packets, counted as none, the receiver gets zeros as soon as the first has come in. */
  lemma TooManyPackets(limit: nat)
    requires limit > TWO_TO_16
    ensures !AlwaysDelivers(1, limit)
  {
    hide Topology.Ok, Shape, PacketCount, Packetize, Reached, JoinInto, AlwaysDelivers, DeliverAt, PlainRun;
    StartFresh();
    var data := Ones(TWO_TO_16);
    var ps := Packetize(LOOP, 0, 1, 0, 0, data);
    BigHead(data);
    var evs := Begin(limit);
    evs := ThenSend(limit, evs, EMPTY, 0, [], 0, data);
    assert [] + [data] == [data];
    evs := ThenTick(limit, evs, Held(ps, [], [], map[], 1), 1, [data]);
    var h := Held(ps[1..], [], [ps[0]], map[], 1);
    AtShape(h);
    var net := At(h);
    assert net.ports[1].recvBuf[0] == [ps[0]];
    assert [ps[0]][..0] == [];
    ZerosOnly();
    WrongBytes(limit, evs, net, 1, data, JoinInto([], [], TWO_TO_16, 1));
  }

  lemma ZerosOnly()
    ensures JoinInto([], [], TWO_TO_16, 1) != Ones(TWO_TO_16)
  {
    CountOnWidthOne(TWO_TO_16);
    assert JoinInto([], [], TWO_TO_16, 1)[0] == 0;
    assert Ones(TWO_TO_16)[0] == 1;
  }

  // ---------------------------------------------------------------- exactly

  /** All runs deliver exactly as long as there is an id for every send and a count for every message, unless no message
      takes more than one packet. */
  lemma DeliversExactly(sends: nat, limit: nat)
    ensures AlwaysDelivers(sends, limit) <==>
      sends == 0 || limit <= 2 || (sends <= 0x1_0000_0000 && limit <= 0x1_0000)
  {
    hide AlwaysDelivers;
    if WithinLimits(sends, limit) {
      ShortRunsDeliver(sends, limit);
    } else if limit > TWO_TO_16 {
      TooManyPackets(limit);
      FewerSends(1, sends, limit);
    } else {
      TooManySends(limit);
      FewerSends(TWO_TO_32 + 1, sends, limit);
    }
  }

  lemma FewerSends(few: nat, many: nat, limit: nat)
    requires few <= many
    ensures AlwaysDelivers(many, limit) ==> AlwaysDelivers(few, limit)
    ensures AlwaysInOrder(many, limit) ==> AlwaysInOrder(few, limit)
  {
    hide PlainRun, Topology.Ok, Shape, Fresh, HeadsInOrder;
  }
}

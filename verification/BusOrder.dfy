/** The order check in recv: when the program's own assertion on the packet indices can fail. */
module BusOrder {
  import opened Arithmetic
  import opened RouteTable
  import opened BusModel
  import opened BusPaths
  import opened BusInvariant
  import opened BusRuns
  import opened BusShortRuns
  import opened BusCensus
  import opened BusLimits

  // ---------------------------------------------------------------- what the packets need

  /** No packet of several is there twice, packets of several with one id are of one message, and ids are below `k`. */
  ghost predicate Told(b: Bag, k: nat) {
    && (forall p :: p in b ==> p.cnt == 0 || p.idx < p.cnt)
    && (forall p :: p in b && p.cnt > 1 ==> b[p] == 1 && p.xmtid < k)
    && (forall p, q :: p in b && q in b && p.cnt > 1 && q.cnt > 1 && p.xmtid == q.xmtid ==>
          p.cnt == q.cnt && (p.idx == q.idx ==> p == q))
  }

  lemma ToldPart(b: Bag, c: Bag, k: nat)
    requires Told(b, k) && c <= b
    ensures Told(c, k)
  {
    assert forall p :: p in c ==> p in b && c[p] <= b[p];
  }

  /** The list of an id: increasing indices, one count, not yet complete. */
  ghost predicate TidyList(l: seq<MsgPack>, x: XmitId) {
    && l != [] && |l| < l[0].cnt
    && (forall i :: 0 <= i < |l| ==> l[i].xmtid == x && l[i].cnt > 1)
    && (forall i, j :: 0 <= i < j < |l| ==> l[i].idx < l[j].idx)
  }

  ghost predicate TidyLists(ob: map<XmitId, seq<MsgPack>>) {
    forall x :: x in ob ==> TidyList(ob[x], x)
  }

  /** A receive buffer is a row of whole messages up to the first packet counted as none of none. */
  predicate Rows(rb: seq<MsgPack>)
    decreases |rb|
  {
    rb == [] || rb[0].cnt == 0 || (FirstWhole(rb) && Rows(rb[rb[0].cnt..]))
  }

  predicate FirstWhole(rb: seq<MsgPack>) {
    rb != [] && 0 < rb[0].cnt <= |rb| && forall i :: 0 <= i < rb[0].cnt ==> rb[i].idx == i
  }

  lemma {:induction false} RowsAppend(rb: seq<MsgPack>, l: seq<MsgPack>)
    requires Rows(rb) && l != [] && (l[0].cnt == 0 || (l[0].cnt == |l| && FirstWhole(l)))
    ensures Rows(rb + l)
    decreases |rb|
  {
    if rb == [] {
      assert rb + l == l;
      assert l[0].cnt > 0 ==> l[l[0].cnt..] == [];
    } else if rb[0].cnt > 0 {
      var c := rb[0].cnt;
      RowsAppend(rb[c..], l);
      assert (rb + l)[c..] == rb[c..] + l;
      assert forall i :: 0 <= i < c ==> (rb + l)[i] == rb[i];
    }
  }

  // ---------------------------------------------------------------- one delivery

  lemma {:induction false} InsertIncreases(l: seq<MsgPack>, p: MsgPack)
    requires forall i, j :: 0 <= i < j < |l| ==> l[i].idx < l[j].idx
    requires forall i :: 0 <= i < |l| ==> l[i].idx != p.idx
    ensures var r := InsertByIdx(l, p); forall i, j :: 0 <= i < j < |r| ==> r[i].idx < r[j].idx
  {
    if l != [] && l[0].idx < p.idx {
      InsertIncreases(l[1..], p);
      InsertMembers(l[1..], p);
      var r := InsertByIdx(l[1..], p);
      forall j | 0 <= j < |r|
        ensures l[0].idx < r[j].idx
      {
        assert r[j] in r;
      }
    }
  }

  lemma IncreasingFrom(l: seq<MsgPack>, i: nat)
    requires forall i, j :: 0 <= i < j < |l| ==> l[i].idx < l[j].idx
    requires i < |l|
    ensures l[i].idx >= i && l[|l| - 1].idx >= l[i].idx + (|l| - 1 - i)
  {
    Rising(l, 0, i);
    Rising(l, i, |l| - 1);
  }

  lemma {:induction false} Rising(l: seq<MsgPack>, i: nat, j: nat)
    requires forall i, j :: 0 <= i < j < |l| ==> l[i].idx < l[j].idx
    requires i <= j < |l|
    ensures l[j].idx >= l[i].idx + (j - i)
    decreases j
  {
    if i < j {
      Rising(l, i, j - 1);
      assert l[j - 1].idx < l[j].idx;
    }
  }

  /** As many increasing indices as there are numbers below the count: all of them. */
  lemma CompleteIsWhole(l: seq<MsgPack>, c: nat)
    requires |l| == c > 0 && forall i :: 0 <= i < |l| ==> l[i].cnt == c && l[i].idx < c
    requires forall i, j :: 0 <= i < j < |l| ==> l[i].idx < l[j].idx
    ensures FirstWhole(l)
  {
    forall i | 0 <= i < c
      ensures l[i].idx == i
    {
      IncreasingFrom(l, i);
    }
  }

  lemma ListIn(b: Bag, l: seq<MsgPack>, p: MsgPack, k: nat)
    requires Told(b, k) && multiset(l) + multiset{p} <= b && p.cnt > 1
    requires forall i :: 0 <= i < |l| ==> l[i].xmtid == p.xmtid && l[i].cnt > 1
    ensures forall i :: 0 <= i < |l| ==> l[i].cnt == p.cnt && l[i].idx != p.idx && l[i].idx < l[i].cnt
    ensures p.idx < p.cnt
  {
    var m := multiset(l) + multiset{p};
    assert p in m && m[p] <= b[p];
    assert p !in multiset(l);
    forall i | 0 <= i < |l|
      ensures l[i].cnt == p.cnt && l[i].idx != p.idx && l[i].idx < l[i].cnt
    {
      assert l[i] in multiset(l);
    }
  }

  /** Where every packet can be told apart, a delivery leaves the lists sorted and the buffer a row of messages. */
  lemma DeliverTidy(b: Bag, k: nat, rb: seq<MsgPack>, ob: map<XmitId, seq<MsgPack>>, p: MsgPack)
    requires Told(b, k) && multiset(OrderList(ob, p.xmtid)) + multiset{p} <= b
    requires TidyLists(ob) && Rows(rb)
    ensures var (rb', ob') := DeliverAt(rb, ob, p); TidyLists(ob') && Rows(rb')
  {
    hide Told, Rows, InsertByIdx;
    var l := OrderList(ob, p.xmtid);
    if p.cnt <= 1 {
      OnePacket(b, k, l, p);
      RowsAppend(rb, [p]);
    } else {
      ListIn(b, l, p, k);
      var r := InsertByIdx(l, p);
      InsertIncreases(l, p);
      InsertMembers(l, p);
      assert forall i :: 0 <= i < |r| ==> r[i] in r;
      if |r| == p.cnt {
        CompleteIsWhole(r, p.cnt);
        RowsAppend(rb, r);
      } else {
        Unfinished(l, r, p);
        assert TidyList(r, p.xmtid);
      }
    }
  }

  lemma OnePacket(b: Bag, k: nat, l: seq<MsgPack>, p: MsgPack)
    requires Told(b, k) && multiset(l) + multiset{p} <= b && p.cnt <= 1
    ensures p.cnt == 0 || FirstWhole([p])
  {
    assert p in multiset(l) + multiset{p};
  }

  lemma Unfinished(l: seq<MsgPack>, r: seq<MsgPack>, p: MsgPack)
    requires |r| == |l| + 1 != p.cnt && p.cnt > 1 && (l != [] ==> |l| < l[0].cnt)
    requires forall i :: 0 <= i < |l| ==> l[i].cnt == p.cnt
    ensures |r| < p.cnt
  {
  }

  // ---------------------------------------------------------------- the network

  /** At every destination: lists that are sorted, buffers that are rows of messages. */
  ghost predicate Tidy(t: Topology, net: Net)
    requires Shape(t, net)
  {
    && (forall n :: n in net.nodes ==> TidyLists(net.nodes[n].orderBuf))
    && (forall p, c :: p in net.ports && 0 <= c < t.Channels() ==> Rows(net.ports[p].recvBuf[c]))
  }

  lemma SameDestTidy(t: Topology, net: Net, net': Net)
    requires Shape(t, net) && Shape(t, net') && SameDest(net, net') && Tidy(t, net)
    ensures Tidy(t, net')
  {
    hide EdgeOk, NodeOk, TidyLists, Rows;
  }

  lemma MapHas<K>(m: map<K, Bag>, k: K)
    requires k in m
    ensures m[k] <= MapUnion(m)
  {
    MapPick(m, k);
  }

  lemma OrderHas(net: Net, n: Node, x: XmitId)
    requires n in net.nodes
    ensures multiset(OrderList(net.nodes[n].orderBuf, x)) <= Census(net)
  {
    hide MapUnion;
    var ob := net.nodes[n].orderBuf;
    if x in ob {
      MapHas(OrderBags(ob), x);
      MapHas(NodeBags(net.nodes), n);
      assert OrderBag(ob) <= NodeBag(net.nodes[n]) <= NodesBag(net.nodes) <= Census(net);
    }
  }

  lemma ArriveTidy(t: Topology, net: Net, n: Node, p: MsgPack, k: nat)
    requires Shape(t, net) && Addressed(t, p) && n in net.nodes
    requires Told(Census(net) + multiset{p}, k) && Tidy(t, net)
    ensures Tidy(t, Arrive(t, net, n, p))
  {
    hide EdgeOk, NodeOk, Census, Told, TidyLists, Rows, DeliverAt, OrderList;
    if p.tgt == n {
      OrderHas(net, n, p.xmtid);
      DeliverTidy(Census(net) + multiset{p}, k, net.ports[p.dst].recvBuf[p.cha], net.nodes[n].orderBuf, p);
    }
  }

  lemma AcceptTidy(t: Topology, net: Net, n: Node, k: nat)
    requires t.Ok() && Shape(t, net) && n in t.nodeIds && Told(Census(net), k) && Tidy(t, net)
    ensures Tidy(t, Accept(t, net, n))
  {
    hide Topology.Ok, Census, Arrive, EdgeOk, PortOk, NodeOk, RingScan, FirstFull, FirstNonEmpty, TakeOutput, TakeSend,
      SameDest, Addressed, Tidy, Told;
    NodeIndices(t, net, n);
    var ns := net.nodes[n];
    var rx := RingScan(RxReady(t, net, n), ns.rxPtr, |t.rxs[n]|);
    if rx.1 {
      var net0 := SetPtrs(t, net, n, rx.0, ns.sdPtr);
      QuietCensus(t, net, net0);
      SameDestTidy(t, net, net0);
      var e := t.rxs[n][rx.0];
      var c := FirstFull(net.edges[e].output);
      TakeOutputCensus(t, net0, e, c);
      TakeOutputDest(t, net0, e, c);
      SameDestTidy(t, net0, TakeOutput(t, net0, e, c));
      ArriveTidy(t, TakeOutput(t, net0, e, c), n, net.edges[e].output[c].value, k);
    } else {
      var sd := RingScan(SdReady(t, net, n), ns.sdPtr, |t.nodePorts[n]|);
      var net0 := SetPtrs(t, net, n, rx.0, sd.0);
      QuietCensus(t, net, net0);
      SameDestTidy(t, net, net0);
      if sd.1 {
        var port := t.nodePorts[n][sd.0];
        var c := FirstNonEmpty(net.ports[port].sendBuf);
        TakeSendCensus(t, net0, port, c);
        TakeSendDest(t, net0, port, c);
        SameDestTidy(t, net0, TakeSend(t, net0, port, c));
        ArriveTidy(t, TakeSend(t, net0, port, c), n, net.ports[port].sendBuf[c][0], k);
      }
    }
  }

  lemma {:induction false} TickNodesTidy(t: Topology, net: Net, i: nat, k: nat)
    requires t.Ok() && Shape(t, net) && i <= |t.nodeIds| && Told(Census(net), k) && Tidy(t, net)
    ensures Tidy(t, TickNodes(t, net, i))
    decreases |t.nodeIds| - i
  {
    hide Topology.Ok, Shape, Census, Accept, PipeScan, Told, Tidy, SameDest;
    if i < |t.nodeIds| {
      var n := t.nodeIds[i];
      AcceptCensus(t, net, n);
      AcceptTidy(t, net, n, k);
      PipeScanCensus(t, Accept(t, net, n), n, 0);
      SameDestTidy(t, Accept(t, net, n), NodeStep(t, net, n));
      TickNodesTidy(t, NodeStep(t, net, n), i + 1, k);
    }
  }

  lemma TickTidy(t: Topology, net: Net, k: nat)
    requires t.Ok() && Shape(t, net) && Told(Census(net), k) && Tidy(t, net)
    ensures Tidy(t, Tick(t, net))
  {
    hide Topology.Ok, Shape, Census, TickNodes, TickEdges, Told, Tidy, SameDest;
    TickNodesTidy(t, net, 0, k);
    TickEdgesCensus(t, TickNodes(t, net, 0), 0);
    SameDestTidy(t, TickNodes(t, net, 0), Tick(t, net));
  }

  lemma RecvTidy(t: Topology, net: Net, p: Port, c: Channel)
    requires Shape(t, net) && p in net.ports && c < t.Channels() && CanRecv(net, p, c) && Tidy(t, net)
    ensures Tidy(t, Recv(t, net, p, c))
  {
    hide NodeOk, EdgeOk, TidyLists;
    var rb := net.ports[p].recvBuf[c];
    assert Rows(rb);
    assert rb[0..] == rb;
  }

  // ---------------------------------------------------------------- the packets of a message

  lemma {:induction false} OnceEach(l: seq<MsgPack>)
    requires forall i, j :: 0 <= i < j < |l| ==> l[i] != l[j]
    ensures forall p :: p in l ==> multiset(l)[p] == 1
    ensures forall p :: p in multiset(l) ==> p in l
  {
    if l != [] {
      OnceEach(l[1..]);
      assert l == [l[0]] + l[1..];
      assert l[0] !in multiset(l[1..]);
    }
  }

  /** The packets of a message of at most 2^16: numbered, counted in 16 bits and, if there are several, with this id. */
  predicate NewRow(ps: seq<MsgPack>, k: nat) {
    && |ps| <= TWO_TO_16
    && forall i :: 0 <= i < |ps| ==>
         ps[i].idx == i && ps[i].cnt == |ps| % TWO_TO_16 && (|ps| > 1 ==> ps[i].xmtid == k)
  }

  lemma InRow(ps: seq<MsgPack>, k: nat, p: MsgPack)
    requires NewRow(ps, k) && p in multiset(ps)
    ensures multiset(ps)[p] == 1 && p.cnt <= |ps| && (p.cnt == 0 || p.idx < p.cnt)
    ensures p.cnt > 1 ==> p.xmtid == k && p.cnt == |ps|
    ensures p.idx < |ps| && ps[p.idx] == p
  {
    OnceEach(ps);
    var i :| 0 <= i < |ps| && ps[i] == p;
  }

  /** The packets of one message with a new id can be told from all others. */
  lemma ToldMore(b: Bag, k: nat, ps: seq<MsgPack>)
    requires Told(b, k) && NewRow(ps, k)
    ensures Told(b + multiset(ps), k + 1)
  {
    hide NewRow;
    var m := multiset(ps);
    var c := b + m;
    forall p | p in c
      ensures p.cnt == 0 || p.idx < p.cnt
      ensures p.cnt > 1 ==> c[p] == 1 && p.xmtid < k + 1 && (p in m <==> p.xmtid == k)
    {
      if p in m {
        InRow(ps, k, p);
      }
    }
    forall p, q | p in c && q in c && p.cnt > 1 && q.cnt > 1 && p.xmtid == q.xmtid
      ensures p.cnt == q.cnt && (p.idx == q.idx ==> p == q)
    {
      if p in m {
        InRow(ps, k, p);
        InRow(ps, k, q);
      }
    }
  }

  /** Nothing takes more than one packet, or there are ids for everything, and no packet count comes round to one. */
  predicate TellsApart(sends: nat, limit: nat) {
    sends == 0 || limit <= 2 || (sends <= TWO_TO_32 && limit <= TWO_TO_16 + 1)
  }

  lemma SentTold(t: Topology, b: Bag, k: nat, limit: nat, f: Flow, xmtid: XmitId, data: seq<Byte>)
    requires t.Ok() && FlowOk(t, f) && t.chaWidths[f.cha] > 0 && Told(b, k)
    requires PacketCount(|data|, t.chaWidths[f.cha]) < limit <= TWO_TO_16 + 1
    requires limit <= 2 || xmtid == k
    ensures Told(b + multiset(Packetize(t, f.src, f.dst, f.cha, xmtid, data)), k + 1)
  {
    hide Topology.Ok, Told, PacketCount, Chunk;
    ToldMore(b, k, Packetize(t, f.src, f.dst, f.cha, xmtid, data));
  }

  lemma StepTidy(t: Topology, limit: nat, net: Net, ev: Event, net': Net, k: nat)
    requires t.Ok() && Shape(t, net) && PlainStep(t, limit, net, ev, net') && Told(Census(net), k) && Tidy(t, net)
    requires ev.Sent? ==> limit <= 2 || (limit <= TWO_TO_16 + 1 && net.xmtidAlloc == k)
    ensures Shape(t, net') && Tidy(t, net') && Told(Census(net'), if ev.Sent? then k + 1 else k)
    ensures net'.xmtidAlloc == if ev.Sent? then (net.xmtidAlloc + 1) % TWO_TO_32 else net.xmtidAlloc
  {
    hide Topology.Ok, Tidy, Told, Census, Packetize, PacketCount, Tick, RecvData, EdgeOk, NodeOk, IdFree;
    match ev
    case Sent(f, data) =>
      SendCensus(t, net, f, data);
      SentTold(t, Census(net), k, limit, f, net.xmtidAlloc, data);
      SendSameDest(t, net, f, data);
      SameDestTidy(t, net, net');
    case Received(f, buf, data) =>
      RecvCensus(t, net, f.dst, f.cha);
      ToldPart(Census(net), Census(net'), k);
      RecvTidy(t, net, f.dst, f.cha);
    case Ticked =>
      TickCensus(t, net);
      TickTidy(t, net, k);
      TickAlloc(t, net);
  }

  lemma TickAlloc(t: Topology, net: Net)
    requires t.Ok() && Shape(t, net)
    ensures Tick(t, net).xmtidAlloc == net.xmtidAlloc
  {
    hide Topology.Ok, Shape, TickNodes, TickEdges;
    TickNodesAlloc(t, net, 0);
    TickEdgesAlloc(t, TickNodes(t, net, 0), 0);
  }

  lemma FreshTidy(t: Topology, net: Net)
    requires Fresh(t, net)
    ensures Shape(t, net) && Tidy(t, net) && Told(Census(net), 0)
  {
    hide EdgeOk, NodeOk, Census;
    FreshCensus(t, net);
  }

  /** Within the limits, every receive buffer stays a row of messages. */
  lemma {:induction false} RunTidy(t: Topology, limit: nat, first: Net, evs: seq<Event>, last: Net)
    requires t.Ok() && Fresh(t, first) && first.xmtidAlloc == 0 && PlainRun(t, limit, first, evs, last)
    requires TellsApart(Sends(evs), limit)
    ensures Shape(t, last) && Tidy(t, last) && Told(Census(last), Sends(evs))
    ensures last.xmtidAlloc == Sends(evs) % TWO_TO_32
    decreases evs
  {
    hide Topology.Ok, Shape, Fresh, Tidy, Told, Census, PlainStep, TellsApart;
    if evs == [] {
      FreshTidy(t, first);
    } else {
      var n := |evs| - 1;
      NextId(Sends(evs[..n]), Sends(evs), limit);
      var net :| Shape(t, net) && PlainRun(t, limit, first, evs[..n], net) && PlainStep(t, limit, net, evs[n], last);
      RunTidy(t, limit, first, evs[..n], net);
      StepTidy(t, limit, net, evs[n], last, Sends(evs[..n]));
    }
  }

  lemma NextId(k: nat, next: nat, limit: nat)
    requires TellsApart(next, limit) && k <= next <= k + 1
    ensures TellsApart(k, limit) && (k % TWO_TO_32 + 1) % TWO_TO_32 == (k + 1) % TWO_TO_32
    ensures next == k + 1 ==> limit <= 2 || (limit <= TWO_TO_16 + 1 && k % TWO_TO_32 == k)
  {
  }

  lemma ApartInOrder(sends: nat, limit: nat)
    requires TellsApart(sends, limit)
    ensures AlwaysInOrder(sends, limit)
  {
    hide Topology.Ok, Fresh, PlainRun, Sends, Shape, HeadsInOrder;
    forall t: Topology, first, evs, last |
      && t.Ok() && Fresh(t, first) && first.xmtidAlloc == 0 && PlainRun(t, limit, first, evs, last)
      && Sends(evs) <= sends && Shape(t, last)
      ensures HeadsInOrder(t, last)
    {
      RunTidy(t, limit, first, evs, last);
      TidyHeads(t, last);
    }
  }

  lemma TidyHeads(t: Topology, net: Net)
    requires Shape(t, net) && Tidy(t, net)
    ensures HeadsInOrder(t, net)
  {
    hide EdgeOk, NodeOk, TidyLists;
    forall p, c | p in net.ports && 0 <= c < t.Channels()
      ensures InOrder(net.ports[p].recvBuf[c])
    {
      assert Rows(net.ports[p].recvBuf[c]);
    }
  }

  // ---------------------------------------------------------------- a count that comes round to one

  lemma RoundHead(data: seq<Byte>)
    requires |data| == TWO_TO_16 + 1
    ensures var ps := Packetize(LOOP, 0, 1, 0, 0, data);
      && |ps| > 2 && ps[0].cnt == ps[1].cnt == 1 && ps[0].idx == 0 && ps[1].idx == 1
      && FlowOf(ps[0]) == FlowOf(ps[1]) == LINE0
  {
    hide PacketCount, Chunk;
    CountOnWidthOne(TWO_TO_16 + 1);
  }

  lemma SinglesArrive(a: MsgPack, b: MsgPack)
    requires a.cnt == b.cnt == 1
    ensures DeliverAt([], map[], a) == ([a], map[]) && DeliverAt([a], map[], b) == ([a, b], map[])
  {
    assert [] + [a] == [a] && [a] + [b] == [a, b];
  }

  /** A message of 2^16 + 1 packets, two of which have come in: each passes for a message of its own, and once the first
      is received, recv finds the second out of order. */
  lemma RoundCount(limit: nat)
    requires limit > TWO_TO_16 + 1
    ensures !AlwaysInOrder(1, limit)
  {
    hide Topology.Ok, Shape, PacketCount, Packetize, Reached, JoinInto, AlwaysInOrder, DeliverAt, PlainRun;
    StartFresh();
    var data := Ones(TWO_TO_16 + 1);
    var ps := Packetize(LOOP, 0, 1, 0, 0, data);
    RoundHead(data);
    SinglesArrive(ps[0], ps[1]);
    var evs := Begin(limit);
    evs := ThenSend(limit, evs, EMPTY, 0, [], 0, data);
    assert [] + [data] == [data];
    evs := ThenTick(limit, evs, Held(ps, [], [], map[], 1), 1, [data]);
    evs := ThenTick(limit, evs, Held(ps[1..], [], [ps[0]], map[], 1), 1, [data]);
    RoundEnd(limit, evs, ps[2..], ps[0], ps[1], data);
  }

  lemma RoundEnd(limit: nat, evs: seq<Event>, rest: seq<MsgPack>, a: MsgPack, b: MsgPack, data: seq<Byte>)
    requires LOOP.Ok() && a.cnt == b.cnt == 1 && b.idx == 1 && FlowOf(a) == LINE0
    requires Fine(Held(rest, [], [a, b], map[], 1))
    requires Reached(limit, evs, At(Held(rest, [], [a, b], map[], 1)), 1, [data], [])
    ensures !AlwaysInOrder(1, limit)
  {
    hide Topology.Ok, Shape, JoinInto, PlainRun, HeadsInOrder, PlainStep, Fresh, RecvLog, SentLog;
    StartFresh();
    var h := Held(rest, [], [a, b], map[], 1);
    AtShape(h);
    var net := At(h);
    assert net.ports[1].recvBuf[0] == [a, b];
    var got, last := RecvData(LOOP, net, 1, 0, []), Recv(LOOP, net, 1, 0);
    RecvStep(limit, net, got);
    Extend(limit, evs, net, 1, [data], [], Received(LINE0, [], got), last);
    assert last.ports[1].recvBuf[0] == [b];
    assert !InOrder([b]);
    assert !HeadsInOrder(LOOP, last) by {
      OutOfOrder(last);
    }
    assert PlainRun(LOOP, limit, START, evs + [Received(LINE0, [], got)], last);
  }

  lemma OutOfOrder(net: Net)
    requires Shape(LOOP, net) && 1 in net.ports && |net.ports[1].recvBuf| == 2 && !InOrder(net.ports[1].recvBuf[0])
    ensures !HeadsInOrder(LOOP, net)
  {
    hide Shape;
    assert LOOP.Channels() == 2;
  }

  /** recv finds packets out of order exactly when, with messages of several packets, ids come round or a packet count
      comes round to one. */
  lemma InOrderExactly(sends: nat, limit: nat)
    ensures AlwaysInOrder(sends, limit) <==>
      sends == 0 || limit <= 2 || (sends <= 0x1_0000_0000 && limit <= 0x1_0001)
  {
    hide AlwaysInOrder;
    if TellsApart(sends, limit) {
      ApartInOrder(sends, limit);
    } else if limit > TWO_TO_16 + 1 {
      RoundCount(limit);
      FewerSends(1, sends, limit);
    } else {
      TooManySends(limit);
      FewerSends(TWO_TO_32 + 1, sends, limit);
    }
  }
}

/** Whole runs of the bus: any mix of sends, receives and ticks over any traffic. */
module BusRuns {
  import opened BusModel
  import opened BusPaths
  import opened BusDelivery
  import opened BusInvariant
  import opened BusOps
  import opened BusRecv
  import opened BusMeasure
  import opened BusWays
  import opened BusDraining

  datatype Event =
    | Sent(flow: Flow, data: seq<Byte>)
    | Received(flow: Flow, buf: seq<Byte>, data: seq<Byte>)
    | Ticked

  /** No packet of a message of several carries the transmission id the next send will use. */
  ghost predicate IdFree(t: Topology, net: Net)
    requires t.Ok() && Shape(t, net)
  {
    forall f, i :: FlowOk(t, f) && 0 <= i < |InFlight(t, net, f)| && InFlight(t, net, f)[i].cnt > 1 ==>
      InFlight(t, net, f)[i].xmtid != net.xmtidAlloc
  }

  /** The message fits the header, and if it takes several packets, its id is not in use. */
  ghost predicate Deliverable(t: Topology, net: Net, f: Flow, data: seq<Byte>)
    requires t.Ok() && Shape(t, net) && FlowOk(t, f)
  {
    Fits(t, f.cha, data) && (Several(t, Msg(f, net.xmtidAlloc, data)) ==> IdFree(t, net))
  }

  /** One operation: a send of a message that can be delivered, a receive into any buffer, or a tick. */
  ghost predicate Step(t: Topology, net: Net, ev: Event, net': Net)
    requires t.Ok() && Shape(t, net)
  {
    match ev
    case Sent(f, data) =>
      && FlowOk(t, f) && CanSend(net, f.src, f.cha) && Deliverable(t, net, f, data)
      && net' == Send(t, net, f.src, f.dst, f.cha, data)
    case Received(f, buf, data) =>
      && FlowOk(t, f) && CanRecv(net, f.dst, f.cha) && FlowOf(net.ports[f.dst].recvBuf[f.cha][0]) == f
      && t.chaWidths[f.cha] > 0
      && data == RecvData(t, net, f.dst, f.cha, buf) && net' == Recv(t, net, f.dst, f.cha)
    case Ticked => net' == Tick(t, net)
  }

  ghost predicate Run(t: Topology, first: Net, evs: seq<Event>, last: Net)
    requires t.Ok()
    decreases evs
  {
    if evs == [] then last == first
    else
      var n := |evs| - 1;
      exists net :: Shape(t, net) && Run(t, first, evs[..n], net) && Step(t, net, evs[n], last)
  }

  /** The state the constructor leaves: nothing anywhere. */
  ghost predicate Fresh(t: Topology, net: Net) {
    && Shape(t, net)
    && (forall p, c :: p in net.ports && 0 <= c < t.Channels() ==>
          net.ports[p].sendBuf[c] == [] && net.ports[p].recvBuf[c] == [])
    && (forall n :: n in net.nodes ==> net.nodes[n].pipeline == [] && net.nodes[n].orderBuf == map[])
    && (forall e, c :: 0 <= e < |net.edges| && 0 <= c < t.Channels() ==>
          net.edges[e].input[c].None? && net.edges[e].output[c].None?)
  }

  /** What the event adds to the messages sent on a flow. An empty message has no packets: it is no message. */
  function NewlySent(ev: Event, f: Flow): seq<seq<Byte>> {
    if ev.Sent? && ev.flow == f && ev.data != [] then [ev.data] else []
  }

  function NewlyReceived(ev: Event, f: Flow): seq<seq<Byte>> {
    if ev.Received? && ev.flow == f then [ev.data] else []
  }

  /** The messages of a flow that were sent, in order. */
  function SentLog(evs: seq<Event>, f: Flow): seq<seq<Byte>> {
    if evs == [] then [] else SentLog(evs[..|evs| - 1], f) + NewlySent(evs[|evs| - 1], f)
  }

  /** The messages of a flow that were received, in order. */
  function RecvLog(evs: seq<Event>, f: Flow): seq<seq<Byte>> {
    if evs == [] then [] else RecvLog(evs[..|evs| - 1], f) + NewlyReceived(evs[|evs| - 1], f)
  }

  ghost function Datas(q: seq<Msg>): (r: seq<seq<Byte>>)
    ensures |r| == |q| && forall i :: 0 <= i < |q| ==> r[i] == q[i].data
  {
    seq(|q|, i requires 0 <= i < |q| => q[i].data)
  }

  const NOTHING: Abs := Abs(map[], map[])

  lemma FreshInv(t: Topology, net: Net)
    requires t.Ok() && Fresh(t, net)
    ensures Inv(t, net, NOTHING)
  {
    hide Topology.Ok;
    assert Drained(t, net);
    forall f | FlowOk(t, f)
      ensures Dest(t, net, f) == [] && InFlight(t, net, f) == Dest(t, net, f)
    {
      DrainedLine(t, net, f);
    }
  }

  /** Fresh ids in the packets are fresh ids in the messages. */
  lemma IdFreeIsFresh(t: Topology, net: Net, a: Abs, m: Msg)
    requires t.Ok() && Inv(t, net, a) && m.xmtid == net.xmtidAlloc && (Several(t, m) ==> IdFree(t, net))
    ensures FreshFor(t, a, m)
  {
    hide Topology.Ok, Routed, InFlight, Packets, MsgOk, Flatten, Several, Distinct, ReadyOk, RecvOk, OrdersOk,
      DestPrefix;
    forall f, i | Several(t, m) && 0 <= i < |a.Queue(f)| && Several(t, a.Queue(f)[i])
      ensures a.Queue(f)[i].xmtid != m.xmtid
    {
      var q := a.Queue(f);
      assert AllOk(t, q);
      OkFlow(t, q[i]);
      PacketsShape(t, q[i]);
      FlattenAt(t, q, i);
      assert InFlight(t, net, f) == Flatten(t, q);
      var at := |Flatten(t, q[..i])|;
      assert InFlight(t, net, f)[at] == Packets(t, q[i])[0];
    }
  }

  lemma SentDatas(t: Topology, net: Net, a: Abs, f: Flow, data: seq<Byte>)
    ensures forall g :: Datas(AfterSend(t, net, a, f, data).Queue(g)) == Datas(a.Queue(g)) + NewlySent(Sent(f, data), g)
  {
  }

  lemma PoppedDatas(a: Abs, p: Port, c: Channel, f: Flow, buf: seq<Byte>, data: seq<Byte>)
    requires a.Ready(p, c) != [] && a.Ready(p, c)[0].flow == f && a.Ready(p, c)[0].data == data
    requires a.Queue(f) != [] && a.Queue(f)[0] == a.Ready(p, c)[0]
    ensures forall g ::
      Datas(a.Queue(g)) == NewlyReceived(Received(f, buf, data), g) + Datas(Popped(a, p, c).Queue(g))
  {
  }

  lemma StepKeeps(t: Topology, net: Net, a: Abs, ev: Event, net': Net) returns (a': Abs)
    requires t.Ok() && Inv(t, net, a) && Step(t, net, ev, net')
    ensures Inv(t, net', a')
    ensures forall f :: Datas(a.Queue(f)) + NewlySent(ev, f) == NewlyReceived(ev, f) + Datas(a'.Queue(f))
  {
    hide Topology.Ok, Routed, DestInv, FlowsOk, IdFree, FreshFor, Several, Tick, Send, Recv, RecvData, CanRecv, Fits,
      PortOk, NodeOk, EdgeOk, AfterSend, Popped, Datas;
    match ev
    case Sent(f, data) =>
      IdFreeIsFresh(t, net, a, Msg(f, net.xmtidAlloc, data));
      SendKeeps(t, net, a, f, data);
      SentDatas(t, net, a, f, data);
      a' := AfterSend(t, net, a, f, data);
    case Received(f, buf, data) =>
      HeadBytes(t, net, a, f.dst, f.cha, buf);
      RecvKeeps(t, net, a, f.dst, f.cha);
      HeadFlow(t, net, a, f.dst, f.cha);
      PoppedDatas(a, f.dst, f.cha, f, buf, data);
      a' := Popped(a, f.dst, f.cha);
    case Ticked =>
      a' := TickKeeps(t, net, a);
      assert forall f :: a'.Queue(f) == a.Queue(f);
  }

  lemma HeadFlow(t: Topology, net: Net, a: Abs, p: Port, c: Channel)
    requires t.Ok() && Inv(t, net, a) && p in net.ports && c < t.Channels() && CanRecv(net, p, c)
    ensures a.Ready(p, c) != [] && FlowOf(net.ports[p].recvBuf[c][0]) == a.Ready(p, c)[0].flow
  {
    hide Topology.Ok, Routed, FlowsOk, OrdersOk, Distinct, DestPrefix, Packets, MsgOk;
    HeadMessage(t, net, a, p, c);
    PacketsShape(t, a.Ready(p, c)[0]);
  }

  lemma Regroup(got: seq<seq<Byte>>, q: seq<seq<Byte>>, s: seq<seq<Byte>>, r: seq<seq<Byte>>, q': seq<seq<Byte>>)
    requires q + s == r + q'
    ensures (got + q) + s == (got + r) + q'
  {
    assert (got + q) + s == got + (q + s);
    assert (got + r) + q' == got + (r + q');
  }

  /** Any run, from any state the invariant holds in: what was in flight and what was sent is what was received and
      what is in flight now, in order. */
  lemma {:induction false} RunKeeps(t: Topology, first: Net, a0: Abs, evs: seq<Event>, last: Net) returns (a: Abs)
    requires t.Ok() && Inv(t, first, a0) && Run(t, first, evs, last)
    ensures Inv(t, last, a)
    ensures forall f :: Datas(a0.Queue(f)) + SentLog(evs, f) == RecvLog(evs, f) + Datas(a.Queue(f))
    decreases evs
  {
    hide Topology.Ok, Routed, DestInv, FlowsOk, Step, Datas, NewlySent, NewlyReceived;
    if evs == [] {
      a := a0;
    } else {
      var n := |evs| - 1;
      var net :| Shape(t, net) && Run(t, first, evs[..n], net) && Step(t, net, evs[n], last);
      var a1 := RunKeeps(t, first, a0, evs[..n], net);
      a := StepKeeps(t, net, a1, evs[n], last);
      forall f
        ensures Datas(a0.Queue(f)) + SentLog(evs, f) == RecvLog(evs, f) + Datas(a.Queue(f))
      {
        var sent := SentLog(evs[..n], f);
        assert Datas(a0.Queue(f)) + (sent + NewlySent(evs[n], f)) == (Datas(a0.Queue(f)) + sent) + NewlySent(evs[n], f);
        Regroup(RecvLog(evs[..n], f), Datas(a1.Queue(f)), NewlySent(evs[n], f), NewlyReceived(evs[n], f),
          Datas(a.Queue(f)));
      }
    }
  }

  /** In every run, whatever the interleaving of flows: what was received on a flow, followed by what
      is still in flight, is what was sent, in order. Nothing is lost, doubled, changed or overtaken. */
  lemma RunDelivers(t: Topology, first: Net, evs: seq<Event>, last: Net) returns (a: Abs)
    requires t.Ok() && Fresh(t, first) && Run(t, first, evs, last)
    ensures Inv(t, last, a)
    ensures forall f :: SentLog(evs, f) == RecvLog(evs, f) + Datas(a.Queue(f))
  {
    hide Topology.Ok, Inv, Fresh, Run, SentLog, RecvLog;
    FreshInv(t, first);
    a := RunKeeps(t, first, NOTHING, evs, last);
    forall f
      ensures SentLog(evs, f) == RecvLog(evs, f) + Datas(a.Queue(f))
    {
      assert Datas(NOTHING.Queue(f)) + SentLog(evs, f) == SentLog(evs, f);
    }
  }

  /** First in, first out, per flow: the receiver has seen a prefix of what the sender sent. */
  lemma PerFlowFifo(t: Topology, first: Net, evs: seq<Event>, last: Net, f: Flow)
    requires t.Ok() && Fresh(t, first) && Run(t, first, evs, last)
    ensures RecvLog(evs, f) <= SentLog(evs, f)
  {
    var a := RunDelivers(t, first, evs, last);
  }

  // ---------------------------------------------------------------- runs without sends

  function Ticks(evs: seq<Event>): nat {
    if evs == [] then 0 else Ticks(evs[..|evs| - 1]) + if evs[|evs| - 1].Ticked? then 1 else 0
  }

  predicate NoSends(evs: seq<Event>) {
    forall i :: 0 <= i < |evs| ==> !evs[i].Sent?
  }

  /** Nothing under way is further than `k` ticks from its receive buffer. */
  ghost predicate DrainsIn(t: Topology, net: Net, k: int) {
    |net.edges| == |t.edgeEnds| && Measure(t, net) <= k
  }

  /** A tick brings the network closer to empty, and a receive no further away. */
  lemma StepDrains(t: Topology, net: Net, ev: Event, net': Net, k: nat)
    requires t.Ok() && Shape(t, net) && Routed(t, net) && Step(t, net, ev, net') && !ev.Sent? && DrainsIn(t, net, k)
    ensures Shape(t, net') && Routed(t, net') && DrainsIn(t, net', if ev.Ticked? && k > 0 then k - 1 else k)
  {
    hide Topology.Ok, Routed, Measure, Drained, Tick, Recv, RecvData, CanRecv, NodeOk, EdgeOk, PortOk;
    if ev.Ticked? {
      DrainedIsZero(t, net);
      TickMonotone(t, net);
      TickRouted(t, net);
      if !Drained(t, net) {
        TickProgress(t, net);
      }
    } else {
      RecvWeight(t, net, ev.flow.dst, ev.flow.cha);
      RecvRouted(t, net, ev.flow.dst, ev.flow.cha);
    }
  }

  /** Without sends, each tick counts, whatever is received in between. */
  lemma {:induction false} RunDrainsBy(t: Topology, first: Net, evs: seq<Event>, last: Net, k: nat)
    requires t.Ok() && Shape(t, first) && Routed(t, first)
    requires Run(t, first, evs, last) && NoSends(evs) && DrainsIn(t, first, k)
    ensures Shape(t, last) && Routed(t, last)
    ensures DrainsIn(t, last, if Ticks(evs) <= k then k - Ticks(evs) else 0)
    decreases evs
  {
    hide Topology.Ok, Shape, Routed, Step, DrainsIn;
    if evs != [] {
      var n := |evs| - 1;
      var net :| Shape(t, net) && Run(t, first, evs[..n], net) && Step(t, net, evs[n], last);
      RunDrainsBy(t, first, evs[..n], net, k);
      StepDrains(t, net, evs[n], last, if Ticks(evs[..n]) <= k then k - Ticks(evs[..n]) else 0);
    }
  }

  lemma {:induction false} NothingSent(evs: seq<Event>, f: Flow)
    requires NoSends(evs)
    ensures SentLog(evs, f) == []
    decreases evs
  {
    if evs != [] {
      NothingSent(evs[..|evs| - 1], f);
    }
  }

  /** Once sending stops, a bounded number of ticks, with any receives between them, brings every message that was
      sent and not yet received into its receive buffer, complete and in order. */
  lemma RunDrains(t: Topology, first: Net, evs: seq<Event>, mid: Net, more: seq<Event>, last: Net) returns (a: Abs)
    requires t.Ok() && Fresh(t, first) && Run(t, first, evs, mid)
    requires Run(t, mid, more, last) && NoSends(more) && DrainsIn(t, mid, Ticks(more))
    ensures Inv(t, last, a) && Drained(t, last)
    ensures forall f :: FlowOk(t, f) ==>
      SentLog(evs, f) == RecvLog(evs, f) + RecvLog(more, f) + Datas(Of(f, a.Ready(f.dst, f.cha)))
  {
    hide Topology.Ok, Routed, DestInv, FlowsOk, Run, Fresh, Drained, Measure, RecvLog, SentLog;
    var a0 := RunDelivers(t, first, evs, mid);
    RunDrainsBy(t, mid, more, last, Ticks(more));
    a := RunKeeps(t, mid, a0, more, last);
    DrainedIsZero(t, last);
    forall f | FlowOk(t, f)
      ensures SentLog(evs, f) == RecvLog(evs, f) + RecvLog(more, f) + Datas(Of(f, a.Ready(f.dst, f.cha)))
    {
      DrainedIsComplete(t, last, a, f);
      NothingSent(more, f);
      assert Datas(a0.Queue(f)) + [] == Datas(a0.Queue(f));
    }
  }
}

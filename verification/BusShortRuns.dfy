/** Runs of fewer than 2^32 sends: transmission ids are never used again, so nothing need be asked of them. */
module BusShortRuns {
  import opened Arithmetic
  import opened RouteTable
  import opened BusModel
  import opened BusPaths
  import opened BusDelivery
  import opened BusInvariant
  import opened BusOps
  import opened BusRecv
  import opened BusRuns

  // ---------------------------------------------------------------- who changes the id counter

  lemma AcceptAlloc(t: Topology, net: Net, n: Node)
    requires t.Ok() && Shape(t, net) && n in t.nodeIds
    ensures Accept(t, net, n).xmtidAlloc == net.xmtidAlloc
  {
    hide Topology.Ok, NodeOk, RingScan;
  }

  lemma {:induction false} PipeScanAlloc(t: Topology, net: Net, n: Node, i: nat)
    requires t.Ok() && Shape(t, net) && n in t.nodeIds && i <= |net.nodes[n].pipeline|
    ensures PipeScan(t, net, n, i).xmtidAlloc == net.xmtidAlloc
    decreases |net.nodes[n].pipeline| - i
  {
    hide Topology.Ok, EdgeOk, PortOk;
    if i < |net.nodes[n].pipeline| {
      var p := net.nodes[n].pipeline[i].pack;
      PipeTarget(t, net, n, i);
      if Blocked(t, net, n, p) {
        PipeScanAlloc(t, Stay(t, net, n, i), n, i + 1);
      } else {
        PipeScanAlloc(t, PipeOut(t, net, n, i, EdgeFor(t, n, p.tgt)), n, i);
      }
    }
  }

  lemma {:induction false} EdgeStepAlloc(t: Topology, net: Net, e: nat, c: Channel, total: nat)
    requires Shape(t, net) && e < |net.edges| && c <= t.Channels()
    ensures EdgeStep(t, net, e, c, total).xmtidAlloc == net.xmtidAlloc
    decreases t.Channels() - c
  {
    if c < t.Channels() && total < t.width {
      if EdgeReady(net.edges[e], c) {
        EdgeStepAlloc(t, EdgeMove(t, net, e, c), e, c + 1, total + |net.edges[e].input[c].value.data|);
      } else {
        EdgeStepAlloc(t, net, e, c + 1, total);
      }
    }
  }

  lemma {:induction false} TickNodesAlloc(t: Topology, net: Net, i: nat)
    requires t.Ok() && Shape(t, net) && i <= |t.nodeIds|
    ensures TickNodes(t, net, i).xmtidAlloc == net.xmtidAlloc
    decreases |t.nodeIds| - i
  {
    hide Topology.Ok, Shape, Accept, PipeScan;
    if i < |t.nodeIds| {
      AcceptAlloc(t, net, t.nodeIds[i]);
      PipeScanAlloc(t, Accept(t, net, t.nodeIds[i]), t.nodeIds[i], 0);
      TickNodesAlloc(t, NodeStep(t, net, t.nodeIds[i]), i + 1);
    }
  }

  lemma {:induction false} TickEdgesAlloc(t: Topology, net: Net, e: nat)
    requires Shape(t, net) && e <= |net.edges|
    ensures TickEdges(t, net, e).xmtidAlloc == net.xmtidAlloc
    decreases |net.edges| - e
  {
    hide EdgeStep;
    if e < |net.edges| {
      EdgeStepAlloc(t, net, e, 0, 0);
      TickEdgesAlloc(t, EdgeStep(t, net, e, 0, 0), e + 1);
    }
  }

  // ---------------------------------------------------------------- ids in use

  /** All ids in use are below `k`. */
  ghost predicate IdsBelow(a: Abs, k: nat) {
    forall f, i :: 0 <= i < |a.Queue(f)| ==> a.Queue(f)[i].xmtid < k
  }

  lemma {:induction false} FlattenBelow(t: Topology, q: seq<Msg>, k: nat)
    requires t.Ok() && AllOk(t, q) && forall i :: 0 <= i < |q| ==> q[i].xmtid < k
    ensures forall i :: 0 <= i < |Flatten(t, q)| ==> Flatten(t, q)[i].xmtid < k
  {
    hide Topology.Ok, Packets, MsgOk;
    if q != [] {
      OkFlow(t, q[0]);
      PacketsShape(t, q[0]);
      FlattenBelow(t, q[1..], k);
    }
  }

  lemma BelowIsFree(t: Topology, net: Net, a: Abs)
    requires t.Ok() && Inv(t, net, a) && IdsBelow(a, net.xmtidAlloc)
    ensures IdFree(t, net)
  {
    hide Topology.Ok, Routed, InFlight, Packets, MsgOk, Flatten;
    forall f, i | FlowOk(t, f) && 0 <= i < |InFlight(t, net, f)|
      ensures InFlight(t, net, f)[i].xmtid != net.xmtidAlloc
    {
      assert AllOk(t, a.Queue(f));
      FlattenBelow(t, a.Queue(f), net.xmtidAlloc);
      assert InFlight(t, net, f) == Flatten(t, a.Queue(f));
    }
  }

  // ---------------------------------------------------------------- runs without conditions on ids

  /** An operation of the program as it is: a send asks for nothing but that its message is of fewer than `limit`
      packets. */
  ghost predicate PlainStep(t: Topology, limit: nat, net: Net, ev: Event, net': Net)
    requires t.Ok() && Shape(t, net)
  {
    if ev.Sent? then
      && FlowOk(t, ev.flow) && CanSend(net, ev.flow.src, ev.flow.cha)
      && t.chaWidths[ev.flow.cha] > 0 && PacketCount(|ev.data|, t.chaWidths[ev.flow.cha]) < limit
      && net' == Send(t, net, ev.flow.src, ev.flow.dst, ev.flow.cha, ev.data)
    else Step(t, net, ev, net')
  }

  ghost predicate PlainRun(t: Topology, limit: nat, first: Net, evs: seq<Event>, last: Net)
    requires t.Ok()
    decreases evs
  {
    if evs == [] then last == first
    else
      var n := |evs| - 1;
      exists net :: Shape(t, net) && PlainRun(t, limit, first, evs[..n], net) && PlainStep(t, limit, net, evs[n], last)
  }

  function Sends(evs: seq<Event>): (n: nat) {
    if evs == [] then 0 else Sends(evs[..|evs| - 1]) + if evs[|evs| - 1].Sent? then 1 else 0
  }

  lemma StepIds(t: Topology, net: Net, a: Abs, ev: Event, net': Net, k: nat) returns (a': Abs)
    requires t.Ok() && Inv(t, net, a) && Step(t, net, ev, net') && IdsBelow(a, k) && net.xmtidAlloc <= k
    ensures Inv(t, net', a') && IdsBelow(a', if ev.Sent? then k + 1 else k)
    ensures net'.xmtidAlloc == if ev.Sent? then (net.xmtidAlloc + 1) % TWO_TO_32 else net.xmtidAlloc
  {
    hide Topology.Ok, Routed, DestInv, FlowsOk, IdFree, FreshFor, Several, TickNodes, TickEdges, CanRecv, Fits,
      Packetize, PortOk, NodeOk;
    match ev
    case Sent(f, data) =>
      IdFreeIsFresh(t, net, a, Msg(f, net.xmtidAlloc, data));
      SendKeeps(t, net, a, f, data);
      a' := AfterSend(t, net, a, f, data);
      forall g, i | 0 <= i < |a'.Queue(g)|
        ensures a'.Queue(g)[i].xmtid < k + 1
      {
        assert i < |a.Queue(g)| ==> a'.Queue(g)[i] == a.Queue(g)[i];
      }
    case Received(f, buf, data) =>
      RecvKeeps(t, net, a, f.dst, f.cha);
      HeadFlow(t, net, a, f.dst, f.cha);
      a' := Popped(a, f.dst, f.cha);
      forall g, i | 0 <= i < |a'.Queue(g)|
        ensures a'.Queue(g)[i].xmtid < k
      {
        assert a'.Queue(g)[i] == a.Queue(g)[i] || a'.Queue(g)[i] == a.Queue(g)[i + 1];
      }
    case Ticked =>
      a' := TickKeeps(t, net, a);
      TickNodesAlloc(t, net, 0);
      TickEdgesAlloc(t, TickNodes(t, net, 0), 0);
      assert forall g :: a'.Queue(g) == a.Queue(g);
  }

  /** A run from the constructor's state with at most 2^32 sends meets the condition on ids by itself, so
      `PerFlowFifo`, `RunDelivers` and `RunDrains` hold of it as it is. */
  lemma {:induction false} ShortRunsAreRuns(t: Topology, limit: nat, first: Net, evs: seq<Event>, last: Net)
    returns (a: Abs)
    requires t.Ok() && Fresh(t, first) && first.xmtidAlloc == 0 && PlainRun(t, limit, first, evs, last)
    requires Sends(evs) <= TWO_TO_32 && limit <= TWO_TO_16
    ensures Run(t, first, evs, last) && Inv(t, last, a)
    ensures last.xmtidAlloc == Sends(evs) % TWO_TO_32 && IdsBelow(a, Sends(evs))
    decreases evs
  {
    hide Topology.Ok, Inv, Step, PlainStep, Fresh, IdFree, Shape, IdsBelow, Run;
    RunUnfolds(t, first, evs, last);
    if evs == [] {
      FreshInv(t, first);
      NoIds();
      a := NOTHING;
    } else {
      var n := |evs| - 1;
      var net :| Shape(t, net) && PlainRun(t, limit, first, evs[..n], net) && PlainStep(t, limit, net, evs[n], last);
      var a0 := ShortRunsAreRuns(t, limit, first, evs[..n], net);
      IsStep(t, limit, net, a0, evs[n], last, Sends(evs[..n]));
      a := StepIds(t, net, a0, evs[n], last, Sends(evs[..n]));
    }
  }

  lemma RunUnfolds(t: Topology, first: Net, evs: seq<Event>, last: Net)
    requires t.Ok()
    ensures evs == [] ==> (Run(t, first, evs, last) <==> last == first)
    ensures evs != [] ==>
      forall net :: Shape(t, net) && Run(t, first, evs[..|evs| - 1], net) && Step(t, net, evs[|evs| - 1], last) ==>
        Run(t, first, evs, last)
  {
    hide Topology.Ok, Step, Shape;
  }

  lemma NoIds()
    ensures IdsBelow(NOTHING, 0)
  {
  }

  lemma IsStep(t: Topology, limit: nat, net: Net, a: Abs, ev: Event, net': Net, k: nat)
    requires t.Ok() && Shape(t, net) && Inv(t, net, a) && PlainStep(t, limit, net, ev, net')
    requires IdsBelow(a, k) && limit <= TWO_TO_16
    requires net.xmtidAlloc == k % TWO_TO_32 && (ev.Sent? ==> k < TWO_TO_32)
    ensures Step(t, net, ev, net')
  {
    hide Topology.Ok, Inv, IdFree, Several;
    if ev.Sent? {
      BelowIsFree(t, net, a);
    }
  }
}

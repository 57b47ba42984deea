/** Each move of a packet keeps the bus invariant. */
module BusSteps {
  import opened Wrappers
  import opened RouteTable
  import opened BusModel
  import opened BusPaths
  import opened BusDelivery
  import opened BusInvariant

  lemma LinesKeptFlows(t: Topology, net: Net, net': Net, a: Abs, a': Abs)
    requires t.Ok() && Shape(t, net) && Shape(t, net') && DestInv(t, net, a) && DestInv(t, net', a')
    requires FlowsOk(t, net, a) && LinesKept(t, net, net') && a'.queues == a.queues
    ensures FlowsOk(t, net', a')
  {
    hide Topology.Ok, InFlight, Flatten, MsgOk, Shape;
    assert forall f :: a'.Queue(f) == a.Queue(f);
  }

  // ---------------------------------------------------------------- steps that move no packet

  /** Same packets in the same places; pointers and latency counters may differ. */
  ghost predicate SamePackets(net: Net, net': Net) {
    && net'.edges == net.edges && net'.ports == net.ports && net'.nodes.Keys == net.nodes.Keys
    && forall n :: n in net.nodes ==>
         && net'.nodes[n].orderBuf == net.nodes[n].orderBuf
         && |net'.nodes[n].pipeline| == |net.nodes[n].pipeline|
         && forall i :: 0 <= i < |net.nodes[n].pipeline| ==>
              net'.nodes[n].pipeline[i].pack == net.nodes[n].pipeline[i].pack
  }

  lemma StaySame(t: Topology, net: Net, n: Node, i: nat)
    requires Shape(t, net) && n in net.nodes && i < |net.nodes[n].pipeline|
    ensures SamePackets(net, Stay(t, net, n, i))
  {
    hide NodeOk, EdgeOk, PortOk;
  }

  lemma QuietKeeps(t: Topology, net: Net, net': Net, a: Abs)
    requires t.Ok() && Inv(t, net, a) && Shape(t, net') && SamePackets(net, net')
    ensures Inv(t, net', a)
  {
    hide Topology.Ok, OnPath, DestInv, Flatten, Dest, Filter, InFlight, MsgsOk, EdgeFor;
    SameDestKeeps(t, net, net', a);
    forall f | FlowOk(t, f)
      ensures InFlight(t, net', f) == InFlight(t, net, f)
    {
      forall n | n in t.nodeIds
        ensures Seg(t, net', f, n) == Seg(t, net, f, n)
      {
        assert Packs(net'.nodes[n].pipeline) == Packs(net.nodes[n].pipeline);
      }
      SameSegs(t, net, net', f);
    }
    LinesKeptFlows(t, net, net', a, a);
  }

  // ---------------------------------------------------------------- edge input to edge output

  lemma EdgeMoveSegs(t: Topology, net: Net, e: nat, c: Channel, f: Flow, n: Node)
    requires t.Ok() && Shape(t, net) && e < |net.edges| && c < t.Channels() && EdgeReady(net.edges[e], c)
    requires FlowOk(t, f) && n in t.nodeIds && n != DstNode(t, f)
    ensures Seg(t, EdgeMove(t, net, e, c), f, n) == Seg(t, net, f, n)
  {
    hide Topology.Ok, Filter, Packs, Dest, PortOk, NodeOk;
  }

  lemma EdgeMoveKeeps(t: Topology, net: Net, a: Abs, e: nat, c: Channel)
    requires t.Ok() && Inv(t, net, a) && e < |net.edges| && c < t.Channels() && EdgeReady(net.edges[e], c)
    ensures Inv(t, EdgeMove(t, net, e, c), a)
  {
    hide Topology.Ok, OnPath, DestInv, Flatten, Dest, Filter, InFlight, MsgsOk, EdgeFor;
    var net' := EdgeMove(t, net, e, c);
    SameDestKeeps(t, net, net', a);
    forall f | FlowOk(t, f)
      ensures InFlight(t, net', f) == InFlight(t, net, f)
    {
      forall n | n in t.nodeIds
        ensures Seg(t, net', f, n) == Seg(t, net, f, n)
      {
        if n != DstNode(t, f) {
          EdgeMoveSegs(t, net, e, c, f, n);
        }
      }
      SameSegs(t, net, net', f);
    }
    LinesKeptFlows(t, net, net', a, a);
  }

  // ---------------------------------------------------------------- pipeline to edge input

  /** Nothing ahead of entry `i` waits for the same slot: whatever is ahead is blocked. */
  ghost predicate AheadBlocked(t: Topology, net: Net, n: Node, i: nat)
    requires t.Ok() && Shape(t, net) && n in t.nodeIds && i <= |net.nodes[n].pipeline|
  {
    forall j :: 0 <= j < i ==> Blocked(t, net, n, net.nodes[n].pipeline[j].pack)
  }

  lemma AheadOtherFlows(t: Topology, net: Net, n: Node, i: nat, j: nat)
    requires t.Ok() && Shape(t, net) && n in t.nodeIds && j < i < |net.nodes[n].pipeline|
    requires AheadBlocked(t, net, n, i) && !Blocked(t, net, n, net.nodes[n].pipeline[i].pack)
    ensures FlowOf(net.nodes[n].pipeline[j].pack) != FlowOf(net.nodes[n].pipeline[i].pack)
  {
    hide Topology.Ok;
    assert Blocked(t, net, n, net.nodes[n].pipeline[j].pack);
  }

  lemma PipelineRemove(f: Flow, pl: seq<PipelinedPack>, i: nat)
    requires i < |pl|
    requires forall j :: 0 <= j < i ==> FlowOf(pl[j].pack) != FlowOf(pl[i].pack)
    ensures Filter(f, Packs(pl)) ==
      (if FlowOf(pl[i].pack) == f then [pl[i].pack] else []) + Filter(f, Packs(pl[..i] + pl[i + 1..]))
  {
    hide Filter;
    var ps := Packs(pl);
    assert ps == ps[..i] + [pl[i].pack] + ps[i + 1..];
    assert Packs(pl[..i] + pl[i + 1..]) == ps[..i] + ps[i + 1..];
    FilterRemove(f, ps[..i], pl[i].pack, ps[i + 1..]);
  }

  lemma PipeOutSegs(t: Topology, net: Net, n: Node, i: nat, f: Flow, k: Node)
    requires t.Ok() && Shape(t, net) && n in t.nodeIds && i < |net.nodes[n].pipeline|
    requires AheadBlocked(t, net, n, i) && !Blocked(t, net, n, net.nodes[n].pipeline[i].pack)
    requires FlowOk(t, f) && k in t.nodeIds && k != DstNode(t, f)
    ensures var p := net.nodes[n].pipeline[i].pack;
      p.tgt in t.nodeIds && Seg(t, PipeOut(t, net, n, i, EdgeFor(t, n, p.tgt)), f, k) == Seg(t, net, f, k)
  {
    hide Topology.Ok, Filter, Dest, AheadBlocked, Packs, NodeOk, EdgeOk, PortOk;
    var pl := net.nodes[n].pipeline;
    var p := pl[i].pack;
    assert PipelineOk(t, n, pl) by {
      PipesOk(t, net, n);
    }
    assert p.tgt == DstNode(t, FlowOf(p));
    if k == n {
      PipeOutSegAt(t, net, n, i, EdgeFor(t, n, p.tgt), f);
    } else {
      PipeOutSegOff(t, net, n, i, EdgeFor(t, n, p.tgt), f, k);
    }
  }

  lemma PipesOk(t: Topology, net: Net, n: Node)
    requires Shape(t, net) && n in net.nodes
    ensures PipelineOk(t, n, net.nodes[n].pipeline)
  {
  }

  lemma PipeOutSegOff(t: Topology, net: Net, n: Node, i: nat, e: nat, f: Flow, k: Node)
    requires t.Ok() && Shape(t, net) && n in t.nodeIds && i < |net.nodes[n].pipeline|
    requires e < |net.edges| && t.edgeEnds[e].0 == n
    requires FlowOk(t, f) && k in t.nodeIds && k != DstNode(t, f) && k != n
    ensures Seg(t, PipeOut(t, net, n, i, e), f, k) == Seg(t, net, f, k)
  {
    hide Topology.Ok, Filter, Dest, Packs, NodeOk, PortOk;
  }

  lemma PipeOutSegAt(t: Topology, net: Net, n: Node, i: nat, e: nat, f: Flow)
    requires t.Ok() && Shape(t, net) && n in t.nodeIds && i < |net.nodes[n].pipeline|
    requires FlowOk(t, f) && n != DstNode(t, f)
    requires Addressed(t, net.nodes[n].pipeline[i].pack) && net.nodes[n].pipeline[i].pack.tgt in t.nodeIds
    requires net.nodes[n].pipeline[i].pack.tgt != n && e == EdgeFor(t, n, net.nodes[n].pipeline[i].pack.tgt)
    requires AheadBlocked(t, net, n, i) && !Blocked(t, net, n, net.nodes[n].pipeline[i].pack)
    ensures Seg(t, PipeOut(t, net, n, i, e), f, n) == Seg(t, net, f, n)
  {
    hide Topology.Ok, Filter, Dest, AheadBlocked, Blocked, Packs, NodeOk, PortOk, EdgeOk, Slot, PipeOut, Addressed;
    var pl := net.nodes[n].pipeline;
    var p := pl[i].pack;
    FirstOfFlow(t, net, n, i, f);
    PipeOutSlots(t, net, n, i, e, f);
    var out := net.edges[EdgeFor(t, n, DstNode(t, f))].output[f.cha];
    SlotThenPipe(f, out, p, Filter(f, Packs(pl[..i] + pl[i + 1..])));
  }

  /** What a packet that leaves the pipeline changes for a flow: its own slot is taken, all others are as they were. */
  lemma PipeOutSlots(t: Topology, net: Net, n: Node, i: nat, e: nat, f: Flow)
    requires t.Ok() && Shape(t, net) && n in t.nodeIds && i < |net.nodes[n].pipeline|
    requires FlowOk(t, f) && n != DstNode(t, f)
    requires Addressed(t, net.nodes[n].pipeline[i].pack) && net.nodes[n].pipeline[i].pack.tgt in t.nodeIds
    requires net.nodes[n].pipeline[i].pack.tgt != n && e == EdgeFor(t, n, net.nodes[n].pipeline[i].pack.tgt)
    requires !Blocked(t, net, n, net.nodes[n].pipeline[i].pack)
    ensures var pl, net', ef := net.nodes[n].pipeline, PipeOut(t, net, n, i, e), EdgeFor(t, n, DstNode(t, f));
      var p := pl[i].pack;
      && ef < |net.edges| == |net'.edges| && |net'.edges[ef].input| == |net'.edges[ef].output| == t.Channels()
      && |net.edges[ef].input| == |net.edges[ef].output| == t.Channels()
      && n in net'.nodes && net'.nodes[n].pipeline == pl[..i] + pl[i + 1..]
      && net'.edges[ef].output[f.cha] == net.edges[ef].output[f.cha]
      && (if FlowOf(p) == f then net.edges[ef].input[f.cha] == None && net'.edges[ef].input[f.cha] == Some(p)
          else Slot(f, net'.edges[ef].input[f.cha]) == Slot(f, net.edges[ef].input[f.cha]))
  {
    hide Topology.Ok, NodeOk, PortOk, EdgeOk;
    EdgeSlots(t, net, EdgeFor(t, n, DstNode(t, f)));
    EdgeSlots(t, net, e);
  }

  /** A packet that can leave is the first of its flow in the pipeline. */
  lemma FirstOfFlow(t: Topology, net: Net, n: Node, i: nat, f: Flow)
    requires t.Ok() && Shape(t, net) && n in t.nodeIds && i < |net.nodes[n].pipeline|
    requires AheadBlocked(t, net, n, i) && !Blocked(t, net, n, net.nodes[n].pipeline[i].pack)
    ensures var pl := net.nodes[n].pipeline;
      Filter(f, Packs(pl)) ==
        (if FlowOf(pl[i].pack) == f then [pl[i].pack] else []) + Filter(f, Packs(pl[..i] + pl[i + 1..]))
  {
    hide Topology.Ok, Filter, AheadBlocked, Packs, EdgeOk, PortOk;
    var pl := net.nodes[n].pipeline;
    forall j | 0 <= j < i
      ensures FlowOf(pl[j].pack) != FlowOf(pl[i].pack)
    {
      AheadOtherFlows(t, net, n, i, j);
    }
    PipelineRemove(f, pl, i);
  }

  /** From the front of the pipeline into the empty slot before it. */
  lemma SlotThenPipe(f: Flow, out: Option<MsgPack>, p: MsgPack, rest: seq<MsgPack>)
    ensures Slot(f, out) + Slot(f, None) + ((if FlowOf(p) == f then [p] else []) + rest)
         == Slot(f, out) + Slot(f, Some(p)) + rest
  {
  }

  lemma PipeOutRouted(t: Topology, net: Net, n: Node, i: nat)
    requires t.Ok() && Shape(t, net) && Routed(t, net) && n in t.nodeIds && i < |net.nodes[n].pipeline|
    ensures var p := net.nodes[n].pipeline[i].pack;
      p.tgt in t.nodeIds && Routed(t, PipeOut(t, net, n, i, EdgeFor(t, n, p.tgt)))
  {
    hide Topology.Ok, OnPath, PortOk, NodeOk;
    var pl := net.nodes[n].pipeline;
    var p := pl[i].pack;
    assert Carried(t, p, n);
    var net' := PipeOut(t, net, n, i, EdgeFor(t, n, p.tgt));
    forall j | 0 <= j < |net'.nodes[n].pipeline|
      ensures Carried(t, net'.nodes[n].pipeline[j].pack, n)
    {
      assert net'.nodes[n].pipeline[j] == pl[if j < i then j else j + 1];
    }
    forall e, c | 0 <= e < |net.edges| && 0 <= c < t.Channels()
      ensures SlotRouted(t, e, c, net'.edges[e].input[c]) && SlotRouted(t, e, c, net'.edges[e].output[c])
    {
      assert SlotRouted(t, e, c, net.edges[e].input[c]) && SlotRouted(t, e, c, net.edges[e].output[c]);
    }
  }

  lemma PipeOutKeeps(t: Topology, net: Net, a: Abs, n: Node, i: nat)
    requires t.Ok() && Inv(t, net, a) && n in t.nodeIds && i < |net.nodes[n].pipeline|
    requires AheadBlocked(t, net, n, i) && !Blocked(t, net, n, net.nodes[n].pipeline[i].pack)
    ensures var p := net.nodes[n].pipeline[i].pack;
      p.tgt in t.nodeIds && Inv(t, PipeOut(t, net, n, i, EdgeFor(t, n, p.tgt)), a)
  {
    hide Topology.Ok, OnPath, DestInv, Flatten, Dest, Filter, InFlight, MsgsOk, EdgeFor, Blocked, AheadBlocked,
      NodeOk;
    PipeOutRouted(t, net, n, i);
    var net' := PipeOut(t, net, n, i, EdgeFor(t, n, net.nodes[n].pipeline[i].pack.tgt));
    SameDestKeeps(t, net, net', a);
    forall f | FlowOk(t, f)
      ensures InFlight(t, net', f) == InFlight(t, net, f)
    {
      forall k | k in t.nodeIds
        ensures Seg(t, net', f, k) == Seg(t, net, f, k)
      {
        if k != DstNode(t, f) {
          PipeOutSegs(t, net, n, i, f, k);
        }
      }
      SameSegs(t, net, net', f);
    }
    LinesKeptFlows(t, net, net', a, a);
  }

  // ---------------------------------------------------------------- a packet comes into a node

  lemma EnqueueSegs(t: Topology, net: Net, n: Node, p: MsgPack, f: Flow, k: Node)
    requires t.Ok() && Shape(t, net) && Addressed(t, p) && n in net.nodes && p.tgt != n
    requires FlowOk(t, f) && k in t.nodeIds
    ensures Seg(t, Enqueue(t, net, n, p), f, k) == Seg(t, net, f, k) + (if f == FlowOf(p) && k == n then [p] else [])
  {
    hide Topology.Ok, Filter, Partial;
    var net' := Enqueue(t, net, n, p);
    assert Dest(t, net', f) == Dest(t, net, f);
    if k == n && k != DstNode(t, f) {
      var pl := net.nodes[n].pipeline;
      assert Packs(net'.nodes[n].pipeline) == Packs(pl) + [p];
      FilterConcat(f, Packs(pl), [p]);
      FilterOne(f, p);
      var e := net.edges[EdgeFor(t, n, DstNode(t, f))];
      Assoc(Slot(f, e.output[f.cha]) + Slot(f, e.input[f.cha]), Filter(f, Packs(pl)), Filter(f, [p]));
    }
  }

  lemma FilterOne(f: Flow, p: MsgPack)
    ensures Filter(f, [p]) == if FlowOf(p) == f then [p] else []
  {
    assert [p][1..] == [];
  }

  lemma DeliverSegs(t: Topology, net: Net, n: Node, p: MsgPack, f: Flow, k: Node)
    requires t.Ok() && Shape(t, net) && Addressed(t, p) && n in net.nodes && p.tgt == n
    requires DestGains(t, net, Deliver(t, net, n, p), p)
    requires FlowOk(t, f) && k in t.nodeIds
    ensures Seg(t, Deliver(t, net, n, p), f, k) == Seg(t, net, f, k) + (if f == FlowOf(p) && k == n then [p] else [])
  {
    hide Topology.Ok, Filter, Dest, DeliverAt;
  }

  lemma TakeOutputSegs(t: Topology, net: Net, e: nat, c: Channel, f: Flow, k: Node)
    requires t.Ok() && Shape(t, net) && e < |net.edges| && c < t.Channels() && net.edges[e].output[c].Some?
    requires SlotRouted(t, e, c, net.edges[e].output[c])
    requires FlowOk(t, f) && k in t.nodeIds
    ensures var p := net.edges[e].output[c].value;
      Seg(t, net, f, k) ==
        (if f == FlowOf(p) && k == t.edgeEnds[e].0 then [p] else []) + Seg(t, TakeOutput(t, net, e, c), f, k)
  {
    hide Topology.Ok, Filter, Partial, OnPath, PortOk, NodeOk, EdgeFor;
    var net' := TakeOutput(t, net, e, c);
    assert Dest(t, net', f) == Dest(t, net, f);
  }

  lemma TakeSendSegs(t: Topology, net: Net, port: Port, c: Channel, f: Flow, k: Node)
    requires t.Ok() && Shape(t, net) && port in net.ports && c < t.Channels() && net.ports[port].sendBuf[c] != []
    requires FlowOk(t, f) && k in t.nodeIds
    ensures Seg(t, TakeSend(t, net, port, c), f, k) == Seg(t, net, f, k)
  {
    hide Topology.Ok, Filter, Partial;
    var net' := TakeSend(t, net, port, c);
    assert Dest(t, net', f) == Dest(t, net, f);
  }

  lemma TakeSendUnsent(t: Topology, net: Net, port: Port, c: Channel, p: MsgPack, f: Flow)
    requires Shape(t, net)
    requires port in net.ports && c < t.Channels() && net.ports[port].sendBuf[c] != []
    requires p == net.ports[port].sendBuf[c][0] && p.src == port && p.cha == c
    requires FlowOk(t, f)
    ensures Unsent(net, f) == (if f == FlowOf(p) then [p] else []) + Unsent(TakeSend(t, net, port, c), f)
  {
    hide EdgeOk, NodeOk;
    var net' := TakeSend(t, net, port, c);
    if f.src == port && f.cha == c {
      var l := net.ports[port].sendBuf[c];
      assert net'.ports[port].sendBuf[c] == l[1..];
      assert Filter(f, l) == (if f == FlowOf(p) then [p] else []) + Filter(f, l[1..]);
    } else {
      assert net'.ports[f.src].sendBuf[f.cha] == net.ports[f.src].sendBuf[f.cha];
    }
  }

  /** Node `n` gains the packet at the back of its share; nothing else changes. */
  ghost predicate NodeGains(t: Topology, net: Net, net': Net, n: Node, p: MsgPack)
    requires t.Ok() && Shape(t, net) && Shape(t, net')
  {
    && (forall f :: FlowOk(t, f) ==> Unsent(net', f) == Unsent(net, f))
    && (forall f, k :: FlowOk(t, f) && k in t.nodeIds ==>
          Seg(t, net', f, k) == Seg(t, net, f, k) + (if f == FlowOf(p) && k == n then [p] else []))
  }

  lemma DeliverRouted(t: Topology, net: Net, p: MsgPack)
    requires t.Ok() && Shape(t, net) && Routed(t, net) && Addressed(t, p) && p.tgt in net.nodes
    ensures Routed(t, Deliver(t, net, p.tgt, p))
    ensures forall f :: FlowOk(t, f) ==> Unsent(Deliver(t, net, p.tgt, p), f) == Unsent(net, f)
  {
    hide Topology.Ok, SlotRouted, Carried, Filter, DeliverAt;
  }

  lemma EnqueueRouted(t: Topology, net: Net, n: Node, p: MsgPack)
    requires t.Ok() && Shape(t, net) && Routed(t, net) && Addressed(t, p) && n in net.nodes && Carried(t, p, n)
    ensures Routed(t, Enqueue(t, net, n, p))
    ensures forall f :: FlowOk(t, f) ==> Unsent(Enqueue(t, net, n, p), f) == Unsent(net, f)
  {
    hide Topology.Ok, SlotRouted, OnPath, Filter;
    var net' := Enqueue(t, net, n, p);
    forall i | 0 <= i < |net'.nodes[n].pipeline|
      ensures Carried(t, net'.nodes[n].pipeline[i].pack, n)
    {
    }
  }

  /** The packet arrives at node `n`, in the pipeline or, at its target, among what was delivered. */
  lemma ArriveKeeps(t: Topology, net: Net, a: Abs, n: Node, p: MsgPack) returns (a': Abs)
    requires t.Ok() && Shape(t, net) && Routed(t, net) && DestInv(t, net, a) && Addressed(t, p) && n in net.nodes
    requires p.tgt == n ==> Dest(t, net, FlowOf(p)) + [p] <= Flatten(t, a.Queue(FlowOf(p)))
    requires p.tgt != n ==> Carried(t, p, n)
    ensures a'.queues == a.queues && DestInv(t, Arrive(t, net, n, p), a')
    ensures Routed(t, Arrive(t, net, n, p)) && NodeGains(t, net, Arrive(t, net, n, p), n, p)
  {
    hide Topology.Ok, OnPath, DestInv, Flatten, Dest, Filter, MsgsOk, DestGains, Seg, DeliverAt, Routed, Unsent,
      Deliver, Shape;
    var net' := Arrive(t, net, n, p);
    if p.tgt == n {
      a' := DeliverKeeps(t, net, a, p);
      DeliverRouted(t, net, p);
      forall f, k | FlowOk(t, f) && k in t.nodeIds
        ensures Seg(t, net', f, k) == Seg(t, net, f, k) + (if f == FlowOf(p) && k == n then [p] else [])
      {
        DeliverSegs(t, net, n, p, f, k);
      }
    } else {
      a' := a;
      SameDestKeeps(t, net, net', a);
      EnqueueRouted(t, net, n, p);
      forall f, k | FlowOk(t, f) && k in t.nodeIds
        ensures Seg(t, net', f, k) == Seg(t, net, f, k) + (if f == FlowOf(p) && k == n then [p] else [])
      {
        EnqueueSegs(t, net, n, p, f, k);
      }
    }
  }

  lemma CarriedOn(t: Topology, p: MsgPack, n: Node)
    requires t.Ok() && Carried(t, p, n) && Hop(t, n, p.tgt) != p.tgt
    ensures Carried(t, p, Hop(t, n, p.tgt))
  {
    hide Topology.Ok;
    OnPathStep(t, t.portToNode[p.src], p.tgt, n);
  }

  lemma TakeOutputRouted(t: Topology, net: Net, e: nat, c: Channel)
    requires t.Ok() && Shape(t, net) && Routed(t, net) && e < |net.edges| && c < t.Channels()
    ensures Routed(t, TakeOutput(t, net, e, c))
  {
    hide Topology.Ok, Carried, EdgeFor;
    var net' := TakeOutput(t, net, e, c);
    forall e', c' | 0 <= e' < |net.edges| && 0 <= c' < t.Channels()
      ensures SlotRouted(t, e', c', net'.edges[e'].input[c']) && SlotRouted(t, e', c', net'.edges[e'].output[c'])
    {
      assert SlotRouted(t, e', c', net.edges[e'].input[c']) && SlotRouted(t, e', c', net.edges[e'].output[c']);
    }
  }

  lemma TakeSendRouted(t: Topology, net: Net, port: Port, c: Channel)
    requires t.Ok() && Shape(t, net) && Routed(t, net)
    requires port in net.ports && c < t.Channels() && net.ports[port].sendBuf[c] != []
    ensures Routed(t, TakeSend(t, net, port, c))
  {
    hide Topology.Ok, Carried, SlotRouted;
  }

  lemma TakeEdgeLines(t: Topology, net: Net, net': Net, e: nat, c: Channel, f: Flow)
    requires t.Ok() && Shape(t, net) && Shape(t, net') && e < |net.edges| && c < t.Channels()
    requires net.edges[e].output[c].Some? && SlotRouted(t, e, c, net.edges[e].output[c])
    requires NodeGains(t, TakeOutput(t, net, e, c), net', t.edgeEnds[e].1, net.edges[e].output[c].value)
    requires FlowOk(t, f)
    ensures InFlight(t, net', f) == InFlight(t, net, f)
  {
    hide Topology.Ok, OnPath, Dest, Filter, Seg, Unsent, InFlight;
    var p, at, n := net.edges[e].output[c].value, t.edgeEnds[e].0, t.edgeEnds[e].1;
    var net1 := TakeOutput(t, net, e, c);
    assert n == Hop(t, at, p.tgt) != at;
    forall k | k in t.nodeIds
      ensures Seg(t, net, f, k) == (if f == FlowOf(p) && k == at then [p] else []) + Seg(t, net1, f, k)
    {
      TakeOutputSegs(t, net, e, c, f, k);
    }
    SameUnsent(t, net, net1, f);
    if f == FlowOf(p) {
      SegShift(t, net, net', p, at);
    } else {
      SameSegs(t, net, net', f);
    }
  }

  /** A packet comes off an edge. */
  lemma TakeEdgeKeeps(t: Topology, net: Net, a: Abs, e: nat, c: Channel) returns (a': Abs)
    requires t.Ok() && Inv(t, net, a) && e < |net.edges| && c < t.Channels() && net.edges[e].output[c].Some?
    ensures t.edgeEnds[e].1 in t.nodeIds && Addressed(t, net.edges[e].output[c].value)
    ensures a'.queues == a.queues
    ensures Inv(t, Arrive(t, TakeOutput(t, net, e, c), t.edgeEnds[e].1, net.edges[e].output[c].value), a')
  {
    hide Topology.Ok, OnPath, DestInv, Flatten, Dest, Filter, MsgsOk, Seg, Routed, Unsent, Arrive, InFlight, NodeGains;
    var p, at, n := net.edges[e].output[c].value, t.edgeEnds[e].0, t.edgeEnds[e].1;
    SlotIsRouted(t, net, e, c);
    var net1 := TakeOutput(t, net, e, c);
    TakeOutputRouted(t, net, e, c);
    SameDestKeeps(t, net, net1, a);
    if p.tgt == n {
      NextFromEdge(t, net, a, e, c);
    } else {
      CarriedOn(t, p, at);
    }
    a' := ArriveKeeps(t, net1, a, n, p);
    var net' := Arrive(t, net1, n, p);
    forall f | FlowOk(t, f)
      ensures InFlight(t, net', f) == InFlight(t, net, f)
    {
      TakeEdgeLines(t, net, net', e, c, f);
    }
    LinesKeptFlows(t, net, net', a, a');
  }

  lemma SlotIsRouted(t: Topology, net: Net, e: nat, c: Channel)
    requires t.Ok() && Shape(t, net) && Routed(t, net) && e < |net.edges| && c < t.Channels()
    ensures SlotRouted(t, e, c, net.edges[e].output[c])
  {
  }

  lemma SameUnsent(t: Topology, net: Net, net': Net, f: Flow)
    requires t.Ok() && Shape(t, net) && Shape(t, net') && FlowOk(t, f) && net.ports == net'.ports
    ensures Unsent(net', f) == Unsent(net, f)
  {
  }

  /** A packet comes out of a send buffer of this node. */
  lemma TakeSendKeeps(t: Topology, net: Net, a: Abs, port: Port, c: Channel) returns (a': Abs)
    requires t.Ok() && Inv(t, net, a) && port in net.ports && c < t.Channels() && net.ports[port].sendBuf[c] != []
    ensures t.portToNode[port] in t.nodeIds && Addressed(t, net.ports[port].sendBuf[c][0])
    ensures a'.queues == a.queues
    ensures Inv(t, Arrive(t, TakeSend(t, net, port, c), t.portToNode[port], net.ports[port].sendBuf[c][0]), a')
  {
    hide Topology.Ok, DestInv, Flatten, Dest, Filter, MsgsOk, Seg, Unsent, Arrive, InFlight, EdgesRouted, PipesRouted;
    var p := net.ports[port].sendBuf[c][0];
    assert p.src == port && p.cha == c;
    var n := SrcNode(t, FlowOf(p));
    var net1 := TakeSend(t, net, port, c);
    TakeSendRouted(t, net, port, c);
    SameDestKeeps(t, net, net1, a);
    if p.tgt == n {
      NextFromSend(t, net, a, port, c);
    } else {
      assert p.tgt == DstNode(t, FlowOf(p));
      assert Carried(t, p, n);
    }
    a' := ArriveKeeps(t, net1, a, n, p);
    var net' := Arrive(t, net1, n, p);
    forall f | FlowOk(t, f)
      ensures InFlight(t, net', f) == InFlight(t, net, f)
    {
      TakeSendUnsent(t, net, port, c, p, f);
      forall k | k in t.nodeIds
        ensures Seg(t, net1, f, k) == Seg(t, net, f, k)
      {
        TakeSendSegs(t, net, port, c, f, k);
      }
      if f == FlowOf(p) {
        SegEnter(t, net, net', p);
      } else {
        SameSegs(t, net, net', f);
      }
    }
    LinesKeptFlows(t, net, net', a, a');
  }
}

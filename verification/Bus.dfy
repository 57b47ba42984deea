/** The bus itself: the class whose methods change the buffers in place (src/bus/symmulcha.cpp). Each
    method is proved against the functions of `BusModel.dfy`, and keeps the invariant of `BusInvariant.dfy`. */
module Bus {
  import opened Arithmetic
  import opened Wrappers
  import opened RouteTable
  import opened BusModel
  import opened BusPaths
  import opened BusDelivery
  import opened BusInvariant
  import opened BusOps
  import opened BusRecv
  import opened BusMeasure
  import opened BusDraining
  import opened BusRuns
  import opened BusTicks
  import opened BusNodes

  class SymmetricMultiChannelBus {
    const t: Topology
    var nodes: map<Node, NodeStruct>
    var ports: map<Port, PortStruct>
    var edges: seq<EdgeInChannel>
    var xmtidAlloc: XmitId
    /** The messages in flight. */
    ghost var abs: Abs

    function State(): Net
      reads this
    {
      Net(nodes, ports, edges, xmtidAlloc)
    }

    ghost predicate Shaped()
      reads this
    {
      t.Ok() && Shape(t, State())
    }

    ghost predicate Valid()
      reads this
    {
      t.Ok() && Inv(t, State(), abs)
    }

    /** Allocates every buffer empty and puts every pointer at its beginning. */
    constructor (t: Topology)
      requires t.Ok()
      ensures this.t == t && Valid() && Fresh(t, State()) && abs == NOTHING && xmtidAlloc == 0
    {
      hide Topology.Ok, Inv, Addressed;
      this.t := t;
      var lists := seq(t.Channels(), _ => []);
      var slots := seq(t.Channels(), _ => None);
      nodes := map n | n in t.nodeIds :: NodeStruct(0, 0, [], map[]);
      ports := map p | p in t.portToNode :: PortStruct(lists, lists);
      edges := seq(|t.edgeEnds|, _ => EdgeInChannel(slots, slots));
      xmtidAlloc := 0;
      abs := NOTHING;
      new;
      FreshInv(t, State());
    }

    // -------------------------------------------------------------- process_node

    /** The scan of the incoming edges: the first full output slot from rx_ptr on is emptied. */
    method TakeFromEdges(n: Node) returns (recv: Option<MsgPack>)
      requires Shaped() && n in t.nodeIds
      modifies this`nodes, this`edges
      ensures Shaped()
      ensures (recv, State()) == FromEdges(t, old(State()), n)
    {
      hide Topology.Ok, NodeOk, EdgeOk, PortOk, FirstFull, NextPlace, RingScan, RxReady, FromEdges;
      ghost var net := State();
      NodeIndices(t, net, n);
      ghost var ready := RxReady(t, net, n);
      recv := None;
      var i := 0;
      while i < |t.rxs[n]|
        invariant i <= |t.rxs[n]| && Shaped()
        invariant n in nodes && (nodes[n].rxPtr < |t.rxs[n]| || nodes[n].rxPtr == 0)
        invariant State() == SetPtrs(t, net, n, nodes[n].rxPtr, net.nodes[n].sdPtr)
        invariant RingScan(ready, net.nodes[n].rxPtr, |t.rxs[n]|) == RingScan(ready, nodes[n].rxPtr, |t.rxs[n]| - i)
      {
        ghost var rx := nodes[n].rxPtr;
        NextPlaceIs(rx, |t.rxs[n]|);
        ScanOne(ready, rx, |t.rxs[n]| - i);
        var e := t.rxs[n][nodes[n].rxPtr];
        var c := FindOutput(e);
        RxReadyAt(t, net, n, rx);
        if c < t.Channels() {
          recv := edges[e].output[c];
          edges := edges[e := edges[e].(output := edges[e].output[c := None])];
          EdgesHit(t, net, n, rx);
          return;
        }
        nodes := nodes[n := nodes[n].(rxPtr := NextPlace(nodes[n].rxPtr, |t.rxs[n]|))];
        assert State() == SetPtrs(t, net, n, nodes[n].rxPtr, net.nodes[n].sdPtr);
        i := i + 1;
      }
      EdgesMiss(t, net, n, nodes[n].rxPtr);
    }

    /** The inner loop over the channels of one edge. */
    method FindOutput(e: nat) returns (c: nat)
      requires Shaped() && e < |edges|
      ensures c == FirstFull(edges[e].output)
    {
      hide Topology.Ok;
      c := 0;
      while c < t.Channels() && edges[e].output[c].None?
        invariant c <= t.Channels() == |edges[e].output|
        invariant FirstFull(edges[e].output) == c + FirstFull(edges[e].output[c..])
      {
        c := c + 1;
      }
    }

    /** The scan of this node's ports: the first packet of the first send buffer that has one, from
        sd_ptr on, is taken. */
    method TakeFromPorts(n: Node) returns (recv: Option<MsgPack>)
      requires Shaped() && n in t.nodeIds
      modifies this`nodes, this`ports
      ensures Shaped()
      ensures (recv, State()) == FromPorts(t, old(State()), n)
    {
      hide Topology.Ok, NodeOk, EdgeOk, PortOk, FirstNonEmpty, NextPlace, RingScan, SdReady, FromPorts;
      ghost var net := State();
      NodeIndices(t, net, n);
      ghost var ready := SdReady(t, net, n);
      recv := None;
      var i := 0;
      while i < |t.nodePorts[n]|
        invariant i <= |t.nodePorts[n]| && Shaped()
        invariant n in nodes && (nodes[n].sdPtr < |t.nodePorts[n]| || nodes[n].sdPtr == 0)
        invariant State() == SetPtrs(t, net, n, net.nodes[n].rxPtr, nodes[n].sdPtr)
        invariant RingScan(ready, net.nodes[n].sdPtr, |t.nodePorts[n]|)
               == RingScan(ready, nodes[n].sdPtr, |t.nodePorts[n]| - i)
      {
        ghost var sd := nodes[n].sdPtr;
        NextPlaceIs(sd, |t.nodePorts[n]|);
        ScanOne(ready, sd, |t.nodePorts[n]| - i);
        var p := t.nodePorts[n][nodes[n].sdPtr];
        var c := FindSend(p);
        SdReadyAt(t, net, n, sd);
        if c < t.Channels() {
          recv := Some(ports[p].sendBuf[c][0]);
          ports := ports[p := ports[p].(sendBuf := ports[p].sendBuf[c := ports[p].sendBuf[c][1..]])];
          PortsHit(t, net, n, sd);
          return;
        }
        nodes := nodes[n := nodes[n].(sdPtr := NextPlace(nodes[n].sdPtr, |t.nodePorts[n]|))];
        assert State() == SetPtrs(t, net, n, net.nodes[n].rxPtr, nodes[n].sdPtr);
        i := i + 1;
      }
      PortsMiss(t, net, n, nodes[n].sdPtr);
    }

    /** The inner loop over the send buffers of one port. */
    method FindSend(p: Port) returns (c: nat)
      requires Shaped() && p in ports
      ensures c == FirstNonEmpty(ports[p].sendBuf)
    {
      hide Topology.Ok;
      c := 0;
      while c < t.Channels() && ports[p].sendBuf[c] == []
        invariant c <= t.Channels() == |ports[p].sendBuf|
        invariant FirstNonEmpty(ports[p].sendBuf) == c + FirstNonEmpty(ports[p].sendBuf[c..])
      {
        c := c + 1;
      }
    }

    /** What the node does with the packet it took: towards the receive buffer, through the order buffer
        if its message has several packets, or into the pipeline. */
    method Receive(n: Node, p: MsgPack)
      requires Shaped() && n in t.nodeIds && Addressed(t, p)
      modifies this`nodes, this`ports
      ensures Shaped() && n in old(nodes) && State() == Arrive(t, old(State()), n, p)
    {
      hide Topology.Ok, NodeOk, EdgeOk, PortOk;
      ghost var net := State();
      NodeIndices(t, net, n);
      RecvPlace(t, net, p);
      if p.tgt == n {
        DeliverCases(t, net, n, p);
        var rb := ports[p.dst].recvBuf[p.cha];
        if p.cnt <= 1 {
          ports := ports[p.dst := ports[p.dst].(recvBuf := ports[p.dst].recvBuf[p.cha := rb + [p]])];
        } else {
          var l := if p.xmtid in nodes[n].orderBuf then nodes[n].orderBuf[p.xmtid] else [];
          l := InsertSorted(l, p);
          if |l| == p.cnt {
            ports := ports[p.dst := ports[p.dst].(recvBuf := ports[p.dst].recvBuf[p.cha := rb + l])];
            nodes := nodes[n := nodes[n].(orderBuf := nodes[n].orderBuf - {p.xmtid})];
          } else {
            nodes := nodes[n := nodes[n].(orderBuf := nodes[n].orderBuf[p.xmtid := l])];
          }
        }
        assert State() == Deliver(t, net, n, p);
      } else {
        nodes := nodes[n := nodes[n].(pipeline := nodes[n].pipeline + [PipelinedPack(p, t.routeLatency)])];
        assert State() == Enqueue(t, net, n, p);
      }
    }

    /** Walks past the packets with smaller indices and puts the packet there. */
    static method InsertSorted(l: seq<MsgPack>, p: MsgPack) returns (r: seq<MsgPack>)
      ensures r == InsertByIdx(l, p)
    {
      var k := 0;
      while k < |l| && l[k].idx < p.idx
        invariant k <= |l|
        invariant forall i :: 0 <= i < k ==> l[i].idx < p.idx
      {
        k := k + 1;
      }
      InsertAt(l, p, k);
      r := l[..k] + [p] + l[k..];
    }

    /** The pipeline scan. An entry with latency left is visited again until the latency is used up. */
    method ScanPipeline(n: Node)
      requires Shaped() && n in t.nodeIds
      modifies this`nodes, this`edges
      ensures Shaped() && State() == PipeScan(t, old(State()), n, 0)
    {
      hide Topology.Ok, NodeOk, EdgeOk, PortOk, PipeScan;
      ghost var net := State();
      NodeIndices(t, net, n);
      var i := 0;
      while i < |nodes[n].pipeline|
        invariant Shaped() && n in nodes && i <= |nodes[n].pipeline|
        invariant PipeScan(t, net, n, 0) == PipeScan(t, State(), n, i)
        decreases |nodes[n].pipeline| - i, if i < |nodes[n].pipeline| then nodes[n].pipeline[i].cycleRemained else 0
      {
        ghost var before := State();
        var entry := nodes[n].pipeline[i];
        EntryPlace(t, before, n, i);
        ScanEntry(t, before, n, i);
        if entry.cycleRemained > 1 {
          nodes := nodes[n := nodes[n].(pipeline :=
            nodes[n].pipeline[i := PipelinedPack(entry.pack, entry.cycleRemained - 1)])];
          ScanForgetsLatency(t, before, n, i, entry.cycleRemained - 1);
          assert State() == WithLatency(t, before, n, i, entry.cycleRemained - 1);
          continue;
        }
        var p := entry.pack;
        var e := t.txs[(n, t.route[n][p.tgt])];
        if edges[e].input[p.cha].None? {
          edges := edges[e := edges[e].(input := edges[e].input[p.cha := Some(p)])];
          nodes := nodes[n := nodes[n].(pipeline := nodes[n].pipeline[..i] + nodes[n].pipeline[i + 1..])];
          assert State() == PipeOut(t, before, n, i, e);
        } else {
          nodes := nodes[n := nodes[n].(pipeline := nodes[n].pipeline[i := PipelinedPack(p, 0)])];
          assert State() == Stay(t, before, n, i);
          i := i + 1;
        }
      }
      ScanEnd(t, State(), n);
    }

    /** The first half of process_node. */
    method TakeOne(n: Node)
      requires Shaped() && n in t.nodeIds
      modifies this`nodes, this`ports, this`edges
      ensures Shaped() && State() == Accept(t, old(State()), n)
    {
      hide Topology.Ok, Shape, Arrive, Accept, FromEdges, FromPorts;
      AcceptHand(t, State(), n);
      var recv := TakeFromEdges(n);
      if recv == None {
        recv := TakeFromPorts(n);
      }
      if recv.Some? {
        Receive(n, recv.value);
      }
    }

    /** process_node: at most one packet in, then the pipeline. */
    method ProcessNode(n: Node)
      requires Shaped() && n in t.nodeIds
      modifies this`nodes, this`ports, this`edges, this`abs
      ensures Shaped() && State() == NodeStep(t, old(State()), n)
      ensures old(Valid()) ==> Valid() && abs.queues == old(abs.queues)
    {
      hide Topology.Ok, Shape, Routed, DestInv, FlowsOk, Accept, PipeScan;
      if Valid() {
        abs := NodeStepKeeps(t, State(), abs, n);
      }
      TakeOne(n);
      ScanPipeline(n);
    }

    // -------------------------------------------------------------- process_edge

    /** process_edge: channel by channel, until the width of the wire is used up. */
    method ProcessEdge(e: nat)
      requires Shaped() && e < |edges|
      modifies this`edges
      ensures Shaped() && State() == EdgeStep(t, old(State()), e, 0, 0)
      ensures |edges| == |old(edges)| && edges == old(edges)[e := edges[e]] && Wire(old(edges)[e], edges[e], t.width)
      ensures old(Valid()) ==> Valid()
    {
      hide Topology.Ok, Routed, DestInv, FlowsOk, NodeOk, PortOk, Wire;
      EdgeExactly(t, State(), e);
      if Valid() {
        EdgeStepKeeps(t, State(), abs, e, 0, 0);
      }
      ghost var net := State();
      var totalSz: nat := 0;
      var c: nat := 0;
      while c < t.Channels() && totalSz < t.width
        invariant c <= t.Channels() && e < |edges| && Shaped()
        invariant EdgeStep(t, net, e, 0, 0) == EdgeStep(t, State(), e, c, totalSz)
      {
        ghost var before := State();
        if edges[e].input[c].Some? && edges[e].output[c].None? {
          totalSz := totalSz + |edges[e].input[c].value.data|;
          edges := edges[e := EdgeInChannel(edges[e].input[c := None], edges[e].output[c := edges[e].input[c]])];
          assert State() == EdgeMove(t, before, e, c);
        }
        c := c + 1;
      }
    }

    /** apply_next_tick: every node, then every edge. */
    method ApplyNextTick()
      requires Shaped()
      modifies this`nodes, this`ports, this`edges, this`abs
      ensures Shaped() && State() == Tick(t, old(State())) && TickDone(t, old(State()), State())
      ensures old(Routed(t, State()) && !Drained(t, State())) ==> Measure(t, State()) < old(Measure(t, State()))
      ensures old(Valid()) ==> Valid() && abs.queues == old(abs.queues)
    {
      hide Topology.Ok, EdgeOk, PortOk, NodeOk, Routed, DestInv, FlowsOk, NodeStep, EdgeStep, Measure, Drained,
        TickDone;
      ghost var net, a, kept := State(), abs, Valid();
      TickExactly(t, net);
      if Routed(t, net) && !Drained(t, net) {
        TickProgress(t, net);
      }
      var i := 0;
      while i < |t.nodeIds|
        invariant i <= |t.nodeIds| && Shaped() && (kept ==> Valid() && abs.queues == a.queues)
        invariant TickNodes(t, net, 0) == TickNodes(t, State(), i)
      {
        ProcessNode(t.nodeIds[i]);
        i := i + 1;
      }
      ghost var mid := State();
      var e := 0;
      while e < |edges|
        invariant e <= |edges| && Shaped() && (kept ==> Valid() && abs.queues == a.queues)
        invariant TickEdges(t, mid, 0) == TickEdges(t, State(), e)
      {
        ProcessEdge(e);
        e := e + 1;
      }
    }

    // -------------------------------------------------------------- the ports

    method PortCanSend(p: Port, c: Channel) returns (can: bool)
      requires Shaped() && p in ports && c < t.Channels()
      ensures (can <==> ports[p].sendBuf[c] == []) && can == CanSend(State(), p, c)
    {
      hide Topology.Ok;
      can := ports[p].sendBuf[c] == [];
    }

    /** send: refused while the last message of this port and channel has not left the send buffer. */
    method PortSend(src: Port, dst: Port, cha: Channel, data: seq<Byte>) returns (sent: bool)
      requires Shaped() && src in ports && dst in ports && cha < t.Channels()
      modifies this`ports, this`xmtidAlloc, this`abs
      ensures Shaped()
      ensures (sent <==> old(ports[src].sendBuf[cha]) == []) && sent == old(CanSend(State(), src, cha))
      ensures !sent ==> State() == old(State()) && abs == old(abs)
      ensures sent ==> State() == Send(t, old(State()), src, dst, cha, data)
      ensures sent && old(Valid() && Deliverable(t, State(), Flow(src, dst, cha), data)) ==>
        Valid() && abs == AfterSend(t, old(State()), old(abs), Flow(src, dst, cha), data)
    {
      hide Topology.Ok, Routed, DestInv, FlowsOk, IdFree, FreshFor, Several, Fits, Packetize, PacketCount, MakePack;
      ghost var net, a, f := State(), abs, Flow(src, dst, cha);
      WidthPositive(t, cha);
      if ports[src].sendBuf[cha] != [] {
        return false;
      }
      if Valid() && Deliverable(t, net, f, data) {
        IdFreeIsFresh(t, net, a, Msg(f, net.xmtidAlloc, data));
        SendKeeps(t, net, a, f, data);
      }
      abs := AfterSend(t, net, a, f, data);
      var xmt := xmtidAlloc;
      xmtidAlloc := (xmtidAlloc + 1) % TWO_TO_32;
      PushPackets(src, dst, cha, xmt, data);
      return true;
    }

    /** The loop of send: packet by packet into the empty send buffer. */
    method PushPackets(src: Port, dst: Port, cha: Channel, xmt: XmitId, data: seq<Byte>)
      requires Shaped() && src in t.portToNode && dst in t.portToNode && src in ports && cha < t.Channels()
      requires t.chaWidths[cha] > 0 && ports[src].sendBuf[cha] == []
      modifies this`ports
      ensures Shaped() && State() ==
        SetPort(old(State()), src, WithSend(old(ports[src]), cha, Packetize(t, src, dst, cha, xmt, data)))
    {
      hide Topology.Ok, NodeOk, EdgeOk, Packetize, PacketCount, MakePack, PipelineOk;
      ghost var net := State();
      var pacCnt := PacketCount(|data|, t.chaWidths[cha]);
      var i := 0;
      ghost var packs := Packetize(t, src, dst, cha, xmt, data);
      NoSend(net, src, cha);
      assert packs[..0] == [];
      while i < pacCnt
        invariant i <= pacCnt == |packs| && Shape(t, State()) && src in ports
        invariant State() == SetPort(net, src, WithSend(net.ports[src], cha, packs[..i]))
      {
        var pack := MakePack(t, src, dst, cha, xmt, data, i);
        PackAt(t, src, dst, cha, xmt, data, i);
        SendTwice(net, src, cha, packs[..i], packs[..i] + [pack]);
        ports := ports[src := ports[src].(sendBuf := ports[src].sendBuf[cha := ports[src].sendBuf[cha] + [pack]])];
        assert packs[..i + 1] == packs[..i] + [pack];
        i := i + 1;
      }
      assert packs[..i] == packs;
    }

    method PortCanRecv(p: Port, c: Channel) returns (can: bool)
      requires Shaped() && p in ports && c < t.Channels()
      ensures can <==> ports[p].recvBuf[c] != [] && |ports[p].recvBuf[c]| >= ports[p].recvBuf[c][0].cnt
      ensures can == CanRecv(State(), p, c)
      ensures Valid() ==> (can <==> abs.Ready(p, c) != [])
    {
      hide Topology.Ok, Routed, DestInv, FlowsOk;
      if Valid() {
        HeadMessage(t, State(), abs, p, c);
      }
      var rb := ports[p].recvBuf[c];
      can := rb != [] && |rb| >= rb[0].cnt;
    }

    /** recv: the oldest message complete in this buffer, whatever the caller's buffer held before. The
        program's check of the packet order is the first assertion in the loop. */
    method PortRecv(p: Port, c: Channel, buf: seq<Byte>) returns (received: bool, out: seq<Byte>)
      requires Shaped() && p in ports && c < t.Channels() && HeadFits(t, State(), p, c)
      modifies this`ports, this`abs
      ensures Shaped()
      ensures received == old(CanRecv(State(), p, c))
      ensures !received ==> State() == old(State()) && abs == old(abs) && out == buf
      ensures received ==> HandsOut(t, old(State()), State(), p, c, buf, out)
      ensures old(Valid()) ==> Valid() && (received ==> TakesOldest(old(abs), abs, p, c, out))
    {
      hide Topology.Ok, Shape, Inv, CeilDiv, JoinData, Resize, Overwrite, Recv, RecvData, HeadFits, Popped, SetPort,
        WithRecv, JoinInto;
      ghost var net, a := State(), abs;
      RecvBuffer(t, net, p, c);
      var rb := ports[p].recvBuf[c];
      if rb == [] || |rb| < rb[0].cnt {
        return false, buf;
      }
      WidthPositive(t, c);
      if Valid() {
        RecvGives(t, net, a, p, c, buf);
        abs := Popped(a, p, c);
      }
      var cwid := t.chaWidths[c];
      var len, pacCnt := rb[0].len, rb[0].cnt;
      out := Resize(buf, Align(len, cwid));
      HeadNeeds(t, net, p, c, buf);
      out := PopPackets(p, c, pacCnt, cwid, out);
      out := Resize(out, len);
      received := true;
    }

    /** The loop of recv: packet by packet off the front of the buffer and into the bytes. */
    method PopPackets(p: Port, c: Channel, pacCnt: nat, cwid: nat, buf: seq<Byte>) returns (out: seq<Byte>)
      requires Shaped() && p in ports && c < t.Channels()
      requires pacCnt <= |ports[p].recvBuf[c]| && pacCnt * cwid <= |buf|
      requires forall i :: 0 <= i < pacCnt ==>
        ports[p].recvBuf[c][i].idx == i && |ports[p].recvBuf[c][i].data| == cwid
      modifies this`ports
      ensures out == Overwrite(buf, JoinData(old(ports[p].recvBuf[c])[..pacCnt]))
      ensures Shaped() && State() ==
        SetPort(old(State()), p, WithRecv(old(ports[p]), c, old(ports[p].recvBuf[c])[pacCnt..]))
    {
      hide Topology.Ok, NodeOk, EdgeOk, ListOk, JoinData, Addressed;
      ghost var net := State();
      var rb := ports[p].recvBuf[c];
      NoRecv(net, p, c);
      out := buf;
      var i := 0;
      assert rb[0..] == rb;
      NothingJoined(rb);
      while i < pacCnt
        invariant i <= pacCnt && p in ports && Shape(t, State())
        invariant State() == SetPort(net, p, WithRecv(net.ports[p], c, rb[i..]))
        invariant i * cwid <= |out| == |buf| && out[..i * cwid] == JoinData(rb[..i])
        invariant out[i * cwid..] == buf[i * cwid..]
      {
        var pack := ports[p].recvBuf[c][0];
        assert pack == rb[i];
        assert i == pack.idx;
        CopyPack(out, rb, i, cwid, pacCnt);
        out := out[..i * cwid] + pack.data + out[(i + 1) * cwid..];
        assert out[..(i + 1) * cwid] == JoinData(rb[..i + 1]);
        assert out[(i + 1) * cwid..] == buf[(i + 1) * cwid..];
        RecvTwice(net, p, c, rb[i..], rb[i + 1..]);
        assert rb[i..][1..] == rb[i + 1..];
        ports := ports[p := ports[p].(recvBuf := ports[p].recvBuf[c := ports[p].recvBuf[c][1..]])];
        i := i + 1;
        assert State() == SetPort(net, p, WithRecv(net.ports[p], c, rb[i..]));
      }
    }
  }

  /** What the scan of the incoming edges finds: the first full slot of the first edge that has one, from rx_ptr on. */
  ghost function FromEdges(t: Topology, net: Net, n: Node): (r: (Option<MsgPack>, Net))
    requires t.Ok() && Shape(t, net) && n in t.nodeIds
    ensures Shape(t, r.1) && (r.0.Some? ==> Addressed(t, r.0.value)) && n in r.1.nodes
  {
    hide Topology.Ok, NodeOk, EdgeOk, PortOk, RingScan;
    NodeIndices(t, net, n);
    var ns := net.nodes[n];
    var rx := RingScan(RxReady(t, net, n), ns.rxPtr, |t.rxs[n]|);
    var net' := SetPtrs(t, net, n, rx.0, ns.sdPtr);
    if rx.1 then
      var e := t.rxs[n][rx.0];
      var c := FirstFull(net.edges[e].output);
      (net.edges[e].output[c], TakeOutput(t, net', e, c))
    else (None, net')
  }

  /** What the scan of the node's ports finds: the head of the first send buffer that has one, from sd_ptr on. */
  ghost function FromPorts(t: Topology, net: Net, n: Node): (r: (Option<MsgPack>, Net))
    requires t.Ok() && Shape(t, net) && n in t.nodeIds
    ensures Shape(t, r.1) && (r.0.Some? ==> Addressed(t, r.0.value)) && n in r.1.nodes
  {
    hide Topology.Ok, Shape, SdReady, FirstNonEmpty, RingScan;
    NodeIndices(t, net, n);
    var ns := net.nodes[n];
    var sd := RingScan(SdReady(t, net, n), ns.sdPtr, |t.nodePorts[n]|);
    var net' := SetPtrs(t, net, n, ns.rxPtr, sd.0);
    if sd.1 then
      SdFound(t, net, n, sd.0);
      var p := t.nodePorts[n][sd.0];
      var c := FirstNonEmpty(net.ports[p].sendBuf);
      HeadAddressed(t, net, p, c);
      (Some(net.ports[p].sendBuf[c][0]), TakeSend(t, net', p, c))
    else (None, net')
  }

  lemma HeadAddressed(t: Topology, net: Net, p: Port, c: Channel)
    requires Shape(t, net) && p in net.ports && c < |net.ports[p].sendBuf| && net.ports[p].sendBuf[c] != []
    ensures Addressed(t, net.ports[p].sendBuf[c][0])
  {
    assert PortOk(t, net.ports[p]);
    assert ListOk(t, net.ports[p].sendBuf[c]);
  }

  lemma ScanOne(ready: seq<bool>, ptr: nat, k: nat)
    requires ptr < |ready| && k > 0
    ensures NextPlace(ptr, |ready|) < |ready|
    ensures RingScan(ready, ptr, k) ==
      if ready[ptr] then (ptr, true) else RingScan(ready, NextPlace(ptr, |ready|), k - 1)
  {
    NextPlaceIs(ptr, |ready|);
  }

  lemma RxReadyAt(t: Topology, net: Net, n: Node, i: nat)
    requires t.Ok() && Shape(t, net) && n in t.nodeIds && i < |t.rxs[n]|
    ensures t.rxs[n][i] < |net.edges|
    ensures RxReady(t, net, n)[i] <==> FirstFull(net.edges[t.rxs[n][i]].output) < t.Channels()
  {
    hide FirstFull;
  }

  lemma SdReadyAt(t: Topology, net: Net, n: Node, i: nat)
    requires t.Ok() && Shape(t, net) && n in t.nodeIds && i < |t.nodePorts[n]|
    ensures t.nodePorts[n][i] in net.ports
    ensures SdReady(t, net, n)[i] <==> FirstNonEmpty(net.ports[t.nodePorts[n][i]].sendBuf) < t.Channels()
  {
    hide FirstNonEmpty;
  }

  lemma EdgesHit(t: Topology, net: Net, n: Node, rx: nat)
    requires t.Ok() && Shape(t, net) && n in t.nodeIds && n in net.nodes && rx < |t.rxs[n]|
    requires RxReady(t, net, n)[rx] && RingScan(RxReady(t, net, n), net.nodes[n].rxPtr, |t.rxs[n]|) == (rx, true)
    ensures var net' := SetPtrs(t, net, n, rx, net.nodes[n].sdPtr);
      var e := t.rxs[n][rx];
      var c := FirstFull(net.edges[e].output);
      e < |net.edges| && c < t.Channels() && FromEdges(t, net, n) == (net.edges[e].output[c], TakeOutput(t, net', e, c))
  {
    hide Topology.Ok, NodeOk, EdgeOk, PortOk, RingScan, RxReady, FirstFull, TakeOutput, SetPtrs;
    RxFound(t, net, n, rx);
  }

  lemma EdgesMiss(t: Topology, net: Net, n: Node, rx: nat)
    requires t.Ok() && Shape(t, net) && n in t.nodeIds && n in net.nodes && (rx < |t.rxs[n]| || rx == 0)
    requires RingScan(RxReady(t, net, n), net.nodes[n].rxPtr, |t.rxs[n]|) == (rx, false)
    ensures FromEdges(t, net, n) == (None, SetPtrs(t, net, n, rx, net.nodes[n].sdPtr))
  {
    hide Topology.Ok, NodeOk, EdgeOk, PortOk, RingScan, RxReady, FirstFull, TakeOutput, SetPtrs;
  }

  lemma PortsHit(t: Topology, net: Net, n: Node, sd: nat)
    requires t.Ok() && Shape(t, net) && n in t.nodeIds && n in net.nodes && sd < |t.nodePorts[n]|
    requires SdReady(t, net, n)[sd]
    requires RingScan(SdReady(t, net, n), net.nodes[n].sdPtr, |t.nodePorts[n]|) == (sd, true)
    ensures var net' := SetPtrs(t, net, n, net.nodes[n].rxPtr, sd);
      var p := t.nodePorts[n][sd];
      && p in net.ports && FirstNonEmpty(net.ports[p].sendBuf) < t.Channels()
      && var c := FirstNonEmpty(net.ports[p].sendBuf);
         FromPorts(t, net, n) == (Some(net.ports[p].sendBuf[c][0]), TakeSend(t, net', p, c))
  {
    hide Topology.Ok, NodeOk, EdgeOk, PortOk, RingScan, SdReady, FirstNonEmpty, TakeSend, SetPtrs;
    SdFound(t, net, n, sd);
  }

  lemma PortsMiss(t: Topology, net: Net, n: Node, sd: nat)
    requires t.Ok() && Shape(t, net) && n in t.nodeIds && n in net.nodes && (sd < |t.nodePorts[n]| || sd == 0)
    requires RingScan(SdReady(t, net, n), net.nodes[n].sdPtr, |t.nodePorts[n]|) == (sd, false)
    ensures FromPorts(t, net, n) == (None, SetPtrs(t, net, n, net.nodes[n].rxPtr, sd))
  {
    hide Topology.Ok, NodeOk, EdgeOk, PortOk, RingScan, SdReady, FirstNonEmpty, TakeSend, SetPtrs;
  }

  lemma {:induction false} InsertAt(l: seq<MsgPack>, p: MsgPack, k: nat)
    requires k <= |l| && (forall i :: 0 <= i < k ==> l[i].idx < p.idx) && (k < |l| ==> l[k].idx >= p.idx)
    ensures InsertByIdx(l, p) == l[..k] + [p] + l[k..]
  {
    if k == 0 {
      assert InsertByIdx(l, p) == [p] + l;
      assert l[..0] + [p] == [p] && l[0..] == l;
    } else {
      InsertAt(l[1..], p, k - 1);
      assert InsertByIdx(l, p) == [l[0]] + InsertByIdx(l[1..], p);
      PutInFront(l, p, k);
    }
  }

  lemma PutInFront(l: seq<MsgPack>, p: MsgPack, k: nat)
    requires 0 < k <= |l|
    ensures [l[0]] + (l[1..][..k - 1] + [p] + l[1..][k - 1..]) == l[..k] + [p] + l[k..]
  {
    assert l[1..][k - 1..] == l[k..];
    assert [l[0]] + l[1..][..k - 1] == l[..k];
  }

  lemma PackAt(t: Topology, src: Port, dst: Port, cha: Channel, xmtid: XmitId, data: seq<Byte>, i: nat)
    requires dst in t.portToNode && cha < t.Channels() && t.chaWidths[cha] > 0
    requires i < PacketCount(|data|, t.chaWidths[cha])
    requires t.Ok() && src in t.portToNode
    ensures Packetize(t, src, dst, cha, xmtid, data)[i] == MakePack(t, src, dst, cha, xmtid, data, i)
    ensures Addressed(t, MakePack(t, src, dst, cha, xmtid, data, i))
  {
  }

  /** What recv finds in the packets of the head message. */
  /** The head packets leave the buffer, and their bytes are handed out. */
  ghost predicate HandsOut(
    t: Topology, net: Net, net': Net, p: Port, c: Channel, buf: seq<Byte>, out: seq<Byte>)
    requires t.Ok() && Shape(t, net) && p in net.ports && c < t.Channels()
  {
    WidthPositive(t, c);
    CanRecv(net, p, c) && net' == Recv(t, net, p, c) && out == RecvData(t, net, p, c, buf)
  }

  /** The oldest message of its flow leaves, and its bytes are handed out. */
  ghost predicate TakesOldest(a: Abs, a': Abs, p: Port, c: Channel, out: seq<Byte>) {
    && a.Ready(p, c) != []
    && var m := a.Ready(p, c)[0];
       a.Queue(m.flow) != [] && a.Queue(m.flow)[0] == m && out == m.data && a' == Popped(a, p, c)
  }

  /** What recv needs of the packets it takes: they are in order and as wide as the channel, and they fit the length. */
  ghost predicate HeadFits(t: Topology, net: Net, p: Port, c: Channel)
    requires Shape(t, net) && p in net.ports && c < t.Channels()
  {
    var rb := net.ports[p].recvBuf[c];
    rb != [] && |rb| >= rb[0].cnt ==>
      && InOrder(rb)
      && t.chaWidths[c] > 0 && rb[0].cnt * t.chaWidths[c] <= Align(rb[0].len, t.chaWidths[c])
      && forall i :: 0 <= i < rb[0].cnt ==> |rb[i].data| == t.chaWidths[c]
  }

  lemma RecvBuffer(t: Topology, net: Net, p: Port, c: Channel)
    requires Shape(t, net) && p in net.ports && c < t.Channels()
    ensures c < |net.ports[p].recvBuf|
  {
  }

  /** What the loop of recv needs of the head packets, and what it makes of them. */
  lemma HeadNeeds(t: Topology, net: Net, p: Port, c: Channel, buf: seq<Byte>)
    requires Shape(t, net) && p in net.ports && c < t.Channels() && c < |net.ports[p].recvBuf| && CanRecv(net, p, c)
    requires HeadFits(t, net, p, c)
    ensures var rb, w := net.ports[p].recvBuf[c], t.chaWidths[c]; var cnt := rb[0].cnt;
      && w > 0 && cnt * w <= Align(rb[0].len, w)
      && (forall i :: 0 <= i < cnt ==> rb[i].idx == i && |rb[i].data| == w)
      && Recv(t, net, p, c) == SetPort(net, p, WithRecv(net.ports[p], c, rb[cnt..]))
      && RecvData(t, net, p, c, buf) ==
           Resize(Overwrite(Resize(buf, Align(rb[0].len, w)), JoinData(rb[..cnt])), rb[0].len)
  {
    hide Shape, Align, Resize, JoinData;
  }

  lemma RecvGives(t: Topology, net: Net, a: Abs, p: Port, c: Channel, buf: seq<Byte>)
    requires t.Ok() && Shape(t, net) && Inv(t, net, a) && p in net.ports && c < t.Channels() && CanRecv(net, p, c)
    ensures t.chaWidths[c] > 0 && a.Ready(p, c) != [] && a.Queue(a.Ready(p, c)[0].flow) != []
    ensures a.Queue(a.Ready(p, c)[0].flow)[0] == a.Ready(p, c)[0]
    ensures RecvData(t, net, p, c, buf) == a.Ready(p, c)[0].data && Inv(t, Recv(t, net, p, c), Popped(a, p, c))
  {
    hide Topology.Ok, Inv, RecvData, Recv, CanRecv, Popped;
    RecvKeeps(t, net, a, p, c);
    HeadBytes(t, net, a, p, c, buf);
  }

  lemma ValidFits(t: Topology, net: Net, a: Abs, p: Port, c: Channel)
    requires t.Ok() && Inv(t, net, a) && p in net.ports && c < t.Channels()
    ensures HeadFits(t, net, p, c)
  {
    hide Topology.Ok, Routed, DestInv, FlowsOk, PacketCount, Packets, MsgOk, Flatten, EdgeOk, NodeOk;
    HeadMessage(t, net, a, p, c);
    if a.Ready(p, c) != [] {
      HeadPackets(t, a.Ready(p, c)[0]);
    }
  }

  lemma HeadPackets(t: Topology, m: Msg)
    requires t.Ok() && MsgOk(t, m)
    ensures var w := t.chaWidths[m.flow.cha]; var ps := Packets(t, m);
      && w > 0 && |ps| > 0 && ps[0].len == |m.data| && |ps| * w == Align(|m.data|, w)
      && (forall i :: 0 <= i < |ps| ==> ps[i].idx == i && ps[i].cnt == |ps| && |ps[i].data| == w)
  {
    hide Topology.Ok, PacketCount;
    WidthPositive(t, m.flow.cha);
    PacketsShape(t, m);
    PacketCountIsCeil(|m.data|, t.chaWidths[m.flow.cha]);
  }

  lemma NothingJoined(rb: seq<MsgPack>)
    ensures JoinData(rb[..0]) == []
  {
  }

  lemma NoSend(net: Net, p: Port, c: Channel)
    requires p in net.ports && c < |net.ports[p].sendBuf| && net.ports[p].sendBuf[c] == []
    ensures SetPort(net, p, WithSend(net.ports[p], c, [])) == net
  {
    assert net.ports[p].sendBuf[c := []] == net.ports[p].sendBuf;
    assert net.ports[p := net.ports[p]] == net.ports;
  }

  lemma SendTwice(net: Net, p: Port, c: Channel, x: seq<MsgPack>, y: seq<MsgPack>)
    requires p in net.ports && c < |net.ports[p].sendBuf|
    ensures WithSend(WithSend(net.ports[p], c, x), c, y) == WithSend(net.ports[p], c, y)
  {
    assert net.ports[p].sendBuf[c := x][c := y] == net.ports[p].sendBuf[c := y];
  }

  lemma RecvTwice(net: Net, p: Port, c: Channel, x: seq<MsgPack>, y: seq<MsgPack>)
    requires p in net.ports && c < |net.ports[p].recvBuf|
    ensures WithRecv(WithRecv(net.ports[p], c, x), c, y) == WithRecv(net.ports[p], c, y)
  {
    assert net.ports[p].recvBuf[c := x][c := y] == net.ports[p].recvBuf[c := y];
  }

  lemma NoRecv(net: Net, p: Port, c: Channel)
    requires p in net.ports && c < |net.ports[p].recvBuf|
    ensures SetPort(net, p, WithRecv(net.ports[p], c, net.ports[p].recvBuf[c])) == net
  {
    var rb := net.ports[p].recvBuf;
    assert rb[c := rb[c]] == rb;
    assert net.ports[p := net.ports[p]] == net.ports;
  }

  lemma CopyPack(out: seq<Byte>, rb: seq<MsgPack>, i: nat, w: nat, cnt: nat)
    requires i < cnt <= |rb| && cnt * w <= |out| && |rb[i].data| == w
    requires i * w <= |out| && out[..i * w] == JoinData(rb[..i])
    ensures (i + 1) * w == i * w + w <= |out|
    ensures JoinData(rb[..i + 1]) == out[..i * w] + rb[i].data
  {
    hide JoinData;
    MulStep(i, w, cnt);
    assert rb[..i + 1] == rb[..i] + [rb[i]];
    JoinAppend(rb[..i], rb[i]);
  }

  lemma RecvPlace(t: Topology, net: Net, p: MsgPack)
    requires Shape(t, net) && Addressed(t, p)
    ensures p.dst in net.ports && p.cha < |net.ports[p.dst].recvBuf|
  {
  }

  lemma EntryPlace(t: Topology, net: Net, n: Node, i: nat)
    requires t.Ok() && Shape(t, net) && n in t.nodeIds && i < |net.nodes[n].pipeline|
    ensures var p := net.nodes[n].pipeline[i].pack;
      && Addressed(t, p) && p.tgt in t.nodeIds && p.tgt != n
      && n in t.route && p.tgt in t.route[n] && (n, t.route[n][p.tgt]) in t.txs
      && t.txs[(n, t.route[n][p.tgt])] == EdgeFor(t, n, p.tgt) < |net.edges|
      && p.cha < |net.edges[EdgeFor(t, n, p.tgt)].input|
  {
    hide EdgeOk, PortOk, NodeOk;
    PipeTarget(t, net, n, i);
    var p := net.nodes[n].pipeline[i].pack;
    assert WalkDist(t.route, n, p.tgt, t.Fuel()).Some?;
    EdgeSlots(t, net, EdgeFor(t, n, p.tgt));
  }

  /** The first half of a node step: a packet off an edge or, failing that, out of a send buffer. */
  lemma AcceptHand(t: Topology, net: Net, n: Node)
    requires t.Ok() && Shape(t, net) && n in t.nodeIds
    ensures var one := FromEdges(t, net, n);
      var two := if one.0 == None then FromPorts(t, one.1, n) else one;
      Accept(t, net, n) == if two.0.Some? then Arrive(t, two.1, n, two.0.value) else two.1
  {
    hide Topology.Ok, EdgeOk, NodeOk, PortOk, RingScan, Arrive, TakeOutput, TakeSend;
    NodeIndices(t, net, n);
    var ns := net.nodes[n];
    var rx := RingScan(RxReady(t, net, n), ns.rxPtr, |t.rxs[n]|);
    if !rx.1 {
      var mid := SetPtrs(t, net, n, rx.0, ns.sdPtr);
      SameScan(t, net, mid, n);
      PtrsTwice(t, net, n, rx.0, ns.sdPtr, RingScan(SdReady(t, net, n), ns.sdPtr, |t.nodePorts[n]|).0);
    }
  }

  lemma PtrsTwice(t: Topology, net: Net, n: Node, rx: nat, sd: nat, sd': nat)
    requires t.Ok() && Shape(t, net) && n in t.nodeIds && n in net.nodes && n in t.rxs && n in t.nodePorts
    requires rx < |t.rxs[n]| || rx == 0
    requires sd < |t.nodePorts[n]| || sd == 0
    requires sd' < |t.nodePorts[n]| || sd' == 0
    ensures SetPtrs(t, SetPtrs(t, net, n, rx, sd), n, rx, sd') == SetPtrs(t, net, n, rx, sd')
    ensures SetPtrs(t, net, n, rx, sd).nodes[n].sdPtr == sd
  {
    hide Topology.Ok, NodeOk, EdgeOk, PortOk;
  }

  lemma SameScan(t: Topology, net: Net, net': Net, n: Node)
    requires t.Ok() && Shape(t, net) && Shape(t, net') && n in t.nodeIds && net'.ports == net.ports
    ensures SdReady(t, net', n) == SdReady(t, net, n)
  {
    hide Topology.Ok;
  }

  lemma ScanEntry(t: Topology, net: Net, n: Node, i: nat)
    requires t.Ok() && Shape(t, net) && n in t.nodeIds && i < |net.nodes[n].pipeline|
    ensures var p := net.nodes[n].pipeline[i].pack;
      && p.tgt in t.nodeIds && p.tgt != n && Addressed(t, p)
      && PipeScan(t, net, n, i) ==
           if Blocked(t, net, n, p) then PipeScan(t, Stay(t, net, n, i), n, i + 1)
           else PipeScan(t, PipeOut(t, net, n, i, EdgeFor(t, n, p.tgt)), n, i)
  {
    hide Topology.Ok;
    assert net.nodes[n].pipeline[i].pack.tgt == DstNode(t, FlowOf(net.nodes[n].pipeline[i].pack));
  }

  lemma ScanEnd(t: Topology, net: Net, n: Node)
    requires t.Ok() && Shape(t, net) && n in t.nodeIds && n in net.nodes
    ensures PipeScan(t, net, n, |net.nodes[n].pipeline|) == net
  {
    hide Topology.Ok;
  }

  lemma DeliverCases(t: Topology, net: Net, n: Node, p: MsgPack)
    requires t.Ok() && Shape(t, net) && Addressed(t, p) && n in net.nodes
    ensures var ps, ns := net.ports[p.dst], net.nodes[n];
      var rb, l := ps.recvBuf[p.cha], InsertByIdx(OrderList(ns.orderBuf, p.xmtid), p);
      Deliver(t, net, n, p) ==
        if p.cnt <= 1 then SetPort(net, p.dst, WithRecv(ps, p.cha, rb + [p]))
        else if |l| == p.cnt then
          SetNode(SetPort(net, p.dst, WithRecv(ps, p.cha, rb + l)), n, ns.(orderBuf := ns.orderBuf - {p.xmtid}))
        else SetNode(net, n, ns.(orderBuf := ns.orderBuf[p.xmtid := l]))
  {
    hide Topology.Ok;
    var ps := net.ports[p.dst];
    assert ps.recvBuf[p.cha := ps.recvBuf[p.cha]] == ps.recvBuf;
    assert net.ports[p.dst := ps] == net.ports;
    assert net.nodes[n := net.nodes[n]] == net.nodes;
  }

  ghost function WithLatency(t: Topology, net: Net, n: Node, i: nat, v: nat): (r: Net)
    requires Shape(t, net) && n in net.nodes && i < |net.nodes[n].pipeline|
    ensures Shape(t, r)
  {
    var ns := net.nodes[n];
    SetNode(net, n, ns.(pipeline := ns.pipeline[i := PipelinedPack(ns.pipeline[i].pack, v)]))
  }

  lemma SameStay(t: Topology, net: Net, n: Node, i: nat, v: nat)
    requires Shape(t, net) && n in net.nodes && i < |net.nodes[n].pipeline|
    ensures Stay(t, WithLatency(t, net, n, i, v), n, i) == Stay(t, net, n, i)
  {
    hide NodeOk, EdgeOk, PortOk;
    var p, pl := net.nodes[n].pipeline[i].pack, net.nodes[n].pipeline;
    assert pl[i := PipelinedPack(p, v)][i := PipelinedPack(p, 0)] == pl[i := PipelinedPack(p, 0)];
  }

  lemma SameOut(t: Topology, net: Net, n: Node, i: nat, v: nat, e: nat)
    requires Shape(t, net) && n in net.nodes && i < |net.nodes[n].pipeline| && e < |net.edges|
    requires Addressed(t, net.nodes[n].pipeline[i].pack)
    ensures PipeOut(t, WithLatency(t, net, n, i, v), n, i, e) == PipeOut(t, net, n, i, e)
  {
    hide NodeOk, EdgeOk, PortOk;
    var p, pl := net.nodes[n].pipeline[i].pack, net.nodes[n].pipeline;
    var pl' := pl[i := PipelinedPack(p, v)];
    assert pl'[..i] + pl'[i + 1..] == pl[..i] + pl[i + 1..];
  }

  /** What the scan does with an entry does not depend on the latency it has left. */
  lemma ScanForgetsLatency(t: Topology, net: Net, n: Node, i: nat, v: nat)
    requires t.Ok() && Shape(t, net) && n in t.nodeIds && i < |net.nodes[n].pipeline|
    ensures PipeScan(t, WithLatency(t, net, n, i, v), n, i) == PipeScan(t, net, n, i)
  {
    hide Topology.Ok, PipeScan, Stay, PipeOut, EdgeOk, PortOk, NodeOk;
    var net' := WithLatency(t, net, n, i, v);
    var p := net.nodes[n].pipeline[i].pack;
    ScanEntry(t, net, n, i);
    ScanEntry(t, net', n, i);
    SameStay(t, net, n, i, v);
    SameOut(t, net, n, i, v, EdgeFor(t, n, p.tgt));
  }
}

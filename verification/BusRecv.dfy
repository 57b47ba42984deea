/** Receiving: the head of a receive buffer is always a whole message, and it is the oldest of its flow. */
module BusRecv {
  import opened RouteTable
  import opened BusModel
  import opened BusPaths
  import opened BusDelivery
  import opened BusInvariant

  // ---------------------------------------------------------------- the bytes

  lemma {:induction false} JoinAppend(l: seq<MsgPack>, p: MsgPack)
    ensures JoinData(l + [p]) == JoinData(l) + p.data
  {
    if l == [] {
      assert JoinData([p][1..]) == [];
      assert [] + [p] == [p];
    } else {
      JoinAppend(l[1..], p);
      assert (l + [p])[1..] == l[1..] + [p];
    }
  }

  /** The first `k` chunks put together: the message, padded with zeros. */
  lemma {:induction false} JoinChunks(l: seq<MsgPack>, data: seq<Byte>, w: nat, k: nat)
    requires w > 0 && k <= |l|
    requires forall i :: 0 <= i < |l| ==> l[i].data == Chunk(data, i, w)
    ensures |JoinData(l[..k])| == k * w
    ensures forall j :: 0 <= j < k * w ==> JoinData(l[..k])[j] == if j < |data| then data[j] else 0
  {
    if k > 0 {
      JoinChunks(l, data, w, k - 1);
      assert l[..k] == l[..k - 1] + [l[k - 1]];
      JoinAppend(l[..k - 1], l[k - 1]);
      assert k * w == (k - 1) * w + w;
      var joined := JoinData(l[..k]);
      forall j | 0 <= j < k * w
        ensures joined[j] == if j < |data| then data[j] else 0
      {
        if j >= (k - 1) * w {
          assert joined[j] == l[k - 1].data[j - (k - 1) * w];
        }
      }
    }
  }

  /** Taking the packets of a message apart and putting them together again gives the message, filled up with zeros. */
  lemma Reassembly(t: Topology, m: Msg)
    requires t.Ok() && MsgOk(t, m)
    ensures |m.data| <= |JoinData(Packets(t, m))|
    ensures JoinData(Packets(t, m))[..|m.data|] == m.data
    ensures forall j :: |m.data| <= j < |JoinData(Packets(t, m))| ==> JoinData(Packets(t, m))[j] == 0
  {
    hide Topology.Ok, JoinData, PacketCount;
    var w := t.chaWidths[m.flow.cha];
    var l := Packets(t, m);
    PacketsShape(t, m);
    assert w > 0 by {
      WidthPositive(t, m.flow.cha);
    }
    PacketCountIsCeil(|m.data|, w);
    JoinChunks(l, m.data, w, |l|);
    assert l[..|l|] == l;
  }

  /** What recv makes of the packets of a message: its bytes, whatever the caller's buffer held. */
  lemma JoinIntoIs(t: Topology, m: Msg, buf: seq<Byte>)
    requires t.Ok() && MsgOk(t, m)
    ensures t.chaWidths[m.flow.cha] > 0
    ensures JoinInto(buf, Packets(t, m), |m.data|, t.chaWidths[m.flow.cha]) == m.data
  {
    hide Topology.Ok, JoinData, PacketCount, Packets, Resize, CeilDiv;
    var w := t.chaWidths[m.flow.cha];
    WidthPositive(t, m.flow.cha);
    Reassembly(t, m);
    var bytes := JoinData(Packets(t, m));
    CutOff(Overwrite(Resize(buf, Align(|m.data|, w)), bytes), bytes, |m.data|);
  }

  lemma CutOff(a: seq<Byte>, bytes: seq<Byte>, n: nat)
    requires n <= |bytes| <= |a| && a[..|bytes|] == bytes
    ensures Resize(a, n) == bytes[..n]
  {
  }

  // ---------------------------------------------------------------- the head of the buffer

  /** A receive buffer can be received from exactly when a message is complete in it; then its first
      packets are that message, in order, and it is the oldest message of its flow. */
  lemma HeadMessage(t: Topology, net: Net, a: Abs, p: Port, c: Channel)
    requires t.Ok() && Inv(t, net, a) && p in net.ports && c < t.Channels()
    ensures CanRecv(net, p, c) <==> a.Ready(p, c) != []
    ensures CanRecv(net, p, c) <==> net.ports[p].recvBuf[c] != []
    ensures a.Ready(p, c) != [] ==>
      var m, rb := a.Ready(p, c)[0], net.ports[p].recvBuf[c];
      && MsgOk(t, m) && m.flow.dst == p && m.flow.cha == c
      && |Packets(t, m)| == rb[0].cnt && rb == Packets(t, m) + Flatten(t, a.Ready(p, c)[1..])
      && (forall i :: 0 <= i < rb[0].cnt ==> rb[i].idx == i)
      && a.Queue(m.flow) != [] && a.Queue(m.flow)[0] == m
    ensures InOrder(net.ports[p].recvBuf[c])
  {
    hide Topology.Ok, Routed, FlowsOk, OrdersOk, Distinct, DestPrefix, Packets, MsgOk;
    var ms, rb := a.Ready(p, c), net.ports[p].recvBuf[c];
    assert rb == Flatten(t, ms);
    if ms != [] {
      var m := ms[0];
      PacketsShape(t, m);
      assert FlowOk(t, m.flow) by {
        OkFlow(t, m);
      }
      assert Of(m.flow, ms) <= a.Queue(m.flow);
    }
  }

  /** What a receive hands out is the oldest message of its flow. */
  lemma HeadBytes(t: Topology, net: Net, a: Abs, p: Port, c: Channel, buf: seq<Byte>)
    requires t.Ok() && Inv(t, net, a) && p in net.ports && c < t.Channels() && CanRecv(net, p, c)
    ensures t.chaWidths[c] > 0 && a.Ready(p, c) != [] && RecvData(t, net, p, c, buf) == a.Ready(p, c)[0].data
  {
    hide Topology.Ok, Routed, DestInv, FlowsOk, Packets, MsgOk, JoinInto, CanRecv;
    HeadMessage(t, net, a, p, c);
    var m, rb := a.Ready(p, c)[0], net.ports[p].recvBuf[c];
    PacketsShape(t, m);
    JoinIntoIs(t, m, buf);
    assert rb[..rb[0].cnt] == Packets(t, m);
    assert rb[0] == Packets(t, m)[0];
  }

  lemma OkFlow(t: Topology, m: Msg)
    requires t.Ok() && MsgOk(t, m)
    ensures FlowOk(t, m.flow)
  {
  }

  // ---------------------------------------------------------------- the state after a receive

  /** The oldest message of a flow leaves, from the front of its receive buffer. */
  ghost function Popped(a: Abs, p: Port, c: Channel): Abs
    requires a.Ready(p, c) != [] && a.Queue(a.Ready(p, c)[0].flow) != []
  {
    var f := a.Ready(p, c)[0].flow;
    a.(queues := a.queues[f := a.Queue(f)[1..]], ready := a.ready[(p, c) := a.Ready(p, c)[1..]])
  }

  lemma {:induction false} AlongFront(
    t: Topology, d: Node, n: Node, x: seq<MsgPack>, a: map<Node, seq<MsgPack>>, b: map<Node, seq<MsgPack>>)
    requires t.Ok() && n in t.nodeIds && d in t.nodeIds
    requires a.Keys == b.Keys == NodeSet(t.nodeIds)
    requires a[d] == x + b[d]
    requires forall k :: k in t.nodeIds && k != d ==> a[k] == b[k]
    ensures Along(t, d, n, a) == x + Along(t, d, n, b)
    decreases t.Hops(n, d)
  {
    hide Topology.Ok;
    if n != d {
      AlongFront(t, d, Hop(t, n, d), x, a, b);
      Assoc(x, Along(t, d, Hop(t, n, d), b), b[n]);
    }
  }

  lemma FrontLeaves(t: Topology, net: Net, net': Net, f: Flow, x: seq<MsgPack>)
    requires t.Ok() && Shape(t, net) && Shape(t, net') && FlowOk(t, f)
    requires Dest(t, net, f) == x + Dest(t, net', f)
    requires net'.edges == net.edges && net'.nodes == net.nodes && Unsent(net', f) == Unsent(net, f)
    ensures InFlight(t, net, f) == x + InFlight(t, net', f)
  {
    hide Topology.Ok, Dest, Unsent, Filter, Along;
    AlongFront(t, DstNode(t, f), SrcNode(t, f), x, Segs(t, net, f), Segs(t, net', f));
    Assoc(x, Along(t, DstNode(t, f), SrcNode(t, f), Segs(t, net', f)), Unsent(net', f));
  }

  lemma RecvDest(t: Topology, net: Net, p: Port, c: Channel, m: Msg, g: Flow)
    requires t.Ok() && Shape(t, net) && p in net.ports && c < t.Channels() && CanRecv(net, p, c)
    requires MsgOk(t, m) && FlowOk(t, g)
    requires net.ports[p].recvBuf[c] == Packets(t, m) + Recv(t, net, p, c).ports[p].recvBuf[c]
    requires m.flow.dst == p && m.flow.cha == c
    ensures Dest(t, net, g) == (if g == m.flow then Packets(t, m) else []) + Dest(t, Recv(t, net, p, c), g)
  {
    hide Topology.Ok, Packets, MsgOk, CanRecv, EdgeOk, NodeOk, Partial;
    var net' := Recv(t, net, p, c);
    var ps := Packets(t, m);
    PacketsShape(t, m);
    if g.dst == p && g.cha == c {
      FilterConcat(g, ps, net'.ports[p].recvBuf[c]);
      if g == m.flow {
        FilterAll(g, ps);
      } else {
        FilterNone(g, ps);
      }
    }
  }

  lemma RecvLine(t: Topology, net: Net, a: Abs, p: Port, c: Channel, g: Flow)
    requires t.Ok() && Inv(t, net, a) && p in net.ports && c < t.Channels() && a.Ready(p, c) != []
    requires CanRecv(net, p, c) && FlowOk(t, g)
    ensures var m := a.Ready(p, c)[0];
      && MsgOk(t, m)
      && InFlight(t, net, g) == (if g == m.flow then Packets(t, m) else []) + InFlight(t, Recv(t, net, p, c), g)
      && Dest(t, net, g) == (if g == m.flow then Packets(t, m) else []) + Dest(t, Recv(t, net, p, c), g)
  {
    hide Topology.Ok, Routed, FlowsOk, DestInv, Packets, MsgOk, CanRecv, InFlight, Dest, EdgeOk, NodeOk;
    HeadMessage(t, net, a, p, c);
    var m := a.Ready(p, c)[0];
    RecvDest(t, net, p, c, m, g);
    FrontLeaves(t, net, Recv(t, net, p, c), g, if g == m.flow then Packets(t, m) else []);
  }

  lemma RecvRouted(t: Topology, net: Net, p: Port, c: Channel)
    requires t.Ok() && Shape(t, net) && Routed(t, net) && p in net.ports && c < t.Channels() && CanRecv(net, p, c)
    ensures Routed(t, Recv(t, net, p, c))
    ensures OrdersOk(t, net) ==> OrdersOk(t, Recv(t, net, p, c))
  {
    hide Topology.Ok, Carried, SlotRouted, OrderBufOk;
  }

  lemma PoppedMsgs(t: Topology, a: Abs, p: Port, c: Channel)
    requires t.Ok() && MsgsOk(t, a) && a.Ready(p, c) != [] && a.Queue(a.Ready(p, c)[0].flow) != []
    ensures MsgsOk(t, Popped(a, p, c))
  {
    hide Topology.Ok, MsgOk;
    var a' := Popped(a, p, c);
    var f := a.Ready(p, c)[0].flow;
    assert forall g :: g != f ==> a'.Queue(g) == a.Queue(g);
    assert forall q: Port, d: Channel :: (q, d) != (p, c) ==> a'.Ready(q, d) == a.Ready(q, d);
    forall g
      ensures AllOk(t, a'.Queue(g))
    {
      assert AllOk(t, a.Queue(g));
    }
    forall q, d
      ensures AllOk(t, a'.Ready(q, d))
    {
      assert AllOk(t, a.Ready(q, d));
    }
    forall q, d, i | 0 <= i < |a'.Ready(q, d)|
      ensures a'.Ready(q, d)[i].flow.dst == q && a'.Ready(q, d)[i].flow.cha == d
    {
      assert a'.Ready(q, d)[i] == a.Ready(q, d)[if q == p && d == c then i + 1 else i];
    }
  }

  lemma PoppedDistinct(t: Topology, a: Abs, p: Port, c: Channel)
    requires Distinct(t, a) && a.Ready(p, c) != [] && a.Queue(a.Ready(p, c)[0].flow) != []
    ensures Distinct(t, Popped(a, p, c))
  {
    hide Several;
    var a' := Popped(a, p, c);
    var h := a.Ready(p, c)[0].flow;
    forall f, i, g, j |
      && 0 <= i < |a'.Queue(f)| && 0 <= j < |a'.Queue(g)| && a'.Queue(f)[i].xmtid == a'.Queue(g)[j].xmtid
      && Several(t, a'.Queue(f)[i]) && Several(t, a'.Queue(g)[j])
      ensures f == g && i == j
    {
      var i0, j0 := if f == h then i + 1 else i, if g == h then j + 1 else j;
      assert a'.Queue(f)[i] == a.Queue(f)[i0] && a'.Queue(g)[j] == a.Queue(g)[j0];
    }
  }

  lemma PoppedReady(t: Topology, a: Abs, p: Port, c: Channel)
    requires t.Ok() && MsgsOk(t, a) && ReadyOk(t, a) && a.Ready(p, c) != [] && a.Queue(a.Ready(p, c)[0].flow) != []
    ensures ReadyOk(t, Popped(a, p, c))
  {
    hide Topology.Ok, AllOk, Of;
    var a' := Popped(a, p, c);
    var ms := a.Ready(p, c);
    var f := ms[0].flow;
    forall g | FlowOk(t, g)
      ensures Of(g, a'.Ready(g.dst, g.cha)) <= a'.Queue(g)
    {
      assert Of(g, a.Ready(g.dst, g.cha)) <= a.Queue(g);
      assert f.dst == p && f.cha == c;
      if g.dst == p && g.cha == c {
        OfFirst(g, ms, a.Queue(g));
      }
    }
  }

  lemma OfFirst(g: Flow, ms: seq<Msg>, q: seq<Msg>)
    requires ms != [] && Of(g, ms) <= q
    ensures if ms[0].flow == g then q != [] && Of(g, ms[1..]) <= q[1..] else Of(g, ms[1..]) <= q
  {
    if ms[0].flow == g {
      assert Of(g, ms) == [ms[0]] + Of(g, ms[1..]);
      assert Of(g, ms)[1..] == Of(g, ms[1..]);
    } else {
      assert Of(g, ms) == Of(g, ms[1..]);
    }
  }

  lemma PoppedFlow(t: Topology, net: Net, a: Abs, p: Port, c: Channel, g: Flow)
    requires t.Ok() && Inv(t, net, a) && p in net.ports && c < t.Channels() && a.Ready(p, c) != []
    requires CanRecv(net, p, c) && FlowOk(t, g) && a.Queue(a.Ready(p, c)[0].flow) != []
    requires a.Queue(a.Ready(p, c)[0].flow)[0] == a.Ready(p, c)[0]
    requires MsgsOk(t, Popped(a, p, c))
    ensures InFlight(t, Recv(t, net, p, c), g) == Flatten(t, Popped(a, p, c).Queue(g))
    ensures Dest(t, Recv(t, net, p, c), g) <= Flatten(t, Popped(a, p, c).Queue(g))
  {
    hide Topology.Ok, Routed, Packets, MsgOk, CanRecv, InFlight, Dest, Distinct, OrdersOk, RecvOk, ReadyOk;
    RecvLine(t, net, a, p, c, g);
    var m := a.Ready(p, c)[0];
    var net' := Recv(t, net, p, c);
    var q' := Popped(a, p, c).Queue(g);
    var x := if g == m.flow then Packets(t, m) else [];
    assert Flatten(t, a.Queue(g)) == x + Flatten(t, q');
    Cancel(x, InFlight(t, net', g), Flatten(t, q'));
    Cancel(x, Dest(t, net', g), Flatten(t, q'));
    assert Dest(t, net, g) <= Flatten(t, a.Queue(g));
  }

  /** A receive hands out the oldest message of its flow and keeps the invariant. */
  lemma RecvKeeps(t: Topology, net: Net, a: Abs, p: Port, c: Channel)
    requires t.Ok() && Inv(t, net, a) && p in net.ports && c < t.Channels() && CanRecv(net, p, c)
    ensures a.Ready(p, c) != []
    ensures var m := a.Ready(p, c)[0];
      && m.flow.dst == p && m.flow.cha == c
      && a.Queue(m.flow) != [] && a.Queue(m.flow)[0] == m
    ensures Inv(t, Recv(t, net, p, c), Popped(a, p, c))
  {
    hide Topology.Ok, Routed, Packets, MsgOk, CanRecv, InFlight, Dest, Distinct, OrdersOk, ReadyOk, OrderBufOk;
    HeadMessage(t, net, a, p, c);
    var net' := Recv(t, net, p, c);
    var a' := Popped(a, p, c);
    RecvRouted(t, net, p, c);
    PoppedMsgs(t, a, p, c);
    PoppedDistinct(t, a, p, c);
    PoppedReady(t, a, p, c);
    RecvBuffers(t, net, a, p, c);
    forall g | FlowOk(t, g)
      ensures InFlight(t, net', g) == Flatten(t, a'.Queue(g)) && Dest(t, net', g) <= Flatten(t, a'.Queue(g))
    {
      PoppedFlow(t, net, a, p, c, g);
    }
  }

  lemma RecvBuffers(t: Topology, net: Net, a: Abs, p: Port, c: Channel)
    requires t.Ok() && Inv(t, net, a) && p in net.ports && c < t.Channels() && CanRecv(net, p, c)
    requires a.Ready(p, c) != [] && a.Queue(a.Ready(p, c)[0].flow) != []
    requires MsgsOk(t, Popped(a, p, c))
    ensures RecvOk(t, Recv(t, net, p, c), Popped(a, p, c))
  {
    hide Topology.Ok, Routed, Packets, MsgOk, CanRecv, Distinct, OrdersOk, ReadyOk, FlowsOk, DestPrefix, Flatten;
    HeadMessage(t, net, a, p, c);
    var net' := Recv(t, net, p, c);
    var a' := Popped(a, p, c);
    forall q, d | q in net'.ports && 0 <= d < t.Channels()
      ensures net'.ports[q].recvBuf[d] == Flatten(t, a'.Ready(q, d))
    {
      assert net.ports[q].recvBuf[d] == Flatten(t, a.Ready(q, d));
      if q != p || d != c {
        assert a'.Ready(q, d) == a.Ready(q, d);
      }
    }
  }
}

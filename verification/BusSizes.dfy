/** How large a message may be: the packet header counts in 16 bits (src/bus/symmulcha.h:85-86). */
module BusSizes {
  import opened Arithmetic
  import opened BusModel
  import opened BusPaths
  import opened BusDelivery
  import opened BusRecv

  /** A row of packets delivered one after the other. */
  function DeliverAll(rb: seq<MsgPack>, ob: map<XmitId, seq<MsgPack>>, ps: seq<MsgPack>):
    (seq<MsgPack>, map<XmitId, seq<MsgPack>>)
    decreases |ps|
  {
    if ps == [] then (rb, ob)
    else
      var (rb', ob') := DeliverAt(rb, ob, ps[0]);
      DeliverAll(rb', ob', ps[1..])
  }

  /** One recv takes everything that has come in, in order, and hands out the message. */
  predicate OneWholeMessage(
    rb: seq<MsgPack>, ob: map<XmitId, seq<MsgPack>>, data: seq<Byte>, buf: seq<Byte>, w: nat)
    requires w > 0
  {
    && ob == map[] && rb != [] && |rb| == rb[0].cnt && InOrder(rb)
    && JoinInto(buf, rb[..rb[0].cnt], rb[0].len, w) == data
  }

  /** The packets of one message, numbered and counted. */
  predicate Row(ps: seq<MsgPack>, x: XmitId) {
    forall i :: 0 <= i < |ps| ==> ps[i].xmtid == x && ps[i].cnt == |ps| && ps[i].idx == i
  }

  /** The list of an id, if it has one. */
  function ListFor(x: XmitId, l: seq<MsgPack>): map<XmitId, seq<MsgPack>> {
    if l == [] then map[] else map[x := l]
  }

  /** Packets with the right count pile up in the order buffer and leave it all together. */
  lemma {:induction false} RowArrives(ps: seq<MsgPack>, x: XmitId, k: nat)
    requires Row(ps, x) && k < |ps|
    ensures DeliverAll([], ListFor(x, ps[..k]), ps[k..]) == (ps, map[])
    decreases |ps| - k
  {
    var l, p, ob := ps[..k], ps[k], ListFor(x, ps[..k]);
    assert OrderList(ob, x) == l;
    InsertAtEnd(l, p);
    assert l + [p] == ps[..k + 1] && ps[k..][1..] == ps[k + 1..];
    if k + 1 == |ps| {
      assert ps[..k + 1] == ps && ps[k + 1..] == [];
      assert [] + ps == ps && ob - {x} == map[];
    } else {
      assert ob[x := ps[..k + 1]] == ListFor(x, ps[..k + 1]);
      RowArrives(ps, x, k + 1);
    }
  }

  predicate SameHeader(ps: seq<MsgPack>, x: XmitId, cnt: nat) {
    forall i :: 0 <= i < |ps| ==> ps[i].xmtid == x && ps[i].cnt == cnt
  }

  lemma {:induction false} InsertSame(l: seq<MsgPack>, p: MsgPack, x: XmitId, cnt: nat)
    requires SameHeader(l, x, cnt) && p.xmtid == x && p.cnt == cnt
    ensures SameHeader(InsertByIdx(l, p), x, cnt)
  {
    if l != [] && l[0].idx < p.idx {
      InsertSame(l[1..], p, x, cnt);
    }
  }

  /** Whatever the counts say, no packet gets lost at the destination. */
  lemma {:induction false} NoneLost(
    rb: seq<MsgPack>, ob: map<XmitId, seq<MsgPack>>, ps: seq<MsgPack>, x: XmitId, cnt: nat)
    requires SameHeader(ps, x, cnt) && SameHeader(rb, x, cnt) && SameHeader(OrderList(ob, x), x, cnt) && ob.Keys <= {x}
    ensures var (rb', ob') := DeliverAll(rb, ob, ps);
      && |rb'| + |OrderList(ob', x)| == |rb| + |OrderList(ob, x)| + |ps|
      && SameHeader(rb', x, cnt) && ob'.Keys <= {x}
    decreases |ps|
  {
    if ps != [] {
      InsertSame(OrderList(ob, x), ps[0], x, cnt);
      var (rb', ob') := DeliverAt(rb, ob, ps[0]);
      NoneLost(rb', ob', ps[1..], x, cnt);
    }
  }

  lemma PacketFields(t: Topology, f: Flow, xmtid: XmitId, data: seq<Byte>)
    requires t.Ok() && FlowOk(t, f)
    ensures t.chaWidths[f.cha] > 0
    ensures var ps := Packetize(t, f.src, f.dst, f.cha, xmtid, data);
      SameHeader(ps, xmtid, |ps| % TWO_TO_16)
  {
    WidthPositive(t, f.cha);
    hide Topology.Ok, PacketCount, Chunk;
  }

  /** A message arrives as one message, in order and with its bytes, and is received as a whole, if and only if
      its packets can be counted in 16 bits. */
  lemma ReassemblyIffFits(t: Topology, f: Flow, xmtid: XmitId, data: seq<Byte>, buf: seq<Byte>)
    requires t.Ok() && FlowOk(t, f) && data != []
    ensures t.chaWidths[f.cha] > 0
    ensures var ps := Packetize(t, f.src, f.dst, f.cha, xmtid, data);
      var (rb, ob) := DeliverAll([], map[], ps);
      OneWholeMessage(rb, ob, data, buf, t.chaWidths[f.cha]) <==> PacketCount(|data|, t.chaWidths[f.cha]) < 0x1_0000
  {
    hide Topology.Ok, JoinInto, PacketCount, Packetize, DeliverAll;
    PacketFields(t, f, xmtid, data);
    var ps := Packetize(t, f.src, f.dst, f.cha, xmtid, data);
    if |ps| < TWO_TO_16 {
      var m := Msg(f, xmtid, data);
      PacketsShape(t, m);
      JoinIntoIs(t, m, buf);
      assert ps[..0] == [] && ps[0..] == ps && ps[..|ps|] == ps;
      RowArrives(ps, xmtid, 0);
    } else {
      NoneLost([], map[], ps, xmtid, |ps| % TWO_TO_16);
    }
  }
}

/** Paths through the network, and the packets of one flow laid out along its path. */
module BusPaths {
  import opened Wrappers
  import opened RouteTable
  import opened BusModel

  /** Traffic from one port to another on one channel. */
  datatype Flow = Flow(src: Port, dst: Port, cha: Channel)

  function FlowOf(p: MsgPack): Flow {
    Flow(p.src, p.dst, p.cha)
  }

  predicate FlowOk(t: Topology, f: Flow) {
    f.src in t.portToNode && f.dst in t.portToNode && f.cha < t.Channels()
  }

  function SrcNode(t: Topology, f: Flow): (n: Node)
    requires t.Ok() && FlowOk(t, f)
    ensures n in t.nodeIds
  {
    t.portToNode[f.src]
  }

  function DstNode(t: Topology, f: Flow): (n: Node)
    requires t.Ok() && FlowOk(t, f)
    ensures n in t.nodeIds
  {
    t.portToNode[f.dst]
  }

  // ---------------------------------------------------------------- paths

  lemma Reaches(t: Topology, n: Node, d: Node)
    requires t.Ok() && n in t.nodeIds && d in t.nodeIds
    ensures WalkDist(t.route, n, d, t.Fuel()).Some?
  {
  }

  ghost function Hop(t: Topology, n: Node, d: Node): (m: Node)
    requires t.Ok() && n in t.nodeIds && d in t.nodeIds && n != d
    ensures m in t.nodeIds && m == t.edgeEnds[EdgeFor(t, n, d)].1
    ensures t.Hops(m, d) == t.Hops(n, d) - 1
  {
    hide Topology.Ok;
    var m := t.edgeEnds[EdgeFor(t, n, d)].1;
    Reaches(t, n, d);
    Reaches(t, m, d);
    WalkDistMonotone(t.route, m, d, t.Fuel() - 1, t.Fuel());
    m
  }

  /** The route from `s` to `d` goes through `n`. */
  ghost predicate OnPath(t: Topology, s: Node, d: Node, n: Node)
    requires t.Ok() && s in t.nodeIds && d in t.nodeIds
    decreases t.Hops(s, d)
  {
    s == n || (s != d && OnPath(t, Hop(t, s, d), d, n))
  }

  lemma {:induction false} OnPathStep(t: Topology, s: Node, d: Node, n: Node)
    requires t.Ok() && s in t.nodeIds && d in t.nodeIds && n in t.nodeIds && n != d
    requires OnPath(t, s, d, n)
    ensures OnPath(t, s, d, Hop(t, n, d))
    decreases t.Hops(s, d)
  {
    if s != n {
      OnPathStep(t, Hop(t, s, d), d, n);
    } else {
      assert OnPath(t, Hop(t, n, d), d, Hop(t, n, d));
    }
  }

  /** What the nodes from `n` on to `d` hold, destination first. */
  ghost function Along(t: Topology, d: Node, n: Node, segs: map<Node, seq<MsgPack>>): seq<MsgPack>
    requires t.Ok() && n in t.nodeIds && d in t.nodeIds
    requires segs.Keys == NodeSet(t.nodeIds)
    decreases t.Hops(n, d)
  {
    if n == d then segs[d] else Along(t, d, Hop(t, n, d), segs) + segs[n]
  }

  lemma {:induction false} AlongSame(
    t: Topology, d: Node, n: Node, a: map<Node, seq<MsgPack>>, b: map<Node, seq<MsgPack>>)
    requires t.Ok() && n in t.nodeIds && d in t.nodeIds
    requires a.Keys == b.Keys == NodeSet(t.nodeIds)
    requires forall k :: k in t.nodeIds && t.Hops(k, d) <= t.Hops(n, d) ==> a[k] == b[k]
    ensures Along(t, d, n, a) == Along(t, d, n, b)
    decreases t.Hops(n, d)
  {
    if n != d {
      AlongSame(t, d, Hop(t, n, d), a, b);
    }
  }

  /** A packet taken from the front of one node's share and put at the back of the next one's stays
      where it was in the line. */
  lemma {:induction false} AlongShift(
    t: Topology, d: Node, n: Node, at: Node, p: MsgPack,
    a: map<Node, seq<MsgPack>>, b: map<Node, seq<MsgPack>>)
    requires t.Ok() && n in t.nodeIds && d in t.nodeIds && at in t.nodeIds && at != d
    requires a.Keys == b.Keys == NodeSet(t.nodeIds)
    requires OnPath(t, n, d, at)
    requires a[at] == [p] + b[at]
    requires b[Hop(t, at, d)] == a[Hop(t, at, d)] + [p]
    requires forall k :: k in t.nodeIds && k != at && k != Hop(t, at, d) ==> a[k] == b[k]
    ensures Along(t, d, n, a) == Along(t, d, n, b)
    decreases t.Hops(n, d)
  {
    hide Topology.Ok;
    var m := Hop(t, n, d);
    if n == at {
      AlongAppend(t, d, m, p, a, b);
      assert Along(t, d, m, a) + ([p] + b[at]) == (Along(t, d, m, a) + [p]) + b[at];
    } else {
      OnPathHops(t, m, d, at);
      AlongShift(t, d, m, at, p, a, b);
    }
  }

  lemma {:induction false} OnPathHops(t: Topology, s: Node, d: Node, n: Node)
    requires t.Ok() && s in t.nodeIds && d in t.nodeIds && n in t.nodeIds && OnPath(t, s, d, n)
    ensures t.Hops(n, d) <= t.Hops(s, d)
    decreases t.Hops(s, d)
  {
    if s != n {
      OnPathHops(t, Hop(t, s, d), d, n);
    }
  }

  lemma {:induction false} AlongAppend(
    t: Topology, d: Node, n: Node, p: MsgPack, a: map<Node, seq<MsgPack>>, b: map<Node, seq<MsgPack>>)
    requires t.Ok() && n in t.nodeIds && d in t.nodeIds
    requires a.Keys == b.Keys == NodeSet(t.nodeIds)
    requires b[n] == a[n] + [p]
    requires forall k :: k in t.nodeIds && t.Hops(k, d) < t.Hops(n, d) ==> a[k] == b[k]
    ensures Along(t, d, n, b) == Along(t, d, n, a) + [p]
  {
    if n != d {
      AlongSame(t, d, Hop(t, n, d), a, b);
    }
  }

  /** What lies beyond a node of the path comes first in the line. */
  lemma {:induction false} AlongPrefix(t: Topology, d: Node, n: Node, at: Node, segs: map<Node, seq<MsgPack>>)
    requires t.Ok() && n in t.nodeIds && d in t.nodeIds && at in t.nodeIds
    requires segs.Keys == NodeSet(t.nodeIds)
    requires OnPath(t, n, d, at)
    ensures Along(t, d, at, segs) <= Along(t, d, n, segs)
    decreases t.Hops(n, d)
  {
    if n != at {
      AlongPrefix(t, d, Hop(t, n, d), at, segs);
    }
  }

  // ---------------------------------------------------------------- the packets of one flow

  ghost function Filter(f: Flow, l: seq<MsgPack>): seq<MsgPack> {
    if l == [] then [] else (if FlowOf(l[0]) == f then [l[0]] else []) + Filter(f, l[1..])
  }

  ghost function Slot(f: Flow, v: Option<MsgPack>): seq<MsgPack> {
    if v.Some? && FlowOf(v.value) == f then [v.value] else []
  }

  ghost function Packs(l: seq<PipelinedPack>): (r: seq<MsgPack>)
    ensures |r| == |l| && forall i :: 0 <= i < |l| ==> r[i] == l[i].pack
  {
    seq(|l|, i requires 0 <= i < |l| => l[i].pack)
  }

  lemma {:induction false} FilterConcat(f: Flow, a: seq<MsgPack>, b: seq<MsgPack>)
    ensures Filter(f, a + b) == Filter(f, a) + Filter(f, b)
  {
    if a == [] {
      assert a + b == b;
    } else {
      FilterConcat(f, a[1..], b);
      assert (a + b)[1..] == a[1..] + b;
    }
  }

  lemma {:induction false} FilterNone(f: Flow, l: seq<MsgPack>)
    requires forall i :: 0 <= i < |l| ==> FlowOf(l[i]) != f
    ensures Filter(f, l) == []
  {
    if l != [] {
      FilterNone(f, l[1..]);
    }
  }

  lemma {:induction false} FilterAll(f: Flow, l: seq<MsgPack>)
    requires forall i :: 0 <= i < |l| ==> FlowOf(l[i]) == f
    ensures Filter(f, l) == l
  {
    if l != [] {
      FilterAll(f, l[1..]);
    }
  }

  /** Taking out one packet: its own flow loses its first, the others lose nothing. */
  lemma FilterRemove(f: Flow, a: seq<MsgPack>, p: MsgPack, b: seq<MsgPack>)
    requires FlowOf(p) == f ==> forall j :: 0 <= j < |a| ==> FlowOf(a[j]) != f
    ensures FlowOf(p) == f ==> Filter(f, a + [p] + b) == [p] + Filter(f, a + b)
    ensures FlowOf(p) != f ==> Filter(f, a + [p] + b) == Filter(f, a + b)
  {
    FilterConcat(f, a + [p], b);
    FilterConcat(f, a, [p]);
    FilterConcat(f, a, b);
    if FlowOf(p) == f {
      FilterNone(f, a);
    }
  }
}

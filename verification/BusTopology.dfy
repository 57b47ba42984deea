/** The constructor of the bus: its checks on ports and routes, and the edges it builds
    (src/bus/symmulcha.cpp). */
module BusTopology {
  import opened Wrappers
  import opened RouteTable
  import opened BusModel

  type Edge = (Node, Node)

  /** Routes go from node to node of the bus. */
  ghost predicate RouteInside(route: Table, nodes: set<Node>) {
    forall a, b :: a in route && b in route[a] ==> a in nodes && route[a][b] in nodes
  }

  /** The set of node ids, as the order it is walked in. */
  method CollectNodes(portToNode: seq<Node>) returns (nodeIds: seq<Node>)
    ensures NoRepeats(nodeIds) && NodeSet(nodeIds) == NodeSet(portToNode)
  {
    nodeIds := [];
    for i := 0 to |portToNode|
      invariant NoRepeats(nodeIds) && NodeSet(nodeIds) == NodeSet(portToNode[..i])
    {
      assert NodeSet(portToNode[..i + 1]) == NodeSet(portToNode[..i]) + {portToNode[i]};
      if portToNode[i] !in nodeIds {
        assert NodeSet(nodeIds + [portToNode[i]]) == NodeSet(nodeIds) + {portToNode[i]};
        nodeIds := nodeIds + [portToNode[i]];
      } else {
        assert portToNode[i] in NodeSet(nodeIds);
      }
    }
    assert portToNode[..|portToNode|] == portToNode;
  }

  /** emplace for every port; the size of the map then tells whether a port came twice. */
  method CollectPorts(portIds: seq<Port>, portToNode: seq<Node>) returns (m: map<Port, Node>)
    requires |portIds| == |portToNode|
    ensures Collected(m, portIds, portToNode)
  {
    hide Collected;
    m := map[];
    var i := 0;
    NothingCollected<Port, Node>();
    assert portIds[..0] == [] && portToNode[..0] == [];
    while i < |portIds|
      invariant i <= |portIds| && Collected(m, portIds[..i], portToNode[..i])
    {
      CollectOne(m, portIds[..i], portToNode[..i], portIds[i], portToNode[i]);
      assert portIds[..i + 1] == portIds[..i] + [portIds[i]];
      assert portToNode[..i + 1] == portToNode[..i] + [portToNode[i]];
      if portIds[i] !in m {
        m := m[portIds[i] := portToNode[i]];
      }
      i := i + 1;
    }
    assert portIds[..i] == portIds && portToNode[..i] == portToNode;
  }

  /** Both directions of every hop in the table. */
  ghost predicate IsEdge(route: Table, e: Edge) {
    exists a, b :: a in route && b in route[a] && (e == (a, route[a][b]) || e == (route[a][b], a))
  }

  ghost predicate Both(route: Table, s: set<Edge>, a: Node, b: Node)
    requires a in route && b in route[a]
  {
    (a, route[a][b]) in s && (route[a][b], a) in s
  }

  /** The two nested loops that fill all_edges. */
  method CollectEdges(route: Table) returns (allEdges: set<Edge>)
    ensures forall e :: e in allEdges <==> IsEdge(route, e)
  {
    allEdges := {};
    var srcs := route.Keys;
    while srcs != {}
      invariant srcs <= route.Keys
      invariant forall e :: e in allEdges ==> IsEdge(route, e)
      invariant forall a, b :: a in route && b in route[a] && a !in srcs ==> Both(route, allEdges, a, b)
      decreases srcs
    {
      var a :| a in srcs;
      var dsts := route[a].Keys;
      while dsts != {}
        invariant dsts <= route[a].Keys
        invariant forall e :: e in allEdges ==> IsEdge(route, e)
        invariant forall a', b :: a' in route && b in route[a'] && a' !in srcs ==> Both(route, allEdges, a', b)
        invariant forall b :: b in route[a] && b !in dsts ==> Both(route, allEdges, a, b)
        decreases dsts
      {
        var b :| b in dsts;
        var conn := route[a][b];
        assert IsEdge(route, (a, conn)) && IsEdge(route, (conn, a));
        ghost var before := allEdges;
        allEdges := allEdges + {(a, conn), (conn, a)};
        assert forall a', b :: a' in route && b in route[a'] && Both(route, before, a', b) ==>
          Both(route, allEdges, a', b);
        dsts := dsts - {b};
      }
      srcs := srcs - {a};
    }
    assert forall a, b :: a in route && b in route[a] ==> Both(route, allEdges, a, b);
  }

  ghost predicate HopsInPlace(route: Table, a: Node) {
    a in route && exists b :: b in route[a] && route[a][b] == a
  }

  /** The edges from a node to itself. */
  ghost function SelfHops(route: Table): set<Edge> {
    set a | a in route && HopsInPlace(route, a) :: (a, a)
  }

  ghost function Diagonal(s: set<Edge>): set<Edge> {
    set e | e in s && e.0 == e.1
  }

  /** In a symmetric set of pairs, the pairs of different members come in twos. */
  lemma {:induction false} SymmetricSize(s: set<Edge>)
    requires forall a, b :: (a, b) in s ==> (b, a) in s
    ensures |s| % 2 == |Diagonal(s)| % 2
    decreases |s - Diagonal(s)|
  {
    var off := s - Diagonal(s);
    if off == {} {
      assert s == Diagonal(s);
    } else {
      var e :| e in off;
      var two := {e, (e.1, e.0)};
      assert (e.0, e.1) in s;
      assert |two| == 2;
      var rest := s - two;
      assert Diagonal(rest) == Diagonal(s);
      assert rest - Diagonal(rest) < s - Diagonal(s);
      SubsetSmaller(rest - Diagonal(rest), s - Diagonal(s));
      SymmetricSize(rest);
      assert |s| == |rest| + |two|;
    }
  }

  lemma SubsetSmaller(a: set<Edge>, b: set<Edge>)
    requires a < b
    ensures |a| < |b|
  {
    assert |b| == |a| + |b - a|;
  }

  /** The program's assertion on the number of edges holds if and only if an even number of nodes have a route that
      hops in place. */
  lemma EdgeCountEven(route: Table, allEdges: set<Edge>)
    requires forall e :: e in allEdges <==> IsEdge(route, e)
    ensures |allEdges| % 2 == |SelfHops(route)| % 2
  {
    forall a, b | (a, b) in allEdges
      ensures (b, a) in allEdges
    {
      assert IsEdge(route, (a, b));
      assert IsEdge(route, (b, a));
    }
    SymmetricSize(allEdges);
    forall e
      ensures e in Diagonal(allEdges) <==> e in SelfHops(route)
    {
      if e in SelfHops(route) {
        assert IsEdge(route, (e.0, e.0));
      }
    }
    assert Diagonal(allEdges) == SelfHops(route);
  }

  ghost function Ends(s: set<Edge>): set<Node> {
    (set e | e in s :: e.0) + (set e | e in s :: e.1)
  }

  /** Each edge in `done` has a number, and each number an edge. */
  ghost predicate Numbered(done: set<Edge>, edgeEnds: seq<Edge>, txs: map<Edge, nat>) {
    && txs.Keys == done
    && (forall e :: 0 <= e < |edgeEnds| ==> edgeEnds[e] in done)
    && (forall ab :: ab in txs ==> txs[ab] < |edgeEnds| && edgeEnds[txs[ab]] == ab)
  }

  /** Every node has the numbers of the edges that lead to it. */
  ghost predicate HungOn(edgeEnds: seq<Edge>, rxs: map<Node, seq<nat>>) {
    && (forall e :: 0 <= e < |edgeEnds| ==> edgeEnds[e].1 in rxs && e in rxs[edgeEnds[e].1])
    && (forall n, i :: n in rxs && 0 <= i < |rxs[n]| ==> rxs[n][i] < |edgeEnds| && edgeEnds[rxs[n][i]].1 == n)
  }

  /** The edges in `done` are numbered, and each hangs on its two nodes, which are made up if they are not there. */
  ghost predicate Connected(
    nodeIds: seq<Node>, done: set<Edge>, edgeEnds: seq<Edge>, txs: map<Edge, nat>, rxs: map<Node, seq<nat>>)
  {
    rxs.Keys == NodeSet(nodeIds) + Ends(done) && Numbered(done, edgeEnds, txs) && HungOn(edgeEnds, rxs)
  }

  /** operator[] of the map of nodes: an entry is made where there is none. */
  function Entry(rxs: map<Node, seq<nat>>, n: Node): map<Node, seq<nat>> {
    if n in rxs then rxs else rxs[n := []]
  }

  function Hang(rxs: map<Node, seq<nat>>, e: Edge, k: nat): map<Node, seq<nat>> {
    var r := Entry(Entry(rxs, e.0), e.1);
    r[e.1 := r[e.1] + [k]]
  }

  lemma HangIs(rxs: map<Node, seq<nat>>, e: Edge, k: nat)
    ensures Hang(rxs, e, k).Keys == rxs.Keys + {e.0, e.1}
    ensures forall n :: n in Hang(rxs, e, k) ==>
      Hang(rxs, e, k)[n] == (if n in rxs then rxs[n] else []) + if n == e.1 then [k] else []
  {
  }

  lemma EndsMore(s: set<Edge>, e: Edge)
    ensures Ends(s + {e}) == Ends(s) + {e.0, e.1}
  {
  }

  lemma ConnectOne(
    nodeIds: seq<Node>, done: set<Edge>, edgeEnds: seq<Edge>, txs: map<Edge, nat>, rxs: map<Node, seq<nat>>, e: Edge)
    requires Connected(nodeIds, done, edgeEnds, txs, rxs) && e !in done
    ensures Connected(nodeIds, done + {e}, edgeEnds + [e], txs[e := |edgeEnds|], Hang(rxs, e, |edgeEnds|))
  {
    hide Hang, Ends, NodeSet, Numbered, HungOn;
    HangIs(rxs, e, |edgeEnds|);
    EndsMore(done, e);
    NumberOne(done, edgeEnds, txs, e);
    HangOne(edgeEnds, rxs, e);
  }

  lemma NumberOne(done: set<Edge>, edgeEnds: seq<Edge>, txs: map<Edge, nat>, e: Edge)
    requires Numbered(done, edgeEnds, txs) && e !in done
    ensures Numbered(done + {e}, edgeEnds + [e], txs[e := |edgeEnds|])
  {
  }

  lemma HangOne(edgeEnds: seq<Edge>, rxs: map<Node, seq<nat>>, e: Edge)
    requires HungOn(edgeEnds, rxs)
    ensures HungOn(edgeEnds + [e], Hang(rxs, e, |edgeEnds|))
  {
    hide Hang;
    var k := |edgeEnds|;
    var ends, hung := edgeEnds + [e], Hang(rxs, e, k);
    HangIs(rxs, e, k);
    forall i | 0 <= i < |ends|
      ensures ends[i].1 in hung && i in hung[ends[i].1]
    {
      if i < k {
        assert ends[i] == edgeEnds[i];
        HangKeeps(rxs, e, k, edgeEnds[i].1, i);
      } else {
        assert hung[e.1][|hung[e.1]| - 1] == k;
      }
    }
    forall n, i | n in hung && 0 <= i < |hung[n]|
      ensures hung[n][i] < |ends| && ends[hung[n][i]].1 == n
    {
      assert if n in rxs && i < |rxs[n]| then hung[n][i] == rxs[n][i] else n == e.1 && hung[n][i] == k;
    }
  }

  lemma HangKeeps(rxs: map<Node, seq<nat>>, e: Edge, k: nat, n: Node, i: nat)
    requires n in rxs && i in rxs[n]
    ensures n in Hang(rxs, e, k) && i in Hang(rxs, e, k)[n]
  {
    hide Hang;
    HangIs(rxs, e, k);
    var j :| 0 <= j < |rxs[n]| && rxs[n][j] == i;
    assert Hang(rxs, e, k)[n][j] == i;
  }

  /** Number the edges and hang each on its two nodes. */
  method ConnectEdges(nodeIds: seq<Node>, allEdges: set<Edge>)
    returns (edgeEnds: seq<Edge>, txs: map<Edge, nat>, rxs: map<Node, seq<nat>>)
    ensures Connected(nodeIds, allEdges, edgeEnds, txs, rxs)
  {
    edgeEnds, txs := [], map[];
    rxs := map n | n in NodeKeys(nodeIds) :: [];
    var left := allEdges;
    assert Connected(nodeIds, allEdges - left, edgeEnds, txs, rxs);
    hide Connected;
    while left != {}
      invariant left <= allEdges && Connected(nodeIds, allEdges - left, edgeEnds, txs, rxs)
      decreases left
    {
      var e :| e in left;
      ConnectOne(nodeIds, allEdges - left, edgeEnds, txs, rxs, e);
      assert allEdges - left + {e} == allEdges - (left - {e});
      rxs := Hang(rxs, e, |edgeEnds|);
      txs := txs[e := |edgeEnds|];
      edgeEnds := edgeEnds + [e];
      left := left - {e};
    }
    assert allEdges - left == allEdges;
  }

  function NodeKeys(nodeIds: seq<Node>): (s: set<Node>)
    ensures s == NodeSet(nodeIds)
  {
    set n | n in nodeIds
  }

  /** Every port is at its node, once, and no others are there. */
  ghost predicate PortsHung(nodeIds: seq<Node>, portToNode: map<Port, Node>, nodePorts: map<Node, seq<Port>>) {
    && nodePorts.Keys == NodeSet(nodeIds)
    && (forall n, i :: n in nodePorts && 0 <= i < |nodePorts[n]| ==>
          nodePorts[n][i] in portToNode && portToNode[nodePorts[n][i]] == n)
    && (forall n :: n in nodePorts ==> NoRepeats(nodePorts[n]))
    && forall p :: p in portToNode ==> portToNode[p] in nodePorts && p in nodePorts[portToNode[p]]
  }

  /** Hang each port on its node. */
  method HangPorts(nodeIds: seq<Node>, portToNode: map<Port, Node>) returns (nodePorts: map<Node, seq<Port>>)
    requires forall p :: p in portToNode ==> portToNode[p] in nodeIds
    ensures PortsHung(nodeIds, portToNode, nodePorts)
  {
    nodePorts := map n | n in NodeKeys(nodeIds) :: [];
    var left := portToNode.Keys;
    while left != {}
      invariant left <= portToNode.Keys && nodePorts.Keys == NodeSet(nodeIds)
      invariant forall n, i :: n in nodePorts && 0 <= i < |nodePorts[n]| ==>
        nodePorts[n][i] in portToNode && nodePorts[n][i] !in left && portToNode[nodePorts[n][i]] == n
      invariant forall n :: n in nodePorts ==> NoRepeats(nodePorts[n])
      invariant forall p :: p in portToNode && p !in left ==> p in nodePorts[portToNode[p]]
      decreases left
    {
      var p :| p in left;
      var n := portToNode[p];
      ghost var before := nodePorts;
      nodePorts := nodePorts[n := nodePorts[n] + [p]];
      assert p in nodePorts[n] by {
        assert nodePorts[n][|nodePorts[n]| - 1] == p;
      }
      assert forall k, q :: k in before && q in before[k] ==> q in nodePorts[k];
      left := left - {p};
    }
  }

  ghost predicate AllWide(widths: seq<nat>, width: nat) {
    width > 0 && forall c :: 0 <= c < |widths| ==> widths[c] > 0
  }

  /** The program's check of the routes: each node of the bus gets to each other within as many hops as there are
      nodes. */
  ghost predicate AllReach(route: Table, portToNode: seq<Node>) {
    forall s, d {:trigger WalkDist(route, s, d, |Members(portToNode)|)} :: s in portToNode && d in portToNode ==>
      WalkDist(route, s, d, |Members(portToNode)|).Some?
  }

  /** For routes that stay on the bus, that is whether they ever get there. */
  lemma AllReachExactly(route: Table, portToNode: seq<Node>)
    requires RouteInside(route, NodeSet(portToNode))
    ensures AllReach(route, portToNode) <==>
      forall s, d :: s in portToNode && d in portToNode ==> EverReaches(route, s, d)
  {
    hide WalkDist, Next, EverReaches;
    assert Members(portToNode) == NodeSet(portToNode);
    InsideIsClosed(route, NodeSet(portToNode));
    forall s, d | s in portToNode && d in portToNode
      ensures WalkDist(route, s, d, |Members(portToNode)|).Some? <==> EverReaches(route, s, d)
    {
      BoundedWalkIsExact(route, NodeSet(portToNode), s, d, |Members(portToNode)|);
    }
  }

  lemma InsideIsClosed(route: Table, nodes: set<Node>)
    requires RouteInside(route, nodes)
    ensures Closed(route, nodes)
  {
  }

  /** For every table: the constructor's checks pass exactly when the ports are distinct, every node reaches every
      other, and an even number of nodes have routes that hop in place; then everything the bus relies on holds exactly
      when no width is zero and no route leaves the nodes of the bus. */
  method BuildTopology(
    portIds: seq<Port>, portToNode: seq<Node>, widths: seq<nat>, width: nat, routeLatency: nat, route: Table)
    returns (r: Option<Topology>)
    ensures r.Some? <==>
      && |portIds| == |portToNode| && NoRepeats(portIds) && AllReach(route, portToNode)
      && |SelfHops(route)| % 2 == 0
    ensures r.Some? ==>
      && (r.value.Ok() <==> AllWide(widths, width) && RouteInside(route, NodeSet(portToNode)))
      && r.value.chaWidths == widths && r.value.width == width && r.value.routeLatency == routeLatency
      && r.value.route == route && NodeSet(r.value.nodeIds) == NodeSet(portToNode) && NoRepeats(r.value.nodeIds)
      && (forall e :: IsEdge(route, e) <==> e in r.value.edgeEnds)
      && (forall p :: p in r.value.portToNode <==> p in portIds)
      && forall i :: 0 <= i < |portIds| ==>
           portIds[i] in r.value.portToNode && r.value.portToNode[portIds[i]] == portToNode[i]
  {
    hide WalkDist, Next, IsEdge, RouteInside, NoRepeats, Topology.Ok, EverReaches, Closed, SelfHops, AllWide, Connected,
      AllReach, PortsHung, NodeSet;
    var nodeIds := CollectNodes(portToNode);
    if |portIds| != |portToNode| {
      return None;
    }
    var ports := CollectPorts(portIds, portToNode);
    if |ports| != |portIds| {
      return None;
    }
    var ok := CheckRouteTable(nodeIds, |nodeIds|, route);
    SameNodes(portToNode, nodeIds, route);
    if !ok {
      return None;
    }
    var allEdges := CollectEdges(route);
    EdgeCountEven(route, allEdges);
    if |allEdges| % 2 != 0 {
      return None;
    }
    var nodePorts := HangPorts(nodeIds, ports);
    var edgeEnds, txs, rxs := ConnectEdges(nodeIds, allEdges);
    var t := Topology(widths, width, routeLatency, nodeIds, ports, nodePorts, edgeEnds, txs, rxs, route);
    EdgesNumbered(t, allEdges, nodeIds);
    if RouteInside(route, NodeSet(portToNode)) {
      PartsOk(t, allEdges);
    } else {
      LeavesBus(t, allEdges);
    }
    return Some(t);
  }

  lemma SameNodes(portToNode: seq<Node>, nodeIds: seq<Node>, route: Table)
    requires NoRepeats(nodeIds) && NodeSet(nodeIds) == NodeSet(portToNode)
    ensures forall n :: n in nodeIds <==> n in portToNode
    ensures AllReach(route, portToNode) <==>
      forall s, d :: s in nodeIds && d in nodeIds ==> WalkDist(route, s, d, |nodeIds|).Some?
  {
    hide WalkDist;
    NoRepeatsSize(nodeIds);
    assert NodeSet(nodeIds) == Members(nodeIds) && NodeSet(portToNode) == Members(portToNode);
    assert forall n :: n in nodeIds <==> n in Members(nodeIds);
    assert forall n :: n in portToNode <==> n in Members(portToNode);
  }

  /** What the parts of the constructor promise, put together. */
  lemma PartsOk(t: Topology, allEdges: set<Edge>)
    requires NoRepeats(t.nodeIds) && RouteInside(t.route, NodeSet(t.nodeIds))
    requires Connected(t.nodeIds, allEdges, t.edgeEnds, t.txs, t.rxs)
    requires PortsHung(t.nodeIds, t.portToNode, t.nodePorts)
    requires forall e :: e in allEdges <==> IsEdge(t.route, e)
    requires forall s, d :: s in t.nodeIds && d in t.nodeIds ==> WalkDist(t.route, s, d, |t.nodeIds|).Some?
    ensures t.Ok() <==> AllWide(t.chaWidths, t.width)
  {
    hide WalkDist, Ends, RouteInside, IsEdge, Next, Closed;
    EndsInside(t.route, t.nodeIds, allEdges);
    assert t.rxs.Keys == NodeSet(t.nodeIds);
    HopsAreEdges(t, allEdges);
    InsideIsClosed(t.route, NodeSet(t.nodeIds));
    EndsThere(t, allEdges);
    assert t.EdgesOk();
  }

  lemma EdgesNumbered(t: Topology, allEdges: set<Edge>, nodeIds: seq<Node>)
    requires Connected(nodeIds, allEdges, t.edgeEnds, t.txs, t.rxs)
    ensures forall e :: e in allEdges <==> e in t.edgeEnds
  {
    hide HungOn, Ends;
    forall e | e in allEdges
      ensures e in t.edgeEnds
    {
      assert e in t.txs && t.edgeEnds[t.txs[e]] == e;
    }
  }

  lemma EndsThere(t: Topology, allEdges: set<Edge>)
    requires Numbered(allEdges, t.edgeEnds, t.txs) && Ends(allEdges) <= NodeSet(t.nodeIds)
    ensures forall e :: 0 <= e < |t.edgeEnds| ==> t.edgeEnds[e].0 in t.nodeIds
  {
    forall e | 0 <= e < |t.edgeEnds|
      ensures t.edgeEnds[e].0 in t.nodeIds
    {
      assert t.edgeEnds[e] in allEdges && t.edgeEnds[e].0 in Ends(allEdges);
    }
  }

  lemma HopsAreEdges(t: Topology, allEdges: set<Edge>)
    requires forall e :: e in allEdges <==> IsEdge(t.route, e)
    ensures forall n: Node, d: Node :: Next(t.route, n, d).Some? ==> (n, Next(t.route, n, d).value) in allEdges
  {
    forall n: Node, d: Node | Next(t.route, n, d).Some?
      ensures (n, Next(t.route, n, d).value) in allEdges
    {
      assert IsEdge(t.route, (n, t.route[n][d]));
    }
  }

  lemma EndsInside(route: Table, nodeIds: seq<Node>, allEdges: set<Edge>)
    requires RouteInside(route, NodeSet(nodeIds)) && forall e :: e in allEdges <==> IsEdge(route, e)
    ensures Ends(allEdges) <= NodeSet(nodeIds)
  {
    forall e | e in allEdges
      ensures e.0 in NodeSet(nodeIds) && e.1 in NodeSet(nodeIds)
    {
      assert IsEdge(route, e);
    }
  }

  /** A hop to or from elsewhere makes up a node that is not on the bus. */
  lemma LeavesBus(t: Topology, allEdges: set<Edge>)
    requires !RouteInside(t.route, NodeSet(t.nodeIds))
    requires Connected(t.nodeIds, allEdges, t.edgeEnds, t.txs, t.rxs)
    requires forall e :: e in allEdges <==> IsEdge(t.route, e)
    ensures !t.Ok()
  {
    hide Topology.EdgesOk, WalkDist, Closed;
    var a, b :| a in t.route && b in t.route[a] &&
      !(a in NodeSet(t.nodeIds) && t.route[a][b] in NodeSet(t.nodeIds));
    var e := (a, t.route[a][b]);
    assert IsEdge(t.route, e);
    assert e in allEdges && e.0 in Ends(allEdges) && e.1 in Ends(allEdges);
    assert t.rxs.Keys != NodeSet(t.nodeIds);
  }

  /** A table that passes the route check and fails the assertion on the edges: one node, with a route to itself that
      hops in place. */
  lemma OneHopInPlace()
    ensures var route, nodes := map[0 := map[0 := 0]], [0];
      AllReach(route, nodes) && RouteInside(route, NodeSet(nodes)) && SelfHops(route) == {(0, 0)}
      && |SelfHops(route)| % 2 == 1
  {
    var route: Table := map[0 := map[0 := 0]];
    assert route[0][0] == 0 && HopsInPlace(route, 0);
    assert SelfHops(route) == {(0, 0)};
  }
}

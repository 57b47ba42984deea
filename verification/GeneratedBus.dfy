/** The generated routing tables as the network's constructor sees them: it never rejects one. */
module GeneratedBus {
  import opened Wrappers
  import opened RouteTable
  import opened RouteGenerators
  import opened BusModel
  import opened BusTopology
  import opened Arithmetic
  import opened MeshCoordinates
  import RouteMesh

  lemma AcceptedIsInside(route: Table, nodes: seq<Node>)
    requires Accepted(route, nodes) && Within(route, nodes)
    ensures RouteInside(route, NodeSet(nodes)) && SelfHops(route) == {}
    ensures forall s, d :: s in nodes && d in nodes ==> EverReaches(route, s, d)
  {
    hide WalkDist;
    forall a, b | a in route && b in route[a]
      ensures a in NodeSet(nodes) && route[a][b] in NodeSet(nodes) && route[a][b] != a
    {
      assert Next(route, a, b) == Some(route[a][b]);
    }
  }

  /** The ports are distinct, and there is one or more at every node. */
  ghost predicate Placed(portIds: seq<Port>, portToNode: seq<Node>, nodes: seq<Node>) {
    |portIds| == |portToNode| && NoRepeats(portIds) && NodeSet(portToNode) == NodeSet(nodes)
  }

  lemma SameMembers(portToNode: seq<Node>, nodes: seq<Node>)
    requires NodeSet(portToNode) == NodeSet(nodes)
    ensures forall n :: n in portToNode <==> n in nodes
  {
    assert forall n :: n in portToNode <==> n in NodeSet(portToNode);
    assert forall n :: n in nodes <==> n in NodeSet(nodes);
  }

  /** A double ring, with any number of ports at each node. */
  method DoubleRingBus(
    portIds: seq<Port>, portToNode: seq<Node>, nodes: seq<Node>, widths: seq<nat>, width: nat, latency: nat)
    returns (r: Option<Topology>)
    requires NoRepeats(nodes) && Placed(portIds, portToNode, nodes) && AllWide(widths, width)
    ensures r.Some? && r.value.Ok()
  {
    hide RingFilled, Topology.Ok, Accepted, RouteInside, EverReaches, SelfHops, AllWide, AllReach;
    var route := GenDoubleRing(nodes);
    RingAccepted(route, nodes, true);
    RingWithin(route, nodes, true);
    AcceptedIsInside(route, nodes);
    SameMembers(portToNode, nodes);
    AllReachExactly(route, portToNode);
    r := BuildTopology(portIds, portToNode, widths, width, latency, route);
  }

  lemma RingWithin(route: Table, nodes: seq<Node>, both: bool)
    requires RingFilled(route, nodes, both, |nodes|, 1)
    ensures Within(route, nodes)
  {
  }

  /** An XY torus, with any number of ports at each node; the generator must let its size pass. */
  method MeshBus(
    portIds: seq<Port>, portToNode: seq<Node>, g: RouteMesh.Grid, both: bool, widths: seq<nat>, width: nat,
    latency: nat)
    returns (r: Option<Topology>)
    requires g.Valid() && g.cx < TWO_TO_32 && g.cy < TWO_TO_32
    requires NoRepeats(g.nodes) && Placed(portIds, portToNode, g.nodes) && AllWide(widths, width)
    ensures r.Some? <==> KeysFit(g.cx, g.cy)
    ensures r.Some? ==> r.value.Ok()
  {
    hide RouteMesh.Filled, Topology.Ok, Accepted, RouteInside, EverReaches, SelfHops, AllWide, AllReach;
    var table := RouteMesh.GenMesh2dXY(g, both);
    if table == None {
      return None;
    }
    var route := table.value;
    RouteMesh.MeshAccepted(g, both, route);
    RouteMesh.MeshWithin(g, both, route);
    AcceptedIsInside(route, g.nodes);
    SameMembers(portToNode, g.nodes);
    AllReachExactly(route, portToNode);
    r := BuildTopology(portIds, portToNode, widths, width, latency, route);
  }
}

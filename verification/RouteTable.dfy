/** Routing tables and the bounded walk that checks them
    (src/bus/routetable.cpp, and the constructor of the bus). */
module RouteTable {
  import opened Wrappers

  type Node = nat

  /** Source node to destination node to next hop. */
  type Table = map<Node, map<Node, Node>>

  function Next(route: Table, cur: Node, dst: Node): Option<Node> {
    if cur in route && dst in route[cur] then Some(route[cur][dst]) else None
  }

  /** The number of hops the table takes from `cur` to `dst`, if it needs no more than `fuel`. */
  function WalkDist(route: Table, cur: Node, dst: Node, fuel: nat): Option<nat>
    decreases fuel
  {
    if cur == dst then Some(0)
    else if fuel == 0 then None
    else match Next(route, cur, dst)
      case None => None
      case Some(n) =>
        match WalkDist(route, n, dst, fuel - 1)
        case None => None
        case Some(h) => Some(h + 1)
  }

  /** Following the table from `cur` gets to `dst` after some number of hops, however many. */
  ghost predicate EverReaches(route: Table, cur: Node, dst: Node) {
    exists fuel: nat :: WalkDist(route, cur, dst, fuel).Some?
  }

  ghost function NodeSet(nodes: seq<Node>): set<Node> {
    set n | n in nodes
  }

  /** Next hops never leave the node set. */
  ghost predicate Closed(route: Table, nodes: set<Node>) {
    forall n, d :: n in nodes && d in nodes && Next(route, n, d).Some? ==> Next(route, n, d).value in nodes
  }

  lemma {:induction false} WalkDistMonotone(route: Table, cur: Node, dst: Node, small: nat, large: nat)
    requires small <= large
    requires WalkDist(route, cur, dst, small).Some?
    ensures WalkDist(route, cur, dst, large) == WalkDist(route, cur, dst, small)
    ensures WalkDist(route, cur, dst, small).value <= small
    decreases small
  {
    if cur != dst {
      WalkDistMonotone(route, Next(route, cur, dst).value, dst, small - 1, large - 1);
    }
  }

  /** The nodes a walk of `fuel` hops visits. */
  ghost function Visited(route: Table, cur: Node, dst: Node, fuel: nat): set<Node>
    requires WalkDist(route, cur, dst, fuel).Some?
    decreases fuel
  {
    if cur == dst then {cur}
    else {cur} + Visited(route, Next(route, cur, dst).value, dst, fuel - 1)
  }

  /** A walk that arrives never visits a node twice: the nodes it visits have distances h, h-1, ..., 0. */
  lemma {:induction false} VisitedDistinct(route: Table, cur: Node, dst: Node, fuel: nat)
    requires WalkDist(route, cur, dst, fuel).Some?
    ensures |Visited(route, cur, dst, fuel)| == WalkDist(route, cur, dst, fuel).value + 1
    ensures forall n :: n in Visited(route, cur, dst, fuel) ==>
      && WalkDist(route, n, dst, fuel).Some?
      && WalkDist(route, n, dst, fuel).value <= WalkDist(route, cur, dst, fuel).value
    decreases fuel
  {
    if cur != dst {
      var next := Next(route, cur, dst).value;
      VisitedDistinct(route, next, dst, fuel - 1);
      var rest := Visited(route, next, dst, fuel - 1);
      forall n | n in rest
        ensures WalkDist(route, n, dst, fuel).Some?
        ensures WalkDist(route, n, dst, fuel).value < WalkDist(route, cur, dst, fuel).value
      {
        WalkDistMonotone(route, n, dst, fuel - 1, fuel);
      }
      assert cur !in rest;
    }
  }

  lemma {:induction false} VisitedInside(route: Table, nodes: set<Node>, cur: Node, dst: Node, fuel: nat)
    requires Closed(route, nodes) && cur in nodes && dst in nodes
    requires WalkDist(route, cur, dst, fuel).Some?
    ensures Visited(route, cur, dst, fuel) <= nodes
    decreases fuel
  {
    if cur != dst {
      VisitedInside(route, nodes, Next(route, cur, dst).value, dst, fuel - 1);
    }
  }

  lemma {:induction false} SubsetSize(small: set<Node>, large: set<Node>)
    requires small <= large
    ensures |small| <= |large|
    decreases small
  {
    if small != {} {
      var x :| x in small;
      SubsetSize(small - {x}, large - {x});
    }
  }

  /** The bounded check is exact: a table that stays inside the node set reaches the destination
      within as many hops as there are nodes, or never. */
  lemma BoundedWalkIsExact(route: Table, nodes: set<Node>, src: Node, dst: Node, bound: nat)
    requires Closed(route, nodes) && src in nodes && dst in nodes
    requires |nodes| <= bound
    ensures WalkDist(route, src, dst, bound).Some? <==> EverReaches(route, src, dst)
    ensures WalkDist(route, src, dst, bound).Some? ==> WalkDist(route, src, dst, bound).value < |nodes|
  {
    if EverReaches(route, src, dst) {
      var fuel: nat :| WalkDist(route, src, dst, fuel).Some?;
      VisitedDistinct(route, src, dst, fuel);
      VisitedInside(route, nodes, src, dst, fuel);
      SubsetSize(Visited(route, src, dst, fuel), nodes);
      WalkDistEnough(route, src, dst, fuel, WalkDist(route, src, dst, fuel).value);
      WalkDistMonotone(route, src, dst, WalkDist(route, src, dst, fuel).value, bound);
    }
  }

  /** A walk needs no more fuel than its own length. */
  lemma {:induction false} WalkDistEnough(route: Table, cur: Node, dst: Node, fuel: nat, h: nat)
    requires WalkDist(route, cur, dst, fuel) == Some(h)
    ensures WalkDist(route, cur, dst, h) == Some(h)
    decreases fuel
  {
    if cur != dst {
      WalkDistEnough(route, Next(route, cur, dst).value, dst, fuel - 1, h - 1);
    }
  }

  /** The walk of the check for one pair of nodes. */
  method CheckPair(route: Table, src: Node, dst: Node, maxJmp: nat) returns (reached: bool)
    ensures reached <==> WalkDist(route, src, dst, maxJmp).Some?
  {
    var cur := src;
    var i := 0;
    while i < maxJmp && cur != dst
      invariant i <= maxJmp
      invariant WalkDist(route, src, dst, maxJmp).Some? <==> WalkDist(route, cur, dst, maxJmp - i).Some?
    {
      if cur !in route {
        break;
      }
      if dst !in route[cur] {
        break;
      }
      cur := route[cur][dst];
      i := i + 1;
    }
    reached := cur == dst;
  }

  /** The whole check. The program asserts; here the answer is returned. */
  method CheckRouteTable(nodes: seq<Node>, maxJmp: nat, route: Table) returns (ok: bool)
    ensures ok <==> forall s, d :: s in nodes && d in nodes ==> WalkDist(route, s, d, maxJmp).Some?
  {
    for i := 0 to |nodes|
      invariant forall s, d :: s in nodes[..i] && d in nodes ==> WalkDist(route, s, d, maxJmp).Some?
    {
      for j := 0 to |nodes|
        invariant forall d :: d in nodes[..j] ==> WalkDist(route, nodes[i], d, maxJmp).Some?
      {
        var reached := CheckPair(route, nodes[i], nodes[j], maxJmp);
        if !reached {
          return false;
        }
      }
    }
    return true;
  }

  /** What passing the check means: every node reaches every other one, within as many hops as the list is long. For
      a table that stays among the nodes, that is whether it ever does. */
  method AssertRouteTableValid(nodes: seq<Node>, route: Table) returns (ok: bool)
    ensures ok <==> forall s, d :: s in nodes && d in nodes ==> WalkDist(route, s, d, |nodes|).Some?
    ensures ok ==> forall s, d :: s in nodes && d in nodes ==> EverReaches(route, s, d)
    ensures Closed(route, NodeSet(nodes)) ==>
      (ok <==> forall s, d :: s in nodes && d in nodes ==> EverReaches(route, s, d))
  {
    ok := CheckRouteTable(nodes, |nodes|, route);
    DistinctSize(nodes);
    forall s, d | Closed(route, NodeSet(nodes)) && s in nodes && d in nodes
      ensures WalkDist(route, s, d, |nodes|).Some? <==> EverReaches(route, s, d)
    {
      BoundedWalkIsExact(route, NodeSet(nodes), s, d, |nodes|);
    }
  }

  lemma {:induction false} DistinctSize(nodes: seq<Node>)
    ensures |NodeSet(nodes)| <= |nodes|
  {
    if nodes != [] {
      DistinctSize(nodes[1..]);
      assert NodeSet(nodes) == {nodes[0]} + NodeSet(nodes[1..]);
    }
  }
}

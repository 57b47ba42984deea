/** The generators of routing tables (src/bus/routetable.cpp): rings, double rings and the XY torus. The
    table and the node list, passed by reference, are values here. */
module RouteGenerators {
  import opened Wrappers
  import opened RouteTable
  import opened Rings

  /** One entry is set, all others are as before. */
  ghost predicate Inserted(src: Node, dst: Node, next: Node, table: Table, r: Table) {
    forall s: Node, d: Node :: Next(r, s, d) == if s == src && d == dst then Some(next) else Next(table, s, d)
  }

  method RouteInsert(src: Node, dst: Node, next: Node, table: Table) returns (r: Table)
    ensures Inserted(src, dst, next, table, r)
  {
    var row := if src in table then table[src] else map[];
    r := table[src := row[dst := next]];
  }

  /** The collision check of the generators counts the positions, not the nodes: it never fails. */
  method CollisionCheck(nodes: seq<Node>) returns (ok: bool)
    ensures ok
  {
    var nodeidxs: map<nat, Node> := map[];
    var i: nat := 0;
    while i < |nodes|
      invariant i <= |nodes| && |nodeidxs| == i && forall k: nat :: k in nodeidxs <==> k < i
    {
      nodeidxs := nodeidxs[i := nodes[i]];
      i := i + 1;
    }
    ok := |nodeidxs| == |nodes|;
  }

  /** No entries but between nodes of the list. */
  ghost predicate Within(route: Table, nodes: seq<Node>) {
    forall s: Node, d: Node :: Next(route, s, d).Some? ==> s in nodes && d in nodes
  }

  // ---------------------------------------------------------------- rings

  /** The table is complete for the sources before `i`, and for source `i` up to forward distance `k`; of a list
      with a node in it twice, nothing is said but that the table stays within the list. */
  ghost predicate RingFilled(route: Table, nodes: seq<Node>, both: bool, i: nat, k: nat) {
    && Within(route, nodes)
    && (NoRepeats(nodes) ==> forall a, b :: 0 <= a < |nodes| && 0 <= b < |nodes| ==>
         Next(route, nodes[a], nodes[b]) ==
           if a != b && (a < i || (a == i && Forward(a, b, |nodes|) < k))
           then Some(nodes[Toward(a, b, |nodes|, both)]) else None)
  }

  lemma InsertRing(route: Table, nodes: seq<Node>, both: bool, i: nat, k: nat, r: Table)
    requires i < |nodes| && 0 < k < |nodes| && RingFilled(route, nodes, both, i, k)
    requires var j := Ahead(i, k, |nodes|); Inserted(nodes[i], nodes[j], nodes[Toward(i, j, |nodes|, both)], route, r)
    ensures RingFilled(r, nodes, both, i, k + 1)
  {
    hide Next, Toward;
    var j := Ahead(i, k, |nodes|);
    forall a, b | NoRepeats(nodes) && 0 <= a < |nodes| && 0 <= b < |nodes|
      ensures Next(r, nodes[a], nodes[b]) ==
        if a != b && (a < i || (a == i && Forward(a, b, |nodes|) < k + 1))
        then Some(nodes[Toward(a, b, |nodes|, both)]) else None
    {
      assert nodes[a] == nodes[i] ==> a == i;
      assert nodes[b] == nodes[j] ==> b == j;
    }
  }

  lemma NextSource(route: Table, nodes: seq<Node>, both: bool, i: nat, k: nat)
    requires i < |nodes| <= k && RingFilled(route, nodes, both, i, k)
    ensures RingFilled(route, nodes, both, i + 1, 1)
  {
    hide Next, Toward;
  }

  method GenSingleRing(nodes: seq<Node>) returns (out: Table)
    ensures RingFilled(out, nodes, false, |nodes|, 1)
  {
    hide RingFilled, Inserted, Ahead, Forward, NoRepeats;
    out := map[];
    EmptyRing(nodes, false);
    var cnt := |nodes|;
    var i: nat := 0;
    while i < cnt
      invariant i <= cnt && RingFilled(out, nodes, false, i, 1)
    {
      StepAhead(i, 0, cnt);
      var idx := (i + 1) % cnt;
      var next := nodes[idx];
      var j: nat := 0;
      while j < cnt - 1
        invariant j <= cnt - 1 && idx == Ahead(i, j + 1, cnt) && next == nodes[Succ(i, cnt)]
        invariant RingFilled(out, nodes, false, i, j + 1)
      {
        ghost var before := out;
        out := RouteInsert(nodes[i], nodes[idx], next, out);
        WhichWay(i, j + 1, cnt, false);
        InsertRing(before, nodes, false, i, j + 1, out);
        StepAhead(i, j + 1, cnt);
        idx := (idx + 1) % cnt;
        j := j + 1;
      }
      NextSource(out, nodes, false, i, j + 1);
      i := i + 1;
    }
  }

  /** The first half of the way round is reached forward. */
  lemma WhichWay(i: nat, k: nat, n: nat, both: bool)
    requires i < n && 0 < k < n
    ensures Toward(i, Ahead(i, k, n), n, both) == if both && k > n / 2 then Pred(i, n) else Succ(i, n)
  {
  }

  lemma RoundOnce(i: nat, k: nat, n: nat)
    requires i < n && 0 < k <= n
    ensures Ahead(i, k, n) == i <==> k == n
  {
  }

  lemma EmptyRing(nodes: seq<Node>, both: bool)
    ensures RingFilled(map[], nodes, both, 0, 1)
  {
  }

  method GenDoubleRing(nodes: seq<Node>) returns (out: Table)
    ensures RingFilled(out, nodes, true, |nodes|, 1)
  {
    hide RingFilled, NoRepeats;
    out := map[];
    EmptyRing(nodes, true);
    var i: nat := 0;
    while i < |nodes|
      invariant i <= |nodes| && RingFilled(out, nodes, true, i, 1)
    {
      out := DoubleRingSource(nodes, i, out);
      i := i + 1;
    }
  }

  /** The entries of one source: half the ring forward, the rest backward. */
  method DoubleRingSource(nodes: seq<Node>, i: nat, table: Table) returns (out: Table)
    requires i < |nodes| && RingFilled(table, nodes, true, i, 1)
    ensures RingFilled(out, nodes, true, i + 1, 1)
  {
    hide RingFilled, Inserted, Ahead, Forward, NoRepeats, Toward;
    out := table;
    var cnt := |nodes|;
    StepAhead(i, 0, cnt);
    var idx := (i + 1) % cnt;
    var next := nodes[idx];
    var j: nat := 0;
    while j < cnt / 2
      invariant j <= cnt / 2 && idx == Ahead(i, j + 1, cnt) && next == nodes[Succ(i, cnt)]
      invariant RingFilled(out, nodes, true, i, j + 1)
    {
      ghost var before := out;
      WhichWay(i, j + 1, cnt, true);
      StepAhead(i, j + 1, cnt);
      out := RouteInsert(nodes[i], nodes[idx], next, out);
      InsertRing(before, nodes, true, i, j + 1, out);
      idx := (idx + 1) % cnt;
      j := j + 1;
    }
    next := if i == 0 then nodes[cnt - 1] else nodes[i - 1];
    ghost var k := j + 1;
    RoundOnce(i, k, cnt);
    while idx != i
      invariant cnt / 2 < k <= cnt && (idx == i <==> k == cnt) && idx == Ahead(i, k, cnt) && next == nodes[Pred(i, cnt)]
      invariant RingFilled(out, nodes, true, i, k)
      decreases cnt - k
    {
      ghost var before := out;
      WhichWay(i, k, cnt, true);
      StepAhead(i, k, cnt);
      out := RouteInsert(nodes[i], nodes[idx], next, out);
      InsertRing(before, nodes, true, i, k, out);
      idx := (idx + 1) % cnt;
      k := k + 1;
      RoundOnce(i, k, cnt);
    }
    NextSource(out, nodes, true, i, k);
  }

  /** Following a ring table takes exactly the ring distance: forward for the single ring, the shorter way
      round for the double one. */
  lemma {:induction false} RingWalk(route: Table, nodes: seq<Node>, both: bool, i: nat, j: nat)
    requires NoRepeats(nodes) && RingFilled(route, nodes, both, |nodes|, 1) && i < |nodes| && j < |nodes|
    ensures var d := Distance(i, j, |nodes|, both); WalkDist(route, nodes[i], nodes[j], d) == Some(d)
    decreases Distance(i, j, |nodes|, both)
  {
    hide Next, Toward, Distance, RingFilled, WalkDist;
    RingNext(route, nodes, both, i, j);
    if i != j {
      Closer(i, j, |nodes|, both);
      RingWalk(route, nodes, both, Toward(i, j, |nodes|, both), j);
    }
    OneHop(route, nodes[i], nodes[j], Distance(i, j, |nodes|, both));
  }

  /** A generated ring table takes exactly the ring distances, between all positions of the list, if and only if no
      node is in the list twice. The program's collision check does not tell. */
  lemma RingExactly(route: Table, nodes: seq<Node>, both: bool)
    requires RingFilled(route, nodes, both, |nodes|, 1)
    ensures NoRepeats(nodes) <==>
      forall i, j :: 0 <= i < |nodes| && 0 <= j < |nodes| ==>
        var d := Distance(i, j, |nodes|, both); WalkDist(route, nodes[i], nodes[j], d) == Some(d)
  {
    hide RingFilled, Distance;
    if NoRepeats(nodes) {
      forall i, j | 0 <= i < |nodes| && 0 <= j < |nodes|
        ensures var d := Distance(i, j, |nodes|, both); WalkDist(route, nodes[i], nodes[j], d) == Some(d)
      {
        RingWalk(route, nodes, both, i, j);
      }
    } else {
      var i, j :| 0 <= i < j < |nodes| && nodes[i] == nodes[j];
      assert WalkDist(route, nodes[i], nodes[j], Distance(i, j, |nodes|, both)) == Some(0);
    }
  }

  lemma RingNext(route: Table, nodes: seq<Node>, both: bool, i: nat, j: nat)
    requires NoRepeats(nodes) && RingFilled(route, nodes, both, |nodes|, 1) && i < |nodes| && j < |nodes|
    ensures nodes[i] == nodes[j] <==> i == j
    ensures i != j ==> Next(route, nodes[i], nodes[j]) == Some(nodes[Toward(i, j, |nodes|, both)])
  {
    hide Next, Toward, Forward;
  }

  lemma OneHop(route: Table, s: Node, d: Node, h: nat)
    ensures s == d ==> WalkDist(route, s, d, h) == Some(0)
    ensures s != d && h > 0 && Next(route, s, d).Some? ==>
      WalkDist(route, Next(route, s, d).value, d, h - 1) == Some(h - 1) ==> WalkDist(route, s, d, h) == Some(h)
  {
  }

  /** What the constructor of the network asks of a table: it stays among the nodes, never hops in place,
      and passes the bounded check. */
  ghost predicate Accepted(route: Table, nodes: seq<Node>) {
    && Closed(route, NodeSet(nodes))
    && (forall n: Node, d: Node :: Next(route, n, d) != Some(n))
    && (forall s, d :: s in nodes && d in nodes ==> WalkDist(route, s, d, |nodes|).Some?)
  }

  lemma RingAccepted(route: Table, nodes: seq<Node>, both: bool)
    requires NoRepeats(nodes) && RingFilled(route, nodes, both, |nodes|, 1)
    ensures Accepted(route, nodes)
  {
    hide Next, WalkDist;
    forall s, d | s in nodes && d in nodes
      ensures WalkDist(route, s, d, |nodes|).Some?
    {
      var i, j :| 0 <= i < |nodes| && 0 <= j < |nodes| && nodes[i] == s && nodes[j] == d;
      RingWalk(route, nodes, both, i, j);
      WalkDistMonotone(route, s, d, Distance(i, j, |nodes|, both), |nodes|);
    }
    forall n: Node, d: Node | Next(route, n, d).Some?
      ensures Next(route, n, d).value in nodes && Next(route, n, d).value != n
    {
      var i, j :| 0 <= i < |nodes| && 0 <= j < |nodes| && nodes[i] == n && nodes[j] == d;
      assert Next(route, nodes[i], nodes[j]).Some?;
    }
  }
}

/** The XY torus generator (src/bus/routetable.cpp: genroute_mesh2d_xy). */
module RouteMesh {
  import opened Arithmetic
  import opened Wrappers
  import opened RouteTable
  import opened Rings
  import opened RouteGenerators
  import opened MeshCoordinates

  /** The node list as a grid: `x` counts within a row. */
  datatype Grid = Grid(nodes: seq<Node>, cx: nat, cy: nat) {
    predicate Valid() { |nodes| == cx * cy }

    function At(x: nat, y: nat): Node
      requires Valid() && x < cx && y < cy
    {
      InRange(x, y, cx, cy);
      nodes[x + y * cx]
    }
  }

  lemma InRange(x: nat, y: nat, cx: nat, cy: nat)
    requires x < cx && y < cy
    ensures x + y * cx < cx * cy
  {
    assert cx * cy == (cy - 1 - y) * cx + y * cx + cx;
  }

  lemma SameIndex(x: nat, y: nat, a: nat, b: nat, cx: nat)
    requires x < cx && a < cx && x + y * cx == a + b * cx
    ensures x == a && y == b
  {
    if y > b {
      MulLess(b, y, cx);
    } else if y < b {
      MulLess(y, b, cx);
    }
  }

  lemma {:induction false} SplitIndex(i: nat, cx: nat, cy: nat) returns (x: nat, y: nat)
    requires i < cx * cy
    ensures x < cx && y < cy && i == x + y * cx
    decreases cy
  {
    if i < cx {
      x, y := i, 0;
    } else {
      assert i - cx < cx * (cy - 1);
      x, y := SplitIndex(i - cx, cx, cy - 1);
      y := y + 1;
      assert y * cx == (y - 1) * cx + cx;
    }
  }

  lemma GridNodes(g: Grid)
    requires g.Valid()
    ensures forall x, y :: 0 <= x < g.cx && 0 <= y < g.cy ==> g.At(x, y) in g.nodes
    ensures forall n :: n in g.nodes ==> exists x, y :: 0 <= x < g.cx && 0 <= y < g.cy && g.At(x, y) == n
  {
    forall x, y | 0 <= x < g.cx && 0 <= y < g.cy
      ensures g.At(x, y) in g.nodes
    {
      InRange(x, y, g.cx, g.cy);
    }
    forall n | n in g.nodes
      ensures exists x, y :: 0 <= x < g.cx && 0 <= y < g.cy && g.At(x, y) == n
    {
      var i :| 0 <= i < |g.nodes| && g.nodes[i] == n;
      var x, y := SplitIndex(i, g.cx, g.cy);
      assert g.At(x, y) == n;
    }
  }

  lemma GridDistinct(g: Grid, x: nat, y: nat, a: nat, b: nat)
    requires g.Valid() && NoRepeats(g.nodes) && x < g.cx && a < g.cx && y < g.cy && b < g.cy
    ensures g.At(x, y) == g.At(a, b) <==> x == a && y == b
  {
    InRange(x, y, g.cx, g.cy);
    InRange(a, b, g.cx, g.cy);
    if g.At(x, y) == g.At(a, b) {
      SameIndex(x, y, a, b, g.cx);
    }
  }

  /** The hop the generator chooses: along the row until the column is right, then along the column. */
  function MeshNext(g: Grid, both: bool, ax: nat, ay: nat, tx: nat, ty: nat): Node
    requires g.Valid() && ax < g.cx && ay < g.cy && tx < g.cx && ty < g.cy
  {
    if ax != tx then g.At(Toward(ax, tx, g.cx, both), ay) else g.At(ax, Toward(ay, ty, g.cy, both))
  }

  /** How far the generator has come: sources before (x, y) are complete; for source (x, y), the columns
      nearer than `k` steps ahead, column `k` up to row `y2`, and its own column up to `m` steps ahead. */
  datatype Progress = Progress(x: nat, y: nat, k: nat, y2: nat, m: nat)

  predicate Done(g: Grid, p: Progress, ax: nat, ay: nat, tx: nat, ty: nat)
    requires ax < g.cx && ay < g.cy && tx < g.cx && ty < g.cy
  {
    if ay < p.y || (ay == p.y && ax < p.x) then ax != tx || ay != ty
    else if ax != p.x || ay != p.y then false
    else if tx != ax then Forward(ax, tx, g.cx) < p.k || (Forward(ax, tx, g.cx) == p.k && ty < p.y2)
    else ty != ay && Forward(ay, ty, g.cy) < p.m
  }

  /** The entries done are in the table, and no others; of a list with a node in it twice, nothing is said but that
      the table stays within the list. */
  ghost predicate Filled(g: Grid, both: bool, route: Table, p: Progress)
    requires g.Valid()
  {
    && Within(route, g.nodes)
    && (NoRepeats(g.nodes) ==>
          forall ax: nat, ay: nat, tx: nat, ty: nat :: ax < g.cx && ay < g.cy && tx < g.cx && ty < g.cy ==>
         Next(route, g.At(ax, ay), g.At(tx, ty)) ==
           if Done(g, p, ax, ay, tx, ty) then Some(MeshNext(g, both, ax, ay, tx, ty)) else None)
  }

  lemma FilledEmpty(g: Grid, both: bool)
    requires g.Valid()
    ensures Filled(g, both, map[], Progress(0, 0, 1, 0, 1))
  {
  }

  /** Two stages of the generator with the same entries done. */
  lemma SameProgress(g: Grid, both: bool, route: Table, p: Progress, q: Progress)
    requires g.Valid() && Filled(g, both, route, p)
    requires forall ax: nat, ay: nat, tx: nat, ty: nat :: ax < g.cx && ay < g.cy && tx < g.cx && ty < g.cy ==>
      Done(g, p, ax, ay, tx, ty) == Done(g, q, ax, ay, tx, ty)
    ensures Filled(g, both, route, q)
  {
    hide Next, MeshNext, Done, Within;
  }

  /** One entry more. */
  lemma InsertMesh(g: Grid, both: bool, route: Table, p: Progress, q: Progress, tx: nat, ty: nat, r: Table)
    requires g.Valid() && p.x < g.cx && p.y < g.cy && tx < g.cx && ty < g.cy
    requires Filled(g, both, route, p)
    requires Inserted(g.At(p.x, p.y), g.At(tx, ty), MeshNext(g, both, p.x, p.y, tx, ty), route, r)
    requires forall ax: nat, ay: nat, dx: nat, dy: nat :: ax < g.cx && ay < g.cy && dx < g.cx && dy < g.cy ==>
      (Done(g, q, ax, ay, dx, dy) <==> Done(g, p, ax, ay, dx, dy) || (ax, ay, dx, dy) == (p.x, p.y, tx, ty))
    ensures Filled(g, both, r, q)
  {
    hide Next, MeshNext, Done;
    GridNodes(g);
    forall ax: nat, ay: nat, dx: nat, dy: nat |
      NoRepeats(g.nodes) && ax < g.cx && ay < g.cy && dx < g.cx && dy < g.cy
      ensures Next(r, g.At(ax, ay), g.At(dx, dy)) ==
        if Done(g, q, ax, ay, dx, dy) then Some(MeshNext(g, both, ax, ay, dx, dy)) else None
    {
      GridDistinct(g, ax, ay, p.x, p.y);
      GridDistinct(g, dx, dy, tx, ty);
    }
  }

  // ---------------------------------------------------------------- the loops

  /** One column: the same next hop for all its rows. */
  method FillColumn(g: Grid, both: bool, x: nat, y: nat, xidx: nat, next: Node, table: Table) returns (out: Table)
    requires g.Valid() && x < g.cx && y < g.cy && xidx < g.cx && xidx != x
    requires next == g.At(Toward(x, xidx, g.cx, both), y)
    requires Filled(g, both, table, Progress(x, y, Forward(x, xidx, g.cx), 0, 1))
    ensures Filled(g, both, out, Progress(x, y, Forward(x, xidx, g.cx) + 1, 0, 1))
  {
    hide Filled, NoRepeats;
    out := table;
    ghost var k := Forward(x, xidx, g.cx);
    var y2: nat := 0;
    while y2 < g.cy
      invariant y2 <= g.cy && Filled(g, both, out, Progress(x, y, k, y2, 1))
    {
      ghost var before := out;
      out := RouteInsert(g.At(x, y), g.At(xidx, y2), next, out);
      ColumnEntry(g, x, y, xidx, y2);
      InsertMesh(g, both, before, Progress(x, y, k, y2, 1), Progress(x, y, k, y2 + 1, 1), xidx, y2, out);
      y2 := y2 + 1;
    }
    ColumnEnd(g, x, y, k);
    SameProgress(g, both, out, Progress(x, y, k, g.cy, 1), Progress(x, y, k + 1, 0, 1));
  }

  lemma ColumnEntry(g: Grid, x: nat, y: nat, xidx: nat, y2: nat)
    requires x < g.cx && y < g.cy && xidx < g.cx && xidx != x && y2 < g.cy
    ensures var k := Forward(x, xidx, g.cx);
      forall ax: nat, ay: nat, dx: nat, dy: nat :: ax < g.cx && ay < g.cy && dx < g.cx && dy < g.cy ==>
        (Done(g, Progress(x, y, k, y2 + 1, 1), ax, ay, dx, dy) <==>
         Done(g, Progress(x, y, k, y2, 1), ax, ay, dx, dy) || (ax, ay, dx, dy) == (x, y, xidx, y2))
  {
  }

  lemma ColumnEnd(g: Grid, x: nat, y: nat, k: nat)
    ensures forall ax: nat, ay: nat, dx: nat, dy: nat :: ax < g.cx && ay < g.cy && dx < g.cx && dy < g.cy ==>
      Done(g, Progress(x, y, k, g.cy, 1), ax, ay, dx, dy) == Done(g, Progress(x, y, k + 1, 0, 1), ax, ay, dx, dy)
  {
  }

  /** The next place, and from the last one round to the first. */
  function Around(i: nat, n: nat): (r: nat)
    requires i < n
    ensures r == Succ(i, n)
  {
    SuccIs(i, n);
    (i + 1) % n
  }

  /** The other columns, as seen from (x, y). */
  method FillRow(g: Grid, both: bool, x: nat, y: nat, table: Table) returns (out: Table)
    requires g.Valid() && x < g.cx && y < g.cy
    requires Filled(g, both, table, Progress(x, y, 1, 0, 1))
    ensures Filled(g, both, out, Progress(x, y, g.cx, 0, 1))
  {
    hide Filled, NoRepeats, Ahead, Toward, Forward, Around, Grid.At, Grid.Valid;
    out := table;
    StepAhead(x, 0, g.cx);
    var xidx := Around(x, g.cx);
    var next := g.At(xidx, y);
    var i: nat := 0;
    while i < g.cx / 2
      invariant i <= g.cx / 2 && xidx == Ahead(x, i + 1, g.cx) && next == g.At(Succ(x, g.cx), y)
      invariant Filled(g, both, out, Progress(x, y, i + 1, 0, 1))
    {
      WhichWay(x, i + 1, g.cx, both);
      StepAhead(x, i + 1, g.cx);
      out := FillColumn(g, both, x, y, xidx, next, out);
      xidx := Around(xidx, g.cx);
      i := i + 1;
    }
    if both {
      if x == 0 {
        next := g.At(g.cx - 1, y);
      } else {
        next := g.At(x - 1, y);
      }
    }
    ghost var k := i + 1;
    RoundOnce(x, k, g.cx);
    while xidx != x
      invariant g.cx / 2 < k <= g.cx && (xidx == x <==> k == g.cx) && xidx == Ahead(x, k, g.cx)
      invariant next == g.At(if both then Pred(x, g.cx) else Succ(x, g.cx), y)
      invariant Filled(g, both, out, Progress(x, y, k, 0, 1))
      decreases g.cx - k
    {
      WhichWay(x, k, g.cx, both);
      StepAhead(x, k, g.cx);
      out := FillColumn(g, both, x, y, xidx, next, out);
      xidx := Around(xidx, g.cx);
      k := k + 1;
      RoundOnce(x, k, g.cx);
    }
  }

  lemma OwnColumnEntry(g: Grid, x: nat, y: nat, k: nat, yidx: nat)
    requires x < g.cx && y < g.cy && yidx < g.cy && yidx != y
    ensures var m := Forward(y, yidx, g.cy);
      forall ax: nat, ay: nat, dx: nat, dy: nat :: ax < g.cx && ay < g.cy && dx < g.cx && dy < g.cy ==>
        (Done(g, Progress(x, y, k, 0, m + 1), ax, ay, dx, dy) <==>
         Done(g, Progress(x, y, k, 0, m), ax, ay, dx, dy) || (ax, ay, dx, dy) == (x, y, x, yidx))
  {
  }

  /** One entry in the column of (x, y). */
  method FillOwn(g: Grid, both: bool, x: nat, y: nat, yidx: nat, next: Node, table: Table) returns (out: Table)
    requires g.Valid() && x < g.cx && y < g.cy && yidx < g.cy && yidx != y
    requires next == g.At(x, Toward(y, yidx, g.cy, both))
    requires Filled(g, both, table, Progress(x, y, g.cx, 0, Forward(y, yidx, g.cy)))
    ensures Filled(g, both, out, Progress(x, y, g.cx, 0, Forward(y, yidx, g.cy) + 1))
  {
    hide Filled, NoRepeats;
    out := RouteInsert(g.At(x, y), g.At(x, yidx), next, table);
    ghost var m := Forward(y, yidx, g.cy);
    OwnColumnEntry(g, x, y, g.cx, yidx);
    InsertMesh(g, both, table, Progress(x, y, g.cx, 0, m), Progress(x, y, g.cx, 0, m + 1), x, yidx, out);
  }

  /** The nodes of its own column, as seen from (x, y). */
  method FillY(g: Grid, both: bool, x: nat, y: nat, table: Table) returns (out: Table)
    requires g.Valid() && x < g.cx && y < g.cy
    requires Filled(g, both, table, Progress(x, y, g.cx, 0, 1))
    ensures Filled(g, both, out, Progress(x, y, g.cx, 0, g.cy))
  {
    hide Filled, NoRepeats, Ahead, Toward, Forward, Around, Grid.At, Grid.Valid;
    out := table;
    StepAhead(y, 0, g.cy);
    var yidx := Around(y, g.cy);
    var next := g.At(x, yidx);
    var j: nat := 0;
    while j < g.cy / 2
      invariant j <= g.cy / 2 && yidx == Ahead(y, j + 1, g.cy) && next == g.At(x, Succ(y, g.cy))
      invariant Filled(g, both, out, Progress(x, y, g.cx, 0, j + 1))
    {
      WhichWay(y, j + 1, g.cy, both);
      StepAhead(y, j + 1, g.cy);
      out := FillOwn(g, both, x, y, yidx, next, out);
      yidx := Around(yidx, g.cy);
      j := j + 1;
    }
    if both {
      if y == 0 {
        next := g.At(x, g.cy - 1);
      } else {
        next := g.At(x, y - 1);
      }
    }
    ghost var m := j + 1;
    RoundOnce(y, m, g.cy);
    while yidx != y
      invariant g.cy / 2 < m <= g.cy && (yidx == y <==> m == g.cy) && yidx == Ahead(y, m, g.cy)
      invariant next == g.At(x, if both then Pred(y, g.cy) else Succ(y, g.cy))
      invariant Filled(g, both, out, Progress(x, y, g.cx, 0, m))
      decreases g.cy - m
    {
      WhichWay(y, m, g.cy, both);
      StepAhead(y, m, g.cy);
      out := FillOwn(g, both, x, y, yidx, next, out);
      yidx := Around(yidx, g.cy);
      m := m + 1;
      RoundOnce(y, m, g.cy);
    }
  }

  lemma SourceEnd(g: Grid, x: nat, y: nat)
    requires x < g.cx && y < g.cy
    ensures forall ax: nat, ay: nat, dx: nat, dy: nat :: ax < g.cx && ay < g.cy && dx < g.cx && dy < g.cy ==>
      Done(g, Progress(x, y, g.cx, 0, g.cy), ax, ay, dx, dy) == Done(g, Progress(x + 1, y, 1, 0, 1), ax, ay, dx, dy)
  {
  }

  lemma RowEnd(g: Grid, y: nat)
    requires y < g.cy
    ensures forall ax: nat, ay: nat, dx: nat, dy: nat :: ax < g.cx && ay < g.cy && dx < g.cx && dy < g.cy ==>
      Done(g, Progress(g.cx, y, 1, 0, 1), ax, ay, dx, dy) == Done(g, Progress(0, y + 1, 1, 0, 1), ax, ay, dx, dy)
  {
  }

  /** The generator. The program asks for as many nodes as the grid has places, or it reads behind the list; it stops
      exactly when there are more, or when the coordinates do not fit the packed words of its size check. */
  method GenMesh2dXY(g: Grid, both: bool) returns (r: Option<Table>)
    requires g.cx < TWO_TO_32 && g.cy < TWO_TO_32 && g.cx * g.cy <= |g.nodes|
    ensures r.Some? <==> g.Valid() && KeysFit(g.cx, g.cy)
    ensures r.Some? ==> Filled(g, both, r.value, Progress(0, g.cy, 1, 0, 1))
  {
    hide Filled, NoRepeats, KeysFit;
    var ok := SizeCheck(g.nodes, g.cx, g.cy);
    if !ok {
      return None;
    }
    var out := FillGrid(g, both);
    return Some(out);
  }

  method FillGrid(g: Grid, both: bool) returns (out: Table)
    requires g.Valid()
    ensures Filled(g, both, out, Progress(0, g.cy, 1, 0, 1))
  {
    hide Filled, NoRepeats;
    out := map[];
    FilledEmpty(g, both);
    var y: nat := 0;
    while y < g.cy
      invariant y <= g.cy && Filled(g, both, out, Progress(0, y, 1, 0, 1))
    {
      var x: nat := 0;
      while x < g.cx
        invariant x <= g.cx && Filled(g, both, out, Progress(x, y, 1, 0, 1))
      {
        out := FillRow(g, both, x, y, out);
        out := FillY(g, both, x, y, out);
        SourceEnd(g, x, y);
        SameProgress(g, both, out, Progress(x, y, g.cx, 0, g.cy), Progress(x + 1, y, 1, 0, 1));
        x := x + 1;
      }
      RowEnd(g, y);
      SameProgress(g, both, out, Progress(g.cx, y, 1, 0, 1), Progress(0, y + 1, 1, 0, 1));
      y := y + 1;
    }
  }

  // ---------------------------------------------------------------- what the table does

  ghost predicate Complete(g: Grid, both: bool, route: Table)
    requires g.Valid()
  {
    NoRepeats(g.nodes) && Filled(g, both, route, Progress(0, g.cy, 1, 0, 1))
  }

  lemma CompleteNext(g: Grid, both: bool, route: Table, ax: nat, ay: nat, tx: nat, ty: nat)
    requires g.Valid() && Complete(g, both, route) && ax < g.cx && ay < g.cy && tx < g.cx && ty < g.cy
    ensures g.At(ax, ay) == g.At(tx, ty) <==> ax == tx && ay == ty
    ensures Next(route, g.At(ax, ay), g.At(tx, ty)) ==
      if ax == tx && ay == ty then None else Some(MeshNext(g, both, ax, ay, tx, ty))
  {
    hide Next, MeshNext;
    GridDistinct(g, ax, ay, tx, ty);
    assert Done(g, Progress(0, g.cy, 1, 0, 1), ax, ay, tx, ty) <==> ax != tx || ay != ty;
  }

  /** The same by positions in the list, which is the grid row by row. */
  lemma NextByPosition(g: Grid, both: bool, route: Table, i: nat, j: nat)
    requires g.Valid() && Complete(g, both, route) && i < |g.nodes| && j < |g.nodes|
    ensures g.cx > 0
    ensures var ax, ay, tx, ty := i % g.cx, i / g.cx, j % g.cx, j / g.cx;
      && ax < g.cx && tx < g.cx && 0 <= ay < g.cy && 0 <= ty < g.cy
      && var x := if ax == tx then ax else Toward(ax, tx, g.cx, both);
         var y := if ax == tx then Toward(ay, ty, g.cy, both) else ay;
         x + g.cx * y < |g.nodes|
         && Next(route, g.nodes[i], g.nodes[j]) == if i == j then None else Some(g.nodes[x + g.cx * y])
  {
    hide Next, Toward, Complete, Grid.At;
    var ax, ay := SplitIndex(i, g.cx, g.cy);
    var tx, ty := SplitIndex(j, g.cx, g.cy);
    DivModUnique(i, g.cx, ay, ax);
    DivModUnique(j, g.cx, ty, tx);
    CompleteNext(g, both, route, ax, ay, tx, ty);
    var x := if ax == tx then ax else Toward(ax, tx, g.cx, both);
    var y := if ax == tx then Toward(ay, ty, g.cy, both) else ay;
    AtPosition(g, ax, ay);
    AtPosition(g, tx, ty);
    AtPosition(g, x, y);
  }

  lemma AtPosition(g: Grid, x: nat, y: nat)
    requires g.Valid() && x < g.cx && y < g.cy
    ensures x + g.cx * y < |g.nodes| && g.At(x, y) == g.nodes[x + g.cx * y]
    ensures x + y * g.cx == x + g.cx * y
  {
    InRange(x, y, g.cx, g.cy);
  }

  function MeshDistance(g: Grid, both: bool, ax: nat, ay: nat, tx: nat, ty: nat): nat
    requires ax < g.cx && ay < g.cy && tx < g.cx && ty < g.cy
  {
    Distance(ax, tx, g.cx, both) + Distance(ay, ty, g.cy, both)
  }

  /** Following the table from any node reaches any other in exactly the ring distance of the rows plus
      that of the columns: shortest with both directions, forward with one. */
  lemma {:induction false} MeshWalk(g: Grid, both: bool, route: Table, ax: nat, ay: nat, tx: nat, ty: nat)
    requires g.Valid() && Complete(g, both, route) && ax < g.cx && ay < g.cy && tx < g.cx && ty < g.cy
    ensures var d := MeshDistance(g, both, ax, ay, tx, ty);
      WalkDist(route, g.At(ax, ay), g.At(tx, ty), d) == Some(d)
    decreases MeshDistance(g, both, ax, ay, tx, ty)
  {
    hide Next, Toward, Distance, Complete, WalkDist;
    CompleteNext(g, both, route, ax, ay, tx, ty);
    if ax != tx {
      Closer(ax, tx, g.cx, both);
      MeshWalk(g, both, route, Toward(ax, tx, g.cx, both), ay, tx, ty);
    } else if ay != ty {
      Closer(ay, ty, g.cy, both);
      MeshWalk(g, both, route, ax, Toward(ay, ty, g.cy, both), tx, ty);
    }
    OneHop(route, g.At(ax, ay), g.At(tx, ty), MeshDistance(g, both, ax, ay, tx, ty));
  }

  /** A generated torus table takes exactly the torus distances, between all places of the grid, if and only if no
      node is in the list twice. The program's collision check does not tell. */
  lemma MeshExactly(g: Grid, both: bool, route: Table)
    requires g.Valid() && Filled(g, both, route, Progress(0, g.cy, 1, 0, 1))
    ensures NoRepeats(g.nodes) <==>
      forall ax, ay, tx, ty :: 0 <= ax < g.cx && 0 <= ay < g.cy && 0 <= tx < g.cx && 0 <= ty < g.cy ==>
        var d := MeshDistance(g, both, ax, ay, tx, ty); WalkDist(route, g.At(ax, ay), g.At(tx, ty), d) == Some(d)
  {
    hide Filled, MeshDistance, NoRepeats;
    if NoRepeats(g.nodes) {
      forall ax, ay, tx, ty | 0 <= ax < g.cx && 0 <= ay < g.cy && 0 <= tx < g.cx && 0 <= ty < g.cy
        ensures var d := MeshDistance(g, both, ax, ay, tx, ty);
          WalkDist(route, g.At(ax, ay), g.At(tx, ty), d) == Some(d)
      {
        MeshWalk(g, both, route, ax, ay, tx, ty);
      }
    } else {
      var ax, ay, tx, ty := TwiceInGrid(g, both);
      assert WalkDist(route, g.At(ax, ay), g.At(tx, ty), MeshDistance(g, both, ax, ay, tx, ty)) == Some(0);
    }
  }

  lemma TwiceInGrid(g: Grid, both: bool) returns (ax: nat, ay: nat, tx: nat, ty: nat)
    requires g.Valid() && !NoRepeats(g.nodes)
    ensures ax < g.cx && ay < g.cy && tx < g.cx && ty < g.cy && g.At(ax, ay) == g.At(tx, ty)
    ensures MeshDistance(g, both, ax, ay, tx, ty) > 0
  {
    hide Distance;
    var i, j :| 0 <= i < j < |g.nodes| && g.nodes[i] == g.nodes[j];
    ax, ay := SplitIndex(i, g.cx, g.cy);
    tx, ty := SplitIndex(j, g.cx, g.cy);
  }

  /** The node after `h` hops. */
  function After(route: Table, cur: Node, dst: Node, h: nat): Option<Node>
    decreases h
  {
    if h == 0 then Some(cur)
    else match Next(route, cur, dst)
      case None => None
      case Some(n) => After(route, n, dst, h - 1)
  }

  /** X before Y: the first hops, as many as the row distance, stay in the row of the source and end in the
      column of the destination; from there on the column is kept. */
  lemma {:induction false} XBeforeY(g: Grid, both: bool, route: Table, ax: nat, ay: nat, tx: nat, ty: nat, h: nat)
    returns (x: nat, y: nat)
    requires g.Valid() && Complete(g, both, route) && ax < g.cx && ay < g.cy && tx < g.cx && ty < g.cy
    requires h <= MeshDistance(g, both, ax, ay, tx, ty)
    ensures x < g.cx && y < g.cy && After(route, g.At(ax, ay), g.At(tx, ty), h) == Some(g.At(x, y))
    ensures var dx := Distance(ax, tx, g.cx, both);
      if h <= dx then y == ay && Distance(x, tx, g.cx, both) == dx - h
      else x == tx && Distance(y, ty, g.cy, both) == MeshDistance(g, both, ax, ay, tx, ty) - h
    decreases h
  {
    hide Next, Toward, Distance, Complete;
    x, y := ax, ay;
    if h > 0 {
      CompleteNext(g, both, route, ax, ay, tx, ty);
      if ax != tx {
        Closer(ax, tx, g.cx, both);
        x, y := XBeforeY(g, both, route, Toward(ax, tx, g.cx, both), ay, tx, ty, h - 1);
      } else {
        Closer(ay, ty, g.cy, both);
        x, y := XBeforeY(g, both, route, ax, Toward(ay, ty, g.cy, both), tx, ty, h - 1);
      }
    }
  }

  lemma MeshBound(a: nat, b: nat, cx: nat, cy: nat)
    requires a < cx && b < cy
    ensures a + b <= cx * cy
  {
    assert cx * cy == (cx - 1) * cy + cy;
    MulMono(1, cy, cx - 1);
  }

  /** The generated table passes the checks of the network's constructor. */
  lemma MeshAccepted(g: Grid, both: bool, route: Table)
    requires g.Valid() && Complete(g, both, route)
    ensures Accepted(route, g.nodes)
  {
    hide Next, WalkDist, Complete, Toward, Distance;
    GridNodes(g);
    forall s, d | s in g.nodes && d in g.nodes
      ensures WalkDist(route, s, d, |g.nodes|).Some?
    {
      var ax, ay :| 0 <= ax < g.cx && 0 <= ay < g.cy && g.At(ax, ay) == s;
      var tx, ty :| 0 <= tx < g.cx && 0 <= ty < g.cy && g.At(tx, ty) == d;
      MeshWalk(g, both, route, ax, ay, tx, ty);
      MeshBound(Distance(ax, tx, g.cx, both), Distance(ay, ty, g.cy, both), g.cx, g.cy);
      WalkDistMonotone(route, s, d, MeshDistance(g, both, ax, ay, tx, ty), |g.nodes|);
    }
    forall n: Node, d: Node | Next(route, n, d).Some?
      ensures Next(route, n, d).value in g.nodes && Next(route, n, d).value != n
    {
      assert n in g.nodes && d in g.nodes by {
        MeshWithin(g, both, route);
      }
      var ax, ay :| 0 <= ax < g.cx && 0 <= ay < g.cy && g.At(ax, ay) == n;
      var tx, ty :| 0 <= tx < g.cx && 0 <= ty < g.cy && g.At(tx, ty) == d;
      MeshHop(g, both, route, ax, ay, tx, ty);
    }
  }

  lemma MeshWithin(g: Grid, both: bool, route: Table)
    requires g.Valid() && Complete(g, both, route)
    ensures Within(route, g.nodes)
  {
  }

  lemma MeshHop(g: Grid, both: bool, route: Table, ax: nat, ay: nat, tx: nat, ty: nat)
    requires g.Valid() && Complete(g, both, route) && ax < g.cx && ay < g.cy && tx < g.cx && ty < g.cy
    requires Next(route, g.At(ax, ay), g.At(tx, ty)).Some?
    ensures Next(route, g.At(ax, ay), g.At(tx, ty)).value in g.nodes
    ensures Next(route, g.At(ax, ay), g.At(tx, ty)).value != g.At(ax, ay)
  {
    hide Next, Complete;
    CompleteNext(g, both, route, ax, ay, tx, ty);
    GridNodes(g);
    if ax != tx {
      GridDistinctOf(g, both, route, Toward(ax, tx, g.cx, both), ay, ax, ay);
    } else {
      GridDistinctOf(g, both, route, ax, Toward(ay, ty, g.cy, both), ax, ay);
    }
  }

  lemma GridDistinctOf(g: Grid, both: bool, route: Table, x: nat, y: nat, a: nat, b: nat)
    requires g.Valid() && Complete(g, both, route) && x < g.cx && a < g.cx && y < g.cy && b < g.cy
    ensures g.At(x, y) == g.At(a, b) <==> x == a && y == b
  {
    GridDistinct(g, x, y, a, b);
  }
}

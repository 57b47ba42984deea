/** The size check of the torus generator (src/bus/routetable.cpp:103-113): coordinates packed into one 32-bit word are
    the keys of a map, and its size is compared with that of the node list. */
module MeshCoordinates {
  import opened Arithmetic
  import opened Wrappers
  import opened RouteTable

  /** Bitwise or. */
  function BitOr(a: nat, b: nat): nat {
    if a == 0 then b else if b == 0 then a
    else 2 * BitOr(a / 2, b / 2) + if a % 2 == 1 || b % 2 == 1 then 1 else 0
  }

  /** x | (y << 16), in 32 bits. */
  function Key(x: nat, y: nat): nat {
    x % TWO_TO_16 + TWO_TO_16 * BitOr(x / TWO_TO_16, y % TWO_TO_16)
  }

  /** The key of a place, counted row by row. */
  function KeyAt(i: nat, cx: nat): nat
    requires cx > 0
  {
    Key(i % cx, i / cx)
  }

  /** The keys of the first `n` places of the grid, row by row. */
  function Keys(cx: nat, n: nat): seq<nat>
    requires cx > 0 || n == 0
  {
    seq(n, i requires 0 <= i < n => KeyAt(i, cx))
  }

  /** No two places have the same key. */
  predicate KeysFit(cx: nat, cy: nat) {
    cx == 0 || cy <= 1 || (cx <= TWO_TO_16 && cy <= TWO_TO_16)
  }

  lemma SmallKey(x: nat, y: nat)
    requires x < TWO_TO_16 && y < TWO_TO_16
    ensures Key(x, y) == x + TWO_TO_16 * y
  {
  }

  lemma FirstRowKey(x: nat)
    ensures Key(x, 0) == x
  {
  }

  lemma PlaceIn(i: nat, cx: nat, cy: nat) returns (x: nat, y: nat)
    requires cx > 0 && i < cx * cy
    ensures x < cx && y < cy && i == cx * y + x && KeyAt(i, cx) == Key(x, y)
  {
    hide Key;
    DivBounds(i, cx);
    x, y := i % cx, i / cx;
    if y >= cy {
      MulMono(cy, y, cx);
    }
  }

  lemma KeyTells(x: nat, y: nat, a: nat, b: nat, cx: nat, cy: nat)
    requires x < cx && a < cx && y < cy && b < cy && KeysFit(cx, cy) && Key(x, y) == Key(a, b)
    ensures x == a && y == b
  {
    hide Key;
    if cy <= 1 {
      FirstRowKey(x);
      FirstRowKey(a);
    } else {
      SmallKey(x, y);
      SmallKey(a, b);
    }
  }

  lemma DifferentKeys(i: nat, j: nat, cx: nat, cy: nat)
    requires cx > 0 && i < j < cx * cy && KeysFit(cx, cy)
    ensures KeyAt(i, cx) != KeyAt(j, cx)
  {
    hide Key, KeyAt, KeysFit;
    var x, y := PlaceIn(i, cx, cy);
    var a, b := PlaceIn(j, cx, cy);
    if Key(x, y) == Key(a, b) {
      KeyTells(x, y, a, b, cx, cy);
    }
  }

  /** Place (2^16, 0) has the key of place (0, 1). */
  lemma TooWide(cx: nat, cy: nat)
    requires cx > TWO_TO_16 && cy >= 2
    ensures TWO_TO_16 < cx < cx * cy && KeyAt(TWO_TO_16, cx) == KeyAt(cx, cx)
  {
    MulMono(2, cy, cx);
    assert Key(TWO_TO_16, 0) == TWO_TO_16 == Key(0, 1);
    hide Key;
    DivModUnique(TWO_TO_16, cx, 0, TWO_TO_16);
    DivModUnique(cx, cx, 1, 0);
  }

  /** Place (0, 2^16) has the key of place (0, 0). */
  lemma TooHigh(cx: nat, cy: nat)
    requires cx > 0 && cy > TWO_TO_16
    ensures 0 < cx * TWO_TO_16 < cx * cy && KeyAt(0, cx) == KeyAt(cx * TWO_TO_16, cx)
  {
    MulLess(TWO_TO_16, cy, cx);
    assert Key(0, TWO_TO_16) == 0 == Key(0, 0);
    hide Key;
    DivModUnique(0, cx, 0, 0);
    DivModUnique(cx * TWO_TO_16, cx, TWO_TO_16, 0);
  }

  lemma SameKeys(cx: nat, cy: nat) returns (i: nat, j: nat)
    requires !KeysFit(cx, cy)
    ensures cx > 0 && i < j < cx * cy && KeyAt(i, cx) == KeyAt(j, cx)
  {
    hide KeyAt;
    if cx > TWO_TO_16 {
      TooWide(cx, cy);
      i, j := TWO_TO_16, cx;
    } else {
      TooHigh(cx, cy);
      i, j := 0, cx * TWO_TO_16;
    }
  }

  lemma KeysDistinct(cx: nat, cy: nat)
    requires cx > 0
    ensures NoRepeats(Keys(cx, cx * cy)) <==> cy <= 1 || (cx <= 0x1_0000 && cy <= 0x1_0000)
  {
    hide KeyAt;
    if KeysFit(cx, cy) {
      forall i, j | 0 <= i < j < cx * cy
        ensures Keys(cx, cx * cy)[i] != Keys(cx, cx * cy)[j]
      {
        DifferentKeys(i, j, cx, cy);
      }
    } else {
      var i, j := SameKeys(cx, cy);
      assert Keys(cx, cx * cy)[i] == Keys(cx, cx * cy)[j];
    }
  }

  /** The check passes exactly when the list has the size of the grid and all coordinates fit. */
  method SizeCheck(nodes: seq<Node>, cx: nat, cy: nat) returns (ok: bool)
    requires cx < TWO_TO_32 && cy < TWO_TO_32 && cx * cy <= |nodes|
    ensures ok <==> |nodes| == cx * cy && KeysFit(cx, cy)
  {
    hide Collected, Key, KeysFit, NoRepeats;
    var nodeidxs: map<nat, Node> := map[];
    NothingCollected<nat, Node>();
    assert nodes[..0] == [] && Keys(cx, 0) == [];
    var y: nat := 0;
    while y < cy
      invariant y <= cy && y * cx <= cx * cy && (cx > 0 || y * cx == 0)
      invariant Collected(nodeidxs, Keys(cx, y * cx), nodes[..y * cx])
    {
      MulStep(y, cx, cy);
      var x: nat := 0;
      while x < cx
        invariant x <= cx && y * cx + cx <= cx * cy
        invariant Collected(nodeidxs, Keys(cx, y * cx + x), nodes[..y * cx + x])
      {
        var i := y * cx + x;
        DivModUnique(i, cx, y, x);
        assert KeyAt(i, cx) == Key(x, y);
        CollectOne(nodeidxs, Keys(cx, i), nodes[..i], Key(x, y), nodes[i]);
        assert Keys(cx, i + 1) == Keys(cx, i) + [Key(x, y)];
        assert nodes[..i + 1] == nodes[..i] + [nodes[i]];
        if Key(x, y) !in nodeidxs {
          nodeidxs := nodeidxs[Key(x, y) := nodes[x + y * cx]];
        }
        x := x + 1;
      }
      assert (y + 1) * cx == y * cx + cx;
      y := y + 1;
    }
    ok := |nodes| == |nodeidxs|;
    Counted(nodeidxs, nodes, cx, cy);
  }

  lemma Counted(m: map<nat, Node>, nodes: seq<Node>, cx: nat, cy: nat)
    requires cx * cy <= |nodes| && Collected(m, if cx > 0 then Keys(cx, cx * cy) else [], nodes[..cx * cy])
    ensures |nodes| == |m| <==> |nodes| == cx * cy && KeysFit(cx, cy)
  {
    hide Key, NoRepeats;
    if cx > 0 {
      KeysDistinct(cx, cy);
    } else {
      assert |m| == 0;
    }
  }
}

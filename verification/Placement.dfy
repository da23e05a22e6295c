/** The two-column zigzag that carries the bits of the symbols through the free modules of a square grid. */
module Placement {

  import opened Sequences

  type Grid = seq<seq<bool>>
  type Cell = (nat, nat)   // row, column

  ghost predicate Square(g: Grid, dim: nat) {
    |g| == dim && forall y | 0 <= y < dim :: |g[y]| == dim
  }

  function Put(g: Grid, y: nat, x: nat, dark: bool): Grid
    requires y < |g| && x < |g[y]|
  {
    g[y := g[y][x := dark]]
  }

  // the right column of pair i; the pairs left of the vertical timing column 6 start one column further left
  function Right(dim: nat, i: nat): (right: nat)
    requires dim % 2 == 1 && 2 * i + 2 < dim
    ensures 0 < right < dim
  {
    var right := dim - 1 - 2 * i;
    if right > 6 then right else right - 1
  }

  function Row(dim: nat, i: nat, vert: nat): nat
    requires vert < dim
  {
    if i % 2 == 0 then dim - 1 - vert else vert
  }

  function PairCells(dim: nat, i: nat, verts: nat): (cells: seq<Cell>)
    requires dim % 2 == 1 && verts <= dim && 2 * i + 2 < dim
    ensures |cells| == 2 * verts
  {
    if verts == 0 then []
    else
      var y, right := Row(dim, i, verts - 1), Right(dim, i);
      PairCells(dim, i, verts - 1) + [(y, right), (y, right - 1)]
  }

  function PairsCells(dim: nat, pairs: nat): seq<Cell>
    requires dim % 2 == 1 && 2 * pairs < dim
  {
    if pairs == 0 then [] else PairsCells(dim, pairs - 1) + PairCells(dim, pairs - 1, dim)
  }

  // all cells in visiting order
  function Zigzag(dim: nat): seq<Cell>
    requires dim % 2 == 1
  {
    PairsCells(dim, (dim - 1) / 2)
  }

  ghost predicate RowVisited(dim: nat, i: nat, verts: nat, y: nat) {
    if i % 2 == 0 then dim - verts <= y < dim else y < verts
  }

  lemma {:induction false} PairMembers(dim: nat, i: nat, verts: nat)
    requires dim % 2 == 1 && verts <= dim && 2 * i + 2 < dim
    ensures forall c: Cell :: c in PairCells(dim, i, verts) <==>
      RowVisited(dim, i, verts, c.0) && (c.1 == Right(dim, i) || c.1 == Right(dim, i) - 1)
    ensures NoRepeats(PairCells(dim, i, verts))
  {
    if verts > 0 { PairMembers(dim, i, verts - 1); }
  }

  // the first column not yet visited after some pairs, counting from the right
  function Frontier(dim: nat, pairs: nat): int {
    var next := dim - 1 - 2 * pairs;
    if next >= 6 then next else next - 1
  }

  lemma {:induction false} PairsMember(dim: nat, pairs: nat, c: Cell)
    requires dim % 2 == 1 && dim >= 9 && 2 * pairs < dim
    ensures c in PairsCells(dim, pairs) <==> c.0 < dim && Frontier(dim, pairs) < c.1 < dim && c.1 != 6
  {
    hide PairCells;
    if pairs > 0 {
      PairsMember(dim, pairs - 1, c);
      PairMembers(dim, pairs - 1, dim);
      assert c in PairCells(dim, pairs - 1, dim) <==>
        c.0 < dim && (c.1 == Right(dim, pairs - 1) || c.1 == Right(dim, pairs - 1) - 1);
    }
  }

  lemma {:induction false} PairsNoRepeats(dim: nat, pairs: nat)
    requires dim % 2 == 1 && dim >= 9 && 2 * pairs < dim
    ensures NoRepeats(PairsCells(dim, pairs))
  {
    hide PairCells;
    if pairs > 0 {
      PairsNoRepeats(dim, pairs - 1);
      PairMembers(dim, pairs - 1, dim);
      var before, pair := PairsCells(dim, pairs - 1), PairCells(dim, pairs - 1, dim);
      forall c: Cell | c in before ensures c !in pair {
        PairsMember(dim, pairs - 1, c);
      }
      RepeatFree(before, pair);
    }
  }

  // The zigzag visits every cell outside the timing column, once.
  lemma ZigzagIsBijection(dim: nat)
    requires dim % 2 == 1 && dim >= 9
    ensures forall c: Cell :: c in Zigzag(dim) <==> c.0 < dim && c.1 < dim && c.1 != 6
    ensures NoRepeats(Zigzag(dim))
  {
    hide PairsCells, NoRepeats;
    forall c: Cell ensures c in Zigzag(dim) <==> c.0 < dim && c.1 < dim && c.1 != 6 {
      PairsMember(dim, (dim - 1) / 2, c);
    }
    PairsNoRepeats(dim, (dim - 1) / 2);
  }

  // ---- Free cells, and painting bits on them ----

  ghost predicate On(cells: seq<Cell>, g: Grid) {
    forall k | 0 <= k < |cells| :: cells[k].0 < |g| && cells[k].1 < |g[cells[k].0]|
  }

  function Free(cells: seq<Cell>, mask: Grid): (free: seq<Cell>)
    requires On(cells, mask)
    ensures On(free, mask)
  {
    if cells == [] then []
    else
      var n := |cells| - 1;
      var (y, x) := cells[n];
      Free(cells[..n], mask) + if mask[y][x] then [] else [(y, x)]
  }

  lemma OnConcat(a: seq<Cell>, b: seq<Cell>, g: Grid)
    requires On(a, g) && On(b, g)
    ensures On(a + b, g)
  {
  }

  lemma {:induction false} FreeMember(cells: seq<Cell>, mask: Grid, c: Cell)
    requires On(cells, mask)
    ensures c in Free(cells, mask) <==> c in cells && !mask[c.0][c.1]
  {
    if cells != [] {
      var init, last := cells[..|cells| - 1], cells[|cells| - 1];
      FreeMember(init, mask, c);
      assert cells == init + [last];
    }
  }

  lemma {:induction false} FreeNoRepeats(cells: seq<Cell>, mask: Grid)
    requires On(cells, mask) && NoRepeats(cells)
    ensures NoRepeats(Free(cells, mask))
  {
    if cells != [] {
      var init, last := cells[..|cells| - 1], cells[|cells| - 1];
      FreeNoRepeats(init, mask);
      FreeMember(init, mask, last);
      assert last !in init;
      if !mask[last.0][last.1] { RepeatFree(Free(init, mask), [last]); }
    }
  }

  lemma FreeMembers(cells: seq<Cell>, mask: Grid)
    requires On(cells, mask) && NoRepeats(cells)
    ensures forall c: Cell :: c in Free(cells, mask) <==> c in cells && !mask[c.0][c.1]
    ensures NoRepeats(Free(cells, mask))
  {
    hide Free, NoRepeats;
    forall c: Cell ensures c in Free(cells, mask) <==> c in cells && !mask[c.0][c.1] {
      FreeMember(cells, mask, c);
    }
    FreeNoRepeats(cells, mask);
  }

  lemma {:induction false} FreeConcat(a: seq<Cell>, b: seq<Cell>, mask: Grid)
    requires On(a, mask) && On(b, mask) && On(a + b, mask)
    ensures Free(a + b, mask) == Free(a, mask) + Free(b, mask)
  {
    if b == [] {
      assert a + b == a;
    } else {
      var n := |b| - 1;
      var cells, last := a + b, if mask[b[n].0][b[n].1] then [] else [b[n]];
      assert cells[..|cells| - 1] == a + b[..n] && cells[|cells| - 1] == b[n];
      FreeConcat(a, b[..n], mask);
      assert Free(cells, mask) == Free(a + b[..n], mask) + last;
      assert Free(b, mask) == Free(b[..n], mask) + last;
    }
  }

  lemma FreeSnoc(cells: seq<Cell>, c: Cell, mask: Grid)
    requires On(cells, mask) && c.0 < |mask| && c.1 < |mask[c.0]|
    ensures On(cells + [c], mask)
    ensures Free(cells + [c], mask) == if mask[c.0][c.1] then Free(cells, mask) else Free(cells, mask) + [c]
  {
    assert (cells + [c])[..|cells|] == cells;
    assert Free(cells, mask) + [] == Free(cells, mask);
  }

  lemma EmptyFree(mask: Grid)
    ensures Free([], mask) == []
  {
  }

  // an exhausted bit stream reads as zeros
  predicate BitAt(bits: seq<bool>, k: nat) {
    k < |bits| && bits[k]
  }

  function Painted(g: Grid, cells: seq<Cell>, bits: seq<bool>): (r: Grid)
    requires On(cells, g)
    ensures |r| == |g| && forall y | 0 <= y < |g| :: |r[y]| == |g[y]|
  {
    if cells == [] then g
    else
      var n := |cells| - 1;
      Put(Painted(g, cells[..n], bits), cells[n].0, cells[n].1, BitAt(bits, n))
  }

  lemma {:induction false} PaintedAt(g: Grid, cells: seq<Cell>, bits: seq<bool>)
    requires On(cells, g) && NoRepeats(cells)
    ensures var r := Painted(g, cells, bits);
      forall k | 0 <= k < |cells| :: r[cells[k].0][cells[k].1] == BitAt(bits, k)
    ensures var r := Painted(g, cells, bits);
      forall y, x | 0 <= y < |g| && 0 <= x < |g[y]| && (y, x) !in cells :: r[y][x] == g[y][x]
  {
    if cells != [] { PaintedAt(g, cells[..|cells| - 1], bits); }
  }

  // ---- Where the walk goes ----

  lemma {:induction false} PairCellAt(dim: nat, i: nat, verts: nat, v: nat)
    requires dim % 2 == 1 && 2 * i + 2 < dim && v < verts <= dim
    ensures PairCells(dim, i, verts)[2 * v] == (Row(dim, i, v), Right(dim, i))
    ensures PairCells(dim, i, verts)[2 * v + 1] == (Row(dim, i, v), Right(dim, i) - 1)
  {
    hide Row, Right;
    if v < verts - 1 { PairCellAt(dim, i, verts - 1, v); }
  }

  lemma {:induction false} PairsLength(dim: nat, pairs: nat)
    requires dim % 2 == 1 && 2 * pairs < dim
    ensures |PairsCells(dim, pairs)| == 2 * (dim * pairs)
  {
    hide PairCells;
    if pairs > 0 {
      PairsLength(dim, pairs - 1);
      assert dim * pairs == dim * (pairs - 1) + dim;
    }
  }

  lemma {:induction false} PairsCellAt(dim: nat, pairs: nat, i: nat, v: nat)
    requires dim % 2 == 1 && 2 * pairs < dim && i < pairs && v < dim
    ensures var k := 2 * (dim * i) + 2 * v;
      && k + 1 < |PairsCells(dim, pairs)|
      && PairsCells(dim, pairs)[k] == (Row(dim, i, v), Right(dim, i))
      && PairsCells(dim, pairs)[k + 1] == (Row(dim, i, v), Right(dim, i) - 1)
  {
    hide Row, Right, PairCells;
    PairsLength(dim, pairs - 1);
    if i < pairs - 1 {
      PairsCellAt(dim, pairs - 1, i, v);
    } else {
      PairCellAt(dim, i, dim, v);
    }
  }

  /** The walk, step by step: pairs of columns from the right edge, leaving out column six, the first pair upwards and
      each next one the other way, and of each row the right module first. */
  lemma ZigzagAt(dim: nat, i: nat, v: nat)
    requires dim % 2 == 1 && 2 * i + 2 < dim && v < dim
    ensures var k := 2 * (dim * i) + 2 * v;
      var right := if dim - 1 - 2 * i > 6 then dim - 1 - 2 * i else dim - 2 - 2 * i;
      var row := if i % 2 == 0 then dim - 1 - v else v;
      k + 1 < |Zigzag(dim)| && Zigzag(dim)[k] == (row, right) && Zigzag(dim)[k + 1] == (row, right - 1)
  {
    hide PairsCells;
    PairsCellAt(dim, (dim - 1) / 2, i, v);
  }
}

/** Tile numbering of a PMTiles archive: zoom levels one after the other, each along a Hilbert curve. */
module Hilbert {

  import opened Arithmetic

  type Tile = (int, int)   // column, row

  function Side(k: nat): (s: int)
    ensures s > 0
  {
    if k == 0 then 1 else 2 * Side(k - 1)
  }

  // number of tiles of a level
  function Area(k: nat): (a: int)
    ensures a > 0
  {
    if k == 0 then 1 else 4 * Area(k - 1)
  }

  predicate InGrid(k: nat, t: Tile) {
    0 <= t.0 < Side(k) && 0 <= t.1 < Side(k)
  }

  // position of a quadrant on the curve: down, then right, then up
  function Quadrant(rx: int, ry: int): (q: int)
    ensures 0 <= rx <= 1 && 0 <= ry <= 1 ==> 0 <= q < 4
  {
    if rx == 0 then ry else 3 - ry
  }

  // coordinates within a quadrant, turned so that the curve runs the same way in all of them
  function Turn(s: int, rx: int, ry: int, t: Tile): Tile {
    if ry != 0 then t else if rx != 0 then (s - 1 - t.1, s - 1 - t.0) else (t.1, t.0)
  }

  // q times a
  function Quarters(q: int, a: int): int {
    if q == 0 then 0 else if q == 1 then a else if q == 2 then 2 * a else 3 * a
  }

  // 1 for the upper half of [0, 2 s)
  function Half(s: int, x: int): int {
    if x >= s then 1 else 0
  }

  function Inner(k: nat, t: Tile): (inner: Tile)
    requires k > 0 && InGrid(k, t)
    ensures InGrid(k - 1, inner)
  {
    var s := Side(k - 1);
    var rx, ry := Half(s, t.0), Half(s, t.1);
    Turn(s, rx, ry, (t.0 - s * rx, t.1 - s * ry))
  }

  // distance of a tile along the curve of its level
  function Index(k: nat, t: Tile): (d: int)
    requires InGrid(k, t)
    ensures 0 <= d < Area(k)
  {
    if k == 0 then 0
    else Quarters(Quadrant(Half(Side(k - 1), t.0), Half(Side(k - 1), t.1)), Area(k - 1)) + Index(k - 1, Inner(k, t))
  }

  // which quarter of the curve a distance lies in
  function QuarterOf(d: int, a: int): int {
    if d < a then 0 else if d < 2 * a then 1 else if d < 3 * a then 2 else 3
  }

  // undoes Inner: puts a tile of the level below into quadrant q
  function Lift(s: int, q: int, t: Tile): Tile {
    if q == 0 then (t.1, t.0)
    else if q == 1 then (t.0, t.1 + s)
    else if q == 2 then (t.0 + s, t.1 + s)
    else (2 * s - 1 - t.1, s - 1 - t.0)
  }

  // the tile at distance d
  function Point(k: nat, d: int): (t: Tile)
    requires 0 <= d < Area(k)
    ensures InGrid(k, t)
  {
    if k == 0 then (0, 0)
    else
      var q := QuarterOf(d, Area(k - 1));
      Lift(Side(k - 1), q, Point(k - 1, d - Quarters(q, Area(k - 1))))
  }

  lemma LiftInner(k: nat, t: Tile)
    requires k > 0 && InGrid(k, t)
    ensures var s := Side(k - 1); var q := Quadrant(Half(s, t.0), Half(s, t.1));
      0 <= q < 4 && Lift(s, q, Inner(k, t)) == t
  {
  }

  lemma QuarterIs(q: int, a: int, rest: int)
    requires 0 <= q < 4 && 0 <= rest < a
    ensures QuarterOf(Quarters(q, a) + rest, a) == q
  {
  }

  lemma {:induction false} PointOfIndex(k: nat, t: Tile)
    requires InGrid(k, t)
    ensures Point(k, Index(k, t)) == t
  {
    hide Side, Lift, Inner, Half, Quadrant, Quarters, QuarterOf;
    if k > 0 {
      var s := Side(k - 1);
      var inner := Inner(k, t);
      PointOfIndex(k - 1, inner);
      LiftInner(k, t);
      QuarterIs(Quadrant(Half(s, t.0), Half(s, t.1)), Area(k - 1), Index(k - 1, inner));
    } else {
      OnlyTile(t);
    }
  }

  lemma OnlyTile(t: Tile)
    requires InGrid(0, t)
    ensures t == (0, 0)
  {
  }

  lemma InnerLift(k: nat, q: int, t: Tile)
    requires k > 0 && 0 <= q < 4 && InGrid(k - 1, t)
    ensures var (s, lifted) := (Side(k - 1), Lift(Side(k - 1), q, t));
      InGrid(k, lifted) && Inner(k, lifted) == t && Quadrant(Half(s, lifted.0), Half(s, lifted.1)) == q
  {
  }

  lemma {:induction false} IndexOfPoint(k: nat, d: int)
    requires 0 <= d < Area(k)
    ensures Index(k, Point(k, d)) == d
  {
    hide Side, Lift, Inner, Half, Quadrant, InGrid;
    if k > 0 {
      var q := QuarterOf(d, Area(k - 1));
      var rest := d - Quarters(q, Area(k - 1));
      IndexOfPoint(k - 1, rest);
      InnerLift(k, q, Point(k - 1, rest));
    }
  }

  lemma {:induction false} Ends(k: nat)
    ensures Point(k, 0) == (0, 0) && Point(k, Area(k) - 1) == (Side(k) - 1, 0)
  {
    if k > 0 { Ends(k - 1); }
  }

  predicate Neighbours(t: Tile, u: Tile) {
    (t.0 == u.0 && (t.1 == u.1 + 1 || u.1 == t.1 + 1)) || (t.1 == u.1 && (t.0 == u.0 + 1 || u.0 == t.0 + 1))
  }

  lemma LiftNeighbours(s: int, q: int, t: Tile, u: Tile)
    requires Neighbours(t, u)
    ensures Neighbours(Lift(s, q, t), Lift(s, q, u))
  {
  }

  // Consecutive tiles of a level share an edge.
  lemma {:induction false} CurveIsConnected(k: nat, d: int)
    requires 0 <= d < Area(k) - 1
    ensures Neighbours(Point(k, d), Point(k, d + 1))
  {
    if k > 0 {
      var s, a := Side(k - 1), Area(k - 1);
      var q := QuarterOf(d, a);
      var rest := d - Quarters(q, a);
      if rest < a - 1 {
        hide Side, Neighbours, Lift;
        CurveIsConnected(k - 1, rest);
        LiftNeighbours(s, q, Point(k - 1, rest), Point(k - 1, rest + 1));
        assert QuarterOf(d + 1, a) == q;
      } else {
        hide Side;
        Ends(k - 1);
        assert QuarterOf(d + 1, a) == q + 1 && d + 1 - Quarters(q + 1, a) == 0;
      }
    }
  }

  // ---- Numbers over all levels ----

  const MAX_ZOOM := 26

  // number of the first tile of level z
  function Base(z: nat): int {
    (Area(z) - 1) / 3
  }

  lemma {:induction false} NextBase(z: nat)
    ensures Base(z + 1) == Base(z) + Area(z) && (Area(z) - 1) % 3 == 0 && Base(z) >= 0
  {
    if z > 0 { NextBase(z - 1); }
  }

  lemma {:induction false} BaseMonotone(y: nat, z: nat)
    requires y < z
    ensures Base(y) + Area(y) <= Base(z)
  {
    NextBase(y);
    NextBase(z - 1);
    if y < z - 1 { BaseMonotone(y, z - 1); }
  }

  predicate ValidTile(z: int, x: int, y: int) {
    0 <= z <= MAX_ZOOM && InGrid(z, (x, y))
  }

  function TileNumber(z: int, x: int, y: int): int
    requires ValidTile(z, x, y)
  {
    Base(z) + Index(z, (x, y))
  }

  // Different tiles, of whatever levels, have different numbers.
  lemma NumbersDiffer(z: int, x: int, y: int, z': int, x': int, y': int)
    requires ValidTile(z, x, y) && ValidTile(z', x', y') && TileNumber(z, x, y) == TileNumber(z', x', y')
    ensures z == z' && x == x' && y == y'
  {
    if z < z' { BaseMonotone(z, z'); }
    if z' < z { BaseMonotone(z', z); }
    PointOfIndex(z, (x, y));
    PointOfIndex(z', (x', y'));
  }

  // The numbers of a level are exactly the range between its base and the next one.
  lemma NumbersFill(z: nat, id: int)
    requires z <= MAX_ZOOM
    ensures Base(z) <= id < Base(z + 1) <==> exists x, y :: ValidTile(z, x, y) && TileNumber(z, x, y) == id
  {
    NextBase(z);
    if Base(z) <= id < Base(z + 1) {
      var t := Point(z, id - Base(z));
      IndexOfPoint(z, id - Base(z));
      assert ValidTile(z, t.0, t.1) && TileNumber(z, t.0, t.1) == id;
    }
  }

  // Tiles of one level with consecutive numbers share an edge.
  lemma ConsecutiveTilesTouch(z: int, x: int, y: int, x': int, y': int)
    requires ValidTile(z, x, y) && ValidTile(z, x', y') && TileNumber(z, x', y') == TileNumber(z, x, y) + 1
    ensures Neighbours((x, y), (x', y'))
  {
    hide Index, Point, Area, Side, Neighbours;
    PointOfIndex(z, (x, y));
    PointOfIndex(z, (x', y'));
    CurveIsConnected(z, Index(z, (x, y)));
  }

  // ---- Which of the curves it is ----

  lemma {:induction false} SideIsPower(k: nat)
    ensures Side(k) == Pow2(k)
  {
    if k > 0 { SideIsPower(k - 1); }
  }

  /** The numbers of every zoom begin in the upper left corner and end in the upper right one. */
  lemma FirstAndLast(z: nat)
    requires z <= MAX_ZOOM
    ensures ValidTile(z, 0, 0) && TileNumber(z, 0, 0) == Base(z)
    ensures ValidTile(z, Side(z) - 1, 0) && TileNumber(z, Side(z) - 1, 0) == Base(z + 1) - 1
  {
    hide Index, Point, Area, Side;
    Ends(z);
    IndexOfPoint(z, 0);
    IndexOfPoint(z, Area(z) - 1);
    NextBase(z);
  }

  /** The first five numbers: the whole map, and its quarters upper left, lower left, lower right and upper right. */
  lemma FirstNumbers(z: int, x: int, y: int)
    requires 0 <= z <= 1 && InGrid(z, (x, y))
    ensures TileNumber(z, x, y) == if z == 0 then 0 else if x == 0 then 1 + y else 4 - y
  {
    if z == 1 { assert Index(z - 1, Inner(z, (x, y))) == 0; }
  }

  function Parent(t: Tile): Tile {
    (t.0 / 2, t.1 / 2)
  }

  // the parent of a tile lies in the same quadrant, and turns with it
  lemma InnerOfParent(k: nat, t: Tile)
    requires k > 0 && InGrid(k + 1, t)
    ensures InGrid(k, Parent(t)) && Parent(Inner(k + 1, t)) == Inner(k, Parent(t))
    ensures Half(Side(k), t.0) == Half(Side(k - 1), Parent(t).0)
    ensures Half(Side(k), t.1) == Half(Side(k - 1), Parent(t).1)
  {
    assert Side(k) == 2 * Side(k - 1) && Side(k + 1) == 2 * Side(k);
  }

  lemma IndexStep(k: nat, t: Tile)
    requires k > 0 && InGrid(k, t)
    ensures InGrid(k - 1, Inner(k, t)) && Area(k) == 4 * Area(k - 1)
    ensures var q := Quadrant(Half(Side(k - 1), t.0), Half(Side(k - 1), t.1));
      0 <= q < 4 && Index(k, t) == Quarters(q, Area(k - 1)) + Index(k - 1, Inner(k, t))
  {
    hide Inner, InGrid, Quarters;
  }

  lemma {:induction false} IndexOfParent(k: nat, t: Tile)
    requires InGrid(k + 1, t)
    ensures InGrid(k, Parent(t)) && 4 * Index(k, Parent(t)) <= Index(k + 1, t) < 4 * Index(k, Parent(t)) + 4
  {
    hide Side, Inner, Half, Quadrant, Quarters, InGrid, Parent, Index, Area;
    if k == 0 {
      OneParent(k, t);
    } else {
      InnerOfParent(k, t);
      IndexStep(k + 1, t);
      IndexStep(k, Parent(t));
      IndexOfParent(k - 1, Inner(k + 1, t));
      var q := Quadrant(Half(Side(k), t.0), Half(Side(k), t.1));
      ParentHalves(k, t);
      QuartersOfFour(q, Area(k - 1));
    }
  }

  lemma ParentHalves(k: nat, t: Tile)
    requires k > 0 && InGrid(k + 1, t)
    ensures Quadrant(Half(Side(k), t.0), Half(Side(k), t.1))
         == Quadrant(Half(Side(k - 1), Parent(t).0), Half(Side(k - 1), Parent(t).1))
  {
    hide Side, Half, Quadrant, InGrid;
    InnerOfParent(k, t);
  }

  lemma QuartersOfFour(q: int, a: int)
    ensures Quarters(q, 4 * a) == 4 * Quarters(q, a)
  {
  }

  lemma OneParent(k: nat, t: Tile)
    requires k == 0 && InGrid(k + 1, t)
    ensures InGrid(k, Parent(t)) && Index(k, Parent(t)) == 0 && 0 <= Index(k + 1, t) < 4
  {
    assert Area(k) == 1 && Area(k + 1) == 4 * Area(k);
  }

  /** A tile's four children take the four numbers that follow from its own. */
  lemma ChildrenFollow(z: nat, x: int, y: int)
    requires z < MAX_ZOOM && ValidTile(z + 1, x, y)
    ensures ValidTile(z, x / 2, y / 2)
    ensures (TileNumber(z + 1, x, y) - Base(z + 1)) / 4 == TileNumber(z, x / 2, y / 2) - Base(z)
  {
    hide Index, Area, Base;
    IndexOfParent(z, (x, y));
  }

  // ---- The loop ----

  // x & size for a power of two, on a two's complement integer of any size
  predicate HasBit(x: int, size: int)
    requires size > 0
  {
    x / size % 2 == 1
  }

  // the residue of the coordinates, which is all the rest of the loop looks at
  function Residue(side: int, t: Tile): Tile
    requires side > 0
  {
    (t.0 % side, t.1 % side)
  }

  lemma HalfResidue(s: int, x: int)
    requires s > 0
    ensures Half(s, x % (2 * s)) == (if HasBit(x, s) then 1 else 0)
    ensures x % s == x % (2 * s) - s * Half(s, x % (2 * s))
    ensures (s - 1 - x) % s == s - 1 - x % s
  {
    var q, r := x / (2 * s), x % (2 * s);
    var h := Half(s, r);
    assert x == (2 * s) * q + r;
    assert x == s * (2 * q + h) + (r - s * h);
    DivModUnique(x, s, 2 * q + h, r - s * h);
    assert s - 1 - x == s * (-(2 * q + h)) + (s - 1 - (r - s * h));
    DivModUnique(s - 1 - x, s, -(2 * q + h), s - 1 - (r - s * h));
  }

  lemma TurnedResidue(k: nat, x: int, y: int, s: int)
    requires k > 0 && s == Side(k - 1)
    ensures var (rx, ry) := (if HasBit(x, s) then 1 else 0, if HasBit(y, s) then 1 else 0);
      var t := Residue(2 * s, (x, y));
      InGrid(k, t) && Half(s, t.0) == rx && Half(s, t.1) == ry && Residue(s, Turn(s, rx, ry, (x, y))) == Inner(k, t)
  {
    hide HasBit;
    HalfResidue(s, x);
    HalfResidue(s, y);
  }

  lemma LoopStep(k: nat, x: int, y: int, s: int)
    requires k > 0 && s == Side(k - 1)
    ensures var (rx, ry) := (if HasBit(x, s) then 1 else 0, if HasBit(y, s) then 1 else 0);
      var next := Residue(s, Turn(s, rx, ry, (x, y)));
      InGrid(k, Residue(2 * s, (x, y))) && InGrid(k - 1, next) &&
      Index(k, Residue(2 * s, (x, y))) == Quarters(Quadrant(rx, ry), Area(k - 1)) + Index(k - 1, next)
  {
    hide HasBit, Half, Residue, Turn, Inner, Quarters, Quadrant, InGrid;
    TurnedResidue(k, x, y, s);
  }

  // what the curve runs through before the quadrant it numbers q
  function Skipped(size: int, q: int): int { size * size * q }

  datatype NumberResult = Number(id: int) | InvalidTile

  method TileId(z: int, x0: int, y0: int) returns (r: NumberResult)
    ensures r == if ValidTile(z, x0, y0) then Number(TileNumber(z, x0, y0)) else InvalidTile
    ensures r.Number? <==> 0 <= z <= 26 && 0 <= x0 < Pow2(z) && 0 <= y0 < Pow2(z)
  {
    if z >= 0 { SideIsPower(z); }
    if !(0 <= z <= MAX_ZOOM) || !(0 <= x0 < Side(z)) || !(0 <= y0 < Side(z)) { return InvalidTile; }
    hide Side, Area, HasBit, Quadrant, Skipped, Pending;
    Begins(z, x0, y0);
    var x, y, distance := x0, y0, 0;
    var size := Side(z) / 2;
    ghost var k := z;
    while size > 0
      invariant 0 <= k <= z && size == HalfSide(k) && Pending(z, (x0, y0), k, (x, y), distance)
      decreases k
    {
      Continues(z, (x0, y0), k, (x, y), distance);
      var rx, ry := if HasBit(x, size) then 1 else 0, if HasBit(y, size) then 1 else 0;
      distance := distance + Skipped(size, Quadrant(rx, ry));
      if ry == 0 {
        if rx == 1 { x, y := size - 1 - x, size - 1 - y; }
        x, y := y, x;
      }
      k := k - 1;
      size := size / 2;
    }
    Finishes(z, (x0, y0), k, (x, y), distance);
    return Number((Area(z) - 1) / 3 + distance);
  }

  // the side of a quadrant, or nothing where there is only one tile
  function HalfSide(k: nat): int {
    if k == 0 then 0 else Side(k - 1)
  }

  // what the loop has gone past, and what is left, make up the whole distance
  ghost predicate Pending(z: nat, start: Tile, k: nat, t: Tile, distance: int)
    requires InGrid(z, start)
  {
    InGrid(k, Residue(Side(k), t)) && distance + Index(k, Residue(Side(k), t)) == Index(z, start)
  }

  lemma Begins(z: nat, x: int, y: int)
    requires InGrid(z, (x, y))
    ensures Pending(z, (x, y), z, (x, y), 0) && Side(z) / 2 == HalfSide(z)
  {
    ResidueOfTile(z, (x, y));
  }

  lemma Continues(z: nat, start: Tile, k: nat, t: Tile, distance: int)
    requires InGrid(z, start) && Pending(z, start, k, t, distance) && HalfSide(k) > 0
    ensures var s := HalfSide(k); var (rx, ry) := (if HasBit(t.0, s) then 1 else 0, if HasBit(t.1, s) then 1 else 0);
      k > 0 && Pending(z, start, k - 1, Turn(s, rx, ry, t), distance + Skipped(s, Quadrant(rx, ry)))
        && s / 2 == HalfSide(k - 1)
  {
    hide HasBit, Area, Index, Turn, Quarters, Residue, InGrid, Skipped;
    var s := HalfSide(k);
    LoopStep(k, t.0, t.1, s);
    QuarterProduct(s, k - 1, Quadrant(if HasBit(t.0, s) then 1 else 0, if HasBit(t.1, s) then 1 else 0));
  }

  lemma Finishes(z: nat, start: Tile, k: nat, t: Tile, distance: int)
    requires InGrid(z, start) && Pending(z, start, k, t, distance) && HalfSide(k) <= 0
    ensures distance == Index(z, start)
  {
    hide Residue;
  }

  lemma {:induction false} SquareOfSide(k: nat)
    ensures Side(k) * Side(k) == Area(k)
  {
    if k > 0 {
      SquareOfSide(k - 1);
      assert Side(k) * Side(k) == 4 * (Side(k - 1) * Side(k - 1));
    }
  }

  lemma ResidueOfTile(k: nat, t: Tile)
    requires InGrid(k, t)
    ensures Residue(Side(k), t) == t
  {
    DivModUnique(t.0, Side(k), 0, t.0);
    DivModUnique(t.1, Side(k), 0, t.1);
  }

  lemma QuarterProduct(size: int, k: nat, q: int)
    requires size == Side(k) && 0 <= q < 4
    ensures Skipped(size, q) == Quarters(q, Area(k))
  {
    SquareOfSide(k);
    var a := size * size;
    if q == 0 { assert a * 0 == 0; } else if q == 1 { } else if q == 2 { } else { assert a * 3 == 3 * a; }
  }
}

/** The number of free modules of every version is the one its codeword count is computed from. */
module ModuleCount {

  import opened Placement
  import opened Patterns
  import opened Versions

  // sum of f over [lo, hi)
  ghost function Total(f: int -> int, lo: int, hi: int): int
    decreases hi - lo
  {
    if lo >= hi then 0 else Total(f, lo, hi - 1) + f(hi - 1)
  }

  lemma {:induction false} TotalSplit(f: int -> int, lo: int, mid: int, hi: int)
    requires lo <= mid <= hi
    ensures Total(f, lo, hi) == Total(f, lo, mid) + Total(f, mid, hi)
    decreases hi - mid
  {
    if mid < hi { TotalSplit(f, lo, mid, hi - 1); }
  }

  lemma {:induction false} TotalConstant(f: int -> int, c: int, lo: int, hi: int)
    requires lo <= hi && forall x | lo <= x < hi :: f(x) == c
    ensures Total(f, lo, hi) == c * (hi - lo)
    decreases hi - lo
  {
    if lo < hi { TotalConstant(f, c, lo, hi - 1); }
  }

  lemma {:induction false} TotalLinear(
    f: int -> int, c: int, a: int, g: int -> int, b: int, h: int -> int, lo: int, hi: int)
    requires lo <= hi && forall x | lo <= x < hi :: f(x) == c + a * g(x) + b * h(x)
    ensures Total(f, lo, hi) == c * (hi - lo) + a * Total(g, lo, hi) + b * Total(h, lo, hi)
    decreases hi - lo
  {
    if lo < hi { TotalLinear(f, c, a, g, b, h, lo, hi - 1); }
  }

  function Ind(b: bool): int { if b then 1 else 0 }

  // ---- Alignment bands: five rows around each position ----

  ghost predicate Band(positions: seq<int>, a: int, b: int, y: int) {
    exists i | a <= i < b && 0 <= i < |positions| :: Near(y, positions[i])
  }

  lemma {:induction false} BandCount(positions: seq<int>, a: int, b: int, lo: int, hi: int)
    requires Spread(positions, a, b, lo, hi) && lo <= hi
    ensures Total(y => Ind(Band(positions, a, b, y)), lo, hi) == 5 * (b - a)
    decreases b - a
  {
    hide Total;
    var f := y => Ind(Band(positions, a, b, y));
    if a == b {
      TotalConstant(f, 0, lo, hi);
    } else {
      var p := positions[b - 1];
      BandCount(positions, a, b - 1, lo, p - 2);
      var g := y => Ind(Band(positions, a, b - 1, y));
      forall y ensures Band(positions, a, b, y) <==>
        Band(positions, a, b - 1, y) || Near(y, p) { BandSnoc(positions, a, b, y); }
      TotalLinear(f, 0, 1, g, 0, g, lo, p - 2);
      TotalConstant(f, 1, p - 2, p + 3);
      TotalConstant(f, 0, p + 3, hi);
      TotalSplit(f, lo, p - 2, p + 3);
      TotalSplit(f, lo, p + 3, hi);
    }
  }

  lemma BandSnoc(positions: seq<int>, a: int, b: int, y: int)
    requires 0 <= a < b <= |positions|
    ensures Band(positions, a, b, y) <==> Band(positions, a, b - 1, y) || Near(y, positions[b - 1])
  {
    if Near(y, positions[b - 1]) { assert Band(positions, a, b, y); }
    if Band(positions, a, b - 1, y) {
      var i :| a <= i < b - 1 && Near(y, positions[i]);
      assert Band(positions, a, b, y);
    }
  }

  // ---- Function modules of one column outside the timing column ----

  // everything but alignment patterns
  predicate Base(version: nat, y: int, x: int) {
    InCorner(Size(version), y, x) || y == 6 || InVersionInfo(version, y, x)
  }

  function Bands(version: nat): int {
    if version >= 2 then version / 7 + 2 else 1
  }

  // what alignment patterns add to the base
  ghost predicate Extra(version: nat, y: int, x: int) {
    var (p, k) := (AlignmentPositions(version), Bands(version));
    || (4 <= x <= 8 && Band(p, 1, k - 1, y))
    || (Band(p, 1, k, x) && Band(p, 1, k, y))
    || (Band(p, 1, k - 1, x) && Near(y, 6) && y != 6)
  }

  lemma ExtraIsAlignment(version: nat, y: int, x: int)
    requires 1 <= version <= 40 && 0 <= y < Size(version) && 0 <= x < Size(version) && x != 6
    ensures IsFunction(version, y, x) <==> Base(version, y, x) || Extra(version, y, x)
    ensures !(Base(version, y, x) && Extra(version, y, x))
  {
    hide AlignmentPositions, Extra, InCorner, InVersionInfo, InAlignment;
    if version == 1 {
      NoPositions(y, x);
    } else {
      if InAlignment(version, y, x) { AlignedIsExtra(version, y, x); }
      if Extra(version, y, x) { ExtraAligned(version, y, x); }
    }
  }

  lemma AlignedIsExtra(version: nat, y: int, x: int)
    requires 2 <= version <= 40 && x != 6 && InAlignment(version, y, x)
    ensures y == 6 || Extra(version, y, x)
  {
    hide AlignmentPositions, Size, Extra;
    var p, k := AlignmentPositions(version), Bands(version);
    PositionsSpread(version);
    var r, c :| r in p && c in p && AlignmentAt(version, r, c) && Near(y, r) && Near(x, c);
    var i, j :| 0 <= i < k && 0 <= j < k && p[i] == r && p[j] == c;
    PairIsExtra(version, i, j, y, x);
  }

  lemma PairIsExtra(version: nat, i: int, j: int, y: int, x: int)
    requires 2 <= version <= 40 && x != 6 && 0 <= i < Bands(version) && 0 <= j < Bands(version)
    requires var p := AlignmentPositions(version);
      |p| == Bands(version) && AlignmentAt(version, p[i], p[j]) && Near(y, p[i]) && Near(x, p[j])
    ensures y == 6 || Extra(version, y, x)
  {
    hide AlignmentPositions;
    var p, k := AlignmentPositions(version), Bands(version);
    PositionsSpread(version);
    if i == 0 {
      assert 1 <= j < k - 1;
      assert Band(p, 1, k - 1, x);
    } else if j == 0 {
      assert 1 <= i < k - 1;
      assert Band(p, 1, k - 1, y);
    } else {
      assert Band(p, 1, k, y) && Band(p, 1, k, x);
    }
  }

  lemma NoPositions(y: int, x: int)
    ensures !InAlignment(1, y, x) && !Extra(1, y, x)
  {
  }

  lemma ExtraAligned(version: nat, y: int, x: int)
    requires 2 <= version <= 40 && Extra(version, y, x) && x != 6
    ensures InAlignment(version, y, x) && !Base(version, y, x)
  {
    hide AlignmentPositions, Size, InAlignment, Base;
    var p, k := AlignmentPositions(version), Bands(version);
    PositionsSpread(version);
    if 4 <= x <= 8 && Band(p, 1, k - 1, y) {
      var i :| 1 <= i < k - 1 && Near(y, p[i]);
      AlignedPair(version, i, 0, y, x);
    } else if Band(p, 1, k, x) && Band(p, 1, k, y) {
      var i :| 1 <= i < k && Near(y, p[i]);
      var j :| 1 <= j < k && Near(x, p[j]);
      AlignedPair(version, i, j, y, x);
    } else {
      var j :| 1 <= j < k - 1 && Near(x, p[j]);
      AlignedPair(version, 0, j, y, x);
    }
  }

  lemma AlignedPair(version: nat, i: int, j: int, y: int, x: int)
    requires 2 <= version <= 40 && 0 <= i < Bands(version) && 0 <= j < Bands(version) && x != 6
    requires |AlignmentPositions(version)| == Bands(version) && Near(y, AlignmentPositions(version)[i])
    requires Near(x, AlignmentPositions(version)[j])
    requires (i == 0 ==> 1 <= j < Bands(version) - 1 && y != 6) && (j == 0 ==> 1 <= i < Bands(version) - 1)
    ensures InAlignment(version, y, x) && !Base(version, y, x)
  {
    hide AlignmentPositions;
    var p := AlignmentPositions(version);
    PositionsSpread(version);
    assert p[i] in p && p[j] in p;
  }

  ghost function FreeRows(version: nat, x: int): int {
    Total(y => Ind(!IsFunction(version, y, x)), 0, Size(version))
  }

  function BaseRows(version: nat, x: int): int {
    var (dim, w) := (Size(version), Ind(version >= 7));
    if x < 6 then 17 + 3 * w else if x < 9 then 17 else if x < dim - 11 then 1 else if x < dim - 8 then 1 + 6 * w else 9
  }

  lemma BaseRowsCount(version: nat, x: int)
    requires version >= 1 && 0 <= x < Size(version) && x != 6
    ensures Total(y => Ind(Base(version, y, x)), 0, Size(version)) == BaseRows(version, x)
  {
    hide Total;
    var f := y => Ind(Base(version, y, x));
    var dim, w := Size(version), Ind(version >= 7);
    TotalConstant(f, if x < 9 || x >= dim - 8 then 1 else if x >= dim - 11 then w else 0, 0, 6);
    TotalConstant(f, 1, 6, 7);
    TotalConstant(f, if x < 9 || x >= dim - 8 then 1 else 0, 7, 9);
    TotalConstant(f, 0, 9, dim - 11);
    TotalConstant(f, if x < 6 then w else 0, dim - 11, dim - 8);
    TotalConstant(f, if x < 9 then 1 else 0, dim - 8, dim);
    TotalSplit(f, 0, 6, 7);
    TotalSplit(f, 0, 7, 9);
    TotalSplit(f, 0, 9, dim - 11);
    TotalSplit(f, 0, dim - 11, dim - 8);
    TotalSplit(f, 0, dim - 8, dim);
  }

  ghost function ExtraRows(version: nat, x: int): int {
    var (p, k) := (AlignmentPositions(version), Bands(version));
    if version < 2 then 0
    else if 4 <= x <= 8 then 5 * (k - 2)
    else if Band(p, 1, k - 1, x) then 5 * (k - 1) + 4
    else if Band(p, 1, k, x) then 5 * (k - 1)
    else 0
  }

  lemma ExtraByColumn(version: nat, y: int, x: int)
    requires 2 <= version <= 40
    ensures var (p, k) := (AlignmentPositions(version), Bands(version));
      var (inner, outer) := (Ind(Band(p, 1, k - 1, y)), Ind(Band(p, 1, k, y)));
      Ind(Extra(version, y, x)) ==
        if 4 <= x <= 8 then inner
        else if Band(p, 1, k - 1, x) then outer + Ind(Near(y, 6) && y != 6)
        else if Band(p, 1, k, x) then outer
        else 0
  {
    hide AlignmentPositions;
    PositionsSpread(version);
    var p, k := AlignmentPositions(version), Bands(version);
    BandAbove(p, 1, k, x);
    BandAbove(p, 1, k, y);
    if Band(p, 1, k - 1, x) {
      var i :| 1 <= i < k - 1 && Near(x, p[i]);
      assert Band(p, 1, k, x);
    }
  }

  lemma BandAbove(p: seq<int>, a: int, b: int, y: int)
    requires 0 <= a <= b <= |p| && forall i | a <= i < b :: 14 <= p[i] - 2
    ensures Band(p, a, b, y) ==> y >= 14
  {
  }

  lemma BandTotals(version: nat, inner: int -> int, outer: int -> int, lo: int, hi: int)
    requires 2 <= version <= 40 && lo <= 14 && Size(version) - 4 <= hi
    requires forall y :: inner(y) == Ind(Band(AlignmentPositions(version), 1, Bands(version) - 1, y))
    requires forall y :: outer(y) == Ind(Band(AlignmentPositions(version), 1, Bands(version), y))
    ensures Total(inner, lo, hi) == 5 * (Bands(version) - 2) && Total(outer, lo, hi) == 5 * (Bands(version) - 1)
  {
    hide AlignmentPositions, Band, Near, Total;
    var p, k := AlignmentPositions(version), Bands(version);
    PositionsSpread(version);
    BandCount(p, 1, k - 1, lo, hi);
    BandCount(p, 1, k, lo, hi);
    TotalLinear(inner, 0, 1, y => Ind(Band(p, 1, k - 1, y)), 0, inner, lo, hi);
    TotalLinear(outer, 0, 1, y => Ind(Band(p, 1, k, y)), 0, outer, lo, hi);
  }

  lemma ExtraRowsCount(version: nat, x: int)
    requires 1 <= version <= 40 && 0 <= x < Size(version) && x != 6
    ensures Total(y => Ind(Extra(version, y, x)), 0, Size(version)) == ExtraRows(version, x)
  {
    hide AlignmentPositions, Extra, Band, Near, Total;
    var f := y => Ind(Extra(version, y, x));
    var p, k, dim := AlignmentPositions(version), Bands(version), Size(version);
    if version == 1 {
      forall y ensures f(y) == 0 { NoPositions(y, x); }
      TotalConstant(f, 0, 0, dim);
    } else {
      var inner, outer := y => Ind(Band(p, 1, k - 1, y)), y => Ind(Band(p, 1, k, y));
      var timing := y => Ind(Near(y, 6) && y != 6);
      BandTotals(version, inner, outer, 0, dim);
      NearTiming(timing, dim);
      if 4 <= x <= 8 {
        forall y ensures f(y) == inner(y) { ExtraByColumn(version, y, x); }
        TotalLinear(f, 0, 1, inner, 0, inner, 0, dim);
      } else if Band(p, 1, k - 1, x) {
        forall y ensures f(y) == outer(y) + timing(y) { ExtraByColumn(version, y, x); }
        TotalLinear(f, 0, 1, outer, 1, timing, 0, dim);
      } else if Band(p, 1, k, x) {
        forall y ensures f(y) == outer(y) { ExtraByColumn(version, y, x); }
        TotalLinear(f, 0, 1, outer, 0, outer, 0, dim);
      } else {
        forall y ensures f(y) == 0 { ExtraByColumn(version, y, x); }
        TotalConstant(f, 0, 0, dim);
      }
    }
  }

  lemma NearTiming(f: int -> int, dim: int)
    requires dim >= 9 && forall y :: f(y) == Ind(Near(y, 6) && y != 6)
    ensures Total(f, 0, dim) == 4
  {
    hide Total;
    TotalConstant(f, 0, 0, 4);
    TotalConstant(f, 1, 4, 6);
    TotalConstant(f, 0, 6, 7);
    TotalConstant(f, 1, 7, 9);
    TotalConstant(f, 0, 9, dim);
    TotalSplit(f, 0, 4, 6);
    TotalSplit(f, 0, 6, 7);
    TotalSplit(f, 0, 7, 9);
    TotalSplit(f, 0, 9, dim);
  }

  lemma FreeRowsCount(version: nat, x: int)
    requires 1 <= version <= 40 && 0 <= x < Size(version) && x != 6
    ensures FreeRows(version, x) == Size(version) - BaseRows(version, x) - ExtraRows(version, x)
  {
    hide IsFunction, Base, Extra, BaseRows, ExtraRows, Total;
    var f := y => Ind(!IsFunction(version, y, x));
    var base, extra := y => Ind(Base(version, y, x)), y => Ind(Extra(version, y, x));
    forall y | 0 <= y < Size(version) ensures f(y) == 1 + -1 * base(y) + -1 * extra(y) {
      ExtraIsAlignment(version, y, x);
    }
    TotalLinear(f, 1, -1, base, -1, extra, 0, Size(version));
    BaseRowsCount(version, x);
    ExtraRowsCount(version, x);
  }

  // ---- All columns ----

  ghost function ColumnFree(version: nat, x: int): int {
    if x == 6 then 0 else FreeRows(version, x)
  }

  lemma ColumnValue(version: nat, x: int)
    requires 2 <= version <= 40 && 0 <= x < Size(version)
    ensures var (p, k, dim, w) := (AlignmentPositions(version), Bands(version), Size(version), Ind(version >= 7));
      ColumnFree(version, x) ==
        if x < 4 then dim - 17 - 3 * w
        else if x < 6 then dim - 17 - 3 * w - 5 * (k - 2)
        else if x == 6 then 0
        else if x < 9 then dim - 17 - 5 * (k - 2)
        else if x < dim - 11 then dim - 1 - (5 * (k - 1) + 4) * Ind(Band(p, 1, k - 1, x))
        else if x < dim - 9 then dim - 1 - 6 * w
        else if x < dim - 8 then dim - 1 - 6 * w - 5 * (k - 1)
        else if x < dim - 4 then dim - 9 - 5 * (k - 1)
        else dim - 9
  {
    hide AlignmentPositions, FreeRows;
    var p, k, dim := AlignmentPositions(version), Bands(version), Size(version);
    PositionsSpread(version);
    if x != 6 { FreeRowsCount(version, x); }
    BandAbove(p, 1, k, x);
    LastBand(version, x);
  }

  lemma LastBand(version: nat, x: int)
    requires 2 <= version <= 40
    ensures var (p, k, dim) := (AlignmentPositions(version), Bands(version), Size(version));
      && (Band(p, 1, k, x) <==> Band(p, 1, k - 1, x) || dim - 9 <= x < dim - 4)
      && (Band(p, 1, k - 1, x) ==> 14 <= x < dim - 11)
  {
    hide AlignmentPositions;
    var p, k, dim := AlignmentPositions(version), Bands(version), Size(version);
    PositionsSpread(version);
    assert Near(x, p[k - 1]) <==> dim - 9 <= x < dim - 4;
    if Band(p, 1, k - 1, x) {
      var i :| 1 <= i < k - 1 && Near(x, p[i]);
      assert Band(p, 1, k, x);
    }
  }

  lemma LeftColumns(version: nat, f: int -> int)
    requires 2 <= version <= 40 && forall x :: f(x) == ColumnFree(version, x)
    ensures var (k, dim, w) := (Bands(version), Size(version), Ind(version >= 7));
      Total(f, 0, 9) == 8 * dim - 136 - 18 * w - 20 * (k - 2)
  {
    hide AlignmentPositions, ColumnFree, Total, Band;
    var k, dim, w := Bands(version), Size(version), Ind(version >= 7);
    forall x | 0 <= x < 9 ensures f(x) == if x < 4 then dim - 17 - 3 * w
      else if x < 6 then dim - 17 - 3 * w - 5 * (k - 2)
        else if x == 6 then 0 else dim - 17 - 5 * (k - 2) {
      ColumnValue(version, x);
    }
    TotalConstant(f, dim - 17 - 3 * w, 0, 4);
    TotalConstant(f, dim - 17 - 3 * w - 5 * (k - 2), 4, 6);
    TotalConstant(f, 0, 6, 7);
    TotalConstant(f, dim - 17 - 5 * (k - 2), 7, 9);
    TotalSplit(f, 0, 4, 6);
    TotalSplit(f, 0, 6, 7);
    TotalSplit(f, 0, 7, 9);
  }

  lemma RightColumns(version: nat, f: int -> int)
    requires 2 <= version <= 40 && forall x :: f(x) == ColumnFree(version, x)
    ensures var (k, dim, w) := (Bands(version), Size(version), Ind(version >= 7));
      Total(f, dim - 11, dim) == 11 * dim - 75 - 18 * w - 25 * (k - 1)
  {
    hide AlignmentPositions, ColumnFree, Total, Band;
    var k, dim, w := Bands(version), Size(version), Ind(version >= 7);
    forall x | dim - 11 <= x < dim ensures f(x) == if x < dim - 9 then dim - 1 - 6 * w
      else if x < dim - 8 then dim - 1 - 6 * w - 5 * (k - 1)
        else if x < dim - 4 then dim - 9 - 5 * (k - 1) else dim - 9 {
      ColumnValue(version, x);
    }
    TotalConstant(f, dim - 1 - 6 * w, dim - 11, dim - 9);
    TotalConstant(f, dim - 1 - 6 * w - 5 * (k - 1), dim - 9, dim - 8);
    TotalConstant(f, dim - 9 - 5 * (k - 1), dim - 8, dim - 4);
    TotalConstant(f, dim - 9, dim - 4, dim);
    TotalSplit(f, dim - 11, dim - 9, dim - 8);
    TotalSplit(f, dim - 11, dim - 8, dim - 4);
    TotalSplit(f, dim - 11, dim - 4, dim);
  }

  // The free modules of all columns are what the capacity formula says.
  lemma SumOfColumns(version: nat, f: int -> int)
    requires 1 <= version <= 40 && forall x :: f(x) == ColumnFree(version, x)
    ensures Total(f, 0, Size(version)) == RawModules(version)
  {
    hide ColumnFree, Total;
    if version == 1 {
      SumOfColumns1(f);
    } else {
      var k, dim, w := Bands(version), Size(version), Ind(version >= 7);
      LeftColumns(version, f);
      MiddleColumns(version, f);
      RightColumns(version, f);
      TotalSplit(f, 0, 9, dim - 11);
      TotalSplit(f, 0, dim - 11, dim);
      Capacity(version, k, w);
    }
  }

  lemma Capacity(v: int, k: int, w: int)
    ensures var dim := 4 * v + 17;
      8 * dim - 136 - 18 * w - 20 * (k - 2) + ((dim - 1) * (dim - 20) - (5 * (k - 1) + 4) * (5 * (k - 2)))
        + 11 * dim - 75 - 18 * w - 25 * (k - 1)
      == (16 * v + 128) * v + 64 - ((25 * k - 10) * k - 55) - 36 * w
  {
    assert (4 * v + 16) * (4 * v - 3) == 16 * (v * v) + 52 * v - 48;
    assert (5 * (k - 1) + 4) * (5 * (k - 2)) == 25 * (k * k) - 55 * k + 10;
  }

  lemma MiddleColumns(version: nat, f: int -> int)
    requires 2 <= version <= 40 && forall x :: f(x) == ColumnFree(version, x)
    ensures var (k, dim) := (Bands(version), Size(version));
      Total(f, 9, dim - 11) == (dim - 1) * (dim - 20) - (5 * (k - 1) + 4) * (5 * (k - 2))
  {
    hide AlignmentPositions, ColumnFree, Total, Band, Near;
    var p, k, dim := AlignmentPositions(version), Bands(version), Size(version);
    var inner := x => Ind(Band(p, 1, k - 1, x));
    PositionsSpread(version);
    BandCount(p, 1, k - 1, 9, dim - 11);
    forall x | 9 <= x < dim - 11 ensures f(x) == (dim - 1) + -(5 * (k - 1) + 4) * inner(x) + 0 * inner(x) {
      ColumnValue(version, x);
    }
    TotalLinear(f, dim - 1, -(5 * (k - 1) + 4), inner, 0, inner, 9, dim - 11);
  }

  lemma SumOfColumns1(f: int -> int)
    requires forall x :: f(x) == ColumnFree(1, x)
    ensures Total(f, 0, 21) == 208
  {
    hide ColumnFree, Total;
    forall x | 0 <= x < 21 ensures f(x) == if x == 6 then 0 else if x < 9 then 4 else if x < 13 then 20 else 12 {
      ColumnValue1(x);
    }
    TotalConstant(f, 4, 0, 6);
    TotalConstant(f, 0, 6, 7);
    TotalConstant(f, 4, 7, 9);
    TotalConstant(f, 20, 9, 13);
    TotalConstant(f, 12, 13, 21);
    TotalSplit(f, 0, 6, 7);
    TotalSplit(f, 0, 7, 9);
    TotalSplit(f, 0, 9, 13);
    TotalSplit(f, 0, 13, 21);
  }

  lemma ColumnValue1(x: int)
    requires 0 <= x < 21
    ensures ColumnFree(1, x) == if x == 6 then 0 else if x < 9 then 4 else if x < 13 then 20 else 12
  {
    hide FreeRows;
    if x != 6 { FreeRowsCount(1, x); }
  }

  // ---- Free modules in reading order ----

  // the free modules of column x, row by row
  ghost predicate Marks(f: int -> int, mask: Grid, dim: nat, x: nat)
    requires Square(mask, dim) && x < dim
  {
    forall y | 0 <= y < dim :: f(y) == Ind(!mask[y][x])
  }

  lemma {:induction false} PairOn(mask: Grid, dim: nat, i: nat, verts: nat)
    requires Square(mask, dim) && dim % 2 == 1 && verts <= dim && 2 * i + 2 < dim
    ensures On(PairCells(dim, i, verts), mask)
  {
    if verts > 0 { PairOn(mask, dim, i, verts - 1); }
  }

  lemma {:induction false} PairsOn(mask: Grid, dim: nat, pairs: nat)
    requires Square(mask, dim) && dim % 2 == 1 && 2 * pairs < dim
    ensures On(PairsCells(dim, pairs), mask)
  {
    hide PairCells;
    if pairs > 0 {
      PairsOn(mask, dim, pairs - 1);
      PairOn(mask, dim, pairs - 1, dim);
      OnConcat(PairsCells(dim, pairs - 1), PairCells(dim, pairs - 1, dim), mask);
    }
  }

  lemma TotalAddFirst(f: int -> int, lo: int, hi: int)
    requires lo < hi
    ensures Total(f, lo, hi) == f(lo) + Total(f, lo + 1, hi)
  {
    TotalSplit(f, lo, lo + 1, hi);
    TotalConstant(f, f(lo), lo, lo + 1);
  }

  lemma {:induction false} PairFree(mask: Grid, dim: nat, i: nat, verts: nat, right: int -> int, left: int -> int)
    requires Square(mask, dim) && dim % 2 == 1 && verts <= dim && 2 * i + 2 < dim && On(PairCells(dim, i, verts), mask)
    requires Marks(right, mask, dim, Right(dim, i)) && Marks(left, mask, dim, Right(dim, i) - 1)
    ensures var (lo, hi) := if i % 2 == 0 then (dim - verts, dim) else (0, verts);
      |Free(PairCells(dim, i, verts), mask)| == Total(right, lo, hi) + Total(left, lo, hi)
  {
    hide Free, Right;
    if verts == 0 {
      EmptyFree(mask);
    } else {
      PairOn(mask, dim, i, verts - 1);
      PairFree(mask, dim, i, verts - 1, right, left);
      var y := Row(dim, i, verts - 1);
      TwoMore(PairCells(dim, i, verts - 1), mask, dim, y, Right(dim, i));
      assert PairCells(dim, i, verts) == PairCells(dim, i, verts - 1) + [(y, Right(dim, i)), (y, Right(dim, i) - 1)];
      if i % 2 == 0 {
        TotalAddFirst(right, y, dim);
        TotalAddFirst(left, y, dim);
      }
    }
  }

  lemma TwoMore(cells: seq<Cell>, mask: Grid, dim: nat, y: nat, x: nat)
    requires Square(mask, dim) && On(cells, mask) && y < dim && 0 < x < dim
    ensures On(cells + [(y, x), (y, x - 1)], mask)
    ensures |Free(cells + [(y, x), (y, x - 1)], mask)| == |Free(cells, mask)| + Ind(!mask[y][x]) + Ind(!mask[y][x - 1])
  {
    hide Free;
    FreeSnoc(cells, (y, x), mask);
    FreeSnoc(cells + [(y, x)], (y, x - 1), mask);
    assert cells + [(y, x)] + [(y, x - 1)] == cells + [(y, x), (y, x - 1)];
  }

  // free modules of a column, none in the timing column
  ghost predicate CountsColumns(f: int -> int, mask: Grid, dim: nat)
    requires Square(mask, dim) && dim >= 9
  {
    f(6) == 0 && forall x, g | 0 <= x < dim && x != 6 && Marks(g, mask, dim, x) :: f(x) == Total(g, 0, dim)
  }

  lemma {:induction false} PairsFree(mask: Grid, dim: nat, pairs: nat, f: int -> int)
    requires Square(mask, dim) && dim % 2 == 1 && dim >= 9 && 2 * pairs < dim && On(PairsCells(dim, pairs), mask)
    requires CountsColumns(f, mask, dim)
    ensures |Free(PairsCells(dim, pairs), mask)| == Total(f, Frontier(dim, pairs) + 1, dim)
  {
    hide Free, PairCells;
    if pairs == 0 {
      EmptyFree(mask);
    } else {
      var i := pairs - 1;
      var x := Right(dim, i);
      PairsOn(mask, dim, i);
      PairOn(mask, dim, i, dim);
      PairsFree(mask, dim, i, f);
      ColumnPair(mask, dim, i, f);
      FreeConcat(PairsCells(dim, i), PairCells(dim, i, dim), mask);
      TotalAddFirst(f, x - 1, dim);
      TotalAddFirst(f, x, dim);
      if Frontier(dim, i) != x { TotalAddFirst(f, x + 1, dim); }
    }
  }

  lemma ColumnPair(mask: Grid, dim: nat, i: nat, f: int -> int)
    requires Square(mask, dim) && dim % 2 == 1 && dim >= 9 && 2 * i + 2 < dim && On(PairCells(dim, i, dim), mask)
    requires CountsColumns(f, mask, dim)
    ensures |Free(PairCells(dim, i, dim), mask)| == f(Right(dim, i)) + f(Right(dim, i) - 1)
  {
    hide Free, PairCells, Total;
    var x := Right(dim, i);
    var right := y => if 0 <= y < dim then Ind(!mask[y][x]) else 0;
    var left := y => if 0 <= y < dim then Ind(!mask[y][x - 1]) else 0;
    PairFree(mask, dim, i, dim, right, left);
    assert Marks(right, mask, dim, x) && Marks(left, mask, dim, x - 1);
  }

  // Every version has exactly as many free modules as its codeword count assumes.
  lemma FreeModules(version: nat)
    requires 1 <= version <= 40 && On(Zigzag(Size(version)), FunctionMask(version))
    ensures |Free(Zigzag(Size(version)), FunctionMask(version))| == RawModules(version)
  {
    hide IsFunction, RawModules, PairsCells, Free, Total;
    var dim, mask := Size(version), FunctionMask(version);
    var f := x => ColumnFree(version, x);
    forall x, g | 0 <= x < dim && x != 6 && Marks(g, mask, dim, x) ensures f(x) == Total(g, 0, dim) {
      var h := y => Ind(!IsFunction(version, y, x));
      TotalLinear(g, 0, 1, h, 0, h, 0, dim);
    }
    PairsFree(mask, dim, (dim - 1) / 2, f);
    SumOfColumns(version, f);
  }
}

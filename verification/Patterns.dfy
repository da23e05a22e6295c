/** The function patterns of a QR symbol: the modules that carry no data, as the reader blanks them out. */
module Patterns {

  import opened Placement

  function Size(version: nat): nat {
    version * 4 + 17
  }

  function AlignmentStep(version: nat): nat
    requires version >= 2
  {
    var count := version / 7 + 2;
    (version * 8 + count * 3 + 5) / (count * 4 - 4) * 2
  }

  // 6, then evenly spaced up to seven modules from the far edge
  function AlignmentPositions(version: nat): seq<int> {
    if version <= 1 then []
    else
      var count := version / 7 + 2;
      [6] + seq(count - 1, j => version * 4 + 10 - AlignmentStep(version) * (count - 2 - j))
  }

  // The three positions that finder patterns occupy hold no alignment pattern.
  predicate AlignmentAt(version: nat, r: int, c: int) {
    var dim := Size(version);
    !(r == 6 && c == 6) && !(r == 6 && c == dim - 7) && !(r == dim - 7 && c == 6)
  }

  predicate Near(a: int, b: int) {
    b - 2 <= a <= b + 2
  }

  predicate InAlignment(version: nat, y: int, x: int) {
    exists r, c | r in AlignmentPositions(version) && c in AlignmentPositions(version) ::
      AlignmentAt(version, r, c) && Near(y, r) && Near(x, c)
  }

  // finder patterns with their separators and the format information beside them
  predicate InCorner(dim: int, y: int, x: int) {
    (y < 9 && x < 9) || (y < 9 && x >= dim - 8) || (y >= dim - 8 && x < 9)
  }

  predicate InVersionInfo(version: nat, y: int, x: int) {
    var dim := Size(version);
    version >= 7 && ((y < 6 && dim - 11 <= x < dim - 8) || (x < 6 && dim - 11 <= y < dim - 8))
  }

  predicate IsFunction(version: nat, y: int, x: int) {
    InCorner(Size(version), y, x) || y == 6 || x == 6 || InAlignment(version, y, x) || InVersionInfo(version, y, x)
  }

  function FunctionMask(version: nat): (mask: Grid)
    ensures Square(mask, Size(version))
  {
    var dim := Size(version);
    seq(dim, y requires 0 <= y < dim => seq(dim, x requires 0 <= x < dim => IsFunction(version, y, x)))
  }

  // ---- How far apart alignment patterns are ----

  ghost predicate Spread(positions: seq<int>, a: int, b: int, lo: int, hi: int) {
    && 0 <= a <= b <= |positions|
    && (forall i | a <= i < b :: lo <= positions[i] - 2 && positions[i] + 2 < hi)
    && forall i, j | a <= i < j < b :: positions[i] + 5 <= positions[j]
  }

  lemma StepRange(version: nat)
    requires 7 <= version <= 40
    ensures var (count, step) := (version / 7 + 2, AlignmentStep(version));
      step >= 16 && version * 4 + 10 - step * (count - 2) >= 16
  {
    var count := version / 7 + 2;
    if count == 3 { } else if count == 4 { } else if count == 5 { } else if count == 6 { } else { assert count == 7; }
  }

  lemma PositionAt(version: nat, i: int)
    requires 2 <= version && 1 <= i < version / 7 + 2
    ensures |AlignmentPositions(version)| == version / 7 + 2 && AlignmentPositions(version)[0] == 6
    ensures AlignmentPositions(version)[i] == Size(version) - 7 - AlignmentStep(version) * (version / 7 + 1 - i)
  {
    hide AlignmentStep;
    assert version / 7 + 2 - 2 - (i - 1) == version / 7 + 1 - i;
  }

  lemma StepsApart(step: int, m: int, n: int)
    requires step >= 0 && m < n
    ensures step * m + step <= step * n
  {
    assert step * n - step * m == step * (n - m);
    assert step * (n - m - 1) >= 0;
  }

  lemma PositionsSpread(version: nat)
    requires 2 <= version <= 40
    ensures var (p, count, dim) := (AlignmentPositions(version), version / 7 + 2, Size(version));
      && |p| == count && p[0] == 6 && p[count - 1] == dim - 7
      && Spread(p, 1, count - 1, 14, dim - 11) && Spread(p, 1, count, 14, dim - 4)
  {
    hide AlignmentStep, AlignmentPositions, Spread;
    var p, count := AlignmentPositions(version), version / 7 + 2;
    PositionAt(version, count - 1);
    forall i | 1 <= i < count ensures p[i] >= 16 && (i < count - 1 ==> p[i] + 16 <= Size(version) - 7) {
      PositionInside(version, i);
    }
    forall i, j | 1 <= i < j < count ensures p[i] + 16 <= p[j] {
      PositionsApart(version, i, j);
    }
    AllSpread(p, count, Size(version));
  }

  lemma AllSpread(p: seq<int>, count: nat, dim: int)
    requires |p| == count >= 2 && p[count - 1] == dim - 7
    requires forall i | 1 <= i < count :: p[i] >= 16 && (i < count - 1 ==> p[i] + 16 <= dim - 7)
    requires forall i, j | 1 <= i < j < count :: p[i] + 16 <= p[j]
    ensures Spread(p, 1, count - 1, 14, dim - 11) && Spread(p, 1, count, 14, dim - 4)
  {
  }

  lemma PositionInside(version: nat, i: int)
    requires 2 <= version <= 40 && 1 <= i < version / 7 + 2
    ensures var (p, count) := (AlignmentPositions(version), version / 7 + 2);
      |p| == count && p[i] >= 16 && (i < count - 1 ==> p[i] + 16 <= Size(version) - 7)
  {
    hide AlignmentStep, AlignmentPositions;
    var count, step := version / 7 + 2, AlignmentStep(version);
    PositionAt(version, i);
    if version >= 7 {
      StepRange(version);
      if i > 1 { StepsApart(step, count - 1 - i, count - 2); }
      if i < count - 1 { StepsApart(step, 0, count - 1 - i); }
    }
  }

  lemma PositionsApart(version: nat, i: int, j: int)
    requires 2 <= version <= 40 && 1 <= i < j < version / 7 + 2
    ensures var p := AlignmentPositions(version); |p| == version / 7 + 2 && p[i] + 16 <= p[j]
  {
    hide AlignmentStep, AlignmentPositions;
    var count, step := version / 7 + 2, AlignmentStep(version);
    StepRange(version);
    PositionAt(version, i);
    PositionAt(version, j);
    StepsApart(step, count - 1 - j, count - 1 - i);
  }

  // No alignment pattern reaches a corner or the version information.
  lemma AlignmentApart(version: nat, y: int, x: int)
    requires 1 <= version <= 40 && InAlignment(version, y, x)
    ensures !InCorner(Size(version), y, x) && !InVersionInfo(version, y, x)
  {
    hide AlignmentPositions;
    var p := AlignmentPositions(version);
    var r, c :| r in p && c in p && AlignmentAt(version, r, c) && Near(y, r) && Near(x, c);
    assert version > 1 by { OnePositionless(); }
    PositionsSpread(version);
    var i, j :| 0 <= i < |p| && 0 <= j < |p| && p[i] == r && p[j] == c;
    assert (i == 0 || r >= 16) && (j == 0 || c >= 16);
    assert i < |p| - 1 ==> r + 2 < Size(version) - 11 || i == 0;
    assert j < |p| - 1 ==> c + 2 < Size(version) - 11 || j == 0;
  }

  lemma OnePositionless()
    ensures AlignmentPositions(1) == [] && AlignmentPositions(0) == []
  {
  }

  // two alignment patterns share no module
  lemma PatternsApart(version: nat, i: int, j: int, a: int, b: int, y: int, x: int)
    requires 1 <= version <= 40
    requires var n := |AlignmentPositions(version)|; 0 <= i < n && 0 <= j < n && 0 <= a < n && 0 <= b < n
    requires var p := AlignmentPositions(version);
      Near(y, p[i]) && Near(x, p[j]) && Near(y, p[a]) && Near(x, p[b])
    ensures i == a && j == b
  {
    hide AlignmentPositions;
    assert version > 1 by { OnePositionless(); }
    PositionsSpread(version);
  }

  // ---- The positions, version by version ----

  // table E.1 of ISO/IEC 18004
  const POSITIONS: seq<seq<int>> := [
    [], [6, 18], [6, 22], [6, 26],
    [6, 30], [6, 34], [6, 22, 38], [6, 24, 42],
    [6, 26, 46], [6, 28, 50], [6, 30, 54], [6, 32, 58],
    [6, 34, 62], [6, 26, 46, 66], [6, 26, 48, 70], [6, 26, 50, 74],
    [6, 30, 54, 78], [6, 30, 56, 82], [6, 30, 58, 86], [6, 34, 62, 90],
    [6, 28, 50, 72, 94], [6, 26, 50, 74, 98], [6, 30, 54, 78, 102], [6, 28, 54, 80, 106],
    [6, 32, 58, 84, 110], [6, 30, 58, 86, 114], [6, 34, 62, 90, 118], [6, 26, 50, 74, 98, 122],
    [6, 30, 54, 78, 102, 126], [6, 26, 52, 78, 104, 130], [6, 30, 56, 82, 108, 134], [6, 34, 60, 86, 112, 138],
    [6, 30, 58, 86, 114, 142], [6, 34, 62, 90, 118, 146], [6, 30, 54, 78, 102, 126, 150],
    [6, 24, 50, 76, 102, 128, 154],
    [6, 28, 54, 80, 106, 132, 158], [6, 32, 58, 84, 110, 136, 162], [6, 26, 54, 82, 110, 138, 166],
    [6, 30, 58, 86, 114, 142, 170]
  ]

  function Spaced(version: nat, step: nat, count: nat): seq<int>
    requires count >= 1
  {
    [6] + seq(count - 1, j => version * 4 + 10 - step * (count - 2 - j))
  }

  lemma Positions1(version: nat)
    requires 1 <= version <= 6
    ensures AlignmentPositions(version) == POSITIONS[version - 1]
  {
    if version == 1 { assert POSITIONS[0] == []; }
  }

  lemma Step7(version: nat)
    requires 7 <= version <= 13
    ensures AlignmentStep(version) ==
      if version == 7 then 16 else if version == 8 then 18 else if version == 9 then 20 else if version == 10 then 22
      else if version == 11 then 24 else if version == 12 then 26 else 28
  {
  }

  lemma Positions7(version: nat)
    requires 7 <= version <= 13
    ensures AlignmentPositions(version) == POSITIONS[version - 1]
  {
    hide AlignmentStep;
    Step7(version);
    var p := AlignmentPositions(version);
    assert p == Spaced(version, AlignmentStep(version), 3);
    if version == 7 {
      assert p == [6, 22, 38];
    } else if version == 8 {
      assert p == [6, 24, 42];
    } else if version == 9 {
      assert p == [6, 26, 46];
    } else if version == 10 {
      assert p == [6, 28, 50];
    } else if version == 11 {
      assert p == [6, 30, 54];
    } else if version == 12 {
      assert p == [6, 32, 58];
    } else {
      assert p == [6, 34, 62];
    }
  }

  lemma Step14(version: nat)
    requires 14 <= version <= 20
    ensures AlignmentStep(version) ==
      if version == 14 then 20 else if version == 15 then 22 else if version <= 17 then 24
      else if version == 18 then 26 else 28
  {
  }

  lemma Positions14(version: nat)
    requires 14 <= version <= 20
    ensures AlignmentPositions(version) == POSITIONS[version - 1]
  {
    hide AlignmentStep;
    Step14(version);
    var p := AlignmentPositions(version);
    assert p == Spaced(version, AlignmentStep(version), 4);
    if version == 14 {
      assert p == [6, 26, 46, 66];
    } else if version == 15 {
      assert p == [6, 26, 48, 70];
    } else if version == 16 {
      assert p == [6, 26, 50, 74];
    } else if version == 17 {
      assert p == [6, 30, 54, 78];
    } else if version == 18 {
      assert p == [6, 30, 56, 82];
    } else if version == 19 {
      assert p == [6, 30, 58, 86];
    } else {
      assert p == [6, 34, 62, 90];
    }
  }

  lemma Step21(version: nat)
    requires 21 <= version <= 27
    ensures AlignmentStep(version) ==
      if version == 21 then 22 else if version <= 23 then 24 else if version <= 25 then 26 else 28
  {
  }

  lemma Positions21(version: nat)
    requires 21 <= version <= 27
    ensures AlignmentPositions(version) == POSITIONS[version - 1]
  {
    hide AlignmentStep;
    Step21(version);
    var p := AlignmentPositions(version);
    assert p == Spaced(version, AlignmentStep(version), 5);
    if version == 21 {
      assert p == [6, 28, 50, 72, 94];
    } else if version == 22 {
      assert p == [6, 26, 50, 74, 98];
    } else if version == 23 {
      assert p == [6, 30, 54, 78, 102];
    } else if version == 24 {
      assert p == [6, 28, 54, 80, 106];
    } else if version == 25 {
      assert p == [6, 32, 58, 84, 110];
    } else if version == 26 {
      assert p == [6, 30, 58, 86, 114];
    } else {
      assert p == [6, 34, 62, 90, 118];
    }
  }

  lemma Step28(version: nat)
    requires 28 <= version <= 34
    ensures AlignmentStep(version) == if version <= 29 then 24 else if version <= 32 then 26 else 28
  {
  }

  lemma Positions28(version: nat)
    requires 28 <= version <= 34
    ensures AlignmentPositions(version) == POSITIONS[version - 1]
  {
    hide AlignmentStep;
    Step28(version);
    var p := AlignmentPositions(version);
    assert p == Spaced(version, AlignmentStep(version), 6);
    if version == 28 {
      assert p == [6, 26, 50, 74, 98, 122];
    } else if version == 29 {
      assert p == [6, 30, 54, 78, 102, 126];
    } else if version == 30 {
      assert p == [6, 26, 52, 78, 104, 130];
    } else if version == 31 {
      assert p == [6, 30, 56, 82, 108, 134];
    } else if version == 32 {
      assert p == [6, 34, 60, 86, 112, 138];
    } else if version == 33 {
      assert p == [6, 30, 58, 86, 114, 142];
    } else {
      assert p == [6, 34, 62, 90, 118, 146];
    }
  }

  lemma Step35(version: nat)
    requires 35 <= version <= 40
    ensures AlignmentStep(version) == if version <= 35 then 24 else if version <= 38 then 26 else 28
  {
  }

  lemma Positions35(version: nat)
    requires 35 <= version <= 40
    ensures AlignmentPositions(version) == POSITIONS[version - 1]
  {
    hide AlignmentStep;
    Step35(version);
    var p := AlignmentPositions(version);
    assert p == Spaced(version, AlignmentStep(version), 7);
    if version == 35 {
      assert p == [6, 30, 54, 78, 102, 126, 150];
    } else if version == 36 {
      assert p == [6, 24, 50, 76, 102, 128, 154];
    } else if version == 37 {
      assert p == [6, 28, 54, 80, 106, 132, 158];
    } else if version == 38 {
      assert p == [6, 32, 58, 84, 110, 136, 162];
    } else if version == 39 {
      assert p == [6, 26, 54, 82, 110, 138, 166];
    } else {
      assert p == [6, 30, 58, 86, 114, 142, 170];
    }
  }

  /** The positions of every version are those of the standard's table. */
  lemma PositionsOfStandard(version: nat)
    requires 1 <= version <= 40
    ensures AlignmentPositions(version) == POSITIONS[version - 1]
  {
    hide AlignmentPositions, POSITIONS;
    if version <= 6 {
      Positions1(version);
    } else if version <= 13 {
      Positions7(version);
    } else if version <= 20 {
      Positions14(version);
    } else if version <= 27 {
      Positions21(version);
    } else if version <= 34 {
      Positions28(version);
    } else {
      Positions35(version);
    }
  }
}

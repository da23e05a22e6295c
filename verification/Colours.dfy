/** What the function patterns of a finished QR symbol look like, module by module. */
module Colours {

  import opened FormatInfo
  import opened Patterns
  import opened Placement

  function Ring(dx: int, dy: int): int {
    var (ax, ay) := (if dx < 0 then -dx else dx, if dy < 0 then -dy else dy);
    if ax > ay then ax else ay
  }

  // the rings of a pattern, dark or light, from its center outwards
  const FINDER: seq<bool> := [true, true, false, true, false]
  const ALIGNMENT: seq<bool> := [true, false, true]

  // within the rows [y0, y1) of the columns [x0, x1) the rings around the center, elsewhere what was there before
  ghost predicate Rings(
    after: Grid, before: Grid, dim: nat, y: int, x: int, y0: int, y1: int, x0: int, x1: int, dark: seq<bool>)
    requires Square(after, dim) && Square(before, dim)
    requires y - |dark| < y0 && y1 <= y + |dark| && x - |dark| < x0 && x1 <= x + |dark|
  {
    forall r, c | 0 <= r < dim && 0 <= c < dim ::
      after[r][c] == if y0 <= r < y1 && x0 <= c < x1 then dark[Ring(c - x, r - y)] else before[r][c]
  }

  // row of format bit i in column 8, and column of format bit i in row 8
  function FormatRow(dim: int, i: int): int {
    if i < 6 then i else if i < 8 then i + 1 else dim - 15 + i
  }

  function FormatColumn(dim: int, i: int): int {
    if i < 8 then dim - 1 - i else if i < 9 then 15 - i else 14 - i
  }

  // the first n bits of the word stand in both their places
  ghost predicate FormatShown(g: Grid, dim: int, word: Word, n: nat)
    requires dim >= 21 && Square(g, dim) && n <= 15
  {
    forall i | 0 <= i < n :: g[FormatRow(dim, i)][8] == word[i] && g[8][FormatColumn(dim, i)] == word[i]
  }

  lemma ShownAt(g: Grid, dim: nat, word: Word, i: nat)
    requires dim >= 21 && Square(g, dim) && i < 15 && FormatShown(g, dim, word, 15)
    ensures 0 <= FormatRow(dim, i) < dim && 0 <= FormatColumn(dim, i) < dim
    ensures g[FormatRow(dim, i)][8] == word[i] && g[8][FormatColumn(dim, i)] == word[i]
  {
  }

  lemma FirstShown(g: Grid, dim: nat, word: Word)
    requires dim >= 21 && Square(g, dim) && FormatShown(g, dim, word, 15)
    ensures Copy(g, dim, 0) == word
  {
    hide FormatShown;
    forall i | 0 <= i < 15 ensures Copy(g, dim, 0)[i] == word[i] {
      ShownAt(g, dim, word, i);
    }
  }

  lemma SecondShown(g: Grid, dim: nat, word: Word)
    requires dim >= 21 && Square(g, dim) && FormatShown(g, dim, word, 15)
    ensures Copy(g, dim, 1) == word
  {
    hide FormatShown;
    forall i | 0 <= i < 15 ensures Copy(g, dim, 1)[i] == word[i] {
      ShownAt(g, dim, word, i);
    }
  }

  lemma CopiesShown(g: Grid, dim: nat, fmt: nat)
    requires dim >= 21 && Square(g, dim) && fmt < 32 && FormatShown(g, dim, FormatWord(fmt), 15)
    ensures Copy(g, dim, 0) == Copy(g, dim, 1) == FormatWord(fmt)
  {
    hide FormatWord, FormatShown, Copy;
    FirstShown(g, dim, FormatWord(fmt));
    SecondShown(g, dim, FormatWord(fmt));
  }

  // a bit put in both its places leaves those before it standing
  lemma FormatStep(g: Grid, dim: nat, word: Word, i: nat)
    requires dim >= 21 && Square(g, dim) && i < 15 && FormatShown(g, dim, word, i)
    ensures 0 <= FormatRow(dim, i) < dim && 0 <= FormatColumn(dim, i) < dim
    ensures var next := Put(Put(g, FormatRow(dim, i), 8, word[i]), 8, FormatColumn(dim, i), word[i]);
      && Square(next, dim) && FormatShown(next, dim, word, i + 1)
      && forall y, x | 0 <= y < dim && 0 <= x < dim
                       && !(x == 8 && y == FormatRow(dim, i)) && !(y == 8 && x == FormatColumn(dim, i)) ::
           next[y][x] == g[y][x]
  {
  }

  lemma NothingShown(g: Grid, dim: nat, word: Word)
    requires dim >= 21 && Square(g, dim)
    ensures FormatShown(g, dim, word, 0)
  {
  }

  lemma DarkModuleApart(g: Grid, dim: nat, word: Word)
    requires dim >= 21 && Square(g, dim) && FormatShown(g, dim, word, 15)
    ensures Square(Put(g, dim - 8, 8, true), dim) && FormatShown(Put(g, dim - 8, 8, true), dim, word, 15)
  {
  }

  ghost predicate FormatUpTo(dim: int, y: int, x: int, n: int) {
    || (x == 8 && exists i | 0 <= i < n :: y == FormatRow(dim, i))
    || (y == 8 && exists i | 0 <= i < n :: x == FormatColumn(dim, i))
  }

  ghost predicate InFormat(dim: int, y: int, x: int) {
    || (x == 8 && (0 <= y <= 8 || dim - 8 <= y < dim) && y != 6)
    || (y == 8 && (0 <= x <= 8 || dim - 8 <= x < dim) && x != 6)
  }

  lemma NoFormat(dim: int)
    ensures forall y, x :: !FormatUpTo(dim, y, x, 0)
  {
  }

  lemma FormatMore(dim: int, i: nat)
    ensures forall y, x :: FormatUpTo(dim, y, x, i + 1) <==>
      FormatUpTo(dim, y, x, i) || (x == 8 && y == FormatRow(dim, i)) || (y == 8 && x == FormatColumn(dim, i))
  {
    hide FormatRow, FormatColumn;
    forall y, x | FormatUpTo(dim, y, x, i + 1)
      ensures FormatUpTo(dim, y, x, i) || (x == 8 && y == FormatRow(dim, i)) || (y == 8 && x == FormatColumn(dim, i))
    {
      if x == 8 && exists k | 0 <= k < i + 1 :: y == FormatRow(dim, k) {
        var k :| 0 <= k < i + 1 && y == FormatRow(dim, k);
      }
    }
    forall y, x | FormatUpTo(dim, y, x, i) || (x == 8 && y == FormatRow(dim, i))
      || (y == 8 && x == FormatColumn(dim, i))
      ensures FormatUpTo(dim, y, x, i + 1)
    {
    }
  }

  lemma FormatExtent(dim: int, y: int, x: int)
    requires dim >= 21
    ensures FormatUpTo(dim, y, x, 15) || (x == 8 && y == dim - 8) <==> InFormat(dim, y, x)
  {
    if InFormat(dim, y, x) {
      if x == 8 && y != dim - 8 && y < 6 { assert y == FormatRow(dim, y); }
      if x == 8 && y != dim - 8 && 6 < y <= 8 { assert y == FormatRow(dim, y - 1); }
      if x == 8 && y > dim - 8 { assert y == FormatRow(dim, y - dim + 15); }
      if y == 8 && x < 6 { assert x == FormatColumn(dim, 14 - x); }
      if y == 8 && x == 7 { assert x == FormatColumn(dim, 8); }
      if y == 8 && x >= dim - 8 { assert x == FormatColumn(dim, dim - 1 - x); }
      if y == 8 && x == 8 { assert y == FormatRow(dim, 7); }
    }
  }

  function Generators(count: bv32): bv32 {
    count * 0x1F25
  }

  function Round(v: bv32): bv32 {
    (v << 1) ^ Generators(v >> 11)
  }

  function VersionWord(value: bv32, rounds: nat): bv32 {
    if rounds == 0 then value else Round(VersionWord(value, rounds - 1))
  }

  // eighteen bits: the version above the remainder of its division
  function VersionInfo(version: nat): bv32
    requires version <= 40
  {
    VersionWord(version as bv32, 12) | (version as bv32 << 12)
  }

  predicate VersionBit(version: nat, i: nat)
    requires version <= 40 && i < 18
  {
    (VersionInfo(version) >> i) & 1 != 0
  }

  ghost predicate VersionShown(g: Grid, dim: int, version: nat, n: nat)
    requires dim >= 45 && Square(g, dim) && n <= 18 && version <= 40
  {
    forall i | 0 <= i < n :: g[dim - 11 + i % 3][i / 3] == g[i / 3][dim - 11 + i % 3] == VersionBit(version, i)
  }

  lemma NoVersionShown(g: Grid, dim: int, version: nat)
    requires dim >= 45 && Square(g, dim) && version <= 40
    ensures VersionShown(g, dim, version, 0)
  {
  }

  lemma VersionStep(g: Grid, dim: nat, version: nat, i: nat)
    requires dim >= 45 && Square(g, dim) && i < 18 && version <= 40 && VersionShown(g, dim, version, i)
    ensures var (a, b, bit) := (dim - 11 + i % 3, i / 3, VersionBit(version, i));
      var next := Put(Put(g, b, a, bit), a, b, bit);
      && Square(next, dim) && VersionShown(next, dim, version, i + 1)
      && forall y, x | 0 <= y < dim && 0 <= x < dim && !(y == b && x == a) && !(y == a && x == b) ::
           next[y][x] == g[y][x]
  {
    hide VersionBit;
  }

  // level L, mask 0
  const FORMAT_L0: nat := 8

  // ---- The other patterns ----

  // the rings around a center, within so many modules of it, as far as they lie in the grid
  ghost predicate RingsShown(g: Grid, dim: nat, y: int, x: int, dark: seq<bool>)
    requires Square(g, dim)
  {
    forall r, c | 0 <= r < dim && 0 <= c < dim && Ring(c - x, r - y) < |dark| :: g[r][c] == dark[Ring(c - x, r - y)]
  }

  ghost predicate FindersShown(g: Grid, dim: nat)
    requires dim >= 21 && Square(g, dim)
  {
    RingsShown(g, dim, 3, 3, FINDER) && RingsShown(g, dim, 3, dim - 4, FINDER) && RingsShown(g, dim, dim - 4, 3, FINDER)
  }

  // those of the alignment patterns that come before the pair (a, b)
  ghost predicate AlignmentsBefore(g: Grid, version: nat, a: int, b: int)
    requires Square(g, Size(version))
  {
    var p := AlignmentPositions(version);
    forall i, j | 0 <= i < |p| && 0 <= j < |p| && AlignmentAt(version, p[i], p[j]) && (i < a || (i == a && j < b)) ::
      RingsShown(g, Size(version), p[i], p[j], ALIGNMENT)
  }

  ghost predicate AlignmentsShown(g: Grid, version: nat)
    requires Square(g, Size(version))
  {
    AlignmentsBefore(g, version, |AlignmentPositions(version)|, 0)
  }

  // row and column six alternate between the finders, but for the alignment patterns on them
  ghost predicate TimingShown(g: Grid, version: nat)
    requires Square(g, Size(version))
  {
    forall i | 8 <= i < Size(version) - 8 ::
      && (!InAlignment(version, 6, i) ==> g[6][i] == (i % 2 == 0))
        && (!InAlignment(version, i, 6) ==> g[i][6] == (i % 2 == 0))
  }

  // the patterns that are the same in every symbol of a version
  ghost predicate FixedShown(g: Grid, version: nat)
    requires version >= 1 && Square(g, Size(version))
  {
    FindersShown(g, Size(version)) && AlignmentsShown(g, version) && TimingShown(g, version)
  }

  // all function patterns of a symbol of level L with mask 0
  ghost predicate PatternsShown(g: Grid, version: nat)
    requires 1 <= version <= 40 && Square(g, Size(version))
  {
    && FixedShown(g, version) && (version >= 7 ==> VersionShown(g, Size(version), version, 18))
    && FormatShown(g, Size(version), FormatWord(FORMAT_L0), 15) && g[Size(version) - 8][8]
  }

  // ---- Which patterns a drawing leaves standing ----

  predicate InFinder(dim: int, y: int, x: int) {
    (y < 8 && x < 8) || (y < 8 && x >= dim - 8) || (y >= dim - 8 && x < 8)
  }

  ghost predicate TimingDrawn(g: Grid, dim: nat)
    requires Square(g, dim) && dim >= 21
  {
    forall i | 0 <= i < dim :: g[i][6] == (i % 2 == 0) && g[6][i] == (i % 2 == 0)
  }

  lemma FindersDrawn(timed: Grid, first: Grid, second: Grid, found: Grid, dim: nat)
    requires dim >= 21 && Square(timed, dim) && Square(first, dim) && Square(second, dim) && Square(found, dim)
    requires Rings(first, timed, dim, 3, 3, -1, 8, -1, 8, FINDER)
    requires Rings(second, first, dim, 3, dim - 4, -1, 8, dim - 8, dim + 1, FINDER)
    requires Rings(found, second, dim, dim - 4, 3, dim - 8, dim + 1, -1, 8, FINDER)
    ensures FindersShown(found, dim)
    ensures forall y, x | 0 <= y < dim && 0 <= x < dim && !InFinder(dim, y, x) :: found[y][x] == timed[y][x]
  {
  }

  lemma FixedDrawn(timed: Grid, first: Grid, second: Grid, found: Grid, fixed: Grid, version: nat)
    requires var dim := Size(version);
      1 <= version <= 40 && Square(timed, dim) && Square(first, dim) && Square(second, dim) && Square(found, dim)
    requires var dim := Size(version);
      && TimingDrawn(timed, dim)
      && Rings(first, timed, dim, 3, 3, -1, 8, -1, 8, FINDER)
      && Rings(second, first, dim, 3, dim - 4, -1, 8, dim - 8, dim + 1, FINDER)
      && Rings(found, second, dim, dim - 4, 3, dim - 8, dim + 1, -1, 8, FINDER)
    requires Square(fixed, Size(version)) && AlignmentsShown(fixed, version)
    requires forall y, x | 0 <= y < Size(version) && 0 <= x < Size(version) && !InAlignment(version, y, x) ::
      fixed[y][x] == found[y][x]
    ensures FixedShown(fixed, version)
  {
    hide Rings, AlignmentsShown, InAlignment, FindersShown;
    FindersDrawn(timed, first, second, found, Size(version));
    AlignmentsAreApart(version);
    FindersStay(found, fixed, Size(version));
  }

  lemma AlignmentsAreApart(version: nat)
    requires 1 <= version <= 40
    ensures forall y, x | InAlignment(version, y, x) :: !InCorner(Size(version), y, x) && !InVersionInfo(version, y, x)
  {
    hide InAlignment, InCorner, InVersionInfo;
    forall y, x | InAlignment(version, y, x)
      ensures !InCorner(Size(version), y, x) && !InVersionInfo(version, y, x)
    {
      AlignmentApart(version, y, x);
    }
  }

  lemma FindersStay(g: Grid, h: Grid, dim: nat)
    requires dim >= 21 && Square(g, dim) && Square(h, dim) && FindersShown(g, dim)
    requires forall y, x | 0 <= y < dim && 0 <= x < dim && InFinder(dim, y, x) :: h[y][x] == g[y][x]
    ensures FindersShown(h, dim)
  {
  }

  lemma NoAlignments(g: Grid, version: nat)
    requires Square(g, Size(version))
    ensures AlignmentsBefore(g, version, 0, 0)
  {
  }

  lemma AlignmentsRow(g: Grid, version: nat, a: nat)
    requires Square(g, Size(version)) && AlignmentsBefore(g, version, a, |AlignmentPositions(version)|)
    ensures AlignmentsBefore(g, version, a + 1, 0)
  {
    hide RingsShown, AlignmentPositions, AlignmentAt;
  }

  // an alignment pattern leaves those before it standing
  lemma AlignmentsStep(g: Grid, h: Grid, version: nat, a: nat, b: nat)
    requires 1 <= version <= 40 && Square(g, Size(version)) && Square(h, Size(version))
    requires AlignmentsBefore(g, version, a, b)
    requires a < |AlignmentPositions(version)| && b < |AlignmentPositions(version)|
    requires var (y, x) := (AlignmentPositions(version)[a], AlignmentPositions(version)[b]);
      if AlignmentAt(version, y, x) then Rings(h, g, Size(version), y, x, y - 2, y + 3, x - 2, x + 3, ALIGNMENT)
        else h == g
    ensures AlignmentsBefore(h, version, a, b + 1)
  {
    hide Rings, RingsShown, AlignmentPositions, AlignmentAt;
    var p := AlignmentPositions(version);
    forall i, j | 0 <= i < |p| && 0 <= j < |p| && AlignmentAt(version, p[i], p[j]) && (i < a || (i == a && j < b + 1))
      ensures RingsShown(h, Size(version), p[i], p[j], ALIGNMENT)
    {
      if i == a && j == b {
        RingsDrawn(g, h, Size(version), p[a], p[b]);
      } else if h != g {
        RingsStand(g, h, version, i, j, a, b);
      }
    }
  }

  lemma RingsDrawn(g: Grid, h: Grid, dim: nat, y: int, x: int)
    requires Square(g, dim) && Square(h, dim) && Rings(h, g, dim, y, x, y - 2, y + 3, x - 2, x + 3, ALIGNMENT)
    ensures RingsShown(h, dim, y, x, ALIGNMENT)
  {
  }

  lemma RingsStand(g: Grid, h: Grid, version: nat, i: nat, j: nat, a: nat, b: nat)
    requires 1 <= version <= 40 && Square(g, Size(version)) && Square(h, Size(version))
    requires var n := |AlignmentPositions(version)|; i < n && j < n && a < n && b < n && (i != a || j != b)
    requires var p := AlignmentPositions(version);
      && RingsShown(g, Size(version), p[i], p[j], ALIGNMENT)
      && Rings(h, g, Size(version), p[a], p[b], p[a] - 2, p[a] + 3, p[b] - 2, p[b] + 3, ALIGNMENT)
    ensures RingsShown(h, Size(version), AlignmentPositions(version)[i], AlignmentPositions(version)[j], ALIGNMENT)
  {
    hide AlignmentPositions;
    var p := AlignmentPositions(version);
    forall r, c | 0 <= r < Size(version) && 0 <= c < Size(version) && Ring(c - p[j], r - p[i]) < 3
      ensures h[r][c] == g[r][c] {
      if Near(r, p[a]) && Near(c, p[b]) { PatternsApart(version, i, j, a, b, r, c); }
    }
  }

  lemma AlignmentsStay(g: Grid, h: Grid, version: nat)
    requires Square(g, Size(version)) && Square(h, Size(version)) && AlignmentsShown(g, version)
    requires forall y, x | 0 <= y < Size(version) && 0 <= x < Size(version) && InAlignment(version, y, x) ::
      h[y][x] == g[y][x]
    ensures AlignmentsShown(h, version)
  {
    hide AlignmentPositions, AlignmentAt;
    var p := AlignmentPositions(version);
    forall i, j, r, c | 0 <= i < |p| && 0 <= j < |p| && AlignmentAt(version, p[i], p[j])
                        && 0 <= r < Size(version) && 0 <= c < Size(version) && Ring(c - p[j], r - p[i]) < 3
      ensures h[r][c] == g[r][c]
    {
      assert p[i] in p && p[j] in p && Near(r, p[i]) && Near(c, p[j]);
    }
  }

  // the regions of the patterns, and what belongs to none but the fixed ones
  predicate InFixed(version: nat, y: int, x: int) {
    InFinder(Size(version), y, x) || InAlignment(version, y, x)
    || ((y == 6 || x == 6) && 8 <= y + x - 6 < Size(version) - 8)
  }

  lemma FixedStaysWhere(g: Grid, h: Grid, version: nat)
    requires 1 <= version <= 40 && Square(g, Size(version)) && Square(h, Size(version)) && FixedShown(g, version)
    requires forall y, x | 0 <= y < Size(version) && 0 <= x < Size(version) && InFixed(version, y, x) ::
      h[y][x] == g[y][x]
    ensures FixedShown(h, version)
  {
    hide InAlignment, AlignmentsShown, FindersShown;
    FindersStay(g, h, Size(version));
    AlignmentsStay(g, h, version);
    forall i | 8 <= i < Size(version) - 8
      ensures !InAlignment(version, 6, i) ==> h[6][i] == (i % 2 == 0)
      ensures !InAlignment(version, i, 6) ==> h[i][6] == (i % 2 == 0)
    {
      assert InFixed(version, 6, i) && InFixed(version, i, 6);
    }
  }

  // the fixed patterns have modules of their own
  lemma PatternsRegions(version: nat)
    requires 1 <= version <= 40
    ensures forall y, x | 0 <= y < Size(version) && 0 <= x < Size(version) && InFixed(version, y, x) ::
      IsFunction(version, y, x) && !InFormat(Size(version), y, x) && !InVersionInfo(version, y, x)
    ensures forall y, x | 0 <= y < Size(version) && 0 <= x < Size(version) && IsFunction(version, y, x) ::
      InFixed(version, y, x) || InFormat(Size(version), y, x) || InVersionInfo(version, y, x)
    ensures forall y, x | 0 <= y < Size(version) && 0 <= x < Size(version) && InFormat(Size(version), y, x) ::
      IsFunction(version, y, x) && !InVersionInfo(version, y, x)
  {
    hide InAlignment;
    AlignmentsAreApart(version);
  }

  lemma FunctionsAre(version: nat)
    requires 1 <= version <= 40
    ensures forall y, x | 0 <= y < Size(version) && 0 <= x < Size(version) :: IsFunction(version, y, x) <==>
      InFinder(Size(version), y, x) || y == 6 || x == 6 || InAlignment(version, y, x) || InFormat(Size(version), y, x)
      || InVersionInfo(version, y, x)
  {
    hide InAlignment, InVersionInfo;
  }

  lemma FixedStays(g: Grid, h: Grid, version: nat)
    requires 1 <= version <= 40 && Square(g, Size(version)) && Square(h, Size(version)) && FixedShown(g, version)
    requires forall y, x | 0 <= y < Size(version) && 0 <= x < Size(version) && IsFunction(version, y, x)
                           && !InFormat(Size(version), y, x) && !InVersionInfo(version, y, x) :: h[y][x] == g[y][x]
    ensures FixedShown(h, version)
  {
    hide InFixed, FixedShown, IsFunction, InFormat, InVersionInfo;
    PatternsRegions(version);
    FixedStaysWhere(g, h, version);
  }

  lemma FormatStays(g: Grid, h: Grid, version: nat)
    requires 1 <= version <= 40 && Square(g, Size(version)) && Square(h, Size(version))
    requires FormatShown(g, Size(version), FormatWord(FORMAT_L0), 15) && g[Size(version) - 8][8]
    requires forall y, x | 0 <= y < Size(version) && 0 <= x < Size(version) && InFormat(Size(version), y, x) ::
      h[y][x] == g[y][x]
    ensures FormatShown(h, Size(version), FormatWord(FORMAT_L0), 15) && h[Size(version) - 8][8]
  {
    hide FormatWord;
  }

  lemma VersionStays(g: Grid, h: Grid, version: nat)
    requires 7 <= version <= 40 && Square(g, Size(version)) && Square(h, Size(version))
    requires VersionShown(g, Size(version), version, 18)
    requires forall y, x | 0 <= y < Size(version) && 0 <= x < Size(version) && InVersionInfo(version, y, x) ::
      h[y][x] == g[y][x]
    ensures VersionShown(h, Size(version), version, 18)
  {
    hide VersionBit;
  }

  // drawing anything but function modules, and then the format again, leaves the patterns standing
  lemma PatternsStay(g: Grid, h: Grid, version: nat)
    requires 1 <= version <= 40 && Square(g, Size(version)) && Square(h, Size(version)) && PatternsShown(g, version)
    requires forall y, x | 0 <= y < Size(version) && 0 <= x < Size(version) && IsFunction(version, y, x)
                           && !InFormat(Size(version), y, x) :: h[y][x] == g[y][x]
    requires FormatShown(h, Size(version), FormatWord(FORMAT_L0), 15) && h[Size(version) - 8][8]
    ensures PatternsShown(h, version)
  {
    hide FixedShown, VersionShown, FormatShown, FormatWord, InFixed;
    FixedStays(g, h, version);
    PatternsRegions(version);
    if version >= 7 { VersionStays(g, h, version); }
  }

  // the format and version information, drawn beside the fixed patterns
  lemma AllDrawn(fixed: Grid, formatted: Grid, all: Grid, version: nat)
    requires 1 <= version <= 40 && FixedShownOn(fixed, version)
    requires Square(formatted, Size(version)) && Square(all, Size(version))
    requires FormatShown(formatted, Size(version), FormatWord(FORMAT_L0), 15) && formatted[Size(version) - 8][8]
    requires forall y, x | 0 <= y < Size(version) && 0 <= x < Size(version) && !InFormat(Size(version), y, x) ::
      formatted[y][x] == fixed[y][x]
    requires forall y, x | 0 <= y < Size(version) && 0 <= x < Size(version) && !InVersionInfo(version, y, x) ::
      all[y][x] == formatted[y][x]
    requires version >= 7 ==> VersionShown(all, Size(version), version, 18)
    ensures PatternsShown(all, version)
  {
    hide FixedShown, FormatShown, VersionShown, FormatWord, InFormat, InVersionInfo, InFixed, IsFunction;
    PatternsRegions(version);
    FixedStays(fixed, all, version);
    FormatStays(formatted, all, version);
  }

  ghost predicate FixedShownOn(g: Grid, version: nat) {
    version >= 1 && Square(g, Size(version)) && FixedShown(g, version)
  }

  lemma NoVersionInfo(version: nat)
    ensures version < 7 ==> forall y, x :: !InVersionInfo(version, y, x)
  {
  }

  // ---- The patterns are all there is to a function module ----

  lemma FindersTell(g: Grid, h: Grid, dim: nat, y: int, x: int)
    requires dim >= 21 && Square(g, dim) && Square(h, dim) && FindersShown(g, dim) && FindersShown(h, dim)
    requires 0 <= y < dim && 0 <= x < dim && InFinder(dim, y, x)
    ensures g[y][x] == h[y][x]
  {
  }

  lemma AlignmentsTell(g: Grid, h: Grid, version: nat, y: int, x: int)
    requires Square(g, Size(version)) && Square(h, Size(version))
    requires AlignmentsShown(g, version) && AlignmentsShown(h, version)
    requires 0 <= y < Size(version) && 0 <= x < Size(version) && InAlignment(version, y, x)
    ensures g[y][x] == h[y][x]
  {
    hide AlignmentPositions, AlignmentAt;
    var p := AlignmentPositions(version);
    var r, c :| r in p && c in p && AlignmentAt(version, r, c) && Near(y, r) && Near(x, c);
    var i, j :| 0 <= i < |p| && 0 <= j < |p| && p[i] == r && p[j] == c;
    assert RingsShown(g, Size(version), p[i], p[j], ALIGNMENT) && RingsShown(h, Size(version), p[i], p[j], ALIGNMENT);
    assert Ring(x - c, y - r) < 3;
  }

  lemma FormatTells(g: Grid, h: Grid, dim: nat, word: Word, y: int, x: int)
    requires dim >= 21 && Square(g, dim) && Square(h, dim) && g[dim - 8][8] && h[dim - 8][8]
    requires FormatShown(g, dim, word, 15) && FormatShown(h, dim, word, 15)
    requires 0 <= y < dim && 0 <= x < dim && InFormat(dim, y, x)
    ensures g[y][x] == h[y][x]
  {
    hide FormatShown;
    FormatExtent(dim, y, x);
    if FormatUpTo(dim, y, x, 15) {
      var i: nat :| i < 15 && ((x == 8 && y == FormatRow(dim, i)) || (y == 8 && x == FormatColumn(dim, i)));
      ShownAt(g, dim, word, i);
      ShownAt(h, dim, word, i);
    }
  }

  lemma VersionTells(g: Grid, h: Grid, version: nat, y: int, x: int)
    requires 7 <= version <= 40 && Square(g, Size(version)) && Square(h, Size(version))
    requires VersionShown(g, Size(version), version, 18) && VersionShown(h, Size(version), version, 18)
    requires 0 <= y < Size(version) && 0 <= x < Size(version) && InVersionInfo(version, y, x)
    ensures g[y][x] == h[y][x]
  {
    hide VersionBit;
    var (a, b) := if y < 6 then (x, y) else (y, x);
    var i := 3 * b + a - (Size(version) - 11);
    assert 0 <= i < 18 && i / 3 == b && i % 3 == a - (Size(version) - 11);
    assert g[a][b] == g[b][a] == VersionBit(version, i) && h[a][b] == h[b][a] == VersionBit(version, i);
  }

  /** The patterns fix the colour of every function module: two symbols that show them agree on all of these. */
  lemma PatternsTell(g: Grid, h: Grid, version: nat, y: int, x: int)
    requires 1 <= version <= 40 && Square(g, Size(version)) && Square(h, Size(version))
    requires PatternsShown(g, version) && PatternsShown(h, version)
    requires 0 <= y < Size(version) && 0 <= x < Size(version) && IsFunction(version, y, x)
    ensures g[y][x] == h[y][x]
  {
    hide FindersShown, AlignmentsShown, InAlignment, FormatShown, VersionShown, FormatWord, IsFunction, InFormat;
    PatternsRegions(version);
    if InFormat(Size(version), y, x) {
      FormatTells(g, h, Size(version), FormatWord(FORMAT_L0), y, x);
    } else if InVersionInfo(version, y, x) {
      VersionTells(g, h, version, y, x);
    } else if InAlignment(version, y, x) {
      AlignmentsTell(g, h, version, y, x);
    } else if InFinder(Size(version), y, x) {
      FindersTell(g, h, Size(version), y, x);
    } else {
      assert x == 6 || y == 6;
    }
  }

  // ---- The patterns, as the standard pictures them ----

  // a round as a step of polynomial division
  function Divide(v: bv32): bv32 {
    if v & 0x800 != 0 then (v << 1) ^ 0x1F25 else v << 1
  }

  lemma RoundDivides(v: bv32)
    requires v < 0x1000
    ensures Round(v) == Divide(v) && Divide(v) < 0x1000
  {
    hide Generators;
    assert v >> 11 == if v & 0x800 != 0 then 1 else 0;
    NoneOrOne();
  }

  lemma NoneOrOne()
    ensures Generators(0) == 0 && Generators(1) == 0x1F25
  {
  }

  // the first six of the twelve rounds only shift
  lemma SixShifts(v: bv32)
    requires v < 64
    ensures VersionWord(v, 6) == v << 6 && v << 6 < 0x1000
  {
    hide Round, Divide;
    ShiftRound(v, 0);
    ShiftRound(v, 1);
    ShiftRound(v, 2);
    ShiftRound(v, 3);
    ShiftRound(v, 4);
    ShiftRound(v, 5);
    assert VersionWord(v, 0) == v;
  }

  lemma ShiftRound(v: bv32, n: nat)
    requires v < 64 && n < 6 && VersionWord(v, n) == Moved(v, n)
    ensures VersionWord(v, n + 1) == Moved(v, n + 1)
  {
    hide Generators;
    NoneOrOne();
  }

  function Moved(v: bv32, n: nat): bv32
    requires n <= 6
  {
    match n case 0 => v case 1 => v << 1 case 2 => v << 2 case 3 => v << 3 case 4 => v << 4 case 5 => v << 5
      case _ => v << 6
  }

  lemma DivideRound(v: bv32, n: nat)
    requires VersionWord(v, n) < 0x1000
    ensures VersionWord(v, n + 1) == Divide(VersionWord(v, n)) < 0x1000
  {
    hide Round, Divide;
    RoundDivides(VersionWord(v, n));
  }

  function OfBit(v: bv32, bit: bv32, remainder: bv32): bv32 {
    if v & bit != 0 then remainder else 0
  }

  // what each bit of the version leaves when it is divided
  function Remainders(v: bv32): bv32 {
    OfBit(v, 1, 0xF25) ^ OfBit(v, 2, 0x16F) ^ OfBit(v, 4, 0x2DE) ^ OfBit(v, 8, 0x5BC) ^ OfBit(v, 16, 0xB78)
      ^ OfBit(v, 32, 0x9D5)
  }

  lemma SixDivisions(v: bv32)
    requires v < 64
    ensures Divide(Divide(Divide(Divide(Divide(Divide(v << 6)))))) == Remainders(v)
  {
  }

  lemma TwelveRounds(v: bv32)
    requires v < 64
    ensures VersionWord(v, 12) == Remainders(v)
  {
    hide VersionWord, Divide, Remainders;
    SixShifts(v);
    DivideRound(v, 6);
    DivideRound(v, 7);
    DivideRound(v, 8);
    DivideRound(v, 9);
    DivideRound(v, 10);
    DivideRound(v, 11);
    SixDivisions(v);
  }

  /** Version information is the version above what its bits leave when they are divided. */
  lemma VersionDivided(version: nat, v: bv32)
    requires version <= 40 && v == version as bv32 && v < 64
    ensures VersionInfo(version) == (v << 12) | Remainders(v)
  {
    hide VersionWord, Remainders;
    TwelveRounds(v);
  }

  /** Some of the words that table D.1 of ISO/IEC 18004 gives. */
  lemma VersionsOfStandard()
    ensures VersionInfo(7) == 0x07C94 && VersionInfo(8) == 0x085BC && VersionInfo(16) == 0x10B78
    ensures VersionInfo(32) == 0x209D5 && VersionInfo(40) == 0x28C69
  {
    hide VersionInfo;
    VersionDivided(7, 7);
    VersionDivided(8, 8);
    VersionDivided(16, 16);
    VersionDivided(32, 32);
    VersionDivided(40, 40);
  }

  // dark modules are marked #
  const CORNER: seq<string> := [
    "#######.",
    "#.....#.",
    "#.###.#.",
    "#.###.#.",
    "#.###.#.",
    "#.....#.",
    "#######.",
    "........"
  ]

  const TARGET: seq<string> := [
    "#####",
    "#...#",
    "#.#.#",
    "#...#",
    "#####"
  ]

  predicate CornerDark(y: int, x: int)
    requires 0 <= y < 8 && 0 <= x < 8
  {
    CORNER[y][x] == '#'
  }

  predicate TargetDark(y: int, x: int)
    requires 0 <= y < 5 && 0 <= x < 5
  {
    TARGET[y][x] == '#'
  }

  // the picture stands in the three corners, mirrored towards each
  ghost predicate CornersPictured(g: Grid, dim: nat)
    requires Square(g, dim) && dim >= 21
  {
    forall y, x | 0 <= y < 8 && 0 <= x < 8 ::
      ShowsDark(g, y, x, CornerDark(y, x)) && ShowsDark(g, y, dim - 1 - x, CornerDark(y, x))
      && ShowsDark(g, dim - 1 - y, x, CornerDark(y, x))
  }

  // the picture stands around all pairs of positions but the three that are in a corner
  ghost predicate TargetsPictured(g: Grid, version: nat)
    requires 1 <= version <= 40
  {
    forall r, c | r in POSITIONS[version - 1] && c in POSITIONS[version - 1] && !(r == 6 && c == 6)
                  && !(r == 6 && c == 4 * version + 10) && !(r == 4 * version + 10 && c == 6) :: TargetAt(g, r, c)
  }

  ghost predicate TargetAt(g: Grid, r: int, c: int) {
    forall y, x | 0 <= y < 5 && 0 <= x < 5 :: ShowsDark(g, r - 2 + y, c - 2 + x, TargetDark(y, x))
  }

  ghost predicate ShowsDark(g: Grid, y: int, x: int, dark: bool) {
    0 <= y < |g| && 0 <= x < |g[y]| && g[y][x] == dark
  }

  // the bits of the version stand in six rows of three, and turned around the diagonal
  ghost predicate VersionPictured(g: Grid, dim: nat, version: nat)
    requires dim >= 45 && Square(g, dim) && 7 <= version <= 40
  {
    forall y, a | 0 <= y < 6 && 0 <= a < 3 :: BitPictured(g, dim, version, y, a)
  }

  ghost predicate BitPictured(g: Grid, dim: nat, version: nat, y: nat, a: nat)
    requires dim >= 45 && Square(g, dim) && version <= 40 && y < 6 && a < 3
  {
    g[dim - 11 + a][y] == g[y][dim - 11 + a] == VersionBit(version, 3 * y + a)
  }

  lemma CornerRings(y: int, x: int)
    requires 0 <= y < 8 && 0 <= x < 8
    ensures Ring(x - 3, y - 3) < 5 && FINDER[Ring(x - 3, y - 3)] == CornerDark(y, x)
  {
    match y
    case 0 =>
    case 1 =>
    case 2 =>
    case 3 =>
    case 4 =>
    case 5 =>
    case 6 =>
    case _ =>
  }

  lemma TargetRings(y: int, x: int)
    requires 0 <= y < 5 && 0 <= x < 5
    ensures Ring(x - 2, y - 2) < 3 && ALIGNMENT[Ring(x - 2, y - 2)] == TargetDark(y, x)
  {
    match y
    case 0 =>
    case 1 =>
    case 2 =>
    case 3 =>
    case _ =>
  }

  lemma RingEven(dx: int, dy: int)
    ensures Ring(dx, dy) == Ring(-dx, dy) == Ring(dx, -dy)
  {
  }

  lemma CornersDrawn(g: Grid, dim: nat)
    requires dim >= 21 && Square(g, dim) && FindersShown(g, dim)
    ensures CornersPictured(g, dim)
  {
    hide Ring, CornerDark;
    forall y, x | 0 <= y < 8 && 0 <= x < 8
      ensures ShowsDark(g, y, x, CornerDark(y, x)) && ShowsDark(g, y, dim - 1 - x, CornerDark(y, x))
      ensures ShowsDark(g, dim - 1 - y, x, CornerDark(y, x))
    {
      CornerRings(y, x);
      RingEven(x - 3, y - 3);
      assert dim - 1 - x - (dim - 4) == -(x - 3) && dim - 1 - y - (dim - 4) == -(y - 3);
    }
  }

  lemma TargetDrawn(g: Grid, dim: nat, r: int, c: int)
    requires Square(g, dim) && 2 <= r < dim - 2 && 2 <= c < dim - 2 && RingsShown(g, dim, r, c, ALIGNMENT)
    ensures TargetAt(g, r, c)
  {
    hide Ring, TargetDark;
    forall y, x | 0 <= y < 5 && 0 <= x < 5 ensures ShowsDark(g, r - 2 + y, c - 2 + x, TargetDark(y, x)) {
      TargetRings(y, x);
      assert c - 2 + x - c == x - 2 && r - 2 + y - r == y - 2;
    }
  }

  lemma TargetsDrawn(g: Grid, version: nat)
    requires 1 <= version <= 40 && Square(g, Size(version)) && AlignmentsShown(g, version)
    ensures TargetsPictured(g, version)
  {
    hide AlignmentPositions, RingsShown, TargetAt, POSITIONS;
    PositionsOfStandard(version);
    OnePositionless();
    var p := AlignmentPositions(version);
    forall r, c | r in p && c in p && AlignmentAt(version, r, c) ensures TargetAt(g, r, c) {
      PositionsSpread(version);
      var i, j :| 0 <= i < |p| && 0 <= j < |p| && p[i] == r && p[j] == c;
      TargetDrawn(g, Size(version), r, c);
    }
  }

  lemma BitDrawn(g: Grid, dim: nat, version: nat, y: nat, a: nat)
    requires dim >= 45 && Square(g, dim) && version <= 40 && VersionShown(g, dim, version, 18) && y < 6 && a < 3
    ensures BitPictured(g, dim, version, y, a)
  {
    hide VersionBit;
    var i := 3 * y + a;
    assert i / 3 == y && i % 3 == a;
  }

  lemma VersionDrawn(g: Grid, dim: nat, version: nat)
    requires dim >= 45 && Square(g, dim) && 7 <= version <= 40 && VersionShown(g, dim, version, 18)
    ensures VersionPictured(g, dim, version)
  {
    hide VersionBit, VersionShown, BitPictured;
    forall y, a | 0 <= y < 6 && 0 <= a < 3 ensures BitPictured(g, dim, version, y, a) {
      BitDrawn(g, dim, version, y, a);
    }
  }

  /** What a finished symbol looks like, against the pictures and tables of ISO/IEC 18004. */
  lemma PatternsPictured(g: Grid, version: nat)
    requires 1 <= version <= 40 && Square(g, Size(version)) && PatternsShown(g, version)
    ensures CornersPictured(g, Size(version)) && TargetsPictured(g, version)
    ensures version >= 7 ==> VersionPictured(g, Size(version), version)
  {
    hide FindersShown, AlignmentsShown, VersionShown, TargetsPictured, CornersPictured, VersionPictured;
    CornersDrawn(g, Size(version));
    TargetsDrawn(g, version);
    if version >= 7 { VersionDrawn(g, Size(version), version); }
  }
}

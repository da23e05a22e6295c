/** The module grid of a QR symbol as it is drawn: function patterns first, then data around them, then mask 0. */
module QrSymbol {

  import opened Colours
  import opened FormatInfo
  import opened Sequences
  import opened Field
  import opened Bits
  import opened ByteMode
  import opened Masks
  import opened Placement
  import opened Patterns
  import opened QrEncoder

  // after marks what before marks, and the rows [y0, y1) of the columns [x0, x1)
  ghost predicate AddsBox(after: Grid, before: Grid, dim: nat, y0: int, y1: int, x0: int, x1: int)
    requires Square(after, dim) && Square(before, dim)
  {
    forall y, x | 0 <= y < dim && 0 <= x < dim :: after[y][x] <==> before[y][x] || (y0 <= y < y1 && x0 <= x < x1)
  }

  class Qr {
    const version: nat
    const size: nat
    var modules: Grid
    var isFunction: Grid

    ghost predicate Valid()
      reads this
    {
      1 <= version <= 40 && size == Size(version) && Square(modules, size) && Square(isFunction, size)
    }

    // Drawing changes data modules only by turning them into function modules.
    twostate predicate KeepsFree()
      requires old(Valid()) && Valid()
      reads this
    {
      forall y, x | 0 <= y < size && 0 <= x < size && !isFunction[y][x] ::
        !old(isFunction)[y][x] && modules[y][x] == old(modules)[y][x]
    }

    method SetFunction(x: int, y: int, dark: bool)
      requires Valid()
      modifies this
      ensures Valid() && KeepsFree()
      ensures AddsBox(isFunction, old(isFunction), size, y, y + 1, x, x + 1)
      ensures modules == if 0 <= x < size && 0 <= y < size then Put(old(modules), y, x, dark) else old(modules)
    {
      if 0 <= x < size && 0 <= y < size {
        modules := Put(modules, y, x, dark);
        isFunction := Put(isFunction, y, x, true);
      }
    }

    method Finder(x: int, y: int)
      requires Valid()
      modifies this
      ensures Valid() && KeepsFree()
      ensures AddsBox(isFunction, old(isFunction), size, y - 4, y + 5, x - 4, x + 5)
      ensures Rings(modules, old(modules), size, y, x, y - 4, y + 5, x - 4, x + 5, FINDER)
    {
      for dy := -4 to 5
        invariant Valid() && KeepsFree()
        invariant AddsBox(isFunction, old(isFunction), size, y - 4, y + dy, x - 4, x + 5)
        invariant Rings(modules, old(modules), size, y, x, y - 4, y + dy, x - 4, x + 5, FINDER)
      {
        ghost var before, drawn := isFunction, modules;
        for dx := -4 to 5
          invariant Valid() && KeepsFree()
          invariant AddsBox(isFunction, before, size, y + dy, y + dy + 1, x - 4, x + dx)
          invariant Rings(modules, drawn, size, y, x, y + dy, y + dy + 1, x - 4, x + dx, FINDER)
        {
          SetFunction(x + dx, y + dy, Ring(dx, dy) != 2 && Ring(dx, dy) != 4);
        }
      }
    }

    method Alignment(x: int, y: int)
      requires Valid()
      modifies this
      ensures Valid() && KeepsFree()
      ensures AddsBox(isFunction, old(isFunction), size, y - 2, y + 3, x - 2, x + 3)
      ensures Rings(modules, old(modules), size, y, x, y - 2, y + 3, x - 2, x + 3, ALIGNMENT)
    {
      for dy := -2 to 3
        invariant Valid() && KeepsFree()
        invariant AddsBox(isFunction, old(isFunction), size, y - 2, y + dy, x - 2, x + 3)
        invariant Rings(modules, old(modules), size, y, x, y - 2, y + dy, x - 2, x + 3, ALIGNMENT)
      {
        ghost var before, drawn := isFunction, modules;
        for dx := -2 to 3
          invariant Valid() && KeepsFree()
          invariant AddsBox(isFunction, before, size, y + dy, y + dy + 1, x - 2, x + dx)
          invariant Rings(modules, drawn, size, y, x, y + dy, y + dy + 1, x - 2, x + dx, ALIGNMENT)
        {
          SetFunction(x + dx, y + dy, Ring(dx, dy) != 1);
        }
      }
    }

    // the format word of level L with mask 0, in both copies, and the dark module
    method Format()
      requires Valid()
      modifies this
      ensures Valid() && KeepsFree()
      ensures forall y, x | 0 <= y < size && 0 <= x < size ::
        isFunction[y][x] <==> old(isFunction)[y][x] || InFormat(size, y, x)
      ensures FormatShown(modules, size, FormatWord(FORMAT_L0), 15) && modules[size - 8][8]
      ensures forall y, x | 0 <= y < size && 0 <= x < size && !InFormat(size, y, x) ::
        modules[y][x] == old(modules)[y][x]
    {
      hide FormatWord, FormatShown, FormatUpTo, FormatRow, FormatColumn, InFormat;
      var word := BchFormat(FORMAT_L0);
      assert FormatShown(modules, size, word, 0) by { NothingShown(modules, size, word); }
      NoFormat(size);
      for i := 0 to 15
        invariant Valid() && KeepsFree() && FormatShown(modules, size, word, i)
        invariant forall y, x | 0 <= y < size && 0 <= x < size ::
          isFunction[y][x] <==> old(isFunction)[y][x] || FormatUpTo(size, y, x, i)
        invariant forall y, x | 0 <= y < size && 0 <= x < size && !FormatUpTo(size, y, x, i) ::
          modules[y][x] == old(modules)[y][x]
      {
        ghost var before := modules;
        FormatStep(modules, size, word, i);
        FormatMore(size, i);
        SetFunction(8, FormatRow(size, i), word[i]);
        SetFunction(FormatColumn(size, i), 8, word[i]);
        forall y, x | 0 <= y < size && 0 <= x < size && !FormatUpTo(size, y, x, i + 1)
          ensures modules[y][x] == old(modules)[y][x]
        {
          assert !FormatUpTo(size, y, x, i);
          assert modules[y][x] == before[y][x];
        }
      }
      DarkModuleApart(modules, size, word);
      SetFunction(8, size - 8, true);
      forall y, x | 0 <= y < size && 0 <= x < size
        ensures isFunction[y][x] <==> old(isFunction)[y][x] || InFormat(size, y, x)
        ensures !InFormat(size, y, x) ==> modules[y][x] == old(modules)[y][x]
      {
        FormatExtent(size, y, x);
      }
    }

    method Timing()
      requires Valid()
      modifies this
      ensures Valid() && KeepsFree()
      ensures forall y, x | 0 <= y < size && 0 <= x < size ::
        isFunction[y][x] <==> old(isFunction)[y][x] || y == 6 || x == 6
      ensures forall y, x | 0 <= y < size && 0 <= x < size ::
        modules[y][x] == if x == 6 then y % 2 == 0 else if y == 6 then x % 2 == 0 else old(modules)[y][x]
    {
      for i := 0 to size
        invariant Valid() && KeepsFree()
        invariant forall y, x | 0 <= y < size && 0 <= x < size ::
          isFunction[y][x] <==> old(isFunction)[y][x] || (x == 6 && y < i) || (y == 6 && x < i)
        invariant forall y, x | 0 <= y < size && 0 <= x < size ::
          modules[y][x] == if x == 6 && y < i then y % 2 == 0 else if y == 6 && x < i then x % 2 == 0
            else old(modules)[y][x]
      {
        SetFunction(6, i, i % 2 == 0);
        SetFunction(i, 6, i % 2 == 0);
      }
    }

    method Alignments()
      requires Valid()
      modifies this
      ensures Valid() && KeepsFree()
      ensures forall y, x | 0 <= y < size && 0 <= x < size ::
        isFunction[y][x] <==> old(isFunction)[y][x] || InAlignment(version, y, x)
      ensures AlignmentsShown(modules, version)
      ensures forall y, x | 0 <= y < size && 0 <= x < size && !InAlignment(version, y, x) ::
        modules[y][x] == old(modules)[y][x]
    {
      hide AlignmentsBefore, AlignmentPositions, InAlignment;
      var positions := AlignmentPositions(version);
      NoAlignments(modules, version);
      for a := 0 to |positions|
        invariant Valid() && KeepsFree() && AlignmentsBefore(modules, version, a, 0)
        invariant forall y, x | 0 <= y < size && 0 <= x < size ::
          isFunction[y][x] <==> old(isFunction)[y][x] || AlignedBefore(version, positions, a, 0, y, x)
        invariant forall y, x | 0 <= y < size && 0 <= x < size && !AlignedBefore(version, positions, a, 0, y, x) ::
          modules[y][x] == old(modules)[y][x]
      {
        for b := 0 to |positions|
          invariant Valid() && KeepsFree() && AlignmentsBefore(modules, version, a, b)
          invariant forall y, x | 0 <= y < size && 0 <= x < size ::
            isFunction[y][x] <==> old(isFunction)[y][x] || AlignedBefore(version, positions, a, b, y, x)
          invariant forall y, x | 0 <= y < size && 0 <= x < size && !AlignedBefore(version, positions, a, b, y, x) ::
            modules[y][x] == old(modules)[y][x]
        {
          AlignedMore(version, positions, a, b);
          ghost var before := modules;
          if AlignmentAt(version, positions[a], positions[b]) {
            Alignment(positions[b], positions[a]);
          }
          AlignmentsStep(before, modules, version, a, b);
        }
        AlignedNext(version, positions, a);
        AlignmentsRow(modules, version, a);
      }
      forall y, x ensures AlignedBefore(version, positions, |positions|, 0, y, x) <==> InAlignment(version, y, x) {
        AlignedAll(version, y, x);
      }
    }

    method VersionInfo()
      requires Valid() && version >= 7
      modifies this
      ensures Valid() && KeepsFree()
      ensures forall y, x | 0 <= y < size && 0 <= x < size ::
        isFunction[y][x] <==> old(isFunction)[y][x] || InVersionInfo(version, y, x)
      ensures VersionShown(modules, size, version, 18)
      ensures forall y, x | 0 <= y < size && 0 <= x < size && !InVersionInfo(version, y, x) ::
        modules[y][x] == old(modules)[y][x]
    {
      hide VersionBit, VersionShown;
      assert VersionShown(modules, size, version, 0) by { NoVersionShown(modules, size, version); }
      for i := 0 to 18
        invariant Valid() && KeepsFree()
        invariant forall y, x | 0 <= y < size && 0 <= x < size ::
          isFunction[y][x] <==>
            old(isFunction)[y][x] || VersionBitBelow(size - 11, y, x, i) || VersionBitBelow(size - 11, x, y, i)
        invariant VersionShown(modules, size, version, i)
        invariant forall y, x | 0 <= y < size && 0 <= x < size && !InVersionInfo(version, y, x) ::
          modules[y][x] == old(modules)[y][x]
      {
        var bit := VersionBit(version, i);
        var a, b := size - 11 + i % 3, i / 3;
        VersionStep(modules, size, version, i);
        SetFunction(a, b, bit);
        SetFunction(b, a, bit);
      }
    }

    method DrawFunctions()
      requires Valid() && forall y, x | 0 <= y < size && 0 <= x < size :: !isFunction[y][x]
      modifies this
      ensures Valid() && isFunction == FunctionMask(version) && PatternsShown(modules, version)
    {
      hide Rings, InAlignment, AlignmentsShown, FormatShown, VersionShown, FormatWord, FixedShown, InFormat;
      hide InVersionInfo, PatternsShown, IsFunction;
      Timing();
      ghost var timed := modules;
      Finder(3, 3);
      ghost var first := modules;
      Finder(size - 4, 3);
      ghost var second := modules;
      Finder(3, size - 4);
      ghost var found := modules;
      Alignments();
      FixedDrawn(timed, first, second, found, modules, version);
      ghost var fixed := modules;
      Format();
      ghost var formatted := modules;
      if version >= 7 { VersionInfo(); }
      AllDrawn(fixed, formatted, modules, version);
      NoVersionInfo(version);
      FunctionsAre(version);
      var mask := FunctionMask(version);
      forall y | 0 <= y < size ensures isFunction[y] == mask[y] {
        forall x | 0 <= x < size ensures isFunction[y][x] == mask[y][x] { }
      }
    }

    // Puts the next bit on a free module; an exhausted stream gives zeros.
    method DrawCell(y: nat, x: nat, bits: seq<bool>, next: nat) returns (after: nat)
      requires Valid() && y < size && x < size
      modifies `modules
      ensures Valid()
      ensures if isFunction[y][x] then modules == old(modules) && after == next
        else modules == Put(old(modules), y, x, BitAt(bits, next)) && after == next + 1
    {
      after := next;
      if !isFunction[y][x] {
        modules := Put(modules, y, x, BitAt(bits, next));
        after := next + 1;
      }
    }

    // the two columns of pair i, upward or downward
    method DrawPair(
      right: nat, upward: bool, bits: seq<bool>, next0: nat, ghost i: nat, ghost before: Grid) returns (next: nat)
      requires Valid() && Square(before, size) && 2 * i + 2 < size && right == Right(size, i) && upward == (i % 2 == 0)
      requires Drawn(modules, before, isFunction, PairsCells(size, i), bits, next0)
      modifies `modules
      ensures Valid() && Drawn(modules, before, isFunction, PairsCells(size, i + 1), bits, next)
    {
      hide Painted, Free, PairsCells, PairCells, Drawn, Right;
      PairEnds(size, i);
      RightInside(size, i);
      next := next0;
      for vert := 0 to size
        invariant Valid()
        invariant Drawn(modules, before, isFunction, PairsCells(size, i) + PairCells(size, i, vert), bits, next)
      {
        var y := if upward then size - 1 - vert else vert;
        ghost var m, n, done := modules, next, PairsCells(size, i) + PairCells(size, i, vert);
        next := DrawCell(y, right, bits, next);
        DrawOne(m, modules, before, isFunction, done, bits, n, next, y, right, size);
        m, n := modules, next;
        next := DrawCell(y, right - 1, bits, next);
        DrawOne(m, modules, before, isFunction, done + [(y, right)], bits, n, next, y, right - 1, size);
        MoreCells(size, i, vert, y, right);
      }
    }

    method DrawData(data: seq<Symbol>)
      requires Valid()
      modifies `modules
      ensures Valid() && On(Zigzag(size), isFunction)
      ensures On(Free(Zigzag(size), isFunction), old(modules))
      ensures modules == Painted(old(modules), Free(Zigzag(size), isFunction), UnpackAll(data))
    {
      hide UnpackAll, Painted, Free, PairsCells, PairCells;
      ghost var before := modules;
      var bits := UnpackAll(data);
      var upward, right, next := true, size - 1, 0;
      ghost var i := 0;
      StartDrawing(before, isFunction, bits, size);
      while right >= 1
        invariant Valid() && 0 <= 2 * i <= size - 1 && right == Frontier(size, i) && upward == (i % 2 == 0)
        invariant Drawn(modules, before, isFunction, PairsCells(size, i), bits, next)
        decreases right
      {
        if right == 6 { right := 5; }
        next := DrawPair(right, upward, bits, next, i, before);
        upward := !upward;
        right := right - 2;
        i := i + 1;
      }
    }

    // mask 0 on the data modules
    method Mask()
      requires Valid()
      modifies `modules
      ensures Valid()
      ensures forall y, x | 0 <= y < size && 0 <= x < size ::
        modules[y][x] == if isFunction[y][x] then old(modules)[y][x] else old(modules)[y][x] != MaskBit(0, y, x)
    {
      for y := 0 to size
        invariant Valid() && forall r | y <= r < size :: modules[r] == old(modules)[r]
        invariant forall r, c | 0 <= r < y && 0 <= c < size ::
          modules[r][c] == if isFunction[r][c] then old(modules)[r][c] else old(modules)[r][c] != MaskBit(0, r, c)
      {
        for x := 0 to size
          invariant Valid() && (forall r | y < r < size :: modules[r] == old(modules)[r])
          invariant forall c | x <= c < size :: modules[y][c] == old(modules)[y][c]
          invariant forall r, c | 0 <= r < size && 0 <= c < size && (r < y || (r == y && c < x)) ::
            modules[r][c] == if isFunction[r][c] then old(modules)[r][c] else old(modules)[r][c] != MaskBit(0, r, c)
        {
          if !isFunction[y][x] {
            modules := Put(modules, y, x, modules[y][x] != ((x + y) % 2 == 0));
          }
        }
      }
    }

    method Draw(payload: seq<Symbol>)
      requires Valid() && Fits(payload, version, DataCapacity(version, 0))
      requires forall y, x | 0 <= y < size && 0 <= x < size :: !isFunction[y][x]
      modifies this
      ensures Valid() && isFunction == FunctionMask(version)
      ensures Shows(modules, version, UnpackAll(Transmitted(payload, version, 0)), 0) && PatternsShown(modules, version)
    {
      hide Transmitted, UnpackAll, DataCapacity, IsFunction, Fits, Shows, Painted, Free, Zigzag, InFormat, MaskBit;
      hide FormatWord, FormatShown, PatternsShown;
      DrawFunctions();
      var words := BuildCodewords(payload, version);
      ghost var drawn := modules;
      DrawData(words);
      ghost var painted := modules;
      Mask();
      ghost var masked := modules;
      Format();
      FormatReserved(version);
      var mask := FunctionMask(version);
      forall y | 0 <= y < size ensures isFunction[y] == mask[y] {
        forall x | 0 <= x < size ensures isFunction[y][x] == mask[y][x] { }
      }
      ShowsPainted(modules, masked, painted, drawn, version, UnpackAll(words));
      PaintedKeeps(drawn, painted, version, UnpackAll(words));
      PatternsStay(drawn, modules, version);
    }

    // A new symbol shows the transmitted bits, masked, on the free modules in zigzag order.
    constructor (version: nat, payload: seq<Symbol>)
      requires 1 <= version <= 40 && Fits(payload, version, DataCapacity(version, 0))
      ensures Valid() && this.version == version && isFunction == FunctionMask(version)
      ensures Shows(modules, version, UnpackAll(Transmitted(payload, version, 0)), 0) && PatternsShown(modules, version)
    {
      hide Transmitted, UnpackAll, DataCapacity, Fits, Shows, FunctionMask, PatternsShown;
      this.version := version;
      size := Size(version);
      modules := seq(Size(version), _ => seq(Size(version), _ => false));
      isFunction := seq(Size(version), _ => seq(Size(version), _ => false));
      new;
      Draw(payload);
    }
  }

  // one of the first n version bits, three to a row from column left on
  predicate VersionBitBelow(left: int, y: int, x: int, n: int) {
    left <= x < left + 3 && 3 * y + x - left < n
  }

  ghost predicate AlignedWith(version: nat, r: int, c: int, y: int, x: int) {
    AlignmentAt(version, r, c) && Near(y, r) && Near(x, c)
  }

  // drawn by the pairs of positions that come before (a, b)
  ghost predicate AlignedBefore(version: nat, positions: seq<int>, a: int, b: int, y: int, x: int) {
    exists i, j | 0 <= i < |positions| && 0 <= j < |positions| && (i < a || (i == a && j < b)) ::
      AlignedWith(version, positions[i], positions[j], y, x)
  }

  lemma AlignedStep(version: nat, positions: seq<int>, a: nat, b: nat, y: int, x: int)
    requires a < |positions| && b < |positions|
    ensures AlignedBefore(version, positions, a, b + 1, y, x) <==>
      AlignedBefore(version, positions, a, b, y, x) || AlignedWith(version, positions[a], positions[b], y, x)
  {
    hide AlignedWith;
  }

  lemma AlignedMore(version: nat, positions: seq<int>, a: nat, b: nat)
    requires a < |positions| && b < |positions|
    ensures forall y, x :: AlignedBefore(version, positions, a, b + 1, y, x) <==>
      AlignedBefore(version, positions, a, b, y, x) || AlignedWith(version, positions[a], positions[b], y, x)
  {
    hide AlignedBefore;
    forall y, x ensures AlignedBefore(version, positions, a, b + 1, y, x) <==>
        AlignedBefore(version, positions, a, b, y, x) || AlignedWith(version, positions[a], positions[b], y, x) {
      AlignedStep(version, positions, a, b, y, x);
    }
  }

  lemma AlignedNext(version: nat, positions: seq<int>, a: nat)
    requires a < |positions|
    ensures forall y, x ::
      AlignedBefore(version, positions, a, |positions|, y, x) <==> AlignedBefore(version, positions, a + 1, 0, y, x)
  {
    hide AlignedBefore;
    forall y, x ensures AlignedBefore(version, positions, a, |positions|, y, x) <==>
        AlignedBefore(version, positions, a + 1, 0, y, x) {
      AlignedRow(version, positions, a, y, x);
    }
  }

  lemma AlignedRow(version: nat, positions: seq<int>, a: nat, y: int, x: int)
    requires a < |positions|
    ensures AlignedBefore(version, positions, a, |positions|, y, x) <==>
      AlignedBefore(version, positions, a + 1, 0, y, x)
  {
    hide AlignedWith;
  }

  lemma AlignedAll(version: nat, y: int, x: int)
    ensures var positions := AlignmentPositions(version);
      AlignedBefore(version, positions, |positions|, 0, y, x) <==> InAlignment(version, y, x)
  {
    hide AlignmentPositions, AlignmentAt;
    var positions := AlignmentPositions(version);
    if InAlignment(version, y, x) {
      var r, c :| r in positions && c in positions && AlignmentAt(version, r, c) && Near(y, r) && Near(x, c);
      var i, j :| 0 <= i < |positions| && 0 <= j < |positions| && positions[i] == r && positions[j] == c;
      assert AlignedWith(version, positions[i], positions[j], y, x);
    }
  }

  ghost predicate InSquare(cells: seq<Cell>, dim: nat) {
    forall c | c in cells :: c.0 < dim && c.1 < dim
  }

  ghost predicate OnAll(cells: seq<Cell>, dim: nat) {
    forall g: Grid | Square(g, dim) :: On(cells, g)
  }

  lemma InSquareIsOn(cells: seq<Cell>, dim: nat)
    requires InSquare(cells, dim)
    ensures OnAll(cells, dim)
  {
    forall g: Grid | Square(g, dim) ensures On(cells, g) {
      forall k | 0 <= k < |cells| ensures cells[k].0 < |g| && cells[k].1 < |g[cells[k].0]| {
        assert cells[k] in cells;
      }
    }
  }

  lemma ZigzagInSquare(dim: nat)
    requires dim % 2 == 1 && dim >= 9
    ensures InSquare(Zigzag(dim), dim) && NoRepeats(Zigzag(dim))
  {
    hide Zigzag, NoRepeats;
    ZigzagIsBijection(dim);
  }

  ghost predicate NoFunction(cells: seq<Cell>, version: nat) {
    forall c | c in cells :: c.0 < Size(version) && c.1 < Size(version) && !IsFunction(version, c.0, c.1)
  }

  // what the mask of a version leaves of the zigzag
  lemma FreeCells(version: nat)
    ensures Size(version) % 2 == 1 && On(Zigzag(Size(version)), FunctionMask(version))
    ensures OnAll(Free(Zigzag(Size(version)), FunctionMask(version)), Size(version))
    ensures NoFunction(Free(Zigzag(Size(version)), FunctionMask(version)), version)
    ensures NoRepeats(Free(Zigzag(Size(version)), FunctionMask(version)))
  {
    hide Size, IsFunction, Zigzag, Free, FunctionMask, NoRepeats, On;
    SizeIsOdd(version);
    var dim, mask := Size(version), FunctionMask(version);
    ZigzagInSquare(dim);
    InSquareIsOn(Zigzag(dim), dim);
    FreeMembers(Zigzag(dim), mask);
    forall c | c in Free(Zigzag(dim), mask) ensures !IsFunction(version, c.0, c.1) {
      MaskAt(version, c);
    }
    InSquareIsOn(Free(Zigzag(dim), mask), dim);
  }

  lemma MaskAt(version: nat, c: Cell)
    requires c.0 < Size(version) && c.1 < Size(version)
    ensures FunctionMask(version)[c.0][c.1] == IsFunction(version, c.0, c.1)
  {
    hide IsFunction;
  }

  lemma SizeIsOdd(version: nat)
    ensures Size(version) % 2 == 1 && Size(version) >= 9
  {
    assert Size(version) == 2 * (version * 2 + 8) + 1;
  }

  // the free modules of a version, in reading order
  function DataCells(version: nat): (cells: seq<Cell>)
    ensures OnAll(cells, Size(version)) && NoFunction(cells, version) && NoRepeats(cells)
  {
    hide Size, IsFunction, Zigzag, Free, FunctionMask, NoRepeats, NoFunction, On, OnAll;
    FreeCells(version);
    Free(Zigzag(Size(version)), FunctionMask(version))
  }

  // the grid shows the bits under the mask on its free modules
  ghost predicate Shows(g: Grid, version: nat, bits: seq<bool>, mask: nat) {
    var cells := DataCells(version);
    Square(g, Size(version)) &&
    forall k | 0 <= k < |cells| :: g[cells[k].0][cells[k].1] ==
      (BitAt(bits, k) != MaskBit(mask, cells[k].0, cells[k].1))
  }

  // state of the drawing loop after some cells
  ghost predicate Drawn(modules: Grid, before: Grid, isFunction: Grid, done: seq<Cell>, bits: seq<bool>, next: nat) {
    && On(done, isFunction) && On(Free(done, isFunction), before)
    && next == |Free(done, isFunction)| && modules == Painted(before, Free(done, isFunction), bits)
  }

  lemma StartDrawing(before: Grid, isFunction: Grid, bits: seq<bool>, dim: nat)
    requires dim % 2 == 1
    ensures Drawn(before, before, isFunction, PairsCells(dim, 0), bits, 0)
  {
  }

  lemma DrawOne(
    m: Grid, m': Grid, before: Grid, isFunction: Grid, done: seq<Cell>, bits: seq<bool>, n: nat, n': nat, y: nat,
    x: nat, dim: nat)
    requires Square(m, dim) && Square(before, dim) && Square(isFunction, dim) && y < dim && x < dim
    requires Drawn(m, before, isFunction, done, bits, n)
    requires if isFunction[y][x] then m' == m && n' == n else m' == Put(m, y, x, BitAt(bits, n)) && n' == n + 1
    ensures Drawn(m', before, isFunction, done + [(y, x)], bits, n')
  {
    var cells := done + [(y, x)];
    assert cells[..|done|] == done;
    var free := Free(done, isFunction);
    if isFunction[y][x] {
      assert free + [] == free;
      assert Free(cells, isFunction) == free;
    } else {
      assert Free(cells, isFunction) == free + [(y, x)];
      assert (free + [(y, x)])[..|free|] == free;
      assert Painted(before, free + [(y, x)], bits) == Put(Painted(before, free, bits), y, x, BitAt(bits, |free|));
    }
  }

  lemma RightInside(dim: nat, i: nat)
    requires dim % 2 == 1 && 2 * i + 2 < dim
    ensures 0 < Right(dim, i) < dim
  {
  }

  lemma PairEnds(dim: nat, i: nat)
    requires dim % 2 == 1 && 2 * i + 2 < dim
    ensures PairsCells(dim, i) + PairCells(dim, i, 0) == PairsCells(dim, i)
    ensures PairsCells(dim, i) + PairCells(dim, i, dim) == PairsCells(dim, i + 1)
  {
  }

  lemma MoreCells(dim: nat, i: nat, vert: nat, y: nat, right: nat)
    requires dim % 2 == 1 && 2 * i + 2 < dim && vert < dim && right == Right(dim, i) && y == Row(dim, i, vert)
    ensures PairsCells(dim, i) + PairCells(dim, i, vert) + [(y, right)] + [(y, right - 1)] ==
      PairsCells(dim, i) + PairCells(dim, i, vert + 1)
  {
  }

  lemma FormatReserved(version: nat)
    requires version >= 1
    ensures forall y, x | 0 <= y < Size(version) && 0 <= x < Size(version) && InFormat(Size(version), y, x) ::
      IsFunction(version, y, x)
  {
    hide InAlignment;
  }

  lemma PaintedKeeps(drawn: Grid, painted: Grid, version: nat, bits: seq<bool>)
    requires Square(painted, Size(version)) && Square(drawn, Size(version))
    requires painted == Painted(drawn, DataCells(version), bits)
    ensures forall y, x | 0 <= y < Size(version) && 0 <= x < Size(version) && IsFunction(version, y, x) ::
      painted[y][x] == drawn[y][x]
  {
    hide IsFunction;
    PaintedAt(drawn, DataCells(version), bits);
  }

  lemma ShowsPainted(final: Grid, masked: Grid, painted: Grid, drawn: Grid, version: nat, bits: seq<bool>)
    requires Square(final, Size(version)) && Square(masked, Size(version)) && Square(painted, Size(version))
    requires Square(drawn, Size(version))
    requires painted == Painted(drawn, DataCells(version), bits)
    requires forall y, x | 0 <= y < Size(version) && 0 <= x < Size(version) && !IsFunction(version, y, x) ::
      final[y][x] == masked[y][x] == (painted[y][x] != MaskBit(0, y, x))
    ensures Shows(final, version, bits, 0)
  {
    hide IsFunction, MaskBit;
    var cells := DataCells(version);
    PaintedAt(drawn, cells, bits);
    forall k | 0 <= k < |cells| ensures final[cells[k].0][cells[k].1] ==
      (BitAt(bits, k) != MaskBit(0, cells[k].0, cells[k].1)) {
      assert cells[k] in cells;
    }
  }
}

/** Reading a QR symbol's module grid back to its payload. */
module QrDecoder {

  import opened Field
  import opened Bits
  import opened ByteMode
  import opened Blocks
  import opened Masks
  import opened Placement
  import opened FormatInfo
  import opened Patterns
  import opened QrEncoder
  import opened Colours
  import opened QrSymbol
  import opened ModuleCount
  import opened Versions

  datatype Outcome =
    | Text(segments: seq<seq<Symbol>>)
    | BadSize
    | BadFormatInfo
    | WrongCodewordCount
    | Unrecoverable
    | BadStream(error: Error)

  // the masked bits on the free modules
  function UnmaskedBits(g: Grid, version: nat, mask: nat): (bits: seq<bool>)
    requires Square(g, Size(version))
    ensures |bits| == |DataCells(version)|
  {
    var cells := DataCells(version);
    seq(|cells|, k requires 0 <= k < |cells| => g[cells[k].0][cells[k].1] != MaskBit(mask, cells[k].0, cells[k].1))
  }

  // the words a reader gets, trailing bits dropped
  function ReceivedWords(g: Grid, version: nat, mask: nat): (words: seq<Symbol>)
    requires Square(g, Size(version))
  {
    PackAll(UnmaskedBits(g, version, mask))
  }

  // column of the format level bits L=01, M=00, Q=11, H=10
  function LevelOf(levelBits: nat): nat {
    match levelBits
    case 0 => 1
    case 1 => 0
    case 2 => 3
    case _ => 2
  }

  ghost predicate Kept(cells: seq<Cell>, done: seq<Cell>, mask: Grid) {
    On(done, mask) && cells == Free(done, mask)
  }

  lemma KeepCell(cells: seq<Cell>, done: seq<Cell>, mask: Grid, dim: nat, y: nat, x: nat)
    requires Square(mask, dim) && y < dim && x < dim && Kept(cells, done, mask)
    ensures Kept(if mask[y][x] then cells else cells + [(y, x)], done + [(y, x)], mask)
  {
    hide Free;
    FreeSnoc(done, (y, x), mask);
  }

  method FindDataCells(version: nat) returns (cells: seq<Cell>)
    ensures cells == DataCells(version)
  {
    hide Free, Kept, FunctionMask, PairsCells, PairCells;
    var dim := Size(version);
    var mask := FunctionMask(version);
    cells := [];
    EmptyPairs(dim, mask);
    for i := 0 to (dim - 1) / 2
      invariant Kept(cells, PairsCells(dim, i), mask)
    {
      PairEnds(dim, i);
      for vert := 0 to dim
        invariant Kept(cells, PairsCells(dim, i) + PairCells(dim, i, vert), mask)
      {
        var y, right := Row(dim, i, vert), Right(dim, i);
        ghost var done := PairsCells(dim, i) + PairCells(dim, i, vert);
        KeepCell(cells, done, mask, dim, y, right);
        if !mask[y][right] { cells := cells + [(y, right)]; }
        KeepCell(cells, done + [(y, right)], mask, dim, y, right - 1);
        if !mask[y][right - 1] { cells := cells + [(y, right - 1)]; }
        MoreCells(dim, i, vert, y, right);
      }
    }
    KeptAll(cells, version, dim, mask);
  }

  lemma KeptAll(cells: seq<Cell>, version: nat, dim: nat, mask: Grid)
    requires dim == Size(version) && mask == FunctionMask(version) && dim % 2 == 1 && Kept(cells, Zigzag(dim), mask)
    ensures cells == DataCells(version)
  {
  }

  lemma EmptyPairs(dim: nat, mask: Grid)
    requires dim % 2 == 1
    ensures Kept([], PairsCells(dim, 0), mask)
  {
  }

  // stores the received words at their places in the blocks
  method FillBlocks(words: seq<Symbol>, lens: seq<nat>, ec: nat) returns (blocks: seq<seq<Symbol>>)
    requires |words| == |Interleaved(lens, ec)| && Within(Interleaved(lens, ec), lens, ec)
    ensures Blocks.Shaped(blocks, lens, ec)
    ensures var start := EmptyBlocks(lens, ec);
      blocks == Scatter(start, Interleaved(lens, ec), words, lens, ec, |words|)
  {
    hide Interleaved;
    var places := Interleaved(lens, ec);
    blocks := EmptyBlocks(lens, ec);
    for k := 0 to |places|
      invariant blocks == Scatter(EmptyBlocks(lens, ec), places, words, lens, ec, k)
    {
      var (b, i) := places[k];
      blocks := blocks[b := blocks[b][i := words[k]]];
    }
  }

  function EmptyBlocks(lens: seq<nat>, ec: nat): (blocks: seq<seq<Symbol>>)
    ensures Blocks.Shaped(blocks, lens, ec)
  {
    seq(|lens|, b requires 0 <= b < |lens| => seq(lens[b] + ec, _ => ZERO))
  }

  // The grid carries the payload at this format, with at most half of each block's redundancy in wrong words.
  ghost predicate Readable(g: Grid, version: nat, fmt: nat, payload: seq<Symbol>)
    requires fmt < 32
  {
    var level := LevelOf(fmt / 8);
    && 1 <= version <= 40 && Square(g, Size(version)) && Fits(payload, version, DataCapacity(version, level))
    && ReadableWords(ReceivedWords(g, version, fmt % 8), version, level, payload)
  }

  ghost predicate ReadableWords(words: seq<Symbol>, version: nat, level: nat, payload: seq<Symbol>)
    requires 1 <= version <= 40 && level < 4 && Fits(payload, version, DataCapacity(version, level))
  {
    LengthsFit(version, level);
    var lens, ec := Lengths(version, level), EcOf(version, level).perBlock;
    |words| == |Interleaved(lens, ec)| && Recoverable(PayloadCodewords(payload, version, level), words, lens, ec)
  }

  // No version's reader ever meets a codeword count it did not expect.
  lemma CodewordCount(version: nat)
    requires 1 <= version <= 40
    ensures |DataCells(version)| == RawModules(version)
  {
    hide IsFunction, Zigzag, RawModules;
    ZigzagIsBijection(Size(version));
    FreeModules(version);
  }

  // All data of the payload's symbol, from words with few enough errors in each block.
  lemma ReadableData(
    words: seq<Symbol>, version: nat, level: nat, payload: seq<Symbol>, blocks: seq<seq<Symbol>>,
    fixed: seq<seq<Symbol>>)
    requires 1 <= version <= 40 && level < 4 && Fits(payload, version, DataCapacity(version, level))
    requires ReadableWords(words, version, level, payload)
    requires |words| == |Interleaved(Lengths(version, level), EcOf(version, level).perBlock)|
    requires Within(Interleaved(Lengths(version, level), EcOf(version, level).perBlock), Lengths(version, level),
      EcOf(version, level).perBlock)
    requires var (lens, ec) := (Lengths(version, level), EcOf(version, level).perBlock);
      blocks == Scatter(EmptyBlocks(lens, ec), Interleaved(lens, ec), words, lens, ec, |words|)
    ensures var (lens, ec) := (Lengths(version, level), EcOf(version, level).perBlock);
      && (exists fixed :: Fixes(fixed, blocks, ec))
      && (Fixes(fixed, blocks, ec) && Blocks.Shaped(fixed, lens, ec) ==>
        DataOf(fixed, lens) == PayloadCodewords(payload, version, level))
  {
    hide Interleaved, Scatter, Fixes, EncodeBlocks, Recoverable, EcOf, Lengths, PayloadCodewords, DataOf, Fits, Within;
    LengthsFit(version, level);
    var lens, ec, data := Lengths(version, level), EcOf(version, level).perBlock,
      PayloadCodewords(payload, version, level);
    RecoverableBlocks(data, words, EmptyBlocks(lens, ec), lens, ec);
    DataOfEncoded(data, lens, ec);
    if Fixes(fixed, blocks, ec) {
      FixesUnique(fixed, EncodeBlocks(data, lens, ec), blocks, ec);
    }
  }

  // the blocks that the words read from a grid fill
  ghost function ReceivedBlocks(g: Grid, version: nat, fmt: nat): (blocks: seq<seq<Symbol>>)
    requires 1 <= version <= 40 && fmt < 32 && Square(g, Size(version))
    ensures Blocks.Shaped(blocks, Lengths(version, LevelOf(fmt / 8)), EcOf(version, LevelOf(fmt / 8)).perBlock)
  {
    hide Interleaved, EcOf, Lengths, DataCells, MaskBit, RawModules, PackAll, UnmaskedBits;
    var level := LevelOf(fmt / 8);
    LengthsFit(version, level);
    CodewordCount(version);
    var (lens, ec, words) := (Lengths(version, level), EcOf(version, level).perBlock,
      PackAll(UnmaskedBits(g, version, fmt % 8)));
    Scatter(EmptyBlocks(lens, ec), Interleaved(lens, ec), words, lens, ec, |words|)
  }

  function OutcomeOf(parsed: Parsed): Outcome {
    match parsed
    case Segments(segments) => Text(segments)
    case Invalid(error) => BadStream(error)
  }

  // The outcome of a grid at a format: lost exactly if some block has no codeword in reach, and otherwise whatever the
  // data of the codewords in reach parses to.
  ghost predicate DecodesTo(g: Grid, version: nat, fmt: nat, r: Outcome)
    requires 1 <= version <= 40 && fmt < 32 && Square(g, Size(version))
  {
    && (r.Unrecoverable? <==> forall fixed :: !Fixes(fixed, ReceivedBlocks(g, version, fmt), EcAt(version, fmt)))
    && forall fixed | Fixes(fixed, ReceivedBlocks(g, version, fmt), EcAt(version, fmt))
                      && Blocks.Shaped(fixed, LengthsAt(version, fmt), EcAt(version, fmt)) ::
         r == OutcomeOf(ParseBits(UnpackAll(DataOf(fixed, LengthsAt(version, fmt))), CountBits(version)))
  }

  function LengthsAt(version: nat, fmt: nat): seq<nat>
    requires 1 <= version <= 40 && fmt < 32
  {
    Lengths(version, LevelOf(fmt / 8))
  }

  function EcAt(version: nat, fmt: nat): nat
    requires 1 <= version <= 40 && fmt < 32
  {
    EcOf(version, LevelOf(fmt / 8)).perBlock
  }

  // The decoder behind the size and format checks.
  method DecodeVersion(g: Grid, version: nat, fmt: nat) returns (r: Outcome)
    requires 1 <= version <= 40 && fmt < 32 && Square(g, Size(version))
    ensures !r.WrongCodewordCount? && !r.BadSize? && !r.BadFormatInfo?
    ensures forall payload | Readable(g, version, fmt, payload) :: r == Text([payload])
    ensures DecodesTo(g, version, fmt, r)
  {
    hide Interleaved, Scatter, Fixes, ParseBits, DataCodewords, EncodeBlocks, Within, Recoverable, ReadableWords, EcOf;
    hide Lengths, DataCapacity, DataCells, MaskBit, Fits, RawModules, PayloadCodewords, DataOf, PackAll, UnpackAll;
    var level := LevelOf(fmt / 8);
    var cells := FindDataCells(version);
    var words := PackAll(UnmaskedBits(g, version, fmt % 8));
    LengthsFit(version, level);
    CodewordCount(version);
    var lens, ec := Lengths(version, level), EcOf(version, level).perBlock;
    if |words| != |Interleaved(lens, ec)| { return WrongCodewordCount; }
    var blocks := FillBlocks(words, lens, ec);
    assert blocks == ReceivedBlocks(g, version, fmt) && lens == LengthsAt(version, fmt) && ec == EcAt(version, fmt);
    var recovered := CorrectBlocks(blocks, lens, ec);
    forall payload, fixed | Readable(g, version, fmt, payload) ensures
        (exists x :: Fixes(x, blocks, ec)) &&
        (Fixes(fixed, blocks, ec) && Blocks.Shaped(fixed, lens, ec) ==>
          DataOf(fixed, lens) == PayloadCodewords(payload, version, level)) {
      ReadableData(words, version, level, payload, blocks, fixed);
    }
    if recovered.Lost? { return Unrecoverable; }
    forall fixed | Fixes(fixed, blocks, ec) && Blocks.Shaped(fixed, lens, ec)
      ensures DataOf(fixed, lens) == recovered.data {
      var found :| Fixes(found, blocks, ec) && Blocks.Shaped(found, lens, ec) && recovered.data == DataOf(found, lens);
      FixesUnique(fixed, found, blocks, ec);
    }
    var parsed := ParseData(recovered.data, version);
    forall payload | Readable(g, version, fmt, payload) ensures parsed == Segments([payload]) {
      ParsedPayload(payload, version, level);
    }
    r := OutcomeOf(parsed);
  }

  lemma ParsedPayload(payload: seq<Symbol>, version: nat, level: nat)
    requires 1 <= version <= 40 && level < 4 && Fits(payload, version, DataCapacity(version, level))
    ensures ParseBits(UnpackAll(PayloadCodewords(payload, version, level)), CountBits(version)) == Segments([payload])
  {
    hide ParseBits, DataCodewords, UnpackAll, Fits, DataCapacity;
    FittingLength(payload, version, level);
    ByteModeRoundTrip(payload, version, DataCapacity(version, level));
  }

  predicate GoodSize(g: Grid) {
    |g| % 4 == 1 && 21 <= |g| <= 177 && forall y | 0 <= y < |g| :: |g[y]| == |g|
  }

  // The grid can be read: its format information, and the payload behind it.
  ghost predicate Carries(g: Grid, version: nat, fmt: nat, payload: seq<Symbol>) {
    fmt < 32 && Readable(g, version, fmt, payload) && Legible(g, Size(version), fmt)
  }

  // no format is within three bits of either copy
  ghost predicate NoFormatNear(g: Grid)
    requires GoodSize(g)
  {
    forall k, i :: 0 <= k < 2 && 0 <= i < 32 ==> Distance(Copy(g, |g|, k), FormatWord(i)) > 3
  }

  // what the grid decodes to at the format nearest to either copy, the lowest of equally near ones
  ghost predicate DecodesAtNearest(g: Grid, r: Outcome)
    requires GoodSize(g)
  {
    exists fmt, distance ::
      distance <= 3 && Nearest(g, |g|, fmt, distance) && DecodesTo(g, (|g| - 17) / 4, fmt, r)
  }

  /** Decodes a square grid of modules: every outcome there is follows from the size, the two copies of the format, and
      the words within reach of what the data modules hold. */
  method DecodeMatrix(g: Grid) returns (r: Outcome)
    ensures r.BadSize? <==> !GoodSize(g)
    ensures GoodSize(g) ==> (r.BadFormatInfo? <==> NoFormatNear(g))
    ensures GoodSize(g) && !NoFormatNear(g) ==> DecodesAtNearest(g, r)
    ensures !r.WrongCodewordCount?
    ensures forall version, fmt, payload | Carries(g, version, fmt, payload) :: r == Text([payload])
  {
    hide Readable, Legible, Copy, FormatWord, Distance, Nearest, DecodesTo;
    forall version, fmt, payload | Carries(g, version, fmt, payload) ensures GoodSize(g) && version == (|g| - 17) / 4 {
      ReadableSize(g, version, fmt, payload);
    }
    if !GoodSize(g) { return BadSize; }
    var version := (|g| - 17) / 4;
    var read := ReadFormat(g, |g|);
    if read.BadFormat? { return BadFormatInfo; }
    ReadBounds(g, read);
    r := DecodeVersion(g, version, read.fmt);
  }

  lemma ReadBounds(g: Grid, read: Read)
    requires GoodSize(g) && read.Format? && exists distance :: Nearest(g, |g|, read.fmt, distance)
    ensures read.fmt < 32
  {
    hide Copy, FormatWord, Distance;
  }

  lemma ReadableSize(g: Grid, version: nat, fmt: nat, payload: seq<Symbol>)
    requires fmt < 32 && Readable(g, version, fmt, payload)
    ensures GoodSize(g) && version == (|g| - 17) / 4
  {
    hide ReadableWords, ReceivedWords, DataCapacity, Fits;
  }

  // ---- Round trip ----

  lemma ReceivedIsTransmitted(g: Grid, version: nat, fmt: nat, payload: seq<Symbol>)
    requires 1 <= version <= 40 && fmt < 32 && Fits(payload, version, DataCapacity(version, LevelOf(fmt / 8)))
    requires Shows(g, version, UnpackAll(Transmitted(payload, version, LevelOf(fmt / 8))), fmt % 8)
    ensures ReceivedWords(g, version, fmt % 8) == Transmitted(payload, version, LevelOf(fmt / 8))
  {
    hide DataCells, MaskBit, Transmitted, Fits, DataCapacity, UnpackAll, PackAll, RawModules;
    var words := Transmitted(payload, version, LevelOf(fmt / 8));
    var bits, sent := UnmaskedBits(g, version, fmt % 8), UnpackAll(words);
    CodewordCount(version);
    assert |bits| / 8 == |words|;
    assert bits[..|sent|] == sent;
    assert bits == sent + bits[|sent|..];
    PackUnpackAll(words, bits[|sent|..]);
  }

  // A symbol can be read from any grid that differs from it in at most ec / 2 words of each block.
  lemma DamagedReadable(g: Grid, damaged: Grid, version: nat, fmt: nat, payload: seq<Symbol>)
    requires 1 <= version <= 40 && fmt < 32 && Fits(payload, version, DataCapacity(version, LevelOf(fmt / 8)))
    requires Shows(g, version, UnpackAll(Transmitted(payload, version, LevelOf(fmt / 8))), fmt % 8)
    requires Square(damaged, Size(version))
    requires var (lens, ec) := (Lengths(version, LevelOf(fmt / 8)), EcOf(version, LevelOf(fmt / 8)).perBlock);
      var (sent, received) := (ReceivedWords(g, version, fmt % 8), ReceivedWords(damaged, version, fmt % 8));
      && |sent| == |received| == |Interleaved(lens, ec)|
      && forall b | 0 <= b < |lens| :: 2 * Damage(Interleaved(lens, ec), sent, received, b, |sent|) <= ec
    ensures Readable(damaged, version, fmt, payload)
  {
    hide DataCells, Fits, DataCapacity, UnpackAll, PackAll, Interleaved, Damage, EcOf, Lengths, UnmaskedBits, Shows;
    hide EncodeBlocks, PayloadCodewords;
    ReceivedIsTransmitted(g, version, fmt, payload);
    LengthsFit(version, LevelOf(fmt / 8));
  }

  lemma {:induction false} NoDamage(places: seq<Place>, words: seq<Symbol>, b: nat, k: nat)
    requires k <= |places| == |words|
    ensures Damage(places, words, words, b, k) == 0
  {
    if k > 0 { NoDamage(places, words, b, k - 1); }
  }

  lemma CleanReadable(g: Grid, version: nat, fmt: nat, payload: seq<Symbol>)
    requires 1 <= version <= 40 && fmt < 32 && Fits(payload, version, DataCapacity(version, LevelOf(fmt / 8)))
    requires Shows(g, version, UnpackAll(Transmitted(payload, version, LevelOf(fmt / 8))), fmt % 8)
    ensures Readable(g, version, fmt, payload)
  {
    hide DataCells, Fits, DataCapacity, UnpackAll, Interleaved, Damage, EcOf, Lengths, UnmaskedBits, PayloadCodewords;
    hide Transmitted, MaskBit;
    var level := LevelOf(fmt / 8);
    ReceivedIsTransmitted(g, version, fmt, payload);
    LengthsFit(version, level);
    var lens, ec := Lengths(version, level), EcOf(version, level).perBlock;
    var words := ReceivedWords(g, version, fmt % 8);
    forall b | 0 <= b < |lens| ensures Damage(Interleaved(lens, ec), words, words, b, |words|) == 0 {
      NoDamage(Interleaved(lens, ec), words, b, |words|);
    }
    DamagedReadable(g, g, version, fmt, payload);
  }

  // a clean format word is legible
  lemma ShownIsLegible(g: Grid, dim: nat, fmt: nat)
    requires dim >= 21 && Square(g, dim) && fmt < 32 && FormatShown(g, dim, FormatWord(fmt), 15)
    ensures Legible(g, dim, fmt)
  {
    hide FormatShown, FormatWord, Copy;
    CopiesShown(g, dim, fmt);
    NoDifferences(FormatWord(fmt), 15);
  }

  lemma {:induction false} NoDifferences(w: Word, n: nat)
    requires n <= 15
    ensures Differences(w, w, n) == 0
  {
    if n > 0 { NoDifferences(w, n - 1); }
  }

  // ---- A damaged symbol ----

  // the grid with the modules flipped that the noise marks
  function Flipped(g: Grid, noise: Grid, dim: nat): (r: Grid)
    requires Square(g, dim) && Square(noise, dim)
    ensures Square(r, dim)
  {
    seq(dim, y requires 0 <= y < dim => seq(dim, x requires 0 <= x < dim => g[y][x] != noise[y][x]))
  }

  // the noise reaches word k: one of the eight modules that hold it
  ghost predicate HitsWord(noise: Grid, cells: seq<Cell>, k: nat)
    requires On(cells, noise) && 8 * k + 8 <= |cells|
  {
    exists j | 8 * k <= j < 8 * k + 8 :: noise[cells[j].0][cells[j].1]
  }

  // words of block b, among the first k sent, that the noise reaches
  ghost function Hits(noise: Grid, cells: seq<Cell>, places: seq<Place>, b: nat, k: nat): nat
    requires On(cells, noise) && k <= |places| && 8 * k <= |cells|
  {
    if k == 0 then 0
    else
      Hits(noise, cells, places, b, k - 1) + if places[k - 1].0 == b && HitsWord(noise, cells, k - 1) then 1 else 0
  }

  lemma {:induction false} PackedAt(bits: seq<bool>, k: nat)
    requires 8 * k + 8 <= |bits|
    ensures PackAll(bits)[k] == Pack(bits[8 * k..8 * k + 8])
  {
    hide Pack;
    if k > 0 {
      PackedAt(bits[8..], k - 1);
      assert bits[8..][8 * (k - 1)..8 * (k - 1) + 8] == bits[8 * k..8 * k + 8];
    }
  }

  lemma UnhitWord(g: Grid, noise: Grid, version: nat, mask: nat, k: nat)
    requires Square(g, Size(version)) && Square(noise, Size(version)) && 8 * k + 8 <= |DataCells(version)|
    requires !HitsWord(noise, DataCells(version), k)
    ensures ReceivedWords(g, version, mask)[k] == ReceivedWords(Flipped(g, noise, Size(version)), version, mask)[k]
  {
    hide DataCells, MaskBit, Pack, PackAll;
    var cells := DataCells(version);
    var a, b := UnmaskedBits(g, version, mask), UnmaskedBits(Flipped(g, noise, Size(version)), version, mask);
    PackedAt(a, k);
    PackedAt(b, k);
    forall j | 8 * k <= j < 8 * k + 8 ensures a[j] == b[j] {
      assert !noise[cells[j].0][cells[j].1];
    }
    assert a[8 * k..8 * k + 8] == b[8 * k..8 * k + 8];
  }

  lemma {:induction false} DamageIsHit(
    g: Grid, noise: Grid, version: nat, mask: nat, places: seq<Place>, b: nat, k: nat)
    requires Square(g, Size(version)) && Square(noise, Size(version))
    requires k <= |places| == |ReceivedWords(g, version, mask)| && 8 * k <= |DataCells(version)|
    ensures var damaged := ReceivedWords(Flipped(g, noise, Size(version)), version, mask);
      |damaged| == |places|
      && Damage(places, ReceivedWords(g, version, mask), damaged, b, k) <= Hits(noise, DataCells(version), places, b, k)
  {
    hide DataCells, MaskBit, HitsWord, UnmaskedBits, Flipped;
    if k > 0 {
      DamageIsHit(g, noise, version, mask, places, b, k - 1);
      if !HitsWord(noise, DataCells(version), k - 1) { UnhitWord(g, noise, version, mask, k - 1); }
    }
  }

  // every word sent has eight modules
  lemma PlacesFit(version: nat, level: nat)
    requires 1 <= version <= 40 && level < 4
    ensures 8 * |Interleaved(Lengths(version, level), EcOf(version, level).perBlock)| <= |DataCells(version)|
  {
    hide Interleaved, Lengths, EcOf, DataCells, RawModules;
    CodewordCount(version);
    LengthsFit(version, level);
  }

  // words of block b that the noise reaches
  ghost function HitsOf(noise: Grid, version: nat, level: nat, b: nat): nat
    requires 1 <= version <= 40 && level < 4 && Square(noise, Size(version))
  {
    PlacesFit(version, level);
    var places := Interleaved(Lengths(version, level), EcOf(version, level).perBlock);
    Hits(noise, DataCells(version), places, b, |places|)
  }

  // At most three modules of each copy of the format are flipped, and in each block at most half the redundancy's
  // number of words is reached.
  ghost predicate Bearable(noise: Grid, version: nat, level: nat)
    requires 1 <= version <= 40 && level < 4
  {
    && Square(noise, Size(version)) && (forall k | 0 <= k < 2 :: Weight(Copy(noise, Size(version), k)) <= 3)
    && forall b | 0 <= b < |Lengths(version, level)| ::
         2 * HitsOf(noise, version, level, b) <= EcOf(version, level).perBlock
  }

  lemma FlippedCopy(g: Grid, noise: Grid, dim: nat, k: nat, i: nat)
    requires dim >= 21 && Square(g, dim) && Square(noise, dim) && k < 2 && i < 15
    ensures Copy(Flipped(g, noise, dim), dim, k)[i] == (Copy(g, dim, k)[i] != Copy(noise, dim, k)[i])
  {
  }

  lemma FlippedLegible(g: Grid, noise: Grid, dim: nat, fmt: nat)
    requires dim >= 21 && Square(g, dim) && Square(noise, dim) && fmt < 32 && FormatShown(g, dim, FormatWord(fmt), 15)
    requires forall k | 0 <= k < 2 :: Weight(Copy(noise, dim, k)) <= 3
    ensures Legible(Flipped(g, noise, dim), dim, fmt)
  {
    hide FormatShown, FormatWord, Copy, Flipped, Differences;
    CopiesShown(g, dim, fmt);
    forall k | 0 <= k < 2 ensures Distance(Copy(Flipped(g, noise, dim), dim, k), FormatWord(fmt)) <= 3 {
      var damaged, marks := Copy(Flipped(g, noise, dim), dim, k), Copy(noise, dim, k);
      forall i | 0 <= i < 15 ensures (damaged[i] != FormatWord(fmt)[i]) == (marks[i] != NONE[i]) {
        FlippedCopy(g, noise, dim, k, i);
      }
      SameDifferences(damaged, FormatWord(fmt), marks, NONE, 15);
    }
  }

  lemma FlippedReadable(g: Grid, noise: Grid, version: nat, fmt: nat, payload: seq<Symbol>)
    requires 1 <= version <= 40 && fmt < 32 && Fits(payload, version, DataCapacity(version, LevelOf(fmt / 8)))
    requires Shows(g, version, UnpackAll(Transmitted(payload, version, LevelOf(fmt / 8))), fmt % 8)
    requires Bearable(noise, version, LevelOf(fmt / 8))
    ensures Readable(Flipped(g, noise, Size(version)), version, fmt, payload)
  {
    hide DataCells, Fits, DataCapacity, UnpackAll, PackAll, Interleaved, Damage, Hits, EcOf, Lengths, UnmaskedBits;
    hide Transmitted, MaskBit, Flipped, Copy, Distance, RawModules, Readable;
    var level := LevelOf(fmt / 8);
    ReceivedIsTransmitted(g, version, fmt, payload);
    CodewordCount(version);
    LengthsFit(version, level);
    var lens, ec := Lengths(version, level), EcOf(version, level).perBlock;
    var places := Interleaved(lens, ec);
    forall b | 0 <= b < |lens|
      ensures var received := ReceivedWords(Flipped(g, noise, Size(version)), version, fmt % 8);
        |received| == |places| && 2 * Damage(places, ReceivedWords(g, version, fmt % 8), received, b, |places|) <= ec
    {
      DamageIsHit(g, noise, version, fmt % 8, places, b, |places|);
      assert HitsOf(noise, version, level, b) == Hits(noise, DataCells(version), places, b, |places|);
    }
    DamageIsHit(g, noise, version, fmt % 8, places, 0, 0);
    DamagedReadable(g, Flipped(g, noise, Size(version)), version, fmt, payload);
  }

  /** Every payload that fits a version survives being drawn, damaged and read, if the damage is one the symbol
      bears. */
  method DamagedRoundTrip(payload: seq<Symbol>, version: nat, noise: Grid) returns (r: Outcome)
    requires 1 <= version <= 40 && Fits(payload, version, DataCapacity(version, 0)) && Bearable(noise, version, 0)
    ensures r == Text([payload])
  {
    hide Readable, Shows, Fits, DataCapacity, Transmitted, UnpackAll, Legible, FormatShown, FormatWord, Bearable;
    hide FixedShown, VersionShown, Flipped, DecodesTo, Nearest;
    var qr := new Qr(version, payload);
    BearableNoise(noise, version, 0);
    var damaged := Flipped(qr.modules, noise, Size(version));
    FlippedReadable(qr.modules, noise, version, FORMAT_L0, payload);
    FlippedLegible(qr.modules, noise, Size(version), FORMAT_L0);
    assert Carries(damaged, version, FORMAT_L0, payload);
    r := DecodeMatrix(damaged);
  }

  lemma BearableNoise(noise: Grid, version: nat, level: nat)
    requires 1 <= version <= 40 && level < 4 && Bearable(noise, version, level)
    ensures Square(noise, Size(version)) && forall k | 0 <= k < 2 :: Weight(Copy(noise, Size(version), k)) <= 3
  {
  }

  /** Every payload that fits a version survives being drawn and read. */
  method RoundTrip(payload: seq<Symbol>, version: nat) returns (r: Outcome)
    requires 1 <= version <= 40 && Fits(payload, version, DataCapacity(version, 0))
    ensures r == Text([payload])
  {
    hide Readable, Shows, Fits, DataCapacity, Transmitted, UnpackAll, Legible, FormatShown, FormatWord;
    hide FixedShown, VersionShown, DecodesTo, Nearest;
    var qr := new Qr(version, payload);
    CleanReadable(qr.modules, version, FORMAT_L0, payload);
    ShownIsLegible(qr.modules, Size(version), FORMAT_L0);
    assert Carries(qr.modules, version, FORMAT_L0, payload);
    r := DecodeMatrix(qr.modules);
  }

  // ---- Symbols of every level and mask ----

  // format bits of the levels L, M, Q and H
  const LEVEL_BITS: seq<nat> := [1, 0, 3, 2]

  // the grid shows the bits on its free modules, flipped where the drawn tile of the mask is dark
  ghost predicate ShowsTiled(g: Grid, version: nat, bits: seq<bool>, mask: nat)
    requires mask < 8 && Square(g, Size(version))
  {
    var cells := DataCells(version);
    forall k | 0 <= k < |cells| ::
      g[cells[k].0][cells[k].1] == (BitAt(bits, k) != Repeats(TILES[mask], cells[k].0, cells[k].1))
  }

  lemma TiledIsShown(g: Grid, version: nat, bits: seq<bool>, mask: nat)
    requires mask < 8 && Square(g, Size(version)) && ShowsTiled(g, version, bits, mask)
    ensures Shows(g, version, bits, mask)
  {
    hide MaskBit, Repeats, DataCells;
    var cells := DataCells(version);
    forall k | 0 <= k < |cells|
      ensures MaskBit(mask, cells[k].0, cells[k].1) == Repeats(TILES[mask], cells[k].0, cells[k].1)
    {
      MaskIsDrawn(mask, cells[k].0, cells[k].1);
    }
  }

  lemma FormatOfLevel(level: nat, mask: nat)
    requires level < 4 && mask < 8
    ensures var fmt := 8 * LEVEL_BITS[level] + mask; fmt < 32 && LevelOf(fmt / 8) == level && fmt % 8 == mask
  {
  }

  /** Every payload that fits a version and level is read from any symbol of it, whichever mask it was drawn with. */
  method EverySymbol(payload: seq<Symbol>, version: nat, level: nat, mask: nat, g: Grid) returns (r: Outcome)
    requires 1 <= version <= 40 && level < 4 && mask < 8 && Fits(payload, version, DataCapacity(version, level))
    requires Square(g, Size(version)) && ShowsTiled(g, version, UnpackAll(Transmitted(payload, version, level)), mask)
    requires FormatShown(g, Size(version), FormatWord(8 * LEVEL_BITS[level] + mask), 15)
    ensures r == Text([payload])
  {
    hide Readable, Shows, ShowsTiled, Fits, DataCapacity, Transmitted, UnpackAll, Legible, FormatShown, FormatWord;
    hide DecodesTo, Nearest, LevelOf;
    var fmt := 8 * LEVEL_BITS[level] + mask;
    FormatOfLevel(level, mask);
    TiledIsShown(g, version, UnpackAll(Transmitted(payload, version, level)), mask);
    CleanReadable(g, version, fmt, payload);
    ShownIsLegible(g, Size(version), fmt);
    assert Carries(g, version, fmt, payload);
    r := DecodeMatrix(g);
  }
}

/** The checksum of an SPI transfer: a table-driven CRC-32, and what it catches. */
module Crc32 {

  // a register value, wrapped so that proofs meet the bits only where they must
  datatype Word = Word(v: bv32)

  const POLYNOMIAL: Word := Word(0xEDB88320)
  const ONES: Word := Word(0xFFFFFFFF)
  const ZERO: Word := Word(0)

  function Xor(a: Word, b: Word): Word { Word(a.v ^ b.v) }

  function Half(a: Word): Word { Word(a.v >> 1) }

  predicate Odd(a: Word) { a.v & 1 == 1 }

  function LowByte(a: Word): Word { Word(a.v & 0xFF) }

  function Above(a: Word): Word { Word(a.v >> 8) }

  function OfByte(b: bv8): Word { Word(b as bv32) }

  // ---- The shift register, one bit at a time ----

  function Shift(c: Word): Word {
    if Odd(c) then Xor(POLYNOMIAL, Half(c)) else Half(c)
  }

  function OfBit(bit: bool): Word { if bit then Word(1) else ZERO }

  function Feed(c: Word, bit: bool): Word {
    Shift(Xor(c, OfBit(bit)))
  }

  function Register(c: Word, bits: seq<bool>): Word {
    if bits == [] then c else Feed(Register(c, bits[..|bits| - 1]), bits[|bits| - 1])
  }

  predicate Bit(b: bv8, k: nat)
    requires k < 8
  {
    (b >> k) & 1 == 1
  }

  function ByteBits(b: bv8): (bits: seq<bool>)
    ensures |bits| == 8
  {
    [Bit(b, 0), Bit(b, 1), Bit(b, 2), Bit(b, 3), Bit(b, 4), Bit(b, 5), Bit(b, 6), Bit(b, 7)]
  }

  // the bits of a byte string as they go into the register, the low bit of each byte first
  function Bits(data: seq<bv8>): (bits: seq<bool>)
    ensures |bits| == 8 * |data|
  {
    if data == [] then [] else Bits(data[..|data| - 1]) + ByteBits(data[|data| - 1])
  }

  function Crc(data: seq<bv8>): Word {
    Xor(Register(ONES, Bits(data)), ONES)
  }

  // ---- A shift is linear ----

  function Shift8(c: Word): Word {
    Shift(Shift(Shift(Shift(Shift(Shift(Shift(Shift(c))))))))
  }

  lemma XorCommutes(a: Word, b: Word)
    ensures Xor(a, b) == Xor(b, a)
  {
  }

  lemma XorZero(a: Word)
    ensures Xor(a, ZERO) == a && Xor(a, a) == ZERO
  {
  }

  lemma XorAssociates(a: Word, b: Word, c: Word)
    ensures Xor(Xor(a, b), c) == Xor(a, Xor(b, c))
  {
  }

  lemma XorLaws(a: Word, b: Word, c: Word)
    ensures Xor(a, b) == Xor(b, a) && Xor(a, ZERO) == a && Xor(a, a) == ZERO
    ensures Xor(Xor(a, b), c) == Xor(a, Xor(b, c))
  {
    hide Xor;
    XorCommutes(a, b);
    XorZero(a);
    XorAssociates(a, b, c);
  }

  lemma HalfOfXor(a: Word, b: Word)
    ensures Half(Xor(a, b)) == Xor(Half(a), Half(b))
  {
  }

  lemma OddXor(a: Word, b: Word)
    ensures Odd(Xor(a, b)) == (Odd(a) != Odd(b))
  {
  }

  lemma Linear(a: Word, b: Word)
    ensures Shift(Xor(a, b)) == Xor(Shift(a), Shift(b))
  {
    hide Xor, Half, Odd;
    var p, x, y := POLYNOMIAL, Half(a), Half(b);
    HalfOfXor(a, b);
    OddXor(a, b);
    XorLaws(p, x, y);
    XorLaws(x, p, y);
    XorLaws(p, x, Xor(p, y));
    XorLaws(x, p, Xor(p, y));
    XorLaws(p, p, y);
    XorLaws(y, p, ZERO);
    XorLaws(y, ZERO, ZERO);
  }

  lemma Linear8(a: Word, b: Word)
    ensures Shift8(Xor(a, b)) == Xor(Shift8(a), Shift8(b))
  {
    hide Shift, Xor;
    Linear(a, b);
    var a1, b1 := Shift(a), Shift(b);
    Linear(a1, b1);
    var a2, b2 := Shift(a1), Shift(b1);
    Linear(a2, b2);
    var a3, b3 := Shift(a2), Shift(b2);
    Linear(a3, b3);
    var a4, b4 := Shift(a3), Shift(b3);
    Linear(a4, b4);
    var a5, b5 := Shift(a4), Shift(b4);
    Linear(a5, b5);
    var a6, b6 := Shift(a5), Shift(b5);
    Linear(a6, b6);
    Linear(Shift(a6), Shift(b6));
  }

  // ---- The table takes eight shifts in one step ----

  function WithoutByte(c: Word): Word { Word(c.v & 0xFFFFFF00) }

  lemma EvenBytes(c: Word)
    ensures var u := WithoutByte(c); var u4 := Half(Half(Half(Half(u))));
      (!Odd(u) && !Odd(Half(u)) && !Odd(Half(Half(u))) && !Odd(Half(Half(Half(u))))
      && !Odd(u4) && !Odd(Half(u4)) && !Odd(Half(Half(u4))) && !Odd(Half(Half(Half(u4)))))
  {
  }

  lemma BytesMoved(c: Word)
    ensures Half(Half(Half(Half(Half(Half(Half(Half(WithoutByte(c))))))))) == Above(c)
  {
  }

  // the upper three bytes only move down
  lemma UpperBytes(c: Word)
    ensures Shift8(WithoutByte(c)) == Above(c)
  {
    hide Half, Odd, WithoutByte, Above;
    EvenBytes(c);
    BytesMoved(c);
  }

  lemma SplitByte(c: Word)
    ensures c == Xor(LowByte(c), WithoutByte(c))
  {
  }

  lemma TableStep(c: Word)
    ensures Shift8(c) == Xor(Shift8(LowByte(c)), Above(c))
  {
    hide Shift8, Xor, LowByte, WithoutByte, Above;
    SplitByte(c);
    Linear8(LowByte(c), WithoutByte(c));
    UpperBytes(c);
  }

  function WithoutBit(b: Word): Word { Word(b.v & 0xFFFFFFFE) }

  lemma SplitBit(b: Word)
    ensures b == Xor(OfBit(Odd(b)), WithoutBit(b))
  {
  }

  lemma WithoutBitIsEven(b: Word)
    ensures !Odd(WithoutBit(b))
  {
  }

  lemma WithoutBitHalves(b: Word)
    ensures Half(WithoutBit(b)) == Half(b)
  {
  }

  // bits still to come may as well be in the register already
  lemma FeedOne(c: Word, b: Word)
    ensures Shift(Xor(c, b)) == Xor(Feed(c, Odd(b)), Half(b))
  {
    hide Xor, Odd, Half, OfBit, WithoutBit;
    SplitBit(b);
    WithoutBitIsEven(b);
    WithoutBitHalves(b);
    var low, high := OfBit(Odd(b)), WithoutBit(b);
    XorLaws(c, low, high);
    Linear(Xor(c, low), high);
  }

  function Low(w: Word): bv8 { (w.v & 0xFF) as bv8 }

  lemma BitsOfLow(w: Word)
    ensures var b := Low(w); var w4 := Half(Half(Half(Half(w))));
      (Bit(b, 0) == Odd(w) && Bit(b, 1) == Odd(Half(w)) && Bit(b, 2) == Odd(Half(Half(w)))
        && Bit(b, 3) == Odd(Half(Half(Half(w))))
      && Bit(b, 4) == Odd(w4) && Bit(b, 5) == Odd(Half(w4)) && Bit(b, 6) == Odd(Half(Half(w4)))
        && Bit(b, 7) == Odd(Half(Half(Half(w4)))))
  {
  }

  lemma EightHalves(w: Word)
    ensures Half(Half(Half(Half(Half(Half(Half(Half(w)))))))) == Above(w)
  {
  }

  lemma OneByte(b: bv8)
    ensures Low(OfByte(b)) == b && Above(OfByte(b)) == ZERO
  {
  }

  lemma RegisterTakes(c: Word, bits: seq<bool>, k: nat)
    requires k < |bits|
    ensures Register(c, bits[..k + 1]) == Feed(Register(c, bits[..k]), bits[k])
  {
    hide Feed;
    assert bits[..k + 1][..k] == bits[..k];
  }

  // eight shifts take in the low byte of a word that is in the register already
  lemma ByteFeeds(c: Word, w: Word)
    ensures Shift8(Xor(c, w)) == Xor(Register(c, ByteBits(Low(w))), Above(w))
  {
    hide Shift, Feed, Bit, Half, Odd, Xor, Low, Above, Register, ByteBits;
    BitsOfLow(w);
    EightHalves(w);
    AreByteBits(Low(w));
    var s := ByteBits(Low(w));
    EmptyRegister(c);
    assert s[..0] == [] && s[..8] == s;
    FedSoFar(c, s, w, 0);
    FedSoFar(c, s, Half(w), 1);
    FedSoFar(c, s, Half(Half(w)), 2);
    FedSoFar(c, s, Half(Half(Half(w))), 3);
    var w4 := Half(Half(Half(Half(w))));
    FedSoFar(c, s, w4, 4);
    FedSoFar(c, s, Half(w4), 5);
    FedSoFar(c, s, Half(Half(w4)), 6);
    FedSoFar(c, s, Half(Half(Half(w4))), 7);
  }

  lemma ByteStep(c: Word, b: bv8)
    ensures Register(c, ByteBits(b)) == Shift8(Xor(c, OfByte(b)))
  {
    hide Shift8, Xor, OfByte, Register, ByteBits, Low, Above;
    ByteFeeds(c, OfByte(b));
    OneByte(b);
    XorZero(Register(c, ByteBits(b)));
  }

  lemma AreByteBits(b: bv8)
    ensures var s := ByteBits(b);
      s[0] == Bit(b, 0) && s[1] == Bit(b, 1) && s[2] == Bit(b, 2) && s[3] == Bit(b, 3) && s[4] == Bit(b, 4)
        && s[5] == Bit(b, 5) && s[6] == Bit(b, 6) && s[7] == Bit(b, 7)
  {
    hide Bit;
  }

  lemma FedSoFar(c: Word, s: seq<bool>, w: Word, k: nat)
    requires k < |s| && s[k] == Odd(w)
    ensures Shift(Xor(Register(c, s[..k]), w)) == Xor(Register(c, s[..k + 1]), Half(w))
  {
    hide Shift, Feed, Half, Odd, Xor, Register;
    FeedOne(Register(c, s[..k]), w);
    RegisterTakes(c, s, k);
  }

  lemma EmptyRegister(c: Word)
    ensures Register(c, []) == c
  {
  }

  // ---- The table and the fold over bytes ----

  function Shifts(c: Word, n: nat): Word {
    if n == 0 then c else Shift(Shifts(c, n - 1))
  }

  lemma EightShifts(c: Word)
    ensures Shifts(c, 8) == Shift8(c)
  {
    hide Shift;
    assert Shifts(c, 1) == Shift(Shifts(c, 0));
    assert Shifts(c, 3) == Shift(Shift(Shifts(c, 1)));
    assert Shifts(c, 5) == Shift(Shift(Shifts(c, 3)));
    assert Shifts(c, 7) == Shift(Shift(Shifts(c, 5)));
  }

  function Indexed(i: nat): Word
    requires i < 256
  {
    OfByte(i as bv8)
  }

  method BuildTable() returns (t: seq<Word>)
    ensures |t| == 256 && forall i :: 0 <= i < 256 ==> t[i] == Shift8(Indexed(i))
  {
    hide Shift, Shift8, Indexed;
    t := [];
    for i := 0 to 256
      invariant |t| == i && forall k :: 0 <= k < i ==> t[k] == Shift8(Indexed(k))
    {
      var c := Indexed(i);
      for j := 0 to 8
        invariant c == Shifts(Indexed(i), j)
      {
        c := Shift(c);
      }
      EightShifts(Indexed(i));
      t := t + [c];
    }
  }

  lemma {:induction false} RegisterJoins(c: Word, a: seq<bool>, b: seq<bool>)
    ensures Register(c, a + b) == Register(Register(c, a), b)
  {
    hide Feed;
    if b == [] {
      assert a + b == a;
    } else {
      var n := |b| - 1;
      RegisterJoins(c, a, b[..n]);
      assert (a + b)[..|a| + n] == a + b[..n];
    }
  }

  lemma RegisterOfBytes(c: Word, data: seq<bv8>, b: bv8)
    ensures Register(c, Bits(data + [b])) == Shift8(Xor(Register(c, Bits(data)), OfByte(b)))
  {
    hide Register, ByteBits, Shift8, Xor, OfByte;
    assert (data + [b])[..|data|] == data;
    RegisterJoins(c, Bits(data), ByteBits(b));
    ByteStep(Register(c, Bits(data)), b);
  }

  // the index into the table, as a number
  function Index(c: Word): (i: nat)
    ensures i < 256
  {
    ((c.v & 0xFF) as bv8) as int
  }

  lemma RawIndex(low: bv8)
    ensures (low as int) as bv8 == low
  {
  }

  lemma RawLow(c: bv32)
    ensures ((c & 0xFF) as bv8) as bv32 == c & 0xFF
  {
  }

  lemma IndexIsLowByte(c: Word)
    ensures Indexed(Index(c)) == LowByte(c)
  {
    RawLow(c.v);
    RawIndex((c.v & 0xFF) as bv8);
  }

  // a byte goes in against the low byte of the register only
  lemma BytesAbove(c: Word, b: bv8)
    ensures Above(Xor(c, OfByte(b))) == Above(c)
  {
  }

  /** The table-driven fold over bytes is the CRC-32 taken one bit at a time. */
  method Checksum(data: seq<bv8>) returns (crc: Word)
    ensures crc == Crc(data)
  {
    hide Register, Bits, Shift8, Xor, OfByte, Indexed, Index, Above, LowByte;
    var table := BuildTable();
    crc := ONES;
    StartOfData();
    for i := 0 to |data|
      invariant crc == Register(ONES, Bits(data[..i]))
    {
      var c := Xor(crc, OfByte(data[i]));
      IndexIsLowByte(c);
      TableStep(c);
      BytesAbove(crc, data[i]);
      RegisterOfBytes(ONES, data[..i], data[i]);
      assert data[..i] + [data[i]] == data[..i + 1];
      crc := Xor(table[Index(c)], Above(crc));
    }
    assert data[..|data|] == data;
    crc := Xor(crc, ONES);
  }

  lemma StartOfData()
    ensures Register(ONES, Bits([])) == ONES
  {
  }

  // ---- What the checksum catches ----

  // the last four bytes of a frame, the low byte first
  function Stored(frame: seq<bv8>): Word
    requires |frame| >= 4
  {
    var n := |frame| - 4;
    Join(frame[n], frame[n + 1], frame[n + 2], frame[n + 3])
  }

  function Join(b0: bv8, b1: bv8, b2: bv8, b3: bv8): Word {
    Word((b0 as bv32) | ((b1 as bv32) << 8) | ((b2 as bv32) << 16) | ((b3 as bv32) << 24))
  }

  ghost predicate Accepts(frame: seq<bv8>) {
    |frame| >= 4 && Stored(frame) == Crc(frame[..|frame| - 4])
  }

  method CheckCrc(frame: seq<bv8>) returns (ok: bool)
    requires |frame| >= 4
    ensures ok <==> Accepts(frame)
  {
    hide Crc, Stored;
    var crc := Checksum(frame[..|frame| - 4]);
    ok := Stored(frame) == crc;
  }

  method PutCrc(data: seq<bv8>) returns (frame: seq<bv8>)
    ensures |frame| == |data| + 4 && frame[..|data|] == data && Accepts(frame)
  {
    hide Crc, Join, Low, Above;
    var crc := Checksum(data);
    JoinOfBytes(crc);
    frame := data + [Low(crc), Low(Above(crc)), Low(Above(Above(crc))), Low(Above(Above(Above(crc))))];
    assert frame[..|data|] == data;
  }

  lemma JoinOfBytes(w: Word)
    ensures Join(Low(w), Low(Above(w)), Low(Above(Above(w))), Low(Above(Above(Above(w))))) == w
  {
  }

  lemma BytesOfJoin(b0: bv8, b1: bv8, b2: bv8, b3: bv8)
    ensures var w := Join(b0, b1, b2, b3);
      Low(w) == b0 && Low(Above(w)) == b1 && Low(Above(Above(w))) == b2 && Low(Above(Above(Above(w)))) == b3
      && Above(Above(Above(Above(w)))) == ZERO
  {
  }

  function Unshift(c: Word): Word {
    if c.v & 0x80000000 != 0 then Word(((c.v ^ 0xEDB88320) << 1) | 1) else Word(c.v << 1)
  }

  lemma ShiftInverts(c: Word)
    ensures Unshift(Shift(c)) == c
  {
  }

  lemma Shift8Injective(a: Word, b: Word)
    requires Shift8(a) == Shift8(b)
    ensures a == b
  {
    hide Shift, Unshift;
    Unshift8(a);
    Unshift8(b);
  }

  lemma Unshift8(c: Word)
    ensures Unshift(Unshift(Unshift(Unshift(Unshift(Unshift(Unshift(Unshift(Shift8(c))))))))) == c
  {
    hide Shift, Unshift;
    var c1 := Shift(c);
    var c2 := Shift(c1);
    var c3 := Shift(c2);
    var c4 := Shift(c3);
    var c5 := Shift(c4);
    var c6 := Shift(c5);
    ShiftInverts(c);
    ShiftInverts(c1);
    ShiftInverts(c2);
    ShiftInverts(c3);
    ShiftInverts(c4);
    ShiftInverts(c5);
    ShiftInverts(c6);
    ShiftInverts(Shift(c6));
  }

  function Shift32(c: Word): Word { Shift8(Shift8(Shift8(Shift8(c)))) }

  // the register takes in four bytes as one word
  lemma WordStep(c: Word, b0: bv8, b1: bv8, b2: bv8, b3: bv8)
    ensures Register(Register(Register(Register(c, ByteBits(b0)), ByteBits(b1)), ByteBits(b2)), ByteBits(b3)) ==
      Shift32(Xor(c, Join(b0, b1, b2, b3)))
  {
    hide Shift8, Xor, Register, ByteBits, Low, Above, Join;
    var w := Join(b0, b1, b2, b3);
    BytesOfJoin(b0, b1, b2, b3);
    var c1 := Register(c, ByteBits(b0));
    var c2 := Register(c1, ByteBits(b1));
    var c3 := Register(c2, ByteBits(b2));
    ByteFeeds(c, w);
    ByteFeeds(c1, Above(w));
    ByteFeeds(c2, Above(Above(w)));
    ByteFeeds(c3, Above(Above(Above(w))));
    XorZero(Register(c3, ByteBits(b3)));
  }

  lemma RegisterOfFrame(data: seq<bv8>, b0: bv8, b1: bv8, b2: bv8, b3: bv8)
    ensures Register(ONES, Bits(data + [b0, b1, b2, b3])) ==
      Shift32(Xor(Register(ONES, Bits(data)), Join(b0, b1, b2, b3)))
  {
    hide Shift8, Xor, Register, ByteBits, Join, Shift32;
    BitsTake(data, b0);
    BitsTake(data + [b0], b1);
    BitsTake(data + [b0] + [b1], b2);
    BitsTake(data + [b0] + [b1] + [b2], b3);
    assert data + [b0] + [b1] + [b2] + [b3] == data + [b0, b1, b2, b3];
    WordStep(Register(ONES, Bits(data)), b0, b1, b2, b3);
  }

  lemma BitsTake(data: seq<bv8>, b: bv8)
    ensures Register(ONES, Bits(data + [b])) == Register(Register(ONES, Bits(data)), ByteBits(b))
  {
    hide Register, ByteBits;
    assert (data + [b])[..|data|] == data;
    RegisterJoins(ONES, Bits(data), ByteBits(b));
  }

  lemma FirstResidue()
    ensures Shift8(Word(0xFFFFFFFF)) == Word(0x2DFD1072)
  {
  }

  lemma SecondResidue()
    ensures Shift8(Word(0x2DFD1072)) == Word(0xBE26ED00)
  {
  }

  lemma ThirdResidue()
    ensures Shift8(Word(0xBE26ED00)) == Word(0x00BE26ED)
  {
  }

  lemma LastResidue()
    ensures Shift8(Word(0x00BE26ED)) == Word(0xDEBB20E3)
  {
  }

  lemma Residue()
    ensures Shift32(ONES) == Word(0xDEBB20E3)
  {
    hide Shift8;
    FirstResidue();
    SecondResidue();
    ThirdResidue();
    LastResidue();
  }

  /** A frame is accepted exactly when running all of it, checksum included, leaves one fixed value in the register. */
  lemma AcceptedByResidue(frame: seq<bv8>)
    requires |frame| >= 4
    ensures Accepts(frame) <==> Register(ONES, Bits(frame)) == Word(0xDEBB20E3)
  {
    hide Shift8, Xor, Register, ByteBits, Join, Bits;
    Residue();
    var n := |frame| - 4;
    var data := frame[..n];
    assert frame == data + [frame[n], frame[n + 1], frame[n + 2], frame[n + 3]];
    RegisterOfFrame(data, frame[n], frame[n + 1], frame[n + 2], frame[n + 3]);
    var r, w := Register(ONES, Bits(data)), Stored(frame);
    if Register(ONES, Bits(frame)) == Shift32(ONES) {
      Shift8Injective(Shift8(Shift8(Shift8(Xor(r, w)))), Shift8(Shift8(Shift8(ONES))));
      Shift8Injective(Shift8(Shift8(Xor(r, w))), Shift8(Shift8(ONES)));
      Shift8Injective(Shift8(Xor(r, w)), Shift8(ONES));
      Shift8Injective(Xor(r, w), ONES);
      XorAssociates(r, r, w);
      XorZero(r);
      XorZero(w);
      XorCommutes(ZERO, w);
    } else if w == Xor(r, ONES) {
      XorAssociates(r, r, ONES);
      XorZero(r);
      XorZero(ONES);
      XorCommutes(ZERO, ONES);
    }
  }

  // ---- Bursts ----

  function Halves(c: Word, k: nat): Word
    decreases k
  {
    if k == 0 then c else Halves(Half(c), k - 1)
  }

  lemma {:induction false} HalvesOfZero(k: nat)
    ensures Halves(ZERO, k) == ZERO
  {
    if k > 0 {
      HalvesOfZero(k - 1);
    }
  }

  const TOP: Word := Word(0x80000000)

  predicate AtLeast(a: Word, b: Word) { a.v >= b.v }

  lemma HalfKeepsOrder(a: Word, b: Word)
    requires AtLeast(a, b)
    ensures AtLeast(Half(a), Half(b))
  {
  }

  lemma {:induction false} HalvesKeepOrder(a: Word, b: Word, k: nat)
    requires AtLeast(a, b)
    ensures AtLeast(Halves(a, k), Halves(b, k))
    decreases k
  {
    hide Half, AtLeast;
    if k > 0 {
      HalfKeepsOrder(a, b);
      HalvesKeepOrder(Half(a), Half(b), k - 1);
    }
  }

  lemma {:induction false} HalvesJoin(c: Word, j: nat, k: nat)
    ensures Halves(Halves(c, j), k) == Halves(c, j + k)
    decreases j
  {
    hide Half;
    if j > 0 {
      HalvesJoin(Half(c), j - 1, k);
    }
  }

  lemma TopHalves()
    ensures Halves(TOP, 31) == Word(1)
  {
    Halves8(TOP);
    Halves8(Word(0x800000));
    Halves8(Word(0x8000));
    HalvesJoin(TOP, 8, 8);
    HalvesJoin(TOP, 16, 8);
    HalvesJoin(TOP, 24, 7);
    assert Halves(Word(0x80), 7) == Halves(Word(0x10), 4) == Halves(Word(1), 0);
  }

  lemma Halves8(c: Word)
    ensures Halves(c, 8) == Above(c)
  {
    hide Half, Above;
    EightHalves(c);
    var c2 := Half(Half(c));
    var c4 := Half(Half(c2));
    var c6 := Half(Half(c4));
    assert Halves(c, 8) == Halves(c2, 6);
    assert Halves(c2, 6) == Halves(c4, 4);
    assert Halves(c4, 4) == Halves(c6, 2);
  }

  // a register with its top bit set is not emptied by 31 halvings
  lemma TopLasts(c: Word, k: nat)
    requires AtLeast(c, TOP) && k <= 31
    ensures Halves(c, k) != ZERO
  {
    hide Half, Halves, AtLeast;
    TopHalves();
    HalvesJoin(TOP, k, 31 - k);
    HalvesOfZero(31 - k);
    HalvesKeepOrder(c, TOP, k);
    AboveZero(Halves(c, k), Halves(TOP, k));
  }

  lemma AboveZero(a: Word, b: Word)
    requires AtLeast(a, b) && b != ZERO
    ensures a != ZERO
  {
  }

  lemma OddShiftIsHigh(c: Word)
    requires Odd(c)
    ensures AtLeast(Shift(c), TOP)
  {
    HighBit(c.v >> 1);
  }

  lemma HighBit(h: bv32)
    requires h & 0x80000000 == 0
    ensures 0xEDB88320 ^ h >= 0x80000000
  {
  }

  lemma HalfIgnoresBit(c: Word, bit: bool)
    ensures Half(Xor(c, OfBit(bit))) == Half(c)
  {
  }

  // how far apart two registers are moves like a register of its own
  lemma FeedsDiffer(c1: Word, c2: Word, b1: bool, b2: bool)
    ensures Xor(Feed(c1, b1), Feed(c2, b2)) == Feed(Xor(c1, c2), b1 != b2)
  {
    hide Shift, Xor, OfBit;
    var x, y := OfBit(b1), OfBit(b2);
    Linear(Xor(c1, x), Xor(c2, y));
    assert Xor(x, y) == OfBit(b1 != b2) by { BitsDiffer(b1, b2); }
    XorAssociates(c1, x, Xor(c2, y));
    XorAssociates(x, c2, y);
    XorCommutes(x, c2);
    XorAssociates(c2, x, y);
    XorAssociates(c1, c2, Xor(x, y));
  }

  lemma BitsDiffer(b1: bool, b2: bool)
    ensures Xor(OfBit(b1), OfBit(b2)) == OfBit(b1 != b2)
  {
  }

  lemma DifferIff(a: Word, b: Word)
    ensures Xor(a, b) == ZERO <==> a == b
  {
    hide Xor;
    XorZero(a);
    XorZero(b);
    if Xor(a, b) == ZERO {
      XorAssociates(a, b, b);
      XorCommutes(ZERO, b);
    }
  }

  // a difference this high is still there after one bit more, equal or not
  lemma DifferenceLasts(d: Word, bit: bool, k: nat)
    requires 1 <= k <= 31 && Halves(d, k) != ZERO
    ensures Halves(Feed(d, bit), k - 1) != ZERO
  {
    hide Xor, Half, OfBit, AtLeast, Odd;
    var x := Xor(d, OfBit(bit));
    HalfIgnoresBit(d, bit);
    if Odd(x) {
      OddShiftIsHigh(x);
      TopLasts(Shift(x), k - 1);
    }
  }

  lemma ShiftOfZero(c: Word)
    ensures Shift(c) == ZERO <==> c == ZERO
  {
    hide Shift, Unshift;
    ShiftInverts(c);
    ShiftInverts(ZERO);
    assert Shift(ZERO) == ZERO by { ZeroStays(); }
  }

  lemma ZeroStays()
    ensures Shift(ZERO) == ZERO
  {
  }

  // two registers fed alike but for a first difference at p, and others less than 32 bits on
  lemma {:induction false} DifferenceRemains(c: Word, s1: seq<bool>, s2: seq<bool>, p: nat, n: nat)
    requires |s1| == |s2| && p < n <= |s1| && s1[p] != s2[p]
    requires forall i :: 0 <= i < p || p + 32 <= i < |s1| ==> s1[i] == s2[i]
    ensures Halves(Xor(Register(c, s1[..n]), Register(c, s2[..n])), if n < p + 32 then p + 32 - n else 0) != ZERO
  {
    hide Feed, Xor, Halves, Register;
    RegisterTakes(c, s1, n - 1);
    RegisterTakes(c, s2, n - 1);
    var r1, r2 := Register(c, s1[..n - 1]), Register(c, s2[..n - 1]);
    FeedsDiffer(r1, r2, s1[n - 1], s2[n - 1]);
    var d := Xor(r1, r2);
    if n - 1 == p {
      assert s1[..p] == s2[..p];
      XorZero(r1);
      FirstDifference();
    } else {
      DifferenceRemains(c, s1, s2, p, n - 1);
      if n <= p + 32 {
        DifferenceLasts(d, s1[n - 1] != s2[n - 1], p + 32 - (n - 1));
      } else {
        NoHalves(d);
        EqualBitsKeep(d);
        NoHalves(Feed(d, false));
      }
    }
  }

  lemma FirstDifference()
    ensures Halves(Feed(ZERO, true), 31) != ZERO
  {
    hide Halves;
    OddShiftIsHigh(Xor(ZERO, OfBit(true)));
    TopLasts(Feed(ZERO, true), 31);
  }

  lemma NoHalves(d: Word)
    ensures Halves(d, 0) == d
  {
  }

  lemma EqualBitsKeep(d: Word)
    requires d != ZERO
    ensures Feed(d, false) != ZERO
  {
    hide Shift, Xor;
    XorZero(d);
    ShiftOfZero(d);
  }

  // the two are apart at the end
  lemma {:induction false} HalvesKeepZero(d: Word, k: nat)
    requires Halves(d, k) != ZERO
    ensures d != ZERO
  {
    HalvesOfZero(k);
  }

  lemma BurstChangesRegister(c: Word, s1: seq<bool>, s2: seq<bool>, p: nat)
    requires |s1| == |s2| && p < |s1| && s1[p] != s2[p]
    requires forall i :: 0 <= i < p || p + 32 <= i < |s1| ==> s1[i] == s2[i]
    ensures Register(c, s1) != Register(c, s2)
  {
    hide Register, Halves, Xor;
    var n := |s1|;
    assert s1[..n] == s1 && s2[..n] == s2;
    DifferenceRemains(c, s1, s2, p, n);
    var d := Xor(Register(c, s1), Register(c, s2));
    HalvesKeepZero(d, if n < p + 32 then p + 32 - n else 0);
    DifferIff(Register(c, s1), Register(c, s2));
  }

  lemma FirstApart(s1: seq<bool>, s2: seq<bool>) returns (p: nat)
    requires |s1| == |s2| && s1 != s2
    ensures p < |s1| && s1[p] != s2[p] && s1[..p] == s2[..p]
  {
    p := 0;
    while p + 1 < |s1| && s1[p] == s2[p]
      invariant p < |s1| && s1[..p] == s2[..p]
    {
      p := p + 1;
      assert s1[..p] == s1[..p - 1] + [s1[p - 1]] && s2[..p] == s2[..p - 1] + [s2[p - 1]];
    }
    assert s1 == s1[..p] + s1[p..] && s2 == s2[..p] + s2[p..];
    assert p + 1 == |s1| ==> s1[p..] == [s1[p]] && s2[p..] == [s2[p]];
  }

  /** No damage confined to 32 consecutive bits of a frame, its checksum included, goes unnoticed. */
  lemma BurstsAreCaught(sent: seq<bv8>, got: seq<bv8>, from: nat)
    requires Accepts(sent) && |got| == |sent| && Bits(got) != Bits(sent)
    requires forall i :: 0 <= i < |Bits(sent)| && !(from <= i < from + 32) ==> Bits(got)[i] == Bits(sent)[i]
    ensures !Accepts(got)
  {
    hide Accepts, Bits, Register, Shift32;
    assert |sent| >= 4 by { AcceptsFour(sent); }
    var s1, s2 := Bits(sent), Bits(got);
    var p := FirstApart(s1, s2);
    forall i | 0 <= i < p || p + 32 <= i < |s1| ensures s1[i] == s2[i] {
      if i < p {
        assert s1[i] == s1[..p][i] == s2[..p][i] == s2[i];
      }
    }
    BurstChangesRegister(ONES, s1, s2, p);
    AcceptedByResidue(sent);
    AcceptedByResidue(got);
  }

  lemma AcceptsFour(frame: seq<bv8>)
    requires Accepts(frame)
    ensures |frame| >= 4
  {
    hide Crc, Stored;
  }

  // ---- Known values ----

  // the register takes in one byte, all values given
  lemma KnownStep(data: seq<bv8>, b: bv8, before: Word, mixed: Word, after: Word)
    requires Register(ONES, Bits(data)) == before && Xor(before, OfByte(b)) == mixed && Shift8(mixed) == after
    ensures Register(ONES, Bits(data + [b])) == after
  {
    hide Register, Bits, Shift8, Xor, OfByte, ONES;
    RegisterOfBytes(ONES, data, b);
  }

  lemma FirstShifts()
    ensures Shift8(Word(0xFFFFFFCE)) == Word(0x7C231048)
  {
  }

  lemma SecondShifts()
    ensures Shift8(Word(0x7C23107A)) == Word(0xB0ACBB32)
  {
  }

  lemma ThirdShifts()
    ensures Shift8(Word(0xB0ACBB01)) == Word(0x77B79C2D)
  {
  }

  lemma FourthShifts()
    ensures Shift8(Word(0x77B79C19)) == Word(0x641C1F5C)
  {
  }

  lemma FifthShifts()
    ensures Shift8(Word(0x641C1F69)) == Word(0x340AC5E3)
  {
  }

  lemma SixthShifts()
    ensures Shift8(Word(0x340AC5D5)) == Word(0xF68D2C9E)
  {
  }

  lemma SeventhShifts()
    ensures Shift8(Word(0xF68D2CA9)) == Word(0xAFFC9660)
  {
  }

  lemma EighthShifts()
    ensures Shift8(Word(0xAFFC9658)) == Word(0x651F2550)
  {
  }

  lemma NinthShifts()
    ensures Shift8(Word(0x651F2569)) == Word(0x340BC6D9)
  {
  }

  /** The check value of CRC-32: the checksum of the digits from 1 to 9. */
  lemma CheckValue()
    ensures Crc([0x31, 0x32, 0x33, 0x34, 0x35, 0x36, 0x37, 0x38, 0x39]) == Word(0xCBF43926)
  {
    hide Register, Bits, Shift8;
    StartOfData();
    var data: seq<bv8> := [];
    FirstShifts();
    KnownStep(data, 0x31, Word(0xFFFFFFFF), Word(0xFFFFFFCE), Word(0x7C231048));
    data := data + [0x31];
    SecondShifts();
    KnownStep(data, 0x32, Word(0x7C231048), Word(0x7C23107A), Word(0xB0ACBB32));
    data := data + [0x32];
    ThirdShifts();
    KnownStep(data, 0x33, Word(0xB0ACBB32), Word(0xB0ACBB01), Word(0x77B79C2D));
    data := data + [0x33];
    FourthShifts();
    KnownStep(data, 0x34, Word(0x77B79C2D), Word(0x77B79C19), Word(0x641C1F5C));
    data := data + [0x34];
    FifthShifts();
    KnownStep(data, 0x35, Word(0x641C1F5C), Word(0x641C1F69), Word(0x340AC5E3));
    data := data + [0x35];
    SixthShifts();
    KnownStep(data, 0x36, Word(0x340AC5E3), Word(0x340AC5D5), Word(0xF68D2C9E));
    data := data + [0x36];
    SeventhShifts();
    KnownStep(data, 0x37, Word(0xF68D2C9E), Word(0xF68D2CA9), Word(0xAFFC9660));
    data := data + [0x37];
    EighthShifts();
    KnownStep(data, 0x38, Word(0xAFFC9660), Word(0xAFFC9658), Word(0x651F2550));
    data := data + [0x38];
    NinthShifts();
    KnownStep(data, 0x39, Word(0x651F2550), Word(0x651F2569), Word(0x340BC6D9));
    data := data + [0x39];
    assert data == [0x31, 0x32, 0x33, 0x34, 0x35, 0x36, 0x37, 0x38, 0x39];
  }

  /** A frame with its checksum as it goes over the wire, the low byte first. */
  lemma KnownFrame()
    ensures Accepts([0x31, 0x32, 0x33, 0x34, 0x35, 0x36, 0x37, 0x38, 0x39, 0x26, 0x39, 0xF4, 0xCB])
  {
    hide Crc;
    CheckValue();
    var frame: seq<bv8> := [0x31, 0x32, 0x33, 0x34, 0x35, 0x36, 0x37, 0x38, 0x39, 0x26, 0x39, 0xF4, 0xCB];
    assert frame[..9] == [0x31, 0x32, 0x33, 0x34, 0x35, 0x36, 0x37, 0x38, 0x39];
    KnownBytes();
  }

  lemma KnownBytes()
    ensures Join(0x26, 0x39, 0xF4, 0xCB) == Word(0xCBF43926)
  {
  }
}

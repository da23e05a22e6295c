/** The stream of CAN frames between host and panda: packing into bounded writes, and unpacking arbitrary reads. */
module CanStream {

  import opened CanFrames

  // the bytes of one frame
  function Wire(f: Outgoing): (bytes: seq<bv8>)
    requires Sendable(f)
    ensures |bytes| == HEADER_SIZE + |f.data| && bytes[HEADER_SIZE..] == f.data
  {
    var plain := Header(f.bus, LenToDlc(|f.data|) as bv8, FlagWord(false, false, f.address >= 0x800, f.address))
      + f.data;
    plain[5 := Xor(plain)]
  }

  function WireAll(frames: seq<Outgoing>): seq<bv8>
    requires forall f | f in frames :: Sendable(f)
  {
    if frames == [] then [] else Wire(frames[0]) + WireAll(frames[1..])
  }

  // frames for the buses of this panda
  function Mine(frames: seq<Outgoing>): (mine: seq<Outgoing>)
    ensures forall f | f in mine :: f in frames && f.bus < 4
  {
    if frames == [] then [] else (if frames[0].bus < BUS_LIMIT then [frames[0]] else []) + Mine(frames[1..])
  }

  /** Which frames are sent: those for one of the first four buses, in order. */
  lemma MineOne(f: Outgoing)
    ensures Mine([f]) == if f.bus < 4 then [f] else []
  {
    assert [f][1..] == [];
  }

  lemma {:induction false} MineConcat(a: seq<Outgoing>, b: seq<Outgoing>)
    ensures Mine(a + b) == Mine(a) + Mine(b)
  {
    if a == [] {
      assert a + b == b;
    } else {
      assert (a + b)[1..] == a[1..] + b;
      MineConcat(a[1..], b);
    }
  }

  // frames read off the front, the bytes left over, and whether all checksums were right
  datatype Parsed = Parsed(frames: seq<Received>, rest: seq<bv8>, ok: bool)

  function FrameSize(bytes: seq<bv8>): (n: nat)
    requires |bytes| >= HEADER_SIZE
    ensures HEADER_SIZE <= n <= HEADER_SIZE + 64
  {
    HEADER_SIZE + LengthOf(CodeOf(bytes))
  }

  function Decode(frame: seq<bv8>): Received
    requires |frame| >= HEADER_SIZE
  {
    var word := WordOf(frame);
    Received(AddressOf(word), SourceOf(BusOf(frame), word), frame[HEADER_SIZE..])
  }

  function AddressOf(word: bv32): bv32 {
    word >> 3
  }

  function SourceOf(bus: bv8, word: bv32): int {
    bus as int + (if word & 1 != 0 then 0xC0 else 0) + if word & 2 != 0 then 0x80 else 0
  }

  function Parse(bytes: seq<bv8>): (p: Parsed)
    ensures |p.rest| < HEADER_SIZE + 64
  {
    if |bytes| < HEADER_SIZE || |bytes| < FrameSize(bytes) then Parsed([], bytes, true)
    else
      var n := FrameSize(bytes);
      if Xor(bytes[..n]) != 0 then Parsed([], [], false)
      else
        var later := Parse(bytes[n..]);
        later.(frames := [Decode(bytes[..n])] + later.frames)
  }

  lemma ParseShort(bytes: seq<bv8>)
    requires |bytes| < HEADER_SIZE || |bytes| < FrameSize(bytes)
    ensures Parse(bytes) == Parsed([], bytes, true)
  {
  }

  lemma ParseFirst(bytes: seq<bv8>)
    requires |bytes| >= HEADER_SIZE && |bytes| >= FrameSize(bytes)
    ensures var n := FrameSize(bytes); var later := Parse(bytes[n..]);
      Parse(bytes) == if Xor(bytes[..n]) != 0 then Parsed([], [], false)
        else later.(frames := [Decode(bytes[..n])] + later.frames)
  {
    hide Decode, Xor;
  }

  // Later bytes continue where the earlier ones left off.
  lemma {:induction false} ParseContinues(a: seq<bv8>, b: seq<bv8>)
    requires Parse(a).ok
    ensures var (first, all) := (Parse(a), Parse(Parse(a).rest + b));
      Parse(a + b) == all.(frames := first.frames + all.frames)
  {
    hide Parse, Decode, Xor, CodeOf, LengthOf;
    if |a| < HEADER_SIZE || |a| < FrameSize(a) {
      ParseShort(a);
    } else {
      var n := FrameSize(a);
      CodeByFirst(a, b);
      assert (a + b)[..n] == a[..n] && (a + b)[n..] == a[n..] + b;
      ParseFirst(a);
      ParseFirst(a + b);
      ParseContinues(a[n..], b);
    }
  }

  lemma CodeByFirst(a: seq<bv8>, b: seq<bv8>)
    requires |a| >= HEADER_SIZE
    ensures CodeOf(a + b) == CodeOf(a)
  {
  }

  // Once a checksum fails, what comes before it has been read.
  lemma {:induction false} ParseFails(a: seq<bv8>, b: seq<bv8>)
    requires !Parse(a).ok
    ensures Parse(a + b) == Parse(a)
  {
    hide Decode, Xor, CodeOf, LengthOf;
    var n := FrameSize(a);
    CodeByFirst(a, b);
    assert (a + b)[..n] == a[..n] && (a + b)[n..] == a[n..] + b;
    if Xor(a[..n]) == 0 { ParseFails(a[n..], b); }
  }

  // what the other side sees of a sent frame
  function Seen(f: Outgoing): Received {
    Received(f.address, f.bus as int, f.data)
  }

  lemma CodeConverts(n: nat)
    requires n < 16
    ensures (n as bv8) < 16 && (n as bv8) as int == n
  {
  }

  lemma WireFields(f: Outgoing)
    requires Sendable(f) && f.bus < BUS_LIMIT
    ensures var w := Wire(f);
      && CodeOf(w) as int == LenToDlc(|f.data|) && BusOf(w) == f.bus && Xor(w) == 0
      && WordOf(w) == FlagWord(false, false, f.address >= 0x800, f.address)
  {
    hide FlagWord, Header, Xor, LenToDlc;
    var code := LenToDlc(|f.data|) as bv8;
    var word := FlagWord(false, false, f.address >= 0x800, f.address);
    var h := Header(f.bus, code, word);
    CodeConverts(LenToDlc(|f.data|));
    HeaderFields(f.bus, code, word);
    HeaderEnd(f.bus, code, word);
    ChecksumCancels(h + f.data, 5);
    var w := Wire(f);
    assert w[0] == h[0] && w[1] == h[1] && w[2] == h[2] && w[3] == h[3] && w[4] == h[4];
  }

  lemma HeaderEnd(bus: bv8, code: bv8, word: bv32)
    ensures Header(bus, code, word)[5] == 0
  {
  }

  // the low five bits of the address above three flags, of which only that of long addresses is ever set
  function FlagByte(address: bv32): bv8 {
    ((address & 0x1F) as bv8 << 3) | if address >= 0x800 then 4 else 0
  }

  lemma WordBytes(address: bv32)
    ensures var w := FlagWord(false, false, address >= 0x800, address);
      WordBytesOf(w) == AddressBytes(address)
  {
  }

  lemma WordInHeader(bus: bv8, code: bv8, word: bv32)
    ensures Header(bus, code, word)[1..5] == WordBytesOf(word)
  {
    hide LowByte;
  }

  function WordBytesOf(word: bv32): seq<bv8> {
    [LowByte(word), LowByte(word >> 8), LowByte(word >> 16), LowByte(word >> 24)]
  }

  lemma WireWord(f: Outgoing, word: bv32)
    requires Sendable(f) && word == FlagWord(false, false, f.address >= 0x800, f.address)
    ensures Wire(f)[1..5] == WordBytesOf(word)
  {
    hide FlagWord, Header, Xor, LenToDlc, WordBytesOf;
    var code := LenToDlc(|f.data|) as bv8;
    WordInHeader(f.bus, code, word);
    var h := Header(f.bus, code, word);
    var plain := h + f.data;
    assert plain[5 := Xor(plain)][1..5] == h[1..5];
  }

  /** The first byte is the length code above the bus; the next four are the address above three flags, least
      significant byte first. */
  lemma WireBytes(f: Outgoing)
    requires Sendable(f) && f.bus < 4
    ensures (Wire(f)[0] >> 4) as int == LenToDlc(|f.data|) && (Wire(f)[0] >> 1) & 7 == f.bus
    ensures Wire(f)[1..5] == AddressBytes(f.address)
  {
    hide FlagWord, AddressBytes, WordBytesOf, Wire, LenToDlc, Xor, WordOf;
    WireFields(f);
    WireWord(f, FlagWord(false, false, f.address >= 0x800, f.address));
    WordBytes(f.address);
  }

  function AddressBytes(address: bv32): seq<bv8> {
    [FlagByte(address), LowByte(address >> 5), LowByte(address >> 13), LowByte(address >> 21)]
  }

  /** Of the three flags the first two are never set, and the third exactly for addresses of more than eleven bits. */
  lemma WireFlags(f: Outgoing)
    requires Sendable(f) && f.bus < 4
    ensures Wire(f)[1] & 4 != 0 <==> f.address >= 0x800
    ensures Wire(f)[1] & 3 == 0
  {
    hide Wire, LenToDlc, LowByte, FlagByte;
    WireBytes(f);
    FlagBits(f.address);
    assert Wire(f)[1] == Wire(f)[1..5][0];
  }

  lemma FlagBits(address: bv32)
    ensures (FlagByte(address) & 4 != 0 <==> address >= 0x800) && FlagByte(address) & 3 == 0
  {
  }

  /** A frame and its bytes: the sixth is the exclusive or of all others. */
  lemma KnownShort(f: Outgoing)
    requires f == Outgoing(0x100, 0, [])
    ensures Sendable(f) && Wire(f) == [0x00, 0x00, 0x08, 0x00, 0x00, 0x08]
  {
    hide Xor;
    var h := [0x00, 0x00, 0x08, 0x00, 0x00, 0x00];
    assert Header(0, 0, FlagWord(false, false, false, 0x100)) + [] == h;
    SixBytes(h);
  }

  /** One with an extended address and two bytes of data. */
  lemma KnownLong(f: Outgoing)
    requires f == Outgoing(0x18DB33F1, 1, [0x01, 0x02])
    ensures Sendable(f) && Wire(f) == [0x22, 0x8C, 0x9F, 0xD9, 0xC6, 0x2D, 0x01, 0x02]
  {
    hide Xor, FlagWord, Header;
    LongHeader();
    var h := [0x22, 0x8C, 0x9F, 0xD9, 0xC6, 0x00];
    SixBytes(h);
    XorConcat(h, [0x01, 0x02]);
    XorConcat([0x01], [0x02]);
    XorOne(0x01);
    XorOne(0x02);
    assert [0x01] + [0x02] == f.data;
    assert LenToDlc(|f.data|) == 2;
    var plain := h + f.data;
    assert Xor(plain) == 0x2D;
    assert plain[5 := 0x2D] == [0x22, 0x8C, 0x9F, 0xD9, 0xC6, 0x2D, 0x01, 0x02];
  }

  lemma LongHeader()
    ensures Header(1, 2, FlagWord(false, false, true, 0x18DB33F1)) == [0x22, 0x8C, 0x9F, 0xD9, 0xC6, 0x00]
  {
  }

  lemma SixBytes(h: seq<bv8>)
    requires |h| == 6
    ensures Xor(h) == h[0] ^ h[1] ^ h[2] ^ h[3] ^ h[4] ^ h[5]
  {
    hide Xor;
    XorMore(h, 5);
    XorMore(h, 4);
    XorMore(h, 3);
    XorMore(h, 2);
    XorMore(h, 1);
    XorOne(h[0]);
    assert h[..6] == h && h[..1] == [h[0]];
  }

  lemma XorMore(h: seq<bv8>, i: nat)
    requires 0 < i < |h|
    ensures Xor(h[..i + 1]) == Xor(h[..i]) ^ h[i]
  {
    assert h[..i + 1][..i] == h[..i];
  }

  /** What is read off a frame, byte by byte: a frame whose flags say rejected or returned comes from the bus 192 or 128
      further on. */
  lemma ReceivedBytes(frame: seq<bv8>)
    requires |frame| >= 6
    ensures var r, bus := Decode(frame), ((frame[0] >> 1) & 7) as int;
      && (frame[1] & 3 == 0 ==> r.source == bus) && (frame[1] & 3 == 1 ==> r.source == bus + 192)
      && (frame[1] & 3 == 2 ==> r.source == bus + 128) && (frame[1] & 3 == 3 ==> r.source == bus + 320)
      && r.address
         == (frame[1] as bv32 >> 3) | (frame[2] as bv32 << 5) | (frame[3] as bv32 << 13) | (frame[4] as bv32 << 21)
      && r.data == frame[6..]
  {
    WordFlags(frame[1], frame[2], frame[3], frame[4]);
  }

  lemma WordFlags(a: bv8, b: bv8, c: bv8, d: bv8)
    ensures var w := (a as bv32) | (b as bv32 << 8) | (c as bv32 << 16) | (d as bv32 << 24);
      && (w & 1 != 0 <==> a & 1 != 0) && (w & 2 != 0 <==> a & 2 != 0)
      && w >> 3 == (a as bv32 >> 3) | (b as bv32 << 5) | (c as bv32 << 13) | (d as bv32 << 21)
    ensures (a & 3 == 0 <==> a & 1 == 0 && a & 2 == 0) && (a & 3 == 1 <==> a & 1 != 0 && a & 2 == 0)
    ensures (a & 3 == 2 <==> a & 1 == 0 && a & 2 != 0) && (a & 3 == 3 <==> a & 1 != 0 && a & 2 != 0)
  {
  }

  // A frame survives the wire exactly when its address fits in 29 bits.
  lemma WireDecodes(f: Outgoing)
    requires Sendable(f) && f.bus < BUS_LIMIT
    ensures Decode(Wire(f)) == Seen(f) <==> Fits29(f.address)
  {
    hide FlagWord, WordOf, BusOf, Wire, SourceOf, AddressOf, Xor, CodeOf, LenToDlc, Sendable, Fits29;
    WireFields(f);
    SentWord(f.bus, f.address);
  }

  lemma SentWord(bus: bv8, address: bv32)
    ensures var word := FlagWord(false, false, address >= 0x800, address);
      SourceOf(bus, word) == bus as int && (AddressOf(word) == address <==> Fits29(address))
  {
    hide FlagWord;
    AddressOfWord(false, false, address >= 0x800, address);
  }

  lemma {:induction false} ParseWireAll(frames: seq<Outgoing>)
    requires forall f | f in frames :: Sendable(f) && f.bus < BUS_LIMIT && Fits29(f.address)
    ensures Parse(WireAll(frames)) == Parsed(SeenAll(frames), [], true)
  {
    hide Decode, Xor, CodeOf, LengthOf, Wire, Sendable, LenToDlc;
    if frames != [] {
      var first, rest := Wire(frames[0]), WireAll(frames[1..]);
      ParseWireAll(frames[1..]);
      WireFields(frames[0]);
      WireDecodes(frames[0]);
      WireSize(frames[0], rest);
      assert (first + rest)[..|first|] == first && (first + rest)[|first|..] == rest;
    }
  }

  function SeenAll(frames: seq<Outgoing>): seq<Received> {
    if frames == [] then [] else [Seen(frames[0])] + SeenAll(frames[1..])
  }

  lemma WireSize(f: Outgoing, rest: seq<bv8>)
    requires Sendable(f) && f.bus < BUS_LIMIT
    ensures FrameSize(Wire(f) + rest) == |Wire(f)|
  {
    hide Wire;
    WireFields(f);
    CodeByFirst(Wire(f), rest);
    assert |Wire(f)| == HEADER_SIZE + |f.data|;
  }
}

/** CAN frames as bytes: the packed header, the data length code, and the checksum. */
module CanFrames {

  const HEADER_SIZE := 6
  const BUS_LIMIT: bv8 := 4

  // the panda's table of data lengths by code
  const LENGTHS: seq<nat> := [0, 1, 2, 3, 4, 5, 6, 7, 8, 12, 16, 20, 24, 32, 48, 64]

  // a frame to send; its data has one of the tabled lengths
  datatype Outgoing = Outgoing(address: bv32, bus: bv8, data: seq<bv8>)

  // a frame received; source is the bus, plus an offset for rejected and returned frames
  datatype Received = Received(address: bv32, source: int, data: seq<bv8>)

  function LengthOf(code: bv8): (n: nat)
    requires code < 16
    ensures n <= 64
  {
    LENGTHS[code as int]
  }

  function LenToDlc(len: nat): (code: nat)
    requires len <= 64
    ensures code < 16
  {
    if len <= 8 then len
    else if len <= 24 then 8 + (len - 8) / 4 + if len % 4 != 0 then 1 else 0
    else 11 + len / 16 + if len % 16 != 0 then 1 else 0
  }

  ghost predicate Sendable(f: Outgoing) {
    |f.data| <= 64 && LENGTHS[LenToDlc(|f.data|)] == |f.data|
  }

  /** The lengths that can be sent are exactly the tabled ones, and each goes out under its own code. */
  lemma SendableLengths(f: Outgoing)
    ensures Sendable(f) <==> |f.data| <= 8 || |f.data| in [12, 16, 20, 24, 32, 48, 64]
    ensures forall code: nat :: code < 16 && LENGTHS[code] == |f.data| ==> LenToDlc(|f.data|) == code
  {
    forall code: nat | code < 16 && LENGTHS[code] == |f.data| ensures LenToDlc(|f.data|) == code {
    }
  }

  // ---- Checksum ----

  function Xor(bytes: seq<bv8>): bv8 {
    if bytes == [] then 0 else Xor(bytes[..|bytes| - 1]) ^ bytes[|bytes| - 1]
  }

  lemma {:induction false} XorConcat(a: seq<bv8>, b: seq<bv8>)
    ensures Xor(a + b) == Xor(a) ^ Xor(b)
  {
    if b == [] {
      assert a + b == a;
    } else {
      XorConcat(a, b[..|b| - 1]);
      assert (a + b)[..|a + b| - 1] == a + b[..|b| - 1];
    }
  }

  // Storing the checksum in place of a zero makes the whole frame sum to zero.
  lemma ChecksumCancels(bytes: seq<bv8>, i: nat)
    requires i < |bytes| && bytes[i] == 0
    ensures Xor(bytes[i := Xor(bytes)]) == 0
  {
    var before, after, sum := bytes[..i], bytes[i + 1..], Xor(bytes);
    assert bytes == before + ([bytes[i]] + after);
    assert bytes[i := sum] == before + ([sum] + after);
    XorConcat([bytes[i]], after);
    XorConcat([sum], after);
    XorConcat(before, [bytes[i]] + after);
    XorConcat(before, [sum] + after);
    XorOne(sum);
    XorOne(bytes[i]);
  }

  lemma XorOne(b: bv8)
    ensures Xor([b]) == b
  {
    assert [b][..0] == [];
  }

  // ---- Header: two bit fields of 8 and 32 bits, least significant first, then the checksum ----

  function LowByte(w: bv32): bv8 {
    (w & 0xFF) as bv8
  }

  function FlagWord(rejected: bool, returned: bool, extended: bool, address: bv32): bv32 {
    (if rejected then 1 else 0) | (if returned then 2 else 0) | (if extended then 4 else 0) | (address << 3)
  }

  // header with a zero checksum
  function Header(bus: bv8, code: bv8, word: bv32): (h: seq<bv8>)
    ensures |h| == HEADER_SIZE
  {
    [((bus & 7) << 1) | (code << 4), LowByte(word), LowByte(word >> 8), LowByte(word >> 16), LowByte(word >> 24), 0]
  }

  function WordOf(h: seq<bv8>): bv32
    requires |h| >= HEADER_SIZE
  {
    (h[1] as bv32) | (h[2] as bv32 << 8) | (h[3] as bv32 << 16) | (h[4] as bv32 << 24)
  }

  function CodeOf(h: seq<bv8>): (code: bv8)
    requires |h| >= HEADER_SIZE
    ensures code < 16
  {
    h[0] >> 4
  }

  function BusOf(h: seq<bv8>): bv8
    requires |h| >= HEADER_SIZE
  {
    (h[0] >> 1) & 7
  }

  // addresses the 29-bit field can hold
  predicate Fits29(address: bv32) {
    address < 0x2000_0000
  }

  lemma HeaderFields(bus: bv8, code: bv8, word: bv32)
    requires bus < 8 && code < 16
    ensures var h := Header(bus, code, word); WordOf(h) == word && CodeOf(h) == code && BusOf(h) == bus
  {
  }

  lemma AddressOfWord(rejected: bool, returned: bool, extended: bool, address: bv32)
    ensures var w := FlagWord(rejected, returned, extended, address);
      && (w >> 3 == address <==> Fits29(address))
      && (w & 1 != 0 <==> rejected) && (w & 2 != 0 <==> returned) && (w & 4 != 0 <==> extended)
  {
  }
}

/** The byte-mode bit stream of a QR symbol: header, payload, terminator and padding, and its parser. */
module ByteMode {

  import opened Arithmetic
  import opened Field
  import opened Bits

  datatype Error = Underflow | OtherMode | UnsupportedMode
  datatype Parsed = Segments(segments: seq<seq<Symbol>>) | Invalid(error: Error)

  function CountBits(version: nat): nat {
    if version <= 9 then 8 else 16
  }

  function Zeros(n: int): (bits: seq<bool>)
    ensures |bits| == if n > 0 then n else 0
  {
    seq(if n > 0 then n else 0, _ => false)
  }

  // mode 4, the byte count, the bytes
  function SegmentBits(payload: seq<Symbol>, version: nat): seq<bool> {
    BitsOf(4, 4) + BitsOf(|payload|, CountBits(version)) + UnpackAll(payload)
  }

  function Min(a: int, b: int): int { if a < b then a else b }

  function Padding(capacity: nat, filled: nat): seq<Symbol> {
    seq(if capacity > filled then capacity - filled else 0, k => if k % 2 == 0 then Symbol(0xEC) else Symbol(0x11))
  }

  lemma WholeBytes(n: int)
    ensures (n + (-n) % 8) % 8 == 0
  {
    var r := (-n) % 8;
    var q := -((-n) / 8);
    assert n + r == 8 * q + 0 by { assert -n == 8 * ((-n) / 8) + r; }
    DivModUnique(n + r, 8, q, 0);
  }

  function StreamBits(payload: seq<Symbol>, version: nat, capacity: nat): (bits: seq<bool>)
    ensures |bits| % 8 == 0
  {
    hide SegmentBits;
    var segment := SegmentBits(payload, version);
    var ended := segment + Zeros(Min(4, 8 * capacity - |segment|));
    var short := (-|ended|) % 8;
    WholeBytes(|ended|);
    ended + Zeros(short)
  }

  function DataCodewords(payload: seq<Symbol>, version: nat, capacity: nat): seq<Symbol> {
    var data := PackAll(StreamBits(payload, version, capacity));
    data + Padding(capacity, |data|)
  }

  // the caller's test before it picks a version
  predicate Fits(payload: seq<Symbol>, version: nat, capacity: nat) {
    4 + CountBits(version) + 8 * |payload| <= 8 * capacity
  }

  method AppendBits(bits: seq<bool>, value: nat, length: nat) returns (r: seq<bool>)
    ensures r == bits + BitsOf(value, length)
  {
    hide Pow2, BitsOf, Shifted;
    r := bits;
    AllShifted(value, length);
    for i := length downto 0
      invariant r == bits + BitsOf(Shifted(value, i), length - i)
    {
      NextShifted(value, i, length);
      r := r + [Shifted(value, i) % 2 == 1];
    }
  }

  function Shifted(value: nat, i: nat): nat {
    Quotient(value, Pow2(i))
  }

  function Quotient(value: nat, m: nat): (q: nat)
    requires m > 0
    ensures q == value / m
  {
    value / m
  }

  lemma AllShifted(value: nat, length: nat)
    ensures BitsOf(Shifted(value, length), 0) == [] && Shifted(value, 0) == value
  {
  }

  lemma NextShifted(value: nat, i: nat, length: nat)
    requires i < length
    ensures BitsOf(Shifted(value, i), length - i) ==
      BitsOf(Shifted(value, i + 1), length - (i + 1)) + [Shifted(value, i) % 2 == 1]
  {
    hide Pow2;
    HalveQuotient(value, i);
  }

  lemma HalveQuotient(v: nat, i: nat)
    ensures v / Pow2(i + 1) == v / Pow2(i) / 2
  {
    var m := Pow2(i);
    var q := v / m / 2;
    var r := v / m % 2 * m + v % m;
    assert v == m * (v / m) + v % m;
    assert v / m == 2 * q + v / m % 2;
    assert m * (v / m) == (2 * m) * q + v / m % 2 * m by { Expand(m, q, v / m % 2); }
    assert v / m % 2 * m <= m by { if v / m % 2 == 0 { assert 0 * m == 0; } }
    DivModUnique(v, 2 * m, q, r);
  }

  lemma Expand(m: nat, q: nat, b: nat)
    ensures m * (2 * q + b) == (2 * m) * q + b * m
  {
  }

  method PadTo(data: seq<Symbol>, capacity: nat) returns (result: seq<Symbol>)
    ensures result == data + Padding(capacity, |data|)
  {
    result := data;
    while |result| < capacity
      invariant |result| <= capacity || |result| == |data|
      invariant |data| <= |result| && result == data + Padding(|result|, |data|)
    {
      var pad := if (|result| - |data|) % 2 == 0 then Symbol(0xEC) else Symbol(0x11);
      assert Padding(|result| + 1, |data|) == Padding(|result|, |data|) + [pad];
      result := result + [pad];
    }
    assert Padding(|result|, |data|) == Padding(capacity, |data|);
  }

  method BuildDataCodewords(payload: seq<Symbol>, version: nat, capacity: nat) returns (result: seq<Symbol>)
    ensures result == DataCodewords(payload, version, capacity)
  {
    hide Pack, Unpack;
    var bits := AppendBits([], 4, 4);
    bits := AppendBits(bits, |payload|, CountBits(version));
    ghost var header := bits;
    for i := 0 to |payload|
      invariant bits == header + UnpackAll(payload[..i])
    {
      bits := bits + Unpack(payload[i]);
      UnpackConcat(payload[..i], [payload[i]]);
      assert payload[..i + 1] == payload[..i] + [payload[i]];
    }
    assert payload[..|payload|] == payload;
    assert bits == SegmentBits(payload, version);
    bits := bits + Zeros(Min(4, 8 * capacity - |bits|));
    bits := bits + Zeros((-|bits|) % 8);
    assert bits == StreamBits(payload, version, capacity);
    result := PackAll(bits);
    result := PadTo(result, capacity);
  }

  // ---- Parsing ----

  function Prepend(segment: seq<Symbol>, rest: Parsed): Parsed {
    match rest
    case Segments(segments) => Segments([segment] + segments)
    case Invalid(error) => rest
  }

  function PrependAll(out: seq<seq<Symbol>>, rest: Parsed): Parsed {
    match rest
    case Segments(segments) => Segments(out + segments)
    case Invalid(error) => rest
  }

  function ParseBits(bits: seq<bool>, countBits: nat): Parsed {
    if |bits| < 4 then Segments([])
    else
      var mode, rest := ToInt(bits[..4]), bits[4..];
      if mode == 0 then Segments([])
      else if mode == 4 then
        if |rest| < countBits then Invalid(Underflow)
        else
          var n := ToInt(rest[..countBits]);
          var body := rest[countBits..];
          if |body| < 8 * n then Invalid(Underflow)
          else Prepend(PackAll(body[..8 * n]), ParseBits(body[8 * n..], countBits))
      else if mode == 1 || mode == 2 || mode == 7 || mode == 8 then Invalid(OtherMode)
      else Invalid(UnsupportedMode)
  }

  // the symbol with value v
  function SymbolOf(v: nat): Symbol {
    Pack(BitsOf(v, 8))
  }

  method ReadBytes(reader: BitReader, n: nat) returns (ok: bool, segment: seq<Symbol>)
    requires reader.Valid()
    modifies reader
    ensures reader.Valid()
    ensures ok <==> 8 * n <= |old(reader.Rest())|
    ensures ok ==> segment == PackAll(old(reader.Rest())[..8 * n]) && reader.Rest() == old(reader.Rest())[8 * n..]
  {
    hide Pack, ToInt, BitsOf;
    ghost var all := reader.Rest();
    segment := [];
    for i := 0 to n
      invariant reader.Valid() && 8 * i <= |all| && reader.Rest() == all[8 * i..]
      invariant segment == PackAll(all[..8 * i])
    {
      var v;
      ok, v := reader.Read(8);
      if !ok { return; }
      var bits := all[8 * i..][..8];
      BitsOfToInt(bits);
      assert bits == all[8 * i..8 * i + 8];
      PackSnoc(all, i);
      segment := segment + [SymbolOf(v)];
    }
    ok := true;
  }

  lemma {:induction false} PackSnoc(bits: seq<bool>, i: nat)
    requires 8 * i + 8 <= |bits|
    ensures PackAll(bits[..8 * i + 8]) == PackAll(bits[..8 * i]) + [Pack(bits[8 * i..8 * i + 8])]
  {
    hide Pack;
    if i == 0 {
      assert bits[..8][..8] == bits[0..8] && bits[..8][8..] == [];
    } else {
      PackSnoc(bits[8..], i - 1);
      assert bits[..8 * i + 8][8..] == bits[8..][..8 * (i - 1) + 8] && bits[..8 * i][8..] == bits[8..][..8 * (i - 1)];
      assert bits[..8 * i + 8][..8] == bits[..8 * i][..8];
      assert bits[8..][8 * (i - 1)..8 * (i - 1) + 8] == bits[8 * i..8 * i + 8];
    }
  }

  method ParseData(data: seq<Symbol>, version: nat) returns (parsed: Parsed)
    ensures parsed == ParseBits(UnpackAll(data), CountBits(version))
  {
    hide Pack, ToInt, PackAll, UnpackAll, Pow2, PrependAll;
    var reader := new BitReader(data);
    var countBits := CountBits(version);
    var out := [];
    ghost var whole := ParseBits(UnpackAll(data), countBits);
    NonePrepended(whole);
    while reader.remaining >= 4
      invariant reader.Valid() && fresh(reader)
      invariant whole == PrependAll(out, ParseBits(reader.Rest(), countBits))
      decreases reader.remaining
    {
      EndsPrepended(out);
      var _, mode := reader.Read(4);
      if mode == 0 { break; }
      if mode == 1 || mode == 2 || mode == 7 || mode == 8 { return Invalid(OtherMode); }
      if mode != 4 { return Invalid(UnsupportedMode); }
      var ok, n := reader.Read(countBits);
      if !ok { return Invalid(Underflow); }
      var read, segment := ReadBytes(reader, n);
      if !read { return Invalid(Underflow); }
      OnePrepended(out, segment, ParseBits(reader.Rest(), countBits));
      out := out + [segment];
    }
    EndsPrepended(out);
    return Segments(out);
  }

  lemma NonePrepended(rest: Parsed)
    ensures PrependAll([], rest) == rest
  {
    if rest.Segments? { assert [] + rest.segments == rest.segments; }
  }

  lemma EndsPrepended(out: seq<seq<Symbol>>)
    ensures PrependAll(out, Segments([])) == Segments(out)
    ensures forall error :: PrependAll(out, Invalid(error)) == Invalid(error)
  {
    assert out + [] == out;
  }

  lemma OnePrepended(out: seq<seq<Symbol>>, segment: seq<Symbol>, rest: Parsed)
    ensures PrependAll(out, Prepend(segment, rest)) == PrependAll(out + [segment], rest)
  {
    if rest.Segments? { assert out + ([segment] + rest.segments) == (out + [segment]) + rest.segments; }
  }

  // ---- Round trip ----

  // Every payload that fits comes back, alone, out of exactly capacity codewords.
  lemma ByteModeRoundTrip(payload: seq<Symbol>, version: nat, capacity: nat)
    requires Fits(payload, version, capacity) && |payload| < Pow2(CountBits(version))
    ensures |DataCodewords(payload, version, capacity)| == capacity
    ensures ParseBits(UnpackAll(DataCodewords(payload, version, capacity)), CountBits(version)) == Segments([payload])
  {
    hide Pack, PackAll, UnpackAll, BitsOf, ToInt, Pow2, ParseBits;
    var segment, stream := SegmentBits(payload, version), StreamBits(payload, version, capacity);
    var data := PackAll(stream);
    var pad := Padding(capacity, |data|);
    assert |segment| % 8 == 4;
    assert stream == segment + Zeros(4);
    UnpackPackAll(stream);
    UnpackConcat(data, pad);
    assert stream + UnpackAll(pad) == segment + (Zeros(4) + UnpackAll(pad));
    ParseSegment(payload, version, UnpackAll(pad));
  }

  lemma ParseSegment(payload: seq<Symbol>, version: nat, padding: seq<bool>)
    requires |payload| < Pow2(CountBits(version))
    ensures ParseBits(SegmentBits(payload, version) + (Zeros(4) + padding), CountBits(version)) == Segments([payload])
  {
    hide Pack, PackAll, UnpackAll, BitsOf, ToInt, Pow2;
    var cb := CountBits(version);
    var mode, count, body, tail := BitsOf(4, 4), BitsOf(|payload|, cb), UnpackAll(payload), Zeros(4) + padding;
    var bits := SegmentBits(payload, version) + tail;
    ModeBits();
    ToIntBitsOf(|payload|, cb);
    assert bits[..4] == mode;
    var rest := bits[4..];
    assert rest[..cb] == count;
    assert rest[cb..] == body + tail;
    assert (body + tail)[..8 * |payload|] == body + [];
    assert (body + tail)[8 * |payload|..] == tail;
    PackUnpackAll(payload, []);
    assert tail[..4] == Zeros(4);
    assert ParseBits(tail, cb) == Segments([]);
  }

  lemma ModeBits()
    ensures ToInt(BitsOf(4, 4)) == 4 && ToInt(Zeros(4)) == 0
  {
    assert Pow2(4) == 16;
    ToIntBitsOf(4, 4);
    assert Zeros(4) == BitsOf(0, 4);
    ToIntBitsOf(0, 4);
  }

  // ---- The stream, bit by bit ----

  const BYTE_MODE: seq<bool> := [false, true, false, false]
  const END: seq<bool> := [false, false, false, false]

  // pads alternate, beginning with 236
  ghost predicate Pads(pads: seq<Symbol>) {
    forall k | 0 <= k < |pads| :: pads[k] == if k % 2 == 0 then Symbol(236) else Symbol(17)
  }

  lemma FirstDigits(v: nat)
    ensures BitsOf(v, 4) == [v / 8 % 2 == 1, v / 4 % 2 == 1, v / 2 % 2 == 1, v % 2 == 1]
  {
    assert BitsOf(v / 8, 1) == [v / 8 % 2 == 1];
    assert v / 2 / 2 == v / 4 && v / 4 / 2 == v / 8;
    assert BitsOf(v / 4, 2) == BitsOf(v / 8, 1) + [v / 4 % 2 == 1];
    assert BitsOf(v / 2, 3) == BitsOf(v / 4, 2) + [v / 2 % 2 == 1];
  }

  // how many codewords come before the pads
  function Filled(payload: seq<Symbol>, version: nat): nat {
    |payload| + if version <= 9 then 2 else 3
  }

  lemma StreamLayout(payload: seq<Symbol>, version: nat, capacity: nat)
    requires Fits(payload, version, capacity)
    ensures StreamBits(payload, version, capacity) ==
      BYTE_MODE + BitsOf(|payload|, if version <= 9 then 8 else 16) + UnpackAll(payload) + END
    ensures |StreamBits(payload, version, capacity)| == 8 * Filled(payload, version)
  {
    hide UnpackAll, BitsOf;
    FirstDigits(4);
    var segment := SegmentBits(payload, version);
    var k: int := Filled(payload, version);
    assert |segment| + 4 == 8 * k;
    DivModUnique(-8 * k, 8, -k, 0);
    assert capacity >= k;
    var ended := segment + Zeros(4);
    assert (-|ended|) % 8 == 0 && StreamBits(payload, version, capacity) == ended + Zeros(0);
    assert Zeros(4) == END && ended + Zeros(0) == ended;
  }

  /** The codewords of a payload that fits: the mode 0100, a count of eight bits up to version nine and of sixteen from
      then on, the payload, 0000, and pads. */
  lemma CodewordLayout(payload: seq<Symbol>, version: nat, capacity: nat)
    requires Fits(payload, version, capacity)
    ensures var data, n := DataCodewords(payload, version, capacity), Filled(payload, version);
      && n <= |data| == capacity && Pads(data[n..])
      && UnpackAll(data[..n]) ==
           BYTE_MODE + BitsOf(|payload|, if version <= 9 then 8 else 16) + UnpackAll(payload) + END
  {
    hide PackAll, UnpackAll, BitsOf, StreamBits;
    StreamLayout(payload, version, capacity);
    var stream := StreamBits(payload, version, capacity);
    UnpackPackAll(stream);
    var data, pads := PackAll(stream), Padding(capacity, |PackAll(stream)|);
    assert (data + pads)[..|data|] == data && (data + pads)[|data|..] == pads;
  }

  lemma ModeRead(m: nat)
    requires m < 16
    ensures ToInt(BitsOf(m, 4)) == m
  {
    assert Pow2(4) == 16;
    ToIntBitsOf(m, 4);
  }

  /** What follows a mode: zero ends the stream, numeric, alphanumeric, ECI and Kanji segments are other modes, a count
      may be cut short, and no other mode exists. */
  lemma ModesRead(m: nat, rest: seq<bool>, countBits: nat)
    requires m < 16
    ensures var r := ParseBits(BitsOf(m, 4) + rest, countBits);
      && (m == 0 ==> r == Segments([]))
      && (m in [1, 2, 7, 8] ==> r == Invalid(OtherMode))
      && (m in [3, 5, 6] || m >= 9 ==> r == Invalid(UnsupportedMode))
      && (m == 4 && |rest| < countBits ==> r == Invalid(Underflow))
  {
    hide ToInt, BitsOf;
    ModeRead(m);
    var bits := BitsOf(m, 4) + rest;
    assert bits[..4] == BitsOf(m, 4) && bits[4..] == rest;
  }

  lemma PayloadRead(n: nat, countBits: nat, rest: seq<bool>)
    requires n < Pow2(countBits)
    ensures ParseBits(BYTE_MODE + BitsOf(n, countBits) + rest, countBits) ==
      if |rest| < 8 * n then Invalid(Underflow)
      else Prepend(PackAll(rest[..8 * n]), ParseBits(rest[8 * n..], countBits))
  {
    hide ToInt, BitsOf, Pow2, PackAll, Prepend, ParseBits;
    FirstDigits(4);
    ModeRead(4);
    ToIntBitsOf(n, countBits);
    var bits := BYTE_MODE + BitsOf(n, countBits) + rest;
    assert bits[..4] == BYTE_MODE && bits[4..][..countBits] == BitsOf(n, countBits) && bits[4..][countBits..] == rest;
    ParsePayload(bits, countBits);
  }

  lemma ParsePayload(bits: seq<bool>, countBits: nat)
    requires |bits| >= 4 + countBits && ToInt(bits[..4]) == 4
    ensures var n, body := ToInt(bits[4..][..countBits]), bits[4..][countBits..];
      ParseBits(bits, countBits) ==
        if |body| < 8 * n then Invalid(Underflow)
        else Prepend(PackAll(body[..8 * n]), ParseBits(body[8 * n..], countBits))
  {
    hide ToInt, PackAll, Prepend;
  }

  // segments one after the other
  function EncodeSegments(payloads: seq<seq<Symbol>>, countBits: nat): seq<bool> {
    if payloads == [] then []
    else
      BYTE_MODE + BitsOf(|payloads[0]|, countBits) + (UnpackAll(payloads[0]) + EncodeSegments(payloads[1..], countBits))
  }

  lemma TailRead(tail: seq<bool>, countBits: nat)
    requires |tail| < 4 || tail[..4] == END
    ensures ParseBits(tail, countBits) == Segments([])
  {
    hide ToInt, BitsOf;
    if |tail| >= 4 {
      FirstDigits(0);
      ModesRead(0, tail[4..], countBits);
      assert tail == BitsOf(0, 4) + tail[4..];
    }
  }

  /** Any number of segments is read, in order, up to the end mark or to fewer than four bits. */
  lemma {:induction false} SegmentsRead(payloads: seq<seq<Symbol>>, countBits: nat, tail: seq<bool>)
    requires forall i | 0 <= i < |payloads| :: |payloads[i]| < Pow2(countBits)
    requires |tail| < 4 || tail[..4] == END
    ensures ParseBits(EncodeSegments(payloads, countBits) + tail, countBits) == Segments(payloads)
    decreases |payloads|
  {
    hide ToInt, BitsOf, Pow2, PackAll, UnpackAll, ParseBits;
    if payloads == [] {
      assert [] + tail == tail;
      TailRead(tail, countBits);
    } else {
      var n, body := |payloads[0]|, UnpackAll(payloads[0]);
      var later := EncodeSegments(payloads[1..], countBits) + tail;
      PayloadRead(n, countBits, body + later);
      assert EncodeSegments(payloads, countBits) + tail == BYTE_MODE + BitsOf(n, countBits) + (body + later);
      assert (body + later)[..8 * n] == body + [] && (body + later)[8 * n..] == later;
      PackUnpackAll(payloads[0], []);
      SegmentsRead(payloads[1..], countBits, tail);
      assert [payloads[0]] + payloads[1..] == payloads;
    }
  }
}

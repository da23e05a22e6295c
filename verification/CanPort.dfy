/** The host's CAN port: its receive buffer with the carried-over bytes, and the send buffer of the packer. */
module CanPort {

  import opened CanFrames
  import opened CanStream

  const RECV_SIZE := 0x4000
  const SOFT_LIMIT := 0x100

  // size - sizeof(can_header) in 64-bit unsigned arithmetic
  function LastStart(size: nat): nat {
    if size >= HEADER_SIZE then size - HEADER_SIZE else 0x1_0000_0000_0000_0000 + size - HEADER_SIZE
  }

  method CalculateChecksum(data: seq<bv8>) returns (checksum: bv8)
    ensures checksum == Xor(data)
  {
    checksum := 0;
    for i := 0 to |data|
      invariant checksum == Xor(data[..i])
    {
      assert data[..i + 1][..i] == data[..i];
      checksum := checksum ^ data[i];
    }
    assert data[..|data|] == data;
  }

  lemma {:induction false} RestIsIncomplete(bytes: seq<bv8>)
    ensures var rest := Parse(bytes).rest; Parse(rest) == Parsed([], rest, true)
  {
    hide Decode, Xor, CodeOf, LengthOf;
    if |bytes| >= HEADER_SIZE && |bytes| >= FrameSize(bytes) && Xor(bytes[..FrameSize(bytes)]) == 0 {
      RestIsIncomplete(bytes[FrameSize(bytes)..]);
    }
  }

  // memmove to the front
  method MoveDown(data: array<bv8>, pos: nat, size: nat)
    requires pos + size <= data.Length
    modifies data
    ensures data[..size] == old(data[..])[pos..pos + size]
  {
    for i := 0 to size
      invariant forall k | 0 <= k < i :: data[k] == old(data[pos + k])
      invariant forall k | pos + i <= k < data.Length :: data[k] == old(data[k])
    {
      data[i] := data[pos + i];
    }
  }

  lemma SliceOfPrefix(s: seq<bv8>, size: nat, from: nat, to: nat)
    requires from <= to <= size <= |s|
    ensures s[..size][from..to] == s[from..to]
  {
  }

  // what is parsed after the frame at pos
  lemma ParseAt(bytes: seq<bv8>, pos: nat, header: seq<bv8>)
    requires pos + HEADER_SIZE <= |bytes| && header == bytes[pos..pos + HEADER_SIZE]
    requires pos + FrameSize(header) <= |bytes|
    ensures var (frame, here) := (bytes[pos..pos + FrameSize(header)], Parse(bytes[pos..]));
      if Xor(frame) != 0 then here == Parsed([], [], false)
      else var later := Parse(bytes[pos + FrameSize(header)..]);
        here == later.(frames := [Decode(frame)] + later.frames)
  {
    hide Decode, Xor, CodeOf, LengthOf;
    var n := FrameSize(header);
    assert bytes[pos..][..HEADER_SIZE] == header;
    CodeOfPrefix(bytes[pos..], header);
    assert bytes[pos..][..n] == bytes[pos..pos + n] && bytes[pos..][n..] == bytes[pos + n..];
  }

  // Takes the complete frames out of the first size bytes and moves what is left to the front.
  method Unpack(data: array<bv8>, size0: nat, out0: seq<Received>) returns (ok: bool, size: nat, out: seq<Received>)
    requires HEADER_SIZE <= data.Length && size0 <= data.Length
    modifies data
    ensures var p := Parse(old(data[..size0]));
      ok == p.ok && out == out0 + p.frames && size == |p.rest| <= size0 && data[..size] == p.rest
  {
    hide Decode, Xor, CodeOf, LengthOf, Parse;
    var buffer := data[..];
    ghost var bytes := buffer[..size0];
    assert data[..size0] == bytes;
    var pos := 0;
    out := out0;
    assert bytes[0..] == bytes;
    while pos <= LastStart(size0)
      invariant pos <= size0 && (size0 < HEADER_SIZE ==> pos == 0) && data[..] == buffer
      invariant var later := Parse(bytes[pos..]); out0 + Parse(bytes).frames == out + later.frames
      invariant Parse(bytes[pos..]).rest == Parse(bytes).rest && Parse(bytes[pos..]).ok == Parse(bytes).ok
      decreases size0 - pos
    {
      // may read bytes beyond size when fewer than a header are left
      var header := buffer[pos..pos + HEADER_SIZE];
      var n := FrameSize(header);
      if pos + n > size0 { break; }
      var frame := buffer[pos..pos + n];
      SliceOfPrefix(buffer, size0, pos, pos + HEADER_SIZE);
      SliceOfPrefix(buffer, size0, pos, pos + n);
      ParseAt(bytes, pos, header);
      var checksum := CalculateChecksum(frame);
      if checksum != 0 {
        return false, 0, out;
      }
      out := out + [Decode(frame)];
      pos := pos + n;
    }
    StoppedParse(bytes, pos, buffer);
    size := size0 - pos;
    MoveDown(data, pos, size);
    assert data[..size] == bytes[pos..];
    ok := true;
  }

  lemma CodeOfPrefix(a: seq<bv8>, h: seq<bv8>)
    requires |a| >= HEADER_SIZE && |h| == HEADER_SIZE && h <= a
    ensures CodeOf(a) == CodeOf(h)
  {
  }

  lemma HeaderAt(buffer: seq<bv8>, size: nat, pos: nat)
    requires pos + HEADER_SIZE <= size <= |buffer|
    ensures buffer[..size][pos..][..HEADER_SIZE] == buffer[pos..pos + HEADER_SIZE]
  {
    var bytes := buffer[..size];
    forall k | 0 <= k < HEADER_SIZE ensures bytes[pos..][k] == buffer[pos + k] {
      assert bytes[pos..][k] == bytes[pos + k];
    }
  }

  // Where the loop stops, no complete frame is left.
  lemma StoppedParse(bytes: seq<bv8>, pos: nat, buffer: seq<bv8>)
    requires pos <= |bytes| <= |buffer| && HEADER_SIZE <= |buffer| && buffer[..|bytes|] == bytes
    requires (|bytes| < HEADER_SIZE ==> pos == 0)
    requires pos > LastStart(|bytes|) || pos + FrameSize(buffer[pos..pos + HEADER_SIZE]) > |bytes|
    ensures Parse(bytes[pos..]) == Parsed([], bytes[pos..], true)
  {
    hide Decode, Xor, CodeOf, LengthOf;
    if |bytes| - pos >= HEADER_SIZE {
      HeaderAt(buffer, |bytes|, pos);
      CodeOfPrefix(bytes[pos..], buffer[pos..pos + HEADER_SIZE]);
    }
  }

  function Concat(chunks: seq<seq<bv8>>): seq<bv8> {
    if chunks == [] then [] else Concat(chunks[..|chunks| - 1]) + chunks[|chunks| - 1]
  }

  class Port {
    const receiveBuffer: array<bv8>
    var receiveBufferSize: nat

    ghost predicate Valid()
      reads this, receiveBuffer
    {
      && receiveBuffer.Length == RECV_SIZE + HEADER_SIZE + 64 && receiveBufferSize < HEADER_SIZE + 64
      && Parse(Pending()) == Parsed([], Pending(), true)
    }

    // bytes carried over to the next read
    ghost function Pending(): seq<bv8>
      requires receiveBufferSize <= receiveBuffer.Length
      reads this, receiveBuffer
    {
      receiveBuffer[..receiveBufferSize]
    }

    constructor ()
      ensures Valid() && Pending() == [] && fresh(receiveBuffer)
    {
      receiveBuffer := new bv8[RECV_SIZE + HEADER_SIZE + 64](_ => 0);
      receiveBufferSize := 0;
    }

    // One read of at most 16 KiB; there is always room for it.
    method CanReceive(chunk: seq<bv8>, healthy: bool, out0: seq<Received>) returns (ok: bool, out: seq<Received>)
      requires Valid() && |chunk| <= 0x4000
      modifies this, receiveBuffer
      ensures Valid()
      ensures !healthy ==> !ok && out == out0 && Pending() == old(Pending())
      ensures healthy ==> var p := Parse(old(Pending()) + chunk);
        ok == p.ok && out == out0 + p.frames && Pending() == p.rest
    {
      hide Parse;
      assert receiveBufferSize + RECV_SIZE <= receiveBuffer.Length;
      ghost var before := Pending();
      for i := 0 to |chunk|
        invariant receiveBufferSize == |before| && receiveBuffer[..receiveBufferSize] == before
        invariant receiveBuffer[receiveBufferSize..receiveBufferSize + i] == chunk[..i]
      {
        receiveBuffer[receiveBufferSize + i] := chunk[i];
      }
      if !healthy { return false, out0; }
      if chunk == [] {
        assert before + chunk == before;
        return true, out0;
      }
      receiveBufferSize := receiveBufferSize + |chunk|;
      assert receiveBuffer[..receiveBufferSize] == before + chunk;
      RestIsIncomplete(before + chunk);
      ok, receiveBufferSize, out := Unpack(receiveBuffer, receiveBufferSize, out0);
    }

    // However the bytes are cut into reads, the same frames come out, and the last incomplete one is kept.
    method ReceiveAll(chunks: seq<seq<bv8>>) returns (ok: bool, out: seq<Received>)
      requires Valid() && forall c | c in chunks :: |c| <= 0x4000
      modifies this, receiveBuffer
      ensures Valid()
      ensures var p := Parse(old(Pending()) + Concat(chunks));
        ok == p.ok && out == p.frames && (ok ==> Pending() == p.rest)
    {
      hide Parse;
      out := [];
      ok := true;
      ghost var before := Pending();
      assert before + Concat(chunks[..0]) == before;
      for i := 0 to |chunks|
        invariant Valid()
        invariant Parse(before + Concat(chunks[..i])) == Parsed(out, Pending(), true)
      {
        assert chunks[..i + 1][..i] == chunks[..i];
        var sofar := before + Concat(chunks[..i]);
        assert before + Concat(chunks[..i + 1]) == sofar + chunks[i];
        ParseContinues(sofar, chunks[i]);
        ok, out := CanReceive(chunks[i], true, out);
        if !ok {
          FailedEarly(before, chunks, i + 1);
          return false, out;
        }
      }
      assert chunks[..|chunks|] == chunks;
    }
  }

  lemma FailedEarly(before: seq<bv8>, chunks: seq<seq<bv8>>, n: nat)
    requires n <= |chunks| && !Parse(before + Concat(chunks[..n])).ok
    ensures Parse(before + Concat(chunks)) == Parse(before + Concat(chunks[..n]))
  {
    hide Parse;
    ConcatPrefix(chunks, n);
    var rest :| Concat(chunks) == Concat(chunks[..n]) + rest;
    ParseFails(before + Concat(chunks[..n]), rest);
    assert before + Concat(chunks) == before + Concat(chunks[..n]) + rest;
  }

  lemma {:induction false} ConcatPrefix(chunks: seq<seq<bv8>>, n: nat)
    requires n <= |chunks|
    ensures exists rest :: Concat(chunks) == Concat(chunks[..n]) + rest
  {
    var k := |chunks| - 1;
    if n == |chunks| {
      assert chunks[..n] == chunks;
      assert Concat(chunks) == Concat(chunks[..n]) + [];
    } else {
      ConcatPrefix(chunks[..k], n);
      assert chunks[..k][..n] == chunks[..n];
      var rest :| Concat(chunks[..k]) == Concat(chunks[..n]) + rest;
      assert Concat(chunks) == Concat(chunks[..n]) + (rest + chunks[k]);
    }
  }

  // ---- Packing ----

  method PutBytes(buffer: array<bv8>, pos: nat, bytes: seq<bv8>)
    requires pos + |bytes| <= buffer.Length
    modifies buffer
    ensures buffer[..pos + |bytes|] == old(buffer[..pos]) + bytes
  {
    for i := 0 to |bytes|
      invariant buffer[..pos + i] == old(buffer[..pos]) + bytes[..i]
    {
      buffer[pos + i] := bytes[i];
    }
  }

  method PutFrame(buffer: array<bv8>, pos: nat, f: Outgoing) returns (next: nat)
    requires Sendable(f) && pos + HEADER_SIZE + 64 <= buffer.Length
    modifies buffer
    ensures next == pos + |Wire(f)| <= pos + HEADER_SIZE + 64 && buffer[..next] == old(buffer[..pos]) + Wire(f)
  {
    hide FlagWord, Xor, Header, LenToDlc, Wire, WordOf, CodeOf, Sendable;
    WireIs(f);
    var header := Header(f.bus, LenToDlc(|f.data|) as bv8, FlagWord(false, false, f.address >= 0x800, f.address));
    PutBytes(buffer, pos, header);
    PutBytes(buffer, pos + HEADER_SIZE, f.data);
    next := pos + HEADER_SIZE + |f.data|;
    ghost var before, plain := old(buffer[..pos]), header + f.data;
    assert buffer[..next] == before + plain;
    assert buffer[pos..next] == plain;
    var checksum := CalculateChecksum(buffer[pos..next]);
    buffer[pos + 5] := checksum;
    assert buffer[..next] == before + plain[5 := checksum];
  }

  lemma WireIs(f: Outgoing)
    requires Sendable(f)
    ensures LenToDlc(|f.data|) < 16 && |f.data| <= 64
    ensures var plain :=
        Header(f.bus, LenToDlc(|f.data|) as bv8, FlagWord(false, false, f.address >= 0x800, f.address)) + f.data;
      Wire(f) == plain[5 := Xor(plain)]
  {
    hide FlagWord, Xor, Header;
  }

  lemma {:induction false} WireAllConcat(a: seq<Outgoing>, b: seq<Outgoing>)
    requires forall f | f in a + b :: Sendable(f)
    ensures (forall f | f in a :: Sendable(f)) && (forall f | f in b :: Sendable(f))
    ensures WireAll(a + b) == WireAll(a) + WireAll(b)
  {
    hide Wire, Sendable;
    assert (forall f | f in a :: f in a + b) && forall f | f in b :: f in a + b;
    if a == [] {
      assert a + b == b;
    } else {
      assert (a + b)[1..] == a[1..] + b;
      WireAllConcat(a[1..], b);
    }
  }

  lemma WireOne(f: Outgoing)
    requires Sendable(f)
    ensures WireAll([f]) == Wire(f)
  {
    assert [f][1..] == [];
  }

  // a write is the bytes of whole frames, and went out as soon as there were at least 256 of them
  ghost predicate WholeFrames(write: seq<bv8>) {
    exists group: seq<Outgoing> :: IsGroup(group) && write == WireAll(group)
  }

  ghost predicate IsGroup(group: seq<Outgoing>) {
    && group != [] && (forall f | f in group :: Sendable(f))
    && |WireAll(group[..|group| - 1])| < 0x100
  }

  lemma GrowGroup(sent: seq<Outgoing>, group: seq<Outgoing>, f: Outgoing, frames: seq<Outgoing>, i: nat)
    requires i < |frames| && f == frames[i] && sent + group == Mine(frames[..i])
    requires (forall g | g in sent + group :: Sendable(g))
    requires f.bus < BUS_LIMIT ==> Sendable(f)
    ensures f.bus >= BUS_LIMIT ==> sent + group == Mine(frames[..i + 1])
    ensures f.bus < BUS_LIMIT ==> sent + (group + [f]) == Mine(frames[..i + 1])
    ensures f.bus < BUS_LIMIT ==> (forall g | g in group + [f] :: Sendable(g)) && (forall g | g in group :: Sendable(g))
    ensures f.bus < BUS_LIMIT ==> WireAll(group + [f]) == WireAll(group) + Wire(f)
    ensures f.bus < BUS_LIMIT && |WireAll(group)| < 0x100 ==> IsGroup(group + [f])
  {
    hide Wire, Sendable, WireAll, Mine;
    assert (group + [f])[..|group|] == group;
    assert frames[..i + 1] == frames[..i] + [f];
    MineConcat(frames[..i], [f]);
    MineOne(f);
    assert sent + (group + [f]) == sent + group + [f];
    if f.bus < BUS_LIMIT {
      SendableMore(sent, group, f);
      WireAllConcat(group, [f]);
      WireOne(f);
    }
  }

  lemma SendableMore(sent: seq<Outgoing>, group: seq<Outgoing>, f: Outgoing)
    requires (forall g | g in sent + group :: Sendable(g)) && Sendable(f)
    ensures (forall g | g in group + [f] :: Sendable(g)) && (forall g | g in group :: Sendable(g))
  {
    hide Sendable;
    forall g | g in group ensures Sendable(g) {
      assert g in sent + group;
    }
  }

  lemma FlushGroup(writes: seq<seq<bv8>>, sent: seq<Outgoing>, group: seq<Outgoing>)
    requires IsGroup(group) && (forall g | g in sent :: Sendable(g)) && (forall g | g in group :: Sendable(g))
    requires Concat(writes) == WireAll(sent)
    ensures (forall g | g in sent + group :: Sendable(g)) && WholeFrames(WireAll(group))
    ensures Concat(writes + [WireAll(group)]) == WireAll(sent + group)
  {
    hide Sendable, WireAll;
    assert forall g | g in sent + group :: Sendable(g);
    WireAllConcat(sent, group);
    assert (writes + [WireAll(group)])[..|writes|] == writes;
  }

  // The writes hold this panda's frames in order, whole, and each fits the 512-byte buffer; all but the last hold at
  // least 256 bytes, and none was held back longer than that.
  method Pack(frames: seq<Outgoing>) returns (writes: seq<seq<bv8>>)
    requires forall f | f in frames && f.bus < 4 :: Sendable(f)
    ensures Concat(writes) == WireAll(Mine(frames))
    ensures forall w | w in writes :: |w| < 0x100 + 6 + 64 <= 0x200 && WholeFrames(w)
    ensures forall k | 0 <= k < |writes| - 1 :: |writes[k]| >= 0x100
  {
    hide Wire, Sendable, WireAll, Mine, WholeFrames, IsGroup;
    var buffer := new bv8[2 * SOFT_LIMIT](_ => 0);
    var pos := 0;
    writes := [];
    ghost var sent: seq<Outgoing>, group: seq<Outgoing> := [], [];
    NothingSent(frames);
    for i := 0 to |frames|
      invariant 0 <= pos < SOFT_LIMIT && (pos == 0 <==> group == [])
      invariant sent + group == Mine(frames[..i]) && (forall f | f in sent :: Sendable(f))
      invariant (forall f | f in group :: Sendable(f))
      invariant Concat(writes) == WireAll(sent) && buffer[..pos] == WireAll(group)
      invariant forall w | w in writes :: 0x100 <= |w| < SOFT_LIMIT + HEADER_SIZE + 64 && WholeFrames(w)
      invariant group != [] ==> IsGroup(group)
    {
      var f := frames[i];
      GrowGroup(sent, group, f, frames, i);
      if f.bus >= BUS_LIMIT { continue; }
      pos := PutFrame(buffer, pos, f);
      group := group + [f];
      if pos >= SOFT_LIMIT {
        FlushGroup(writes, sent, group);
        writes := writes + [buffer[..pos]];
        sent, group, pos := sent + group, [], 0;
      }
    }
    assert frames[..|frames|] == frames;
    if pos > 0 {
      FlushGroup(writes, sent, group);
      writes := writes + [buffer[..pos]];
    } else {
      assert Mine(frames) == sent;
    }
  }

  lemma NothingSent(frames: seq<Outgoing>)
    ensures Mine(frames[..0]) == [] && WireAll([]) == []
  {
  }

  // Packed frames, cut into reads at any places, are all received, once and in order.
  method SendAndReceive(port: Port, frames: seq<Outgoing>, chunks: seq<seq<bv8>>) returns (ok: bool, out: seq<Received>)
    requires port.Valid() && port.Pending() == []
    requires forall f | f in frames && f.bus < 4 :: Sendable(f) && Fits29(f.address)
    requires Concat(chunks) == WireAll(Mine(frames)) && forall c | c in chunks :: |c| <= 0x4000
    modifies port, port.receiveBuffer
    ensures ok && out == SeenAll(Mine(frames)) && port.Valid() && port.Pending() == []
  {
    hide Parse, Sendable;
    ParseWireAll(Mine(frames));
    assert [] + Concat(chunks) == Concat(chunks);
    ok, out := port.ReceiveAll(chunks);
  }
}

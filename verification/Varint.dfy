/** Variable-length integers: seven bits a byte, the lowest first, the top bit set on all but the last. */
module Varint {

  import opened Arithmetic

  const MAX_BYTES := 10

  datatype Read = Got(value: nat, next: nat) | Truncated | TooLong

  function ReadFrom(data: seq<Byte>, offset: nat, left: nat): Read
    decreases left
  {
    if left == 0 then TooLong
    else if offset >= |data| then Truncated
    else if data[offset] < 128 then Got(data[offset], offset + 1)
    else
      match ReadFrom(data, offset + 1, left - 1)
      case Got(value, next) => Got(data[offset] - 128 + 128 * value, next)
      case failure => failure
  }

  function Lifted(value: nat, scale: nat, r: Read): Read {
    match r
    case Got(rest, next) => Got(value + scale * rest, next)
    case failure => failure
  }

  lemma PowerStep(shift: nat)
    ensures Pow2(shift + 7) == 128 * Pow2(shift)
  {
    assert Pow2(shift + 2) == 4 * Pow2(shift);
    assert Pow2(shift + 4) == 4 * Pow2(shift + 2);
    assert Pow2(shift + 6) == 4 * Pow2(shift + 4);
  }

  // a byte's seven bits go in above those already there
  function Added(value: nat, byte: Byte, shift: nat): nat {
    value + (byte % 128) * Pow2(shift)
  }

  lemma AddedFits(value: nat, byte: Byte, shift: nat)
    requires value < Pow2(shift)
    ensures Added(value, byte, shift) < Pow2(shift + 7)
  {
    hide Pow2;
    PowerStep(shift);
    DigitFits(byte % 128, Pow2(shift));
  }

  lemma DigitFits(digit: nat, scale: nat)
    requires digit < 128
    ensures digit * scale <= 127 * scale
  {
    assert (127 - digit) * scale >= 0;
  }

  // what one more byte makes of a reading that has come this far
  lemma Step(data: seq<Byte>, value: nat, shift: nat, offset: nat, left: nat)
    requires left > 0
    ensures var r := Lifted(value, Pow2(shift), ReadFrom(data, offset, left));
      r == if offset >= |data| then Truncated
           else if data[offset] < 128 then Got(Added(value, data[offset], shift), offset + 1)
           else Lifted(Added(value, data[offset], shift), Pow2(shift + 7), ReadFrom(data, offset + 1, left - 1))
  {
    hide Pow2;
    PowerStep(shift);
    if offset < |data| {
      var byte := data[offset];
      if byte < 128 {
        assert Added(value, byte, shift) == value + Pow2(shift) * byte;
      } else {
        var rest := ReadFrom(data, offset + 1, left - 1);
        if rest.Got? {
          LiftedMore(value, byte - 128, Pow2(shift), rest.value);
          assert byte % 128 == byte - 128;
        }
      }
    }
  }

  lemma LiftedMore(value: nat, digit: nat, scale: nat, rest: nat)
    ensures value + scale * (digit + 128 * rest) == (value + digit * scale) + (128 * scale) * rest
  {
    Rearranged(scale, digit, rest);
  }

  lemma Rearranged(scale: nat, digit: nat, rest: nat)
    ensures scale * (digit + 128 * rest) == digit * scale + (128 * scale) * rest
  {
  }

  lemma Begin(r: Read)
    ensures Lifted(0, Pow2(0), r) == r && Pow2(0) == 1
  {
  }

  lemma End(value: nat, scale: nat, data: seq<Byte>, offset: nat)
    ensures Lifted(value, scale, ReadFrom(data, offset, 0)) == TooLong
  {
  }

  /** One integer, least significant seven bits first; more than ten bytes are refused. */
  method ReadVarint(data: seq<Byte>, start: nat) returns (r: Read)
    ensures r == ReadFrom(data, start, 10)
  {
    hide Pow2, Lifted, ReadFrom, Added;
    var value: nat, offset: nat, shift: nat := 0, start, 0;
    Begin(ReadFrom(data, start, MAX_BYTES));
    for i := 0 to MAX_BYTES
      invariant shift == 7 * i && value < Pow2(shift)
      invariant ReadFrom(data, start, MAX_BYTES) == Lifted(value, Pow2(shift), ReadFrom(data, offset, MAX_BYTES - i))
    {
      Step(data, value, shift, offset, MAX_BYTES - i);
      if offset >= |data| {
        return Truncated;
      }
      var byte := data[offset];
      AddedFits(value, byte, shift);
      offset := offset + 1;
      value := Added(value, byte, shift);
      if byte < 128 {
        return Got(value, offset);
      }
      shift := shift + 7;
    }
    End(value, Pow2(shift), data, offset);
    return TooLong;
  }

  // ---- Writing ----

  function Encode(v: nat): (bytes: seq<Byte>)
    ensures |bytes| > 0
  {
    if v < 128 then [v] else [v % 128 + 128] + Encode(v / 128)
  }

  // what fits in the given number of bytes
  predicate Fits(v: nat, bytes: nat) {
    bytes > 0 && (v < 128 || Fits(v / 128, bytes - 1))
  }

  /** A written integer reads back, and reading stops where it ends. */
  lemma {:induction false} ReadsBack(pre: seq<Byte>, v: nat, post: seq<Byte>, left: nat)
    requires Fits(v, left)
    ensures ReadFrom(pre + Encode(v) + post, |pre|, left) == Got(v, |pre| + |Encode(v)|)
    decreases v
  {
    var data := pre + Encode(v) + post;
    if v < 128 {
      assert data[|pre|] == v;
    } else {
      var byte: Byte := v % 128 + 128;
      var rest := Encode(v / 128);
      assert Encode(v) == [byte] + rest;
      assert data == (pre + [byte]) + rest + post;
      ReadsBack(pre + [byte], v / 128, post, left - 1);
      hide Encode;
      assert ReadFrom(data, |pre| + 1, left - 1) == Got(v / 128, |pre| + 1 + |rest|);
      assert data[|pre|] == byte;
    }
  }

  // n bytes stand at an offset and all announce another
  ghost predicate AllContinue(data: seq<Byte>, offset: nat, n: nat) {
    forall i | offset <= i < offset + n :: i < |data| && data[i] >= 128
  }

  /** Reading fails on ten bytes that all announce another, or where the data ends before one that does not. */
  lemma {:induction false} Refusals(data: seq<Byte>, offset: nat, left: nat)
    ensures ReadFrom(data, offset, left).TooLong? <==> AllContinue(data, offset, left)
    ensures ReadFrom(data, offset, left).Truncated? <==>
      if offset >= |data| then left > 0 else offset + left > |data| && AllContinue(data, offset, |data| - offset)
    decreases left
  {
    if left > 0 {
      Refusals(data, offset + 1, left - 1);
      assert AllContinue(data, offset, left) <==>
        offset < |data| && data[offset] >= 128 && AllContinue(data, offset + 1, left - 1);
    }
  }

  /** Some numbers and their bytes. */
  lemma KnownNumbers()
    ensures Encode(0) == [0] && Encode(127) == [127] && Encode(128) == [0x80, 1] && Encode(300) == [0xAC, 2]
    ensures ReadFrom([0xAC, 2], 0, 10) == Got(300, 2) && ReadFrom([0x80, 0x80, 1], 0, 10) == Got(16384, 3)
  {
    assert Encode(2) == [2] && Encode(1) == [1];
  }

  /** What was read stays what is read when more bytes follow. */
  lemma {:induction false} MoreFollows(data: seq<Byte>, more: seq<Byte>, offset: nat, left: nat)
    requires ReadFrom(data, offset, left).Got?
    ensures ReadFrom(data + more, offset, left) == ReadFrom(data, offset, left)
    ensures ReadFrom(data, offset, left).next <= |data|
    decreases left
  {
    if data[offset] >= 128 {
      MoreFollows(data, more, offset + 1, left - 1);
    }
  }

  /** A number can be written in so many bytes exactly if it has at most seven bits for each. */
  lemma {:induction false} FitsIff(v: nat, bytes: nat)
    ensures Fits(v, bytes) <==> bytes > 0 && v < Pow2(7 * bytes)
    decreases bytes
  {
    hide Pow2;
    if bytes > 0 {
      PowerStep(7 * (bytes - 1));
      assert Pow2(0) == 1 by { Begin(Truncated); }
      if v >= 128 {
        FitsIff(v / 128, bytes - 1);
        if bytes > 1 { HundredTwentyEighth(v, Pow2(7 * (bytes - 1))); }
      }
    }
  }

  lemma HundredTwentyEighth(v: nat, n: nat)
    ensures v / 128 < n <==> v < 128 * n
  {
  }
}

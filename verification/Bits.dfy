/** Bit strings, most significant bit first, and the reader that takes integers off their front. */
module Bits {

  import opened Arithmetic
  import opened Field

  function Bit(b: bool): nat { if b then 1 else 0 }

  // the low n binary digits of v
  function BitsOf(v: nat, n: nat): (bits: seq<bool>)
    ensures |bits| == n
  {
    if n == 0 then [] else BitsOf(v / 2, n - 1) + [v % 2 == 1]
  }

  function ToInt(bits: seq<bool>): nat {
    if bits == [] then 0 else 2 * ToInt(bits[..|bits| - 1]) + Bit(bits[|bits| - 1])
  }

  // the eight bits of a symbol, and back
  function Unpack(s: Symbol): (bits: seq<bool>)
    ensures |bits| == 8
  {
    [s.bits & 0x80 != 0, s.bits & 0x40 != 0, s.bits & 0x20 != 0, s.bits & 0x10 != 0,
     s.bits & 0x08 != 0, s.bits & 0x04 != 0, s.bits & 0x02 != 0, s.bits & 0x01 != 0]
  }

  function Pack(bits: seq<bool>): Symbol
    requires |bits| == 8
  {
    Symbol((if bits[0] then 0x80 else 0) | (if bits[1] then 0x40 else 0)
         | (if bits[2] then 0x20 else 0) | (if bits[3] then 0x10 else 0)
         | (if bits[4] then 0x08 else 0) | (if bits[5] then 0x04 else 0)
         | (if bits[6] then 0x02 else 0) | (if bits[7] then 0x01 else 0))
  }

  function UnpackAll(data: seq<Symbol>): (bits: seq<bool>)
    ensures |bits| == 8 * |data|
  {
    if data == [] then [] else Unpack(data[0]) + UnpackAll(data[1..])
  }

  // whole bytes only; a trailing partial byte is dropped
  function PackAll(bits: seq<bool>): (data: seq<Symbol>)
    ensures |data| == |bits| / 8
  {
    if |bits| < 8 then [] else [Pack(bits[..8])] + PackAll(bits[8..])
  }

  lemma PackUnpack(s: Symbol)
    ensures Pack(Unpack(s)) == s
  {
  }

  lemma UnpackPack(bits: seq<bool>)
    requires |bits| == 8
    ensures Unpack(Pack(bits)) == bits
  {
    var s := Pack(bits).bits;
    assert (s & 0x80 != 0) == bits[0] && (s & 0x40 != 0) == bits[1];
    assert (s & 0x20 != 0) == bits[2] && (s & 0x10 != 0) == bits[3];
    assert (s & 0x08 != 0) == bits[4] && (s & 0x04 != 0) == bits[5];
    assert (s & 0x02 != 0) == bits[6] && (s & 0x01 != 0) == bits[7];
  }

  // Packing recovers the bytes, whatever bits short of a byte follow them.
  lemma {:induction false} PackUnpackAll(data: seq<Symbol>, tail: seq<bool>)
    requires |tail| < 8
    ensures PackAll(UnpackAll(data) + tail) == data
  {
    hide Pack, Unpack;
    if data == [] {
      assert UnpackAll(data) + tail == tail;
    } else {
      var bits := UnpackAll(data) + tail;
      PackUnpackAll(data[1..], tail);
      PackUnpack(data[0]);
      assert bits[..8] == Unpack(data[0]) && bits[8..] == UnpackAll(data[1..]) + tail;
    }
  }

  lemma {:induction false} UnpackPackAll(bits: seq<bool>)
    requires |bits| % 8 == 0
    ensures UnpackAll(PackAll(bits)) == bits
  {
    hide Pack, Unpack;
    if bits != [] {
      UnpackPack(bits[..8]);
      UnpackPackAll(bits[8..]);
      assert bits == bits[..8] + bits[8..];
    }
  }

  lemma {:induction false} UnpackConcat(a: seq<Symbol>, b: seq<Symbol>)
    ensures UnpackAll(a + b) == UnpackAll(a) + UnpackAll(b)
  {
    hide Unpack;
    if a == [] {
      assert a + b == b;
    } else {
      UnpackConcat(a[1..], b);
      var ab := a + b;
      assert ab[1..] == a[1..] + b && ab[0] == a[0];
      assert UnpackAll(ab) == Unpack(a[0]) + (UnpackAll(a[1..]) + UnpackAll(b));
    }
  }

  lemma {:induction false} UnpackBitAt(data: seq<Symbol>, k: nat)
    requires k < |data|
    ensures UnpackAll(data)[8 * k..8 * k + 8] == Unpack(data[k])
  {
    hide Unpack;
    if k > 0 {
      UnpackBitAt(data[1..], k - 1);
      assert UnpackAll(data)[8 * k..8 * k + 8] == UnpackAll(data[1..])[8 * (k - 1)..8 * (k - 1) + 8];
    }
  }

  lemma {:induction false} BitsOfToInt(bits: seq<bool>)
    ensures BitsOf(ToInt(bits), |bits|) == bits && ToInt(bits) < Pow2(|bits|)
  {
    if bits != [] { BitsOfToInt(bits[..|bits| - 1]); }
  }

  lemma {:induction false} ToIntBitsOf(v: nat, n: nat)
    requires v < Pow2(n)
    ensures ToInt(BitsOf(v, n)) == v
  {
    if n > 0 { ToIntBitsOf(v / 2, n - 1); }
  }

  lemma {:induction false} ToIntHigh(bits: seq<bool>, k: nat)
    requires k <= |bits|
    ensures ToInt(bits) / Pow2(k) == ToInt(bits[..|bits| - k])
    ensures ToInt(bits) % Pow2(k) == ToInt(bits[|bits| - k..])
  {
    if k == 0 {
      assert bits[..|bits| - k] == bits;
    } else {
      var init, b := bits[..|bits| - 1], Bit(bits[|bits| - 1]);
      ToIntHigh(init, k - 1);
      assert init[..|init| - (k - 1)] == bits[..|bits| - k];
      assert bits[|bits| - k..][..k - 1] == init[|init| - (k - 1)..];
      DoubleDivMod(ToInt(init), b, Pow2(k - 1));
    }
  }

  lemma DoubleDivMod(v: nat, b: nat, m: nat)
    requires b < 2 && m > 0
    ensures (2 * v + b) / (2 * m) == v / m && (2 * v + b) % (2 * m) == 2 * (v % m) + b
  {
    var q, r := v / m, v % m;
    assert v == m * q + r;
    assert 2 * v + b == (2 * m) * q + (2 * r + b);
    DivModUnique(2 * v + b, 2 * m, q, 2 * r + b);
  }

  class BitReader {
    const value: nat
    var remaining: nat
    ghost const bits: seq<bool>

    ghost predicate Valid()
      reads this
    {
      remaining <= |bits| && value == ToInt(bits)
    }

    // what has not been read yet
    ghost function Rest(): seq<bool>
      requires Valid()
      reads this
    {
      bits[|bits| - remaining..]
    }

    constructor (data: seq<Symbol>)
      ensures Valid() && Rest() == UnpackAll(data)
    {
      value := ToInt(UnpackAll(data));
      remaining := 8 * |data|;
      bits := UnpackAll(data);
    }

    method Read(n: nat) returns (ok: bool, v: nat)
      requires Valid()
      modifies `remaining
      ensures Valid()
      ensures ok <==> n <= |old(Rest())|
      ensures ok ==> v == ToInt(old(Rest())[..n]) && Rest() == old(Rest())[n..]
      ensures !ok ==> Rest() == old(Rest())
    {
      if n > remaining { return false, 0; }
      ghost var before := |bits| - remaining;
      remaining := remaining - n;
      v := value / Pow2(remaining) % Pow2(n);
      ToIntHigh(bits, remaining);
      ToIntHigh(bits[..|bits| - remaining], n);
      assert bits[..before + n][before..] == bits[before..][..n];
      return true, v;
    }
  }
}

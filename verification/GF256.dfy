/** The field GF(256) of the QR code's Reed-Solomon code, as its log and antilog tables define it. */
module GF256 {

  // One step of the loop that builds the power table: times alpha, modulo x^8 + x^4 + x^3 + x^2 + 1.
  function XTime(a: bv8): bv8 {
    (a << 1) ^ (if a & 0x80 != 0 then 0x1D else 0)
  }

  function Shift(i: nat, a: bv8): bv8 {
    if i == 0 then a else XTime(Shift(i - 1, a))
  }

  function Exp(i: nat): bv8 {
    Shift(i, 1)
  }

  const LOG: seq<nat> := LogTable(255)

  // The table inverting the powers, filled in enumeration order; zero has no logarithm and keeps the default 0.
  function LogTable(n: nat): (log: seq<nat>)
    requires n <= 255
    ensures |log| == 256
    ensures forall i: nat {:trigger Exp(i)} | i < n :: log[Exp(i) as int] == i
  {
    ExpInjective();
    if n == 0 then seq(256, _ => 0) else LogTable(n - 1)[Exp(n - 1) as int := n - 1]
  }

  function Log(a: bv8): nat {
    LOG[a as int]
  }

  function Mul(x: bv8, y: bv8): bv8 {
    if x != 0 && y != 0 then Exp((Log(x) + Log(y)) % 255) else 0
  }

  function Inv(a: bv8): (r: bv8)
    requires a != 0
  {
    Exp((-(Log(a) as int)) % 255)
  }

  method BuildExpTable() returns (exp: seq<bv8>)
    ensures |exp| == 255 && forall i: nat | i < 255 :: exp[i] == Exp(i)
  {
    exp := [1];
    for n := 0 to 254
      invariant |exp| == n + 1
      invariant forall i: nat | i <= n :: exp[i] == Exp(i)
    {
      exp := exp + [XTime(exp[|exp| - 1])];
    }
  }

  // ---- Iterating the step ----

  lemma {:induction false} ShiftAdd(i: nat, j: nat, a: bv8)
    ensures Shift(i + j, a) == Shift(i, Shift(j, a))
  {
    if i > 0 { ShiftAdd(i - 1, j, a); }
  }

  lemma {:induction false} ShiftLinear(i: nat, a: bv8, b: bv8)
    ensures Shift(i, a ^ b) == Shift(i, a) ^ Shift(i, b)
  {
    if i > 0 { ShiftLinear(i - 1, a, b); }
  }

  lemma {:induction false} ShiftZero(i: nat)
    ensures Shift(i, 0) == 0
  {
    if i > 0 { ShiftZero(i - 1); }
  }

  lemma {:induction false} ShiftInjective(i: nat, a: bv8, b: bv8)
    requires Shift(i, a) == Shift(i, b)
    ensures a == b
  {
    if i > 0 { ShiftInjective(i - 1, a, b); }
  }

  // ---- alpha has order 255: its powers of exponent 17 j are the 15 nonzero elements of GF(16) ----

  function X4(a: bv8): bv8 { XTime(XTime(XTime(XTime(a)))) }

  lemma ShiftUpTo4(a: bv8)
    ensures Shift(1, a) == XTime(a) && Shift(2, a) == XTime(XTime(a))
    ensures Shift(3, a) == XTime(XTime(XTime(a))) && Shift(4, a) == X4(a)
  {
    assert Shift(2, a) == XTime(Shift(1, a));
    assert Shift(3, a) == XTime(Shift(2, a));
  }

  lemma ShiftBy4s(a: bv8)
    ensures Shift(4, a) == X4(a) && Shift(8, a) == X4(X4(a)) && Shift(12, a) == X4(X4(X4(a)))
    ensures Shift(16, a) == X4(X4(X4(X4(a)))) && Shift(17, a) == XTime(X4(X4(X4(X4(a)))))
  {
    ShiftUpTo4(a); ShiftUpTo4(X4(a)); ShiftUpTo4(X4(X4(a))); ShiftUpTo4(X4(X4(X4(a))));
    ShiftAdd(4, 4, a); ShiftAdd(4, 8, a); ShiftAdd(4, 12, a);
  }

  const SUBFIELD: seq<bv8> := [0x01, 0x98, 0x4e, 0x0a, 0x99, 0xd6, 0x44, 0x93, 0x4f, 0x92, 0xd7, 0xdc, 0xdd, 0x45, 0x0b]

  predicate InSubfield(a: bv8) {
    || a == 0x01 || a == 0x98 || a == 0x4e || a == 0x0a || a == 0x99 || a == 0xd6 || a == 0x44 || a == 0x93
    || a == 0x4f || a == 0x92 || a == 0xd7 || a == 0xdc || a == 0xdd || a == 0x45 || a == 0x0b
  }

  lemma SubfieldStep(j: nat)
    requires j < 15
    ensures XTime(X4(X4(X4(X4(SUBFIELD[j]))))) == SUBFIELD[if j < 14 then j + 1 else 0]
  {
  }

  lemma ExpStep17(k: nat)
    ensures Exp(k + 17) == XTime(X4(X4(X4(X4(Exp(k))))))
  {
    ShiftAdd(17, k, 1);
    ShiftBy4s(Exp(k));
  }

  lemma {:induction false} SubfieldPowers(j: nat)
    requires j <= 15
    ensures Exp(17 * j) == SUBFIELD[if j < 15 then j else 0]
  {
    if j > 0 {
      SubfieldPowers(j - 1);
      SubfieldStep(j - 1);
      var k := 17 * (j - 1);
      ExpStep17(k);
      assert 17 * j == k + 17;
    }
  }

  lemma ExpPeriod(k: nat)
    ensures Exp(k + 255) == Exp(k)
  {
    SubfieldPowers(15);
    ShiftAdd(k, 255, 1);
  }

  lemma {:induction false} ExpPeriods(k: nat, q: nat)
    ensures Exp(k + 255 * q) == Exp(k)
  {
    if q > 0 {
      ExpPeriods(k, q - 1);
      ExpPeriod(k + 255 * (q - 1));
    }
  }

  lemma ExpMod(k: nat)
    ensures Exp(k) == Exp(k % 255)
  {
    ExpPeriods(k % 255, k / 255);
  }

  lemma OffSubfield(a: bv8, i: nat)
    requires InSubfield(a) && 0 < i < 17
    ensures Shift(i, a) != 1
  {
    ShiftBy4s(a);
    var b := Shift(i - i % 4, a);
    ShiftUpTo4(b);
    ShiftAdd(i % 4, i - i % 4, a);
  }

  lemma ExpOrder(k: nat)
    requires 0 < k < 255
    ensures Exp(k) != 1
  {
    var j, i := k / 17, k % 17;
    SubfieldPowers(j);
    if i > 0 {
      ShiftAdd(i, 17 * j, 1);
      OffSubfield(SUBFIELD[j], i);
    }
  }

  lemma ExpInjective()
    ensures forall i: nat, j: nat {:trigger Exp(i), Exp(j)} | i < 255 && j < 255 && Exp(i) == Exp(j) :: i == j
  {
    forall i: nat, j: nat | i < j < 255 ensures Exp(i) != Exp(j) {
      if Exp(i) == Exp(j) {
        ShiftAdd(i, j - i, 1);
        ShiftInjective(i, 1, Exp(j - i));
        ExpOrder(j - i);
      }
    }
  }

  // ---- Every nonzero element is a power of alpha: 16 steps always suffice to meet GF(16) ----

  predicate Near(a: bv8) {
    InSubfield(a) || InSubfield(XTime(a)) || InSubfield(XTime(XTime(a))) || InSubfield(XTime(XTime(XTime(a))))
  }

  lemma NearSubfield(a: bv8) returns (i: nat)
    requires Near(a)
    ensures i < 4 && InSubfield(Shift(i, a))
  {
    ShiftUpTo4(a);
    i := if InSubfield(a) then 0 else if InSubfield(XTime(a)) then 1 else if InSubfield(XTime(XTime(a))) then 2 else 3;
  }

  lemma ReachSubfield(a: bv8) returns (i: nat)
    requires a != 0
    ensures i < 17 && InSubfield(Shift(i, a))
  {
    ShiftBy4s(a);
    assert Near(a) || Near(X4(a)) || Near(X4(X4(a))) || Near(X4(X4(X4(a)))) || InSubfield(X4(X4(X4(X4(a)))));
    if InSubfield(Shift(16, a)) { return 16; }
    var start := if Near(a) then 0 else if Near(X4(a)) then 4 else if Near(X4(X4(a))) then 8 else 12;
    i := NearSubfield(Shift(start, a));
    ShiftAdd(i, start, a);
    i := i + start;
  }

  lemma SubfieldIndex(a: bv8) returns (j: nat)
    requires InSubfield(a)
    ensures j < 15 && SUBFIELD[j] == a
  {
    assert SUBFIELD[0] == 0x01 && SUBFIELD[1] == 0x98 && SUBFIELD[2] == 0x4e && SUBFIELD[3] == 0x0a
      && SUBFIELD[4] == 0x99;
    assert SUBFIELD[5] == 0xd6 && SUBFIELD[6] == 0x44 && SUBFIELD[7] == 0x93 && SUBFIELD[8] == 0x4f
      && SUBFIELD[9] == 0x92;
    assert SUBFIELD[10] == 0xd7 && SUBFIELD[11] == 0xdc && SUBFIELD[12] == 0xdd && SUBFIELD[13] == 0x45
      && SUBFIELD[14] == 0x0b;
    j :| 0 <= j < 15 && SUBFIELD[j] == a;
  }

  lemma LogTotal(a: bv8) returns (k: nat)
    requires a != 0
    ensures k < 255 && Exp(k) == a
  {
    var i := ReachSubfield(a);
    var j := SubfieldIndex(Shift(i, a));
    SubfieldPowers(j);
    k := 17 * j + 255 - i;
    ExpPeriod(17 * j);
    ShiftAdd(i, k, 1);
    ShiftInjective(i, a, Exp(k));
    ExpMod(k);
    k := k % 255;
  }

  lemma LogExp(k: nat)
    ensures Log(Exp(k)) == k % 255
  {
    ExpMod(k);
  }

  lemma ExpLog(a: bv8)
    requires a != 0
    ensures Log(a) < 255 && Exp(Log(a)) == a
  {
    var k := LogTotal(a);
    LogExp(k);
  }

  lemma {:induction false} ExpNonzero(k: nat)
    ensures Exp(k) != 0
  {
    if k > 0 { ExpNonzero(k - 1); }
  }

  // ---- Field laws ----

  lemma MulExp(i: nat, j: nat)
    ensures Mul(Exp(i), Exp(j)) == Exp(i + j)
  {
    hide Shift, Log;
    ExpNonzero(i);
    ExpNonzero(j);
    LogExp(i);
    LogExp(j);
    ExpMod(i % 255 + j % 255);
    ExpPeriods(i % 255 + j % 255, i / 255 + j / 255);
  }

  lemma MulAsShift(x: bv8, y: bv8)
    requires x != 0
    ensures Mul(x, y) == Shift(Log(x), y)
  {
    if y == 0 {
      ShiftZero(Log(x));
    } else {
      ExpLog(x);
      ExpLog(y);
      MulExp(Log(x), Log(y));
      ShiftAdd(Log(x), Log(y), 1);
    }
  }

  lemma MulCommutes(x: bv8, y: bv8)
    ensures Mul(x, y) == Mul(y, x)
  {
  }

  lemma MulDistributes(x: bv8, y: bv8, z: bv8)
    ensures Mul(x, y ^ z) == Mul(x, y) ^ Mul(x, z)
  {
    if x != 0 {
      MulAsShift(x, y);
      MulAsShift(x, z);
      MulAsShift(x, y ^ z);
      ShiftLinear(Log(x), y, z);
    }
  }

  lemma MulAssociates(x: bv8, y: bv8, z: bv8)
    ensures Mul(Mul(x, y), z) == Mul(x, Mul(y, z))
  {
    hide Shift, Mul, Log;
    MulNonzero(x, y);
    MulNonzero(y, z);
    MulNonzero(Mul(x, y), z);
    MulNonzero(x, Mul(y, z));
    if x != 0 && y != 0 && z != 0 {
      ExpLog(x);
      ExpLog(y);
      ExpLog(z);
      MulExp(Log(x), Log(y));
      MulExp(Log(y), Log(z));
      MulExp(Log(x) + Log(y), Log(z));
      MulExp(Log(x), Log(y) + Log(z));
    }
  }

  lemma MulOne(x: bv8)
    ensures Mul(1, x) == x == Mul(x, 1)
  {
    LogExp(0);
    if x != 0 { MulAsShift(1, x); }
  }

  lemma MulInv(a: bv8)
    requires a != 0
    ensures Mul(a, Inv(a)) == 1 && Inv(a) != 0
  {
    hide Mul, Log;
    ExpLog(a);
    var k := (-(Log(a) as int)) % 255;
    ExpNonzero(k);
    MulExp(Log(a), k);
    ExpMod(Log(a) + k);
    assert (Log(a) + k) % 255 == 0;
  }

  lemma MulNonzero(x: bv8, y: bv8)
    ensures Mul(x, y) == 0 <==> x == 0 || y == 0
  {
    if x != 0 && y != 0 { ExpNonzero((Log(x) + Log(y)) % 255); }
  }

  // ---- Which field it is ----

  /** The field is the one of x^8 + x^4 + x^3 + x^2 + 1, and its powers are those of x. */
  lemma AlphaRelation(k: nat)
    ensures Exp(k + 8) == Exp(k + 4) ^ Exp(k + 3) ^ Exp(k + 2) ^ Exp(k)
    ensures Exp(0) == 1 && Exp(1) == 2
  {
    hide Shift;
    FirstPowers();
    ShiftAdd(k, 8, 1);
    ShiftAdd(k, 4, 1);
    ShiftAdd(k, 3, 1);
    ShiftAdd(k, 2, 1);
    ShiftLinear(k, 16 ^ 8 ^ 4, 1);
    ShiftLinear(k, 16 ^ 8, 4);
    ShiftLinear(k, 16, 8);
  }

  lemma FirstPowers()
    ensures Shift(0, 1) == 1 && Shift(1, 1) == 2 && Shift(2, 1) == 4 && Shift(3, 1) == 8 && Shift(4, 1) == 16
    ensures Shift(8, 1) == 16 ^ 8 ^ 4 ^ 1
  {
    assert Shift(5, 1) == 32 && Shift(6, 1) == 64 && Shift(7, 1) == 128;
  }
}

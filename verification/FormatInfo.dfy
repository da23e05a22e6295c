/** The format information of a QR symbol: fifteen bits that give its level and mask, in two copies, with a BCH code. */
module FormatInfo {

  import opened Placement

  // fifteen bits, the lowest first
  type Word = w: seq<bool> | |w| == 15 witness seq(15, _ => false)

  const POLYNOMIAL: seq<bool> := [true, true, true, false, true, true, false, false, true, false, true]
  const MASK: Word := [false, true, false, false, true, false, false, false, false, false, true, false, true,
    false, true]

  datatype Read = Format(fmt: nat) | BadFormat

  // ---- The code words ----

  predicate Digit(n: nat, j: nat)
    requires j < 5
  {
    (match j case 0 => n case 1 => n / 2 case 2 => n / 4 case 3 => n / 8 case _ => n / 16) % 2 == 1
  }

  // the five data bits above ten zeros
  function Shifted(data: nat): Word {
    seq(15, i requires 0 <= i < 15 => i >= 10 && Digit(data, i - 10))
  }

  // one step of the division, at the given bit
  function Divided(v: Word, shift: nat): Word
    requires 10 <= shift < 15
  {
    if v[shift] then
      seq(15, i requires 0 <= i < 15 =>
        if shift - 10 <= i <= shift then v[i] != POLYNOMIAL[i - (shift - 10)] else v[i])
    else v
  }

  function Remainder(v: Word, shift: nat): Word
    requires 10 <= shift <= 15
    decreases 15 - shift
  {
    if shift == 15 then v else Divided(Remainder(v, shift + 1), shift)
  }

  function FormatWord(data: nat): Word {
    var v, r := Shifted(data), Remainder(Shifted(data), 10);
    seq(15, i requires 0 <= i < 15 => (v[i] || r[i]) != MASK[i])
  }

  method BchFormat(data: nat) returns (w: Word)
    ensures w == FormatWord(data)
  {
    hide Divided, Shifted;
    var v := Shifted(data);
    var shift := 14;
    while shift > 9
      invariant 9 <= shift <= 14 && v == Remainder(Shifted(data), shift + 1)
    {
      v := Divided(v, shift);
      shift := shift - 1;
    }
    var d := Shifted(data);
    w := seq(15, i requires 0 <= i < 15 => (d[i] || v[i]) != MASK[i]);
  }

  function Digits(data: nat): (d: seq<bool>)
    ensures |d| == 5
  {
    [Digit(data, 0), Digit(data, 1), Digit(data, 2), Digit(data, 3), Digit(data, 4)]
  }

  // the state of the division in terms of the data bits, step by step
  function Step15(d: seq<bool>): Word
    requires |d| == 5
  {
    [false, false, false, false, false, false, false, false, false, false, d[0], d[1], d[2], d[3], d[4]]
  }

  function Step14(d: seq<bool>): Word
    requires |d| == 5
  {
    [false, false, false, false, d[4], d[4], d[4], false, d[4], d[4], d[0], d[1], (d[2] != d[4]), d[3], false]
  }

  function Step13(d: seq<bool>): Word
    requires |d| == 5
  {
    [false, false, false, d[3], (d[3] != d[4]), (d[3] != d[4]), d[4], d[3], (d[3] != d[4]), d[4], d[0],
      (d[1] != d[3]), (d[2] != d[4]), false, false]
  }

  function Step12(d: seq<bool>): Word
    requires |d| == 5
  {
    [false, false, (d[2] != d[4]), (d[2] != (d[3] != d[4])), (d[2] != d[3]), (d[3] != d[4]), d[2],
      (d[2] != (d[3] != d[4])), (d[3] != d[4]), d[4], (d[0] != (d[2] != d[4])), (d[1] != d[3]), false, false, false]
  }

  function Step11(d: seq<bool>): Word
    requires |d| == 5
  {
    [false, (d[1] != d[3]), (d[1] != (d[2] != (d[3] != d[4]))), (d[1] != (d[2] != d[4])), (d[2] != d[3]),
      (d[1] != d[4]), (d[1] != (d[2] != d[3])), (d[2] != (d[3] != d[4])), (d[3] != d[4]), (d[1] != (d[3] != d[4])),
      (d[0] != (d[2] != d[4])), false, false, false, false]
  }

  function Step10(d: seq<bool>): Word
    requires |d| == 5
  {
    [(d[0] != (d[2] != d[4])), (d[0] != (d[1] != (d[2] != (d[3] != d[4])))), (d[0] != (d[1] != d[3])),
      (d[1] != (d[2] != d[4])), (d[0] != (d[3] != d[4])), (d[0] != (d[1] != d[2])), (d[1] != (d[2] != d[3])),
      (d[2] != (d[3] != d[4])), (d[0] != (d[2] != d[3])), (d[1] != (d[3] != d[4])), false, false, false, false, false]
  }

  lemma Reaches14(d: seq<bool>)
    requires |d| == 5
    ensures Divided(Step15(d), 14) == Step14(d)
  {
  }

  lemma Reaches13(d: seq<bool>)
    requires |d| == 5
    ensures Divided(Step14(d), 13) == Step13(d)
  {
  }

  lemma Reaches12(d: seq<bool>)
    requires |d| == 5
    ensures Divided(Step13(d), 12) == Step12(d)
  {
  }

  lemma Reaches11(d: seq<bool>)
    requires |d| == 5
    ensures Divided(Step12(d), 11) == Step11(d)
  {
  }

  lemma Reaches10(d: seq<bool>)
    requires |d| == 5
    ensures Divided(Step11(d), 10) == Step10(d)
  {
  }

  // the remainder, in closed form
  lemma RemainderIs(data: nat)
    ensures Remainder(Shifted(data), 10) == Step10(Digits(data))
  {
    hide Divided, Digit, Step15, Step14, Step13, Step12, Step11, Step10;
    var d := Digits(data);
    ShiftedIs(data);
    Reaches14(d);
    Reaches13(d);
    Reaches12(d);
    Reaches11(d);
    Reaches10(d);
    assert Remainder(Shifted(data), 13) == Step13(d) by {
      assert Remainder(Shifted(data), 14) == Divided(Shifted(data), 14);
    }
    assert Remainder(Shifted(data), 11) == Step11(d) by {
      assert Remainder(Shifted(data), 12) == Divided(Step13(d), 12);
    }
  }

  lemma ShiftedIs(data: nat)
    ensures Shifted(data) == Step15(Digits(data))
  {
  }

  // ---- How far apart the code words are ----

  // in how many of the first n bits two words differ
  function Differences(a: Word, b: Word, n: nat): nat
    requires n <= 15
  {
    if n == 0 then 0 else Differences(a, b, n - 1) + if a[n - 1] != b[n - 1] then 1 else 0
  }

  function Distance(a: Word, b: Word): nat {
    Differences(a, b, 15)
  }

  lemma {:induction false} TriangleUpTo(a: Word, b: Word, c: Word, n: nat)
    requires n <= 15
    ensures Differences(a, c, n) <= Differences(b, a, n) + Differences(b, c, n)
  {
    if n > 0 {
      TriangleUpTo(a, b, c, n - 1);
    }
  }

  lemma {:induction false} SameDifferences(a: Word, b: Word, a': Word, b': Word, n: nat)
    requires n <= 15 && forall i :: 0 <= i < n ==> (a[i] != b[i]) == (a'[i] != b'[i])
    ensures Differences(a, b, n) == Differences(a', b', n)
  {
    if n > 0 {
      SameDifferences(a, b, a', b', n - 1);
    }
  }

  // the code word of five data bits, before it is masked
  function Codeword(d: seq<bool>): Word
    requires |d| == 5
  {
    Step10(d)[..10] + d
  }

  function Sum5(a: seq<bool>): nat
    requires |a| == 5
  {
    (if a[0] then 1 else 0) + (if a[1] then 1 else 0) + (if a[2] then 1 else 0) + (if a[3] then 1 else 0) + if a[4]
      then 1 else 0
  }

  const NONE: Word :=
    [false, false, false, false, false, false, false, false, false, false, false, false, false, false, false]

  function Weight(w: Word): nat {
    Distance(w, NONE)
  }

  lemma {:induction false} CountedFrom(w: Word, n: nat)
    requires n <= 10
    ensures Differences(w, NONE, n + 5) == Differences(w, NONE, n) + Sum5(w[n..n + 5])
  {
    assert Differences(w, NONE, n + 1) == Differences(w, NONE, n) + if w[n] then 1 else 0;
    assert Differences(w, NONE, n + 2) == Differences(w, NONE, n + 1) + if w[n + 1] then 1 else 0;
    assert Differences(w, NONE, n + 3) == Differences(w, NONE, n + 2) + if w[n + 2] then 1 else 0;
    assert Differences(w, NONE, n + 4) == Differences(w, NONE, n + 3) + if w[n + 3] then 1 else 0;
  }

  lemma CodeWeight(d: seq<bool>)
    requires |d| == 5 && true in d
    ensures Distance(Codeword(d), NONE) >= 7
  {
    hide Differences;
    var w := Codeword(d);
    CountedFrom(w, 0);
    CountedFrom(w, 5);
    CountedFrom(w, 10);
    assert Differences(w, NONE, 0) == 0 by { NoneDiffer(w); }
    WeightByParts(d);
  }

  lemma NoneDiffer(w: Word)
    ensures Differences(w, NONE, 0) == 0
  {
  }

  lemma WeightByParts(d: seq<bool>)
    requires |d| == 5 && true in d
    ensures var w := Codeword(d); Sum5(w[0..5]) + Sum5(w[5..10]) + Sum5(w[10..15]) >= 7
  {
    var w := Codeword(d);
    var r := Step10(d);
    assert w[0..5] == [r[0], r[1], r[2], r[3], r[4]];
    assert w[5..10] == [r[5], r[6], r[7], r[8], r[9]];
    assert w[10..15] == d;
    assert d[0] || d[1] || d[2] || d[3] || d[4];
  }

  function Apart(a: seq<bool>, b: seq<bool>): (d: seq<bool>)
    requires |a| == |b| == 5
    ensures |d| == 5
  {
    [a[0] != b[0], a[1] != b[1], a[2] != b[2], a[3] != b[3], a[4] != b[4]]
  }

  lemma FormatWordIs(data: nat, i: nat)
    requires i < 15
    ensures FormatWord(data)[i] == (Codeword(Digits(data))[i] != MASK[i])
  {
    hide Digit, Remainder, Divided;
    RemainderIs(data);
    ShiftedIs(data);
  }

  lemma LowLinear(a: seq<bool>, b: seq<bool>, i: nat)
    requires |a| == |b| == 5 && 0 <= i < 4
    ensures (Codeword(a)[i] != Codeword(b)[i]) == Codeword(Apart(a, b))[i]
  {
    match i {
      case 0 =>
        assert Codeword(a)[0] != Codeword(b)[0] <==> Codeword(Apart(a, b))[0];
      case 1 =>
        assert Codeword(a)[1] != Codeword(b)[1] <==> Codeword(Apart(a, b))[1];
      case 2 =>
        assert Codeword(a)[2] != Codeword(b)[2] <==> Codeword(Apart(a, b))[2];
      case _ =>
    }
  }

  lemma MiddleLinear(a: seq<bool>, b: seq<bool>, i: nat)
    requires |a| == |b| == 5 && 4 <= i < 7
    ensures (Codeword(a)[i] != Codeword(b)[i]) == Codeword(Apart(a, b))[i]
  {
    match i {
      case 4 =>
        assert Codeword(a)[4] != Codeword(b)[4] <==> Codeword(Apart(a, b))[4];
      case 5 =>
        assert Codeword(a)[5] != Codeword(b)[5] <==> Codeword(Apart(a, b))[5];
      case _ =>
    }
  }

  lemma UpperLinear(a: seq<bool>, b: seq<bool>, i: nat)
    requires |a| == |b| == 5 && 7 <= i < 10
    ensures (Codeword(a)[i] != Codeword(b)[i]) == Codeword(Apart(a, b))[i]
  {
    match i {
      case 7 =>
        assert Codeword(a)[7] != Codeword(b)[7] <==> Codeword(Apart(a, b))[7];
      case 8 =>
        assert Codeword(a)[8] != Codeword(b)[8] <==> Codeword(Apart(a, b))[8];
      case _ =>
    }
  }

  lemma CodewordsLinear(a: seq<bool>, b: seq<bool>, i: nat)
    requires |a| == |b| == 5 && i < 15
    ensures (Codeword(a)[i] != Codeword(b)[i]) == Codeword(Apart(a, b))[i]
  {
    hide Codeword, Step10;
    if i < 4 {
      LowLinear(a, b, i);
    } else if i < 7 {
      MiddleLinear(a, b, i);
    } else if i < 10 {
      UpperLinear(a, b, i);
    } else {
      DataLinear(a, b, i);
    }
  }

  lemma DataLinear(a: seq<bool>, b: seq<bool>, i: nat)
    requires |a| == |b| == 5 && 10 <= i < 15
    ensures (Codeword(a)[i] != Codeword(b)[i]) == Codeword(Apart(a, b))[i]
  {
    hide Step10;
  }

  // a number below 32 is made up of its five digits
  lemma Halves(x: nat)
    requires x < 32
    ensures x == x % 2 + 2 * (x / 2 % 2) + 4 * (x / 4 % 2) + 8 * (x / 8 % 2) + 16 * (x / 16 % 2)
  {
    assert x == 2 * (x / 2) + x % 2;
    assert x / 2 == 2 * (x / 4) + x / 2 % 2;
    assert x / 4 == 2 * (x / 8) + x / 4 % 2;
    assert x / 8 == 2 * (x / 16) + x / 8 % 2;
  }

  function Value(d: seq<bool>): nat
    requires |d| == 5
  {
    (if d[0] then 1 else 0) + (if d[1] then 2 else 0) + (if d[2] then 4 else 0) + (if d[3] then 8 else 0) + if d[4]
      then 16 else 0
  }

  lemma DigitsAddUp(x: nat)
    requires x < 32
    ensures Value(Digits(x)) == x
  {
    Halves(x);
  }

  lemma DigitsTell(x: nat, y: nat)
    requires x < 32 && y < 32 && x != y
    ensures true in Apart(Digits(x), Digits(y))
  {
    hide Digits;
    var a := Apart(Digits(x), Digits(y));
    if !(a[0] || a[1] || a[2] || a[3] || a[4]) {
      assert Digits(x) == Digits(y);
      DigitsAddUp(x);
      DigitsAddUp(y);
    }
  }

  /** Any two of the 32 format words differ in at least seven of their fifteen bits. */
  lemma WordsFarApart(x: nat, y: nat)
    requires x < 32 && y < 32 && x != y
    ensures Distance(FormatWord(x), FormatWord(y)) >= 7
  {
    hide Digit, Codeword, FormatWord, Differences;
    var d := Apart(Digits(x), Digits(y));
    DigitsTell(x, y);
    CodeWeight(d);
    forall i | 0 <= i < 15 ensures (FormatWord(x)[i] != FormatWord(y)[i]) == (Codeword(d)[i] != NONE[i]) {
      FormatWordIs(x, i);
      FormatWordIs(y, i);
      CodewordsLinear(Digits(x), Digits(y), i);
    }
    SameDifferences(FormatWord(x), FormatWord(y), Codeword(d), NONE, 15);
  }

  // ---- The two copies ----

  function FirstCopy(g: Grid, dim: nat): Word
    requires Square(g, dim) && dim >= 21
  {
    seq(15, i requires 0 <= i < 15 =>
      if i < 6 then g[i][8] else if i < 8 then g[i + 1][8] else if i == 8 then g[8][7] else g[8][14 - i])
  }

  function SecondCopy(g: Grid, dim: nat): Word
    requires Square(g, dim) && dim >= 21
  {
    seq(15, i requires 0 <= i < 15 => if i < 8 then g[8][dim - 1 - i] else g[dim - 15 + i][8])
  }

  /** Where the fifteen bits of the two copies stand, the lowest first. */
  lemma CopiesStand(g: Grid, dim: nat)
    requires Square(g, dim) && dim >= 21
    ensures FirstCopy(g, dim) == [g[0][8], g[1][8], g[2][8], g[3][8], g[4][8], g[5][8], g[7][8], g[8][8],
      g[8][7], g[8][5], g[8][4], g[8][3], g[8][2], g[8][1], g[8][0]]
    ensures SecondCopy(g, dim) == [g[8][dim - 1], g[8][dim - 2], g[8][dim - 3], g[8][dim - 4], g[8][dim - 5],
      g[8][dim - 6], g[8][dim - 7], g[8][dim - 8], g[dim - 7][8], g[dim - 6][8], g[dim - 5][8], g[dim - 4][8],
      g[dim - 3][8], g[dim - 2][8], g[dim - 1][8]]
  {
  }

  function Copy(g: Grid, dim: nat, k: nat): Word
    requires Square(g, dim) && dim >= 21
  {
    if k == 0 then FirstCopy(g, dim) else SecondCopy(g, dim)
  }

  // Both copies are damaged in at most three bits.
  ghost predicate Legible(g: Grid, dim: nat, fmt: nat)
    requires Square(g, dim) && dim >= 21
  {
    fmt < 32 && forall k :: 0 <= k < 2 ==> Distance(Copy(g, dim, k), FormatWord(fmt)) <= 3
  }

  // the format nearest to either copy, the lowest of equally near ones
  ghost predicate Nearest(g: Grid, dim: nat, fmt: nat, distance: nat)
    requires Square(g, dim) && dim >= 21
  {
    && fmt < 32 && (exists k :: 0 <= k < 2 && distance == Distance(Copy(g, dim, k), FormatWord(fmt)))
    && forall k, i :: 0 <= k < 2 && 0 <= i < 32 ==>
      Distance(Copy(g, dim, k), FormatWord(i)) >= distance + if i < fmt then 1 else 0
  }

  method ReadFormat(g: Grid, dim: nat) returns (r: Read)
    requires Square(g, dim) && dim >= 21
    ensures r.BadFormat? <==> forall k, i :: 0 <= k < 2 && 0 <= i < 32 ==> Distance(Copy(g, dim, k), FormatWord(i)) > 3
    ensures r.Format? ==> exists distance :: distance <= 3 && Nearest(g, dim, r.fmt, distance)
    ensures forall fmt :: Legible(g, dim, fmt) ==> r == Format(fmt)
  {
    hide FormatWord, Copy, Distance;
    var formats: seq<Word> := [];
    for i := 0 to 32
      invariant |formats| == i && forall j :: 0 <= j < i ==> formats[j] == FormatWord(j)
    {
      var word := BchFormat(i);
      formats := formats + [word];
    }
    var distance, fmt := Distance(Copy(g, dim, 0), formats[0]), 0;
    for k := 0 to 2
      invariant fmt < 32 && exists c :: 0 <= c < 2 && distance == Distance(Copy(g, dim, c), FormatWord(fmt))
      invariant forall c, i :: 0 <= c < k && 0 <= i < 32 ==>
        Distance(Copy(g, dim, c), FormatWord(i)) >= distance + if i < fmt then 1 else 0
    {
      for i := 0 to 32
        invariant fmt < 32 && exists c :: 0 <= c < 2 && distance == Distance(Copy(g, dim, c), FormatWord(fmt))
        invariant forall c, j :: 0 <= c < k && 0 <= j < 32 ==>
          Distance(Copy(g, dim, c), FormatWord(j)) >= distance + if j < fmt then 1 else 0
        invariant forall j :: 0 <= j < i ==>
          Distance(Copy(g, dim, k), FormatWord(j)) >= distance + if j < fmt then 1 else 0
      {
        var d := Distance(Copy(g, dim, k), formats[i]);
        if d < distance || (d == distance && i < fmt) {
          distance, fmt := d, i;
        }
      }
    }
    assert Nearest(g, dim, fmt, distance);
    forall f | Legible(g, dim, f) ensures distance <= 3 && f == fmt {
      LegibleIsNearest(g, dim, f, fmt, distance);
    }
    r := if distance > 3 then BadFormat else Format(fmt);
  }

  /** With at most three bits wrong in each copy, the nearest format is the one that was written. */
  lemma LegibleIsNearest(g: Grid, dim: nat, written: nat, nearest: nat, distance: nat)
    requires Square(g, dim) && dim >= 21 && Legible(g, dim, written) && Nearest(g, dim, nearest, distance)
    ensures nearest == written && distance <= 3
  {
    hide FormatWord, Copy, Differences;
    var k :| 0 <= k < 2 && distance == Distance(Copy(g, dim, k), FormatWord(nearest));
    assert Distance(Copy(g, dim, 0), FormatWord(written)) >= distance;
    if nearest != written {
      assert Distance(Copy(g, dim, k), FormatWord(written)) <= 3;
      WordsFarApart(nearest, written);
      TriangleUpTo(FormatWord(nearest), Copy(g, dim, k), FormatWord(written), 15);
      assert false;
    }
  }

  // ---- The words of the standard ----

  // fifteen digits, the highest first
  function Written(digits: string): Word
    requires |digits| == 15
  {
    seq(15, i requires 0 <= i < 15 => digits[14 - i] == '1')
  }

  lemma WrittenWord(data: nat, d: seq<bool>, digits: string)
    requires |d| == 5 && |digits| == 15 && Digits(data) == d
    requires forall i | 0 <= i < 15 :: (Codeword(d)[i] != MASK[i]) == (digits[14 - i] == '1')
    ensures FormatWord(data) == Written(digits)
  {
    hide FormatWord, Codeword, Digits;
    forall i | 0 <= i < 15 ensures FormatWord(data)[i] == Written(digits)[i] {
      FormatWordIs(data, i);
    }
  }

  lemma Word0()
    ensures FormatWord(0) == Written("101010000010010")
  {
    hide FormatWord, Written;
    WrittenWord(0, [false, false, false, false, false], "101010000010010");
  }

  lemma Word1()
    ensures FormatWord(1) == Written("101000100100101")
  {
    hide FormatWord, Written;
    WrittenWord(1, [true, false, false, false, false], "101000100100101");
  }

  lemma Word2()
    ensures FormatWord(2) == Written("101111001111100")
  {
    hide FormatWord, Written;
    WrittenWord(2, [false, true, false, false, false], "101111001111100");
  }

  lemma Word4()
    ensures FormatWord(4) == Written("100010111111001")
  {
    hide FormatWord, Written;
    WrittenWord(4, [false, false, true, false, false], "100010111111001");
  }

  lemma Word8()
    ensures FormatWord(8) == Written("111011111000100")
  {
    hide FormatWord, Written;
    WrittenWord(8, [false, false, false, true, false], "111011111000100");
  }

  lemma Word16()
    ensures FormatWord(16) == Written("001011010001001")
  {
    hide FormatWord, Written;
    WrittenWord(16, [false, false, false, false, true], "001011010001001");
  }

  /** The words of data 0 and of the five single bits, as table C.1 of ISO/IEC 18004 gives them. With the code being
      linear these fix all 32. */
  lemma WordsOfStandard()
    ensures FormatWord(0) == Written("101010000010010") && FormatWord(1) == Written("101000100100101")
    ensures FormatWord(2) == Written("101111001111100") && FormatWord(4) == Written("100010111111001")
    ensures FormatWord(8) == Written("111011111000100") && FormatWord(16) == Written("001011010001001")
  {
    hide FormatWord, Written;
    Word0();
    Word1();
    Word2();
    Word4();
    Word8();
    Word16();
  }
}

/** The error correction symbols of a block: the generator polynomial and long division by it. */
module RsEncoder {

  import opened Field
  import opened Polynomials
  import opened LinearSystem
  import opened ReedSolomon

  // product of (x + alpha^t) for t < degree
  function RootProduct(degree: nat, x: Symbol): Symbol {
    if degree == 0 then ONE else Mul(RootProduct(degree - 1, x), Add(x, Exp(degree - 1)))
  }

  lemma {:induction false} RootsOfProduct(degree: nat, t: nat)
    requires t < degree
    ensures RootProduct(degree, Exp(t)) == ZERO
  {
    hide Mul, Add, Exp;
    if t < degree - 1 { RootsOfProduct(degree - 1, t); }
    AddCancels(Exp(t), Exp(t));
    MulZero(RootProduct(degree - 1, Exp(t)), Add(Exp(t), Exp(degree - 1)));
  }

  // ---- Evaluation of the coefficient list operations ----

  function ShiftLeft(p: seq<Symbol>): (q: seq<Symbol>)
    requires p != []
    ensures |q| == |p|
  {
    p[1..] + [ZERO]
  }

  lemma EvalShiftLeft(p: seq<Symbol>, x: Symbol)
    requires p != []
    ensures Eval(ShiftLeft(p), x) == Add(Mul(Eval(p, x), x), Mul(p[0], Pow(x, |p|)))
  {
    hide Mul, Add;
    var rest := p[1..];
    var high := Mul(p[0], Pow(x, |rest|));
    assert p == [p[0]] + rest && ShiftLeft(p)[..|rest|] == rest;
    EvalPrepend(p[0], rest, x);
    Distributes(x, high, Eval(rest, x));
    MulAssociates(p[0], Pow(x, |rest|), x);
    AddCommutes(Mul(high, x), Mul(Eval(rest, x), x));
    AddCancels(Mul(Eval(rest, x), x), Mul(high, x));
    AddZero(Mul(Eval(rest, x), x));
  }

  lemma {:induction false} EvalAddRow(a: seq<Symbol>, f: Symbol, c: seq<Symbol>, x: Symbol)
    requires |a| == |c|
    ensures Eval(AddRow(a, f, c), x) == Add(Eval(a, x), Mul(f, Eval(c, x)))
  {
    hide Mul, Add;
    var n := |a| - 1;
    if n < 0 {
      MulZero(f, ZERO);
      AddZero(ZERO);
    } else {
      EvalAddRow(a[..n], f, c[..n], x);
      assert AddRow(a, f, c)[..n] == AddRow(a[..n], f, c[..n]);
      Distributes(x, Eval(a[..n], x), Mul(f, Eval(c[..n], x)));
      MulAssociates(f, Eval(c[..n], x), x);
      Distributes(f, Mul(Eval(c[..n], x), x), c[n]);
      AddSwaps(Mul(Eval(a[..n], x), x), Mul(f, Mul(Eval(c[..n], x), x)), a[n], Mul(f, c[n]));
    }
  }

  lemma {:induction false} EvalConcat(p: seq<Symbol>, q: seq<Symbol>, x: Symbol)
    ensures Eval(p + q, x) == Add(Mul(Eval(p, x), Pow(x, |q|)), Eval(q, x))
  {
    hide Mul, Add;
    var n := |q| - 1;
    if n < 0 {
      assert p + q == p;
      MulOne(Eval(p, x));
      AddZero(Eval(p, x));
    } else {
      EvalConcat(p, q[..n], x);
      assert (p + q)[..|p| + n] == p + q[..n];
      Distributes(x, Mul(Eval(p, x), Pow(x, n)), Eval(q[..n], x));
      MulAssociates(Eval(p, x), Pow(x, n), x);
      AddAssociates(Mul(Eval(p, x), Pow(x, n + 1)), Mul(Eval(q[..n], x), x), q[n]);
    }
  }

  lemma {:induction false} EvalPrefix(msg: seq<Symbol>, i: nat, k: nat)
    requires k <= |msg|
    ensures PowerSum(Locators(|msg|)[..k], msg[..k], i) == Mul(Eval(msg[..k], Exp(i)), Exp(i * (|msg| - k)))
  {
    hide Mul, Add, Exp;
    var n := |msg|;
    if k == 0 {
      MulZero(ZERO, Exp(i * (n - k)));
    } else {
      EvalPrefix(msg, i, k - 1);
      PowerSumSnoc(Locators(n), msg, k - 1, i);
      PowExp(n - k, i);
      assert (n - k) * i == i * (n - k) && i + i * (n - k) == i * (n - (k - 1));
      MulExp(i, i * (n - k));
      var before := Eval(msg[..k - 1], Exp(i));
      assert msg[..k][..k - 1] == msg[..k - 1];
      Distributes(Exp(i * (n - k)), Mul(before, Exp(i)), msg[k - 1]);
      MulAssociates(before, Exp(i), Exp(i * (n - k)));
    }
  }

  lemma EvalAtRoot(msg: seq<Symbol>, i: nat)
    ensures PowerSum(Locators(|msg|), msg, i) == Eval(msg, Exp(i))
  {
    hide Mul, Eval, Exp, PowerSum;
    EvalPrefix(msg, i, |msg|);
    assert Locators(|msg|)[..|msg|] == Locators(|msg|) && msg[..|msg|] == msg;
    assert i * (|msg| - |msg|) == 0;
    ExpZero();
    MulOne(Eval(msg, Exp(i)));
  }

  // Codewords are the words with roots alpha^0 .. alpha^(nsym - 1).
  lemma CodewordByRoots(msg: seq<Symbol>, nsym: nat)
    ensures IsCodeword(msg, nsym) <==> forall i: nat | i < nsym :: Eval(msg, Exp(i)) == ZERO
  {
    hide Mul, Eval, Exp, PowerSum, IsCodeword;
    SyndromeIsPowerSum(msg, nsym);
    forall i: nat ensures PowerSum(Locators(|msg|), msg, i) == Eval(msg, Exp(i)) {
      EvalAtRoot(msg, i);
    }
    if IsCodeword(msg, nsym) {
      forall i: nat | i < nsym ensures Eval(msg, Exp(i)) == ZERO {
        assert PowerSum(Locators(|msg|), msg, i) == ZERO;
      }
    }
    if forall i: nat | i < nsym :: Eval(msg, Exp(i)) == ZERO {
      forall i: nat | i < nsym ensures PowerSum(Locators(|msg|), msg, i) == ZERO {
        assert Eval(msg, Exp(i)) == ZERO;
      }
    }
  }

  // ---- Generator polynomial ----

  // the coefficient list after t rounds: times (x + alpha^t) each, the top coefficient dropped
  function Generator(degree: nat, t: nat): (g: seq<Symbol>)
    requires 0 < degree
    ensures |g| == degree
  {
    if t == 0 then seq(degree - 1, _ => ZERO) + [ONE]
    else AddRow(ShiftLeft(Generator(degree, t - 1)), Exp(t - 1), Generator(degree, t - 1))
  }

  lemma {:induction false} PartialGenerator(degree: nat, t: nat)
    requires t < degree
    ensures var g := Generator(degree, t);
      g[degree - 1 - t] == ONE && forall k | 0 <= k < degree - 1 - t :: g[k] == ZERO
  {
    hide Mul, Add, Exp;
    if t > 0 {
      PartialGenerator(degree, t - 1);
      var p := Generator(degree, t - 1);
      forall k | 0 <= k <= degree - 1 - t ensures Generator(degree, t)[k] == p[k + 1] {
        MulZero(Exp(t - 1), ZERO);
        AddZero(p[k + 1]);
      }
    }
  }

  lemma {:induction false} EvalGenerator(degree: nat, t: nat, x: Symbol)
    requires 0 < degree && t <= degree
    ensures t < degree ==> Eval(Generator(degree, t), x) == RootProduct(t, x)
    ensures t == degree ==> Eval([ONE] + Generator(degree, t), x) == RootProduct(degree, x)
  {
    hide Mul, Add, Exp, AddRow, ShiftLeft;
    if t == 0 {
      var zeros: seq<Symbol> := seq(degree - 1, _ => ZERO);
      EvalConcat(zeros, [ONE], x);
      EvalZeros(zeros, x);
      EvalConstant(ONE, x);
      MulZero(ZERO, Pow(x, 1));
      AddZero(ONE);
    } else {
      var p := Generator(degree, t - 1);
      EvalGenerator(degree, t - 1, x);
      PartialGenerator(degree, t - 1);
      EvalShiftLeft(p, x);
      EvalAddRow(ShiftLeft(p), Exp(t - 1), p, x);
      GeneratorTerm(Eval(p, x), x, Mul(p[0], Pow(x, degree)), Exp(t - 1));
      if t < degree {
        MulZero(ZERO, Pow(x, degree));
        AddZero(RootProduct(t, x));
      } else {
        MulOne(Pow(x, degree));
        EvalPrepend(ONE, Generator(degree, t), x);
        AddCommutes(Pow(x, degree), RootProduct(degree, x));
        AddCancels(RootProduct(degree, x), Pow(x, degree));
      }
    }
  }

  lemma GeneratorTerm(e: Symbol, x: Symbol, high: Symbol, root: Symbol)
    ensures Add(Add(Mul(e, x), high), Mul(root, e)) == Add(Mul(e, Add(x, root)), high)
    ensures Add(high, Add(Mul(e, Add(x, root)), high)) == Mul(e, Add(x, root))
  {
    hide Mul, Add;
    MulCommutes(root, e);
    Distributes(e, x, root);
    AddAssociates(Mul(e, x), high, Mul(e, root));
    AddCommutes(high, Mul(e, root));
    AddAssociates(Mul(e, x), Mul(e, root), high);
    AddCancels(Mul(e, Add(x, root)), high);
  }

  lemma {:induction false} EvalZeros(p: seq<Symbol>, x: Symbol)
    requires AllZero(p)
    ensures Eval(p, x) == ZERO
  {
    hide Mul, Add;
    if p != [] {
      EvalZeros(p[..|p| - 1], x);
      MulZero(ZERO, x);
      AddZero(ZERO);
    }
  }

  method Divisor(degree: nat) returns (result: array<Symbol>)
    requires 0 < degree
    ensures fresh(result) && result[..] == Generator(degree, degree)
  {
    hide Mul, Add, Exp;
    result := new Symbol[degree](j => if j == degree - 1 then ONE else ZERO);
    var root := ONE;
    ExpZero();
    assert result[..] == Generator(degree, 0);
    for t := 0 to degree
      invariant result[..] == Generator(degree, t) && root == Exp(t)
    {
      ghost var before := result[..];
      for j := 0 to degree
        invariant forall k | j <= k < degree :: result[k] == before[k]
        invariant forall k | 0 <= k < j :: result[k] == AddRow(ShiftLeft(before), root, before)[k]
      {
        MulCommutes(before[j], root);
        AddZero(Mul(root, before[j]));
        result[j] := Mul(result[j], root);
        if j + 1 < degree {
          AddCommutes(result[j], result[j + 1]);
          result[j] := Add(result[j], result[j + 1]);
        }
      }
      assert result[..] == AddRow(ShiftLeft(before), root, before);
      MulExp(t, 1);
      root := Mul(root, Exp(1));
    }
  }

  // ---- Long division ----

  function Remainder(data: seq<Symbol>, divisor: seq<Symbol>): (rem: seq<Symbol>)
    requires divisor != []
    ensures |rem| == |divisor|
  {
    if data == [] then seq(|divisor|, _ => ZERO)
    else
      var n := |data| - 1;
      var rem := Remainder(data[..n], divisor);
      AddRow(ShiftLeft(rem), Add(data[n], rem[0]), divisor)
  }

  // result.pop(0); result.append(0)
  method ShiftArray(result: array<Symbol>)
    requires result.Length > 0
    modifies result
    ensures result[..] == ShiftLeft(old(result[..]))
  {
    var d := result.Length;
    for i := 0 to d - 1
      invariant forall k | 0 <= k < i :: result[k] == old(result[k + 1])
      invariant forall k | i <= k < d :: result[k] == old(result[k])
    {
      result[i] := result[i + 1];
    }
    result[d - 1] := ZERO;
  }

  method AddMultiple(result: array<Symbol>, factor: Symbol, divisor: seq<Symbol>)
    requires |divisor| == result.Length
    modifies result
    ensures result[..] == AddRow(old(result[..]), factor, divisor)
  {
    hide Mul, Add;
    for i := 0 to |divisor|
      invariant forall k | 0 <= k < i :: result[k] == Add(old(result[k]), Mul(factor, divisor[k]))
      invariant forall k | i <= k < |divisor| :: result[k] == old(result[k])
    {
      MulCommutes(divisor[i], factor);
      result[i] := Add(result[i], Mul(divisor[i], factor));
    }
  }

  method DivideBy(data: seq<Symbol>, divisor: seq<Symbol>) returns (result: array<Symbol>)
    requires divisor != []
    ensures fresh(result) && result[..] == Remainder(data, divisor)
  {
    hide Mul, Add, AddRow, ShiftLeft;
    result := new Symbol[|divisor|](_ => ZERO);
    assert result[..] == Remainder(data[..0], divisor);
    for n := 0 to |data|
      invariant result[..] == Remainder(data[..n], divisor)
    {
      var factor := Add(data[n], result[0]);
      assert data[..n + 1][..n] == data[..n];
      ShiftArray(result);
      AddMultiple(result, factor, divisor);
    }
    assert data[..|data|] == data;
  }

  // (e x + v) h == (e h) x + v h, the remainder's update at a root of the divisor
  lemma DivisionTerm(e: Symbol, x: Symbol, v: Symbol, h: Symbol, r0: Symbol)
    ensures Mul(Add(Mul(e, x), v), h) == Add(Add(Mul(Mul(e, h), x), Mul(r0, h)), Mul(Add(v, r0), h))
  {
    hide Mul, Add;
    Distributes(h, Mul(e, x), v);
    MulAssociates(e, x, h);
    MulCommutes(x, h);
    MulAssociates(e, h, x);
    Distributes(h, v, r0);
    AddCommutes(Mul(v, h), Mul(r0, h));
    AddAssociates(Mul(Mul(e, h), x), Mul(r0, h), Add(Mul(r0, h), Mul(v, h)));
    AddAssociates(Mul(r0, h), Mul(r0, h), Mul(v, h));
    AddCancels(Mul(r0, h), Mul(r0, h));
    AddZero(Mul(v, h));
  }

  // At every root of x^d + divisor, the data shifted by d places equals the remainder.
  lemma {:induction false} RemainderAtRoot(data: seq<Symbol>, divisor: seq<Symbol>, x: Symbol)
    requires divisor != [] && Eval([ONE] + divisor, x) == ZERO
    ensures Mul(Eval(data, x), Pow(x, |divisor|)) == Eval(Remainder(data, divisor), x)
  {
    hide Mul, Add, AddRow, ShiftLeft;
    var h := Pow(x, |divisor|);
    if data == [] {
      MulZero(ZERO, h);
      EvalZeros(Remainder(data, divisor), x);
    } else {
      var n := |data| - 1;
      var rem := Remainder(data[..n], divisor);
      RemainderAtRoot(data[..n], divisor, x);
      EvalPrepend(ONE, divisor, x);
      MulOne(h);
      AddCancels(h, Eval(divisor, x));
      EvalShiftLeft(rem, x);
      EvalAddRow(ShiftLeft(rem), Add(data[n], rem[0]), divisor, x);
      DivisionTerm(Eval(data[..n], x), x, data[n], h, rem[0]);
    }
  }

  function Parity(data: seq<Symbol>, d: nat): (parity: seq<Symbol>)
    requires 0 < d
    ensures |parity| == d
  {
    Remainder(data, Generator(d, d))
  }

  // The encoder completes any data to a codeword, in the only possible way.
  lemma ParityCompletes(data: seq<Symbol>, d: nat)
    requires 0 < d
    ensures IsCodeword(data + Parity(data, d), d)
    ensures |data| + d <= 255 ==> forall p | |p| == d && IsCodeword(data + p, d) :: p == Parity(data, d)
  {
    hide Mul, Add, Exp, Eval, Generator, IsCodeword, Pow;
    var parity := Parity(data, d);
    forall i: nat | i < d ensures Eval(data + parity, Exp(i)) == ZERO {
      EvalGenerator(d, d, Exp(i));
      RootsOfProduct(d, i);
      RemainderAtRoot(data, Generator(d, d), Exp(i));
      EvalConcat(data, parity, Exp(i));
      AddCancels(Eval(parity, Exp(i)), Eval(parity, Exp(i)));
    }
    CodewordByRoots(data + parity, d);
    forall p | |data| + d <= 255 && |p| == d && IsCodeword(data + p, d) ensures p == parity {
      if p != parity {
        assert (data + p)[|data|..] == p && (data + parity)[|data|..] == parity;
        MinimumDistance(data + p, data + parity, d);
        SuffixDistance(data, p, parity);
      }
    }
  }

  lemma {:induction false} SuffixDistance(data: seq<Symbol>, p: seq<Symbol>, q: seq<Symbol>)
    requires |p| == |q|
    ensures Distance(data + p, data + q) <= |p|
  {
    hide Add;
    var n := |p| - 1;
    if n < 0 {
      assert data + p == data == data + q;
      DistanceZero(data, data);
    } else {
      SuffixDistance(data, p[..n], q[..n]);
      assert Plus(data + p, data + q)[..|data| + n] == Plus(data + p[..n], data + q[..n]);
    }
  }

  lemma EvalThree(a: Symbol, b: Symbol, c: Symbol, x: Symbol)
    ensures Eval([a, b, c], x) == Add(Mul(Add(Mul(a, x), b), x), c)
  {
    hide Mul, Add;
    assert [a, b, c][..2] == [a, b] && [a, b][..1] == [a] && [a][..0] == [];
    assert Eval([a], x) == Add(Mul(ZERO, x), a);
    MulZero(ZERO, x);
    AddZero(a);
    AddCommutes(ZERO, a);
  }

  lemma FirstRoots(i: nat)
    requires i < 2
    ensures Eval([ONE, Symbol(3), Symbol(2)], Exp(i)) == ZERO
  {
    hide Mul, Eval;
    var x := Exp(i);
    GF256.AlphaRelation(0);
    EvalThree(ONE, Symbol(3), Symbol(2), x);
    MulOne(x);
    MulCommutes(ONE, x);
    if i == 0 {
      assert x == ONE && Add(ONE, Symbol(3)) == Symbol(2);
      MulOne(Symbol(2));
    } else {
      assert x == Symbol(2) && Add(Symbol(2), Symbol(3)) == ONE;
    }
  }

  /** The smallest code: the two symbols that complete 1 are 3 and 2, so its generator is x^2 + 3 x + 2. */
  lemma FirstParity()
    ensures Parity([ONE], 2) == [Symbol(3), Symbol(2)]
  {
    hide Parity, Eval, IsCodeword, Exp, Mul, Add;
    var parity := [Symbol(3), Symbol(2)];
    var word := [ONE, Symbol(3), Symbol(2)];
    assert [ONE] + parity == word;
    forall i: nat | i < 2 ensures Eval(word, Exp(i)) == ZERO {
      FirstRoots(i);
    }
    CodewordByRoots(word, 2);
    ParityCompletes([ONE], 2);
  }
}

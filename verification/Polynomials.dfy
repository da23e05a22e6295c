/** Polynomials and weighted power sums over the symbols. */
module Polynomials {

  import opened Field

  // Horner evaluation, highest degree first
  function Eval(p: seq<Symbol>, x: Symbol): Symbol {
    if p == [] then ZERO else Add(Mul(Eval(p[..|p| - 1], x), x), p[|p| - 1])
  }

  // sum of w_k X_k^j
  function PowerSum(xs: seq<Symbol>, ws: seq<Symbol>, j: nat): Symbol
    requires |xs| == |ws|
  {
    var n := |xs| - 1;
    if n < 0 then ZERO else Add(PowerSum(xs[..n], ws[..n], j), Mul(ws[n], Pow(xs[n], j)))
  }

  function Weight(ws: seq<Symbol>): nat {
    var n := |ws| - 1;
    if n < 0 then 0 else Weight(ws[..n]) + if ws[n] != ZERO then 1 else 0
  }

  ghost predicate Distinct(xs: seq<Symbol>) {
    forall i, j | 0 <= i < j < |xs| :: xs[i] != xs[j]
  }

  ghost predicate AllZero(ws: seq<Symbol>) {
    forall i | 0 <= i < |ws| :: ws[i] == ZERO
  }

  // the weights multiplied by the values of p at the points
  function Scaled(xs: seq<Symbol>, ws: seq<Symbol>, p: seq<Symbol>): (r: seq<Symbol>)
    requires |xs| == |ws|
  {
    seq(|xs|, k requires 0 <= k < |xs| => Mul(ws[k], Eval(p, xs[k])))
  }

  function Plus(a: seq<Symbol>, b: seq<Symbol>): seq<Symbol>
    requires |a| == |b|
  {
    seq(|a|, k requires 0 <= k < |a| => Add(a[k], b[k]))
  }

  lemma {:induction false} PowerSumPlus(xs: seq<Symbol>, a: seq<Symbol>, b: seq<Symbol>, j: nat)
    requires |xs| == |a| == |b|
    ensures PowerSum(xs, Plus(a, b), j) == Add(PowerSum(xs, a, j), PowerSum(xs, b, j))
  {
    hide Mul, Add;
    var n := |xs| - 1;
    if n < 0 {
      AddZero(ZERO);
    } else {
      PowerSumPlus(xs[..n], a[..n], b[..n], j);
      assert Plus(a, b)[..n] == Plus(a[..n], b[..n]);
      Distributes(Pow(xs[n], j), a[n], b[n]);
      AddSwaps(PowerSum(xs[..n], a[..n], j), PowerSum(xs[..n], b[..n], j), Mul(a[n], Pow(xs[n], j)),
        Mul(b[n], Pow(xs[n], j)));
    }
  }

  lemma {:induction false} PowerSumZero(xs: seq<Symbol>, ws: seq<Symbol>, j: nat)
    requires |xs| == |ws| && AllZero(ws)
    ensures PowerSum(xs, ws, j) == ZERO
  {
    hide Mul, Add;
    var n := |xs| - 1;
    if n >= 0 {
      PowerSumZero(xs[..n], ws[..n], j);
      MulZero(ws[n], Pow(xs[n], j));
      AddZero(ZERO);
    }
  }

  lemma PowerSumSnoc(xs: seq<Symbol>, ws: seq<Symbol>, k: nat, j: nat)
    requires |xs| == |ws| && k < |xs|
    ensures PowerSum(xs[..k + 1], ws[..k + 1], j) == Add(PowerSum(xs[..k], ws[..k], j), Mul(ws[k], Pow(xs[k], j)))
  {
    hide Mul, Add;
    assert xs[..k + 1][..k] == xs[..k] && ws[..k + 1][..k] == ws[..k];
  }

  lemma {:induction false} WeightZero(ws: seq<Symbol>)
    ensures Weight(ws) == 0 <==> AllZero(ws)
    ensures Weight(ws) <= |ws|
  {
    var n := |ws| - 1;
    if n >= 0 {
      WeightZero(ws[..n]);
      assert AllZero(ws) <==> AllZero(ws[..n]) && ws[n] == ZERO;
    }
  }

  lemma {:induction false} WeightMonotone(a: seq<Symbol>, b: seq<Symbol>)
    requires |a| == |b| && forall k | 0 <= k < |a| :: b[k] == ZERO ==> a[k] == ZERO
    ensures Weight(a) <= Weight(b)
  {
    var n := |a| - 1;
    if n >= 0 { WeightMonotone(a[..n], b[..n]); }
  }

  lemma ScaledWeight(xs: seq<Symbol>, ws: seq<Symbol>, p: seq<Symbol>)
    requires |xs| == |ws|
    ensures Weight(Scaled(xs, ws, p)) <= Weight(ws)
  {
    hide Mul, Eval;
    forall k | 0 <= k < |xs| && ws[k] == ZERO ensures Scaled(xs, ws, p)[k] == ZERO {
      MulZero(ws[k], Eval(p, xs[k]));
    }
    WeightMonotone(Scaled(xs, ws, p), ws);
  }

  // w (e x + c) y == (w e) (y x) + c (w y)
  lemma ScaleTerm(w: Symbol, e: Symbol, x: Symbol, c: Symbol, y: Symbol)
    ensures Mul(Mul(w, Add(Mul(e, x), c)), y) == Add(Mul(Mul(w, e), Mul(y, x)), Mul(c, Mul(w, y)))
  {
    hide Mul, Add;
    Distributes(w, Mul(e, x), c);
    Distributes(y, Mul(w, Mul(e, x)), Mul(w, c));
    MulAssociates(w, e, x);
    MulAssociates(Mul(w, e), x, y);
    MulCommutes(x, y);
    MulCommutes(w, c);
    MulAssociates(c, w, y);
  }

  // One more coefficient of p shifts the power sums once and adds a multiple of the original ones.
  lemma {:induction false} ScaleStep(xs: seq<Symbol>, ws: seq<Symbol>, p: seq<Symbol>, c: Symbol, t: nat)
    requires |xs| == |ws|
    ensures PowerSum(xs, Scaled(xs, ws, p + [c]), t)
         == Add(PowerSum(xs, Scaled(xs, ws, p), t + 1), Mul(c, PowerSum(xs, ws, t)))
  {
    hide Mul, Add;
    var n := |xs| - 1;
    if n < 0 {
      MulZero(c, ZERO);
      AddZero(ZERO);
    } else {
      ScaleStep(xs[..n], ws[..n], p, c, t);
      assert Scaled(xs, ws, p + [c])[..n] == Scaled(xs[..n], ws[..n], p + [c]);
      assert Scaled(xs, ws, p)[..n] == Scaled(xs[..n], ws[..n], p);
      assert (p + [c])[..|p|] == p;
      var term := Mul(ws[n], Pow(xs[n], t));
      ScaleTerm(ws[n], Eval(p, xs[n]), xs[n], c, Pow(xs[n], t));
      Distributes(c, PowerSum(xs[..n], ws[..n], t), term);
      AddSwaps(PowerSum(xs[..n], Scaled(xs, ws, p)[..n], t + 1), Mul(c, PowerSum(xs[..n], ws[..n], t)),
               Mul(Scaled(xs, ws, p)[n], Pow(xs[n], t + 1)), Mul(c, term));
    }
  }

  lemma EvalConstant(c: Symbol, x: Symbol)
    ensures Eval([c], x) == c
  {
    hide Mul, Add;
    MulZero(ZERO, x);
    AddZero(c);
    assert [c][..0] == [];
  }

  lemma ScaledByOne(xs: seq<Symbol>, ws: seq<Symbol>)
    requires |xs| == |ws|
    ensures Scaled(xs, ws, [ONE]) == ws
  {
    hide Mul, Eval;
    forall k | 0 <= k < |xs| ensures Scaled(xs, ws, [ONE])[k] == ws[k] {
      EvalConstant(ONE, xs[k]);
      MulOne(ws[k]);
    }
  }

  // Weights whose first v power sums vanish are zero, if at most v of them are nonzero.
  lemma {:induction false} Vandermonde(xs: seq<Symbol>, ws: seq<Symbol>, v: nat)
    requires |xs| == |ws| && Distinct(xs) && Weight(ws) <= v
    requires forall j: nat | j < v :: PowerSum(xs, ws, j) == ZERO
    ensures AllZero(ws)
    decreases |xs|, 1
  {
    hide Mul, Add, Eval;
    var n := |xs| - 1;
    if n >= 0 {
      var xs', ws' := xs[..n], ws[..n];
      if ws[n] == ZERO {
        forall j: nat | j < v ensures PowerSum(xs', ws', j) == ZERO {
          MulZero(ws[n], Pow(xs[n], j));
          AddZero(PowerSum(xs', ws', j));
          assert PowerSum(xs, ws, j) == ZERO;
        }
        Vandermonde(xs', ws', v);
      } else {
        Eliminate(xs, ws, v);
        PowerSumZero(xs', ws', 0);
        assert PowerSum(xs, ws, 0) == Add(ZERO, Mul(ws[n], ONE));
        AddZero(Mul(ws[n], ONE));
        MulOne(ws[n]);
      }
    }
  }

  // Multiplying every weight by (X_k + X_last) removes the last one.
  lemma {:induction false} Eliminate(xs: seq<Symbol>, ws: seq<Symbol>, v: nat)
    requires |xs| == |ws| > 0 && Distinct(xs) && Weight(ws) <= v && ws[|ws| - 1] != ZERO
    requires forall j: nat | j < v :: PowerSum(xs, ws, j) == ZERO
    ensures AllZero(ws[..|ws| - 1])
    decreases |xs|, 0
  {
    hide Mul, Add, Pow;
    var n := |xs| - 1;
    var x := xs[n];
    var scaled := Scaled(xs, ws, [ONE, x]);
    forall k | 0 <= k <= n ensures scaled[k] == Mul(ws[k], Add(xs[k], x)) {
      assert [ONE, x][..1] == [ONE];
      EvalConstant(ONE, xs[k]);
      MulOne(xs[k]);
    }
    AddCancels(x, x);
    MulZero(ws[n], ZERO);
    forall j: nat | j < v - 1 ensures PowerSum(xs[..n], scaled[..n], j) == ZERO {
      assert [ONE] + [x] == [ONE, x];
      ScaleStep(xs, ws, [ONE], x, j);
      ScaledByOne(xs, ws);
      MulZero(x, ZERO);
      AddZero(ZERO);
      MulZero(ZERO, Pow(x, j));
      AddZero(PowerSum(xs[..n], scaled[..n], j));
    }
    forall k | 0 <= k < n ensures scaled[k] == ZERO <==> ws[k] == ZERO {
      AddCancels(xs[k], x);
      MulZero(ws[k], Add(xs[k], x));
    }
    WeightMonotone(scaled[..n], ws[..n]);
    Vandermonde(xs[..n], scaled[..n], v - 1);
  }

  // ---- Filtering a sequence of power sums ----

  function At(f: seq<Symbol>, i: int): Symbol {
    if 0 <= i < |f| then f[i] else ZERO
  }

  // sum of f_i s_{j-i} over i < n
  function Conv(f: seq<Symbol>, s: seq<Symbol>, j: nat, n: nat): Symbol
    requires n <= j + 1 <= |s|
  {
    if n == 0 then ZERO else Add(Conv(f, s, j, n - 1), Mul(At(f, n - 1), s[j - (n - 1)]))
  }

  lemma {:induction false} ConvExtends(f: seq<Symbol>, s: seq<Symbol>, j: nat, n: nat)
    requires |f| <= n <= j + 1 <= |s|
    ensures Conv(f, s, j, n) == Conv(f, s, j, |f|)
  {
    hide Mul, Add;
    if n > |f| {
      ConvExtends(f, s, j, n - 1);
      MulZero(ZERO, s[j - (n - 1)]);
      AddZero(Conv(f, s, j, n - 1));
    }
  }

  // r == a + c x^m b, coefficient by coefficient below n
  ghost predicate Combines(r: seq<Symbol>, a: seq<Symbol>, c: Symbol, m: nat, b: seq<Symbol>, n: nat) {
    forall i: nat | i < n :: At(r, i) == Add(At(a, i), Mul(c, At(b, i - m)))
  }

  lemma {:induction false} ConvCombines(
    r: seq<Symbol>, a: seq<Symbol>, c: Symbol, m: nat, b: seq<Symbol>, s: seq<Symbol>, j: nat, n: nat)
    requires n <= j + 1 <= |s| && Combines(r, a, c, m, b, n)
    ensures Conv(r, s, j, n) == Add(Conv(a, s, j, n), Mul(c, if n <= m then ZERO else Conv(b, s, j - m, n - m)))
  {
    hide Mul, Add;
    MulZero(c, ZERO);
    if n == 0 {
      AddZero(ZERO);
    } else {
      ConvCombines(r, a, c, m, b, s, j, n - 1);
      var v := s[j - (n - 1)];
      Distributes(v, At(a, n - 1), Mul(c, At(b, n - 1 - m)));
      MulAssociates(c, At(b, n - 1 - m), v);
      if n <= m {
        MulZero(ZERO, v);
        AddZero(Conv(a, s, j, n - 1));
        AddZero(Mul(At(a, n - 1), v));
        AddZero(Conv(a, s, j, n));
      } else {
        var before := if n - 1 <= m then ZERO else Conv(b, s, j - m, n - 1 - m);
        Distributes(c, before, Mul(At(b, n - 1 - m), v));
        AddSwaps(Conv(a, s, j, n - 1), Mul(c, before), Mul(At(a, n - 1), v), Mul(c, Mul(At(b, n - 1 - m), v)));
      }
    }
  }

  // A filter turns power sums of ws into power sums of ws scaled by its values.
  lemma {:induction false} ConvOfPowerSums(
    xs: seq<Symbol>, ws: seq<Symbol>, f: seq<Symbol>, s: seq<Symbol>, j: nat, n: nat)
    requires |xs| == |ws| && n <= |f| && n <= j + 1 <= |s|
    requires forall k: nat | k < |s| :: s[k] == PowerSum(xs, ws, k)
    ensures Conv(f, s, j, n) == PowerSum(xs, Scaled(xs, ws, f[..n]), j + 1 - n)
  {
    hide Mul, Add;
    if n == 0 {
      forall k | 0 <= k < |xs| ensures Scaled(xs, ws, f[..0])[k] == ZERO {
        MulZero(ws[k], ZERO);
      }
      PowerSumZero(xs, Scaled(xs, ws, f[..0]), j + 1);
    } else {
      ConvOfPowerSums(xs, ws, f, s, j, n - 1);
      assert f[..n] == f[..n - 1] + [f[n - 1]];
      ScaleStep(xs, ws, f[..n - 1], f[n - 1], j + 1 - n);
    }
  }

  // ---- Roots ----

  // synthetic division by (x + a)
  function Quotient(p: seq<Symbol>, a: Symbol): (q: seq<Symbol>)
    requires p != []
    ensures |q| == |p| - 1 && (|p| > 1 ==> q[0] == p[0])
  {
    hide Mul, Add;
    if |p| == 1 then []
    else
      EvalConstant(p[0], a);
      assert |p| == 2 ==> p[..1] == [p[0]];
      Quotient(p[..|p| - 1], a) + [Eval(p[..|p| - 1], a)]
  }

  lemma DivisionStep(x: Symbol, a: Symbol, q: Symbol, r: Symbol, c: Symbol)
    ensures Add(Mul(Add(Mul(Add(x, a), q), r), x), c) == Add(Mul(Add(x, a), Add(Mul(q, x), r)), Add(Mul(r, a), c))
  {
    hide Mul, Add;
    var y := Add(x, a);
    // left: (y q) x + r x + c; right: y (q x) + (r x + r a) + (r a + c)
    Distributes(x, Mul(y, q), r);
    MulAssociates(y, q, x);
    Distributes(y, Mul(q, x), r);
    MulCommutes(y, r);
    Distributes(r, x, a);
    AddAssociates(Mul(y, Mul(q, x)), Mul(r, x), c);
    AddAssociates(Mul(y, Mul(q, x)), Add(Mul(r, x), Mul(r, a)), Add(Mul(r, a), c));
    AddAssociates(Mul(r, x), Mul(r, a), Add(Mul(r, a), c));
    AddAssociates(Mul(r, a), Mul(r, a), c);
    AddCancels(Mul(r, a), Mul(r, a));
    AddZero(c);
    AddAssociates(Mul(r, x), Add(Mul(r, a), Mul(r, a)), c);
  }

  lemma {:induction false} Division(p: seq<Symbol>, a: Symbol, x: Symbol)
    requires p != []
    ensures Eval(p, x) == Add(Mul(Add(x, a), Eval(Quotient(p, a), x)), Eval(p, a))
  {
    hide Mul, Add;
    var n := |p| - 1;
    if n == 0 {
      EvalConstant(p[0], x);
      EvalConstant(p[0], a);
      assert p == [p[0]];
      MulZero(Add(x, a), ZERO);
      AddZero(p[0]);
    } else {
      Division(p[..n], a, x);
      var q := Quotient(p[..n], a);
      assert Quotient(p, a)[..n - 1] == q;
      DivisionStep(x, a, Eval(q, x), Eval(p[..n], a), p[n]);
    }
  }

  function RootCount(p: seq<Symbol>, xs: seq<Symbol>): nat {
    var n := |xs| - 1;
    if n < 0 then 0 else RootCount(p, xs[..n]) + if Eval(p, xs[n]) == ZERO then 1 else 0
  }

  lemma {:induction false} SameRootCount(p: seq<Symbol>, q: seq<Symbol>, xs: seq<Symbol>)
    requires forall k | 0 <= k < |xs| :: Eval(p, xs[k]) == ZERO <==> Eval(q, xs[k]) == ZERO
    ensures RootCount(p, xs) == RootCount(q, xs)
  {
    hide Eval;
    var n := |xs| - 1;
    if n >= 0 { SameRootCount(p, q, xs[..n]); }
  }

  // A nonzero polynomial has at most as many roots as its degree.
  lemma {:induction false} RootBound(p: seq<Symbol>, xs: seq<Symbol>)
    requires p != [] && p[0] != ZERO && Distinct(xs)
    ensures RootCount(p, xs) <= |p| - 1
    decreases |xs|
  {
    hide Mul, Add, Eval;
    var n := |xs| - 1;
    if n >= 0 {
      EvalConstant(p[0], xs[n]);
      assert |p| == 1 ==> p == [p[0]];
      if Eval(p, xs[n]) != ZERO {
        RootBound(p, xs[..n]);
      } else {
        var q := Quotient(p, xs[n]);
        forall k | 0 <= k < n ensures Eval(p, xs[k]) == ZERO <==> Eval(q, xs[k]) == ZERO {
          Division(p, xs[n], xs[k]);
          AddCancels(xs[k], xs[n]);
          MulZero(Add(xs[k], xs[n]), Eval(q, xs[k]));
          AddZero(Mul(Add(xs[k], xs[n]), Eval(q, xs[k])));
        }
        SameRootCount(p, q, xs[..n]);
        RootBound(q, xs[..n]);
      }
    }
  }

  function Reverse(p: seq<Symbol>): (r: seq<Symbol>)
    ensures |r| == |p|
  {
    if p == [] then [] else [p[|p| - 1]] + Reverse(p[..|p| - 1])
  }

  lemma {:induction false} EvalPrepend(c: Symbol, p: seq<Symbol>, x: Symbol)
    ensures Eval([c] + p, x) == Add(Mul(c, Pow(x, |p|)), Eval(p, x))
  {
    hide Mul, Add;
    var n := |p| - 1;
    if n < 0 {
      assert [c] + p == [c];
      EvalConstant(c, x);
      MulOne(c);
      AddZero(c);
    } else {
      EvalPrepend(c, p[..n], x);
      assert ([c] + p)[..n + 1] == [c] + p[..n];
      Distributes(x, Mul(c, Pow(x, n)), Eval(p[..n], x));
      MulAssociates(c, Pow(x, n), x);
      AddAssociates(Mul(c, Pow(x, n + 1)), Mul(Eval(p[..n], x), x), p[n]);
    }
  }

  lemma {:induction false} PowInverse(x: Symbol, y: Symbol, j: nat)
    requires Mul(x, y) == ONE
    ensures Mul(Pow(x, j), Pow(y, j)) == ONE
  {
    hide Mul;
    if j == 0 {
      MulOne(ONE);
    } else {
      PowInverse(x, y, j - 1);
      var a, b := Pow(x, j - 1), Pow(y, j - 1);
      MulAssociates(a, x, Mul(b, y));
      MulCommutes(b, y);
      MulAssociates(x, y, b);
      MulOne(b);
    }
  }

  // Reversing the coefficients inverts the roots.
  lemma {:induction false} EvalReverse(p: seq<Symbol>, x: Symbol, y: Symbol)
    requires p != [] && Mul(x, y) == ONE
    ensures Mul(Pow(x, |p| - 1), Eval(Reverse(p), y)) == Eval(p, x)
  {
    hide Mul, Add;
    var n := |p| - 1;
    var c, r := p[n], Reverse(p[..n]);
    EvalPrepend(c, r, y);
    Distributes(Pow(x, n), Mul(c, Pow(y, n)), Eval(r, y));
    MulCommutes(c, Pow(y, n));
    MulAssociates(Pow(x, n), Pow(y, n), c);
    PowInverse(x, y, n);
    MulOne(c);
    if n == 0 {
      MulZero(ONE, ZERO);
      EvalConstant(c, x);
      assert p == [c];
      AddZero(c);
    } else {
      EvalReverse(p[..n], x, y);
      var a := Pow(x, n - 1);
      MulAssociates(a, x, Eval(r, y));
      MulCommutes(x, Eval(r, y));
      MulAssociates(a, Eval(r, y), x);
      AddCommutes(c, Mul(Eval(p[..n], x), x));
    }
  }

  lemma ReversedRoots(p: seq<Symbol>, x: Symbol, y: Symbol)
    requires p != [] && Mul(x, y) == ONE
    ensures Eval(Reverse(p), y) == ZERO <==> Eval(p, x) == ZERO
  {
    hide Mul, Eval;
    EvalReverse(p, x, y);
    MulZero(x, y);
    PowNonzero(x, |p| - 1);
    MulZero(Pow(x, |p| - 1), Eval(Reverse(p), y));
  }
}

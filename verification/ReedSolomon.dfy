/** Reed-Solomon words: syndromes, code distance, and the decoder that corrects nsym / 2 wrong symbols. */
module ReedSolomon {

  import GF256
  import opened Field
  import opened Polynomials
  import opened BerlekampMassey
  import opened LinearSystem

  // Position p of a word of length n stands for the power n - 1 - p.
  function Locators(n: nat): (xs: seq<Symbol>)
    ensures |xs| == n
  {
    seq(n, p requires 0 <= p < n => Exp(n - 1 - p))
  }

  // The table lookup the syndromes are summed from: w alpha^e
  function Term(w: Symbol, e: nat): Symbol {
    if w == ZERO then ZERO else Symbol(GF256.Exp((GF256.Log(w.bits) + e) % 255))
  }

  // msg(alpha^i), summed over the first k positions
  function Syndrome(msg: seq<Symbol>, i: nat, k: nat): Symbol
    requires k <= |msg|
  {
    if k == 0 then ZERO else Add(Syndrome(msg, i, k - 1), Term(msg[k - 1], i * (|msg| - 1 - (k - 1))))
  }

  function Syndromes(msg: seq<Symbol>, nsym: nat): (syn: seq<Symbol>)
    ensures |syn| == nsym
  {
    seq(nsym, i requires 0 <= i < nsym => Syndrome(msg, i, |msg|))
  }

  ghost predicate IsCodeword(word: seq<Symbol>, nsym: nat) {
    AllZero(Syndromes(word, nsym))
  }

  function Distance(a: seq<Symbol>, b: seq<Symbol>): nat
    requires |a| == |b|
  {
    Weight(Plus(a, b))
  }

  // c is a codeword that differs from word in at most nsym / 2 positions
  ghost predicate Corrects(c: seq<Symbol>, word: seq<Symbol>, nsym: nat) {
    |c| == |word| && IsCodeword(c, nsym) && 2 * Distance(word, c) <= nsym
  }

  // ---- Syndromes are power sums at the locators ----

  lemma TermIsProduct(w: Symbol, e: nat)
    ensures Term(w, e) == Mul(w, Exp(e))
  {
    hide GF256.Exp, GF256.Log, GF256.Mul, Mul;
    if w == ZERO {
      MulZero(w, Exp(e));
    } else {
      GF256.ExpLog(w.bits);
      var l := GF256.Log(w.bits);
      assert Exp(l) == w;
      MulExp(l, e);
      ExpMod(l + e);
    }
  }

  lemma {:induction false} SyndromePrefix(msg: seq<Symbol>, i: nat, k: nat)
    requires k <= |msg|
    ensures Syndrome(msg, i, k) == PowerSum(Locators(|msg|)[..k], msg[..k], i)
  {
    hide Term, Mul, Add, Exp;
    if k > 0 {
      SyndromePrefix(msg, i, k - 1);
      var e := |msg| - 1 - (k - 1);
      TermIsProduct(msg[k - 1], i * e);
      PowExp(e, i);
      assert e * i == i * e;
      var xs := Locators(|msg|)[..k];
      assert xs[..k - 1] == Locators(|msg|)[..k - 1] && msg[..k][..k - 1] == msg[..k - 1];
    }
  }

  lemma SyndromeIsPowerSum(msg: seq<Symbol>, nsym: nat)
    ensures forall i: nat | i < nsym :: Syndromes(msg, nsym)[i] == PowerSum(Locators(|msg|), msg, i)
    ensures IsCodeword(msg, nsym) <==> forall i: nat | i < nsym :: PowerSum(Locators(|msg|), msg, i) == ZERO
  {
    hide Syndrome, PowerSum;
    forall i: nat | i < nsym ensures Syndromes(msg, nsym)[i] == PowerSum(Locators(|msg|), msg, i) {
      SyndromePrefix(msg, i, |msg|);
      assert Locators(|msg|)[..|msg|] == Locators(|msg|) && msg[..|msg|] == msg;
    }
  }

  lemma LocatorsDistinct(n: nat)
    requires n <= 255
    ensures Distinct(Locators(n))
  {
    hide Exp;
    var xs := Locators(n);
    forall i, j | 0 <= i < j < |xs| ensures xs[i] != xs[j] {
      if xs[i] == xs[j] { ExpInjective(n - 1 - i, n - 1 - j); }
    }
  }

  // ---- Distance ----

  lemma DistanceSymmetric(a: seq<Symbol>, b: seq<Symbol>)
    requires |a| == |b|
    ensures Plus(a, b) == Plus(b, a)
  {
  }

  lemma {:induction false} Triangle(a: seq<Symbol>, b: seq<Symbol>, c: seq<Symbol>)
    requires |a| == |b| == |c|
    ensures Distance(a, c) <= Distance(a, b) + Distance(b, c)
  {
    hide Add;
    var n := |a| - 1;
    if n >= 0 {
      Triangle(a[..n], b[..n], c[..n]);
      assert Plus(a, b)[..n] == Plus(a[..n], b[..n]);
      assert Plus(b, c)[..n] == Plus(b[..n], c[..n]);
      assert Plus(a, c)[..n] == Plus(a[..n], c[..n]);
      AddCancels(a[n], b[n]);
      AddCancels(b[n], c[n]);
      AddCancels(a[n], c[n]);
    }
  }

  lemma {:induction false} DistanceZero(a: seq<Symbol>, b: seq<Symbol>)
    requires |a| == |b|
    ensures Distance(a, b) == 0 <==> a == b
  {
    hide Add;
    WeightZero(Plus(a, b));
    forall k | 0 <= k < |a| ensures Plus(a, b)[k] == ZERO <==> a[k] == b[k] {
      AddCancels(a[k], b[k]);
    }
  }

  // Two codewords of length at most 255 that differ at all differ in more than nsym positions.
  lemma MinimumDistance(a: seq<Symbol>, b: seq<Symbol>, nsym: nat)
    requires |a| == |b| <= 255 && IsCodeword(a, nsym) && IsCodeword(b, nsym) && a != b
    ensures Distance(a, b) > nsym
  {
    hide Add, PowerSum, IsCodeword;
    var xs := Locators(|a|);
    SyndromeIsPowerSum(a, nsym);
    SyndromeIsPowerSum(b, nsym);
    if Distance(a, b) <= nsym {
      forall j: nat | j < nsym ensures PowerSum(xs, Plus(a, b), j) == ZERO {
        PowerSumPlus(xs, a, b, j);
        AddZero(ZERO);
      }
      LocatorsDistinct(|a|);
      Vandermonde(xs, Plus(a, b), nsym);
      WeightZero(Plus(a, b));
      DistanceZero(a, b);
    }
  }

  lemma UniqueCorrection(a: seq<Symbol>, b: seq<Symbol>, word: seq<Symbol>, nsym: nat)
    requires |word| <= 255 && Corrects(a, word, nsym) && Corrects(b, word, nsym)
    ensures a == b
  {
    hide IsCodeword;
    DistanceSymmetric(word, a);
    Triangle(a, word, b);
    if a != b { MinimumDistance(a, b, nsym); }
  }

  // ---- The locator found for a correctable word ----

  // If word is correctable, the recurrence has one root per wrong symbol.
  lemma LocatorOfCorrectable(word: seq<Symbol>, c: seq<Symbol>, nsym: nat, sigma: seq<Symbol>)
    requires |word| <= 255 && Corrects(c, word, nsym)
    requires sigma != [] && sigma[0] == ONE && Annihilates(sigma, Syndromes(word, nsym), nsym)
    requires forall xs, ws | Explains(xs, ws, Syndromes(word, nsym)) :: |sigma| - 1 <= Weight(ws)
    ensures 2 * (|sigma| - 1) <= nsym
    ensures RootCount(sigma, Locators(|word|)) == |sigma| - 1
  {
    hide Mul, Add, PowerSum, Eval, IsCodeword, Syndromes, Conv;
    var xs, e, syn := Locators(|word|), Plus(word, c), Syndromes(word, nsym);
    var L, v := |sigma| - 1, Distance(word, c);
    LocatorsDistinct(|word|);
    SyndromeIsPowerSum(word, nsym);
    SyndromeIsPowerSum(c, nsym);
    forall k: nat | k < nsym ensures syn[k] == PowerSum(xs, e, k) {
      PowerSumPlus(xs, word, c, k);
      AddZero(PowerSum(xs, word, k));
    }
    assert Explains(xs, e, syn);
    var scaled := Scaled(xs, e, sigma);
    ScaledWeight(xs, e, sigma);
    forall j: nat | j < v ensures PowerSum(xs, scaled, j) == ZERO {
      ConvOfPowerSums(xs, e, sigma, syn, j + L, L + 1);
      assert sigma[..L + 1] == sigma;
    }
    Vandermonde(xs, scaled, v);
    forall k | 0 <= k < |xs| && e[k] != ZERO ensures Eval(sigma, xs[k]) == ZERO {
      assert scaled[k] == ZERO;
      MulZero(e[k], Eval(sigma, xs[k]));
    }
    WeightBelowRoots(xs, e, sigma);
    RootBound(sigma, xs);
  }

  lemma {:induction false} WeightBelowRoots(xs: seq<Symbol>, e: seq<Symbol>, p: seq<Symbol>)
    requires |xs| == |e| && forall k | 0 <= k < |xs| && e[k] != ZERO :: Eval(p, xs[k]) == ZERO
    ensures Weight(e) <= RootCount(p, xs)
  {
    hide Eval;
    var n := |xs| - 1;
    if n >= 0 { WeightBelowRoots(xs[..n], e[..n], p); }
  }

  // ---- Values at the roots that match the first syndromes match all of them ----

  lemma {:induction false} ConvAgrees(f: seq<Symbol>, s: seq<Symbol>, t: seq<Symbol>, j: nat, n: nat)
    requires 1 <= n <= j + 1 <= |s| && |t| == |s| && forall k | 0 <= k < j :: s[k] == t[k]
    ensures Add(Conv(f, s, j, n), Mul(At(f, 0), s[j])) == Add(Conv(f, t, j, n), Mul(At(f, 0), t[j]))
  {
    hide Mul, Add;
    if n == 1 {
      assert Conv(f, s, j, 0) == ZERO == Conv(f, t, j, 0);
      assert Conv(f, s, j, 1) == Add(ZERO, Mul(At(f, 0), s[j]));
      assert Conv(f, t, j, 1) == Add(ZERO, Mul(At(f, 0), t[j]));
      AddZero(Mul(At(f, 0), s[j]));
      AddZero(Mul(At(f, 0), t[j]));
      AddCancels(Mul(At(f, 0), s[j]), Mul(At(f, 0), s[j]));
      AddCancels(Mul(At(f, 0), t[j]), Mul(At(f, 0), t[j]));
    } else {
      ConvAgrees(f, s, t, j, n - 1);
      var u := Mul(At(f, n - 1), s[j - (n - 1)]);
      AddSwaps(Conv(f, s, j, n - 1), u, Mul(At(f, 0), s[j]), ZERO);
      AddSwaps(Conv(f, t, j, n - 1), u, Mul(At(f, 0), t[j]), ZERO);
      AddZero(u);
      AddZero(Mul(At(f, 0), s[j]));
      AddZero(Mul(At(f, 0), t[j]));
    }
  }

  lemma {:induction false} ValuesExplain(xs: seq<Symbol>, ws: seq<Symbol>, sigma: seq<Symbol>, syn: seq<Symbol>, n: nat)
    requires |xs| == |ws| && n <= |syn|
    requires sigma != [] && sigma[0] == ONE && Annihilates(sigma, syn, |syn|)
    requires forall k | 0 <= k < |xs| :: Eval(sigma, xs[k]) == ZERO
    requires forall j: nat | j < |sigma| - 1 && j < |syn| :: syn[j] == PowerSum(xs, ws, j)
    ensures forall j: nat | j < n :: syn[j] == PowerSum(xs, ws, j)
  {
    hide Mul, Add, PowerSum, Eval, Conv;
    if n > 0 {
      ValuesExplain(xs, ws, sigma, syn, n - 1);
      var j, L := n - 1, |sigma| - 1;
      if j >= L {
        var sums := seq(|syn|, k requires 0 <= k < |syn| => PowerSum(xs, ws, k));
        ConvAgrees(sigma, syn, sums, j, L + 1);
        ConvOfPowerSums(xs, ws, sigma, sums, j, L + 1);
        assert sigma[..L + 1] == sigma;
        forall k | 0 <= k < |xs| ensures Scaled(xs, ws, sigma)[k] == ZERO {
          MulZero(ws[k], Eval(sigma, xs[k]));
        }
        PowerSumZero(xs, Scaled(xs, ws, sigma), j - L);
        MulOne(syn[j]);
        MulOne(sums[j]);
        AddZero(syn[j]);
        AddZero(sums[j]);
      }
    }
  }

  // ---- The steps of the decoder ----

  datatype Error = TooManyErrors | LocatorMismatch | SingularSystem | Uncorrectable
  datatype Outcome = Corrected | Failed(error: Error)

  method PolyEval(p: seq<Symbol>, x: Symbol) returns (y: Symbol)
    ensures y == Eval(p, x)
  {
    hide Mul, Add;
    y := ZERO;
    for i := 0 to |p|
      invariant y == Eval(p[..i], x)
    {
      assert p[..i + 1][..i] == p[..i];
      y := Add(Mul(y, x), p[i]);
    }
    assert p[..|p|] == p;
  }

  // the locators of the chosen positions
  function LocatorsAt(n: nat, positions: seq<nat>): (xs: seq<Symbol>)
    requires forall k | 0 <= k < |positions| :: positions[k] < n
    ensures |xs| == |positions|
  {
    seq(|positions|, k requires 0 <= k < |positions| => Locators(n)[positions[k]])
  }

  ghost predicate Increasing(positions: seq<nat>, n: nat) {
    && (forall k | 0 <= k < |positions| :: positions[k] < n)
    && forall i, k | 0 <= i < k < |positions| :: positions[i] < positions[k]
  }

  lemma InverseLocator(n: nat, p: nat)
    requires p < n
    ensures Mul(Locators(n)[p], Exp((p - n + 1) % 255)) == ONE
  {
    hide Mul, Exp;
    var a, b := n - 1 - p, (p - n + 1) % 255;
    MulExp(a, b);
    ExpMod(a + b);
    assert (a + b) % 255 == 0;
    ExpZero();
  }

  // Chien search: the positions whose locators are roots
  method FindPositions(sigma: seq<Symbol>, n: nat) returns (positions: seq<nat>)
    requires sigma != []
    ensures Increasing(positions, n) && |positions| == RootCount(sigma, Locators(n))
    ensures forall k | 0 <= k < |positions| :: Eval(sigma, LocatorsAt(n, positions)[k]) == ZERO
  {
    hide Mul, Add, Eval, Exp;
    positions := [];
    for p := 0 to n
      invariant Increasing(positions, p) && |positions| == RootCount(sigma, Locators(n)[..p])
      invariant forall k | 0 <= k < |positions| :: Eval(sigma, Locators(n)[positions[k]]) == ZERO
    {
      assert Locators(n)[..p + 1][..p] == Locators(n)[..p];
      var value := PolyEval(Reverse(sigma), Exp((p - n + 1) % 255));
      InverseLocator(n, p);
      ReversedRoots(sigma, Locators(n)[p], Exp((p - n + 1) % 255));
      if value == ZERO { positions := positions + [p]; }
    }
    assert Locators(n)[..n] == Locators(n);
  }

  // row i: the i-th powers of the locators, then syndrome i
  function MagnitudeSystem(n: nat, positions: seq<nat>, syn: seq<Symbol>): (A: seq<seq<Symbol>>)
    requires Increasing(positions, n) && |positions| <= |syn|
    ensures Shaped(A, |positions|)
  {
    var size := |positions|;
    seq(size, i requires 0 <= i < size =>
      seq(size, k requires 0 <= k < size => Exp(((n - 1 - positions[k]) % 255 * i) % 255)) + [syn[i]])
  }

  lemma PowerOfLocator(n: nat, p: nat, i: nat)
    requires p < n
    ensures Exp(((n - 1 - p) % 255 * i) % 255) == Pow(Locators(n)[p], i)
  {
    hide Mul, Exp, Pow;
    var a := (n - 1 - p) % 255;
    ExpMod(a * i);
    PowExp(a, i);
    ExpMod(n - 1 - p);
  }

  lemma {:induction false} DotIsPowerSum(row: seq<Symbol>, xs: seq<Symbol>, y: seq<Symbol>, i: nat)
    requires |row| == |xs| == |y| && forall k | 0 <= k < |xs| :: row[k] == Pow(xs[k], i)
    ensures Dot(row, y) == PowerSum(xs, y, i)
  {
    hide Mul, Add, Pow;
    var n := |row| - 1;
    if n >= 0 {
      DotIsPowerSum(row[..n], xs[..n], y[..n], i);
      MulCommutes(row[n], y[n]);
    }
  }

  lemma SystemMeaning(n: nat, positions: seq<nat>, syn: seq<Symbol>, y: seq<Symbol>)
    requires Increasing(positions, n) && |positions| <= |syn| && |y| == |positions| + 1
    ensures var size := |positions|;
      Kills(MagnitudeSystem(n, positions, syn), y) <==>
      forall i: nat | i < size :: PowerSum(LocatorsAt(n, positions), y[..size], i) == Mul(syn[i], y[size])
  {
    hide Mul, Add, Exp, PowerSum, Pow;
    var size, A, xs := |positions|, MagnitudeSystem(n, positions, syn), LocatorsAt(n, positions);
    forall i: nat | i < size ensures Dot(A[i], y) == ZERO <==> PowerSum(xs, y[..size], i) == Mul(syn[i], y[size]) {
      forall k | 0 <= k < size ensures A[i][..size][k] == Pow(xs[k], i) {
        PowerOfLocator(n, positions[k], i);
      }
      DotIsPowerSum(A[i][..size], xs, y[..size], i);
      AddCancels(PowerSum(xs, y[..size], i), Mul(syn[i], y[size]));
    }
  }

  lemma LocatorsAtDistinct(n: nat, positions: seq<nat>)
    requires n <= 255 && Increasing(positions, n)
    ensures Distinct(LocatorsAt(n, positions))
  {
    hide Exp;
    LocatorsDistinct(n);
    var xs := LocatorsAt(n, positions);
    forall i, k | 0 <= i < k < |xs| ensures xs[i] != xs[k] {
      assert Locators(n)[positions[i]] != Locators(n)[positions[k]];
    }
  }

  lemma NeverSingular(n: nat, positions: seq<nat>, syn: seq<Symbol>, y: seq<Symbol>)
    requires n <= 255 && Increasing(positions, n) && |positions| <= |syn|
    ensures !SingularWitness(MagnitudeSystem(n, positions, syn), |positions|, y)
  {
    hide Mul, PowerSum, Kills, LocatorsAt, MagnitudeSystem;
    var size := |positions|;
    if SingularWitness(MagnitudeSystem(n, positions, syn), size, y) {
      SystemMeaning(n, positions, syn, y);
      forall i: nat | i < size ensures PowerSum(LocatorsAt(n, positions), y[..size], i) == ZERO {
        MulZero(syn[i], ZERO);
      }
      LocatorsAtDistinct(n, positions);
      WeightZero(y[..size]);
      Vandermonde(LocatorsAt(n, positions), y[..size], size);
    }
  }

  lemma {:induction false} PowerSumUpdate(xs: seq<Symbol>, ws: seq<Symbol>, p: nat, v: Symbol, j: nat)
    requires |xs| == |ws| && p < |ws|
    ensures PowerSum(xs, ws[p := Add(ws[p], v)], j) == Add(PowerSum(xs, ws, j), Mul(v, Pow(xs[p], j)))
  {
    hide Mul, Add;
    var n := |xs| - 1;
    var updated := ws[p := Add(ws[p], v)];
    var before := PowerSum(xs[..n], ws[..n], j);
    if p == n {
      assert updated[..n] == ws[..n];
      Distributes(Pow(xs[n], j), ws[n], v);
      AddAssociates(before, Mul(ws[n], Pow(xs[n], j)), Mul(v, Pow(xs[n], j)));
    } else {
      PowerSumUpdate(xs[..n], ws[..n], p, v, j);
      assert updated[..n] == ws[..n][p := Add(ws[p], v)];
      AddSwaps(before, Mul(v, Pow(xs[p], j)), Mul(ws[n], Pow(xs[n], j)), ZERO);
      AddZero(Mul(ws[n], Pow(xs[n], j)));
      AddZero(Mul(v, Pow(xs[p], j)));
    }
  }

  lemma {:induction false} DistanceUpdate(a: seq<Symbol>, b: seq<Symbol>, p: nat, v: Symbol)
    requires |a| == |b| && p < |b|
    ensures Distance(a, b[p := v]) <= Distance(a, b) + 1
  {
    hide Add;
    var n := |a| - 1;
    assert Plus(a, b)[..n] == Plus(a[..n], b[..n]);
    if p == n {
      assert Plus(a, b[p := v])[..n] == Plus(a[..n], b[..n]);
    } else {
      DistanceUpdate(a[..n], b[..n], p, v);
      assert Plus(a, b[p := v])[..n] == Plus(a[..n], b[..n][p := v]);
    }
  }

  // after has the power sums of before plus those of ws at xs
  ghost predicate AddsPowerSums(after: seq<Symbol>, before: seq<Symbol>, xs: seq<Symbol>, ws: seq<Symbol>)
    requires |after| == |before| && |xs| == |ws|
  {
    var all := Locators(|after|);
    forall i: nat :: PowerSum(all, after, i) == Add(PowerSum(all, before, i), PowerSum(xs, ws, i))
  }

  lemma AddsNothing(word: seq<Symbol>)
    ensures AddsPowerSums(word, word, [], [])
  {
    hide Add;
    var all := Locators(|word|);
    forall i: nat ensures PowerSum(all, word, i) == Add(PowerSum(all, word, i), PowerSum([], [], i)) {
      AddZero(PowerSum(all, word, i));
    }
  }

  lemma AddsOneMore(word: seq<Symbol>, before: seq<Symbol>, xs: seq<Symbol>, ws: seq<Symbol>, p: nat, v: Symbol)
    requires |word| == |before| && |xs| == |ws| && p < |word| && AddsPowerSums(word, before, xs, ws)
    ensures AddsPowerSums(word[p := Add(word[p], v)], before, xs + [Locators(|word|)[p]], ws + [v])
  {
    hide Mul, Add, Pow, Exp;
    var all, fixed := Locators(|word|), word[p := Add(word[p], v)];
    var xs', ws' := xs + [all[p]], ws + [v];
    forall i: nat ensures PowerSum(all, fixed, i) == Add(PowerSum(all, before, i), PowerSum(xs', ws', i)) {
      PowerSumUpdate(all, word, p, v, i);
      assert xs'[..|xs|] == xs && ws'[..|ws|] == ws;
      AddAssociates(PowerSum(all, before, i), PowerSum(xs, ws, i), Mul(v, Pow(all[p], i)));
    }
  }

  method ApplyMagnitudes(msg: array<Symbol>, positions: seq<nat>, values: seq<Symbol>)
    requires Increasing(positions, msg.Length) && |values| == |positions|
    modifies msg
    ensures AddsPowerSums(msg[..], old(msg[..]), LocatorsAt(msg.Length, positions), values)
    ensures Distance(old(msg[..]), msg[..]) <= |positions|
  {
    hide Add, AddsPowerSums, Distance, Exp;
    ghost var before := msg[..];
    ghost var xs := LocatorsAt(msg.Length, positions);
    DistanceZero(before, before);
    AddsNothing(before);
    for k := 0 to |positions|
      invariant AddsPowerSums(msg[..], before, xs[..k], values[..k])
      invariant Distance(before, msg[..]) <= k
    {
      var p := positions[k];
      ghost var word := msg[..];
      msg[p] := Add(msg[p], values[k]);
      assert msg[..] == word[p := Add(word[p], values[k])];
      DistanceUpdate(before, word, p, msg[p]);
      AddsOneMore(word, before, xs[..k], values[..k], p, values[k]);
      assert xs[..k + 1] == xs[..k] + [xs[k]] && values[..k + 1] == values[..k] + [values[k]];
    }
    assert xs[..|positions|] == xs && values[..|positions|] == values;
  }

  lemma SolutionExplains(n: nat, syn: seq<Symbol>, sigma: seq<Symbol>, positions: seq<nat>, values: seq<Symbol>)
    requires Increasing(positions, n) && |positions| == |values| == |sigma| - 1 <= |syn|
    requires sigma[0] == ONE && Annihilates(sigma, syn, |syn|)
    requires forall k | 0 <= k < |positions| :: Eval(sigma, LocatorsAt(n, positions)[k]) == ZERO
    requires Kills(MagnitudeSystem(n, positions, syn), values + [ONE])
    ensures forall i: nat | i < |syn| :: syn[i] == PowerSum(LocatorsAt(n, positions), values, i)
  {
    hide Mul, PowerSum, Eval, Kills, LocatorsAt, MagnitudeSystem, Annihilates;
    SystemMeaning(n, positions, syn, values + [ONE]);
    assert (values + [ONE])[..|positions|] == values;
    forall i: nat | i < |positions| ensures syn[i] == PowerSum(LocatorsAt(n, positions), values, i) {
      MulOne(syn[i]);
    }
    ValuesExplain(LocatorsAt(n, positions), values, sigma, syn, |syn|);
  }

  lemma ExplainedIsCodeword(word: seq<Symbol>, fixed: seq<Symbol>, nsym: nat, xs: seq<Symbol>, values: seq<Symbol>)
    requires |fixed| == |word| && |xs| == |values| && AddsPowerSums(fixed, word, xs, values)
    requires forall i: nat | i < nsym :: Syndromes(word, nsym)[i] == PowerSum(xs, values, i)
    ensures IsCodeword(fixed, nsym)
  {
    hide Add, PowerSum, Syndromes, IsCodeword, Locators;
    SyndromeIsPowerSum(word, nsym);
    SyndromeIsPowerSum(fixed, nsym);
    forall i: nat | i < nsym ensures PowerSum(Locators(|word|), fixed, i) == ZERO {
      AddCancels(PowerSum(xs, values, i), PowerSum(xs, values, i));
    }
  }

  // A word is corrected exactly when some codeword lies within nsym / 2 symbols of it, and it becomes
  // that codeword; otherwise the word is left alone. Only the first two checks ever fail.
  method RsCorrect(msg: array<Symbol>, nsym: nat) returns (outcome: Outcome)
    modifies msg
    ensures outcome.Corrected? ==> IsCodeword(msg[..], nsym)
    ensures msg.Length <= 255 ==> (outcome.Corrected? <==> exists c :: Corrects(c, old(msg[..]), nsym))
    ensures msg.Length <= 255 ==> forall c | Corrects(c, old(msg[..]), nsym) :: msg[..] == c
    ensures msg.Length <= 255 && outcome.Failed? ==>
      msg[..] == old(msg[..]) && (outcome.error.TooManyErrors? || outcome.error.LocatorMismatch?)
  {
    hide Mul, Add, PowerSum, Eval, Conv, Kills, Syndromes;
    hide LocatorsAt, MagnitudeSystem, Locators, Annihilates, Explains, Distance, RootCount;
    var n := msg.Length;
    ghost var word := msg[..];
    var syn := Syndromes(msg[..], nsym);
    if forall i | 0 <= i < nsym :: syn[i] == ZERO {
      DistanceZero(word, word);
      assert Corrects(word, word, nsym);
      forall c | n <= 255 && Corrects(c, word, nsym) ensures c == word { UniqueCorrection(c, word, word, nsym); }
      return Corrected;
    }

    var sigma, L := ShortestRecurrence(syn);
    forall c | n <= 255 && Corrects(c, word, nsym) ensures 2 * L <= nsym && RootCount(sigma, Locators(n)) == L {
      LocatorOfCorrectable(word, c, nsym, sigma);
    }
    if 2 * L > nsym { return Failed(TooManyErrors); }

    var positions := FindPositions(sigma, n);
    if |positions| != L { return Failed(LocatorMismatch); }

    var solution := Solve(MagnitudeSystem(n, positions, syn), L);
    forall y | n <= 255 ensures !SingularWitness(MagnitudeSystem(n, positions, syn), L, y) {
      NeverSingular(n, positions, syn, y);
    }
    if solution.Singular? { return Failed(SingularSystem); }

    ApplyMagnitudes(msg, positions, solution.values);
    assert (solution.values + [ONE])[..L] == solution.values;
    SolutionExplains(n, syn, sigma, positions, solution.values);
    ExplainedIsCodeword(word, msg[..], nsym, LocatorsAt(n, positions), solution.values);
    assert Corrects(msg[..], word, nsym);
    forall c | n <= 255 && Corrects(c, word, nsym) ensures c == msg[..] { UniqueCorrection(c, msg[..], word, nsym); }
    var check := Syndromes(msg[..], nsym);
    if exists i | 0 <= i < nsym :: check[i] != ZERO { return Failed(Uncorrectable); }
    return Corrected;
  }
}

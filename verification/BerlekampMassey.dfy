/** The shortest recurrence of a syndrome sequence. */
module BerlekampMassey {

  import opened Field
  import opened Polynomials

  // syn is the sequence of power sums of these weights at these points
  ghost predicate Explains(xs: seq<Symbol>, ws: seq<Symbol>, syn: seq<Symbol>) {
    |xs| == |ws| && Distinct(xs) && forall k: nat | k < |syn| :: syn[k] == PowerSum(xs, ws, k)
  }

  // f is a recurrence of length |f| - 1 for the entries of syn before r
  ghost predicate Annihilates(f: seq<Symbol>, syn: seq<Symbol>, r: nat) {
    |f| > 0 && r <= |syn| && forall j: nat | |f| - 1 <= j < r :: Conv(f, syn, j, |f|) == ZERO
  }

  // If f of length L fails first at r, no set of r - L or fewer weights explains syn.
  lemma LengthBound(f: seq<Symbol>, syn: seq<Symbol>, r: nat, xs: seq<Symbol>, ws: seq<Symbol>)
    requires r < |syn| && 0 < |f| <= r + 1 && Annihilates(f, syn, r) && Conv(f, syn, r, |f|) != ZERO
    requires Explains(xs, ws, syn)
    ensures r + 2 - |f| <= Weight(ws)
  {
    hide Eval, Conv, PowerSum;
    var L := |f| - 1;
    var scaled := Scaled(xs, ws, f);
    forall j: nat | L <= j <= r ensures Conv(f, syn, j, |f|) == PowerSum(xs, scaled, j - L) {
      ConvOfPowerSums(xs, ws, f, syn, j, |f|);
      assert f[..|f|] == f;
    }
    if Weight(ws) <= r - L {
      ScaledWeight(xs, ws, f);
      forall j: nat | j < r - L ensures PowerSum(xs, scaled, j) == ZERO {
        assert Conv(f, syn, j + L, |f|) == ZERO;
      }
      Vandermonde(xs, scaled, r - L);
      PowerSumZero(xs, scaled, r - L);
    }
  }

  method Discrepancy(sigma: seq<Symbol>, L: nat, syn: seq<Symbol>, r: nat) returns (d: Symbol)
    requires r < |syn| && |sigma| == L + 1 <= r + 1 && sigma[0] == ONE
    ensures d == Conv(sigma, syn, r, L + 1)
  {
    hide Mul, Add;
    d := syn[r];
    MulOne(d);
    AddZero(d);
    assert Conv(sigma, syn, r, 1) == Add(Conv(sigma, syn, r, 0), Mul(sigma[0], syn[r]));
    for i := 1 to L + 1
      invariant d == Conv(sigma, syn, r, i)
    {
      d := Add(d, Mul(sigma[i], syn[r - i]));
    }
  }

  // sigma + coef x^m prev
  method AddShifted(sigma: seq<Symbol>, coef: Symbol, m: nat, prev: seq<Symbol>) returns (next: seq<Symbol>)
    ensures |next| == if |sigma| > m + |prev| then |sigma| else m + |prev|
    ensures forall n: nat :: Combines(next, sigma, coef, m, prev, n)
  {
    hide Mul, Add;
    var shifted := seq(m, _ => ZERO) + prev;
    next := sigma + seq(if |shifted| > |sigma| then |shifted| - |sigma| else 0, _ => ZERO);
    ghost var padded := next;
    for i := 0 to |shifted|
      invariant |next| == |padded|
      invariant forall k: nat | k < i :: next[k] == Add(padded[k], Mul(coef, shifted[k]))
      invariant forall k: nat | i <= k < |next| :: next[k] == padded[k]
    {
      next := next[i := Add(next[i], Mul(coef, shifted[i]))];
    }
    MulZero(coef, ZERO);
    forall i: nat ensures At(next, i) == Add(At(sigma, i), Mul(coef, At(prev, i - m))) {
      AddZero(At(sigma, i));
    }
  }

  // What the loop knows before step r: prev failed first at r - m, with discrepancy b.
  ghost predicate Invariant(
    sigma: seq<Symbol>, prev: seq<Symbol>, L: nat, m: nat, b: Symbol, syn: seq<Symbol>, r: nat) {
    && r <= |syn| && L <= r && |sigma| == L + 1 && sigma[0] == ONE && Annihilates(sigma, syn, r)
    && m > 0 && b != ZERO && |prev| > 0 && m + |prev| == r + 2 - L
    && (L > 0 ==> |prev| - 1 <= r - m && Annihilates(prev, syn, r - m) && Conv(prev, syn, r - m, |prev|) == b)
  }

  lemma StepAnnihilates(
    sigma: seq<Symbol>, prev: seq<Symbol>, L: nat, m: nat, b: Symbol, syn: seq<Symbol>, r: nat, coef: Symbol,
    next: seq<Symbol>)
    requires r < |syn| && Invariant(sigma, prev, L, m, b, syn, r)
    requires Mul(coef, b) == Conv(sigma, syn, r, L + 1)
    requires |next| == if |sigma| > m + |prev| then |sigma| else m + |prev|
    requires Combines(next, sigma, coef, m, prev, |next|)
    ensures Annihilates(next, syn, r + 1)
  {
    hide Mul, Add, Conv;
    forall j: nat | |next| - 1 <= j <= r ensures Conv(next, syn, j, |next|) == ZERO {
      // when L is still 0, next is as long as the prefix and there is nothing to show
      if L > 0 {
        ConvCombines(next, sigma, coef, m, prev, syn, j, |next|);
        ConvExtends(sigma, syn, j, |next|);
        ConvExtends(prev, syn, j - m, |next| - m);
        if j < r {
          MulZero(coef, ZERO);
          AddZero(ZERO);
        } else {
          AddCancels(Mul(coef, b), Mul(coef, b));
        }
      }
    }
  }

  lemma KeepInvariant(sigma: seq<Symbol>, prev: seq<Symbol>, L: nat, m: nat, b: Symbol, syn: seq<Symbol>, r: nat)
    requires r < |syn| && Invariant(sigma, prev, L, m, b, syn, r) && Conv(sigma, syn, r, L + 1) == ZERO
    ensures Invariant(sigma, prev, L, m + 1, b, syn, r + 1)
  {
    hide Conv;
  }

  lemma NextInvariant(
    sigma: seq<Symbol>, prev: seq<Symbol>, L: nat, m: nat, b: Symbol, syn: seq<Symbol>, r: nat, d: Symbol,
    next: seq<Symbol>)
    requires r < |syn| && Invariant(sigma, prev, L, m, b, syn, r) && d == Conv(sigma, syn, r, L + 1) != ZERO
    requires |next| == if |sigma| > m + |prev| then |sigma| else m + |prev|
    requires Combines(next, sigma, Mul(d, Inv(b)), m, prev, |next|)
    ensures if 2 * L <= r then Invariant(next, sigma, r + 1 - L, 1, d, syn, r + 1)
            else Invariant(next, prev, L, m + 1, b, syn, r + 1)
  {
    hide Mul, Add, Conv, Annihilates;
    var coef := Mul(d, Inv(b));
    MulAssociates(d, Inv(b), b);
    MulCommutes(Inv(b), b);
    MulInv(b);
    MulOne(d);
    StepAnnihilates(sigma, prev, L, m, b, syn, r, coef, next);
    assert At(next, 0) == Add(ONE, Mul(coef, ZERO));
    MulZero(coef, ZERO);
    AddZero(ONE);
  }

  // The last recurrence is never longer than the number of weights behind the syndromes.
  method ShortestRecurrence(syn: seq<Symbol>) returns (sigma: seq<Symbol>, L: nat)
    ensures L <= |syn| && |sigma| == L + 1 && sigma[0] == ONE
    ensures Annihilates(sigma, syn, |syn|)
    ensures forall xs, ws | Explains(xs, ws, syn) :: L <= Weight(ws)
  {
    hide Mul, Add, Conv, Weight, Annihilates, Explains;
    sigma, L := [ONE], 0;
    var prev, m, b := [ONE], 1, ONE;
    InitialInvariant(syn);
    for r := 0 to |syn|
      invariant Invariant(sigma, prev, L, m, b, syn, r)
      invariant forall xs, ws | Explains(xs, ws, syn) :: L <= Weight(ws)
    {
      var d := Discrepancy(sigma, L, syn, r);
      if d == ZERO {
        KeepInvariant(sigma, prev, L, m, b, syn, r);
        m := m + 1;
        continue;
      }
      var coef := Mul(d, Inv(b));
      var saved := sigma;
      sigma := AddShifted(sigma, coef, m, prev);
      NextInvariant(saved, prev, L, m, b, syn, r, d, sigma);
      if 2 * L <= r {
        forall xs, ws | Explains(xs, ws, syn) ensures r + 1 - L <= Weight(ws) {
          LengthBound(saved, syn, r, xs, ws);
        }
        L, prev, b, m := r + 1 - L, saved, d, 1;
      } else {
        m := m + 1;
      }
    }
    assert sigma[..L + 1] == sigma;
    sigma := sigma[..L + 1];
  }

  lemma InitialInvariant(syn: seq<Symbol>)
    ensures Invariant([ONE], [ONE], 0, 1, ONE, syn, 0)
  {
  }
}

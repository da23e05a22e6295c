/** Gauss-Jordan elimination over the symbols, on rows that carry the right-hand side in their last column. */
module LinearSystem {

  import opened Field

  function Dot(row: seq<Symbol>, y: seq<Symbol>): Symbol
    requires |row| == |y|
  {
    var n := |row| - 1;
    if n < 0 then ZERO else Add(Dot(row[..n], y[..n]), Mul(row[n], y[n]))
  }

  ghost predicate Shaped(A: seq<seq<Symbol>>, size: nat) {
    |A| == size && forall r | 0 <= r < size :: |A[r]| == size + 1
  }

  // y is orthogonal to every row; with a last entry of one it is a solution
  ghost predicate Kills(A: seq<seq<Symbol>>, y: seq<Symbol>) {
    forall r | 0 <= r < |A| :: |A[r]| == |y| && Dot(A[r], y) == ZERO
  }

  ghost predicate SameKernel(A: seq<seq<Symbol>>, B: seq<seq<Symbol>>) {
    forall y :: Kills(A, y) <==> Kills(B, y)
  }

  // the first col columns are those of the identity
  ghost predicate Reduced(A: seq<seq<Symbol>>, size: nat, col: nat)
    requires Shaped(A, size) && col <= size
  {
    forall r, c | 0 <= r < size && 0 <= c < col :: A[r][c] == if r == c then ONE else ZERO
  }

  function ScaleRow(f: Symbol, row: seq<Symbol>): seq<Symbol> {
    seq(|row|, k requires 0 <= k < |row| => Mul(f, row[k]))
  }

  // a + f c
  function AddRow(a: seq<Symbol>, f: Symbol, c: seq<Symbol>): seq<Symbol>
    requires |a| == |c|
  {
    seq(|a|, k requires 0 <= k < |a| => Add(a[k], Mul(f, c[k])))
  }

  lemma {:induction false} DotScale(f: Symbol, row: seq<Symbol>, y: seq<Symbol>)
    requires |row| == |y|
    ensures Dot(ScaleRow(f, row), y) == Mul(f, Dot(row, y))
  {
    hide Mul, Add;
    var n := |row| - 1;
    if n < 0 {
      MulZero(f, ZERO);
    } else {
      DotScale(f, row[..n], y[..n]);
      assert ScaleRow(f, row)[..n] == ScaleRow(f, row[..n]);
      MulAssociates(f, row[n], y[n]);
      Distributes(f, Dot(row[..n], y[..n]), Mul(row[n], y[n]));
    }
  }

  lemma {:induction false} DotAdd(a: seq<Symbol>, f: Symbol, c: seq<Symbol>, y: seq<Symbol>)
    requires |a| == |c| == |y|
    ensures Dot(AddRow(a, f, c), y) == Add(Dot(a, y), Mul(f, Dot(c, y)))
  {
    hide Mul, Add;
    var n := |a| - 1;
    if n < 0 {
      MulZero(f, ZERO);
      AddZero(ZERO);
    } else {
      DotAdd(a[..n], f, c[..n], y[..n]);
      assert AddRow(a, f, c)[..n] == AddRow(a[..n], f, c[..n]);
      Distributes(y[n], a[n], Mul(f, c[n]));
      MulAssociates(f, c[n], y[n]);
      Distributes(f, Dot(c[..n], y[..n]), Mul(c[n], y[n]));
      AddSwaps(Dot(a[..n], y[..n]), Mul(f, Dot(c[..n], y[..n])), Mul(a[n], y[n]), Mul(f, Mul(c[n], y[n])));
    }
  }

  lemma SwapKeepsKernel(A: seq<seq<Symbol>>, i: nat, j: nat)
    requires i < |A| && j < |A|
    ensures SameKernel(A[i := A[j]][j := A[i]], A)
  {
    hide Dot;
    var B := A[i := A[j]][j := A[i]];
    forall y ensures Kills(B, y) <==> Kills(A, y) {
      if Kills(B, y) {
        forall r | 0 <= r < |A| ensures |A[r]| == |y| && Dot(A[r], y) == ZERO {
          var s := if r == i then j else if r == j then i else r;
          assert B[s] == A[r];
        }
      }
    }
  }

  lemma ScaleKeepsKernel(A: seq<seq<Symbol>>, i: nat, f: Symbol)
    requires i < |A| && f != ZERO
    ensures SameKernel(A[i := ScaleRow(f, A[i])], A)
  {
    hide Dot, Mul;
    var B := A[i := ScaleRow(f, A[i])];
    forall y ensures Kills(B, y) <==> Kills(A, y) {
      if |A[i]| == |y| {
        DotScale(f, A[i], y);
        MulZero(f, Dot(A[i], y));
        assert forall r | 0 <= r < |A| :: r != i ==> B[r] == A[r];
        assert B[i] == ScaleRow(f, A[i]);
      } else {
        assert |B[i]| == |A[i]|;
      }
    }
  }

  lemma AddKeepsKernel(A: seq<seq<Symbol>>, i: nat, f: Symbol, j: nat)
    requires i < |A| && j < |A| && i != j && |A[i]| == |A[j]|
    ensures SameKernel(A[i := AddRow(A[i], f, A[j])], A)
  {
    hide Dot, Mul, Add;
    var B := A[i := AddRow(A[i], f, A[j])];
    forall y ensures Kills(B, y) <==> Kills(A, y) {
      assert B[j] == A[j] && |B[i]| == |A[i]|;
      assert forall r | 0 <= r < |A| :: r != i ==> B[r] == A[r];
      if |A[i]| == |y| && Dot(A[j], y) == ZERO {
        DotAdd(A[i], f, A[j], y);
        MulZero(f, ZERO);
        AddZero(Dot(A[i], y));
      }
    }
  }

  // Dot product of a reduced row with y, below column n <= col
  lemma {:induction false} DotReduced(A: seq<seq<Symbol>>, size: nat, col: nat, r: nat, y: seq<Symbol>, n: nat)
    requires Shaped(A, size) && n <= col <= size && Reduced(A, size, col) && r < size && |y| == size + 1
    ensures Dot(A[r][..n], y[..n]) == if r < n then y[r] else ZERO
  {
    hide Mul, Add;
    if n > 0 {
      DotReduced(A, size, col, r, y, n - 1);
      assert A[r][..n][..n - 1] == A[r][..n - 1] && y[..n][..n - 1] == y[..n - 1];
      MulOne(y[n - 1]);
      MulZero(ZERO, y[n - 1]);
      AddZero(y[n - 1]);
      AddZero(Dot(A[r][..n - 1], y[..n - 1]));
    }
  }

  lemma {:induction false} DotZeroTail(row: seq<Symbol>, y: seq<Symbol>, n: nat)
    requires |row| == |y| && n <= |y| && forall k | n <= k < |y| :: y[k] == ZERO
    ensures Dot(row, y) == Dot(row[..n], y[..n])
  {
    hide Mul, Add;
    var k := |row| - 1;
    if n <= k {
      DotZeroTail(row[..k], y[..k], n);
      assert row[..k][..n] == row[..n] && y[..k][..n] == y[..n];
      MulZero(row[k], ZERO);
      AddZero(Dot(row[..k], y[..k]));
    } else {
      assert row[..n] == row && y[..n] == y;
    }
  }

  // a nonzero vector with last entry zero, orthogonal to every row
  ghost predicate SingularWitness(A: seq<seq<Symbol>>, size: nat, y: seq<Symbol>) {
    |y| == size + 1 && y[size] == ZERO && Kills(A, y) && exists k | 0 <= k < size :: y[k] != ZERO
  }

  lemma NoPivot(A: seq<seq<Symbol>>, size: nat, col: nat)
    requires Shaped(A, size) && col < size && Reduced(A, size, col)
    requires forall r | col <= r < size :: A[r][col] == ZERO
    ensures exists y :: SingularWitness(A, size, y)
  {
    hide Mul, Add;
    var y := seq(size + 1, k => if 0 <= k < col then A[k][col] else if k == col then ONE else ZERO);
    forall r | 0 <= r < size ensures Dot(A[r], y) == ZERO {
      DotZeroTail(A[r], y, col + 1);
      assert A[r][..col + 1][..col] == A[r][..col] && y[..col + 1][..col] == y[..col];
      DotReduced(A, size, col, r, y, col);
      MulOne(A[r][col]);
      AddCancels(A[r][col], A[r][col]);
      AddZero(ZERO);
    }
    assert y[col] != ZERO;
    assert SingularWitness(A, size, y);
  }

  lemma FullyReduced(A: seq<seq<Symbol>>, size: nat, y: seq<Symbol>)
    requires Shaped(A, size) && Reduced(A, size, size) && |y| == size + 1 && y[size] == ONE
    ensures Kills(A, y) <==> forall k | 0 <= k < size :: y[k] == A[k][size]
  {
    hide Mul, Add;
    forall r | 0 <= r < size ensures Dot(A[r], y) == ZERO <==> y[r] == A[r][size] {
      DotReduced(A, size, size, r, y, size);
      MulOne(A[r][size]);
      AddCancels(y[r], A[r][size]);
    }
  }

  // Swaps the pivot row into place and scales it to a leading one.
  method PlacePivot(A0: seq<seq<Symbol>>, size: nat, col: nat, piv: nat) returns (A: seq<seq<Symbol>>)
    requires Shaped(A0, size) && col <= piv < size && Reduced(A0, size, col) && A0[piv][col] != ZERO
    ensures Shaped(A, size) && Reduced(A, size, col) && A[col][col] == ONE && SameKernel(A, A0)
  {
    hide Mul, Add, Kills;
    SwapKeepsKernel(A0, col, piv);
    A := A0[col := A0[piv]][piv := A0[col]];
    var inv := Inv(A[col][col]);
    MulInv(A[col][col]);
    MulCommutes(inv, A[col][col]);
    MulZero(inv, ZERO);
    ScaleKeepsKernel(A, col, inv);
    A := A[col := ScaleRow(inv, A[col])];
  }

  // Clears column col in every row but the pivot row, which has a one there.
  method ClearColumn(A0: seq<seq<Symbol>>, size: nat, col: nat) returns (A: seq<seq<Symbol>>)
    requires Shaped(A0, size) && col < size && Reduced(A0, size, col) && A0[col][col] == ONE
    ensures Shaped(A, size) && Reduced(A, size, col + 1) && SameKernel(A, A0)
  {
    hide Mul, Add, Kills;
    A := A0;
    for r := 0 to size
      invariant Shaped(A, size) && Reduced(A, size, col) && A[col] == A0[col]
      invariant forall k | 0 <= k < r :: A[k][col] == if k == col then ONE else ZERO
      invariant SameKernel(A, A0)
    {
      if r != col && A[r][col] != ZERO {
        var f := A[r][col];
        AddKeepsKernel(A, r, f, col);
        MulZero(f, ZERO);
        MulOne(f);
        AddCancels(f, f);
        forall c | 0 <= c < col ensures AddRow(A[r], f, A[col])[c] == A[r][c] {
          AddZero(A[r][c]);
        }
        A := A[r := AddRow(A[r], f, A[col])];
      }
    }
  }

  datatype Solution = Singular | Unique(values: seq<Symbol>)

  // Singular exactly when the left-hand side has a nontrivial kernel; otherwise the values are the only solution.
  method Solve(A0: seq<seq<Symbol>>, size: nat) returns (s: Solution)
    requires Shaped(A0, size)
    ensures s.Singular? ==> exists y :: SingularWitness(A0, size, y)
    ensures s.Unique? ==> |s.values| == size
    ensures s.Unique? ==> forall y | |y| == size + 1 && y[size] == ONE :: Kills(A0, y) <==> y[..size] == s.values
  {
    hide Mul, Add, Kills;
    var A := A0;
    for col := 0 to size
      invariant Shaped(A, size) && Reduced(A, size, col) && SameKernel(A, A0)
    {
      var piv := col;
      while piv < size && A[piv][col] == ZERO
        invariant col <= piv <= size && forall r | col <= r < piv :: A[r][col] == ZERO
      {
        piv := piv + 1;
      }
      if piv == size {
        NoPivot(A, size, col);
        ghost var y :| SingularWitness(A, size, y);
        assert SingularWitness(A0, size, y);
        return Singular;
      }
      A := PlacePivot(A, size, col, piv);
      A := ClearColumn(A, size, col);
    }
    s := Unique(seq(size, k requires 0 <= k < size => A[k][size]));
    forall y | |y| == size + 1 && y[size] == ONE ensures Kills(A0, y) <==> y[..size] == s.values {
      FullyReduced(A, size, y);
    }
  }
}

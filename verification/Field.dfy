/** Code symbols: the bytes of a codeword with the field operations the codec uses on them. */
module Field {

  import GF256

  // Wrapping the byte keeps proofs about symbols from being unfolded to bits.
  datatype Symbol = Symbol(bits: bv8)

  const ZERO := Symbol(0)
  const ONE := Symbol(1)

  // exclusive or
  function Add(a: Symbol, b: Symbol): Symbol {
    Symbol(a.bits ^ b.bits)
  }

  function Mul(a: Symbol, b: Symbol): Symbol {
    Symbol(GF256.Mul(a.bits, b.bits))
  }

  // alpha^k
  function Exp(k: nat): Symbol {
    Symbol(GF256.Exp(k))
  }

  function Inv(a: Symbol): Symbol
    requires a != ZERO
  {
    Symbol(GF256.Inv(a.bits))
  }

  function Pow(x: Symbol, j: nat): Symbol {
    if j == 0 then ONE else Mul(Pow(x, j - 1), x)
  }

  lemma AddZero(a: Symbol)
    ensures Add(a, ZERO) == a == Add(ZERO, a)
  {
  }

  lemma AddCommutes(a: Symbol, b: Symbol)
    ensures Add(a, b) == Add(b, a)
  {
  }

  lemma AddCancels(a: Symbol, b: Symbol)
    ensures Add(Add(a, b), b) == a && Add(b, Add(a, b)) == a && (Add(a, b) == ZERO <==> a == b)
  {
  }

  lemma AddAssociates(a: Symbol, b: Symbol, c: Symbol)
    ensures Add(Add(a, b), c) == Add(a, Add(b, c))
  {
  }

  // (a + b) + (c + d) == (a + c) + (b + d)
  lemma AddSwaps(a: Symbol, b: Symbol, c: Symbol, d: Symbol)
    ensures Add(Add(a, b), Add(c, d)) == Add(Add(a, c), Add(b, d))
  {
  }

  lemma MulCommutes(a: Symbol, b: Symbol)
    ensures Mul(a, b) == Mul(b, a)
  {
    GF256.MulCommutes(a.bits, b.bits);
  }

  lemma MulAssociates(a: Symbol, b: Symbol, c: Symbol)
    ensures Mul(Mul(a, b), c) == Mul(a, Mul(b, c))
  {
    hide GF256.Mul;
    GF256.MulAssociates(a.bits, b.bits, c.bits);
  }

  lemma LeftDistributes(a: Symbol, b: Symbol, c: Symbol)
    ensures Mul(a, Add(b, c)) == Add(Mul(a, b), Mul(a, c))
  {
    hide GF256.Mul;
    GF256.MulDistributes(a.bits, b.bits, c.bits);
  }

  lemma Distributes(a: Symbol, b: Symbol, c: Symbol)
    ensures Mul(a, Add(b, c)) == Add(Mul(a, b), Mul(a, c))
    ensures Mul(Add(b, c), a) == Add(Mul(b, a), Mul(c, a))
  {
    hide Mul, Add;
    LeftDistributes(a, b, c);
    MulCommutes(a, Add(b, c));
    MulCommutes(a, b);
    MulCommutes(a, c);
  }

  lemma MulOne(a: Symbol)
    ensures Mul(ONE, a) == a == Mul(a, ONE)
  {
    GF256.MulOne(a.bits);
  }

  lemma MulZero(a: Symbol, b: Symbol)
    ensures Mul(a, b) == ZERO <==> a == ZERO || b == ZERO
  {
    GF256.MulNonzero(a.bits, b.bits);
  }

  lemma MulInv(a: Symbol)
    requires a != ZERO
    ensures Mul(a, Inv(a)) == ONE && Inv(a) != ZERO
  {
    GF256.MulInv(a.bits);
  }

  lemma MulExp(i: nat, j: nat)
    ensures Mul(Exp(i), Exp(j)) == Exp(i + j)
  {
    GF256.MulExp(i, j);
  }

  lemma ExpZero()
    ensures Exp(0) == ONE
  {
  }

  lemma ExpNonzero(k: nat)
    ensures Exp(k) != ZERO
  {
    GF256.ExpNonzero(k);
  }

  lemma ExpMod(k: nat)
    ensures Exp(k) == Exp(k % 255)
  {
    GF256.ExpMod(k);
  }

  lemma ExpInjective(i: nat, j: nat)
    requires i < 255 && j < 255 && Exp(i) == Exp(j)
    ensures i == j
  {
    GF256.ExpInjective();
  }

  lemma {:induction false} PowNonzero(x: Symbol, j: nat)
    requires x != ZERO
    ensures Pow(x, j) != ZERO
  {
    hide Mul;
    if j > 0 {
      PowNonzero(x, j - 1);
      MulZero(Pow(x, j - 1), x);
    }
  }

  lemma {:induction false} PowExp(k: nat, j: nat)
    ensures Pow(Exp(k), j) == Exp(k * j)
  {
    hide Mul;
    if j == 0 {
      ExpZero();
      assert k * j == 0;
    } else {
      PowExp(k, j - 1);
      MulExp(k * (j - 1), k);
      assert k * (j - 1) + k == k * j;
    }
  }
}

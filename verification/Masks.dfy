/** The eight mask patterns, by number, and the tiles they repeat. */
module Masks {

  import opened Arithmetic

  // products and their remainders, named so that proofs meet the arithmetic only where they must
  function Product(i: nat, j: nat): nat { i * j }

  function Mod(n: nat, m: nat): (r: nat)
    requires m > 0
    ensures r < m
  {
    n % m
  }

  // the mask patterns, by number
  predicate MaskBit(mask: nat, i: nat, j: nat) {
    match mask
    case 0 => (i + j) % 2 == 0
    case 1 => i % 2 == 0
    case 2 => j % 3 == 0
    case 3 => (i + j) % 3 == 0
    case 4 => (i / 2 + j / 3) % 2 == 0
    case 5 => Mod(Product(i, j), 2) + Mod(Product(i, j), 3) == 0
    case 6 => Mod(Mod(Product(i, j), 2) + Mod(Product(i, j), 3), 2) == 0
    case _ => Mod(Mod(i + j, 2) + Mod(Product(i, j), 3), 2) == 0
  }

  // the modules each mask flips, drawn: its upper left corner, which it repeats downwards and to the right
  const TILES: seq<seq<string>> := [
    ["#.", ".#"],
    ["#", "."],
    ["#.."],
    ["#..", "..#", ".#."],
    ["###...", "###...", "...###", "...###"],
    ["######", "#.....", "#..#..", "#.#.#.", "#..#..", "#....."],
    ["######", "###...", "##.##.", "#.#.#.", "#.##.#", "#...##"],
    ["#.#.#.", "...###", "#...##", ".#.#.#", "###...", ".###.."]
  ]

  predicate Repeats(tile: seq<string>, i: nat, j: nat)
    requires tile != [] && forall row | row in tile :: row != ""
  {
    var row := tile[i % |tile|];
    assert row in tile;
    row[j % |row|] == '#'
  }

  // adding a multiple of the modulus changes no remainder
  lemma SameRemainder(x: int, m: int, k: int)
    requires m > 0
    ensures (x + m * k) % m == x % m
  {
    assert x + m * k == m * (x / m + k) + x % m;
    DivModUnique(x + m * k, m, x / m + k, x % m);
  }

  // sums and products by six are those of the remainders
  lemma BySix(i: nat, j: nat, m: nat)
    requires m == 2 || m == 3
    ensures (i * j) % m == ((i % 6) * (j % 6)) % m && (i + j) % m == (i % 6 + j % 6) % m
    ensures i % m == (i % 6) % m && j % m == (j % 6) % m
  {
    var a, r, b, s := i / 6, i % 6, j / 6, j % 6;
    var n := 6 / m;
    assert i == r + m * (n * a) && j == s + m * (n * b);
    SameRemainder(r, m, n * a);
    SameRemainder(s, m, n * b);
    SameRemainder(r + s, m, n * a + n * b);
    var k := n * (6 * (a * b) + a * s + b * r);
    assert i * j == r * s + m * k by { Multiplied(a, r, b, s, m, n); }
    SameRemainder(r * s, m, k);
  }

  lemma Multiplied(a: nat, r: nat, b: nat, s: nat, m: nat, n: nat)
    requires m * n == 6
    ensures (6 * a + r) * (6 * b + s) == r * s + m * (n * (6 * (a * b) + a * s + b * r))
  {
    var c := 6 * (a * b) + a * s + b * r;
    assert m * (n * c) == (m * n) * c;
    assert (6 * a + r) * (6 * b + s) == 6 * c + r * s;
  }

  lemma ByBlock(i: nat, j: nat)
    ensures (i / 2 + j / 3) % 2 == (i % 4 / 2 + j % 6 / 3) % 2
  {
    var a, r, b, s := i / 4, i % 4, j / 6, j % 6;
    DivModUnique(i, 2, 2 * a + r / 2, r % 2);
    DivModUnique(j, 3, 2 * b + s / 3, s % 3);
    assert i / 2 + j / 3 == (r / 2 + s / 3) + 2 * (a + b);
    SameRemainder(r / 2 + s / 3, 2, a + b);
  }

  lemma LinesAreDrawn(mask: nat, i: nat, j: nat)
    requires mask == 1 || mask == 2
    ensures MaskBit(mask, i, j) == Repeats(TILES[mask], i, j)
  {
    BySix(i, j, 2);
    BySix(i, j, 3);
  }

  lemma CheckersAreDrawn(i: nat, j: nat)
    ensures MaskBit(0, i, j) == Repeats(TILES[0], i, j)
  {
    assert TILES[0][0] == "#." && TILES[0][1] == ".#";
    var k := i / 2 + j / 2;
    assert i + j == (i % 2 + j % 2) + 2 * k;
    SameRemainder(i % 2 + j % 2, 2, k);
  }

  lemma DiagonalsAreDrawn(i: nat, j: nat)
    ensures MaskBit(3, i, j) == Repeats(TILES[3], i, j)
  {
    assert TILES[3][0] == "#.." && TILES[3][1] == "..#" && TILES[3][2] == ".#.";
    var k := i / 3 + j / 3;
    assert i + j == (i % 3 + j % 3) + 3 * k;
    SameRemainder(i % 3 + j % 3, 3, k);
  }

  lemma BlocksAreDrawn(i: nat, j: nat)
    ensures MaskBit(4, i, j) == Repeats(TILES[4], i, j)
  {
    ByBlock(i, j);
    var r, s := i % 4, j % 6;
    assert TILES[4][0] == TILES[4][1] == "###..." && TILES[4][2] == TILES[4][3] == "...###";
    assert (r / 2 + s / 3) % 2 == 0 <==> TILES[4][r][s] == '#';
  }

  // ---- The corner of the masks that multiply ----

  lemma ModIs(n: nat, m: nat, q: nat, r: nat)
    requires r < m && n == m * q + r
    ensures Mod(n, m) == r
  {
    DivModUnique(n, m, q, r);
  }

  ghost predicate Leaves(n: nat, two: nat, three: nat) {
    Mod(n, 2) == two && Mod(n, 3) == three
  }

  lemma SmallMods()
    ensures Leaves(0, 0, 0) && Leaves(1, 1, 1) && Leaves(2, 0, 2) && Leaves(3, 1, 0) && Leaves(4, 0, 1)
    ensures Leaves(5, 1, 2) && Leaves(6, 0, 0) && Leaves(7, 1, 1) && Leaves(8, 0, 2) && Leaves(9, 1, 0)
    ensures Leaves(10, 0, 1) && Leaves(12, 0, 0) && Leaves(15, 1, 0) && Leaves(16, 0, 1) && Leaves(20, 0, 2)
    ensures Leaves(25, 1, 1)
  {
    hide Mod;
    ModIs(0, 2, 0, 0);
    ModIs(0, 3, 0, 0);
    ModIs(1, 2, 0, 1);
    ModIs(1, 3, 0, 1);
    ModIs(2, 2, 1, 0);
    ModIs(2, 3, 0, 2);
    ModIs(3, 2, 1, 1);
    ModIs(3, 3, 1, 0);
    ModIs(4, 2, 2, 0);
    ModIs(4, 3, 1, 1);
    ModIs(5, 2, 2, 1);
    ModIs(5, 3, 1, 2);
    ModIs(6, 2, 3, 0);
    ModIs(6, 3, 2, 0);
    ModIs(7, 2, 3, 1);
    ModIs(7, 3, 2, 1);
    ModIs(8, 2, 4, 0);
    ModIs(8, 3, 2, 2);
    ModIs(9, 2, 4, 1);
    ModIs(9, 3, 3, 0);
    ModIs(10, 2, 5, 0);
    ModIs(10, 3, 3, 1);
    ModIs(12, 2, 6, 0);
    ModIs(12, 3, 4, 0);
    ModIs(15, 2, 7, 1);
    ModIs(15, 3, 5, 0);
    ModIs(16, 2, 8, 0);
    ModIs(16, 3, 5, 1);
    ModIs(20, 2, 10, 0);
    ModIs(20, 3, 6, 2);
    ModIs(25, 2, 12, 1);
    ModIs(25, 3, 8, 1);
  }

  // the multiples of r, up to five times
  lemma Multiples(r: nat, s: nat)
    requires r < 6 && s < 6
    ensures Product(r, s) == [0, r, 2 * r, 3 * r, 4 * r, 5 * r][s]
  {
    match s
    case 0 =>
    case 1 =>
    case 2 =>
    case 3 =>
    case 4 =>
    case _ =>
  }

  lemma Corner5(r: nat, s: nat)
    requires r < 6 && s < 6
    ensures MaskBit(5, r, s) == (TILES[5][r][s] == '#')
  {
    hide Product, Mod;
    Multiples(r, s);
    SmallMods();
    match r
    case 0 => assert TILES[5][0] == "######";
    case 1 => assert TILES[5][1] == "#.....";
    case 2 => assert TILES[5][2] == "#..#..";
    case 3 => assert TILES[5][3] == "#.#.#.";
    case 4 => assert TILES[5][4] == "#..#..";
    case _ => assert TILES[5][5] == "#.....";
  }

  lemma Corner6(r: nat, s: nat)
    requires r < 6 && s < 6
    ensures MaskBit(6, r, s) == (TILES[6][r][s] == '#')
  {
    hide Product, Mod;
    Multiples(r, s);
    SmallMods();
    match r
    case 0 => assert TILES[6][0] == "######";
    case 1 => assert TILES[6][1] == "###...";
    case 2 => assert TILES[6][2] == "##.##.";
    case 3 => assert TILES[6][3] == "#.#.#.";
    case 4 => assert TILES[6][4] == "#.##.#";
    case _ => assert TILES[6][5] == "#...##";
  }

  lemma Corner7(r: nat, s: nat)
    requires r < 6 && s < 6
    ensures MaskBit(7, r, s) == (TILES[7][r][s] == '#')
  {
    hide Product, Mod;
    Multiples(r, s);
    SmallMods();
    match r
    case 0 => assert TILES[7][0] == "#.#.#.";
    case 1 => assert TILES[7][1] == "...###";
    case 2 => assert TILES[7][2] == "#...##";
    case 3 => assert TILES[7][3] == ".#.#.#";
    case 4 => assert TILES[7][4] == "###...";
    case _ => assert TILES[7][5] == ".###..";
  }

  lemma CornerIs(mask: nat, r: nat, s: nat)
    requires 5 <= mask < 8 && r < 6 && s < 6
    ensures |TILES[mask]| == 6 && |TILES[mask][r]| == 6 && MaskBit(mask, r, s) == (TILES[mask][r][s] == '#')
  {
    if mask == 5 { Corner5(r, s); } else if mask == 6 { Corner6(r, s); } else { Corner7(r, s); }
  }

  lemma ModsBySix(i: nat, j: nat, r: nat, s: nat)
    requires r == i % 6 && s == j % 6
    ensures Mod(Product(i, j), 2) == Mod(Product(r, s), 2) && Mod(Product(i, j), 3) == Mod(Product(r, s), 3)
    ensures Mod(i + j, 2) == Mod(r + s, 2)
  {
    BySix(i, j, 2);
    BySix(i, j, 3);
  }

  lemma ProductsRepeat(mask: nat, i: nat, j: nat, r: nat, s: nat)
    requires 5 <= mask < 8 && Mod(i + j, 2) == Mod(r + s, 2)
    requires Mod(Product(i, j), 2) == Mod(Product(r, s), 2) && Mod(Product(i, j), 3) == Mod(Product(r, s), 3)
    ensures MaskBit(mask, i, j) == MaskBit(mask, r, s)
  {
    hide Mod, Product;
  }

  lemma ProductsAreDrawn(mask: nat, i: nat, j: nat)
    requires 5 <= mask < 8
    ensures MaskBit(mask, i, j) == Repeats(TILES[mask], i, j)
  {
    hide MaskBit, Mod, Product;
    var r, s := i % 6, j % 6;
    CornerIs(mask, r, s);
    ModsBySix(i, j, r, s);
    ProductsRepeat(mask, i, j, r, s);
  }

  /** Each mask flips, everywhere, exactly the modules of its drawn tile. */
  lemma MaskIsDrawn(mask: nat, i: nat, j: nat)
    requires mask < 8
    ensures MaskBit(mask, i, j) == Repeats(TILES[mask], i, j)
  {
    hide MaskBit, Repeats;
    if mask == 0 {
      CheckersAreDrawn(i, j);
    } else if mask <= 2 {
      LinesAreDrawn(mask, i, j);
    } else if mask == 3 {
      DiagonalsAreDrawn(i, j);
    } else if mask == 4 {
      BlocksAreDrawn(i, j);
    } else {
      ProductsAreDrawn(mask, i, j);
    }
  }
}

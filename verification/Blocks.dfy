/** Splitting data into Reed-Solomon blocks and interleaving their symbols for transmission. */
module Blocks {

  import opened Sequences
  import opened Field
  import opened ReedSolomon
  import opened RsEncoder

  type Place = (nat, nat)   // block, index within the block

  function Sum(lens: seq<nat>): nat {
    if lens == [] then 0 else Sum(lens[..|lens| - 1]) + lens[|lens| - 1]
  }

  function Max(lens: seq<nat>): (m: nat)
    ensures forall b | 0 <= b < |lens| :: lens[b] <= m
  {
    if lens == [] then 0
    else
      var m, last := Max(lens[..|lens| - 1]), lens[|lens| - 1];
      if m < last then last else m
  }

  // total data symbols over nblocks blocks, the last total % nblocks of them one longer
  function BlockLengths(total: nat, nblocks: nat): (lens: seq<nat>)
    requires nblocks > 0
    ensures |lens| == nblocks
  {
    seq(nblocks, i requires 0 <= i < nblocks => total / nblocks + if i >= nblocks - total % nblocks then 1 else 0)
  }

  lemma {:induction false} LengthsPrefixSum(total: nat, nblocks: nat, k: nat)
    requires 0 < nblocks && k <= nblocks
    ensures var long := k - (nblocks - total % nblocks);
      Sum(BlockLengths(total, nblocks)[..k]) == k * (total / nblocks) + if long > 0 then long else 0
  {
    if k > 0 {
      LengthsPrefixSum(total, nblocks, k - 1);
      assert BlockLengths(total, nblocks)[..k][..k - 1] == BlockLengths(total, nblocks)[..k - 1];
    }
  }

  // The blocks hold all the data, nothing more, and their lengths differ by at most one.
  lemma LengthsSum(total: nat, nblocks: nat)
    requires nblocks > 0
    ensures Sum(BlockLengths(total, nblocks)) == total
  {
    LengthsPrefixSum(total, nblocks, nblocks);
    assert BlockLengths(total, nblocks)[..nblocks] == BlockLengths(total, nblocks);
  }

  // ---- Transmission order ----

  // column i of the data: the blocks before nb that are longer than i
  function DataColumn(lens: seq<nat>, i: nat, nb: nat): seq<Place>
    requires nb <= |lens|
  {
    if nb == 0 then [] else DataColumn(lens, i, nb - 1) + if i < lens[nb - 1] then [(nb - 1, i)] else []
  }

  function DataPlaces(lens: seq<nat>, cols: nat): seq<Place> {
    if cols == 0 then [] else DataPlaces(lens, cols - 1) + DataColumn(lens, cols - 1, |lens|)
  }

  function EccPlaces(lens: seq<nat>, ec: nat): (places: seq<Place>)
    ensures |places| == ec * |lens|
  {
    if ec == 0 then []
    else EccPlaces(lens, ec - 1)
         + seq(|lens|, b requires 0 <= b < |lens| => (b as nat, lens[b] + ec - 1))
  }

  function Interleaved(lens: seq<nat>, ec: nat): seq<Place> {
    DataPlaces(lens, Max(lens)) + EccPlaces(lens, ec)
  }

  lemma {:induction false} ColumnMembers(lens: seq<nat>, i: nat, nb: nat)
    requires nb <= |lens|
    ensures forall p: Place :: p in DataColumn(lens, i, nb) <==> p.0 < nb && p.1 == i && i < lens[p.0]
    ensures NoRepeats(DataColumn(lens, i, nb))
  {
    if nb > 0 { ColumnMembers(lens, i, nb - 1); }
  }

  lemma {:induction false} DataMembers(lens: seq<nat>, cols: nat)
    ensures forall p: Place :: p in DataPlaces(lens, cols) <==> p.0 < |lens| && p.1 < cols && p.1 < lens[p.0]
    ensures NoRepeats(DataPlaces(lens, cols))
  {
    if cols > 0 {
      DataMembers(lens, cols - 1);
      ColumnMembers(lens, cols - 1, |lens|);
      RepeatFree(DataPlaces(lens, cols - 1), DataColumn(lens, cols - 1, |lens|));
    }
  }

  lemma {:induction false} EccMembers(lens: seq<nat>, ec: nat)
    ensures forall p: Place :: p in EccPlaces(lens, ec) <==> p.0 < |lens| && lens[p.0] <= p.1 < lens[p.0] + ec
    ensures NoRepeats(EccPlaces(lens, ec))
  {
    if ec > 0 {
      EccMembers(lens, ec - 1);
      var row := seq(|lens|, b requires 0 <= b < |lens| => (b as nat, lens[b] + ec - 1));
      forall p: Place | p.0 < |lens| && p.1 == lens[p.0] + ec - 1 ensures p in row {
        assert row[p.0] == p;
      }
      RepeatFree(EccPlaces(lens, ec - 1), row);
    }
  }

  // Every place of every block is transmitted, and only once.
  lemma InterleavedIsBijection(lens: seq<nat>, ec: nat)
    ensures forall p: Place :: p in Interleaved(lens, ec) <==> p.0 < |lens| && p.1 < lens[p.0] + ec
    ensures NoRepeats(Interleaved(lens, ec))
  {
    DataMembers(lens, Max(lens));
    EccMembers(lens, ec);
    RepeatFree(DataPlaces(lens, Max(lens)), EccPlaces(lens, ec));
  }

  // sum of the block lengths cut off at cols
  function SumMin(lens: seq<nat>, cols: nat): nat {
    if lens == [] then 0
    else
      var last := lens[|lens| - 1];
      SumMin(lens[..|lens| - 1], cols) + if last < cols then last else cols
  }

  lemma {:induction false} ColumnLength(lens: seq<nat>, i: nat, nb: nat)
    requires nb <= |lens|
    ensures |DataColumn(lens, i, nb)| == SumMin(lens[..nb], i + 1) - SumMin(lens[..nb], i)
  {
    if nb > 0 {
      ColumnLength(lens, i, nb - 1);
      assert lens[..nb][..nb - 1] == lens[..nb - 1];
    }
  }

  lemma {:induction false} SumMinEnds(lens: seq<nat>, cols: nat)
    ensures SumMin(lens, 0) == 0
    ensures (forall b | 0 <= b < |lens| :: lens[b] <= cols) ==> SumMin(lens, cols) == Sum(lens)
  {
    if lens != [] { SumMinEnds(lens[..|lens| - 1], cols); }
  }

  lemma {:induction false} DataLength(lens: seq<nat>, cols: nat)
    ensures |DataPlaces(lens, cols)| == SumMin(lens, cols)
  {
    if cols == 0 {
      SumMinEnds(lens, 0);
    } else {
      DataLength(lens, cols - 1);
      ColumnLength(lens, cols - 1, |lens|);
      assert lens[..|lens|] == lens;
    }
  }

  lemma InterleavedLength(lens: seq<nat>, ec: nat)
    ensures |Interleaved(lens, ec)| == Sum(lens) + ec * |lens|
  {
    DataLength(lens, Max(lens));
    SumMinEnds(lens, Max(lens));
  }

  // ---- Gathering the transmitted symbols and putting received ones back ----

  ghost predicate Shaped(blocks: seq<seq<Symbol>>, lens: seq<nat>, ec: nat) {
    |blocks| == |lens| && forall b | 0 <= b < |lens| :: |blocks[b]| == lens[b] + ec
  }

  ghost predicate Within(places: seq<Place>, lens: seq<nat>, ec: nat) {
    forall k | 0 <= k < |places| :: places[k].0 < |lens| && places[k].1 < lens[places[k].0] + ec
  }

  function Gather(blocks: seq<seq<Symbol>>, places: seq<Place>): (words: seq<Symbol>)
    requires forall k | 0 <= k < |places| :: places[k].0 < |blocks| && places[k].1 < |blocks[places[k].0]|
    ensures |words| == |places|
  {
    seq(|places|, k requires 0 <= k < |places| => blocks[places[k].0][places[k].1])
  }

  // blocks after the first k received words have been stored
  ghost function Scatter(
    blocks: seq<seq<Symbol>>, places: seq<Place>, words: seq<Symbol>, lens: seq<nat>, ec: nat, k: nat)
  : (r: seq<seq<Symbol>>)
    requires Shaped(blocks, lens, ec) && Within(places, lens, ec) && k <= |places| == |words|
    ensures Shaped(r, lens, ec)
  {
    if k == 0 then blocks
    else
      var before := Scatter(blocks, places, words, lens, ec, k - 1);
      var (b, i) := places[k - 1];
      before[b := before[b][i := words[k - 1]]]
  }

  lemma {:induction false} ScatterIgnoresStart(
    a: seq<seq<Symbol>>, b: seq<seq<Symbol>>, places: seq<Place>, words: seq<Symbol>, lens: seq<nat>, ec: nat, k: nat)
    requires Shaped(a, lens, ec) && Shaped(b, lens, ec) && Within(places, lens, ec) && k <= |places| == |words|
    ensures var (x, y) := (Scatter(a, places, words, lens, ec, k), Scatter(b, places, words, lens, ec, k));
      forall j | 0 <= j < k :: x[places[j].0][places[j].1] == y[places[j].0][places[j].1]
  {
    if k > 0 { ScatterIgnoresStart(a, b, places, words, lens, ec, k - 1); }
  }

  lemma ScatterDetermined(a: seq<seq<Symbol>>, b: seq<seq<Symbol>>, words: seq<Symbol>, lens: seq<nat>, ec: nat)
    requires Shaped(a, lens, ec) && Shaped(b, lens, ec) && Within(Interleaved(lens, ec), lens, ec)
    requires |words| == |Interleaved(lens, ec)|
    ensures var places := Interleaved(lens, ec);
      Scatter(a, places, words, lens, ec, |places|) == Scatter(b, places, words, lens, ec, |places|)
  {
    hide Interleaved, Scatter;
    var places := Interleaved(lens, ec);
    ScatterIgnoresStart(a, b, places, words, lens, ec, |places|);
    InterleavedIsBijection(lens, ec);
    var x, y := Scatter(a, places, words, lens, ec, |places|), Scatter(b, places, words, lens, ec, |places|);
    forall n | 0 <= n < |lens| ensures x[n] == y[n] {
      forall i | 0 <= i < lens[n] + ec ensures x[n][i] == y[n][i] {
        var p: Place := (n, i);
        assert p in places;
      }
    }
  }

  lemma {:induction false} ScatterOwn(blocks: seq<seq<Symbol>>, places: seq<Place>, lens: seq<nat>, ec: nat, k: nat)
    requires Shaped(blocks, lens, ec) && Within(places, lens, ec) && k <= |places|
    ensures Scatter(blocks, places, Gather(blocks, places), lens, ec, k) == blocks
  {
    if k > 0 {
      ScatterOwn(blocks, places, lens, ec, k - 1);
      var (b, i) := places[k - 1];
      assert blocks[b][i := blocks[b][i]] == blocks[b];
    }
  }

  /** Putting gathered words back gives the blocks, whatever they are put into. */
  lemma GatherScatter(start: seq<seq<Symbol>>, blocks: seq<seq<Symbol>>, lens: seq<nat>, ec: nat)
    requires Shaped(start, lens, ec) && Shaped(blocks, lens, ec) && Within(Interleaved(lens, ec), lens, ec)
    ensures var places := Interleaved(lens, ec);
      Scatter(start, places, Gather(blocks, places), lens, ec, |places|) == blocks
  {
    hide Interleaved, Scatter;
    var places := Interleaved(lens, ec);
    ScatterDetermined(start, blocks, Gather(blocks, places), lens, ec);
    ScatterOwn(blocks, places, lens, ec, |places|);
  }

  // received words of block b, among the first k, that are not the sent ones
  function Damage(places: seq<Place>, sent: seq<Symbol>, received: seq<Symbol>, b: nat, k: nat): nat
    requires |places| == |sent| == |received| && k <= |places|
  {
    if k == 0 then 0
    else Damage(places, sent, received, b, k - 1) + if places[k - 1].0 == b && sent[k - 1] != received[k - 1]
      then 1 else 0
  }

  lemma {:induction false} ScatterDamage(
    blocks: seq<seq<Symbol>>, places: seq<Place>, received: seq<Symbol>, lens: seq<nat>, ec: nat, b: nat, k: nat)
    requires Shaped(blocks, lens, ec) && Within(places, lens, ec) && k <= |places| == |received| && b < |lens|
    requires NoRepeats(places)
    ensures var r := Scatter(blocks, places, received, lens, ec, k);
      Distance(blocks[b], r[b]) <= Damage(places, Gather(blocks, places), received, b, k) &&
      forall j | k <= j < |places| :: r[places[j].0][places[j].1] == blocks[places[j].0][places[j].1]
  {
    hide Distance;
    if k == 0 {
      DistanceZero(blocks[b], blocks[b]);
    } else {
      ScatterDamage(blocks, places, received, lens, ec, b, k - 1);
      var before := Scatter(blocks, places, received, lens, ec, k - 1);
      var (n, i) := places[k - 1];
      if n == b {
        DistanceUpdate(blocks[b], before[b], i, received[k - 1]);
        if received[k - 1] == blocks[b][i] {
          assert before[b][i := received[k - 1]] == before[b];
        }
      }
    }
  }

  // ---- Encoding and correcting the blocks ----

  function EncodeBlocks(data: seq<Symbol>, lens: seq<nat>, ec: nat): (blocks: seq<seq<Symbol>>)
    requires |data| == Sum(lens) && ec > 0
    ensures Shaped(blocks, lens, ec)
    decreases |lens|
  {
    if lens == [] then []
    else
      var n := |lens| - 1;
      var block := data[Sum(lens[..n])..];
      EncodeBlocks(data[..Sum(lens[..n])], lens[..n], ec) + [block + Parity(block, ec)]
  }

  method BuildBlocks(data: seq<Symbol>, lens: seq<nat>, ec: nat) returns (blocks: seq<seq<Symbol>>)
    requires |data| == Sum(lens) && ec > 0
    ensures blocks == EncodeBlocks(data, lens, ec)
  {
    hide Parity, Generator, Remainder;
    var generator := Divisor(ec);
    var divisor := generator[..];
    blocks := [];
    var offset := 0;
    assert lens[..|lens|] == lens;
    for b := 0 to |lens|
      invariant offset == Sum(lens[..b]) <= |data|
      invariant blocks == EncodeBlocks(data[..offset], lens[..b], ec)
    {
      SumMonotone(lens, b + 1);
      assert lens[..b + 1][..b] == lens[..b];
      var block := data[offset..offset + lens[b]];
      var remainder := DivideBy(block, divisor);
      ParityIsRemainder(block, ec);
      ghost var next := data[..offset + lens[b]];
      assert next[..offset] == data[..offset] && next[offset..] == block;
      assert EncodeBlocks(next, lens[..b + 1], ec) ==
        EncodeBlocks(next[..offset], lens[..b], ec) + [block + Parity(block, ec)];
      blocks := blocks + [block + remainder[..]];
      offset := offset + lens[b];
    }
    assert data[..offset] == data;
  }

  lemma ParityIsRemainder(data: seq<Symbol>, d: nat)
    requires d > 0
    ensures Parity(data, d) == Remainder(data, Generator(d, d))
  {
  }

  lemma {:induction false} SumMonotone(lens: seq<nat>, k: nat)
    requires k <= |lens|
    ensures Sum(lens[..k]) <= Sum(lens)
  {
    if k == |lens| {
      assert lens[..k] == lens;
    } else {
      SumMonotone(lens[..|lens| - 1], k);
      assert lens[..|lens| - 1][..k] == lens[..k];
    }
  }

  // the data symbols of all blocks
  function DataOf(blocks: seq<seq<Symbol>>, lens: seq<nat>): seq<Symbol>
    requires |blocks| == |lens| && forall b | 0 <= b < |lens| :: lens[b] <= |blocks[b]|
  {
    if lens == [] then []
    else
      var n := |lens| - 1;
      DataOf(blocks[..n], lens[..n]) + blocks[n][..lens[n]]
  }

  lemma {:induction false} DataOfEncoded(data: seq<Symbol>, lens: seq<nat>, ec: nat)
    requires |data| == Sum(lens) && ec > 0
    ensures DataOf(EncodeBlocks(data, lens, ec), lens) == data
    decreases |lens|
  {
    hide Parity;
    if lens != [] {
      var n := |lens| - 1;
      var cut := Sum(lens[..n]);
      DataOfEncoded(data[..cut], lens[..n], ec);
      assert EncodeBlocks(data, lens, ec)[..n] == EncodeBlocks(data[..cut], lens[..n], ec);
      assert EncodeBlocks(data, lens, ec)[n][..lens[n]] == data[cut..];
    }
  }

  lemma {:induction false} EncodedAreCodewords(data: seq<Symbol>, lens: seq<nat>, ec: nat, b: nat)
    requires |data| == Sum(lens) && ec > 0 && b < |lens|
    ensures IsCodeword(EncodeBlocks(data, lens, ec)[b], ec)
    decreases |lens|
  {
    hide Parity, IsCodeword;
    var n := |lens| - 1;
    var cut := Sum(lens[..n]);
    if b < n {
      EncodedAreCodewords(data[..cut], lens[..n], ec, b);
    } else {
      ParityCompletes(data[cut..], ec);
    }
  }

  // fixed holds the codeword that corrects each block
  ghost predicate Fixes(fixed: seq<seq<Symbol>>, blocks: seq<seq<Symbol>>, ec: nat) {
    |fixed| == |blocks| && forall b | 0 <= b < |blocks| :: Corrects(fixed[b], blocks[b], ec)
  }

  lemma FixesUnique(x: seq<seq<Symbol>>, y: seq<seq<Symbol>>, blocks: seq<seq<Symbol>>, ec: nat)
    requires Fixes(x, blocks, ec) && Fixes(y, blocks, ec) && forall b | 0 <= b < |blocks| :: |blocks[b]| <= 255
    ensures x == y
  {
    hide Corrects;
    forall b | 0 <= b < |blocks| ensures x[b] == y[b] {
      UniqueCorrection(x[b], y[b], blocks[b], ec);
    }
  }

  datatype Recovered = Data(data: seq<Symbol>) | Lost

  // The blocks are recovered exactly when each of them lies within ec / 2 symbols of a codeword.
  method CorrectBlocks(blocks: seq<seq<Symbol>>, lens: seq<nat>, ec: nat) returns (r: Recovered)
    requires Shaped(blocks, lens, ec) && forall b | 0 <= b < |lens| :: lens[b] + ec <= 255
    ensures r.Data? ==> exists fixed ::
      Fixes(fixed, blocks, ec) && Shaped(fixed, lens, ec) && r.data == DataOf(fixed, lens)
    ensures r.Lost? ==> forall fixed :: !Fixes(fixed, blocks, ec)
  {
    hide Corrects, IsCodeword;
    var data := [];
    ghost var fixed: seq<seq<Symbol>> := [];
    for b := 0 to |blocks|
      invariant |fixed| == b && forall n | 0 <= n < b :: |fixed[n]| == lens[n] + ec && Corrects(fixed[n], blocks[n], ec)
      invariant data == DataOf(fixed, lens[..b])
    {
      var msg := new Symbol[|blocks[b]|](i requires 0 <= i < |blocks[b]| => blocks[b][i]);
      assert msg[..] == blocks[b];
      var outcome := RsCorrect(msg, ec);
      if outcome.Failed? { return Lost; }
      ghost var c :| Corrects(c, blocks[b], ec);
      assert lens[..b + 1][..b] == lens[..b] && (fixed + [msg[..]])[..b] == fixed;
      data := data + msg[..lens[b]];
      fixed := fixed + [msg[..]];
    }
    assert lens[..|blocks|] == lens;
    return Data(data);
  }

  // Received words with at most ec / 2 errors in each block still give the data.
  ghost predicate Recoverable(data: seq<Symbol>, received: seq<Symbol>, lens: seq<nat>, ec: nat)
    requires |data| == Sum(lens) && ec > 0 && |received| == |Interleaved(lens, ec)|
    requires Within(Interleaved(lens, ec), lens, ec)
  {
    var places := Interleaved(lens, ec);
    var sent := Gather(EncodeBlocks(data, lens, ec), places);
    forall b | 0 <= b < |lens| :: 2 * Damage(places, sent, received, b, |places|) <= ec
  }

  lemma RecoverableBlocks(data: seq<Symbol>, received: seq<Symbol>, start: seq<seq<Symbol>>, lens: seq<nat>, ec: nat)
    requires |data| == Sum(lens) && ec > 0 && |received| == |Interleaved(lens, ec)|
    requires Within(Interleaved(lens, ec), lens, ec)
    requires Shaped(start, lens, ec) && Recoverable(data, received, lens, ec)
    ensures var places := Interleaved(lens, ec);
      Fixes(EncodeBlocks(data, lens, ec), Scatter(start, places, received, lens, ec, |places|), ec)
  {
    hide IsCodeword, Distance, Damage, Scatter, Interleaved, EncodeBlocks;
    var places, blocks := Interleaved(lens, ec), EncodeBlocks(data, lens, ec);
    InterleavedIsBijection(lens, ec);
    ScatterDetermined(start, blocks, received, lens, ec);
    var got := Scatter(blocks, places, received, lens, ec, |places|);
    forall b | 0 <= b < |lens| ensures Corrects(blocks[b], got[b], ec) {
      ScatterDamage(blocks, places, received, lens, ec, b, |places|);
      EncodedAreCodewords(data, lens, ec, b);
      DistanceCommutes(blocks[b], got[b]);
    }
  }

  lemma DistanceCommutes(a: seq<Symbol>, b: seq<Symbol>)
    requires |a| == |b|
    ensures Distance(a, b) == Distance(b, a)
  {
    DistanceSymmetric(a, b);
  }

  // ---- In which order the symbols are sent ----

  // data before redundancy; of each, the first symbols of all blocks, then the second, and so on, block by block
  predicate Sooner(lens: seq<nat>, p: Place, q: Place)
    requires p.0 < |lens| && q.0 < |lens|
  {
    var pd, qd := p.1 < lens[p.0], q.1 < lens[q.0];
    var pi, qi := if pd then p.1 else p.1 - lens[p.0], if qd then q.1 else q.1 - lens[q.0];
    if pd != qd then pd else pi < qi || (pi == qi && p.0 < q.0)
  }

  ghost predicate InOrder(lens: seq<nat>, places: seq<Place>) {
    && (forall k | 0 <= k < |places| :: places[k].0 < |lens|)
    && forall j, k | 0 <= j < k < |places| :: Sooner(lens, places[j], places[k])
  }

  lemma InOrderConcat(lens: seq<nat>, a: seq<Place>, b: seq<Place>)
    requires InOrder(lens, a) && InOrder(lens, b)
    requires forall p, q | p in a && q in b :: Sooner(lens, p, q)
    ensures InOrder(lens, a + b)
  {
    hide Sooner;
    forall j, k | 0 <= j < k < |a + b| ensures Sooner(lens, (a + b)[j], (a + b)[k]) {
      if j < |a| <= k { assert a[j] in a && b[k - |a|] in b; }
    }
  }

  lemma {:induction false} ColumnInOrder(lens: seq<nat>, i: nat, nb: nat)
    requires nb <= |lens|
    ensures InOrder(lens, DataColumn(lens, i, nb))
  {
    ColumnMembers(lens, i, nb);
    if nb > 0 {
      ColumnInOrder(lens, i, nb - 1);
      ColumnMembers(lens, i, nb - 1);
      InOrderConcat(lens, DataColumn(lens, i, nb - 1), if i < lens[nb - 1] then [(nb - 1, i)] else []);
    }
  }

  lemma {:induction false} DataInOrder(lens: seq<nat>, cols: nat)
    ensures InOrder(lens, DataPlaces(lens, cols))
  {
    if cols > 0 {
      DataInOrder(lens, cols - 1);
      DataMembers(lens, cols - 1);
      ColumnInOrder(lens, cols - 1, |lens|);
      ColumnMembers(lens, cols - 1, |lens|);
      InOrderConcat(lens, DataPlaces(lens, cols - 1), DataColumn(lens, cols - 1, |lens|));
    }
  }

  lemma {:induction false} EccInOrder(lens: seq<nat>, ec: nat)
    ensures InOrder(lens, EccPlaces(lens, ec))
  {
    if ec > 0 {
      EccInOrder(lens, ec - 1);
      EccMembers(lens, ec - 1);
      var row := seq(|lens|, b requires 0 <= b < |lens| => (b as nat, lens[b] + ec - 1));
      InOrderConcat(lens, EccPlaces(lens, ec - 1), row);
    }
  }

  /** With every place sent once, this fixes the whole sequence. */
  lemma InterleavedInOrder(lens: seq<nat>, ec: nat)
    ensures InOrder(lens, Interleaved(lens, ec))
  {
    DataInOrder(lens, Max(lens));
    DataMembers(lens, Max(lens));
    EccInOrder(lens, ec);
    EccMembers(lens, ec);
    InOrderConcat(lens, DataPlaces(lens, Max(lens)), EccPlaces(lens, ec));
  }

  /** Shorter blocks come first, and are shorter by one symbol only. */
  lemma ShortBlocksFirst(total: nat, nblocks: nat, i: nat, j: nat)
    requires nblocks > 0 && i <= j < nblocks
    ensures var lens := BlockLengths(total, nblocks); lens[i] <= lens[j] <= lens[i] + 1
  {
  }
}

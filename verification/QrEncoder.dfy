/** The codewords of a QR symbol: the payload's data in blocks with their redundancy, interleaved. */
module QrEncoder {

  import opened Arithmetic
  import opened Field
  import opened Bits
  import opened ByteMode
  import opened Blocks
  import opened Versions

  function TotalCodewords(version: nat): int {
    RawModules(version) / 8
  }

  function EcOf(version: nat, level: nat): (e: Ec)
    requires 1 <= version <= 40 && level < 4
    ensures e.perBlock > 0 && e.blocks > 0 && e.perBlock * e.blocks <= TotalCodewords(version)
  {
    hide EcRow, RawModules;
    TableUsable(version, level);
    EcRow(version)[level]
  }

  function DataCapacity(version: nat, level: nat): (n: nat)
    requires 1 <= version <= 40 && level < 4
  {
    hide EcOf, RawModules;
    TotalCodewords(version) - EcOf(version, level).perBlock * EcOf(version, level).blocks
  }

  // data symbols of each block
  function Lengths(version: nat, level: nat): (lens: seq<nat>)
    requires 1 <= version <= 40 && level < 4
  {
    hide EcOf;
    BlockLengths(DataCapacity(version, level), EcOf(version, level).blocks)
  }

  // All transmitted symbols find a place, in blocks short enough for the code.
  lemma LengthsFit(version: nat, level: nat)
    requires 1 <= version <= 40 && level < 4
    ensures var (lens, ec) := (Lengths(version, level), EcOf(version, level).perBlock);
      && Sum(lens) == DataCapacity(version, level)
      && |Interleaved(lens, ec)| == TotalCodewords(version)
      && Within(Interleaved(lens, ec), lens, ec)
      && forall b | 0 <= b < |lens| :: lens[b] + ec <= 255
  {
    hide EcRow, RawModules, Interleaved, BlockLengths;
    TableUsable(version, level);
    var e, capacity, lens := EcOf(version, level), DataCapacity(version, level), Lengths(version, level);
    LengthsSum(capacity, e.blocks);
    InterleavedLength(lens, e.perBlock);
    InterleavedIsBijection(lens, e.perBlock);
    assert 255 * e.blocks - (e.perBlock + 1) * e.blocks == (254 - e.perBlock) * e.blocks;
    BlockLengthBound(capacity, e.blocks, 254 - e.perBlock);
  }

  lemma BlockLengthBound(total: nat, nblocks: nat, bound: int)
    requires nblocks > 0 && total <= bound * nblocks
    ensures forall i | 0 <= i < nblocks :: BlockLengths(total, nblocks)[i] <= bound + 1
  {
    var q, r := total / nblocks, total % nblocks;
    assert nblocks * (q - bound) <= 0 by {
      assert total == nblocks * q + r;
      assert nblocks * (q - bound) == nblocks * q - bound * nblocks;
    }
    MulAtLeast(nblocks, q - bound);
    forall i | 0 <= i < nblocks ensures BlockLengths(total, nblocks)[i] <= bound + 1 {
      assert BlockLengths(total, nblocks)[i] <= q + 1;
    }
  }

  // the symbols sent for a payload, block by block and interleaved
  function Transmitted(payload: seq<Symbol>, version: nat, level: nat): (words: seq<Symbol>)
    requires 1 <= version <= 40 && level < 4 && Fits(payload, version, DataCapacity(version, level))
    ensures |words| == TotalCodewords(version)
  {
    hide EcOf, Interleaved, EncodeBlocks, DataCodewords, Fits;
    LengthsFit(version, level);
    var (lens, ec) := (Lengths(version, level), EcOf(version, level).perBlock);
    Gather(EncodeBlocks(PayloadCodewords(payload, version, level), lens, ec), Interleaved(lens, ec))
  }

  function PayloadCodewords(payload: seq<Symbol>, version: nat, level: nat): (data: seq<Symbol>)
    requires 1 <= version <= 40 && level < 4 && Fits(payload, version, DataCapacity(version, level))
    ensures |data| == Sum(Lengths(version, level))
  {
    hide EcOf, DataCodewords, EcRow, RawModules, Interleaved;
    FittingLength(payload, version, level);
    ByteModeRoundTrip(payload, version, DataCapacity(version, level));
    LengthsFit(version, level);
    DataCodewords(payload, version, DataCapacity(version, level))
  }

  lemma FittingLength(payload: seq<Symbol>, version: nat, level: nat)
    requires 1 <= version <= 40 && level < 4 && Fits(payload, version, DataCapacity(version, level))
    ensures |payload| < Pow2(CountBits(version))
  {
    hide EcRow, RawModules;
    TableUsable(version, level);
    assert Pow2(8) == 256 && Pow2(16) == 65536;
  }

  // the symbols of a level L symbol
  method BuildCodewords(payload: seq<Symbol>, version: nat) returns (words: seq<Symbol>)
    requires 1 <= version <= 40 && Fits(payload, version, DataCapacity(version, 0))
    ensures words == Transmitted(payload, version, 0)
  {
    hide EcRow, RawModules, EcOf, Interleaved, EncodeBlocks, DataCodewords, Fits;
    LengthsFit(version, 0);
    var data := BuildDataCodewords(payload, version, DataCapacity(version, 0));
    assert data == PayloadCodewords(payload, version, 0);
    var lens, ec := Lengths(version, 0), EcOf(version, 0).perBlock;
    var blocks := BuildBlocks(data, lens, ec);
    words := Gather(blocks, Interleaved(lens, ec));
  }

  // ---- How much a symbol holds ----

  // table 7 of ISO/IEC 18004: the bytes that each version holds at the levels L, M, Q and H
  const BYTES: seq<seq<nat>> := [
    [17, 14, 11, 7], [32, 26, 20, 14], [53, 42, 32, 24], [78, 62, 46, 34],
    [106, 84, 60, 44], [134, 106, 74, 58], [154, 122, 86, 64], [192, 152, 108, 84],
    [230, 180, 130, 98], [271, 213, 151, 119], [321, 251, 177, 137], [367, 287, 203, 155],
    [425, 331, 241, 177], [458, 362, 258, 194], [520, 412, 292, 220], [586, 450, 322, 250],
    [644, 504, 364, 280], [718, 560, 394, 310], [792, 624, 442, 338], [858, 666, 482, 382],
    [929, 711, 509, 403], [1003, 779, 565, 439], [1091, 857, 611, 461], [1171, 911, 661, 511],
    [1273, 997, 715, 535], [1367, 1059, 751, 593], [1465, 1125, 805, 625], [1528, 1190, 868, 658],
    [1628, 1264, 908, 698], [1732, 1370, 982, 742], [1840, 1452, 1030, 790], [1952, 1538, 1112, 842],
    [2068, 1628, 1168, 898], [2188, 1722, 1228, 958], [2303, 1809, 1283, 983], [2431, 1911, 1351, 1051],
    [2563, 1989, 1423, 1093], [2699, 2099, 1499, 1139], [2809, 2213, 1579, 1219], [2953, 2331, 1663, 1273]
  ]

  // the data symbols beside the payload: mode, count and terminator, in whole symbols
  predicate Holds(e: Ec, version: nat, bytes: nat) {
    RawModules(version) / 8 - e.perBlock * e.blocks == bytes + if version <= 9 then 2 else 3
  }

  predicate RowHolds(row: seq<Ec>, version: nat, bytes: seq<nat>) {
    && |row| == |bytes| == 4
    && Holds(row[0], version, bytes[0]) && Holds(row[1], version, bytes[1])
    && Holds(row[2], version, bytes[2]) && Holds(row[3], version, bytes[3])
  }

  predicate RowsHold(first: nat, n: nat)
    requires 1 <= first && first + n <= 41
  {
    n == 0 || (RowHolds(EcRow(first + n - 1), first + n - 1, BYTES[first + n - 2]) && RowsHold(first, n - 1))
  }

  lemma Bytes1()
    ensures RowHolds(EcRow(1), 1, BYTES[0])
  {
  }

  lemma Bytes2()
    ensures RowHolds(EcRow(2), 2, BYTES[1])
  {
  }

  lemma Bytes3()
    ensures RowHolds(EcRow(3), 3, BYTES[2])
  {
  }

  lemma Bytes4()
    ensures RowHolds(EcRow(4), 4, BYTES[3])
  {
  }

  lemma Bytes5()
    ensures RowHolds(EcRow(5), 5, BYTES[4])
  {
  }

  lemma Bytes6()
    ensures RowHolds(EcRow(6), 6, BYTES[5])
  {
  }

  lemma Bytes7()
    ensures RowHolds(EcRow(7), 7, BYTES[6])
  {
  }

  lemma Bytes8()
    ensures RowHolds(EcRow(8), 8, BYTES[7])
  {
  }

  lemma Bytes9()
    ensures RowHolds(EcRow(9), 9, BYTES[8])
  {
  }

  lemma Bytes10()
    ensures RowHolds(EcRow(10), 10, BYTES[9])
  {
  }

  lemma Bytes1To5()
    ensures RowsHold(1, 5)
  {
    hide RowHolds, EcRow, BYTES;
    Bytes1();
    Bytes2();
    Bytes3();
    Bytes4();
    Bytes5();
  }

  lemma Bytes6To10()
    ensures RowsHold(6, 5)
  {
    hide RowHolds, EcRow, BYTES;
    Bytes6();
    Bytes7();
    Bytes8();
    Bytes9();
    Bytes10();
  }

  lemma Bytes11To15()
    ensures RowsHold(11, 5)
  {
  }

  lemma Bytes16To20()
    ensures RowsHold(16, 5)
  {
  }

  lemma Bytes21To25()
    ensures RowsHold(21, 5)
  {
  }

  lemma Bytes26To30()
    ensures RowsHold(26, 5)
  {
  }

  lemma Bytes31To35()
    ensures RowsHold(31, 5)
  {
  }

  lemma Bytes36To40()
    ensures RowsHold(36, 5)
  {
  }

  lemma {:induction false} RowsHoldEach(first: nat, n: nat, v: nat)
    requires 1 <= first && first + n <= 41 && first <= v < first + n && RowsHold(first, n)
    ensures RowHolds(EcRow(v), v, BYTES[v - 1])
  {
    hide RowHolds, EcRow, BYTES;
    if v < first + n - 1 { RowsHoldEach(first, n - 1, v); }
  }

  lemma EveryRowHolds(version: nat)
    requires 1 <= version <= 40
    ensures RowHolds(EcRow(version), version, BYTES[version - 1])
  {
    hide RowHolds, EcRow, BYTES, RowsHold;
    if version <= 5 {
      Bytes1To5();
      RowsHoldEach(1, 5, version);
    } else if version <= 10 {
      Bytes6To10();
      RowsHoldEach(6, 5, version);
    } else if version <= 15 {
      Bytes11To15();
      RowsHoldEach(11, 5, version);
    } else if version <= 20 {
      Bytes16To20();
      RowsHoldEach(16, 5, version);
    } else if version <= 25 {
      Bytes21To25();
      RowsHoldEach(21, 5, version);
    } else if version <= 30 {
      Bytes26To30();
      RowsHoldEach(26, 5, version);
    } else if version <= 35 {
      Bytes31To35();
      RowsHoldEach(31, 5, version);
    } else {
      Bytes36To40();
      RowsHoldEach(36, 5, version);
    }
  }

  /** A payload fits a version at a level exactly up to the number of bytes in the standard's table. */
  lemma BytesOfStandard(payload: seq<Symbol>, version: nat, level: nat)
    requires 1 <= version <= 40 && level < 4
    ensures |BYTES[version - 1]| == 4
    ensures Fits(payload, version, DataCapacity(version, level)) <==> |payload| <= BYTES[version - 1][level]
  {
    hide EcRow, RawModules, BYTES;
    EveryRowHolds(version);
  }

  datatype Pick = Version(version: nat) | TooLong

  lemma MostBytes(version: nat)
    requires 1 <= version <= 20
    ensures BYTES[version - 1][0] <= BYTES[19][0] == 858
  {
  }

  /** The lowest of the first twenty versions that holds the payload, of which the last holds 858 bytes. */
  method PickVersion(payload: seq<Symbol>) returns (r: Pick)
    ensures r.TooLong? <==> |payload| > 858
    ensures r.Version? ==> 1 <= r.version <= 20 && Fits(payload, r.version, DataCapacity(r.version, 0))
    ensures r.Version? ==> forall v | 1 <= v < r.version :: !Fits(payload, v, DataCapacity(v, 0))
  {
    hide EcRow, RawModules, DataCapacity, Fits, BYTES;
    MostBytes(20);
    for version := 1 to 21
      invariant forall v | 1 <= v < version :: !Fits(payload, v, DataCapacity(v, 0))
    {
      BytesOfStandard(payload, version, 0);
      MostBytes(version);
      if Fits(payload, version, DataCapacity(version, 0)) {
        return Version(version);
      }
    }
    BytesOfStandard(payload, 20, 0);
    r := TooLong;
  }
}

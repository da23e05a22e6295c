/** What a QR version fixes: error correction blocks, capacities, and alignment pattern positions. */
module Versions {

  // error correction symbols per block, and number of blocks
  datatype Ec = Ec(perBlock: nat, blocks: nat)

  // one entry for each of the levels L, M, Q, H
  function EcRow(version: nat): seq<Ec> {
    match version
    case 1 => [Ec(7, 1), Ec(10, 1), Ec(13, 1), Ec(17, 1)]
    case 2 => [Ec(10, 1), Ec(16, 1), Ec(22, 1), Ec(28, 1)]
    case 3 => [Ec(15, 1), Ec(26, 1), Ec(18, 2), Ec(22, 2)]
    case 4 => [Ec(20, 1), Ec(18, 2), Ec(26, 2), Ec(16, 4)]
    case 5 => [Ec(26, 1), Ec(24, 2), Ec(18, 4), Ec(22, 4)]
    case 6 => [Ec(18, 2), Ec(16, 4), Ec(24, 4), Ec(28, 4)]
    case 7 => [Ec(20, 2), Ec(18, 4), Ec(18, 6), Ec(26, 5)]
    case 8 => [Ec(24, 2), Ec(22, 4), Ec(22, 6), Ec(26, 6)]
    case 9 => [Ec(30, 2), Ec(22, 5), Ec(20, 8), Ec(24, 8)]
    case 10 => [Ec(18, 4), Ec(26, 5), Ec(24, 8), Ec(28, 8)]
    case 11 => [Ec(20, 4), Ec(30, 5), Ec(28, 8), Ec(24, 11)]
    case 12 => [Ec(24, 4), Ec(22, 8), Ec(26, 10), Ec(28, 11)]
    case 13 => [Ec(26, 4), Ec(22, 9), Ec(24, 12), Ec(22, 16)]
    case 14 => [Ec(30, 4), Ec(24, 9), Ec(20, 16), Ec(24, 16)]
    case 15 => [Ec(22, 6), Ec(24, 10), Ec(30, 12), Ec(24, 18)]
    case 16 => [Ec(24, 6), Ec(28, 10), Ec(24, 17), Ec(30, 16)]
    case 17 => [Ec(28, 6), Ec(28, 11), Ec(28, 16), Ec(28, 19)]
    case 18 => [Ec(30, 6), Ec(26, 13), Ec(28, 18), Ec(28, 21)]
    case 19 => [Ec(28, 7), Ec(26, 14), Ec(26, 21), Ec(26, 25)]
    case 20 => [Ec(28, 8), Ec(26, 16), Ec(30, 20), Ec(28, 25)]
    case 21 => [Ec(28, 8), Ec(26, 17), Ec(28, 23), Ec(30, 25)]
    case 22 => [Ec(28, 9), Ec(28, 17), Ec(30, 23), Ec(24, 34)]
    case 23 => [Ec(30, 9), Ec(28, 18), Ec(30, 25), Ec(30, 30)]
    case 24 => [Ec(30, 10), Ec(28, 20), Ec(30, 27), Ec(30, 32)]
    case 25 => [Ec(26, 12), Ec(28, 21), Ec(30, 29), Ec(30, 35)]
    case 26 => [Ec(28, 12), Ec(28, 23), Ec(28, 34), Ec(30, 37)]
    case 27 => [Ec(30, 12), Ec(28, 25), Ec(30, 34), Ec(30, 40)]
    case 28 => [Ec(30, 13), Ec(28, 26), Ec(30, 35), Ec(30, 42)]
    case 29 => [Ec(30, 14), Ec(28, 28), Ec(30, 38), Ec(30, 45)]
    case 30 => [Ec(30, 15), Ec(28, 29), Ec(30, 40), Ec(30, 48)]
    case 31 => [Ec(30, 16), Ec(28, 31), Ec(30, 43), Ec(30, 51)]
    case 32 => [Ec(30, 17), Ec(28, 33), Ec(30, 45), Ec(30, 54)]
    case 33 => [Ec(30, 18), Ec(28, 35), Ec(30, 48), Ec(30, 57)]
    case 34 => [Ec(30, 19), Ec(28, 37), Ec(30, 51), Ec(30, 60)]
    case 35 => [Ec(30, 19), Ec(28, 38), Ec(30, 53), Ec(30, 63)]
    case 36 => [Ec(30, 20), Ec(28, 40), Ec(30, 56), Ec(30, 66)]
    case 37 => [Ec(30, 21), Ec(28, 43), Ec(30, 59), Ec(30, 70)]
    case 38 => [Ec(30, 22), Ec(28, 45), Ec(30, 62), Ec(30, 74)]
    case 39 => [Ec(30, 24), Ec(28, 47), Ec(30, 65), Ec(30, 77)]
    case 40 => [Ec(30, 25), Ec(28, 49), Ec(30, 68), Ec(30, 81)]
    case _ => []
  }

  function RawModules(version: nat): int {
    var result := (16 * version + 128) * version + 64;
    var align := version / 7 + 2;
    (if version >= 2 then result - ((25 * align - 10) * align - 55) else result) - if version >= 7 then 36 else 0
  }

  predicate EcUsable(e: Ec, total: int, countLimit: int) {
    var data := total - e.perBlock * e.blocks;
    0 < e.blocks && 0 < e.perBlock && 0 <= data <= countLimit && data + (e.perBlock + 1) * e.blocks <= 255 * e.blocks
  }

  predicate RowUsable(row: seq<Ec>, total: int, countLimit: int) {
    && |row| == 4
    && EcUsable(row[0], total, countLimit) && EcUsable(row[1], total, countLimit)
    && EcUsable(row[2], total, countLimit) && EcUsable(row[3], total, countLimit)
  }

  // largest payload length the count field can hold
  function CountLimit(version: nat): int {
    if version <= 9 then 255 else 65535
  }

  // the n versions from first on
  predicate RowsUsable(first: nat, n: nat) {
    n == 0 || (RowUsable(EcRow(first + n - 1), RawModules(first + n - 1) / 8, CountLimit(first + n - 1))
      && RowsUsable(first, n - 1))
  }

  lemma Rows1To10()
    ensures RowsUsable(1, 10)
  {
  }

  lemma Rows11To20()
    ensures RowsUsable(11, 10)
  {
  }

  lemma Rows21To30()
    ensures RowsUsable(21, 10)
  {
  }

  lemma Rows31To35()
    ensures RowsUsable(31, 5)
  {
  }

  lemma Rows36To40()
    ensures RowsUsable(36, 5)
  {
  }

  lemma {:induction false} RowsUsableEach(first: nat, n: nat, v: nat)
    requires first <= v < first + n && RowsUsable(first, n)
    ensures RowUsable(EcRow(v), RawModules(v) / 8, CountLimit(v))
  {
    hide RowUsable, EcRow, RawModules;
    if v < first + n - 1 { RowsUsableEach(first, n - 1, v); }
  }

  // Blocks of every version and level have at most 255 symbols, and the count field can express every payload that
  // fits.
  lemma TableUsable(version: nat, level: nat)
    requires 1 <= version <= 40 && level < 4
    ensures |EcRow(version)| == 4 && EcUsable(EcRow(version)[level], RawModules(version) / 8, CountLimit(version))
  {
    hide EcRow, EcUsable, RawModules, RowsUsable;
    Rows1To10();
    Rows11To20();
    Rows21To30();
    Rows31To35();
    Rows36To40();
    if version <= 30 {
      RowsUsableEach((version - 1) / 10 * 10 + 1, 10, version);
    } else {
      RowsUsableEach(if version <= 35 then 31 else 36, 5, version);
    }
  }
}

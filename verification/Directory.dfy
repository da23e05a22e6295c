/** The index of a PMTiles archive: directories in columns of variable-length integers, and the lookup of a tile. */
module Directory {

  import opened Arithmetic
  import opened Varint
  import Hilbert

  datatype Entry = Entry(id: nat, run: nat, length: nat, offset: nat)
  datatype Decoded = Entries(entries: seq<Entry>) | Malformed

  // ---- Columns ----

  datatype Column = Column(values: seq<nat>, next: nat) | Failed

  function ReadColumn(data: seq<Byte>, offset: nat, count: nat): Column {
    if count == 0 then Column([], offset)
    else
      match ReadColumn(data, offset, count - 1)
      case Failed => Failed
      case Column(values, next) =>
        var r := ReadFrom(data, next, MAX_BYTES);
        if r.Got? then Column(values + [r.value], r.next) else Failed
  }

  lemma {:induction false} ColumnLength(data: seq<Byte>, offset: nat, count: nat)
    requires ReadColumn(data, offset, count).Column?
    ensures |ReadColumn(data, offset, count).values| == count
  {
    if count > 0 {
      ColumnLength(data, offset, count - 1);
    }
  }

  // ---- What the columns stand for ----

  // ids are written as steps from the one before
  function IdAt(steps: seq<nat>, i: nat): nat
    requires i < |steps|
  {
    if i == 0 then steps[0] else steps[i] + IdAt(steps, i - 1)
  }

  // an offset is written one up; zero is short for right after the entry before
  function OffsetAt(lengths: seq<nat>, codes: seq<nat>, i: nat): nat
    requires i < |codes| == |lengths|
  {
    if codes[i] != 0 then codes[i] - 1 else if i == 0 then 0 else OffsetAt(lengths, codes, i - 1) + lengths[i - 1]
  }

  predicate Acceptable(steps: seq<nat>, lengths: seq<nat>, codes: seq<nat>, i: nat)
    requires i < |steps| == |lengths| == |codes|
  {
    lengths[i] != 0 && (i == 0 ==> codes[i] != 0) && (i > 0 ==> steps[i] > 0)
  }

  function Assembled(steps: seq<nat>, runs: seq<nat>, lengths: seq<nat>, codes: seq<nat>): seq<Entry>
    requires |steps| == |runs| == |lengths| == |codes|
  {
    seq(|steps|, i requires 0 <= i < |steps| => Entry(IdAt(steps, i), runs[i], lengths[i], OffsetAt(lengths, codes, i)))
  }

  function Columns(steps: seq<nat>, runs: seq<nat>, lengths: seq<nat>, codes: seq<nat>, complete: bool): Decoded
    requires |steps| == |runs| == |lengths| == |codes|
  {
    if (forall i :: 0 <= i < |steps| ==> Acceptable(steps, lengths, codes, i)) && complete
    then Entries(Assembled(steps, runs, lengths, codes))
    else Malformed
  }

  function Decode(data: seq<Byte>): Decoded {
    var head := ReadFrom(data, 0, MAX_BYTES);
    if !head.Got? || head.value > |data| then Malformed
    else
      var n := head.value;
      var ids := ReadColumn(data, head.next, n);
      if ids.Failed? then Malformed else
      var runs := ReadColumn(data, ids.next, n);
      if runs.Failed? then Malformed else
      var lengths := ReadColumn(data, runs.next, n);
      if lengths.Failed? then Malformed else
      var offsets := ReadColumn(data, lengths.next, n);
      if offsets.Failed? then Malformed else
      ColumnLength(data, head.next, n);
      ColumnLength(data, ids.next, n);
      ColumnLength(data, runs.next, n);
      ColumnLength(data, lengths.next, n);
      Columns(ids.values, runs.values, lengths.values, offsets.values, offsets.next == |data|)
  }

  // ---- Decoding in place ----

  method DecodeColumn(data: seq<Byte>, start: nat, count: nat) returns (c: Column)
    ensures c == ReadColumn(data, start, count)
  {
    hide ReadFrom;
    var values, offset: nat := [], start;
    for i := 0 to count
      invariant ReadColumn(data, start, i) == Column(values, offset)
    {
      var r := ReadVarint(data, offset);
      if !r.Got? {
        ColumnFails(data, start, i + 1, count);
        return Failed;
      }
      values, offset := values + [r.value], r.next;
    }
    c := Column(values, offset);
  }

  lemma {:induction false} ColumnFails(data: seq<Byte>, offset: nat, i: nat, count: nat)
    requires i <= count && ReadColumn(data, offset, i).Failed?
    ensures ReadColumn(data, offset, count).Failed?
    decreases count
  {
    if i < count {
      ColumnFails(data, offset, i, count - 1);
    }
  }

  method DecodeDirectory(data: seq<Byte>) returns (r: Decoded)
    ensures r == Decode(data)
  {
    hide ReadFrom, ReadColumn, IdAt, OffsetAt;
    var head := ReadVarint(data, 0);
    if !head.Got? || head.value > |data| {
      return Malformed;
    }
    var count, offset := head.value, head.next;
    var columns: seq<seq<nat>> := [];
    var column := DecodeColumn(data, offset, count);
    if column.Failed? { return Malformed; }
    ColumnLength(data, offset, count);
    var ids := column.values;
    ghost var steps := ids;
    ghost var at := column.next;
    column := DecodeColumn(data, column.next, count);
    if column.Failed? { return Malformed; }
    ColumnLength(data, at, count);
    var runs := column.values;
    at := column.next;
    column := DecodeColumn(data, column.next, count);
    if column.Failed? { return Malformed; }
    ColumnLength(data, at, count);
    var lengths := column.values;
    at := column.next;
    column := DecodeColumn(data, column.next, count);
    if column.Failed? { return Malformed; }
    ColumnLength(data, at, count);
    var offsets := column.values;
    ghost var codes := offsets;
    for i := 0 to count
      invariant |ids| == |offsets| == count
      invariant forall k :: 0 <= k < i ==>
        ids[k] == IdAt(steps, k) && offsets[k] == OffsetAt(lengths, codes, k) && Acceptable(steps, lengths, codes, k)
      invariant forall k :: i <= k < count ==> ids[k] == steps[k] && offsets[k] == codes[k]
    {
      EntryAt(steps, lengths, codes, i);
      if i > 0 {
        ids := ids[i := ids[i] + ids[i - 1]];
      }
      if offsets[i] == 0 {
        if i == 0 {
          assert !Acceptable(steps, lengths, codes, i);
          return Malformed;
        }
        offsets := offsets[i := offsets[i - 1] + lengths[i - 1]];
      } else {
        offsets := offsets[i := offsets[i] - 1];
      }
      if lengths[i] == 0 || (i > 0 && ids[i] <= ids[i - 1]) {
        assert !Acceptable(steps, lengths, codes, i);
        return Malformed;
      }
    }
    if column.next != |data| {
      return Malformed;
    }
    r := Entries(seq(count, i requires 0 <= i < count => Entry(ids[i], runs[i], lengths[i], offsets[i])));
    assert r.entries == Assembled(steps, runs, lengths, codes);
  }

  lemma EntryAt(steps: seq<nat>, lengths: seq<nat>, codes: seq<nat>, i: nat)
    requires i < |steps| == |lengths| == |codes|
    ensures IdAt(steps, i) == steps[i] + if i > 0 then IdAt(steps, i - 1) else 0
    ensures codes[i] != 0 ==> OffsetAt(lengths, codes, i) == codes[i] - 1
    ensures codes[i] == 0 && i > 0 ==> OffsetAt(lengths, codes, i) == OffsetAt(lengths, codes, i - 1) + lengths[i - 1]
  {
  }

  // ---- Every accepted directory is in order ----

  ghost predicate Increasing(es: seq<Entry>) {
    forall i, j :: 0 <= i < j < |es| ==> es[i].id < es[j].id
  }

  lemma {:induction false} IdsIncrease(steps: seq<nat>, i: nat, j: nat)
    requires i < j < |steps| && forall k :: 0 < k < |steps| ==> steps[k] > 0
    ensures IdAt(steps, i) < IdAt(steps, j)
    decreases j
  {
    if i < j - 1 {
      IdsIncrease(steps, i, j - 1);
    }
  }

  lemma ColumnsInOrder(steps: seq<nat>, runs: seq<nat>, lengths: seq<nat>, codes: seq<nat>, complete: bool)
    requires |steps| == |runs| == |lengths| == |codes| && Columns(steps, runs, lengths, codes, complete).Entries?
    ensures var es := Columns(steps, runs, lengths, codes, complete).entries;
      Increasing(es) && forall i :: 0 <= i < |es| ==> es[i].length > 0
  {
    hide IdAt, OffsetAt;
    forall k | 0 <= k < |steps| ensures lengths[k] > 0 && (k > 0 ==> steps[k] > 0) {
      assert Acceptable(steps, lengths, codes, k);
    }
    forall i, j | 0 <= i < j < |steps| ensures IdAt(steps, i) < IdAt(steps, j) {
      IdsIncrease(steps, i, j);
    }
  }

  /** Whatever the bytes, the ids of an accepted directory strictly increase and no entry is empty. */
  lemma AcceptedIsOrdered(data: seq<Byte>)
    requires Decode(data).Entries?
    ensures Increasing(Decode(data).entries)
    ensures forall i :: 0 <= i < |Decode(data).entries| ==> Decode(data).entries[i].length > 0
  {
    hide ReadFrom, ReadColumn, Columns, Increasing;
    var head := ReadFrom(data, 0, MAX_BYTES);
    var n := head.value;
    var ids := ReadColumn(data, head.next, n);
    var runs := ReadColumn(data, ids.next, n);
    var lengths := ReadColumn(data, runs.next, n);
    var offsets := ReadColumn(data, lengths.next, n);
    ColumnLength(data, head.next, n);
    ColumnLength(data, ids.next, n);
    ColumnLength(data, runs.next, n);
    ColumnLength(data, lengths.next, n);
    ColumnsInOrder(ids.values, runs.values, lengths.values, offsets.values, offsets.next == |data|);
  }

  // ---- Writing a directory ----

  function EncodeColumn(values: seq<nat>): seq<Byte> {
    if values == [] then [] else EncodeColumn(values[..|values| - 1]) + Encode(values[|values| - 1])
  }

  function StepAt(es: seq<Entry>, i: nat): nat
    requires i < |es|
  {
    if i == 0 then es[0].id else if es[i].id > es[i - 1].id then es[i].id - es[i - 1].id else 0
  }

  function Steps(es: seq<Entry>): seq<nat> { seq(|es|, i requires 0 <= i < |es| => StepAt(es, i)) }

  // an offset may be left out where the entry follows the one before
  function Codes(es: seq<Entry>, implicit: seq<bool>): seq<nat>
    requires |implicit| == |es|
  {
    seq(|es|, i requires 0 <= i < |es| => if implicit[i] then 0 else es[i].offset + 1)
  }

  function Runs(es: seq<Entry>): seq<nat> { seq(|es|, i requires 0 <= i < |es| => es[i].run) }

  function Lengths(es: seq<Entry>): seq<nat> { seq(|es|, i requires 0 <= i < |es| => es[i].length) }

  function EncodeDirectory(es: seq<Entry>, implicit: seq<bool>): seq<Byte>
    requires |implicit| == |es| && Increasing(es)
  {
    Encode(|es|) + EncodeColumn(Steps(es)) + EncodeColumn(Runs(es)) + EncodeColumn(Lengths(es))
      + EncodeColumn(Codes(es, implicit))
  }

  ghost predicate AllFit(values: seq<nat>) {
    forall i :: 0 <= i < |values| ==> Fits(values[i], MAX_BYTES)
  }

  // what a directory may hold: ids in order, no empty entry, numbers of at most ten bytes
  ghost predicate Writable(es: seq<Entry>, implicit: seq<bool>) {
    && |implicit| == |es| && Increasing(es) && Fits(|es|, MAX_BYTES)
    && AllFit(Steps(es)) && AllFit(Runs(es)) && AllFit(Lengths(es)) && AllFit(Codes(es, implicit))
    && (forall i :: 0 <= i < |es| ==> es[i].length > 0)
    && (forall i :: 0 <= i < |es| && implicit[i] ==> i > 0 && es[i].offset == es[i - 1].offset + es[i - 1].length)
  }

  lemma {:induction false} ColumnReadsBack(pre: seq<Byte>, values: seq<nat>, post: seq<Byte>)
    requires AllFit(values)
    ensures ReadColumn(pre + EncodeColumn(values) + post, |pre|, |values|) ==
      Column(values, |pre| + |EncodeColumn(values)|)
    decreases |values|
  {
    hide ReadFrom, Encode, Fits;
    if values == [] {
      assert EncodeColumn(values) == [];
    } else {
      var n := |values| - 1;
      var init := EncodeColumn(values[..n]);
      var last := Encode(values[n]);
      var data := pre + EncodeColumn(values) + post;
      ColumnReadsBack(pre, values[..n], last + post);
      assert data == pre + init + (last + post);
      ReadsBack(pre + init, values[n], post, MAX_BYTES);
      assert data == (pre + init) + last + post;
    }
  }

  lemma {:induction false} ColumnIsLong(values: seq<nat>)
    ensures |EncodeColumn(values)| >= |values|
  {
    hide Encode;
    if values != [] {
      ColumnIsLong(values[..|values| - 1]);
    }
  }

  lemma {:induction false} StepsAddUp(es: seq<Entry>, i: nat)
    requires Increasing(es) && i < |es|
    ensures IdAt(Steps(es), i) == es[i].id
    decreases i
  {
    if i > 0 {
      StepsAddUp(es, i - 1);
      assert es[i - 1].id < es[i].id;
    }
  }

  lemma {:induction false} CodesAddUp(es: seq<Entry>, implicit: seq<bool>, i: nat)
    requires |implicit| == |es| && i < |es|
    requires forall i :: 0 <= i < |es| && implicit[i] ==> i > 0 && es[i].offset == es[i - 1].offset + es[i - 1].length
    ensures OffsetAt(Lengths(es), Codes(es, implicit), i) == es[i].offset
  {
    if implicit[i] {
      CodesAddUp(es, implicit, i - 1);
    }
  }

  lemma ColumnsOfEntries(es: seq<Entry>, implicit: seq<bool>)
    requires Writable(es, implicit)
    ensures Columns(Steps(es), Runs(es), Lengths(es), Codes(es, implicit), true) == Entries(es)
  {
    hide IdAt, OffsetAt, AllFit, Fits;
    forall i | 0 <= i < |es| ensures IdAt(Steps(es), i) == es[i].id
      && OffsetAt(Lengths(es), Codes(es, implicit), i) == es[i].offset {
      StepsAddUp(es, i);
      CodesAddUp(es, implicit, i);
    }
    assert Assembled(Steps(es), Runs(es), Lengths(es), Codes(es, implicit)) == es;
  }

  /** A written directory decodes to its entries, whichever offsets were left out. */
  lemma DirectoryRoundTrip(es: seq<Entry>, implicit: seq<bool>)
    requires Writable(es, implicit)
    ensures Decode(EncodeDirectory(es, implicit)) == Entries(es)
  {
    hide ReadFrom, ReadColumn, Encode, EncodeColumn, Columns, Fits, AllFit, Steps, Runs, Lengths, Codes, Increasing;
    var head, ids, runs, lengths, codes := Encode(|es|), EncodeColumn(Steps(es)), EncodeColumn(Runs(es)),
      EncodeColumn(Lengths(es)), EncodeColumn(Codes(es, implicit));
    var data := EncodeDirectory(es, implicit);
    Sizes(es, implicit);
    ReadsBack([], |es|, ids + runs + lengths + codes, MAX_BYTES);
    assert data == [] + head + (ids + runs + lengths + codes);
    ColumnReadsBack(head, Steps(es), runs + lengths + codes);
    assert data == head + ids + (runs + lengths + codes);
    ColumnReadsBack(head + ids, Runs(es), lengths + codes);
    assert data == (head + ids) + runs + (lengths + codes);
    ColumnReadsBack(head + ids + runs, Lengths(es), codes);
    assert data == (head + ids + runs) + lengths + codes;
    ColumnReadsBack(head + ids + runs + lengths, Codes(es, implicit), []);
    assert data == (head + ids + runs + lengths) + codes + [];
    ColumnsOfEntries(es, implicit);
  }

  lemma Sizes(es: seq<Entry>, implicit: seq<bool>)
    requires |implicit| == |es| && Increasing(es)
    ensures |Steps(es)| == |Runs(es)| == |Lengths(es)| == |Codes(es, implicit)| == |es|
    ensures |EncodeDirectory(es, implicit)| >= |es|
  {
    hide EncodeColumn, Encode;
    ColumnIsLong(Steps(es));
  }

  lemma {:induction false} ColumnStays(data: seq<Byte>, more: seq<Byte>, offset: nat, count: nat)
    requires ReadColumn(data, offset, count).Column?
    ensures ReadColumn(data + more, offset, count) == ReadColumn(data, offset, count)
  {
    hide ReadFrom;
    if count > 0 {
      ColumnStays(data, more, offset, count - 1);
      MoreFollows(data, more, ReadColumn(data, offset, count - 1).next, MAX_BYTES);
    }
  }

  /** No accepted directory is continued by another: what follows one is refused, and so is what is cut short. */
  lemma NothingFollows(data: seq<Byte>, more: seq<Byte>)
    requires Decode(data).Entries? && more != []
    ensures Decode(data + more).Malformed?
  {
    hide ReadFrom, ReadColumn, Assembled, Acceptable;
    MoreFollows(data, more, 0, MAX_BYTES);
    var head := ReadFrom(data, 0, MAX_BYTES);
    var n := head.value;
    var ids := ReadColumn(data, head.next, n);
    var runs := ReadColumn(data, ids.next, n);
    var lengths := ReadColumn(data, runs.next, n);
    ColumnStays(data, more, head.next, n);
    ColumnStays(data, more, ids.next, n);
    ColumnStays(data, more, runs.next, n);
    ColumnStays(data, more, lengths.next, n);
  }

  predicate TwoSmall(values: seq<Byte>) {
    |values| == 2 && values[0] < 128 && values[1] < 128
  }

  /** The four columns of two entries, in numbers of one byte each. */
  lemma TwoEntries(ids: seq<Byte>, runs: seq<Byte>, lengths: seq<Byte>, codes: seq<Byte>)
    requires TwoSmall(ids) && TwoSmall(runs) && TwoSmall(lengths) && TwoSmall(codes)
    ensures var r := Decode([2] + ids + runs + lengths + codes);
      if lengths[0] > 0 && lengths[1] > 0 && ids[1] > 0 && codes[0] > 0
      then
        var second: int := if codes[1] > 0 then codes[1] as int - 1 else codes[0] as int - 1 + lengths[0];
        r == Entries([Entry(ids[0], runs[0], lengths[0], codes[0] - 1),
          Entry(ids[0] + ids[1], runs[1], lengths[1], second)])
      else r == Malformed
  {
    hide ReadFrom, ReadColumn;
    var data := [2] + ids + runs + lengths + codes;
    OneByte(data, 0, MAX_BYTES);
    TwoBytes(data, 1, ids);
    TwoBytes(data, 3, runs);
    TwoBytes(data, 5, lengths);
    TwoBytes(data, 7, codes);
    assert Decode(data) == Columns(ids, runs, lengths, codes, true);
    assert Acceptable(ids, lengths, codes, 0) == (lengths[0] != 0 && codes[0] != 0);
    assert Acceptable(ids, lengths, codes, 1) == (lengths[1] != 0 && ids[1] > 0);
    EntryAt(ids, lengths, codes, 0);
    EntryAt(ids, lengths, codes, 1);
  }

  lemma OneByte(data: seq<Byte>, offset: nat, left: nat)
    requires offset < |data| && data[offset] < 128 && left > 0
    ensures ReadFrom(data, offset, left) == Got(data[offset], offset + 1)
  {
  }

  lemma TwoBytes(data: seq<Byte>, offset: nat, values: seq<Byte>)
    requires TwoSmall(values) && offset + 2 <= |data| && data[offset..offset + 2] == values
    ensures ReadColumn(data, offset, 2) == Column(values, offset + 2)
  {
    hide ReadFrom;
    assert data[offset] == values[0] && data[offset + 1] == values[1];
    OneByte(data, offset, MAX_BYTES);
    OneByte(data, offset + 1, MAX_BYTES);
    assert ReadColumn(data, offset, 0) == Column([], offset);
    assert ReadColumn(data, offset, 1) == Column([data[offset]], offset + 1);
  }

  // ---- Looking a tile up ----

  datatype Archive = Archive(rootOffset: nat, rootLength: nat, leafOffset: nat, leafLength: nat, dataOffset: nat,
    dataLength: nat, minZoom: nat, maxZoom: nat)

  datatype Located = Tile(offset: nat, length: nat) | NoTile | Invalid

  // the index of the last id not above the target, or -1
  function LastAtOrBelow(es: seq<Entry>, target: nat): (i: int)
    ensures -1 <= i < |es|
  {
    if es == [] then -1
    else if es[|es| - 1].id <= target then |es| - 1
    else LastAtOrBelow(es[..|es| - 1], target)
  }

  lemma {:induction false} LastIs(es: seq<Entry>, target: nat, n: nat)
    requires n <= |es|
    requires n > 0 ==> es[n - 1].id <= target
    requires forall i :: n <= i < |es| ==> es[i].id > target
    ensures LastAtOrBelow(es, target) == n - 1
    decreases |es|
  {
    if n < |es| {
      LastIs(es[..|es| - 1], target, n);
    }
  }

  /** The place after the last id that is not above the target, found by halving. */
  method BisectRight(es: seq<Entry>, target: nat) returns (n: nat)
    requires Increasing(es)
    ensures n == LastAtOrBelow(es, target) + 1
  {
    var low, high := 0, |es|;
    while low < high
      invariant 0 <= low <= high <= |es|
      invariant low > 0 ==> es[low - 1].id <= target
      invariant forall i :: high <= i < |es| ==> es[i].id > target
    {
      var middle := (low + high) / 2;
      if target < es[middle].id {
        high := middle;
      } else {
        low := middle + 1;
      }
    }
    LastIs(es, target, low);
    return low;
  }

  // a lookup from the directory at the given place, through at most the given number of levels
  function LocateFrom(
    a: Archive, unpacked: (nat, nat) -> seq<Byte>, target: nat, offset: nat, length: nat, levels: nat): Located
    decreases levels
  {
    if levels == 0 || Decode(unpacked(offset, length)).Malformed? then Invalid
    else
      var es := Decode(unpacked(offset, length)).entries;
      var i := LastAtOrBelow(es, target);
      if i < 0 then NoTile
      else if es[i].run > 0 then
        if target >= es[i].id + es[i].run then NoTile
        else if es[i].offset + es[i].length > a.dataLength then Invalid
        else Tile(a.dataOffset + es[i].offset, es[i].length)
      else if es[i].offset + es[i].length > a.leafLength then Invalid
      else LocateFrom(a, unpacked, target, a.leafOffset + es[i].offset, es[i].length, levels - 1)
  }

  method LocateNumber(a: Archive, unpacked: (nat, nat) -> seq<Byte>, target: nat) returns (r: Located)
    ensures r == LocateFrom(a, unpacked, target, a.rootOffset, a.rootLength, 4)
  {
    hide Decode, LastAtOrBelow, Increasing;
    var offset: nat, length: nat := a.rootOffset, a.rootLength;
    for level := 0 to 4
      invariant LocateFrom(a, unpacked, target, offset, length, 4 - level) ==
        LocateFrom(a, unpacked, target, a.rootOffset, a.rootLength, 4)
    {
      var directory := DecodeDirectory(unpacked(offset, length));
      if directory.Malformed? {
        return Invalid;
      }
      var es := directory.entries;
      AcceptedIsOrdered(unpacked(offset, length));
      var n := BisectRight(es, target);
      if n == 0 {
        return NoTile;
      }
      var entry := es[n - 1];
      if entry.run > 0 {
        if target >= entry.id + entry.run {
          return NoTile;
        }
        if entry.offset + entry.length > a.dataLength {
          return Invalid;
        }
        return Tile(a.dataOffset + entry.offset, entry.length);
      }
      if entry.offset + entry.length > a.leafLength {
        return Invalid;
      }
      offset, length := a.leafOffset + entry.offset, entry.length;
    }
    return Invalid;
  }

  function Target(z: int, x: int, y: int): nat
    requires Hilbert.ValidTile(z, x, y)
  {
    Hilbert.TileNumber(z, x, y)
  }

  /** The byte range of a tile, by its number on the curve of its zoom level. */
  method Locate(a: Archive, unpacked: (nat, nat) -> seq<Byte>, z: int, x: int, y: int) returns (r: Located)
    ensures r == if !(a.minZoom <= z <= a.maxZoom) then NoTile
                 else if !Hilbert.ValidTile(z, x, y) then Invalid
                 else LocateFrom(a, unpacked, Target(z, x, y), a.rootOffset, a.rootLength, 4)
  {
    hide LocateFrom, Hilbert.TileNumber;
    if !(a.minZoom <= z <= a.maxZoom) {
      return NoTile;
    }
    var number := Hilbert.TileId(z, x, y);
    if number.InvalidTile? {
      return Invalid;
    }
    r := LocateNumber(a, unpacked, Target(z, x, y));
  }

  // ---- The lookup agrees with a scan ----

  // An entry covers its run of ids; an entry that points to a leaf directory covers the ids up to the next entry.
  ghost predicate Covers(es: seq<Entry>, i: nat, target: nat) {
    && i < |es| && es[i].id <= target
    && (if es[i].run > 0 then target < es[i].id + es[i].run else i + 1 < |es| ==> target < es[i + 1].id)
  }

  // no run reaches the next entry
  ghost predicate RunsApart(es: seq<Entry>) {
    forall i :: 0 <= i < |es| - 1 ==> es[i].id + es[i].run <= es[i + 1].id
  }

  // What a scan of every entry finds, level by level: no tile where no entry covers the target, nothing valid where
  // there is no directory or an entry points outside its section.
  ghost predicate Scan(
    a: Archive, unpacked: (nat, nat) -> seq<Byte>, target: nat, offset: nat, length: nat, levels: nat, found: Located)
    decreases levels
  {
    if levels == 0 || Decode(unpacked(offset, length)).Malformed? then found == Invalid
    else
      var es := Decode(unpacked(offset, length)).entries;
      if forall i: nat :: !Covers(es, i, target) then found == NoTile
      else
        exists i: nat :: Covers(es, i, target)
          && if es[i].run > 0 then
               if es[i].offset + es[i].length <= a.dataLength
               then found == Tile(a.dataOffset + es[i].offset, es[i].length)
               else found == Invalid
             else if es[i].offset + es[i].length <= a.leafLength
             then Scan(a, unpacked, target, a.leafOffset + es[i].offset, es[i].length, levels - 1, found)
             else found == Invalid
  }

  // in every directory that can be reached from the given one, no run reaches the next entry
  ghost predicate ReachedApart(a: Archive, unpacked: (nat, nat) -> seq<Byte>, offset: nat, length: nat, levels: nat)
    decreases levels
  {
    levels > 0 && Decode(unpacked(offset, length)).Entries? ==>
      var es := Decode(unpacked(offset, length)).entries;
      RunsApart(es)
      && forall i | 0 <= i < |es| && es[i].run == 0 && es[i].offset + es[i].length <= a.leafLength ::
           ReachedApart(a, unpacked, a.leafOffset + es[i].offset, es[i].length, levels - 1)
  }

  // with ids in order and runs apart, only the last entry at or below the target can cover it
  lemma CoversIsLast(es: seq<Entry>, target: nat, i: nat)
    requires Increasing(es) && RunsApart(es) && Covers(es, i, target)
    ensures LastAtOrBelow(es, target) == i
  {
    assert i + 1 < |es| ==> target < es[i + 1].id;
    forall k | i + 1 <= k < |es| ensures es[k].id > target {
      assert es[k].id >= es[i + 1].id;
    }
    LastIs(es, target, i + 1);
  }

  lemma {:induction false} LastIsBelow(es: seq<Entry>, target: nat)
    ensures var i := LastAtOrBelow(es, target);
      (i >= 0 ==> es[i].id <= target) && (i + 1 < |es| ==> target < es[i + 1].id)
    decreases |es|
  {
    if es != [] && es[|es| - 1].id > target {
      LastIsBelow(es[..|es| - 1], target);
    }
  }

  /** The lookup comes to what a scan of the directories comes to, be it a tile, no tile or an invalid archive. */
  lemma {:induction false} LocatesAsScanned(
    a: Archive, unpacked: (nat, nat) -> seq<Byte>, target: nat, offset: nat, length: nat, levels: nat, found: Located)
    requires ReachedApart(a, unpacked, offset, length, levels)
    ensures Scan(a, unpacked, target, offset, length, levels, found) <==>
      LocateFrom(a, unpacked, target, offset, length, levels) == found
    decreases levels
  {
    hide Decode, LastAtOrBelow, RunsApart, Increasing;
    if levels > 0 && Decode(unpacked(offset, length)).Entries? {
      var es := Decode(unpacked(offset, length)).entries;
      AcceptedIsOrdered(unpacked(offset, length));
      LastIsBelow(es, target);
      var last := LastAtOrBelow(es, target);
      forall i: nat | Covers(es, i, target) ensures i == last {
        CoversIsLast(es, target, i);
      }
      if last >= 0 && es[last].run == 0 && es[last].offset + es[last].length <= a.leafLength {
        LocatesAsScanned(a, unpacked, target, a.leafOffset + es[last].offset, es[last].length, levels - 1, found);
      }
      assert last >= 0 ==> (Covers(es, last, target) <==> (es[last].run > 0 ==> target < es[last].id + es[last].run));
    }
  }

  /** Nothing is ever located outside the data section. */
  lemma {:induction false} LocatedInside(
    a: Archive, unpacked: (nat, nat) -> seq<Byte>, target: nat, offset: nat, length: nat, levels: nat)
    ensures var r := LocateFrom(a, unpacked, target, offset, length, levels);
      r.Tile? ==> a.dataOffset <= r.offset && r.offset + r.length <= a.dataOffset + a.dataLength && r.length > 0
    decreases levels
  {
    hide Decode, LastAtOrBelow, Increasing;
    if levels > 0 && Decode(unpacked(offset, length)).Entries? {
      var es := Decode(unpacked(offset, length)).entries;
      AcceptedIsOrdered(unpacked(offset, length));
      var last := LastAtOrBelow(es, target);
      if last >= 0 {
        LocatedInside(a, unpacked, target, a.leafOffset + es[last].offset, es[last].length, levels - 1);
      }
    }
  }
}

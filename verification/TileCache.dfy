/** The disk cache of archive byte ranges: one file a range, named by its offset and length. */
module TileCache {

  import opened Arithmetic

  const CACHE_LIMIT := 64 * 1024 * 1024
  const MERGE_GAP := 256 * 1024
  const HEADER_LENGTH := 127

  datatype Range = Range(offset: nat, length: nat)
  datatype File = File(name: Range, data: seq<Byte>, time: int)
  datatype Fetched = Data(data: seq<Byte>) | Unavailable

  // ---- A directory is a list of files in no particular order ----

  function Total(files: seq<File>): nat {
    if files == [] then 0 else |files[0].data| + Total(files[1..])
  }

  lemma TotalOfTail(files: seq<File>)
    requires files != []
    ensures Total(files) == |files[0].data| + Total(files[1..])
  {
  }

  lemma TotalOfNone()
    ensures Total([]) == 0
  {
  }

  function Without(files: seq<File>, name: Range): seq<File> {
    if files == [] then []
    else if files[0].name == name then Without(files[1..], name)
    else [files[0]] + Without(files[1..], name)
  }

  lemma {:induction false} WithoutKeeps(files: seq<File>, name: Range)
    ensures forall f :: f in Without(files, name) <==> f in files && f.name != name
  {
    if files != [] {
      WithoutKeeps(files[1..], name);
      assert files == [files[0]] + files[1..];
    }
  }

  lemma {:induction false} WithoutIsFewer(files: seq<File>, name: Range)
    ensures multiset(Without(files, name)) <= multiset(files)
  {
    if files != [] {
      WithoutIsFewer(files[1..], name);
      assert files == [files[0]] + files[1..];
    }
  }

  // fewer files take less room
  lemma {:induction false} FewerTakeLess(some: seq<File>, files: seq<File>)
    requires multiset(some) <= multiset(files)
    ensures Total(some) <= Total(files)
  {
    if some != [] {
      hide Total;
      var i := FirstOf(some, files);
      TotalWithout(files, i);
      TotalOfTail(some);
      FewerTakeLess(some[1..], files[..i] + files[i + 1..]);
    } else {
      TotalOfNone();
    }
  }

  lemma FirstOf(some: seq<File>, files: seq<File>) returns (i: nat)
    requires some != [] && multiset(some) <= multiset(files)
    ensures i < |files| && files[i] == some[0] && multiset(some[1..]) <= multiset(files[..i] + files[i + 1..])
  {
    assert some == [some[0]] + some[1..];
    assert some[0] in multiset(some) && some[0] in multiset(files);
    i :| 0 <= i < |files| && files[i] == some[0];
    assert files == files[..i] + [files[i]] + files[i + 1..];
    var first, a, b := multiset([some[0]]), multiset(some[1..]), multiset(files[..i] + files[i + 1..]);
    assert multiset(some) == first + a && multiset(files) == first + b;
    forall f ensures a[f] <= b[f] {
      assert (first + a)[f] <= (first + b)[f];
    }
  }

  lemma {:induction false} TotalWithout(files: seq<File>, i: nat)
    requires i < |files|
    ensures Total(files) == |files[i].data| + Total(files[..i] + files[i + 1..])
  {
    if i == 0 {
      assert files[..0] + files[1..] == files[1..];
    } else {
      var less := files[..i] + files[i + 1..];
      TotalWithout(files[1..], i - 1);
      assert less[1..] == files[1..][..i - 1] + files[1..][i..];
    }
  }

  lemma {:induction false} TotalConcat(a: seq<File>, b: seq<File>)
    ensures Total(a + b) == Total(a) + Total(b)
  {
    if a == [] {
      assert a + b == b;
    } else {
      TotalConcat(a[1..], b);
      assert (a + b)[1..] == a[1..] + b;
    }
  }

  predicate Exists(files: seq<File>, name: Range) {
    exists i :: 0 <= i < |files| && files[i].name == name
  }

  ghost predicate IsSlice(archive: seq<Byte>, range: Range, data: seq<Byte>) {
    range.offset + range.length <= |archive| && data == archive[range.offset..range.offset + range.length]
  }

  // what the server can be asked for
  predicate Servable(archive: seq<Byte>, range: Range) {
    range.length > 0 && range.offset + range.length <= |archive|
  }

  // A file of its full length holds the bytes its name promises; one cut short by a crash holds whatever it may.
  ghost predicate Truthful(archive: seq<Byte>, files: seq<File>) {
    forall f :: f in files && |f.data| == f.name.length ==> IsSlice(archive, f.name, f.data)
  }

  // the range can be read without fetching
  ghost predicate Holds(files: seq<File>, name: Range) {
    exists f :: f in files && f.name == name && |f.data| == name.length
  }

  // ---- Oldest first ----

  // by time, then by size; any order among equals
  predicate Before(f: File, g: File) {
    f.time < g.time || (f.time == g.time && |f.data| <= |g.data|)
  }

  ghost predicate Sorted(files: seq<File>) {
    forall i, j :: 0 <= i < j < |files| ==> Before(files[i], files[j])
  }

  function Insert(f: File, files: seq<File>): seq<File> {
    if files == [] || Before(f, files[0]) then [f] + files else [files[0]] + Insert(f, files[1..])
  }

  function Sort(files: seq<File>): seq<File> {
    if files == [] then [] else Insert(files[0], Sort(files[1..]))
  }

  lemma {:induction false} InsertKeeps(f: File, files: seq<File>)
    ensures Total(Insert(f, files)) == |f.data| + Total(files)
    ensures multiset(Insert(f, files)) == multiset{f} + multiset(files)
  {
    hide Before;
    if files != [] && !Before(f, files[0]) {
      InsertKeeps(f, files[1..]);
      assert files == [files[0]] + files[1..];
    }
  }

  lemma {:induction false} InsertSorts(f: File, files: seq<File>)
    requires Sorted(files)
    ensures Sorted(Insert(f, files)) && Total(Insert(f, files)) == |f.data| + Total(files)
    ensures multiset(Insert(f, files)) == multiset{f} + multiset(files)
  {
    hide Total;
    InsertKeeps(f, files);
    if files != [] && !Before(f, files[0]) {
      InsertSorts(f, files[1..]);
      var rest := Insert(f, files[1..]);
      forall k | 0 <= k < |rest| ensures Before(files[0], rest[k]) {
        assert rest[k] in multiset(rest);
        assert rest[k] == f || rest[k] in files[1..];
      }
    } else if files != [] {
      forall k | 0 <= k < |files| ensures Before(f, files[k]) {
        assert Before(files[0], files[k]) || k == 0;
      }
    }
  }

  lemma {:induction false} SortSorts(files: seq<File>)
    ensures Sorted(Sort(files)) && Total(Sort(files)) == Total(files) && multiset(Sort(files)) == multiset(files)
  {
    if files != [] {
      SortSorts(files[1..]);
      InsertSorts(files[0], Sort(files[1..]));
      assert files == [files[0]] + files[1..];
    }
  }

  // ---- Which ranges are fetched together ----

  predicate Less(a: Range, b: Range) {
    a.offset < b.offset || (a.offset == b.offset && a.length < b.length)
  }

  ghost predicate Ordered(ranges: seq<Range>) {
    forall i, j :: 0 <= i < j < |ranges| ==> Less(ranges[i], ranges[j])
  }

  function InsertRange(r: Range, ranges: seq<Range>): seq<Range> {
    if ranges == [] || Less(r, ranges[0]) then [r] + ranges
    else if r == ranges[0] then ranges
    else [ranges[0]] + InsertRange(r, ranges[1..])
  }

  lemma {:induction false} InsertRangeOrders(r: Range, ranges: seq<Range>)
    requires Ordered(ranges)
    ensures Ordered(InsertRange(r, ranges)) && forall q :: q in InsertRange(r, ranges) <==> q == r || q in ranges
  {
    if ranges != [] && !Less(r, ranges[0]) && r != ranges[0] {
      InsertRangeOrders(r, ranges[1..]);
      assert ranges == [ranges[0]] + ranges[1..];
      var rest := InsertRange(r, ranges[1..]);
      forall k | 0 <= k < |rest| ensures Less(ranges[0], rest[k]) {
        assert rest[k] == r || rest[k] in ranges[1..];
      }
    } else if ranges != [] {
      assert forall k :: 0 <= k < |ranges| ==> Less(ranges[0], ranges[k]) || k == 0;
    }
  }

  // the ranges not yet on disk, ordered and without repetition
  function Missing(ranges: seq<Range>, files: seq<File>): seq<Range> {
    if ranges == [] then []
    else
      var n := |ranges| - 1;
      var rest := Missing(ranges[..n], files);
      if Exists(files, ranges[n]) then rest else InsertRange(ranges[n], rest)
  }

  lemma {:induction false} MissingIs(ranges: seq<Range>, files: seq<File>)
    ensures Ordered(Missing(ranges, files))
    ensures forall r :: r in Missing(ranges, files) <==> r in ranges && !Exists(files, r)
  {
    hide Ordered, Exists;
    if ranges == [] {
      assert Ordered([]) by { NoneOrdered(); }
    } else {
      var n := |ranges| - 1;
      MissingIs(ranges[..n], files);
      InsertRangeOrders(ranges[n], Missing(ranges[..n], files));
      assert ranges == ranges[..n] + [ranges[n]];
    }
  }

  function Lengths(ranges: seq<Range>): nat {
    if ranges == [] then 0 else Lengths(ranges[..|ranges| - 1]) + ranges[|ranges| - 1].length
  }

  lemma {:induction false} LengthsConcat(a: seq<Range>, b: seq<Range>)
    ensures Lengths(a + b) == Lengths(a) + Lengths(b)
  {
    if b == [] {
      assert a + b == a;
    } else {
      var n := |b| - 1;
      LengthsConcat(a, b[..n]);
      assert (a + b)[..|a| + n] == a + b[..n];
    }
  }

  // all groups' lengths together
  function GroupLengths(groups: seq<seq<Range>>): nat {
    if groups == [] then 0 else GroupLengths(groups[..|groups| - 1]) + Lengths(groups[|groups| - 1])
  }

  lemma {:induction false} FlatLengths(groups: seq<seq<Range>>)
    ensures GroupLengths(groups) == Lengths(Flat(groups))
  {
    if groups != [] {
      var n := |groups| - 1;
      FlatLengths(groups[..n]);
      LengthsConcat(Flat(groups[..n]), groups[n]);
    }
  }

  predicate Near(last: Range, next: Range) {
    next.offset - (last.offset + last.length) <= MERGE_GAP
  }

  function Joined(groups: seq<seq<Range>>, r: Range): seq<seq<Range>>
    requires groups != []
  {
    groups[..|groups| - 1] + [groups[|groups| - 1] + [r]]
  }

  // Consecutive ranges, each near the one before it, make up a group.
  function Groups(ranges: seq<Range>): (groups: seq<seq<Range>>)
    ensures groups != [] <==> ranges != []
  {
    if ranges == [] then []
    else
      var n := |ranges| - 1;
      if n > 0 && Near(ranges[n - 1], ranges[n]) then Joined(Groups(ranges[..n]), ranges[n])
      else Groups(ranges[..n]) + [[ranges[n]]]
  }

  function Last(group: seq<Range>): Range
    requires group != []
  {
    group[|group| - 1]
  }

  function End(group: seq<Range>): nat
    requires group != []
  {
    Last(group).offset + Last(group).length
  }

  // what one request for a group asks for
  function Span(group: seq<Range>): Range
    requires group != []
  {
    Range(group[0].offset, if End(group) >= group[0].offset then End(group) - group[0].offset else 0)
  }

  predicate NoneEmpty(groups: seq<seq<Range>>) {
    forall i | 0 <= i < |groups| :: groups[i] != []
  }

  function Spans(groups: seq<seq<Range>>): (spans: seq<Range>)
    requires NoneEmpty(groups)
    ensures |spans| == |groups|
  {
    seq(|groups|, i requires 0 <= i < |groups| => Span(groups[i]))
  }

  function Flat(groups: seq<seq<Range>>): seq<Range> {
    if groups == [] then [] else Flat(groups[..|groups| - 1]) + groups[|groups| - 1]
  }

  lemma FlatOfJoined(groups: seq<seq<Range>>, r: Range)
    requires groups != []
    ensures Flat(Joined(groups, r)) == Flat(groups) + [r]
  {
    var init, last := groups[..|groups| - 1], groups[|groups| - 1];
    var joined := Joined(groups, r);
    assert joined[..|joined| - 1] == init;
    assert Flat(joined) == Flat(init) + (last + [r]);
    assert Flat(groups) == Flat(init) + last;
  }

  lemma FlatOfMore(groups: seq<seq<Range>>, group: seq<Range>)
    ensures Flat(groups + [group]) == Flat(groups) + group
  {
    assert (groups + [group])[..|groups|] == groups;
  }

  /** Grouping loses no range and changes no order. */
  lemma {:induction false} GroupsAreAll(ranges: seq<Range>)
    ensures Flat(Groups(ranges)) == ranges
  {
    hide Near, Joined, Flat;
    if ranges != [] {
      var n := |ranges| - 1;
      GroupsAreAll(ranges[..n]);
      assert ranges == ranges[..n] + [ranges[n]];
      if n > 0 && Near(ranges[n - 1], ranges[n]) {
        FlatOfJoined(Groups(ranges[..n]), ranges[n]);
      } else {
        FlatOfMore(Groups(ranges[..n]), [ranges[n]]);
      }
    } else {
      assert Flat([]) == [] by { FlatOfNone(); }
    }
  }

  // consecutive ranges of a group are at most a quarter of a MiB apart, consecutive groups farther
  ghost predicate BreaksAtGaps(groups: seq<seq<Range>>) {
    && (forall i | 0 <= i < |groups| :: groups[i] != [] && GapsSmall(groups[i]))
    && (forall i | 0 < i < |groups| :: GapBetween(groups[i - 1], groups[i]))
  }

  ghost predicate GapsSmall(group: seq<Range>) {
    forall k | 0 < k < |group| :: group[k].offset - (group[k - 1].offset + group[k - 1].length) <= 262144
  }

  ghost predicate GapBetween(before: seq<Range>, after: seq<Range>) {
    before != [] && after != [] && after[0].offset - End(before) > 262144
  }

  /** With the order kept, this leaves one way to group: a group ends exactly where the next range is too far off. */
  lemma {:induction false} GroupsBreakAtGaps(ranges: seq<Range>)
    ensures BreaksAtGaps(Groups(ranges))
    ensures ranges != [] ==> Last(Groups(ranges)[|Groups(ranges)| - 1]) == ranges[|ranges| - 1]
  {
    if ranges != [] {
      var n := |ranges| - 1;
      GroupsBreakAtGaps(ranges[..n]);
      if n > 0 {
        GroupsBreakMore(Groups(ranges[..n]), ranges[n - 1], ranges[n]);
      }
    }
  }

  lemma GroupsBreakMore(groups: seq<seq<Range>>, last: Range, r: Range)
    requires groups != [] && BreaksAtGaps(groups) && Last(groups[|groups| - 1]) == last
    ensures if Near(last, r) then BreaksAtGaps(Joined(groups, r)) else BreaksAtGaps(groups + [[r]])
  {
    var n := |groups| - 1;
    if Near(last, r) {
      assert GapsSmall(groups[n] + [r]);
      assert n > 0 ==> GapBetween(groups[n - 1], groups[n]) && GapBetween(groups[n - 1], groups[n] + [r]);
    }
  }

  lemma FlatOfNone()
    ensures Flat([]) == []
  {
  }

  // groups are runs of the ordered ranges, one after the other, and never share an offset
  ghost predicate Grouped(groups: seq<seq<Range>>) {
    && (forall i :: 0 <= i < |groups| ==> groups[i] != [] && Ordered(groups[i]))
    && (forall i, j :: 0 <= i < j < |groups| ==> Apart(groups[i], groups[j]))
  }

  ghost predicate Apart(g: seq<Range>, h: seq<Range>) {
    forall a, b :: a in g && b in h ==> a.offset < b.offset
  }

  // everything in the groups comes before r, and the last of them is the given one
  ghost predicate EndsWith(groups: seq<seq<Range>>, last: Range) {
    && groups != [] && groups[|groups| - 1] != [] && Last(groups[|groups| - 1]) == last
    && forall i, a :: 0 <= i < |groups| && a in groups[i] ==> a == last || Less(a, last)
  }

  lemma LessFollows(a: Range, b: Range, c: Range)
    requires (a == b || Less(a, b)) && Less(b, c)
    ensures Less(a, c)
  {
  }

  lemma JoinedIsGrouped(groups: seq<seq<Range>>, last: Range, r: Range)
    requires Grouped(groups) && EndsWith(groups, last) && Less(last, r)
    ensures Grouped(Joined(groups, r)) && EndsWith(Joined(groups, r), r)
  {
    hide Less, Ordered, Apart;
    var k := |groups| - 1;
    var joined := Joined(groups, r);
    forall i, a | 0 <= i < |groups| && a in groups[i] ensures Less(a, r) {
      LessFollows(a, last, r);
    }
    OrderedMore(groups[k], r);
    forall i | 0 <= i < k ensures Apart(joined[i], joined[k]) {
      assert Apart(groups[i], groups[k]);
      ApartMore(groups[i], groups[k], last, r);
    }
  }

  lemma OrderedMore(group: seq<Range>, r: Range)
    requires Ordered(group) && forall a :: a in group ==> Less(a, r)
    ensures Ordered(group + [r])
  {
    hide Less;
  }

  lemma ApartMore(g: seq<Range>, h: seq<Range>, last: Range, r: Range)
    requires Apart(g, h) && last in h && Less(last, r)
    ensures Apart(g, h + [r])
  {
  }

  lemma OneIsOrdered(r: Range)
    ensures Ordered([r])
  {
  }

  lemma NewIsGrouped(groups: seq<seq<Range>>, last: Range, r: Range)
    requires Grouped(groups) && EndsWith(groups, last) && Less(last, r) && !Near(last, r)
    ensures Grouped(groups + [[r]]) && EndsWith(groups + [[r]], r)
  {
    hide Ordered;
    assert Ordered([r]) by { OneIsOrdered(r); }
    forall i, a | 0 <= i < |groups| && a in groups[i] ensures Less(a, r) && a.offset < r.offset {
      LessFollows(a, last, r);
    }
  }

  lemma {:induction false} GroupsAreGrouped(ranges: seq<Range>)
    requires Ordered(ranges)
    ensures Grouped(Groups(ranges)) && (ranges != [] ==> EndsWith(Groups(ranges), ranges[|ranges| - 1]))
  {
    hide Near, Less, Joined, Grouped, EndsWith;
    if ranges != [] {
      var n := |ranges| - 1;
      GroupsAreGrouped(ranges[..n]);
      if n == 0 {
        OneGroup(ranges[0]);
        assert Groups(ranges) == [[ranges[0]]];
      } else {
        assert Less(ranges[n - 1], ranges[n]);
        if Near(ranges[n - 1], ranges[n]) {
          JoinedIsGrouped(Groups(ranges[..n]), ranges[n - 1], ranges[n]);
        } else {
          NewIsGrouped(Groups(ranges[..n]), ranges[n - 1], ranges[n]);
        }
      }
    } else {
      NoGroups();
    }
  }

  lemma OneGroup(r: Range)
    ensures Grouped([[r]]) && EndsWith([[r]], r)
  {
  }

  lemma NoGroups()
    ensures Grouped([])
  {
  }

  ghost predicate Disjoint(ranges: seq<Range>) {
    forall i, j :: 0 <= i < j < |ranges| ==> ranges[i].offset + ranges[i].length <= ranges[j].offset
  }

  /** Of ranges that do not overlap, every one ends within its group, so none is cut short. */
  lemma DisjointFit(group: seq<Range>, r: Range)
    requires Disjoint(group) && r in group
    ensures r.offset + r.length <= End(group)
  {
    var i :| 0 <= i < |group| && group[i] == r;
    if i < |group| - 1 {
      assert group[i].offset + group[i].length <= group[|group| - 1].offset;
    }
  }

  // whatever order they come in, no two of the ranges share a byte
  ghost predicate NoOverlap(ranges: seq<Range>) {
    forall a, b | a in ranges && b in ranges && a != b ::
      a.offset + a.length <= b.offset || b.offset + b.length <= a.offset
  }

  lemma OrderedIsDisjoint(ranges: seq<Range>, group: seq<Range>)
    requires NoOverlap(ranges) && Ordered(group) && forall r :: r in group ==> r in ranges
    ensures Disjoint(group)
  {
    forall i, j | 0 <= i < j < |group| ensures group[i].offset + group[i].length <= group[j].offset {
      assert Less(group[i], group[j]) && group[i] in ranges && group[j] in ranges;
    }
  }

  lemma {:induction false} FlatMember(groups: seq<seq<Range>>, r: Range)
    ensures r in Flat(groups) <==> exists g :: g in groups && r in g
    decreases |groups|
  {
    if groups != [] {
      var n := |groups| - 1;
      FlatMember(groups[..n], r);
      assert groups == groups[..n] + [groups[n]];
    }
  }

  // a range whose end lies beyond its group is not among the pieces of any group
  lemma NotAPiece(groups: seq<seq<Range>>, g: seq<Range>, r: Range, h: seq<Range>, q: Range)
    requires Grouped(groups) && g in groups && r in g && h in groups && q in h && q.offset == r.offset
    ensures g == h
  {
    hide Ordered, Apart;
    var i :| 0 <= i < |groups| && groups[i] == g;
    var j :| 0 <= j < |groups| && groups[j] == h;
    if i < j {
      ApartOffsets(g, h, r, q);
    } else if j < i {
      ApartOffsets(h, g, q, r);
    }
  }

  lemma ApartOffsets(g: seq<Range>, h: seq<Range>, a: Range, b: Range)
    requires Apart(g, h) && a in g && b in h
    ensures a.offset < b.offset
  {
  }

  // ---- What storing a file and trimming do ----

  function Stored(files: seq<File>, file: File): seq<File> {
    Without(files, file.name) + [file]
  }

  lemma StoredIs(files: seq<File>, file: File)
    ensures forall f :: f in Stored(files, file) <==> f == file || (f in files && f.name != file.name)
  {
    WithoutKeeps(files, file.name);
  }

  lemma StoredIsFewer(files: seq<File>, file: File)
    ensures multiset(Stored(files, file)) <= multiset(files) + multiset([file])
  {
    WithoutIsFewer(files, file.name);
  }

  lemma StoreKeepsTruth(archive: seq<Byte>, files: seq<File>, file: File)
    requires Truthful(archive, files) && |file.data| == file.name.length && IsSlice(archive, file.name, file.data)
    ensures Truthful(archive, Stored(files, file))
  {
    hide Stored, IsSlice;
    StoredIs(files, file);
  }

  lemma StoreHolds(files: seq<File>, file: File, r: Range)
    requires |file.data| == file.name.length && (Holds(files, r) || r == file.name)
    ensures Holds(Stored(files, file), r)
  {
    hide Stored;
    StoredIs(files, file);
    if r == file.name {
      assert file in Stored(files, file);
    } else {
      var f :| f in files && f.name == r && |f.data| == r.length;
      assert f in Stored(files, file);
    }
  }

  lemma StoreExists(files: seq<File>, file: File, r: Range)
    ensures Exists(Stored(files, file), r) <==> Exists(files, r) || r == file.name
  {
    hide Stored;
    StoredIs(files, file);
    var after := Stored(files, file);
    if r == file.name {
      assert file in after;
    } else if Exists(files, r) {
      var i :| 0 <= i < |files| && files[i].name == r;
      assert files[i] in files;
      assert files[i] in after;
    } else {
      forall i | 0 <= i < |after| ensures after[i].name != r {
        assert after[i] in after;
      }
    }
  }

  lemma TrimmedIs(files: seq<File>, dropped: seq<File>, kept: seq<File>)
    requires Sort(files) == dropped + kept
    ensures multiset(files) == multiset(dropped) + multiset(kept)
    ensures forall f, g :: f in dropped && g in kept ==> Before(f, g)
    ensures forall f :: f in dropped ==> f.time <= dropped[|dropped| - 1].time
    ensures forall f :: f in kept ==> f in files
  {
    hide Sort;
    SortSorts(files);
    var sorted := Sort(files);
    forall f, g | f in dropped && g in kept ensures Before(f, g) {
      var i :| 0 <= i < |dropped| && dropped[i] == f;
      var j :| 0 <= j < |kept| && kept[j] == g;
      assert sorted[i] == f && sorted[|dropped| + j] == g;
      assert Before(sorted[i], sorted[|dropped| + j]);
    }
    forall f | f in dropped ensures f.time <= dropped[|dropped| - 1].time {
      var i :| 0 <= i < |dropped| && dropped[i] == f;
      assert sorted[i] == f && sorted[|dropped| - 1] == dropped[|dropped| - 1];
      assert i < |dropped| - 1 ==> Before(sorted[i], sorted[|dropped| - 1]);
    }
    forall f | f in kept ensures f in files {
      assert f in multiset(kept);
      assert f in multiset(files);
    }
  }

  lemma FewerAreTruthful(archive: seq<Byte>, files: seq<File>, kept: seq<File>)
    requires Truthful(archive, files) && forall f :: f in kept ==> f in files
    ensures Truthful(archive, kept)
  {
    hide IsSlice;
  }

  // ---- What the cache can lose ----

  // Which files go: none newer than any that stays, and none when there is room without.
  ghost predicate TrimsTo(files: seq<File>, dropped: seq<File>, kept: seq<File>) {
    && multiset(files) == multiset(dropped) + multiset(kept) && Total(kept) <= 67108864
    && (forall f, g :: f in dropped && g in kept ==>
          f.time < g.time || (f.time == g.time && |f.data| <= |g.data|))
    && (forall f :: f in dropped ==> f.time <= dropped[|dropped| - 1].time)
    && (dropped != [] ==> Total(kept) + |dropped[|dropped| - 1].data| > 67108864)
  }

  lemma TrimmedEnough(files: seq<File>, dropped: seq<File>, kept: seq<File>)
    requires Sort(files) == dropped + kept && Total(kept) <= CACHE_LIMIT
    requires dropped != [] ==> Total(kept) + |dropped[|dropped| - 1].data| > CACHE_LIMIT
    ensures TrimsTo(files, dropped, kept)
  {
    hide Sort;
    TrimmedIs(files, dropped, kept);
  }

  lemma RoomForAll(files: seq<File>, dropped: seq<File>, kept: seq<File>)
    requires TrimsTo(files, dropped, kept) && Total(files) <= CACHE_LIMIT
    ensures dropped == [] && multiset(kept) == multiset(files)
  {
    if dropped != [] {
      var last := dropped[|dropped| - 1];
      assert dropped == dropped[..|dropped| - 1] + [last];
      FewerTakeLess(kept + [last], files);
      TotalConcat(kept, [last]);
      TotalOfTail([last]);
      TotalOfNone();
    }
  }

  // what is on disk was there before, or was fetched since
  ghost predicate Grown(before: seq<File>, fetched: seq<File>, files: seq<File>, now: int) {
    multiset(files) <= multiset(before) + multiset(fetched) && forall f :: f in fetched ==> f.time >= now
  }

  lemma SameKept(files: seq<File>, dropped: seq<File>, kept: seq<File>, f: File)
    requires TrimsTo(files, dropped, kept) && f in files
    ensures f in dropped || f in kept
  {
    assert f in multiset(files);
  }

  lemma OnlyFetched(before: seq<File>, fetched: seq<File>, some: seq<File>, now: int)
    requires multiset(some) <= multiset(before) + multiset(fetched)
    requires (forall f :: f in before ==> f.time < now) && forall f :: f in some ==> f.time >= now
    ensures multiset(some) <= multiset(fetched)
  {
    forall f ensures multiset(some)[f] <= multiset(fetched)[f] {
      if multiset(some)[f] > 0 {
        assert f in some;
        assert f !in before;
      }
    }
  }

  // If what was fetched fits the cache by itself, trimming loses none of it.
  lemma NewestStay(
    before: seq<File>, fetched: seq<File>, files: seq<File>, dropped: seq<File>, kept: seq<File>, now: int, f: File)
    requires Grown(before, fetched, files, now) && (forall g :: g in before ==> g.time < now)
    requires Total(fetched) <= CACHE_LIMIT && TrimsTo(files, dropped, kept) && f in files && f.time >= now
    ensures f in kept
  {
    SameKept(files, dropped, kept, f);
    if f in dropped {
      var last := dropped[|dropped| - 1];
      assert dropped == dropped[..|dropped| - 1] + [last];
      OnlyFetched(before, fetched, kept + [last], now);
      FewerTakeLess(kept + [last], fetched);
      TotalConcat(kept, [last]);
      TotalOfTail([last]);
      TotalOfNone();
    }
  }

  lemma GrownIsFetched(before: seq<File>, fetched: seq<File>, files: seq<File>, now: int, f: File)
    requires Grown(before, fetched, files, now) && f in files
    ensures f in before || f in fetched
  {
    assert f in multiset(files);
  }

  lemma GrownMore(
    before: seq<File>, fetched: seq<File>, files: seq<File>, more: seq<File>, after: seq<File>, now: int)
    requires Grown(before, fetched, files, now) && Grown(files, more, after, now)
    ensures Grown(before, fetched + more, after, now) && Total(fetched + more) == Total(fetched) + Total(more)
  {
    TotalConcat(fetched, more);
  }

  lemma NothingGrown(files: seq<File>, now: int)
    ensures Grown(files, [], files, now) && Total([]) == 0
  {
  }

  lemma StoredGrows(files: seq<File>, file: File, now: int)
    requires file.time >= now
    ensures Grown(files, [file], Stored(files, file), now) && Total([file]) == |file.data|
  {
    StoredIsFewer(files, file);
    TotalOfTail([file]);
  }

  // a range that was not there and now is, stays if what was fetched fits, and everything stays if all of it fits
  lemma HeldAfterTrim(
    before: seq<File>, fetched: seq<File>, files: seq<File>, dropped: seq<File>, kept: seq<File>, now: int, r: Range)
    requires Grown(before, fetched, files, now) && TrimsTo(files, dropped, kept) && Holds(files, r)
    ensures Total(files) <= CACHE_LIMIT ==> Holds(kept, r)
    ensures !Exists(before, r) && Total(fetched) <= CACHE_LIMIT && (forall g :: g in before ==> g.time < now) ==>
              Holds(kept, r)
  {
    hide TrimsTo, Grown, Total;
    var f :| f in files && f.name == r && |f.data| == r.length;
    if Total(files) <= CACHE_LIMIT {
      RoomForAll(files, dropped, kept);
      assert f in multiset(kept);
    }
    if !Exists(before, r) && Total(fetched) <= CACHE_LIMIT && forall g :: g in before ==> g.time < now {
      GrownIsFetched(before, fetched, files, now, f);
      assert f !in before;
      FetchedIsNew(before, fetched, files, now, f);
      NewestStay(before, fetched, files, dropped, kept, now, f);
    }
  }

  lemma FetchedIsNew(before: seq<File>, fetched: seq<File>, files: seq<File>, now: int, f: File)
    requires Grown(before, fetched, files, now) && f in fetched
    ensures f.time >= now
  {
  }

  lemma KeptWereThere(files: seq<File>, dropped: seq<File>, kept: seq<File>)
    requires TrimsTo(files, dropped, kept)
    ensures forall r :: Holds(kept, r) ==> Holds(files, r)
    ensures forall r :: Exists(kept, r) ==> Exists(files, r)
  {
    forall f | f in kept ensures f in files {
      assert f in multiset(kept);
      assert f in multiset(files);
    }
    forall r | Exists(kept, r) ensures Exists(files, r) {
      var i :| 0 <= i < |kept| && kept[i].name == r;
      assert kept[i] in files;
      var j :| 0 <= j < |files| && files[j] == kept[i];
    }
  }

  // ---- The cache ----

  class RemoteTiles {
    const archive: seq<Byte>   // what the server holds
    var files: seq<File>
    ghost var requests: seq<Range>   // what the server was asked for

    ghost predicate Valid()
      reads this
    {
      Truthful(archive, files)
    }

    /** Opening drops the files of any other version of the archive, and keeps those of this one. */
    constructor (archives: string -> seq<Byte>, etag: string, cached: seq<File>, cachedEtag: string, now: int)
      requires Truthful(archives(cachedEtag), cached) && |archives(etag)| >= 127
      ensures Valid() && archive == archives(etag) && Holds(files, Range(0, 127)) && requests == [Range(0, 127)]
      ensures cachedEtag == etag ==> forall r :: Holds(cached, r) ==> Holds(files, r)
      ensures forall r :: Exists(files, r) ==> r == Range(0, 127) || (cachedEtag == etag && Exists(cached, r))
    {
      archive := archives(etag);
      files := if cachedEtag == etag then cached else [];
      requests := [Range(0, HEADER_LENGTH)];
      new;
      var _ := Store(0, archive[0..HEADER_LENGTH], now);
    }

    // files carry the time they were written, which is not before now
    method Store(offset: nat, data: seq<Byte>, now: int) returns (ghost file: File)
      requires Valid() && IsSlice(archive, Range(offset, |data|), data)
      modifies `files
      ensures Valid() && files == Stored(old(files), file)
      ensures file.name == Range(offset, |data|) && file.data == data && file.time >= now
      ensures Holds(files, Range(offset, |data|)) && forall r :: old(Holds(files, r)) ==> Holds(files, r)
      ensures forall r :: Exists(files, r) <==> old(Exists(files, r)) || r == Range(offset, |data|)
    {
      hide Stored, Holds, Exists, Truthful, IsSlice;
      var time: int :| time >= now;
      var written := File(Range(offset, |data|), data, time);
      file := written;
      ghost var before := files;
      files := Stored(files, written);
      StoreKeepsTruth(archive, before, file);
      StoreHolds(before, file, file.name);
      forall r | Holds(before, r) ensures Holds(files, r) {
        StoreHolds(before, file, r);
      }
      forall r ensures Exists(files, r) <==> Exists(before, r) || r == file.name {
        StoreExists(before, file, r);
      }
    }

    // one request, which the server answers in full or not at all
    method Fetch(offset: nat, length: nat, online: bool) returns (r: Fetched)
      requires Valid()
      modifies `requests
      ensures requests == old(requests) + [Range(offset, length)]
      ensures r.Data? ==> length > 0 && IsSlice(archive, Range(offset, length), r.data)
      ensures online && Servable(archive, Range(offset, length)) ==> r.Data?
    {
      requests := requests + [Range(offset, length)];
      if online && length > 0 && offset + length <= |archive| {
        return Data(archive[offset..offset + length]);
      }
      return Unavailable;
    }

    /** What is read is always the archive's own bytes, cached or not; a cached range is read without the network, and a
        range that was fetched is cached afterwards, if it fits and no file is from the future. */
    method Read(offset: nat, length: nat, online: bool, now: int) returns (r: Fetched)
      requires Valid()
      modifies `files, `requests
      ensures Valid()
      ensures r.Data? ==> IsSlice(archive, Range(offset, length), r.data)
      ensures old(Holds(files, Range(offset, length))) ==> r.Data? && files == old(files) && requests == old(requests)
      ensures !old(Holds(files, Range(offset, length))) ==> requests == old(requests) + [Range(offset, length)]
      ensures online && Servable(archive, Range(offset, length)) ==> r.Data?
      ensures (r.Data? && length <= 67108864 && !old(Exists(files, Range(offset, length)))
               && forall f :: f in old(files) ==> f.time < now) ==> Holds(files, Range(offset, length))
    {
      hide Stored, Exists, Truthful, IsSlice, TrimsTo, Grown, Total;
      var name := Range(offset, length);
      for i := 0 to |files|
        invariant files == old(files) && requests == old(requests)
        invariant forall k :: 0 <= k < i ==> files[k].name != name || |files[k].data| != length
      {
        if files[i].name == name && |files[i].data| == length {
          FoundIsSlice(archive, files, i);
          HeldExists(files, name);
          return Data(files[i].data);
        }
      }
      NotFound(files, name);
      r := Fetch(offset, length, online);
      if r.Data? {
        SliceLength(archive, name, r.data);
        ghost var file := Store(offset, r.data, now);
        StoredGrows(old(files), file, now);
        ghost var untrimmed := files;
        ghost var dropped := Trim();
        HeldAfterTrim(old(files), [file], untrimmed, dropped, files, now, name);
      }
    }

    /** Trimming ends within the limit, drops only files no newer than any it keeps, and stops as soon as it can. */
    method Trim() returns (ghost dropped: seq<File>)
      requires Valid()
      modifies `files
      ensures Valid() && TrimsTo(old(files), dropped, files)
    {
      hide Sort, Truthful, Total, TrimsTo, Sorted;
      var queue := Sort(files);
      SortSorts(files);
      var size := Total(queue);
      dropped := [];
      ghost var sorted := queue;
      while queue != [] && size > CACHE_LIMIT
        invariant files == old(files) && dropped + queue == sorted && size == Total(queue)
        invariant dropped != [] ==> size + |dropped[|dropped| - 1].data| > CACHE_LIMIT
      {
        TotalOfTail(queue);
        assert queue == [queue[0]] + queue[1..];
        dropped := dropped + [queue[0]];
        size := size - |queue[0].data|;
        queue := queue[1..];
      }
      TotalOfNone();
      TrimmedIs(files, dropped, queue);
      TrimmedEnough(files, dropped, queue);
      FewerAreTruthful(archive, files, queue);
      files := queue;
    }

    // the group in one request, cut up; a range that ends after the last one is cut short, and named by what is left
    method FetchGroup(group: seq<Range>, online: bool, now: int) returns (ok: bool, ghost fetched: seq<File>)
      requires Valid() && group != [] && Ordered(group)
      modifies `files, `requests
      ensures requests == old(requests) + [Span(group)]
      ensures Valid() && Grown(old(files), fetched, files, now) && Total(fetched) <= Lengths(group)
      ensures forall r :: old(Holds(files, r)) ==> Holds(files, r)
      ensures ok ==> forall r :: r in group && r.offset + r.length <= End(group) ==> Holds(files, r)
      ensures online && Servable(archive, Last(group)) ==> ok
      ensures forall r :: Exists(files, r) && !old(Exists(files, r)) ==> PieceOf(group, r)
    {
      hide Holds, Exists, Truthful, Ordered, IsSlice, Grown, Total, Stored, Lengths, Span;
      var start, end := group[0].offset, End(group);
      OffsetsOrdered(group);
      SpanIs(group, start, end);
      fetched := [];
      NothingGrown(files, now);
      LengthsPrefix(group, 0);
      var answer := Fetch(start, end - start, online);
      if answer.Unavailable? {
        LengthsPrefix(group, |group|);
        return false, fetched;
      }
      var data := answer.data;
      for i := 0 to |group|
        invariant Valid() && forall r :: old(Holds(files, r)) ==> Holds(files, r)
        invariant Grown(old(files), fetched, files, now) && Total(fetched) <= Lengths(group[..i])
        invariant requests == old(requests) + [Span(group)]
        invariant forall k :: 0 <= k < i && group[k].offset + group[k].length <= end ==> Holds(files, group[k])
        invariant forall r :: Exists(files, r) && !old(Exists(files, r)) ==> PieceOf(group, r)
      {
        var r := group[i];
        var stop := if r.offset + r.length <= end then r.offset + r.length else end;
        SliceOfFetched(archive, start, end, data, r.offset, stop);
        assert r in group;
        ghost var before := files;
        ghost var file := Store(r.offset, data[r.offset - start..stop - start], now);
        StoredGrows(before, file, now);
        GrownMore(old(files), fetched, before, [file], files, now);
        LengthsPrefix(group, i);
        fetched := fetched + [file];
      }
      LengthsPrefix(group, |group|);
      return true, fetched;
    }

    /** Each group is fetched in one request; a range of it is kept whole exactly when it ends no later than the last
        one. */
    method FetchGroups(missing: seq<Range>, online: bool, now: int) returns (ok: bool, ghost fetched: seq<File>)
      requires Valid() && Ordered(missing) && forall r :: r in missing ==> !Exists(files, r)
      modifies `files, `requests
      ensures ok ==> NoneEmpty(Groups(missing)) && requests == old(requests) + Spans(Groups(missing))
      ensures Valid() && Grown(old(files), fetched, files, now) && Total(fetched) <= Lengths(missing)
      ensures forall r :: old(Holds(files, r)) ==> Holds(files, r)
      ensures ok ==> WholeIff(Groups(missing), files)
      ensures online && (forall r :: r in missing ==> Servable(archive, r)) ==> ok
    {
      hide Holds, Exists, Groups, Ordered, Truthful, Last, Grown, Total, GroupLengths, PieceOf;
      var groups := Groups(missing);
      GroupsAreGrouped(missing);
      fetched := [];
      NothingGrown(files, now);
      LengthsOfGroups(missing, 0);
      for i := 0 to |groups|
        invariant Valid() && forall r :: old(Holds(files, r)) ==> Holds(files, r)
        invariant Grown(old(files), fetched, files, now) && Total(fetched) <= GroupLengths(groups[..i])
        invariant requests == old(requests) + Spans(groups)[..i]
        invariant forall k, r: Range ::
                    0 <= k < i && r in groups[k] && r.offset + r.length <= End(groups[k]) ==> Holds(files, r)
        invariant forall r :: Exists(files, r) && !old(Exists(files, r)) ==> Piece(groups, r)
      {
        ghost var before := files;
        assert groups[i] in groups;
        MemberIsMissing(missing, groups[i], groups[i][|groups[i]| - 1]);
        LastIs(groups[i]);
        ghost var more: seq<File>;
        ok, more := FetchGroup(groups[i], online, now);
        GrownMore(old(files), fetched, before, more, files, now);
        fetched := fetched + more;
        LengthsOfGroups(missing, i);
        forall r | Exists(files, r) && !old(Exists(files, r)) ensures Piece(groups, r) {
          if !Exists(before, r) {
            assert groups[i] in groups && PieceOf(groups[i], r);
          }
        }
        if !ok {
          return;
        }
      }
      LengthsOfGroups(missing, |groups|);
      forall g, r | g in groups && r in g && Holds(files, r) ensures r.offset + r.length <= End(g) {
        HeldExists(files, r);
        MemberIsMissing(missing, g, r);
        assert Piece(groups, r);
        PieceFits(groups, g, r);
      }
      ok := true;
    }

    /** Each range that was missing is fetched, whole if and only if it ends no later than its group, which all do if
        none overlap. What is fetched is then still on disk if there is room for everything, or if it fits by itself and
        no other file is from the future. */
    method Prefetch(ranges: seq<Range>, online: bool, now: int)
      returns (ok: bool, ghost untrimmed: seq<File>, ghost dropped: seq<File>)
      requires Valid()
      modifies `files, `requests
      ensures var groups := Groups(Missing(ranges, old(files)));
        ok ==> NoneEmpty(groups) && requests == old(requests) + Spans(groups)
      ensures var missing := Missing(ranges, old(files));
        && Valid() && Truthful(archive, untrimmed) && (forall r :: old(Holds(files, r)) ==> Holds(untrimmed, r))
        && (if ok && missing != [] then TrimsTo(untrimmed, dropped, files) else files == untrimmed && dropped == [])
        && (ok ==> WholeIff(Groups(missing), untrimmed))
        && Total(untrimmed) <= old(Total(files)) + Lengths(missing)
      ensures var missing := Missing(ranges, old(files));
        ok && (old(Total(files)) + Lengths(missing) <= 67108864
               || (Lengths(missing) <= 67108864 && forall f :: f in old(files) ==> f.time < now))
        ==> WholeIff(Groups(missing), files)
            && (NoOverlap(ranges) ==> forall r :: r in ranges && !old(Exists(files, r)) ==> Holds(files, r))
      ensures old(Total(files)) + Lengths(Missing(ranges, old(files))) <= 67108864 ==>
                forall r :: old(Holds(files, r)) ==> Holds(files, r)
      ensures online && (forall r :: r in ranges ==> Servable(archive, r)) ==> ok
    {
      hide Holds, Exists, Groups, Ordered, Truthful, NoOverlap, Total, Grown, TrimsTo, WholeIff, Lengths;
      ghost var before := files;
      var missing: seq<Range> := [];
      for i := 0 to |ranges|
        invariant missing == Missing(ranges[..i], files) && files == before && requests == old(requests)
      {
        MissingMore(ranges, files, i);
        if !Exists(files, ranges[i]) {
          missing := InsertRange(ranges[i], missing);
        }
      }
      assert ranges[..|ranges|] == ranges;
      MissingIs(ranges, files);
      ok, untrimmed, dropped := true, files, [];
      if missing == [] {
        NoneMissing(files);
        return;
      }
      ghost var fetched: seq<File>;
      ok, fetched := FetchGroups(missing, online, now);
      untrimmed := files;
      GrownTotal(before, fetched, files, now);
      if !ok {
        return;
      }
      dropped := Trim();
      forall r | Holds(untrimmed, r) && Total(untrimmed) <= CACHE_LIMIT ensures Holds(files, r) {
        HeldAfterTrim(before, fetched, untrimmed, dropped, files, now, r);
      }
      if old(Total(files)) + Lengths(missing) <= CACHE_LIMIT
         || (Lengths(missing) <= CACHE_LIMIT && forall f :: f in before ==> f.time < now) {
        PrefetchedStay(before, missing, fetched, untrimmed, dropped, files, now);
        if NoOverlap(ranges) {
          forall r | r in missing ensures Holds(files, r) {
            KeptWhole(ranges, missing, r);
            WholeIsHeld(missing, files, r);
          }
        }
      }
    }
  }

  // of the ranges of these groups, those on disk whole are those that end within their group
  ghost predicate WholeIff(groups: seq<seq<Range>>, files: seq<File>) {
    forall g, r :: g in groups && r in g ==> (Holds(files, r) <==> r.offset + r.length <= End(g))
  }

  lemma WholeIsHeld(missing: seq<Range>, files: seq<File>, r: Range)
    requires WholeIff(Groups(missing), files)
    requires exists g :: g in Groups(missing) && r in g && r.offset + r.length <= End(g)
    ensures Holds(files, r)
  {
  }

  lemma NoneMissing(files: seq<File>)
    ensures WholeIff(Groups([]), files) && Lengths([]) == 0
  {
  }

  lemma GrownTotal(before: seq<File>, fetched: seq<File>, files: seq<File>, now: int)
    requires Grown(before, fetched, files, now)
    ensures Total(files) <= Total(before) + Total(fetched)
  {
    assert multiset(before + fetched) == multiset(before) + multiset(fetched);
    FewerTakeLess(files, before + fetched);
    TotalConcat(before, fetched);
  }

  lemma PrefetchedStay(before: seq<File>, missing: seq<Range>, fetched: seq<File>, files: seq<File>,
                       dropped: seq<File>, kept: seq<File>, now: int)
    requires Grown(before, fetched, files, now) && TrimsTo(files, dropped, kept) && WholeIff(Groups(missing), files)
    requires Total(fetched) <= Lengths(missing) && forall r :: r in missing ==> !Exists(before, r)
    requires Total(before) + Lengths(missing) <= CACHE_LIMIT
             || (Lengths(missing) <= CACHE_LIMIT && forall f :: f in before ==> f.time < now)
    ensures WholeIff(Groups(missing), kept)
  {
    hide Groups, Grown, TrimsTo, Holds, Exists, Total, Lengths;
    GrownTotal(before, fetched, files, now);
    KeptWereThere(files, dropped, kept);
    forall g, r | g in Groups(missing) && r in g ensures Holds(kept, r) <==> r.offset + r.length <= End(g) {
      MemberIsMissing(missing, g, r);
      if Holds(files, r) { HeldAfterTrim(before, fetched, files, dropped, kept, now, r); }
    }
  }

  lemma MissingMore(ranges: seq<Range>, files: seq<File>, i: nat)
    requires i < |ranges|
    ensures Missing(ranges[..i + 1], files) == var m := Missing(ranges[..i], files);
      if Exists(files, ranges[i]) then m else InsertRange(ranges[i], m)
  {
    assert ranges[..i + 1][..i] == ranges[..i];
  }

  lemma LengthsPrefix(group: seq<Range>, i: nat)
    requires i <= |group|
    ensures Lengths(group[..i]) <= Lengths(group) && Lengths(group[..0]) == 0
    ensures i < |group| ==> Lengths(group[..i + 1]) == Lengths(group[..i]) + group[i].length
    ensures group[..|group|] == group
  {
    LengthsConcat(group[..i], group[i..]);
    assert group == group[..i] + group[i..];
    if i < |group| { assert group[..i + 1][..i] == group[..i]; }
  }

  lemma LengthsOfGroups(missing: seq<Range>, i: nat)
    requires i <= |Groups(missing)|
    ensures var groups := Groups(missing);
      && GroupLengths(groups[..i]) <= Lengths(missing) && GroupLengths(groups[..0]) == 0
      && (i < |groups| ==> GroupLengths(groups[..i + 1]) == GroupLengths(groups[..i]) + Lengths(groups[i])
                           && GroupLengths(groups[..i + 1]) <= Lengths(missing))
  {
    var groups := Groups(missing);
    GroupsAreAll(missing);
    FlatLengths(groups);
    assert groups[..|groups|] == groups;
    GroupLengthsGrow(groups, i);
    if i < |groups| {
      GroupLengthsGrow(groups, i + 1);
      assert groups[..i + 1][..i] == groups[..i];
    }
  }

  lemma {:induction false} GroupLengthsGrow(groups: seq<seq<Range>>, i: nat)
    requires i <= |groups|
    ensures GroupLengths(groups[..i]) <= GroupLengths(groups)
  {
    if i < |groups| {
      var n := |groups| - 1;
      GroupLengthsGrow(groups[..n], i);
      assert groups[..n][..i] == groups[..i];
    } else {
      assert groups[..i] == groups;
    }
  }

  lemma FoundIsSlice(archive: seq<Byte>, files: seq<File>, i: nat)
    requires Truthful(archive, files) && i < |files| && |files[i].data| == files[i].name.length
    ensures IsSlice(archive, files[i].name, files[i].data) && Holds(files, files[i].name)
  {
    assert files[i] in files;
  }

  lemma SpanIs(group: seq<Range>, start: nat, end: nat)
    requires group != [] && start == group[0].offset && end == End(group) && start <= end
    ensures Span(group) == Range(start, end - start)
  {
  }

  lemma NotFound(files: seq<File>, name: Range)
    requires forall k :: 0 <= k < |files| ==> files[k].name != name || |files[k].data| != name.length
    ensures !Holds(files, name)
  {
  }

  lemma SliceLength(archive: seq<Byte>, range: Range, data: seq<Byte>)
    requires IsSlice(archive, range, data)
    ensures |data| == range.length
  {
  }

  // what is left of a range of the group
  ghost predicate PieceOf(group: seq<Range>, r: Range)
    requires group != []
  {
    r.offset + r.length <= End(group) && exists q :: q in group && q.offset == r.offset
  }

  ghost predicate Piece(groups: seq<seq<Range>>, r: Range) {
    exists g :: g in groups && g != [] && PieceOf(g, r)
  }

  lemma PieceFits(groups: seq<seq<Range>>, g: seq<Range>, r: Range)
    requires Grouped(groups) && g in groups && r in g && Piece(groups, r)
    ensures r.offset + r.length <= End(g)
  {
    hide Ordered, Apart;
    var h :| h in groups && h != [] && PieceOf(h, r);
    var q :| q in h && q.offset == r.offset;
    NotAPiece(groups, g, r, h, q);
  }

  lemma InsertTwo(a: Range, b: Range)
    requires Less(a, b)
    ensures InsertRange(b, [a]) == [a, b]
  {
    assert !Less(b, a) && b != a;
    assert [a][1..] == [] && InsertRange(b, []) == [b];
  }

  /** Overlapping ranges can be lost: the first of these two is cut off where the second ends. */
  lemma OverlapIsCut()
    ensures var ranges := [Range(0, 100), Range(50, 10)];
      Groups(Missing(ranges, [])) == [ranges] && ranges[0].offset + ranges[0].length > End(ranges)
  {
    var a, b := Range(0, 100), Range(50, 10);
    assert Missing([], []) == [];
    assert Missing([a], []) == [a] by { assert [a][..0] == []; }
    assert Missing([a, b], []) == [a, b] by { assert [a, b][..1] == [a]; InsertTwo(a, b); }
    assert Groups([]) == [];
    assert Groups([a]) == [[a]] by { assert [a][..0] == []; }
    assert Groups([a, b]) == [[a, b]] by { assert [a, b][..1] == [a]; assert [a] + [b] == [a, b]; }
  }

  lemma LastIs(group: seq<Range>)
    requires group != []
    ensures Last(group) == group[|group| - 1]
  {
  }

  lemma HeldExists(files: seq<File>, r: Range)
    requires Holds(files, r)
    ensures Exists(files, r)
  {
    var f :| f in files && f.name == r && |f.data| == r.length;
    var i :| 0 <= i < |files| && files[i] == f;
  }

  lemma MemberIsMissing(missing: seq<Range>, g: seq<Range>, r: Range)
    requires g in Groups(missing) && r in g
    ensures r in missing
  {
    hide Groups, Flat;
    GroupsAreAll(missing);
    FlatMember(Groups(missing), r);
  }

  lemma NoneOrdered()
    ensures Ordered([])
  {
  }

  lemma KeptWhole(ranges: seq<Range>, missing: seq<Range>, r: Range)
    requires NoOverlap(ranges) && Ordered(missing) && r in missing && forall q :: q in missing ==> q in ranges
    ensures exists g :: g in Groups(missing) && r in g && r.offset + r.length <= End(g)
  {
    hide Groups, Flat, NoOverlap, Disjoint, Last, Ordered;
    GroupsAreAll(missing);
    GroupsAreGrouped(missing);
    FlatMember(Groups(missing), r);
    var g :| g in Groups(missing) && r in g;
    var k :| 0 <= k < |Groups(missing)| && Groups(missing)[k] == g;
    forall q | q in g ensures q in ranges {
      MemberIsMissing(missing, g, q);
    }
    OrderedIsDisjoint(ranges, g);
    DisjointFit(g, r);
  }

  lemma SliceOfFetched(archive: seq<Byte>, start: nat, end: nat, data: seq<Byte>, from: nat, to: nat)
    requires start <= from <= to <= end && IsSlice(archive, Range(start, end - start), data)
    ensures IsSlice(archive, Range(from, to - from), data[from - start..to - start])
  {
    forall k | 0 <= k < to - from ensures data[from - start..to - start][k] == archive[from..to][k] {
      assert data[from - start + k] == archive[start..end][from - start + k];
    }
    assert data[from - start..to - start] == archive[from..to];
  }

  lemma OffsetsOrdered(ranges: seq<Range>)
    requires Ordered(ranges)
    ensures forall i, j :: 0 <= i <= j < |ranges| ==> ranges[i].offset <= ranges[j].offset
  {
    forall i, j | 0 <= i < j < |ranges| ensures ranges[i].offset <= ranges[j].offset {
      assert Less(ranges[i], ranges[j]);
    }
  }
}

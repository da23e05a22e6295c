/** BER-TLV objects (section 8.1 of ITU-T X.690), and the cutting of a bound profile package into commands
    (section 5.7.6 of SGP.22). */
module Tlv {

  import opened Arithmetic

  datatype Element = Element(tag: nat, value: seq<Byte>, start: nat, end: nat)
  datatype Reading = Read(element: Element) | Stop

  // ---- Reading one object ----

  predicate LongTag(first: Byte) { first % 32 == 31 }

  // the rest of a tag of several bytes: its value, and where it ends
  function MoreTag(data: seq<Byte>, at: nat, tag: nat): (nat, nat)
    decreases |data| - at
  {
    if at >= |data| then (tag, at)
    else if data[at] < 128 then (256 * tag + data[at], at + 1)
    else MoreTag(data, at + 1, 256 * tag + data[at])
  }

  lemma {:induction false} MoreTagBounds(data: seq<Byte>, at: nat, tag: nat)
    requires at <= |data|
    ensures at <= MoreTag(data, at, tag).1 <= |data|
    decreases |data| - at
  {
    if at < |data| && data[at] >= 128 {
      MoreTagBounds(data, at + 1, 256 * tag + data[at]);
    }
  }

  function TagAt(data: seq<Byte>, at: nat): (nat, nat)
    requires at < |data|
  {
    if LongTag(data[at]) then MoreTag(data, at + 1, data[at]) else (data[at], at + 1)
  }

  function BigEndian(bytes: seq<Byte>): nat {
    if bytes == [] then 0 else 256 * BigEndian(bytes[..|bytes| - 1]) + bytes[|bytes| - 1]
  }

  datatype Size = Size(size: nat, at: nat) | NoSize

  // a length, short or long, and where the value begins
  function SizeAt(data: seq<Byte>, at: nat): (r: Size)
    ensures r.Size? ==> at < r.at <= |data|
  {
    if at >= |data| then NoSize
    else if data[at] < 128 then Size(data[at], at + 1)
    else
      var n := data[at] - 128;
      if at + 1 + n > |data| then NoSize else Size(BigEndian(data[at + 1..at + 1 + n]), at + 1 + n)
  }

  function ReadElement(data: seq<Byte>, at: nat): (r: Reading)
    requires at < |data|
    ensures r.Read? ==> r.element.start == at < r.element.end <= |data|
  {
    MoreTagBounds(data, at + 1, data[at]);
    var (tag, next) := TagAt(data, at);
    match SizeAt(data, next)
    case NoSize => Stop
    case Size(size, begin) =>
      if begin + size > |data| then Stop else Read(Element(tag, data[begin..begin + size], at, begin + size))
  }

  // everything up to the end, or to the first object that is cut short
  function Elements(data: seq<Byte>, at: nat): seq<Element>
    decreases |data| - at
  {
    if at >= |data| then []
    else
      match ReadElement(data, at)
      case Stop => []
      case Read(e) => [e] + Elements(data, e.end)
  }

  method IterTlv(data: seq<Byte>) returns (elements: seq<Element>)
    ensures elements == Elements(data, 0)
  {
    hide ReadElement;
    elements := [];
    var idx := 0;
    while idx < |data|
      invariant 0 <= idx <= |data| && Elements(data, 0) == elements + Elements(data, idx)
    {
      var r := NextElement(data, idx);
      if r.Stop? {
        return;
      }
      elements := elements + [r.element];
      idx := r.element.end;
    }
  }

  method NextElement(data: seq<Byte>, start: nat) returns (r: Reading)
    requires start < |data|
    ensures r == ReadElement(data, start)
  {
    hide SizeAt, MoreTag;
    var tag: nat, idx := data[start], start + 1;
    if LongTag(data[start]) {
      MoreTagBounds(data, idx, tag);
      tag, idx := RestOfTag(data, idx, tag);
    }
    var s := NextSize(data, idx);
    if s.NoSize? || s.at + s.size > |data| {
      return Stop;
    }
    return Read(Element(tag, data[s.at..s.at + s.size], start, s.at + s.size));
  }

  method NextSize(data: seq<Byte>, start: nat) returns (r: Size)
    ensures r == SizeAt(data, start)
  {
    hide BigEndian;
    var idx := start;
    if idx >= |data| {
      return NoSize;
    }
    var size: nat := data[idx];
    idx := idx + 1;
    if size >= 128 {
      var count := size - 128;
      if idx + count > |data| {
        return NoSize;
      }
      size := BigEndian(data[idx..idx + count]);
      idx := idx + count;
    }
    return Size(size, idx);
  }

  method RestOfTag(data: seq<Byte>, start: nat, first: nat) returns (tag: nat, idx: nat)
    ensures (tag, idx) == MoreTag(data, start, first)
  {
    tag, idx := first, start;
    while idx < |data|
      invariant MoreTag(data, start, first) == MoreTag(data, idx, tag)
    {
      var next := data[idx];
      idx := idx + 1;
      tag := 256 * tag + next;
      if next < 128 {
        return;
      }
    }
  }

  // ---- Writing ----

  function LengthBytes(n: nat): (bytes: seq<Byte>)
  {
    if n == 0 then [] else LengthBytes(n / 256) + [n % 256]
  }

  function EncodeTag(tag: nat): seq<Byte> {
    if tag > 255 then [tag / 256 % 256, tag % 256] else [tag]
  }

  function EncodeLength(n: nat): seq<Byte>
    requires |LengthBytes(n)| < 128
  {
    if n <= 127 then [n] else [128 + |LengthBytes(n)|] + LengthBytes(n)
  }

  function EncodeTlv(tag: nat, value: seq<Byte>): seq<Byte>
    requires |LengthBytes(|value|)| < 128
  {
    EncodeTag(tag) + EncodeLength(|value|) + value
  }

  // a tag of one byte, or of two
  predicate ProperTag(tag: nat) {
    if tag <= 255 then tag % 32 != 31 else tag < 65536 && tag / 256 % 32 == 31 && tag % 256 < 128
  }

  lemma {:induction false} LengthReadsBack(n: nat)
    ensures BigEndian(LengthBytes(n)) == n
  {
    if n > 0 {
      LengthReadsBack(n / 256);
      assert LengthBytes(n)[..|LengthBytes(n)| - 1] == LengthBytes(n / 256);
    }
  }

  lemma TagReadsBack(pre: seq<Byte>, tag: nat, post: seq<Byte>)
    requires ProperTag(tag)
    ensures var data := pre + EncodeTag(tag) + post; TagAt(data, |pre|) == (tag, |pre| + |EncodeTag(tag)|)
  {
    var data := pre + EncodeTag(tag) + post;
    if tag > 255 {
      assert data[|pre|] == tag / 256 && data[|pre| + 1] == tag % 256;
    } else {
      assert data[|pre|] == tag;
    }
  }

  lemma SizeReadsBack(pre: seq<Byte>, n: nat, post: seq<Byte>)
    requires |LengthBytes(n)| < 128
    ensures SizeAt(pre + EncodeLength(n) + post, |pre|) == Size(n, |pre| + |EncodeLength(n)|)
  {
    hide LengthBytes, BigEndian;
    var data := pre + EncodeLength(n) + post;
    if n > 127 {
      var bytes := LengthBytes(n);
      assert data[|pre|] == 128 + |bytes|;
      assert data[|pre| + 1..|pre| + 1 + |bytes|] == bytes;
      LengthReadsBack(n);
    } else {
      assert data[|pre|] == n;
    }
  }

  /** A written object reads back, wherever it stands. */
  lemma ElementReadsBack(pre: seq<Byte>, tag: nat, value: seq<Byte>, post: seq<Byte>)
    requires ProperTag(tag) && |LengthBytes(|value|)| < 128
    ensures var data := pre + EncodeTlv(tag, value) + post;
      |pre| < |data| && ReadElement(data, |pre|) == Read(Element(tag, value, |pre|, |pre| + |EncodeTlv(tag, value)|))
  {
    hide LengthBytes, SizeAt, TagAt, EncodeTag, EncodeLength, ProperTag;
    var data := pre + EncodeTlv(tag, value) + post;
    var t, l := EncodeTag(tag), EncodeLength(|value|);
    TagReadsBack(pre, tag, l + value + post);
    assert data == pre + t + (l + value + post);
    SizeReadsBack(pre + t, |value|, value + post);
    assert data == (pre + t) + l + (value + post);
    var begin := |pre| + |t| + |l|;
    assert data[begin..begin + |value|] == value;
  }

  datatype Item = Item(tag: nat, value: seq<Byte>)

  predicate Writable(items: seq<Item>) {
    forall i :: 0 <= i < |items| ==> ProperTag(items[i].tag) && |LengthBytes(|items[i].value|)| < 128
  }

  function EncodeAll(items: seq<Item>): seq<Byte>
    requires Writable(items)
  {
    if items == [] then [] else EncodeTlv(items[0].tag, items[0].value) + EncodeAll(items[1..])
  }

  // the elements are these items, end to end
  ghost predicate Represents(elements: seq<Element>, items: seq<Item>, from: nat, to: nat) {
    if items == [] then elements == [] && from == to
    else
      && elements != [] && elements[0].tag == items[0].tag && elements[0].value == items[0].value
        && elements[0].start == from
      && Represents(elements[1..], items[1..], elements[0].end, to)
  }

  /** Written objects, one after the other, read back as the same tags and values, leaving no byte out. */
  lemma {:induction false} ItemsReadBack(pre: seq<Byte>, items: seq<Item>)
    requires Writable(items)
    ensures var data := pre + EncodeAll(items); Represents(Elements(data, |pre|), items, |pre|, |data|)
    decreases |items|
  {
    hide ReadElement, EncodeTlv, ProperTag, LengthBytes;
    if items != [] {
      var first := EncodeTlv(items[0].tag, items[0].value);
      var data := pre + EncodeAll(items);
      ElementReadsBack(pre, items[0].tag, items[0].value, EncodeAll(items[1..]));
      assert data == pre + first + EncodeAll(items[1..]);
      ItemsReadBack(pre + first, items[1..]);
      assert data == (pre + first) + EncodeAll(items[1..]);
      var es := Elements(data, |pre|);
      assert es[1..] == Elements(data, |pre + first|);
    }
  }

  // ---- Cutting a bound profile package ----

  const TAG_BPP := 0xBF36
  const TAG_BPP_COMMAND := 0xBF23

  function HeaderLength(data: seq<Byte>): nat
    requires |data| > 0 && |data| > if LongTag(data[0]) then 2 else 1
  {
    var tagLength := if LongTag(data[0]) then 2 else 1;
    tagLength + if data[tagLength] >= 128 then 1 + (data[tagLength] - 128) else 1
  }

  lemma {:induction false} MoreTagGrows(data: seq<Byte>, at: nat, tag: nat)
    ensures MoreTag(data, at, tag).0 >= tag
    decreases |data| - at
  {
    if at < |data| && data[at] >= 128 {
      MoreTagGrows(data, at + 1, 256 * tag + data[at]);
    }
  }

  // a tag below 65536 takes up one byte or two, so the header is what stands before the value
  lemma HeaderBeforeValue(data: seq<Byte>, at: nat)
    requires at < |data| && ReadElement(data, at).Read? && ReadElement(data, at).element.tag < 65536
    ensures var e := ReadElement(data, at).element; var whole := data[at..e.end];
      |whole| > (if LongTag(whole[0]) then 2 else 1) && HeaderLength(whole) == |whole| - |e.value|
        && e.value == data[e.end - |e.value|..e.end]
  {
    hide BigEndian;
    if LongTag(data[at]) && at + 1 < |data| && data[at + 1] >= 128 {
      var first: nat, second: nat := data[at], data[at + 1];
      assert MoreTag(data, at + 1, first) == MoreTag(data, at + 2, 256 * first + second);
      if at + 2 < |data| {
        MoreTagShift(data, at + 2, 256 * first + second);
      }
    }
  }

  // one more byte makes the tag at least 256 times as large
  lemma MoreTagShift(data: seq<Byte>, at: nat, tag: nat)
    requires at < |data|
    ensures MoreTag(data, at, tag).0 >= 256 * tag
  {
    if data[at] >= 128 {
      MoreTagGrows(data, at + 1, 256 * tag + data[at]);
    }
  }

  function Values(data: seq<Byte>, es: seq<Element>): seq<seq<Byte>>
    requires forall e :: e in es ==> e.start <= e.end <= |data|
  {
    if es == [] then [] else [data[es[0].start..es[0].end]] + Values(data, es[1..])
  }

  function Concat(chunks: seq<seq<Byte>>): seq<Byte> {
    if chunks == [] then [] else chunks[0] + Concat(chunks[1..])
  }

  lemma {:induction false} ConcatJoins(a: seq<seq<Byte>>, b: seq<seq<Byte>>)
    ensures Concat(a + b) == Concat(a) + Concat(b)
  {
    if a == [] {
      assert a + b == b;
    } else {
      ConcatJoins(a[1..], b);
      assert (a + b)[1..] == a[1..] + b && (a + b)[0] == a[0];
      assert a[0] + (Concat(a[1..]) + Concat(b)) == (a[0] + Concat(a[1..])) + Concat(b);
    }
  }

  // how far the objects of a byte string can be read
  function Reached(data: seq<Byte>, at: nat): nat
    decreases |data| - at
  {
    if at >= |data| then at
    else
      match ReadElement(data, at)
      case Stop => at
      case Read(e) => Reached(data, e.end)
  }

  ghost predicate Gapless(data: seq<Byte>) {
    Reached(data, 0) == |data|
  }

  lemma {:induction false} ElementsInside(data: seq<Byte>, at: nat)
    requires at <= |data|
    ensures forall e :: e in Elements(data, at) ==> at <= e.start < e.end <= |data|
    ensures at <= Reached(data, at) <= |data|
    decreases |data| - at
  {
    hide ReadElement;
    if at < |data| && ReadElement(data, at).Read? {
      ElementsInside(data, ReadElement(data, at).element.end);
    }
  }

  lemma {:induction false} ValuesConcat(data: seq<Byte>, at: nat)
    requires at <= |data|
    requires forall e :: e in Elements(data, at) ==> e.start <= e.end <= |data|
    ensures at <= Reached(data, at) <= |data| && Concat(Values(data, Elements(data, at))) == data[at..Reached(data, at)]
    decreases |data| - at
  {
    hide ReadElement;
    ElementsInside(data, at);
    if at < |data| && ReadElement(data, at).Read? {
      var e := ReadElement(data, at).element;
      var es := Elements(data, at);
      assert es[1..] == Elements(data, e.end);
      ElementsInside(data, e.end);
      ValuesConcat(data, e.end);
      assert data[at..e.end] + data[e.end..Reached(data, at)] == data[at..Reached(data, at)];
    }
  }

  datatype Split = Chunks(chunks: seq<seq<Byte>>) | InvalidPackage

  function FirstWithTag(es: seq<Element>, tag: nat): Reading {
    if es == [] then Stop else if es[0].tag == tag then Read(es[0]) else FirstWithTag(es[1..], tag)
  }

  // An object of a byte string, with what is known of any that has been read from it.
  ghost predicate Placed(data: seq<Byte>, e: Element) {
    && e.start < e.end <= |data|
    && (e.tag < 65536 ==>
      var whole := data[e.start..e.end];
      |whole| > (if LongTag(whole[0]) then 2 else 1) && HeaderLength(whole) + |e.value| == |whole|
        && e.value == data[e.end - |e.value|..e.end])
  }

  lemma {:induction false} ElementsPlaced(data: seq<Byte>, at: nat)
    requires at <= |data|
    ensures forall e :: e in Elements(data, at) ==> Placed(data, e)
    decreases |data| - at
  {
    hide ReadElement, HeaderLength;
    if at < |data| && ReadElement(data, at).Read? {
      var e := ReadElement(data, at).element;
      if e.tag < 65536 {
        HeaderBeforeValue(data, at);
      }
      ElementsPlaced(data, e.end);
    }
  }

  predicate Listed(tag: nat) { tag == 0xA0 || tag == 0xA2 }

  predicate Opened(tag: nat) { tag == 0xA1 || tag == 0xA3 }

  // the value of the package's root object, and where it begins
  ghost predicate RootAt(bpp: seq<Byte>, begin: nat, root: seq<Byte>) {
    begin + |root| <= |bpp| && root == bpp[begin..begin + |root|]
  }

  // what one inner object of the package becomes
  function ChunksOf(bpp: seq<Byte>, begin: nat, root: seq<Byte>, e: Element): seq<seq<Byte>>
    requires RootAt(bpp, begin, root) && Placed(root, e)
  {
    if e.tag == TAG_BPP_COMMAND then [bpp[..begin + e.end]]
    else if Listed(e.tag) then [bpp[begin + e.start..begin + e.end]]
    else if Opened(e.tag) then
      ElementsInside(e.value, 0);
      [bpp[begin + e.start..begin + e.end - |e.value|]] + Values(e.value, Elements(e.value, 0))
    else []
  }

  function AllChunks(bpp: seq<Byte>, begin: nat, root: seq<Byte>, es: seq<Element>): seq<seq<Byte>>
    requires RootAt(bpp, begin, root) && forall e :: e in es ==> Placed(root, e)
  {
    if es == [] then [] else ChunksOf(bpp, begin, root, es[0]) + AllChunks(bpp, begin, root, es[1..])
  }

  function SplitOf(bpp: seq<Byte>): Split {
    ElementsPlaced(bpp, 0);
    match FirstWithTag(Elements(bpp, 0), TAG_BPP)
    case Stop => InvalidPackage
    case Read(e) =>
      FirstIsOne(Elements(bpp, 0), TAG_BPP);
      ElementsPlaced(e.value, 0);
      Chunks(AllChunks(bpp, e.end - |e.value|, e.value, Elements(e.value, 0)))
  }

  lemma {:induction false} FirstIsOne(es: seq<Element>, tag: nat)
    ensures FirstWithTag(es, tag).Read? ==>
      FirstWithTag(es, tag).element in es && FirstWithTag(es, tag).element.tag == tag
  {
    if es != [] && es[0].tag != tag {
      FirstIsOne(es[1..], tag);
    }
  }

  lemma {:induction false} FirstSoFar(es: seq<Element>, tag: nat, n: nat)
    requires n <= |es| && forall k :: 0 <= k < n ==> es[k].tag != tag
    ensures FirstWithTag(es, tag) == FirstWithTag(es[n..], tag)
    decreases n
  {
    if n > 0 {
      FirstSoFar(es[1..], tag, n - 1);
      assert es[1..][n - 1..] == es[n..];
    }
  }

  lemma {:induction false} AllChunksJoin(bpp: seq<Byte>, begin: nat, root: seq<Byte>, es: seq<Element>, e: Element)
    requires RootAt(bpp, begin, root) && Placed(root, e) && forall e :: e in es ==> Placed(root, e)
    ensures AllChunks(bpp, begin, root, es + [e]) == AllChunks(bpp, begin, root, es) + ChunksOf(bpp, begin, root, e)
    decreases |es|
  {
    hide Placed, RootAt, ChunksOf;
    if es == [] {
      assert es + [e] == [e];
    } else {
      assert (es + [e])[1..] == es[1..] + [e];
      AllChunksJoin(bpp, begin, root, es[1..], e);
    }
  }

  lemma {:induction false} ValuesJoin(data: seq<Byte>, es: seq<Element>, e: Element)
    requires e.start <= e.end <= |data| && forall e :: e in es ==> e.start <= e.end <= |data|
    ensures Values(data, es + [e]) == Values(data, es) + [data[e.start..e.end]]
    decreases |es|
  {
    if es == [] {
      assert es + [e] == [e];
    } else {
      assert (es + [e])[1..] == es[1..] + [e];
      ValuesJoin(data, es[1..], e);
    }
  }

  lemma NoChunks(bpp: seq<Byte>, begin: nat, root: seq<Byte>)
    requires RootAt(bpp, begin, root)
    ensures AllChunks(bpp, begin, root, []) == []
  {
  }

  method SplitBpp(bpp: seq<Byte>) returns (r: Split)
    ensures r == SplitOf(bpp)
  {
    hide HeaderLength, Placed, RootAt, Elements, FirstWithTag, ChunksOf, AllChunks;
    var outer := IterTlv(bpp);
    ElementsPlaced(bpp, 0);
    var first := FirstOf(outer, TAG_BPP);
    if first.Stop? {
      return InvalidPackage;
    }
    FirstIsOne(outer, TAG_BPP);
    var e := first.element;
    var root := e.value;
    var begin := Begin(bpp, e);
    var inner := IterTlv(root);
    ElementsPlaced(root, 0);
    var chunks := [];
    NoChunks(bpp, begin, root);
    for i := 0 to |inner|
      invariant chunks == AllChunks(bpp, begin, root, inner[..i])
    {
      assert Placed(root, inner[i]);
      var added := CutOne(bpp, begin, root, inner[i]);
      AllChunksJoin(bpp, begin, root, inner[..i], inner[i]);
      assert inner[..i] + [inner[i]] == inner[..i + 1];
      chunks := chunks + added;
    }
    assert inner[..|inner|] == inner;
    return Chunks(chunks);
  }

  method FirstOf(es: seq<Element>, tag: nat) returns (r: Reading)
    ensures r == FirstWithTag(es, tag)
  {
    for n := 0 to |es|
      invariant forall k :: 0 <= k < n ==> es[k].tag != tag
    {
      if es[n].tag == tag {
        FirstSoFar(es, tag, n);
        return Read(es[n]);
      }
    }
    FirstSoFar(es, tag, |es|);
    return Stop;
  }

  // where the value of an object begins, from its header
  method Begin(data: seq<Byte>, e: Element) returns (begin: nat)
    requires Placed(data, e) && e.tag < 65536
    ensures begin == e.end - |e.value| && RootAt(data, begin, e.value)
  {
    begin := e.start + HeaderLength(data[e.start..e.end]);
  }

  method CutContents(value: seq<Byte>) returns (chunks: seq<seq<Byte>>)
    requires forall e :: e in Elements(value, 0) ==> e.start <= e.end <= |value|
    ensures chunks == Values(value, Elements(value, 0))
  {
    hide Elements;
    var contents := IterTlv(value);
    chunks := [];
    for i := 0 to |contents|
      invariant chunks == Values(value, contents[..i])
    {
      assert contents[i] in contents;
      ValuesJoin(value, contents[..i], contents[i]);
      assert contents[..i] + [contents[i]] == contents[..i + 1];
      chunks := chunks + [value[contents[i].start..contents[i].end]];
    }
    assert contents[..|contents|] == contents;
  }

  method CutOne(bpp: seq<Byte>, begin: nat, root: seq<Byte>, e: Element) returns (chunks: seq<seq<Byte>>)
    requires RootAt(bpp, begin, root) && Placed(root, e)
    ensures chunks == ChunksOf(bpp, begin, root, e)
  {
    hide HeaderLength, Elements;
    chunks := [];
    if e.tag == TAG_BPP_COMMAND {
      chunks := chunks + [bpp[0..begin + e.end]];
    } else if e.tag == 0xA0 || e.tag == 0xA2 {
      chunks := chunks + [bpp[begin + e.start..begin + e.end]];
    } else if e.tag == 0xA1 || e.tag == 0xA3 {
      var header := HeaderLength(root[e.start..e.end]);
      chunks := chunks + [bpp[begin + e.start..begin + e.start + header]];
      ElementsInside(e.value, 0);
      var contents := CutContents(e.value);
      chunks := chunks + contents;
    }
  }

  // ---- No byte of the package is lost ----

  // the segments of a package, of which those under A1 and A3 are sent object by object
  predicate SegmentTag(tag: nat) { tag == 0xA0 || tag == 0xA1 || tag == 0xA2 || tag == 0xA3 }

  lemma SegmentTags(tag: nat)
    ensures SegmentTag(tag) <==> Listed(tag) || Opened(tag)
    ensures Opened(tag) <==> tag == 0xA1 || tag == 0xA3
  {
  }

  ghost predicate Contained(e: Element) {
    e.tag == 0xA1 || e.tag == 0xA3 ==> Gapless(e.value)
  }

  // a package is its root object, with one command object first and the four kinds of segments after it
  ghost predicate Package(bpp: seq<Byte>) {
    var found := FirstWithTag(Elements(bpp, 0), 0xBF36);
    found.Read? && found.element.end == |bpp| && Gapless(found.element.value)
    && var inner := Elements(found.element.value, 0);
      inner != [] && inner[0].tag == 0xBF23 && forall k :: 1 <= k < |inner| ==> SegmentTag(inner[k].tag)
  }

  lemma ConcatOne(chunk: seq<Byte>)
    ensures Concat([chunk]) == chunk
  {
    assert Concat([chunk]) == chunk + Concat([]);
  }

  lemma RootSlice(bpp: seq<Byte>, begin: nat, root: seq<Byte>, from: nat, to: nat)
    requires RootAt(bpp, begin, root) && from <= to <= |root|
    ensures bpp[begin + from..begin + to] == root[from..to]
  {
    var whole := bpp[begin..begin + |root|];
    forall k | 0 <= k < to - from ensures bpp[begin + from..begin + to][k] == whole[from..to][k] {
      assert whole[from + k] == bpp[begin + from + k];
    }
  }

  // the header of an opened segment, and then its objects as far as they can be read
  lemma OpenedChunk(root: seq<Byte>, e: Element, head: seq<Byte>)
    requires e.start <= e.end - |e.value| && e.end <= |root| && head == root[e.start..e.end - |e.value|]
    requires e.value == root[e.end - |e.value|..e.end]
    requires forall f :: f in Elements(e.value, 0) ==> f.start <= f.end <= |e.value|
    ensures var got := Concat([head] + Values(e.value, Elements(e.value, 0)));
      |got| <= e.end - e.start && (|got| == e.end - e.start <==> Gapless(e.value))
        && (Gapless(e.value) ==> got == root[e.start..e.end])
  {
    hide Elements, Values, Reached, Concat;
    ValuesConcat(e.value, 0);
    ConcatOne(head);
    ConcatJoins([head], Values(e.value, Elements(e.value, 0)));
    Joined(root, e.start, e.end - |e.value|, e.end);
  }

  lemma ChunksOfListed(bpp: seq<Byte>, begin: nat, root: seq<Byte>, e: Element)
    requires RootAt(bpp, begin, root) && Placed(root, e) && Listed(e.tag)
    ensures e.start < e.end <= |root| && ChunksOf(bpp, begin, root, e) == [root[e.start..e.end]] && Contained(e)
  {
    hide Elements, Values, Gapless, HeaderLength;
    RootSlice(bpp, begin, root, e.start, e.end);
  }

  lemma ChunksOfOpened(bpp: seq<Byte>, begin: nat, root: seq<Byte>, e: Element)
    requires RootAt(bpp, begin, root) && Placed(root, e) && Opened(e.tag)
    ensures e.start <= e.end - |e.value| && e.end <= |root| && e.value == root[e.end - |e.value|..e.end]
    ensures forall f :: f in Elements(e.value, 0) ==> f.start <= f.end <= |e.value|
    ensures ChunksOf(bpp, begin, root, e) == [root[e.start..e.end - |e.value|]] + Values(e.value, Elements(e.value, 0))
  {
    hide Elements, Values, HeaderLength;
    RootSlice(bpp, begin, root, e.start, e.end - |e.value|);
    ElementsInside(e.value, 0);
  }

  // a segment keeps its bytes exactly when what it is opened into reads to its end
  lemma SegmentChunks(bpp: seq<Byte>, begin: nat, root: seq<Byte>, e: Element)
    requires RootAt(bpp, begin, root) && Placed(root, e) && (Listed(e.tag) || Opened(e.tag))
    ensures e.start < e.end <= |root|
    ensures var got := Concat(ChunksOf(bpp, begin, root, e));
      |got| <= e.end - e.start && (|got| == e.end - e.start <==> Contained(e))
        && (Contained(e) ==> got == root[e.start..e.end])
  {
    hide Elements, Values, Gapless, HeaderLength, Concat, RootAt, ChunksOf;
    if Listed(e.tag) {
      ChunksOfListed(bpp, begin, root, e);
      ConcatOne(root[e.start..e.end]);
    } else {
      ChunksOfOpened(bpp, begin, root, e);
      OpenedChunk(root, e, root[e.start..e.end - |e.value|]);
    }
  }

  lemma Joined(data: seq<Byte>, a: nat, b: nat, c: nat)
    requires a <= b <= c <= |data|
    ensures data[a..c] == data[a..b] + data[b..c] && data[b..c][0..c - b] == data[b..c]
  {
  }

  ghost predicate AllContained(es: seq<Element>) {
    forall e :: e in es ==> Contained(e)
  }

  ghost predicate AllSegments(root: seq<Byte>, es: seq<Element>) {
    forall e :: e in es ==> Placed(root, e) && (Listed(e.tag) || Opened(e.tag))
  }

  lemma SegmentFirst(root: seq<Byte>, es: seq<Element>)
    requires es != []
    ensures AllContained(es) <==> Contained(es[0]) && AllContained(es[1..])
    ensures AllSegments(root, es) ==>
      Placed(root, es[0]) && (Listed(es[0].tag) || Opened(es[0].tag)) && AllSegments(root, es[1..])
  {
    hide Contained, Placed, Listed, Opened;
    assert es == [es[0]] + es[1..];
  }

  lemma {:induction false} SegmentsChunks(bpp: seq<Byte>, begin: nat, root: seq<Byte>, at: nat)
    requires RootAt(bpp, begin, root) && at <= |root| && Reached(root, at) == |root|
    requires AllSegments(root, Elements(root, at)) && forall e :: e in Elements(root, at) ==> Placed(root, e)
    ensures var es := Elements(root, at); var got := Concat(AllChunks(bpp, begin, root, es));
      |got| <= |root| - at && (|got| == |root| - at <==> AllContained(es)) && (AllContained(es) ==> got == root[at..])
    decreases |root| - at
  {
    hide ReadElement, Placed, RootAt, ChunksOf, Contained, Listed, Opened, AllContained, AllSegments, Concat;
    if at < |root| {
      var e := ReadElement(root, at).element;
      var es := Elements(root, at);
      assert es[0] == e && es[1..] == Elements(root, e.end);
      SegmentFirst(root, es);
      SegmentChunks(bpp, begin, root, e);
      SegmentsChunks(bpp, begin, root, e.end);
      ConcatJoins(ChunksOf(bpp, begin, root, e), AllChunks(bpp, begin, root, es[1..]));
      assert root[at..] == root[at..e.end] + root[e.end..];
    } else {
      NoSegments(bpp, begin, root, at);
    }
  }

  lemma NoSegments(bpp: seq<Byte>, begin: nat, root: seq<Byte>, at: nat)
    requires RootAt(bpp, begin, root) && at >= |root|
    ensures Elements(root, at) == [] && Concat(AllChunks(bpp, begin, root, [])) == [] && AllContained([])
  {
  }

  /** The chunks of a package put together are the package, byte for byte, exactly when the segments that are opened
      up consist of whole objects; otherwise what follows the last whole object of a segment is not sent. */
  lemma NothingIsLost(bpp: seq<Byte>)
    requires Package(bpp)
    ensures SplitOf(bpp).Chunks?
    ensures Concat(SplitOf(bpp).chunks) == bpp <==>
      AllContained(Elements(FirstWithTag(Elements(bpp, 0), 0xBF36).element.value, 0))
  {
    hide ReadElement, HeaderLength, AllContained, Gapless, Reached;
    ElementsPlaced(bpp, 0);
    FirstIsOne(Elements(bpp, 0), TAG_BPP);
    var found := FirstWithTag(Elements(bpp, 0), TAG_BPP).element;
    var root, begin := found.value, found.end - |found.value|;
    ElementsPlaced(root, 0);
    PackageChunks(bpp, begin, root);
  }

  /** It can happen: the opened segment of this package ends in a byte that is no object, and is not sent. */
  lemma BytesCanBeLost()
    ensures var bpp: seq<Byte> := [0xBF, 0x36, 6, 0xBF, 0x23, 0, 0xA1, 1, 0x86];
      Package(bpp) && SplitOf(bpp).Chunks? && Concat(SplitOf(bpp).chunks) != bpp
  {
    hide Concat, SplitOf;
    var bpp: seq<Byte> := [0xBF, 0x36, 6, 0xBF, 0x23, 0, 0xA1, 1, 0x86];
    var root: seq<Byte> := [0xBF, 0x23, 0, 0xA1, 1, 0x86];
    var outer, command, segment :=
      Element(TAG_BPP, root, 0, 9), Element(TAG_BPP_COMMAND, [], 0, 3), Element(0xA1, [0x86], 3, 6);
    assert ReadElement(bpp, 0) == Read(outer);
    assert ReadElement(root, 0) == Read(command);
    assert ReadElement(root, 3) == Read(segment);
    assert ReadElement([0x86], 0) == Stop;
    assert Elements(bpp, 0) == [outer];
    assert Elements(root, 3) == [segment];
    assert Elements(root, 0) == [command, segment];
    assert segment in Elements(root, 0) && !Contained(segment);
    NothingIsLost(bpp);
  }

  lemma PackageChunks(bpp: seq<Byte>, begin: nat, root: seq<Byte>)
    requires RootAt(bpp, begin, root) && begin + |root| == |bpp| && Gapless(root)
    requires forall e :: e in Elements(root, 0) ==> Placed(root, e)
    requires var inner := Elements(root, 0);
      inner != [] && inner[0].tag == TAG_BPP_COMMAND && forall k :: 1 <= k < |inner| ==> SegmentTag(inner[k].tag)
    ensures Concat(AllChunks(bpp, begin, root, Elements(root, 0))) == bpp <==> AllContained(Elements(root, 0))
  {
    hide ReadElement, Placed, Listed, Opened, Contained, Gapless, AllContained, AllSegments, Concat, Reached, AllChunks;
    var inner := Elements(root, 0);
    GaplessReaches(root);
    var e := ReadElement(root, 0).element;
    var rest := inner[1..];
    assert inner[0] == e && rest == Elements(root, e.end);
    assert e in inner && Placed(root, e);
    SegmentsOfPackage(root, inner);
    SegmentFirst(root, inner);
    SegmentsChunks(bpp, begin, root, e.end);
    CommandChunk(bpp, begin, root, inner);
    var first, got := bpp[..begin + e.end], Concat(AllChunks(bpp, begin, root, rest));
    assert bpp == first + root[e.end..];
    if !AllContained(rest) {
      assert |first + got| < |bpp|;
    }
  }

  lemma FirstCommand(bpp: seq<Byte>, begin: nat, root: seq<Byte>, es: seq<Element>)
    requires RootAt(bpp, begin, root) && es != [] && es[0].tag == 0xBF23 && forall e :: e in es ==> Placed(root, e)
    ensures es[0] in es && es[0].end <= |root| && begin + es[0].end <= |bpp|
    ensures AllChunks(bpp, begin, root, es) == [bpp[..begin + es[0].end]] + AllChunks(bpp, begin, root, es[1..])
  {
    hide Placed, HeaderLength;
    assert es[0] in es && Placed(root, es[0]);
    PlacedInside(root, es[0]);
  }

  lemma PlacedInside(data: seq<Byte>, e: Element)
    requires Placed(data, e)
    ensures e.start < e.end <= |data|
  {
    hide HeaderLength;
  }

  // the command object goes out with all that stands before it
  lemma CommandChunk(bpp: seq<Byte>, begin: nat, root: seq<Byte>, inner: seq<Element>)
    requires RootAt(bpp, begin, root) && inner != [] && inner[0].tag == TAG_BPP_COMMAND
    requires forall e :: e in inner ==> Placed(root, e)
    ensures inner[0].end <= |root| && Contained(inner[0])
    ensures Concat(AllChunks(bpp, begin, root, inner)) ==
      bpp[..begin + inner[0].end] + Concat(AllChunks(bpp, begin, root, inner[1..]))
  {
    hide Placed, Contained, Concat, AllChunks, HeaderLength;
    FirstCommand(bpp, begin, root, inner);
    NotOpened(inner[0]);
    PlacedInside(root, inner[0]);
    var first := bpp[..begin + inner[0].end];
    ConcatOne(first);
    ConcatJoins([first], AllChunks(bpp, begin, root, inner[1..]));
  }

  lemma NotOpened(e: Element)
    requires e.tag == TAG_BPP_COMMAND
    ensures Contained(e)
  {
  }

  lemma SegmentsOfPackage(root: seq<Byte>, inner: seq<Element>)
    requires inner != [] && forall e :: e in inner ==> Placed(root, e)
    requires forall k :: 1 <= k < |inner| ==> SegmentTag(inner[k].tag)
    ensures AllSegments(root, inner[1..]) && forall e :: e in inner[1..] ==> Placed(root, e)
  {
    hide Placed, Listed, Opened, SegmentTag;
    forall f | f in inner[1..] ensures Placed(root, f) && (Listed(f.tag) || Opened(f.tag)) {
      var k :| 0 <= k < |inner[1..]| && inner[1..][k] == f;
      assert inner[k + 1] == f && f in inner;
      SegmentTags(f.tag);
    }
  }

  lemma GaplessReaches(data: seq<Byte>)
    requires Gapless(data) && Elements(data, 0) != []
    ensures |data| > 0 && ReadElement(data, 0).Read? && Reached(data, ReadElement(data, 0).element.end) == |data|
  {
    hide ReadElement;
  }

  // ---- The chunks of a written package ----

  // a segment sent whole, one sent object by object, or an object that is not sent
  datatype Part =
    | Whole(tag: nat, value: seq<Byte>)
    | Objects(tag: nat, items: seq<Item>)
    | Unsent(tag: nat, value: seq<Byte>)

  predicate Proper(part: Part) {
    && ProperTag(part.tag)
    && match part
       case Whole(tag, value) => tag in [0xA0, 0xA2] && |LengthBytes(|value|)| < 128
       case Objects(tag, items) => tag in [0xA1, 0xA3] && Writable(items) && |LengthBytes(|EncodeAll(items)|)| < 128
       case Unsent(tag, value) =>
         tag !in [0xA0, 0xA1, 0xA2, 0xA3, 0xBF23] && |LengthBytes(|value|)| < 128
  }

  function ValueOf(part: Part): (value: seq<Byte>)
    requires Proper(part)
    ensures |LengthBytes(|value|)| < 128
  {
    match part
    case Whole(_, value) => value
    case Objects(_, items) => EncodeAll(items)
    case Unsent(_, value) => value
  }

  function Encodings(items: seq<Item>): seq<seq<Byte>>
    requires Writable(items)
  {
    if items == [] then [] else [EncodeTlv(items[0].tag, items[0].value)] + Encodings(items[1..])
  }

  // what is sent of a part: all of it at once, its header and then its objects one by one, or nothing
  function SentOf(part: Part): seq<seq<Byte>>
    requires Proper(part)
  {
    match part
    case Whole(tag, value) => [EncodeTlv(tag, value)]
    case Objects(tag, items) => [EncodeTag(tag) + EncodeLength(|EncodeAll(items)|)] + Encodings(items)
    case Unsent(_, _) => []
  }

  predicate AllProper(parts: seq<Part>) {
    forall i :: 0 <= i < |parts| ==> Proper(parts[i])
  }

  function EncodeParts(parts: seq<Part>): seq<Byte>
    requires AllProper(parts)
  {
    if parts == [] then [] else EncodeTlv(parts[0].tag, ValueOf(parts[0])) + EncodeParts(parts[1..])
  }

  function SentOfAll(parts: seq<Part>): seq<seq<Byte>>
    requires AllProper(parts)
  {
    if parts == [] then [] else SentOf(parts[0]) + SentOfAll(parts[1..])
  }

  // where the objects of written items stand
  lemma {:induction false} ValuesOfItems(pre: seq<Byte>, items: seq<Item>)
    requires Writable(items)
    ensures var data := pre + EncodeAll(items);
      && (forall e :: e in Elements(data, |pre|) ==> e.start <= e.end <= |data|)
      && Values(data, Elements(data, |pre|)) == Encodings(items)
    decreases |items|
  {
    hide ReadElement, EncodeTlv, ProperTag, LengthBytes;
    var data := pre + EncodeAll(items);
    ElementsInside(data, |pre|);
    if items != [] {
      var first := EncodeTlv(items[0].tag, items[0].value);
      ElementReadsBack(pre, items[0].tag, items[0].value, EncodeAll(items[1..]));
      assert data == pre + first + EncodeAll(items[1..]);
      ValuesOfItems(pre + first, items[1..]);
      assert data == (pre + first) + EncodeAll(items[1..]);
      var es := Elements(data, |pre|);
      assert es[1..] == Elements(data, |pre + first|);
      assert data[|pre|..|pre| + |first|] == first;
    }
  }

  // one part, read where it was written
  lemma ChunksOfPart(bpp: seq<Byte>, begin: nat, root: seq<Byte>, pre: seq<Byte>, part: Part, post: seq<Byte>)
    requires Proper(part) && RootAt(bpp, begin, root) && root == pre + EncodeTlv(part.tag, ValueOf(part)) + post
    ensures var e := Element(part.tag, ValueOf(part), |pre|, |pre| + |EncodeTlv(part.tag, ValueOf(part))|);
      && |pre| < |root| && ReadElement(root, |pre|) == Read(e)
      && (Placed(root, e) ==> ChunksOf(bpp, begin, root, e) == SentOf(part))
  {
    hide ReadElement, EncodeTag, EncodeLength, LengthBytes, ProperTag, HeaderLength, Elements, Values, Encodings;
    var value := ValueOf(part);
    ElementReadsBack(pre, part.tag, value, post);
    var head, whole := EncodeTag(part.tag) + EncodeLength(|value|), EncodeTlv(part.tag, value);
    RootSlice(bpp, begin, root, |pre|, |pre| + |whole|);
    RootSlice(bpp, begin, root, |pre|, |pre| + |head|);
    assert root[|pre|..|pre| + |whole|] == whole && whole == head + value;
    assert root[|pre|..|pre| + |head|] == head;
    if part.Objects? {
      ValuesOfItems([], part.items);
      assert [] + value == value;
    }
  }

  lemma {:induction false} ChunksOfParts(bpp: seq<Byte>, begin: nat, root: seq<Byte>, pre: seq<Byte>, parts: seq<Part>)
    requires AllProper(parts) && RootAt(bpp, begin, root) && root == pre + EncodeParts(parts)
    requires forall e :: e in Elements(root, |pre|) ==> Placed(root, e)
    ensures AllChunks(bpp, begin, root, Elements(root, |pre|)) == SentOfAll(parts)
    decreases |parts|
  {
    hide ReadElement, EncodeTlv, LengthBytes, ProperTag, Proper, Placed, RootAt, ChunksOf, SentOf, ValueOf;
    if parts != [] {
      var first, rest := EncodeTlv(parts[0].tag, ValueOf(parts[0])), EncodeParts(parts[1..]);
      ChunksOfPart(bpp, begin, root, pre, parts[0], rest);
      var es := Elements(root, |pre|);
      assert es[0] in es && es[1..] == Elements(root, |pre + first|);
      assert root == (pre + first) + rest;
      ChunksOfParts(bpp, begin, root, pre + first, parts[1..]);
    }
  }

  lemma OneObject(tag: nat, value: seq<Byte>)
    requires ProperTag(tag) && |LengthBytes(|value|)| < 128
    ensures var data := EncodeTlv(tag, value); Elements(data, 0) == [Element(tag, value, 0, |data|)]
  {
    hide ReadElement, LengthBytes, ProperTag, EncodeTlv;
    var data := EncodeTlv(tag, value);
    ElementReadsBack([], tag, value, []);
    assert [] + data + [] == data;
  }

  lemma FirstObject(tag: nat, value: seq<Byte>, post: seq<Byte>)
    requires ProperTag(tag) && |LengthBytes(|value|)| < 128
    ensures var first := EncodeTlv(tag, value); var es := Elements(first + post, 0);
      es != [] && es[0] == Element(tag, value, 0, |first|) && es[1..] == Elements(first + post, |first|)
  {
    hide ReadElement, LengthBytes, ProperTag, EncodeTlv;
    ElementReadsBack([], tag, value, post);
    assert [] + EncodeTlv(tag, value) + post == EncodeTlv(tag, value) + post;
  }

  lemma SplitOfOne(root: seq<Byte>)
    requires |LengthBytes(|root|)| < 128
    ensures var bpp := EncodeTlv(0xBF36, root); var begin := |bpp| - |root|;
      && begin >= 0 && RootAt(bpp, begin, root) && bpp[..begin] == EncodeTag(0xBF36) + EncodeLength(|root|)
      && (forall e :: e in Elements(root, 0) ==> Placed(root, e))
      && SplitOf(bpp) == Chunks(AllChunks(bpp, begin, root, Elements(root, 0)))
  {
    hide LengthBytes, ProperTag, AllChunks, Placed, EncodeTag, EncodeLength, Elements, ReadElement;
    PackageTags();
    OneObject(0xBF36, root);
    ElementsPlaced(root, 0);
    ElementsPlaced(EncodeTlv(0xBF36, root), 0);
  }

  /** The chunks of a written package: everything up to the end of the command object, then each segment whole, or its
      header and its objects one by one. */
  lemma WrittenPackage(command: seq<Byte>, parts: seq<Part>)
    requires AllProper(parts) && |LengthBytes(|command|)| < 128
    requires |LengthBytes(|EncodeTlv(0xBF23, command) + EncodeParts(parts)|)| < 128
    ensures var root := EncodeTlv(0xBF23, command) + EncodeParts(parts);
      SplitOf(EncodeTlv(0xBF36, root)) ==
        Chunks([EncodeTag(0xBF36) + EncodeLength(|root|) + EncodeTlv(0xBF23, command)] + SentOfAll(parts))
  {
    hide LengthBytes, ProperTag, AllProper, AllChunks, EncodeParts, SentOfAll, EncodeTag, EncodeLength, Placed;
    hide EncodeTlv, SplitOf, Elements;
    var first := EncodeTlv(0xBF23, command);
    var root := first + EncodeParts(parts);
    var bpp := EncodeTlv(0xBF36, root);
    var begin := |bpp| - |root|;
    PackageTags();
    SplitOfOne(root);
    FirstObject(0xBF23, command, EncodeParts(parts));
    var es := Elements(root, 0);
    FirstCommand(bpp, begin, root, es);
    LaterPlaced(root, |first|, es);
    ChunksOfParts(bpp, begin, root, first, parts);
    assert bpp[..begin + |first|] == bpp[..begin] + first;
  }

  lemma LaterPlaced(root: seq<Byte>, at: nat, es: seq<Element>)
    requires es != [] && es[1..] == Elements(root, at) && forall e :: e in es ==> Placed(root, e)
    ensures forall e :: e in Elements(root, at) ==> Placed(root, e)
  {
    hide Placed, Elements;
  }

  lemma PackageTags()
    ensures ProperTag(0xBF36) && ProperTag(0xBF23)
  {
  }

  /** A package is refused exactly when none of its objects is a bound profile package. */
  lemma RefusedPackages(bpp: seq<Byte>)
    ensures SplitOf(bpp).InvalidPackage? <==> forall e | e in Elements(bpp, 0) :: e.tag != 0xBF36
  {
    hide AllChunks, ReadElement, Elements;
    var es := Elements(bpp, 0);
    FirstIsOne(es, 0xBF36);
    if FirstWithTag(es, 0xBF36).Stop? {
      NoneWithTag(es, 0xBF36);
    }
  }

  lemma {:induction false} NoneWithTag(es: seq<Element>, tag: nat)
    requires FirstWithTag(es, tag).Stop?
    ensures forall e | e in es :: e.tag != tag
  {
    if es != [] {
      NoneWithTag(es[1..], tag);
      assert es == [es[0]] + es[1..];
    }
  }

  /** Some headers and their bytes. */
  lemma KnownHeaders()
    ensures EncodeTag(0x5A) == [0x5A] && EncodeTag(0xBF36) == [0xBF, 0x36]
    ensures EncodeLength(127) == [127] && EncodeLength(128) == [0x81, 128] && EncodeLength(300) == [0x82, 1, 44]
  {
    assert LengthBytes(1) == [1] && LengthBytes(128) == [128] && LengthBytes(300) == [1, 44];
  }

  /** An object whose tag takes up three bytes, and one whose length takes up two. */
  lemma KnownObjects(long: seq<Byte>, short: seq<Byte>)
    requires long == [0x9F, 0x81, 0x01, 0x01, 0xAA] && short == [0x5A, 0x81, 0x02, 0xAA, 0xBB, 0xCC]
    ensures ReadElement(long, 0) == Read(Element(0x9F8101, [0xAA], 0, 5))
    ensures ReadElement(short, 0) == Read(Element(0x5A, [0xAA, 0xBB], 0, 5))
  {
    hide BigEndian;
    assert MoreTag(long, 2, 256 * 0x9F + 0x81) == (0x9F8101, 3);
    assert MoreTag(long, 1, 0x9F) == (0x9F8101, 3);
    assert long[4..5] == [0xAA];
    OneByteSize(short);
    assert short[3..5] == [0xAA, 0xBB];
  }

  lemma OneByteSize(data: seq<Byte>)
    requires |data| > 2
    ensures BigEndian(data[2..3]) == data[2]
  {
    assert data[2..3] == [data[2]] && [data[2]][..0] == [];
  }

  // ---- Sending a command in pieces ----

  const ES10X_MSS := 120

  datatype Apdu = Apdu(parameter: Byte, sequence: Byte, payload: seq<Byte>)

  function Payloads(apdus: seq<Apdu>): seq<seq<Byte>> { seq(|apdus|, i requires 0 <= i < |apdus| => apdus[i].payload) }

  /** A command goes out whole and in order, in pieces of at most 120 bytes, full but for the last, which alone is
      marked as such. */
  method CommandApdus(data: seq<Byte>) returns (apdus: seq<Apdu>)
    ensures Concat(Payloads(apdus)) == data
    ensures forall i :: 0 <= i < |apdus| ==>
      apdus[i].sequence == i % 256 && apdus[i].parameter == (if i == |apdus| - 1 then 0x91 else 0x11)
    ensures forall i :: 0 <= i < |apdus| ==>
      0 < |apdus[i].payload| <= 120 && (i < |apdus| - 1 ==> |apdus[i].payload| == 120)
  {
    apdus := [];
    var offset := 0;
    while offset < |data|
      invariant 0 <= offset <= |data| && Concat(Payloads(apdus)) == data[..offset]
      invariant forall i :: 0 <= i < |apdus| ==> apdus[i].sequence == i % 256
      invariant forall i :: 0 <= i < |apdus| ==>
        apdus[i].parameter == (if i == |apdus| - 1 && offset == |data| then 0x91 else 0x11)
      invariant forall i :: 0 <= i < |apdus| ==> 0 < |apdus[i].payload| <= ES10X_MSS
      invariant forall i :: 0 <= i < |apdus| && (i < |apdus| - 1 || offset < |data|) ==> |apdus[i].payload| == ES10X_MSS
    {
      var end := if offset + ES10X_MSS < |data| then offset + ES10X_MSS else |data|;
      var chunk := data[offset..end];
      ghost var before := Payloads(apdus);
      apdus := apdus + [Apdu(if end == |data| then 0x91 else 0x11, |apdus| % 256, chunk)];
      assert Payloads(apdus) == before + [chunk];
      ConcatJoins(before, [chunk]);
      ConcatOne(chunk);
      assert data[..offset] + chunk == data[..end];
      offset := end;
    }
    assert data[..offset] == data;
  }
}

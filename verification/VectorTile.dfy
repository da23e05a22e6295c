/** Vector tiles: protobuf fields on the wire, and the command stream of line geometry
    (section 4.3 of the Mapbox Vector Tile specification 2.1). */
module VectorTile {

  import opened Arithmetic
  import opened Varint

  // ---- Zigzag integers ----

  // (value >> 1) ^ -(value & 1)
  function Unzigzag(value: nat): int {
    if value % 2 == 0 then value / 2 else -(value / 2) - 1
  }

  function Zigzag(n: int): nat {
    if n >= 0 then 2 * n else -2 * n - 1
  }

  lemma ZigzagIsBijection(n: int, value: nat)
    ensures Unzigzag(Zigzag(n)) == n && Zigzag(Unzigzag(value)) == value
  {
  }

  // ---- Lines ----

  type Point = (int, int)
  type Line = seq<Point>

  datatype Lines = Lines(lines: seq<Line>) | InvalidGeometry

  const MOVE_TO := 1
  const LINE_TO := 2

  // the points a command goes through, from the cursor on
  function Path(parameters: seq<nat>, cursor: Point, count: nat): seq<Point>
    requires |parameters| >= 2 * count
  {
    if count == 0 then []
    else
      var p := (cursor.0 + Unzigzag(parameters[0]), cursor.1 + Unzigzag(parameters[1]));
      [p] + Path(parameters[2..], p, count - 1)
  }

  function Kept(lines: seq<Line>, line: Line): seq<Line> {
    if |line| >= 2 then lines + [line] else lines
  }

  predicate Acceptable(kind: nat, count: nat, left: nat, line: Line) {
    && (kind == MOVE_TO || kind == LINE_TO) && count > 0 && 2 * count <= left
    && (kind == MOVE_TO ==> count == 1) && (kind == LINE_TO ==> line != [])
  }

  function Last(points: seq<Point>, cursor: Point): Point {
    if points == [] then cursor else points[|points| - 1]
  }

  // what a stream of commands draws, after the lines already finished and the one being drawn
  function Draw(commands: seq<nat>, cursor: Point, line: Line, lines: seq<Line>): Lines
    decreases |commands|
  {
    if commands == [] then Lines(Kept(lines, line))
    else
      var kind, count := commands[0] % 8, commands[0] / 8;
      if !Acceptable(kind, count, |commands| - 1, line) then InvalidGeometry
      else
        var path := Path(commands[1..], cursor, count);
        var rest := commands[1 + 2 * count..];
        if kind == MOVE_TO then Draw(rest, Last(path, cursor), path, Kept(lines, line))
        else Draw(rest, Last(path, cursor), line + path, lines)
  }

  lemma {:induction false} PathLength(parameters: seq<nat>, cursor: Point, count: nat)
    requires |parameters| >= 2 * count
    ensures |Path(parameters, cursor, count)| == count
  {
    if count > 0 {
      var p := (cursor.0 + Unzigzag(parameters[0]), cursor.1 + Unzigzag(parameters[1]));
      PathLength(parameters[2..], p, count - 1);
    }
  }

  lemma {:induction false} PathExtends(parameters: seq<nat>, cursor: Point, count: nat)
    requires |parameters| >= 2 * count + 2
    ensures var path := Path(parameters, cursor, count); var end := Last(path, cursor);
      Path(parameters, cursor, count + 1) ==
        path + [(end.0 + Unzigzag(parameters[2 * count]), end.1 + Unzigzag(parameters[2 * count + 1]))]
  {
    hide Unzigzag;
    if count > 0 {
      var p := (cursor.0 + Unzigzag(parameters[0]), cursor.1 + Unzigzag(parameters[1]));
      PathExtends(parameters[2..], p, count - 1);
    }
  }

  // the points of one command, a move beginning a new line
  method Follow(commands: seq<nat>, begin: nat, kind: nat, count: nat, x0: int, y0: int, line0: Line, lines0: seq<Line>)
    returns (x: int, y: int, line: Line, lines: seq<Line>)
    requires begin + 2 * count <= |commands| && count > 0 && (kind == MOVE_TO ==> count == 1)
    ensures var path := Path(commands[begin..], (x0, y0), count);
      (x, y) == Last(path, (x0, y0))
      && (if kind == MOVE_TO then line == path && lines == Kept(lines0, line0)
          else line == line0 + path && lines == lines0)
  {
    hide Unzigzag, Path;
    x, y, line, lines := x0, y0, line0, lines0;
    ghost var parameters := commands[begin..];
    NoPath(parameters, (x0, y0));
    for i := 0 to count
      invariant (x, y) == Last(Path(parameters, (x0, y0), i), (x0, y0))
      invariant kind != MOVE_TO || i == 0 ==> line == line0 + Path(parameters, (x0, y0), i) && lines == lines0
      invariant kind == MOVE_TO && i > 0 ==> line == Path(parameters, (x0, y0), i) && lines == Kept(lines0, line0)
    {
      PathExtends(parameters, (x0, y0), i);
      x := x + Unzigzag(commands[begin + 2 * i]);
      y := y + Unzigzag(commands[begin + 2 * i + 1]);
      if kind == MOVE_TO {
        if |line| >= 2 {
          lines := lines + [line];
        }
        line := [];
      }
      line := line + [(x, y)];
    }
  }

  lemma DrawStep(commands: seq<nat>, offset: nat, cursor: Point, line: Line, lines: seq<Line>)
    requires offset < |commands|
    ensures var (kind, count, left) := (commands[offset] % 8, commands[offset] / 8, |commands| - offset - 1);
      Draw(commands[offset..], cursor, line, lines)
      == if !Acceptable(kind, count, left, line) then InvalidGeometry
         else
           var path := Path(commands[offset + 1..], cursor, count);
           if kind == MOVE_TO then Draw(commands[offset + 1 + 2 * count..], Last(path, cursor), path, Kept(lines, line))
           else Draw(commands[offset + 1 + 2 * count..], Last(path, cursor), line + path, lines)
  {
    hide Path, Kept, Last;
    var rest := commands[offset..];
    assert rest[1..] == commands[offset + 1..];
    if Acceptable(commands[offset] % 8, commands[offset] / 8, |commands| - offset - 1, line) {
      var count := commands[offset] / 8;
      assert rest[1 + 2 * count..] == commands[offset + 1 + 2 * count..];
    }
  }

  method DecodeLines(commands: seq<nat>) returns (r: Lines)
    ensures r == Draw(commands, (0, 0), [], [])
  {
    hide Path, Draw;
    var lines: seq<Line>, line: Line := [], [];
    var x, y, offset := 0, 0, 0;
    assert commands[0..] == commands;
    while offset < |commands|
      invariant 0 <= offset <= |commands|
      invariant Draw(commands, (0, 0), [], []) == Draw(commands[offset..], (x, y), line, lines)
    {
      DrawStep(commands, offset, (x, y), line, lines);
      var command := commands[offset];
      offset := offset + 1;
      var kind, count := command % 8, command / 8;
      if (kind != MOVE_TO && kind != LINE_TO) || count == 0 || offset + 2 * count > |commands| {
        return InvalidGeometry;
      }
      if kind == MOVE_TO && count != 1 {
        return InvalidGeometry;
      }
      if kind == LINE_TO && line == [] {
        return InvalidGeometry;
      }
      x, y, line, lines := Follow(commands, offset, kind, count, x, y, line, lines);
      offset := offset + 2 * count;
    }
    assert commands[offset..] == [];
    DrawEnd((x, y), line, lines);
    if |line| >= 2 {
      lines := lines + [line];
    }
    return Lines(lines);
  }

  lemma DrawEnd(cursor: Point, line: Line, lines: seq<Line>)
    ensures Draw([], cursor, line, lines) == Lines(Kept(lines, line))
  {
  }

  lemma NoPath(parameters: seq<nat>, cursor: Point)
    ensures Path(parameters, cursor, 0) == []
  {
  }

  // ---- Writing lines ----

  function Moves(line: Line, cursor: Point): seq<nat> {
    if line == [] then []
    else [Zigzag(line[0].0 - cursor.0), Zigzag(line[0].1 - cursor.1)] + Moves(line[1..], line[0])
  }

  // one move to the first point, one command for all the others
  function EncodeLine(line: Line, cursor: Point): seq<nat>
    requires |line| >= 2
  {
    [8 + MOVE_TO] + Moves(line[..1], cursor) + [8 * (|line| - 1) + LINE_TO] + Moves(line[1..], line[0])
  }

  predicate Drawable(lines: seq<Line>) {
    forall i :: 0 <= i < |lines| ==> |lines[i]| >= 2
  }

  function EncodeLines(lines: seq<Line>, cursor: Point): seq<nat>
    requires Drawable(lines)
  {
    if lines == [] then [] else EncodeLine(lines[0], cursor) + EncodeLines(lines[1..], Last(lines[0], cursor))
  }

  lemma {:induction false} MovesReadBack(line: Line, cursor: Point, post: seq<nat>)
    ensures |Moves(line, cursor)| == 2 * |line|
    ensures Path(Moves(line, cursor) + post, cursor, |line|) == line
    decreases |line|
  {
    hide Zigzag, Unzigzag;
    if line != [] {
      var p := line[0];
      ZigzagIsBijection(p.0 - cursor.0, 0);
      ZigzagIsBijection(p.1 - cursor.1, 0);
      MovesReadBack(line[1..], p, post);
      assert (Moves(line, cursor) + post)[2..] == Moves(line[1..], p) + post;
    }
  }

  lemma CommandReadsBack(kind: nat, points: Line, cursor: Point, open: Line, lines: seq<Line>, post: seq<nat>)
    requires points != [] && ((kind == MOVE_TO && |points| == 1) || (kind == LINE_TO && open != []))
    ensures Draw([8 * |points| + kind] + Moves(points, cursor) + post, cursor, open, lines)
         == if kind == MOVE_TO then Draw(post, Last(points, cursor), points, Kept(lines, open))
           else Draw(post, Last(points, cursor), open + points, lines)
  {
    hide Path, Moves, Kept, Last;
    var n := |points|;
    var commands := [8 * n + kind] + Moves(points, cursor) + post;
    MovesReadBack(points, cursor, post);
    assert commands[0] % 8 == kind && commands[0] / 8 == n;
    assert commands[1..] == Moves(points, cursor) + post;
    assert commands[1 + 2 * n..] == post;
  }

  lemma LineReadsBack(line: Line, cursor: Point, open: Line, lines: seq<Line>, post: seq<nat>)
    requires |line| >= 2
    ensures Draw(EncodeLine(line, cursor) + post, cursor, open, lines) ==
      Draw(post, Last(line, cursor), line, Kept(lines, open))
  {
    hide Draw, Moves, Kept;
    var first := [8 + MOVE_TO] + Moves(line[..1], cursor);
    var second := [8 * (|line| - 1) + LINE_TO] + Moves(line[1..], line[0]) + post;
    CommandReadsBack(MOVE_TO, line[..1], cursor, open, lines, second);
    assert EncodeLine(line, cursor) + post == first + second;
    CommandReadsBack(LINE_TO, line[1..], line[0], line[..1], Kept(lines, open), post);
    assert line[..1] + line[1..] == line;
  }

  lemma {:induction false} LinesReadBack(lines: seq<Line>, cursor: Point, open: Line, before: seq<Line>)
    requires Drawable(lines)
    ensures Draw(EncodeLines(lines, cursor), cursor, open, before) == Lines(Kept(before, open) + lines)
    decreases |lines|
  {
    hide EncodeLine;
    if lines == [] {
      assert Kept(before, open) + lines == Kept(before, open);
    } else {
      LineReadsBack(lines[0], cursor, open, before, EncodeLines(lines[1..], Last(lines[0], cursor)));
      LinesReadBack(lines[1..], Last(lines[0], cursor), lines[0], Kept(before, open));
      assert (Kept(before, open) + [lines[0]]) + lines[1..] == Kept(before, open) + lines;
    }
  }

  /** Written lines of two points or more read back, the cursor carried from each to the next. */
  lemma LinesRoundTrip(lines: seq<Line>)
    requires Drawable(lines)
    ensures Draw(EncodeLines(lines, (0, 0)), (0, 0), [], []) == Lines(lines)
  {
    LinesReadBack(lines, (0, 0), [], []);
    assert [] + lines == lines;
  }

  // ---- Which streams draw anything ----

  datatype Command = MoveBy(step: Point) | LineBy(steps: seq<Point>)

  function StepWords(steps: seq<Point>): (words: seq<nat>)
    ensures |words| == 2 * |steps|
  {
    if steps == [] then [] else [Zigzag(steps[0].0), Zigzag(steps[0].1)] + StepWords(steps[1..])
  }

  function CommandWords(c: Command): seq<nat> {
    match c
    case MoveBy(step) => [9] + StepWords([step])
    case LineBy(steps) => [8 * |steps| + 2] + StepWords(steps)
  }

  function StreamWords(commands: seq<Command>): seq<nat> {
    if commands == [] then [] else CommandWords(commands[0]) + StreamWords(commands[1..])
  }

  // no empty line command, and none at all before the first move
  predicate Proper(commands: seq<Command>, moved: bool) {
    commands == [] || (if commands[0].MoveBy? then Proper(commands[1..], true)
                       else moved && commands[0].steps != [] && Proper(commands[1..], moved))
  }

  function Unstepped(words: seq<nat>, count: nat): (steps: seq<Point>)
    requires |words| >= 2 * count
    ensures |steps| == count
  {
    if count == 0 then [] else [(Unzigzag(words[0]), Unzigzag(words[1]))] + Unstepped(words[2..], count - 1)
  }

  lemma {:induction false} UnsteppedWrites(words: seq<nat>, count: nat)
    requires |words| >= 2 * count
    ensures StepWords(Unstepped(words, count)) == words[..2 * count]
  {
    if count > 0 {
      UnsteppedWrites(words[2..], count - 1);
      ZigzagIsBijection(0, words[0]);
      ZigzagIsBijection(0, words[1]);
      var steps := Unstepped(words, count);
      assert steps[1..] == Unstepped(words[2..], count - 1);
      assert words[..2 * count] == [words[0], words[1]] + words[2..][..2 * (count - 1)];
    }
  }

  lemma OneCommand(kind: nat, n: nat, words: seq<nat>, rest: seq<nat>, cursor: Point, line: Line, lines: seq<Line>)
    requires kind < 8 && |words| == 2 * n
    ensures |Path(words + rest, cursor, n)| == n
    ensures Draw([8 * n + kind] + words + rest, cursor, line, lines)
      == if !Acceptable(kind, n, |words + rest|, line) then InvalidGeometry
         else
           var path := Path(words + rest, cursor, n);
           if kind == MOVE_TO then Draw(rest, Last(path, cursor), path, Kept(lines, line))
           else Draw(rest, Last(path, cursor), line + path, lines)
  {
    hide Path, Kept, Last;
    var stream := [8 * n + kind] + words + rest;
    assert stream[0] % 8 == kind && stream[0] / 8 == n;
    assert stream[1..] == words + rest && stream[1 + 2 * n..] == rest;
    PathLength(words + rest, cursor, n);
  }

  lemma {:induction false} ProperIsDrawn(commands: seq<Command>, cursor: Point, line: Line, lines: seq<Line>)
    requires Proper(commands, line != [])
    ensures Draw(StreamWords(commands), cursor, line, lines).Lines?
    decreases |commands|
  {
    hide StepWords, Path, Draw;
    if commands == [] {
      DrawEnd(cursor, line, lines);
    } else {
      var c, rest := commands[0], StreamWords(commands[1..]);
      var steps := if c.MoveBy? then [c.step] else c.steps;
      var path := Path(StepWords(steps) + rest, cursor, |steps|);
      OneCommand(if c.MoveBy? then 1 else 2, |steps|, StepWords(steps), rest, cursor, line, lines);
      if c.MoveBy? {
        ProperIsDrawn(commands[1..], Last(path, cursor), path, Kept(lines, line));
      } else {
        ProperIsDrawn(commands[1..], Last(path, cursor), line + path, lines);
      }
    }
  }

  lemma Parts(stream: seq<nat>, n: nat)
    requires 1 + 2 * n <= |stream| && stream[0] / 8 == n
    ensures stream == [8 * n + stream[0] % 8] + stream[1..1 + 2 * n] + stream[1 + 2 * n..]
  {
  }

  lemma DrawnAccepts(stream: seq<nat>, cursor: Point, line: Line, lines: seq<Line>)
    requires stream != [] && Draw(stream, cursor, line, lines).Lines?
    ensures Acceptable(stream[0] % 8, stream[0] / 8, |stream| - 1, line)
  {
  }

  // the first command of an accepted stream, and where the cursor and the open line are after it
  lemma FirstCommand(stream: seq<nat>, cursor: Point, line: Line, lines: seq<Line>)
    returns (c: Command, rest: seq<nat>, cursor': Point, line': Line, lines': seq<Line>)
    requires stream != [] && Draw(stream, cursor, line, lines).Lines?
    ensures if c.MoveBy? then line' != [] else c.steps != [] && line != [] && line' != []
    ensures stream == CommandWords(c) + rest && Draw(rest, cursor', line', lines').Lines?
  {
    hide StepWords, Unstepped, Path, Draw;
    var kind, n := stream[0] % 8, stream[0] / 8;
    DrawnAccepts(stream, cursor, line, lines);
    Parts(stream, n);
    var words := stream[1..1 + 2 * n];
    rest := stream[1 + 2 * n..];
    var path := Path(words + rest, cursor, n);
    OneCommand(kind, n, words, rest, cursor, line, lines);
    UnsteppedWrites(words, n);
    assert words[..2 * n] == words;
    var steps := Unstepped(words, n);
    cursor' := Last(path, cursor);
    if kind == MOVE_TO {
      assert [steps[0]] == steps;
      c, line', lines' := MoveBy(steps[0]), path, Kept(lines, line);
    } else {
      c, line', lines' := LineBy(steps), line + path, lines;
    }
  }

  lemma {:induction false} DrawnIsProper(stream: seq<nat>, cursor: Point, line: Line, lines: seq<Line>)
    returns (commands: seq<Command>)
    requires Draw(stream, cursor, line, lines).Lines?
    ensures Proper(commands, line != []) && StreamWords(commands) == stream
    decreases |stream|
  {
    hide Draw, CommandWords;
    if stream == [] {
      commands := [];
    } else {
      var c, rest, cursor', line', lines' := FirstCommand(stream, cursor, line, lines);
      WordsNotEmpty(c);
      var others := DrawnIsProper(rest, cursor', line', lines');
      commands := [c] + others;
      assert commands[1..] == others;
    }
  }

  lemma WordsNotEmpty(c: Command)
    ensures |CommandWords(c)| > 0
  {
  }

  /** A stream is accepted exactly when it is a list of moves and line commands that begins with a move, a move being
      the word 9 and a line command 8 times its number of steps and 2, either followed by its steps in zigzag coding.
      */
  lemma AcceptedStreams(stream: seq<nat>)
    ensures Draw(stream, (0, 0), [], []).Lines? <==>
      exists commands :: Proper(commands, false) && StreamWords(commands) == stream
  {
    hide Draw, StreamWords, Proper;
    if Draw(stream, (0, 0), [], []).Lines? {
      var commands := DrawnIsProper(stream, (0, 0), [], []);
    }
    forall commands | Proper(commands, false) && StreamWords(commands) == stream
      ensures Draw(stream, (0, 0), [], []).Lines?
    {
      ProperIsDrawn(commands, (0, 0), [], []);
    }
  }

  /** The example of section 4.3.5.3 of the Mapbox Vector Tile specification. */
  lemma KnownLine()
    ensures Draw([9, 4, 4, 18, 0, 16, 16, 0], (0, 0), [], []) == Lines([[(2, 2), (2, 10), (10, 10)]])
  {
    hide Draw, EncodeLines;
    var line: Line := [(2, 2), (2, 10), (10, 10)];
    LinesRoundTrip([line]);
    KnownWords(line);
  }

  lemma KnownWords(line: Line)
    requires line == [(2, 2), (2, 10), (10, 10)]
    ensures EncodeLines([line], (0, 0)) == [9, 4, 4, 18, 0, 16, 16, 0]
  {
    assert line[..1] == [(2, 2)] && line[1..] == [(2, 10), (10, 10)];
    assert Moves([(2, 2)], (0, 0)) == [4, 4] + Moves([], (2, 2));
    assert Moves([(10, 10)], (2, 10)) == [16, 0] + Moves([], (10, 10));
    assert Moves(line[1..], (2, 2)) == [0, 16] + Moves([(10, 10)], (2, 10));
    assert EncodeLines([line], (0, 0)) == EncodeLine(line, (0, 0)) + EncodeLines([], (10, 10));
  }

  /** Zigzag coding alternates, and a lone point draws nothing. */
  lemma KnownPoint()
    ensures Unzigzag(0) == 0 && Unzigzag(1) == -1 && Unzigzag(2) == 1 && Unzigzag(3) == -2
    ensures Draw([9, 4, 4], (0, 0), [], []) == Lines([])
  {
  }

  // ---- Fields on the wire ----

  datatype Value = Number(n: nat) | Bytes(bytes: seq<Byte>)
  datatype Field = Field(number: nat, wire: nat, value: Value)
  datatype Fields = Fields(fields: seq<Field>) | InvalidMessage
  datatype OneField = OneField(field: Field, next: nat) | BadField

  function FieldAt(data: seq<Byte>, offset: nat): (r: OneField)
    ensures r.OneField? ==> offset < r.next <= |data|
  {
    ReadEnds(data, offset, MAX_BYTES);
    match ReadFrom(data, offset, MAX_BYTES)
    case Got(tag, next) =>
      var number, wire := tag / 8, tag % 8;
      if number == 0 then BadField
      else if wire == 0 then
        ReadEnds(data, next, MAX_BYTES);
        match ReadFrom(data, next, MAX_BYTES) {
          case Got(value, end) => OneField(Field(number, wire, Number(value)), end)
          case _ => BadField
        }
      else if wire == 2 then
        ReadEnds(data, next, MAX_BYTES);
        match ReadFrom(data, next, MAX_BYTES) {
          case Got(length, begin) => BytesAt(data, number, wire, begin, length)
          case _ => BadField
        }
      else if wire == 1 then BytesAt(data, number, wire, next, 8)
      else if wire == 5 then BytesAt(data, number, wire, next, 4)
      else BadField
    case _ => BadField
  }

  function BytesAt(data: seq<Byte>, number: nat, wire: nat, begin: nat, length: nat): OneField
    requires begin <= |data|
  {
    if begin + length > |data| then BadField
      else OneField(Field(number, wire, Bytes(data[begin..begin + length])), begin + length)
  }

  lemma {:induction false} ReadEnds(data: seq<Byte>, offset: nat, left: nat)
    ensures var r := ReadFrom(data, offset, left); r.Got? ==> offset < r.next <= |data|
    decreases left
  {
    if left > 0 && offset < |data| {
      ReadEnds(data, offset + 1, left - 1);
    }
  }

  function FieldsFrom(data: seq<Byte>, offset: nat): Fields
    decreases |data| - offset
  {
    if offset >= |data| then Fields([])
    else
      match FieldAt(data, offset)
      case BadField => InvalidMessage
      case OneField(field, next) =>
        match FieldsFrom(data, next)
        case InvalidMessage => InvalidMessage
        case Fields(fields) => Fields([field] + fields)
  }

  method ReadFields(data: seq<Byte>) returns (r: Fields)
    ensures r == FieldsFrom(data, 0)
  {
    hide FieldAt;
    var fields, offset := [], 0;
    while offset < |data|
      invariant 0 <= offset <= |data|
      invariant FieldsFrom(data, 0) ==
        (match FieldsFrom(data, offset)
         case InvalidMessage => InvalidMessage
         case Fields(rest) => Fields(fields + rest))
    {
      var one := ReadField(data, offset);
      if one.BadField? {
        return InvalidMessage;
      }
      fields := fields + [one.field];
      offset := one.next;
    }
    return Fields(fields);
  }

  method ReadField(data: seq<Byte>, start: nat) returns (r: OneField)
    ensures r == FieldAt(data, start)
  {
    hide ReadFrom;
    var tag := ReadVarint(data, start);
    if !tag.Got? {
      return BadField;
    }
    ReadEnds(data, start, MAX_BYTES);
    var number, wire, offset := tag.value / 8, tag.value % 8, tag.next;
    if number == 0 {
      return BadField;
    }
    if wire == 0 {
      var value := ReadVarint(data, offset);
      return if value.Got? then OneField(Field(number, wire, Number(value.value)), value.next) else BadField;
    } else if wire == 1 || wire == 2 || wire == 5 {
      var length;
      if wire == 2 {
        var size := ReadVarint(data, offset);
        if !size.Got? {
          return BadField;
        }
        ReadEnds(data, offset, MAX_BYTES);
        length, offset := size.value, size.next;
      } else {
        length := if wire == 1 then 8 else 4;
      }
      if offset + length > |data| {
        return BadField;
      }
      return OneField(Field(number, wire, Bytes(data[offset..offset + length])), offset + length);
    } else {
      return BadField;
    }
  }

  predicate WellFormed(f: Field) {
    && f.number > 0 && Fits(8 * f.number + f.wire, MAX_BYTES)
    && (match f.value
        case Number(n) => f.wire == 0 && Fits(n, MAX_BYTES)
        case Bytes(bytes) =>
          (f.wire == 1 && |bytes| == 8) || (f.wire == 5 && |bytes| == 4) || (f.wire == 2 && Fits(|bytes|, MAX_BYTES)))
  }

  function EncodeField(f: Field): seq<Byte> {
    Encode(8 * f.number + f.wire) +
    (match f.value
     case Number(n) => Encode(n)
     case Bytes(bytes) => if f.wire == 2 then Encode(|bytes|) + bytes else bytes)
  }

  function EncodeFields(fields: seq<Field>): seq<Byte> {
    if fields == [] then [] else EncodeField(fields[0]) + EncodeFields(fields[1..])
  }

  lemma NumberReadsBack(pre: seq<Byte>, f: Field, post: seq<Byte>)
    requires WellFormed(f) && f.value.Number?
    ensures FieldAt(pre + EncodeField(f) + post, |pre|) == OneField(f, |pre| + |EncodeField(f)|)
  {
    hide ReadFrom, Encode, Fits, BytesAt;
    var data := pre + EncodeField(f) + post;
    var tag, rest := Encode(8 * f.number + f.wire), Encode(f.value.n);
    ReadsBack(pre, 8 * f.number + f.wire, rest + post, MAX_BYTES);
    assert data == pre + tag + (rest + post);
    ReadsBack(pre + tag, f.value.n, post, MAX_BYTES);
    assert data == (pre + tag) + rest + post;
  }

  lemma BytesReadBack(pre: seq<Byte>, f: Field, post: seq<Byte>)
    requires WellFormed(f) && f.value.Bytes?
    ensures FieldAt(pre + EncodeField(f) + post, |pre|) == OneField(f, |pre| + |EncodeField(f)|)
  {
    hide ReadFrom, Encode, Fits;
    var data, bytes := pre + EncodeField(f) + post, f.value.bytes;
    var tag := Encode(8 * f.number + f.wire);
    var size := if f.wire == 2 then Encode(|bytes|) else [];
    ReadsBack(pre, 8 * f.number + f.wire, size + bytes + post, MAX_BYTES);
    assert data == pre + tag + (size + bytes + post);
    if f.wire == 2 {
      ReadsBack(pre + tag, |bytes|, bytes + post, MAX_BYTES);
      assert data == (pre + tag) + size + (bytes + post);
    }
    var begin := |pre + tag + size|;
    assert data[begin..begin + |bytes|] == bytes;
  }

  lemma FieldReadsBack(pre: seq<Byte>, f: Field, post: seq<Byte>)
    requires WellFormed(f)
    ensures FieldAt(pre + EncodeField(f) + post, |pre|) == OneField(f, |pre| + |EncodeField(f)|)
  {
    hide FieldAt, WellFormed, EncodeField;
    if f.value.Number? {
      NumberReadsBack(pre, f, post);
    } else {
      BytesReadBack(pre, f, post);
    }
  }

  /** Written fields read back, whatever bytes stand before them. */
  lemma {:induction false} FieldsReadBack(pre: seq<Byte>, fields: seq<Field>)
    requires forall f :: f in fields ==> WellFormed(f)
    ensures FieldsFrom(pre + EncodeFields(fields), |pre|) == Fields(fields)
    decreases |fields|
  {
    hide FieldAt, WellFormed, EncodeField;
    var data := pre + EncodeFields(fields);
    if fields != [] {
      var first := EncodeField(fields[0]);
      FieldReadsBack(pre, fields[0], EncodeFields(fields[1..]));
      assert data == pre + first + EncodeFields(fields[1..]) == (pre + first) + EncodeFields(fields[1..]);
      FieldsReadBack(pre + first, fields[1..]);
      assert [fields[0]] + fields[1..] == fields;
      assert |pre| < |data| by { FieldNotEmpty(fields[0]); }
    }
  }

  lemma FieldNotEmpty(f: Field)
    ensures |EncodeField(f)| > 0
  {
  }

  /** The examples of the Protocol Buffers encoding guide, a field each of the four wire types that are read. */
  lemma KnownFields()
    ensures FieldsFrom([0x08, 0x96, 0x01], 0) == Fields([Field(1, 0, Number(150))])
    ensures FieldsFrom([0x12, 3, 0x74, 0x65, 0x73], 0) == Fields([Field(2, 2, Bytes([0x74, 0x65, 0x73]))])
    ensures FieldsFrom([0x0D, 1, 2, 3, 4], 0) == Fields([Field(1, 5, Bytes([1, 2, 3, 4]))])
    ensures FieldsFrom([0x19, 1, 2, 3, 4, 5, 6, 7, 8], 0) == Fields([Field(3, 1, Bytes([1, 2, 3, 4, 5, 6, 7, 8]))])
  {
    hide FieldsFrom;
    OneFieldReadsBack(Field(1, 0, Number(150)), [0x08, 0x96, 0x01]);
    OneFieldReadsBack(Field(2, 2, Bytes([0x74, 0x65, 0x73])), [0x12, 3, 0x74, 0x65, 0x73]);
    OneFieldReadsBack(Field(1, 5, Bytes([1, 2, 3, 4])), [0x0D, 1, 2, 3, 4]);
    OneFieldReadsBack(Field(3, 1, Bytes([1, 2, 3, 4, 5, 6, 7, 8])), [0x19, 1, 2, 3, 4, 5, 6, 7, 8]);
  }

  lemma OneFieldReadsBack(f: Field, data: seq<Byte>)
    requires WellFormed(f) && EncodeField(f) == data
    ensures FieldsFrom(data, 0) == Fields([f])
  {
    hide EncodeField, WellFormed, FieldsFrom;
    FieldsReadBack([], [f]);
    assert [f][1..] == [];
    assert EncodeFields([f]) == data + EncodeFields([]) == data;
    assert [] + data == data;
  }

  /** Field number zero and the other wire types are refused, whatever follows. */
  lemma RefusedTags(tag: Byte, rest: seq<Byte>)
    requires tag < 128 && (tag < 8 || tag % 8 in {3, 4, 6, 7})
    ensures FieldsFrom([tag] + rest, 0).InvalidMessage?
  {
    var data := [tag] + rest;
    assert ReadFrom(data, 0, MAX_BYTES) == Got(tag, 1);
  }
}

/** Tailing container log files: incremental reads of a growing file, and the fragments that
    are put together into records.  A character is a byte. */
module LogTail {
  import opened Options

  const LOG_LINE_MAX: nat := 16384

  /** Severity, and the parsed timestamp, are derived from these. */
  datatype LogRecord = LogRecord(ts: string, stream: string, body: string)

  datatype DockerLine = DockerLine(log: string, stream: string, time: string)

  /** The JSON decoder of Docker lines; none for text it cannot decode. */
  type Decoder = string -> Option<DockerLine>

  // ------------------------------------------------------------------- one line

  /** The first position of `c` at or after `from`. */
  function IndexOf(s: string, c: char, from: nat): (r: Option<nat>)
    requires from <= |s|
    ensures r.Some? ==> from <= r.value < |s|
    decreases |s| - from
  {
    if from == |s| then None
    else if s[from] == c then Some(from)
    else IndexOf(s, c, from + 1)
  }

  lemma {:induction false} IndexOfIsFirst(s: string, c: char, from: nat)
    requires from <= |s|
    ensures match IndexOf(s, c, from)
            case None => forall i | from <= i < |s| :: s[i] != c
            case Some(j) => s[j] == c && forall i | from <= i < j :: s[i] != c
    decreases |s| - from
  {
    if from < |s| && s[from] != c { IndexOfIsFirst(s, c, from + 1); }
  }

  /** A fragment of a log message; `last` when it completes the message. */
  datatype Piece = Piece(ts: string, stream: string, text: string, last: bool)

  predicate EndsLine(s: string) {
    s != "" && s[|s| - 1] == '\n'
  }

  /** `<ts> <stream> <P|F> <content>`. */
  function CriPiece(line: string): Option<Piece> {
    match IndexOf(line, ' ', 0)
    case None => None
    case Some(p1) => CriFrom(line, p1)
  }

  function CriFrom(line: string, p1: nat): Option<Piece>
    requires p1 < |line|
  {
    match IndexOf(line, ' ', p1 + 1)
    case None => None
    case Some(p2) =>
      match IndexOf(line, ' ', p2 + 1)
      case None => None
      case Some(p3) => Some(PieceBetween(line, p1, p2, p3))
  }

  /** The fragment of a CRI line with its first spaces at the three positions. */
  function PieceBetween(line: string, p1: nat, p2: nat, p3: nat): Piece
    requires p1 < p2 < p3 < |line|
  {
    Piece(line[..p1], line[p1 + 1..p2], line[p3 + 1..], line[p2 + 1..p3] != "P")
  }

  /** `{"log":…,"stream":…,"time":…}`; a line break at the end of the log text completes it. */
  function DockerPiece(decode: Decoder, line: string): Option<Piece> {
    match decode(line)
    case None => None
    case Some(d) =>
      if d.time == "" then None
      else if EndsLine(d.log) then Some(Piece(d.time, d.stream, d.log[..|d.log| - 1], true))
      else Some(Piece(d.time, d.stream, d.log, false))
  }

  function PieceOf(decode: Decoder, line: string): Option<Piece> {
    if line != "" && line[0] == '{' then DockerPiece(decode, line) else CriPiece(line)
  }

  /** An empty body makes no record, a long one is cut. */
  function Finish(ts: string, stream: string, body: string): seq<LogRecord> {
    if body == "" then []
    else [LogRecord(ts, stream, if |body| > LOG_LINE_MAX then body[..LOG_LINE_MAX] else body)]
  }

  /** What a line does to the carried fragment: the records it completes and the new carry. */
  datatype Outcome = Outcome(records: seq<LogRecord>, partial: string)

  function ParseLine(decode: Decoder, line: string, partial: string): Outcome {
    match PieceOf(decode, line)
    case None => Outcome([], partial)
    case Some(p) =>
      var body := partial + p.text;
      if !p.last && |body| < LOG_LINE_MAX then Outcome([], body)
      else Outcome(Finish(p.ts, p.stream, body), "")
  }

  // ------------------------------------------------------------------- the batch

  /** The complete lines of a text from `pos` on, without their line breaks. */
  function LinesFrom(s: string, pos: nat): seq<string>
    requires pos <= |s|
    decreases |s| - pos
  {
    match IndexOf(s, '\n', pos)
    case None => []
    case Some(j) => [s[pos..j]] + LinesFrom(s, j + 1)
  }

  /** Where those lines end: just after the last line break, or at `pos`. */
  function EndFrom(s: string, pos: nat): (end: nat)
    requires pos <= |s|
    ensures pos <= end <= |s|
    decreases |s| - pos
  {
    match IndexOf(s, '\n', pos)
    case None => pos
    case Some(j) => EndFrom(s, j + 1)
  }

  lemma {:induction false} EndFromIsLastBreak(s: string, pos: nat)
    requires pos <= |s|
    ensures var end := EndFrom(s, pos);
            && (end > pos ==> s[end - 1] == '\n')
            && forall i | end <= i < |s| :: s[i] != '\n'
    decreases |s| - pos
  {
    IndexOfIsFirst(s, '\n', pos);
    match IndexOf(s, '\n', pos)
    case None =>
    case Some(j) => EndFromIsLastBreak(s, j + 1);
  }

  /** The lines taken one after the other. */
  function ParseLines(decode: Decoder, lines: seq<string>, partial: string): Outcome {
    if lines == [] then Outcome([], partial)
    else
      var first := ParseLine(decode, lines[0], partial);
      var rest := ParseLines(decode, lines[1..], first.partial);
      Outcome(first.records + rest.records, rest.partial)
  }

  // ----------------------------------------------------------------- the tail file

  datatype Tail = Tail(offset: nat, partial: string)

  /** One read: a file that shrank is read from its start. */
  function StartOf(content: string, offset: nat): (from: nat)
    ensures from <= |content|
  {
    if |content| < offset then 0 else offset
  }

  /** Where a read leaves the tail. */
  function TailAfter(decode: Decoder, content: string, t: Tail): Tail {
    var from := StartOf(content, t.offset);
    Tail(EndFrom(content, from), ParseLines(decode, LinesFrom(content, from), t.partial).partial)
  }

  /** The records a read makes. */
  function RecordsOf(decode: Decoder, content: string, t: Tail): seq<LogRecord> {
    ParseLines(decode, LinesFrom(content, StartOf(content, t.offset)), t.partial).records
  }

  class TailFile {
    const decode: Decoder
    var offset: nat
    var partial: string

    constructor (decode: Decoder, offset: nat)
      ensures this.decode == decode && this.offset == offset && partial == ""
    {
      this.decode, this.offset, partial := decode, offset, "";
    }

    ghost function State(): Tail
      reads this
    {
      Tail(offset, partial)
    }

    /** Takes one line, appending to or emptying the carried fragment. */
    method ParseLogLine(line: string) returns (rec: Option<LogRecord>)
      modifies this`partial
      ensures Outcome(if rec.Some? then [rec.value] else [], partial) == ParseLine(decode, line, old(partial))
    {
      var piece := PieceOf(decode, line);
      if piece.None? {
        return None;
      }
      var p := piece.value;
      partial := partial + p.text;
      if !p.last && |partial| < LOG_LINE_MAX {
        return None;
      }
      var body := partial;
      partial := "";
      if body == "" {
        return None;
      }
      if |body| > LOG_LINE_MAX {
        body := body[..LOG_LINE_MAX];
      }
      return Some(LogRecord(p.ts, p.stream, body));
    }

    /** Takes one line and sends on the record it completes, if any and if there is room. */
    method Consume(line: string, room: Room, sent: seq<LogRecord>, ghost made: seq<LogRecord>, count: nat)
        returns (sent': seq<LogRecord>, ghost made': seq<LogRecord>, count': nat)
      requires Counts(made, room, count, sent)
      modifies this`partial
      ensures made' == made + ParseLine(decode, line, old(partial)).records
      ensures Counts(made', room, count', sent')
      ensures partial == ParseLine(decode, line, old(partial)).partial
    {
      sent', made', count' := sent, made, count;
      var rec := ParseLogLine(line);
      if rec.Some? {
        made', count' := made + [rec.value], count + 1;
        if room(count) {
          sent' := sent + [rec.value];
        }
      }
    }

    /** Takes the complete lines from `from` on. */
    method ReadLines(content: string, from: nat, room: Room)
        returns (sent: seq<LogRecord>, ghost made: seq<LogRecord>, read: nat)
      requires from <= |content|
      modifies this`partial
      ensures from + read == EndFrom(content, from)
      ensures Outcome(made, partial) == Rest(decode, content, from, old(partial))
      ensures sent == Delivered(made, room)
    {
      ghost var all := Rest(decode, content, from, partial);
      var count, pos := 0, from;
      sent, made := [], [];
      var end := IndexOf(content, '\n', pos);
      while end.Some?
        invariant Reading(decode, content, from, pos, partial, made, all)
        invariant end == IndexOf(content, '\n', pos)
        invariant Counts(made, room, count, sent)
        decreases |content| - pos
      {
        OneMoreLine(decode, content, from, pos, end.value, partial, made, all);
        sent, made, count := Consume(content[pos..end.value], room, sent, made, count);
        pos := end.value + 1;
        end := IndexOf(content, '\n', pos);
      }
      NoMoreLines(decode, content, from, pos, partial, made, all);
      read := pos - from;
    }

    /** Reads from the offset to the last complete line.  Records for which the channel has no
        room are dropped; offset and carry move on as if they had been sent. */
    method ReadFile(content: string, room: Room) returns (sent: seq<LogRecord>)
      modifies this
      ensures sent == Delivered(RecordsOf(decode, content, old(State())), room)
      ensures State() == TailAfter(decode, content, old(State()))
    {
      if |content| < offset {
        offset := 0;
      }
      var read: nat;
      ghost var made: seq<LogRecord>;
      sent, made, read := ReadLines(content, offset, room);
      offset := offset + read;
    }
  }

  /** Whether the channel has room for the n-th record of a scan. */
  type Room = nat -> bool

  /** The records of a scan that are not dropped, in order. */
  function Delivered(made: seq<LogRecord>, room: Room): seq<LogRecord> {
    if made == [] then []
    else
      var n := |made| - 1;
      Delivered(made[..n], room) + if room(n) then [made[n]] else []
  }

  ghost predicate Counts(made: seq<LogRecord>, room: Room, count: nat, sent: seq<LogRecord>) {
    count == |made| && sent == Delivered(made, room)
  }

  /** With room for every record nothing is dropped. */
  lemma {:induction false} RoomForAll(made: seq<LogRecord>, room: Room)
    requires forall n: nat | n < |made| :: room(n)
    ensures Delivered(made, room) == made
    decreases |made|
  {
    if made != [] {
      RoomForAll(made[..|made| - 1], room);
      assert made == made[..|made| - 1] + [made[|made| - 1]];
    }
  }

  /** What the lines from `pos` on make. */
  function Rest(decode: Decoder, content: string, pos: nat, partial: string): Outcome
    requires pos <= |content|
  {
    ParseLines(decode, LinesFrom(content, pos), partial)
  }

  lemma Associative<T>(a: seq<T>, b: seq<T>, c: seq<T>)
    ensures a + (b + c) == (a + b) + c
  {}

  /** What is done and what the rest will make are everything. */
  predicate Remains(decode: Decoder, content: string, pos: nat, partial: string, done: seq<LogRecord>, all: Outcome)
    requires pos <= |content|
  {
    var rest := Rest(decode, content, pos, partial);
    all == Outcome(done + rest.records, rest.partial)
  }

  /** The lines from `from` up to `pos` have been taken. */
  predicate Reading(decode: Decoder, content: string, from: nat, pos: nat, partial: string,
                    done: seq<LogRecord>, all: Outcome)
  {
    && from <= pos <= |content| && EndFrom(content, pos) == EndFrom(content, from)
    && Remains(decode, content, pos, partial, done, all)
  }

  lemma NoMoreLines(decode: Decoder, content: string, from: nat, pos: nat, partial: string,
                    done: seq<LogRecord>, all: Outcome)
    requires Reading(decode, content, from, pos, partial, done, all) && IndexOf(content, '\n', pos) == None
    ensures EndFrom(content, from) == pos && all == Outcome(done, partial)
  {
    assert LinesFrom(content, pos) == [];
  }

  lemma OneMoreLine(decode: Decoder, content: string, from: nat, pos: nat, end: nat, partial: string,
                    done: seq<LogRecord>, all: Outcome)
    requires Reading(decode, content, from, pos, partial, done, all) && IndexOf(content, '\n', pos) == Some(end)
    ensures pos <= end < |content|
    ensures var first := ParseLine(decode, content[pos..end], partial);
            Reading(decode, content, from, end + 1, first.partial, done + first.records, all)
  {
    var lines, first := LinesFrom(content, pos), ParseLine(decode, content[pos..end], partial);
    NextLine(content, pos, end);
    assert lines[0] == content[pos..end] && lines[1..] == LinesFrom(content, end + 1);
    Associative(done, first.records, Rest(decode, content, end + 1, first.partial).records);
  }

  // ------------------------------------------------- incremental reading is batch reading

  lemma {:induction false} IndexInPrefix(s: string, t: string, c: char, i: nat)
    requires s <= t && i <= |s| && IndexOf(s, c, i).Some?
    ensures IndexOf(t, c, i) == IndexOf(s, c, i)
    decreases |s| - i
  {
    if i < |s| && s[i] != c { IndexInPrefix(s, t, c, i + 1); }
  }

  lemma {:induction false} LinesOfGrown(s: string, t: string, pos: nat)
    requires s <= t && pos <= |s|
    ensures LinesFrom(t, pos) == LinesFrom(s, pos) + LinesFrom(t, EndFrom(s, pos))
    ensures EndFrom(t, pos) == EndFrom(t, EndFrom(s, pos))
    decreases |s| - pos
  {
    match IndexOf(s, '\n', pos)
    case None =>
      assert LinesFrom(s, pos) == [] && EndFrom(s, pos) == pos;
    case Some(j) =>
      IndexInPrefix(s, t, '\n', pos);
      LinesOfGrown(s, t, j + 1);
      NextLine(s, pos, j);
      NextLine(t, pos, j);
      assert s[pos..j] == t[pos..j];
      Associative([s[pos..j]], LinesFrom(s, j + 1), LinesFrom(t, EndFrom(s, j + 1)));
  }

  lemma NextLine(s: string, pos: nat, j: nat)
    requires pos <= |s| && IndexOf(s, '\n', pos) == Some(j)
    ensures LinesFrom(s, pos) == [s[pos..j]] + LinesFrom(s, j + 1) && EndFrom(s, pos) == EndFrom(s, j + 1)
  {}

  lemma {:induction false} ParseLinesAppend(decode: Decoder, a: seq<string>, b: seq<string>, partial: string)
    ensures var first := ParseLines(decode, a, partial);
            var rest := ParseLines(decode, b, first.partial);
            ParseLines(decode, a + b, partial) == Outcome(first.records + rest.records, rest.partial)
    decreases |a|
  {
    if a == [] {
      assert a + b == b;
    } else {
      var line := ParseLine(decode, a[0], partial);
      ParseLinesAppend(decode, a[1..], b, line.partial);
      var more := ParseLines(decode, a[1..], line.partial);
      var rest := ParseLines(decode, b, more.partial);
      assert (a + b)[0] == a[0] && (a + b)[1..] == a[1..] + b;
      Associative(line.records, more.records, rest.records);
    }
  }

  /** Reading a file and, after it has grown, reading on from where that stopped is the same
      as reading it once when it has grown. */
  lemma ReadOn(decode: Decoder, before: string, after: string, t: Tail)
    requires before <= after && t.offset <= |before|
    ensures var mid := TailAfter(decode, before, t);
            && mid.offset <= |before|
            && RecordsOf(decode, after, t) == RecordsOf(decode, before, t) + RecordsOf(decode, after, mid)
            && TailAfter(decode, after, t) == TailAfter(decode, after, mid)
  {
    LinesOfGrown(before, after, t.offset);
    ParseLinesAppend(decode, LinesFrom(before, t.offset), LinesFrom(after, EndFrom(before, t.offset)), t.partial);
  }

  /** All the records of a series of reads, and where they leave the tail. */
  function ReadAll(decode: Decoder, contents: seq<string>, t: Tail): (seq<LogRecord>, Tail) {
    if contents == [] then ([], t)
    else
      var (records, t') := ReadAll(decode, contents[1..], TailAfter(decode, contents[0], t));
      (RecordsOf(decode, contents[0], t) + records, t')
  }

  predicate Growing(contents: seq<string>) {
    forall i, j | 0 <= i < j < |contents| :: contents[i] <= contents[j]
  }

  /** Incremental tailing is batch reading: however a growing file is scanned, the records of
      all scans are those of one pass over the complete lines after the starting offset, and
      the tail ends where that pass ends. */
  lemma {:induction false} IncrementalIsBatch(decode: Decoder, contents: seq<string>, t: Tail)
    requires contents != [] && Growing(contents) && t.offset <= |contents[0]|
    ensures var last := contents[|contents| - 1];
            ReadAll(decode, contents, t) == (RecordsOf(decode, last, t), TailAfter(decode, last, t))
    decreases |contents|
  {
    var mid := TailAfter(decode, contents[0], t);
    if |contents| == 1 {
      assert ReadAll(decode, contents[1..], mid) == ([], mid);
      assert RecordsOf(decode, contents[0], t) + [] == RecordsOf(decode, contents[0], t);
    } else {
      var last := contents[|contents| - 1];
      ReadOn(decode, contents[0], last, t);
      assert contents[0] <= contents[1];
      assert contents[1..][|contents| - 2] == last;
      IncrementalIsBatch(decode, contents[1..], mid);
    }
  }

  /** A read ends just after a line break or where it started, and leaves no complete line. */
  lemma OffsetOnLineBoundary(decode: Decoder, contents: seq<string>, t: Tail)
    requires contents != [] && Growing(contents) && t.offset <= |contents[0]|
    ensures var last := contents[|contents| - 1];
            var end := ReadAll(decode, contents, t).1.offset;
            && t.offset <= end <= |last|
            && (end > t.offset ==> last[end - 1] == '\n')
            && forall i | end <= i < |last| :: last[i] != '\n'
  {
    IncrementalIsBatch(decode, contents, t);
    assert contents[0] <= contents[|contents| - 1];
    EndFromIsLastBreak(contents[|contents| - 1], t.offset);
  }

  // -------------------------------------------------------------------- fragments

  /** The carry stays below the line limit, and every record has a body within it. */
  lemma {:induction false} CarryAndBodiesBounded(decode: Decoder, lines: seq<string>, partial: string)
    requires |partial| < LOG_LINE_MAX
    ensures var o := ParseLines(decode, lines, partial);
            && |o.partial| < LOG_LINE_MAX
            && forall r | r in o.records :: 0 < |r.body| <= LOG_LINE_MAX
    decreases |lines|
  {
    if lines != [] {
      CarryAndBodiesBounded(decode, lines[1..], ParseLine(decode, lines[0], partial).partial);
    }
  }

  function CriLine(p: Piece): string {
    p.ts + " " + (p.stream + " " + ((if p.last then "F" else "P") + " " + p.text))
  }

  /** A fragment whose CRI line reads back: no spaces before the text, and not a Docker line. */
  predicate CriReadable(p: Piece) {
    ' ' !in p.ts && ' ' !in p.stream && (p.ts != "" ==> p.ts[0] != '{')
  }

  lemma {:induction false} IndexAfter(s: string, c: char, from: nat, end: nat)
    requires from <= end < |s| && s[end] == c && forall i | from <= i < end :: s[i] != c
    ensures IndexOf(s, c, from) == Some(end)
    decreases end - from
  {
    if from < end { IndexAfter(s, c, from + 1, end); }
  }

  /** Reading a CRI line gives back the fragment it was written from. */
  lemma CriLineReadsBack(decode: Decoder, p: Piece)
    requires CriReadable(p)
    ensures PieceOf(decode, CriLine(p)) == Some(p)
  {
    var line, flag := CriLine(p), if p.last then "F" else "P";
    var p1 := |p.ts|;
    var p2 := p1 + 1 + |p.stream|;
    CriLineLayout(p, line, flag, p1, p2);
    CriSpaces(p, line, flag, p1, p2);
    CriPieceAt(line, p1, p2, p2 + 2);
  }

  lemma CriPieceAt(line: string, p1: nat, p2: nat, p3: nat)
    requires p1 < p2 < p3 < |line| && IndexOf(line, ' ', 0) == Some(p1)
    requires IndexOf(line, ' ', p1 + 1) == Some(p2) && IndexOf(line, ' ', p2 + 1) == Some(p3)
    ensures CriPiece(line) == Some(PieceBetween(line, p1, p2, p3))
  {}

  lemma CriSpaces(p: Piece, line: string, flag: string, p1: nat, p2: nat)
    requires CriReadable(p) && flag == (if p.last then "F" else "P") && p1 == |p.ts| && p2 == p1 + 1 + |p.stream|
    requires line == p.ts + " " + (p.stream + " " + (flag + " " + p.text))
    ensures IndexOf(line, ' ', 0) == Some(p1)
    ensures IndexOf(line, ' ', p1 + 1) == Some(p2)
    ensures IndexOf(line, ' ', p2 + 1) == Some(p2 + 2)
  {
    CriLineLayout(p, line, flag, p1, p2);
    IndexAfter(line, ' ', 0, p1);
    IndexAfter(line, ' ', p1 + 1, p2);
    IndexAfter(line, ' ', p2 + 1, p2 + 2);
  }

  lemma CriLineLayout(p: Piece, line: string, flag: string, p1: nat, p2: nat)
    requires flag == (if p.last then "F" else "P") && p1 == |p.ts| && p2 == p1 + 1 + |p.stream|
    requires line == p.ts + " " + (p.stream + " " + (flag + " " + p.text))
    ensures p2 + 2 < |line| && line[p1] == ' ' && line[p2] == ' ' && line[p2 + 2] == ' '
    ensures line[..p1] == p.ts && line[p1 + 1..p2] == p.stream
    ensures line[p2 + 1..p2 + 2] == flag && line[p2 + 3..] == p.text
    ensures forall i | 0 <= i < p1 :: line[i] == p.ts[i]
    ensures forall i | p1 < i < p2 :: line[i] == p.stream[i - p1 - 1]
    ensures line[p2 + 1] == flag[0]
  {}

  function Texts(ps: seq<Piece>): string {
    if ps == [] then "" else ps[0].text + Texts(ps[1..])
  }

  /** A Docker line reads back: its text is the log text, of which a line break at the end is
      cut off and completes the message. */
  lemma DockerLineReadsBack(decode: Decoder, line: string)
    requires line != "" && line[0] == '{'
    ensures match PieceOf(decode, line)
            case None => decode(line).None? || decode(line).value.time == ""
            case Some(p) =>
              && decode(line).Some?
              && var d := decode(line).value;
                 && d.time == p.ts != "" && d.stream == p.stream
                 && d.log == p.text + (if p.last then "\n" else "")
                 && (!p.last ==> !EndsLine(d.log))
  {
    if decode(line).Some? && EndsLine(decode(line).value.log) {
      var log := decode(line).value.log;
      assert log == log[..|log| - 1] + "\n";
    }
  }

  /** The lines are readable and say these fragments. */
  predicate Says(decode: Decoder, lines: seq<string>, ps: seq<Piece>) {
    |lines| == |ps| && forall i | 0 <= i < |ps| :: PieceOf(decode, lines[i]) == Some(ps[i])
  }

  function CriLines(ps: seq<Piece>): (r: seq<string>)
    ensures |r| == |ps| && forall i | 0 <= i < |ps| :: r[i] == CriLine(ps[i])
  {
    seq(|ps|, i requires 0 <= i < |ps| => CriLine(ps[i]))
  }

  lemma CriLinesSay(decode: Decoder, ps: seq<Piece>)
    requires forall p | p in ps :: CriReadable(p)
    ensures Says(decode, CriLines(ps), ps)
  {
    forall i | 0 <= i < |ps| ensures PieceOf(decode, CriLine(ps[i])) == Some(ps[i]) {
      assert ps[i] in ps;
      CriLineReadsBack(decode, ps[i]);
    }
  }

  /** Fragment reassembly, whatever the lines are written in: fragments that only the last one
      completes, with a text within the limit, give exactly one record whose body is the whole
      text, and leave no carry. */
  lemma {:induction false} FragmentsReassemble(decode: Decoder, lines: seq<string>, ps: seq<Piece>, partial: string)
    requires ps != [] && Says(decode, lines, ps)
    requires forall i | 0 <= i < |ps| :: ps[i].last <==> i == |ps| - 1
    requires 0 < |partial + Texts(ps)| < LOG_LINE_MAX
    ensures var end := ps[|ps| - 1];
            ParseLines(decode, lines, partial)
              == Outcome([LogRecord(end.ts, end.stream, partial + Texts(ps))], "")
    decreases |ps|
  {
    var p := ps[0];
    var body := partial + p.text;
    assert partial + Texts(ps) == body + Texts(ps[1..]);
    assert ParseLine(decode, lines[0], partial) ==
      if p.last then Outcome([LogRecord(p.ts, p.stream, body)], "") else Outcome([], body);
    if |ps| > 1 {
      FragmentsReassemble(decode, lines[1..], ps[1..], body);
    } else {
      assert lines[1..] == [] && body + "" == body;
    }
  }

  // ------------------------------------------------------------------ conservation

  /** The message bodies the lines complete, before they are cut. */
  function Bodies(decode: Decoder, lines: seq<string>, partial: string): seq<string> {
    if lines == [] then []
    else
      match PieceOf(decode, lines[0])
      case None => Bodies(decode, lines[1..], partial)
      case Some(p) =>
        var body := partial + p.text;
        if !p.last && |body| < LOG_LINE_MAX then Bodies(decode, lines[1..], body)
        else [body] + Bodies(decode, lines[1..], "")
  }

  /** Everything the readable lines say. */
  function AllText(decode: Decoder, lines: seq<string>): string {
    if lines == [] then ""
    else (match PieceOf(decode, lines[0]) case None => "" case Some(p) => p.text) + AllText(decode, lines[1..])
  }

  function Concat(ss: seq<string>): string {
    if ss == [] then "" else ss[0] + Concat(ss[1..])
  }

  /** The message a line completes, before it is cut; empty when it completes none. */
  function Completed(decode: Decoder, line: string, partial: string): string {
    match PieceOf(decode, line)
    case None => ""
    case Some(p) =>
      var body := partial + p.text;
      if !p.last && |body| < LOG_LINE_MAX then "" else body
  }

  lemma LineIsConserved(decode: Decoder, line: string, partial: string)
    ensures Completed(decode, line, partial) + ParseLine(decode, line, partial).partial
         == partial + (match PieceOf(decode, line) case None => "" case Some(p) => p.text)
  {}

  lemma BodiesNext(decode: Decoder, lines: seq<string>, partial: string)
    requires lines != []
    ensures Concat(Bodies(decode, lines, partial)) ==
      Completed(decode, lines[0], partial) + Concat(Bodies(decode, lines[1..], ParseLine(decode, lines[0], partial).partial))
  {
    var next := ParseLine(decode, lines[0], partial).partial;
    var rest := Bodies(decode, lines[1..], next);
    var piece := PieceOf(decode, lines[0]);
    if piece.Some? && (piece.value.last || |partial + piece.value.text| >= LOG_LINE_MAX) {
      assert Bodies(decode, lines, partial) == [partial + piece.value.text] + rest;
    } else {
      assert Bodies(decode, lines, partial) == rest && "" + Concat(rest) == Concat(rest);
    }
  }

  /** No byte of a readable line is lost, repeated or moved: the completed bodies followed by
      the carry are the carry there was followed by all the text. */
  lemma {:induction false} TextIsConserved(decode: Decoder, lines: seq<string>, partial: string)
    ensures Concat(Bodies(decode, lines, partial)) + ParseLines(decode, lines, partial).partial
         == partial + AllText(decode, lines)
    decreases |lines|
  {
    if lines != [] {
      var next := ParseLine(decode, lines[0], partial).partial;
      TextIsConserved(decode, lines[1..], next);
      LineIsConserved(decode, lines[0], partial);
      BodiesNext(decode, lines, partial);
      var done, said := Completed(decode, lines[0], partial), match PieceOf(decode, lines[0]) case None => "" case Some(p) => p.text;
      Associative(done, Concat(Bodies(decode, lines[1..], next)), ParseLines(decode, lines[1..], next).partial);
      Associative(done, next, AllText(decode, lines[1..]));
      Associative(partial, said, AllText(decode, lines[1..]));
    }
  }

  function RecordBodies(rs: seq<LogRecord>): seq<string> {
    if rs == [] then [] else [rs[0].body] + RecordBodies(rs[1..])
  }

  /** What of the bodies is emitted: the non-empty ones, cut to the limit. */
  function Cut(bodies: seq<string>): seq<string> {
    if bodies == [] then []
    else
      var b := bodies[0];
      (if b == "" then [] else if |b| > LOG_LINE_MAX then [b[..LOG_LINE_MAX]] else [b]) + Cut(bodies[1..])
  }

  /** The emitted records carry exactly the completed bodies, the empty ones left out and the
      long ones cut. */
  lemma {:induction false} RecordsCarryBodies(decode: Decoder, lines: seq<string>, partial: string)
    ensures RecordBodies(ParseLines(decode, lines, partial).records) == Cut(Bodies(decode, lines, partial))
    decreases |lines|
  {
    if lines != [] {
      var first := ParseLine(decode, lines[0], partial);
      RecordsCarryBodies(decode, lines[1..], first.partial);
      RecordBodiesAppend(first.records, ParseLines(decode, lines[1..], first.partial).records);
      var piece := PieceOf(decode, lines[0]);
      if piece.Some? && (piece.value.last || |partial + piece.value.text| >= LOG_LINE_MAX) {
        var body, tail := partial + piece.value.text, Bodies(decode, lines[1..], "");
        assert ([body] + tail)[1..] == tail;
        assert RecordBodies(first.records) == Cut([body]);
      }
    }
  }

  lemma {:induction false} RecordBodiesAppend(a: seq<LogRecord>, b: seq<LogRecord>)
    ensures RecordBodies(a + b) == RecordBodies(a) + RecordBodies(b)
    decreases |a|
  {
    if a == [] {
      assert a + b == b;
    } else {
      assert (a + b)[1..] == a[1..] + b;
      RecordBodiesAppend(a[1..], b);
    }
  }
}

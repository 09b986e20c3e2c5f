/** The lines of a log file and the records they make, by their characters. */
module LogLines {
  import opened Options
  import opened LogTail

  // ---------------------------------------------------------------------- the lines

  /** Each line with the line break that ends it. */
  function Unlines(lines: seq<string>): string {
    if lines == [] then "" else lines[0] + "\n" + Unlines(lines[1..])
  }

  lemma UnlinesNext(line: string, rest: seq<string>)
    ensures Unlines([line] + rest) == line + "\n" + Unlines(rest)
  {}

  lemma CutAtBreak(s: string, i: nat, j: nat, end: nat)
    requires i <= j < end <= |s| && s[j] == '\n'
    ensures s[i..end] == s[i..j] + "\n" + s[j + 1..end]
  {}

  /** The lines from `pos` on are the text from there to its last line break, cut at every line
      break and nowhere else. */
  lemma {:induction false} LinesAreContent(s: string, pos: nat)
    requires pos <= |s|
    ensures Unlines(LinesFrom(s, pos)) == s[pos..EndFrom(s, pos)]
    ensures forall line | line in LinesFrom(s, pos) :: '\n' !in line
    decreases |s| - pos
  {
    IndexOfIsFirst(s, '\n', pos);
    match IndexOf(s, '\n', pos)
    case None =>
    case Some(j) =>
      NextLine(s, pos, j);
      LinesAreContent(s, j + 1);
      UnlinesNext(s[pos..j], LinesFrom(s, j + 1));
      CutAtBreak(s, pos, j, EndFrom(s, pos));
  }

  /** A file that shrank is read again from its start; one that did not is never read before the
      offset. */
  lemma ShrunkFileIsReread(decode: Decoder, content: string, t: Tail)
    ensures |content| < t.offset ==>
      && RecordsOf(decode, content, t) == RecordsOf(decode, content, Tail(0, t.partial))
      && TailAfter(decode, content, t) == TailAfter(decode, content, Tail(0, t.partial))
    ensures t.offset <= |content| ==>
      && RecordsOf(decode, content, t) == ParseLines(decode, LinesFrom(content, t.offset), t.partial).records
      && TailAfter(decode, content, t).offset == EndFrom(content, t.offset)
  {}

  // ----------------------------------------------------------------------- one line

  /** The line is the fragment written out: time stamp, stream and flag, none with a space in it,
      a space after each, and the text; only the flag P leaves the message open. */
  predicate WrittenAs(line: string, p: Piece, flag: string) {
    && line == p.ts + " " + (p.stream + " " + (flag + " " + p.text))
    && ' ' !in p.ts && ' ' !in p.stream && ' ' !in flag
    && (p.last <==> flag != "P")
  }

  lemma UpToSpace(line: string, from: nat, head: string, rest: string)
    requires from <= |line| && line[from..] == head + " " + rest && ' ' !in head
    ensures IndexOf(line, ' ', from) == Some(from + |head|)
    ensures line[from..from + |head|] == head && line[from + |head| + 1..] == rest
  {
    var end := from + |head|;
    var tail := line[from..];
    assert tail[|head|] == ' ' && line[end] == tail[|head|];
    assert forall i | from <= i < end :: line[i] == tail[i - from] == head[i - from];
    IndexAfter(line, ' ', from, end);
    assert line[end + 1..] == tail[|head| + 1..];
  }

  lemma FirstSpace(line: string, head: string, rest: string)
    requires line == head + " " + rest && ' ' !in head
    ensures IndexOf(line, ' ', 0) == Some(|head|) && line[..|head|] == head && line[|head| + 1..] == rest
  {
    assert line[0..] == line && line[0..|head|] == line[..|head|];
    UpToSpace(line, 0, head, rest);
  }

  lemma SecondSpace(line: string, p1: nat, stream: string, flag: string, rest: string, text: string)
    requires p1 < |line| && line[p1 + 1..] == stream + " " + rest && rest == flag + " " + text
    requires ' ' !in stream && ' ' !in flag
    ensures var p2 := p1 + 1 + |stream|;
      var p3 := p2 + 1 + |flag|;
      && IndexOf(line, ' ', p1 + 1) == Some(p2) && p2 < p3 < |line| && IndexOf(line, ' ', p2 + 1) == Some(p3)
      && line[p1 + 1..p2] == stream && line[p2 + 1..p3] == flag && line[p3 + 1..] == text
  {
    UpToSpace(line, p1 + 1, stream, rest);
    UpToSpace(line, p1 + 1 + |stream| + 1, flag, text);
  }

  /** A CRI line is read as the fragment it writes out, whatever its flag. */
  lemma WrittenIsRead(line: string, p: Piece, flag: string)
    requires WrittenAs(line, p, flag)
    ensures CriPiece(line) == Some(p)
  {
    var rest := flag + " " + p.text;
    ReadsBack(line, p, flag, p.stream + " " + rest, rest);
  }

  lemma ReadsBack(line: string, p: Piece, flag: string, afterTs: string, afterStream: string)
    requires line == p.ts + " " + afterTs && afterTs == p.stream + " " + afterStream && afterStream == flag + " " + p.text
    requires ' ' !in p.ts && ' ' !in p.stream && ' ' !in flag && (p.last <==> flag != "P")
    ensures CriPiece(line) == Some(p)
  {
    var p1 := |p.ts|;
    var p2 := p1 + 1 + |p.stream|;
    FirstSpace(line, p.ts, afterTs);
    SecondSpace(line, p1, p.stream, flag, afterStream, p.text);
    PieceAtSpaces(line, p1, p2, p2 + 1 + |flag|, p, flag);
  }

  lemma PieceAtSpaces(line: string, p1: nat, p2: nat, p3: nat, p: Piece, flag: string)
    requires p1 < p2 < p3 < |line| && IndexOf(line, ' ', 0) == Some(p1)
    requires IndexOf(line, ' ', p1 + 1) == Some(p2) && IndexOf(line, ' ', p2 + 1) == Some(p3)
    requires line[..p1] == p.ts && line[p1 + 1..p2] == p.stream && line[p2 + 1..p3] == flag && line[p3 + 1..] == p.text
    requires p.last <==> flag != "P"
    ensures CriPiece(line) == Some(p)
  {
    CriPieceAt(line, p1, p2, p3);
  }

  lemma SpaceAt(line: string, from: nat) returns (end: nat)
    requires from <= |line| && IndexOf(line, ' ', from).Some?
    ensures IndexOf(line, ' ', from) == Some(end) && from <= end < |line|
    ensures ' ' !in line[from..end] && line[from..] == line[from..end] + " " + line[end + 1..]
  {
    IndexOfIsFirst(line, ' ', from);
    end := IndexOf(line, ' ', from).value;
  }

  lemma SpacesOf(line: string) returns (p1: nat, p2: nat, p3: nat)
    requires CriPiece(line).Some?
    ensures p1 < p2 < p3 < |line| && CriPiece(line) == Some(PieceBetween(line, p1, p2, p3))
    ensures ' ' !in line[..p1] && ' ' !in line[p1 + 1..p2] && ' ' !in line[p2 + 1..p3]
    ensures line[p1] == ' ' && line[p2] == ' ' && line[p3] == ' '
  {
    p1 := SpaceAt(line, 0);
    p2 := SpaceAt(line, p1 + 1);
    p3 := SpaceAt(line, p2 + 1);
    CriPieceAt(line, p1, p2, p3);
    assert line[0..p1] == line[..p1];
    IndexOfIsFirst(line, ' ', 0);
    IndexOfIsFirst(line, ' ', p1 + 1);
    IndexOfIsFirst(line, ' ', p2 + 1);
  }

  lemma CutAtThree(line: string, p1: nat, p2: nat, p3: nat)
    requires p1 < p2 < p3 < |line| && line[p1] == ' ' && line[p2] == ' ' && line[p3] == ' '
    ensures line == line[..p1] + " " + (line[p1 + 1..p2] + " " + (line[p2 + 1..p3] + " " + line[p3 + 1..]))
  {
    assert line[p2 + 1..] == line[p2 + 1..p3] + " " + line[p3 + 1..];
    assert line[p1 + 1..] == line[p1 + 1..p2] + " " + line[p2 + 1..];
    assert line == line[..p1] + " " + line[p1 + 1..];
  }

  lemma ReadIsWritten(line: string) returns (flag: string)
    requires CriPiece(line).Some?
    ensures WrittenAs(line, CriPiece(line).value, flag)
  {
    var p1, p2, p3 := SpacesOf(line);
    flag := line[p2 + 1..p3];
    CutAtThree(line, p1, p2, p3);
  }

  /** CRI lines are read as what they write out, and no other line is read. */
  lemma CriPieceIff(line: string, p: Piece)
    ensures CriPiece(line) == Some(p) <==> exists flag :: WrittenAs(line, p, flag)
  {
    if CriPiece(line) == Some(p) {
      var flag := ReadIsWritten(line);
      assert WrittenAs(line, p, flag);
    }
    forall flag | WrittenAs(line, p, flag) ensures CriPiece(line) == Some(p) { WrittenIsRead(line, p, flag); }
  }

  /** What a line makes: nothing when it is unreadable; a longer carry when it leaves the message
      open and the carry stays below 16384 characters; and otherwise one record with all that was
      carried and its own text, cut to 16384 characters, if that is not empty. */
  lemma LineMakes(decode: Decoder, line: string, partial: string)
    ensures var o := ParseLine(decode, line, partial);
      match PieceOf(decode, line)
      case None => o.records == [] && o.partial == partial
      case Some(p) =>
        var body := partial + p.text;
        if !p.last && |body| < 16384 then o.records == [] && o.partial == body
        else
          && o.partial == ""
          && (body == "" <==> o.records == []) && |o.records| <= 1
          && forall r | r in o.records ::
               && r.ts == p.ts && r.stream == p.stream && r.body <= body
               && |r.body| == if |body| < 16384 then |body| else 16384
  {}

  /** Which lines are read as Docker lines. */
  lemma WhichFormat(decode: Decoder, line: string)
    ensures PieceOf(decode, line) == if line != "" && line[0] == '{' then DockerPiece(decode, line) else CriPiece(line)
  {}

  // -------------------------------------------------------------------- the channel

  /** Record by record: it is delivered exactly when there is room for it, in order. */
  lemma DeliveredOneByOne(made: seq<LogRecord>, r: LogRecord, room: Room)
    ensures Delivered(made + [r], room) == Delivered(made, room) + if room(|made|) then [r] else []
    ensures Delivered([], room) == []
  {
    assert (made + [r])[..|made|] == made;
  }
}

/**
 A log file as its readers and its writers see it (src/rif_runtime/storage/jsonl.py): readers decode
 the whole file and use ``str.splitlines``; a writer looks for the last record in the raw bytes.
 */
module LogFile {
  import opened Wrappers
  import opened Utf8
  import opened Lines

  /** The JSON library on row objects: ``json.dumps(row, ensure_ascii=False)`` and ``json.loads``. */
  datatype Codec<!R(!new)> = Codec(dumps: R -> string, loads: string -> Option<R>)
  {
    /**
     What JSON guarantees of an object's text: it reads back, it opens with a brace it later closes, control
     characters are escaped (section 7 of RFC 8259), and no proper prefix of it is an object.
     */
    ghost predicate Lawful() {
      && (forall r :: loads(dumps(r)) == Some(r))
      && (forall r :: |dumps(r)| > 1 && dumps(r)[0] == '{')
      && (forall r, i :: 0 <= i < |dumps(r)| ==> dumps(r)[i] >= ' ')
      && (forall r, n :: 0 <= n < |dumps(r)| ==> loads(dumps(r)[..n]) == None)
      && (forall s :: loads(s).Some? ==> '{' in s)
    }
  }

  /** Line boundaries of ``str.splitlines``. ``"\r\n"`` counting twice only adds a blank piece. */
  predicate IsLineBreak(c: char) {
    || '\n' <= c <= '\r' || '\U{1C}' <= c <= '\U{1E}' || IsRawBreak(c)
  }

  /** The boundaries that JSON leaves unescaped inside a string. */
  predicate IsRawBreak(c: char) {
    c == '\U{85}' || c == '\U{2028}' || c == '\U{2029}'
  }

  /** The ten characters at which ``str.splitlines`` divides, three of them unescaped in JSON text. */
  lemma LineBreaks(c: char)
    ensures IsLineBreak(c) <==>
            c as int in {0x0A, 0x0B, 0x0C, 0x0D, 0x1C, 0x1D, 0x1E, 0x85, 0x2028, 0x2029}
    ensures IsRawBreak(c) <==> IsLineBreak(c) && c as int >= 0x20
    ensures IsLineBreak(c) ==> IsSpace(c)
  {
  }

  /** ``str.isspace`` */
  predicate IsSpace(c: char) {
    || '\t' <= c <= '\r' || '\U{1C}' <= c <= ' ' || c == '\U{85}' || c == '\U{A0}' || c == '\U{1680}'
    || '\U{2000}' <= c <= '\U{200A}' || c == '\U{2028}' || c == '\U{2029}' || c == '\U{202F}'
    || c == '\U{205F}' || c == '\U{3000}'
  }

  predicate Blank(s: string) {
    forall i :: 0 <= i < |s| ==> IsSpace(s[i])
  }

  predicate AsciiBlank(s: string) {
    forall i :: 0 <= i < |s| ==> IsAsciiSpace(s[i] as int)
  }

  datatype FileError = BadEncoding | BadJson

  /** ``[json.loads(line) for line in lines if line.strip()]`` */
  function ParseLines<R(!new)>(codec: Codec<R>, lines: seq<string>): Result<seq<R>, FileError> {
    if lines == [] then Ok([])
    else if Blank(lines[0]) then ParseLines(codec, lines[1..])
    else match codec.loads(lines[0])
      case None => Err(BadJson)
      case Some(row) => Join2([row], ParseLines(codec, lines[1..]))
  }

  function Join2<R>(rows: seq<R>, rest: Result<seq<R>, FileError>): Result<seq<R>, FileError> {
    match rest case Ok(more) => Ok(rows + more) case Err(e) => Err(e)
  }

  function ReadText<R(!new)>(codec: Codec<R>, text: string): Result<seq<R>, FileError> {
    ParseLines(codec, Split(text, IsLineBreak))
  }

  function ReadBytes<R(!new)>(codec: Codec<R>, data: seq<Byte>): Result<seq<R>, FileError> {
    match Decode(data)
    case None => Err(BadEncoding)
    case Some(text) => ReadText(codec, text)
  }

  /** The last row as the writer finds it: none in a blank file, an error if it does not parse. */
  function LastRow<R(!new)>(codec: Codec<R>, tail: Option<seq<Byte>>): Result<Option<R>, FileError> {
    match tail
    case None => Ok(None)
    case Some(line) =>
      match Decode(line)
      case None => Err(BadEncoding)
      case Some(text) =>
        match codec.loads(text)
        case None => Err(BadJson)
        case Some(row) => Ok(Some(row))
  }

  /**
   A line of a sound log: blank, a row some other program wrote (a legacy row escaped to ASCII),
   or a row this writer wrote.
   */
  datatype Line<R(!new)> = Empty(spaces: string) | Foreign(chars: string, record: R) | Written(record: R)
  {
    ghost predicate Sound(codec: Codec<R>) {
      match this
      case Empty(spaces) => AsciiBlank(spaces) && '\n' !in spaces
      case Foreign(chars, record) => codec.loads(chars) == Some(record) && Unbroken(chars, IsLineBreak)
      case Written(_) => true
    }

    function Text(codec: Codec<R>): string {
      match this
      case Empty(spaces) => spaces
      case Foreign(chars, _) => chars
      case Written(record) => codec.dumps(record)
    }

    /** The line survives ``splitlines`` in one piece, or holds nothing to lose. */
    ghost predicate Readable(codec: Codec<R>) {
      Written? ==> Unbroken(codec.dumps(record), IsLineBreak)
    }

    function Rows(): seq<R> {
      if Empty? then [] else [record]
    }
  }

  function TextOf<R(!new)>(codec: Codec<R>, lines: seq<Line<R>>): string {
    if lines == [] then [] else lines[0].Text(codec) + ['\n'] + TextOf(codec, lines[1..])
  }

  function BytesOf<R(!new)>(codec: Codec<R>, lines: seq<Line<R>>): seq<Byte> {
    Encode(TextOf(codec, lines))
  }

  function RowsOf<R(!new)>(lines: seq<Line<R>>): seq<R> {
    if lines == [] then [] else lines[0].Rows() + RowsOf(lines[1..])
  }

  ghost predicate SoundLog<R(!new)>(codec: Codec<R>, lines: seq<Line<R>>) {
    forall i :: 0 <= i < |lines| ==> lines[i].Sound(codec)
  }

  ghost predicate ReadableLog<R(!new)>(codec: Codec<R>, lines: seq<Line<R>>) {
    forall i :: 0 <= i < |lines| ==> lines[i].Readable(codec)
  }

  lemma {:induction false} AppendText<R(!new)>(codec: Codec<R>, lines: seq<Line<R>>, line: Line<R>)
    ensures TextOf(codec, lines + [line]) == TextOf(codec, lines) + (line.Text(codec) + ['\n'])
  {
    if lines == [] {
      assert lines + [line] == [line] && [line][1..] == [];
      assert TextOf(codec, [line]) == line.Text(codec) + ['\n'] + TextOf(codec, [line][1..]);
    } else {
      AppendText(codec, lines[1..], line);
      assert (lines + [line])[1..] == lines[1..] + [line];
      var first, rest, last := lines[0].Text(codec) + ['\n'], TextOf(codec, lines[1..]), line.Text(codec) + ['\n'];
      assert first + (rest + last) == (first + rest) + last;
    }
  }

  lemma {:induction false} AppendRow<R(!new)>(lines: seq<Line<R>>, line: Line<R>)
    ensures RowsOf(lines + [line]) == RowsOf(lines) + line.Rows()
  {
    var more := lines + [line];
    assert RowsOf(more) == more[0].Rows() + RowsOf(more[1..]);
    if lines == [] {
      assert more[1..] == lines;
    } else {
      AppendRow(lines[1..], line);
      assert more[1..] == lines[1..] + [line];
      assert RowsOf(lines) == lines[0].Rows() + RowsOf(lines[1..]);
    }
  }

  /** Writing one encoded line at the end of a log's bytes gives the bytes of the longer log. */
  lemma AppendLine<R(!new)>(codec: Codec<R>, lines: seq<Line<R>>, line: Line<R>)
    ensures BytesOf(codec, lines + [line]) == BytesOf(codec, lines) + Encode(line.Text(codec) + ['\n'])
    ensures RowsOf(lines + [line]) == RowsOf(lines) + line.Rows()
  {
    AppendText(codec, lines, line);
    AppendRow(lines, line);
    EncodeConcat(TextOf(codec, lines), line.Text(codec) + ['\n']);
  }

  // ---- the reader ----------------------------------------------------------------------------

  lemma {:induction false} ParseConcat<R(!new)>(codec: Codec<R>, a: seq<string>, b: seq<string>)
    ensures ParseLines(codec, a).Ok? ==>
      ParseLines(codec, a + b) == Join2(ParseLines(codec, a).value, ParseLines(codec, b))
    ensures ParseLines(codec, a + b).Ok? <==> ParseLines(codec, a).Ok? && ParseLines(codec, b).Ok?
  {
    if a == [] {
      assert a + b == b;
      if ParseLines(codec, b).Ok? { assert [] + ParseLines(codec, b).value == ParseLines(codec, b).value; }
    } else {
      assert (a + b)[1..] == a[1..] + b && (a + b)[0] == a[0];
      ParseConcat(codec, a[1..], b);
      if !Blank(a[0]) && codec.loads(a[0]).Some? && ParseLines(codec, a).Ok? && ParseLines(codec, b).Ok? {
        var row, rows, more := codec.loads(a[0]).value, ParseLines(codec, a[1..]).value, ParseLines(codec, b).value;
        assert [row] + (rows + more) == ([row] + rows) + more;
      }
    }
  }

  /** A text is read line by line. */
  lemma ReadFirstLine<R(!new)>(codec: Codec<R>, s: string, rest: string)
    ensures ReadText(codec, s + ['\n'] + rest).Ok? <==> ReadText(codec, s).Ok? && ReadText(codec, rest).Ok?
    ensures ReadText(codec, s).Ok? ==>
      ReadText(codec, s + ['\n'] + rest) == Join2(ReadText(codec, s).value, ReadText(codec, rest))
  {
    var l, r := Split(s, IsLineBreak), Split(rest, IsLineBreak);
    assert Split(['\n'] + rest, IsLineBreak) == [[]] + r;
    assert s + ['\n'] + rest == s + (['\n'] + rest);
    SplitConcat(s, ['\n'] + rest, IsLineBreak);
    assert l[|l| - 1] + [] == l[|l| - 1];
    assert Glue(l, [[]] + r) == l + r;
    ParseConcat(codec, l, r);
  }

  lemma {:induction false} BlankPieces<R(!new)>(codec: Codec<R>, s: string)
    requires AsciiBlank(s)
    ensures ReadText(codec, s) == Ok([])
  {
    if s == [] {
      var pieces := Split(s, IsLineBreak);
      assert Blank(pieces[0]) && pieces[1..] == [];
      assert ParseLines(codec, pieces[1..]) == Ok([]);
    } else {
      BlankPieces(codec, s[1..]);
      var rest := Split(s[1..], IsLineBreak);
      var all := Split(s, IsLineBreak);
      if IsLineBreak(s[0]) {
        assert all[1..] == rest;
      } else {
        assert all == [[s[0]] + rest[0]] + rest[1..] && all[1..] == rest[1..];
        FirstPieceOfBlank(s[1..]);
      }
    }
  }

  lemma {:induction false} FirstPieceOfBlank(s: string)
    requires AsciiBlank(s)
    ensures Blank(Split(s, IsLineBreak)[0])
  {
    if s != [] {
      FirstPieceOfBlank(s[1..]);
    }
  }

  lemma NotBlank(s: string)
    requires '{' in s
    ensures !Blank(s) && !AsciiBlank(s)
  {
    var i :| 0 <= i < |s| && s[i] == '{';
    assert !IsSpace(s[i]) && !IsAsciiSpace(s[i] as int);
  }

  lemma ReadUnbroken<R(!new)>(codec: Codec<R>, s: string, record: R)
    requires codec.Lawful() && codec.loads(s) == Some(record) && Unbroken(s, IsLineBreak)
    ensures ReadText(codec, s) == Ok([record])
  {
    SplitUnbroken(s, IsLineBreak);
    NotBlank(s);
    assert [s][1..] == [] && [record] + [] == [record];
    assert ParseLines(codec, [s][1..]) == Ok([]);
  }

  lemma FirstBreak(s: string) returns (n: nat)
    requires !Unbroken(s, IsLineBreak)
    ensures n < |s| && IsLineBreak(s[n]) && Unbroken(s[..n], IsLineBreak)
  {
    n := 0;
    while !IsLineBreak(s[n])
      invariant n < |s| && Unbroken(s[..n], IsLineBreak)
      invariant !Unbroken(s[n..], IsLineBreak)
      decreases |s| - n
    {
      var i :| 0 <= i < |s[n..]| && IsLineBreak(s[n..][i]);
      assert s[n + 1..][i - 1] == s[n..][i];
      n := n + 1;
    }
  }

  lemma ReadLine<R(!new)>(codec: Codec<R>, line: Line<R>)
    requires codec.Lawful() && line.Sound(codec)
    ensures line.Readable(codec) ==> ReadText(codec, line.Text(codec)) == Ok(line.Rows())
    ensures !line.Readable(codec) ==> ReadText(codec, line.Text(codec)).Err?
  {
    match line
    case Empty(spaces) => BlankPieces(codec, spaces);
    case Foreign(chars, record) => ReadUnbroken(codec, chars, record);
    case Written(record) =>
      var text := codec.dumps(record);
      if line.Readable(codec) { ReadUnbroken(codec, text, record); } else { FirstPieceRaises(codec, record, text); }
  }

  /** A text behind a log is read on its own, once the log itself can be read. */
  lemma {:induction false} ReadBehind<R(!new)>(codec: Codec<R>, lines: seq<Line<R>>, s: string)
    requires codec.Lawful() && SoundLog(codec, lines)
    ensures ReadableLog(codec, lines) ==>
      ReadText(codec, TextOf(codec, lines) + s) == Join2(RowsOf(lines), ReadText(codec, s))
    ensures !ReadableLog(codec, lines) ==> ReadText(codec, TextOf(codec, lines) + s).Err?
  {
    if lines == [] {
      assert TextOf(codec, lines) + s == s;
      if ReadText(codec, s).Ok? { assert [] + ReadText(codec, s).value == ReadText(codec, s).value; }
    } else {
      var line, rest := lines[0], lines[1..];
      ReadBehind(codec, rest, s);
      ReadLine(codec, line);
      ReadFirstLine(codec, line.Text(codec), TextOf(codec, rest) + s);
      FirstLineOfText(codec, lines, s);
      FirstLineReadable(codec, lines);
      JoinJoin(line.Rows(), RowsOf(rest), ReadText(codec, s));
    }
  }

  lemma FirstLineOfText<R(!new)>(codec: Codec<R>, lines: seq<Line<R>>, s: string)
    requires lines != []
    ensures TextOf(codec, lines) + s == lines[0].Text(codec) + ['\n'] + (TextOf(codec, lines[1..]) + s)
  {
    var first, rest := lines[0].Text(codec) + ['\n'], TextOf(codec, lines[1..]);
    assert (first + rest) + s == first + (rest + s);
  }

  lemma JoinJoin<R>(a: seq<R>, b: seq<R>, r: Result<seq<R>, FileError>)
    ensures Join2(a, Join2(b, r)) == Join2(a + b, r)
  {
    if r.Ok? { assert a + (b + r.value) == (a + b) + r.value; }
  }

  lemma FirstLineReadable<R(!new)>(codec: Codec<R>, lines: seq<Line<R>>)
    requires lines != []
    ensures ReadableLog(codec, lines) <==> lines[0].Readable(codec) && ReadableLog(codec, lines[1..])
  {
    if lines[0].Readable(codec) && ReadableLog(codec, lines[1..]) {
      forall i | 0 <= i < |lines| ensures lines[i].Readable(codec) {
        if i > 0 { assert lines[i] == lines[1..][i - 1]; }
      }
    }
  }

  lemma LastLineReadable<R(!new)>(codec: Codec<R>, lines: seq<Line<R>>, line: Line<R>)
    ensures ReadableLog(codec, lines + [line]) <==> ReadableLog(codec, lines) && line.Readable(codec)
  {
    var more := lines + [line];
    assert more[|lines|] == line && forall i :: 0 <= i < |lines| ==> more[i] == lines[i];
  }

  /**
   ``read_all`` returns the rows of a sound log exactly when no written row carries U+0085, U+2028
   or U+2029 unescaped; otherwise it raises, whichever row it was.
   */
  lemma ReadsIffReadable<R(!new)>(codec: Codec<R>, lines: seq<Line<R>>)
    requires codec.Lawful() && SoundLog(codec, lines)
    ensures ReadableLog(codec, lines) ==> ReadBytes(codec, BytesOf(codec, lines)) == Ok(RowsOf(lines))
    ensures !ReadableLog(codec, lines) ==> ReadBytes(codec, BytesOf(codec, lines)).Err?
  {
    DecodeEncode(TextOf(codec, lines));
    ReadBehind(codec, lines, []);
    BlankPieces<R>(codec, []);
    assert TextOf(codec, lines) + [] == TextOf(codec, lines);
    assert RowsOf(lines) + [] == RowsOf(lines);
  }

  // ---- a reader that does not wait for the writer --------------------------------------------

  /** Part of an object's text, cut by a line break or not, begins with something that does not parse. */
  lemma CutObjectRaises<R(!new)>(codec: Codec<R>, record: R, k: nat)
    requires codec.Lawful() && 0 < k < |codec.dumps(record)|
    ensures ReadText(codec, codec.dumps(record)[..k]).Err?
  {
    var s := codec.dumps(record)[..k];
    assert s[0] == '{';
    if Unbroken(s, IsLineBreak) {
      SplitUnbroken(s, IsLineBreak);
      NotBlank(s);
    } else {
      FirstPieceRaises(codec, record, s);
    }
  }

  lemma FirstPieceRaises<R(!new)>(codec: Codec<R>, record: R, s: string)
    requires codec.Lawful() && s <= codec.dumps(record) && !Unbroken(s, IsLineBreak)
    ensures ReadText(codec, s).Err?
  {
    var n := FirstBreak(s);
    var head := s[..n];
    assert head == codec.dumps(record)[..n];
    assert s == head + ([s[n]] + s[n + 1..]);
    SplitUnbroken(head, IsLineBreak);
    SplitConcat(head, [s[n]] + s[n + 1..], IsLineBreak);
    assert Split(s, IsLineBreak)[0] == head + [] == head;
    assert head[0] == '{';
    NotBlank(head);
  }

  /** The bytes of a log and the first ``n`` bytes of the line of one more row. */
  function CutFile<R(!new)>(codec: Codec<R>, lines: seq<Line<R>>, record: R, n: nat): seq<Byte>
    requires n <= |Encode(codec.dumps(record) + ['\n'])|
  {
    BytesOf(codec, lines) + Encode(codec.dumps(record) + ['\n'])[..n]
  }

  /** An encoded line is its text's encoding and one byte. */
  lemma LineEncoding(s: string)
    ensures Encode(s + ['\n']) == Encode(s) + [NEWLINE]
    ensures s != [] ==> Encode(s) != []
  {
    EncodeConcat(s, ['\n']);
    assert Encode(['\n']) == [NEWLINE];
  }

  lemma LongPrefix(s: string, k: nat)
    requires |s| <= k <= |s| + 1
    ensures |Encode((s + ['\n'])[..k])| >= |Encode(s)|
  {
    LineEncoding(s);
    assert (s + ['\n'])[..k] == if k == |s| then s else s + ['\n'];
  }

  lemma CutLineRaises<R(!new)>(codec: Codec<R>, lines: seq<Line<R>>, record: R, n: nat)
    requires codec.Lawful() && SoundLog(codec, lines)
    requires 0 < n < |Encode(codec.dumps(record) + ['\n'])| - 1
    ensures ReadBytes(codec, CutFile(codec, lines, record, n)).Err?
  {
    var s := codec.dumps(record);
    var text := s + ['\n'];
    DecodeAfter(TextOf(codec, lines), Encode(text)[..n]);
    var k := CutText(text, n);
    if Decode(Encode(text)[..n]).Some? {
      LineEncoding(s);
      if k >= |s| { LongPrefix(s, k); }
      assert text[..k] == s[..k];
      CutObjectRaises(codec, record, k);
      ReadBehind(codec, lines, text[..k]);
    }
  }

  lemma UnterminatedLineReads<R(!new)>(codec: Codec<R>, lines: seq<Line<R>>, record: R)
    requires codec.Lawful() && SoundLog(codec, lines)
    ensures var n := |Encode(codec.dumps(record) + ['\n'])| - 1;
            && n > 0
            && var r := ReadBytes(codec, CutFile(codec, lines, record, n));
               && (r.Ok? <==> ReadableLog(codec, lines) && Written(record).Readable(codec))
               && (r.Ok? ==> r.value == RowsOf(lines) + [record])
  {
    var s := codec.dumps(record);
    LineEncoding(s);
    assert (Encode(s) + [NEWLINE])[..|Encode(s)|] == Encode(s);
    DecodeAfter(TextOf(codec, lines), Encode(s));
    DecodeEncode(s);
    ReadLine(codec, Written(record));
    ReadBehind(codec, lines, s);
  }

  lemma WholeLineReads<R(!new)>(codec: Codec<R>, lines: seq<Line<R>>, record: R)
    requires codec.Lawful() && SoundLog(codec, lines)
    ensures var r := ReadBytes(codec, CutFile(codec, lines, record, |Encode(codec.dumps(record) + ['\n'])|));
            && (r.Ok? <==> ReadableLog(codec, lines) && Written(record).Readable(codec))
            && (r.Ok? ==> r.value == RowsOf(lines) + [record])
  {
    var line := Encode(codec.dumps(record) + ['\n']);
    AppendLine(codec, lines, Written(record));
    assert line[..|line|] == line;
    ReadsIffReadable(codec, lines + [Written(record)]);
    LastLineReadable(codec, lines, Written(record));
  }

  lemma NothingCutReads<R(!new)>(codec: Codec<R>, lines: seq<Line<R>>, record: R)
    requires codec.Lawful() && SoundLog(codec, lines)
    ensures var r := ReadBytes(codec, CutFile(codec, lines, record, 0));
            && (r.Ok? <==> ReadableLog(codec, lines))
            && (r.Ok? ==> r.value == RowsOf(lines) + [])
  {
    assert CutFile(codec, lines, record, 0) == BytesOf(codec, lines);
    assert RowsOf(lines) + [] == RowsOf(lines);
    ReadsIffReadable(codec, lines);
  }

  /**
   Exactly when a file that ends in part of a row can be read: when none of the row is there, or all
   of it up to at most its newline and it is a readable row. The result is then the rows that are
   whole. Every other cut raises, whether it cuts a character or not.
   */
  lemma CutFileReads<R(!new)>(codec: Codec<R>, lines: seq<Line<R>>, record: R, n: nat)
    requires codec.Lawful() && SoundLog(codec, lines)
    requires n <= |Encode(codec.dumps(record) + ['\n'])|
    ensures var r := ReadBytes(codec, CutFile(codec, lines, record, n));
            var whole := n >= |Encode(codec.dumps(record) + ['\n'])| - 1;
            && (r.Ok? <==> ReadableLog(codec, lines) && (n == 0 || (whole && Written(record).Readable(codec))))
            && (r.Ok? ==> r.value == RowsOf(lines) + if n == 0 then [] else [record])
  {
    var line := Encode(codec.dumps(record) + ['\n']);
    UnterminatedLineReads(codec, lines, record);
    if n == 0 {
      NothingCutReads(codec, lines, record);
    } else if n < |line| - 1 {
      CutLineRaises(codec, lines, record, n);
    } else if n == |line| {
      WholeLineReads(codec, lines, record);
    }
  }

  // ---- the writer ----------------------------------------------------------------------------

  lemma {:induction false} BlankEncoding(s: string)
    ensures BlankBytes(Encode(s)) <==> AsciiBlank(s)
  {
    if s != [] {
      BlankEncoding(s[1..]);
      var head, rest := EncodeChar(s[0]), Encode(s[1..]);
      assert Encode(s) == head + rest;
      assert BlankBytes(head + rest) <==> BlankBytes(head) && BlankBytes(rest) by {
        assert forall i :: 0 <= i < |head| ==> (head + rest)[i] == head[i];
        assert forall i :: 0 <= i < |rest| ==> (head + rest)[|head| + i] == rest[i];
      }
      assert BlankBytes(head) <==> IsAsciiSpace(s[0] as int) by { assert head[0] in head; }
      assert AsciiBlank(s) <==> IsAsciiSpace(s[0] as int) && AsciiBlank(s[1..]) by {
        if IsAsciiSpace(s[0] as int) && AsciiBlank(s[1..]) {
          forall i | 0 <= i < |s| ensures IsAsciiSpace(s[i] as int) { if i > 0 { assert s[i] == s[1..][i - 1]; } }
        }
      }
    }
  }

  /** What the writer's search needs of a line: it is one line, and it is blank or parses. */
  ghost predicate Findable<R(!new)>(codec: Codec<R>, line: Line<R>) {
    var text := line.Text(codec);
    && Unbroken(text, IsNewlineChar)
    && (if line.Empty? then AsciiBlank(text) else codec.loads(text) == Some(line.record) && !AsciiBlank(text))
  }

  lemma SoundLineIsFindable<R(!new)>(codec: Codec<R>, line: Line<R>)
    requires codec.Lawful() && line.Sound(codec)
    ensures Findable(codec, line)
  {
    if !line.Empty? { NotBlank(line.Text(codec)); }
  }

  function PiecesOf<R(!new)>(codec: Codec<R>, lines: seq<Line<R>>): seq<seq<Byte>> {
    seq(|lines|, i requires 0 <= i < |lines| => Encode(lines[i].Text(codec)))
  }

  lemma SplitEncodedLine(text: string, tail: string)
    requires Unbroken(text, IsNewlineChar)
    ensures Split(Encode(text + ['\n'] + tail), IsNewline) == [Encode(text)] + Split(Encode(tail), IsNewline)
  {
    EncodingAddsNoNewline(text);
    EncodeConcat(text + ['\n'], tail);
    LineEncoding(text);
    SplitFirstLine(Encode(text), NEWLINE, Encode(tail), IsNewline);
  }

  /** The bytes of the file, split on newlines, are its lines and an empty remainder. */
  lemma {:induction false} SplitBytes<R(!new)>(codec: Codec<R>, lines: seq<Line<R>>)
    requires forall i :: 0 <= i < |lines| ==> Findable(codec, lines[i])
    ensures Split(BytesOf(codec, lines), IsNewline) == PiecesOf(codec, lines) + [[]]
  {
    if lines != [] {
      var rest := lines[1..];
      assert forall i :: 0 <= i < |rest| ==> rest[i] == lines[i + 1];
      SplitBytes(codec, rest);
      SplitEncodedLine(lines[0].Text(codec), TextOf(codec, rest));
      assert PiecesOf(codec, lines) == [Encode(lines[0].Text(codec))] + PiecesOf(codec, rest);
    }
  }

  function LastOf<R(!new)>(rows: seq<R>): Option<R> {
    if rows == [] then None else Some(rows[|rows| - 1])
  }

  /**
   The byte-level search and the reader agree on where the log ends: what the writer finds is the
   last row the reader returns, and nothing exactly when there are no rows.
   */
  lemma TailAgreesWithReader<R(!new)>(codec: Codec<R>, lines: seq<Line<R>>)
    requires codec.Lawful() && SoundLog(codec, lines)
    ensures LastRow(codec, NaiveTail(BytesOf(codec, lines))) == Ok(LastOf(RowsOf(lines)))
  {
    forall i | 0 <= i < |lines| ensures Findable(codec, lines[i]) { SoundLineIsFindable(codec, lines[i]); }
    SplitBytes(codec, lines);
    var pieces := PiecesOf(codec, lines) + [[]];
    forall i | 0 <= i < |lines| ensures BlankBytes(pieces[i]) <==> lines[i].Empty? {
      BlankEncoding(lines[i].Text(codec));
    }
    var last := LastNonBlankAt(pieces);
    LastRowAt(lines, last);
    if last >= 0 { FindableLineIsFound(codec, lines[last]); }
  }

  lemma FindableLineIsFound<R(!new)>(codec: Codec<R>, line: Line<R>)
    requires Findable(codec, line) && !line.Empty?
    ensures LastRow(codec, Some(Encode(line.Text(codec)))) == Ok(Some(line.record))
  {
    DecodeEncode(line.Text(codec));
  }

  lemma {:induction false} LastRowAt<R(!new)>(lines: seq<Line<R>>, last: int)
    requires -1 <= last < |lines| && (last >= 0 ==> !lines[last].Empty?)
    requires forall i :: last < i < |lines| ==> lines[i].Empty?
    ensures LastOf(RowsOf(lines)) == if last < 0 then None else Some(lines[last].record)
  {
    if lines != [] {
      var n := |lines| - 1;
      AppendRow(lines[..n], lines[n]);
      assert lines == lines[..n] + [lines[n]];
      if last < n { LastRowAt(lines[..n], last); }
    }
  }
}

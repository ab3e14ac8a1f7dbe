/**
 Lines of a log: the reader's view of its text, the writer's view of its bytes, and the
 backwards search for the last record (src/rif_runtime/storage/jsonl.py).
 */
module Lines {
  import opened Wrappers
  import opened Utf8

  /** ``s.split(sep)``: the pieces between separators, at least one. */
  function Split<T>(s: seq<T>, isSep: T -> bool): (pieces: seq<seq<T>>)
    ensures |pieces| > 0
  {
    if s == [] then [[]] else
    var rest := Split(s[1..], isSep);
    if isSep(s[0]) then [[]] + rest else [[s[0]] + rest[0]] + rest[1..]
  }

  ghost predicate Unbroken<T(!new)>(s: seq<T>, isSep: T -> bool) {
    forall i :: 0 <= i < |s| ==> !isSep(s[i])
  }

  lemma {:induction false} SplitUnbroken<T(!new)>(s: seq<T>, isSep: T -> bool)
    requires Unbroken(s, isSep)
    ensures Split(s, isSep) == [s]
  {
    if s != [] {
      assert Unbroken(s[1..], isSep) by {
        forall i | 0 <= i < |s[1..]| ensures !isSep(s[1..][i]) { assert s[1..][i] == s[i + 1]; }
      }
      SplitUnbroken(s[1..], isSep);
      assert s == [s[0]] + s[1..];
    }
  }

  /** Two adjoining lists of pieces, the last of one continuing into the first of the other. */
  function Glue<T>(l: seq<seq<T>>, r: seq<seq<T>>): seq<seq<T>>
    requires |l| > 0 && |r| > 0
  {
    l[..|l| - 1] + [l[|l| - 1] + r[0]] + r[1..]
  }

  lemma GlueAssociates<T>(a: seq<seq<T>>, b: seq<seq<T>>, c: seq<seq<T>>)
    requires |a| > 0 && |b| > 0 && |c| > 0
    ensures Glue(Glue(a, b), c) == Glue(a, Glue(b, c))
  {
    var x, z := a[|a| - 1], c[0];
    if |b| == 1 {
      assert (x + b[0]) + z == x + (b[0] + z);
      assert Glue(a, b) == a[..|a| - 1] + [x + b[0]];
    } else {
      var m := b[1..|b| - 1];
      assert Glue(a, b) == (a[..|a| - 1] + [x + b[0]] + m) + [b[|b| - 1]];
      assert Glue(b, c) == [b[0]] + (m + [b[|b| - 1] + z] + c[1..]);
    }
  }

  lemma GlueUnits<T>(l: seq<seq<T>>)
    requires |l| > 0
    ensures Glue([[]], l) == l && Glue(l, [[]]) == l
  {
    assert [] + l[0] == l[0] && l[|l| - 1] + [] == l[|l| - 1];
  }

  /** Cutting a text anywhere cuts exactly one of its pieces in two. */
  lemma {:induction false} SplitConcat<T>(a: seq<T>, b: seq<T>, isSep: T -> bool)
    ensures Split(a + b, isSep) == Glue(Split(a, isSep), Split(b, isSep))
  {
    if a == [] {
      assert a + b == b;
      GlueUnits(Split(b, isSep));
    } else {
      assert (a + b)[1..] == a[1..] + b && (a + b)[0] == a[0];
      SplitConcat(a[1..], b, isSep);
      var first := if isSep(a[0]) then [[], []] else [[a[0]]];
      SplitOffFirst(a, isSep);
      SplitOffFirst(a + b, isSep);
      GlueAssociates(first, Split(a[1..], isSep), Split(b, isSep));
    }
  }

  lemma GlueEmptyPiece<T>(rest: seq<seq<T>>)
    requires |rest| > 0
    ensures Glue([[], []], rest) == [[]] + rest
  {
    assert [] + rest[0] == rest[0];
  }

  lemma GlueOnePiece<T>(piece: seq<T>, rest: seq<seq<T>>)
    requires |rest| > 0
    ensures Glue([piece], rest) == [piece + rest[0]] + rest[1..]
  {
  }

  lemma SplitOffFirst<T>(s: seq<T>, isSep: T -> bool)
    requires s != []
    ensures Split(s, isSep) == Glue(if isSep(s[0]) then [[], []] else [[s[0]]], Split(s[1..], isSep))
  {
    GlueEmptyPiece(Split(s[1..], isSep));
    GlueOnePiece([s[0]], Split(s[1..], isSep));
  }

  /** A line and its newline come off the front of a text as one piece. */
  lemma SplitFirstLine<T(!new)>(line: seq<T>, newline: T, rest: seq<T>, isSep: T -> bool)
    requires isSep(newline) && Unbroken(line, isSep)
    ensures Split(line + [newline] + rest, isSep) == [line] + Split(rest, isSep)
  {
    SplitUnbroken(line, isSep);
    assert ([newline] + rest)[1..] == rest;
    assert line + [newline] + rest == line + ([newline] + rest);
    SplitConcat(line, [newline] + rest, isSep);
    assert line + [] == line;
  }

  /** ``bytes.strip`` removes ASCII whitespace. */
  predicate IsAsciiSpace(b: int) {
    9 <= b <= 13 || b == 32
  }

  /** Space, tab, newline, vertical tab, form feed and carriage return. */
  lemma AsciiSpaces(b: int)
    ensures IsAsciiSpace(b) <==> b in {32, 9, 10, 11, 12, 13}
  {
  }

  predicate BlankBytes(line: seq<Byte>) {
    forall i :: 0 <= i < |line| ==> IsAsciiSpace(line[i])
  }

  predicate IsNewline(b: Byte) { b == NEWLINE }

  predicate IsNewlineChar(c: char) { c == '\n' }

  /** ``next(line for line in reversed(lines) if line.strip())`` */
  function LastNonBlank(lines: seq<seq<Byte>>): (found: Option<seq<Byte>>)
  {
    if lines == [] then None
    else if !BlankBytes(lines[|lines| - 1]) then Some(lines[|lines| - 1])
    else LastNonBlank(lines[..|lines| - 1])
  }

  /** The naive reading the search must agree with: split the whole file, take its last non-blank line. */
  function NaiveTail(data: seq<Byte>): Option<seq<Byte>> {
    LastNonBlank(Split(data, IsNewline))
  }

  lemma OneLine(line: seq<Byte>)
    ensures LastNonBlank([line]) == if BlankBytes(line) then None else Some(line)
  {
    assert [line][..|[line]| - 1] == [];
  }

  lemma {:induction false} LastNonBlankOfSuffix(front: seq<seq<Byte>>, back: seq<seq<Byte>>)
    ensures LastNonBlank(front + back) == if LastNonBlank(back).Some? then LastNonBlank(back) else LastNonBlank(front)
  {
    if back == [] {
      assert front + back == front;
    } else {
      var n := |back| - 1;
      assert (front + back)[..|front + back| - 1] == front + back[..n];
      LastNonBlankOfSuffix(front, back[..n]);
    }
  }

  lemma {:induction false} LastNonBlankAt(lines: seq<seq<Byte>>) returns (last: int)
    ensures -1 <= last < |lines| && forall i :: last < i < |lines| ==> BlankBytes(lines[i])
    ensures last >= 0 ==> !BlankBytes(lines[last])
    ensures LastNonBlank(lines) == if last < 0 then None else Some(lines[last])
  {
    last := |lines| - 1;
    if lines != [] && BlankBytes(lines[last]) { last := LastNonBlankAt(lines[..last]); }
  }

  /**
   Finding the final record without parsing the file: read a window back from the end, drop the
   piece the window may have cut, take the last non-blank line, double the window if there is none.
   */
  method FindTail(data: seq<Byte>, initialWindow: nat) returns (found: Option<seq<Byte>>)
    requires initialWindow > 0
    ensures found == NaiveTail(data)
  {
    var size := |data|;
    if size == 0 {
      OneLine(data);
      return None;
    }
    var window := initialWindow;
    while true
      invariant window > 0
      decreases size - window
    {
      var start := if size < window then 0 else size - window;
      var lines := Split(data[start..], IsNewline);
      var complete := if start == 0 then lines else lines[1..];
      found := LastNonBlank(complete);
      if found.Some? {
        WindowSuffices(data, start);
        return;
      }
      if start == 0 { return; }
      window := window * 2;
    }
  }

  lemma WindowSuffices(data: seq<Byte>, start: nat)
    requires start <= |data|
    ensures var lines := Split(data[start..], IsNewline);
            var found := LastNonBlank(if start == 0 then lines else lines[1..]);
            found.Some? ==> found == NaiveTail(data)
  {
    var l, r := Split(data[..start], IsNewline), Split(data[start..], IsNewline);
    assert data == data[..start] + data[start..];
    SplitConcat(data[..start], data[start..], IsNewline);
    LastNonBlankOfSuffix(l[..|l| - 1] + [l[|l| - 1] + r[0]], r[1..]);
    if start == 0 { assert data[0..] == data; }
  }

  /**
   What the last record is, with no splitting: it starts the file or follows a newline, holds no
   newline, is not blank, and only whitespace beginning with a newline comes after it.
   */
  ghost predicate IsLastRecord(data: seq<Byte>, at: nat, end: nat) {
    && at <= end <= |data|
    && (at == 0 || data[at - 1] == NEWLINE)
    && (forall i :: at <= i < end ==> data[i] != NEWLINE)
    && (exists i :: at <= i < end && !IsAsciiSpace(data[i]))
    && (forall i :: end <= i < |data| ==> IsAsciiSpace(data[i]))
    && (end == |data| || data[end] == NEWLINE)
  }

  /** The search finds the last record of the file, and reports none exactly for a blank file. */
  lemma {:induction false} TailIsLastRecord(data: seq<Byte>) returns (at: nat, end: nat)
    ensures NaiveTail(data) == None <==> BlankBytes(data)
    ensures NaiveTail(data).Some? ==> IsLastRecord(data, at, end) && NaiveTail(data).value == data[at..end]
    decreases |data|
  {
    at, end := |data|, |data|;
    while at > 0 && data[at - 1] != NEWLINE
      invariant at <= |data| && forall i :: at <= i < |data| ==> data[i] != NEWLINE
    {
      at := at - 1;
    }
    if at == 0 {
      SplitUnbroken(data, IsNewline);
      OneLine(data);
      assert data[0..] == data;
    } else {
      var front, line := data[..at - 1], data[at..];
      LastLine(data, at - 1);
      assert forall i :: at <= i < |data| ==> line[i - at] == data[i];
      assert forall i :: 0 <= i < |front| ==> front[i] == data[i];
      assert BlankBytes(data) <==> BlankBytes(front) && BlankBytes(line);
      if BlankBytes(line) {
        at, end := TailIsLastRecord(front);
        if NaiveTail(front).Some? { assert front[at..end] == data[at..end]; }
      } else {
        assert line == data[at..end];
      }
    }
  }

  lemma LastLine(data: seq<Byte>, newline: nat)
    requires newline < |data| && data[newline] == NEWLINE
    requires forall i :: newline < i < |data| ==> data[i] != NEWLINE
    ensures var line := data[newline + 1..];
            NaiveTail(data) == if BlankBytes(line) then NaiveTail(data[..newline]) else Some(line)
  {
    var front, line := data[..newline], data[newline + 1..];
    SplitUnbroken(line, IsNewline);
    assert Split([NEWLINE] + line, IsNewline) == [[], line];
    assert data == front + ([NEWLINE] + line);
    SplitConcat(front, [NEWLINE] + line, IsNewline);
    var f := Split(front, IsNewline);
    assert f[|f| - 1] + [] == f[|f| - 1];
    assert Split(data, IsNewline) == f + [line];
    LastNonBlankOfSuffix(f, [line]);
  }

  /** There is only one last record, so the two descriptions determine each other. */
  lemma LastRecordIsUnique(data: seq<Byte>, at: nat, end: nat, at': nat, end': nat)
    requires IsLastRecord(data, at, end) && IsLastRecord(data, at', end')
    ensures at == at' && end == end'
  {
    var i :| at <= i < end && !IsAsciiSpace(data[i]);
    var i' :| at' <= i' < end' && !IsAsciiSpace(data[i']);
    assert i < end' && i' < end;
  }

  /** Byte 0x0A is never part of a longer character: text without newlines encodes without them. */
  lemma {:induction false} EncodingAddsNoNewline(text: string)
    requires Unbroken(text, IsNewlineChar)
    ensures Unbroken(Encode(text), IsNewline)
  {
    if text != [] {
      assert Unbroken(text[1..], IsNewlineChar) by {
        forall i | 0 <= i < |text| - 1 ensures !IsNewlineChar(text[1..][i]) { assert text[1..][i] == text[i + 1]; }
      }
      EncodingAddsNoNewline(text[1..]);
      assert text[0] != '\n';
    }
  }
}

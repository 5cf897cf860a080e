/**
 Append-only native logs (sessionlog/jsonl.go): what a file's complete lines are, how a cursor follows them,
 and how an unterminated or invalid tail is cut.

 A file is its bytes and an identity token, one char per byte. A checksum is the bytes it digests, which is
 what an injective hash amounts to. Whitespace is the ASCII whitespace.
 */
module Jsonl {
  import opened Wrappers
  import opened Lines

  const CURSOR_CHECK_BYTES: nat := 4096

  datatype File = File(content: string, identity: nat)

  /** The zero cursor is `START`; `position` belongs to sources that are not files. */
  datatype Cursor = Cursor(offset: nat, file: Option<nat>, head: string, check: string, position: Option<string>)

  const START := Cursor(0, None, "", "", None)

  datatype Tail = Tail(rows: seq<string>, next: Cursor, full: bool, data: string, start: nat)

  // ---- rows ----

  predicate Space(c: char) {
    c == ' ' || c == '\t' || c == '\n' || c == 11 as char || c == 12 as char || c == '\r'
  }

  /** The first byte from i on that is not whitespace. */
  function Ink(s: string, i: nat): (k: nat)
    requires i <= |s|
    ensures i <= k <= |s|
    decreases |s| - i
  {
    if i < |s| && Space(s[i]) then Ink(s, i + 1) else i
  }

  /** Just after the last byte before n that is not whitespace. */
  function InkEnd(s: string, n: nat): (k: nat)
    requires n <= |s|
    ensures k <= n
  {
    if n > 0 && Space(s[n - 1]) then InkEnd(s, n - 1) else n
  }

  /** bytes.TrimSpace. */
  function Trim(s: string): string {
    var from := Ink(s, 0);
    var to := InkEnd(s, |s|);
    if from < to then s[from..to] else ""
  }

  lemma {:induction false} InkMeans(s: string, i: nat)
    requires i <= |s|
    ensures var k := Ink(s, i); (k < |s| ==> !Space(s[k])) && forall j | i <= j < k :: Space(s[j])
    decreases |s| - i
  {
    if i < |s| && Space(s[i]) { InkMeans(s, i + 1); }
  }

  lemma {:induction false} InkEndMeans(s: string, n: nat)
    requires n <= |s|
    ensures var k := InkEnd(s, n); (k > 0 ==> !Space(s[k - 1])) && forall j | k <= j < n :: Space(s[j])
  {
    if n > 0 && Space(s[n - 1]) { InkEndMeans(s, n - 1); }
  }

  /** Where the trimmed bytes lie. */
  lemma TrimIs(s: string, from: nat, to: nat)
    requires from < to <= |s| && !Space(s[from]) && !Space(s[to - 1])
    requires (forall j | 0 <= j < from :: Space(s[j])) && forall j | to <= j < |s| :: Space(s[j])
    ensures Ink(s, 0) == from && InkEnd(s, |s|) == to && Trim(s) == s[from..to]
  {
    InkMeans(s, 0);
    InkEndMeans(s, |s|);
  }

  /** Nothing but whitespace. */
  predicate Blank(s: string) {
    InkEnd(s, |s|) == 0
  }

  lemma BlankTrims(s: string)
    ensures Blank(s) <==> Trim(s) == ""
  {
    InkMeans(s, 0);
    InkEndMeans(s, |s|);
  }

  /** What one line contributes: its trimmed bytes, unless it is blank. */
  function RowOf(line: string): seq<string> {
    if Blank(line) then [] else [Trim(line)]
  }

  /** The trimmed non-empty complete lines. */
  function Rows(data: string): seq<string>
    decreases |data|
  {
    var n := FirstLine(data);
    if n == 0 then [] else RowOf(data[..n]) + Rows(data[n..])
  }

  /** The offset just after the last newline, or zero when there is none. */
  function LineEnd(s: string): (n: nat)
    ensures n <= |s|
  {
    if s == "" then 0 else if s[|s| - 1] == '\n' then |s| else LineEnd(s[..|s| - 1])
  }

  /** Empty, or ended by a newline. */
  predicate Terminated(s: string) {
    s == "" || s[|s| - 1] == '\n'
  }

  lemma {:induction false} LineEndMeans(s: string)
    ensures Terminated(s[..LineEnd(s)]) && '\n' !in s[LineEnd(s)..]
    decreases |s|
  {
    if s != "" && s[|s| - 1] != '\n' {
      var t := s[..|s| - 1];
      LineEndMeans(t);
      assert s[..LineEnd(s)] == t[..LineEnd(t)];
      assert s[LineEnd(s)..] == t[LineEnd(t)..] + [s[|s| - 1]];
    }
  }

  /** The last newline is the only place a line end can be. */
  lemma {:induction false} LineEndAt(s: string, n: nat)
    requires n <= |s| && (n > 0 ==> s[n - 1] == '\n') && forall i | n <= i < |s| :: s[i] != '\n'
    ensures LineEnd(s) == n
    decreases |s|
  {
    if n < |s| { LineEndAt(s[..|s| - 1], n); }
  }

  /** The bytes are a complete line and the rest. */
  predicate Leads(s: string, line: string, rest: string) {
    && line != "" && line[|line| - 1] == '\n' && '\n' !in line[..|line| - 1]
    && |rest| < |s| && s == line + rest
  }

  lemma FirstOf(s: string) returns (line: string, rest: string)
    requires '\n' in s
    ensures Leads(s, line, rest) && (Terminated(s) ==> Terminated(rest))
  {
    var n := FirstLine(s);
    line, rest := s[..n], s[n..];
    assert line[..n - 1] == s[..n - 1];
    assert rest != "" ==> rest[|rest| - 1] == s[|s| - 1];
  }

  lemma LeadThen(s: string, line: string, rest: string)
    requires Leads(s, line, rest)
    ensures Rows(s) == RowOf(line) + Rows(rest)
  {
    FirstLineOf(line, rest);
    assert s[..|line|] == line && s[|line|..] == rest;
  }

  lemma LeadsMore(s: string, line: string, rest: string, more: string)
    requires Leads(s, line, rest)
    ensures Leads(s + more, line, rest + more)
  {
  }

  /** Rows split at any line boundary. */
  lemma {:induction false} RowsAppend(a: string, b: string)
    requires Terminated(a)
    ensures Rows(a + b) == Rows(a) + Rows(b)
    decreases |a|
  {
    if a == "" {
      assert a + b == b;
    } else {
      LastIn(a);
      var line, rest := FirstOf(a);
      RowsAppend(rest, b);
      AppendStep(a, b, line, rest);
    }
  }

  lemma AppendStep(a: string, b: string, line: string, rest: string)
    requires Leads(a, line, rest) && Rows(rest + b) == Rows(rest) + Rows(b)
    ensures Rows(a + b) == Rows(a) + Rows(b)
  {
    LeadsMore(a, line, rest, b);
    LeadThen(a, line, rest);
    LeadThen(a + b, line, rest + b);
    Assoc(RowOf(line), Rows(rest), Rows(b));
  }

  lemma Assoc(x: seq<string>, y: seq<string>, z: seq<string>)
    ensures x + (y + z) == x + y + z
  {
  }

  lemma Split(s: string, n: nat)
    requires n <= |s|
    ensures s == s[..n] + s[n..]
  {
  }

  lemma RowsOfParts(s: string, a: string, b: string)
    requires s == a + b && Terminated(a)
    ensures Rows(s) == Rows(a) + Rows(b)
  {
    RowsAppend(a, b);
  }

  lemma NoCompleteLine(s: string)
    requires '\n' !in s
    ensures Rows(s) == []
  {
  }

  /** An unterminated remainder contributes nothing. */
  lemma RowsOfComplete(s: string)
    ensures Rows(s[..LineEnd(s)]) == Rows(s)
  {
    var n := LineEnd(s);
    LineEndMeans(s);
    Split(s, n);
    RowsOfParts(s, s[..n], s[n..]);
    NoCompleteLine(s[n..]);
  }

  // ---- where a row lives ----

  /** Tail.offset within the data: the bytes before the line of row `index`. */
  function RowOffset(data: string, index: nat): (n: nat)
    ensures n <= |data|
    decreases |data|
  {
    var n := FirstLine(data);
    if n == 0 then |data|
    else if Blank(data[..n]) then n + RowOffset(data[n..], index)
    else if index == 0 then 0
    else n + RowOffset(data[n..], index - 1)
  }

  /** What holds of cutting data before a row. */
  predicate CutsBefore(data: string, index: nat, n: nat) {
    && n <= |data| && index <= |Rows(data)|
    && Terminated(data[..n]) && Rows(data[..n]) == Rows(data)[..index]
    && (index < |Rows(data)| ==> n < |data|)
  }

  /** Cutting terminated data before a row keeps exactly the rows before it. */
  lemma {:induction false} CutKeepsRows(data: string, index: nat)
    requires Terminated(data) && index <= |Rows(data)|
    ensures CutsBefore(data, index, RowOffset(data, index))
    decreases |data|
  {
    LastIn(data);
    if data != "" {
      var line, rest := FirstOf(data);
      var width := |RowOf(line)|;
      LeadThen(data, line, rest);
      if width <= index {
        var left := index - width;
        OffsetPastLine(data, line, rest, index, left);
        CutKeepsRows(rest, left);
        CutPastLine(data, line, rest, index, left, RowOffset(rest, left), RowOffset(data, index));
      } else {
        WidthOf(line);
        OffsetAtLine(data, line, rest);
        CutAtStart(data);
      }
    }
  }

  lemma LastIn(data: string)
    ensures data != "" && Terminated(data) ==> '\n' in data
  {
  }

  lemma OffsetPastLine(data: string, line: string, rest: string, index: nat, left: nat)
    requires Leads(data, line, rest) && index == left + |RowOf(line)|
    ensures RowOffset(data, index) == |line| + RowOffset(rest, left)
  {
    if Blank(line) {
      OffsetPastBlank(data, line, rest, left);
      assert index == left;
    } else {
      OffsetPastRow(data, line, rest, left);
      assert index == left + 1;
    }
  }

  lemma OffsetPastBlank(data: string, line: string, rest: string, index: nat)
    requires Leads(data, line, rest) && Blank(line)
    ensures RowOffset(data, index) == |line| + RowOffset(rest, index)
  {
    LeadParts(data, line, rest);
  }

  lemma OffsetPastRow(data: string, line: string, rest: string, left: nat)
    requires Leads(data, line, rest) && !Blank(line)
    ensures RowOffset(data, left + 1) == |line| + RowOffset(rest, left)
  {
    LeadParts(data, line, rest);
  }

  /** Where the first line of a stream ends. */
  lemma LeadParts(data: string, line: string, rest: string)
    requires Leads(data, line, rest)
    ensures FirstLine(data) == |line| && data[..|line|] == line && data[|line|..] == rest
  {
    FirstLineOf(line, rest);
  }

  lemma WidthOf(line: string)
    ensures |RowOf(line)| == if Blank(line) then 0 else 1
  {
  }

  lemma OffsetAtLine(data: string, line: string, rest: string)
    requires Leads(data, line, rest) && !Blank(line)
    ensures RowOffset(data, 0) == 0
  {
    LeadParts(data, line, rest);
  }

  lemma CutAtStart(data: string)
    requires 0 < |Rows(data)|
    ensures CutsBefore(data, 0, 0)
  {
    assert data[..0] == "";
  }

  lemma CutPastLine(data: string, line: string, rest: string, index: nat, left: nat, k: nat, cut: nat)
    requires Leads(data, line, rest) && index == left + |RowOf(line)|
    requires CutsBefore(rest, left, k) && cut == |line| + k
    ensures CutsBefore(data, index, cut)
  {
    TakePastLine(data, line, rest, k, cut);
    LeadThen(data, line, rest);
    LeadThen(data[..cut], line, rest[..k]);
    TakePast(RowOf(line), Rows(rest), index, left);
  }

  lemma TakePastLine(data: string, line: string, rest: string, k: nat, cut: nat)
    requires Leads(data, line, rest) && k <= |rest| && cut == |line| + k
    ensures Leads(data[..cut], line, rest[..k]) && (Terminated(rest[..k]) ==> Terminated(data[..cut]))
  {
    assert data[..cut] == line + rest[..k];
  }

  lemma TakePast(a: seq<string>, b: seq<string>, index: nat, left: nat)
    requires index == |a| + left && left <= |b|
    ensures (a + b)[..index] == a + b[..left]
  {
  }

  lemma LastLine(line: string)
    requires line != "" && line[|line| - 1] == '\n' && '\n' !in line[..|line| - 1]
    ensures Rows(line) == RowOf(line)
  {
    LeadThen(line, line, "");
  }

  // ---- cursors and reads ----

  function Min(a: nat, b: nat): nat {
    if a < b then a else b
  }

  /** checksums: the first and the last bytes before an offset. */
  function Head(content: string, offset: nat): string
    requires offset <= |content|
  {
    content[..Min(offset, CURSOR_CHECK_BYTES)]
  }

  function Check(content: string, offset: nat): string
    requires offset <= |content|
  {
    content[offset - Min(offset, CURSOR_CHECK_BYTES)..offset]
  }

  function CursorAt(file: File, offset: nat): Cursor
    requires offset <= |file.content|
  {
    if offset == 0 then Cursor(0, Some(file.identity), "", "", None)
    else Cursor(offset, Some(file.identity), Head(file.content, offset), Check(file.content, offset), None)
  }

  /** The file still extends, as far as the checksums show, what the cursor read. */
  predicate Resumes(file: File, from: Cursor, size: nat)
    requires size <= |file.content|
  {
    && 0 < from.offset <= size && from.file == Some(file.identity)
    && Head(file.content, from.offset) == from.head && Check(file.content, from.offset) == from.check
  }

  datatype LogError = Shorter | SpansLines(index: nat)

  /** ReadJSONLFile: a negative size reads to the end, one beyond the end fails. */
  function ReadFile(file: File, from: Cursor, size: int): Result<Tail, LogError> {
    var n := if size < 0 then |file.content| else size;
    if n > |file.content| then Err(Shorter)
    else
      Ok(TailOf(file, if Resumes(file, from, n) then from.offset else 0, n))
  }

  /** The tail of the bytes between two offsets. */
  function TailOf(file: File, start: nat, end: nat): Tail
    requires start <= end <= |file.content|
  {
    var data := file.content[start..end];
    Tail(Rows(data), CursorAt(file, start + LineEnd(data)), start == 0, data[..LineEnd(data)], start)
  }

  /** ReadJSONL: a missing file reads as an empty history. */
  function Read(file: Option<File>, from: Cursor): Tail {
    if file.None? then Tail([], START, true, "", 0) else ReadFile(file.value, from, -1).value
  }

  /** The bytes a read's rows span end on a line boundary. */
  lemma ReadDataEnds(file: Option<File>, from: Cursor)
    ensures Terminated(Read(file, from).data)
  {
    if file.Some? {
      var n := |file.value.content|;
      var start := if Resumes(file.value, from, n) then from.offset else 0;
      LineEndMeans(file.value.content[start..n]);
    }
  }

  /** Up to twice the window the checksums cover every byte read, and beyond it they do not. */
  lemma WindowsCoverExactly(n: nat)
    ensures (forall a: string, b: string
               | |a| == n && |b| == n && Head(a, n) == Head(b, n) && Check(a, n) == Check(b, n) :: a == b)
            <==> n <= 2 * CURSOR_CHECK_BYTES
  {
    var w := CURSOR_CHECK_BYTES;
    if n <= 2 * w {
      forall a: string, b: string | |a| == n && |b| == n && Head(a, n) == Head(b, n) && Check(a, n) == Check(b, n)
        ensures a == b
      {
        WindowsCover(a, b, n);
      }
    } else {
      var a := seq(n, i => 'a');
      var b := a[w := 'b'];
      assert a[w] != b[w];
      assert Head(a, n) == Head(b, n) && Check(a, n) == Check(b, n);
    }
  }

  lemma WindowsCover(a: string, b: string, n: nat)
    requires |a| == n == |b| && n <= 2 * CURSOR_CHECK_BYTES
    requires Head(a, n) == Head(b, n) && Check(a, n) == Check(b, n)
    ensures a == b
  {
    var w := Min(n, CURSOR_CHECK_BYTES);
    forall i | 0 <= i < n ensures a[i] == b[i] {
      if i < w {
        assert a[..w][i] == b[..w][i];
      } else {
        assert a[n - w..][i - (n - w)] == b[n - w..][i - (n - w)];
      }
    }
  }

  /** A cursor at most two windows long is continued from exactly when the file extends what it read. */
  lemma ContinuationIsExact(was: File, offset: nat, file: File)
    requires 0 < offset <= |was.content| && offset <= 2 * CURSOR_CHECK_BYTES
    ensures Resumes(file, CursorAt(was, offset), |file.content|) <==>
            && file.identity == was.identity && offset <= |file.content|
            && file.content[..offset] == was.content[..offset]
  {
    if offset <= |file.content| {
      var a, b := was.content[..offset], file.content[..offset];
      WindowsOfPrefix(was.content, offset);
      WindowsOfPrefix(file.content, offset);
      if Head(a, offset) == Head(b, offset) && Check(a, offset) == Check(b, offset) {
        WindowsCover(a, b, offset);
      }
    }
  }

  lemma WindowsOfPrefix(content: string, offset: nat)
    requires offset <= |content|
    ensures Head(content, offset) == Head(content[..offset], offset)
    ensures Check(content, offset) == Check(content[..offset], offset)
  {
  }

  lemma SamePrefixSameCursor(a: File, b: File, offset: nat)
    requires offset <= |a.content| && offset <= |b.content| && a.identity == b.identity
    requires a.content[..offset] == b.content[..offset]
    ensures CursorAt(a, offset) == CursorAt(b, offset)
  {
    WindowsOfPrefix(a.content, offset);
    WindowsOfPrefix(b.content, offset);
  }

  /** Reading up to a size is reading the file as it was when it had that size; it fails when it never had it. */
  lemma ReadUpToIsCut(file: File, from: Cursor, size: nat)
    ensures var result := ReadFile(file, from, size);
            && (result == Err(Shorter) <==> size > |file.content|)
            && (size <= |file.content| ==>
                  result == Ok(Read(Some(file.(content := file.content[..size])), from)))
  {
    if size <= |file.content| {
      var cut := file.(content := file.content[..size]);
      if from.offset <= size { PrefixWindows(file.content, from.offset, size); }
      SameTail(file, cut, if Resumes(cut, from, size) then from.offset else 0, size);
    }
  }

  lemma PrefixWindows(content: string, offset: nat, size: nat)
    requires offset <= size <= |content|
    ensures Head(content[..size], offset) == Head(content, offset)
    ensures Check(content[..size], offset) == Check(content, offset)
  {
  }

  lemma SameTail(file: File, cut: File, start: nat, size: nat)
    requires start <= size <= |file.content| && cut == file.(content := file.content[..size])
    ensures TailOf(cut, start, size) == TailOf(file, start, size)
  {
    assert cut.content[start..size] == file.content[start..size];
    PrefixWindows(file.content, start + LineEnd(file.content[start..size]), size);
  }

  // ---- following a growing file ----

  /** The cursor stands on a line boundary of the file, after exactly the rows collected. */
  predicate Marks(file: File, cursor: Cursor, rows: seq<string>) {
    && cursor.offset <= LineEnd(file.content) && cursor == CursorAt(file, cursor.offset)
    && Terminated(file.content[..cursor.offset]) && rows == Rows(file.content[..cursor.offset])
  }

  lemma ReadIsTail(file: File, cursor: Cursor)
    ensures Read(Some(file), cursor)
            == TailOf(file, if Resumes(file, cursor, |file.content|) then cursor.offset else 0, |file.content|)
  {
  }

  /**
   A read from a marked position returns exactly the rows after it, and reports them as the whole history only
   from the start of the file, where nothing has been read.
   */
  lemma ReadContinues(file: File, cursor: Cursor, rows: seq<string>)
    requires Marks(file, cursor, rows)
    ensures var t := Read(Some(file), cursor);
            && (t.full <==> cursor.offset == 0) && rows + t.rows == Rows(file.content)
            && t.next == CursorAt(file, LineEnd(file.content)) && Marks(file, t.next, Rows(file.content))
  {
    if cursor.offset == 0 {
      ReadFromStart(file, cursor);
      NothingBefore(file, cursor, rows, Rows(file.content));
    } else {
      MarkResumes(file, cursor, rows);
      ReadIsTail(file, cursor);
      TailContinues(file, cursor, rows);
    }
  }

  lemma NothingBefore(file: File, cursor: Cursor, rows: seq<string>, all: seq<string>)
    requires Marks(file, cursor, rows) && cursor.offset == 0
    ensures rows == [] && rows + all == all
  {
    NoCompleteLine(file.content[..0]);
  }

  lemma TailContinues(file: File, cursor: Cursor, rows: seq<string>)
    requires Marks(file, cursor, rows) && cursor.offset > 0
    ensures var t := TailOf(file, cursor.offset, |file.content|);
            && rows + t.rows == Rows(file.content) && !t.full
            && t.next == CursorAt(file, LineEnd(file.content)) && Marks(file, t.next, Rows(file.content))
  {
    EndMarks(file);
    FromBoundary(file.content, cursor.offset);
    ToTheEnd(file.content, cursor.offset);
    TailEnds(file, cursor.offset);
  }

  lemma ToTheEnd(s: string, from: nat)
    requires from <= |s|
    ensures s[from..|s|] == s[from..]
  {
  }

  lemma TailEnds(file: File, start: nat)
    requires start <= |file.content| && LineEnd(file.content) == start + LineEnd(file.content[start..|file.content|])
    ensures TailOf(file, start, |file.content|).next == CursorAt(file, LineEnd(file.content))
  {
  }

  lemma MarkResumes(file: File, cursor: Cursor, rows: seq<string>)
    requires Marks(file, cursor, rows) && cursor.offset > 0
    ensures Resumes(file, cursor, |file.content|)
  {
  }

  lemma FromBoundary(c: string, n: nat)
    requires n <= |c| && Terminated(c[..n])
    ensures Rows(c) == Rows(c[..n]) + Rows(c[n..]) && LineEnd(c) == n + LineEnd(c[n..])
  {
    Split(c, n);
    RowsOfParts(c, c[..n], c[n..]);
    LineEndAppend(c, n);
  }

  /** The cursor after the last complete line marks every row. */
  lemma EndMarks(file: File)
    ensures Marks(file, CursorAt(file, LineEnd(file.content)), Rows(file.content))
  {
    LineEndMeans(file.content);
    RowsOfComplete(file.content);
  }

  lemma LineEndAppend(s: string, n: nat)
    requires n <= |s| && Terminated(s[..n])
    ensures LineEnd(s) == n + LineEnd(s[n..])
  {
    Split(s, n);
    LineEndJoin(s[..n], s[n..]);
  }

  lemma {:induction false} LineEndJoin(a: string, b: string)
    requires Terminated(a)
    ensures LineEnd(a + b) == |a| + LineEnd(b)
    decreases |b|
  {
    if b == "" {
      assert a + b == a;
    } else if b[|b| - 1] != '\n' {
      assert (a + b)[..|a + b| - 1] == a + b[..|b| - 1];
      LineEndJoin(a, b[..|b| - 1]);
    }
  }

  /** A read from the start, or from a cursor the file no longer extends, returns every row. */
  lemma ReadFromStart(file: File, cursor: Cursor)
    requires !Resumes(file, cursor, |file.content|)
    ensures var t := Read(Some(file), cursor);
            && t.full && t.rows == Rows(file.content)
            && t.next == CursorAt(file, LineEnd(file.content)) && Marks(file, t.next, t.rows)
            && t.data == file.content[..LineEnd(file.content)] && t.start == 0
  {
    ReadIsTail(file, cursor);
    ToTheEnd(file.content, 0);
    assert file.content[0..] == file.content;
    EndMarks(file);
  }

  lemma MarksAppend(file: File, cursor: Cursor, rows: seq<string>, bytes: string)
    requires Marks(file, cursor, rows)
    ensures Marks(file.(content := file.content + bytes), cursor, rows)
  {
    var c, n := file.content, cursor.offset;
    assert (c + bytes)[..n] == c[..n];
    SamePrefixSameCursor(file, file.(content := c + bytes), n);
    assert (c + bytes)[n..] == c[n..] + bytes;
    LineEndAppend(c + bytes, n);
  }

  datatype LogStep = Append(bytes: string) | ReadOn | Repair

  /** A file, the reader's cursor, and every row its reads have returned so far, in order. */
  datatype Follower = Follower(file: File, cursor: Cursor, returned: seq<string>)

  function Advance(f: Follower, step: LogStep, complete: string -> bool): Follower {
    match step
    case Append(bytes) => f.(file := f.file.(content := f.file.content + bytes))
    case Repair => f.(file := f.file.(content := CutTorn(f.file.content, complete).0))
    case ReadOn =>
      var t := Read(Some(f.file), f.cursor);
      f.(cursor := t.next, returned := f.returned + t.rows)
  }

  function Followed(f: Follower, steps: seq<LogStep>, complete: string -> bool): Follower {
    if steps == [] then f
    else Advance(Followed(f, steps[..|steps| - 1], complete), steps[|steps| - 1], complete)
  }

  // ---- torn tails ----

  datatype TornTail = TornTail(cut: nat, terminated: bool)

  /** cutTornTail: a complete last record receives its newline, any other unterminated tail is cut. */
  function CutTorn(content: string, complete: string -> bool): (string, TornTail) {
    var end := LineEnd(content);
    if end == |content| then (content, TornTail(0, false))
    else if complete(content[end..]) then (content + "\n", TornTail(0, true))
    else (content[..end], TornTail(|content| - end, false))
  }

  /**
   Cutting a torn tail leaves a file on a line boundary, keeps every complete line, adds the last record exactly
   when it is complete and unterminated, reports the bytes it removed, and done twice does nothing more.
   */
  lemma TornTailCut(content: string, complete: string -> bool)
    ensures var (after, torn) := CutTorn(content, complete);
            var end := LineEnd(content);
            && Terminated(after) && end <= |after| && after[..end] == content[..end]
            && (torn.terminated <==> end < |content| && complete(content[end..]))
            && |after| + torn.cut == |content| + (if torn.terminated then 1 else 0)
            && Rows(after) == Rows(content) + (if torn.terminated then RowOf(content[end..] + "\n") else [])
            && CutTorn(after, complete) == (after, TornTail(0, false))
  {
    TornTailBoundary(content, complete);
    if CutTorn(content, complete).1.terminated {
      TerminatedRows(content);
    } else {
      RowsOfComplete(content);
      assert Rows(content) + [] == Rows(content);
    }
  }

  lemma TornTailBoundary(content: string, complete: string -> bool)
    ensures var (after, torn) := CutTorn(content, complete);
            var end := LineEnd(content);
            && Terminated(after) && end <= |after| && after[..end] == content[..end]
            && |after| + torn.cut == |content| + (if torn.terminated then 1 else 0)
            && LineEnd(after) == |after|
            && after == (if torn.terminated then content + "\n" else content[..end])
            && (torn.terminated ==> end < |content|)
  {
    LineEndMeans(content);
    var end := LineEnd(content);
    assert (content + "\n")[..end] == content[..end];
    assert content[..end][..end] == content[..end];
    if end == |content| { assert content[..end] == content; }
  }

  /** Terminating the last record adds its row. */
  lemma TerminatedRows(content: string)
    requires LineEnd(content) < |content|
    ensures Rows(content + "\n") == Rows(content) + RowOf(content[LineEnd(content)..] + "\n")
  {
    var end := LineEnd(content);
    var last := content[end..] + "\n";
    LineEndMeans(content);
    RowsOfComplete(content);
    assert last[..|last| - 1] == content[end..];
    LastLine(last);
    SplitTail(content, end);
    RowsOfParts(content + "\n", content[..end], last);
  }

  lemma SplitTail(s: string, n: nat)
    requires n <= |s|
    ensures s + "\n" == s[..n] + (s[n..] + "\n")
  {
  }

  lemma MarksRepair(file: File, cursor: Cursor, rows: seq<string>, complete: string -> bool)
    requires Marks(file, cursor, rows)
    ensures Marks(file.(content := CutTorn(file.content, complete).0), cursor, rows)
  {
    var c, n := file.content, cursor.offset;
    var after := CutTorn(c, complete).0;
    TornTailBoundary(c, complete);
    ShorterPrefix(after, c, LineEnd(c), n);
    SamePrefixSameCursor(file, file.(content := after), n);
  }

  lemma ShorterPrefix(a: string, b: string, m: nat, n: nat)
    requires n <= m <= |a| && m <= |b| && a[..m] == b[..m]
    ensures a[..n] == b[..n]
  {
    assert a[..n] == a[..m][..n] && b[..n] == b[..m][..n];
  }

  /** The reader's invariant: at the start of the file, or on a boundary after exactly what it was given. */
  predicate UpToDate(f: Follower) {
    (f.cursor == START && f.returned == []) || Marks(f.file, f.cursor, f.returned)
  }

  lemma AdvanceKeeps(f: Follower, step: LogStep, complete: string -> bool)
    requires UpToDate(f)
    ensures UpToDate(Advance(f, step, complete))
    ensures step.ReadOn? ==> Advance(f, step, complete).returned == Rows(f.file.content)
  {
    match step
    case Append(bytes) => if f.cursor != START { MarksAppend(f.file, f.cursor, f.returned, bytes); }
    case Repair => if f.cursor != START { MarksRepair(f.file, f.cursor, f.returned, complete); }
    case ReadOn => ReadCompletes(f.file, f.cursor, f.returned);
  }

  lemma ReadCompletes(file: File, cursor: Cursor, rows: seq<string>)
    requires (cursor == START && rows == []) || Marks(file, cursor, rows)
    ensures var t := Read(Some(file), cursor);
            && rows + t.rows == Rows(file.content) && Marks(file, t.next, Rows(file.content))
            && (t.full <==> cursor.offset == 0)
  {
    if Marks(file, cursor, rows) {
      ReadContinues(file, cursor, rows);
    } else {
      ReadFromStart(file, cursor);
      assert [] + Rows(file.content) == Rows(file.content);
    }
  }

  lemma {:induction false} FollowedUpToDate(f: Follower, steps: seq<LogStep>, complete: string -> bool)
    requires UpToDate(f)
    ensures UpToDate(Followed(f, steps, complete))
  {
    if steps != [] {
      FollowedUpToDate(f, steps[..|steps| - 1], complete);
      AdvanceKeeps(Followed(f, steps[..|steps| - 1], complete), steps[|steps| - 1], complete);
    }
  }

  /**
   For any interleaving of appends, repairs and reads, all the rows all the reads returned, one after the
   other, are exactly the rows of the file's complete lines at the last read: none lost, none repeated.
   */
  lemma FollowingIsExact(file: File, steps: seq<LogStep>, complete: string -> bool)
    requires steps != [] && steps[|steps| - 1].ReadOn?
    ensures var f := Followed(Follower(file, START, []), steps, complete); f.returned == Rows(f.file.content)
  {
    var start := Follower(file, START, []);
    FollowedUpToDate(start, steps[..|steps| - 1], complete);
    AdvanceKeeps(Followed(start, steps[..|steps| - 1], complete), ReadOn, complete);
  }

  /** Wherever such a run stands, the next read starts over only if no complete line has been read yet. */
  lemma FullOnlyFromTheStart(file: File, steps: seq<LogStep>, complete: string -> bool)
    ensures var f := Followed(Follower(file, START, []), steps, complete);
            && (Read(Some(f.file), f.cursor).full <==> f.cursor.offset == 0)
            && (Read(Some(f.file), f.cursor).full ==> f.returned == [])
  {
    var start := Follower(file, START, []);
    FollowedUpToDate(start, steps, complete);
    var f := Followed(start, steps, complete);
    ReadCompletes(f.file, f.cursor, f.returned);
    if f.cursor != START && f.cursor.offset == 0 { NothingBefore(f.file, f.cursor, f.returned, []); }
  }

  // ---- writing rows ----

  /** One row per line. */
  function Written(rows: seq<string>): string {
    if rows == [] then "" else Written(rows[..|rows| - 1]) + (rows[|rows| - 1] + "\n")
  }

  /** The first row that spans lines, if any. */
  function Spanning(rows: seq<string>, from: nat): Option<nat>
    requires from <= |rows|
    decreases |rows| - from
  {
    if from == |rows| then None
    else if '\n' in rows[from] then Some(from)
    else Spanning(rows, from + 1)
  }

  /** writeRows, and the cursor after the last row; an empty file has the zero cursor. */
  function WriteRows(rows: seq<string>, identity: nat): Result<(File, Cursor), LogError> {
    match Spanning(rows, 0)
    case Some(index) => Err(SpansLines(index))
    case None =>
      var file := File(Written(rows), identity);
      Ok((file, if file.content == "" then START else CursorAt(file, |file.content|)))
  }

  /** Exactly the bytes a native line can hold and be read back as. */
  predicate IsLine(row: string) {
    row != "" && Trim(row) == row && '\n' !in row
  }

  predicate AreLines(rows: seq<string>) {
    forall i | 0 <= i < |rows| :: IsLine(rows[i])
  }

  lemma {:induction false} NoneSpans(rows: seq<string>, from: nat)
    requires from <= |rows|
    ensures Spanning(rows, from).None? <==> forall i | from <= i < |rows| :: '\n' !in rows[i]
    decreases |rows| - from
  {
    if from < |rows| { NoneSpans(rows, from + 1); }
  }

  /** Rows are refused exactly for the first of them that spans lines. */
  lemma {:induction false} SpansExactly(rows: seq<string>, from: nat, index: nat)
    requires from <= |rows|
    ensures Spanning(rows, from) == Some(index) <==>
            from <= index < |rows| && '\n' in rows[index] && forall i | from <= i < index :: '\n' !in rows[i]
    decreases |rows| - from
  {
    if from < |rows| { SpansExactly(rows, from + 1, index); }
  }

  lemma WriteRefusesExactly(rows: seq<string>, identity: nat, index: nat)
    ensures WriteRows(rows, identity) == Err(SpansLines(index)) <==>
            index < |rows| && '\n' in rows[index] && forall i | 0 <= i < index :: '\n' !in rows[i]
  {
    SpansExactly(rows, 0, index);
  }

  lemma {:induction false} InkEndPrefix(s: string, more: string, n: nat)
    requires n <= |s|
    ensures InkEnd(s + more, n) == InkEnd(s, n)
  {
    if n > 0 {
      assert (s + more)[n - 1] == s[n - 1];
      InkEndPrefix(s, more, n - 1);
    }
  }

  /** The newline that ends a line is not part of its row. */
  lemma TrimEnd(s: string)
    ensures Trim(s + "\n") == Trim(s)
  {
    var t := s + "\n";
    assert t[|s|] == '\n';
    InkEndPrefix(s, "\n", |s|);
    BlankTrims(s);
    BlankTrims(t);
    if !Blank(s) { TrimInked(s, t); }
  }

  lemma TrimInked(s: string, t: string)
    requires t == s + "\n" && !Blank(s)
    ensures Trim(t) == Trim(s)
  {
    var from, to := Ink(s, 0), InkEnd(s, |s|);
    InkMeans(s, 0);
    InkEndMeans(s, |s|);
    assert forall j | 0 <= j < |s| :: t[j] == s[j];
    TrimIs(s, from, to);
    TrimIs(t, from, to);
    assert t[from..to] == s[from..to];
  }

  /** What the rows of a written file are: each row trimmed, blank ones gone. */
  function Kept(rows: seq<string>): seq<string> {
    if rows == [] then [] else Kept(rows[..|rows| - 1]) + RowOf(rows[|rows| - 1])
  }

  lemma {:induction false} WrittenReadsBack(rows: seq<string>)
    requires forall i | 0 <= i < |rows| :: '\n' !in rows[i]
    ensures Rows(Written(rows)) == Kept(rows) && Terminated(Written(rows))
  {
    if rows != [] {
      var before, row := rows[..|rows| - 1], rows[|rows| - 1];
      WrittenReadsBack(before);
      WrittenLine(row);
      RowsOfParts(Written(rows), Written(before), row + "\n");
    }
  }

  lemma WrittenLine(row: string)
    requires '\n' !in row
    ensures Rows(row + "\n") == RowOf(row)
  {
    assert (row + "\n")[..|row|] == row;
    LastLine(row + "\n");
    TrimEnd(row);
    BlankTrims(row);
    BlankTrims(row + "\n");
  }

  /** Rows survive being written and read exactly when each is a line of its own. */
  lemma {:induction false} KeptExactlyWhenLines(rows: seq<string>)
    requires forall i | 0 <= i < |rows| :: '\n' !in rows[i]
    ensures |Kept(rows)| <= |rows|
    ensures Kept(rows) == rows <==> AreLines(rows)
  {
    if rows != [] {
      var before, row := rows[..|rows| - 1], rows[|rows| - 1];
      KeptExactlyWhenLines(before);
      KeptSplit(before, row);
      assert rows == before + [row];
      assert AreLines(rows) <==> AreLines(before) && IsLine(row);
    }
  }

  lemma KeptSplit(before: seq<string>, row: string)
    requires |Kept(before)| <= |before| && '\n' !in row
    ensures Kept(before) + RowOf(row) == before + [row] <==> Kept(before) == before && IsLine(row)
  {
    if Kept(before) + RowOf(row) == before + [row] {
      assert |RowOf(row)| == 1;
      assert (Kept(before) + RowOf(row))[|before|] == (before + [row])[|before|];
      assert (Kept(before) + RowOf(row))[..|before|] == Kept(before) && (before + [row])[..|before|] == before;
    }
  }

  /** What a line contributes is a line. */
  lemma RowIsLine(line: string)
    requires line != "" && line[|line| - 1] == '\n' && '\n' !in line[..|line| - 1]
    ensures AreLines(RowOf(line))
  {
    var from, to := Ink(line, 0), InkEnd(line, |line|);
    InkMeans(line, 0);
    InkEndMeans(line, |line|);
    if from < to {
      assert to < |line|;
      var row := line[from..to];
      forall i | 0 <= i < |row| ensures row[i] != '\n' {
        assert line[..|line| - 1][from + i] == row[i];
      }
      assert !Space(row[0]) && !Space(row[|row| - 1]);
      TrimIs(row, 0, |row|);
      assert row[0..|row|] == row;
    }
  }

  lemma {:induction false} RowsAreLines(data: string)
    ensures AreLines(Rows(data))
    decreases |data|
  {
    var n := FirstLine(data);
    if n > 0 {
      assert data[..n][..n - 1] == data[..n - 1];
      RowIsLine(data[..n]);
      RowsAreLines(data[n..]);
    }
  }
}

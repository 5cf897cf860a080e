/**
 The native log file as the object it is (sessionlog/jsonl.go): the loops over its bytes, and the changes
 made to it in place. Each does what `Jsonl` says of the whole content.
 */
module NativeLogs {
  import opened Wrappers
  import opened Lines
  import opened Jsonl

  /** bytes.LastIndexByte of the newline, or -1. */
  method LastNewline(chunk: string) returns (index: int)
    ensures -1 <= index < |chunk|
    ensures index >= 0 ==> chunk[index] == '\n'
    ensures forall i | index < i < |chunk| :: chunk[i] != '\n'
  {
    index := |chunk| - 1;
    while index >= 0 && chunk[index] != '\n'
      invariant -1 <= index < |chunk|
      invariant forall i | index < i < |chunk| :: chunk[i] != '\n'
    {
      index := index - 1;
    }
  }

  /** lastLineEnd: the tail is examined a window at a time, from the end. */
  method LastLineEnd(content: string, size: nat) returns (end: nat)
    requires size <= |content|
    ensures end == LineEnd(content[..size])
  {
    var window := Min(size, CURSOR_CHECK_BYTES);
    end := size;
    while end > 0
      invariant end <= size
      invariant forall i | end <= i < size :: content[i] != '\n'
    {
      var start := if end > window then end - window else 0;
      var found, at := NewlineIn(content, start, end);
      if found {
        end := at + 1;
        break;
      }
      end := start;
    }
    LineEndAt(content[..size], end);
  }

  /** The last newline of one window. */
  method NewlineIn(content: string, start: nat, end: nat) returns (found: bool, at: nat)
    requires start <= end <= |content|
    ensures found ==> start <= at < end && content[at] == '\n' && forall i | at < i < end :: content[i] != '\n'
    ensures !found ==> forall i | start <= i < end :: content[i] != '\n'
  {
    var chunk := content[start..end];
    var index := LastNewline(chunk);
    found, at := index >= 0, if index >= 0 then start + index else 0;
    assert forall i | start <= i < end :: content[i] == chunk[i - start];
  }

  /** splitLines. */
  method SplitLines(data: string) returns (rows: seq<string>, end: nat)
    ensures rows == Rows(data) && end == LineEnd(data)
  {
    end := LastLineEnd(data, |data|);
    assert data[..|data|] == data;
    LineEndMeans(data);
    RowsOfComplete(data);
    rows := [];
    var rest := data[..end];
    while rest != ""
      invariant Terminated(rest)
      invariant rows + Rows(rest) == Rows(data)
      decreases |rest|
    {
      var line, after := TakeLine(rest);
      rows := Gather(rows, rest, line, after);
      rest := after;
    }
  }

  /** The next line, and what follows it. */
  method TakeLine(data: string) returns (line: string, rest: string)
    requires Terminated(data) && data != ""
    ensures Leads(data, line, rest) && Terminated(rest)
  {
    LastIn(data);
    var n := FirstLine(data);
    line, rest := data[..n], data[n..];
    assert line[..n - 1] == data[..n - 1];
    assert rest != "" ==> rest[|rest| - 1] == data[|data| - 1];
  }

  /** One line's row, if it is not blank. */
  method Gather(rows: seq<string>, data: string, line: string, rest: string) returns (more: seq<string>)
    requires Leads(data, line, rest)
    ensures more + Rows(rest) == rows + Rows(data)
  {
    BlankTrims(line);
    LeadThen(data, line, rest);
    var row := Trim(line);
    more := if row != "" then rows + [row] else rows;
    assert more == rows + RowOf(line);
    Assoc(rows, RowOf(line), Rows(rest));
  }

  /** Past the next line, unless it holds the row looked for. */
  method NextLine(data: string, index: nat) returns (found: bool, n: nat, left: nat, rest: string)
    requires Terminated(data) && data != ""
    ensures |rest| < |data| && Terminated(rest)
    ensures found ==> RowOffset(data, index) == 0
    ensures !found ==> RowOffset(data, index) == n + RowOffset(rest, left)
  {
    var line;
    line, rest := TakeLine(data);
    BlankTrims(line);
    WidthOf(line);
    var width := if Trim(line) != "" then 1 else 0;
    n, found, left := |line|, index < width, 0;
    if found {
      OffsetAtLine(data, line, rest);
    } else {
      left := index - width;
      OffsetPastLine(data, line, rest, index, left);
    }
  }

  /** Tail.offset. */
  method OffsetOf(t: Tail, index: nat) returns (offset: nat)
    requires Terminated(t.data)
    ensures offset == t.start + RowOffset(t.data, index)
  {
    var at, left, rest := 0, index, t.data;
    while rest != ""
      invariant Terminated(rest)
      invariant at + RowOffset(rest, left) == RowOffset(t.data, index)
      decreases |rest|
    {
      var found, n, more, after := NextLine(rest, left);
      if found {
        break;
      }
      at, left, rest := at + n, more, after;
    }
    offset := t.start + at;
  }

  /** A path and the file at it, if any. */
  class NativeLog {
    var file: Option<File>

    constructor (file: Option<File>)
      ensures this.file == file
    {
      this.file := file;
    }

    method ReadFrom(from: Cursor) returns (t: Tail)
      ensures t == Read(file, from)
    {
      if file.None? {
        return Tail([], START, true, "", 0);
      }
      var read := ReadUpTo(from, -1);
      t := read.value;
    }

    /** ReadJSONLFile. */
    method ReadUpTo(from: Cursor, size: int) returns (read: Result<Tail, LogError>)
      requires file.Some?
      ensures read == ReadFile(file.value, from, size)
    {
      var n := if size < 0 then |file.value.content| else size;
      if n > |file.value.content| {
        return Err(Shorter);
      }
      var start := 0;
      if Resumes(file.value, from, n) {
        start := from.offset;
      }
      var t := ReadRange(start, n);
      return Ok(t);
    }

    method ReadRange(start: nat, end: nat) returns (t: Tail)
      requires file.Some? && start <= end <= |file.value.content|
      ensures t == TailOf(file.value, start, end)
    {
      var data := file.value.content[start..end];
      var rows, consumed := SplitLines(data);
      return Tail(rows, CursorAt(file.value, start + consumed), start == 0, data[..consumed], start);
    }

    /** CutTornTail; a missing file is left missing. */
    method CutTornTail(complete: string -> bool) returns (torn: TornTail)
      modifies this
      ensures old(file).None? ==> file.None? && torn == TornTail(0, false)
      ensures old(file).Some? ==>
                var (after, t) := CutTorn(old(file).value.content, complete);
                file == Some(old(file).value.(content := after)) && torn == t
    {
      if file.None? {
        return TornTail(0, false);
      }
      var content := file.value.content;
      var end := LastLineEnd(content, |content|);
      assert content[..|content|] == content;
      if end == |content| {
        return TornTail(0, false);
      }
      if complete(content[end..]) {
        file := Some(file.value.(content := content + "\n"));
        return TornTail(0, true);
      }
      file := Some(file.value.(content := content[..end]));
      return TornTail(|content| - end, false);
    }

    method Truncate(offset: nat)
      requires file.Some? && offset <= |file.value.content|
      modifies this
      ensures file == Some(old(file).value.(content := old(file).value.content[..offset]))
    {
      file := Some(file.value.(content := file.value.content[..offset]));
    }

    /**
     WriteJSONL: rows are staged and renamed into place, so the path holds the previous file or the new one.
     `fails` stands for the operating system refusing any step.
     */
    method Write(rows: seq<string>, identity: nat, fails: bool) returns (cursor: Option<Cursor>)
      modifies this
      ensures cursor.None? <==> fails || WriteRows(rows, identity).Err?
      ensures cursor.None? ==> file == old(file)
      ensures cursor.Some? ==>
                var (written, next) := WriteRows(rows, identity).value; file == Some(written) && cursor.value == next
    {
      var staged := "";
      var i := 0;
      while i < |rows|
        invariant i <= |rows| && staged == Written(rows[..i])
        invariant Spanning(rows, i) == Spanning(rows, 0)
      {
        if '\n' in rows[i] {
          return None;
        }
        assert rows[..i + 1][..i] == rows[..i];
        staged := staged + (rows[i] + "\n");
        i := i + 1;
      }
      assert rows[..i] == rows;
      if fails {
        return None;
      }
      var published := File(staged, identity);
      file := Some(published);
      return Some(if staged == "" then START else CursorAt(published, |staged|));
    }
  }
}

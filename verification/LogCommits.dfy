/**
 The mirror over its native log from end to end (sessionlog/mirror.go, sessionlog/jsonl.go): whatever a writer
 appends between commits or during one, and whatever fails, the store holds the rows of the log's complete lines
 as the last successful commit read them.
 */
module LogCommits {
  import opened Wrappers
  import opened Jsonl
  import opened Stores
  import opened MirrorModel
  import opened MirrorLaws
  import opened HydrateLaws

  /** Bytes appended by the writer, or a commit during which it appends some more. */
  datatype LogStep =
    | Grow(bytes: string)
    | CommitLog(between: string, record: Record, faults: Faults, valid: string -> bool)

  datatype LogState = LogState(file: File, mirror: Mirror, content: Content)

  function Grown(file: File, bytes: string): File {
    file.(content := file.content + bytes)
  }

  /** The file source, before and after what is appended in between. */
  function FileAttempt(file: File, step: LogStep): Attempt
    requires step.CommitLog?
  {
    var later := Grown(file, step.between);
    Attempt(from => Some(Read(Some(file), from)), from => Some(Read(Some(later), from)),
            step.record, step.faults, step.valid, Rows(file.content), Rows(later.content))
  }

  function TakeLog(s: LogState, id: string, step: LogStep): LogState {
    match step
    case Grow(bytes) => s.(file := Grown(s.file, bytes))
    case CommitLog(between, _, _, _) =>
      var (m, c, _) := Try(s.mirror, s.content, id, FileAttempt(s.file, step));
      LogState(Grown(s.file, between), m, c)
  }

  function TakeLogs(s: LogState, id: string, steps: seq<LogStep>): LogState {
    if steps == [] then s else TakeLog(TakeLogs(s, id, steps[..|steps| - 1]), id, steps[|steps| - 1])
  }

  /** The bytes of the log that a successful commit read, and the configuration it computed for them. */
  function CommittedBytes(s: LogState, id: string, step: LogStep): Option<(string, string)>
    requires step.CommitLog?
  {
    var a := FileAttempt(s.file, step);
    if Published(s.mirror, s.content, id, a).None? then None
    else
      var r := ReadWith(a.first, From(s.mirror), a.record).value;
      var again := Retries(s.mirror, s.content, id, r, a.faults, a.valid);
      Some((if again then Grown(s.file, step.between).content else s.file.content,
            Published(s.mirror, s.content, id, a).value.1))
  }

  function LastCommitted(s: LogState, id: string, steps: seq<LogStep>): Option<(string, string)> {
    if steps == [] then None
    else
      var before, last := TakeLogs(s, id, steps[..|steps| - 1]), steps[|steps| - 1];
      if last.CommitLog? && CommittedBytes(before, id, last).Some? then CommittedBytes(before, id, last)
      else LastCommitted(s, id, steps[..|steps| - 1])
  }

  // ---- the invariant ----

  /** The cursor is unset, or stands on a line boundary of the file. */
  predicate Stands(file: File, cursor: Cursor) {
    cursor == START || Marks(file, cursor, Rows(file.content[..Min(cursor.offset, |file.content|)]))
  }

  ghost predicate LogInStep(s: LogState, id: string) {
    InStep(s.mirror, s.content, id, ReadThrough(s.file.content)) && Stands(s.file, s.mirror.cursor)
  }

  lemma StandsGrows(file: File, bytes: string, cursor: Cursor)
    requires Stands(file, cursor)
    ensures Stands(Grown(file, bytes), cursor)
    ensures cursor != START ==> ReadThrough(Grown(file, bytes).content)(cursor) == ReadThrough(file.content)(cursor)
  {
    if cursor != START {
      var rows := Rows(file.content[..cursor.offset]);
      MarksAppend(file, cursor, rows, bytes);
      assert (file.content + bytes)[..cursor.offset] == file.content[..cursor.offset];
    }
  }

  lemma GrowKeeps(s: LogState, id: string, bytes: string)
    requires LogInStep(s, id)
    ensures LogInStep(s.(file := Grown(s.file, bytes)), id)
  {
    StandsGrows(s.file, bytes, s.mirror.cursor);
    if s.mirror.committed {
      var rows, encoded :| Agree(s.mirror, s.content, id, rows, encoded, ReadThrough(s.file.content));
      assert Agree(s.mirror, s.content, id, rows, encoded, ReadThrough(Grown(s.file, bytes).content));
    }
  }

  /** Both reads of a commit keep the source's contract. */
  lemma FileAttemptIsHonest(s: LogState, id: string, step: LogStep)
    requires LogInStep(s, id) && step.CommitLog?
    ensures HonestAttempt(s.mirror, FileAttempt(s.file, step), ReadThrough(Grown(s.file, step.between).content))
  {
    var later := Grown(s.file, step.between);
    FileSourceIsHonest(s.file, From(s.mirror), later.content);
    FileSourceIsHonest(later, START, later.content);
  }

  /** A successful commit's cursor is the one its read handed out. */
  lemma CommitCursor(m: Mirror, c: Content, id: string, a: Attempt)
    requires Try(m, c, id, a).2.Ok?
    ensures var r := ReadWith(a.first, From(m), a.record);
            && r.Ok?
            && (if Retries(m, c, id, r.value, a.faults, a.valid)
                then var again := ReadWith(a.second, START, a.record);
                     again.Ok? && Try(m, c, id, a).0.cursor == again.value.tail.next
                else Try(m, c, id, a).0.cursor == r.value.tail.next)
  {
  }

  lemma CommitStands(s: LogState, id: string, step: LogStep)
    requires LogInStep(s, id) && step.CommitLog?
    requires Try(s.mirror, s.content, id, FileAttempt(s.file, step)).2.Ok?
    ensures Stands(Grown(s.file, step.between), Try(s.mirror, s.content, id, FileAttempt(s.file, step)).0.cursor)
  {
    CommitCursor(s.mirror, s.content, id, FileAttempt(s.file, step));
    ReadsStand(s.file, From(s.mirror), step);
  }

  /** Wherever its two reads leave off, the cursor stands in the file the commit leaves. */
  lemma ReadsStand(file: File, cursor: Cursor, step: LogStep)
    requires Stands(file, cursor) && step.CommitLog?
    ensures var a, later := FileAttempt(file, step), Grown(file, step.between);
            && a.first(cursor).Some? && Stands(later, a.first(cursor).value.next)
            && a.second(START).Some? && Stands(later, a.second(START).value.next)
  {
    var later := Grown(file, step.between);
    ReadStands(file, cursor, step.between);
    ReadStands(later, START, "");
    assert later.content + "" == later.content;
  }

  /** The cursor a read hands out stands in the file however it grows. */
  lemma ReadStands(file: File, cursor: Cursor, bytes: string)
    requires Stands(file, cursor)
    ensures Stands(Grown(file, bytes), Read(Some(file), cursor).next)
  {
    var next := Read(Some(file), cursor).next;
    FileSourceIsHonest(file, cursor, file.content);
    StandsAtItsRows(file, next);
    StandsGrows(file, bytes, next);
  }

  lemma StandsAtItsRows(file: File, cursor: Cursor)
    requires Marks(file, cursor, Rows(file.content))
    ensures Stands(file, cursor)
  {
  }

  lemma CommitLogKeeps(s: LogState, id: string, step: LogStep)
    requires LogInStep(s, id) && step.CommitLog?
    ensures LogInStep(TakeLog(s, id, step), id)
    ensures match CommittedBytes(s, id, step)
            case None => TakeLog(s, id, step).content == s.content && TakeLog(s, id, step).mirror == s.mirror
            case Some((bytes, encoded)) =>
              && Holds(TakeLog(s, id, step).content, id, Rows(bytes), encoded)
              && bytes <= TakeLog(s, id, step).file.content
  {
    var a, later := FileAttempt(s.file, step), s.(file := Grown(s.file, step.between));
    var at := ReadThrough(later.file.content);
    FileAttemptIsHonest(s, id, step);
    GrowKeeps(s, id, step.between);
    CommitRefinesRepublish(s.mirror, s.content, id, a, at);
    CommitKeepsStep(s.mirror, s.content, id, a, at);
    if Try(s.mirror, s.content, id, a).2.Ok? { CommitStands(s, id, step); }
  }

  /**
   Over any interleaving of appends to the log and commits from it, with the host failing wherever it likes, the
   store holds exactly the rows of the complete lines the last successful commit read, and its configuration.
   */
  lemma {:induction false} StoreFollowsTheLog(file: File, c: Content, id: string, steps: seq<LogStep>)
    requires id !in c.deleted
    ensures var start := LogState(file, EMPTY, c);
            var s := TakeLogs(start, id, steps);
            && LogInStep(s, id)
            && match LastCommitted(start, id, steps)
               case None => s.content == c && s.mirror == EMPTY
               case Some((bytes, encoded)) => Holds(s.content, id, Rows(bytes), encoded) && bytes <= s.file.content
  {
    if steps != [] {
      var start := LogState(file, EMPTY, c);
      var rest, last := steps[..|steps| - 1], steps[|steps| - 1];
      var s := TakeLogs(start, id, rest);
      StoreFollowsTheLog(file, c, id, rest);
      match last
      case Grow(bytes) => GrowKeeps(s, id, bytes);
      case CommitLog(_, _, _, _) => CommitLogKeeps(s, id, last);
    }
  }
}

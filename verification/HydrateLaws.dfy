/**
 Hydration brings the file, the store and the mirror to one history (sessionlog/mirror.go,
 sessionlog/record.go), and the file source keeps the contract the mirror relies on.
 */
module HydrateLaws {
  import opened Wrappers
  import opened Jsonl
  import opened Stores
  import opened MirrorModel
  import opened MirrorLaws

  function FileRows(file: Option<File>): seq<string> {
    if file.None? then [] else Rows(file.value.content)
  }

  predicate Ended(file: Option<File>) {
    file.Some? ==> Terminated(file.value.content)
  }

  // ---- the file source's contract ----

  /** The history a cursor of an append-only file has read through, wherever the file has grown to. */
  function ReadThrough(content: string): Cursor -> seq<string> {
    (c: Cursor) => if c.offset <= |content| then Rows(content[..c.offset]) else []
  }

  /**
   Reading an append-only file keeps the source's contract, and hands out a cursor that keeps it for the next
   read, however much the file grows.
   */
  lemma FileSourceIsHonest(file: File, cursor: Cursor, grown: string)
    requires file.content <= grown
    requires cursor == START || Marks(file, cursor, Rows(file.content[..Min(cursor.offset, |file.content|)]))
    ensures var t := Read(Some(file), cursor);
            && Honest(t, cursor, Rows(file.content), ReadThrough(grown))
            && Marks(file, t.next, Rows(file.content)) && Marks(file.(content := grown), t.next, Rows(file.content))
  {
    var c := file.content;
    var t := Read(Some(file), cursor);
    if cursor == START {
      ReadFromStart(file, cursor);
    } else {
      MarkedReadIsHonest(file, cursor, grown);
    }
    EndMarks(file);
    GrownMarks(file, t.next, grown);
  }

  lemma GrownMarks(file: File, next: Cursor, grown: string)
    requires file.content <= grown && Marks(file, next, Rows(file.content))
    ensures Marks(file.(content := grown), next, Rows(file.content))
    ensures ReadThrough(grown)(next) == Rows(file.content)
  {
    var c := file.content;
    assert grown == c + grown[|c|..];
    MarksAppend(file, next, Rows(c), grown[|c|..]);
    assert grown[..next.offset] == c[..next.offset];
  }

  lemma MarkedReadIsHonest(file: File, cursor: Cursor, grown: string)
    requires file.content <= grown && cursor.offset <= |file.content|
    requires Marks(file, cursor, Rows(file.content[..cursor.offset]))
    ensures var t := Read(Some(file), cursor);
            && t.next == CursorAt(file, LineEnd(file.content))
            && (if t.full then t.rows == Rows(file.content)
                else Rows(file.content) == ReadThrough(grown)(cursor) + t.rows)
  {
    MarkedRead(file, cursor, Rows(file.content[..cursor.offset]));
    ReadThroughPrefix(file.content, grown, cursor);
  }

  lemma MarkedRead(file: File, cursor: Cursor, rows: seq<string>)
    requires Marks(file, cursor, rows)
    ensures var t := Read(Some(file), cursor);
            && t.next == CursorAt(file, LineEnd(file.content))
            && (if t.full then t.rows == Rows(file.content) else Rows(file.content) == rows + t.rows)
  {
    ReadContinues(file, cursor, rows);
    if cursor.offset == 0 { NothingBefore(file, cursor, rows, Read(Some(file), cursor).rows); }
  }

  lemma ReadThroughPrefix(content: string, grown: string, cursor: Cursor)
    requires content <= grown && cursor.offset <= |content|
    ensures ReadThrough(grown)(cursor) == Rows(content[..cursor.offset])
  {
    assert grown[..cursor.offset] == content[..cursor.offset];
  }

  // ---- cutting invalid rows ----

  /** The rows before the first invalid one at or past an index. */
  function BeforeInvalid(rows: seq<string>, from: nat, valid: string -> bool): seq<string> {
    match FirstInvalid(rows, from, valid)
    case None => rows
    case Some(i) => rows[..i]
  }

  /** Cutting leaves a terminated file with exactly the rows before the first invalid one, and counts the bytes. */
  lemma CutInvalidKeeps(file: Option<File>, committed: nat, valid: string -> bool)
    requires Ended(file)
    ensures var (after, cut) := CutInvalid(file, Read(file, START), committed, valid);
            && Ended(after) && FileRows(after) == BeforeInvalid(FileRows(file), committed, valid)
            && (file.Some? <==> after.Some?)
            && (file.Some? ==> |after.value.content| + cut == |file.value.content|)
            && (cut > 0 <==> FirstInvalid(FileRows(file), committed, valid).Some?)
  {
    if file.Some? { CutOneKeeps(file.value, committed, valid); }
  }

  lemma CutOneKeeps(file: File, committed: nat, valid: string -> bool)
    requires Terminated(file.content)
    ensures var (after, cut) := CutInvalid(Some(file), Read(Some(file), START), committed, valid);
            var invalid := FirstInvalid(Rows(file.content), committed, valid);
            && after.Some? && Ended(after) && FileRows(after) == BeforeInvalid(Rows(file.content), committed, valid)
            && |after.value.content| + cut == |file.content| && (cut > 0 <==> invalid.Some?)
  {
    WholeIsRead(file);
    var rows := Rows(file.content);
    match FirstInvalid(rows, committed, valid)
    case None =>
    case Some(i) =>
      CutKeepsRows(file.content, i);
      CutAtRow(file, Read(Some(file), START), committed, valid, i);
  }

  lemma CutAtRow(file: File, native: Tail, committed: nat, valid: string -> bool, i: nat)
    requires native.start == 0 && native.data == file.content && FirstInvalid(native.rows, committed, valid) == Some(i)
    ensures var offset := RowOffset(file.content, i);
            CutInvalid(Some(file), native, committed, valid)
            == (Some(file.(content := file.content[..offset])), |file.content| - offset)
  {
  }

  /** A terminated file is read whole from the start. */
  lemma WholeIsRead(file: File)
    requires Terminated(file.content)
    ensures var t := Read(Some(file), START);
            && t.rows == Rows(file.content) && t.data == file.content && t.start == 0
            && Marks(file, t.next, t.rows) && t.full
  {
    ReadFromStart(file, START);
    assert file.content[..|file.content|] == file.content;
    LineEndAt(file.content, |file.content|);
  }

  // ---- reconciling ----

  lemma {:induction false} AgreesBefore(native: seq<string>, stored: seq<string>, i: nat)
    ensures var d := Disagreement(native, stored, i);
            && (d.Some? ==> i <= d.value < |native| && d.value < |stored| && native[d.value] != stored[d.value])
            && (forall j | i <= j < |native| && j < |stored| && (d.Some? ==> j < d.value) :: native[j] == stored[j])
    decreases |native| - i
  {
    if i < |native| && i < |stored| && native[i] == stored[i] { AgreesBefore(native, stored, i + 1); }
  }

  /** Both logs agree wherever both have a row. */
  predicate Compatible(native: seq<string>, stored: seq<string>) {
    forall i | 0 <= i < |native| && i < |stored| :: native[i] == stored[i]
  }

  /** The native rows a hydration keeps: the complete lines before the first invalid one past the stored rows. */
  function NativeRows(path: Option<File>, committed: nat, h: Host): seq<string> {
    BeforeInvalid(FileRows(CutTornIn(path, h.complete).0), committed, h.valid)
  }

  lemma {:induction false} BeforeInvalidValid(rows: seq<string>, from: nat, valid: string -> bool)
    ensures FirstInvalid(BeforeInvalid(rows, from, valid), from, valid).None?
  {
    var i := FirstInvalid(rows, from, valid);
    NoneInvalid(rows, from, valid);
    NoneInvalid(BeforeInvalid(rows, from, valid), from, valid);
  }

  lemma CutTornEnds(file: Option<File>, complete: string -> bool)
    ensures Ended(CutTornIn(file, complete).0)
  {
    if file.Some? { TornTailCut(file.value.content, complete); }
  }

  /** The file once its torn tail and its invalid rows are cut. */
  lemma HydrateReads(path: Option<File>, committed: nat, h: Host)
    ensures var ended := CutTornIn(path, h.complete).0;
            var file := CutInvalid(ended, Read(ended, START), committed, h.valid).0;
            FileRows(file) == NativeRows(path, committed, h) && WellRead(file, Read(file, START))
  {
    CutTornEnds(path, h.complete);
    var ended := CutTornIn(path, h.complete).0;
    CutInvalidKeeps(ended, committed, h.valid);
    var file := CutInvalid(ended, Read(ended, START), committed, h.valid).0;
    if file.Some? { WholeIsRead(file.value); }
  }

  // ---- hydration ----

  /** The file holds these rows and the mirror's cursor stands after them. */
  predicate Follows(file: Option<File>, cursor: Cursor, rows: seq<string>) {
    && FileRows(file) == rows
    && ((cursor == START && rows == []) || (file.Some? && Marks(file.value, cursor, rows)))
  }

  /** The file, the store and the mirror hold one history. */
  predicate ThreeWay(o: Hydrated, id: string, rows: seq<string>, encoded: string) {
    Follows(o.file, o.mirror.cursor, rows) && Holds(o.content, id, rows, encoded) && Remembers(o.mirror, rows, encoded)
  }

  lemma RewriteAgrees(stored: seq<string>, identity: nat)
    requires WriteRows(stored, identity).Ok?
    ensures var (file, cursor) := WriteRows(stored, identity).value;
            && Follows(Some(file), cursor, Kept(stored)) && (Kept(stored) == stored <==> AreLines(stored))
  {
    NoneSpans(stored, 0);
    WrittenReadsBack(stored);
    KeptExactlyWhenLines(stored);
    WrittenMarks(File(Written(stored), identity));
  }

  lemma WrittenMarks(file: File)
    requires Terminated(file.content)
    ensures Marks(file, CursorAt(file, |file.content|), Rows(file.content))
  {
    assert file.content[..|file.content|] == file.content;
    LineEndAt(file.content, |file.content|);
  }

  /** Committing the native rows past the stored ones publishes them all. */
  lemma NativeWins(c: Content, id: string, stored: seq<string>, encoded: string, native: Tail, faults: Faults,
                   valid: string -> bool)
    requires Holds(c, id, stored, encoded) && |stored| < |native.rows| && Compatible(native.rows, stored)
    requires FirstInvalid(native.rows, |stored|, valid).None?
    ensures var m := Adopt(stored, encoded, START);
            var (m1, c1, result) := CommitFull(m, c, id, None, native, encoded, faults, valid);
            if result.Ok? then Holds(c1, id, native.rows, encoded) && Remembers(m1, native.rows, encoded)
            else c1 == c && m1 == Adopt(stored, encoded, START) && result.error.StoreRefused?
  {
    var m := Adopt(stored, encoded, START);
    var at: Cursor -> seq<string> := _ => native.rows;
    AdoptRemembers(stored, encoded, START);
    assert Agree(m, c, id, stored, encoded, at);
    CommitFullSettles(m, c, id, None, Reading(native, encoded), native.rows, faults, valid, at);
    ExtendsExactly(m, stored, encoded, native.rows);
    assert native.rows[..|stored|] == stored;
  }

  /** What a settled hydration leaves. */
  predicate SettledWell(o: Hydrated, c: Content, id: string, file: Option<File>, native: seq<string>,
                        stored: seq<string>, encoded: string) {
    match o.result
    case Err(e) =>
      && o.content == c && Remembers(o.mirror, stored, encoded) && o.file == file
      && (e.WriteFailed? || (e.CommitFailed? && e.error.StoreRefused?))
    case Ok((rows, report)) =>
      && rows == (if |native| >= |stored| then native else stored)
      && (report.rewritten <==> |native| < |stored|)
      && (ThreeWay(o, id, rows, encoded) <==> |native| >= |stored| || AreLines(stored))
      && Holds(o.content, id, rows, encoded) && Remembers(o.mirror, rows, encoded)
  }

  /** The tail is the whole of a terminated native file, its end marked. */
  predicate WellRead(file: Option<File>, native: Tail) {
    && Ended(file) && native.rows == FileRows(file)
    && (if file.None? then native.next == START else Marks(file.value, native.next, FileRows(file)))
  }

  lemma SettleAgrees(c: Content, id: string, file: Option<File>, native: Tail, stored: seq<string>, encoded: string,
                     report: HydrateReport, faults: Faults, h: Host)
    requires Holds(c, id, stored, encoded) && WellRead(file, native) && Compatible(native.rows, stored)
    requires FirstInvalid(native.rows, |stored|, h.valid).None? && !report.rewritten
    ensures SettledWell(Settle(c, id, file, native, stored, encoded, report, faults, h),
                        c, id, file, native.rows, stored, encoded)
  {
    var adopted := Adopt(stored, encoded, START);
    AdoptRemembers(stored, encoded, START);
    if |native.rows| < |stored| {
      RewriteSettles(c, id, file, native.rows, stored, encoded, adopted, report, h);
    } else if |native.rows| == |stored| {
      LevelSettles(c, id, file, native, stored, encoded, adopted, report, faults, h);
    } else {
      NativeSettles(c, id, file, native, stored, encoded, report, faults, h);
    }
  }

  lemma LevelSettles(c: Content, id: string, file: Option<File>, native: Tail, stored: seq<string>, encoded: string,
                     adopted: Mirror, report: HydrateReport, faults: Faults, h: Host)
    requires Holds(c, id, stored, encoded) && WellRead(file, native) && Remembers(adopted, stored, encoded)
    requires Compatible(native.rows, stored) && |native.rows| == |stored| && !report.rewritten
    ensures SettledWell(KeepNative(c, id, file, native, stored, encoded, adopted, report, faults, h),
                        c, id, file, native.rows, stored, encoded)
  {
    assert native.rows == stored;
  }

  lemma NativeSettles(c: Content, id: string, file: Option<File>, native: Tail, stored: seq<string>, encoded: string,
                      report: HydrateReport, faults: Faults, h: Host)
    requires Holds(c, id, stored, encoded) && WellRead(file, native) && Compatible(native.rows, stored)
    requires FirstInvalid(native.rows, |stored|, h.valid).None? && |native.rows| > |stored| && !report.rewritten
    ensures var o := KeepNative(c, id, file, native, stored, encoded, Adopt(stored, encoded, START), report, faults, h);
            SettledWell(o, c, id, file, native.rows, stored, encoded)
  {
    var m := Adopt(stored, encoded, START);
    AdoptRemembers(stored, encoded, START);
    NativeWins(c, id, stored, encoded, native, faults, h.valid);
    var (m1, c1, result) := CommitFull(m, c, id, None, native, encoded, faults, h.valid);
    NativeSettled(m1, c1, result, c, id, file, native, stored, encoded, report);
  }

  lemma NativeSettled(m1: Mirror, c1: Content, result: Result<Report, CommitError>, c: Content, id: string,
                      file: Option<File>, native: Tail, stored: seq<string>, encoded: string, report: HydrateReport)
    requires WellRead(file, native) && |native.rows| > |stored| && !report.rewritten
    requires if result.Ok? then Holds(c1, id, native.rows, encoded) && Remembers(m1, native.rows, encoded)
             else c1 == c && Remembers(m1, stored, encoded) && result.error.StoreRefused?
    ensures var o := match result
                     case Err(error) => Hydrated(m1, c1, file, Err(CommitFailed(error)))
                     case Ok(commit) =>
                       Hydrated(m1.(cursor := native.next), c1, file, Ok((native.rows, report.(commit := commit))));
            SettledWell(o, c, id, file, native.rows, stored, encoded)
  {
  }

  lemma RewriteSettles(c: Content, id: string, file: Option<File>, native: seq<string>, stored: seq<string>,
                       encoded: string, adopted: Mirror, report: HydrateReport, h: Host)
    requires Holds(c, id, stored, encoded) && Remembers(adopted, stored, encoded) && |native| < |stored|
    ensures SettledWell(Rewrite(c, file, stored, adopted, report, h), c, id, file, native, stored, encoded)
  {
    if WriteRows(stored, h.identity).Ok? { RewriteAgrees(stored, h.identity); }
  }

  /** What a hydration of these native rows does. */
  predicate HydratedWell(o: Hydrated, m: Mirror, c: Content, id: string, native: seq<string>, stored: seq<string>,
                         encoded: string, h: Host) {
    match o.result
    case Ok((rows, report)) =>
      && Compatible(native, stored) && rows == (if |native| >= |stored| then native else stored)
      && (rows != [] ==> h.validate(rows))
      && (report.rewritten <==> |native| < |stored|)
      && (ThreeWay(o, id, rows, encoded) <==> |native| >= |stored| || AreLines(stored))
      && Holds(o.content, id, rows, encoded) && Remembers(o.mirror, rows, encoded)
    case Err(e) =>
      && o.content == c
      && (e.Disagrees? <==> !Compatible(native, stored))
      && (e.Disagrees? || e.Rejected? ==> o.mirror == m)
      && (!e.Disagrees? && !e.Rejected? ==> Remembers(o.mirror, stored, encoded))
  }

  lemma ReconcileAgrees(m: Mirror, c: Content, id: string, file: Option<File>, native: Tail, stored: seq<string>,
                        encoded: string, report: HydrateReport, faults: Faults, h: Host)
    requires Holds(c, id, stored, encoded) && WellRead(file, native)
    requires FirstInvalid(native.rows, |stored|, h.valid).None? && !report.rewritten
    ensures HydratedWell(Reconcile(m, c, id, file, native, stored, encoded, report, faults, h),
                         m, c, id, native.rows, stored, encoded, h)
  {
    DisagreesExactly(native.rows, stored);
    if Compatible(native.rows, stored) {
      SettleAgrees(c, id, file, native, stored, encoded, report, faults, h);
      SettledIsHydrated(Settle(c, id, file, native, stored, encoded, report, faults, h),
                        m, c, id, file, native.rows, stored, encoded, h);
    }
  }

  lemma DisagreesExactly(native: seq<string>, stored: seq<string>)
    ensures Disagreement(native, stored, 0).Some? <==> !Compatible(native, stored)
  {
    AgreesBefore(native, stored, 0);
  }

  lemma SettledIsHydrated(o: Hydrated, m: Mirror, c: Content, id: string, file: Option<File>, native: seq<string>,
                          stored: seq<string>, encoded: string, h: Host)
    requires SettledWell(o, c, id, file, native, stored, encoded) && Compatible(native, stored)
    ensures var rows := if |native| >= |stored| then native else stored;
            (rows != [] ==> h.validate(rows)) ==> HydratedWell(o, m, c, id, native, stored, encoded, h)
  {
  }

  /**
   A successful hydration returns the longer of the stored rows and the native ones, which agree wherever both
   have a row, and leaves the file, the store and the mirror all holding exactly what it returned. The one
   exception is a file rewritten from stored rows that are not lines of their own: reading it back trims or
   drops those. A failed one leaves the store as it was.
   */
  lemma HydrateAgrees(m: Mirror, c: Content, id: string, path: Option<File>, stored: seq<string>, encoded: string,
                      faults: Faults, h: Host)
    requires Holds(c, id, stored, encoded)
    ensures HydratedWell(Hydrate(m, c, id, path, stored, encoded, faults, h),
                         m, c, id, NativeRows(path, |stored|, h), stored, encoded, h)
  {
    var (ended, torn) := CutTornIn(path, h.complete);
    var (file, cut) := CutInvalid(ended, Read(ended, START), |stored|, h.valid);
    HydrateReads(path, |stored|, h);
    BeforeInvalidValid(FileRows(ended), |stored|, h.valid);
    ReconcileAgrees(m, c, id, file, Read(file, START), stored, encoded,
                    HydrateReport(torn, cut, false, Report(0, Nothing, None)), faults, h);
  }

  // ---- why a hydration fails ----

  /** The caller has nothing against the history. */
  predicate Accepts(h: Host, rows: seq<string>) {
    rows == [] || h.validate(rows)
  }

  /** The operating system lets the file be written, and each row fits a line. */
  predicate Writable(h: Host, rows: seq<string>) {
    !h.writeFails && forall i | 0 <= i < |rows| :: '\n' !in rows[i]
  }

  /** The session has a name, and the store takes an append or, failing that, a replacement. */
  predicate Publishes(id: string, faults: Faults) {
    id != "" && !(faults.append && faults.replace)
  }

  function Longer(native: seq<string>, stored: seq<string>): seq<string> {
    if |native| >= |stored| then native else stored
  }

  /** Each error has one cause, and where none of the causes is there the hydration succeeds. */
  predicate Explained(result: Result<(seq<string>, HydrateReport), HydrateError>, id: string, native: seq<string>,
                      stored: seq<string>, faults: Faults, h: Host) {
    var accepted := Compatible(native, stored) && Accepts(h, Longer(native, stored));
    && (result.Err? && result.error.Disagrees? <==> !Compatible(native, stored))
    && (result == Err(Rejected) <==> Compatible(native, stored) && !Accepts(h, Longer(native, stored)))
    && (result == Err(WriteFailed) <==> accepted && |native| < |stored| && !Writable(h, stored))
    && (result.Err? && result.error.CommitFailed? <==> accepted && |native| > |stored| && !Publishes(id, faults))
    && (result.Ok? <==>
          && accepted && (|native| < |stored| ==> Writable(h, stored))
          && (|native| > |stored| ==> Publishes(id, faults)))
  }

  /** A disagreement is reported where it first shows. */
  predicate FirstDifference(result: Result<(seq<string>, HydrateReport), HydrateError>, native: seq<string>,
                            stored: seq<string>) {
    result.Err? && result.error.Disagrees? ==>
      var i := result.error.index;
      i < |native| && i < |stored| && native[i] != stored[i] && native[..i] == stored[..i]
  }

  lemma CommitOfNative(c: Content, id: string, stored: seq<string>, encoded: string, native: Tail, faults: Faults,
                       valid: string -> bool)
    requires Holds(c, id, stored, encoded) && |stored| < |native.rows| && Compatible(native.rows, stored)
    requires FirstInvalid(native.rows, |stored|, valid).None?
    ensures var result := CommitFull(Adopt(stored, encoded, START), c, id, None, native, encoded, faults, valid).2;
            && (result.Ok? <==> Publishes(id, faults))
            && (result.Ok? ==>
                  var refused := faults.append;
                  result.value == if refused then Report(0, AppendFailed, Some(Failed))
                                  else Report(|native.rows| - |stored|, Nothing, None))
  {
    var m := Adopt(stored, encoded, START);
    AdoptRemembers(stored, encoded, START);
    ExtendsExactly(m, stored, encoded, native.rows);
    assert native.rows[..|stored|] == stored;
    AppendRepublishes(m, c, id, stored, encoded, native.rows[|stored|..], encoded, faults.append);
    ReplaceRepublishes(c, id, native.rows, encoded, faults.replace);
  }

  lemma WriteFails(stored: seq<string>, h: Host)
    ensures h.writeFails || WriteRows(stored, h.identity).Err? <==> !Writable(h, stored)
  {
    NoneSpans(stored, 0);
  }

  lemma SettleExplained(c: Content, id: string, file: Option<File>, native: Tail, stored: seq<string>,
                        encoded: string, report: HydrateReport, faults: Faults, h: Host)
    requires Holds(c, id, stored, encoded) && Compatible(native.rows, stored)
    requires FirstInvalid(native.rows, |stored|, h.valid).None? && Accepts(h, Longer(native.rows, stored))
    ensures Explained(Settle(c, id, file, native, stored, encoded, report, faults, h).result,
                      id, native.rows, stored, faults, h)
  {
    WriteFails(stored, h);
    if |native.rows| > |stored| { CommitOfNative(c, id, stored, encoded, native, faults, h.valid); }
  }

  lemma ReconcileExplained(m: Mirror, c: Content, id: string, file: Option<File>, native: Tail, stored: seq<string>,
                           encoded: string, report: HydrateReport, faults: Faults, h: Host)
    requires Holds(c, id, stored, encoded) && FirstInvalid(native.rows, |stored|, h.valid).None?
    ensures var result := Reconcile(m, c, id, file, native, stored, encoded, report, faults, h).result;
            Explained(result, id, native.rows, stored, faults, h) && FirstDifference(result, native.rows, stored)
  {
    AgreesBefore(native.rows, stored, 0);
    DisagreesExactly(native.rows, stored);
    if Compatible(native.rows, stored) && Accepts(h, Longer(native.rows, stored)) {
      SettleExplained(c, id, file, native, stored, encoded, report, faults, h);
    }
  }

  /**
   A hydration succeeds exactly when the two logs agree wherever both have a row, the caller accepts the longer one,
   and the write or the commit it needs goes through; each failure names its cause.
   */
  lemma HydrateSucceedsExactly(m: Mirror, c: Content, id: string, path: Option<File>, stored: seq<string>,
                               encoded: string, faults: Faults, h: Host)
    requires Holds(c, id, stored, encoded)
    ensures var native, result := NativeRows(path, |stored|, h),
                                  Hydrate(m, c, id, path, stored, encoded, faults, h).result;
            Explained(result, id, native, stored, faults, h) && FirstDifference(result, native, stored)
  {
    var (ended, torn) := CutTornIn(path, h.complete);
    var (file, cut) := CutInvalid(ended, Read(ended, START), |stored|, h.valid);
    HydrateReads(path, |stored|, h);
    BeforeInvalidValid(FileRows(ended), |stored|, h.valid);
    ReconcileExplained(m, c, id, file, Read(file, START), stored, encoded,
                       HydrateReport(torn, cut, false, Report(0, Nothing, None)), faults, h);
  }

  /** What a settled hydration reports of itself. */
  predicate Reported(o: Hydrated, native: seq<string>, stored: seq<string>, faults: Faults, file: Option<File>,
                     torn: TornTail, cut: nat) {
    && (o.result.Err? || |native| >= |stored| ==> o.file == file)
    && (o.result.Ok? ==>
          var report := o.result.value.1;
          && report.tail == torn && report.invalidCut == cut && (report.rewritten <==> |native| < |stored|)
          && report.commit == if |native| <= |stored| then Report(0, Nothing, None)
                              else if faults.append then Report(0, AppendFailed, Some(Failed))
                              else Report(|native| - |stored|, Nothing, None))
  }

  lemma SettleReports(c: Content, id: string, file: Option<File>, native: Tail, stored: seq<string>,
                      encoded: string, torn: TornTail, cut: nat, faults: Faults, h: Host)
    requires Holds(c, id, stored, encoded) && Compatible(native.rows, stored)
    requires FirstInvalid(native.rows, |stored|, h.valid).None?
    ensures var report := HydrateReport(torn, cut, false, Report(0, Nothing, None));
            Reported(Settle(c, id, file, native, stored, encoded, report, faults, h), native.rows, stored, faults,
                     file, torn, cut)
  {
    if |native.rows| > |stored| { CommitOfNative(c, id, stored, encoded, native, faults, h.valid); }
  }

  /**
   A hydration reports what it cut, whether it rewrote the file and what it committed; where it writes no file, the
   file is what the cuts left.
   */
  lemma HydrateReports(m: Mirror, c: Content, id: string, path: Option<File>, stored: seq<string>, encoded: string,
                       faults: Faults, h: Host)
    requires Holds(c, id, stored, encoded)
    ensures var (ended, torn) := CutTornIn(path, h.complete);
            var (file, cut) := CutInvalid(ended, Read(ended, START), |stored|, h.valid);
            Reported(Hydrate(m, c, id, path, stored, encoded, faults, h), NativeRows(path, |stored|, h), stored, faults,
                     file, torn, cut)
  {
    var (ended, torn) := CutTornIn(path, h.complete);
    var (file, cut) := CutInvalid(ended, Read(ended, START), |stored|, h.valid);
    HydrateReads(path, |stored|, h);
    BeforeInvalidValid(FileRows(ended), |stored|, h.valid);
    DisagreesExactly(Read(file, START).rows, stored);
    if Compatible(Read(file, START).rows, stored) {
      SettleReports(c, id, file, Read(file, START), stored, encoded, torn, cut, faults, h);
    }
  }

  /** Rows that came off a native file are lines, so what a file source committed is always restored exactly. */
  lemma NativeRowsAreLines(path: Option<File>, committed: nat, h: Host)
    ensures AreLines(NativeRows(path, committed, h))
  {
    var file := CutTornIn(path, h.complete).0;
    if file.Some? { RowsAreLines(file.value.content); }
  }

  /** A host that takes any row for valid and accepts any history. */
  function Lenient(identity: nat): Host {
    Host(tail => false, row => true, rows => true, identity, false)
  }

  lemma PaddedKept()
    ensures !AreLines([" {}"]) && '\n' !in " {}" && Kept([" {}"]) == ["{}"]
  {
    TrimIs(" {}", 1, 3);
    BlankTrims(" {}");
    assert " {}"[1..3] == "{}";
    assert !IsLine([" {}"][0]);
    assert [" {}"][..0] == [];
  }

  lemma PaddedWritten(identity: nat)
    ensures WriteRows([" {}"], identity).Ok?
    ensures Rows(WriteRows([" {}"], identity).value.0.content) == ["{}"]
  {
    PaddedKept();
    NoneSpans([" {}"], 0);
    WrittenReadsBack([" {}"]);
  }

  /**
   Why the exception: hydrating a missing file from a stored row with a space before it succeeds and returns that
   row, and the file it wrote reads back as another.
   */
  lemma PaddedRowIsLost(m: Mirror, c: Content, id: string, encoded: string, faults: Faults, identity: nat)
    requires Holds(c, id, [" {}"], encoded)
    ensures var o := Hydrate(m, c, id, None, [" {}"], encoded, faults, Lenient(identity));
            && o.result.Ok? && o.result.value.0 == [" {}"] && FileRows(o.file) == ["{}"]
            && !ThreeWay(o, id, [" {}"], encoded)
  {
    PaddedWritten(identity);
    assert Disagreement([], [" {}"], 0).None?;
  }

  /** After a hydration the next commit from the file starts in step. */
  lemma HydratedInStep(o: Hydrated, id: string, rows: seq<string>, encoded: string)
    requires ThreeWay(o, id, rows, encoded)
    ensures InStep(o.mirror, o.content, id, ReadThrough(if o.file.Some? then o.file.value.content else ""))
  {
    var content := if o.file.Some? then o.file.value.content else "";
    assert Agree(o.mirror, o.content, id, rows, encoded, ReadThrough(content));
  }
}

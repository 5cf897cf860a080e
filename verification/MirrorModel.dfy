/**
 The session mirror (sessionlog/mirror.go, sessionlog/record.go) as functions of the mirror's memory, the
 store and the native file.

 A digest is its pre-image and the configuration digest is the encoded record, which is what injective hashes
 amount to. A source is a function from a cursor to what it returns; `None` is an error. What lies outside is
 a parameter: which rows are JSON objects (`valid`), which unterminated tails are (`complete`), whether the
 host's store fails (`Faults`), and whether the operating system refuses a write.
 */
module MirrorModel {
  import opened Wrappers
  import opened Values
  import opened Jsonl
  import opened Stores

  const CONFIG := "config"

  datatype Mirror = Mirror(committed: bool, rows: nat, digest: string, record: Option<string>, cursor: Cursor)

  const EMPTY := Mirror(false, 0, "", None, START)

  datatype Republish = Nothing | Initial | Rewritten | AppendFailed

  datatype Report = Report(appended: nat, republish: Republish, appendErr: Option<StoreError>)

  datatype CommitError = ReadFailed | RecordFailed | InvalidRow(index: nat) | Shrank | StoreRefused(error: StoreError)

  datatype Faults = Faults(append: bool, replace: bool)

  type Source = Cursor -> Option<Tail>
  type Record = Tail -> Option<string>

  // ---- the rows' digest ----

  /** writeDigest: one length-prefixed row. */
  function Framed(row: string): string {
    Uvarint(|row|) + row
  }

  function Digest(rows: seq<string>): string {
    if rows == [] then "" else Framed(rows[0]) + Digest(rows[1..])
  }

  lemma {:induction false} DigestInjective(a: seq<string>, b: seq<string>)
    requires Digest(a) == Digest(b)
    ensures a == b
  {
    if a != [] && b != [] {
      var x, y := Digest(a[1..]), Digest(b[1..]);
      assert Digest(a) == Uvarint(|a[0]|) + (a[0] + x);
      assert Digest(b) == Uvarint(|b[0]|) + (b[0] + y);
      UvarintPrefixFree(|a[0]|, |b[0]|, a[0] + x, b[0] + y);
      assert a[0] == (a[0] + x)[..|a[0]|] == (b[0] + y)[..|b[0]|] == b[0];
      assert x == (a[0] + x)[|a[0]|..] == (b[0] + y)[|b[0]|..] == y;
      DigestInjective(a[1..], b[1..]);
      assert a == [a[0]] + a[1..] && b == [b[0]] + b[1..];
    } else {
      FramedNotEmpty(a);
      FramedNotEmpty(b);
    }
  }

  lemma FramedNotEmpty(rows: seq<string>)
    ensures rows != [] ==> Digest(rows) != ""
  {
    if rows != [] { assert |Framed(rows[0])| > 0; }
  }

  lemma {:induction false} DigestAppend(a: seq<string>, b: seq<string>)
    ensures Digest(a + b) == Digest(a) + Digest(b)
  {
    if a == [] {
      assert a + b == b;
    } else {
      assert (a + b)[1..] == a[1..] + b;
      DigestAppend(a[1..], b);
    }
  }

  // ---- what the mirror remembers ----

  function Extend(m: Mirror, rows: seq<string>): Mirror {
    m.(rows := m.rows + |rows|, digest := m.digest + Digest(rows))
  }

  function Adopt(rows: seq<string>, encoded: string, next: Cursor): Mirror {
    Extend(EMPTY.(committed := true, record := Some(encoded), cursor := next), rows)
  }

  /** The rows begin with exactly the committed rows. */
  predicate ExtendsCommitted(m: Mirror, rows: seq<string>)
    requires m.rows <= |rows|
  {
    Digest(rows[..m.rows]) == m.digest
  }

  // ---- writing ----

  function ConfigReplacement(id: string, encoded: string): Replacement {
    Replacement(Key(id, CONFIG), [encoded])
  }

  function AppendRows(m: Mirror, c: Content, id: string, rows: seq<string>, encoded: string, fails: bool)
    : (Content, Option<StoreError>)
  {
    if fails then (c, Some(Failed))
    else
      var changed := if Some(encoded) != m.record then [ConfigReplacement(id, encoded)] else [];
      AppendIn(c, Key(id, MAIN), m.rows, rows, changed)
  }

  function ReplaceRows(c: Content, id: string, rows: seq<string>, encoded: string, fails: bool)
    : (Content, Option<StoreError>)
  {
    if fails then (c, Some(Failed))
    else ReplaceIn(c, Key(id, MAIN), [Replacement(Key(id, MAIN), rows), ConfigReplacement(id, encoded)])
  }

  function FirstInvalid(rows: seq<string>, from: nat, valid: string -> bool): (i: Option<nat>)
    ensures i.Some? ==> from <= i.value < |rows|
    decreases |rows| - from
  {
    if from >= |rows| then None else if !valid(rows[from]) then Some(from) else FirstInvalid(rows, from + 1, valid)
  }

  type Outcome = (Mirror, Content, Result<Report, CommitError>)

  function AppendTail(m: Mirror, c: Content, id: string, tail: Tail, encoded: string, fails: bool,
                      valid: string -> bool)
    : Outcome
  {
    var invalid := FirstInvalid(tail.rows, 0, valid);
    if invalid.Some? then (m, c, Err(InvalidRow(invalid.value)))
    else if tail.rows == [] && Some(encoded) == m.record
    then (m.(cursor := tail.next), c, Ok(Report(0, Nothing, None)))
    else
      match AppendRows(m, c, id, tail.rows, encoded, fails)
      case (_, Some(error)) => (m, c, Err(StoreRefused(error)))
      case (c1, None) =>
        (Extend(m, tail.rows).(record := Some(encoded), cursor := tail.next), c1,
         Ok(Report(|tail.rows|, Nothing, None)))
  }

  function Reason(m: Mirror, appendErr: Option<StoreError>): Republish {
    if appendErr.Some? then AppendFailed else if m.committed then Rewritten else Initial
  }

  function RepublishAll(m: Mirror, c: Content, id: string, report: Report, tail: Tail, encoded: string,
                        fails: bool): Outcome {
    match ReplaceRows(c, id, tail.rows, encoded, fails)
    case (_, Some(error)) => (m, c, Err(StoreRefused(error)))
    case (c1, None) => (Adopt(tail.rows, encoded, tail.next), c1, Ok(report))
  }

  /** A history that extends the committed rows: skipped, appended, or after a failed append republished. */
  function CommitExtension(m: Mirror, c: Content, id: string, appendErr: Option<StoreError>, tail: Tail,
                           encoded: string, faults: Faults): Outcome
    requires m.rows <= |tail.rows|
  {
    var added := tail.rows[m.rows..];
    if added == [] && Some(encoded) == m.record
    then (m.(cursor := tail.next), c, Ok(Report(0, Nothing, None)))
    else if appendErr.Some?
    then RepublishAll(m, c, id, Report(0, AppendFailed, appendErr), tail, encoded, faults.replace)
    else
      match AppendRows(m, c, id, added, encoded, faults.append)
      case (_, Some(error)) =>
        RepublishAll(m, c, id, Report(0, AppendFailed, Some(error)), tail, encoded, faults.replace)
      case (c1, None) =>
        (Extend(m, added).(record := Some(encoded), cursor := tail.next), c1, Ok(Report(|added|, Nothing, None)))
  }

  /** commitFull. */
  function CommitFull(m: Mirror, c: Content, id: string, appendErr: Option<StoreError>, tail: Tail, encoded: string,
                      faults: Faults, valid: string -> bool): Outcome
  {
    if m.committed && |tail.rows| < m.rows then (m, c, Err(Shrank))
    else
      var continues := m.committed && ExtendsCommitted(m, tail.rows);
      var invalid := FirstInvalid(tail.rows, if continues then m.rows else 0, valid);
      if invalid.Some? then (m, c, Err(InvalidRow(invalid.value)))
      else if continues then CommitExtension(m, c, id, appendErr, tail, encoded, faults)
      else RepublishAll(m, c, id, Report(0, Reason(m, appendErr), appendErr), tail, encoded, faults.replace)
  }

  datatype Reading = Reading(tail: Tail, encoded: string)

  /** read: the source from a cursor, and the configuration for what it read. */
  function ReadWith(source: Source, from: Cursor, record: Record): Result<Reading, CommitError> {
    match source(from)
    case None => Err(ReadFailed)
    case Some(tail) => if record(tail).None? then Err(RecordFailed) else Ok(Reading(tail, record(tail).value))
  }

  function From(m: Mirror): Cursor {
    if m.committed then m.cursor else START
  }

  /** A refused append reads the whole history again and republishes it. */
  predicate Retries(m: Mirror, c: Content, id: string, r: Reading, faults: Faults, valid: string -> bool) {
    !r.tail.full && (var outcome := AppendTail(m, c, id, r.tail, r.encoded, faults.append, valid).2;
                     outcome.Err? && outcome.error.StoreRefused?)
  }

  /** What the first read of a commit leads to. */
  function CommitReading(m: Mirror, c: Content, id: string, r: Reading, faults: Faults,
                         valid: string -> bool): Outcome {
    if r.tail.full then CommitFull(m, c, id, None, r.tail, r.encoded, faults, valid)
    else AppendTail(m, c, id, r.tail, r.encoded, faults.append, valid)
  }

  /** Commit; the history may have grown before `second` reads it again. */
  function Commit(m: Mirror, c: Content, id: string, first: Source, second: Source, record: Record, faults: Faults,
                  valid: string -> bool): Outcome
  {
    match ReadWith(first, From(m), record)
    case Err(error) => (m, c, Err(error))
    case Ok(r) =>
      var outcome := CommitReading(m, c, id, r, faults, valid);
      if !Retries(m, c, id, r, faults, valid) then outcome
      else
        match ReadWith(second, START, record)
        case Err(error) => (m, c, Err(error))
        case Ok(again) => CommitFull(m, c, id, Some(outcome.2.error.error), again.tail, again.encoded, faults, valid)
  }

  // ---- hydration ----

  /** The first shared index at which two logs differ. */
  function Disagreement(native: seq<string>, stored: seq<string>, i: nat): Option<nat>
    decreases |native| - i
  {
    if i >= |native| || i >= |stored| then None
    else if native[i] != stored[i] then Some(i)
    else Disagreement(native, stored, i + 1)
  }

  datatype HydrateError = Disagrees(index: nat) | Rejected | CommitFailed(error: CommitError) | WriteFailed

  datatype HydrateReport = HydrateReport(tail: TornTail, invalidCut: nat, rewritten: bool, commit: Report)

  /** What hydration leaves, whether or not it succeeded. */
  datatype Hydrated = Hydrated(mirror: Mirror, content: Content, file: Option<File>,
                               result: Result<(seq<string>, HydrateReport), HydrateError>)

  function CutTornIn(file: Option<File>, complete: string -> bool): (Option<File>, TornTail) {
    if file.None? then (None, TornTail(0, false))
    else
      var (content, torn) := CutTorn(file.value.content, complete);
      (Some(file.value.(content := content)), torn)
  }

  /** cutInvalidRows: the file before its first invalid row past the committed ones, and the bytes cut. */
  function CutInvalid(file: Option<File>, native: Tail, committed: nat, valid: string -> bool): (Option<File>, nat) {
    var invalid := FirstInvalid(native.rows, committed, valid);
    if invalid.None? || file.None? then (file, 0)
    else
      var offset := native.start + RowOffset(native.data, invalid.value);
      if offset > |file.value.content| then (file, 0)
      else (Some(file.value.(content := file.value.content[..offset])), |file.value.content| - offset)
  }

  /** The operating system's part in a hydration. */
  datatype Host = Host(complete: string -> bool, valid: string -> bool, validate: seq<string> -> bool,
                       identity: nat, writeFails: bool)

  /** A missing or shorter native file is rewritten from the store. */
  function Rewrite(c: Content, file: Option<File>, stored: seq<string>, adopted: Mirror, report: HydrateReport,
                   h: Host): Hydrated {
    if h.writeFails || WriteRows(stored, h.identity).Err? then Hydrated(adopted, c, file, Err(WriteFailed))
    else
      var (written, cursor) := WriteRows(stored, h.identity).value;
      Hydrated(adopted.(cursor := cursor), c, Some(written), Ok((stored, report.(rewritten := true))))
  }

  /** Native rows that extend the stored rows win and are committed. */
  function KeepNative(c: Content, id: string, file: Option<File>, native: Tail, stored: seq<string>, encoded: string,
                      adopted: Mirror, report: HydrateReport, faults: Faults, h: Host): Hydrated
  {
    if |native.rows| <= |stored|
    then Hydrated(adopted.(cursor := native.next), c, file, Ok((native.rows, report)))
    else
      match CommitFull(adopted, c, id, None, native, encoded, faults, h.valid)
      case (m1, c1, Err(error)) => Hydrated(m1, c1, file, Err(CommitFailed(error)))
      case (m1, c1, Ok(commit)) =>
        Hydrated(m1.(cursor := native.next), c1, file, Ok((native.rows, report.(commit := commit))))
  }

  /** Reconciled and accepted: the mirror adopts what the store holds, then whichever log is longer wins. */
  function Settle(c: Content, id: string, file: Option<File>, native: Tail, stored: seq<string>, encoded: string,
                  report: HydrateReport, faults: Faults, h: Host): Hydrated
  {
    var adopted := Adopt(stored, encoded, START);
    if |native.rows| < |stored| then Rewrite(c, file, stored, adopted, report, h)
    else KeepNative(c, id, file, native, stored, encoded, adopted, report, faults, h)
  }

  /** The two logs must agree wherever both have a row, and the caller may refuse the longer one. */
  function Reconcile(m: Mirror, c: Content, id: string, file: Option<File>, native: Tail, stored: seq<string>,
                     encoded: string, report: HydrateReport, faults: Faults, h: Host): Hydrated
  {
    var rows := if |native.rows| >= |stored| then native.rows else stored;
    match Disagreement(native.rows, stored, 0)
    case Some(index) => Hydrated(m, c, file, Err(Disagrees(index)))
    case None =>
      if rows != [] && !h.validate(rows) then Hydrated(m, c, file, Err(Rejected))
      else Settle(c, id, file, native, stored, encoded, report, faults, h)
  }

  /** Hydrate. */
  function Hydrate(m: Mirror, c: Content, id: string, path: Option<File>, stored: seq<string>, encoded: string,
                   faults: Faults, h: Host): Hydrated
  {
    var (ended, torn) := CutTornIn(path, h.complete);
    var (file, cut) := CutInvalid(ended, Read(ended, START), |stored|, h.valid);
    Reconcile(m, c, id, file, Read(file, START), stored, encoded,
              HydrateReport(torn, cut, false, Report(0, Nothing, None)), faults, h)
  }
}

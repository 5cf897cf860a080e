/**
 The incremental mirror agrees with republishing everything (sessionlog/mirror.go), whatever was skipped,
 appended, rewritten or retried, and whatever failed on the way.
 */
module MirrorLaws {
  import opened Wrappers
  import opened Jsonl
  import opened Stores
  import opened MirrorModel

  // ---- the store ----

  /** The session's generation is exactly these rows and this configuration. */
  predicate Holds(c: Content, id: string, rows: seq<string>, encoded: string) {
    id !in c.deleted && id in c.sessions && c.sessions[id] == map[MAIN := rows, CONFIG := [encoded]]
  }

  /** What republishing a whole history leaves. */
  function Republished(c: Content, id: string, rows: seq<string>, encoded: string): Content {
    c.(sessions := c.sessions[id := map[MAIN := rows, CONFIG := [encoded]]])
  }

  lemma ReplaceRepublishes(c: Content, id: string, rows: seq<string>, encoded: string, fails: bool)
    requires id !in c.deleted
    ensures var (c1, error) := ReplaceRows(c, id, rows, encoded, fails);
            && (error.None? <==> !fails && id != "")
            && c1 == if error.None? then Republished(c, id, rows, encoded) else c
  {
    var replacements := [Replacement(Key(id, MAIN), rows), ConfigReplacement(id, encoded)];
    assert replacements[0].key.subpath == MAIN;
    ReplaceAccepts(Key(id, MAIN), replacements, 0);
    var before := replacements[..1];
    assert before == [replacements[0]] && before[..0] == [];
    assert Put(map[], before) == map[MAIN := rows];
    assert Put(map[], replacements) == map[MAIN := rows][CONFIG := [encoded]];
    assert map[MAIN := rows][CONFIG := [encoded]] == map[MAIN := rows, CONFIG := [encoded]];
  }

  /** Appending to the generation a mirror remembers leaves what republishing the longer history would. */
  lemma AppendRepublishes(m: Mirror, c: Content, id: string, rows: seq<string>, encoded: string, added: seq<string>,
                          now: string, fails: bool)
    requires Holds(c, id, rows, encoded) && m.rows == |rows| && m.record == Some(encoded)
    ensures var (c1, error) := AppendRows(m, c, id, added, now, fails);
            && (error.None? <==> !fails && id != "")
            && c1 == if error.None? then Republished(c, id, rows + added, now) else c
  {
    var g := c.sessions[id][MAIN := rows + added];
    if now != encoded {
      var replacements := [ConfigReplacement(id, now)];
      AppendAccepts(Key(id, MAIN), replacements, 0);
      assert replacements[..0] == [];
      assert Put(g, []) == g;
      assert Put(g, replacements) == g[CONFIG := [now]];
      assert g[CONFIG := [now]] == map[MAIN := rows + added, CONFIG := [now]];
    } else {
      AppendAccepts(Key(id, MAIN), [], 0);
      assert Put(g, []) == g == map[MAIN := rows + added, CONFIG := [now]];
    }
  }

  // ---- the mirror's memory ----

  predicate Remembers(m: Mirror, rows: seq<string>, encoded: string) {
    m.committed && m.rows == |rows| && m.digest == Digest(rows) && m.record == Some(encoded)
  }

  lemma AdoptRemembers(rows: seq<string>, encoded: string, next: Cursor)
    ensures Remembers(Adopt(rows, encoded, next), rows, encoded) && Adopt(rows, encoded, next).cursor == next
  {
    assert "" + Digest(rows) == Digest(rows);
  }

  lemma ExtendRemembers(m: Mirror, rows: seq<string>, encoded: string, added: seq<string>, now: string, next: Cursor)
    requires Remembers(m, rows, encoded)
    ensures Remembers(Extend(m, added).(record := Some(now), cursor := next), rows + added, now)
  {
    DigestAppend(rows, added);
  }

  /** The digest tells exactly whether a history begins with the committed rows. */
  lemma ExtendsExactly(m: Mirror, rows: seq<string>, encoded: string, now: seq<string>)
    requires Remembers(m, rows, encoded) && |rows| <= |now|
    ensures ExtendsCommitted(m, now) <==> now[..|rows|] == rows
  {
    if ExtendsCommitted(m, now) { DigestInjective(now[..|rows|], rows); }
  }

  // ---- the source's contract ----

  /**
   What a source promises of one read, where `at` is the history each cursor it hands out has read through:
   from the start the whole history, otherwise that or exactly the rows after the cursor.
   */
  ghost predicate Honest(t: Tail, from: Cursor, history: seq<string>, at: Cursor -> seq<string>) {
    && (t.next != START ==> at(t.next) == history)
    && (if t.full then t.rows == history else from != START && history == at(from) + t.rows)
  }

  ghost predicate HonestSource(s: Source, from: Cursor, history: seq<string>, at: Cursor -> seq<string>) {
    s(from).Some? ==> Honest(s(from).value, from, history, at)
  }

  /** The mirror, the store and the source's cursor agree on the session's rows. */
  ghost predicate Agree(m: Mirror, c: Content, id: string, rows: seq<string>, encoded: string,
                        at: Cursor -> seq<string>) {
    Holds(c, id, rows, encoded) && Remembers(m, rows, encoded) && (m.cursor != START ==> at(m.cursor) == rows)
  }

  /** What every commit relies on and keeps. */
  ghost predicate InStep(m: Mirror, c: Content, id: string, at: Cursor -> seq<string>) {
    id !in c.deleted &&
    if m.committed then exists rows, encoded :: Agree(m, c, id, rows, encoded, at) else m == EMPTY
  }

  /** What a commit of one reading did: published the whole history it read, or nothing at all. */
  ghost predicate Settled(m: Mirror, c: Content, id: string, history: seq<string>, encoded: string, o: Outcome,
                          at: Cursor -> seq<string>) {
    match o.2
    case Err(_) => o.0 == m && o.1 == c
    case Ok(_) => o.1 == Republished(c, id, history, encoded) && Agree(o.0, o.1, id, history, encoded, at)
  }

  lemma AppendTailSettles(m: Mirror, c: Content, id: string, rows: seq<string>, was: string, r: Reading,
                          history: seq<string>, fails: bool, valid: string -> bool, at: Cursor -> seq<string>)
    requires Agree(m, c, id, rows, was, at)
    requires !r.tail.full && Honest(r.tail, m.cursor, history, at)
    ensures Settled(m, c, id, history, r.encoded, AppendTail(m, c, id, r.tail, r.encoded, fails, valid), at)
  {
    assert history == rows + r.tail.rows;
    AppendRepublishes(m, c, id, rows, was, r.tail.rows, r.encoded, fails);
    ExtendRemembers(m, rows, was, r.tail.rows, r.encoded, r.tail.next);
    if r.tail.rows == [] {
      assert rows + [] == rows;
      SameRepublished(c, id, rows, was);
    }
  }

  lemma SameRepublished(c: Content, id: string, rows: seq<string>, encoded: string)
    requires Holds(c, id, rows, encoded)
    ensures Republished(c, id, rows, encoded) == c
  {
    assert c.sessions[id := map[MAIN := rows, CONFIG := [encoded]]] == c.sessions;
  }

  lemma RepublishSettles(m: Mirror, c: Content, id: string, report: Report, tail: Tail, encoded: string,
                         history: seq<string>, fails: bool, at: Cursor -> seq<string>)
    requires id !in c.deleted && tail.rows == history && (tail.next != START ==> at(tail.next) == history)
    ensures Settled(m, c, id, history, encoded, RepublishAll(m, c, id, report, tail, encoded, fails), at)
  {
    ReplaceRepublishes(c, id, tail.rows, encoded, fails);
    AdoptRemembers(tail.rows, encoded, tail.next);
  }

  lemma ExtensionSettles(m: Mirror, c: Content, id: string, rows: seq<string>, was: string,
                         appendErr: Option<StoreError>, tail: Tail, encoded: string, history: seq<string>,
                         faults: Faults, at: Cursor -> seq<string>)
    requires Agree(m, c, id, rows, was, at) && tail.rows == history && (tail.next != START ==> at(tail.next) == history)
    requires |rows| <= |history| && history[..|rows|] == rows
    ensures Settled(m, c, id, history, encoded, CommitExtension(m, c, id, appendErr, tail, encoded, faults), at)
  {
    var added := history[|rows|..];
    assert history == rows + added;
    AppendRepublishes(m, c, id, rows, was, added, encoded, faults.append);
    ExtendRemembers(m, rows, was, added, encoded, tail.next);
    if added == [] {
      assert history == rows;
      SameRepublished(c, id, rows, was);
    }
    var error := AppendRows(m, c, id, added, encoded, faults.append).1;
    RepublishSettles(m, c, id, Report(0, AppendFailed, appendErr), tail, encoded, history, faults.replace, at);
    RepublishSettles(m, c, id, Report(0, AppendFailed, error), tail, encoded, history, faults.replace, at);
  }

  lemma CommitFullSettles(m: Mirror, c: Content, id: string, appendErr: Option<StoreError>, r: Reading,
                          history: seq<string>, faults: Faults, valid: string -> bool, at: Cursor -> seq<string>)
    requires InStep(m, c, id, at)
    requires r.tail.rows == history && (r.tail.next != START ==> at(r.tail.next) == history)
    ensures Settled(m, c, id, history, r.encoded, CommitFull(m, c, id, appendErr, r.tail, r.encoded, faults, valid), at)
  {
    var report := Report(0, Reason(m, appendErr), appendErr);
    RepublishSettles(m, c, id, report, r.tail, r.encoded, history, faults.replace, at);
    if m.committed && m.rows <= |history| {
      var rows, was :| Agree(m, c, id, rows, was, at);
      ExtendsExactly(m, rows, was, history);
      if ExtendsCommitted(m, history) {
        ExtensionSettles(m, c, id, rows, was, appendErr, r.tail, r.encoded, history, faults, at);
      }
    }
  }

  /** A commit, what its reads saw, and the host's behaviour during it. */
  datatype Attempt = Attempt(first: Source, second: Source, record: Record, faults: Faults, valid: string -> bool,
                             seen: seq<string>, seenAgain: seq<string>)

  ghost predicate HonestAttempt(m: Mirror, a: Attempt, at: Cursor -> seq<string>) {
    HonestSource(a.first, From(m), a.seen, at) && HonestSource(a.second, START, a.seenAgain, at)
  }

  function Try(m: Mirror, c: Content, id: string, a: Attempt): Outcome {
    Commit(m, c, id, a.first, a.second, a.record, a.faults, a.valid)
  }

  lemma FirstReadSettles(m: Mirror, c: Content, id: string, r: Reading, history: seq<string>, faults: Faults,
                         valid: string -> bool, at: Cursor -> seq<string>)
    requires InStep(m, c, id, at) && Honest(r.tail, From(m), history, at)
    ensures Settled(m, c, id, history, r.encoded, CommitReading(m, c, id, r, faults, valid), at)
  {
    if r.tail.full {
      CommitFullSettles(m, c, id, None, r, history, faults, valid, at);
    } else {
      var rows, was :| Agree(m, c, id, rows, was, at);
      AppendTailSettles(m, c, id, rows, was, r, history, faults.append, valid, at);
    }
  }

  /** The read whose rows a successful commit published, and the configuration computed for it. */
  function Published(m: Mirror, c: Content, id: string, a: Attempt): Option<(seq<string>, string)> {
    if Try(m, c, id, a).2.Err? then None
    else
      var r := ReadWith(a.first, From(m), a.record).value;
      if Retries(m, c, id, r, a.faults, a.valid)
      then Some((a.seenAgain, ReadWith(a.second, START, a.record).value.encoded))
      else Some((a.seen, r.encoded))
  }

  /**
   Whichever way it took, a successful commit leaves the store as republishing the whole history it read would,
   with the mirror and its cursor in step; a failed one leaves the store and the mirror as they were.
   */
  lemma CommitRefinesRepublish(m: Mirror, c: Content, id: string, a: Attempt, at: Cursor -> seq<string>)
    requires InStep(m, c, id, at) && HonestAttempt(m, a, at)
    ensures var (m1, c1, result) := Try(m, c, id, a);
            match Published(m, c, id, a)
            case None => result.Err? && m1 == m && c1 == c
            case Some((rows, encoded)) =>
              && result.Ok? && c1 == Republished(c, id, rows, encoded) && Agree(m1, c1, id, rows, encoded, at)
  {
    if ReadWith(a.first, From(m), a.record).Ok? {
      var r := ReadWith(a.first, From(m), a.record).value;
      FirstReadSettles(m, c, id, r, a.seen, a.faults, a.valid, at);
      if Retries(m, c, id, r, a.faults, a.valid) && ReadWith(a.second, START, a.record).Ok? {
        var again := ReadWith(a.second, START, a.record).value;
        var error := CommitReading(m, c, id, r, a.faults, a.valid).2.error.error;
        CommitFullSettles(m, c, id, Some(error), again, a.seenAgain, a.faults, a.valid, at);
      }
    }
  }

  lemma CommitKeepsStep(m: Mirror, c: Content, id: string, a: Attempt, at: Cursor -> seq<string>)
    requires InStep(m, c, id, at) && HonestAttempt(m, a, at)
    ensures InStep(Try(m, c, id, a).0, Try(m, c, id, a).1, id, at)
  {
    CommitRefinesRepublish(m, c, id, a, at);
    if Published(m, c, id, a).Some? {
      var (rows, encoded) := Published(m, c, id, a).value;
      assert Agree(Try(m, c, id, a).0, Try(m, c, id, a).1, id, rows, encoded, at);
    }
  }

  // ---- when a commit succeeds ----

  lemma {:induction false} NoneInvalid(rows: seq<string>, from: nat, valid: string -> bool)
    ensures FirstInvalid(rows, from, valid).None? <==> forall i | from <= i < |rows| :: valid(rows[i])
    ensures var i := FirstInvalid(rows, from, valid);
            i.Some? ==> !valid(rows[i.value]) && forall j | from <= j < i.value :: valid(rows[j])
    decreases |rows| - from
  {
    if from < |rows| { NoneInvalid(rows, from + 1, valid); }
  }

  /** The history is no shorter than the committed one, and valid past a matching committed prefix. */
  predicate Publishable(committed: Option<seq<string>>, history: seq<string>, valid: string -> bool) {
    && (committed.Some? ==> |committed.value| <= |history|)
    && (var from := if committed.Some? && committed.value <= history then |committed.value| else 0;
        forall i | from <= i < |history| :: valid(history[i]))
  }

  lemma FullSucceedsExactly(m: Mirror, c: Content, id: string, appendErr: Option<StoreError>, r: Reading,
                            faults: Faults, valid: string -> bool, at: Cursor -> seq<string>,
                            committed: Option<seq<string>>)
    requires InStep(m, c, id, at) && id != "" && !faults.append && !faults.replace
    requires m.committed == committed.Some?
    requires committed.Some? ==> exists was :: Agree(m, c, id, committed.value, was, at)
    ensures CommitFull(m, c, id, appendErr, r.tail, r.encoded, faults, valid).2.Ok?
            <==> Publishable(committed, r.tail.rows, valid)
  {
    var rows := r.tail.rows;
    ReplaceRepublishes(c, id, rows, r.encoded, false);
    if m.committed && m.rows <= |rows| {
      var was :| Agree(m, c, id, committed.value, was, at);
      ExtendsExactly(m, committed.value, was, rows);
      NoneInvalid(rows, m.rows, valid);
    }
    NoneInvalid(rows, 0, valid);
  }

  /**
   With a store that does not fail, a commit succeeds exactly when its read and its configuration do and the
   history is publishable over the committed one; no append is ever refused.
   */
  lemma CommitSucceedsExactly(m: Mirror, c: Content, id: string, a: Attempt, at: Cursor -> seq<string>,
                            committed: Option<seq<string>>)
    requires InStep(m, c, id, at) && HonestAttempt(m, a, at) && id != "" && a.faults == Faults(false, false)
    requires m.committed == committed.Some?
    requires committed.Some? ==> exists was :: Agree(m, c, id, committed.value, was, at)
    ensures Try(m, c, id, a).2.Ok?
            <==> ReadWith(a.first, From(m), a.record).Ok? && Publishable(committed, a.seen, a.valid)
  {
    if ReadWith(a.first, From(m), a.record).Ok? {
      var r := ReadWith(a.first, From(m), a.record).value;
      if r.tail.full {
        FullSucceedsExactly(m, c, id, None, r, a.faults, a.valid, at, committed);
      } else {
        TailSucceedsExactly(m, c, id, committed.value, r, a.seen, a.valid, at);
      }
    }
  }

  lemma TailSucceedsExactly(m: Mirror, c: Content, id: string, rows: seq<string>, r: Reading, history: seq<string>,
                            valid: string -> bool, at: Cursor -> seq<string>)
    requires id != "" && !r.tail.full && Honest(r.tail, m.cursor, history, at)
    requires exists was :: Agree(m, c, id, rows, was, at)
    ensures var result := AppendTail(m, c, id, r.tail, r.encoded, false, valid).2;
            (result.Ok? <==> Publishable(Some(rows), history, valid)) && (result.Err? ==> result.error.InvalidRow?)
  {
    var was :| Agree(m, c, id, rows, was, at);
    assert history == rows + r.tail.rows;
    assert rows <= history;
    AppendRepublishes(m, c, id, rows, was, r.tail.rows, r.encoded, false);
    NoneInvalid(r.tail.rows, 0, valid);
    assert forall i | 0 <= i < |r.tail.rows| :: r.tail.rows[i] == history[|rows| + i];
    assert forall i | |rows| <= i < |history| :: history[i] == r.tail.rows[i - |rows|];
  }

  // ---- what a commit reports ----

  /** There was something to append to the committed rows, and the store refused it. */
  predicate AppendWasRefused(a: Attempt, rows: seq<string>, was: string, encoded: string) {
    a.faults.append && rows <= a.seen && !(a.seen == rows && encoded == was)
  }

  /** The report of a successful commit over these committed rows that published this history. */
  predicate ReportsWell(report: Report, committed: bool, refused: bool, rows: seq<string>, was: string,
                        seen: seq<string>, history: seq<string>, encoded: string) {
    && (report.republish == Initial <==> !committed)
    && (report.republish == Rewritten <==> committed && !(rows <= seen))
    && (report.republish == AppendFailed <==> committed && refused && !(history == rows && encoded == was))
    && (report.appendErr.Some? <==> report.republish == AppendFailed)
    && (if report.republish == Nothing then rows <= history && report.appended == |history| - |rows|
        else report.appended == 0)
  }

  lemma TailReports(m: Mirror, c: Content, id: string, r: Reading, a: Attempt, at: Cursor -> seq<string>,
                    rows: seq<string>, was: string)
    requires Agree(m, c, id, rows, was, at) && !r.tail.full && Honest(r.tail, m.cursor, a.seen, at)
    requires !Retries(m, c, id, r, a.faults, a.valid)
    ensures var result := CommitReading(m, c, id, r, a.faults, a.valid).2;
            result.Ok? ==> ReportsWell(result.value, true, AppendWasRefused(a, rows, was, r.encoded), rows, was, a.seen,
                                       a.seen, r.encoded)
  {
    AppendRepublishes(m, c, id, rows, was, r.tail.rows, r.encoded, a.faults.append);
    assert a.seen == rows + r.tail.rows;
  }

  lemma FirstReports(m: Mirror, c: Content, id: string, r: Reading, a: Attempt, at: Cursor -> seq<string>)
    requires InStep(m, c, id, at) && !m.committed && Honest(r.tail, START, a.seen, at)
    ensures var result := CommitReading(m, c, id, r, a.faults, a.valid).2;
            result.Ok? ==> result.value == Report(0, Initial, None)
  {
  }

  lemma FullReports(m: Mirror, c: Content, id: string, r: Reading, a: Attempt, at: Cursor -> seq<string>,
                    rows: seq<string>, was: string)
    requires Agree(m, c, id, rows, was, at) && r.tail.full && Honest(r.tail, m.cursor, a.seen, at)
    ensures var result := CommitReading(m, c, id, r, a.faults, a.valid).2;
            result.Ok? ==> ReportsWell(result.value, true, AppendWasRefused(a, rows, was, r.encoded), rows, was, a.seen,
                                       a.seen, r.encoded)
  {
    if |rows| <= |a.seen| {
      ExtendsExactly(m, rows, was, a.seen);
      if rows <= a.seen {
        assert a.seen == rows + a.seen[|rows|..];
        AppendRepublishes(m, c, id, rows, was, a.seen[|rows|..], r.encoded, a.faults.append);
      }
    }
  }

  lemma RetryReports(m: Mirror, c: Content, id: string, error: StoreError, again: Reading, a: Attempt,
                     at: Cursor -> seq<string>, rows: seq<string>, was: string)
    requires Agree(m, c, id, rows, was, at) && again.tail.rows == a.seenAgain && rows <= a.seen
    ensures var result := CommitFull(m, c, id, Some(error), again.tail, again.encoded, a.faults, a.valid).2;
            result.Ok? ==> ReportsWell(result.value, true, true, rows, was, a.seen, a.seenAgain, again.encoded)
  {
    if |rows| <= |a.seenAgain| {
      ExtendsExactly(m, rows, was, a.seenAgain);
      assert rows <= a.seenAgain ==> a.seenAgain == rows + a.seenAgain[|rows|..];
    }
  }

  /** Only a refused append is retried, and it was refused because the store failed. */
  lemma RetriesWhenRefused(m: Mirror, c: Content, id: string, r: Reading, a: Attempt, at: Cursor -> seq<string>,
                           rows: seq<string>, was: string)
    requires Agree(m, c, id, rows, was, at) && Honest(r.tail, m.cursor, a.seen, at) && id != ""
    requires Retries(m, c, id, r, a.faults, a.valid)
    ensures rows <= a.seen && AppendWasRefused(a, rows, was, r.encoded)
  {
    AppendRepublishes(m, c, id, rows, was, r.tail.rows, r.encoded, a.faults.append);
    assert a.seen == rows + r.tail.rows;
  }

  /**
   A successful commit reports `Initial` exactly when nothing had been committed, `Rewritten` exactly when the history
   no longer began with the committed rows, `AppendFailed` with its error exactly when the store refused the append
   and there still was something to publish, and otherwise how many rows it appended.
   */
  lemma CommitReports(m: Mirror, c: Content, id: string, a: Attempt, at: Cursor -> seq<string>, rows: seq<string>,
                      was: string)
    requires InStep(m, c, id, at) && HonestAttempt(m, a, at) && id != "" && Try(m, c, id, a).2.Ok?
    requires m.committed ==> Agree(m, c, id, rows, was, at)
    ensures var r, (history, encoded) := ReadWith(a.first, From(m), a.record).value, Published(m, c, id, a).value;
            ReportsWell(Try(m, c, id, a).2.value, m.committed, AppendWasRefused(a, rows, was, r.encoded), rows, was,
                        a.seen, history, encoded)
  {
    var r := ReadWith(a.first, From(m), a.record).value;
    if !m.committed {
      FirstReports(m, c, id, r, a, at);
    } else if Retries(m, c, id, r, a.faults, a.valid) {
      RetriesWhenRefused(m, c, id, r, a, at, rows, was);
      var error := CommitReading(m, c, id, r, a.faults, a.valid).2.error.error;
      RetryReports(m, c, id, error, ReadWith(a.second, START, a.record).value, a, at, rows, was);
    } else if r.tail.full {
      FullReports(m, c, id, r, a, at, rows, was);
    } else {
      TailReports(m, c, id, r, a, at, rows, was);
    }
  }

  // ---- why a commit fails ----

  /** The first invalid row from a position on. */
  predicate FirstInvalidAt(rows: seq<string>, from: nat, i: nat, valid: string -> bool) {
    from <= i < |rows| && !valid(rows[i]) && forall j | from <= j < i :: valid(rows[j])
  }

  lemma {:induction false} FirstInvalidMeans(rows: seq<string>, from: nat, i: nat, valid: string -> bool)
    ensures FirstInvalid(rows, from, valid) == Some(i) <==> FirstInvalidAt(rows, from, i, valid)
    decreases |rows| - from
  {
    if from < |rows| { FirstInvalidMeans(rows, from + 1, i, valid); }
  }

  /** The history begins with what was committed. */
  predicate Continued(committed: Option<seq<string>>, history: seq<string>) {
    committed.Some? && committed.value <= history
  }

  predicate Shrunk(committed: Option<seq<string>>, history: seq<string>) {
    committed.Some? && |history| < |committed.value|
  }

  /** Where the rows that still have to be valid begin. */
  function Unchecked(committed: Option<seq<string>>, history: seq<string>): nat {
    if Continued(committed, history) then |committed.value| else 0
  }

  /** Why committing a whole history failed, if it did. */
  ghost predicate FullFailsFor(result: Result<Report, CommitError>, committed: Option<seq<string>>, was: string,
                         history: seq<string>, encoded: string, valid: string -> bool, appendFails: bool,
                         replaceFails: bool) {
    var from := Unchecked(committed, history);
    var stands := !Shrunk(committed, history) && forall i | from <= i < |history| :: valid(history[i]);
    && (result == Err(Shrank) <==> Shrunk(committed, history))
    && (forall i: nat :: result == Err(InvalidRow(i)) <==>
          !Shrunk(committed, history) && FirstInvalidAt(history, from, i, valid))
    && (result.Err? && result.error.StoreRefused? <==>
          && stands && replaceFails
          && (Continued(committed, history) ==> appendFails && !(history == committed.value && encoded == was)))
    && result != Err(ReadFailed) && result != Err(RecordFailed)
  }

  lemma FullFailsExactly(m: Mirror, c: Content, id: string, appendErr: Option<StoreError>, r: Reading, faults: Faults,
                         valid: string -> bool, at: Cursor -> seq<string>, rows: seq<string>, was: string)
    requires InStep(m, c, id, at) && id != "" && (m.committed ==> Agree(m, c, id, rows, was, at))
    ensures FullFailsFor(CommitFull(m, c, id, appendErr, r.tail, r.encoded, faults, valid).2,
                         if m.committed then Some(rows) else None, was, r.tail.rows, r.encoded, valid,
                         appendErr.Some? || faults.append, faults.replace)
  {
    var history := r.tail.rows;
    var committed := if m.committed then Some(rows) else None;
    var from := Unchecked(committed, history);
    NoneInvalid(history, from, valid);
    forall i: nat ensures FirstInvalid(history, from, valid) == Some(i) <==> FirstInvalidAt(history, from, i, valid) {
      FirstInvalidMeans(history, from, i, valid);
    }
    ContinuesExactly(m, committed, was, history);
    ReplaceRepublishes(c, id, history, r.encoded, faults.replace);
    if Continued(committed, history) {
      ExtensionFailsExactly(m, c, id, appendErr, r, faults, at, rows, was);
    }
  }

  lemma ContinuesExactly(m: Mirror, committed: Option<seq<string>>, was: string, history: seq<string>)
    requires m.committed == committed.Some? && (m.committed ==> Remembers(m, committed.value, was))
    ensures Continued(committed, history) <==> m.committed && m.rows <= |history| && ExtendsCommitted(m, history)
  {
    if m.committed && m.rows <= |history| { ExtendsExactly(m, committed.value, was, history); }
  }

  lemma ExtensionFailsExactly(m: Mirror, c: Content, id: string, appendErr: Option<StoreError>, r: Reading,
                              faults: Faults, at: Cursor -> seq<string>, rows: seq<string>, was: string)
    requires Agree(m, c, id, rows, was, at) && id != "" && rows <= r.tail.rows
    ensures var result := CommitExtension(m, c, id, appendErr, r.tail, r.encoded, faults).2;
            && (result.Err? ==> result.error.StoreRefused?)
            && (result.Err? <==> (appendErr.Some? || faults.append) && faults.replace
                                 && !(r.tail.rows == rows && r.encoded == was))
  {
    var history := r.tail.rows;
    assert history == rows + history[|rows|..];
    ReplaceRepublishes(c, id, history, r.encoded, faults.replace);
    AppendRepublishes(m, c, id, rows, was, history[|rows|..], r.encoded, faults.append);
  }

  /** Why a commit that read only the rows after its cursor failed before it read again. */
  lemma TailFailsExactly(m: Mirror, c: Content, id: string, r: Reading, a: Attempt, at: Cursor -> seq<string>,
                         rows: seq<string>, was: string)
    requires Agree(m, c, id, rows, was, at) && id != "" && !r.tail.full && Honest(r.tail, m.cursor, a.seen, at)
    ensures var result := CommitReading(m, c, id, r, a.faults, a.valid).2;
            var stands := forall i | 0 <= i < |r.tail.rows| :: a.valid(r.tail.rows[i]);
            && (forall i: nat :: result == Err(InvalidRow(i)) <==> FirstInvalidAt(r.tail.rows, 0, i, a.valid))
            && (Retries(m, c, id, r, a.faults, a.valid) <==> stands && AppendWasRefused(a, rows, was, r.encoded))
            && (result.Ok? <==> stands && !AppendWasRefused(a, rows, was, r.encoded))
  {
    assert a.seen == rows + r.tail.rows;
    AppendRepublishes(m, c, id, rows, was, r.tail.rows, r.encoded, a.faults.append);
    NoneInvalid(r.tail.rows, 0, a.valid);
    forall i: nat
      ensures FirstInvalid(r.tail.rows, 0, a.valid) == Some(i) <==> FirstInvalidAt(r.tail.rows, 0, i, a.valid)
    {
      FirstInvalidMeans(r.tail.rows, 0, i, a.valid);
    }
  }

  /** A reading is the source's rows with the configuration for them, or the failure of the one or the other. */
  predicate ReadFor(result: Result<Reading, CommitError>, source: Source, from: Cursor, record: Record) {
    && (result == Err(ReadFailed) <==> source(from).None?)
    && (result == Err(RecordFailed) <==> source(from).Some? && record(source(from).value).None?)
    && (result.Ok? ==>
          source(from) == Some(result.value.tail) && record(result.value.tail) == Some(result.value.encoded))
  }

  lemma ReadsFor(source: Source, from: Cursor, record: Record)
    ensures ReadFor(ReadWith(source, from, record), source, from, record)
  {
  }

  /**
   A commit fails for its first read, or for what that read as a whole history; or, where only the rows after the
   cursor were read, for an invalid one of them, or, after a refused append, for the second read or its history.
   */
  lemma CommitFailsExactly(m: Mirror, c: Content, id: string, a: Attempt, at: Cursor -> seq<string>, rows: seq<string>,
                           was: string)
    requires InStep(m, c, id, at) && HonestAttempt(m, a, at) && id != ""
    requires m.committed ==> Agree(m, c, id, rows, was, at)
    ensures var result, r := Try(m, c, id, a).2, ReadWith(a.first, From(m), a.record);
            var committed := if m.committed then Some(rows) else None;
            && ReadFor(r, a.first, From(m), a.record)
            && ReadFor(ReadWith(a.second, START, a.record), a.second, START, a.record)
            && match r
            case Err(error) => result == Err(error)
            case Ok(read) =>
              if read.tail.full then
                FullFailsFor(result, committed, was, a.seen, read.encoded, a.valid, a.faults.append, a.faults.replace)
              else if AppendWasRefused(a, rows, was, read.encoded)
                      && forall i | 0 <= i < |read.tail.rows| :: a.valid(read.tail.rows[i]) then
                match ReadWith(a.second, START, a.record)
                case Err(error) => result == Err(error)
                case Ok(again) =>
                  FullFailsFor(result, committed, was, again.tail.rows, again.encoded, a.valid, true, a.faults.replace)
              else
                && (result.Err? ==> result.error.InvalidRow?)
                && forall i: nat :: result == Err(InvalidRow(i)) <==> FirstInvalidAt(read.tail.rows, 0, i, a.valid)
  {
    ReadsFor(a.first, From(m), a.record);
    ReadsFor(a.second, START, a.record);
    if ReadWith(a.first, From(m), a.record).Ok? {
      var r := ReadWith(a.first, From(m), a.record).value;
      if r.tail.full {
        FullFailsExactly(m, c, id, None, r, a.faults, a.valid, at, rows, was);
      } else {
        TailFailsExactly(m, c, id, r, a, at, rows, was);
        NoneInvalid(r.tail.rows, 0, a.valid);
        if Retries(m, c, id, r, a.faults, a.valid) && ReadWith(a.second, START, a.record).Ok? {
          var error := CommitReading(m, c, id, r, a.faults, a.valid).2.error.error;
          var again := ReadWith(a.second, START, a.record).value;
          FullFailsExactly(m, c, id, Some(error), again, a.faults, a.valid, at, rows, was);
        }
      }
    }
  }

  // ---- runs ----

  datatype MirrorStep = CommitStep(attempt: Attempt) | ResetStep

  datatype MirrorState = MirrorState(mirror: Mirror, content: Content)

  function Take(s: MirrorState, id: string, step: MirrorStep): MirrorState {
    match step
    case ResetStep => s.(mirror := EMPTY)
    case CommitStep(a) => var (m, c, _) := Try(s.mirror, s.content, id, a); MirrorState(m, c)
  }

  function TakeAll(s: MirrorState, id: string, steps: seq<MirrorStep>): MirrorState {
    if steps == [] then s else Take(TakeAll(s, id, steps[..|steps| - 1]), id, steps[|steps| - 1])
  }

  ghost predicate HonestSteps(s: MirrorState, id: string, steps: seq<MirrorStep>, at: Cursor -> seq<string>) {
    steps != [] ==>
      var before, last := TakeAll(s, id, steps[..|steps| - 1]), steps[|steps| - 1];
      && HonestSteps(s, id, steps[..|steps| - 1], at)
      && (last.CommitStep? ==> HonestAttempt(before.mirror, last.attempt, at))
  }

  /** The rows and configuration the last successful commit of a run published. */
  function LastPublished(s: MirrorState, id: string, steps: seq<MirrorStep>): Option<(seq<string>, string)> {
    if steps == [] then None
    else
      var before, last := TakeAll(s, id, steps[..|steps| - 1]), steps[|steps| - 1];
      if last.CommitStep? && Published(before.mirror, before.content, id, last.attempt).Some?
      then Published(before.mirror, before.content, id, last.attempt)
      else LastPublished(s, id, steps[..|steps| - 1])
  }

  /**
   Over any run of commits and resets, with the host failing wherever it likes, the store holds exactly the
   history the last successful commit read and the configuration computed for it.
   */
  lemma {:induction false} StoreHoldsLastPublished(c: Content, id: string, steps: seq<MirrorStep>,
                                                   at: Cursor -> seq<string>)
    requires id !in c.deleted && HonestSteps(MirrorState(EMPTY, c), id, steps, at)
    ensures var start := MirrorState(EMPTY, c);
            var s := TakeAll(start, id, steps);
            && InStep(s.mirror, s.content, id, at)
            && match LastPublished(start, id, steps)
               case None => s.content == c && s.mirror == EMPTY
               case Some((rows, encoded)) => Holds(s.content, id, rows, encoded)
  {
    if steps != [] {
      var start := MirrorState(EMPTY, c);
      var rest, last := steps[..|steps| - 1], steps[|steps| - 1];
      var s := TakeAll(start, id, rest);
      StoreHoldsLastPublished(c, id, rest, at);
      if last.CommitStep? {
        CommitRefinesRepublish(s.mirror, s.content, id, last.attempt, at);
        CommitKeepsStep(s.mirror, s.content, id, last.attempt, at);
      }
    }
  }

  // ---- writes behind the mirror's back ----

  /**
   When something else changed how many rows the store holds, an append is refused. What follows repairs the
   store, whatever it held, unless the history read again is the one remembered and its configuration too.
   */
  lemma BypassRepaired(m: Mirror, c: Content, id: string, a: Attempt, rows: seq<string>, encoded: string)
    requires id !in c.deleted && Remembers(m, rows, encoded)
    requires id !in c.sessions || |Entries(c.sessions[id], MAIN)| != m.rows
    requires var r := ReadWith(a.first, m.cursor, a.record);
             r.Ok? && !r.value.tail.full && (r.value.tail.rows != [] || r.value.encoded != encoded)
    requires a.second(START).Some? ==> a.second(START).value.rows == a.seenAgain && a.second(START).value.full
    ensures var (m1, c1, result) := Try(m, c, id, a);
            match result
            case Err(_) => m1 == m && c1 == c
            case Ok(report) =>
              var again := ReadWith(a.second, START, a.record);
              again.Ok? &&
              if a.seenAgain == rows && again.value.encoded == encoded then report.republish == Nothing && c1 == c
              else report.republish == AppendFailed && c1 == Republished(c, id, a.seenAgain, again.value.encoded)
  {
    var r := ReadWith(a.first, m.cursor, a.record).value;
    AppendRefused(m, c, id, r.tail.rows, r.encoded, a.faults.append);
    if a.second(START).Some? && a.record(a.second(START).value).Some? {
      var again := ReadWith(a.second, START, a.record).value;
      var error := CommitReading(m, c, id, r, a.faults, a.valid).2;
      if Retries(m, c, id, r, a.faults, a.valid) {
        RepublishRepairs(m, c, id, error.error.error, again, a.faults, a.valid, rows, encoded);
      }
    }
  }

  /** After a refused append the whole history is skipped when it is the one remembered, and republished otherwise. */
  lemma RepublishRepairs(m: Mirror, c: Content, id: string, error: StoreError, again: Reading, faults: Faults,
                         valid: string -> bool, rows: seq<string>, encoded: string)
    requires id !in c.deleted && Remembers(m, rows, encoded)
    ensures var (m1, c1, result) := CommitFull(m, c, id, Some(error), again.tail, again.encoded, faults, valid);
            match result
            case Err(_) => m1 == m && c1 == c
            case Ok(report) =>
              if again.tail.rows == rows && again.encoded == encoded then report.republish == Nothing && c1 == c
              else report.republish == AppendFailed && c1 == Republished(c, id, again.tail.rows, again.encoded)
  {
    var now := again.tail.rows;
    ReplaceRepublishes(c, id, now, again.encoded, faults.replace);
    if |rows| <= |now| { ExtendsExactly(m, rows, encoded, now); }
    assert now[..|now|] == now;
  }

  lemma AppendRefused(m: Mirror, c: Content, id: string, rows: seq<string>, encoded: string, fails: bool)
    requires id !in c.deleted
    requires id !in c.sessions || |Entries(c.sessions[id], MAIN)| != m.rows
    ensures AppendRows(m, c, id, rows, encoded, fails).1.Some?
  {
  }
}

/**
 The session mirror as the object it is (sessionlog/mirror.go): it updates its memory in place, writes to a
 store object and, when hydrating, to the native log. Each method does what `MirrorModel` says.
 */
module Mirrors {
  import opened Wrappers
  import opened Jsonl
  import opened NativeLogs
  import opened Stores
  import MM = MirrorModel

  class Mirror {
    const store: InMemorySessionStore
    const sessionId: string
    var committed: bool
    var rows: nat
    var digest: string
    var record: Option<string>
    var cursor: Cursor

    function View(): MM.Mirror
      reads this
    {
      MM.Mirror(committed, rows, digest, record, cursor)
    }

    constructor (store: InMemorySessionStore, sessionId: string)
      ensures View() == MM.EMPTY && this.store == store && this.sessionId == sessionId
    {
      this.store, this.sessionId := store, sessionId;
      committed, rows, digest, record, cursor := false, 0, "", None, START;
    }

    /** Reset forgets what the mirror committed. */
    method Forget()
      modifies this
      ensures View() == MM.EMPTY
    {
      committed, rows, digest, record, cursor := false, 0, "", None, START;
    }

    method Adopt(rows: seq<string>, encoded: string, next: Cursor)
      modifies this
      ensures View() == MM.Adopt(rows, encoded, next)
    {
      Forget();
      committed, record, cursor := true, Some(encoded), next;
      Extend(rows);
    }

    /** Records rows as committed after the current ones. */
    method Extend(added: seq<string>)
      modifies this
      ensures View() == MM.Extend(old(View()), added)
    {
      var i := 0;
      while i < |added|
        invariant i <= |added| && digest + MM.Digest(added[i..]) == old(digest) + MM.Digest(added)
        invariant committed == old(committed) && rows == old(rows) && record == old(record) && cursor == old(cursor)
      {
        assert added[i..][1..] == added[i + 1..];
        assert digest + (MM.Framed(added[i]) + MM.Digest(added[i + 1..]))
               == digest + MM.Framed(added[i]) + MM.Digest(added[i + 1..]);
        digest := digest + MM.Framed(added[i]);
        i := i + 1;
      }
      assert digest + "" == digest;
      rows := rows + |added|;
    }

    /** Whether rows begin with exactly the committed rows. */
    method ExtendsCommitted(now: seq<string>) returns (continues: bool)
      requires rows <= |now|
      ensures continues == MM.ExtendsCommitted(View(), now)
    {
      var prefix, taken := now[..rows], "";
      var i := 0;
      while i < |prefix|
        invariant i <= |prefix| && taken + MM.Digest(prefix[i..]) == MM.Digest(prefix)
      {
        assert prefix[i..][1..] == prefix[i + 1..];
        assert taken + (MM.Framed(prefix[i]) + MM.Digest(prefix[i + 1..]))
               == taken + MM.Framed(prefix[i]) + MM.Digest(prefix[i + 1..]);
        taken := taken + MM.Framed(prefix[i]);
        i := i + 1;
      }
      assert taken + "" == taken;
      continues := taken == digest;
    }

    method FirstInvalid(rows: seq<string>, from: nat, valid: string -> bool) returns (invalid: Option<nat>)
      ensures invalid == MM.FirstInvalid(rows, from, valid)
    {
      var i := from;
      while i < |rows|
        invariant MM.FirstInvalid(rows, i, valid) == MM.FirstInvalid(rows, from, valid)
      {
        if !valid(rows[i]) {
          return Some(i);
        }
        i := i + 1;
      }
      invalid := None;
    }

    method AppendRows(added: seq<string>, encoded: string, fails: bool) returns (error: Option<StoreError>)
      modifies store
      ensures (store.View(), error) == MM.AppendRows(View(), old(store.View()), sessionId, added, encoded, fails)
    {
      if fails {
        return Some(Failed);
      }
      var replacements := [];
      if Some(encoded) != record {
        replacements := [MM.ConfigReplacement(sessionId, encoded)];
      }
      error := store.Append(Key(sessionId, MAIN), rows, added, replacements);
    }

    method ReplaceRows(all: seq<string>, encoded: string, fails: bool) returns (error: Option<StoreError>)
      modifies store
      ensures (store.View(), error) == MM.ReplaceRows(old(store.View()), sessionId, all, encoded, fails)
    {
      if fails {
        return Some(Failed);
      }
      var main := Key(sessionId, MAIN);
      error := store.Replace(main, [Replacement(main, all), MM.ConfigReplacement(sessionId, encoded)]);
    }

    /** Records what an append added. */
    method Note(added: seq<string>, encoded: string, next: Cursor)
      modifies this
      ensures View() == MM.Extend(old(View()), added).(record := Some(encoded), cursor := next)
    {
      Extend(added);
      record, cursor := Some(encoded), next;
    }

    method AppendTail(tail: Tail, encoded: string, fails: bool, valid: string -> bool)
      returns (result: Result<MM.Report, MM.CommitError>)
      modifies this, store
      ensures (View(), store.View(), result)
              == MM.AppendTail(old(View()), old(store.View()), sessionId, tail, encoded, fails, valid)
    {
      var invalid := FirstInvalid(tail.rows, 0, valid);
      if invalid.Some? {
        return Err(MM.InvalidRow(invalid.value));
      }
      if |tail.rows| == 0 && Some(encoded) == record {
        cursor := tail.next;
        return Ok(MM.Report(0, MM.Nothing, None));
      }
      var error := AppendRows(tail.rows, encoded, fails);
      if error.Some? {
        return Err(MM.StoreRefused(error.value));
      }
      Note(tail.rows, encoded, tail.next);
      return Ok(MM.Report(|tail.rows|, MM.Nothing, None));
    }

    method RepublishAll(report: MM.Report, tail: Tail, encoded: string, fails: bool)
      returns (result: Result<MM.Report, MM.CommitError>)
      modifies this, store
      ensures (View(), store.View(), result)
              == MM.RepublishAll(old(View()), old(store.View()), sessionId, report, tail, encoded, fails)
    {
      var error := ReplaceRows(tail.rows, encoded, fails);
      if error.Some? {
        return Err(MM.StoreRefused(error.value));
      }
      Adopt(tail.rows, encoded, tail.next);
      return Ok(report);
    }

    method CommitFull(failed: Option<StoreError>, tail: Tail, encoded: string, faults: MM.Faults, valid: string -> bool)
      returns (result: Result<MM.Report, MM.CommitError>)
      modifies this, store
      ensures (View(), store.View(), result)
              == MM.CommitFull(old(View()), old(store.View()), sessionId, failed, tail, encoded, faults, valid)
    {
      if committed && |tail.rows| < rows {
        return Err(MM.Shrank);
      }
      var continues := false;
      if committed {
        continues := ExtendsCommitted(tail.rows);
      }
      var invalid := FirstInvalid(tail.rows, if continues then rows else 0, valid);
      if invalid.Some? {
        return Err(MM.InvalidRow(invalid.value));
      }
      if continues {
        result := CommitExtension(failed, tail, encoded, faults);
      } else {
        result := RepublishAll(MM.Report(0, MM.Reason(View(), failed), failed), tail, encoded, faults.replace);
      }
    }

    method CommitExtension(failed: Option<StoreError>, tail: Tail, encoded: string, faults: MM.Faults)
      returns (result: Result<MM.Report, MM.CommitError>)
      requires rows <= |tail.rows|
      modifies this, store
      ensures (View(), store.View(), result)
              == MM.CommitExtension(old(View()), old(store.View()), sessionId, failed, tail, encoded, faults)
    {
      var added := tail.rows[rows..];
      if |added| == 0 && Some(encoded) == record {
        cursor := tail.next;
        return Ok(MM.Report(0, MM.Nothing, None));
      }
      var appendErr := failed;
      if appendErr.None? {
        appendErr := AppendRows(added, encoded, faults.append);
        if appendErr.None? {
          Note(added, encoded, tail.next);
          return Ok(MM.Report(|added|, MM.Nothing, None));
        }
      }
      result := RepublishAll(MM.Report(0, MM.AppendFailed, appendErr), tail, encoded, faults.replace);
    }

    method Commit(first: MM.Source, second: MM.Source, config: MM.Record, faults: MM.Faults, valid: string -> bool)
      returns (result: Result<MM.Report, MM.CommitError>)
      modifies this, store
      ensures (View(), store.View(), result)
              == MM.Commit(old(View()), old(store.View()), sessionId, first, second, config, faults, valid)
    {
      var from := START;
      if committed {
        from := cursor;
      }
      var read := MM.ReadWith(first, from, config);
      if read.Err? {
        return Err(read.error);
      }
      var r := read.value;
      if r.tail.full {
        result := CommitFull(None, r.tail, r.encoded, faults, valid);
        return;
      }
      result := AppendTail(r.tail, r.encoded, faults.append, valid);
      if result.Ok? || !result.error.StoreRefused? {
        return;
      }
      var again := MM.ReadWith(second, START, config);
      if again.Err? {
        return Err(again.error);
      }
      result := CommitFull(Some(result.error.error), again.value.tail, again.value.encoded, faults, valid);
    }

    // ---- hydration ----

    method Disagreement(native: seq<string>, stored: seq<string>) returns (index: Option<nat>)
      ensures index == MM.Disagreement(native, stored, 0)
    {
      var i := 0;
      while i < |native| && i < |stored|
        invariant MM.Disagreement(native, stored, i) == MM.Disagreement(native, stored, 0)
      {
        if native[i] != stored[i] {
          return Some(i);
        }
        i := i + 1;
      }
      index := None;
    }

    method CutInvalidRows(log: NativeLog, native: Tail, from: nat, valid: string -> bool) returns (cut: nat)
      requires Terminated(native.data)
      modifies log
      ensures (log.file, cut) == MM.CutInvalid(old(log.file), native, from, valid)
      ensures cut == 0 ==> log.file == old(log.file)
    {
      var invalid := FirstInvalid(native.rows, from, valid);
      if invalid.None? || log.file.None? {
        return 0;
      }
      var offset := OffsetOf(native, invalid.value);
      var size := |log.file.value.content|;
      if offset > size {
        return 0;
      }
      assert offset == size ==> log.file.value.content[..offset] == log.file.value.content;
      log.Truncate(offset);
      return size - offset;
    }

    method CutTorn(log: NativeLog, complete: string -> bool) returns (torn: TornTail)
      modifies log
      ensures (log.file, torn) == MM.CutTornIn(old(log.file), complete)
    {
      torn := log.CutTornTail(complete);
    }

    method Hydrate(log: NativeLog, stored: seq<string>, encoded: string, faults: MM.Faults, h: MM.Host)
      returns (result: Result<(seq<string>, MM.HydrateReport), MM.HydrateError>)
      modifies this, store, log
      ensures MM.Hydrated(View(), store.View(), log.file, result)
              == MM.Hydrate(old(View()), old(store.View()), sessionId, old(log.file), stored, encoded, faults, h)
    {
      var torn := CutTorn(log, h.complete);
      var native := log.ReadFrom(START);
      ReadDataEnds(log.file, START);
      var cut := CutInvalidRows(log, native, |stored|, h.valid);
      if cut > 0 {
        native := log.ReadFrom(START);
      }
      var report := MM.HydrateReport(torn, cut, false, MM.Report(0, MM.Nothing, None));
      result := Reconcile(log, native, stored, encoded, report, faults, h);
    }

    method Reconcile(log: NativeLog, native: Tail, stored: seq<string>, encoded: string, report: MM.HydrateReport,
                     faults: MM.Faults, h: MM.Host)
      returns (result: Result<(seq<string>, MM.HydrateReport), MM.HydrateError>)
      modifies this, store, log
      ensures MM.Hydrated(View(), store.View(), log.file, result)
              == MM.Reconcile(old(View()), old(store.View()), sessionId, old(log.file), native, stored, encoded,
                              report, faults, h)
    {
      var index := Disagreement(native.rows, stored);
      if index.Some? {
        return Err(MM.Disagrees(index.value));
      }
      var rows := if |native.rows| >= |stored| then native.rows else stored;
      if |rows| > 0 && !h.validate(rows) {
        return Err(MM.Rejected);
      }
      Adopt(stored, encoded, START);
      if |native.rows| < |stored| {
        result := Rewrite(log, stored, report, h);
      } else {
        result := KeepNative(native, stored, encoded, report, faults, h);
      }
    }

    method Rewrite(log: NativeLog, stored: seq<string>, report: MM.HydrateReport, h: MM.Host)
      returns (result: Result<(seq<string>, MM.HydrateReport), MM.HydrateError>)
      modifies this, log
      ensures MM.Hydrated(View(), store.View(), log.file, result)
              == MM.Rewrite(store.View(), old(log.file), stored, old(View()), report, h)
    {
      var next := log.Write(stored, h.identity, h.writeFails);
      if next.None? {
        return Err(MM.WriteFailed);
      }
      cursor := next.value;
      return Ok((stored, report.(rewritten := true)));
    }

    method KeepNative(native: Tail, stored: seq<string>, encoded: string, report: MM.HydrateReport, faults: MM.Faults,
                      h: MM.Host)
      returns (result: Result<(seq<string>, MM.HydrateReport), MM.HydrateError>)
      modifies this, store
      ensures forall file ::
                MM.Hydrated(View(), store.View(), file, result)
                == MM.KeepNative(old(store.View()), sessionId, file, native, stored, encoded, old(View()), report,
                                 faults, h)
    {
      var noted := report;
      if |native.rows| > |stored| {
        var commit := CommitFull(None, native, encoded, faults, h.valid);
        if commit.Err? {
          return Err(MM.CommitFailed(commit.error));
        }
        noted := report.(commit := commit.value);
      }
      cursor := native.next;
      return Ok((native.rows, noted));
    }
  }
}

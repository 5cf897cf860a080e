/**
 The in-memory session store (store.go): atomic generations, guarded appends, and deletes that last.

 Entries are their bytes. Contexts, clocks and listing order are not modelled, and strings being values, a
 caller cannot reach the store's copies.
 */
module Stores {
  import opened Wrappers

  const MAIN := ""

  datatype Key = Key(sessionId: string, subpath: string)

  datatype Replacement = Replacement(key: Key, entries: seq<string>)

  type Generation = map<string, seq<string>>

  datatype StoreError =
    | IdRequired | WrongMain | ForeignKey | DuplicateKey | NamesMain | MainMissing
    | NoGeneration | BaseMismatch | Failed

  /** The whole content of a store. */
  datatype Content = Content(sessions: map<string, Generation>, deleted: set<string>)

  // ---- validation ----

  /** Every key names the session and no key appears twice. */
  predicate Proper(main: Key, replacements: seq<Replacement>) {
    && (forall i | 0 <= i < |replacements| :: replacements[i].key.sessionId == main.sessionId)
    && (forall i, j | 0 <= i < j < |replacements| :: replacements[i].key != replacements[j].key)
  }

  predicate Lists(replacements: seq<Replacement>, subpath: string) {
    exists i | 0 <= i < |replacements| :: replacements[i].key.subpath == subpath
  }

  predicate NamesTheMain(replacements: seq<Replacement>) {
    Lists(replacements, MAIN)
  }

  predicate Repeats(replacements: seq<Replacement>, i: nat)
    requires i < |replacements|
  {
    exists j | 0 <= j < i :: replacements[j].key == replacements[i].key
  }

  /** The first error of a generation's replacements, from position i on. */
  function ReplaceDefect(main: Key, replacements: seq<Replacement>, i: nat): Option<StoreError>
    requires i <= |replacements|
    decreases |replacements| - i
  {
    if i == |replacements| then if NamesTheMain(replacements) then None else Some(MainMissing)
    else if replacements[i].key.sessionId != main.sessionId then Some(ForeignKey)
    else if Repeats(replacements, i) then Some(DuplicateKey)
    else ReplaceDefect(main, replacements, i + 1)
  }

  function AppendDefect(main: Key, replacements: seq<Replacement>, i: nat): Option<StoreError>
    requires i <= |replacements|
    decreases |replacements| - i
  {
    if i == |replacements| then None
    else if replacements[i].key.sessionId != main.sessionId then Some(ForeignKey)
    else if replacements[i].key.subpath == MAIN then Some(NamesMain)
    else if Repeats(replacements, i) then Some(DuplicateKey)
    else AppendDefect(main, replacements, i + 1)
  }

  lemma {:induction false} ReplaceAccepts(main: Key, replacements: seq<Replacement>, i: nat)
    requires i <= |replacements| && Proper(main, replacements[..i])
    ensures ReplaceDefect(main, replacements, i).None? <==> Proper(main, replacements) && NamesTheMain(replacements)
    decreases |replacements| - i
  {
    if i == |replacements| {
      assert replacements[..i] == replacements;
    } else {
      assert forall j | 0 <= j < i :: replacements[..i][j] == replacements[j];
      if replacements[i].key.sessionId == main.sessionId && !Repeats(replacements, i) {
        ReplaceAccepts(main, replacements, i + 1);
      }
    }
  }

  lemma {:induction false} AppendAccepts(main: Key, replacements: seq<Replacement>, i: nat)
    requires i <= |replacements| && Proper(main, replacements[..i]) && !NamesTheMain(replacements[..i])
    ensures AppendDefect(main, replacements, i).None? <==> Proper(main, replacements) && !NamesTheMain(replacements)
    decreases |replacements| - i
  {
    assert forall j | 0 <= j < i :: replacements[..i][j] == replacements[j];
    if i == |replacements| {
      assert replacements[..i] == replacements;
    } else if replacements[i].key.sessionId == main.sessionId && replacements[i].key.subpath != MAIN
              && !Repeats(replacements, i) {
      assert replacements[..i + 1] == replacements[..i] + [replacements[i]];
      AppendAccepts(main, replacements, i + 1);
    }
  }

  /** The first replacement at fault decides the error. */
  lemma {:induction false} FirstFaultReplacing(main: Key, replacements: seq<Replacement>, from: nat, i: nat)
    requires from <= i < |replacements|
    requires forall j | from <= j < i ::
               replacements[j].key.sessionId == main.sessionId && !Repeats(replacements, j)
    requires replacements[i].key.sessionId != main.sessionId || Repeats(replacements, i)
    ensures ReplaceDefect(main, replacements, from)
            == Some(if replacements[i].key.sessionId != main.sessionId then ForeignKey else DuplicateKey)
    decreases i - from
  {
    if from < i { FirstFaultReplacing(main, replacements, from + 1, i); }
  }

  lemma {:induction false} FirstFaultAppending(main: Key, replacements: seq<Replacement>, from: nat, i: nat)
    requires from <= i < |replacements|
    requires forall j | from <= j < i ::
               && replacements[j].key.sessionId == main.sessionId && replacements[j].key.subpath != MAIN
               && !Repeats(replacements, j)
    requires || replacements[i].key.sessionId != main.sessionId || replacements[i].key.subpath == MAIN
             || Repeats(replacements, i)
    ensures AppendDefect(main, replacements, from)
            == Some(if replacements[i].key.sessionId != main.sessionId then ForeignKey
                    else if replacements[i].key.subpath == MAIN then NamesMain
                    else DuplicateKey)
    decreases i - from
  {
    if from < i { FirstFaultAppending(main, replacements, from + 1, i); }
  }

  lemma {:induction false} NoneMain(main: Key, replacements: seq<Replacement>, from: nat)
    requires from <= |replacements|
    requires forall j | from <= j < |replacements| ::
               replacements[j].key.sessionId == main.sessionId && !Repeats(replacements, j)
    ensures ReplaceDefect(main, replacements, from)
            == if NamesTheMain(replacements) then None else Some(MainMissing)
    decreases |replacements| - from
  {
    if from < |replacements| { NoneMain(main, replacements, from + 1); }
  }

  // ---- the operations on the whole content ----

  /** Each listed subpath set to its entries, in order. */
  function Put(generation: Generation, replacements: seq<Replacement>): Generation {
    if replacements == [] then generation
    else
      var last := replacements[|replacements| - 1];
      Put(generation, replacements[..|replacements| - 1])[last.key.subpath := last.entries]
  }

  function Entries(generation: Generation, subpath: string): seq<string> {
    if subpath in generation then generation[subpath] else []
  }

  function KeyDefect(main: Key): Option<StoreError> {
    if main.sessionId == "" then Some(IdRequired)
    else if main.subpath != MAIN then Some(WrongMain)
    else None
  }

  function ReplaceIn(c: Content, main: Key, replacements: seq<Replacement>): (Content, Option<StoreError>) {
    if KeyDefect(main).Some? then (c, KeyDefect(main))
    else if ReplaceDefect(main, replacements, 0).Some? then (c, ReplaceDefect(main, replacements, 0))
    else if main.sessionId in c.deleted then (c, None)
    else (c.(sessions := c.sessions[main.sessionId := Put(map[], replacements)]), None)
  }

  function AppendIn(c: Content, main: Key, base: nat, entries: seq<string>, replacements: seq<Replacement>)
    : (Content, Option<StoreError>)
  {
    if KeyDefect(main).Some? then (c, KeyDefect(main))
    else if AppendDefect(main, replacements, 0).Some? then (c, AppendDefect(main, replacements, 0))
    else if main.sessionId in c.deleted then (c, None)
    else if main.sessionId !in c.sessions then (c, Some(NoGeneration))
    else
      var g := c.sessions[main.sessionId];
      if |Entries(g, MAIN)| != base then (c, Some(BaseMismatch))
      else
        var g1 := Put(g[MAIN := Entries(g, MAIN) + entries], replacements);
        (c.(sessions := c.sessions[main.sessionId := g1]), None)
  }

  function DeleteIn(c: Content, key: Key): Content {
    if key.sessionId == "" then c
    else if key.subpath == MAIN then Content(c.sessions - {key.sessionId}, c.deleted + {key.sessionId})
    else if key.sessionId !in c.sessions then c
    else c.(sessions := c.sessions[key.sessionId := c.sessions[key.sessionId] - {key.subpath}])
  }

  // ---- what they mean ----

  /** What Put leaves under a subpath: the last replacement that names it, or what was there. */
  lemma {:induction false} PutKeeps(g: Generation, replacements: seq<Replacement>, subpath: string)
    requires forall i | 0 <= i < |replacements| :: replacements[i].key.subpath != subpath
    ensures subpath in Put(g, replacements) <==> subpath in g
    ensures subpath in g ==> Put(g, replacements)[subpath] == g[subpath]
  {
    if replacements != [] {
      PutKeeps(g, replacements[..|replacements| - 1], subpath);
    }
  }

  lemma {:induction false} PutSets(g: Generation, main: Key, replacements: seq<Replacement>, k: nat)
    requires Proper(main, replacements) && k < |replacements|
    ensures var r := replacements[k];
            r.key.subpath in Put(g, replacements) && Put(g, replacements)[r.key.subpath] == r.entries
  {
    var before, last := replacements[..|replacements| - 1], replacements[|replacements| - 1];
    assert forall i | 0 <= i < |before| :: before[i] == replacements[i];
    if k < |before| {
      assert replacements[k].key != last.key;
      PutSets(g, main, before, k);
    }
  }

  /**
   An accepted append extends the main record by exactly the entries, sets exactly the listed subpaths, and
   touches nothing else; a refused one writes nothing.
   */
  lemma AppendMeans(c: Content, main: Key, base: nat, entries: seq<string>, replacements: seq<Replacement>,
                    subpath: string)
    ensures var (c1, err) := AppendIn(c, main, base, entries, replacements);
            && c1.deleted == c.deleted
            && (err.Some? || main.sessionId in c.deleted ==> c1 == c)
            && (forall id | id != main.sessionId :: (id in c1.sessions <==> id in c.sessions)
                  && (id in c.sessions ==> c1.sessions[id] == c.sessions[id]))
            && (err.None? && main.sessionId !in c.deleted ==>
                  && main.sessionId in c.sessions && main.sessionId in c1.sessions
                  && var g, g1 := c.sessions[main.sessionId], c1.sessions[main.sessionId];
                     && |Entries(g, MAIN)| == base && Entries(g1, MAIN) == Entries(g, MAIN) + entries
                     && (forall k | 0 <= k < |replacements| ::
                           Entries(g1, replacements[k].key.subpath) == replacements[k].entries)
                     && (subpath != MAIN && !Lists(replacements, subpath) ==>
                           Entries(g1, subpath) == Entries(g, subpath)))
  {
    AppendAccepts(main, replacements, 0);
    var (c1, err) := AppendIn(c, main, base, entries, replacements);
    if err.None? && main.sessionId !in c.deleted {
      var g := c.sessions[main.sessionId];
      var g0 := g[MAIN := Entries(g, MAIN) + entries];
      PutKeeps(g0, replacements, MAIN);
      forall k | 0 <= k < |replacements|
        ensures Entries(Put(g0, replacements), replacements[k].key.subpath) == replacements[k].entries
      {
        PutSets(g0, main, replacements, k);
      }
      if subpath != MAIN && !Lists(replacements, subpath) {
        PutKeeps(g0, replacements, subpath);
      }
    }
  }

  /** An accepted replace leaves exactly the listed subpaths, each with its entries; a refused one writes nothing. */
  lemma ReplaceMeans(c: Content, main: Key, replacements: seq<Replacement>, subpath: string)
    ensures var (c1, err) := ReplaceIn(c, main, replacements);
            && c1.deleted == c.deleted
            && (err.Some? || main.sessionId in c.deleted ==> c1 == c)
            && (err.None? && main.sessionId !in c.deleted ==>
                  && main.sessionId in c1.sessions
                  && var g1 := c1.sessions[main.sessionId];
                     && MAIN in g1
                     && (subpath in g1 <==> Lists(replacements, subpath))
                     && (forall k | 0 <= k < |replacements| ::
                           Entries(g1, replacements[k].key.subpath) == replacements[k].entries))
  {
    ReplaceAccepts(main, replacements, 0);
    var (c1, err) := ReplaceIn(c, main, replacements);
    if err.None? && main.sessionId !in c.deleted {
      forall k | 0 <= k < |replacements|
        ensures var g1 := Put(map[], replacements);
                replacements[k].key.subpath in g1 && Entries(g1, replacements[k].key.subpath) == replacements[k].entries
      {
        PutSets(map[], main, replacements, k);
      }
      if !Lists(replacements, subpath) {
        PutKeeps(map[], replacements, subpath);
      }
    }
  }

  /** Why an append is refused: by its key, by what it replaces, and then by the generation it meets. */
  lemma AppendErrors(c: Content, main: Key, base: nat, entries: seq<string>, replacements: seq<Replacement>)
    ensures var err := AppendIn(c, main, base, entries, replacements).1;
            var defect, live := AppendDefect(main, replacements, 0), main.sessionId !in c.deleted;
            && (err == Some(IdRequired) <==> main.sessionId == "")
            && (err == Some(WrongMain) <==> main.sessionId != "" && main.subpath != MAIN)
            && (main.sessionId != "" && main.subpath == MAIN && defect.Some? ==> err == defect)
            && (err == Some(NoGeneration) <==>
                  main.sessionId != "" && main.subpath == MAIN && defect.None? && live && main.sessionId !in c.sessions)
            && (err == Some(BaseMismatch) <==>
                  && main.sessionId != "" && main.subpath == MAIN && defect.None? && live
                  && main.sessionId in c.sessions
                  && |Entries(c.sessions[main.sessionId], MAIN)| != base)
            && (main.sessionId != "" && main.subpath == MAIN && defect.None? && !live ==> err.None?)
  {
    AppendDefects(main, replacements, 0);
  }

  lemma {:induction false} AppendDefects(main: Key, replacements: seq<Replacement>, from: nat)
    requires from <= |replacements|
    ensures AppendDefect(main, replacements, from) in
            {None, Some(ForeignKey), Some(NamesMain), Some(DuplicateKey)}
    decreases |replacements| - from
  {
    if from < |replacements| { AppendDefects(main, replacements, from + 1); }
  }

  lemma {:induction false} ReplaceDefects(main: Key, replacements: seq<Replacement>, from: nat)
    requires from <= |replacements|
    ensures ReplaceDefect(main, replacements, from) in
            {None, Some(ForeignKey), Some(MainMissing), Some(DuplicateKey)}
    decreases |replacements| - from
  {
    if from < |replacements| { ReplaceDefects(main, replacements, from + 1); }
  }

  lemma ReplaceErrors(c: Content, main: Key, replacements: seq<Replacement>)
    ensures var err, defect := ReplaceIn(c, main, replacements).1, ReplaceDefect(main, replacements, 0);
            && (err == Some(IdRequired) <==> main.sessionId == "")
            && (err == Some(WrongMain) <==> main.sessionId != "" && main.subpath != MAIN)
            && (main.sessionId != "" && main.subpath == MAIN ==> err == defect)
  {
    ReplaceDefects(main, replacements, 0);
  }

  /**
   Deleting a session's main record forgets the session and marks it deleted; deleting a subpath removes exactly that
   one; nothing else changes.
   */
  lemma DeleteMeans(c: Content, key: Key)
    ensures var c1 := DeleteIn(c, key);
            && (forall id :: id in c1.deleted <==>
                  id in c.deleted || (id == key.sessionId && id != "" && key.subpath == MAIN))
            && (forall id :: id in c1.sessions <==>
                  id in c.sessions && !(id == key.sessionId && id != "" && key.subpath == MAIN))
            && (forall id | id in c1.sessions && id != key.sessionId :: c1.sessions[id] == c.sessions[id])
            && (key.sessionId in c1.sessions ==>
                  var g, g1 := c.sessions[key.sessionId], c1.sessions[key.sessionId];
                  && (forall s :: s in g1 <==> s in g && !(s == key.subpath && key.sessionId != ""))
                  && forall s | s in g1 :: g1[s] == g[s])
  {
  }

  // ---- runs ----

  datatype Operation =
    | DoReplace(main: Key, replacements: seq<Replacement>)
    | DoAppend(main: Key, base: nat, entries: seq<string>, replacements: seq<Replacement>)
    | DoDelete(key: Key)

  function Operate(c: Content, o: Operation): Content {
    match o
    case DoReplace(main, replacements) => ReplaceIn(c, main, replacements).0
    case DoAppend(main, base, entries, replacements) => AppendIn(c, main, base, entries, replacements).0
    case DoDelete(key) => DeleteIn(c, key)
  }

  function OperateAll(c: Content, ops: seq<Operation>): Content {
    if ops == [] then c else Operate(OperateAll(c, ops[..|ops| - 1]), ops[|ops| - 1])
  }

  /** Deleted sessions are not live, and every live session has a main record. */
  predicate WellKept(c: Content) {
    && (forall id | id in c.deleted :: id !in c.sessions)
    && (forall id | id in c.sessions :: id != "" && MAIN in c.sessions[id])
  }

  lemma OperateKeeps(c: Content, o: Operation)
    requires WellKept(c)
    ensures WellKept(Operate(c, o)) && c.deleted <= Operate(c, o).deleted
  {
    match o
    case DoReplace(main, replacements) => ReplaceMeans(c, main, replacements, MAIN);
    case DoAppend(main, base, entries, replacements) =>
      AppendMeans(c, main, base, entries, replacements, MAIN);
      if AppendIn(c, main, base, entries, replacements).1.None? && main.sessionId !in c.deleted {
        AppendAccepts(main, replacements, 0);
        var g := c.sessions[main.sessionId];
        PutKeeps(g[MAIN := Entries(g, MAIN) + entries], replacements, MAIN);
      }
    case DoDelete(_) =>
  }

  /** Once deleted, a session never comes back, whatever is written afterwards. */
  lemma {:induction false} DeletedForGood(c: Content, ops: seq<Operation>, id: string)
    requires WellKept(c) && id in c.deleted
    ensures WellKept(OperateAll(c, ops)) && id in OperateAll(c, ops).deleted && id !in OperateAll(c, ops).sessions
  {
    if ops != [] {
      DeletedForGood(c, ops[..|ops| - 1], id);
      OperateKeeps(OperateAll(c, ops[..|ops| - 1]), ops[|ops| - 1]);
    }
  }

  // ---- the store as the object it is ----

  class InMemorySessionStore {
    var sessions: map<string, Generation>
    var deleted: set<string>

    function View(): Content
      reads this
    {
      Content(sessions, deleted)
    }

    constructor ()
      ensures View() == Content(map[], {})
    {
      sessions, deleted := map[], {};
    }

    method Load(sessionId: string) returns (generation: Option<Generation>)
      ensures generation == if sessionId in sessions then Some(sessions[sessionId]) else None
    {
      generation := if sessionId in sessions then Some(sessions[sessionId]) else None;
    }

    method Replace(main: Key, replacements: seq<Replacement>) returns (error: Option<StoreError>)
      modifies this
      ensures (View(), error) == ReplaceIn(old(View()), main, replacements)
    {
      if main.sessionId == "" {
        return Some(IdRequired);
      }
      if main.subpath != MAIN {
        return Some(WrongMain);
      }
      error := ValidateReplacements(main, replacements);
      if error.Some? || main.sessionId in deleted {
        return;
      }
      var record := Write(map[], replacements);
      sessions := sessions[main.sessionId := record];
    }

    method Append(main: Key, base: nat, entries: seq<string>, replacements: seq<Replacement>)
      returns (error: Option<StoreError>)
      modifies this
      ensures (View(), error) == AppendIn(old(View()), main, base, entries, replacements)
    {
      if main.sessionId == "" {
        return Some(IdRequired);
      }
      if main.subpath != MAIN {
        return Some(WrongMain);
      }
      error := ValidateAppendReplacements(main, replacements);
      if error.Some? || main.sessionId in deleted {
        return;
      }
      if main.sessionId !in sessions {
        return Some(NoGeneration);
      }
      var rows := Entries(sessions[main.sessionId], MAIN);
      if |rows| != base {
        return Some(BaseMismatch);
      }
      var record := Write(sessions[main.sessionId][MAIN := rows + entries], replacements);
      sessions := sessions[main.sessionId := record];
    }

    method Delete(key: Key)
      modifies this
      ensures View() == DeleteIn(old(View()), key)
    {
      if key.sessionId == "" {
        return;
      }
      if key.subpath == MAIN {
        sessions, deleted := sessions - {key.sessionId}, deleted + {key.sessionId};
      } else if key.sessionId in sessions {
        sessions := sessions[key.sessionId := sessions[key.sessionId] - {key.subpath}];
      }
    }

    method Write(generation: Generation, replacements: seq<Replacement>) returns (record: Generation)
      ensures record == Put(generation, replacements)
    {
      record := generation;
      for i := 0 to |replacements|
        invariant record == Put(generation, replacements[..i])
      {
        assert replacements[..i + 1][..i] == replacements[..i];
        record := record[replacements[i].key.subpath := replacements[i].entries];
      }
      assert replacements[..|replacements|] == replacements;
    }

    /** The whole set is checked before any key is written. */
    method ValidateReplacements(main: Key, replacements: seq<Replacement>) returns (error: Option<StoreError>)
      ensures error == ReplaceDefect(main, replacements, 0)
    {
      var mains, seen := 0, {};
      for i := 0 to |replacements|
        invariant seen == set j | 0 <= j < i :: replacements[j].key
        invariant Proper(main, replacements[..i])
        invariant mains == if Key(main.sessionId, MAIN) in seen then 1 else 0
        invariant ReplaceDefect(main, replacements, i) == ReplaceDefect(main, replacements, 0)
      {
        var key := replacements[i].key;
        if key.sessionId != main.sessionId {
          return Some(ForeignKey);
        }
        if key in seen {
          return Some(DuplicateKey);
        }
        seen := seen + {key};
        if key.subpath == MAIN {
          mains := mains + 1;
        }
        ProperNext(main, replacements, i);
      }
      assert replacements[..|replacements|] == replacements;
      MainSeen(main, replacements);
      return if mains != 1 then Some(MainMissing) else None;
    }

    method ValidateAppendReplacements(main: Key, replacements: seq<Replacement>) returns (error: Option<StoreError>)
      ensures error == AppendDefect(main, replacements, 0)
    {
      var seen: set<string> := {};
      for i := 0 to |replacements|
        invariant seen == set j | 0 <= j < i :: replacements[j].key.subpath
        invariant forall j | 0 <= j < i :: replacements[j].key.sessionId == main.sessionId
        invariant AppendDefect(main, replacements, i) == AppendDefect(main, replacements, 0)
      {
        var key := replacements[i].key;
        if key.sessionId != main.sessionId {
          return Some(ForeignKey);
        }
        if key.subpath == MAIN {
          return Some(NamesMain);
        }
        if key.subpath in seen {
          return Some(DuplicateKey);
        }
        seen := seen + {key.subpath};
      }
      return None;
    }
  }

  lemma ProperNext(main: Key, replacements: seq<Replacement>, i: nat)
    requires i < |replacements| && Proper(main, replacements[..i])
    requires replacements[i].key.sessionId == main.sessionId && !Repeats(replacements, i)
    ensures Proper(main, replacements[..i + 1])
  {
    assert forall j | 0 <= j < i :: replacements[..i][j] == replacements[j];
  }

  lemma MainSeen(main: Key, replacements: seq<Replacement>)
    requires Proper(main, replacements)
    ensures NamesTheMain(replacements) <==>
            Key(main.sessionId, MAIN) in set j | 0 <= j < |replacements| :: replacements[j].key
  {
    if NamesTheMain(replacements) {
      var i :| 0 <= i < |replacements| && replacements[i].key.subpath == MAIN;
      assert replacements[i].key == Key(main.sessionId, MAIN);
    }
  }
}

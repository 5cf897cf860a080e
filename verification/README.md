# Lifecycle streams, session logs and the transport, verified

A Dafny 4.11 model of the hard parts of the repository, with proofs about it. `dafny verify dfyconfig.toml`
checks the whole project.

The project has four parts.

* **The lifecycle stream.** `ReducerModel` is the fail-closed reducer as a function of its whole state: 18 kinds of
  refusal, snapshots and deltas ordered by stream and sequence, turns, an activity tree, blocking actions, retired
  incarnations and retained frame digests. `Reducer` is the same thing as the object it is, each method proved to do
  what the function says. `ReducerVerdicts` says which deliveries are accepted and what refuses the others,
  `ReducerLedger` that the projection is the deliveries folded entity by entity; `ReducerInvariant`, `ReducerRuns`,
  `ReducerLimits`, `ActivityRings`, `StuckCycles` and `Retransmission` hold the laws of every run. `Vocabulary`,
  `Wire` and `Decoder` are the strict decoder and its encoder, `WireGrammar` the JSON it accepts, `WireStrict` and
  `WireRoundTrip` their laws. `PublisherModel` and `Publisher` are the writing side; `Simulation`, `PublisherRuns`
  and `PendingRule` show when its bookkeeping and its reducer's agree, `Agreement` that a consumer agrees with it,
  `Handover` what reaches the caller and
  `Outstanding` what stays blocked.
* **Values.** `Numerals`, `Numbers` and `Values` are the exact number normal form and the canonical digest.
* **Session logs.** `Lines`, `Jsonl` and `NativeLog` are the append-only native log; `Stores` the in-memory store;
  `MirrorModel`, `Mirror`, `MirrorLaws`, `HydrateLaws` and `LogCommits` the incremental mirror and hydration.
* **The transport.** `TransportModel`, `Transport` and `TransportLaws` are the opening-publication protocol over all
  interleavings, `Outbound` the outbound observer.

Where the source updates an object, a class does, and its methods equate the new state with a function of the old
one; the properties are proved about those functions. A method whose name the model shares is the object's; a
function of that name is the specification.

Modelling conventions: Go strings and byte slices are strings with one char per byte. A raw JSON value is a tree
whose objects are maps, and a number is its lexeme. A SHA-256 digest is its pre-image, which is what an injective
hash amounts to. A string outside a closed vocabulary is an `Other` value, an absent one a `No` value. Integers are
unbounded except where width matters: sequences and name counters wrap at 2^64, exponents are parsed as int64.

What the proofs brought out about the code:

* Equality of numbers is exact for exponents within int64. A lexeme past it stands for itself, so it equals another
  past it only by its text, and one within it only when it is written as that one's normal form
  (`Numbers.FormsEqualExactly`, with pairs in `Numbers.BeyondRangeIncomplete` and `Numbers.AcrossTheRange`).
* The reducer blocks the cycle in the foreground when an action is first seen, the publisher records the cycle its
  caller named. The two stay together exactly when the caller names the foreground's cycle with a turn that can take
  the blocker (`PendingRule.PendingAgreesExactlyWhenAdmitted`; `PendingRule.ReservedCycleRefused` breaks the rule).
* A snapshot may list activities as each other's ancestors. Such a ring can never be ended, and an incarnation has
  one exactly when the snapshot that opened it lists it (`ActivityRings.RingsAreTheSnapshots`).
* A cycle whose blocker resolves before its owed requires_action transition arrives accepts no transition, until a
  blocking action is first seen while it is the foreground or another foreground takes over the debt
  (`StuckCycles.StuckExactly`, `StuckCycles.StuckReached`).
* A cursor's two checksums cover the bytes read up to an offset of 8192 and no further (`Jsonl.WindowsCoverExactly`).
* A stored row with surrounding whitespace is valid, but a file rewritten from it reads back trimmed, so file and
  store then disagree (`HydrateLaws.HydrateAgrees`, `HydrateLaws.PaddedRowIsLost`).
* Hooks keep their order exactly as long as no publication gives up on its predecessor, which only `Close` lets it
  do; afterwards a later hook of the session may overtake one (`TransportLaws.PatientExactly`,
  `TransportLaws.CloseBreaksOrder`).
* An explicit `null` for `blocksForeground` decodes as false rather than as absent, and a `null` list as empty
  (`WireRoundTrip.NullFlagReadsFalse`, `WireRoundTrip.NullListReadsEmpty`).

## Model

| member | source | states |
|---|---|---|
| Reducers.Reducer.Reduce | lifecycle/reducer.go:141-204 | one delivery leaves exactly the state the specification names, in the source's order of refusals, and returns the latched refusal; a foreign snapshot is judged on a reducer of its own and swapped in whole or not at all |
| Reducers.Reducer.CheckSnapshot | lifecycle/reducer_apply.go:28-110 | the first refusal of a whole snapshot, found before any of it is projected |
| Reducers.Reducer.Blocked | lifecycle/reducer_apply.go:257-265 | the scan finds a nonterminal action that stopped the cycle exactly when there is one |
| Reducers.Reducer.LiveDescendant | lifecycle/reducer_apply.go:458-472 | the scan finds a live child or owned action exactly when there is one |
| ReducerInvariant.ApplyInv | lifecycle/reducer_apply.go:177-635 | every applied delta keeps unique ids, resolved references, a named foreground, tracked blockers, the owed transition and the closed tree |
| ReducerInvariant.ApplySnapshotInv | lifecycle/reducer_apply.go:9-165 | an accepted snapshot establishes all of these |
| ReducerVerdicts.AcceptanceVerdict | lifecycle/reducer_apply.go:177-203 | an acceptance is taken exactly when its turn was never introduced, and is a mutation exactly when that turn has ended |
| ReducerVerdicts.TransitionVerdict | lifecycle/reducer_apply.go:205-322 | the exact condition of a transition, and of each of its four refusals, by what it states, the cycle's blockers and the turn it names |
| ReducerVerdicts.ActivityFirstSightVerdict | lifecycle/reducer_apply.go:324-398 | the exact condition of an activity's first sight and of each of its refusals |
| ReducerVerdicts.ActivityUpdateVerdict | lifecycle/reducer_apply.go:400-491 | a live activity takes an update exactly when it restates its identity and, if it ends it, nothing below is live; an ended one only restatements |
| ReducerVerdicts.ActionFirstSightVerdict | lifecycle/reducer_apply.go:493-548 | the exact condition of an action's first sight and of each of its refusals |
| ReducerVerdicts.ActionUpdateVerdict | lifecycle/reducer_apply.go:582-635 | a pending action takes an update exactly when it restates its identity, a resolved one only restatements |
| ReducerVerdicts.OpeningVerdict | lifecycle/reducer_apply.go:9-165 | a snapshot opens an incarnation exactly when all it lists is new, complete, negotiated, live and refers to what it lists, and a requirement has a blocker |
| ReducerVerdicts.FaultyActivityDecides | lifecycle/reducer_apply.go:28-83 | the first faulty activity of a snapshot decides its refusal |
| ReducerVerdicts.FaultyActionDecides | lifecycle/reducer_apply.go:85-110 | so does its first faulty action, after the activities |
| ReducerVerdicts.OrderingVerdict | lifecycle/reducer.go:141-204 | each place out of order has its own refusal, naming the delivery |
| ReducerVerdicts.UnopenedVerdict | lifecycle/reducer.go:217-236 | before anything is open exactly the deltas are refused as coming before the snapshot |
| ReducerVerdicts.UnusableVerdict | lifecycle/reducer_apply.go:177-181 | an event without its payload is malformed wherever it could have applied |
| ReducerVerdicts.SettledOnlyRestates | lifecycle/state.go:70-90 | in a settled stream what names a recorded activity or action changes nothing |
| ReducerLedger.ProjectionIsTold | lifecycle/reducer_apply.go:112-635 | in every reached state each turn, activity and action, their order, the foreground and the cycles the blockers stopped are exactly what the incarnation's deliveries say, folded one after the other |
| ReducerLedger.TurnEndsForGood | lifecycle/reducer_apply.go:298-322 | an accepted idle ends its turn with its outcome, reason and cycle in every later state of the incarnation, and no acceptance or transition naming that turn is accepted after it |
| ReducerRuns.EveryRunSound | lifecycle/reducer.go:60-204 | every state a new reducer reaches by deliveries, undecodable frames and closes is failed, untouched, or coherent, retained frames exactly the reduced range |
| ReducerRuns.TerminalDescendants | lifecycle/reducer_apply.go:387-472 | where the tree is closed, as in every coherent state, a terminal activity has only terminal descendants at any depth |
| ReducerRuns.IncarnationContinues | lifecycle/reducer_apply.go:271-635 | of two unfailed states of a run the later extends the earlier: ids only appended, identities fixed, terminal records unchanged; or it has retired that stream |
| ReducerRuns.RefusalLatched | lifecycle/reducer.go:141-145 | after a refusal nothing but closing changes anything, so every later delivery returns it |
| ReducerRuns.RefusalAtomic | lifecycle/reducer.go:105-204 | a refused input leaves the projection and the retired streams as they were; only an unopened stream takes the refused identity |
| ReducerLimits.SupersededForGood | lifecycle/reducer.go:181-204 | once a stream identity is retired, no delivery naming it is accepted anywhere later in the run |
| StuckCycles.LiveAcceptedExactly | lifecycle/reducer_apply.go:234-298 | a transition taking an open turn live is accepted exactly when the cycle's blockers call for it |
| StuckCycles.NoLiveTransitionExactly | lifecycle/reducer_apply.go:234-298 | neither live transition of an open turn is accepted on a cycle exactly when it owes requires_action and no blocker of it is live |
| StuckCycles.StuckRefuses | lifecycle/reducer_apply.go:234-254 | such a cycle accepts no transition at all, an ending one included |
| StuckCycles.StuckReached | lifecycle/reducer_apply.go:550-607 | four accepted deliveries that leave a cycle so, its turn still open |
| StuckCycles.StuckExactly | lifecycle/reducer_apply.go:550-580 | within an incarnation it stays so exactly until the first sight of a live blocker while it is the foreground, or while a foreground outside requires_action takes over the debt |
| ActivityRings.RingsNeverEnd | lifecycle/reducer_apply.go:458-472 | activities in a ring of parents stay live for as long as their incarnation lasts, whatever is delivered |
| ActivityRings.RingsNeverChange | lifecycle/reducer_apply.go:324-404 | the live rings of any two states of one incarnation are the same, identities being non-empty as the decoder makes sure |
| ActivityRings.RingsAreTheSnapshots | lifecycle/reducer_apply.go:56-83 | an incarnation has a ring exactly when the snapshot that opened it lists one |
| ActivityRings.SnapshotMayRing | lifecycle/reducer_apply.go:56-83 | a new reducer accepts a snapshot of two activities that are each other's parents, and they never end |
| ReducerRuns.BlockedTransition | lifecycle/reducer_apply.go:234-265 | while a blocker is live no accepted transition names its cycle with any state but requires_action |
| ReducerRuns.BlockedThroughout | lifecycle/reducer_apply.go:550-580 | the same for every transition anywhere between two states of one incarnation at which the blocker is live |
| Retransmission.RetransmissionsErased | lifecycle/reducer.go:238-253 | inserting anywhere any copies of frames the run had reduced in its current incarnation leaves it accepted with the same state, the suppression counter counting exactly the copies of the current incarnation |
| Retransmission.ReducedRepeats | lifecycle/reducer.go:238-253 | what a run reduced is recognised at every later open state of the same incarnation |
| Retransmission.RetainedWereDelivered | lifecycle/reducer.go:248-253 | each retained digest is that of a frame the run delivered under that stream and sequence |
| Retransmission.SuppressedExactlyWhenEqual | lifecycle/reducer.go:238-246 | a retransmission is suppressed if and only if its frame is value-equal to the reduced one |
| Numbers.NormalFormExact | lifecycle/value.go:142-186 | the normal form of every JSON number lexeme is a lexeme denoting the same number |
| Numbers.NormalizationIdempotent | lifecycle/value.go:146-186 | normalising twice is normalising once |
| Numbers.EqualFormsEqualNumbers | lifecycle/value.go:146-186 | equal normal forms denote equal numbers, whatever the exponents |
| Numbers.NormalFormsDecideEquality | lifecycle/value.go:146-186 | with exponents within int64, normal forms are equal exactly when the numbers are |
| Numbers.ZerosCollapse | lifecycle/value.go:163-166 | a lexeme normalises to 0 exactly when it denotes zero |
| Numbers.FormsEqualExactly | lifecycle/value.go:142-186 | over all exponents two lexemes are equal exactly when they denote one number and both exponents are within int64, or neither is and the texts are the same, or one is and the other is written as its normal form |
| Numbers.AcrossTheRange | lifecycle/value.go:170-178 | two lexemes of one number, one within int64 and one past it, with different texts and the same form |
| Numbers.BeyondRangeIncomplete | lifecycle/value.go:170-178 | there, equal numbers with different normal forms exist |
| Values.ValueEqualReflexive | lifecycle/value.go:36-80 | deep equality is reflexive |
| Values.ValueEqualSymmetric | lifecycle/value.go:36-80 | deep equality is symmetric |
| Values.ValueEqualTransitive | lifecycle/value.go:36-80 | deep equality is transitive |
| Values.CanonicalPrefixFree | lifecycle/value.go:86-130 | the canonical encoding is prefix-free over nested arrays and objects, and equal encodings come only from equal values |
| Values.EqualValuesEncodeAlike | lifecycle/value.go:86-130 | equal values have the same encoding |
| Values.DigestIsExact | lifecycle/value.go:82-130 | two frames have one digest if and only if they are deeply equal |
| Values.SortedKeysAscend | lifecycle/value.go:112-117 | object members are written in ascending key order |
| Values.FrameDigest | lifecycle/value.go:86-91 | the digest object writes exactly the canonical encoding |
| Values.Digest.WriteCanonical | lifecycle/value.go:93-124 | each write appends exactly the value's encoding |
| Decoders.DecodeSessionUpdate | lifecycle/decode.go:28-76 | the strict decoder's delivery or its first refusal, with as much ordering identity as was read |
| Decoders.Decoder.Known | lifecycle/decode.go:531-541 | any member outside the allowed ones is refused |
| Decoders.Decoder.ReadActivities | lifecycle/decode.go:216-218 | a list's activities and the first refusal among them |
| WireRoundTrip.EncodeThenDecode | lifecycle/emit.go:142-265 | decoding the notification rendered from an admissible event returns that event, stream and sequence |
| WireRoundTrip.DecodeThenEncode | lifecycle/decode.go:28-76 | re-encoding what the decoder returned gives a notification that decodes to the same delivery |
| WireRoundTrip.DecodedIsAdmissible | lifecycle/decode.go:123-541 | everything the decoder returns is admissible |
| WireRoundTrip.SurvivesExactlyWhenAdmissible | lifecycle/emit.go:142-265 | an event survives encoding and decoding if and only if it is admissible |
| WireRoundTrip.NullFlagReadsFalse | lifecycle/decode.go:493-511 | an action whose blocksForeground is null decodes as one that states false |
| WireRoundTrip.NullListReadsEmpty | lifecycle/decode.go:513-529 | a snapshot whose activities are null decodes as one that lists none |
| WireGrammar.DecodesExactly | lifecycle/decode.go:28-541 | the decoder accepts a notification exactly when its JSON is of the written grammar: each object's members, which are required, and what each may hold |
| WireGrammar.RefusedUnread | lifecycle/decode.go:28-143 | what is refused before any member is judged, with as much of the ordering identity as was read |
| WireGrammar.RefusedByMembers | lifecycle/decode.go:131-166 | a named envelope is refused for its version, an unknown member, its event or its type, in that order, and last for its carrier |
| WireStrict.ExtraMemberRefused | lifecycle/decode.go:531-541 | one more member anywhere in an accepted notification's envelope turns it into an unknown-field refusal under the same stream and sequence |
| Publishers.Emitter.Emit | lifecycle/emit.go:44-72 | the sequence is consumed whatever happens; the envelope is handed back only if its decoded notification reduced |
| Publishers.Publisher.Open | lifecycle/publisher.go:56-69 | a new incarnation with no blockers and an idle snapshot, unless one is open or nothing was negotiated |
| Publishers.Publisher.Accept | lifecycle/publisher.go:72-88 | a fresh turn and cycle, the acceptance, then the running transition |
| Publishers.Publisher.ActionPending | lifecycle/publisher.go:125-148 | the blocking action, the transition for a cycle's first blocker, and the record of who blocks what |
| Publishers.Publisher.ActionResolved | lifecycle/publisher.go:152-171 | the terminal patch of a recorded blocker, and running again after the cycle's last |
| Publishers.Publisher.Idle | lifecycle/publisher.go:175-196 | the cycle's blockers cancelled in sorted order, then the ending transition |
| Publishers.Publisher.CancelAll | lifecycle/publisher.go:183-189 | the cancelling loop emits in order and stops at the first error |
| Publishers.Publisher.BlockedBy | lifecycle/publisher.go:226-240 | the cycle's outstanding actions in a stable order |
| Simulation.StreamEmitApplied | lifecycle/emit.go:44-72 | an admissible event the reducer applies is handed back with the next sequence |
| Simulation.BlockedIffPending | lifecycle/publisher.go:224-240 | in simulation a cycle is blocked in the reducer exactly when the publisher lists a blocker of it |
| PublisherRuns.CallKeeps | lifecycle/publisher.go:56-204 | one legal call is never refused and keeps publisher and reducer in simulation |
| PublisherRuns.LegalRunsNeverRefused | lifecycle/publisher.go:56-204 | after every legal run no legal call is refused by the publisher's own reducer |
| PublisherRuns.LegalRunsAgree | lifecycle/publisher.go:125-196 | after every legal run the blockers are exactly the reducer's live blocking actions with their cycles, nothing is owed, and a foreground with a pending blocker is in requires_action |
| PublisherRuns.SettledRunsHaveNoBlockers | lifecycle/state.go:70-90 | when the projection is settled after a legal run, the publisher has nothing pending |
| PublisherRuns.CancelAllKeeps | lifecycle/publisher.go:183-189 | cancelling a cycle's pending actions releases exactly them, one sequence each |
| PendingRule.PendingAgreesExactlyWhenAdmitted | lifecycle/publisher.go:122-148 | wherever deliveries succeed, a pending action succeeds and keeps the two state machines in simulation if and only if its cycle is the foreground's and its turn can take it |
| PendingRule.ReservedCycleRefused | lifecycle/publisher.go:91-106 | after any legal run, a pending action on a reserved, unopened agent cycle is refused |
| PendingRule.OpeningIsSuchARun | lifecycle/publisher.go:56-69 | opening a stream is such a run |
| PublisherRuns.ForeignExactly | lifecycle/publisher.go:108-121 | opening an agent's cycle is reported as foreign, and does nothing, exactly when it is not an agent's cycle of the current incarnation |
| PublisherRuns.ReservedBelongs | lifecycle/publisher.go:91-105 | a reserved cycle belongs to the current incarnation under the next two names |
| PublisherRuns.AcceptedUnder | lifecycle/publisher.go:72-88 | an acceptance runs in a cycle of the caller's incarnation under the next two names |
| PublisherRuns.NextIdIsNew | lifecycle/publisher.go:91-105 | a name takes the next number, and nothing of its kind was given it before |
| Agreement.CallEmits | lifecycle/publisher.go:72-196 | each call is one list of events emitted up to the first error, which it reports |
| Agreement.ConsumerAgrees | lifecycle/emit.go:44-72 | over any calls with no stream reused, each incarnation's envelopes are numbered 1 to n, a consumer fed them refuses none, and its projection is the open publisher's |
| Agreement.EmitFollowed | lifecycle/publisher.go:242-259 | the same after every single emission, which publishes and stays open or fails and is fenced |
| Agreement.NoneRefused | lifecycle/reducer.go:141-145 | a consumer that has not failed at the end failed at no envelope before |
| Handover.CallHandsOver | lifecycle/publisher.go:242-259 | each call publishes exactly the envelopes its stream hands back that deliver takes before the first it does not, and reports that delivery or the refused event |
| Handover.FailureReported | lifecycle/publisher.go:242-259 | a call reports a failure exactly when its stream refuses one of its events or deliver one of its envelopes, and then the incarnation has ended |
| Outstanding.OutstandingAfter | lifecycle/publisher.go:125-196 | what every call, legal or not, failed or not, leaves outstanding |
| Handover.FailureEndsForGood | lifecycle/publisher.go:242-259 | after such a call nothing is published on that stream again |
| Agreement.EndedForGood | lifecycle/publisher.go:199-211 | once an incarnation ended nothing is published on its stream again |
| NativeLogs.LastLineEnd | sessionlog/jsonl.go:290-311 | the windowed backward scan finds the offset after the last newline |
| NativeLogs.SplitLines | sessionlog/jsonl.go:184-197 | the trimmed non-empty complete lines and the bytes they span |
| NativeLogs.OffsetOf | sessionlog/jsonl.go:73-90 | the byte offset of the line of a row |
| NativeLogs.NativeLog.ReadUpTo | sessionlog/jsonl.go:133-182 | continuing from a cursor the file still extends, otherwise reading whole; a size past the end fails |
| NativeLogs.NativeLog.CutTornTail | sessionlog/jsonl.go:242-286 | a complete last record is terminated, any other unterminated tail cut, in place |
| NativeLogs.NativeLog.Write | sessionlog/jsonl.go:348-405 | the whole file is replaced by the rows or left as it was; a row that spans lines fails |
| Jsonl.WindowsCoverExactly | sessionlog/jsonl.go:199-209 | the two checksums determine the whole prefix if and only if it is at most 8192 bytes |
| Jsonl.ContinuationIsExact | sessionlog/jsonl.go:133-162 | up to 8192 bytes a read continues exactly when the file is the same and really extends what was read |
| Jsonl.ReadUpToIsCut | sessionlog/jsonl.go:133-182 | reading up to a size is reading the file cut there, and fails exactly past its end |
| Jsonl.FollowingIsExact | sessionlog/jsonl.go:107-182 | for any interleaving of appends, torn-tail repairs and reads, the rows of all the reads one after the other are exactly the rows of the complete lines: none lost, none repeated |
| Jsonl.FullOnlyFromTheStart | sessionlog/jsonl.go:107-182 | throughout such a run a read starts over exactly while the cursor is at the start, when nothing has been returned |
| Jsonl.TornTailCut | sessionlog/jsonl.go:257-288 | the file ends on a line boundary, every complete line is kept, the last record is terminated exactly when it is complete, the bytes cut are counted, and cutting twice is cutting once |
| Jsonl.CutKeepsRows | sessionlog/jsonl.go:73-90 | truncating before a row leaves exactly the rows before it, on a line boundary |
| Jsonl.KeptExactlyWhenLines | sessionlog/jsonl.go:377-405 | rows survive being written and read exactly when each is a trimmed non-empty line |
| Jsonl.WrittenReadsBack | sessionlog/jsonl.go:377-405 | a written file reads back as its rows trimmed, blank ones gone |
| Jsonl.WriteRefusesExactly | sessionlog/jsonl.go:377-405 | writing is refused exactly for the first row that spans lines |
| Stores.InMemorySessionStore.Replace | store.go:120-150 | one complete generation published atomically, or nothing |
| Stores.InMemorySessionStore.Append | store.go:156-201 | a guarded extension of the committed generation, or nothing |
| Stores.InMemorySessionStore.Delete | store.go:289-313 | a subrecord, or the session for good |
| Stores.InMemorySessionStore.ValidateReplacements | store.go:232-258 | the first error of a generation's replacements, by a growing set of keys |
| Stores.InMemorySessionStore.ValidateAppendReplacements | store.go:206-227 | the first error of an append's replacements |
| Stores.ReplaceAccepts | store.go:229-258 | accepted exactly when every key is the session's, none repeats and the main key is among them |
| Stores.AppendAccepts | store.go:204-227 | accepted exactly when every key is a distinct subpath of the session other than the main one |
| Stores.FirstFaultReplacing | store.go:229-258 | the first replacement at fault decides a generation's error |
| Stores.NoneMain | store.go:229-258 | and where none is, the missing main record |
| Stores.FirstFaultAppending | store.go:204-227 | the first replacement at fault decides an append's error |
| Stores.AppendMeans | store.go:51-57 | an append extends the main record by exactly its entries, sets exactly the listed subpaths and touches nothing else; a refused one writes nothing |
| Stores.ReplaceMeans | store.go:49-51 | a replace leaves exactly the listed subpaths; a refused one writes nothing |
| Stores.DeleteMeans | store.go:289-313 | deleting the main record forgets the session and marks it, deleting a subpath removes exactly it |
| Stores.AppendErrors | store.go:156-227 | the exact condition of each refusal of an append |
| Stores.ReplaceErrors | store.go:120-150 | the exact condition of each refusal of a replace |
| Stores.DeletedForGood | store.go:74-78 | a deleted session never comes back, whatever is written afterwards |
| Mirrors.Mirror.Commit | sessionlog/mirror.go:113-144 | the source is read from the cursor, and again from the start when the append was refused; state, store and report as specified |
| Mirrors.Mirror.ExtendsCommitted | sessionlog/mirror.go:376-383 | the running digest of the prefix is compared with the committed one |
| Mirrors.Mirror.Extend | sessionlog/mirror.go:426-432 | rows join the digest length-prefixed, and the count |
| Mirrors.Mirror.Hydrate | sessionlog/mirror.go:173-238 | mirror, store and file after the torn tail and the invalid rows are cut and the logs reconciled |
| MirrorModel.DigestInjective | sessionlog/mirror.go:443-448 | the length-prefixed digest determines the rows |
| MirrorLaws.ExtendsExactly | sessionlog/mirror.go:376-383 | the digest matches if and only if the history begins with the committed rows |
| MirrorLaws.CommitRefinesRepublish | sessionlog/mirror.go:101-144 | under the source's contract a successful commit leaves the store as republishing the whole history read would, whichever way it took; a failed one changes neither store nor mirror |
| MirrorLaws.CommitSucceedsExactly | sessionlog/mirror.go:320-373 | with a store that does not fail, a commit succeeds exactly when its read does and the history is no shorter and valid past a matching prefix |
| MirrorLaws.CommitFailsExactly | sessionlog/mirror.go:113-144 | each failure of a commit has its exact cause: a read, the configuration, a shrunk history, the first invalid row, or a store that took neither append nor replacement |
| MirrorLaws.CommitReports | sessionlog/mirror.go:320-373 | a commit reports Initial, Rewritten or AppendFailed exactly when nothing was committed, the history no longer continued, or an append was refused; otherwise the rows it appended |
| MirrorLaws.StoreHoldsLastPublished | sessionlog/mirror.go:113-144 | over any run of commits and resets with any failures, the store holds exactly what the last successful commit read |
| MirrorLaws.BypassRepaired | sessionlog/mirror.go:17-26 | a write behind the mirror that changed the row count fails the next append, rows or configuration alone, and the republish that follows repairs the store unless the history read again is the one remembered |
| HydrateLaws.FileSourceIsHonest | sessionlog/jsonl.go:92-100 | reading an append-only file keeps the source's contract and hands out a cursor that keeps it as the file grows |
| HydrateLaws.CutInvalidKeeps | sessionlog/mirror.go:240-262 | exactly the rows before the first invalid one remain, on a line boundary, and the bytes cut are counted |
| HydrateLaws.AgreesBefore | sessionlog/record.go:162-167 | the first shared index at which the logs differ, with agreement before it |
| HydrateLaws.HydrateAgrees | sessionlog/mirror.go:164-238 | on success file, store, mirror and returned rows are one history, the longer of two logs that agree wherever both have a row, except exactly when the file was rewritten from rows that are not lines; a failure leaves the store as it was |
| HydrateLaws.HydrateSucceedsExactly | sessionlog/mirror.go:193-237 | hydration succeeds exactly when the logs agree where both have a row, the longer is accepted, and the write or commit it needs goes through; each error has its exact cause |
| HydrateLaws.HydrateReports | sessionlog/mirror.go:173-238 | the report names the bytes cut, whether the file was rewritten and what was committed |
| HydrateLaws.NativeRowsAreLines | sessionlog/jsonl.go:184-197 | rows read from a file are lines, so what a file source committed is restored exactly |
| HydrateLaws.PaddedRowIsLost | sessionlog/mirror.go:225-237 | hydrating a missing file from a row with a space before it succeeds, and the file it wrote reads back as another row |
| HydrateLaws.HydratedInStep | sessionlog/mirror.go:213-237 | after a hydration the next commit from the file starts in step |
| LogCommits.StoreFollowsTheLog | sessionlog/mirror.go:101-144 | over any interleaving of appends to the log and commits from it, with any failures, the store holds exactly the rows of the complete lines the last successful commit read |
| Transports.Transport.RegisterHook | wire/transport.go:371-392 | a hook is chained behind its session's tail, or replaces the one already registered under its request |
| Transports.Transport.ObserveInbound | wire/transport.go:218-240 | a request is recorded, with its raw parameters where they are needed |
| Transports.Transport.ObserveResponse | wire/transport.go:433-477 | a response forgets its request and raw parameters and releases its publication |
| Transports.Transport.DropRaw | wire/transport.go:301-310 | the first raw entry the response answers is dropped |
| TransportLaws.EveryRunSound | wire/transport.go:371-500 | over every interleaving no barrier is closed twice, no hook called twice, each publication released at most once, and a registered hook's request stays recorded until its response |
| TransportLaws.EveryRunOrdered | wire/transport.go:368-500 | in every interleaving where no publication gives up on its predecessor, the hooks of a session are called in registration order, each only once every earlier publication completed |
| TransportLaws.BeforeCloseIsPatient | wire/transport.go:491-497 | before Close none gives up |
| TransportLaws.PatientExactly | wire/transport.go:491-497 | publications of a session complete in registration order throughout a run exactly when none gives up |
| TransportLaws.CallFindsEarlierDone | wire/transport.go:491-503 | the step that calls a hook finds its response successful and every earlier publication of its session completed |
| TransportLaws.CalledAfterItsResponse | wire/transport.go:433-477 | a hook is called only after its own response: a successful one that found its publication registered and waiting, and released it |
| TransportLaws.CalledExactly | wire/transport.go:491-502 | in every run a released publication's hook has been called exactly when its response succeeded and it went past its wait without giving up |
| TransportLaws.CompletedWereCalled | wire/transport.go:433-502 | before Close a completed publication was called exactly when its own response was observed to succeed |
| TransportLaws.RegisterMeans | wire/transport.go:371-392 | a hook is taken exactly for an establishing request in flight, and waits under it |
| TransportLaws.AwaitIsExact | wire/transport.go:504-524 | in such interleavings, waiting on a session ends exactly when none of its registered publications is incomplete |
| TransportLaws.NeverStuck | wire/transport.go:479-503 | as long as a session has an incomplete publication, one awaits its response or one can move |
| TransportLaws.RunsToCompletion | wire/transport.go:479-502 | once every response was observed, every publication can run to completion, whatever happened before |
| TransportLaws.QueuesApart | wire/transport.go:218-240 | raw parameters are kept for initialize and prompt only, and share a queue only for prompts of one session |
| TransportLaws.RawNeverOutlives | wire/transport.go:299-310 | with request ids unique in flight, no raw parameters outlive their response |
| TransportLaws.RawKeptUntilTaken | wire/transport.go:218-310 | the parameters of a request in flight are kept as they arrived exactly until somebody takes them |
| TransportLaws.CloseBreaksOrder | wire/transport.go:491-497 | an interleaving with Close in which a later hook is called while an earlier publication is incomplete |
| Outbound.Observer.Observe | wire/transport.go:397-431 | the frames observed are the newline-split of what was buffered and written; the fast path agrees with the loop |
| Outbound.SplitIndependent | wire/transport.go:397-431 | however the stream is cut into writes, the frames and the remainder are those of the concatenation |
| Outbound.NothingLost | wire/transport.go:408-424 | frames with their newlines and the remainder are the stream |

## Left out

- Decoders.DecodeSessionUpdate: the byte bound on an activity's progress object, because it measures the raw text, which a JSON tree no longer has.
- Decoders.Decoder.ReadActivities: the same bound.
- WireRoundTrip.EncodeThenDecode: the same bound, so progress is opaque here.
- WireRoundTrip.SurvivesExactlyWhenAdmissible: the same bound.
- NativeLogs.SplitLines: trims ASCII whitespace only; the source also trims Unicode whitespace.
- Values.DigestIsExact: SHA-256 is taken to be injective.
- Transports.Transport.Take: which queue entry `TakeRawPrompt` picks by comparing lifecycle metadata is its caller's index.
- MirrorLaws.CommitRefinesRepublish: assumes the store is written by this mirror only and the session is not deleted, as the source's comment does.
- JSON lexing: duplicate keys, escaping, invalid UTF-8 and whether an unterminated tail is one JSON object (`oneObject`, `validRow`) are library behaviour and enter as parameters.
- `decodeRecord` and `uniqueValue` (sessionlog/record.go): a walk over decoder tokens; the configuration is its encoded bytes.
- The digest's fallback for values the decoder never produces.
- Violation detail strings, some of which depend on map iteration order; kinds and ordering identity are modelled.
- The suppression counter's 64-bit width.
- File-system calls, symbolic links, renames and syncs, contexts, timeouts and clocks: a file is its bytes and an identity, a failing write a parameter.
- Goroutines and locks: each locked section, and each point where a publication waits, is one atomic step.
- Action announcements on the transport (`written`, `releaseRequestWrite`), the inbound line bound and the request marker in metadata.
- `ListSessions` ordering and `Load`'s copies; strings being values, aliasing of entries is not captured.
- `Publisher.Correlation`, `Reducer`'s iterators and `State` copies: read-only views.
- Negotiation, capability and wire metadata reads, and the rest of `wire/`: member-by-member checks with no run behaviour.
- `observer/`, `usage/`, `process/`, `image/`, `scripts/` and `docs/`: telemetry, HTTP, operating-system and prose.

# Verified models of an agent core

A Dafny model of the deterministic core of this repository and proofs of what it promises: the
merge-eligibility evaluator with its sealed records and their replay, canonical JSON, two memory
stores, the profile-memory kernel, the delivery gates, and four small algorithms.
`dafny verify dfyconfig.toml` checks everything.

## What is modelled

**Merge eligibility** (`MergePolicy`, `ProductionPolicy`, `ProductionMeaning`, `MergeRecord`, `RecordContent`,
`RecordLifecycle`, `Replay`, `ReplayOutcome`, `FacadeMeaning`, `InputBinding`). A policy turns facts into reasons, a
block/review partition, a primary reason and a disposition. The decision is sealed into a record bound by two digests,
and replay rebuilds it and classifies a stored record. The digest is a parameter; the only assumption about it is made
per comparison, that the two payloads compared do not collide. NFC is a parameter that fixes the protocol's own names
and the identifiers of the token grammar.

**Canonical JSON** (`Utf8`, `StringOrder`, `JsonText`, `JsonLayout`, `CanonicalJson`). The recursive canonicaliser,
the sorted-key printer of RFC 8259 sections 4 to 7, UTF-8, and a parser that undoes both.

**Memory stores** (`StableSort`, `MemoryModel`, `SearchMeaning`, `InMemoryStore`, `FileStore`, `NoteIndex`,
`StoreAgreement`). The dictionary store with its note-name index and the append-log store with compaction, as classes
proved against functions on an insertion-ordered dictionary.

**Profile memory** (`ProfileModel`, `ProfileKernel`, `ProfileStore`, `ProfileSafety`, `ProfileRuns`, `ProfileMeaning`,
`ProfileOutcome`, `ProfileEffects`, `ProfileLimit`, `ProfileExamples`). Kernel operations search at most 200 records
of a type, delete what a new fact supersedes, and store the fact. The text tables are the parameter `Lexicon`, about
which almost nothing is assumed.

The modules named after a meaning, an outcome, a layout, a content or an effect say what the others compute in terms
of their inputs alone: which facts raise a reason, which records answer a query, which operations fail and what they
delete.

What is assumed of the parameters can be met (`MergeRecord.PlatformExists`, `ProfileModel.PlainLexiconValid`).

**Delivery** (`RepoPath`, `ChangeGate`, `TaskFlow`, `Delivery`). Path normalisation, the change gate, the task state
machine, the process guard and the next-action cascade, joined end to end.

**Small algorithms** (`EditDistance`, `Comparison`, `ContextPack`).

## Where the code does not do what one would expect

For each: a lemma at an input, and the exact condition, proved for all inputs.

- A stored record given as a plain mapping may carry accounting ids that NFC changes. Its digests then match and replay
  still reports a mismatch (`InputBinding.KelvinExample`); the mismatch set is empty exactly when the digests match and
  the stored ids are NFC-normal (`Replay.MatchingDigests`).
- The facts accept ids that no record can carry (`InputBinding.SpacedIdRefused`, the id "a b"); the facade succeeds
  exactly when the accounting ids satisfy the record's token grammar (`Replay.FacadeSucceeds`).
- Writing a record under an id already in use can leave an index entry behind (`NoteIndex.ReusedIdBreaksIndex`); exactly
  when is `NoteIndex.WriteKeepsSound`.
- Two live notes of one name shadow each other (`NoteIndex.ShadowedNoteLost`); a step keeps the index complete exactly
  when it gives no note the name of another live one (`NoteIndex.StepKeepsComplete`), and so over runs
  (`NoteIndex.CompleteRunExactly`).
- A write stamped before the stored record of the same id is ignored by the log and kept by the dictionary
  (`StoreAgreement.StaleWriteExample`); exactly when they agree is `StoreAgreement.StepAgrees`.
- With one record more than the search limit, a run from the empty store leaves a skill in both polarities
  (`ProfileLimit.CrowdedRunExample`); exactly when an assertion keeps the store free of clashes is
  `ProfileSafety.AssertedKeepsClashFree`.
- In one batch, "no longer X" followed by "X again" drops the second, although it is counted as applied
  (`ProfileExamples.RemoveThenAddExample`); an addition is dropped exactly when the person was shown as liked before the
  batch or added earlier in it (`ProfileRuns.AddStores`).
- The docstring of `apply_memory_operations` says that goal additions supersede older goals. They do not
  (`ProfileExamples.OlderGoalExample`): an older goal survives every turn but a removal that hits it
  (`ProfileMeaning.GoalGoneExactly`), so every batch without one (`ProfileMeaning.GoalsAddUp`).
- The next-action cascade says that an approval request means all gates pass. With `continue` it is made without a gate
  decision (`Delivery.ApprovalWithoutGate`); approval is all that is missing exactly when the action ships or the gate
  decision is genuine (`Delivery.ApprovalAlone`).
- It also says that release rests on a guard that revalidated the state. With `continue` a task in DRAFT is recommended
  for release (`Delivery.ReleaseFromDraft`); from which states is `Delivery.ReleaseByState`.
- `normalize_repo_path` is not idempotent (`RepoPath.HiddenDriveExample`); exactly when it is: `RepoPath.NormalTwice`.
- The evidence-id pattern accepts a final line feed (`ChangeGate.LineFeedExample`); an accepted id is in the promised
  grammar exactly when it does not end in one (`ChangeGate.PrintableExactly`), and ids are counted as printed exactly when
  no other spelling prints alike (`ChangeGate.CountedAsPrinted`). A copy of a record under such an id is not seen as a
  duplicate (`ChangeGate.TwinUnnoticed`).

## Model

| member | source | states |
|---|---|---|
| `CanonicalJson.Canonicalize` | agent_core/build_harness/canonical.py:331-374 | the recursive canonicaliser accepts and computes exactly the canonical tree |
| `CanonicalJson.CanonicalizeEntries` | agent_core/build_harness/canonical.py:359-371 | the loop over the mapping fills the tree of normalised keys, or refuses |
| `CanonicalJson.EncodeRoundTrip` | agent_core/build_harness/canonical.py:377-386 | decoding the bytes of any accepted value gives its canonical tree |
| `CanonicalJson.EncodeInjective` | agent_core/build_harness/canonical.py:377-386 | two accepted values have the same bytes exactly when their canonical trees are equal |
| `CanonicalJson.KeyOrderIrrelevant` | agent_core/build_harness/canonical.py:359-371 | reordering keys at any depth changes neither acceptance nor the tree |
| `CanonicalJson.CollidingKeysRefused` | agent_core/build_harness/canonical.py:366-370 | keys that collide after NFC are refused at every depth |
| `CanonicalJson.RefusalPropagates` | agent_core/build_harness/canonical.py:331-374 | a value with a refused part is refused |
| `CanonicalJson.ReencodeStable` | agent_core/build_harness/canonical.py:331-386 | decoding and encoding again gives the same bytes, for an idempotent NFC |
| `JsonText.DumpRoundTrip` | agent_core/build_harness/canonical.py:380-386 | the parser undoes the sorted-key compact printer |
| `StringOrder.LessExactly` | agent_core/build_harness/canonical.py:383 | strings are compared as prefixes first and otherwise by the smaller code point at the first difference |
| `JsonLayout.ObjectLayout` | agent_core/build_harness/canonical.py:380-386 | an object is printed as its members in code-point order of their keys, joined by commas, key and value by a colon |
| `JsonLayout.LayoutUnique` | agent_core/build_harness/canonical.py:380-386 | there is one such order, so one text |
| `JsonLayout.MemberFirst` | agent_core/build_harness/canonical.py:383 | the member of a key that precedes another is printed before the other member |
| `JsonLayout.TwoMembers` | agent_core/build_harness/canonical.py:380-386 | an object of two members is printed as these two, the preceding key first |
| `JsonLayout.ListLayout` | agent_core/build_harness/canonical.py:380-386 | a list is printed as its items in order, joined by commas |
| `JsonLayout.ShortEscapes` | agent_core/build_harness/canonical.py:380-386 | the seven characters with a two-character escape get it |
| `JsonLayout.EscapeExactly` | agent_core/build_harness/canonical.py:380-386 | every other control character is printed as its four hex digits, every other character as itself |
| `JsonLayout.NoLeadingZero` | agent_core/build_harness/canonical.py:380-386 | a number has no leading zero |
| `JsonLayout.NumbersExactly` | agent_core/build_harness/canonical.py:380-386 | only a negative number has a sign |
| `JsonLayout.LayoutExample` | agent_core/build_harness/canonical.py:380-386 | at an input: the object of "b" and "a", printed with "a" first |
| `Utf8.RoundTrip` | agent_core/build_harness/canonical.py:386 | decoding undoes UTF-8 encoding |
| `Utf8.EncodeShortest` | agent_core/build_harness/canonical.py:386 | each scalar value takes as few bytes as its range allows |
| `MergePolicy.CollectEnumReasons` | agent_core/build_harness/merge_eligibility.py:1786-1791 | collects exactly the reasons the nine enum facts trigger |
| `MergePolicy.CollectReasons` | agent_core/build_harness/merge_eligibility.py:1784-1810 | the four sources together give exactly the triggered reasons |
| `MergePolicy.SelectPrimary` | agent_core/build_harness/merge_eligibility.py:1844-1856 | with distinct ranks the candidate list has one element, the primary reason |
| `MergePolicy.EvaluateDecisionCore` | agent_core/build_harness/merge_eligibility.py:1759-1881 | returns the decision core, or faults exactly when a triggered reason neither blocks nor reviews |
| `MergePolicy.WellFormedIsTotal` | agent_core/build_harness/merge_eligibility.py:1343-1427 | under a well-formed policy every fact value, tag and verifier combination resolves to a known reason |
| `MergePolicy.EffectivePolicyDecides` | agent_core/build_harness/merge_eligibility.py:1828-1835 | a policy whose reasons all block or review never faults |
| `MergePolicy.DecisionMeaning` | agent_core/build_harness/merge_eligibility.py:1679-1756 | the result satisfies the DecisionCore invariants, its reasons are the triggered ones split by the disposition the policy gives them, and BLOCK, REVIEW and ELIGIBLE hold exactly when a blocking reason, only review reasons, or no reason is triggered |
| `MergePolicy.PrimaryMeaning` | agent_core/build_harness/merge_eligibility.py:1844-1856 | the primary reason is triggered and every other triggered reason has a larger rank |
| `MergePolicy.Monotone` | agent_core/build_harness/merge_eligibility.py:1784-1856 | more triggered reasons never give a milder disposition or a larger primary rank |
| `MergePolicy.ModeChangesAuthorityOnly` | agent_core/build_harness/merge_eligibility.py:1858-1865 | ENFORCE and SHADOW differ in the authority only |
| `ProductionPolicy.ProductionWellFormed` | agent_core/build_harness/merge_eligibility.py:1439-1592 | the committed V1 tables form a well-formed policy that decides all facts |
| `ProductionPolicy.ProductionReasons` | agent_core/build_harness/merge_eligibility.py:1439-1498 | every reason of the V1 policy is one of the codes records accept |
| `ProductionMeaning.TriggersExactly` | agent_core/build_harness/merge_eligibility.py:1500-1592 | for each of the twenty committed reasons, exactly the facts that trigger it, such as APPROVAL_MISSING for a missing or unknown approval |
| `ProductionMeaning.CompleteExactly` | agent_core/build_harness/merge_eligibility.py:1784-1835 | the reasons of a decision are the codes so triggered and no others |
| `ProductionMeaning.ProductionDecision` | agent_core/build_harness/merge_eligibility.py:1828-1842 | the decision is ELIGIBLE exactly when every status is the satisfied one, no tag is given, the verifier is attested and independent and the missing, invalid and invalid-provenance lists are empty; REVIEW exactly when only scope uncertainty or unknown independence stands out; BLOCK otherwise |
| `ProductionMeaning.ProductionPrimary` | agent_core/build_harness/merge_eligibility.py:1844-1856 | the primary reason is the triggered one that comes first in the order of precedence |
| `ProductionMeaning.OrderSpelled` | agent_core/build_harness/merge_eligibility.py:1439-1498 | that order, code by code |
| `ProductionMeaning.DefinitionExactly` | agent_core/build_harness/merge_eligibility.py:1439-1498 | each committed code has its own rank and disposition |
| `MergeRecord.DecisionDigestPins` | agent_core/build_harness/merge_eligibility_record.py:185-190 | without a collision, decision digests are equal exactly when every identity field agrees after NFC |
| `MergeRecord.RecordDigestPins` | agent_core/build_harness/merge_eligibility_record.py:302-318 | likewise for record digests, schema version and decision digest included |
| `MergeRecord.DigestsDefined` | agent_core/build_harness/merge_eligibility_record.py:105-114 | decision and record payloads are always encodable |
| `MergeRecord.InputDigestDefined` | agent_core/build_harness/merge_eligibility.py:1011-1041 | the payload of a valid input is encodable |
| `InputBinding.InputDigestPins` | agent_core/build_harness/merge_eligibility.py:1011-1041 | without a collision two valid inputs have the same digest exactly when bindings, versions and mode are equal and the facts agree after NFC |
| `FacadeMeaning.BindingsExactly` | agent_core/build_harness/merge_eligibility_record.py:117-123 | eight digests, where the approval may also be the sentinel NO_APPROVAL_SUPPLIED |
| `FacadeMeaning.InputVersions` | agent_core/build_harness/merge_eligibility.py:889-960 | the schema and canonicalisation versions a valid input declares |
| `Grammar.DigestExactly` | agent_core/build_harness/merge_eligibility_record.py:117-123 | a digest is its scheme and 64 lower-case hex digits |
| `Grammar.TokenExactly` | agent_core/build_harness/merge_eligibility_record.py:126-128 | a token is 1 to 128 letters, digits, dots, underscores and hyphens, the first a letter or digit |
| `RecordContent.InputMembers` | agent_core/build_harness/merge_eligibility.py:1011-1041 | the input payload, each value under its field name |
| `RecordContent.DecisionMembers` | agent_core/build_harness/merge_eligibility_record.py:105-114 | the decision payload: its kind and every identity field under its name |
| `RecordContent.RecordMembers` | agent_core/build_harness/merge_eligibility_record.py:302-318 | the record payload: schema version, identity and decision digest |
| `RecordLifecycle.ValidateRawFields` | agent_core/build_harness/merge_eligibility_record.py:359-413 | reports a type error exactly when a field is ill-typed and a normalisation error exactly when a list is not sorted and unique |
| `RecordLifecycle.SealedIsValid` | agent_core/build_harness/merge_eligibility_record.py:286-318 | a sealed record passes validation against its input and carries the core's decision |
| `RecordLifecycle.SealSucceeds` | agent_core/build_harness/merge_eligibility_record.py:143-318 | sealing a valid core over a valid input with token ids never fails |
| `FacadeMeaning.SealsExactly` | agent_core/build_harness/merge_eligibility_record.py:143-318 | over a valid input exactly the coherent cores with the accounting of the facts, committed reasons and token ids can be sealed |
| `RecordContent.SealedContent` | agent_core/build_harness/merge_eligibility_record.py:143-184 | the sealed record says BLOCK, REVIEW_REQUIRED or ELIGIBLE_TO_MERGE_UNDER_POLICY as the core decided, ADVISORY_ONLY or AUTHORITATIVE, and repeats input and core |
| `RecordContent.SealedDigests` | agent_core/build_harness/merge_eligibility_record.py:185-190 | its three digests are those of the canonical bytes of the named members |
| `Replay.BuildPolicyRegistry` | agent_core/build_harness/merge_eligibility_replay.py:97-116 | accepted exactly when keys are unique and each is the identity its policy declares; then it holds the pairs |
| `Replay.BuildEvaluatorRegistry` | agent_core/build_harness/merge_eligibility_replay.py:126-144 | accepted exactly when versions are unique tokens; then it holds the pairs |
| `Replay.ReplaySoundness` | agent_core/build_harness/merge_eligibility_replay.py:239-314 | for a bound, resolved record: VERIFIED exactly when the stored record equals the rebuilt one in every field, decision_authority included |
| `ReplayOutcome.EarlyAnswers` | agent_core/build_harness/merge_eligibility_replay.py:252-287 | RECORD_STRUCTURALLY_INVALID exactly for a record not derived from its payload, INPUT_BINDING_MISMATCH exactly for a derived one not bound to the input, UNKNOWN_POLICY_IDENTITY exactly for a bound one whose policy is not registered, UNKNOWN_EVALUATOR_IDENTITY exactly when only the evaluator is not |
| `ReplayOutcome.ReplayAnswers` | agent_core/build_harness/merge_eligibility_replay.py:289-314 | VERIFIED, MISMATCH and the fault, exactly when the record can be replayed, by what replaying gives |
| `ReplayOutcome.ResultFlags` | agent_core/build_harness/merge_eligibility_replay.py:252-314 | each of the flags structurally valid, policy resolved, evaluator resolved and performed, by an iff |
| `ReplayOutcome.MatchFlags` | agent_core/build_harness/merge_eligibility_replay.py:289-314 | the match flags compare stored and rebuilt digests |
| `ReplayOutcome.CodesExactly` | agent_core/build_harness/merge_eligibility_replay.py:217-236 | which difference each mismatch code reports |
| `ReplayOutcome.ValidationExactly` | agent_core/build_harness/merge_eligibility_record.py:359-421 | validation passes exactly for derived records, and with an input exactly for derived records bound to it |
| `ReplayOutcome.NormalizedExactly` | agent_core/build_harness/merge_eligibility_record.py:379-413 | a record is normalised exactly when its ten lists are sorted, its reasons are partitioned and fit primary and disposition, and its requirements are partitioned |
| `Replay.DigestsStandTogether` | agent_core/build_harness/merge_eligibility_replay.py:289-314 | between structurally valid records the two digests match or differ together |
| `Replay.MatchingDigests` | agent_core/build_harness/merge_eligibility_replay.py:217-236 | no mismatch code exactly when the digests match and the stored ids are NFC-normal |
| `Replay.NoMismatchMeansEqual` | agent_core/build_harness/merge_eligibility_replay.py:217-236 | no mismatch code between two bound records exactly when they are equal |
| `Replay.KelvinRecordMismatch` | agent_core/build_harness/merge_eligibility_replay.py:217-236 | a record that differs in a Kelvin sign only has matching digests and a reported mismatch |
| `Replay.FacadeSucceeds` | agent_core/build_harness/merge_eligibility_facade.py:22-26 | on valid inputs the facade succeeds exactly when the accounting ids are tokens |
| `FacadeMeaning.FacadeDecides` | agent_core/build_harness/merge_eligibility_facade.py:22-26 | the disposition, authority and reasons of the facade record, in terms of the facts and mode of its input |
| `Replay.ReplayCompleteness` | agent_core/build_harness/merge_eligibility_facade.py:22-26 | the facade's record replays as verified, with both digests matching |
| `InputBinding.BoundExactly` | agent_core/build_harness/merge_eligibility_record.py:416-421 | a record bound to one valid input is bound to another exactly when that is the same input |
| `InputBinding.VerifiedForItsInput` | agent_core/build_harness/merge_eligibility_replay.py:239-314 | a facade record that replays as verified against an input was sealed for that input, accounting included |
| `InputBinding.SpacedIdRefused` | agent_core/build_harness/merge_eligibility_record.py:126-140 | at an input: the evidence id "a b" is valid in the facts and makes the facade fail |
| `InputBinding.KelvinExample` | agent_core/build_harness/merge_eligibility_replay.py:217-236 | at an input: the record for the id "K", stored with the Kelvin sign, is bound, matches both digests and mismatches |
| `StableSort.SortUnique` | agent_core/memory/in_memory_store.py:63-67 | descending and stable determine the sorted list |
| `MemoryModel.SearchThroughListing` | agent_core/memory/file_store.py:35-62 | searching the sorted listing and searching the dictionary give the same results in the same order, cut included |
| `SearchMeaning.FoundAnswers` | agent_core/memory/in_memory_store.py:37-67 | search answers with the first `limit` of the records that are visible and match user, session, type, tag and text as far as asked, by importance, then by update time, then in store order |
| `SearchMeaning.AnswerUnique` | agent_core/memory/in_memory_store.py:37-67 | query and records determine that answer |
| `SearchMeaning.ListedLists` | agent_core/memory/in_memory_store.py:117-128 | list_all lists the visible records, latest update first, then in store order |
| `SearchMeaning.UpdateMeaning` | agent_core/memory/in_memory_store.py:69-94 | an update changes a live record only, each field to the patched value or to what it was; id and creation time stay |
| `SearchMeaning.DeleteMeaning` | agent_core/memory/in_memory_store.py:96-115 | a deletion stamps a live record, records the reason and changes nothing else |
| `SearchMeaning.WriteMeaning` | agent_core/memory/in_memory_store.py:25-29 | a write stamps the record, puts it in place of the one of its id or last, and changes no other |
| `InMemoryStore.Store.Write` | agent_core/memory/in_memory_store.py:25-29 | stores the stamped record and indexes a live named note |
| `InMemoryStore.Store.Search` | agent_core/memory/in_memory_store.py:37-67 | the answer of the search, as records and query fields demand it |
| `InMemoryStore.Store.Update` | agent_core/memory/in_memory_store.py:69-94 | patches a live record field by field and moves its index entry |
| `InMemoryStore.Store.Delete` | agent_core/memory/in_memory_store.py:96-115 | soft-deletes a live record and drops its index entry |
| `InMemoryStore.Store.WriteNote` | agent_core/memory/in_memory_store.py:130-148 | updates the indexed note or writes a new one; a blank name is refused |
| `NoteIndex.WriteKeepsSound` | agent_core/memory/in_memory_store.py:25-29 | a write keeps every index entry pointing at a live note of that name exactly when no entry of a reused id goes stale |
| `NoteIndex.RunKeepsSound` | agent_core/memory/in_memory_store.py:25-148 | so does every run whose writes use fresh ids |
| `NoteIndex.StepKeepsComplete` | agent_core/memory/in_memory_store.py:25-148 | a step keeps every live named note indexed exactly when it gives no note the name of another live one |
| `NoteIndex.CompleteRunExactly` | agent_core/memory/in_memory_store.py:25-148 | over a run with fresh ids the index stays complete exactly when no step does so, which is exactly when names stay unique |
| `NoteIndex.RunKeepsComplete` | agent_core/memory/in_memory_store.py:25-148 | while names stay unique, the index is sound and complete at the end of every such run |
| `NoteIndex.NotesEqualScan` | agent_core/memory/in_memory_store.py:17-23 | then read_note, notes and list_notes equal a full scan |
| `NoteIndex.ReadAfterWrite` | agent_core/memory/in_memory_store.py:130-160 | a written note reads back under every spelling of its name |
| `NoteIndex.OtherNotesStay` | agent_core/memory/in_memory_store.py:130-148 | and no other record changes |
| `NoteIndex.NoteNameExactly` | agent_core/memory/in_memory_store.py:183-196 | a note name is the "name" entry without the whitespace around it, unless nothing is left |
| `NoteIndex.NewNoteShape` | agent_core/memory/in_memory_store.py:143-148 | every field of a note written under a new name |
| `NoteIndex.ScanExactly` | agent_core/memory/in_memory_store.py:17-23 | with a sound index, notes equals a scan exactly when every name of a live note has an entry and live notes of one name have one content |
| `NoteIndex.ReusedIdBreaksIndex` | agent_core/memory/in_memory_store.py:25-29 | a reused id leaves an entry for a name its record no longer has |
| `NoteIndex.ShadowedNoteLost` | agent_core/memory/in_memory_store.py:182-204 | deleting the shadowing note of two equal names makes the other unreadable |
| `FileStore.CompactionPreserves` | agent_core/memory/file_store.py:199-213 | loading a rewritten log gives the dictionary it was written from |
| `FileStore.AppendIsUpdate` | agent_core/memory/file_store.py:199-209 | appending a row updates the loaded dictionary exactly when it is not stamped before the stored record of its id |
| `FileStore.FileMemoryStore.LoadLatestRecords` | agent_core/memory/file_store.py:199-209 | the loading loop computes the loaded dictionary |
| `FileStore.FileMemoryStore.RewriteRecords` | agent_core/memory/file_store.py:211-213 | the new log loads as the records written |
| `FileStore.FileMemoryStore.Search` | agent_core/memory/file_store.py:35-62 | the same answer from the loaded log |
| `FileStore.FileMemoryStore.Update` | agent_core/memory/file_store.py:64-80 | the loaded dictionary changes by the update, field by field, and nothing else |
| `FileStore.FileMemoryStore.Delete` | agent_core/memory/file_store.py:82-101 | the loaded dictionary changes by the deletion and nothing else |
| `FileStore.FileMemoryStore.WriteNote` | agent_core/memory/file_store.py:116-131 | updates the latest live note of that name or appends a new one |
| `FileStore.FileMemoryStore.ListNotes` | agent_core/memory/file_store.py:137-148 | the sorted names of the live named notes |
| `StoreAgreement.StepAgrees` | agent_core/memory/file_store.py:24-101 | one operation keeps both stores in step exactly when a write is not stamped before the stored record |
| `StoreAgreement.StaleWriteExample` | agent_core/memory/file_store.py:199-209 | a record written again with an earlier stamp keeps its old content in the log and gets the new one in the dictionary |
| `StoreAgreement.RunsAgree` | agent_core/memory/file_store.py:24-101 | after any run of such operations the log loads as the in-memory dictionary |
| `StoreAgreement.NoteStepAgreesExactly` | agent_core/memory/file_store.py:116-131 | write_note keeps the stores in step exactly when the name is blank or index and latest note lead to the same record, to none, or neither record changes |
| `StoreAgreement.RunsAgreeExactly` | agent_core/memory/file_store.py:24-131 | over any run of all four operations the stores agree in every state exactly when every write is current and every write_note has one target |
| `StoreAgreement.ClockMakesCurrent` | agent_core/memory/file_store.py:24-28 | with a clock that never runs back every write is current |
| `StoreAgreement.StoresAnswerAlike` | agent_core/memory/in_memory_store.py:25-128 | then get, list_all and search answer alike, same order and same cut |
| `StoreAgreement.NoteRunsAgree` | agent_core/memory/file_store.py:116-131 | runs with write_note agree too while the index is sound and complete |
| `StoreAgreement.NotesAgree` | agent_core/memory/file_store.py:133-148 | read_note and list_notes answer alike |
| `ProfileModel.ReadMetadataValid` | agent_core/conversation/profile_memory.py:2087-2102 | a stored fact reads back with its relation and value |
| `ProfileModel.ReadExactly` | agent_core/conversation/memory_operations.py:535-543 | which records are read as a profile fact, in terms of their tags and metadata |
| `ProfileModel.StoredTexts` | agent_core/conversation/profile_memory.py:2087-2102 | subject and relation text of each relation |
| `ProfileModel.CanonIdempotent` | agent_core/conversation/profile_memory.py:2947-2960 | correcting known misspellings twice changes nothing more |
| `ProfileEffects.CorrectedWords` | agent_core/conversation/profile_memory.py:2947-2960 | the two known misspellings are corrected word by word, every other word stays |
| `ProfileModel.NewFactShape` | agent_core/conversation/profile_memory.py:2067-2143 | type, tag, times and importance of a new fact |
| `ProfileModel.SeenAll` | agent_core/conversation/memory_operations.py:535-543 | while the live profile records of a type fit the limit, the search shows all of them |
| `ProfileOutcome.SeenAnswers` | agent_core/conversation/memory_operations.py:535-543 | the kernel sees the 200 best live records of one type that carry the profile tag |
| `ProfileStore.DeleteHits` | agent_core/conversation/profile_memory.py:2307-2324 | the search-and-delete loop deletes exactly what its test selects |
| `ProfileStore.ResolveConflicts` | agent_core/conversation/profile_memory.py:3021-3071 | deletes the seen records of the opposite polarity |
| `ProfileStore.AssertFact` | agent_core/conversation/profile_memory.py:2067-2143 | resolves, drops aliases, stores the canonical fact |
| `ProfileStore.GoalAlreadyActive` | agent_core/conversation/memory_operations.py:620-628 | true exactly when a seen goal or focus has the same key |
| `ProfileStore.ApplyOperation` | agent_core/conversation/memory_operations.py:697-895 | the store becomes what the operation plans for it, with that outcome |
| `ProfileStore.ApplyOperations` | agent_core/conversation/memory_operations.py:914-1124 | the batch loop refines the fold over its turns, counters included |
| `ProfileSafety.SavedKeepsClashFree` | agent_core/conversation/profile_memory.py:2146-2188 | storing a fact keeps the store free of clashes exactly when no live record clashes with it |
| `ProfileSafety.ResolvedLive` | agent_core/conversation/profile_memory.py:3021-3071 | resolving deletes exactly the clashing records that the searches show |
| `ProfileSafety.AssertedKeepsClashFree` | agent_core/conversation/profile_memory.py:2067-2324 | asserting a fact keeps the store free of clashes exactly when no clashing record lies beyond the search limit |
| `ProfileSafety.GoalAddedKeepsClashFree` | agent_core/conversation/memory_operations.py:620-628 | adding a goal creates no second one exactly when it is seen already or no equal goal lies beyond the limit |
| `ProfileSafety.AssertedStores` | agent_core/conversation/profile_memory.py:2067-2143 | the asserted fact is live and reads back under its canonical value |
| `ProfileSafety.AssertedMeaning` | agent_core/conversation/profile_memory.py:2983-3071 | within the limit exactly the clashing records and the aliases are gone, all other records are as before |
| `ProfileRuns.AppliedSafe` | agent_core/conversation/memory_operations.py:697-895 | no single operation creates a clash |
| `ProfileRuns.BatchSafe` | agent_core/conversation/memory_operations.py:914-1124 | no batch does |
| `ProfileRuns.RunSafe` | agent_core/conversation/memory_operations.py:697-1124 | over every run within the limit no preference, skill or affection is stored in both polarities, no goal twice, and no two focuses |
| `ProfileRuns.PerformedExactly` | agent_core/conversation/memory_operations.py:697-1094 | an operation keeps the store free of clashes exactly when its searches reach every rival of what it stores |
| `ProfileRuns.RunExactly` | agent_core/conversation/memory_operations.py:697-1124 | over any run with new ids, of any size, every state is free of clashes exactly when every operation does so |
| `ProfileRuns.BatchCounts` | agent_core/conversation/memory_operations.py:926-1094 | applied and failed add up to the batch; saved is at most the number of new records, and that at most applied |
| `ProfileRuns.ActiveExactly` | agent_core/conversation/memory_operations.py:939-1020 | the set the loop consults is the one read before the loop and the persons added so far; removals never shrink it |
| `ProfileRuns.ReAddIgnored` | agent_core/conversation/memory_operations.py:939-1020 | a person liked when the batch starts or added earlier in it cannot be added again: the addition is counted as applied and stores nothing, whatever was removed in between |
| `ProfileRuns.AddStores` | agent_core/conversation/memory_operations.py:939-1020 | after any items of a batch, an addition stores nothing exactly when the person was shown as liked before the batch or added earlier in it |
| `ProfileMeaning.AppliedStates` | agent_core/conversation/memory_operations.py:697-895 | a refused operation changes nothing, a saved one leaves the fact it states |
| `ProfileMeaning.BatchStepStates` | agent_core/conversation/memory_operations.py:941-1094 | a turn counted as saved leaves the fact it states |
| `ProfileOutcome.OutcomeExactly` | agent_core/conversation/memory_operations.py:697-895 | when a single operation is refused and when it counts as saved, by its kind, domain and value and by the facts shown; a refusal changes nothing, a saved fact is in the store |
| `ProfileOutcome.TurnFailsExactly` | agent_core/conversation/memory_operations.py:941-1094 | a turn fails exactly when it is no "remove all affections" and is not acceptable, not supported in its domain, a relationship without a label, or a person removal that hits nothing |
| `ProfileOutcome.TurnSavesExactly` | agent_core/conversation/memory_operations.py:941-1094 | a turn counts as saved exactly when it states a preference, skill, name or relationship, a person not yet active, or a goal not yet shown; then its fact is in the store |
| `ProfileOutcome.NewGoalSaved` | agent_core/conversation/memory_operations.py:1063-1079 | a new goal is stored under the new id |
| `ProfileOutcome.AcceptableExactly` | agent_core/conversation/memory_operations.py:519-530 | acceptable values are not blank, not harmful, and well-shaped where something new is added |
| `ProfileOutcome.RetractionNames` | agent_core/conversation/memory_operations.py:546-558 | a retraction names a person that a deleted record named |
| `ProfileEffects.OperationErasesExactly` | agent_core/conversation/memory_operations.py:697-895 | within the limit a single operation deletes exactly the records it names and those its fact supersedes; every other record stays as it was |
| `ProfileEffects.TurnErasesExactly` | agent_core/conversation/memory_operations.py:941-1094 | likewise a turn of a batch |
| `ProfileEffects.CauseRecorded` | agent_core/conversation/profile_memory.py:3021-3071 | a record that a new fact contradicts stays stored, deleted, with the reason of its relation |
| `ProfileEffects.ContradictExactly` | agent_core/conversation/profile_memory.py:2983-3071 | which facts cannot stand together |
| `ProfileMeaning.AppliedUntouched` | agent_core/conversation/memory_operations.py:697-895 | records of other domains stay as they were |
| `ProfileMeaning.BatchStepUntouched` | agent_core/conversation/memory_operations.py:941-1094 | likewise for every turn of a batch |
| `ProfileMeaning.RemovedGoalIsGone` | agent_core/conversation/memory_operations.py:725-743 | within the limit removing a goal leaves no goal or focus it hits, and when it hits none, no occupation of that name |
| `ProfileMeaning.RemovedWorkIsGone` | agent_core/conversation/memory_operations.py:711-723 | within the limit removing an occupation leaves no record of it, and when there is none, no goal or focus it hits |
| `ProfileMeaning.RemovedPersonIsGone` | agent_core/conversation/memory_operations.py:745-757 | within the limit removing a person shown as liked leaves no affection for that person |
| `ProfileOutcome.GoneExactly` | agent_core/conversation/memory_operations.py:546-617 | what "none is left" says of the live facts |
| `ProfileMeaning.BatchGoalIsGone` | agent_core/conversation/memory_operations.py:1081-1092 | within the limit a goal removal in a batch leaves no goal or focus it hits |
| `ProfileMeaning.BatchPersonIsGone` | agent_core/conversation/memory_operations.py:1022-1034 | within the limit removing a person in a batch leaves no affection for that person |
| `ProfileMeaning.BatchAllPersonsGone` | agent_core/conversation/memory_operations.py:942-955 | within the limit removing all affections leaves none |
| `ProfileMeaning.OnlyGoalLeft` | agent_core/conversation/memory_operations.py:609-617 | within the limit "only X" leaves X as the one goal and no focus |
| `ProfileMeaning.GoalAddKeepsAll` | agent_core/conversation/memory_operations.py:1063-1079 | a turn that adds a goal leaves every other live record as it was |
| `ProfileMeaning.GoalGoneExactly` | agent_core/conversation/memory_operations.py:941-1094 | an older goal is gone after a turn exactly when the turn is a goal removal that hits it and the search shows it |
| `ProfileMeaning.GoalsAddUp` | agent_core/conversation/memory_operations.py:914-1094 | a batch without a goal removal keeps every older goal |
| `ProfileLimit.OutrankedUnseen` | agent_core/conversation/memory_operations.py:535-543 | a record that 200 others of its type outrank is not seen |
| `ProfileLimit.CrowdedRunContradicts` | agent_core/conversation/profile_memory.py:3050-3071 | a run from the empty store with one record too many ends with a skill in both polarities, and nothing clashed before its last event |
| `ProfileLimit.CrowdedRunExample` | agent_core/conversation/profile_memory.py:3050-3071 | such a run exists |
| `ProfileExamples.OlderGoalSurvives` | agent_core/conversation/memory_operations.py:1063-1079 | a goal stored earlier and one added by a batch are both live afterwards |
| `ProfileExamples.OlderGoalExample` | agent_core/conversation/memory_operations.py:922-923 | at an input: "swim" is kept when a batch adds "run" |
| `ProfileExamples.RemoveThenAdd` | agent_core/conversation/memory_operations.py:1006-1034 | removing and adding a liked person in one batch counts as applied twice and leaves no affection, only the retraction |
| `ProfileExamples.RemoveThenAddExample` | agent_core/conversation/memory_operations.py:1006-1034 | at an input: "no longer An, An again" |
| `RepoPath.NormalizeRepoPath` | agent_core/build_harness/validation.py:57-83 | the loop over "./" computes the canonical form or the reason of refusal |
| `RepoPath.NormalIsCanonical` | agent_core/build_harness/validation.py:57-83 | an accepted path comes out with clean segments only, exactly the kept ones |
| `RepoPath.AcceptedExactly` | agent_core/build_harness/validation.py:57-83 | which paths are accepted, in terms of the stripped path |
| `RepoPath.RefusedExactly` | agent_core/build_harness/validation.py:57-83 | which of the first five reasons a refused path gets |
| `RepoPath.SameNormal` | agent_core/build_harness/validation.py:78-83 | accepted paths share the canonical form exactly when they share their segments |
| `RepoPath.NormalTwice` | agent_core/build_harness/validation.py:57-83 | normalising again changes nothing exactly when the path's first kept segment neither starts with whitespace nor looks like a drive and the last does not end with whitespace |
| `RepoPath.HiddenDrive` | agent_core/build_harness/validation.py:71-77 | "./" hides a drive-like name whose canonical form is refused |
| `RepoPath.HiddenDriveExample` | agent_core/build_harness/validation.py:71-77 | at an input: "./a:b" |
| `ChangeGate.CollectPaths` | agent_core/build_harness/change_gate.py:204-217 | the canonical paths of the change and a finding for each refused one |
| `ChangeGate.CountIds` | agent_core/build_harness/change_gate.py:262-268 | exactly the valid ids carried by more than one record |
| `ChangeGate.IsSatisfied` | agent_core/build_harness/change_gate.py:303-318 | true exactly when a well-formed, completed, exit-0 record at the expected commit with a unique id proves the command |
| `ChangeGate.MatchEvidence` | agent_core/build_harness/change_gate.py:303-336 | matched and missing are the proven and unproven requirements, in order |
| `ChangeGate.EvaluateChangeGate` | agent_core/build_harness/change_gate.py:199-357 | the findings are exactly those the input raises, and the decision follows their severities |
| `ChangeGate.DecisionExactly` | agent_core/build_harness/change_gate.py:199-357 | blocked exactly for a refused path, a forbidden file, a malformed record or an ambiguous id; under review exactly when nothing blocks and there are no files, a stray file, an unapproved dependency change, an unproven requirement or no evidence at all |
| `ChangeGate.PatternExactly` | agent_core/build_harness/change_gate.py:163-168 | a pattern ending in "/**" matches its directory and what lies below |
| `ChangeGate.DependencyExactly` | agent_core/build_harness/change_gate.py:31-34 | a canonical path is a dependency file exactly when its last segment is one of seven names |
| `ChangeGate.WellFormedExactly` | agent_core/build_harness/change_gate.py:81-109 | what a well-formed evidence record is |
| `ChangeGate.ValidateDecision` | agent_core/build_harness/change_gate.py:384-465 | no error exactly when the decision passes, has no finding, misses nothing and matches every requirement |
| `ChangeGate.PassMeaning` | agent_core/build_harness/change_gate.py:343-357 | a passing evaluation is genuine and proves every requirement over accepted paths |
| `ChangeGate.PresentationIrrelevant` | agent_core/build_harness/change_gate.py:199-357 | reordering, repeating or respelling files and reordering evidence changes neither decision, matched, missing nor the findings, apart from the spelling shown in invalid_changed_path findings |
| `ChangeGate.SameCommand` | agent_core/build_harness/change_gate.py:175-176 | normalised commands are equal exactly when their words are |
| `ChangeGate.LineFeedAccepted` | agent_core/build_harness/validation.py:16 | an id of the grammar followed by a line feed is accepted |
| `ChangeGate.LineFeedExample` | agent_core/build_harness/validation.py:16 | at an input: "a" and a line feed, outside the grammar |
| `ChangeGate.PrintableExactly` | agent_core/build_harness/validation.py:49-54 | an accepted id is in the promised grammar exactly when it does not end in a line feed |
| `ChangeGate.PrintedAlike` | agent_core/build_harness/validation.py:49-54 | two accepted ids that print alike are one id exactly when both or neither ends in a line feed |
| `ChangeGate.CountedAsPrinted` | agent_core/build_harness/change_gate.py:262-268 | the count of an id is the count of records that print it exactly when no other spelling prints alike |
| `ChangeGate.TwinUnnoticed` | agent_core/build_harness/change_gate.py:262-318 | a copy of a record under its id and a line feed makes no duplicate, and both prove the requirement |
| `TaskFlow.RunTail` | agent_core/build_harness/state.py:52-84 | every run from DRAFT to DONE ends in verification_passed, changegate_passed, human_approved, merged |
| `TaskFlow.TransitionExactly` | agent_core/build_harness/state.py:52-84 | which states lead to each state, and by which event |
| `TaskFlow.ReachableStates` | agent_core/build_harness/state.py:52-84 | a state is reachable exactly when it is not READY_FOR_MERGE |
| `TaskFlow.BlockedForever` | agent_core/build_harness/state.py:73-77 | BLOCKED is never left |
| `TaskFlow.RunBalanced` | agent_core/build_harness/state.py:52-84 | every attempt is verified once and each further attempt answers one failure |
| `Delivery.EvaluateProcessGuard` | agent_core/build_harness/process_guard.py:110-224 | PASS, REVIEW and BLOCK hold exactly under their conditions; the missing steps are exactly those lacking, and for an early return exactly the step of the first obstacle |
| `Delivery.GuardPassExactly` | agent_core/build_harness/process_guard.py:110-224 | a passing guard, spelled out over reports, gate decision, approval, action and state |
| `Delivery.AllowedExactly` | agent_core/build_harness/reports.py:33-45 | which status and result each report slot accepts |
| `Delivery.ReportAnswers` | agent_core/build_harness/next_action.py:51-108 | the four answers given for the reports, each by its condition on the artifacts |
| `Delivery.GateAnswers` | agent_core/build_harness/next_action.py:100-144 | the three answers given for gate and guard, each by its condition |
| `Delivery.ReleaseExactly` | agent_core/build_harness/next_action.py:44-144 | release is recommended exactly when reports, genuine gate and approval are in place and the action is `continue` or ships from the task state |
| `Delivery.ApprovalExactly` | agent_core/build_harness/next_action.py:123-129 | approval is requested exactly when both reports passed, approval is missing, and either merge or done lacks nothing else, or the action is `continue` and no gate decision speaks against it |
| `Delivery.ApprovalAlone` | agent_core/build_harness/next_action.py:123-129 | a requested approval is all that is missing exactly when the action ships or the gate decision is genuine |
| `Delivery.ApprovalWithoutGate` | agent_core/build_harness/next_action.py:123-129 | at an input: `continue` without a gate decision still requests approval |
| `Delivery.ReleaseByState` | agent_core/build_harness/next_action.py:131-138 | what is released in one task state is released in another exactly when the action is `continue` or ships from that state |
| `Delivery.ReleaseFromDraft` | agent_core/build_harness/next_action.py:131-138 | at an input: `continue` recommends release of a task in DRAFT |
| `Delivery.ReleaseSafety` | agent_core/build_harness/next_action.py:131-138 | a recommended release has both reports passed, an approval, a completed exit-0 record with a unique id at the expected commit for every required command, and no finding |
| `Delivery.ShippedAfterApproval` | agent_core/build_harness/process_guard.py:45-50 | a ship PASS from a reachable state has human_approved in its history |
| `Delivery.ContinueIgnoresState` | agent_core/build_harness/process_guard.py:206-224 | `continue` does not depend on the task state |
| `EditDistance.AtMostOne` | agent_core/conversation/profile_memory.py:3277-3296 | true exactly when the Levenshtein distance is at most 1 |
| `EditDistance.EqualLengths` | agent_core/conversation/profile_memory.py:3282-3283 | for equal lengths that means at most one mismatch |
| `Comparison.Tokenize` | agent_core/conversation/simple_comparison.py:46-85 | the index-driven loops compute the scan |
| `Comparison.LayoutScans` | agent_core/conversation/simple_comparison.py:26 | every side, however spaced, is accepted and gives back its tokens |
| `Comparison.ScannedIsLayout` | agent_core/conversation/simple_comparison.py:46-85 | whatever is accepted is a spaced side with those tokens |
| `Comparison.DeriveUnique` | agent_core/conversation/simple_comparison.py:9-12 | the precedence grammar derives every side in exactly one way |
| `Comparison.DeriveText` | agent_core/conversation/simple_comparison.py:9-12 | the derivation spells the side |
| `Comparison.EvalOperations` | agent_core/conversation/simple_comparison.py:93-113 | the two-pass fold computes the meaning in the precedence grammar |
| `Comparison.EvalSide` | agent_core/conversation/simple_comparison.py:88-113 | a text that is no side has no value, any other the meaning of its tokens |
| `Comparison.DecimalExactly` | agent_core/conversation/simple_comparison.py:88-95 | a literal is read as the number its digits denote |
| `Comparison.AcceptedMeans` | agent_core/conversation/simple_comparison.py:88-113 | every accepted text is a spaced side whose value is that of its derivation, operators and numbers as written |
| `Comparison.UndefinedExactly` | agent_core/conversation/simple_comparison.py:102-104 | the value is undefined exactly when a literal divisor is zero |
| `ContextPack.RetrieveContextPack` | agent_core/memory/local_client.py:39-82 | packs the longest prefix, within the budget, of what the search of this user and session answers, with its exact token sum |
| `ContextPack.TokensOfWords` | agent_core/memory/token_counter.py:18-19 | a text has as many tokens as words, and at least one |
| `ContextPack.PackBounds` | agent_core/memory/local_client.py:60-82 | tokens and items stay within a non-negative budget; truncated exactly when not everything fits |
| `ContextPack.PackMonotone` | agent_core/memory/local_client.py:60-82 | a larger budget extends the pack |

## Left out

- SHA-256, Unicode NFC and case tables, `fnmatch`, text matching in searches: parameters of the model.
- CanonicalJson.Canonicalize: JSON floats and lone surrogates are left out; values are null, bool, int, string, list and object over Unicode scalar values.
- The schema and canonicalisation-contract digests: parameters fixed by the platform.
- Reason categories, kinds and owners, and the machine-code grammar of policies beyond non-empty codes: they do not influence a decision.
- Diagnostic, reason and acknowledgement texts, and the rejected-evidence list of the change gate.
- Memory-record fields that no modelled branch reads: task id, run id, source, confidence, source event.
- Episodes, file locking, temporary files and malformed rows of the file store: the log is a sequence of rows.
- Aliasing of returned records: the in-memory store hands out its own objects, the model hands out values.
- Parsing and classification of utterances, `_norm_cmp`, alias terms, goal keys and goal matching: the `Lexicon` parameter.
- The profile snapshot's display lists: only the tests the kernel makes on it are modelled.
- Relations outside the kernel (habits, pets, today's plans, retracted goals) and their save functions.
- `save_intention_goal_fact`: stores a goal without looking for an equal one, so the one-goal-once claim does not cover it.
- ProfileStore.DeleteHits: one clock reading per operation instead of one per deletion.
- ProfileStore.AssertFact: storing a record never fails.
- ProfileStore.ApplyOperation: says nothing of the note index, and storing a record never fails.
- ProfileStore.ApplyOperations: says nothing of the note index and the response text, and storing a record never fails.
- ProfileModel.ReadMetadataValid: display tags, content texts and extra metadata of new facts are reduced to what the kernel reads.
- RecordLifecycle.ValidateRawFields: values of the wrong Python type are excluded by the record datatype.
- ChangeGate.ValidateDecision: wrong Python types, unknown decision words and unknown finding types are excluded by the datatypes, in evidence and reports too.
- ChangeGate.EvaluateChangeGate: characterises the findings as a set, not their order or repetition.
- Comparison.Tokenize: digits are ASCII, not every Unicode decimal digit.
- Comparison.LayoutScans: digits are ASCII, not every Unicode decimal digit.
- Comparison.EvalOperations: numbers are exact reals, so Decimal rounding is not modelled.
- Comparison.EvalSide: numbers are exact reals, so Decimal rounding is not modelled.
- Comparison.AcceptedMeans: digits are ASCII and numbers exact reals.
- Comparison.DecimalExactly: digits are ASCII and numbers exact reals.
- ChangeGate.PresentationIrrelevant: leaves out invalid_changed_path findings, which quote the path as it was reported.
- The comparison regular expression that splits a question into two sides and a comparator.
- Provenance, contracts, repository models, ports, planning, the remote client, the command line and the web front end.

/**
 The file store and the in-memory store agree: after the same operations the log loads as the
 in-memory dictionary, so `get`, `list_all` and `search` return the same results in the same order.
 */
module StoreAgreement {
  import opened Wrappers
  import opened StableSort
  import opened Text
  import opened MemoryModel
  import opened FileStore
  import IM = InMemoryStore
  import opened NoteIndex

  /** What `FileMemoryStore` does to its rows. */
  function FileAfter(rows: seq<MemoryRecord>, step: Step): seq<MemoryRecord> {
    match step
    case Write(r, now) => rows + [r.(updatedAt := now)]
    case Update(id, p, now) =>
      if HasLive(Load(rows), id) then Updated(Load(rows), id, p, now).Values() else rows
    case Delete(id, reason, now) =>
      if HasLive(Load(rows), id) then Removed(Load(rows), id, reason, now).Values() else rows
    case WriteNote(name, content, newId, now) =>
      if Strip(name) == "" then rows
      else
        match LatestNote(Load(rows), Strip(name))
        case Some(note) => Updated(Load(rows), note.id, ContentPatch(content), now).Values()
        case None => rows + [NewNote(Strip(name), content, newId, now).(updatedAt := now)]
  }

  function FileRun(rows: seq<MemoryRecord>, steps: seq<Step>): seq<MemoryRecord>
    decreases |steps|
  {
    if steps == [] then rows else FileRun(FileAfter(rows, steps[0]), steps[1..])
  }

  /** A write is not stamped before the stored record of its id, if there is one. */
  predicate Current(d: Dict, step: Step) {
    step.Write? && step.record.id in d.records ==> step.now >= d.records[step.record.id].updatedAt
  }

  ghost predicate CurrentRun(s: IM.State, steps: seq<Step>)
    decreases |steps|
  {
    steps == [] || (Current(s.dict, steps[0]) && CurrentRun(After(s, steps[0]), steps[1..]))
  }

  /** One record operation keeps the stores in step exactly when a write is current. */
  lemma StepAgrees(rows: seq<MemoryRecord>, s: IM.State, step: Step)
    requires Load(rows) == s.dict && !step.WriteNote?
    ensures Load(FileAfter(rows, step)) == After(s, step).dict <==> Current(s.dict, step)
  {
    match step
    case Write(r, now) =>
      AppendIsUpdate(rows, r.(updatedAt := now));
    case Update(id, p, now) =>
      if HasLive(s.dict, id) {
        CompactionPreserves(Updated(s.dict, id, p, now));
      }
    case Delete(id, reason, now) =>
      if HasLive(s.dict, id) {
        CompactionPreserves(Removed(s.dict, id, reason, now));
      }
  }

  // --- Notes agree while names are unique ---

  /** With a sound and complete index, the latest note of a name is the indexed one. */
  lemma LatestNoteIsIndexed(s: IM.State, name: string)
    requires Sound(s) && Complete(s)
    ensures LatestNote(s.dict, name) == IM.Indexed(s, name)
  {
    var d := s.dict;
    var listing := Listed(d, false);
    var candidates := Sort(Select(listing, NamedNote(name)), Recency());
    SortDescending(Select(d.Values(), Visible(false)), Recency());
    SelectMembers(d.Values(), Visible(false));
    SelectMembers(listing, NamedNote(name));
    SortDescending(Select(listing, NamedNote(name)), Recency());
    assert forall r :: r in candidates <==> r in d.Values() && r.Live() && IsNamedNote(r, name);
    match IM.Indexed(s, name)
    case Some(r) =>
      IsValue(d, s.index[name]);
      assert r in candidates;
      CandidateIsIndexed(s, name, candidates[0]);
    case None =>
      if candidates != [] {
        CandidateIsIndexed(s, name, candidates[0]);
      }
  }

  lemma CandidateIsIndexed(s: IM.State, name: string, r: MemoryRecord)
    requires Sound(s) && Complete(s) && r in s.dict.Values() && IsNamedNote(r, name)
    ensures IM.Indexed(s, name) == Some(r)
  {
    var i :| 0 <= i < |s.dict.keys| && s.dict.Values()[i] == r;
    assert s.dict.keys[i] in s.dict.records;
  }

  lemma NoteStepAgrees(rows: seq<MemoryRecord>, s: IM.State, step: Step)
    requires Load(rows) == s.dict && Sound(s) && Complete(s) && step.WriteNote? && Fresh(s, step)
    ensures Load(FileAfter(rows, step)) == After(s, step).dict
  {
    var name := Strip(step.name);
    if name != "" {
      LatestNoteIsIndexed(s, name);
      match IM.Indexed(s, name)
      case Some(note) =>
        ContentUpdate(s.dict, s.index[name], step.content, step.now);
        CompactionPreserves(Updated(s.dict, note.id, ContentPatch(step.content), step.now));
      case None =>
        AppendIsUpdate(rows, NewNote(name, step.content, step.newId, step.now).(updatedAt := step.now));
    }
  }

  lemma ContentUpdate(d: Dict, id: string, content: string, now: int)
    requires d.Valid() && HasLive(d, id)
    ensures d.records[id].id == id
    ensures Updated(d, id, ContentPatch(content), now) == d.Put(d.records[id].(content := content, updatedAt := now))
  {
    assert d.records[id].metadata + map[] == d.records[id].metadata;
  }

  // --- Runs ---

  ghost predicate RecordSteps(steps: seq<Step>) {
    forall i :: 0 <= i < |steps| ==> !steps[i].WriteNote?
  }

  /** Over every run of write, update and delete whose writes are current, both stores hold the same dictionary. */
  lemma {:induction false} RunsAgree(rows: seq<MemoryRecord>, s: IM.State, steps: seq<Step>)
    requires Load(rows) == s.dict && CurrentRun(s, steps) && RecordSteps(steps)
    ensures Load(FileRun(rows, steps)) == Run(s, steps).dict
    decreases |steps|
  {
    if steps != [] {
      StepAgrees(rows, s, steps[0]);
      RunsAgree(FileAfter(rows, steps[0]), After(s, steps[0]), steps[1..]);
    }
  }

  /** With note writes too, while ids are fresh and note names stay unique. */
  lemma {:induction false} NoteRunsAgree(rows: seq<MemoryRecord>, s: IM.State, steps: seq<Step>)
    requires Load(rows) == s.dict && Sound(s) && Complete(s)
    requires FreshRun(s, steps) && UniqueRun(s, steps)
    ensures Load(FileRun(rows, steps)) == Run(s, steps).dict
    decreases |steps|
  {
    if steps != [] {
      if steps[0].WriteNote? {
        NoteStepAgrees(rows, s, steps[0]);
      } else {
        StepAgrees(rows, s, steps[0]);
      }
      RunKeepsComplete(s, steps[..1]);
      assert Run(s, steps[..1]) == After(s, steps[0]) by {
        assert steps[..1][1..] == [] && steps[..1][0] == steps[0];
      }
      NoteRunsAgree(FileAfter(rows, steps[0]), After(s, steps[0]), steps[1..]);
    }
  }

  // --- Exactly when the stores agree along a run ---

  /** The stores hold the same dictionary in every state along the run. */
  ghost predicate AgreeRun(rows: seq<MemoryRecord>, s: IM.State, steps: seq<Step>)
    decreases |steps|
  {
    Load(rows) == s.dict && (steps == [] || AgreeRun(FileAfter(rows, steps[0]), After(s, steps[0]), steps[1..]))
  }

  /** The record already reads like one rewritten with this content now. */
  predicate AlreadyWritten(r: MemoryRecord, content: string, now: int) {
    r.content == content && r.updatedAt == now
  }

  /** Index and latest note lead `write_note` to the same record, or to none, or neither changes its record. */
  ghost predicate SameTarget(s: IM.State, name: string, content: string, now: int)
    requires s.dict.Valid()
  {
    var latest, indexed := LatestNote(s.dict, name), IM.Indexed(s, name);
    || (latest.None? && indexed.None?)
    || (latest.Some? && indexed.Some?
        && (latest.value.id == indexed.value.id
            || (AlreadyWritten(latest.value, content, now) && AlreadyWritten(indexed.value, content, now))))
  }

  lemma LatestIsLive(d: Dict, name: string)
    requires d.Valid() && LatestNote(d, name).Some?
    ensures var n := LatestNote(d, name).value;
      HasLive(d, n.id) && d.records[n.id] == n
  {
    var listing := Listed(d, false);
    SortDescending(Select(d.Values(), Visible(false)), Recency());
    SelectMembers(d.Values(), Visible(false));
    SelectMembers(listing, NamedNote(name));
    SortDescending(Select(listing, NamedNote(name)), Recency());
    var n := LatestNote(d, name).value;
    assert n in Sort(Select(listing, NamedNote(name)), Recency());
    var i :| 0 <= i < |d.keys| && d.Values()[i] == n;
    assert d.keys[i] in d.records;
  }

  function Rewritten(r: MemoryRecord, content: string, now: int): MemoryRecord {
    r.(content := content, updatedAt := now)
  }

  /** Rewriting one of two records gives the same dictionary exactly when they are one or neither changes. */
  lemma RewritesAgree(d: Dict, a: string, b: string, content: string, now: int)
    requires d.Valid() && a in d.records && b in d.records
    ensures d.Put(Rewritten(d.records[a], content, now)) == d.Put(Rewritten(d.records[b], content, now)) <==>
      a == b || (AlreadyWritten(d.records[a], content, now) && AlreadyWritten(d.records[b], content, now))
  {
    var x, y := d.Put(Rewritten(d.records[a], content, now)), d.Put(Rewritten(d.records[b], content, now));
    if a != b {
      assert x.records[a] == Rewritten(d.records[a], content, now) && y.records[a] == d.records[a];
      assert y.records[b] == Rewritten(d.records[b], content, now) && x.records[b] == d.records[b];
      if AlreadyWritten(d.records[a], content, now) && AlreadyWritten(d.records[b], content, now) {
        assert Rewritten(d.records[a], content, now) == d.records[a];
        assert Rewritten(d.records[b], content, now) == d.records[b];
        assert x.records == y.records;
      }
    }
  }

  /** What `write_note` does to the two dictionaries, for a name that is not blank. */
  lemma NoteWrites(rows: seq<MemoryRecord>, s: IM.State, step: Step)
    requires Load(rows) == s.dict && step.WriteNote? && Strip(step.name) != "" && step.newId !in s.dict.records
    ensures var name := Strip(step.name);
      var note := NewNote(name, step.content, step.newId, step.now).(updatedAt := step.now);
      && Load(FileAfter(rows, step)) == (match LatestNote(s.dict, name)
           case Some(n) => s.dict.Put(Rewritten(n, step.content, step.now)) case None => s.dict.Put(note))
      && After(s, step).dict == (match IM.Indexed(s, name)
           case Some(n) => s.dict.Put(Rewritten(n, step.content, step.now)) case None => s.dict.Put(note))
  {
    var name := Strip(step.name);
    match LatestNote(s.dict, name)
    case Some(n) =>
      LatestIsLive(s.dict, name);
      ContentUpdate(s.dict, n.id, step.content, step.now);
      CompactionPreserves(Updated(s.dict, n.id, ContentPatch(step.content), step.now));
    case None =>
      AppendIsUpdate(rows, NewNote(name, step.content, step.newId, step.now).(updatedAt := step.now));
  }

  /** A `write_note` keeps the stores in step exactly when index and latest note have the same target. */
  lemma NoteStepAgreesExactly(rows: seq<MemoryRecord>, s: IM.State, step: Step)
    requires Load(rows) == s.dict && step.WriteNote? && step.newId !in s.dict.records
    ensures Load(FileAfter(rows, step)) == After(s, step).dict <==>
      Strip(step.name) == "" || SameTarget(s, Strip(step.name), step.content, step.now)
  {
    var name := Strip(step.name);
    if name != "" {
      NoteWrites(rows, s, step);
      var latest, indexed := LatestNote(s.dict, name), IM.Indexed(s, name);
      if latest.Some? {
        LatestIsLive(s.dict, name);
      }
      if latest.Some? && indexed.Some? {
        RewritesAgree(s.dict, latest.value.id, indexed.value.id, step.content, step.now);
      } else if latest.Some? {
        NewKeyDiffers(s.dict, latest.value, NewNote(name, step.content, step.newId, step.now).(updatedAt := step.now), step);
      } else if indexed.Some? {
        NewKeyDiffers(s.dict, indexed.value, NewNote(name, step.content, step.newId, step.now).(updatedAt := step.now), step);
      }
    }
  }

  lemma NewKeyDiffers(d: Dict, r: MemoryRecord, note: MemoryRecord, step: Step)
    requires step.WriteNote? && r.id in d.records && note.id !in d.records
    ensures d.Put(Rewritten(r, step.content, step.now)) != d.Put(note)
  {
    assert note.id in d.Put(note).records && note.id !in d.Put(Rewritten(r, step.content, step.now)).records;
  }

  /** The step treats both stores alike: a write is current, a `write_note` has one target. */
  ghost predicate Alike(s: IM.State, step: Step)
    requires s.dict.Valid()
  {
    if step.WriteNote? then Strip(step.name) == "" || SameTarget(s, Strip(step.name), step.content, step.now)
    else Current(s.dict, step)
  }

  ghost predicate AlikeRun(s: IM.State, steps: seq<Step>)
    decreases |steps|
  {
    steps == [] || (s.dict.Valid() && Alike(s, steps[0]) && AlikeRun(After(s, steps[0]), steps[1..]))
  }

  /** New notes come under new ids. */
  ghost predicate NewNoteIds(s: IM.State, steps: seq<Step>)
    decreases |steps|
  {
    steps == []
    || ((steps[0].WriteNote? ==> steps[0].newId !in s.dict.records) && NewNoteIds(After(s, steps[0]), steps[1..]))
  }

  /** Over any run of all four operations the stores agree in every state exactly when every step treats them alike. */
  lemma {:induction false} RunsAgreeExactly(rows: seq<MemoryRecord>, s: IM.State, steps: seq<Step>)
    requires Load(rows) == s.dict && NewNoteIds(s, steps)
    ensures AgreeRun(rows, s, steps) <==> AlikeRun(s, steps)
    decreases |steps|
  {
    if steps != [] {
      var step := steps[0];
      if step.WriteNote? {
        NoteStepAgreesExactly(rows, s, step);
      } else {
        StepAgrees(rows, s, step);
      }
      if Load(FileAfter(rows, step)) == After(s, step).dict {
        RunsAgreeExactly(FileAfter(rows, step), After(s, step), steps[1..]);
      }
    }
  }

  // --- A clock that never runs back ---

  /** No record is stamped later. */
  predicate StampedBy(d: Dict, t: int) {
    forall id :: id in d.records ==> d.records[id].updatedAt <= t
  }

  /** The readings of the steps never decrease. */
  predicate ClockFrom(t: int, steps: seq<Step>)
    decreases |steps|
  {
    steps == [] || (t <= steps[0].now && ClockFrom(steps[0].now, steps[1..]))
  }

  lemma StepStamps(s: IM.State, step: Step, t: int)
    requires StampedBy(s.dict, t) && t <= step.now
    ensures StampedBy(After(s, step).dict, step.now)
  {
  }

  /** With a clock that never runs back every write is current. */
  lemma {:induction false} ClockMakesCurrent(s: IM.State, steps: seq<Step>, t: int)
    requires StampedBy(s.dict, t) && ClockFrom(t, steps)
    ensures CurrentRun(s, steps)
    decreases |steps|
  {
    if steps != [] {
      StepStamps(s, steps[0], t);
      ClockMakesCurrent(After(s, steps[0]), steps[1..], steps[0].now);
    }
  }

  // --- The answers ---

  /** After such a run the file store's `get`, `list_all` and `search` equal the in-memory ones. */
  lemma StoresAnswerAlike(rows: seq<MemoryRecord>, s: IM.State, steps: seq<Step>, id: string, includeDeleted: bool,
                          q: Query, matches: TextMatch)
    requires Load(rows) == s.dict && CurrentRun(s, steps) && RecordSteps(steps)
    ensures var file, memory := Load(FileRun(rows, steps)), Run(s, steps).dict;
      && file == memory && Got(file, id) == Got(memory, id) && Listed(file, includeDeleted) == Listed(memory, includeDeleted)
      && FoundInListing(file, q, matches) == Found(memory, q, matches)
  {
    RunsAgree(rows, s, steps);
    SearchThroughListing(Load(FileRun(rows, steps)), q, matches);
  }

  /** `read_note` and `list_notes` of the two stores agree while names are unique. */
  lemma NotesAgree(s: IM.State, name: string)
    requires Sound(s) && Complete(s)
    ensures FileReadNote(s.dict, name) == IM.ReadNote(s, name)
    ensures FileListNotes(s.dict) == IM.ListNotes(s)
  {
    LatestNoteIsIndexed(s, Strip(name));
    if Strip(name) == "" {
      BlankNameUnindexed(s);
    }
    forall n ensures n in FileNoteNames(s.dict) <==> n in IM.Notes(s) {
      NameListed(s, n);
    }
    assert FileNoteNames(s.dict) == IM.Notes(s).Keys;
  }

  lemma BlankNameUnindexed(s: IM.State)
    requires Sound(s)
    ensures "" !in s.index
  {
  }

  lemma NameListed(s: IM.State, name: string)
    requires Sound(s) && Complete(s)
    ensures name in FileNoteNames(s.dict) <==> name in IM.Notes(s)
  {
    var d := s.dict;
    SortDescending(Select(d.Values(), Visible(false)), Recency());
    SelectMembers(d.Values(), Visible(false));
    if name in FileNoteNames(d) {
      var r :| r in Listed(d, false) && r.kind == Note && NoteName(r) == Some(name);
      assert r in d.Values() && IsNamedNote(r, name);
      CandidateIsIndexed(s, name, r);
    }
    if name in IM.Notes(s) {
      var r := d.records[s.index[name]];
      IsValue(d, r.id);
      assert r in Listed(d, false);
    }
  }

  lemma IsValue(d: Dict, id: string)
    requires d.Valid() && id in d.records
    ensures d.records[id] in d.Values()
  {
    var i :| 0 <= i < |d.keys| && d.keys[i] == id;
    assert d.Values()[i] == d.records[id];
  }

  /** A record written at time 2 and again, with other content, at time 1: the log keeps the first, the dictionary the
      second. */
  lemma StaleWriteExample(r: MemoryRecord, content: string)
    requires content != r.content
    ensures var late := r.(updatedAt := 2);
      var stale := Write(r.(content := content), 1);
      var s := IM.State(EMPTY.Put(late), map[]);
      Load([late]) == s.dict && Load(FileAfter([late], stale)) != After(s, stale).dict
  {
    var late := r.(updatedAt := 2);
    LoadAppend([], late);
    assert [] + [late] == [late];
    StepAgrees([late], IM.State(EMPTY.Put(late), map[]), Write(r.(content := content), 1));
  }
}

/**
 The note index agrees with a full scan, over every run of the in-memory store.

 Two facts break it: a write that reuses an id may leave an entry behind, and two live notes of
 one name shadow each other. Both are shown, with the exact condition
 (`WriteKeepsSound`, `StepKeepsComplete`, `CompleteRunExactly`).
 */
module NoteIndex {
  import opened Wrappers
  import opened StringOrder
  import opened Text
  import opened MemoryModel
  import opened InMemoryStore

  datatype Step =
    | Write(record: MemoryRecord, now: int)
    | Update(id: string, patch: Patch, now: int)
    | Delete(id: string, reason: string, now: int)
    | WriteNote(name: string, content: string, newId: string, now: int)

  function After(s: State, step: Step): State {
    match step
    case Write(r, now) => AfterWrite(s, r, now)
    case Update(id, p, now) => AfterUpdate(s, id, p, now)
    case Delete(id, reason, now) => AfterDelete(s, id, reason, now)
    case WriteNote(name, content, newId, now) =>
      match AfterWriteNote(s, name, content, newId, now) case None => s case Some(t) => t
  }

  function Run(s: State, steps: seq<Step>): State
    decreases |steps|
  {
    if steps == [] then s else Run(After(s, steps[0]), steps[1..])
  }

  /** New records come under new, non-empty ids. */
  predicate Fresh(s: State, step: Step) {
    match step
    case Write(r, _) => r.id != "" && r.id !in s.dict.records
    case WriteNote(_, _, newId, _) => newId != "" && newId !in s.dict.records
    case _ => true
  }

  ghost predicate FreshRun(s: State, steps: seq<Step>)
    decreases |steps|
  {
    steps == [] || (Fresh(s, steps[0]) && FreshRun(After(s, steps[0]), steps[1..]))
  }

  /** Each entry leads to a live note of that name. */
  ghost predicate Sound(s: State) {
    && s.dict.Valid() && "" !in s.dict.records
    && forall name :: name in s.index ==>
         s.index[name] in s.dict.records && IsNamedNote(s.dict.records[s.index[name]], name)
  }

  /** No two live notes share a name. */
  ghost predicate NamesUnique(s: State) {
    forall a, b, name ::
      (a in s.dict.records && b in s.dict.records
       && IsNamedNote(s.dict.records[a], name) && IsNamedNote(s.dict.records[b], name)) ==> a == b
  }

  /** Each live named note has its entry. */
  ghost predicate Complete(s: State) {
    forall id, name :: id in s.dict.records && IsNamedNote(s.dict.records[id], name) ==>
      name in s.index && s.index[name] == id
  }

  // --- Soundness over every run ---

  /** Dropping the name a record has leaves no entry of its id. */
  lemma DropClears(s: State, id: string)
    requires Sound(s) && id in s.dict.records
    ensures var dropped := Dropped(s.index, NoteName(s.dict.records[id]), id);
      forall name :: name in dropped ==> name in s.index && dropped[name] == s.index[name] && dropped[name] != id
  {
  }

  /** Storing a record keeps the index sound when no entry of its id is left with another name. */
  lemma StoreKeepsSound(s: State, index: map<string, string>, r: MemoryRecord)
    requires Sound(s) && r.id != ""
    requires forall name :: name in index ==> name in s.index && index[name] == s.index[name]
    ensures Sound(State(s.dict.Put(r), index)) <==>
      forall name :: name in index && index[name] == r.id ==> IsNamedNote(r, name)
  {
    var t := State(s.dict.Put(r), index);
    if Sound(t) {
      forall name | name in index && index[name] == r.id ensures IsNamedNote(r, name) {
        assert t.dict.records[t.index[name]] == r;
      }
    }
  }

  lemma SyncKeepsSound(s: State, r: MemoryRecord)
    requires r.id in s.dict.records && s.dict.records[r.id] == r
    ensures Sound(State(s.dict, Synced(s.index, r))) <== Sound(s)
  {
  }

  /** A write keeps the index sound exactly when no entry of its id is left with another name. */
  lemma WriteKeepsSound(s: State, r: MemoryRecord, now: int)
    requires Sound(s) && r.id != ""
    ensures Sound(AfterWrite(s, r, now)) <==>
      forall name :: name in s.index && s.index[name] == r.id ==> IsNamedNote(r, name)
  {
    var stamped := r.(updatedAt := now);
    assert forall name :: IsNamedNote(stamped, name) <==> IsNamedNote(r, name);
    StoreKeepsSound(s, s.index, stamped);
    SyncKeepsSound(State(s.dict.Put(stamped), s.index), stamped);
    var t := AfterWrite(s, r, now);
    if Sound(t) {
      forall name | name in s.index && s.index[name] == r.id ensures IsNamedNote(r, name) {
        assert t.index[name] == r.id && t.dict.records[r.id] == stamped;
      }
    }
  }

  lemma UpdateKeepsSound(s: State, id: string, p: Patch, now: int)
    requires Sound(s)
    ensures Sound(AfterUpdate(s, id, p, now))
  {
    if HasLive(s.dict, id) {
      var r := Patched(s.dict.records[id], p).(updatedAt := now);
      var dropped := Dropped(s.index, NoteName(s.dict.records[id]), id);
      DropClears(s, id);
      StoreKeepsSound(s, dropped, r);
      SyncKeepsSound(State(s.dict.Put(r), dropped), r);
    }
  }

  lemma DeleteKeepsSound(s: State, id: string, reason: string, now: int)
    requires Sound(s)
    ensures Sound(AfterDelete(s, id, reason, now))
  {
    if HasLive(s.dict, id) {
      DeletedKeepsName(s.dict.records[id], reason, now);
      DropClears(s, id);
      StoreKeepsSound(s, Dropped(s.index, NoteName(s.dict.records[id]), id), Deleted(s.dict.records[id], reason, now));
    }
  }

  lemma DeletedKeepsName(r: MemoryRecord, reason: string, now: int)
    ensures NoteName(Deleted(r, reason, now)) == NoteName(r)
  {
    assert |"delete_reason"| != |"name"|;
  }

  lemma WriteNoteKeepsSound(s: State, name: string, content: string, newId: string, now: int)
    requires Sound(s) && Fresh(s, WriteNote(name, content, newId, now))
    ensures Sound(After(s, WriteNote(name, content, newId, now)))
  {
    if Strip(name) != "" {
      match Indexed(s, Strip(name))
      case Some(r) =>
        assert r.id == s.index[Strip(name)];
        assert forall n :: IsNamedNote(r, n) <==> IsNamedNote(r.(content := content, updatedAt := now), n);
      case None =>
        WriteKeepsSound(s, NewNote(Strip(name), content, newId, now), now);
    }
  }

  lemma StepKeepsSound(s: State, step: Step)
    requires Sound(s) && Fresh(s, step)
    ensures Sound(After(s, step))
  {
    match step
    case Write(r, now) => WriteKeepsSound(s, r, now);
    case Update(id, p, now) => UpdateKeepsSound(s, id, p, now);
    case Delete(id, reason, now) => DeleteKeepsSound(s, id, reason, now);
    case WriteNote(name, content, newId, now) => WriteNoteKeepsSound(s, name, content, newId, now);
  }

  /** Over every run whose writes use fresh ids, each entry leads to a live note of its name. */
  lemma {:induction false} RunKeepsSound(s: State, steps: seq<Step>)
    requires Sound(s) && FreshRun(s, steps)
    ensures Sound(Run(s, steps))
    decreases |steps|
  {
    if steps != [] {
      StepKeepsSound(s, steps[0]);
      RunKeepsSound(After(s, steps[0]), steps[1..]);
    }
  }

  // --- Completeness while names stay unique ---

  /** Every live named note but one has its entry. */
  ghost predicate CompleteBut(s: State, except: string) {
    forall id, name :: id in s.dict.records && id != except && IsNamedNote(s.dict.records[id], name) ==>
      name in s.index && s.index[name] == id
  }

  /** Storing a record under entries that only lost its own keeps all other entries. */
  lemma StoreKeepsOthers(s: State, index: map<string, string>, r: MemoryRecord)
    requires Complete(s)
    requires forall name :: name in s.index && s.index[name] != r.id ==> name in index && index[name] == s.index[name]
    ensures CompleteBut(State(s.dict.Put(r), index), r.id)
  {
    var t := State(s.dict.Put(r), index);
    forall id, name | id in t.dict.records && id != r.id && IsNamedNote(t.dict.records[id], name)
      ensures name in t.index && t.index[name] == id
    {
      assert id in s.dict.records && IsNamedNote(s.dict.records[id], name);
    }
  }

  lemma SyncCompletes(s: State, r: MemoryRecord)
    requires CompleteBut(s, r.id) && r.id in s.dict.records && s.dict.records[r.id] == r
    requires NamesUnique(s)
    ensures Complete(State(s.dict, Synced(s.index, r)))
  {
  }

  /** An index entry names one note, so a complete index leaves no two live notes of one name. */
  lemma CompleteMeansUnique(s: State)
    requires Complete(s)
    ensures NamesUnique(s)
  {
    forall a, b, name | a in s.dict.records && b in s.dict.records
        && IsNamedNote(s.dict.records[a], name) && IsNamedNote(s.dict.records[b], name)
      ensures a == b
    {
      assert s.index[name] == a && s.index[name] == b;
    }
  }

  /** The record would be a note with a name that another live note holds. */
  ghost predicate TakesName(s: State, r: MemoryRecord) {
    exists id, name :: id in s.dict.records && id != r.id && IsNamedNote(s.dict.records[id], name) && IsNamedNote(r, name)
  }

  /** Storing a record keeps names unique exactly when it takes no held name. */
  lemma StoreKeepsUnique(s: State, index: map<string, string>, r: MemoryRecord)
    requires NamesUnique(s)
    ensures NamesUnique(State(s.dict.Put(r), index)) <==> !TakesName(s, r)
  {
    var t := State(s.dict.Put(r), index);
    if TakesName(s, r) {
      var id, name :| id in s.dict.records && id != r.id && IsNamedNote(s.dict.records[id], name) && IsNamedNote(r, name);
      assert IsNamedNote(t.dict.records[id], name) && IsNamedNote(t.dict.records[r.id], name);
    } else {
      forall a, b, name | a in t.dict.records && b in t.dict.records
          && IsNamedNote(t.dict.records[a], name) && IsNamedNote(t.dict.records[b], name)
        ensures a == b
      {
        if a != r.id && b != r.id {
          assert IsNamedNote(s.dict.records[a], name) && IsNamedNote(s.dict.records[b], name);
        }
      }
    }
  }

  lemma StampKeepsName(s: State, r: MemoryRecord, now: int)
    ensures TakesName(s, r.(updatedAt := now)) <==> TakesName(s, r)
  {
    assert forall name :: IsNamedNote(r.(updatedAt := now), name) <==> IsNamedNote(r, name);
  }

  lemma WriteKeepsComplete(s: State, r: MemoryRecord, now: int)
    requires Complete(s) && !TakesName(s, r)
    ensures Complete(AfterWrite(s, r, now))
  {
    var stamped := r.(updatedAt := now);
    CompleteMeansUnique(s);
    StampKeepsName(s, r, now);
    StoreKeepsUnique(s, s.index, stamped);
    StoreKeepsOthers(s, s.index, stamped);
    SyncCompletes(State(s.dict.Put(stamped), s.index), stamped);
  }

  /** Dropping an entry of an id and storing a record under it keeps the entries of all other notes. */
  lemma DropThenStore(s: State, name: Option<string>, r: MemoryRecord)
    requires Complete(s)
    ensures CompleteBut(State(s.dict.Put(r), Dropped(s.index, name, r.id)), r.id)
  {
    StoreKeepsOthers(s, Dropped(s.index, name, r.id), r);
  }

  lemma DropThenStoreThenSync(s: State, name: Option<string>, r: MemoryRecord)
    requires Complete(s) && NamesUnique(State(s.dict.Put(r), s.index))
    ensures Complete(State(s.dict.Put(r), Synced(Dropped(s.index, name, r.id), r)))
  {
    DropThenStore(s, name, r);
    SyncCompletes(State(s.dict.Put(r), Dropped(s.index, name, r.id)), r);
  }

  /** The record `update` stores. */
  function UpdatedRecord(s: State, id: string, p: Patch, now: int): (r: MemoryRecord)
    requires HasLive(s.dict, id)
    ensures r.id == s.dict.records[id].id
  {
    Patched(s.dict.records[id], p).(updatedAt := now)
  }

  lemma UpdateKeepsComplete(s: State, id: string, p: Patch, now: int)
    requires Sound(s) && Complete(s) && HasLive(s.dict, id)
    requires NamesUnique(State(s.dict.Put(UpdatedRecord(s, id, p, now)), s.index))
    ensures Complete(AfterUpdate(s, id, p, now))
  {
    DropThenStoreThenSync(s, NoteName(s.dict.records[id]), UpdatedRecord(s, id, p, now));
  }

  lemma DeleteKeepsComplete(s: State, id: string, reason: string, now: int)
    requires Sound(s) && Complete(s)
    ensures Complete(AfterDelete(s, id, reason, now))
  {
    if HasLive(s.dict, id) {
      var r := Deleted(s.dict.records[id], reason, now);
      DropThenStore(s, NoteName(r), r);
      assert !r.Live();
    }
  }

  lemma WriteNoteKeepsComplete(s: State, name: string, content: string, newId: string, now: int)
    requires Sound(s) && Complete(s)
    ensures Complete(After(s, WriteNote(name, content, newId, now)))
  {
    if Strip(name) != "" {
      match Indexed(s, Strip(name))
      case Some(r) =>
        ContentKeepsComplete(s, r, content, now);
      case None =>
        var note := NewNote(Strip(name), content, newId, now);
        NameUnheld(s, name, note);
        WriteKeepsComplete(s, note, now);
    }
  }

  /** A name without an entry is held by no live note. */
  lemma NameUnheld(s: State, name: string, note: MemoryRecord)
    requires Sound(s) && Complete(s) && Indexed(s, Strip(name)).None? && NoteName(note) == NoteName(NewNote(Strip(name), "", "", 0))
    ensures !TakesName(s, note)
  {
    StripIdempotent(name);
  }

  lemma ContentKeepsComplete(s: State, r: MemoryRecord, content: string, now: int)
    requires Complete(s) && r.id in s.dict.records && s.dict.records[r.id] == r
    ensures Complete(s.(dict := s.dict.Put(r.(content := content, updatedAt := now))))
  {
    var rewritten := r.(content := content, updatedAt := now);
    assert forall name :: IsNamedNote(rewritten, name) <==> IsNamedNote(r, name);
    StoreKeepsOthers(s, s.index, rewritten);
  }

  /** The step gives a note a name that another live note holds. */
  ghost predicate Shadows(s: State, step: Step) {
    match step
    case Write(r, _) => TakesName(s, r)
    case Update(id, p, now) => HasLive(s.dict, id) && TakesName(s, UpdatedRecord(s, id, p, now))
    case _ => false
  }

  /** A step keeps every live note in the index exactly when it gives no note the name of another live one. */
  lemma StepKeepsComplete(s: State, step: Step)
    requires Sound(s) && Complete(s)
    ensures Complete(After(s, step)) <==> !Shadows(s, step)
    ensures Complete(After(s, step)) <==> NamesUnique(After(s, step))
  {
    CompleteMeansUnique(s);
    if Complete(After(s, step)) {
      CompleteMeansUnique(After(s, step));
    }
    match step
    case Write(r, now) => WriteExactly(s, r, now);
    case Update(id, p, now) => if HasLive(s.dict, id) { UpdateExactly(s, id, p, now); }
    case Delete(id, reason, now) => DeleteKeepsComplete(s, id, reason, now);
    case WriteNote(name, content, newId, now) => WriteNoteKeepsComplete(s, name, content, newId, now);
  }

  /** Whatever the index becomes, storing a record that takes a held name leaves it incomplete. */
  lemma StoredExactly(s: State, index: map<string, string>, r: MemoryRecord)
    requires Complete(s)
    ensures NamesUnique(State(s.dict.Put(r), index)) <==> !TakesName(s, r)
    ensures Complete(State(s.dict.Put(r), index)) ==> !TakesName(s, r)
  {
    CompleteMeansUnique(s);
    StoreKeepsUnique(s, index, r);
    if Complete(State(s.dict.Put(r), index)) {
      CompleteMeansUnique(State(s.dict.Put(r), index));
    }
  }

  lemma WriteExactly(s: State, r: MemoryRecord, now: int)
    requires Complete(s)
    ensures Complete(AfterWrite(s, r, now)) <==> !TakesName(s, r)
    ensures NamesUnique(AfterWrite(s, r, now)) <==> !TakesName(s, r)
  {
    StampKeepsName(s, r, now);
    StoredExactly(s, Synced(s.index, r.(updatedAt := now)), r.(updatedAt := now));
    if !TakesName(s, r) {
      WriteKeepsComplete(s, r, now);
    }
  }

  lemma UpdateExactly(s: State, id: string, p: Patch, now: int)
    requires Sound(s) && Complete(s) && HasLive(s.dict, id)
    ensures Complete(AfterUpdate(s, id, p, now)) <==> !TakesName(s, UpdatedRecord(s, id, p, now))
    ensures NamesUnique(AfterUpdate(s, id, p, now)) <==> !TakesName(s, UpdatedRecord(s, id, p, now))
  {
    var r := UpdatedRecord(s, id, p, now);
    StoredExactly(s, AfterUpdate(s, id, p, now).index, r);
    if !TakesName(s, r) {
      StoredExactly(s, s.index, r);
      UpdateKeepsComplete(s, id, p, now);
    }
  }

  ghost predicate UniqueRun(s: State, steps: seq<Step>)
    decreases |steps|
  {
    NamesUnique(s) && (steps == [] || UniqueRun(After(s, steps[0]), steps[1..]))
  }

  /** Along the run no step gives a note the name of another live note. */
  ghost predicate UnshadowedRun(s: State, steps: seq<Step>)
    decreases |steps|
  {
    steps == [] || (!Shadows(s, steps[0]) && UnshadowedRun(After(s, steps[0]), steps[1..]))
  }

  /** Every live note is indexed in every state along the run. */
  ghost predicate CompleteRun(s: State, steps: seq<Step>)
    decreases |steps|
  {
    Complete(s) && (steps == [] || CompleteRun(After(s, steps[0]), steps[1..]))
  }

  /** Over a run with fresh ids the index stays complete exactly when no step shadows a note, which is
      exactly when names stay unique. */
  lemma {:induction false} CompleteRunExactly(s: State, steps: seq<Step>)
    requires Sound(s) && Complete(s) && FreshRun(s, steps)
    ensures CompleteRun(s, steps) <==> UnshadowedRun(s, steps)
    ensures CompleteRun(s, steps) <==> UniqueRun(s, steps)
    decreases |steps|
  {
    CompleteMeansUnique(s);
    if steps != [] {
      var t := After(s, steps[0]);
      StepKeepsSound(s, steps[0]);
      StepKeepsComplete(s, steps[0]);
      if Complete(t) {
        CompleteRunExactly(t, steps[1..]);
      }
    }
  }

  /** So at the end of such a run the index is sound and complete. */
  lemma {:induction false} RunKeepsComplete(s: State, steps: seq<Step>)
    requires Sound(s) && Complete(s) && FreshRun(s, steps) && UniqueRun(s, steps)
    ensures Sound(Run(s, steps)) && Complete(Run(s, steps))
    decreases |steps|
  {
    if steps != [] {
      StepKeepsSound(s, steps[0]);
      assert NamesUnique(After(s, steps[0]));
      StepKeepsComplete(s, steps[0]);
      RunKeepsComplete(After(s, steps[0]), steps[1..]);
    }
  }

  // --- The note operations equal a full scan ---

  /** Some live note has this name and this content. */
  ghost predicate Scanned(s: State, name: string, content: string) {
    exists id :: id in s.dict.records && IsNamedNote(s.dict.records[id], name) && s.dict.records[id].content == content
  }

  /** With a sound and complete index, `read_note`, `notes` and `list_notes` equal a scan of all records. */
  lemma NotesEqualScan(s: State)
    requires Sound(s) && Complete(s)
    ensures forall name, content :: ReadNote(s, name) == Some(content) <==> Scanned(s, Strip(name), content)
    ensures forall name, content :: (name in Notes(s) && Notes(s)[name] == content) <==> Scanned(s, name, content)
    ensures Sorted(ListNotes(s)) && forall name :: name in ListNotes(s) <==> exists content :: Scanned(s, name, content)
  {
    forall name, content ensures (name in Notes(s) && Notes(s)[name] == content) <==> Scanned(s, name, content) {
      NoteScan(s, name, content);
    }
    forall name, content ensures ReadNote(s, name) == Some(content) <==> Scanned(s, Strip(name), content) {
      NoteScan(s, Strip(name), content);
    }
    forall name ensures name in ListNotes(s) <==> exists content :: Scanned(s, name, content) {
      if name in Notes(s) {
        NoteScan(s, name, Notes(s)[name]);
      }
    }
  }

  /** Every name of a live note has an entry. */
  ghost predicate NamesIndexed(s: State) {
    forall id, name :: id in s.dict.records && IsNamedNote(s.dict.records[id], name) ==> name in s.index
  }

  /** Live notes of one name have one content. */
  ghost predicate NamesakesAlike(s: State) {
    forall a, b, name ::
      (a in s.dict.records && b in s.dict.records
       && IsNamedNote(s.dict.records[a], name) && IsNamedNote(s.dict.records[b], name))
      ==> s.dict.records[a].content == s.dict.records[b].content
  }

  /** With a sound index, `notes` equals a scan exactly when every name of a live note has an entry and live notes of
      one name have one content. */
  lemma ScanExactly(s: State)
    requires Sound(s)
    ensures (forall name, content :: (name in Notes(s) && Notes(s)[name] == content) <==> Scanned(s, name, content))
      <==> NamesIndexed(s) && NamesakesAlike(s)
  {
    if NamesIndexed(s) && NamesakesAlike(s) {
      forall name, content ensures (name in Notes(s) && Notes(s)[name] == content) <==> Scanned(s, name, content) {
        if Scanned(s, name, content) {
          var id :| id in s.dict.records && IsNamedNote(s.dict.records[id], name) && s.dict.records[id].content == content;
          assert IsNamedNote(s.dict.records[s.index[name]], name);
        }
      }
    } else if forall name, content :: (name in Notes(s) && Notes(s)[name] == content) <==> Scanned(s, name, content) {
      ScannedIndexed(s);
    }
  }

  lemma ScannedRead(s: State, id: string, name: string)
    requires forall name, content :: Scanned(s, name, content) ==> name in Notes(s) && Notes(s)[name] == content
    requires id in s.dict.records && IsNamedNote(s.dict.records[id], name)
    ensures name in s.index && name in Notes(s) && Notes(s)[name] == s.dict.records[id].content
  {
    assert Scanned(s, name, s.dict.records[id].content);
  }

  lemma ScannedIndexed(s: State)
    requires forall name, content :: Scanned(s, name, content) ==> name in Notes(s) && Notes(s)[name] == content
    ensures NamesIndexed(s) && NamesakesAlike(s)
  {
    forall id, name | id in s.dict.records && IsNamedNote(s.dict.records[id], name) ensures name in s.index {
      ScannedRead(s, id, name);
    }
    forall a, b, name | a in s.dict.records && b in s.dict.records
        && IsNamedNote(s.dict.records[a], name) && IsNamedNote(s.dict.records[b], name)
      ensures s.dict.records[a].content == s.dict.records[b].content
    {
      ScannedRead(s, a, name);
      ScannedRead(s, b, name);
    }
  }

  /** With a sound and complete index an entry is the note of its name. */
  lemma EntryIsNote(s: State, name: string, id: string)
    requires Sound(s) && Complete(s)
    ensures (name in s.index && s.index[name] == id) <==> (id in s.dict.records && IsNamedNote(s.dict.records[id], name))
  {
  }

  lemma NoteScan(s: State, name: string, content: string)
    requires Sound(s) && Complete(s)
    ensures (name in Notes(s) && Notes(s)[name] == content) <==> Scanned(s, name, content)
    ensures (Indexed(s, name).Some? && Indexed(s, name).value.content == content) <==> Scanned(s, name, content)
  {
    if Scanned(s, name, content) {
      var id :| id in s.dict.records && IsNamedNote(s.dict.records[id], name) && s.dict.records[id].content == content;
      EntryIsNote(s, name, id);
    }
    if name in s.index {
      EntryIsNote(s, name, s.index[name]);
    }
  }

  /** The empty store starts every such run. */
  lemma EmptyStoreGood()
    ensures Sound(State(EMPTY, map[])) && Complete(State(EMPTY, map[])) && NamesUnique(State(EMPTY, map[]))
  {
  }

  // --- What breaks it ---

  lemma SingleChar(c: char)
    requires !IsSpace(c)
    ensures Strip([c]) == [c]
  {
    StrippedFixed([c]);
  }

  lemma NewNoteNamed(c: char, content: string, id: string, now: int)
    requires !IsSpace(c)
    ensures IsNamedNote(NewNote([c], content, id, now), [c])
  {
    SingleChar(c);
  }

  /** Writing note "b" under the id of note "a" leaves the entry of "a", which now reads the content of "b". */
  lemma ReusedIdBreaksIndex()
    ensures var s := AfterWrite(State(EMPTY, map[]), NewNote("a", "x", "1", 0), 1);
      var t := AfterWrite(s, NewNote("b", "y", "1", 0), 2);
      Sound(s) && !Sound(t) && ReadNote(t, "a") == Some("y")
  {
    EmptyStoreGood();
    WriteKeepsSound(State(EMPTY, map[]), NewNote("a", "x", "1", 0), 1);
    var s := AfterWrite(State(EMPTY, map[]), NewNote("a", "x", "1", 0), 1);
    SingleChar('a');
    SingleChar('b');
    assert "a"[0] != "b"[0];
    assert s.index["a"] == "1" && !IsNamedNote(NewNote("b", "y", "1", 0), "a");
    WriteKeepsSound(s, NewNote("b", "y", "1", 0), 2);
  }

  /** After two notes of one name, deleting the newer hides the older one although it is still live. */
  lemma ShadowedNoteLost()
    ensures var s := AfterWrite(State(EMPTY, map[]), NewNote("a", "x", "1", 0), 1);
      var t := AfterDelete(AfterWrite(s, NewNote("a", "y", "2", 0), 2), "2", "", 3);
      Scanned(t, "a", "x") && ReadNote(t, "a") == None
  {
    SingleChar('a');
    var s := AfterWrite(State(EMPTY, map[]), NewNote("a", "x", "1", 0), 1);
    var u := AfterWrite(s, NewNote("a", "y", "2", 0), 2);
    assert "1"[0] != "2"[0];
    assert u.index["a"] == "2" && HasLive(u.dict, "2");
    var t := AfterDelete(u, "2", "", 3);
    assert t.index == map[];
    assert t.dict.records["1"] == NewNote("a", "x", "1", 0).(updatedAt := 1);
    NewNoteNamed('a', "x", "1", 0);
  }

  // --- Reading back ---

  /** A note reads back as it was written, under every spelling of its name. */
  lemma ReadAfterWrite(s: State, name: string, content: string, newId: string, now: int, spelling: string)
    requires Sound(s) && newId != "" && newId !in s.dict.records && Strip(name) != "" && Strip(spelling) == Strip(name)
    ensures ReadNote(After(s, WriteNote(name, content, newId, now)), spelling) == Some(content)
  {
    var key := Strip(name);
    match Indexed(s, key)
    case Some(r) =>
      assert r.id == s.index[key];
    case None =>
      StripIdempotent(name);
      var note := NewNote(key, content, newId, now).(updatedAt := now);
      assert NoteName(note) == Some(key);
  }

  /** And no other note changes. */
  lemma OtherNotesStay(s: State, name: string, content: string, newId: string, now: int, id: string)
    requires Sound(s) && newId !in s.dict.records && id in s.dict.records
    requires Indexed(s, Strip(name)).Some? ==> id != Indexed(s, Strip(name)).value.id
    ensures var t := After(s, WriteNote(name, content, newId, now));
      id in t.dict.records && t.dict.records[id] == s.dict.records[id]
  {
  }

  /** A record's note name is its "name" without the whitespace around it, unless nothing is left. */
  lemma NoteNameExactly(r: MemoryRecord, name: string)
    ensures NoteName(r) == Some(name) <==>
      && name != "" && Stripped(name) && "name" in r.metadata
      && exists i, j :: 0 <= i <= j <= |r.metadata["name"]| && r.metadata["name"][i..j] == name && Padded(r.metadata["name"], i, j)
  {
    if "name" in r.metadata {
      var text := r.metadata["name"];
      var i, j := StripSlice(text);
      assert Padded(text, i, j);
      forall k, l | 0 <= k <= l <= |text| && text[k..l] != "" && Stripped(text[k..l]) && Padded(text, k, l)
        ensures text[k..l] == Strip(text)
      {
        OneSlice(text, i, j, k, l);
      }
    }
  }

  /** Only whitespace before `i` and from `j` on. */
  predicate Padded(s: string, i: int, j: int) {
    forall k :: 0 <= k < |s| && (k < i || j <= k) ==> IsSpace(s[k])
  }

  lemma OneSlice(s: string, i: int, j: int, k: int, l: int)
    requires 0 <= i <= j <= |s| && 0 <= k <= l <= |s| && Padded(s, i, j) && Padded(s, k, l)
    requires Stripped(s[i..j]) && Stripped(s[k..l]) && k < l
    ensures i == k && j == l
  {
    assert s[k..l][0] == s[k] && s[k..l][l - k - 1] == s[l - 1];
    if i < j {
      assert s[i..j][0] == s[i] && s[i..j][j - i - 1] == s[j - 1];
    }
  }

  /** A note that is not indexed yet becomes a new record. */
  lemma NewNoteShape(s: State, name: string, content: string, newId: string, now: int)
    requires Sound(s) && newId != "" && newId !in s.dict.records && Strip(name) != "" && Indexed(s, Strip(name)).None?
    ensures var t := After(s, WriteNote(name, content, newId, now));
      && newId in t.dict.records && t.dict.records[newId].content == content && t.dict.records[newId].kind == Note
      && t.dict.records[newId].id == newId && t.dict.records[newId].tags == [] && t.dict.records[newId].importance == 1.0 / 2.0
      && t.dict.records[newId].userId == None && t.dict.records[newId].sessionId == None
      && t.dict.records[newId].createdAt == now && t.dict.records[newId].updatedAt == now
      && t.dict.records[newId].deletedAt == None && t.dict.records[newId].metadata == map["name" := Strip(name)]
  {
    StripIdempotent(name);
    var note := NewNote(Strip(name), content, newId, now).(updatedAt := now);
    assert NoteName(note) == Some(Strip(name));
  }
}

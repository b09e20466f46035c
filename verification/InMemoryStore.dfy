/**
 The dictionary store with its note-name index (agent_core/memory/in_memory_store.py).
 Operations act on a `State`; the class changes its two fields in place and is proved against them.
 */
module InMemoryStore {
  import opened Wrappers
  import opened StringOrder
  import opened StableSort
  import opened Text
  import opened MemoryModel
  import opened SearchMeaning

  datatype State = State(dict: Dict, index: map<string, string>)

  /** `_sync_note_index`. */
  function Synced(index: map<string, string>, r: MemoryRecord): map<string, string> {
    if r.kind == Note && r.Live() && NoteName(r).Some? then index[NoteName(r).value := r.id] else index
  }

  /** `_remove_stale_note_index`. */
  function Dropped(index: map<string, string>, name: Option<string>, id: string): map<string, string> {
    if name.Some? && name.value in index && index[name.value] == id then index - {name.value} else index
  }

  function AfterWrite(s: State, r: MemoryRecord, now: int): State {
    var stamped := r.(updatedAt := now);
    State(s.dict.Put(stamped), Synced(s.index, stamped))
  }

  function AfterUpdate(s: State, id: string, p: Patch, now: int): State {
    if !HasLive(s.dict, id) then s
    else
      var r := Patched(s.dict.records[id], p).(updatedAt := now);
      State(s.dict.Put(r), Synced(Dropped(s.index, NoteName(s.dict.records[id]), id), r))
  }

  function AfterDelete(s: State, id: string, reason: string, now: int): State {
    if !HasLive(s.dict, id) then s
    else
      var r := Deleted(s.dict.records[id], reason, now);
      State(s.dict.Put(r), Dropped(s.index, NoteName(r), id))
  }

  /** The live note an index entry leads to; an empty id is taken as no entry. */
  function Indexed(s: State, name: string): Option<MemoryRecord> {
    if name in s.index && s.index[name] != "" && HasLive(s.dict, s.index[name])
    then Some(s.dict.records[s.index[name]]) else None
  }

  /** `write_note`; a blank name raises. A new note gets the id `newId`. */
  function AfterWriteNote(s: State, name: string, content: string, newId: string, now: int): Option<State> {
    if Strip(name) == "" then None
    else
      match Indexed(s, Strip(name))
      case Some(r) => Some(s.(dict := s.dict.Put(r.(content := content, updatedAt := now))))
      case None => Some(AfterWrite(s, NewNote(Strip(name), content, newId, now), now))
  }

  function ReadNote(s: State, name: string): Option<string> {
    match Indexed(s, Strip(name)) case Some(r) => Some(r.content) case None => None
  }

  /** `notes`: the names whose entry leads to a live record, with its content. */
  function Notes(s: State): map<string, string> {
    map name | name in s.index && HasLive(s.dict, s.index[name]) :: s.dict.records[s.index[name]].content
  }

  function ListNotes(s: State): seq<string> {
    SortedOf(Notes(s).Keys)
  }

  class Store {
    var records: Dict
    var noteIndex: map<string, string>

    ghost function Contents(): State
      reads this
    {
      State(records, noteIndex)
    }

    ghost predicate Valid()
      reads this
    {
      records.Valid()
    }

    constructor ()
      ensures Valid() && Contents() == State(EMPTY, map[])
    {
      records := EMPTY;
      noteIndex := map[];
    }

    method SyncNoteIndex(r: MemoryRecord)
      modifies this`noteIndex
      ensures noteIndex == Synced(old(noteIndex), r)
    {
      if r.kind != Note || !r.Live() {
        return;
      }
      var name := NoteName(r);
      if name.Some? {
        noteIndex := noteIndex[name.value := r.id];
      }
    }

    method RemoveStaleNoteIndex(name: Option<string>, id: string)
      modifies this`noteIndex
      ensures noteIndex == Dropped(old(noteIndex), name, id)
    {
      if name.Some? && name.value in noteIndex && noteIndex[name.value] == id {
        noteIndex := noteIndex - {name.value};
      }
    }

    method Write(record: MemoryRecord, now: int) returns (stamped: MemoryRecord)
      requires Valid()
      modifies this
      ensures Valid()
      ensures Contents() == AfterWrite(old(Contents()), record, now) && stamped == record.(updatedAt := now)
    {
      stamped := record.(updatedAt := now);
      records := records.Put(stamped);
      SyncNoteIndex(stamped);
    }

    method Get(id: string) returns (r: Option<MemoryRecord>)
      ensures r == Got(records, id)
    {
      if id !in records.records || !records.records[id].Live() {
        return None;
      }
      r := Some(records.records[id]);
    }

    method Update(id: string, patch: Patch, now: int) returns (r: Option<MemoryRecord>)
      requires Valid()
      modifies this
      ensures Valid()
      ensures Contents() == AfterUpdate(old(Contents()), id, patch, now)
      ensures r == if HasLive(old(records), id) then Some(records.records[id]) else None
      ensures r.Some? ==> PatchApplied(old(records).records[id], patch, now, r.value)
    {
      UpdateMeaning(records, id, patch, now);
      if id !in records.records || !records.records[id].Live() {
        return None;
      }
      var oldName := NoteName(records.records[id]);
      var record := Patched(records.records[id], patch).(updatedAt := now);
      records := records.Put(record);
      RemoveStaleNoteIndex(oldName, id);
      SyncNoteIndex(record);
      r := Some(record);
    }

    method Delete(id: string, reason: string, now: int) returns (done: bool)
      requires Valid()
      modifies this
      ensures Valid()
      ensures Contents() == AfterDelete(old(Contents()), id, reason, now)
      ensures done <==> HasLive(old(records), id)
    {
      if id !in records.records || !records.records[id].Live() {
        return false;
      }
      var record := Deleted(records.records[id], reason, now);
      records := records.Put(record);
      RemoveStaleNoteIndex(NoteName(record), id);
      done := true;
    }

    method ListAll(includeDeleted: bool) returns (r: seq<MemoryRecord>)
      requires Valid()
      ensures r == Listed(records, includeDeleted) && Lists(records, includeDeleted, r)
    {
      ListedLists(records, includeDeleted);
      r := Sort(Select(records.Values(), Visible(includeDeleted)), Recency());
    }

    /** The loop over the dictionary, then the ranking sort and the cut. */
    method Search(q: Query, matches: TextMatch) returns (r: seq<MemoryRecord>)
      requires Valid()
      ensures r == Found(records, q, matches) && Answers(records, q, matches, r)
    {
      FoundAnswers(records, q, matches);
      var values, keep := records.Values(), Both(Visible(q.includeDeleted), WantedBy(q, matches));
      var results := [];
      for i := 0 to |values|
        invariant results == Select(values[..i], keep)
      {
        SelectSnoc(values[..i], values[i], keep);
        assert values[..i + 1] == values[..i] + [values[i]];
        if !values[i].Live() && !q.includeDeleted {
          continue;
        }
        if !Wanted(q, matches, values[i]) {
          continue;
        }
        results := results + [values[i]];
      }
      assert values[..|values|] == values;
      r := Cut(Sort(results, Ranking()), q.limit);
    }

    method WriteNote(name: string, content: string, newId: string, now: int) returns (r: Option<MemoryRecord>)
      requires Valid()
      modifies this
      ensures Valid()
      ensures r.None? <==> Strip(name) == ""
      ensures match AfterWriteNote(old(Contents()), name, content, newId, now)
              case None => Contents() == old(Contents())
              case Some(s) => Contents() == s
    {
      var noteName := Strip(name);
      if noteName == "" {
        return None;
      }
      if noteName in noteIndex && noteIndex[noteName] != "" {
        var id := noteIndex[noteName];
        if id in records.records && records.records[id].Live() {
          var existing := records.records[id].(content := content, updatedAt := now);
          records := records.Put(existing);
          return Some(existing);
        }
      }
      var written := Write(NewNote(noteName, content, newId, now), now);
      r := Some(written);
    }
  }
}

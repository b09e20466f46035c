/**
 The append-log store (agent_core/memory/file_store.py). The records file is the sequence `rows`;
 its meaning is the dictionary `Load(rows)`.
 */
module FileStore {
  import opened Wrappers
  import opened StringOrder
  import opened StableSort
  import opened Text
  import opened MemoryModel
  import opened SearchMeaning

  /** A row replaces the loaded record of its id unless it is stamped earlier. */
  function LoadStep(d: Dict, row: MemoryRecord): (e: Dict)
    ensures d.Valid() ==> e.Valid()
  {
    if row.id !in d.records || row.updatedAt >= d.records[row.id].updatedAt then d.Put(row) else d
  }

  function Load(rows: seq<MemoryRecord>): (d: Dict)
    ensures d.Valid()
  {
    if rows == [] then EMPTY else LoadStep(Load(rows[..|rows| - 1]), rows[|rows| - 1])
  }

  lemma LoadAppend(rows: seq<MemoryRecord>, row: MemoryRecord)
    ensures Load(rows + [row]) == LoadStep(Load(rows), row)
  {
    assert (rows + [row])[..|rows|] == rows;
  }

  lemma LoadNext(rows: seq<MemoryRecord>, i: nat)
    requires i < |rows|
    ensures Load(rows[..i + 1]) == LoadStep(Load(rows[..i]), rows[i])
  {
    LoadAppend(rows[..i], rows[i]);
    assert rows[..i + 1] == rows[..i] + [rows[i]];
  }

  /** The first `n` entries of a dictionary. */
  ghost function Prefix(d: Dict, n: nat): Dict
    requires d.Valid() && n <= |d.keys|
  {
    Dict(d.keys[..n], map k | k in d.keys[..n] :: d.records[k])
  }

  lemma PrefixStep(d: Dict, n: nat)
    requires d.Valid() && n < |d.keys|
    ensures LoadStep(Prefix(d, n), d.records[d.keys[n]]) == Prefix(d, n + 1)
  {
    var row := d.records[d.keys[n]];
    assert row.id == d.keys[n] && d.keys[n] !in d.keys[..n];
    assert d.keys[..n + 1] == d.keys[..n] + [d.keys[n]];
    assert Prefix(d, n).records[row.id := row] == Prefix(d, n + 1).records;
  }

  lemma {:induction false} LoadPrefix(rows: seq<MemoryRecord>, d: Dict, n: nat)
    requires d.Valid() && n <= |d.keys| == |rows|
    requires forall i :: 0 <= i < |rows| ==> rows[i] == d.records[d.keys[i]]
    ensures Load(rows[..n]) == Prefix(d, n)
  {
    if n == 0 {
      assert Prefix(d, 0).records == map[];
    } else {
      LoadPrefix(rows, d, n - 1);
      LoadNext(rows, n - 1);
      PrefixStep(d, n - 1);
    }
  }

  lemma PrefixAll(d: Dict)
    requires d.Valid()
    ensures Prefix(d, |d.keys|) == d
  {
    assert d.keys[..|d.keys|] == d.keys;
    assert Prefix(d, |d.keys|).records == d.records;
  }

  /** Rewriting the log as one row per id, in order, loads as the same dictionary. */
  lemma CompactionPreserves(d: Dict)
    requires d.Valid()
    ensures Load(d.Values()) == d
  {
    LoadPrefix(d.Values(), d, |d.keys|);
    PrefixAll(d);
    assert d.Values()[..|d.keys|] == d.Values();
  }

  /** Appending a row is exactly a dictionary update unless a later stamp is already stored for its id. */
  lemma AppendIsUpdate(rows: seq<MemoryRecord>, row: MemoryRecord)
    ensures Load(rows + [row]) == Load(rows).Put(row) <==>
      row.id !in Load(rows).records || row.updatedAt >= Load(rows).records[row.id].updatedAt
  {
    LoadAppend(rows, row);
    var d := Load(rows);
    if row.id in d.records && row.updatedAt < d.records[row.id].updatedAt {
      assert d.Put(row).records[row.id] == row;
    }
  }

  function ContentPatch(content: string): Patch {
    Patch(Some(content), None, None, None, None, None, None, map[])
  }

  function NamedNote(name: string): MemoryRecord -> bool {
    (r: MemoryRecord) => IsNamedNote(r, name)
  }

  /** `_latest_note_by_name`: the most recent live note of that name. */
  function LatestNote(d: Dict, name: string): Option<MemoryRecord>
    requires d.Valid()
  {
    var candidates := Sort(Select(Listed(d, false), NamedNote(name)), Recency());
    if candidates == [] then None else Some(candidates[0])
  }

  /** `write_note` for a name that is not blank. */
  function NoteWritten(d: Dict, name: string, content: string, newId: string, now: int): Dict
    requires d.Valid()
  {
    match LatestNote(d, name)
    case Some(note) => Updated(d, note.id, ContentPatch(content), now)
    case None => LoadStep(d, NewNote(name, content, newId, now).(updatedAt := now))
  }

  /** `read_note`. */
  function FileReadNote(d: Dict, name: string): Option<string>
    requires d.Valid()
  {
    if Strip(name) == "" then None
    else match LatestNote(d, Strip(name)) case Some(r) => Some(r.content) case None => None
  }

  function NamesIn(listing: seq<MemoryRecord>): set<string> {
    set r | r in listing && r.kind == Note && NoteName(r).Some? :: NoteName(r).value
  }

  lemma NamesInSnoc(listing: seq<MemoryRecord>, r: MemoryRecord)
    ensures NamesIn(listing + [r]) ==
      NamesIn(listing) + if r.kind == Note && NoteName(r).Some? then {NoteName(r).value} else {}
  {
    forall n | n in NamesIn(listing) ensures n in NamesIn(listing + [r]) {
      var q :| q in listing && q.kind == Note && NoteName(q) == Some(n);
      assert q in listing + [r];
    }
    assert r in listing + [r];
  }

  function FileNoteNames(d: Dict): set<string>
    requires d.Valid()
  {
    NamesIn(Listed(d, false))
  }

  /** `list_notes`. */
  function FileListNotes(d: Dict): seq<string>
    requires d.Valid()
  {
    SortedOf(FileNoteNames(d))
  }

  method CollectNames(listing: seq<MemoryRecord>) returns (names: set<string>)
    ensures names == NamesIn(listing)
  {
    names := {};
    for i := 0 to |listing|
      invariant names == NamesIn(listing[..i])
    {
      NamesInSnoc(listing[..i], listing[i]);
      assert listing[..i + 1] == listing[..i] + [listing[i]];
      if listing[i].kind == Note {
        var name := NoteName(listing[i]);
        if name.Some? {
          names := names + {name.value};
        }
      }
    }
    assert listing[..|listing|] == listing;
  }

  class FileMemoryStore {
    var rows: seq<MemoryRecord>

    ghost function Contents(): Dict
      reads this
    {
      Load(rows)
    }

    constructor ()
      ensures rows == [] && Contents() == EMPTY
    {
      rows := [];
    }

    method LoadLatestRecords() returns (records: Dict)
      ensures records == Contents()
    {
      records := EMPTY;
      var i := 0;
      while i < |rows|
        invariant i <= |rows| && records == Load(rows[..i])
      {
        LoadNext(rows, i);
        records := LoadStep(records, rows[i]);
        i := i + 1;
      }
      assert rows[..|rows|] == rows;
    }

    /** `_rewrite_records`. */
    method RewriteRecords(records: Dict)
      requires records.Valid()
      modifies this
      ensures rows == records.Values() && Contents() == records
    {
      rows := records.Values();
      CompactionPreserves(records);
    }

    method Write(record: MemoryRecord, now: int) returns (stamped: MemoryRecord)
      modifies this
      ensures stamped == record.(updatedAt := now)
      ensures Contents() == LoadStep(old(Contents()), stamped)
    {
      stamped := record.(updatedAt := now);
      LoadAppend(rows, stamped);
      rows := rows + [stamped];
    }

    method Get(id: string) returns (r: Option<MemoryRecord>)
      ensures r == Got(Contents(), id)
    {
      var records := LoadLatestRecords();
      if id !in records.records || !records.records[id].Live() {
        return None;
      }
      r := Some(records.records[id]);
    }

    method Update(id: string, patch: Patch, now: int) returns (r: Option<MemoryRecord>)
      modifies this
      ensures Contents() == Updated(old(Contents()), id, patch, now)
      ensures r == if HasLive(old(Contents()), id) then Some(Contents().records[id]) else None
      ensures r.Some? ==> PatchApplied(old(Contents()).records[id], patch, now, r.value)
    {
      UpdateMeaning(Contents(), id, patch, now);
      var records := LoadLatestRecords();
      if id !in records.records || !records.records[id].Live() {
        return None;
      }
      var record := Patched(records.records[id], patch).(updatedAt := now);
      RewriteRecords(records.Put(record));
      r := Some(record);
    }

    method Delete(id: string, reason: string, now: int) returns (done: bool)
      modifies this
      ensures Contents() == Removed(old(Contents()), id, reason, now)
      ensures done <==> HasLive(old(Contents()), id)
    {
      var records := LoadLatestRecords();
      if id !in records.records || !records.records[id].Live() {
        return false;
      }
      RewriteRecords(records.Put(Deleted(records.records[id], reason, now)));
      done := true;
    }

    method ListAll(includeDeleted: bool) returns (r: seq<MemoryRecord>)
      ensures r == Listed(Contents(), includeDeleted) && Lists(Contents(), includeDeleted, r)
    {
      ListedLists(Contents(), includeDeleted);
      var records := LoadLatestRecords();
      r := Sort(Select(records.Values(), Visible(includeDeleted)), Recency());
    }

    /** The loop over the sorted listing, then the ranking sort and the cut. */
    method Search(q: Query, matches: TextMatch) returns (r: seq<MemoryRecord>)
      ensures r == Found(Contents(), q, matches) && Answers(Contents(), q, matches, r)
    {
      var listing := ListAll(q.includeDeleted);
      var results := Matching(listing, q, matches);
      r := Cut(Sort(results, Ranking()), q.limit);
      SearchThroughListing(Contents(), q, matches);
      FoundAnswers(Contents(), q, matches);
    }

    /** The loop over the listing. */
    static method Matching(listing: seq<MemoryRecord>, q: Query, matches: TextMatch) returns (results: seq<MemoryRecord>)
      ensures results == Select(listing, WantedBy(q, matches))
    {
      results := [];
      for i := 0 to |listing|
        invariant results == Select(listing[..i], WantedBy(q, matches))
      {
        SelectSnoc(listing[..i], listing[i], WantedBy(q, matches));
        assert listing[..i + 1] == listing[..i] + [listing[i]];
        if !Wanted(q, matches, listing[i]) {
          continue;
        }
        results := results + [listing[i]];
      }
      assert listing[..|listing|] == listing;
    }

    method LatestNoteByName(name: string) returns (r: Option<MemoryRecord>)
      ensures r == LatestNote(Contents(), name)
    {
      var listing := ListAll(false);
      var candidates := Sort(Select(listing, NamedNote(name)), Recency());
      r := if candidates == [] then None else Some(candidates[0]);
    }

    /** A blank name raises (None); an existing note is updated, a new one is appended. */
    method WriteNote(name: string, content: string, newId: string, now: int) returns (r: Option<MemoryRecord>)
      modifies this
      ensures r.None? <==> Strip(name) == ""
      ensures r.None? ==> Contents() == old(Contents())
      ensures r.Some? ==> Contents() == NoteWritten(old(Contents()), Strip(name), content, newId, now)
    {
      if Strip(name) == "" {
        return None;
      }
      var existing := LatestNoteByName(Strip(name));
      if existing.Some? {
        var updated := Update(existing.value.id, ContentPatch(content), now);
        return if updated.Some? then updated else existing;
      }
      var written := Write(NewNote(Strip(name), content, newId, now), now);
      r := Some(written);
    }

    method ReadNote(name: string) returns (r: Option<string>)
      ensures r == FileReadNote(Contents(), name)
    {
      if Strip(name) == "" {
        return None;
      }
      var note := LatestNoteByName(Strip(name));
      r := if note.Some? then Some(note.value.content) else None;
    }

    method ListNotes() returns (r: seq<string>)
      ensures r == FileListNotes(Contents())
    {
      var listing := ListAll(false);
      var names := CollectNames(listing);
      r := SortedOf(names);
    }
  }
}

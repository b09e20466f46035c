/**
 Memory records, Python's insertion-ordered dictionary of them, and the meaning of the store
 operations on such a dictionary. The clock is the parameter `now`.
 */
module MemoryModel {
  import opened Wrappers
  import opened StableSort
  import opened Text

  datatype MemoryType =
    | Note | Fact | Preference | DecisionMemo | Rule | TaskSummary | Source | Lesson | ProjectContext

  datatype MemoryRecord = MemoryRecord(
    id: string, content: string, kind: MemoryType, userId: Option<string>, sessionId: Option<string>,
    tags: seq<string>, importance: real, createdAt: int, updatedAt: int, deletedAt: Option<int>,
    metadata: map<string, string>)
  {
    predicate Live() { deletedAt.None? }
  }

  /** A typed patch: a field is patched when it is given; metadata is merged. */
  datatype Patch = Patch(
    content: Option<string>, kind: Option<MemoryType>, userId: Option<Option<string>>,
    sessionId: Option<Option<string>>, tags: Option<seq<string>>, importance: Option<real>,
    deletedAt: Option<Option<int>>, metadata: map<string, string>)

  function Or<T>(patched: Option<T>, kept: T): T {
    match patched case Some(v) => v case None => kept
  }

  /** The patch loop of `update`: `id` and `created_at` never change. */
  function Patched(r: MemoryRecord, p: Patch): MemoryRecord {
    r.(content := Or(p.content, r.content), kind := Or(p.kind, r.kind), userId := Or(p.userId, r.userId),
       sessionId := Or(p.sessionId, r.sessionId), tags := Or(p.tags, r.tags),
       importance := Or(p.importance, r.importance), deletedAt := Or(p.deletedAt, r.deletedAt),
       metadata := r.metadata + p.metadata)
  }

  function Deleted(r: MemoryRecord, reason: string, now: int): MemoryRecord {
    r.(metadata := if reason == "" then r.metadata else r.metadata["delete_reason" := reason],
       deletedAt := Some(now), updatedAt := now)
  }

  // --- Insertion-ordered dictionaries keyed by record id ---

  datatype Dict = Dict(keys: seq<string>, records: map<string, MemoryRecord>) {

    /** Every key once, in first-insertion order, and each record under its own id. */
    ghost predicate Valid() {
      && (forall i, j :: 0 <= i < j < |keys| ==> keys[i] != keys[j])
      && (forall k :: k in keys <==> k in records)
      && (forall k :: k in records ==> records[k].id == k)
    }

    function Put(r: MemoryRecord): (d: Dict)
      ensures Valid() ==> d.Valid()
      ensures d.records == records[r.id := r]
    {
      Dict(if r.id in records then keys else keys + [r.id], records[r.id := r])
    }

    function Values(): (vs: seq<MemoryRecord>)
      requires Valid()
      ensures |vs| == |keys|
      ensures forall i :: 0 <= i < |keys| ==> vs[i] == records[keys[i]]
    {
      seq(|keys|, i requires 0 <= i < |keys| => records[keys[i]])
    }
  }

  const EMPTY := Dict([], map[])

  // --- Operations ---

  function Written(d: Dict, r: MemoryRecord, now: int): Dict {
    d.Put(r.(updatedAt := now))
  }

  predicate HasLive(d: Dict, id: string) {
    id in d.records && d.records[id].Live()
  }

  function Updated(d: Dict, id: string, p: Patch, now: int): Dict {
    if HasLive(d, id) then d.Put(Patched(d.records[id], p).(updatedAt := now)) else d
  }

  function Removed(d: Dict, id: string, reason: string, now: int): Dict {
    if HasLive(d, id) then d.Put(Deleted(d.records[id], reason, now)) else d
  }

  // --- Notes ---

  /** `_note_name`: the stripped, non-empty name of a record. */
  function NoteName(r: MemoryRecord): Option<string> {
    if "name" in r.metadata && Strip(r.metadata["name"]) != "" then Some(Strip(r.metadata["name"])) else None
  }

  predicate IsNamedNote(r: MemoryRecord, name: string) {
    r.kind == Note && r.Live() && NoteName(r) == Some(name)
  }

  function NewNote(name: string, content: string, id: string, now: int): MemoryRecord {
    MemoryRecord(id, content, Note, None, None, [], 0.5, now, now, None, map["name" := name])
  }

  // --- Queries ---

  function Got(d: Dict, id: string): Option<MemoryRecord> {
    if HasLive(d, id) then Some(d.records[id]) else None
  }

  /** A query; `text` is already lower-cased and stripped. An empty string, like None, asks for nothing. */
  datatype Query = Query(
    text: string, userId: Option<string>, sessionId: Option<string>, types: seq<MemoryType>,
    tags: seq<string>, includeDeleted: bool, limit: int)

  type TextMatch = (MemoryRecord, string) -> bool

  predicate Asked(wanted: Option<string>, actual: Option<string>) {
    wanted.Some? && wanted.value != "" ==> actual == wanted
  }

  predicate Wanted(q: Query, matches: TextMatch, r: MemoryRecord) {
    && Asked(q.userId, r.userId) && Asked(q.sessionId, r.sessionId)
    && (q.types != [] ==> r.kind in q.types)
    && (q.tags != [] ==> exists t :: t in q.tags && t in r.tags)
    && (q.text != "" ==> matches(r, q.text))
  }

  function Visible(includeDeleted: bool): MemoryRecord -> bool {
    (r: MemoryRecord) => includeDeleted || r.Live()
  }

  function WantedBy(q: Query, matches: TextMatch): MemoryRecord -> bool {
    (r: MemoryRecord) => Wanted(q, matches, r)
  }

  /** `key=lambda item: item.updated_at`. */
  function Recency(): MemoryRecord -> Key {
    (r: MemoryRecord) => Key(0.0, r.updatedAt)
  }

  /** `key=lambda item: (item.importance, item.updated_at)`. */
  function Ranking(): MemoryRecord -> Key {
    (r: MemoryRecord) => Key(r.importance, r.updatedAt)
  }

  /** `xs[:limit]`, where a negative limit counts from the end. */
  function Cut(xs: seq<MemoryRecord>, limit: int): seq<MemoryRecord> {
    if limit < -|xs| then [] else if limit < 0 then xs[..|xs| + limit]
    else if limit < |xs| then xs[..limit] else xs
  }

  function Listed(d: Dict, includeDeleted: bool): seq<MemoryRecord>
    requires d.Valid()
  {
    Sort(Select(d.Values(), Visible(includeDeleted)), Recency())
  }

  /** Filter, rank, cut. */
  function Found(d: Dict, q: Query, matches: TextMatch): seq<MemoryRecord>
    requires d.Valid()
  {
    Cut(Sort(Select(d.Values(), Both(Visible(q.includeDeleted), WantedBy(q, matches))), Ranking()), q.limit)
  }

  /** Filter, rank and cut of the already sorted listing, as the file store does it. */
  function FoundInListing(d: Dict, q: Query, matches: TextMatch): seq<MemoryRecord>
    requires d.Valid()
  {
    Cut(Sort(Select(Listed(d, q.includeDeleted), WantedBy(q, matches)), Ranking()), q.limit)
  }

  /** Searching the sorted listing gives the same results, in the same order, as searching the dictionary. */
  lemma SearchThroughListing(d: Dict, q: Query, matches: TextMatch)
    requires d.Valid()
    ensures FoundInListing(d, q, matches) == Found(d, q, matches)
  {
    var visible := Select(d.Values(), Visible(q.includeDeleted));
    ResortForgets(visible, Recency(), Ranking(), WantedBy(q, matches));
    SelectTwice(d.Values(), Visible(q.includeDeleted), WantedBy(q, matches));
  }
}

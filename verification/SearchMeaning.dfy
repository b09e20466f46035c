/**
 What `search`, `list_all` and `update` answer, in terms of the stored records and the fields of the
 query: which records are hits, in which order, and how many of them are returned.
 */
module SearchMeaning {
  import opened Wrappers
  import opened StableSort
  import opened MemoryModel

  // --- Hits and their order ---

  /** The record is visible, and user, session, type, tag and text each match when they are asked for. */
  predicate Hit(q: Query, matches: TextMatch, r: MemoryRecord) {
    && (r.deletedAt == None || q.includeDeleted)
    && (q.userId == None || q.userId == Some("") || r.userId == q.userId)
    && (q.sessionId == None || q.sessionId == Some("") || r.sessionId == q.sessionId)
    && (|q.types| == 0 || r.kind in q.types)
    && (|q.tags| == 0 || exists i :: 0 <= i < |r.tags| && r.tags[i] in q.tags)
    && (|q.text| == 0 || matches(r, q.text))
  }

  /** `a` was first stored before `b`. */
  predicate StoredBefore(d: Dict, a: string, b: string) {
    exists p, q :: 0 <= p < q < |d.keys| && d.keys[p] == a && d.keys[q] == b
  }

  /** More important, or as important and updated later, or equal in both and stored earlier. */
  predicate RankedBefore(d: Dict, a: MemoryRecord, b: MemoryRecord) {
    || a.importance > b.importance
    || (a.importance == b.importance && a.updatedAt > b.updatedAt)
    || (a.importance == b.importance && a.updatedAt == b.updatedAt && StoredBefore(d, a.id, b.id))
  }

  /** Updated later, or at the same time and stored earlier. */
  predicate NewerBefore(d: Dict, a: MemoryRecord, b: MemoryRecord) {
    a.updatedAt > b.updatedAt || (a.updatedAt == b.updatedAt && StoredBefore(d, a.id, b.id))
  }

  predicate IsStored(d: Dict, r: MemoryRecord) {
    r.id in d.records && d.records[r.id] == r
  }

  /** All hits, each once, in ranking order. */
  ghost predicate AllHits(d: Dict, q: Query, matches: TextMatch, hits: seq<MemoryRecord>) {
    && (forall r :: r in hits <==> IsStored(d, r) && Hit(q, matches, r))
    && (forall i, j :: 0 <= i < j < |hits| ==> RankedBefore(d, hits[i], hits[j]))
  }

  /** The first `limit` of them; a negative limit leaves out that many at the end. */
  predicate Limited(all: seq<MemoryRecord>, limit: int, some: seq<MemoryRecord>) {
    && some <= all
    && |some| == if limit >= |all| then |all| else if limit >= 0 then limit else if |all| + limit > 0 then |all| + limit else 0
  }

  ghost predicate Answers(d: Dict, q: Query, matches: TextMatch, result: seq<MemoryRecord>) {
    exists hits :: AllHits(d, q, matches, hits) && Limited(hits, q.limit, result)
  }

  ghost predicate Lists(d: Dict, includeDeleted: bool, result: seq<MemoryRecord>) {
    && (forall r :: r in result <==> IsStored(d, r) && (r.deletedAt == None || includeDeleted))
    && (forall i, j :: 0 <= i < j < |result| ==> NewerBefore(d, result[i], result[j]))
  }

  // --- A stable sort keeps the old order within a key ---

  predicate Before<T(==)>(xs: seq<T>, a: T, b: T) {
    exists p, q :: 0 <= p < q < |xs| && xs[p] == a && xs[q] == b
  }

  /** Strictly greater key, or the same key and the old order. */
  predicate Ahead<T(==)>(xs: seq<T>, key: T -> Key, a: T, b: T) {
    Geq(key(a), key(b)) && (key(a) == key(b) ==> Before(xs, a, b))
  }

  predicate InOrder<T(==)>(xs: seq<T>, ys: seq<T>, key: T -> Key) {
    forall i, j :: 0 <= i < j < |ys| ==> Ahead(xs, key, ys[i], ys[j])
  }

  lemma BeforeTail<T(!new)>(x: T, xs: seq<T>, a: T, b: T)
    requires Before(xs, a, b)
    ensures Before([x] + xs, a, b)
  {
    var p, q :| 0 <= p < q < |xs| && xs[p] == a && xs[q] == b;
    assert ([x] + xs)[p + 1] == a && ([x] + xs)[q + 1] == b;
  }

  lemma BeforeHead<T(!new)>(x: T, xs: seq<T>, b: T)
    requires b in xs
    ensures Before([x] + xs, x, b)
  {
    var q :| 0 <= q < |xs| && xs[q] == b;
    assert ([x] + xs)[0] == x && ([x] + xs)[q + 1] == b;
  }

  lemma {:induction false} InsertInOrder<T(!new)>(x: T, xs: seq<T>, ys: seq<T>, key: T -> Key)
    requires InOrder(xs, ys, key) && forall y :: y in ys ==> y in xs
    ensures InOrder([x] + xs, Insert(x, ys, key), key)
  {
    forall i, j | 0 <= i < j < |ys| ensures Ahead([x] + xs, key, ys[i], ys[j]) {
      if key(ys[i]) == key(ys[j]) { BeforeTail(x, xs, ys[i], ys[j]); }
    }
    if ys == [] {
    } else if Geq(key(x), key(ys[0])) {
      forall j | 0 <= j < |ys| ensures Ahead([x] + xs, key, x, ys[j]) {
        assert j > 0 ==> Ahead(xs, key, ys[0], ys[j]);
        BeforeHead(x, xs, ys[j]);
      }
    } else {
      var rest := Insert(x, ys[1..], key);
      assert forall i, j :: 0 <= i < j < |ys[1..]| ==> ys[1..][i] == ys[i + 1] && ys[1..][j] == ys[j + 1];
      InsertInOrder(x, xs, ys[1..], key);
      InsertMembers(x, ys[1..], key);
      forall j | 0 <= j < |rest| ensures Ahead([x] + xs, key, ys[0], rest[j]) {
        HeadAhead(x, xs, ys, key, rest[j]);
      }
    }
  }

  lemma HeadAhead<T(!new)>(x: T, xs: seq<T>, ys: seq<T>, key: T -> Key, z: T)
    requires ys != [] && !Geq(key(x), key(ys[0])) && (z == x || z in ys[1..])
    requires forall i, j :: 0 <= i < j < |ys| ==> Ahead([x] + xs, key, ys[i], ys[j])
    ensures Ahead([x] + xs, key, ys[0], z)
  {
    if z in ys[1..] {
      var k :| 0 <= k < |ys[1..]| && ys[1..][k] == z;
      assert ys[k + 1] == z;
    }
  }

  lemma {:induction false} SortInOrder<T(!new)>(xs: seq<T>, key: T -> Key)
    ensures InOrder(xs, Sort(xs, key), key)
  {
    if xs != [] {
      SortInOrder(xs[1..], key);
      SortDescending(xs[1..], key);
      InsertInOrder(xs[0], xs[1..], Sort(xs[1..], key), key);
      assert [xs[0]] + xs[1..] == xs;
    }
  }

  lemma {:induction false} SelectBefore<T(!new)>(xs: seq<T>, keep: T -> bool, a: T, b: T)
    requires Before(Select(xs, keep), a, b)
    ensures Before(xs, a, b)
  {
    var rest := Select(xs[1..], keep);
    assert [xs[0]] + xs[1..] == xs;
    if keep(xs[0]) {
      var p, q :| 0 <= p < q < |Select(xs, keep)| && Select(xs, keep)[p] == a && Select(xs, keep)[q] == b;
      assert rest[q - 1] == b;
      if p == 0 {
        SelectMembers(xs[1..], keep);
        assert b in rest;
        BeforeHead(xs[0], xs[1..], b);
      } else {
        assert rest[p - 1] == a;
        SelectBefore(xs[1..], keep, a, b);
        BeforeTail(xs[0], xs[1..], a, b);
      }
    } else {
      assert Select(xs, keep) == rest;
      SelectBefore(xs[1..], keep, a, b);
      BeforeTail(xs[0], xs[1..], a, b);
    }
  }

  // --- The stores' functions give these answers ---

  lemma ValuesBefore(d: Dict, a: MemoryRecord, b: MemoryRecord)
    requires d.Valid() && Before(d.Values(), a, b)
    ensures StoredBefore(d, a.id, b.id)
  {
    var p, q :| 0 <= p < q < |d.Values()| && d.Values()[p] == a && d.Values()[q] == b;
    assert d.keys[p] in d.records && d.keys[q] in d.records;
  }

  lemma ValuesStored(d: Dict, r: MemoryRecord)
    requires d.Valid()
    ensures r in d.Values() <==> IsStored(d, r)
  {
    if r in d.Values() {
      var i :| 0 <= i < |d.keys| && d.Values()[i] == r;
      assert d.keys[i] in d.records;
    }
    if IsStored(d, r) {
      var i :| 0 <= i < |d.keys| && d.keys[i] == r.id;
      assert d.Values()[i] == r;
    }
  }

  lemma HitIsWanted(q: Query, matches: TextMatch, r: MemoryRecord)
    ensures Both(Visible(q.includeDeleted), WantedBy(q, matches))(r) <==> Hit(q, matches, r)
  {
    if exists i :: 0 <= i < |r.tags| && r.tags[i] in q.tags {
      var i :| 0 <= i < |r.tags| && r.tags[i] in q.tags;
      assert r.tags[i] in r.tags;
    }
  }

  lemma RankingMeans(d: Dict, xs: seq<MemoryRecord>, a: MemoryRecord, b: MemoryRecord)
    requires d.Valid() && Ahead(xs, Ranking(), a, b) && (Before(xs, a, b) ==> Before(d.Values(), a, b))
    ensures RankedBefore(d, a, b)
  {
    if Ranking()(a) == Ranking()(b) { ValuesBefore(d, a, b); }
  }

  lemma RecencyMeans(d: Dict, xs: seq<MemoryRecord>, a: MemoryRecord, b: MemoryRecord)
    requires d.Valid() && Ahead(xs, Recency(), a, b) && (Before(xs, a, b) ==> Before(d.Values(), a, b))
    ensures NewerBefore(d, a, b)
  {
    if Recency()(a) == Recency()(b) { ValuesBefore(d, a, b); }
  }

  function AllFound(d: Dict, q: Query, matches: TextMatch): seq<MemoryRecord>
    requires d.Valid()
  {
    Sort(Select(d.Values(), Both(Visible(q.includeDeleted), WantedBy(q, matches))), Ranking())
  }

  lemma FoundHits(d: Dict, q: Query, matches: TextMatch)
    requires d.Valid()
    ensures AllHits(d, q, matches, AllFound(d, q, matches))
  {
    var keep := Both(Visible(q.includeDeleted), WantedBy(q, matches));
    var chosen, hits := Select(d.Values(), keep), AllFound(d, q, matches);
    SelectMembers(d.Values(), keep);
    SortDescending(chosen, Ranking());
    SortInOrder(chosen, Ranking());
    forall r ensures r in hits <==> IsStored(d, r) && Hit(q, matches, r) {
      ValuesStored(d, r);
      HitIsWanted(q, matches, r);
    }
    forall i, j | 0 <= i < j < |hits| ensures RankedBefore(d, hits[i], hits[j]) {
      if Before(chosen, hits[i], hits[j]) { SelectBefore(d.Values(), keep, hits[i], hits[j]); }
      RankingMeans(d, chosen, hits[i], hits[j]);
    }
  }

  lemma CutLimits(all: seq<MemoryRecord>, limit: int)
    ensures Limited(all, limit, Cut(all, limit))
  {
  }

  /** `search` answers with the hits, ranked and limited. */
  lemma FoundAnswers(d: Dict, q: Query, matches: TextMatch)
    requires d.Valid()
    ensures Answers(d, q, matches, Found(d, q, matches))
  {
    FoundHits(d, q, matches);
    CutLimits(AllFound(d, q, matches), q.limit);
  }

  /** `list_all` lists the visible records, latest first. */
  lemma ListedLists(d: Dict, includeDeleted: bool)
    requires d.Valid()
    ensures Lists(d, includeDeleted, Listed(d, includeDeleted))
  {
    var keep := Visible(includeDeleted);
    var chosen, result := Select(d.Values(), keep), Listed(d, includeDeleted);
    SelectMembers(d.Values(), keep);
    SortDescending(chosen, Recency());
    SortInOrder(chosen, Recency());
    forall r ensures r in result <==> IsStored(d, r) && (r.deletedAt == None || includeDeleted) {
      ValuesStored(d, r);
    }
    forall i, j | 0 <= i < j < |result| ensures NewerBefore(d, result[i], result[j]) {
      if Before(chosen, result[i], result[j]) { SelectBefore(d.Values(), keep, result[i], result[j]); }
      RecencyMeans(d, chosen, result[i], result[j]);
    }
  }

  // --- One answer only ---

  lemma StoredBeforeOnce(d: Dict, a: string, b: string)
    requires d.Valid() && StoredBefore(d, a, b)
    ensures !StoredBefore(d, b, a) && a != b
  {
  }

  lemma RankedBeforeOnce(d: Dict, a: MemoryRecord, b: MemoryRecord)
    requires d.Valid() && RankedBefore(d, a, b)
    ensures !RankedBefore(d, b, a) && a != b
  {
    if StoredBefore(d, a.id, b.id) { StoredBeforeOnce(d, a.id, b.id); }
    if StoredBefore(d, b.id, a.id) { StoredBeforeOnce(d, b.id, a.id); }
  }

  lemma {:induction false} RankingUnique(d: Dict, xs: seq<MemoryRecord>, ys: seq<MemoryRecord>)
    requires d.Valid() && forall r :: r in xs <==> r in ys
    requires forall i, j :: 0 <= i < j < |xs| ==> RankedBefore(d, xs[i], xs[j])
    requires forall i, j :: 0 <= i < j < |ys| ==> RankedBefore(d, ys[i], ys[j])
    ensures xs == ys
  {
    if xs == [] {
      NonEmptyHasMember(ys);
    } else {
      assert xs[0] in ys;
      var k :| 0 <= k < |ys| && ys[k] == xs[0];
      assert ys[0] in xs;
      var l :| 0 <= l < |xs| && xs[l] == ys[0];
      if k > 0 && l > 0 {
        RankedBeforeOnce(d, ys[0], ys[k]);
      }
      assert xs[0] == ys[0];
      forall r ensures r in xs[1..] <==> r in ys[1..] {
        TailMembers(d, xs, r);
        TailMembers(d, ys, r);
      }
      RankingUnique(d, xs[1..], ys[1..]);
    }
  }

  lemma TailMembers(d: Dict, xs: seq<MemoryRecord>, r: MemoryRecord)
    requires d.Valid() && xs != [] && forall i, j :: 0 <= i < j < |xs| ==> RankedBefore(d, xs[i], xs[j])
    ensures r in xs[1..] <==> r in xs && r != xs[0]
  {
    if r in xs[1..] {
      var k :| 0 <= k < |xs[1..]| && xs[1..][k] == r;
      RankedBeforeOnce(d, xs[0], xs[k + 1]);
    }
  }

  /** The query and the records determine the answer. */
  lemma AnswerUnique(d: Dict, q: Query, matches: TextMatch, a: seq<MemoryRecord>, b: seq<MemoryRecord>)
    requires d.Valid() && Answers(d, q, matches, a) && Answers(d, q, matches, b)
    ensures a == b
  {
    var xs :| AllHits(d, q, matches, xs) && Limited(xs, q.limit, a);
    var ys :| AllHits(d, q, matches, ys) && Limited(ys, q.limit, b);
    RankingUnique(d, xs, ys);
    assert a == xs[..|a|] && b == ys[..|b|];
  }

  // --- What `update` and `delete` change ---

  /** Given fields are replaced, metadata is merged with the patch winning, and id and creation time stay. */
  ghost predicate PatchApplied(old': MemoryRecord, p: Patch, now: int, r: MemoryRecord) {
    && r.id == old'.id && r.createdAt == old'.createdAt && r.updatedAt == now
    && r.content == (if p.content.Some? then p.content.value else old'.content)
    && r.kind == (if p.kind.Some? then p.kind.value else old'.kind)
    && r.userId == (if p.userId.Some? then p.userId.value else old'.userId)
    && r.sessionId == (if p.sessionId.Some? then p.sessionId.value else old'.sessionId)
    && r.tags == (if p.tags.Some? then p.tags.value else old'.tags)
    && r.importance == (if p.importance.Some? then p.importance.value else old'.importance)
    && r.deletedAt == (if p.deletedAt.Some? then p.deletedAt.value else old'.deletedAt)
    && (forall k :: k in r.metadata <==> k in p.metadata || k in old'.metadata)
    && (forall k :: k in r.metadata ==> r.metadata[k] == if k in p.metadata then p.metadata[k] else old'.metadata[k])
  }

  /** A live record is patched in place; nothing else changes. */
  lemma UpdateMeaning(d: Dict, id: string, p: Patch, now: int)
    requires d.Valid()
    ensures var e := Updated(d, id, p, now);
      && e.Valid() && e.keys == d.keys
      && (forall x :: x in d.records && x != id ==> e.records[x] == d.records[x])
      && (id in d.records && d.records[id].deletedAt.None? ==> PatchApplied(d.records[id], p, now, e.records[id]))
      && (id in d.records && d.records[id].deletedAt.Some? ==> e.records[id] == d.records[id])
  {
  }

  /** A live record is marked deleted now, with the reason unless it is empty; nothing else changes. */
  lemma DeleteMeaning(d: Dict, id: string, reason: string, now: int)
    requires d.Valid()
    ensures var e := Removed(d, id, reason, now);
      && e.Valid() && e.keys == d.keys
      && (forall x :: x in d.records && x != id ==> e.records[x] == d.records[x])
      && (id in d.records && d.records[id].deletedAt.Some? ==> e.records[id] == d.records[id])
      && (id in d.records && d.records[id].deletedAt.None? ==>
            e.records[id] == d.records[id].(deletedAt := Some(now), updatedAt := now, metadata := e.records[id].metadata))
      && (id in d.records && d.records[id].deletedAt.None? ==>
            e.records[id].metadata == if |reason| == 0 then d.records[id].metadata
                                      else d.records[id].metadata + map["delete_reason" := reason])
  {
  }

  /** A written record replaces the one of its id in its place, or comes last. */
  lemma WriteMeaning(d: Dict, r: MemoryRecord, now: int)
    requires d.Valid()
    ensures var e := Written(d, r, now);
      && e.Valid() && e.records[r.id] == r.(updatedAt := now)
      && (forall x :: x in d.records && x != r.id ==> x in e.records && e.records[x] == d.records[x])
      && (forall x :: x in e.records ==> x == r.id || x in d.records)
      && e.keys == if r.id in d.records then d.keys else d.keys + [r.id]
  {
  }
}

/**
 The kernel acting on a store in place: the search-and-delete loops, the save functions, one
 operation and a batch with its counters, each proved against its function on the dictionary.
 */
module ProfileStore {
  import opened Wrappers
  import opened StableSort
  import opened MemoryModel
  import opened ProfileModel
  import opened ProfileKernel
  import IM = InMemoryStore

  lemma PurgedStep(d: Dict, found: seq<MemoryRecord>, hit: MemoryRecord -> bool, reason: string, now: int, i: nat)
    requires i < |found|
    ensures Purged(d, Select(found[i..], hit), reason, now) ==
      Purged(if hit(found[i]) then Removed(d, found[i].id, reason, now) else d, Select(found[i + 1..], hit), reason, now)
  {
    assert found[i..][0] == found[i] && found[i..][1..] == found[i + 1..];
    if hit(found[i]) {
      assert Select(found[i..], hit)[1..] == Select(found[i + 1..], hit);
    } else {
      assert Select(found[i..], hit) == Select(found[i + 1..], hit);
    }
  }

  lemma BatchRunStep(lex: Lexicon, b: Batch, items: seq<Item>, i: nat)
    requires b.dict.Valid() && i < |items|
    ensures BatchRun(lex, b, items[i..]) == BatchRun(lex, BatchStep(lex, b, items[i]), items[i + 1..])
  {
    assert items[i..][0] == items[i] && items[i..][1..] == items[i + 1..];
  }

  /** The loop all deletions share: walk over records found earlier and delete those the test selects. */
  method DeleteHits(
      store: IM.Store, found: seq<MemoryRecord>, hit: MemoryRecord -> bool, reason: string, now: int)
    requires store.Valid()
    modifies store
    ensures store.Valid() && store.records == Purged(old(store.records), Select(found, hit), reason, now)
  {
    for i := 0 to |found|
      invariant store.Valid()
      invariant Purged(store.records, Select(found[i..], hit), reason, now) ==
                Purged(old(store.records), Select(found, hit), reason, now)
    {
      PurgedStep(store.records, found, hit, reason, now, i);
      if hit(found[i]) {
        var _ := store.Delete(found[i].id, reason, now);
      }
    }
  }

  method SearchProfile(store: IM.Store, kind: MemoryType) returns (found: seq<MemoryRecord>)
    requires store.Valid()
    ensures found == Seen(store.records, kind)
  {
    found := store.Search(ProfileQuery(kind), AnyText());
  }

  method SearchBoth(store: IM.Store) returns (found: seq<MemoryRecord>)
    requires store.Valid()
    ensures found == SeenBoth(store.records)
  {
    var facts := SearchProfile(store, Fact);
    var preferences := SearchProfile(store, Preference);
    found := facts + preferences;
  }

  /** Deletes what the new fact supersedes. */
  method ResolveConflicts(store: IM.Store, lex: Lexicon, rel: Relation, value: string, now: int)
    requires store.Valid()
    modifies store
    ensures store.Valid() && store.records == Resolved(lex, old(store.records), rel, value, now)
  {
    if HasRivals(rel) {
      var found;
      if IsPreference(rel) {
        found := SearchBoth(store);
      } else {
        found := SearchProfile(store, Fact);
      }
      DeleteHits(store, found, Rivals(lex, rel, value), ReasonFor(rel), now);
    }
  }

  method DeleteAliases(store: IM.Store, lex: Lexicon, rel: Relation, value: string, now: int)
    requires store.Valid() && IsPreference(rel)
    modifies store
    ensures store.Valid() && store.records == WithoutAliases(lex, old(store.records), rel, value, now)
  {
    var found := SearchBoth(store);
    DeleteHits(store, found, AliasOf(lex, rel, Canon(lex.lower, value)), "preference_alias_canonicalized", now);
  }

  /** Everything the save functions delete first. */
  method ClearFor(store: IM.Store, lex: Lexicon, rel: Relation, value: string, now: int)
    requires store.Valid()
    modifies store
    ensures store.Valid() && store.records == Clear(lex, old(store.records), rel, value, now)
  {
    ResolveConflicts(store, lex, rel, value, now);
    if IsPreference(rel) {
      DeleteAliases(store, lex, rel, value, now);
    }
  }

  method StoreFact(store: IM.Store, p: Profile, id: string, now: int)
    requires store.Valid()
    modifies store
    ensures store.Valid() && store.records == Saved(old(store.records), p, id, now)
  {
    var _ := store.Write(NewFact(p.relation, p.value, id, now), now);
  }

  /** `save_auto_profile_fact` after conflict resolution, and the save functions that resolve themselves. */
  method AssertFact(store: IM.Store, lex: Lexicon, rel: Relation, value: string, id: string, now: int)
    requires store.Valid()
    modifies store
    ensures store.Valid() && store.records == Asserted(lex, old(store.records), rel, value, id, now)
  {
    ClearFor(store, lex, rel, value, now);
    StoreFact(store, Profile(rel, StoredValue(lex, rel, value)), id, now);
  }

  method AnySelected(found: seq<MemoryRecord>, test: MemoryRecord -> bool) returns (any: bool)
    ensures any <==> Select(found, test) != []
  {
    for i := 0 to |found|
      invariant Select(found[..i], test) == []
    {
      SelectSnoc(found[..i], found[i], test);
      assert found[..i + 1] == found[..i] + [found[i]];
      if test(found[i]) {
        SelectMembers(found, test);
        return true;
      }
    }
    assert found[..|found|] == found;
    any := false;
  }

  /** `goal_already_active`: the search loop stops at the first goal with the same key. */
  method GoalAlreadyActive(store: IM.Store, lex: Lexicon, value: string) returns (active: bool)
    requires store.Valid()
    ensures active == GoalActive(lex, store.records, value)
  {
    var found := SearchProfile(store, Fact);
    active := AnySelected(found, GoalNamed(lex, lex.goalKey(value)));
  }

  method DeleteAll(store: IM.Store, hits: seq<MemoryRecord>, reason: string, now: int)
    requires store.Valid()
    modifies store
    ensures store.Valid() && store.records == Purged(old(store.records), hits, reason, now)
  {
    for i := 0 to |hits|
      invariant store.Valid()
      invariant Purged(store.records, hits[i..], reason, now) == Purged(old(store.records), hits, reason, now)
    {
      assert hits[i..][0] == hits[i] && hits[i..][1..] == hits[i + 1..];
      var _ := store.Delete(hits[i].id, reason, now);
    }
  }

  method Perform(store: IM.Store, lex: Lexicon, action: Action, id: string, now: int)
    requires store.Valid()
    modifies store
    ensures store.Valid() && store.records == Performed(lex, old(store.records), action, id, now)
  {
    match action
    case Skip =>
    case Erase(hits, reason) =>
      DeleteAll(store, hits, reason, now);
    case Tell(hits, rel, value) =>
      DeleteAll(store, hits, REMOVAL, now);
      AssertFact(store, lex, rel, value, id, now);
    case AddGoal(hits, reason, value) =>
      DeleteAll(store, hits, reason, now);
      var active := GoalAlreadyActive(store, lex, value);
      if !active {
        StoreFact(store, Profile(Goal, value), id, now);
      }
  }

  method ApplyOperation(store: IM.Store, lex: Lexicon, op: Operation, id: string, now: int) returns (outcome: Outcome)
    requires store.Valid()
    modifies store
    ensures store.Valid() && store.records == Applied(lex, old(store.records), op, id, now)
    ensures outcome == Plan(lex, old(store.records), op).1
  {
    var (action, result) := Plan(lex, store.records, op);
    outcome := result;
    Perform(store, lex, action, id, now);
  }

  /** One turn of the batch loop: the store and the loop's variables move from one `Batch` to the next. */
  method Settle(store: IM.Store, lex: Lexicon, plan: Option<(Action, bool)>, id: string, now: int,
                active: set<string>, applied: nat, failed: nat, saved: nat)
    returns (active': set<string>, applied': nat, failed': nat, saved': nat)
    requires store.Valid()
    modifies store
    ensures store.Valid()
    ensures Batch(store.records, active', applied', failed', saved') ==
            Settled(lex, Batch(old(store.records), active, applied, failed, saved), plan, id, now)
  {
    active', applied', failed', saved' := active, applied, failed, saved;
    if plan.None? {
      failed' := failed + 1;
      return;
    }
    Perform(store, lex, plan.value.0, id, now);
    applied' := applied + 1;
    active' := NowActive(lex, active, plan.value.0);
    if plan.value.1 {
      saved' := saved + 1;
    }
  }

  method ApplyOperations(store: IM.Store, lex: Lexicon, items: seq<Item>)
    returns (applied: nat, failed: nat, saved: nat)
    requires store.Valid()
    modifies store
    ensures store.Valid()
    ensures var b := BatchRun(lex, BatchStart(lex, old(store.records)), items);
      store.records == b.dict && applied == b.applied && failed == b.failed && saved == b.saved
  {
    applied, failed, saved := 0, 0, 0;
    var active := ShownAffections(lex, store.records);
    ghost var start := BatchStart(lex, old(store.records));
    ghost var b := start;
    assert items[0..] == items;
    for i := 0 to |items|
      invariant store.Valid() && b == Batch(store.records, active, applied, failed, saved)
      invariant BatchRun(lex, b, items[i..]) == BatchRun(lex, start, items)
    {
      BatchRunStep(lex, b, items, i);
      var plan := BatchPlan(lex, store.records, active, items[i].op);
      active, applied, failed, saved :=
        Settle(store, lex, plan, items[i].id, items[i].now, active, applied, failed, saved);
      b := BatchStep(lex, b, items[i]);
    }
    assert items[|items|..] == [];
  }
}

/**
 Runs of the memory kernel: single operations, batches and reported affections, in any order.
 */
module ProfileRuns {
  import opened Wrappers
  import opened MemoryModel
  import opened ProfileModel
  import opened ProfileKernel
  import opened ProfileSafety

  // --- One operation ---

  /** What every operation starts from: no clash, and the searches show everything. */
  ghost predicate Sound(lex: Lexicon, d: Dict) {
    d.Valid() && ClashFree(lex, d) && WithinLimit(d)
  }

  lemma ShrunkSound(lex: Lexicon, d: Dict, e: Dict)
    requires Sound(lex, d) && Shrunk(d, e)
    ensures Sound(lex, e)
  {
    ShrunkKeepsClashFree(lex, d, e);
    ShrunkWithinLimit(d, e);
  }

  lemma AssertedSafe(lex: Lexicon, d: Dict, e: Dict, rel: Relation, value: string, id: string, now: int)
    requires ValidLexicon(lex) && Sound(lex, d) && Shrunk(d, e) && id !in d.records && rel != Goal && Named(rel, value)
    ensures ClashFree(lex, Asserted(lex, e, rel, value, id, now))
  {
    ShrunkSound(lex, d, e);
    assert id !in e.keys;
    WithinLimitReaches(lex, e, NewProfile(lex, rel, value));
    AssertedKeepsClashFree(lex, e, rel, value, id, now);
  }

  lemma GoalAddedSafe(lex: Lexicon, d: Dict, e: Dict, value: string, id: string, now: int)
    requires ValidLexicon(lex) && Sound(lex, d) && Shrunk(d, e) && id !in d.records
    ensures ClashFree(lex, GoalAdded(lex, e, value, id, now))
  {
    ShrunkSound(lex, d, e);
    assert id !in e.keys;
    WithinLimitReaches(lex, e, Profile(Goal, value));
    GoalAddedKeepsClashFree(lex, e, value, id, now);
  }

  /** A told fact is not a goal, and a told preference is not blank. */
  predicate Admissible(action: Action) {
    action.Tell? ==> action.relation != Goal && Named(action.relation, action.value)
  }

  lemma PerformedSafe(lex: Lexicon, d: Dict, action: Action, id: string, now: int)
    requires ValidLexicon(lex) && Sound(lex, d) && id !in d.records && Admissible(action)
    ensures ClashFree(lex, Performed(lex, d, action, id, now))
  {
    match action
    case Skip =>
    case Erase(hits, reason) => ShrunkKeepsClashFree(lex, d, Purged(d, hits, reason, now));
    case Tell(hits, rel, value) => AssertedSafe(lex, d, Purged(d, hits, REMOVAL, now), rel, value, id, now);
    case AddGoal(hits, reason, value) => GoalAddedSafe(lex, d, Purged(d, hits, reason, now), value, id, now);
  }

  lemma PlanAdmissible(lex: Lexicon, d: Dict, op: Operation)
    requires d.Valid()
    ensures Admissible(Plan(lex, d, op).0)
  {
  }

  lemma BatchPlanAdmissible(lex: Lexicon, d: Dict, active: set<string>, op: Operation)
    requires d.Valid() && BatchPlan(lex, d, active, op).Some?
    ensures Admissible(BatchPlan(lex, d, active, op).value.0)
  {
  }

  /** A single operation creates no clash. */
  lemma AppliedSafe(lex: Lexicon, d: Dict, op: Operation, id: string, now: int)
    requires ValidLexicon(lex) && Sound(lex, d) && id !in d.records
    ensures ClashFree(lex, Applied(lex, d, op, id, now))
  {
    PlanAdmissible(lex, d, op);
    PerformedSafe(lex, d, Plan(lex, d, op).0, id, now);
  }

  // --- Batches ---

  lemma BatchStepSafe(lex: Lexicon, b: Batch, item: Item)
    requires ValidLexicon(lex) && Sound(lex, b.dict) && item.id !in b.dict.records
    ensures ClashFree(lex, BatchStep(lex, b, item).dict)
  {
    var plan := BatchPlan(lex, b.dict, b.active, item.op);
    if plan.Some? {
      BatchPlanAdmissible(lex, b.dict, b.active, item.op);
      PerformedSafe(lex, b.dict, plan.value.0, item.id, item.now);
    }
  }

  /** Every turn of the loop has a new id. */
  ghost predicate FreshBatch(lex: Lexicon, b: Batch, items: seq<Item>)
    requires b.dict.Valid()
    decreases |items|
  {
    items != [] ==> items[0].id !in b.dict.records && FreshBatch(lex, BatchStep(lex, b, items[0]), items[1..])
  }

  /** Every turn of the loop starts within the limit and with a new id. */
  ghost predicate SmallBatch(lex: Lexicon, b: Batch, items: seq<Item>)
    requires b.dict.Valid()
    decreases |items|
  {
    items != [] ==>
      WithinLimit(b.dict) && items[0].id !in b.dict.records && SmallBatch(lex, BatchStep(lex, b, items[0]), items[1..])
  }

  lemma {:induction false} BatchSafe(lex: Lexicon, b: Batch, items: seq<Item>)
    requires ValidLexicon(lex) && b.dict.Valid() && ClashFree(lex, b.dict) && SmallBatch(lex, b, items)
    ensures ClashFree(lex, BatchRun(lex, b, items).dict)
    decreases |items|
  {
    if items != [] {
      BatchStepSafe(lex, b, items[0]);
      BatchSafe(lex, BatchStep(lex, b, items[0]), items[1..]);
    }
  }

  // --- Runs ---

  /** `Report` is `save_external_affection_fact` and its negative form. */
  datatype Event =
    | One(item: Item)
    | Many(items: seq<Item>)
    | Report(admirer: string, likes: bool, id: string, now: int)

  function After(lex: Lexicon, d: Dict, event: Event): (e: Dict)
    requires d.Valid()
    ensures e.Valid()
  {
    match event
    case One(item) => Applied(lex, d, item.op, item.id, item.now)
    case Many(items) => BatchRun(lex, BatchStart(lex, d), items).dict
    case Report(admirer, likes, id, now) => Asserted(lex, d, if likes then LikesUser else DislikesUser, admirer, id, now)
  }

  function Run(lex: Lexicon, d: Dict, events: seq<Event>): (e: Dict)
    requires d.Valid()
    ensures e.Valid()
    decreases |events|
  {
    if events == [] then d else Run(lex, After(lex, d, events[0]), events[1..])
  }

  /** New ids are new, and every operation starts within the search limit. */
  ghost predicate Small(lex: Lexicon, d: Dict, event: Event)
    requires d.Valid()
  {
    match event
    case One(item) => WithinLimit(d) && item.id !in d.records
    case Many(items) => SmallBatch(lex, BatchStart(lex, d), items)
    case Report(_, _, id, _) => WithinLimit(d) && id !in d.records
  }

  ghost predicate SmallRun(lex: Lexicon, d: Dict, events: seq<Event>)
    requires d.Valid()
    decreases |events|
  {
    events != [] ==> Small(lex, d, events[0]) && SmallRun(lex, After(lex, d, events[0]), events[1..])
  }

  lemma AfterSafe(lex: Lexicon, d: Dict, event: Event)
    requires ValidLexicon(lex) && d.Valid() && ClashFree(lex, d) && Small(lex, d, event)
    ensures ClashFree(lex, After(lex, d, event))
  {
    match event
    case One(item) => AppliedSafe(lex, d, item.op, item.id, item.now);
    case Many(items) => BatchSafe(lex, BatchStart(lex, d), items);
    case Report(admirer, likes, id, now) =>
      AssertedSafe(lex, d, d, if likes then LikesUser else DislikesUser, admirer, id, now);
  }

  /** No run of kernel operations within the limit leaves two contradicting facts, two focuses or one goal twice. */
  lemma {:induction false} RunSafe(lex: Lexicon, d: Dict, events: seq<Event>)
    requires ValidLexicon(lex) && d.Valid() && ClashFree(lex, d) && SmallRun(lex, d, events)
    ensures ClashFree(lex, Run(lex, d, events))
    decreases |events|
  {
    if events != [] {
      AfterSafe(lex, d, events[0]);
      RunSafe(lex, After(lex, d, events[0]), events[1..]);
    }
  }

  // --- Exactly when a run stays free of clashes ---

  /** Every live record that clashes with what the action stores is shown by the searches, or the goal is seen already. */
  ghost predicate ActionReaches(lex: Lexicon, d: Dict, action: Action, now: int)
    requires d.Valid()
  {
    match action
    case Skip => true
    case Erase(_, _) => true
    case Tell(hits, rel, value) => Reaches(lex, Purged(d, hits, REMOVAL, now), NewProfile(lex, rel, value))
    case AddGoal(hits, reason, value) =>
      var e := Purged(d, hits, reason, now);
      GoalActive(lex, e, value) || Reaches(lex, e, Profile(Goal, value))
  }

  /** An action keeps the store free of clashes exactly when the searches reach every rival of what it stores. */
  lemma PerformedExactly(lex: Lexicon, d: Dict, action: Action, id: string, now: int)
    requires ValidLexicon(lex) && d.Valid() && ClashFree(lex, d) && id !in d.records && Admissible(action)
    ensures ClashFree(lex, Performed(lex, d, action, id, now)) <==> ActionReaches(lex, d, action, now)
  {
    match action
    case Skip =>
    case Erase(hits, reason) =>
      ShrunkKeepsClashFree(lex, d, Purged(d, hits, reason, now));
    case Tell(hits, rel, value) =>
      var e := Purged(d, hits, REMOVAL, now);
      ShrunkKeepsClashFree(lex, d, e);
      assert id !in e.keys;
      AssertedKeepsClashFree(lex, e, rel, value, id, now);
    case AddGoal(hits, reason, value) =>
      var e := Purged(d, hits, reason, now);
      ShrunkKeepsClashFree(lex, d, e);
      assert id !in e.keys;
      GoalAddedKeepsClashFree(lex, e, value, id, now);
  }

  ghost predicate TurnReaches(lex: Lexicon, b: Batch, item: Item)
    requires b.dict.Valid()
  {
    var plan := BatchPlan(lex, b.dict, b.active, item.op);
    plan.Some? ==> ActionReaches(lex, b.dict, plan.value.0, item.now)
  }

  lemma TurnExactly(lex: Lexicon, b: Batch, item: Item)
    requires ValidLexicon(lex) && b.dict.Valid() && ClashFree(lex, b.dict) && item.id !in b.dict.records
    ensures ClashFree(lex, BatchStep(lex, b, item).dict) <==> TurnReaches(lex, b, item)
  {
    var plan := BatchPlan(lex, b.dict, b.active, item.op);
    if plan.Some? {
      BatchPlanAdmissible(lex, b.dict, b.active, item.op);
      PerformedExactly(lex, b.dict, plan.value.0, item.id, item.now);
    }
  }

  /** No clash before, between and after the turns. */
  ghost predicate ClashFreeBatch(lex: Lexicon, b: Batch, items: seq<Item>)
    requires b.dict.Valid()
    decreases |items|
  {
    ClashFree(lex, b.dict) && (items == [] || ClashFreeBatch(lex, BatchStep(lex, b, items[0]), items[1..]))
  }

  ghost predicate ReachingBatch(lex: Lexicon, b: Batch, items: seq<Item>)
    requires b.dict.Valid()
    decreases |items|
  {
    items == [] || (TurnReaches(lex, b, items[0]) && ReachingBatch(lex, BatchStep(lex, b, items[0]), items[1..]))
  }

  lemma {:induction false} BatchExactly(lex: Lexicon, b: Batch, items: seq<Item>)
    requires ValidLexicon(lex) && b.dict.Valid() && ClashFree(lex, b.dict) && FreshBatch(lex, b, items)
    ensures ClashFreeBatch(lex, b, items) <==> ReachingBatch(lex, b, items)
    ensures ClashFreeBatch(lex, b, items) ==> ClashFree(lex, BatchRun(lex, b, items).dict)
    decreases |items|
  {
    if items != [] {
      TurnExactly(lex, b, items[0]);
      if ClashFree(lex, BatchStep(lex, b, items[0]).dict) {
        BatchExactly(lex, BatchStep(lex, b, items[0]), items[1..]);
      }
    }
  }

  ghost predicate FreshEvent(lex: Lexicon, d: Dict, event: Event)
    requires d.Valid()
  {
    match event
    case One(item) => item.id !in d.records
    case Many(items) => FreshBatch(lex, BatchStart(lex, d), items)
    case Report(_, _, id, _) => id !in d.records
  }

  /** The event creates no clash at any point. */
  ghost predicate ClashFreeEvent(lex: Lexicon, d: Dict, event: Event)
    requires d.Valid()
  {
    if event.Many? then ClashFreeBatch(lex, BatchStart(lex, d), event.items) else ClashFree(lex, After(lex, d, event))
  }

  /** The searches of the event reach every rival of what it stores. */
  ghost predicate EventReaches(lex: Lexicon, d: Dict, event: Event)
    requires d.Valid()
  {
    match event
    case One(item) => ActionReaches(lex, d, Plan(lex, d, item.op).0, item.now)
    case Many(items) => ReachingBatch(lex, BatchStart(lex, d), items)
    case Report(admirer, likes, _, _) => Reaches(lex, d, NewProfile(lex, if likes then LikesUser else DislikesUser, admirer))
  }

  lemma EventExactly(lex: Lexicon, d: Dict, event: Event)
    requires ValidLexicon(lex) && d.Valid() && ClashFree(lex, d) && FreshEvent(lex, d, event)
    ensures ClashFreeEvent(lex, d, event) <==> EventReaches(lex, d, event)
    ensures ClashFreeEvent(lex, d, event) ==> ClashFree(lex, After(lex, d, event))
  {
    match event
    case One(item) =>
      PlanAdmissible(lex, d, item.op);
      PerformedExactly(lex, d, Plan(lex, d, item.op).0, item.id, item.now);
    case Many(items) => BatchExactly(lex, BatchStart(lex, d), items);
    case Report(admirer, likes, id, now) =>
      AssertedKeepsClashFree(lex, d, if likes then LikesUser else DislikesUser, admirer, id, now);
  }

  ghost predicate FreshRun(lex: Lexicon, d: Dict, events: seq<Event>)
    requires d.Valid()
    decreases |events|
  {
    events == [] || (FreshEvent(lex, d, events[0]) && FreshRun(lex, After(lex, d, events[0]), events[1..]))
  }

  ghost predicate ClashFreeRun(lex: Lexicon, d: Dict, events: seq<Event>)
    requires d.Valid()
    decreases |events|
  {
    events == [] || (ClashFreeEvent(lex, d, events[0]) && ClashFreeRun(lex, After(lex, d, events[0]), events[1..]))
  }

  ghost predicate ReachingRun(lex: Lexicon, d: Dict, events: seq<Event>)
    requires d.Valid()
    decreases |events|
  {
    events == [] || (EventReaches(lex, d, events[0]) && ReachingRun(lex, After(lex, d, events[0]), events[1..]))
  }

  /** Over any run with new ids, of any size: every state along it is free of clashes exactly when every operation's
      searches reach all rivals of what it stores. */
  lemma {:induction false} RunExactly(lex: Lexicon, d: Dict, events: seq<Event>)
    requires ValidLexicon(lex) && d.Valid() && ClashFree(lex, d) && FreshRun(lex, d, events)
    ensures ClashFreeRun(lex, d, events) <==> ReachingRun(lex, d, events)
    decreases |events|
  {
    if events != [] {
      EventExactly(lex, d, events[0]);
      if ClashFreeEvent(lex, d, events[0]) {
        RunExactly(lex, After(lex, d, events[0]), events[1..]);
      }
    }
  }

  // --- Batch accounting ---

  lemma {:induction false} BatchCounts(lex: Lexicon, b: Batch, items: seq<Item>)
    requires b.dict.Valid() && FreshBatch(lex, b, items)
    ensures var c := BatchRun(lex, b, items);
      && c.applied + c.failed == b.applied + b.failed + |items|
      && c.saved - b.saved <= |c.dict.keys| - |b.dict.keys| <= c.applied - b.applied
    decreases |items|
  {
    if items != [] {
      BatchStepCounts(lex, b, items[0]);
      BatchCounts(lex, BatchStep(lex, b, items[0]), items[1..]);
    }
  }

  lemma AssertedGrows(lex: Lexicon, d: Dict, rel: Relation, value: string, id: string, now: int)
    requires d.Valid() && id !in d.records
    ensures |Asserted(lex, d, rel, value, id, now).keys| == |d.keys| + 1
  {
    var e := Clear(lex, d, rel, value, now);
    assert id !in e.keys;
  }

  lemma ShrunkFresh(d: Dict, e: Dict, id: string)
    requires d.Valid() && Shrunk(d, e) && id !in d.records
    ensures id !in e.records && |e.keys| == |d.keys|
  {
    assert id !in e.keys;
  }

  /** A telling stores one record; adding a goal stores one unless it is active after the deletions. */
  function Growth(lex: Lexicon, d: Dict, action: Action, now: int): nat
    requires d.Valid()
  {
    if action.Tell? then 1
    else if action.AddGoal? && !GoalActive(lex, Purged(d, action.hits, action.reason, now), action.value) then 1
    else 0
  }

  lemma PerformedGrows(lex: Lexicon, d: Dict, action: Action, id: string, now: int)
    requires d.Valid() && id !in d.records
    ensures |Performed(lex, d, action, id, now).keys| == |d.keys| + Growth(lex, d, action, now)
  {
    match action
    case Skip =>
    case Erase(hits, reason) => ShrunkFresh(d, Purged(d, hits, reason, now), id);
    case Tell(hits, rel, value) =>
      var e := Purged(d, hits, REMOVAL, now);
      ShrunkFresh(d, e, id);
      AssertedGrows(lex, e, rel, value, id, now);
    case AddGoal(hits, reason, value) =>
      var e := Purged(d, hits, reason, now);
      ShrunkFresh(d, e, id);
  }

  /** What counts as saved is stored. */
  predicate CountedRight(lex: Lexicon, d: Dict, action: Action, counts: bool)
    requires d.Valid()
  {
    counts ==> action.Tell? || (action.AddGoal? && action.hits == [] && !GoalActive(lex, d, action.value))
  }

  lemma BatchPlanCounts(lex: Lexicon, d: Dict, active: set<string>, op: Operation)
    requires d.Valid() && BatchPlan(lex, d, active, op).Some?
    ensures CountedRight(lex, d, BatchPlan(lex, d, active, op).value.0, BatchPlan(lex, d, active, op).value.1)
  {
  }

  lemma BatchStepCounts(lex: Lexicon, b: Batch, item: Item)
    requires b.dict.Valid() && item.id !in b.dict.records
    ensures var c := BatchStep(lex, b, item);
      && c.applied + c.failed == b.applied + b.failed + 1
      && c.saved - b.saved <= |c.dict.keys| - |b.dict.keys| <= c.applied - b.applied
  {
    var plan := BatchPlan(lex, b.dict, b.active, item.op);
    if plan.Some? {
      BatchPlanCounts(lex, b.dict, b.active, item.op);
      PerformedGrows(lex, b.dict, plan.value.0, item.id, item.now);
    }
  }

  // --- The affection keys read before the loop ---

  /** An acceptable addition of a person. */
  predicate Adds(lex: Lexicon, op: Operation) {
    op.op == Add && op.domain == Person && Acceptable(lex, op)
  }

  /** The keys of the persons a batch adds. */
  function AddedKeys(lex: Lexicon, items: seq<Item>): set<string> {
    set item | item in items && Adds(lex, item.op) :: lex.norm(item.op.value)
  }

  lemma AffectionTold(lex: Lexicon, d: Dict, active: set<string>, op: Operation)
    requires d.Valid()
    ensures var plan := BatchPlan(lex, d, active, op);
      var told := plan.Some? && plan.value.0.Tell? && plan.value.0.relation == Affection;
      && (told <==> Adds(lex, op) && lex.norm(op.value) !in active)
      && (told ==> plan.value.0.value == op.value)
  {
  }

  lemma ActiveStep(lex: Lexicon, b: Batch, item: Item)
    requires b.dict.Valid()
    ensures BatchStep(lex, b, item).active == b.active + if Adds(lex, item.op) then {lex.norm(item.op.value)} else {}
  {
    AffectionTold(lex, b.dict, b.active, item.op);
  }

  lemma AddedKeysStep(lex: Lexicon, items: seq<Item>)
    requires items != []
    ensures AddedKeys(lex, items) ==
      AddedKeys(lex, items[1..]) + if Adds(lex, items[0].op) then {lex.norm(items[0].op.value)} else {}
  {
    assert items[0] in items;
    assert forall item :: item in items <==> item == items[0] || item in items[1..];
  }

  /** The set the loop consults is the set read before the loop and the persons the batch added so far; removals
      never shrink it. */
  lemma {:induction false} ActiveExactly(lex: Lexicon, b: Batch, items: seq<Item>)
    requires b.dict.Valid()
    ensures BatchRun(lex, b, items).active == b.active + AddedKeys(lex, items)
    decreases |items|
  {
    if items != [] {
      ActiveStep(lex, b, items[0]);
      ActiveExactly(lex, BatchStep(lex, b, items[0]), items[1..]);
      AddedKeysStep(lex, items);
    }
  }

  /** The person is shown as liked when the batch starts, or added earlier in it. */
  predicate Remembered(lex: Lexicon, d: Dict, items: seq<Item>, value: string)
    requires d.Valid()
  {
    lex.norm(value) in ShownAffections(lex, d) || lex.norm(value) in AddedKeys(lex, items)
  }

  lemma AddPlanned(lex: Lexicon, d: Dict, active: set<string>, op: Operation)
    requires d.Valid() && Adds(lex, op)
    ensures BatchPlan(lex, d, active, op) ==
      Some(if lex.norm(op.value) in active then (Skip, false) else (Tell([], Affection, op.value), true))
  {
  }

  /** After any items of a batch, adding a person stores nothing exactly when the person was shown as liked before the
      batch or added earlier in it. What the batch removed in between plays no part. */
  lemma AddStores(lex: Lexicon, d: Dict, items: seq<Item>, last: Item)
    requires d.Valid() && Adds(lex, last.op)
    requires last.id !in BatchRun(lex, BatchStart(lex, d), items).dict.records
    ensures var b := BatchRun(lex, BatchStart(lex, d), items);
      BatchStep(lex, b, last).dict == b.dict <==> Remembered(lex, d, items, last.op.value)
  {
    var b := BatchRun(lex, BatchStart(lex, d), items);
    ActiveExactly(lex, BatchStart(lex, d), items);
    AddPlanned(lex, b.dict, b.active, last.op);
    PerformedGrows(lex, b.dict, BatchPlan(lex, b.dict, b.active, last.op).value.0, last.id, last.now);
  }

  /** And such an addition is still counted as applied. */
  lemma ReAddIgnored(lex: Lexicon, d: Dict, items: seq<Item>, last: Item)
    requires d.Valid() && Adds(lex, last.op) && Remembered(lex, d, items, last.op.value)
    ensures var b := BatchRun(lex, BatchStart(lex, d), items);
      BatchStep(lex, b, last) == b.(applied := b.applied + 1)
  {
    var b := BatchRun(lex, BatchStart(lex, d), items);
    ActiveExactly(lex, BatchStart(lex, d), items);
    AddPlanned(lex, b.dict, b.active, last.op);
  }
}

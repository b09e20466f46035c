/**
 What a kernel operation achieves, read off the store afterwards: the stated fact is there, what was
 to be removed is gone, and facts of other domains are as before.
 */
module ProfileMeaning {
  import opened Wrappers
  import opened StableSort
  import opened MemoryModel
  import opened ProfileModel
  import opened ProfileKernel
  import opened ProfileSafety

  /** The relation of the fact an operation states. */
  function StatedBy(op: Operation): Option<Relation> {
    match op.domain
    case Preferred => Some(if op.negative || op.op == Negate then Disliked else Liked)
    case Person => Some(if op.op == Remove || op.op == RemovePart then NegativeAffection else Affection)
    case Ability => Some(if op.negative then NegativeSkill else Skill)
    case Aim => Some(if op.op == UpdateCurrent then GoalFocus else Goal)
    case Relationship => Some(RelationName)
    case Favourite => Some(Favorite)
    case Name => Some(OwnName)
    case _ => None
  }

  /** The relations an operation of a domain may delete or store. */
  function Concerns(domain: Domain): set<Relation> {
    match domain
    case Preferred => {Liked, Disliked}
    case Person => {Affection, NegativeAffection}
    case Ability => {Skill, NegativeSkill}
    case Aim => {Goal, GoalFocus, Occupation}
    case Work => {Goal, GoalFocus, Occupation}
    case Relationship => {RelationName}
    case Favourite => {Favorite}
    case Name => {OwnName}
    case NotPreferred => {}
  }

  predicate Stated(lex: Lexicon, d: Dict, id: string, p: Profile) {
    HasLive(d, id) && lex.read(d.records[id]) == Some(p)
  }

  // --- Which actions are planned ---

  /** Facts of these relations that the search shows. */
  ghost predicate Among(lex: Lexicon, d: Dict, hits: seq<MemoryRecord>, rels: set<Relation>)
    requires d.Valid()
  {
    forall h :: h in hits ==> h in Seen(d, Fact) && States(lex, h, rels)
  }

  /** The action states what the operation says. */
  predicate Says(op: Operation, action: Action) {
    && (action.Tell? ==> StatedBy(op) == Some(action.relation))
    && (action.Tell? && action.relation != NegativeAffection ==> action.value == op.value)
    && (action.AddGoal? ==> StatedBy(op) == Some(Goal) && action.value == op.value)
  }

  /** And it deletes only records of the operation's domain. */
  ghost predicate Fitting(lex: Lexicon, d: Dict, op: Operation, action: Action)
    requires d.Valid()
  {
    Says(op, action) && (!action.Skip? ==> Among(lex, d, action.hits, Concerns(op.domain)))
  }

  lemma HitsFit(lex: Lexicon, d: Dict, hit: MemoryRecord -> bool, rels: set<Relation>)
    requires d.Valid() && forall r :: hit(r) ==> States(lex, r, rels)
    ensures Among(lex, d, Hits(d, hit), rels)
  {
    SelectMembers(Seen(d, Fact), hit);
  }

  lemma LabelledFit(lex: Lexicon, d: Dict, lbl: string)
    requires d.Valid()
    ensures Among(lex, d, FirstLabelled(lex, d, lbl), {RelationName})
  {
    var best := Cut(Seen(d, Fact), 100);
    SelectMembers(best, Labelled(lex, lbl));
    assert forall h :: h in best ==> h in Seen(d, Fact);
    assert forall h :: h in FirstLabelled(lex, d, lbl) ==> h in Select(best, Labelled(lex, lbl));
  }

  lemma GoalHitsFit(lex: Lexicon, d: Dict, op: Operation)
    requires d.Valid() && (op.domain == Aim || op.domain == Work)
    ensures Among(lex, d, Hits(d, GoalHit(lex, op.key)), Concerns(op.domain))
    ensures Among(lex, d, Hits(d, GoalHit(lex, lex.goalKey(op.value))), Concerns(op.domain))
    ensures Among(lex, d, Hits(d, Matching(lex, Occupation, lex.norm(op.value))), Concerns(op.domain))
    ensures Among(lex, d, Hits(d, AnyOf(lex, {Goal, GoalFocus})), Concerns(op.domain))
  {
    HitsFit(lex, d, GoalHit(lex, op.key), Concerns(op.domain));
    HitsFit(lex, d, GoalHit(lex, lex.goalKey(op.value)), Concerns(op.domain));
    HitsFit(lex, d, Matching(lex, Occupation, lex.norm(op.value)), Concerns(op.domain));
    HitsFit(lex, d, AnyOf(lex, {Goal, GoalFocus}), Concerns(op.domain));
  }

  /** The deletion lists an operation may plan. */
  lemma ListsFit(lex: Lexicon, d: Dict, op: Operation)
    requires d.Valid()
    ensures Among(lex, d, [], Concerns(op.domain))
    ensures op.domain == Person ==> Among(lex, d, Hits(d, Retracted(lex, op.value)), Concerns(op.domain))
    ensures op.domain == Person ==> Among(lex, d, Hits(d, AnyOf(lex, {Affection})), Concerns(op.domain))
    ensures op.domain == Relationship ==> Among(lex, d, FirstLabelled(lex, d, op.relationLabel), Concerns(op.domain))
  {
    if op.domain == Person {
      HitsFit(lex, d, Retracted(lex, op.value), Concerns(Person));
      HitsFit(lex, d, AnyOf(lex, {Affection}), Concerns(Person));
    }
    LabelledFit(lex, d, op.relationLabel);
  }

  /** What holds of a planned action and its outcome. */
  ghost predicate Planned(lex: Lexicon, d: Dict, op: Operation, plan: (Action, Outcome))
    requires d.Valid()
  {
    && Fitting(lex, d, op, plan.0)
    && (plan.1 == None ==> plan.0 == Skip)
    && (plan.1 == Some(true) ==> (plan.0.Tell? || plan.0.AddGoal?) && StatedBy(op) != Some(NegativeAffection))
  }

  lemma RemovalPlanned(lex: Lexicon, d: Dict, op: Operation)
    requires d.Valid() && op.op == Remove
    ensures Planned(lex, d, op, RemovalPlan(lex, d, op))
  {
    ListsFit(lex, d, op);
    if op.domain == Aim || op.domain == Work {
      GoalHitsFit(lex, d, op);
    }
  }

  lemma UpdatePlanned(lex: Lexicon, d: Dict, op: Operation)
    requires d.Valid() && op.op == UpdateCurrent
    ensures Planned(lex, d, op, UpdatePlan(lex, d, op))
  {
    ListsFit(lex, d, op);
  }

  lemma AdditionPlanned(lex: Lexicon, d: Dict, op: Operation)
    requires d.Valid() && op.op == Add
    ensures Planned(lex, d, op, AdditionPlan(lex, d, op))
  {
    ListsFit(lex, d, op);
  }

  lemma SwitchPlanned(lex: Lexicon, d: Dict, op: Operation)
    requires d.Valid() && op.op == Switch
    ensures Planned(lex, d, op, SwitchPlan(lex, d, op))
  {
    if op.domain == Aim {
      GoalHitsFit(lex, d, op);
    }
  }

  lemma PlanPlanned(lex: Lexicon, d: Dict, op: Operation)
    requires d.Valid()
    ensures Planned(lex, d, op, Plan(lex, d, op))
  {
    match op.op
    case Remove => RemovalPlanned(lex, d, op);
    case UpdateCurrent => UpdatePlanned(lex, d, op);
    case Add => AdditionPlanned(lex, d, op);
    case Switch => SwitchPlanned(lex, d, op);
    case _ =>
  }

  lemma BatchPlanSays(lex: Lexicon, d: Dict, active: set<string>, op: Operation)
    requires d.Valid() && BatchPlan(lex, d, active, op).Some?
    ensures Says(op, BatchPlan(lex, d, active, op).value.0)
  {
  }

  lemma BatchPlanFits(lex: Lexicon, d: Dict, active: set<string>, op: Operation)
    requires d.Valid() && BatchPlan(lex, d, active, op).Some?
    ensures Fitting(lex, d, op, BatchPlan(lex, d, active, op).value.0)
  {
    BatchPlanSays(lex, d, active, op);
    ListsFit(lex, d, op);
    if op.domain == Aim {
      GoalHitsFit(lex, d, op);
    }
  }

  // --- Other domains are untouched ---

  predicate Untouched(d: Dict, e: Dict, x: string) {
    HasLive(d, x) && HasLive(e, x) && e.records[x] == d.records[x]
  }

  lemma PurgedUntouched(lex: Lexicon, d: Dict, hits: seq<MemoryRecord>, rels: set<Relation>, reason: string, now: int, x: string)
    requires d.Valid() && HasLive(d, x) && !States(lex, d.records[x], rels)
    requires Among(lex, d, hits, rels)
    ensures Untouched(d, Purged(d, hits, reason, now), x)
  {
    SeenFactsLive(d);
    PurgedLive(d, hits, reason, now, x);
  }

  predicate Concerned(lex: Lexicon, r: MemoryRecord, rel: Relation) {
    States(lex, r, {rel}) || (Opposite(rel).Some? && States(lex, r, {Opposite(rel).value}))
  }

  lemma RivalsConcerned(lex: Lexicon, rel: Relation, value: string, r: MemoryRecord)
    requires !Concerned(lex, r, rel)
    ensures HasRivals(rel) ==> !Rivals(lex, rel, value)(r)
    ensures !Alias(lex, r, NewProfile(lex, rel, value))
  {
  }

  lemma AssertedUntouched(lex: Lexicon, d: Dict, rel: Relation, value: string, id: string, now: int, x: string)
    requires d.Valid() && HasLive(d, x) && x != id && !Concerned(lex, d.records[x], rel)
    ensures Untouched(d, Asserted(lex, d, rel, value, id, now), x)
  {
    var e := Resolved(lex, d, rel, value, now);
    RivalsConcerned(lex, rel, value, d.records[x]);
    assert HasLive(e, x) by {
      if HasRivals(rel) {
        ResolvedDeletes(lex, d, rel, value, now, x);
      }
    }
    WithoutAliasesLive(lex, e, rel, value, now, x);
    var c := WithoutAliases(lex, e, rel, value, now);
    assert HasLive(c, x) && c.records[x] == d.records[x];
    SavedElsewhere(c, NewProfile(lex, rel, value), id, now, x);
  }

  lemma TellUntouched(lex: Lexicon, d: Dict, op: Operation, action: Action, id: string, now: int, x: string)
    requires d.Valid() && action.Tell? && Fitting(lex, d, op, action) && HasLive(d, x) && x != id
    requires !States(lex, d.records[x], Concerns(op.domain))
    ensures Untouched(d, Performed(lex, d, action, id, now), x)
  {
    PurgedUntouched(lex, d, action.hits, Concerns(op.domain), REMOVAL, now, x);
    var e := Purged(d, action.hits, REMOVAL, now);
    StatedConcerns(op);
    AssertedUntouched(lex, e, action.relation, action.value, id, now, x);
  }

  lemma StatedConcerns(op: Operation)
    requires StatedBy(op).Some?
    ensures StatedBy(op).value in Concerns(op.domain)
    ensures Opposite(StatedBy(op).value).Some? ==> Opposite(StatedBy(op).value).value in Concerns(op.domain)
  {
  }

  lemma GoalAddedUntouched(lex: Lexicon, d: Dict, value: string, id: string, now: int, x: string)
    requires d.Valid() && HasLive(d, x) && x != id
    ensures Untouched(d, GoalAdded(lex, d, value, id, now), x)
  {
    SavedElsewhere(d, Profile(Goal, value), id, now, x);
  }

  lemma PerformedUntouched(lex: Lexicon, d: Dict, op: Operation, action: Action, id: string, now: int, x: string)
    requires d.Valid() && Fitting(lex, d, op, action) && HasLive(d, x) && x != id
    requires !States(lex, d.records[x], Concerns(op.domain))
    ensures Untouched(d, Performed(lex, d, action, id, now), x)
  {
    match action
    case Skip =>
    case Erase(hits, reason) => PurgedUntouched(lex, d, hits, Concerns(op.domain), reason, now, x);
    case Tell(_, _, _) => TellUntouched(lex, d, op, action, id, now, x);
    case AddGoal(hits, reason, value) =>
      PurgedUntouched(lex, d, hits, Concerns(op.domain), reason, now, x);
      GoalAddedUntouched(lex, Purged(d, hits, reason, now), value, id, now, x);
  }

  /** An operation leaves every record of another domain as it was, within the search limit or beyond it. */
  lemma AppliedUntouched(lex: Lexicon, d: Dict, op: Operation, id: string, now: int, x: string)
    requires d.Valid() && HasLive(d, x) && x != id && !States(lex, d.records[x], Concerns(op.domain))
    ensures Untouched(d, Applied(lex, d, op, id, now), x)
  {
    PlanPlanned(lex, d, op);
    PerformedUntouched(lex, d, op, Plan(lex, d, op).0, id, now, x);
  }

  /** So does a turn of a batch. */
  lemma BatchStepUntouched(lex: Lexicon, b: Batch, item: Item, x: string)
    requires b.dict.Valid() && HasLive(b.dict, x) && x != item.id
    requires !States(lex, b.dict.records[x], Concerns(item.op.domain))
    ensures Untouched(b.dict, BatchStep(lex, b, item).dict, x)
  {
    var plan := BatchPlan(lex, b.dict, b.active, item.op);
    if plan.Some? {
      BatchPlanFits(lex, b.dict, b.active, item.op);
      PerformedUntouched(lex, b.dict, item.op, plan.value.0, item.id, item.now, x);
    }
  }

  // --- Goals add up ---

  /** A goal or focus is removed by this turn: a removal in the goal domain that hits it, and the search shows it. */
  predicate RemovesGoal(lex: Lexicon, d: Dict, op: Operation, r: MemoryRecord)
    requires d.Valid()
  {
    && op.domain == Aim && (op.op == Remove || op.op == RemovePart) && Acceptable(lex, op)
    && r.kind == Fact && Picked(d, GoalHit(lex, op.key), r)
  }

  lemma GoalRemovalPlan(lex: Lexicon, d: Dict, active: set<string>, op: Operation)
    requires d.Valid() && op.domain == Aim
    ensures BatchPlan(lex, d, active, op) ==
      if !Acceptable(lex, op) then None
      else if op.op == Add then Some((AddGoal([], "", op.value), !GoalActive(lex, d, op.value)))
      else if op.op == Remove || op.op == RemovePart
      then Some((Erase(Hits(d, GoalHit(lex, op.key)), "goal_superseded"), false))
      else None
  {
  }

  /** A turn that adds a goal touches no other record, older goals included. */
  lemma GoalAddKeepsAll(lex: Lexicon, b: Batch, item: Item, x: string)
    requires b.dict.Valid() && HasLive(b.dict, x) && x != item.id && item.op.op == Add && item.op.domain == Aim
    ensures Untouched(b.dict, BatchStep(lex, b, item).dict, x)
  {
    GoalRemovalPlan(lex, b.dict, b.active, item.op);
    GoalAddedUntouched(lex, b.dict, item.op.value, item.id, item.now, x);
  }

  lemma NoGoalConcern(lex: Lexicon, r: MemoryRecord, domain: Domain)
    requires States(lex, r, {Goal, GoalFocus}) && domain != Aim && domain != Work
    ensures !States(lex, r, Concerns(domain))
  {
  }

  /** An older goal is gone after a turn of a batch exactly when the turn removes it; otherwise it is as before. */
  lemma GoalGoneExactly(lex: Lexicon, b: Batch, item: Item, x: string)
    requires b.dict.Valid() && HasLive(b.dict, x) && x != item.id && States(lex, b.dict.records[x], {Goal, GoalFocus})
    ensures HasLive(BatchStep(lex, b, item).dict, x) <==> !RemovesGoal(lex, b.dict, item.op, b.dict.records[x])
    ensures HasLive(BatchStep(lex, b, item).dict, x) ==> Untouched(b.dict, BatchStep(lex, b, item).dict, x)
  {
    if item.op.domain == Aim {
      AimTurn(lex, b, item, x);
    } else if item.op.domain != Work {
      NoGoalConcern(lex, b.dict.records[x], item.op.domain);
      BatchStepUntouched(lex, b, item, x);
    }
  }

  lemma AimTurn(lex: Lexicon, b: Batch, item: Item, x: string)
    requires b.dict.Valid() && HasLive(b.dict, x) && x != item.id && item.op.domain == Aim
    ensures HasLive(BatchStep(lex, b, item).dict, x) <==> !RemovesGoal(lex, b.dict, item.op, b.dict.records[x])
    ensures HasLive(BatchStep(lex, b, item).dict, x) ==> Untouched(b.dict, BatchStep(lex, b, item).dict, x)
  {
    GoalRemovalPlan(lex, b.dict, b.active, item.op);
    if item.op.op == Add {
      GoalAddKeepsAll(lex, b, item, x);
    } else {
      HitsDeleted(b.dict, GoalHit(lex, item.op.key), "goal_superseded", item.now, x);
    }
  }

  /** Whatever else a batch does, without a removal in the goal domain it keeps every older goal. */
  lemma {:induction false} GoalsAddUp(lex: Lexicon, b: Batch, items: seq<Item>, x: string)
    requires b.dict.Valid() && HasLive(b.dict, x) && States(lex, b.dict.records[x], {Goal, GoalFocus})
    requires forall item :: item in items ==> item.id != x
    requires forall item :: item in items && item.op.domain == Aim ==> item.op.op != Remove && item.op.op != RemovePart
    ensures Untouched(b.dict, BatchRun(lex, b, items).dict, x)
    decreases |items|
  {
    if items != [] {
      assert items[0] in items;
      GoalGoneExactly(lex, b, items[0], x);
      GoalsAddUp(lex, BatchStep(lex, b, items[0]), items[1..], x);
    }
  }

  // --- What is stated is there ---

  /** A goal or focus with this key is live. */
  ghost predicate HasGoal(lex: Lexicon, d: Dict, value: string) {
    exists x :: HasLive(d, x) && GoalNamed(lex, lex.goalKey(value))(d.records[x])
  }

  lemma GoalAddedThere(lex: Lexicon, d: Dict, value: string, id: string, now: int)
    requires ValidReader(lex.read) && d.Valid()
    ensures HasGoal(lex, GoalAdded(lex, d, value, id, now), value)
  {
    var test := GoalNamed(lex, lex.goalKey(value));
    var e := GoalAdded(lex, d, value, id, now);
    if Hits(d, test) != [] {
      var r := Hits(d, test)[0];
      assert r in Hits(d, test);
      SelectMembers(Seen(d, Fact), test);
      SeenIsLive(d, Fact, r);
      assert HasLive(e, r.id) && test(e.records[r.id]);
    } else {
      assert e.records[id] == NewFact(Goal, value, id, now);
      assert HasLive(e, id) && test(e.records[id]);
    }
  }

  lemma PerformedStates(lex: Lexicon, d: Dict, action: Action, id: string, now: int)
    requires ValidReader(lex.read) && d.Valid()
    ensures var e := Performed(lex, d, action, id, now);
      && (action.Skip? ==> e == d)
      && (action.Tell? ==> Stated(lex, e, id, NewProfile(lex, action.relation, action.value)))
      && (action.AddGoal? ==> HasGoal(lex, e, action.value))
  {
    match action
    case Skip =>
    case Erase(_, _) =>
    case Tell(hits, rel, value) => AssertedStores(lex, Purged(d, hits, REMOVAL, now), rel, value, id, now);
    case AddGoal(hits, reason, value) => GoalAddedThere(lex, Purged(d, hits, reason, now), value, id, now);
  }

  /** The store states what the operation says; a goal may be stated by an equal one. */
  ghost predicate StatedIn(lex: Lexicon, e: Dict, op: Operation, id: string) {
    && StatedBy(op).Some?
    && (if StatedBy(op) == Some(Goal) then HasGoal(lex, e, op.value)
        else Stated(lex, e, id, NewProfile(lex, StatedBy(op).value, op.value)))
  }

  /** A refused operation changes nothing; a saved one leaves its fact in the store. */
  lemma AppliedStates(lex: Lexicon, d: Dict, op: Operation, id: string, now: int)
    requires ValidReader(lex.read) && d.Valid()
    ensures Plan(lex, d, op).1 == None ==> Applied(lex, d, op, id, now) == d
    ensures Plan(lex, d, op).1 == Some(true) ==> StatedIn(lex, Applied(lex, d, op, id, now), op, id)
  {
    PlanPlanned(lex, d, op);
    PerformedStates(lex, d, Plan(lex, d, op).0, id, now);
  }

  lemma BatchSavedMeansStated(lex: Lexicon, d: Dict, active: set<string>, op: Operation)
    requires d.Valid() && BatchPlan(lex, d, active, op).Some? && BatchPlan(lex, d, active, op).value.1
    ensures var action := BatchPlan(lex, d, active, op).value.0;
      (action.Tell? || action.AddGoal?) && StatedBy(op) != Some(NegativeAffection)
  {
  }

  /** A turn of a batch that counts as saved leaves its fact in the store. */
  lemma BatchStepStates(lex: Lexicon, b: Batch, item: Item)
    requires ValidReader(lex.read) && b.dict.Valid() && BatchStep(lex, b, item).saved > b.saved
    ensures StatedIn(lex, BatchStep(lex, b, item).dict, item.op, item.id)
  {
    BatchPlanSays(lex, b.dict, b.active, item.op);
    BatchSavedMeansStated(lex, b.dict, b.active, item.op);
    PerformedStates(lex, b.dict, BatchPlan(lex, b.dict, b.active, item.op).value.0, item.id, item.now);
  }

  // --- What is removed is gone ---

  /** No live fact that the test selects is left. */
  ghost predicate NoneLeft(lex: Lexicon, d: Dict, hit: MemoryRecord -> bool) {
    forall x :: HasLive(d, x) && d.records[x].kind == Fact && lex.read(d.records[x]).Some? ==> !hit(d.records[x])
  }

  lemma PurgeLeavesNone(lex: Lexicon, d: Dict, hit: MemoryRecord -> bool, reason: string, now: int)
    requires ValidReader(lex.read) && d.Valid() && WithinLimit(d)
    ensures NoneLeft(lex, Purged(d, Hits(d, hit), reason, now), hit)
  {
    var e := Purged(d, Hits(d, hit), reason, now);
    forall x | HasLive(e, x) && e.records[x].kind == Fact && lex.read(e.records[x]).Some? ensures !hit(e.records[x]) {
      HitsDeleted(d, hit, reason, now, x);
      SeenAll(d, Fact, x);
    }
  }

  /** Within the limit, no hit means that nothing matches. */
  lemma NothingToRemove(lex: Lexicon, d: Dict, hit: MemoryRecord -> bool)
    requires ValidReader(lex.read) && d.Valid() && WithinLimit(d) && Hits(d, hit) == []
    ensures NoneLeft(lex, d, hit)
  {
    PurgeLeavesNone(lex, d, hit, "", 0);
  }

  lemma ShrunkNoneLeft(lex: Lexicon, d: Dict, e: Dict, hit: MemoryRecord -> bool)
    requires Shrunk(d, e) && NoneLeft(lex, d, hit)
    ensures NoneLeft(lex, e, hit)
  {
  }

  /** Erasing what the first test hits, or, when it hits nothing, what the second one hits. */
  function FirstErased(d: Dict, first: MemoryRecord -> bool, why: string, second: MemoryRecord -> bool, whyElse: string): Action
    requires d.Valid()
  {
    if Hits(d, first) != [] then Erase(Hits(d, first), why)
    else if Hits(d, second) != [] then Erase(Hits(d, second), whyElse)
    else Skip
  }

  /** Nothing the first test selects is left, and when it selected nothing, nothing the second one selects. */
  lemma FirstErasedGone(lex: Lexicon, d: Dict, first: MemoryRecord -> bool, why: string, second: MemoryRecord -> bool,
                        whyElse: string, id: string, now: int)
    requires ValidReader(lex.read) && d.Valid() && WithinLimit(d)
    ensures var e := Performed(lex, d, FirstErased(d, first, why, second, whyElse), id, now);
      NoneLeft(lex, e, first) && (Hits(d, first) == [] ==> NoneLeft(lex, e, second))
  {
    if Hits(d, first) != [] {
      PurgeLeavesNone(lex, d, first, why, now);
    } else {
      NothingToRemove(lex, d, first);
      if Hits(d, second) != [] {
        PurgeLeavesNone(lex, d, second, whyElse, now);
        ShrunkNoneLeft(lex, d, Purged(d, Hits(d, second), whyElse, now), first);
      } else {
        NothingToRemove(lex, d, second);
      }
    }
  }

  function WorkTest(lex: Lexicon, op: Operation): MemoryRecord -> bool {
    Matching(lex, Occupation, lex.norm(op.value))
  }

  lemma GoalRemovalErases(lex: Lexicon, d: Dict, op: Operation)
    requires d.Valid() && op.op == Remove && op.domain == Aim && Acceptable(lex, op)
    ensures Plan(lex, d, op).0 == FirstErased(d, GoalHit(lex, op.key), "goal_superseded", WorkTest(lex, op), REMOVAL)
  {
  }

  lemma WorkRemovalErases(lex: Lexicon, d: Dict, op: Operation)
    requires d.Valid() && op.op == Remove && op.domain == Work && Acceptable(lex, op)
    ensures Plan(lex, d, op).0 ==
      FirstErased(d, WorkTest(lex, op), REMOVAL, GoalHit(lex, lex.goalKey(op.value)), "goal_superseded")
  {
  }

  /** Removing a goal leaves no goal or focus it hits; when it hits none, it leaves no occupation of that name. */
  lemma RemovedGoalIsGone(lex: Lexicon, d: Dict, op: Operation, id: string, now: int)
    requires ValidReader(lex.read) && d.Valid() && WithinLimit(d)
    requires op.op == Remove && op.domain == Aim && Acceptable(lex, op)
    ensures NoneLeft(lex, Applied(lex, d, op, id, now), GoalHit(lex, op.key))
    ensures Hits(d, GoalHit(lex, op.key)) == [] ==> NoneLeft(lex, Applied(lex, d, op, id, now), WorkTest(lex, op))
  {
    GoalRemovalErases(lex, d, op);
    FirstErasedGone(lex, d, GoalHit(lex, op.key), "goal_superseded", WorkTest(lex, op), REMOVAL, id, now);
  }

  /** Removing an occupation leaves no record of it; when there is none, it leaves no goal or focus it hits. */
  lemma RemovedWorkIsGone(lex: Lexicon, d: Dict, op: Operation, id: string, now: int)
    requires ValidReader(lex.read) && d.Valid() && WithinLimit(d)
    requires op.op == Remove && op.domain == Work && Acceptable(lex, op)
    ensures NoneLeft(lex, Applied(lex, d, op, id, now), WorkTest(lex, op))
    ensures Hits(d, WorkTest(lex, op)) == [] ==>
      NoneLeft(lex, Applied(lex, d, op, id, now), GoalHit(lex, lex.goalKey(op.value)))
  {
    WorkRemovalErases(lex, d, op);
    FirstErasedGone(lex, d, WorkTest(lex, op), REMOVAL, GoalHit(lex, lex.goalKey(op.value)), "goal_superseded", id, now);
  }

  lemma PersonRemovalPlanned(lex: Lexicon, d: Dict, op: Operation)
    requires d.Valid() && op.op == Remove && op.domain == Person && Acceptable(lex, op) && op.key in ShownAffections(lex, d)
    ensures Plan(lex, d, op).0 ==
      if Hits(d, Retracted(lex, op.value)) == [] then Skip else Retraction(lex, d, op.value)
  {
  }

  /** Removing a person who is shown as liked leaves no affection for that person. */
  lemma RemovedPersonIsGone(lex: Lexicon, d: Dict, op: Operation, id: string, now: int)
    requires ValidLexicon(lex) && d.Valid() && WithinLimit(d)
    requires op.op == Remove && op.domain == Person && Acceptable(lex, op) && op.key in ShownAffections(lex, d)
    ensures NoneLeft(lex, Applied(lex, d, op, id, now), Retracted(lex, op.value))
  {
    PersonRemovalPlanned(lex, d, op);
    if Hits(d, Retracted(lex, op.value)) == [] {
      NothingToRemove(lex, d, Retracted(lex, op.value));
    } else {
      RetractedIsGone(lex, d, op.value, id, now);
    }
  }

  // --- The same in a batch ---

  predicate BatchRemoves(op: Operation) {
    op.op == Remove || op.op == RemovePart
  }

  /** A goal removal in a batch leaves no goal or focus it hits. */
  lemma BatchGoalIsGone(lex: Lexicon, b: Batch, item: Item)
    requires ValidReader(lex.read) && b.dict.Valid() && WithinLimit(b.dict)
    requires BatchRemoves(item.op) && item.op.domain == Aim && Acceptable(lex, item.op)
    ensures NoneLeft(lex, BatchStep(lex, b, item).dict, GoalHit(lex, item.op.key))
  {
    GoalRemovalPlan(lex, b.dict, b.active, item.op);
    PurgeLeavesNone(lex, b.dict, GoalHit(lex, item.op.key), "goal_superseded", item.now);
  }

  lemma BatchPersonPlanned(lex: Lexicon, d: Dict, active: set<string>, op: Operation)
    requires d.Valid() && BatchRemoves(op) && op.domain == Person && Acceptable(lex, op)
    ensures BatchPlan(lex, d, active, op) ==
      if Hits(d, Retracted(lex, op.value)) == [] then None else Some((Retraction(lex, d, op.value), false))
  {
  }

  /** Removing a person in a batch leaves no affection for that person. */
  lemma BatchPersonIsGone(lex: Lexicon, b: Batch, item: Item)
    requires ValidLexicon(lex) && b.dict.Valid() && WithinLimit(b.dict)
    requires BatchRemoves(item.op) && item.op.domain == Person && Acceptable(lex, item.op)
    ensures NoneLeft(lex, BatchStep(lex, b, item).dict, Retracted(lex, item.op.value))
  {
    BatchPersonPlanned(lex, b.dict, b.active, item.op);
    if Hits(b.dict, Retracted(lex, item.op.value)) == [] {
      NothingToRemove(lex, b.dict, Retracted(lex, item.op.value));
    } else {
      RetractedIsGone(lex, b.dict, item.op.value, item.id, item.now);
    }
  }

  /** "I like nobody any more" leaves no affection at all. */
  lemma BatchAllPersonsGone(lex: Lexicon, b: Batch, item: Item)
    requires ValidReader(lex.read) && b.dict.Valid() && WithinLimit(b.dict)
    requires item.op.op == RemoveAll && item.op.domain == Person
    ensures NoneLeft(lex, BatchStep(lex, b, item).dict, AnyOf(lex, {Affection}))
  {
    PurgeLeavesNone(lex, b.dict, AnyOf(lex, {Affection}), REMOVAL, item.now);
  }

  lemma RetractedIsGone(lex: Lexicon, d: Dict, value: string, id: string, now: int)
    requires ValidLexicon(lex) && d.Valid() && WithinLimit(d)
    ensures NoneLeft(lex, Performed(lex, d, Retraction(lex, d, value), id, now), Retracted(lex, value))
  {
    var hit := Retracted(lex, value);
    PurgeLeavesNone(lex, d, hit, REMOVAL, now);
    AssertedAddsNone(lex, Purged(d, Hits(d, hit), REMOVAL, now), FirstNonEmpty(lex, Hits(d, hit)), hit, id, now);
  }

  /** Storing that a person is no longer liked adds no affection. */
  lemma AssertedAddsNone(lex: Lexicon, d: Dict, value: string, hit: MemoryRecord -> bool, id: string, now: int)
    requires ValidReader(lex.read) && d.Valid() && NoneLeft(lex, d, hit)
    requires forall r :: hit(r) ==> States(lex, r, {Affection})
    ensures NoneLeft(lex, Asserted(lex, d, NegativeAffection, value, id, now), hit)
  {
    var c := Clear(lex, d, NegativeAffection, value, now);
    var f := Asserted(lex, d, NegativeAffection, value, id, now);
    AssertedStores(lex, d, NegativeAffection, value, id, now);
    forall x | HasLive(f, x) && f.records[x].kind == Fact && lex.read(f.records[x]).Some? ensures !hit(f.records[x]) {
      if x != id {
        SavedElsewhere(c, Profile(NegativeAffection, value), id, now, x);
        assert HasLive(d, x) && f.records[x] == d.records[x];
      }
    }
  }

  lemma NoHitsLeft(lex: Lexicon, d: Dict, hit: MemoryRecord -> bool, other: MemoryRecord -> bool)
    requires d.Valid() && NoneLeft(lex, d, hit)
    requires forall r :: other(r) ==> hit(r) && lex.read(r).Some?
    ensures Hits(d, other) == []
  {
    SeenFactsLive(d);
    SelectMembers(Seen(d, Fact), other);
    NonEmptyHasMember(Hits(d, other));
  }

  /** An accepted "I only do X". */
  predicate ReplacesGoals(lex: Lexicon, op: Operation) {
    Acceptable(lex, op) && op.op == Switch && op.domain == Aim && op.source == GoalReplaceAll
  }

  function WithoutGoals(lex: Lexicon, d: Dict, now: int): (e: Dict)
    requires d.Valid()
    ensures Shrunk(d, e)
  {
    Purged(d, Hits(d, AnyOf(lex, {Goal, GoalFocus})), "goal_replaced", now)
  }

  lemma ReplacementPlanned(lex: Lexicon, d: Dict, op: Operation)
    requires d.Valid() && ReplacesGoals(lex, op)
    ensures Plan(lex, d, op).0 == AddGoal(Hits(d, AnyOf(lex, {Goal, GoalFocus})), "goal_replaced", op.value)
  {
  }

  lemma GoalAddition(lex: Lexicon, d: Dict, hits: seq<MemoryRecord>, reason: string, value: string, id: string, now: int)
    requires d.Valid()
    ensures Performed(lex, d, AddGoal(hits, reason, value), id, now) ==
      GoalAdded(lex, Purged(d, hits, reason, now), value, id, now)
  {
  }

  lemma ReplacementApplied(lex: Lexicon, d: Dict, op: Operation, id: string, now: int)
    requires d.Valid() && ReplacesGoals(lex, op)
    ensures Applied(lex, d, op, id, now) == GoalAdded(lex, WithoutGoals(lex, d, now), op.value, id, now)
  {
    ReplacementPlanned(lex, d, op);
    GoalAddition(lex, d, Hits(d, AnyOf(lex, {Goal, GoalFocus})), "goal_replaced", op.value, id, now);
  }

  /** "I only do X" leaves X as the one goal, stored anew, and no focus. */
  lemma OnlyGoalLeft(lex: Lexicon, d: Dict, op: Operation, id: string, now: int)
    requires ValidLexicon(lex) && d.Valid() && WithinLimit(d) && ReplacesGoals(lex, op)
    ensures OnlyGoal(lex, Applied(lex, d, op, id, now), op.value, id)
  {
    var e := WithoutGoals(lex, d, now);
    ReplacementApplied(lex, d, op, id, now);
    PurgeLeavesNone(lex, d, AnyOf(lex, {Goal, GoalFocus}), "goal_replaced", now);
    NoHitsLeft(lex, e, AnyOf(lex, {Goal, GoalFocus}), GoalNamed(lex, lex.goalKey(op.value)));
    OnlyGoalSaved(lex, e, op.value, id, now);
  }

  /** The fact `id` states the goal and no other live fact states a goal or a focus. */
  ghost predicate OnlyGoal(lex: Lexicon, e: Dict, value: string, id: string) {
    && Stated(lex, e, id, Profile(Goal, value))
    && forall x :: x != id && HasLive(e, x) && e.records[x].kind == Fact ==> !States(lex, e.records[x], {Goal, GoalFocus})
  }

  lemma OnlyGoalSaved(lex: Lexicon, d: Dict, value: string, id: string, now: int)
    requires ValidReader(lex.read) && d.Valid() && NoneLeft(lex, d, AnyOf(lex, {Goal, GoalFocus}))
    ensures OnlyGoal(lex, Saved(d, Profile(Goal, value), id, now), value, id)
  {
    var e := Saved(d, Profile(Goal, value), id, now);
    assert e.records[id] == NewFact(Goal, value, id, now);
    forall x | x != id && HasLive(e, x) && e.records[x].kind == Fact ensures !States(lex, e.records[x], {Goal, GoalFocus}) {
      assert HasLive(d, x) && !(lex.read(d.records[x]).Some? && AnyOf(lex, {Goal, GoalFocus})(d.records[x]));
    }
  }
}

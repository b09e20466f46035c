/**
 When a kernel operation applies, fails and saves, in terms of the operation and of the facts the
 store's searches show.
 */
module ProfileOutcome {
  import opened Wrappers
  import opened Text
  import opened StableSort
  import opened MemoryModel
  import opened SearchMeaning
  import opened ProfileModel
  import opened ProfileKernel
  import opened ProfileMeaning

  // --- What the searches show ---

  /** The kernel's search: the best 200 live records of one type that carry the profile tag. */
  lemma SeenAnswers(d: Dict, kind: MemoryType)
    requires d.Valid()
    ensures Answers(d, Query("", None, None, [kind], ["user_profile"], false, 200), AnyText(), Seen(d, kind))
  {
    FoundAnswers(d, ProfileQuery(kind), AnyText());
  }

  /** The first search shows a fact of this relation. */
  ghost predicate Shows(lex: Lexicon, d: Dict, r: MemoryRecord, p: Profile)
    requires d.Valid()
  {
    r in Seen(d, Fact) && lex.read(r) == Some(p)
  }

  ghost predicate ShowsLiking(lex: Lexicon, d: Dict, key: string)
    requires d.Valid()
  {
    exists r, name :: Shows(lex, d, r, Profile(Affection, name)) && lex.norm(name) == key
  }

  ghost predicate ShowsWork(lex: Lexicon, d: Dict, key: string)
    requires d.Valid()
  {
    exists r, work :: Shows(lex, d, r, Profile(Occupation, work)) && lex.norm(work) == key
  }

  predicate IsAim(p: Profile) {
    p.relation == Goal || p.relation == GoalFocus
  }

  /** A goal or the focus with this key. */
  ghost predicate ShowsGoal(lex: Lexicon, d: Dict, key: string)
    requires d.Valid()
  {
    exists r, p :: Shows(lex, d, r, p) && IsAim(p) && lex.goalKey(p.value) == key
  }

  /** A goal or the focus, not empty, that a removal by this key hits. */
  predicate AimHit(lex: Lexicon, p: Profile, key: string) {
    IsAim(p) && p.value != "" && lex.goalHit(p.value, key)
  }

  /** A goal or the focus that a removal by this key hits. */
  ghost predicate ShowsGoalFor(lex: Lexicon, d: Dict, key: string)
    requires d.Valid()
  {
    exists r, p :: Shows(lex, d, r, p) && AimHit(lex, p, key)
  }

  /** Shown in the profile snapshot by either search: a value that is neither empty nor dirty. */
  ghost predicate InSnapshot(lex: Lexicon, d: Dict, rel: Relation, value: string)
    requires d.Valid()
  {
    && value != "" && !lex.dirty(value)
    && exists r :: (r in Seen(d, Fact) || r in Seen(d, Preference)) && lex.read(r) == Some(Profile(rel, value))
  }

  ghost predicate SnapshotLikes(lex: Lexicon, d: Dict, key: string)
    requires d.Valid()
  {
    exists name :: InSnapshot(lex, d, Affection, name) && lex.norm(lex.person(name)) == key
  }

  ghost predicate SnapshotDislikes(lex: Lexicon, d: Dict, key: string)
    requires d.Valid()
  {
    exists thing :: InSnapshot(lex, d, Disliked, thing) && lex.norm(thing) == key
  }

  lemma HitsExist(d: Dict, test: MemoryRecord -> bool)
    requires d.Valid()
    ensures Hits(d, test) != [] <==> exists r :: r in Seen(d, Fact) && test(r)
  {
    SelectMembers(Seen(d, Fact), test);
    NonEmptyHasMember(Hits(d, test));
    if r :| r in Seen(d, Fact) && test(r) {
      assert r in Hits(d, test);
    }
  }

  lemma LikingHits(lex: Lexicon, d: Dict, value: string)
    requires d.Valid()
    ensures Hits(d, Retracted(lex, value)) != [] <==> ShowsLiking(lex, d, lex.memoryKey(value))
  {
    HitsExist(d, Retracted(lex, value));
    if r :| r in Seen(d, Fact) && Retracted(lex, value)(r) {
      assert Shows(lex, d, r, Profile(Affection, lex.read(r).value.value));
    }
    if r, name :| Shows(lex, d, r, Profile(Affection, name)) && lex.norm(name) == lex.memoryKey(value) {
      assert Retracted(lex, value)(r);
    }
  }

  lemma WorkHits(lex: Lexicon, d: Dict, op: Operation)
    requires d.Valid()
    ensures Hits(d, WorkTest(lex, op)) != [] <==> ShowsWork(lex, d, lex.norm(op.value))
  {
    HitsExist(d, WorkTest(lex, op));
    if r :| r in Seen(d, Fact) && WorkTest(lex, op)(r) {
      assert Shows(lex, d, r, Profile(Occupation, lex.read(r).value.value));
    }
    if r, work :| Shows(lex, d, r, Profile(Occupation, work)) && lex.norm(work) == lex.norm(op.value) {
      assert WorkTest(lex, op)(r);
    }
  }

  lemma GoalNamedHits(lex: Lexicon, d: Dict, value: string)
    requires d.Valid()
    ensures GoalActive(lex, d, value) <==> ShowsGoal(lex, d, lex.goalKey(value))
  {
    var test := GoalNamed(lex, lex.goalKey(value));
    HitsExist(d, test);
    if r :| r in Seen(d, Fact) && test(r) {
      assert Shows(lex, d, r, lex.read(r).value);
    }
    if r, p :| Shows(lex, d, r, p) && IsAim(p) && lex.goalKey(p.value) == lex.goalKey(value) {
      assert test(r);
    }
  }

  lemma GoalForHits(lex: Lexicon, d: Dict, key: string)
    requires d.Valid()
    ensures Hits(d, GoalHit(lex, key)) != [] <==> ShowsGoalFor(lex, d, key)
  {
    HitsExist(d, GoalHit(lex, key));
    if r :| r in Seen(d, Fact) && GoalHit(lex, key)(r) {
      assert Shows(lex, d, r, lex.read(r).value);
    }
    if r, p :| Shows(lex, d, r, p) && AimHit(lex, p, key) {
      assert GoalHit(lex, key)(r);
    }
  }

  lemma LikesExactly(lex: Lexicon, d: Dict, key: string)
    requires d.Valid()
    ensures key in ShownAffections(lex, d) <==> SnapshotLikes(lex, d, key)
  {
    if key in ShownAffections(lex, d) {
      var r :| r in SeenBoth(d) && lex.read(r).Some? && ShownAffection(lex)(r)
        && key == lex.norm(lex.person(lex.read(r).value.value));
      assert InSnapshot(lex, d, Affection, lex.read(r).value.value);
    }
    if SnapshotLikes(lex, d, key) {
      var name :| InSnapshot(lex, d, Affection, name) && lex.norm(lex.person(name)) == key;
      var r :| (r in Seen(d, Fact) || r in Seen(d, Preference)) && lex.read(r) == Some(Profile(Affection, name));
      assert r in SeenBoth(d) && ShownAffection(lex)(r);
    }
  }

  lemma DislikesExactly(lex: Lexicon, d: Dict, key: string)
    requires d.Valid()
    ensures ShowsDislike(lex, d, key) <==> SnapshotDislikes(lex, d, key)
  {
    var test := ShownDislike(lex, key);
    SelectMembers(SeenBoth(d), test);
    NonEmptyHasMember(HitsInBoth(d, test));
    if r :| r in SeenBoth(d) && test(r) {
      assert r in HitsInBoth(d, test);
      assert InSnapshot(lex, d, Disliked, lex.read(r).value.value);
    }
    if SnapshotDislikes(lex, d, key) {
      var thing :| InSnapshot(lex, d, Disliked, thing) && lex.norm(thing) == key;
      var r :| (r in Seen(d, Fact) || r in Seen(d, Preference)) && lex.read(r) == Some(Profile(Disliked, thing));
      assert r in SeenBoth(d) && test(r);
    }
  }

  // --- Acceptable operations ---

  /** A value that is not blank, not harmful, and well-shaped when something new is added. */
  predicate Proper(lex: Lexicon, op: Operation) {
    && (exists i :: 0 <= i < |op.value| && !IsSpace(op.value[i]))
    && lex.harmful(op.value) == false
    && (op.op in {Add, Switch} ==> lex.shaped(op.value))
  }

  lemma AcceptableExactly(lex: Lexicon, op: Operation)
    ensures Acceptable(lex, op) <==> Proper(lex, op)
  {
    var i, j := StripSlice(op.value);
    if i < j {
      assert !IsSpace(op.value[i..j][0]) && op.value[i..j][0] == op.value[i];
    }
  }

  // --- Batches ---

  /** The kinds of operation a batch supports in each domain. */
  predicate Supported(op: Operation) {
    || (op.domain == Ability && op.op in {Add, Negate})
    || (op.domain == Preferred && op.op in {Add, Negate})
    || (op.domain == Person && op.op in {Add, Remove, RemovePart})
    || (op.domain == Name && op.op in {Add, UpdateCurrent, Correct})
    || (op.domain == Relationship && op.op in {Add, UpdateCurrent, Correct})
    || (op.domain == Aim && op.op in {Add, Remove, RemovePart})
  }

  predicate RemovesAll(op: Operation) {
    op.op == RemoveAll && op.domain == Person
  }

  /** Why a turn fails. */
  ghost predicate TurnFails(lex: Lexicon, d: Dict, op: Operation)
    requires d.Valid()
  {
    && !RemovesAll(op)
    && (!Proper(lex, op) || !Supported(op)
        || (op.domain == Relationship && op.relationLabel == "")
        || (op.domain == Person && op.op in {Remove, RemovePart} && !ShowsLiking(lex, d, lex.memoryKey(op.value))))
  }

  /** What a turn counts as saved. */
  ghost predicate TurnSaves(lex: Lexicon, d: Dict, active: set<string>, op: Operation)
    requires d.Valid()
  {
    && !TurnFails(lex, d, op) && !RemovesAll(op)
    && (op.domain in {Ability, Preferred, Name, Relationship}
        || (op.domain == Person && op.op == Add && lex.norm(op.value) !in active)
        || (op.domain == Aim && op.op == Add && !ShowsGoal(lex, d, lex.goalKey(op.value))))
  }

  lemma PersonTurn(lex: Lexicon, d: Dict, active: set<string>, op: Operation)
    requires d.Valid() && op.domain == Person
    ensures var plan := BatchPlan(lex, d, active, op);
      (plan.None? <==> TurnFails(lex, d, op)) && (plan.Some? && plan.value.1 <==> TurnSaves(lex, d, active, op))
  {
    AcceptableExactly(lex, op);
    LikingHits(lex, d, op.value);
  }

  lemma AimTurnOutcome(lex: Lexicon, d: Dict, active: set<string>, op: Operation)
    requires d.Valid() && op.domain == Aim
    ensures var plan := BatchPlan(lex, d, active, op);
      (plan.None? <==> TurnFails(lex, d, op)) && (plan.Some? && plan.value.1 <==> TurnSaves(lex, d, active, op))
  {
    AcceptableExactly(lex, op);
    GoalRemovalPlan(lex, d, active, op);
    GoalNamedHits(lex, d, op.value);
  }

  lemma OtherTurn(lex: Lexicon, d: Dict, active: set<string>, op: Operation)
    requires d.Valid() && op.domain != Aim && op.domain != Person
    ensures var plan := BatchPlan(lex, d, active, op);
      (plan.None? <==> TurnFails(lex, d, op)) && (plan.Some? && plan.value.1 <==> TurnSaves(lex, d, active, op))
  {
    AcceptableExactly(lex, op);
  }

  lemma PlanExactly(lex: Lexicon, d: Dict, active: set<string>, op: Operation)
    requires d.Valid()
    ensures BatchPlan(lex, d, active, op).None? <==> TurnFails(lex, d, op)
    ensures BatchPlan(lex, d, active, op).Some? && BatchPlan(lex, d, active, op).value.1 <==> TurnSaves(lex, d, active, op)
  {
    if op.domain == Person {
      PersonTurn(lex, d, active, op);
    } else if op.domain == Aim {
      AimTurnOutcome(lex, d, active, op);
    } else {
      OtherTurn(lex, d, active, op);
    }
  }

  /** A turn of a batch fails and changes nothing exactly when `TurnFails`, and is counted as applied otherwise. */
  lemma TurnFailsExactly(lex: Lexicon, b: Batch, item: Item)
    requires b.dict.Valid()
    ensures TurnFails(lex, b.dict, item.op) ==> BatchStep(lex, b, item) == b.(failed := b.failed + 1)
    ensures !TurnFails(lex, b.dict, item.op) ==>
      BatchStep(lex, b, item).applied == b.applied + 1 && BatchStep(lex, b, item).failed == b.failed
  {
    PlanExactly(lex, b.dict, b.active, item.op);
  }

  /** It is counted as saved exactly when `TurnSaves`, and then its fact is in the store. */
  lemma TurnSavesExactly(lex: Lexicon, b: Batch, item: Item)
    requires ValidReader(lex.read) && b.dict.Valid()
    ensures BatchStep(lex, b, item).saved == b.saved + if TurnSaves(lex, b.dict, b.active, item.op) then 1 else 0
    ensures TurnSaves(lex, b.dict, b.active, item.op) ==> StatedIn(lex, BatchStep(lex, b, item).dict, item.op, item.id)
  {
    PlanExactly(lex, b.dict, b.active, item.op);
    if TurnSaves(lex, b.dict, b.active, item.op) {
      BatchStepStates(lex, b, item);
    }
  }

  /** A goal that no shown goal equals is stored under the new id. */
  lemma NewGoalSaved(lex: Lexicon, b: Batch, item: Item)
    requires ValidReader(lex.read) && b.dict.Valid()
    requires item.op.op == Add && item.op.domain == Aim && Proper(lex, item.op)
    requires !ShowsGoal(lex, b.dict, lex.goalKey(item.op.value))
    ensures Stated(lex, BatchStep(lex, b, item).dict, item.id, Profile(Goal, item.op.value))
    ensures BatchStep(lex, b, item).saved == b.saved + 1
  {
    AcceptableExactly(lex, item.op);
    GoalNamedHits(lex, b.dict, item.op.value);
    GoalRemovalPlan(lex, b.dict, b.active, item.op);
    assert Saved(b.dict, Profile(Goal, item.op.value), item.id, item.now).records[item.id]
        == NewFact(Goal, item.op.value, item.id, item.now);
  }

  // --- Single operations ---

  /** What a single operation is counted as saving. */
  ghost predicate OperationSaves(lex: Lexicon, d: Dict, op: Operation)
    requires d.Valid()
  {
    && Proper(lex, op)
    && ((op.op == Add && op.domain == Person && !SnapshotLikes(lex, d, op.key))
        || (op.op == Add && op.domain == Aim && !ShowsGoal(lex, d, lex.goalKey(op.value)))
        || (op.op == Switch && op.domain == Aim)
        || (op.op == UpdateCurrent && op.domain == Aim)
        || (op.op == UpdateCurrent && op.domain == Favourite)
        || (op.op == UpdateCurrent && op.domain == Relationship && op.relationLabel != "")
        || (op.op == UpdateCurrent && op.domain == Preferred && op.negative && !SnapshotDislikes(lex, d, op.key))
        || (op.op == UpdateCurrent && op.domain == Preferred && !op.negative
            && (op.source == ConditionalStateChange ==> SnapshotDislikes(lex, d, op.key))))
  }

  /** What a single operation does not apply to: the turn falls through to the other handlers. */
  ghost predicate OperationRefused(lex: Lexicon, d: Dict, op: Operation)
    requires d.Valid()
  {
    || !Proper(lex, op)
    || op.op in {Negate, Ask, Correct, RemovePart, RemoveAll}
    || (op.op == Add && op.domain !in {Person, Aim})
    || (op.op == Switch && op.domain != Aim)
    || (op.op == UpdateCurrent && op.domain !in {Relationship, Favourite, Preferred, Aim})
    || (op.op == UpdateCurrent && op.domain == Relationship && op.relationLabel == "")
    || (op.op == UpdateCurrent && op.domain == Preferred && !op.negative && op.source == ConditionalStateChange
        && !SnapshotDislikes(lex, d, op.key))
    || (op.op == Remove && op.domain !in {Work, Aim, Person})
    || (op.op == Remove && op.domain == Work
        && !ShowsWork(lex, d, lex.norm(op.value)) && !ShowsGoalFor(lex, d, lex.goalKey(op.value)))
    || (op.op == Remove && op.domain == Aim && op.source != GoalNegationSe
        && !ShowsGoalFor(lex, d, op.key) && !ShowsWork(lex, d, lex.norm(op.value)))
    || (op.op == Remove && op.domain == Person
        && !(SnapshotLikes(lex, d, op.key) && ShowsLiking(lex, d, lex.memoryKey(op.value))))
  }

  lemma WorkRemovalOutcome(lex: Lexicon, d: Dict, op: Operation)
    requires d.Valid() && op.op == Remove && op.domain == Work && Acceptable(lex, op)
    ensures RemovalPlan(lex, d, op).1 == None <==> OperationRefused(lex, d, op)
    ensures RemovalPlan(lex, d, op).1 != Some(true)
  {
    AcceptableExactly(lex, op);
    WorkHits(lex, d, op);
    GoalForHits(lex, d, lex.goalKey(op.value));
  }

  lemma GoalRemovalOutcome(lex: Lexicon, d: Dict, op: Operation)
    requires d.Valid() && op.op == Remove && op.domain == Aim && Acceptable(lex, op)
    ensures RemovalPlan(lex, d, op).1 == None <==> OperationRefused(lex, d, op)
    ensures RemovalPlan(lex, d, op).1 != Some(true)
  {
    AcceptableExactly(lex, op);
    WorkHits(lex, d, op);
    GoalForHits(lex, d, op.key);
  }

  lemma PersonRemovalOutcome(lex: Lexicon, d: Dict, op: Operation)
    requires d.Valid() && op.op == Remove && op.domain == Person && Acceptable(lex, op)
    ensures RemovalPlan(lex, d, op).1 == None <==> OperationRefused(lex, d, op)
    ensures RemovalPlan(lex, d, op).1 != Some(true)
  {
    AcceptableExactly(lex, op);
    LikingHits(lex, d, op.value);
    LikesExactly(lex, d, op.key);
  }

  lemma RemovalOutcome(lex: Lexicon, d: Dict, op: Operation)
    requires d.Valid() && op.op == Remove && Acceptable(lex, op)
    ensures RemovalPlan(lex, d, op).1 == None <==> OperationRefused(lex, d, op)
    ensures RemovalPlan(lex, d, op).1 != Some(true)
  {
    match op.domain
    case Work => WorkRemovalOutcome(lex, d, op);
    case Aim => GoalRemovalOutcome(lex, d, op);
    case Person => PersonRemovalOutcome(lex, d, op);
    case _ =>
  }

  lemma UpdateRefused(lex: Lexicon, d: Dict, op: Operation)
    requires d.Valid() && op.op == UpdateCurrent && Acceptable(lex, op)
    ensures UpdatePlan(lex, d, op).1 == None <==> OperationRefused(lex, d, op)
  {
    AcceptableExactly(lex, op);
    DislikesExactly(lex, d, op.key);
  }

  lemma UpdateSaved(lex: Lexicon, d: Dict, op: Operation)
    requires d.Valid() && op.op == UpdateCurrent && Acceptable(lex, op)
    ensures UpdatePlan(lex, d, op).1 == Some(true) <==> OperationSaves(lex, d, op)
  {
    AcceptableExactly(lex, op);
    DislikesExactly(lex, d, op.key);
  }

  lemma AdditionOutcome(lex: Lexicon, d: Dict, op: Operation)
    requires d.Valid() && op.op == Add && Acceptable(lex, op)
    ensures AdditionPlan(lex, d, op).1 == None <==> OperationRefused(lex, d, op)
    ensures AdditionPlan(lex, d, op).1 == Some(true) <==> OperationSaves(lex, d, op)
  {
    AcceptableExactly(lex, op);
    LikesExactly(lex, d, op.key);
    GoalNamedHits(lex, d, op.value);
  }

  /** The outcome of a single operation: refused, saved, or applied without saving. A saved fact is in the store. */
  lemma OutcomeExactly(lex: Lexicon, d: Dict, op: Operation, id: string, now: int)
    requires ValidReader(lex.read) && d.Valid()
    ensures Plan(lex, d, op).1 == None <==> OperationRefused(lex, d, op)
    ensures Plan(lex, d, op).1 == Some(true) <==> OperationSaves(lex, d, op)
    ensures OperationSaves(lex, d, op) ==> StatedIn(lex, Applied(lex, d, op, id, now), op, id)
    ensures OperationRefused(lex, d, op) ==> Applied(lex, d, op, id, now) == d
  {
    AcceptableExactly(lex, op);
    if Acceptable(lex, op) {
      match op.op
      case Remove => RemovalOutcome(lex, d, op);
      case UpdateCurrent =>
        UpdateRefused(lex, d, op);
        UpdateSaved(lex, d, op);
      case Add => AdditionOutcome(lex, d, op);
      case _ =>
    }
    AppliedStates(lex, d, op, id, now);
  }

  // --- Retractions ---

  lemma {:induction false} FirstNonEmptyNames(lex: Lexicon, hits: seq<MemoryRecord>)
    requires forall h :: h in hits ==> lex.read(h).Some?
    ensures hits != [] ==> exists h :: h in hits && lex.read(h).value.value == FirstNonEmpty(lex, hits)
    ensures (exists h :: h in hits && lex.read(h).value.value != "") ==> FirstNonEmpty(lex, hits) != ""
  {
    if hits != [] {
      assert hits[0] in hits;
      FirstNonEmptyNames(lex, hits[1..]);
      assert forall h :: h in hits <==> h == hits[0] || h in hits[1..];
      if FirstNonEmpty(lex, hits) != lex.read(hits[0]).value.value && hits[1..] != [] {
        var h :| h in hits[1..] && lex.read(h).value.value == FirstNonEmpty(lex, hits[1..]);
        assert h in hits;
      }
    }
  }

  /** A retraction states a person that one of the deleted records named, by a name that is not empty if one has such. */
  lemma RetractionNames(lex: Lexicon, d: Dict, value: string)
    requires d.Valid() && Hits(d, Retracted(lex, value)) != []
    ensures var action := Retraction(lex, d, value);
      && action.Tell? && action.relation == NegativeAffection
      && (exists r :: Shows(lex, d, r, Profile(Affection, action.value)) && lex.norm(action.value) == lex.memoryKey(value))
      && (forall r, name :: Shows(lex, d, r, Profile(Affection, name)) && lex.norm(name) == lex.memoryKey(value) && name != ""
            ==> action.value != "")
  {
    var test := Retracted(lex, value);
    var hits := Hits(d, test);
    SelectMembers(Seen(d, Fact), test);
    FirstNonEmptyNames(lex, hits);
    var h :| h in hits && lex.read(h).value.value == FirstNonEmpty(lex, hits);
    assert Shows(lex, d, h, Profile(Affection, FirstNonEmpty(lex, hits)));
    forall r, name | Shows(lex, d, r, Profile(Affection, name)) && lex.norm(name) == lex.memoryKey(value) && name != ""
      ensures FirstNonEmpty(lex, hits) != ""
    {
      assert test(r) && r in hits;
    }
  }

  // --- What is gone, in record terms ---

  /** A live fact record states this. */
  predicate FactLives(lex: Lexicon, d: Dict, x: string, p: Profile) {
    HasLive(d, x) && d.records[x].kind == Fact && lex.read(d.records[x]) == Some(p)
  }

  /** No goal or focus that the key hits. */
  ghost predicate NoAimFor(lex: Lexicon, d: Dict, key: string) {
    forall x, p :: FactLives(lex, d, x, p) ==> !AimHit(lex, p, key)
  }

  ghost predicate NoWorkNamed(lex: Lexicon, d: Dict, key: string) {
    forall x, p :: FactLives(lex, d, x, p) ==> !(p.relation == Occupation && lex.norm(p.value) == key)
  }

  ghost predicate NoLikingOf(lex: Lexicon, d: Dict, key: string) {
    forall x, p :: FactLives(lex, d, x, p) ==> !(p.relation == Affection && lex.norm(p.value) == key)
  }

  /** Which records the removals leave none of. */
  lemma GoneExactly(lex: Lexicon, d: Dict, op: Operation)
    ensures NoneLeft(lex, d, GoalHit(lex, op.key)) <==> NoAimFor(lex, d, op.key)
    ensures NoneLeft(lex, d, WorkTest(lex, op)) <==> NoWorkNamed(lex, d, lex.norm(op.value))
    ensures NoneLeft(lex, d, Retracted(lex, op.value)) <==> NoLikingOf(lex, d, lex.memoryKey(op.value))
  {
    GoalGone(lex, d, op.key);
    WorkGone(lex, d, op);
    LikingGone(lex, d, op.value);
  }

  lemma GoalGone(lex: Lexicon, d: Dict, key: string)
    ensures NoneLeft(lex, d, GoalHit(lex, key)) <==> NoAimFor(lex, d, key)
  {
    if !NoneLeft(lex, d, GoalHit(lex, key)) {
      var x :| HasLive(d, x) && d.records[x].kind == Fact && lex.read(d.records[x]).Some? && GoalHit(lex, key)(d.records[x]);
      assert FactLives(lex, d, x, lex.read(d.records[x]).value);
    }
  }

  lemma WorkGone(lex: Lexicon, d: Dict, op: Operation)
    ensures NoneLeft(lex, d, WorkTest(lex, op)) <==> NoWorkNamed(lex, d, lex.norm(op.value))
  {
    if !NoneLeft(lex, d, WorkTest(lex, op)) {
      var x :| HasLive(d, x) && d.records[x].kind == Fact && lex.read(d.records[x]).Some? && WorkTest(lex, op)(d.records[x]);
      assert FactLives(lex, d, x, lex.read(d.records[x]).value);
    }
  }

  lemma LikingGone(lex: Lexicon, d: Dict, value: string)
    ensures NoneLeft(lex, d, Retracted(lex, value)) <==> NoLikingOf(lex, d, lex.memoryKey(value))
  {
    if !NoneLeft(lex, d, Retracted(lex, value)) {
      var x :| HasLive(d, x) && d.records[x].kind == Fact && lex.read(d.records[x]).Some? && Retracted(lex, value)(d.records[x]);
      assert FactLives(lex, d, x, lex.read(d.records[x]).value);
    }
  }
}

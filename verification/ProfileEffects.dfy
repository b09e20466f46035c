/**
 What a kernel operation deletes, record by record: within the search limit a live record goes exactly
 when the operation names it or the stored fact supersedes it, and every other record stays as it was.
 */
module ProfileEffects {
  import opened Wrappers
  import opened Text
  import opened StableSort
  import opened MemoryModel
  import opened ProfileModel
  import opened ProfileKernel
  import opened ProfileSafety
  import opened ProfileMeaning
  import opened ProfileOutcome

  // --- Superseded facts ---

  /** The two polarities of one relation. */
  predicate Polar(a: Relation, b: Relation) {
    || (a == Liked && b == Disliked) || (a == Disliked && b == Liked)
    || (a == Skill && b == NegativeSkill) || (a == NegativeSkill && b == Skill)
    || (a == Affection && b == NegativeAffection) || (a == NegativeAffection && b == Affection)
    || (a == LikesUser && b == DislikesUser) || (a == DislikesUser && b == LikesUser)
  }

  ghost predicate OneThing(lex: Lexicon, v: string, w: string) {
    || lex.norm(v) == lex.norm(w)
    || exists term :: term in lex.terms(v) && term in lex.terms(w)
  }

  /** The two facts cannot stand together. */
  ghost predicate Contradict(lex: Lexicon, p: Profile, q: Profile) {
    || (Polar(p.relation, q.relation) && p.relation !in {Liked, Disliked} && lex.norm(p.value) == lex.norm(q.value))
    || (Polar(p.relation, q.relation) && p.relation in {Liked, Disliked} && p.value != "" && q.value != ""
        && OneThing(lex, Canon(lex.lower, p.value), Canon(lex.lower, q.value)))
    || (p.relation == GoalFocus && q.relation == GoalFocus)
    || (p.relation == Goal && q.relation == Goal && lex.goalKey(p.value) == lex.goalKey(q.value))
  }

  lemma ContradictExactly(lex: Lexicon, p: Profile, q: Profile)
    ensures FactsClash(lex, p, q) <==> Contradict(lex, p, q)
  {
  }

  /** Word by word, two known misspellings are corrected in whatever case they are written. */
  lemma CorrectedWords(lower: string -> string, value: string, i: nat)
    requires lower(BANANA) == BANANA && lower(ICE_CREAM) == ICE_CREAM
    requires i < |Words(value)|
    ensures var word := Words(value)[i];
      && |Words(Canon(lower, value))| == |Words(value)|
      && (lower(word) == "ch\U{1ED1}i" ==> Words(Canon(lower, value))[i] == "chu\U{1ED1}i")
      && (lower(word) == "lem" ==> Words(Canon(lower, value))[i] == "kem")
      && (lower(word) != "ch\U{1ED1}i" && lower(word) != "lem" ==> Words(Canon(lower, value))[i] == word)
  {
    var fixed := AllCorrected(lower, Words(value));
    forall w | w in fixed ensures IsWord(w) {
      var j :| 0 <= j < |fixed| && fixed[j] == w;
      assert Words(value)[j] in Words(value);
      CorrectedWord(lower, Words(value)[j]);
    }
    WordsOfJoin(fixed);
    LemIsNotMisspelt();
  }

  lemma LemIsNotMisspelt()
    ensures "lem" != "ch\U{1ED1}i"
  {
    assert "lem"[0] != "ch\U{1ED1}i"[0];
  }

  /** The record contradicts the new fact, or states it under a misspelling that is corrected now. */
  ghost predicate GivesWay(lex: Lexicon, r: MemoryRecord, p: Profile) {
    exists q :: lex.read(r) == Some(q)
      && (r.kind == Fact || (r.kind == Preference && q.relation in {Liked, Disliked}))
      && (Contradict(lex, q, p)
          || (q.relation == p.relation && q.relation in {Liked, Disliked} && q.value != ""
              && lex.norm(q.value) != lex.norm(Canon(lex.lower, p.value))
              && lex.norm(Canon(lex.lower, q.value)) == lex.norm(Canon(lex.lower, p.value))))
  }

  lemma SupersededExactly(lex: Lexicon, r: MemoryRecord, p: Profile)
    ensures Superseded(lex, r, p) <==> GivesWay(lex, r, p)
  {
    if lex.read(r).Some? {
      ContradictExactly(lex, lex.read(r).value, p);
    }
  }

  // --- What an action deletes ---

  ghost predicate Erases(lex: Lexicon, action: Action, r: MemoryRecord) {
    && !action.Skip?
    && (r in action.hits
        || (action.Tell? && Superseded(lex, r, NewProfile(lex, action.relation, action.value))))
  }

  lemma HitsPurged(d: Dict, hits: seq<MemoryRecord>, reason: string, now: int, x: string)
    requires d.Valid() && HasLive(d, x) && forall h :: h in hits ==> h in Seen(d, Fact)
    ensures HasLive(Purged(d, hits, reason, now), x) <==> d.records[x] !in hits
  {
    SeenFactsLive(d);
    PurgedLive(d, hits, reason, now, x);
    assert d.records[x].id == x;
  }

  lemma TellErases(lex: Lexicon, d: Dict, e: Dict, rel: Relation, value: string, id: string, now: int, x: string)
    requires ValidLexicon(lex) && d.Valid() && WithinLimit(d) && Shrunk(d, e) && HasLive(d, x) && x != id
    requires rel != Goal && Named(rel, value)
    ensures var f := Asserted(lex, e, rel, value, id, now);
      && (HasLive(f, x) <==> HasLive(e, x) && !Superseded(lex, d.records[x], NewProfile(lex, rel, value)))
      && (HasLive(f, x) ==> f.records[x] == d.records[x])
  {
    ShrunkWithinLimit(d, e);
    AssertedMeaning(lex, e, rel, value, id, now, x);
  }

  lemma GoalErases(lex: Lexicon, d: Dict, e: Dict, value: string, id: string, now: int, x: string)
    requires d.Valid() && e.Valid() && HasLive(d, x) && x != id
    requires HasLive(e, x) ==> e.records[x] == d.records[x]
    ensures var f := GoalAdded(lex, e, value, id, now);
      (HasLive(f, x) <==> HasLive(e, x)) && (HasLive(f, x) ==> f.records[x] == d.records[x])
  {
    SavedElsewhere(e, Profile(Goal, value), id, now, x);
  }

  lemma PerformedErases(lex: Lexicon, d: Dict, action: Action, id: string, now: int, x: string)
    requires ValidLexicon(lex) && d.Valid() && WithinLimit(d) && HasLive(d, x) && x != id
    requires !action.Skip? ==> forall h :: h in action.hits ==> h in Seen(d, Fact)
    requires action.Tell? ==> action.relation != Goal && Named(action.relation, action.value)
    ensures var e := Performed(lex, d, action, id, now);
      && (HasLive(e, x) <==> !Erases(lex, action, d.records[x]))
      && (HasLive(e, x) ==> e.records[x] == d.records[x])
  {
    match action
    case Skip =>
    case Erase(hits, reason) => HitsPurged(d, hits, reason, now, x);
    case Tell(hits, rel, value) =>
      HitsPurged(d, hits, REMOVAL, now, x);
      TellErases(lex, d, Purged(d, hits, REMOVAL, now), rel, value, id, now, x);
    case AddGoal(hits, reason, value) =>
      HitsPurged(d, hits, reason, now, x);
      GoalErases(lex, d, Purged(d, hits, reason, now), value, id, now, x);
  }

  // --- The records an operation names ---

  ghost predicate LikingOf(lex: Lexicon, d: Dict, key: string, r: MemoryRecord)
    requires d.Valid()
  {
    exists name :: Shows(lex, d, r, Profile(Affection, name)) && lex.norm(name) == key
  }

  ghost predicate SomeLiking(lex: Lexicon, d: Dict, r: MemoryRecord)
    requires d.Valid()
  {
    exists name :: Shows(lex, d, r, Profile(Affection, name))
  }

  ghost predicate WorkOf(lex: Lexicon, d: Dict, key: string, r: MemoryRecord)
    requires d.Valid()
  {
    exists work :: Shows(lex, d, r, Profile(Occupation, work)) && lex.norm(work) == key
  }

  ghost predicate AimFor(lex: Lexicon, d: Dict, key: string, r: MemoryRecord)
    requires d.Valid()
  {
    exists p :: Shows(lex, d, r, p) && AimHit(lex, p, key)
  }

  ghost predicate SomeAim(lex: Lexicon, d: Dict, r: MemoryRecord)
    requires d.Valid()
  {
    exists p :: Shows(lex, d, r, p) && IsAim(p)
  }

  /** The record states a name for this label. */
  predicate NameFor(lex: Lexicon, lbl: string, r: MemoryRecord) {
    lex.read(r).Some? && lex.read(r).value.relation == RelationName && lex.labelled(r, lbl)
  }

  function NameTest(lex: Lexicon, lbl: string): MemoryRecord -> bool {
    (r: MemoryRecord) => NameFor(lex, lbl, r)
  }

  predicate FirstAt(xs: seq<MemoryRecord>, keep: MemoryRecord -> bool, i: nat) {
    i < |xs| && keep(xs[i]) && forall j :: 0 <= j < i ==> !keep(xs[j])
  }

  /** The best of the 100 best shown facts that state a name for this label. */
  ghost predicate BestNameFor(lex: Lexicon, d: Dict, lbl: string, r: MemoryRecord)
    requires d.Valid()
  {
    exists i: nat :: i < 100 && FirstAt(Seen(d, Fact), NameTest(lex, lbl), i) && Seen(d, Fact)[i] == r
  }

  lemma {:induction false} FirstSelected(xs: seq<MemoryRecord>, keep: MemoryRecord -> bool)
    ensures Select(xs, keep) == [] ==> forall r :: r in xs ==> !keep(r)
    ensures Select(xs, keep) != [] ==> exists i: nat :: FirstAt(xs, keep, i) && xs[i] == Select(xs, keep)[0]
  {
    if xs != [] {
      FirstSelected(xs[1..], keep);
      if keep(xs[0]) {
        assert FirstAt(xs, keep, 0) && Select(xs, keep)[0] == xs[0];
      } else if Select(xs, keep) != [] {
        var i: nat :| FirstAt(xs[1..], keep, i) && xs[1..][i] == Select(xs, keep)[0];
        assert forall j :: 0 < j < i + 1 ==> xs[j] == xs[1..][j - 1];
        assert FirstAt(xs, keep, i + 1) && xs[i + 1] == xs[1..][i];
      } else {
        assert forall r :: r in xs <==> r == xs[0] || r in xs[1..];
      }
    }
  }

  lemma NameTests(lex: Lexicon, lbl: string, r: MemoryRecord)
    ensures Labelled(lex, lbl)(r) <==> NameTest(lex, lbl)(r)
  {
    assert NameFor(lex, lbl, r) <==> States(lex, r, {RelationName}) && lex.labelled(r, lbl);
    assert NameTest(lex, lbl)(r) <==> NameFor(lex, lbl, r);
    assert Labelled(lex, lbl)(r) <==> States(lex, r, {RelationName}) && lex.labelled(r, lbl);
  }

  lemma OneFirst(xs: seq<MemoryRecord>, keep: MemoryRecord -> bool, test: MemoryRecord -> bool, n: nat, i: nat, j: nat)
    requires forall r :: keep(r) <==> test(r)
    requires n <= |xs| && i < n && FirstAt(xs[..n], keep, i)
    ensures FirstAt(xs, test, i) && (FirstAt(xs, test, j) ==> i == j)
  {
    assert forall k :: 0 <= k < n ==> xs[..n][k] == xs[k];
  }

  lemma BestNameSelected(lex: Lexicon, d: Dict, lbl: string, r: MemoryRecord)
    requires d.Valid()
    ensures r in FirstLabelled(lex, d, lbl) <==> BestNameFor(lex, d, lbl, r)
  {
    var seen, keep, test := Seen(d, Fact), Labelled(lex, lbl), NameTest(lex, lbl);
    var n := if |seen| < 100 then |seen| else 100;
    assert Cut(seen, 100) == seen[..n];
    FirstSelected(seen[..n], keep);
    forall s ensures keep(s) <==> test(s) {
      NameTests(lex, lbl, s);
    }
    if FirstLabelled(lex, d, lbl) != [] {
      var i: nat :| FirstAt(seen[..n], keep, i) && seen[..n][i] == Select(seen[..n], keep)[0];
      OneFirst(seen, keep, test, n, i, i);
      assert FirstLabelled(lex, d, lbl) == [seen[i]];
      if BestNameFor(lex, d, lbl, r) {
        var j: nat :| j < 100 && FirstAt(seen, test, j) && seen[j] == r;
        OneFirst(seen, keep, test, n, i, j);
      }
    }
  }

  lemma LikingNamed(lex: Lexicon, d: Dict, value: string, r: MemoryRecord)
    requires d.Valid()
    ensures r in Hits(d, Retracted(lex, value)) <==> LikingOf(lex, d, lex.memoryKey(value), r)
  {
    SelectMembers(Seen(d, Fact), Retracted(lex, value));
    if r in Hits(d, Retracted(lex, value)) {
      assert Shows(lex, d, r, Profile(Affection, lex.read(r).value.value));
    }
  }

  lemma SomeLikingNamed(lex: Lexicon, d: Dict, r: MemoryRecord)
    requires d.Valid()
    ensures r in Hits(d, AnyOf(lex, {Affection})) <==> SomeLiking(lex, d, r)
  {
    SelectMembers(Seen(d, Fact), AnyOf(lex, {Affection}));
    if r in Hits(d, AnyOf(lex, {Affection})) {
      assert Shows(lex, d, r, Profile(Affection, lex.read(r).value.value));
    }
  }

  lemma WorkNamed(lex: Lexicon, d: Dict, op: Operation, r: MemoryRecord)
    requires d.Valid()
    ensures r in Hits(d, WorkTest(lex, op)) <==> WorkOf(lex, d, lex.norm(op.value), r)
  {
    SelectMembers(Seen(d, Fact), WorkTest(lex, op));
    if r in Hits(d, WorkTest(lex, op)) {
      assert Shows(lex, d, r, Profile(Occupation, lex.read(r).value.value));
    }
  }

  lemma AimsNamed(lex: Lexicon, d: Dict, key: string, r: MemoryRecord)
    requires d.Valid()
    ensures r in Hits(d, GoalHit(lex, key)) <==> AimFor(lex, d, key, r)
    ensures r in Hits(d, AnyOf(lex, {Goal, GoalFocus})) <==> SomeAim(lex, d, r)
  {
    SelectMembers(Seen(d, Fact), GoalHit(lex, key));
    SelectMembers(Seen(d, Fact), AnyOf(lex, {Goal, GoalFocus}));
    if lex.read(r).Some? {
      assert r in Seen(d, Fact) ==> Shows(lex, d, r, lex.read(r).value);
    }
  }

  // --- Turns of a batch ---

  /** The record is one that the turn names. */
  ghost predicate TurnNames(lex: Lexicon, d: Dict, op: Operation, r: MemoryRecord)
    requires d.Valid()
  {
    || (op.domain == Person && op.op == RemoveAll && SomeLiking(lex, d, r))
    || (op.domain == Person && op.op in {Remove, RemovePart} && LikingOf(lex, d, lex.memoryKey(op.value), r))
    || (op.domain == Aim && op.op in {Remove, RemovePart} && AimFor(lex, d, op.key, r))
    || (op.domain == Relationship && BestNameFor(lex, d, op.relationLabel, r))
  }

  /** The fact a saved turn of these domains states, for which older facts give way. */
  function Replacing(lex: Lexicon, op: Operation): Profile {
    match op.domain
    case Ability => Profile(if op.negative then NegativeSkill else Skill, op.value)
    case Preferred => Profile(if op.negative || op.op == Negate then Disliked else Liked, Canon(lex.lower, op.value))
    case _ => Profile(Affection, op.value)
  }

  ghost predicate TurnErases(lex: Lexicon, d: Dict, active: set<string>, op: Operation, r: MemoryRecord)
    requires d.Valid()
  {
    && !TurnFails(lex, d, op)
    && (TurnNames(lex, d, op, r)
        || (op.domain in {Ability, Preferred, Person} && TurnSaves(lex, d, active, op) && GivesWay(lex, r, Replacing(lex, op))))
  }

  lemma AffectionSuperseded(lex: Lexicon, r: MemoryRecord, name: string)
    requires Superseded(lex, r, Profile(NegativeAffection, name))
    ensures r.kind == Fact && Standing(lex, r)
    ensures exists other :: lex.read(r) == Some(Profile(Affection, other)) && lex.norm(other) == lex.norm(name)
  {
    assert lex.read(r) == Some(Profile(Affection, lex.read(r).value.value));
  }

  /** What a retraction supersedes it names. */
  lemma RetractionErases(lex: Lexicon, d: Dict, value: string, r: MemoryRecord)
    requires ValidLexicon(lex) && d.Valid() && WithinLimit(d) && Hits(d, Retracted(lex, value)) != []
    requires HasLive(d, r.id) && d.records[r.id] == r
    ensures Erases(lex, Retraction(lex, d, value), r) <==> LikingOf(lex, d, lex.memoryKey(value), r)
  {
    var name := Retraction(lex, d, value).value;
    LikingNamed(lex, d, value, r);
    RetractionNames(lex, d, value);
    if Superseded(lex, r, Profile(NegativeAffection, name)) {
      AffectionSuperseded(lex, r, name);
      StandingSeen(lex, d, r.id);
      SeenByKind(d, r);
      var other :| lex.read(r) == Some(Profile(Affection, other)) && lex.norm(other) == lex.norm(name);
      assert Shows(lex, d, r, Profile(Affection, other));
    }
  }

  lemma NothingSuperseded(lex: Lexicon, r: MemoryRecord, p: Profile)
    requires !HasRivals(p.relation) && p.relation != Goal
    ensures !Superseded(lex, r, p)
  {
    if Standing(lex, r) { NoRivalsNoClash(lex, p, lex.read(r).value); }
  }

  /** The turn's plan deletes what `TurnErases` says. */
  ghost predicate PlansErasing(lex: Lexicon, d: Dict, active: set<string>, op: Operation, r: MemoryRecord)
    requires d.Valid()
  {
    var plan := BatchPlan(lex, d, active, op);
    (plan.Some? && Erases(lex, plan.value.0, r)) <==> TurnErases(lex, d, active, op, r)
  }

  lemma PolarTurnErases(lex: Lexicon, d: Dict, active: set<string>, op: Operation, r: MemoryRecord)
    requires d.Valid() && op.domain in {Ability, Preferred}
    ensures PlansErasing(lex, d, active, op, r)
  {
    PlanExactly(lex, d, active, op);
    var plan := BatchPlan(lex, d, active, op);
    if plan.Some? {
      assert NewProfile(lex, plan.value.0.relation, plan.value.0.value) == Replacing(lex, op);
      SupersededExactly(lex, r, Replacing(lex, op));
    }
  }

  lemma NameTurnErases(lex: Lexicon, d: Dict, active: set<string>, op: Operation, r: MemoryRecord)
    requires d.Valid() && op.domain in {Name, Relationship}
    ensures PlansErasing(lex, d, active, op, r)
  {
    PlanExactly(lex, d, active, op);
    NothingSuperseded(lex, r, Profile(OwnName, op.value));
    NothingSuperseded(lex, r, Profile(RelationName, op.value));
    BestNameSelected(lex, d, op.relationLabel, r);
  }

  lemma AimTurnErases(lex: Lexicon, d: Dict, active: set<string>, op: Operation, r: MemoryRecord)
    requires d.Valid() && op.domain == Aim
    ensures PlansErasing(lex, d, active, op, r)
  {
    PlanExactly(lex, d, active, op);
    GoalRemovalPlan(lex, d, active, op);
    AimsNamed(lex, d, op.key, r);
  }

  lemma PersonAddErases(lex: Lexicon, d: Dict, active: set<string>, op: Operation, r: MemoryRecord)
    requires d.Valid() && op.domain == Person && op.op == Add
    ensures PlansErasing(lex, d, active, op, r)
  {
    PlanExactly(lex, d, active, op);
    SupersededExactly(lex, r, Profile(Affection, op.value));
  }

  lemma PersonRemoveErases(lex: Lexicon, d: Dict, active: set<string>, op: Operation, r: MemoryRecord)
    requires ValidLexicon(lex) && d.Valid() && WithinLimit(d) && HasLive(d, r.id) && d.records[r.id] == r
    requires op.domain == Person && op.op != Add
    ensures PlansErasing(lex, d, active, op, r)
  {
    PlanExactly(lex, d, active, op);
    SomeLikingNamed(lex, d, r);
    if Hits(d, Retracted(lex, op.value)) != [] {
      RetractionErases(lex, d, op.value, r);
    }
  }

  lemma PlanErases(lex: Lexicon, d: Dict, active: set<string>, op: Operation, r: MemoryRecord)
    requires ValidLexicon(lex) && d.Valid() && WithinLimit(d) && HasLive(d, r.id) && d.records[r.id] == r
    ensures PlansErasing(lex, d, active, op, r)
  {
    match op.domain
    case Ability => PolarTurnErases(lex, d, active, op, r);
    case Preferred => PolarTurnErases(lex, d, active, op, r);
    case Name => NameTurnErases(lex, d, active, op, r);
    case Relationship => NameTurnErases(lex, d, active, op, r);
    case Aim => AimTurnErases(lex, d, active, op, r);
    case Person =>
      if op.op == Add { PersonAddErases(lex, d, active, op, r); } else { PersonRemoveErases(lex, d, active, op, r); }
    case _ => PlanExactly(lex, d, active, op);
  }

  lemma PlanTells(lex: Lexicon, d: Dict, active: set<string>, op: Operation)
    requires d.Valid() && BatchPlan(lex, d, active, op).Some?
    ensures var action := BatchPlan(lex, d, active, op).value.0;
      action.Tell? ==> action.relation != Goal && Named(action.relation, action.value)
  {
  }

  /** A turn deletes exactly the records it names and those its fact supersedes; all others stay as they were. */
  lemma TurnErasesExactly(lex: Lexicon, b: Batch, item: Item, x: string)
    requires ValidLexicon(lex) && b.dict.Valid() && WithinLimit(b.dict) && HasLive(b.dict, x) && x != item.id
    ensures var e := BatchStep(lex, b, item).dict;
      && (HasLive(e, x) <==> !TurnErases(lex, b.dict, b.active, item.op, b.dict.records[x]))
      && (HasLive(e, x) ==> e.records[x] == b.dict.records[x])
  {
    var d, plan := b.dict, BatchPlan(lex, b.dict, b.active, item.op);
    PlanErases(lex, d, b.active, item.op, d.records[x]);
    if plan.Some? {
      BatchPlanFits(lex, d, b.active, item.op);
      PlanTells(lex, d, b.active, item.op);
      PerformedErases(lex, d, plan.value.0, item.id, item.now, x);
    }
  }

  // --- Single operations ---

  /** The fact a saved single operation states, for which older facts give way. */
  function UpdateReplacing(lex: Lexicon, op: Operation): Profile {
    match op.domain
    case Aim => Profile(GoalFocus, op.value)
    case Preferred => Profile(if op.negative then Disliked else Liked, Canon(lex.lower, op.value))
    case _ => Profile(Affection, op.value)
  }

  /** A removal takes the first kind of record it finds: the occupation before the goals, or the other way round. */
  ghost predicate RemovalNames(lex: Lexicon, d: Dict, op: Operation, r: MemoryRecord)
    requires d.Valid()
  {
    || (op.domain == Work && WorkOf(lex, d, lex.norm(op.value), r))
    || (op.domain == Work && !ShowsWork(lex, d, lex.norm(op.value)) && AimFor(lex, d, lex.goalKey(op.value), r))
    || (op.domain == Aim && AimFor(lex, d, op.key, r))
    || (op.domain == Aim && !ShowsGoalFor(lex, d, op.key) && WorkOf(lex, d, lex.norm(op.value), r))
    || (op.domain == Person && LikingOf(lex, d, lex.memoryKey(op.value), r))
  }

  ghost predicate OperationErases(lex: Lexicon, d: Dict, op: Operation, r: MemoryRecord)
    requires d.Valid()
  {
    && !OperationRefused(lex, d, op)
    && ((op.op == Remove && RemovalNames(lex, d, op, r))
        || (op.op == Switch && op.source == GoalReplaceAll && SomeAim(lex, d, r))
        || (op.op == Switch && op.source != GoalReplaceAll && AimFor(lex, d, op.key, r))
        || (op.op == UpdateCurrent && op.domain == Relationship && BestNameFor(lex, d, op.relationLabel, r))
        || (op.op == UpdateCurrent && op.domain in {Preferred, Aim} && OperationSaves(lex, d, op)
            && GivesWay(lex, r, UpdateReplacing(lex, op)))
        || (op.op == Add && op.domain == Person && OperationSaves(lex, d, op) && GivesWay(lex, r, UpdateReplacing(lex, op))))
  }

  ghost predicate OperationPlansErasing(lex: Lexicon, d: Dict, op: Operation, r: MemoryRecord)
    requires d.Valid()
  {
    Erases(lex, Plan(lex, d, op).0, r) <==> OperationErases(lex, d, op, r)
  }

  lemma PlanOutcome(lex: Lexicon, d: Dict, op: Operation)
    requires d.Valid()
    ensures Plan(lex, d, op).1 == None <==> OperationRefused(lex, d, op)
    ensures Plan(lex, d, op).1 == Some(true) <==> OperationSaves(lex, d, op)
    ensures Plan(lex, d, op).1 == None ==> Plan(lex, d, op).0.Skip?
  {
    AcceptableExactly(lex, op);
    if Acceptable(lex, op) {
      match op.op
      case Remove => RemovalOutcome(lex, d, op);
      case UpdateCurrent =>
        UpdateRefused(lex, d, op);
        UpdateSaved(lex, d, op);
      case Add => AdditionOutcome(lex, d, op);
      case _ =>
    }
  }

  lemma AimRemovalErases(lex: Lexicon, d: Dict, op: Operation, r: MemoryRecord)
    requires d.Valid() && op.op == Remove && op.domain in {Aim, Work}
    ensures OperationPlansErasing(lex, d, op, r)
  {
    PlanOutcome(lex, d, op);
    WorkNamed(lex, d, op, r);
    WorkHits(lex, d, op);
    var key := if op.domain == Aim then op.key else lex.goalKey(op.value);
    AimsNamed(lex, d, key, r);
    GoalForHits(lex, d, key);
  }

  lemma PersonRemovalPlan(lex: Lexicon, d: Dict, op: Operation)
    requires d.Valid() && op.op == Remove && op.domain == Person
    ensures Plan(lex, d, op).0 == if OperationRefused(lex, d, op) then Skip else Retraction(lex, d, op.value)
    ensures !OperationRefused(lex, d, op) ==> Hits(d, Retracted(lex, op.value)) != []
  {
    PlanOutcome(lex, d, op);
  }

  lemma PersonRemovalNames(lex: Lexicon, d: Dict, op: Operation, r: MemoryRecord)
    requires d.Valid() && op.op == Remove && op.domain == Person
    ensures OperationErases(lex, d, op, r) <==> !OperationRefused(lex, d, op) && LikingOf(lex, d, lex.memoryKey(op.value), r)
  {
  }

  lemma PersonRemovalErases(lex: Lexicon, d: Dict, op: Operation, r: MemoryRecord)
    requires ValidLexicon(lex) && d.Valid() && WithinLimit(d) && HasLive(d, r.id) && d.records[r.id] == r
    requires op.op == Remove && op.domain == Person
    ensures OperationPlansErasing(lex, d, op, r)
  {
    PersonRemovalPlan(lex, d, op);
    PersonRemovalNames(lex, d, op, r);
    if !OperationRefused(lex, d, op) {
      RetractionErases(lex, d, op.value, r);
    }
  }

  lemma NameUpdateErases(lex: Lexicon, d: Dict, op: Operation, r: MemoryRecord)
    requires d.Valid() && op.op == UpdateCurrent && op.domain !in {Preferred, Aim}
    ensures OperationPlansErasing(lex, d, op, r)
  {
    PlanOutcome(lex, d, op);
    NothingSuperseded(lex, r, Profile(Favorite, op.value));
    NothingSuperseded(lex, r, Profile(RelationName, op.value));
    BestNameSelected(lex, d, op.relationLabel, r);
  }

  lemma FactUpdateErases(lex: Lexicon, d: Dict, op: Operation, r: MemoryRecord)
    requires d.Valid() && op.op == UpdateCurrent && op.domain in {Preferred, Aim}
    ensures OperationPlansErasing(lex, d, op, r)
  {
    PlanOutcome(lex, d, op);
    SupersededExactly(lex, r, UpdateReplacing(lex, op));
  }

  lemma AdditionErases(lex: Lexicon, d: Dict, op: Operation, r: MemoryRecord)
    requires d.Valid() && op.op == Add
    ensures OperationPlansErasing(lex, d, op, r)
  {
    PlanOutcome(lex, d, op);
    SupersededExactly(lex, r, Profile(Affection, op.value));
  }

  lemma SwitchErases(lex: Lexicon, d: Dict, op: Operation, r: MemoryRecord)
    requires d.Valid() && op.op == Switch
    ensures OperationPlansErasing(lex, d, op, r)
  {
    PlanOutcome(lex, d, op);
    AimsNamed(lex, d, op.key, r);
  }

  lemma OperationPlanErases(lex: Lexicon, d: Dict, op: Operation, r: MemoryRecord)
    requires ValidLexicon(lex) && d.Valid() && WithinLimit(d) && HasLive(d, r.id) && d.records[r.id] == r
    ensures OperationPlansErasing(lex, d, op, r)
  {
    match op.op
    case Remove =>
      if op.domain == Person { PersonRemovalErases(lex, d, op, r); }
      else if op.domain in {Aim, Work} { AimRemovalErases(lex, d, op, r); }
      else { PlanOutcome(lex, d, op); }
    case UpdateCurrent =>
      if op.domain in {Preferred, Aim} { FactUpdateErases(lex, d, op, r); } else { NameUpdateErases(lex, d, op, r); }
    case Add => AdditionErases(lex, d, op, r);
    case Switch => SwitchErases(lex, d, op, r);
    case _ => PlanOutcome(lex, d, op);
  }

  lemma OperationTells(lex: Lexicon, d: Dict, op: Operation)
    requires d.Valid()
    ensures var action := Plan(lex, d, op).0; action.Tell? ==> action.relation != Goal && Named(action.relation, action.value)
  {
  }

  /** Likewise for a single operation. */
  lemma OperationErasesExactly(lex: Lexicon, d: Dict, op: Operation, id: string, now: int, x: string)
    requires ValidLexicon(lex) && d.Valid() && WithinLimit(d) && HasLive(d, x) && x != id
    ensures var e := Applied(lex, d, op, id, now);
      && (HasLive(e, x) <==> !OperationErases(lex, d, op, d.records[x]))
      && (HasLive(e, x) ==> e.records[x] == d.records[x])
  {
    OperationPlanErases(lex, d, op, d.records[x]);
    PlanPlanned(lex, d, op);
    OperationTells(lex, d, op);
    PerformedErases(lex, d, Plan(lex, d, op).0, id, now, x);
  }

  // --- Why a superseded fact was deleted ---

  /** Deleting touches live records only, and each of them once. */
  lemma {:induction false} PurgedRecord(d: Dict, hits: seq<MemoryRecord>, reason: string, now: int, x: string)
    requires d.Valid() && x in d.records
    ensures var e := Purged(d, hits, reason, now);
      x in e.records && (e.records[x] == d.records[x] || (HasLive(d, x) && e.records[x] == Deleted(d.records[x], reason, now)))
    decreases |hits|
  {
    if hits != [] {
      PurgedRecord(Removed(d, hits[0].id, reason, now), hits[1..], reason, now, x);
    }
  }

  /** The reason recorded with a fact that a new one supersedes. */
  function Cause(rel: Relation): string {
    match rel
    case Skill => "skill_conflict_resolved"
    case NegativeSkill => "skill_conflict_resolved"
    case Liked => "preference_conflict_resolved"
    case Disliked => "preference_conflict_resolved"
    case GoalFocus => "focus_superseded"
    case _ => "affection_polarity_superseded"
  }

  lemma CauseGiven(rel: Relation)
    requires HasRivals(rel)
    ensures ReasonFor(rel) == Cause(rel)
  {
  }

  /** These deletions go through this reason. */
  predicate DeletedFor(d: Dict, e: Dict, x: string, reason: string, now: int) {
    x in d.records && x in e.records && (HasLive(e, x) || e.records[x] == Deleted(d.records[x], reason, now))
  }

  lemma PurgedFor(d: Dict, hits: seq<MemoryRecord>, reason: string, now: int, x: string)
    requires d.Valid() && HasLive(d, x)
    ensures DeletedFor(d, Purged(d, hits, reason, now), x, reason, now)
  {
    PurgedRecord(d, hits, reason, now, x);
  }

  lemma ResolvedFor(lex: Lexicon, d: Dict, rel: Relation, value: string, now: int, x: string)
    requires d.Valid() && HasLive(d, x)
    ensures DeletedFor(d, Resolved(lex, d, rel, value, now), x, ReasonFor(rel), now)
  {
    if IsPreference(rel) {
      PurgedFor(d, HitsInBoth(d, Rivals(lex, rel, value)), ReasonFor(rel), now, x);
    } else if HasRivals(rel) {
      PurgedFor(d, Hits(d, Rivals(lex, rel, value)), ReasonFor(rel), now, x);
    }
  }

  lemma WithoutAliasesDead(lex: Lexicon, d: Dict, rel: Relation, value: string, now: int, x: string)
    requires d.Valid() && x in d.records && !HasLive(d, x)
    ensures var e := WithoutAliases(lex, d, rel, value, now); x in e.records && e.records[x] == d.records[x]
  {
    if IsPreference(rel) {
      PurgedRecord(d, HitsInBoth(d, AliasOf(lex, rel, Canon(lex.lower, value))), "preference_alias_canonicalized", now, x);
    }
  }

  lemma ClashHasRivals(lex: Lexicon, r: MemoryRecord, p: Profile)
    requires p.relation != Goal && ClashesWith(lex, r, p)
    ensures HasRivals(p.relation)
  {
    if !HasRivals(p.relation) { NoRivalsNoClash(lex, p, lex.read(r).value); }
  }

  /** A record that contradicts a stored fact is kept with the reason of its deletion. */
  lemma CauseRecorded(lex: Lexicon, d: Dict, rel: Relation, value: string, id: string, now: int, x: string)
    requires ValidLexicon(lex) && d.Valid() && WithinLimit(d) && HasLive(d, x) && x != id
    requires rel != Goal && Named(rel, value) && ClashesWith(lex, d.records[x], NewProfile(lex, rel, value))
    ensures var e := Asserted(lex, d, rel, value, id, now);
      x in e.records && e.records[x] == Deleted(d.records[x], Cause(rel), now)
  {
    var e := Resolved(lex, d, rel, value, now);
    ResolvedLive(lex, d, rel, value, now, x);
    StandingSeen(lex, d, x);
    ClashHasRivals(lex, d.records[x], NewProfile(lex, rel, value));
    CauseGiven(rel);
    ResolvedFor(lex, d, rel, value, now, x);
    WithoutAliasesDead(lex, e, rel, value, now, x);
    SavedOther(WithoutAliases(lex, e, rel, value, now), NewProfile(lex, rel, value), id, now, x);
  }

  lemma SavedOther(d: Dict, p: Profile, id: string, now: int, x: string)
    requires d.Valid() && x in d.records && x != id
    ensures x in Saved(d, p, id, now).records && Saved(d, p, id, now).records[x] == d.records[x]
  {
  }
}

/**
 Two batches that end otherwise than their words suggest, in general and at an input.
 */
module ProfileExamples {
  import opened Wrappers
  import opened Text
  import opened StableSort
  import opened MemoryModel
  import opened ProfileModel
  import opened ProfileKernel
  import opened ProfileSafety
  import opened ProfileRuns
  import opened ProfileMeaning

  function Op(kind: OpKind, domain: Domain, value: string): Operation {
    Operation(kind, domain, value, value, false, "", UserExplicit)
  }

  // --- Stores with one fact ---

  function OneFact(rel: Relation, value: string): (d: Dict)
    ensures d.Valid() && d.keys == ["1"]
  {
    Saved(EMPTY, Profile(rel, value), "1", 0)
  }

  lemma OneFactHolds(lex: Lexicon, rel: Relation, value: string)
    requires ValidReader(lex.read)
    ensures Stated(lex, OneFact(rel, value), "1", Profile(rel, value))
    ensures OneFact(rel, value).records["1"] == NewFact(rel, value, "1", 0)
    ensures forall x :: x in OneFact(rel, value).records ==> x == "1"
  {
  }

  /** One record is far within the search limit. */
  lemma OneFactFits(rel: Relation, value: string)
    ensures WithinLimit(OneFact(rel, value))
  {
    var vs := OneFact(rel, value).Values();
    SelectMembers(vs, ProfileRecord(Fact));
    SelectMembers(vs, ProfileRecord(Preference));
  }

  lemma OneFactSeen(lex: Lexicon, rel: Relation, value: string)
    requires ValidReader(lex.read) && rel != Liked
    ensures NewFact(rel, value, "1", 0) in Seen(OneFact(rel, value), Fact)
    ensures forall r :: r in Seen(OneFact(rel, value), Fact) ==> r == NewFact(rel, value, "1", 0)
  {
    var d := OneFact(rel, value);
    OneFactHolds(lex, rel, value);
    OneFactFits(rel, value);
    SeenAll(d, Fact, "1");
    SeenFactsLive(d);
  }

  // --- Goals are added, not replaced ---

  /** One goal stored, another added by a batch: both are live afterwards. */
  lemma OlderGoalSurvives(lex: Lexicon, kept: string, added: string)
    requires ValidReader(lex.read) && Acceptable(lex, Op(Add, Aim, added)) && lex.goalKey(kept) != lex.goalKey(added)
    ensures var d := OneFact(Goal, kept);
      var e := BatchRun(lex, BatchStart(lex, d), [Item(Op(Add, Aim, added), "2", 1)]).dict;
      Stated(lex, e, "1", Profile(Goal, kept)) && Stated(lex, e, "2", Profile(Goal, added))
  {
    var d, item := OneFact(Goal, kept), Item(Op(Add, Aim, added), "2", 1);
    var b := BatchStart(lex, d);
    OneFactHolds(lex, Goal, kept);
    assert "1"[0] != "2"[0];
    OneItem(lex, b, item);
    GoalAddKeepsAll(lex, b, item, "1");
    NewGoalStored(lex, d, b.active, kept, added);
  }

  lemma OneItem(lex: Lexicon, b: Batch, item: Item)
    requires b.dict.Valid()
    ensures BatchRun(lex, b, [item]) == BatchStep(lex, b, item)
  {
    assert [item][1..] == [];
    assert BatchRun(lex, BatchStep(lex, b, item), []) == BatchStep(lex, b, item);
  }

  lemma NewGoalStored(lex: Lexicon, d: Dict, active: set<string>, kept: string, added: string)
    requires ValidReader(lex.read) && d == OneFact(Goal, kept)
    requires Acceptable(lex, Op(Add, Aim, added)) && lex.goalKey(kept) != lex.goalKey(added)
    ensures Stated(lex, BatchStep(lex, Batch(d, active, 0, 0, 0), Item(Op(Add, Aim, added), "2", 1)).dict, "2", Profile(Goal, added))
  {
    var test := GoalNamed(lex, lex.goalKey(added));
    OneFactSeen(lex, Goal, kept);
    SelectMembers(Seen(d, Fact), test);
    NonEmptyHasMember(Hits(d, test));
    GoalRemovalPlan(lex, d, active, Op(Add, Aim, added));
    assert Purged(d, [], "", 1) == d;
    SavedHere(lex, d, Profile(Goal, added), "2", 1);
  }

  lemma SavedHere(lex: Lexicon, d: Dict, p: Profile, id: string, now: int)
    requires ValidReader(lex.read)
    ensures Stated(lex, Saved(d, p, id, now), id, p)
  {
    assert Saved(d, p, id, now).records[id] == NewFact(p.relation, p.value, id, now);
  }

  /** At an input: "swim" is kept when a batch adds "run". */
  lemma OlderGoalExample()
    ensures var lex := PlainLexicon();
      var e := BatchRun(lex, BatchStart(lex, OneFact(Goal, "swim")), [Item(Op(Add, Aim, "run"), "2", 1)]).dict;
      Stated(lex, e, "1", Profile(Goal, "swim")) && Stated(lex, e, "2", Profile(Goal, "run"))
  {
    PlainLexiconValid();
    assert |"swim"| != |"run"|;
    PlainlyAcceptable(Add, Aim, "run");
    OlderGoalSurvives(PlainLexicon(), "swim", "run");
  }

  lemma PlainlyAcceptable(kind: OpKind, domain: Domain, value: string)
    requires value != "" && Stripped(value)
    ensures Acceptable(PlainLexicon(), Op(kind, domain, value))
  {
    StrippedFixed(value);
  }

  // --- "No longer X, X again" ---

  /** A removal of a liked person and the addition of the same person in one batch: both count as applied, nothing is
      counted as saved, no affection for the person is left, and the person is stored as no longer liked. */
  lemma RemoveThenAdd(lex: Lexicon, d: Dict, remove: Item, add: Item)
    requires ValidLexicon(lex) && d.Valid() && WithinLimit(d)
    requires Acceptable(lex, remove.op) && remove.op.op == Remove && remove.op.domain == Person
    requires Adds(lex, add.op) && lex.norm(add.op.value) in ShownAffections(lex, d)
    requires Hits(d, Retracted(lex, remove.op.value)) != []
    ensures var b := BatchRun(lex, BatchStart(lex, d), [remove, add]);
      && b.applied == 2 && b.saved == 0 && NoneLeft(lex, b.dict, Retracted(lex, remove.op.value))
      && HasLive(b.dict, remove.id) && lex.read(b.dict.records[remove.id]).Some?
      && lex.read(b.dict.records[remove.id]).value.relation == NegativeAffection
  {
    var b := BatchStart(lex, d);
    RetractionPlanned(lex, d, b.active, remove.op);
    RetractedIsGone(lex, d, remove.op.value, remove.id, remove.now);
    PerformedStates(lex, d, Retraction(lex, d, remove.op.value), remove.id, remove.now);
    OneItem(lex, b, remove);
    ReAddIgnored(lex, d, [remove], add);
    TwoItems(lex, b, remove, add);
  }

  lemma RetractionPlanned(lex: Lexicon, d: Dict, active: set<string>, op: Operation)
    requires d.Valid() && Acceptable(lex, op) && op.op == Remove && op.domain == Person
    requires Hits(d, Retracted(lex, op.value)) != []
    ensures BatchPlan(lex, d, active, op) == Some((Retraction(lex, d, op.value), false))
  {
  }

  lemma TwoItems(lex: Lexicon, b: Batch, first: Item, second: Item)
    requires b.dict.Valid()
    ensures BatchRun(lex, b, [first, second]) == BatchStep(lex, BatchRun(lex, b, [first]), second)
  {
    OneItem(lex, b, first);
    assert [first, second][1..] == [second];
    OneItem(lex, BatchStep(lex, b, first), second);
  }

  lemma LikedAndShown(lex: Lexicon, name: string)
    requires ValidReader(lex.read) && name != "" && !lex.dirty(name)
    requires lex.norm(lex.person(name)) == lex.norm(name) == lex.memoryKey(name)
    ensures lex.norm(name) in ShownAffections(lex, OneFact(Affection, name))
    ensures Hits(OneFact(Affection, name), Retracted(lex, name)) != []
  {
    var d, r := OneFact(Affection, name), NewFact(Affection, name, "1", 0);
    OneFactSeen(lex, Affection, name);
    assert lex.read(r) == Some(Profile(Affection, name));
    assert r in SeenBoth(d) && ShownAffection(lex)(r);
    SelectMembers(Seen(d, Fact), Retracted(lex, name));
    assert r in Hits(d, Retracted(lex, name));
  }

  /** The batch "no longer `name`, `name` again" over a store that holds only that liking. */
  function RemoveThenAddBatch(lex: Lexicon, name: string): Batch {
    BatchRun(lex, BatchStart(lex, OneFact(Affection, name)),
             [Item(Op(Remove, Person, name), "2", 1), Item(Op(Add, Person, name), "3", 2)])
  }

  lemma RemoveThenAddOf(lex: Lexicon, name: string)
    requires ValidLexicon(lex) && name != "" && !lex.dirty(name)
    requires lex.norm(lex.person(name)) == lex.norm(name) == lex.memoryKey(name)
    requires Acceptable(lex, Op(Remove, Person, name)) && Acceptable(lex, Op(Add, Person, name))
    ensures var b := RemoveThenAddBatch(lex, name);
      b.applied == 2 && b.saved == 0 && NoneLeft(lex, b.dict, Retracted(lex, name))
  {
    LikedAndShown(lex, name);
    OneFactFits(Affection, name);
    RemoveThenAdd(lex, OneFact(Affection, name), Item(Op(Remove, Person, name), "2", 1), Item(Op(Add, Person, name), "3", 2));
  }

  lemma PlainNames(name: string)
    ensures var lex := PlainLexicon();
      !lex.dirty(name) && lex.norm(lex.person(name)) == lex.norm(name) == lex.memoryKey(name)
  {
  }

  /** At an input: "An" liked, then "no longer An, An again" in one batch. */
  lemma RemoveThenAddExample()
    ensures var b := RemoveThenAddBatch(PlainLexicon(), "An");
      b.applied == 2 && b.saved == 0 && NoneLeft(PlainLexicon(), b.dict, Retracted(PlainLexicon(), "An"))
  {
    PlainLexiconValid();
    PlainNames("An");
    PlainlyAcceptable(Remove, Person, "An");
    PlainlyAcceptable(Add, Person, "An");
    RemoveThenAddOf(PlainLexicon(), "An");
  }
}

/**
 Beyond the search limit: a record outranked by 200 others is not seen, so its contradiction survives.
 */
module ProfileLimit {
  import opened Wrappers
  import opened Text
  import opened StableSort
  import opened MemoryModel
  import opened ProfileModel
  import opened ProfileKernel
  import opened ProfileSafety
  import opened ProfileRuns

  predicate Outranks(r: MemoryRecord, s: MemoryRecord) {
    !Geq(Ranking()(s), Ranking()(r))
  }

  function Above(r: MemoryRecord): MemoryRecord -> bool {
    (s: MemoryRecord) => Outranks(s, r)
  }

  lemma {:induction false} InsertCount(x: MemoryRecord, ys: seq<MemoryRecord>, keep: MemoryRecord -> bool)
    ensures |Select(Insert(x, ys, Ranking()), keep)| == |Select(ys, keep)| + if keep(x) then 1 else 0
  {
    if ys == [] {
      assert [x][1..] == [];
    } else if Geq(Ranking()(x), Ranking()(ys[0])) {
      assert ([x] + ys)[1..] == ys;
    } else {
      InsertCount(x, ys[1..], keep);
      var rest := Insert(x, ys[1..], Ranking());
      assert ([ys[0]] + rest)[1..] == rest;
    }
  }

  lemma {:induction false} SortCount(xs: seq<MemoryRecord>, keep: MemoryRecord -> bool)
    ensures |Select(Sort(xs, Ranking()), keep)| == |Select(xs, keep)|
  {
    if xs != [] {
      SortCount(xs[1..], keep);
      InsertCount(xs[0], Sort(xs[1..], Ranking()), keep);
    }
  }

  /** In a ranked list only the records before position `k` outrank the record there. */
  lemma {:induction false} OutrankedBy(xs: seq<MemoryRecord>, k: nat)
    requires Descending(xs, Ranking()) && k < |xs|
    ensures |Select(xs, Above(xs[k]))| <= k
    decreases k
  {
    if k > 0 {
      OutrankedBy(xs[1..], k - 1);
      assert xs[1..][k - 1] == xs[k];
    } else {
      forall j | 0 <= j < |xs| ensures !Above(xs[0])(xs[j]) {
        assert j == 0 || Geq(Ranking()(xs[0]), Ranking()(xs[j]));
      }
      SelectNone(xs, Above(xs[0]));
    }
  }

  /** A record that 200 profile records of its type outrank is not among those seen. */
  lemma OutrankedUnseen(d: Dict, kind: MemoryType, r: MemoryRecord)
    requires d.Valid() && |Select(Select(d.Values(), ProfileRecord(kind)), Above(r))| >= SEARCH_LIMIT
    ensures r !in Seen(d, kind)
  {
    var all := Select(d.Values(), ProfileRecord(kind));
    var ranked := Sort(all, Ranking());
    SortDescending(all, Ranking());
    SortCount(all, Above(r));
    if r in Seen(d, kind) {
      var k :| 0 <= k < |Seen(d, kind)| && Seen(d, kind)[k] == r;
      assert ranked[k] == r && k < SEARCH_LIMIT;
      OutrankedBy(ranked, k);
      assert false;
    }
  }

  // --- A run from the empty store just beyond the limit ---

  function IdAt(i: nat): (id: string)
    ensures |id| == i + 1
  {
    seq(i + 1, _ => 'f')
  }

  function CannotOp(skill: string): Operation {
    Operation(Negate, Ability, skill, skill, true, "", UserExplicit)
  }

  function CanOp(skill: string): Operation {
    Operation(Add, Ability, skill, skill, false, "", UserExplicit)
  }

  function FavouriteOp(thing: string): Operation {
    Operation(UpdateCurrent, Favourite, thing, thing, false, "", UserExplicit)
  }

  /** "I cannot do it" at time 0, favourites at time 1. */
  function EventAt(skill: string, thing: string, i: nat): Event {
    if i == 0 then Many([Item(CannotOp(skill), IdAt(0), 0)]) else One(Item(FavouriteOp(thing), IdAt(i), 1))
  }

  function Events(skill: string, thing: string, n: nat): (events: seq<Event>)
    ensures |events| == n
  {
    if n == 0 then [] else Events(skill, thing, n - 1) + [EventAt(skill, thing, n - 1)]
  }

  /** The record event `i` stores. */
  function Told(skill: string, thing: string, i: nat): MemoryRecord {
    if i == 0 then NewFact(NegativeSkill, skill, IdAt(0), 0) else NewFact(Favorite, thing, IdAt(i), 1)
  }

  /** The store holds exactly the records of the first `n` events, in order. */
  ghost predicate Holds(d: Dict, skill: string, thing: string, n: nat) {
    && d.Valid() && |d.keys| == n
    && (forall i :: 0 <= i < n ==> d.keys[i] == IdAt(i))
    && (forall i :: 0 <= i < n ==> d.records[d.keys[i]] == Told(skill, thing, i))
  }

  lemma IdUnused(d: Dict, skill: string, thing: string, n: nat)
    requires Holds(d, skill, thing, n)
    ensures IdAt(n) !in d.records
  {
    forall i | 0 <= i < n ensures d.keys[i] != IdAt(n) {
      assert |d.keys[i]| == i + 1;
    }
    assert IdAt(n) !in d.keys;
  }

  /** Storing the next record. */
  lemma HoldsMore(d: Dict, skill: string, thing: string, n: nat, p: Profile, now: int)
    requires Holds(d, skill, thing, n) && NewFact(p.relation, p.value, IdAt(n), now) == Told(skill, thing, n)
    ensures Holds(Saved(d, p, IdAt(n), now), skill, thing, n + 1)
  {
    var e := Saved(d, p, IdAt(n), now);
    IdUnused(d, skill, thing, n);
    assert e.keys == d.keys + [IdAt(n)];
    assert e.records[IdAt(n)] == Told(skill, thing, n);
    forall i | 0 <= i < n ensures e.records[e.keys[i]] == Told(skill, thing, i) {
      assert d.keys[i] in d.records;
    }
  }

  lemma FavouritePlanned(lex: Lexicon, d: Dict, thing: string)
    requires d.Valid() && Acceptable(lex, FavouriteOp(thing))
    ensures Plan(lex, d, FavouriteOp(thing)).0 == Tell([], Favorite, thing)
  {
    assert Plan(lex, d, FavouriteOp(thing)) == UpdatePlan(lex, d, FavouriteOp(thing));
  }

  /** A fact of a relation without rivals is just stored. */
  lemma PlainlyStored(lex: Lexicon, d: Dict, rel: Relation, value: string, id: string, now: int)
    requires d.Valid() && !HasRivals(rel) && !IsPreference(rel)
    ensures Asserted(lex, d, rel, value, id, now) == Saved(d, Profile(rel, value), id, now)
  {
    assert Resolved(lex, d, rel, value, now) == d;
    assert Clear(lex, d, rel, value, now) == d;
  }

  lemma FavouriteStored(lex: Lexicon, d: Dict, thing: string, id: string, now: int)
    requires d.Valid() && Acceptable(lex, FavouriteOp(thing))
    ensures Applied(lex, d, FavouriteOp(thing), id, now) == Saved(d, Profile(Favorite, thing), id, now)
  {
    FavouritePlanned(lex, d, thing);
    PlainlyStored(lex, d, Favorite, thing, id, now);
    TellAlone(lex, d, Favorite, thing, id, now);
  }

  lemma TellAlone(lex: Lexicon, d: Dict, rel: Relation, value: string, id: string, now: int)
    requires d.Valid()
    ensures Performed(lex, d, Tell([], rel, value), id, now) == Asserted(lex, d, rel, value, id, now)
  {
    assert Purged(d, [], REMOVAL, now) == d;
  }

  lemma EmptyUnseen(hit: MemoryRecord -> bool)
    ensures EMPTY.Valid() && Hits(EMPTY, hit) == []
  {
    SeenFactsLive(EMPTY);
    SelectMembers(Seen(EMPTY, Fact), hit);
    NonEmptyHasMember(Hits(EMPTY, hit));
  }

  /** A batch of one skill operation asserts that skill. */
  lemma SkillBatch(lex: Lexicon, d: Dict, op: Operation, id: string, now: int)
    requires d.Valid() && Acceptable(lex, op) && op.domain == Ability && (op.op == Add || op.op == Negate)
    ensures BatchRun(lex, BatchStart(lex, d), [Item(op, id, now)]).dict ==
      Asserted(lex, d, if op.negative then NegativeSkill else Skill, op.value, id, now)
  {
    var b, item := BatchStart(lex, d), Item(op, id, now);
    SkillPlan(lex, d, b.active, op);
    assert [item][1..] == [];
    assert BatchRun(lex, b, [item]) == BatchRun(lex, BatchStep(lex, b, item), []) == BatchStep(lex, b, item);
    TellAlone(lex, d, if op.negative then NegativeSkill else Skill, op.value, id, now);
  }

  lemma SkillPlan(lex: Lexicon, d: Dict, active: set<string>, op: Operation)
    requires d.Valid() && Acceptable(lex, op) && op.domain == Ability && (op.op == Add || op.op == Negate)
    ensures BatchPlan(lex, d, active, op) == Some((Tell([], if op.negative then NegativeSkill else Skill, op.value), true))
  {
  }

  lemma FirstSkillStored(lex: Lexicon, skill: string, id: string, now: int)
    ensures EMPTY.Valid() && Asserted(lex, EMPTY, NegativeSkill, skill, id, now) ==
      Saved(EMPTY, Profile(NegativeSkill, skill), id, now)
  {
    EmptyUnseen(Rivals(lex, NegativeSkill, skill));
  }

  lemma {:induction false} RunMore(lex: Lexicon, d: Dict, events: seq<Event>, event: Event)
    requires d.Valid()
    ensures Run(lex, d, events + [event]) == After(lex, Run(lex, d, events), event)
    decreases |events|
  {
    if events == [] {
      assert [] + [event] == [event] && [event][1..] == [];
      assert Run(lex, d, [event]) == Run(lex, After(lex, d, event), []);
    } else {
      RunMore(lex, After(lex, d, events[0]), events[1..], event);
      assert (events + [event])[1..] == events[1..] + [event];
    }
  }

  predicate Tellable(lex: Lexicon, skill: string, thing: string) {
    Acceptable(lex, CannotOp(skill)) && Acceptable(lex, CanOp(skill)) && Acceptable(lex, FavouriteOp(thing))
  }

  lemma NextEvent(lex: Lexicon, skill: string, thing: string, d: Dict, n: nat)
    requires Tellable(lex, skill, thing) && Holds(d, skill, thing, n) && (n == 0 ==> d == EMPTY)
    ensures Holds(After(lex, d, EventAt(skill, thing, n)), skill, thing, n + 1)
  {
    if n == 0 {
      SkillBatch(lex, d, CannotOp(skill), IdAt(0), 0);
      FirstSkillStored(lex, skill, IdAt(0), 0);
      HoldsMore(d, skill, thing, n, Profile(NegativeSkill, skill), 0);
    } else {
      FavouriteStored(lex, d, thing, IdAt(n), 1);
      HoldsMore(d, skill, thing, n, Profile(Favorite, thing), 1);
    }
  }

  lemma {:induction false} RunHolds(lex: Lexicon, skill: string, thing: string, n: nat)
    requires Tellable(lex, skill, thing)
    ensures EMPTY.Valid() && Holds(Run(lex, EMPTY, Events(skill, thing, n)), skill, thing, n)
    ensures n == 0 ==> Run(lex, EMPTY, Events(skill, thing, n)) == EMPTY
  {
    if n > 0 {
      RunHolds(lex, skill, thing, n - 1);
      var before := Events(skill, thing, n - 1);
      RunMore(lex, EMPTY, before, EventAt(skill, thing, n - 1));
      NextEvent(lex, skill, thing, Run(lex, EMPTY, before), n - 1);
    }
  }

  // --- What that store contradicts ---

  lemma ToldShape(skill: string, thing: string, i: nat)
    ensures var r := Told(skill, thing, i);
      r.Live() && r.kind == Fact && PROFILE_TAG in r.tags && r.updatedAt == (if i == 0 then 0 else 1) && r.importance == 0.8
  {
  }

  lemma ToldReads(lex: Lexicon, skill: string, thing: string, i: nat)
    requires ValidReader(lex.read)
    ensures lex.read(Told(skill, thing, i)) == Some(if i == 0 then Profile(NegativeSkill, skill) else Profile(Favorite, thing))
  {
  }

  lemma ToldNoClash(lex: Lexicon, skill: string, thing: string, i: nat, j: nat)
    requires ValidReader(lex.read) && i != j
    ensures !Clash(lex, Told(skill, thing, i), Told(skill, thing, j))
  {
    ToldReads(lex, skill, thing, i);
    ToldReads(lex, skill, thing, j);
  }

  lemma HoldsClashFree(lex: Lexicon, d: Dict, skill: string, thing: string, n: nat)
    requires ValidReader(lex.read) && Holds(d, skill, thing, n)
    ensures ClashFree(lex, d)
  {
    forall a, b | HasLive(d, a) && HasLive(d, b) && a != b ensures !Clash(lex, d.records[a], d.records[b]) {
      var i :| 0 <= i < n && d.keys[i] == a;
      var j :| 0 <= j < n && d.keys[j] == b;
      ToldNoClash(lex, skill, thing, i, j);
    }
  }

  lemma HoldsCount(d: Dict, skill: string, thing: string)
    requires Holds(d, skill, thing, SEARCH_LIMIT + 1)
    ensures |Select(Select(d.Values(), ProfileRecord(Fact)), Above(Told(skill, thing, 0)))| >= SEARCH_LIMIT
  {
    var vs := d.Values();
    forall i | 0 <= i < |vs| ensures ProfileRecord(Fact)(vs[i]) {
      ToldShape(skill, thing, i);
      ProfileRecordMeaning(Fact, vs[i]);
    }
    SelectAll(vs, ProfileRecord(Fact));
    var rest := vs[1..];
    forall i | 0 <= i < |rest| ensures Above(Told(skill, thing, 0))(rest[i]) {
      ToldShape(skill, thing, i + 1);
      ToldShape(skill, thing, 0);
    }
    SelectAll(rest, Above(Told(skill, thing, 0)));
  }

  lemma ToldClashes(lex: Lexicon, skill: string, thing: string)
    requires ValidLexicon(lex)
    ensures ClashesWith(lex, Told(skill, thing, 0), NewProfile(lex, Skill, skill))
  {
    ToldShape(skill, thing, 0);
    ToldReads(lex, skill, thing, 0);
  }

  lemma HoldsUnreached(lex: Lexicon, d: Dict, skill: string, thing: string)
    requires ValidLexicon(lex) && Holds(d, skill, thing, SEARCH_LIMIT + 1)
    ensures !Reaches(lex, d, NewProfile(lex, Skill, skill))
  {
    var r := Told(skill, thing, 0);
    HoldsCount(d, skill, thing);
    OutrankedUnseen(d, Fact, r);
    ToldShape(skill, thing, 0);
    ToldClashes(lex, skill, thing);
    assert HasLive(d, d.keys[0]) && d.records[d.keys[0]] == r;
    if r in SeenBoth(d) {
      SeenByKind(d, r);
    }
  }

  /** "I cannot", the limit's worth of favourites, "I can": from the empty store this run leaves the skill stored in
      both polarities. Up to the last event nothing clashed. */
  lemma CrowdedRunContradicts(lex: Lexicon, skill: string, thing: string)
    requires ValidLexicon(lex) && Tellable(lex, skill, thing)
    ensures EMPTY.Valid()
    ensures var before := Events(skill, thing, SEARCH_LIMIT + 1);
      var last := Many([Item(CanOp(skill), IdAt(SEARCH_LIMIT + 1), 2)]);
      && ClashFree(lex, Run(lex, EMPTY, before))
      && !ClashFree(lex, Run(lex, EMPTY, before + [last]))
  {
    var before, n := Events(skill, thing, SEARCH_LIMIT + 1), SEARCH_LIMIT + 1;
    RunHolds(lex, skill, thing, n);
    var d := Run(lex, EMPTY, before);
    RunMore(lex, EMPTY, before, Many([Item(CanOp(skill), IdAt(n), 2)]));
    SkillBatch(lex, d, CanOp(skill), IdAt(n), 2);
    HoldsClashFree(lex, d, skill, thing, n);
    HoldsUnreached(lex, d, skill, thing);
    IdUnused(d, skill, thing, n);
    AssertedKeepsClashFree(lex, d, Skill, skill, IdAt(n), 2);
  }

  lemma CrowdedRun(lex: Lexicon, text: string) returns (events: seq<Event>)
    requires ValidLexicon(lex) && Tellable(lex, text, text)
    ensures EMPTY.Valid() && !ClashFree(lex, Run(lex, EMPTY, events))
  {
    CrowdedRunContradicts(lex, text, text);
    events := Events(text, text, SEARCH_LIMIT + 1) + [Many([Item(CanOp(text), IdAt(SEARCH_LIMIT + 1), 2)])];
  }

  /** Such a run exists. */
  lemma CrowdedRunExample() returns (events: seq<Event>)
    ensures EMPTY.Valid() && !ClashFree(PlainLexicon(), Run(PlainLexicon(), EMPTY, events))
  {
    PlainLexiconValid();
    PlainlyTellable("Go");
    events := CrowdedRun(PlainLexicon(), "Go");
  }

  lemma PlainlyTellable(text: string)
    requires text != "" && Stripped(text)
    ensures Tellable(PlainLexicon(), text, text)
  {
    StrippedFixed(text);
  }
}

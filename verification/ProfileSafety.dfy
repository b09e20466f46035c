/**
 Whole-run invariants of the memory kernel: while the live profile records of each searched type fit
 the search limit, no two live facts contradict each other. Beyond the limit an operation keeps this
 exactly when every record it would have to supersede is among those the search shows.
 */
module ProfileSafety {
  import opened Wrappers
  import opened Text
  import opened StableSort
  import opened MemoryModel
  import opened ProfileModel
  import opened ProfileKernel

  // --- Deleting ---

  lemma ShrunkKeepsClashFree(lex: Lexicon, d: Dict, e: Dict)
    requires Shrunk(d, e) && ClashFree(lex, d)
    ensures ClashFree(lex, e)
  {
  }

  lemma {:induction false} FewerSelected(xs: seq<MemoryRecord>, ys: seq<MemoryRecord>, keep: MemoryRecord -> bool)
    requires |xs| == |ys| && forall i :: 0 <= i < |ys| && keep(ys[i]) ==> keep(xs[i])
    ensures |Select(ys, keep)| <= |Select(xs, keep)|
  {
    if xs != [] {
      FewerSelected(xs[1..], ys[1..], keep);
    }
  }

  lemma ShrunkFits(d: Dict, e: Dict, kind: MemoryType)
    requires d.Valid() && Shrunk(d, e) && Fits(d, kind)
    ensures Fits(e, kind)
  {
    var xs, ys, keep := d.Values(), e.Values(), ProfileRecord(kind);
    forall i | 0 <= i < |ys| && keep(ys[i]) ensures keep(xs[i]) {
      assert HasLive(e, e.keys[i]);
    }
    FewerSelected(xs, ys, keep);
  }

  lemma ShrunkWithinLimit(d: Dict, e: Dict)
    requires d.Valid() && Shrunk(d, e) && WithinLimit(d)
    ensures WithinLimit(e)
  {
    ShrunkFits(d, e, Fact);
    ShrunkFits(d, e, Preference);
  }

  /** Exactly the ids of the hits are no longer live. */
  lemma {:induction false} PurgedLive(d: Dict, hits: seq<MemoryRecord>, reason: string, now: int, x: string)
    requires d.Valid() && HasLive(d, x)
    ensures HasLive(Purged(d, hits, reason, now), x) <==> forall h :: h in hits ==> h.id != x
    decreases |hits|
  {
    if hits != [] {
      var rest := Removed(d, hits[0].id, reason, now);
      assert Purged(d, hits, reason, now) == Purged(rest, hits[1..], reason, now);
      assert hits[0] in hits;
      if hits[0].id == x {
        assert !HasLive(rest, x);
      } else {
        PurgedLive(rest, hits[1..], reason, now, x);
        assert forall h :: h in hits <==> h == hits[0] || h in hits[1..];
      }
    }
  }

  /** A live record is deleted exactly when the searches show it and the test selects it. */
  lemma SelectedDeleted(d: Dict, rs: seq<MemoryRecord>, hit: MemoryRecord -> bool, reason: string, now: int, x: string)
    requires d.Valid() && HasLive(d, x)
    requires forall r :: r in rs ==> HasLive(d, r.id) && d.records[r.id] == r
    ensures HasLive(Purged(d, Select(rs, hit), reason, now), x) <==> !(d.records[x] in rs && hit(d.records[x]))
  {
    PurgedLive(d, Select(rs, hit), reason, now, x);
    SelectMembers(rs, hit);
  }

  lemma SeenFactsLive(d: Dict)
    requires d.Valid()
    ensures forall r :: r in Seen(d, Fact) ==> HasLive(d, r.id) && d.records[r.id] == r && IsProfileRecord(r, Fact)
  {
    forall r | r in Seen(d, Fact) ensures HasLive(d, r.id) && d.records[r.id] == r && IsProfileRecord(r, Fact) {
      SeenIsLive(d, Fact, r);
    }
  }

  lemma SeenBothLive(d: Dict)
    requires d.Valid()
    ensures forall r :: r in SeenBoth(d) ==> HasLive(d, r.id) && d.records[r.id] == r
  {
    forall r | r in SeenBoth(d) ensures HasLive(d, r.id) && d.records[r.id] == r {
      if r in Seen(d, Fact) {
        SeenIsLive(d, Fact, r);
      } else {
        SeenIsLive(d, Preference, r);
      }
    }
  }

  /** A fact record the two searches show is shown by the first. */
  lemma SeenByKind(d: Dict, r: MemoryRecord)
    requires d.Valid() && r in SeenBoth(d) && r.kind == Fact
    ensures r in Seen(d, Fact)
  {
    if r !in Seen(d, Fact) {
      SeenIsLive(d, Preference, r);
      assert false;
    }
  }

  /** Within the limit the searches show every standing live record. */
  lemma StandingSeen(lex: Lexicon, d: Dict, x: string)
    requires ValidReader(lex.read) && d.Valid() && WithinLimit(d) && HasLive(d, x) && Standing(lex, d.records[x])
    ensures d.records[x] in SeenBoth(d)
  {
    SeenAll(d, d.records[x].kind, x);
  }

  // --- Saving ---

  /** Storing a fact keeps the invariant exactly when no live record clashes with it. */
  lemma SavedKeepsClashFree(lex: Lexicon, d: Dict, p: Profile, id: string, now: int)
    requires ValidReader(lex.read) && d.Valid() && ClashFree(lex, d) && id !in d.records
    ensures ClashFree(lex, Saved(d, p, id, now)) <==>
      forall x :: HasLive(d, x) ==> !ClashesWith(lex, d.records[x], p)
  {
    var r := NewFact(p.relation, p.value, id, now);
    var e := Saved(d, p, id, now);
    assert e.records == d.records[id := r] && lex.read(r) == Some(p) && Standing(lex, r);
    forall x | HasLive(d, x) ensures HasLive(e, x) && e.records[x] == d.records[x] {
    }
    if forall x :: HasLive(d, x) ==> !ClashesWith(lex, d.records[x], p) {
      forall a, b | HasLive(e, a) && HasLive(e, b) && a != b ensures !Clash(lex, e.records[a], e.records[b]) {
        if a == id && Clash(lex, r, e.records[b]) {
          ClashSymmetric(lex, p, lex.read(e.records[b]).value);
          assert HasLive(d, b) && ClashesWith(lex, d.records[b], p);
        }
      }
    } else {
      var x :| HasLive(d, x) && ClashesWith(lex, d.records[x], p);
      assert HasLive(e, id) && Clash(lex, e.records[x], e.records[id]);
    }
  }

  /** A preference has a value that is not blank. */
  predicate Named(rel: Relation, value: string) {
    IsPreference(rel) ==> Strip(value) != ""
  }

  /** The tests of the deletion loops select exactly the records that clash with the new fact. */
  lemma RivalsClash(lex: Lexicon, rel: Relation, value: string, r: MemoryRecord)
    requires ValidLexicon(lex) && HasRivals(rel) && Named(rel, value) && Standing(lex, r)
    ensures Rivals(lex, rel, value)(r) <==> ClashesWith(lex, r, Profile(rel, StoredValue(lex, rel, value)))
  {
    if IsPreference(rel) {
      CanonIdempotent(lex.lower, value);
      CanonNonEmpty(lex.lower, value);
    }
  }

  lemma CanonNonEmpty(lower: string -> string, value: string)
    requires Strip(value) != ""
    ensures Canon(lower, value) != ""
  {
    NoWords(value);
    var fixed := AllCorrected(lower, Words(value));
    assert Words(value)[0] in Words(value);
    assert fixed[0] == Corrected(lower, Words(value)[0]) != "";
    assert |Join(fixed, " ")| >= |fixed[0]|;
  }

  function NewProfile(lex: Lexicon, rel: Relation, value: string): Profile {
    Profile(rel, StoredValue(lex, rel, value))
  }

  /** `r` is shown by the searches and its deletion test selects it. */
  predicate Picked(d: Dict, hit: MemoryRecord -> bool, r: MemoryRecord)
    requires d.Valid()
  {
    r in SeenBoth(d) && hit(r)
  }

  lemma HitsInBothDeleted(d: Dict, hit: MemoryRecord -> bool, reason: string, now: int, x: string)
    requires d.Valid() && HasLive(d, x)
    ensures HasLive(Purged(d, HitsInBoth(d, hit), reason, now), x) <==> !Picked(d, hit, d.records[x])
  {
    SeenBothLive(d);
    SelectedDeleted(d, SeenBoth(d), hit, reason, now, x);
  }

  lemma HitsDeleted(d: Dict, hit: MemoryRecord -> bool, reason: string, now: int, x: string)
    requires d.Valid() && HasLive(d, x)
    ensures HasLive(Purged(d, Hits(d, hit), reason, now), x) <==> !(d.records[x].kind == Fact && Picked(d, hit, d.records[x]))
  {
    SeenFactsLive(d);
    SelectedDeleted(d, Seen(d, Fact), hit, reason, now, x);
    if d.records[x].kind == Fact && Picked(d, hit, d.records[x]) {
      SeenByKind(d, d.records[x]);
    }
  }

  /** What the searches show and the test selects is standing, and standing rivals of other relations are facts. */
  lemma RivalKinds(lex: Lexicon, d: Dict, rel: Relation, value: string, r: MemoryRecord)
    requires d.Valid() && HasRivals(rel) && r in SeenBoth(d) && Rivals(lex, rel, value)(r)
    ensures Standing(lex, r) <==> IsPreference(rel) || r.kind == Fact
  {
    if IsPreference(rel) {
      assert States(lex, r, {Liked, Disliked});
      SeenStanding(lex, d, r);
    }
  }

  lemma ResolvedDeletes(lex: Lexicon, d: Dict, rel: Relation, value: string, now: int, x: string)
    requires d.Valid() && HasRivals(rel) && HasLive(d, x)
    ensures HasLive(Resolved(lex, d, rel, value, now), x) <==>
      !(Standing(lex, d.records[x]) && Picked(d, Rivals(lex, rel, value), d.records[x]))
  {
    var hit := Rivals(lex, rel, value);
    if IsPreference(rel) {
      HitsInBothDeleted(d, hit, ReasonFor(rel), now, x);
    } else {
      HitsDeleted(d, hit, ReasonFor(rel), now, x);
    }
    if Picked(d, hit, d.records[x]) {
      RivalKinds(lex, d, rel, value, d.records[x]);
    }
  }

  lemma NoRivalsNoClash(lex: Lexicon, p: Profile, q: Profile)
    requires !HasRivals(p.relation) && p.relation != Goal
    ensures !FactsClash(lex, q, p)
  {
  }

  /** Resolving deletes exactly the clashing records that the searches show. */
  lemma ResolvedLive(lex: Lexicon, d: Dict, rel: Relation, value: string, now: int, x: string)
    requires ValidLexicon(lex) && d.Valid() && rel != Goal && Named(rel, value) && HasLive(d, x)
    ensures HasLive(Resolved(lex, d, rel, value, now), x) <==>
      !(d.records[x] in SeenBoth(d) && ClashesWith(lex, d.records[x], NewProfile(lex, rel, value)))
  {
    var r := d.records[x];
    if !HasRivals(rel) {
      if Standing(lex, r) { NoRivalsNoClash(lex, NewProfile(lex, rel, value), lex.read(r).value); }
    } else {
      ResolvedDeletes(lex, d, rel, value, now, x);
      if Standing(lex, r) { RivalsClash(lex, rel, value, r); }
    }
  }

  lemma SeenStanding(lex: Lexicon, d: Dict, r: MemoryRecord)
    requires d.Valid() && r in SeenBoth(d) && States(lex, r, {Liked, Disliked})
    ensures Standing(lex, r)
  {
    if r in Seen(d, Fact) {
      SeenIsLive(d, Fact, r);
    } else {
      SeenIsLive(d, Preference, r);
    }
  }

  /** The same polarity of the object, stored under another spelling. */
  predicate Alias(lex: Lexicon, r: MemoryRecord, p: Profile) {
    && IsPreference(p.relation) && States(lex, r, {p.relation}) && lex.read(r).value.value != ""
    && Misspelt(lex, lex.read(r).value.value, p.value)
  }

  lemma AliasesAreAliases(lex: Lexicon, rel: Relation, value: string, r: MemoryRecord)
    ensures IsPreference(rel) ==> (AliasOf(lex, rel, Canon(lex.lower, value))(r) <==> Alias(lex, r, NewProfile(lex, rel, value)))
  {
  }

  lemma WithoutAliasesLive(lex: Lexicon, d: Dict, rel: Relation, value: string, now: int, x: string)
    requires d.Valid() && HasLive(d, x)
    ensures HasLive(WithoutAliases(lex, d, rel, value, now), x) <==>
      !(d.records[x] in SeenBoth(d) && Alias(lex, d.records[x], NewProfile(lex, rel, value)))
  {
    if IsPreference(rel) {
      HitsInBothDeleted(d, AliasOf(lex, rel, Canon(lex.lower, value)), "preference_alias_canonicalized", now, x);
      AliasesAreAliases(lex, rel, value, d.records[x]);
    }
  }

  /** An alias has the polarity of the new fact, so it does not clash with it. */
  lemma AliasNoClash(lex: Lexicon, r: MemoryRecord, p: Profile)
    ensures !(Alias(lex, r, p) && ClashesWith(lex, r, p))
  {
  }

  /** The searches show every live record that clashes with the fact. */
  ghost predicate Reaches(lex: Lexicon, d: Dict, p: Profile)
    requires d.Valid()
  {
    forall x :: HasLive(d, x) && ClashesWith(lex, d.records[x], p) ==> d.records[x] in SeenBoth(d)
  }

  lemma WithinLimitReaches(lex: Lexicon, d: Dict, p: Profile)
    requires ValidReader(lex.read) && d.Valid() && WithinLimit(d)
    ensures Reaches(lex, d, p)
  {
    forall x | HasLive(d, x) && ClashesWith(lex, d.records[x], p) ensures d.records[x] in SeenBoth(d) {
      StandingSeen(lex, d, x);
    }
  }

  lemma ClashSurvives(lex: Lexicon, d: Dict, rel: Relation, value: string, now: int, x: string)
    requires ValidLexicon(lex) && d.Valid() && rel != Goal && Named(rel, value) && HasLive(d, x)
    requires ClashesWith(lex, d.records[x], NewProfile(lex, rel, value))
    ensures HasLive(Clear(lex, d, rel, value, now), x) <==> d.records[x] !in SeenBoth(d)
  {
    var e := Resolved(lex, d, rel, value, now);
    ResolvedLive(lex, d, rel, value, now, x);
    if HasLive(e, x) {
      WithoutAliasesLive(lex, e, rel, value, now, x);
      AliasNoClash(lex, e.records[x], NewProfile(lex, rel, value));
    }
  }

  /** Asserting a fact keeps the store free of clashes exactly when no clashing record lies beyond the limit. */
  lemma AssertedKeepsClashFree(lex: Lexicon, d: Dict, rel: Relation, value: string, id: string, now: int)
    requires ValidLexicon(lex) && d.Valid() && ClashFree(lex, d) && id !in d.records
    requires rel != Goal && Named(rel, value)
    ensures ClashFree(lex, Asserted(lex, d, rel, value, id, now)) <==> Reaches(lex, d, NewProfile(lex, rel, value))
  {
    var p := NewProfile(lex, rel, value);
    var e := Clear(lex, d, rel, value, now);
    ShrunkKeepsClashFree(lex, d, e);
    assert id !in e.keys;
    SavedKeepsClashFree(lex, e, p, id, now);
    forall x | HasLive(d, x) && ClashesWith(lex, d.records[x], p)
      ensures HasLive(e, x) <==> d.records[x] !in SeenBoth(d)
    {
      ClashSurvives(lex, d, rel, value, now, x);
    }
  }

  lemma EqualGoalSelected(lex: Lexicon, value: string, r: MemoryRecord)
    requires ClashesWith(lex, r, Profile(Goal, value))
    ensures GoalNamed(lex, lex.goalKey(value))(r) && r.kind == Fact
  {
  }

  lemma UnseenGoals(lex: Lexicon, d: Dict, value: string, x: string)
    requires d.Valid() && HasLive(d, x) && ClashesWith(lex, d.records[x], Profile(Goal, value))
    requires Hits(d, GoalNamed(lex, lex.goalKey(value))) == []
    ensures d.records[x] !in SeenBoth(d)
  {
    EqualGoalSelected(lex, value, d.records[x]);
    if d.records[x] in SeenBoth(d) {
      SeenByKind(d, d.records[x]);
      SelectMembers(Seen(d, Fact), GoalNamed(lex, lex.goalKey(value)));
      assert false;
    }
  }

  /** When no equal goal is seen, an equal goal is exactly what lies beyond the limit. */
  lemma GoalsBeyond(lex: Lexicon, d: Dict, value: string)
    requires d.Valid() && Hits(d, GoalNamed(lex, lex.goalKey(value))) == []
    ensures Reaches(lex, d, Profile(Goal, value)) <==>
      forall x :: HasLive(d, x) ==> !ClashesWith(lex, d.records[x], Profile(Goal, value))
  {
    forall x | HasLive(d, x) && ClashesWith(lex, d.records[x], Profile(Goal, value))
      ensures d.records[x] !in SeenBoth(d)
    {
      UnseenGoals(lex, d, value, x);
    }
  }

  /** Adding a goal keeps it exactly when the goal is seen already or no equal goal lies beyond the limit. */
  lemma GoalAddedKeepsClashFree(lex: Lexicon, d: Dict, value: string, id: string, now: int)
    requires ValidLexicon(lex) && d.Valid() && ClashFree(lex, d) && id !in d.records
    ensures ClashFree(lex, GoalAdded(lex, d, value, id, now)) <==>
      Hits(d, GoalNamed(lex, lex.goalKey(value))) != [] || Reaches(lex, d, Profile(Goal, value))
  {
    if Hits(d, GoalNamed(lex, lex.goalKey(value))) == [] {
      GoalsBeyond(lex, d, value);
      SavedKeepsClashFree(lex, d, Profile(Goal, value), id, now);
    }
  }

  predicate Superseded(lex: Lexicon, r: MemoryRecord, p: Profile) {
    Standing(lex, r) && (ClashesWith(lex, r, p) || Alias(lex, r, p))
  }

  lemma ClearMeaning(lex: Lexicon, d: Dict, rel: Relation, value: string, now: int, x: string)
    requires ValidLexicon(lex) && d.Valid() && WithinLimit(d) && rel != Goal && Named(rel, value) && HasLive(d, x)
    ensures HasLive(Clear(lex, d, rel, value, now), x) <==> !Superseded(lex, d.records[x], NewProfile(lex, rel, value))
  {
    var p := NewProfile(lex, rel, value);
    var r := Resolved(lex, d, rel, value, now);
    ResolvedLive(lex, d, rel, value, now, x);
    if Standing(lex, d.records[x]) { StandingSeen(lex, d, x); }
    if HasLive(r, x) {
      WithoutAliasesLive(lex, r, rel, value, now, x);
      if Standing(lex, r.records[x]) {
        ShrunkWithinLimit(d, r);
        StandingSeen(lex, r, x);
      } else {
        UnseenAlias(lex, r, x, p);
      }
    }
  }

  lemma UnseenAlias(lex: Lexicon, d: Dict, x: string, p: Profile)
    requires d.Valid() && HasLive(d, x) && !Standing(lex, d.records[x])
    ensures !(d.records[x] in SeenBoth(d) && Alias(lex, d.records[x], p))
  {
    if d.records[x] in SeenBoth(d) && Alias(lex, d.records[x], p) {
      assert States(lex, d.records[x], {Liked, Disliked});
      SeenStanding(lex, d, d.records[x]);
      assert false;
    }
  }

  lemma AssertedStores(lex: Lexicon, d: Dict, rel: Relation, value: string, id: string, now: int)
    requires ValidReader(lex.read) && d.Valid()
    ensures var e := Asserted(lex, d, rel, value, id, now);
      HasLive(e, id) && lex.read(e.records[id]) == Some(NewProfile(lex, rel, value))
  {
    var v := StoredValue(lex, rel, value);
    assert Asserted(lex, d, rel, value, id, now).records[id] == NewFact(rel, v, id, now);
  }

  /** Storing under a new id leaves every other record as it is. */
  lemma SavedElsewhere(d: Dict, p: Profile, id: string, now: int, x: string)
    requires x != id
    ensures var e := Saved(d, p, id, now);
      (HasLive(e, x) <==> HasLive(d, x)) && (HasLive(e, x) ==> e.records[x] == d.records[x])
  {
  }

  /** Within the limit: exactly the records the new fact supersedes are gone, all others are as before. */
  lemma AssertedMeaning(lex: Lexicon, d: Dict, rel: Relation, value: string, id: string, now: int, x: string)
    requires ValidLexicon(lex) && d.Valid() && WithinLimit(d) && x != id && rel != Goal && Named(rel, value)
    ensures var e := Asserted(lex, d, rel, value, id, now);
      && (HasLive(e, x) <==> HasLive(d, x) && !Superseded(lex, d.records[x], NewProfile(lex, rel, value)))
      && (HasLive(e, x) ==> e.records[x] == d.records[x])
  {
    SavedElsewhere(Clear(lex, d, rel, value, now), NewProfile(lex, rel, value), id, now, x);
    if HasLive(d, x) {
      ClearMeaning(lex, d, rel, value, now, x);
    }
  }
}

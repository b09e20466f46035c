/**
 Profile facts kept in a memory store (agent_core/conversation/profile_memory.py and
 memory_operations.py): how a stored record is read as a profile fact, when two facts clash, and
 which records a limited search shows.

 The text tables are the parameter `Lexicon`; the preference canonicaliser is written out.
 */
module ProfileModel {
  import opened Wrappers
  import opened Text
  import opened StableSort
  import opened MemoryModel

  datatype Relation =
    | Liked | Disliked | Skill | NegativeSkill | Affection | NegativeAffection | LikesUser | DislikesUser
    | Goal | GoalFocus | Occupation | OwnName | RelationName | Favorite

  datatype Profile = Profile(relation: Relation, value: string)

  /** `lower` is `str.lower`, `norm` is `_norm_cmp`, `terms` the alias terms of a preference, `memoryKey` and
      `goalKey` the matching keys, `goalHit` the goal removal test, `person` and `dirty` the clean-up of displayed
      names, `labelled` the relation-label test, `harmful` and `shaped` the value checks, `read` the reading of a
      record as a profile fact. */
  datatype Lexicon = Lexicon(
    lower: string -> string, norm: string -> string, terms: string -> set<string>, memoryKey: string -> string,
    goalKey: string -> string, goalHit: (string, string) -> bool, person: string -> string, dirty: string -> bool,
    labelled: (MemoryRecord, string) -> bool, harmful: string -> bool, shaped: string -> bool,
    read: MemoryRecord -> Option<Profile>)

  const PROFILE_TAG := "user_profile"

  predicate IsPreference(rel: Relation) {
    rel == Liked || rel == Disliked
  }

  /** The deletions for this relation look at records of this type. */
  predicate Searched(rel: Relation, kind: MemoryType) {
    kind == Fact || (kind == Preference && IsPreference(rel))
  }

  /** Only tagged records are profile facts, and a fact reads back as it was written. */
  ghost predicate ValidReader(read: MemoryRecord -> Option<Profile>) {
    && (forall r :: read(r).Some? ==> PROFILE_TAG in r.tags)
    && (forall rel, value, id, now :: read(NewFact(rel, value, id, now)) == Some(Profile(rel, value)))
  }

  /** The corrected spellings are lower case. */
  ghost predicate ValidLexicon(lex: Lexicon) {
    ValidReader(lex.read) && lex.lower(BANANA) == BANANA && lex.lower(ICE_CREAM) == ICE_CREAM
  }

  // --- Known misspellings in preference values ---

  const BANANA := "chu\U{1ED1}i"
  const ICE_CREAM := "kem"

  function Corrected(lower: string -> string, word: string): string {
    if lower(word) == "ch\U{1ED1}i" then BANANA else if lower(word) == "lem" then ICE_CREAM else word
  }

  function AllCorrected(lower: string -> string, words: seq<string>): seq<string> {
    seq(|words|, i requires 0 <= i < |words| => Corrected(lower, words[i]))
  }

  /** `canonicalize_known_preference_value`. */
  function Canon(lower: string -> string, value: string): string {
    if Words(value) == [] then value else Join(AllCorrected(lower, Words(value)), " ")
  }

  lemma CorrectedWord(lower: string -> string, word: string)
    requires IsWord(word) && lower(BANANA) == BANANA && lower(ICE_CREAM) == ICE_CREAM
    ensures IsWord(Corrected(lower, word)) && Corrected(lower, Corrected(lower, word)) == Corrected(lower, word)
  {
    assert IsWord(ICE_CREAM);
    assert IsWord(BANANA);
  }

  /** Canonicalising twice changes nothing more. */
  lemma CanonIdempotent(lower: string -> string, value: string)
    requires lower(BANANA) == BANANA && lower(ICE_CREAM) == ICE_CREAM
    ensures Canon(lower, Canon(lower, value)) == Canon(lower, value)
  {
    var words := Words(value);
    var fixed := AllCorrected(lower, words);
    forall w | w in fixed ensures IsWord(w) && Corrected(lower, w) == w {
      var i :| 0 <= i < |fixed| && fixed[i] == w;
      assert words[i] in words;
      CorrectedWord(lower, words[i]);
    }
    WordsOfJoin(fixed);
    assert AllCorrected(lower, fixed) == fixed;
  }

  // --- Writing and reading a fact ---

  function SubjectText(rel: Relation): string {
    match rel
    case LikesUser => "external"
    case DislikesUser => "external"
    case RelationName => "relation"
    case _ => "self"
  }

  function RelationText(rel: Relation): string {
    match rel
    case Liked => "preference"
    case Disliked => "negative_preference"
    case Skill => "skill"
    case NegativeSkill => "negative_skill"
    case Affection => "affection"
    case NegativeAffection => "negative_affection"
    case LikesUser => "affection_to_user"
    case DislikesUser => "affection_to_user_negative"
    case Goal => "goal"
    case GoalFocus => "goal_focus"
    case Occupation => "occupation"
    case OwnName => "name"
    case RelationName => "name"
    case Favorite => "favorite"
  }

  /** The record of a new fact: a preference is stored under its own type, every other fact as FACT. */
  function NewFact(rel: Relation, value: string, id: string, now: int): MemoryRecord {
    MemoryRecord(id, value, if rel == Liked then Preference else Fact, None, None, [PROFILE_TAG],
                 if rel == Liked then 0.7 else if rel == OwnName || rel == RelationName then 0.9 else 0.8, now, now, None,
                 map["profile_schema" := "user_profile_fact_v2", "subject" := SubjectText(rel),
                     "relation" := RelationText(rel), "value" := value, "confirmed" := "True"])
  }

  function Field(r: MemoryRecord, key: string): string {
    if key in r.metadata then r.metadata[key] else ""
  }

  predicate Confirmed(r: MemoryRecord) {
    && Field(r, "confirmed") != ""
    && (Field(r, "profile_schema") == "user_profile_fact_v1" || Field(r, "profile_schema") == "user_profile_fact_v2")
  }

  const RELATIONS: seq<Relation> := [
    Liked, Disliked, Skill, NegativeSkill, Affection, NegativeAffection, LikesUser, DislikesUser,
    Goal, GoalFocus, Occupation, OwnName, RelationName, Favorite]

  function RelationIn(rels: seq<Relation>, subject: string, relation: string): Option<Relation> {
    if rels == [] then None
    else if SubjectText(rels[0]) == subject && RelationText(rels[0]) == relation then Some(rels[0])
    else RelationIn(rels[1..], subject, relation)
  }

  /** The reading the profile functions share: confirmed, tagged, with a known relation. */
  function ReadMetadata(r: MemoryRecord): Option<Profile> {
    var rel := RelationIn(RELATIONS, Field(r, "subject"), Field(r, "relation"));
    if Confirmed(r) && PROFILE_TAG in r.tags && rel.Some? then Some(Profile(rel.value, Field(r, "value"))) else None
  }

  lemma {:induction false} RelationFound(rels: seq<Relation>, rel: Relation)
    requires rel in rels
    ensures RelationIn(rels, SubjectText(rel), RelationText(rel)) == Some(rel)
  {
    if rels[0] != rel {
      if SubjectText(rels[0]) == SubjectText(rel) && RelationText(rels[0]) == RelationText(rel) {
        TextsDistinct(rels[0], rel);
      }
      RelationFound(rels[1..], rel);
    }
  }

  lemma TextsDistinct(a: Relation, b: Relation)
    requires SubjectText(a) == SubjectText(b) && RelationText(a) == RelationText(b)
    ensures a == b
  {
  }

  lemma FieldsOfNewFact(rel: Relation, value: string, id: string, now: int)
    ensures var r := NewFact(rel, value, id, now);
      && Field(r, "subject") == SubjectText(rel) && Field(r, "relation") == RelationText(rel)
      && Field(r, "value") == value && Confirmed(r)
  {
  }

  /** The shared reading satisfies what the kernel relies on. */
  lemma ReadMetadataValid()
    ensures ValidReader(ReadMetadata)
  {
    forall rel, value, id, now ensures ReadMetadata(NewFact(rel, value, id, now)) == Some(Profile(rel, value)) {
      FieldsOfNewFact(rel, value, id, now);
      AllRelationsListed(rel);
      RelationFound(RELATIONS, rel);
    }
  }

  /** A lexicon that takes every text as it stands. */
  function PlainLexicon(): Lexicon {
    Lexicon(s => s, s => s, s => {s}, s => s, s => s, (s, k) => s == k, s => s, s => false,
            (r, s) => false, s => false, s => true, ReadMetadata)
  }

  /** What is asked of a lexicon can be met. */
  lemma PlainLexiconValid()
    ensures ValidLexicon(PlainLexicon())
  {
    ReadMetadataValid();
  }

  lemma AllRelationsListed(rel: Relation)
    ensures rel in RELATIONS
  {
    assert RELATIONS[0] == Liked && RELATIONS[1] == Disliked && RELATIONS[2] == Skill && RELATIONS[3] == NegativeSkill
        && RELATIONS[4] == Affection && RELATIONS[5] == NegativeAffection && RELATIONS[6] == LikesUser
        && RELATIONS[7] == DislikesUser && RELATIONS[8] == Goal && RELATIONS[9] == GoalFocus
        && RELATIONS[10] == Occupation && RELATIONS[11] == OwnName && RELATIONS[12] == RelationName
        && RELATIONS[13] == Favorite;
  }

  // --- Clashes ---

  function Opposite(rel: Relation): Option<Relation> {
    match rel
    case Liked => Some(Disliked)
    case Disliked => Some(Liked)
    case Skill => Some(NegativeSkill)
    case NegativeSkill => Some(Skill)
    case Affection => Some(NegativeAffection)
    case NegativeAffection => Some(Affection)
    case LikesUser => Some(DislikesUser)
    case DislikesUser => Some(LikesUser)
    case _ => None
  }

  /** `_preference_conflicts`: the same object, or a shared alias term. */
  predicate Conflicts(lex: Lexicon, v: string, w: string) {
    var a, b := Canon(lex.lower, v), Canon(lex.lower, w);
    lex.norm(a) == lex.norm(b) || exists t :: t in lex.terms(a) && t in lex.terms(b)
  }

  /** The two values name the same object of this relation. */
  predicate SameObject(lex: Lexicon, rel: Relation, v: string, w: string) {
    if IsPreference(rel) then v != "" && w != "" && Conflicts(lex, v, w) else lex.norm(v) == lex.norm(w)
  }

  /** Opposite polarities of one object, two goal focuses, or one goal twice. */
  predicate FactsClash(lex: Lexicon, p: Profile, q: Profile) {
    || (Opposite(p.relation) == Some(q.relation) && SameObject(lex, p.relation, p.value, q.value))
    || (p.relation == GoalFocus && q.relation == GoalFocus)
    || (p.relation == Goal && q.relation == Goal && lex.goalKey(p.value) == lex.goalKey(q.value))
  }

  /** The record states a profile fact and is of a type the deletions look at. */
  predicate Standing(lex: Lexicon, r: MemoryRecord) {
    lex.read(r).Some? && Searched(lex.read(r).value.relation, r.kind)
  }

  predicate ClashesWith(lex: Lexicon, r: MemoryRecord, p: Profile) {
    Standing(lex, r) && FactsClash(lex, lex.read(r).value, p)
  }

  predicate Clash(lex: Lexicon, r: MemoryRecord, s: MemoryRecord) {
    Standing(lex, s) && ClashesWith(lex, r, lex.read(s).value)
  }

  /** No two live records clash. */
  ghost predicate ClashFree(lex: Lexicon, d: Dict) {
    forall a, b :: HasLive(d, a) && HasLive(d, b) && a != b ==> !Clash(lex, d.records[a], d.records[b])
  }

  lemma ConflictsSymmetric(lex: Lexicon, v: string, w: string)
    requires Conflicts(lex, v, w)
    ensures Conflicts(lex, w, v)
  {
    var a, b := Canon(lex.lower, v), Canon(lex.lower, w);
    if lex.norm(a) != lex.norm(b) {
      var t :| t in lex.terms(a) && t in lex.terms(b);
    }
  }

  lemma ClashSymmetric(lex: Lexicon, p: Profile, q: Profile)
    requires FactsClash(lex, p, q)
    ensures FactsClash(lex, q, p)
  {
    if IsPreference(p.relation) {
      ConflictsSymmetric(lex, p.value, q.value);
    }
  }

  // --- What the kernel can see ---

  const SEARCH_LIMIT := 200

  function ProfileQuery(kind: MemoryType): Query {
    Query("", None, None, [kind], [PROFILE_TAG], false, SEARCH_LIMIT)
  }

  function AnyText(): TextMatch {
    (r: MemoryRecord, text: string) => true
  }

  function ProfileRecord(kind: MemoryType): MemoryRecord -> bool {
    Both(Visible(false), WantedBy(ProfileQuery(kind), AnyText()))
  }

  /** `store.search` for one type with the profile tag and a limit of 200. */
  function Seen(d: Dict, kind: MemoryType): seq<MemoryRecord>
    requires d.Valid()
  {
    Found(d, ProfileQuery(kind), AnyText())
  }

  /** The live profile records of one type fit the search limit. */
  predicate Fits(d: Dict, kind: MemoryType)
    requires d.Valid()
  {
    |Select(d.Values(), ProfileRecord(kind))| <= SEARCH_LIMIT
  }

  predicate WithinLimit(d: Dict)
    requires d.Valid()
  {
    Fits(d, Fact) && Fits(d, Preference)
  }

  predicate IsProfileRecord(r: MemoryRecord, kind: MemoryType) {
    r.Live() && r.kind == kind && PROFILE_TAG in r.tags
  }

  lemma ProfileRecordMeaning(kind: MemoryType, r: MemoryRecord)
    ensures ProfileRecord(kind)(r) <==> IsProfileRecord(r, kind)
  {
    assert PROFILE_TAG in [PROFILE_TAG];
    assert (exists t :: t in [PROFILE_TAG] && t in r.tags) <==> PROFILE_TAG in r.tags;
  }

  lemma SeenIsLive(d: Dict, kind: MemoryType, r: MemoryRecord)
    requires d.Valid() && r in Seen(d, kind)
    ensures HasLive(d, r.id) && d.records[r.id] == r && IsProfileRecord(r, kind)
  {
    var all := Select(d.Values(), ProfileRecord(kind));
    SelectMembers(d.Values(), ProfileRecord(kind));
    SortDescending(all, Ranking());
    assert r in Sort(all, Ranking());
    ProfileRecordMeaning(kind, r);
    var i :| 0 <= i < |d.keys| && d.Values()[i] == r;
    assert d.keys[i] in d.records;
  }

  /** Within the limit the search sees every live profile record. */
  lemma SeenAll(d: Dict, kind: MemoryType, id: string)
    requires d.Valid() && Fits(d, kind) && id in d.records && IsProfileRecord(d.records[id], kind)
    ensures d.records[id] in Seen(d, kind)
  {
    var r := d.records[id];
    var all := Select(d.Values(), ProfileRecord(kind));
    var i :| 0 <= i < |d.keys| && d.keys[i] == id;
    assert d.Values()[i] == r;
    ProfileRecordMeaning(kind, r);
    SelectMembers(d.Values(), ProfileRecord(kind));
    SortDescending(all, Ranking());
    assert r in Sort(all, Ranking());
    assert Seen(d, kind) == Sort(all, Ranking());
  }

  /** Both searches together. */
  function SeenBoth(d: Dict): seq<MemoryRecord>
    requires d.Valid()
  {
    Seen(d, Fact) + Seen(d, Preference)
  }

  /** What a new fact is filed as, and how it ranks. */
  lemma NewFactShape(rel: Relation, value: string, id: string, now: int)
    ensures var r := NewFact(rel, value, id, now);
      && r.id == id && r.createdAt == now && r.updatedAt == now && r.deletedAt == None && PROFILE_TAG in r.tags
      && (r.kind == Preference <==> rel == Liked) && (r.kind == Fact <==> rel != Liked)
      && r.importance == (if rel == Liked then 7.0 / 10.0 else if rel in {OwnName, RelationName} then 9.0 / 10.0 else 8.0 / 10.0)
  {
  }

  /** Subject and relation as they are stored. */
  const STORED_AS: seq<(Relation, string, string)> := [
    (Liked, "self", "preference"), (Disliked, "self", "negative_preference"), (Skill, "self", "skill"),
    (NegativeSkill, "self", "negative_skill"), (Affection, "self", "affection"),
    (NegativeAffection, "self", "negative_affection"), (LikesUser, "external", "affection_to_user"),
    (DislikesUser, "external", "affection_to_user_negative"), (Goal, "self", "goal"), (GoalFocus, "self", "goal_focus"),
    (Occupation, "self", "occupation"), (OwnName, "self", "name"), (RelationName, "relation", "name"),
    (Favorite, "self", "favorite")]

  lemma StoredTexts(i: nat)
    requires i < |STORED_AS|
    ensures SubjectText(STORED_AS[i].0) == STORED_AS[i].1 && RelationText(STORED_AS[i].0) == STORED_AS[i].2
  {
  }

  lemma {:induction false} RelationHasTexts(rels: seq<Relation>, subject: string, relation: string)
    ensures var rel := RelationIn(rels, subject, relation);
      rel.Some? ==> SubjectText(rel.value) == subject && RelationText(rel.value) == relation
  {
    if rels != [] {
      RelationHasTexts(rels[1..], subject, relation);
    }
  }

  /** Which records are read as a fact: tagged, confirmed, of a known schema, with the subject and relation of the fact. */
  lemma ReadExactly(r: MemoryRecord, p: Profile)
    ensures ReadMetadata(r) == Some(p) <==>
      && PROFILE_TAG in r.tags && Field(r, "confirmed") != ""
      && Field(r, "profile_schema") in {"user_profile_fact_v1", "user_profile_fact_v2"}
      && Field(r, "subject") == SubjectText(p.relation) && Field(r, "relation") == RelationText(p.relation)
      && Field(r, "value") == p.value
  {
    AllRelationsListed(p.relation);
    RelationFound(RELATIONS, p.relation);
    RelationHasTexts(RELATIONS, Field(r, "subject"), Field(r, "relation"));
  }
}

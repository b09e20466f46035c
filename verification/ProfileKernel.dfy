/**
 The memory kernel (agent_core/conversation/memory_operations.py and the save and delete functions
 of profile_memory.py): what each kernel operation does to the store's dictionary, as functions.
 Every operation gets the id of the record it may create and its clock reading.
 */
module ProfileKernel {
  import opened Wrappers
  import opened Text
  import opened StableSort
  import opened MemoryModel
  import opened ProfileModel

  // --- Deletion tests ---

  predicate States(lex: Lexicon, r: MemoryRecord, rels: set<Relation>) {
    lex.read(r).Some? && lex.read(r).value.relation in rels
  }

  function AnyOf(lex: Lexicon, rels: set<Relation>): MemoryRecord -> bool {
    (r: MemoryRecord) => States(lex, r, rels)
  }

  function Matching(lex: Lexicon, rel: Relation, key: string): MemoryRecord -> bool {
    (r: MemoryRecord) => States(lex, r, {rel}) && lex.norm(lex.read(r).value.value) == key
  }

  function Conflicting(lex: Lexicon, rel: Relation, value: string): MemoryRecord -> bool {
    (r: MemoryRecord) =>
      States(lex, r, {rel}) && lex.read(r).value.value != "" && Conflicts(lex, lex.read(r).value.value, value)
  }

  /** The stored spelling differs from the canonical one, its canonical form does not. */
  predicate Misspelt(lex: Lexicon, stored: string, value: string) {
    && lex.norm(stored) != lex.norm(Canon(lex.lower, value))
    && lex.norm(Canon(lex.lower, stored)) == lex.norm(Canon(lex.lower, value))
  }

  function AliasOf(lex: Lexicon, rel: Relation, value: string): MemoryRecord -> bool {
    (r: MemoryRecord) =>
      && States(lex, r, {rel}) && Conflicting(lex, rel, value)(r)
      && Misspelt(lex, lex.read(r).value.value, value)
  }

  function GoalNamed(lex: Lexicon, key: string): MemoryRecord -> bool {
    (r: MemoryRecord) => States(lex, r, {Goal, GoalFocus}) && lex.goalKey(lex.read(r).value.value) == key
  }

  function GoalHit(lex: Lexicon, key: string): MemoryRecord -> bool {
    (r: MemoryRecord) =>
      States(lex, r, {Goal, GoalFocus}) && lex.read(r).value.value != "" && lex.goalHit(lex.read(r).value.value, key)
  }

  function Labelled(lex: Lexicon, lbl: string): MemoryRecord -> bool {
    (r: MemoryRecord) => States(lex, r, {RelationName}) && lex.labelled(r, lbl)
  }

  /** The record shows in the snapshot as this person liked by the user. */
  function ShownAffection(lex: Lexicon): MemoryRecord -> bool {
    (r: MemoryRecord) =>
      States(lex, r, {Affection}) && lex.read(r).value.value != "" && !lex.dirty(lex.read(r).value.value)
  }

  function ShownDislike(lex: Lexicon, key: string): MemoryRecord -> bool {
    (r: MemoryRecord) =>
      && States(lex, r, {Disliked}) && lex.read(r).value.value != "" && !lex.dirty(lex.read(r).value.value)
      && lex.norm(lex.read(r).value.value) == key
  }

  // --- Deleting and saving ---

  /** Some live records were deleted and nothing else happened. */
  ghost predicate Shrunk(d: Dict, e: Dict) {
    && e.Valid() && e.keys == d.keys
    && (forall x :: HasLive(e, x) ==> HasLive(d, x) && e.records[x] == d.records[x])
  }

  function Purged(d: Dict, hits: seq<MemoryRecord>, reason: string, now: int): (e: Dict)
    ensures d.Valid() ==> Shrunk(d, e)
    decreases |hits|
  {
    if hits == [] then d else Purged(Removed(d, hits[0].id, reason, now), hits[1..], reason, now)
  }

  /** Facts the search shows and the test selects. */
  function Hits(d: Dict, hit: MemoryRecord -> bool): seq<MemoryRecord>
    requires d.Valid()
  {
    Select(Seen(d, Fact), hit)
  }

  function HitsInBoth(d: Dict, hit: MemoryRecord -> bool): seq<MemoryRecord>
    requires d.Valid()
  {
    Select(SeenBoth(d), hit)
  }

  function Saved(d: Dict, p: Profile, id: string, now: int): (e: Dict)
    ensures d.Valid() ==> e.Valid()
  {
    Written(d, NewFact(p.relation, p.value, id, now), now)
  }

  /** `matched = matched or stored` over the deleted records. */
  function FirstNonEmpty(lex: Lexicon, hits: seq<MemoryRecord>): string {
    if hits == [] then ""
    else if lex.read(hits[0]).Some? && lex.read(hits[0]).value.value != "" then lex.read(hits[0]).value.value
    else FirstNonEmpty(lex, hits[1..])
  }

  /** The value a fact is stored under. */
  function StoredValue(lex: Lexicon, rel: Relation, value: string): string {
    if IsPreference(rel) then Canon(lex.lower, value) else value
  }

  predicate HasRivals(rel: Relation) {
    Opposite(rel).Some? || rel == GoalFocus
  }

  /** The records that saving such a fact supersedes. */
  function Rivals(lex: Lexicon, rel: Relation, value: string): MemoryRecord -> bool
    requires HasRivals(rel)
  {
    if rel == GoalFocus then AnyOf(lex, {GoalFocus})
    else if IsPreference(rel) then Conflicting(lex, Opposite(rel).value, value)
    else Matching(lex, Opposite(rel).value, lex.norm(value))
  }

  function ReasonFor(rel: Relation): string {
    if rel == GoalFocus then "focus_superseded"
    else if IsPreference(rel) then "preference_conflict_resolved"
    else if rel == Skill || rel == NegativeSkill then "skill_conflict_resolved"
    else "affection_polarity_superseded"
  }

  /** `resolve_preference_conflicts`, `resolve_skill_conflicts`, `_delete_profile_records` of the other polarity,
      and the deletion of the old focus. */
  function Resolved(lex: Lexicon, d: Dict, rel: Relation, value: string, now: int): (e: Dict)
    requires d.Valid()
    ensures Shrunk(d, e)
  {
    if !HasRivals(rel) then d
    else if IsPreference(rel) then Purged(d, HitsInBoth(d, Rivals(lex, rel, value)), ReasonFor(rel), now)
    else Purged(d, Hits(d, Rivals(lex, rel, value)), ReasonFor(rel), now)
  }

  /** `_delete_canonical_alias_preference_records` for the canonical value; other relations have no aliases. */
  function WithoutAliases(lex: Lexicon, d: Dict, rel: Relation, value: string, now: int): (e: Dict)
    requires d.Valid()
    ensures Shrunk(d, e)
  {
    if IsPreference(rel)
    then Purged(d, HitsInBoth(d, AliasOf(lex, rel, Canon(lex.lower, value))), "preference_alias_canonicalized", now)
    else d
  }

  /** Supersede the rivals, drop the aliases. */
  function Clear(lex: Lexicon, d: Dict, rel: Relation, value: string, now: int): (e: Dict)
    requires d.Valid()
    ensures Shrunk(d, e)
  {
    WithoutAliases(lex, Resolved(lex, d, rel, value, now), rel, value, now)
  }

  /** Then store the fact. */
  function Asserted(lex: Lexicon, d: Dict, rel: Relation, value: string, id: string, now: int): (e: Dict)
    requires d.Valid()
    ensures e.Valid()
  {
    Saved(Clear(lex, d, rel, value, now), Profile(rel, StoredValue(lex, rel, value)), id, now)
  }

  /** `goal_already_active`, else the goal is stored. */
  function GoalAdded(lex: Lexicon, d: Dict, value: string, id: string, now: int): (e: Dict)
    requires d.Valid()
    ensures e.Valid()
  {
    if Hits(d, GoalNamed(lex, lex.goalKey(value))) != [] then d else Saved(d, Profile(Goal, value), id, now)
  }

  // --- Kernel operations ---

  datatype OpKind = Add | UpdateCurrent | Remove | Negate | Ask | Correct | Switch | RemovePart | RemoveAll

  datatype Domain =
    | Name | Work | Preferred | NotPreferred | Person | Relationship | Aim | Favourite | Ability

  datatype Origin = UserExplicit | GoalNegationSe | ConditionalStateChange | GoalReplaceAll | OneSidedAffection

  datatype Operation = Operation(
    op: OpKind, domain: Domain, value: string, key: string, negative: bool, relationLabel: string, source: Origin)

  /** `None`: the operation does not apply; otherwise whether a record was saved. */
  type Outcome = Option<bool>

  /** `validate_memory_operation`. */
  predicate Acceptable(lex: Lexicon, op: Operation) {
    && Strip(op.value) != "" && !lex.harmful(op.value)
    && (op.op == Add || op.op == Switch ==> lex.shaped(op.value))
  }

  /** `delete_affection_fact`: the test of the records to delete. */
  function Retracted(lex: Lexicon, value: string): MemoryRecord -> bool {
    Matching(lex, Affection, lex.memoryKey(value))
  }

  /** `save_relation_update` deletes only the first labelled record among the best 100. */
  function FirstLabelled(lex: Lexicon, d: Dict, lbl: string): seq<MemoryRecord>
    requires d.Valid()
  {
    var hits := Select(Cut(Seen(d, Fact), 100), Labelled(lex, lbl));
    if hits == [] then [] else hits[..1]
  }

  /** What an operation does to the store: delete the hits, then store a fact or a goal, if any. */
  datatype Action =
    | Skip
    | Erase(hits: seq<MemoryRecord>, reason: string)
    | Tell(hits: seq<MemoryRecord>, relation: Relation, value: string)
    | AddGoal(hits: seq<MemoryRecord>, reason: string, value: string)

  const REMOVAL := "user_removal"

  function Performed(lex: Lexicon, d: Dict, action: Action, id: string, now: int): (e: Dict)
    requires d.Valid()
    ensures e.Valid()
  {
    match action
    case Skip => d
    case Erase(hits, reason) => Purged(d, hits, reason, now)
    case Tell(hits, rel, value) => Asserted(lex, Purged(d, hits, REMOVAL, now), rel, value, id, now)
    case AddGoal(hits, reason, value) => GoalAdded(lex, Purged(d, hits, reason, now), value, id, now)
  }

  /** Retracting an affection deletes its records and stores that the person is no longer liked. */
  function Retraction(lex: Lexicon, d: Dict, value: string): Action
    requires d.Valid()
  {
    var hits := Hits(d, Retracted(lex, value));
    Tell(hits, NegativeAffection, FirstNonEmpty(lex, hits))
  }

  /** `{_norm_cmp(a) for a in snap.affections}`. */
  function ShownAffections(lex: Lexicon, d: Dict): set<string>
    requires d.Valid()
  {
    set r | r in SeenBoth(d) && lex.read(r).Some? && ShownAffection(lex)(r) :: lex.norm(lex.person(lex.read(r).value.value))
  }

  predicate ShowsDislike(lex: Lexicon, d: Dict, key: string)
    requires d.Valid()
  {
    HitsInBoth(d, ShownDislike(lex, key)) != []
  }

  predicate GoalActive(lex: Lexicon, d: Dict, value: string)
    requires d.Valid()
  {
    Hits(d, GoalNamed(lex, lex.goalKey(value))) != []
  }

  /** The REMOVE branches of `apply_memory_operation`. */
  function RemovalPlan(lex: Lexicon, d: Dict, op: Operation): (Action, Outcome)
    requires d.Valid()
  {
    var work := Hits(d, Matching(lex, Occupation, lex.norm(op.value)));
    match op.domain
    case Work =>
      var goals := Hits(d, GoalHit(lex, lex.goalKey(op.value)));
      if work != [] then (Erase(work, REMOVAL), Some(false))
      else if goals != [] then (Erase(goals, "goal_superseded"), Some(false))
      else (Skip, None)
    case Aim =>
      var goals := Hits(d, GoalHit(lex, op.key));
      if goals != [] then (Erase(goals, "goal_superseded"), Some(false))
      else if work != [] then (Erase(work, REMOVAL), Some(false))
      else (Skip, if op.source == GoalNegationSe then Some(false) else None)
    case Person =>
      if op.key !in ShownAffections(lex, d) || Hits(d, Retracted(lex, op.value)) == [] then (Skip, None)
      else (Retraction(lex, d, op.value), Some(false))
    case _ => (Skip, None)
  }

  /** The UPDATE_CURRENT branches. */
  function UpdatePlan(lex: Lexicon, d: Dict, op: Operation): (Action, Outcome)
    requires d.Valid()
  {
    match op.domain
    case Relationship =>
      if op.relationLabel == "" then (Skip, None)
      else (Tell(FirstLabelled(lex, d, op.relationLabel), RelationName, op.value), Some(true))
    case Favourite => (Tell([], Favorite, op.value), Some(true))
    case Preferred =>
      if op.negative && ShowsDislike(lex, d, op.key) then (Skip, Some(false))
      else if op.negative then (Tell([], Disliked, op.value), Some(true))
      else if op.source == ConditionalStateChange && !ShowsDislike(lex, d, op.key) then (Skip, None)
      else (Tell([], Liked, op.value), Some(true))
    case Aim => (Tell([], GoalFocus, op.value), Some(true))
    case _ => (Skip, None)
  }

  /** The ADD branches. */
  function AdditionPlan(lex: Lexicon, d: Dict, op: Operation): (Action, Outcome)
    requires d.Valid()
  {
    match op.domain
    case Person =>
      if op.key in ShownAffections(lex, d) then (Skip, Some(false)) else (Tell([], Affection, op.value), Some(true))
    case Aim => (AddGoal([], "", op.value), Some(!GoalActive(lex, d, op.value)))
    case _ => (Skip, None)
  }

  /** The SWITCH branch: replace every goal, or only the named one. */
  function SwitchPlan(lex: Lexicon, d: Dict, op: Operation): (Action, Outcome)
    requires d.Valid()
  {
    if op.domain != Aim then (Skip, None)
    else if op.source == GoalReplaceAll
    then (AddGoal(Hits(d, AnyOf(lex, {Goal, GoalFocus})), "goal_replaced", op.value), Some(true))
    else (AddGoal(Hits(d, GoalHit(lex, op.key)), "goal_superseded", op.value), Some(true))
  }

  /** `apply_memory_operation`: the action and the outcome. */
  function Plan(lex: Lexicon, d: Dict, op: Operation): (Action, Outcome)
    requires d.Valid()
  {
    if !Acceptable(lex, op) then (Skip, None)
    else
      match op.op
      case Remove => RemovalPlan(lex, d, op)
      case UpdateCurrent => UpdatePlan(lex, d, op)
      case Add => AdditionPlan(lex, d, op)
      case Switch => SwitchPlan(lex, d, op)
      case _ => (Skip, None)
  }

  function Applied(lex: Lexicon, d: Dict, op: Operation, id: string, now: int): (e: Dict)
    requires d.Valid()
    ensures e.Valid()
  {
    Performed(lex, d, Plan(lex, d, op).0, id, now)
  }

  // --- Batches ---

  /** The loop's variables: `active` starts as the affection keys read once before the loop. */
  datatype Batch = Batch(dict: Dict, active: set<string>, applied: nat, failed: nat, saved: nat)

  datatype Item = Item(op: Operation, id: string, now: int)

  /** One turn of the loop of `apply_memory_operations`: the action and whether it counts as saved; None is a failure. */
  function BatchPlan(lex: Lexicon, d: Dict, active: set<string>, op: Operation): Option<(Action, bool)>
    requires d.Valid()
  {
    if op.op == RemoveAll && op.domain == Person then Some((Erase(Hits(d, AnyOf(lex, {Affection})), REMOVAL), false))
    else if !Acceptable(lex, op) then None
    else
      match op.domain
      case Ability =>
        if op.op == Add || op.op == Negate
        then Some((Tell([], if op.negative then NegativeSkill else Skill, op.value), true)) else None
      case Preferred =>
        if op.op == Add || op.op == Negate
        then Some((Tell([], if op.negative || op.op == Negate then Disliked else Liked, op.value), true)) else None
      case Person =>
        if op.op == Add && lex.norm(op.value) in active then Some((Skip, false))
        else if op.op == Add then Some((Tell([], Affection, op.value), true))
        else if (op.op == Remove || op.op == RemovePart) && Hits(d, Retracted(lex, op.value)) != []
        then Some((Retraction(lex, d, op.value), false)) else None
      case Name =>
        if op.op == Correct || op.op == UpdateCurrent || op.op == Add
        then Some((Tell([], OwnName, op.value), true)) else None
      case Relationship =>
        if (op.op == UpdateCurrent || op.op == Correct || op.op == Add) && op.relationLabel != ""
        then Some((Tell(FirstLabelled(lex, d, op.relationLabel), RelationName, op.value), true)) else None
      case Aim =>
        if op.op == Add then Some((AddGoal([], "", op.value), !GoalActive(lex, d, op.value)))
        else if op.op == Remove || op.op == RemovePart
        then Some((Erase(Hits(d, GoalHit(lex, op.key)), "goal_superseded"), false)) else None
      case _ => None
  }

  /** A saved affection joins the set. */
  function NowActive(lex: Lexicon, active: set<string>, action: Action): set<string> {
    if action.Tell? && action.relation == Affection then active + {lex.norm(action.value)} else active
  }

  /** The loop's variables after a planned turn. */
  function Settled(lex: Lexicon, b: Batch, plan: Option<(Action, bool)>, id: string, now: int): (c: Batch)
    requires b.dict.Valid()
    ensures c.dict.Valid()
  {
    match plan
    case None => b.(failed := b.failed + 1)
    case Some((action, counts)) =>
      Batch(Performed(lex, b.dict, action, id, now), NowActive(lex, b.active, action),
            b.applied + 1, b.failed, if counts then b.saved + 1 else b.saved)
  }

  function BatchStep(lex: Lexicon, b: Batch, item: Item): (c: Batch)
    requires b.dict.Valid()
    ensures c.dict.Valid()
  {
    Settled(lex, b, BatchPlan(lex, b.dict, b.active, item.op), item.id, item.now)
  }

  function BatchRun(lex: Lexicon, b: Batch, items: seq<Item>): (c: Batch)
    requires b.dict.Valid()
    ensures c.dict.Valid()
    decreases |items|
  {
    if items == [] then b else BatchRun(lex, BatchStep(lex, b, items[0]), items[1..])
  }

  function BatchStart(lex: Lexicon, d: Dict): Batch
    requires d.Valid()
  {
    Batch(d, ShownAffections(lex, d), 0, 0, 0)
  }
}

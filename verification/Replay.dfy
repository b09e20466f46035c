/**
 Versioned registries and semantic replay (agent_core/build_harness/merge_eligibility_replay.py), and the
 fixed-policy facade (agent_core/build_harness/merge_eligibility_facade.py).
 */
module Replay {
  import opened Wrappers
  import opened StringOrder
  import opened Grammar
  import opened FieldNames
  import opened JsonText
  import opened CanonicalJson
  import opened MergePolicy
  import opened ProductionPolicy
  import opened MergeRecord
  import opened RecordLifecycle

  // --- Registries ---

  type Evaluator = (PolicyInput, Policy) -> Result<Core, Fault>

  datatype RegistryError = KeyNotDeclared | InvalidIdentity | DuplicateIdentity

  ghost predicate KeysUnique<K, V>(pairs: seq<(K, V)>) {
    forall i, j :: 0 <= i < j < |pairs| ==> pairs[i].0 != pairs[j].0
  }

  /** The entries of a registry are its pairs. */
  ghost predicate Holds<K, V>(entries: map<K, V>, pairs: seq<(K, V)>) {
    && (forall i :: 0 <= i < |pairs| ==> pairs[i].0 in entries && entries[pairs[i].0] == pairs[i].1)
    && (forall k :: k in entries ==> exists i :: 0 <= i < |pairs| && pairs[i].0 == k)
  }

  /** Construction of `PolicyRegistry`. */
  method BuildPolicyRegistry(pairs: seq<(PolicyIdentity, Policy)>) returns (r: Result<map<PolicyIdentity, Policy>, RegistryError>)
    ensures r.Ok? <==> KeysUnique(pairs) && forall i :: 0 <= i < |pairs| ==> pairs[i].0 == pairs[i].1.declared
    ensures r.Ok? ==> Holds(r.value, pairs)
  {
    var built: map<PolicyIdentity, Policy> := map[];
    for n := 0 to |pairs|
      invariant KeysUnique(pairs[..n]) && Holds(built, pairs[..n])
      invariant forall i :: 0 <= i < n ==> pairs[i].0 == pairs[i].1.declared
    {
      var (key, policy) := pairs[n];
      if key != policy.declared {
        return Err(KeyNotDeclared);
      }
      if key in built {
        ghost var i :| 0 <= i < n && pairs[..n][i].0 == key;
        assert pairs[i].0 == pairs[n].0;
        return Err(DuplicateIdentity);
      }
      HoldsStep(built, pairs, n);
      built := built[key := policy];
    }
    assert pairs[..|pairs|] == pairs;
    r := Ok(built);
  }

  lemma HoldsStep<K, V>(entries: map<K, V>, pairs: seq<(K, V)>, n: nat)
    requires n < |pairs| && KeysUnique(pairs[..n]) && Holds(entries, pairs[..n]) && pairs[n].0 !in entries
    ensures KeysUnique(pairs[..n + 1]) && Holds(entries[pairs[n].0 := pairs[n].1], pairs[..n + 1])
  {
    var grown, longer := entries[pairs[n].0 := pairs[n].1], pairs[..n + 1];
    assert longer == pairs[..n] + [pairs[n]];
    forall k | k in grown ensures exists i :: 0 <= i < |longer| && longer[i].0 == k {
      if k in entries {
        var i :| 0 <= i < n && pairs[..n][i].0 == k;
        assert longer[i].0 == k;
      } else {
        assert longer[n].0 == k;
      }
    }
  }

  /** Construction of `EvaluatorRegistry`. */
  method BuildEvaluatorRegistry(pairs: seq<(string, Evaluator)>) returns (r: Result<map<string, Evaluator>, RegistryError>)
    ensures r.Ok? <==> KeysUnique(pairs) && forall i :: 0 <= i < |pairs| ==> IsToken(pairs[i].0)
    ensures r.Ok? ==> Holds(r.value, pairs)
  {
    var built: map<string, Evaluator> := map[];
    for n := 0 to |pairs|
      invariant KeysUnique(pairs[..n]) && Holds(built, pairs[..n])
      invariant forall i :: 0 <= i < n ==> IsToken(pairs[i].0)
    {
      var key, evaluator := pairs[n].0, pairs[n].1;
      if !IsToken(key) {
        return Err(InvalidIdentity);
      }
      if key in built {
        ghost var i :| 0 <= i < n && pairs[..n][i].0 == key;
        assert pairs[i].0 == pairs[n].0;
        return Err(DuplicateIdentity);
      }
      HoldsStep(built, pairs, n);
      built := built[key := evaluator];
    }
    assert pairs[..|pairs|] == pairs;
    r := Ok(built);
  }

  // --- Replay ---

  datatype Classification =
    | RecordStructurallyInvalid | InputBindingMismatch | UnknownPolicyIdentity | UnknownEvaluatorIdentity
    | SemanticReplayMismatch | SemanticallyReplayVerified

  datatype MismatchCode =
    | DispositionMismatch | PrimaryReasonMismatch | ReasonSetMismatch | PartitionMismatch
    | AccountingDiffers | DecisionDigestMismatch | RecordDigestMismatch

  datatype ReplayResult = ReplayResult(
    classification: Classification, mismatches: set<MismatchCode>, structurallyValid: bool, policyResolved: bool,
    evaluatorResolved: bool, performed: bool, decisionMatches: bool, recordMatches: bool)

  /** A replay finishes, or an evaluator or record fault is left visible to the caller. */
  datatype Outcome = Finished(result: ReplayResult) | Faulted(fault: RecordFault)

  function MismatchCodes(replayed: Record, stored: Record): set<MismatchCode> {
    var a, b := replayed.identity, stored.identity;
    (if a.disposition != b.disposition then {DispositionMismatch} else {})
    + (if a.primary != b.primary then {PrimaryReasonMismatch} else {})
    + (if a.complete != b.complete then {ReasonSetMismatch} else {})
    + (if a.blocking != b.blocking || a.review != b.review then {PartitionMismatch} else {})
    + (if a.accounting != b.accounting then {AccountingDiffers} else {})
    + (if replayed.decisionDigest != stored.decisionDigest then {DecisionDigestMismatch} else {})
    + (if replayed.recordDigest != stored.recordDigest then {RecordDigestMismatch} else {})
  }

  function Compared(replayed: Record, stored: Record): ReplayResult {
    var mismatches := MismatchCodes(replayed, stored);
    if mismatches != {} then
      ReplayResult(SemanticReplayMismatch, mismatches, true, true, true, true,
                   replayed.decisionDigest == stored.decisionDigest, replayed.recordDigest == stored.recordDigest)
    else ReplayResult(SemanticallyReplayVerified, {}, true, true, true, true, true, true)
  }

  /** `verify_semantic_replay`. */
  function VerifyReplay(pf: Platform, input: PolicyInput, record: Record,
                        policies: map<PolicyIdentity, Policy>, evaluators: map<string, Evaluator>): Outcome
  {
    if Validate(pf, record, None) != {} then
      Finished(ReplayResult(RecordStructurallyInvalid, {}, false, false, false, false, false, false))
    else if Validate(pf, record, Some(input)) != {} then
      Finished(ReplayResult(InputBindingMismatch, {}, true, false, false, false, false, false))
    else
      var identity := PolicyIdentity(record.identity.policyVersion, record.identity.bindings.policy);
      if identity !in policies then
        Finished(ReplayResult(UnknownPolicyIdentity, {}, true, false, false, false, false, false))
      else if record.identity.evaluatorVersion !in evaluators then
        Finished(ReplayResult(UnknownEvaluatorIdentity, {}, true, true, false, false, false, false))
      else
        match Rebuild(pf, input, policies[identity], evaluators[record.identity.evaluatorVersion])
        case Err(fault) => Faulted(fault)
        case Ok(replayed) => Finished(Compared(replayed, record))
  }

  /** Evaluate, finalise and build again. */
  function Rebuild(pf: Platform, input: PolicyInput, policy: Policy, evaluator: Evaluator): Result<Record, RecordFault> {
    match evaluator(input, policy)
    case Err(fault) => Err(EvaluatorFault(fault))
    case Ok(core) => Seal(pf, input, core)
  }

  // --- Soundness ---

  /** The digest does not collide on the payloads of these two records. */
  ghost predicate NoRecordCollision(pf: Platform, a: Record, b: Record) {
    && NoCollision(pf, DecisionPayload(a.identity), DecisionPayload(b.identity))
    && NoCollision(pf, RecordPayload(a.schemaVersion, a.identity, a.decisionDigest),
                   RecordPayload(b.schemaVersion, b.identity, b.decisionDigest))
  }

  /** A record whose digests are derived from its payload. */
  ghost predicate Derived(pf: Platform, r: Record) {
    && WellTyped(r) && IdentityNormalized(r.identity)
    && DecisionDigest(pf, r.identity) == Some(r.decisionDigest)
    && RecordDigest(pf, r.schemaVersion, r.identity, r.decisionDigest) == Some(r.recordDigest)
  }

  lemma StructurallyValidIsDerived(pf: Platform, r: Record)
    ensures Validate(pf, r, None) == {} <==> Derived(pf, r)
  {
  }

  /** The decision digest and the record digest stand or fall together. */
  lemma DigestsStandTogether(pf: Platform, a: Record, b: Record)
    requires ValidPlatform(pf) && Derived(pf, a) && Derived(pf, b) && NoRecordCollision(pf, a, b)
    ensures a.decisionDigest == b.decisionDigest <==> a.recordDigest == b.recordDigest
  {
    DecisionDigestPins(pf, a.identity, b.identity);
    RecordDigestPins(pf, a.schemaVersion, a.identity, a.decisionDigest, b.schemaVersion, b.identity, b.decisionDigest);
  }

  lemma AgreeAt(nfc: Normalizer, a: Identity, b: Identity, i: int)
    requires Agree(nfc, IdentityValues(a), IdentityValues(b)) && 0 <= i < |IDENTITY_FIELDS|
    ensures Canonical(nfc, IdentityValues(a)[i]) == Canonical(nfc, IdentityValues(b)[i])
  {
  }

  lemma AuthorityPinned(nfc: Normalizer, a: Identity, b: Identity)
    requires FixesProtocol(nfc) && Agree(nfc, IdentityValues(a), IdentityValues(b))
    requires IsAuthorityText(a.authority) && IsAuthorityText(b.authority)
    ensures a.authority == b.authority
  {
    AgreeAt(nfc, a, b, 14);
    assert IdentityValues(a)[14] == Str(a.authority) && IdentityValues(b)[14] == Str(b.authority);
    assert Canonical(nfc, Str(a.authority)) == Some(JStr(nfc(a.authority)));
    assert Canonical(nfc, Str(b.authority)) == Some(JStr(nfc(b.authority)));
  }

  /** Equal in every field, the authority included, although no mismatch code compares it. */
  lemma NoMismatchMeansEqual(pf: Platform, input: PolicyInput, a: Record, b: Record)
    requires ValidPlatform(pf) && Derived(pf, a) && Derived(pf, b) && NoRecordCollision(pf, a, b)
    requires Echoes(a.identity, input) && Echoes(b.identity, input) && a.identity.inputDigest == b.identity.inputDigest
    ensures MismatchCodes(a, b) == {} <==> a == b
  {
    if MismatchCodes(a, b) == {} {
      MismatchCodesEmpty(a, b);
      DecisionDigestPins(pf, a.identity, b.identity);
      AuthorityPinned(pf.nfc, a.identity, b.identity);
    }
  }

  lemma MismatchCodesEmpty(a: Record, b: Record)
    requires MismatchCodes(a, b) == {}
    ensures a.identity.(authority := b.identity.authority, taskId := b.identity.taskId, bindings := b.identity.bindings,
                        policyVersion := b.identity.policyVersion, evaluatorVersion := b.identity.evaluatorVersion,
                        mode := b.identity.mode, inputDigest := b.identity.inputDigest) == b.identity
    ensures a.decisionDigest == b.decisionDigest && a.recordDigest == b.recordDigest
  {
    var codes := MismatchCodes(a, b);
    assert DispositionMismatch !in codes && PrimaryReasonMismatch !in codes && ReasonSetMismatch !in codes
        && PartitionMismatch !in codes && AccountingDiffers !in codes
        && DecisionDigestMismatch !in codes && RecordDigestMismatch !in codes;
  }

  // --- When matching digests mean equal records ---

  /** Every requirement and evidence id is in normal form. */
  ghost predicate IdsNormal(nfc: Normalizer, a: Accounting) {
    forall fact: SetFact :: FixesAll(nfc, a.Ids(fact))
  }

  lemma TokenIdsNormal(nfc: Normalizer, a: Accounting)
    requires FixesProtocol(nfc) && TokenIds(a)
    ensures IdsNormal(nfc, a)
  {
  }

  lemma AgreeOnText(nfc: Normalizer, a: Identity, b: Identity, i: int, s: string, t: string)
    requires Agree(nfc, IdentityValues(a), IdentityValues(b)) && 0 <= i < |IDENTITY_FIELDS|
    requires IdentityValues(a)[i] == Str(s) && IdentityValues(b)[i] == Str(t) && nfc(s) == s && nfc(t) == t
    ensures s == t
  {
    AgreeAt(nfc, a, b, i);
    assert Canonical(nfc, Str(s)) == Some(JStr(nfc(s))) && Canonical(nfc, Str(t)) == Some(JStr(nfc(t)));
  }

  lemma AgreeOnList(nfc: Normalizer, a: Identity, b: Identity, i: int, xs: seq<string>, ys: seq<string>)
    requires Agree(nfc, IdentityValues(a), IdentityValues(b)) && 0 <= i < |IDENTITY_FIELDS|
    requires IdentityValues(a)[i] == StrList(xs) && IdentityValues(b)[i] == StrList(ys)
    requires FixesAll(nfc, xs) && FixesAll(nfc, ys)
    ensures xs == ys
  {
    AgreeAt(nfc, a, b, i);
    StrListExact(nfc, xs, ys);
  }

  lemma CodesPinned(nfc: Normalizer, a: Identity, b: Identity, i: int, xs: seq<string>, ys: seq<string>)
    requires FixesProtocol(nfc) && Agree(nfc, IdentityValues(a), IdentityValues(b)) && 0 <= i < |IDENTITY_FIELDS|
    requires IdentityValues(a)[i] == StrList(xs) && IdentityValues(b)[i] == StrList(ys)
    requires AllCommitted(xs) && AllCommitted(ys)
    ensures xs == ys
  {
    CommittedFixed(nfc, xs);
    CommittedFixed(nfc, ys);
    AgreeOnList(nfc, a, b, i, xs, ys);
  }

  lemma DispositionPinned(nfc: Normalizer, a: Identity, b: Identity)
    requires FixesProtocol(nfc) && Agree(nfc, IdentityValues(a), IdentityValues(b))
    requires IsDispositionText(a.disposition) && IsDispositionText(b.disposition)
    ensures a.disposition == b.disposition
  {
    AgreeOnText(nfc, a, b, 13, a.disposition, b.disposition);
  }

  lemma ReasonListsPinned(nfc: Normalizer, a: Identity, b: Identity)
    requires FixesProtocol(nfc) && Agree(nfc, IdentityValues(a), IdentityValues(b))
    requires AllCommitted(a.complete) && AllCommitted(a.blocking) && AllCommitted(a.review)
    requires AllCommitted(b.complete) && AllCommitted(b.blocking) && AllCommitted(b.review)
    ensures a.complete == b.complete && a.blocking == b.blocking && a.review == b.review
  {
    CodesPinned(nfc, a, b, 16, a.complete, b.complete);
    CodesPinned(nfc, a, b, 17, a.blocking, b.blocking);
    CodesPinned(nfc, a, b, 18, a.review, b.review);
  }

  lemma ReasonsPinned(nfc: Normalizer, a: Identity, b: Identity)
    requires FixesProtocol(nfc) && Agree(nfc, IdentityValues(a), IdentityValues(b))
    requires IdentityTyped(a) && IdentityTyped(b)
    ensures a.disposition == b.disposition && a.primary == b.primary
    ensures a.complete == b.complete && a.blocking == b.blocking && a.review == b.review
  {
    DispositionPinned(nfc, a, b);
    PrimaryPinned(nfc, a, b);
    ReasonListsPinned(nfc, a, b);
  }

  lemma CommittedFixed(nfc: Normalizer, codes: seq<string>)
    requires FixesProtocol(nfc) && AllCommitted(codes)
    ensures FixesAll(nfc, codes)
  {
    forall i | 0 <= i < |codes| ensures nfc(codes[i]) == codes[i] {
      assert IsCommittedCode(codes[i]);
    }
  }

  lemma PrimaryPinned(nfc: Normalizer, a: Identity, b: Identity)
    requires FixesProtocol(nfc) && Agree(nfc, IdentityValues(a), IdentityValues(b))
    requires a.primary.Some? ==> IsCommittedCode(a.primary.value)
    requires b.primary.Some? ==> IsCommittedCode(b.primary.value)
    ensures a.primary == b.primary
  {
    AgreeAt(nfc, a, b, 15);
    assert IdentityValues(a)[15] == OptionalStr(a.primary) && IdentityValues(b)[15] == OptionalStr(b.primary);
    if a.primary.Some? {
      assert Canonical(nfc, OptionalStr(a.primary)) == Some(JStr(nfc(a.primary.value)));
    } else {
      assert Canonical(nfc, OptionalStr(a.primary)) == Some(JNull);
    }
    if b.primary.Some? {
      assert Canonical(nfc, OptionalStr(b.primary)) == Some(JStr(nfc(b.primary.value)));
    } else {
      assert Canonical(nfc, OptionalStr(b.primary)) == Some(JNull);
    }
  }

  lemma AccountingPinned(nfc: Normalizer, a: Identity, b: Identity)
    requires Agree(nfc, IdentityValues(a), IdentityValues(b))
    requires IdsNormal(nfc, a.accounting) && IdsNormal(nfc, b.accounting)
    ensures a.accounting == b.accounting
  {
    AccountingFieldPinned(nfc, a, b, Required);
    AccountingFieldPinned(nfc, a, b, Satisfied);
    AccountingFieldPinned(nfc, a, b, Invalid);
    AccountingFieldPinned(nfc, a, b, Missing);
    AccountingFieldPinned(nfc, a, b, Rejected);
    AccountingFieldPinned(nfc, a, b, InvalidProvenance);
    AccountingFieldPinned(nfc, a, b, Unexpected);
  }

  function AccountingIndex(fact: SetFact): int {
    match fact
    case Required => 19
    case Satisfied => 20
    case Invalid => 21
    case Missing => 22
    case Rejected => 23
    case InvalidProvenance => 24
    case Unexpected => 25
  }

  lemma AccountingFieldPinned(nfc: Normalizer, a: Identity, b: Identity, fact: SetFact)
    requires Agree(nfc, IdentityValues(a), IdentityValues(b))
    requires IdsNormal(nfc, a.accounting) && IdsNormal(nfc, b.accounting)
    ensures a.accounting.Ids(fact) == b.accounting.Ids(fact)
  {
    AgreeOnList(nfc, a, b, AccountingIndex(fact), a.accounting.Ids(fact), b.accounting.Ids(fact));
  }

  /** Matching record digests leave no mismatch exactly when the stored ids are in normal form. */
  lemma MatchingDigests(pf: Platform, input: PolicyInput, replayed: Record, stored: Record)
    requires ValidPlatform(pf) && Derived(pf, replayed) && Derived(pf, stored) && NoRecordCollision(pf, replayed, stored)
    requires Echoes(replayed.identity, input) && Echoes(stored.identity, input)
    requires replayed.identity.inputDigest == stored.identity.inputDigest && TokenIds(replayed.identity.accounting)
    ensures MismatchCodes(replayed, stored) == {} <==>
      replayed.recordDigest == stored.recordDigest && IdsNormal(pf.nfc, stored.identity.accounting)
  {
    var a, b := replayed.identity, stored.identity;
    TokenIdsNormal(pf.nfc, a.accounting);
    NoMismatchMeansEqual(pf, input, replayed, stored);
    if replayed.recordDigest == stored.recordDigest && IdsNormal(pf.nfc, b.accounting) {
      DigestsStandTogether(pf, replayed, stored);
      DecisionDigestPins(pf, a, b);
      AuthorityPinned(pf.nfc, a, b);
      ReasonsPinned(pf.nfc, a, b);
      AccountingPinned(pf.nfc, a, b);
      assert replayed == stored;
    }
  }

  // --- The theorems ---

  /** Structurally valid, bound to the input and resolved in both registries. */
  ghost predicate Resolved(pf: Platform, input: PolicyInput, record: Record,
                           policies: map<PolicyIdentity, Policy>, evaluators: map<string, Evaluator>)
  {
    && Validate(pf, record, None) == {} && Validate(pf, record, Some(input)) == {}
    && PolicyIdentity(record.identity.policyVersion, record.identity.bindings.policy) in policies
    && record.identity.evaluatorVersion in evaluators
  }

  ghost function RebuiltFor(pf: Platform, input: PolicyInput, record: Record,
                            policies: map<PolicyIdentity, Policy>, evaluators: map<string, Evaluator>): Result<Record, RecordFault>
    requires Resolved(pf, input, record, policies, evaluators)
  {
    Rebuild(pf, input, policies[PolicyIdentity(record.identity.policyVersion, record.identity.bindings.policy)],
            evaluators[record.identity.evaluatorVersion])
  }

  lemma BoundMeans(pf: Platform, input: PolicyInput, r: Record)
    requires Validate(pf, r, Some(input)) == {}
    ensures Derived(pf, r) && Echoes(r.identity, input) && InputDigest(pf, input) == Some(r.identity.inputDigest)
  {
  }

  lemma RebuiltMeans(pf: Platform, input: PolicyInput, policy: Policy, evaluator: Evaluator, rebuilt: Record)
    requires Rebuild(pf, input, policy, evaluator) == Ok(rebuilt)
    ensures Derived(pf, rebuilt) && Echoes(rebuilt.identity, input) && TokenIds(rebuilt.identity.accounting)
    ensures InputDigest(pf, input) == Some(rebuilt.identity.inputDigest)
  {
    SealedIsValid(pf, input, evaluator(input, policy).value);
    BoundMeans(pf, input, rebuilt);
  }

  /** Replay soundness, for any evaluator: a record is verified exactly when it is the rebuilt record. */
  lemma ReplaySoundness(pf: Platform, input: PolicyInput, record: Record, policies: map<PolicyIdentity, Policy>,
                        evaluators: map<string, Evaluator>, rebuilt: Record)
    requires ValidPlatform(pf) && Resolved(pf, input, record, policies, evaluators)
    requires RebuiltFor(pf, input, record, policies, evaluators) == Ok(rebuilt)
    requires NoRecordCollision(pf, rebuilt, record)
    ensures var outcome := VerifyReplay(pf, input, record, policies, evaluators);
      && outcome.Finished? && outcome.result.performed
      && (outcome.result.classification == SemanticallyReplayVerified <==> record == rebuilt)
      && (outcome.result.classification == SemanticallyReplayVerified <==> outcome.result.mismatches == {})
      && (outcome.result.decisionMatches <==> outcome.result.recordMatches)
      && (outcome.result.mismatches == {} <==>
          outcome.result.recordMatches && IdsNormal(pf.nfc, record.identity.accounting))
  {
    var policy := policies[PolicyIdentity(record.identity.policyVersion, record.identity.bindings.policy)];
    BoundMeans(pf, input, record);
    RebuiltMeans(pf, input, policy, evaluators[record.identity.evaluatorVersion], rebuilt);
    ComparedMeans(pf, input, rebuilt, record);
  }

  lemma ComparedMeans(pf: Platform, input: PolicyInput, replayed: Record, stored: Record)
    requires ValidPlatform(pf) && Derived(pf, replayed) && Derived(pf, stored) && NoRecordCollision(pf, replayed, stored)
    requires Echoes(replayed.identity, input) && Echoes(stored.identity, input)
    requires replayed.identity.inputDigest == stored.identity.inputDigest && TokenIds(replayed.identity.accounting)
    ensures var result := Compared(replayed, stored);
      && (result.classification == SemanticallyReplayVerified <==> stored == replayed)
      && (result.classification == SemanticallyReplayVerified <==> result.mismatches == {})
      && (result.decisionMatches <==> result.recordMatches)
      && (result.mismatches == {} <==> result.recordMatches && IdsNormal(pf.nfc, stored.identity.accounting))
  {
    NoMismatchMeansEqual(pf, input, replayed, stored);
    MatchingDigests(pf, input, replayed, stored);
    DigestsStandTogether(pf, replayed, stored);
  }

  // --- The facade and completeness ---

  /** `evaluate_decision_core` as a value a registry can hold. */
  function CoreEvaluator(input: PolicyInput, policy: Policy): Result<Core, Fault> {
    if Decidable(policy, input.facts) then Ok(CoreOf(policy, input.facts, input.mode)) else Err(UnpartitionedReason)
  }

  /** `evaluate_merge_eligibility`: evaluate under the production policy, finalise and build. */
  function Facade(pf: Platform, input: PolicyInput): Result<Record, RecordFault> {
    Rebuild(pf, input, POLICY_V1, CoreEvaluator)
  }

  lemma ProductionCoreValid(input: PolicyInput)
    requires ValidFacts(input.facts)
    ensures CoreEvaluator(input, POLICY_V1).Ok?
    ensures var core := CoreEvaluator(input, POLICY_V1).value;
      ValidCore(core) && core.accounting == input.facts.accounting && AllCommitted(core.complete)
  {
    ProductionWellFormed();
    WellFormedIsTotal(POLICY_V1, input.facts);
    DecisionMeaning(POLICY_V1, input.facts, input.mode);
    var core := CoreOf(POLICY_V1, input.facts, input.mode);
    forall i | 0 <= i < |core.complete| ensures IsCommittedCode(core.complete[i]) {
      assert core.complete[i] in core.complete;
      assert Triggers(POLICY_V1, input.facts, core.complete[i]);
      ProductionReasons(core.complete[i]);
    }
  }

  /** The facade makes a record for a valid input exactly when its ids follow the record token grammar. */
  lemma FacadeSucceeds(pf: Platform, input: PolicyInput)
    requires ValidPlatform(pf) && ValidInput(pf, input)
    ensures Facade(pf, input).Ok? <==> TokenIds(input.facts.accounting)
  {
    ProductionCoreValid(input);
    var core := CoreEvaluator(input, POLICY_V1).value;
    if TokenIds(input.facts.accounting) {
      SealSucceeds(pf, input, core);
    } else if Facade(pf, input).Ok? {
      SealedIsValid(pf, input, core);
    }
  }

  /** A record that is bound to its input and rebuilt as itself replays as verified. */
  lemma SelfReplay(pf: Platform, input: PolicyInput, record: Record, policies: map<PolicyIdentity, Policy>,
                   evaluators: map<string, Evaluator>)
    requires Validate(pf, record, Some(input)) == {}
    requires PolicyIdentity(input.policyVersion, input.bindings.policy) in policies && input.evaluatorVersion in evaluators
    requires Rebuild(pf, input, policies[PolicyIdentity(input.policyVersion, input.bindings.policy)],
                     evaluators[input.evaluatorVersion]) == Ok(record)
    ensures VerifyReplay(pf, input, record, policies, evaluators)
      == Finished(ReplayResult(SemanticallyReplayVerified, {}, true, true, true, true, true, true))
  {
    BoundMeans(pf, input, record);
    StructurallyValidIsDerived(pf, record);
    assert MismatchCodes(record, record) == {};
  }

  /** Replay completeness: the facade's record always verifies against its own input. */
  lemma ReplayCompleteness(pf: Platform, input: PolicyInput, policies: map<PolicyIdentity, Policy>,
                           evaluators: map<string, Evaluator>)
    requires ValidPlatform(pf) && ValidInput(pf, input) && TokenIds(input.facts.accounting)
    requires PolicyIdentity(input.policyVersion, input.bindings.policy) == POLICY_V1.declared
    requires POLICY_V1.declared in policies && policies[POLICY_V1.declared] == POLICY_V1
    requires input.evaluatorVersion in evaluators
    requires evaluators[input.evaluatorVersion](input, POLICY_V1) == CoreEvaluator(input, POLICY_V1)
    ensures Facade(pf, input).Ok?
    ensures VerifyReplay(pf, input, Facade(pf, input).value, policies, evaluators)
      == Finished(ReplayResult(SemanticallyReplayVerified, {}, true, true, true, true, true, true))
  {
    FacadeSucceeds(pf, input);
    var record := Facade(pf, input).value;
    SealedIsValid(pf, input, CoreEvaluator(input, POLICY_V1).value);
    SelfReplay(pf, input, record, policies, evaluators);
  }

  // --- Matching digests alone do not mean equal records ---

  const KELVIN_SIGN: string := ['\U{212A}']

  function WithRejected(r: Record, ids: seq<string>): Record {
    r.(identity := r.identity.(accounting := r.identity.accounting.(rejected := ids)))
  }

  /** NFC maps the Kelvin sign to the letter K. A stored record that spells an evidence id with the
      Kelvin sign carries the same digests as the rebuilt one, is structurally valid and bound, and
      still fails to replay. */
  lemma KelvinRecordMismatch(pf: Platform, input: PolicyInput, rebuilt: Record)
    requires ValidPlatform(pf) && pf.nfc(KELVIN_SIGN) == pf.nfc("K")
    requires Validate(pf, rebuilt, Some(input)) == {} && rebuilt.identity.accounting.rejected == ["K"]
    ensures var stored := WithRejected(rebuilt, [KELVIN_SIGN]);
      && Validate(pf, stored, Some(input)) == {}
      && Compared(rebuilt, stored)
        == ReplayResult(SemanticReplayMismatch, {AccountingDiffers}, true, true, true, true, true, true)
  {
    var stored := WithRejected(rebuilt, [KELVIN_SIGN]);
    BoundMeans(pf, input, rebuilt);
    KelvinAgrees(pf.nfc, rebuilt, stored);
    AgreeSameDigests(pf, rebuilt.identity, stored.identity, rebuilt.schemaVersion, rebuilt.decisionDigest);
    KelvinNormalized(rebuilt.identity, stored.identity);
    KelvinCompared(rebuilt, stored);
  }

  lemma KelvinCompared(rebuilt: Record, stored: Record)
    requires rebuilt.identity.accounting.rejected == ["K"] && stored == WithRejected(rebuilt, [KELVIN_SIGN])
    ensures Compared(rebuilt, stored)
      == ReplayResult(SemanticReplayMismatch, {AccountingDiffers}, true, true, true, true, true, true)
  {
    assert KELVIN_SIGN[0] != "K"[0];
    assert stored.identity.accounting.rejected != rebuilt.identity.accounting.rejected;
  }

  lemma KelvinAgrees(nfc: Normalizer, rebuilt: Record, stored: Record)
    requires nfc(KELVIN_SIGN) == nfc("K") && rebuilt.identity.accounting.rejected == ["K"]
    requires stored == WithRejected(rebuilt, [KELVIN_SIGN])
    ensures Agree(nfc, IdentityValues(rebuilt.identity), IdentityValues(stored.identity))
  {
    var k, s := StrList(["K"]), StrList([KELVIN_SIGN]);
    ListCongruence(nfc, k.items, s.items) by {
      assert Canonical(nfc, k.items[0]) == Some(JStr(nfc("K")));
      assert Canonical(nfc, s.items[0]) == Some(JStr(nfc(KELVIN_SIGN)));
    }
    var vs, ws := IdentityValues(rebuilt.identity), IdentityValues(stored.identity);
    forall i | 0 <= i < |vs| ensures Canonical(nfc, vs[i]) == Canonical(nfc, ws[i]) {
      if i == 23 {
        assert vs[i] == k && ws[i] == s;
      } else {
        assert vs[i] == ws[i];
      }
    }
  }

  lemma KelvinNormalized(a: Identity, b: Identity)
    requires IdentityNormalized(a) && b == a.(accounting := a.accounting.(rejected := [KELVIN_SIGN]))
    ensures IdentityNormalized(b)
  {
    forall k | 0 <= k < |SortedLists(b)| ensures Sorted(SortedLists(b)[k]) {
      if k != 7 {
        assert SortedLists(b)[k] == SortedLists(a)[k];
      }
    }
  }
}

/**
 Structural validation of stored records, and the two constructors that seal a decision core
 (agent_core/build_harness/merge_eligibility_record.py).
 */
module RecordLifecycle {
  import opened Wrappers
  import opened StringOrder
  import opened Grammar
  import opened MergePolicy
  import opened ProductionPolicy
  import opened MergeRecord

  // --- Structural validity ---

  predicate IsDispositionText(s: string) {
    s == DispositionText(Eligible) || s == DispositionText(ReviewRequired) || s == DispositionText(Block)
  }

  predicate IsAuthorityText(s: string) {
    s == AuthorityText(Authoritative) || s == AuthorityText(AdvisoryOnly)
  }

  predicate IsModeText(s: string) {
    s == ModeText(Enforce) || s == ModeText(Shadow)
  }

  predicate AllCommitted(codes: seq<string>) {
    forall i :: 0 <= i < |codes| ==> IsCommittedCode(codes[i])
  }

  /** Grammar and closed vocabularies of the identity fields. */
  predicate IdentityTyped(id: Identity) {
    && IsToken(id.taskId) && ValidBindings(id.bindings) && IsToken(id.policyVersion) && IsToken(id.evaluatorVersion)
    && IsModeText(id.mode) && IsDigest(id.inputDigest)
    && IsDispositionText(id.disposition) && IsAuthorityText(id.authority)
    && (id.primary.Some? ==> IsCommittedCode(id.primary.value))
    && AllCommitted(id.complete) && AllCommitted(id.blocking) && AllCommitted(id.review)
  }

  function SortedLists(id: Identity): seq<seq<string>> {
    [id.complete, id.blocking, id.review, id.accounting.required, id.accounting.satisfied, id.accounting.invalid,
     id.accounting.missing, id.accounting.rejected, id.accounting.invalidProvenance, id.accounting.unexpected]
  }

  /** Reason lists partition, the primary reason agrees, the disposition is derived. */
  predicate ReasonsCoherent(id: Identity) {
    && (forall x :: x in id.blocking ==> x !in id.review)
    && (set x | x in id.complete) == (set x | x in id.blocking) + (set x | x in id.review)
    && (id.primary.None? <==> id.complete == [])
    && (id.primary.Some? ==> id.primary.value in id.complete)
    && id.disposition == DispositionText(DerivedDisposition(id.blocking, id.review))
  }

  predicate IdentityNormalized(id: Identity) {
    && (forall k :: 0 <= k < |SortedLists(id)| ==> Sorted(SortedLists(id)[k]))
    && ReasonsCoherent(id)
    && id.accounting.Partitioned()
  }

  predicate WellTyped(r: Record) {
    r.schemaVersion == SCHEMA_VERSION && IdentityTyped(r.identity) && IsDigest(r.decisionDigest) && IsDigest(r.recordDigest)
  }

  datatype RecordError =
    | TypeInvalid | NotNormalized | DecisionDigestNotDerived | RecordDigestNotDerived
    | SourceBindingMismatch | InputDigestMismatch

  method TypeErrors(r: Record) returns (errors: seq<RecordError>)
    ensures errors != [] <==> !WellTyped(r)
    ensures forall e :: e in errors ==> e == TypeInvalid
  {
    errors := [];
    var id := r.identity;
    if r.schemaVersion != SCHEMA_VERSION {
      errors := errors + [TypeInvalid];
    }
    if !IsToken(id.taskId) || !IsToken(id.policyVersion) || !IsToken(id.evaluatorVersion) {
      errors := errors + [TypeInvalid];
    }
    if !ValidBindings(id.bindings) || !IsDigest(id.inputDigest) || !IsDigest(r.decisionDigest) || !IsDigest(r.recordDigest) {
      errors := errors + [TypeInvalid];
    }
    if !IsModeText(id.mode) || !IsDispositionText(id.disposition) || !IsAuthorityText(id.authority) {
      errors := errors + [TypeInvalid];
    }
    if id.primary.Some? && !IsCommittedCode(id.primary.value) {
      errors := errors + [TypeInvalid];
    }
    if !AllCommitted(id.complete) || !AllCommitted(id.blocking) || !AllCommitted(id.review) {
      errors := errors + [TypeInvalid];
    }
  }

  method NormalizationErrors(id: Identity) returns (errors: seq<RecordError>)
    ensures errors != [] <==> !IdentityNormalized(id)
    ensures forall e :: e in errors ==> e == NotNormalized
  {
    errors := [];
    var lists := SortedLists(id);
    for k := 0 to |lists|
      invariant errors != [] <==> exists l :: 0 <= l < k && !Sorted(lists[l])
      invariant forall e :: e in errors ==> e == NotNormalized
    {
      if !Sorted(lists[k]) {
        errors := errors + [NotNormalized];
      }
    }
    if !ReasonsCoherent(id) {
      errors := errors + [NotNormalized];
    }
    if !id.accounting.Partitioned() {
      errors := errors + [NotNormalized];
    }
  }

  /** `_validate_raw_fields`: errors pile up, check after check. */
  method ValidateRawFields(r: Record) returns (errors: seq<RecordError>)
    ensures TypeInvalid in errors <==> !WellTyped(r)
    ensures NotNormalized in errors <==> !IdentityNormalized(r.identity)
    ensures forall e :: e in errors ==> e == TypeInvalid || e == NotNormalized
  {
    var types := TypeErrors(r);
    var forms := NormalizationErrors(r.identity);
    assert types != [] ==> types[0] in types;
    assert forms != [] ==> forms[0] in forms;
    errors := types + forms;
  }

  function BindingErrors(pf: Platform, id: Identity, input: PolicyInput): set<RecordError> {
    if !Echoes(id, input) then {SourceBindingMismatch}
    else if InputDigest(pf, input) != Some(id.inputDigest) then {InputDigestMismatch}
    else {}
  }

  /** The identity repeats the source bindings of the input. */
  predicate Echoes(id: Identity, input: PolicyInput) {
    && id.taskId == input.taskId && id.bindings == input.bindings
    && id.policyVersion == input.policyVersion && id.evaluatorVersion == input.evaluatorVersion
    && id.mode == ModeText(input.mode)
  }

  /** `validate_policy_evaluation_record`, with or without an input to bind to. */
  function Validate(pf: Platform, r: Record, input: Option<PolicyInput>): set<RecordError> {
    if !WellTyped(r) || !IdentityNormalized(r.identity) then
      (if WellTyped(r) then {} else {TypeInvalid}) + (if IdentityNormalized(r.identity) then {} else {NotNormalized})
    else if DecisionDigest(pf, r.identity) != Some(r.decisionDigest) then {DecisionDigestNotDerived}
    else if RecordDigest(pf, r.schemaVersion, r.identity, r.decisionDigest) != Some(r.recordDigest) then {RecordDigestNotDerived}
    else if input.None? then {}
    else BindingErrors(pf, r.identity, input.value)
  }

  // --- Sealing a decision ---

  datatype RecordFault =
    | AccountingMismatch | InputRefused | DecisionInvalid | InputDigestInconsistent | EchoesInconsistent
    | RecordInvalid | EvaluatorFault(fault: Fault)

  predicate TokenIds(a: Accounting) {
    forall fact: SetFact, i :: 0 <= i < |a.Ids(fact)| ==> IsToken(a.Ids(fact)[i])
  }

  /** What the typed constructors demand of the identity fields. */
  predicate ValidIdentity(id: Identity) {
    IdentityTyped(id) && IdentityNormalized(id) && TokenIds(id.accounting)
  }

  function IdentityOf(input: PolicyInput, core: Core, inputDigest: string): Identity {
    Identity(input.taskId, input.bindings, input.policyVersion, input.evaluatorVersion, ModeText(input.mode),
             inputDigest, DispositionText(core.disposition), AuthorityText(core.authority), core.primary,
             core.complete, core.blocking, core.review, core.accounting)
  }

  /** `finalize_decision`, with the checks of the `MergeEligibilityDecision` constructor. */
  function FinalizeDecision(pf: Platform, input: PolicyInput, core: Core): Result<Decision, RecordFault> {
    if core.accounting != input.facts.accounting then Err(AccountingMismatch)
    else
      match InputDigest(pf, input)
      case None => Err(InputRefused)
      case Some(inputDigest) =>
        var id := IdentityOf(input, core, inputDigest);
        match DecisionDigest(pf, id)
        case None => Err(DecisionInvalid)
        case Some(digest) =>
          if ValidIdentity(id) && IsDigest(digest) then Ok(Decision(id, digest)) else Err(DecisionInvalid)
  }

  /** `build_policy_evaluation_record`, with the checks of the `PolicyEvaluationRecord` constructor. */
  function BuildRecord(pf: Platform, input: PolicyInput, decision: Decision): Result<Record, RecordFault> {
    if InputDigest(pf, input) != Some(decision.identity.inputDigest) then Err(InputDigestInconsistent)
    else if !Echoes(decision.identity, input) then Err(EchoesInconsistent)
    else if DecisionDigest(pf, decision.identity) != Some(decision.decisionDigest) then Err(DecisionInvalid)
    else
      match RecordDigest(pf, SCHEMA_VERSION, decision.identity, decision.decisionDigest)
      case None => Err(RecordInvalid)
      case Some(digest) =>
        var r := Record(SCHEMA_VERSION, decision.identity, decision.decisionDigest, digest);
        if WellTyped(r) && ValidIdentity(r.identity) then Ok(r) else Err(RecordInvalid)
  }

  /** Finalise, then build. */
  function Seal(pf: Platform, input: PolicyInput, core: Core): Result<Record, RecordFault> {
    match FinalizeDecision(pf, input, core)
    case Err(fault) => Err(fault)
    case Ok(decision) => BuildRecord(pf, input, decision)
  }

  lemma FinalizedShape(pf: Platform, input: PolicyInput, core: Core)
    requires FinalizeDecision(pf, input, core).Ok?
    ensures var d := FinalizeDecision(pf, input, core).value;
      && InputDigest(pf, input) == Some(d.identity.inputDigest)
      && d.identity == IdentityOf(input, core, d.identity.inputDigest)
      && ValidIdentity(d.identity) && DecisionDigest(pf, d.identity) == Some(d.decisionDigest)
      && core.accounting == input.facts.accounting
  {
  }

  lemma BuiltShape(pf: Platform, input: PolicyInput, d: Decision)
    requires BuildRecord(pf, input, d).Ok?
    ensures var r := BuildRecord(pf, input, d).value;
      && r.schemaVersion == SCHEMA_VERSION && r.identity == d.identity && r.decisionDigest == d.decisionDigest
      && WellTyped(r) && ValidIdentity(r.identity) && Echoes(r.identity, input)
      && InputDigest(pf, input) == Some(r.identity.inputDigest)
      && DecisionDigest(pf, r.identity) == Some(r.decisionDigest)
      && RecordDigest(pf, r.schemaVersion, r.identity, r.decisionDigest) == Some(r.recordDigest)
  {
  }

  /** A sealed record is structurally valid, bound to its input and made of token ids. */
  lemma SealedIsValid(pf: Platform, input: PolicyInput, core: Core)
    requires Seal(pf, input, core).Ok?
    ensures var r := Seal(pf, input, core).value;
      && Validate(pf, r, Some(input)) == {} && ValidIdentity(r.identity)
      && r.identity == IdentityOf(input, core, r.identity.inputDigest)
  {
    FinalizedShape(pf, input, core);
    BuiltShape(pf, input, FinalizeDecision(pf, input, core).value);
  }

  /** Sealing a valid core that repeats the accounting of the facts, over token ids, never fails. */
  lemma SealSucceeds(pf: Platform, input: PolicyInput, core: Core)
    requires ValidPlatform(pf) && ValidInput(pf, input)
    requires ReasonsValid(core) && core.accounting == input.facts.accounting && TokenIds(core.accounting)
    requires AllCommitted(core.complete)
    ensures Seal(pf, input, core).Ok?
  {
    InputDigestDefined(pf, input);
    var inputDigest := InputDigest(pf, input).value;
    CoreIdentityValid(pf, input, core, inputDigest);
    FinalizeSucceeds(pf, input, core, inputDigest);
    BuildSucceeds(pf, input, FinalizeDecision(pf, input, core).value);
  }

  lemma FinalizeSucceeds(pf: Platform, input: PolicyInput, core: Core, inputDigest: string)
    requires ValidPlatform(pf) && InputDigest(pf, input) == Some(inputDigest)
    requires core.accounting == input.facts.accounting && ValidIdentity(IdentityOf(input, core, inputDigest))
    ensures FinalizeDecision(pf, input, core).Ok?
    ensures var d := FinalizeDecision(pf, input, core).value;
      d.identity == IdentityOf(input, core, inputDigest) && DecisionDigest(pf, d.identity) == Some(d.decisionDigest)
  {
    DigestsDefined(pf, SCHEMA_VERSION, IdentityOf(input, core, inputDigest), []);
  }

  lemma BuildSucceeds(pf: Platform, input: PolicyInput, d: Decision)
    requires ValidPlatform(pf) && InputDigest(pf, input) == Some(d.identity.inputDigest) && Echoes(d.identity, input)
    requires DecisionDigest(pf, d.identity) == Some(d.decisionDigest) && ValidIdentity(d.identity)
    ensures BuildRecord(pf, input, d).Ok?
  {
    DigestsDefined(pf, SCHEMA_VERSION, d.identity, d.decisionDigest);
  }

  lemma CoreIdentityValid(pf: Platform, input: PolicyInput, core: Core, inputDigest: string)
    requires ValidInput(pf, input) && IsDigest(inputDigest)
    requires ReasonsValid(core) && core.accounting == input.facts.accounting && TokenIds(core.accounting)
    requires AllCommitted(core.complete)
    ensures ValidIdentity(IdentityOf(input, core, inputDigest))
  {
    var id := IdentityOf(input, core, inputDigest);
    SubsetCommitted(core.complete, core.blocking);
    SubsetCommitted(core.complete, core.review);
    if core.primary.Some? {
      SubsetCommitted(core.complete, [core.primary.value]);
      assert IsCommittedCode([core.primary.value][0]);
    }
    forall fact: SetFact ensures Sorted(core.accounting.Ids(fact)) {
      assert IdList(input.facts.accounting.Ids(fact));
    }
    ListsSorted(id);
  }

  lemma SubsetCommitted(codes: seq<string>, part: seq<string>)
    requires AllCommitted(codes) && forall x :: x in part ==> x in codes
    ensures AllCommitted(part)
  {
    forall i | 0 <= i < |part| ensures IsCommittedCode(part[i]) {
      assert part[i] in codes;
    }
  }

  lemma ListsSorted(id: Identity)
    requires Sorted(id.complete) && Sorted(id.blocking) && Sorted(id.review)
    requires forall fact: SetFact :: Sorted(id.accounting.Ids(fact))
    ensures forall k :: 0 <= k < |SortedLists(id)| ==> Sorted(SortedLists(id)[k])
  {
    assert Sorted(id.accounting.Ids(Required)) && Sorted(id.accounting.Ids(Satisfied)) && Sorted(id.accounting.Ids(Invalid))
        && Sorted(id.accounting.Ids(Missing)) && Sorted(id.accounting.Ids(Rejected))
        && Sorted(id.accounting.Ids(InvalidProvenance)) && Sorted(id.accounting.Ids(Unexpected));
  }
}

/**
 The facade end to end: what its record says for given facts, and which cores can be sealed at all.
 */
module FacadeMeaning {
  import opened Grammar
  import opened MergePolicy
  import opened ProductionPolicy
  import opened ProductionMeaning
  import opened MergeRecord
  import opened RecordLifecycle
  import opened Replay
  import opened ReplayOutcome
  import opened RecordContent

  // --- Which cores can be sealed ---

  lemma DispositionTextsDiffer(a: Disposition, b: Disposition)
    requires DispositionText(a) == DispositionText(b)
    ensures a == b
  {
    assert |"ELIGIBLE_TO_MERGE_UNDER_POLICY"| == 30 && |"REVIEW_REQUIRED"| == 15 && |"BLOCK"| == 5;
  }

  lemma NormalCoreValid(core: Core, id: Identity)
    requires id.complete == core.complete && id.blocking == core.blocking && id.review == core.review
    requires id.primary == core.primary && id.disposition == DispositionText(core.disposition)
    requires IdentityNormalized(id)
    ensures ReasonsValid(core)
  {
    NormalizedExactly(id);
    DispositionTextsDiffer(core.disposition, DerivedDisposition(core.blocking, core.review));
  }

  /** A core is sealed for a valid input exactly when its accounting is the input's, over tokens, its reasons are
      committed codes, and they partition as the constructor demands. */
  lemma SealsExactly(pf: Platform, input: PolicyInput, core: Core)
    requires ValidPlatform(pf) && ValidInput(pf, input)
    ensures Seal(pf, input, core).Ok? <==>
      core.accounting == input.facts.accounting && TokenIds(core.accounting) && AllCommitted(core.complete) && ReasonsValid(core)
  {
    if Seal(pf, input, core).Ok? {
      FinalizedShape(pf, input, core);
      var id := FinalizeDecision(pf, input, core).value.identity;
      NormalCoreValid(core, id);
    } else if core.accounting == input.facts.accounting && TokenIds(core.accounting) && AllCommitted(core.complete)
        && ReasonsValid(core) {
      SealSucceeds(pf, input, core);
    }
  }

  // --- What the facade's record says ---

  /** The disposition and authority of the facade's record, and its reasons, for the facts of its input. */
  lemma FacadeDecides(pf: Platform, input: PolicyInput)
    requires ValidPlatform(pf) && ValidInput(pf, input) && Facade(pf, input).Ok?
    ensures var id := Facade(pf, input).value.identity;
      && id.disposition == (if AllInOrder(input.facts) then "ELIGIBLE_TO_MERGE_UNDER_POLICY"
                            else if InOrderButUncertain(input.facts) then "REVIEW_REQUIRED" else "BLOCK")
      && id.authority == (if input.mode == Enforce then "AUTHORITATIVE" else "ADVISORY_ONLY")
      && forall c :: Name(c) in id.complete <==> Raised(input.facts, c)
  {
    ProductionCoreValid(input);
    SealedContent(pf, input, CoreEvaluator(input, POLICY_V1).value);
    ProductionDecision(input.facts, input.mode);
    CompleteExactly(input.facts, input.mode);
    ModeChangesAuthorityOnly(POLICY_V1, input.facts);
  }

  // --- What the input must be ---

  /** An approval binding is a digest, or says that no approval was supplied. */
  lemma BindingsExactly(b: Bindings)
    ensures ValidBindings(b) <==>
      && (b.approval == "NO_APPROVAL_SUPPLIED" || IsDigest(b.approval))
      && forall i :: 0 <= i < 7 ==>
           IsDigest([b.taskContract, b.candidate, b.snapshot, b.bundle, b.authority, b.verifier, b.policy][i])
  {
    var ds := [b.taskContract, b.candidate, b.snapshot, b.bundle, b.authority, b.verifier, b.policy];
    assert ds[0] == b.taskContract && ds[1] == b.candidate && ds[2] == b.snapshot && ds[3] == b.bundle
        && ds[4] == b.authority && ds[5] == b.verifier && ds[6] == b.policy;
  }

  /** The versions an input must declare. */
  lemma InputVersions(pf: Platform, input: PolicyInput)
    requires ValidInput(pf, input)
    ensures input.schemaVersion == "changegate.policy-evaluation-record.v1"
    ensures input.canonicalizationVersion == "tomtit.canonical.v1"
    ensures input.schemaDigest == pf.schemaDigest && input.contractDigest == pf.contractDigest
    ensures IsToken(input.taskId) && IsToken(input.policyVersion) && IsToken(input.evaluatorVersion)
  {
  }
}

/**
 What a sealed record contains: the members of the payloads under their names, the record's fields
 for an input and a decision core, and the texts of disposition and authority.
 */
module RecordContent {
  import opened FieldNames
  import opened CanonicalJson
  import opened MergePolicy
  import opened MergeRecord
  import opened RecordLifecycle
  import opened InputBinding

  // --- Payloads, member by member ---

  function Texts(xs: seq<string>): Value {
    List(seq(|xs|, i requires 0 <= i < |xs| => Str(xs[i])))
  }

  function Fact(f: Facts, fact: EnumFact): Value {
    if fact in f.enums then Str(f.enums[fact]) else Unsupported
  }

  function NamedAccounting(a: Accounting): seq<Entry> {
    [Entry("required_requirement_ids", Texts(a.required)),
     Entry("satisfied_requirement_ids", Texts(a.satisfied)),
     Entry("invalid_requirement_ids", Texts(a.invalid)),
     Entry("missing_requirement_ids", Texts(a.missing)),
     Entry("rejected_evidence_ids", Texts(a.rejected)),
     Entry("invalid_provenance_evidence_ids", Texts(a.invalidProvenance)),
     Entry("unexpected_evidence_ids", Texts(a.unexpected))]
  }

  function NamedBindings(id: Identity): seq<Entry> {
    var b := id.bindings;
    [Entry("task_id", Str(id.taskId)),
     Entry("task_contract_digest", Str(b.taskContract)),
     Entry("candidate_digest", Str(b.candidate)),
     Entry("repository_snapshot_digest", Str(b.snapshot)),
     Entry("verification_bundle_digest", Str(b.bundle)),
     Entry("approval_digest_or_sentinel", Str(b.approval)),
     Entry("authority_binding_digest", Str(b.authority)),
     Entry("verifier_binding_digest", Str(b.verifier)),
     Entry("policy_digest", Str(b.policy)),
     Entry("policy_version", Str(id.policyVersion)),
     Entry("evaluator_version", Str(id.evaluatorVersion)),
     Entry("evaluation_mode", Str(id.mode)),
     Entry("input_digest", Str(id.inputDigest))]
  }

  function NamedReasons(id: Identity): seq<Entry> {
    [Entry("disposition", Str(id.disposition)),
     Entry("decision_authority", Str(id.authority)),
     Entry("primary_reason_code", (match id.primary case None => Null case Some(code) => Str(code))),
     Entry("complete_reason_codes", Texts(id.complete)),
     Entry("blocking_reason_codes", Texts(id.blocking)),
     Entry("review_reason_codes", Texts(id.review))]
  }

  /** The members every decision and record payload shares. */
  function NamedIdentity(id: Identity): seq<Entry> {
    NamedBindings(id) + NamedReasons(id) + NamedAccounting(id.accounting)
  }

  function NamedFacts(f: Facts): seq<Entry> {
    [Entry("task_context_current", Fact(f, TaskContextCurrent)),
     Entry("candidate_binding_current", Fact(f, CandidateBindingCurrent)),
     Entry("repository_snapshot_current", Fact(f, RepositorySnapshotCurrent)),
     Entry("repository_release_clean", Fact(f, RepositoryReleaseClean)),
     Entry("policy_context_current", Fact(f, PolicyContextCurrent)),
     Entry("evidence_context_status", Fact(f, EvidenceContextStatus)),
     Entry("evidence_context_violations", Texts(f.violations)),
     Entry("scope_status", Fact(f, ScopeStatus)),
     Entry("approval_status", Fact(f, ApprovalStatus)),
     Entry("authority_status", Fact(f, AuthorityStatus)),
     Entry("verifier_identity_status", Str(f.verifierIdentity)),
     Entry("verifier_independence_status", Str(f.verifierIndependence))]
    + NamedAccounting(f.accounting)
  }

  function NamedInput(input: PolicyInput): seq<Entry> {
    var b := input.bindings;
    [Entry("kind", Str("changegate.merge-eligibility-policy-input.test-oracle.v1")),
     Entry("task_id", Str(input.taskId)),
     Entry("task_contract_digest", Str(b.taskContract)),
     Entry("candidate_digest", Str(b.candidate)),
     Entry("repository_snapshot_digest", Str(b.snapshot)),
     Entry("verification_bundle_digest", Str(b.bundle)),
     Entry("approval_digest_or_sentinel", Str(b.approval)),
     Entry("authority_binding_digest", Str(b.authority)),
     Entry("verifier_binding_digest", Str(b.verifier)),
     Entry("policy_digest", Str(b.policy)),
     Entry("policy_version", Str(input.policyVersion)),
     Entry("evaluator_version", Str(input.evaluatorVersion)),
     Entry("evaluation_mode", Str(if input.mode == Enforce then "ENFORCE" else "SHADOW")),
     Entry("policy_record_schema_version", Str(input.schemaVersion)),
     Entry("policy_record_schema_digest", Str(input.schemaDigest)),
     Entry("canonicalization_version", Str(input.canonicalizationVersion)),
     Entry("canonicalization_contract_digest", Str(input.contractDigest)),
     Entry("facts", Dict(NamedFacts(input.facts)))]
  }

  predicate SameEntries(names: seq<string>, values: seq<Value>, entries: seq<Entry>) {
    && |names| == |values| == |entries|
    && forall i :: 0 <= i < |names| ==> entries[i] == Entry(names[i], values[i])
  }

  lemma ZipIs(names: seq<string>, values: seq<Value>, entries: seq<Entry>)
    requires SameEntries(names, values, entries)
    ensures Zip(names, values) == entries
  {
  }

  lemma Parts(names: seq<string>, values: seq<Value>, es: seq<Entry>, names': seq<string>, values': seq<Value>, fs: seq<Entry>)
    requires SameEntries(names, values, es) && SameEntries(names', values', fs)
    ensures SameEntries(names + names', values + values', es + fs)
  {
    forall i | 0 <= i < |names + names'| ensures (es + fs)[i] == Entry((names + names')[i], (values + values')[i]) {
      if i >= |names| {
        assert fs[i - |names|] == Entry(names'[i - |names|], values'[i - |names|]);
      }
    }
  }

  lemma TextsAreStrList(xs: seq<string>)
    ensures Texts(xs) == StrList(xs)
  {
  }

  lemma AccountingNamed(a: Accounting, names: seq<string>)
    requires names == ["required_requirement_ids", "satisfied_requirement_ids", "invalid_requirement_ids", "missing_requirement_ids",
                       "rejected_evidence_ids", "invalid_provenance_evidence_ids", "unexpected_evidence_ids"]
    ensures SameEntries(names, AccountingValues(a), NamedAccounting(a))
  {
    TextsAreStrList(a.required);
    TextsAreStrList(a.satisfied);
    TextsAreStrList(a.invalid);
    TextsAreStrList(a.missing);
    TextsAreStrList(a.rejected);
    TextsAreStrList(a.invalidProvenance);
    TextsAreStrList(a.unexpected);
  }

  lemma BindingsNamed(id: Identity)
    ensures SameEntries(IDENTITY_FIELDS[..13], IdentityValues(id)[..13], NamedBindings(id))
  {
  }

  lemma ReasonsNamed(id: Identity)
    ensures SameEntries(IDENTITY_FIELDS[13..19], IdentityValues(id)[13..19], NamedReasons(id))
  {
    TextsAreStrList(id.complete);
    TextsAreStrList(id.blocking);
    TextsAreStrList(id.review);
  }

  lemma AccountingPart(id: Identity)
    ensures SameEntries(IDENTITY_FIELDS[19..], IdentityValues(id)[19..], NamedAccounting(id.accounting))
  {
    AccountingNamed(id.accounting, IDENTITY_FIELDS[19..]);
    assert IdentityValues(id)[19..] == AccountingValues(id.accounting);
  }

  lemma Whole(names: seq<string>, values: seq<Value>, i: nat, j: nat, es: seq<Entry>, fs: seq<Entry>, gs: seq<Entry>)
    requires i <= j <= |names| == |values|
    requires SameEntries(names[..i], values[..i], es) && SameEntries(names[i..j], values[i..j], fs)
    requires SameEntries(names[j..], values[j..], gs)
    ensures SameEntries(names, values, es + fs + gs)
  {
    Parts(names[..i], values[..i], es, names[i..j], values[i..j], fs);
    Parts(names[..i] + names[i..j], values[..i] + values[i..j], es + fs, names[j..], values[j..], gs);
    assert names == names[..i] + names[i..j] + names[j..] && values == values[..i] + values[i..j] + values[j..];
  }

  lemma IdentityNamed(id: Identity)
    ensures SameEntries(IDENTITY_FIELDS, IdentityValues(id), NamedIdentity(id))
  {
    BindingsNamed(id);
    ReasonsNamed(id);
    AccountingPart(id);
    Whole(IDENTITY_FIELDS, IdentityValues(id), 13, 19, NamedBindings(id), NamedReasons(id), NamedAccounting(id.accounting));
  }

  /** The decision payload: its kind and the identity, each value under its name. */
  lemma DecisionMembers(id: Identity)
    ensures DecisionPayload(id) ==
      Dict([Entry("kind", Str("changegate.merge-eligibility-decision.test-oracle.v1"))] + NamedIdentity(id))
  {
    IdentityNamed(id);
    var kind := [Str(DECISION_KIND)];
    Parts(["kind"], kind, [Entry("kind", kind[0])], IDENTITY_FIELDS, IdentityValues(id), NamedIdentity(id));
    ZipIs(DECISION_FIELDS, DecisionValues(id), [Entry("kind", kind[0])] + NamedIdentity(id));
  }

  /** The record payload: the schema version, the identity and the decision digest. */
  lemma RecordMembers(schemaVersion: string, id: Identity, decisionDigest: string)
    ensures RecordPayload(schemaVersion, id, decisionDigest) ==
      Dict([Entry("schema_version", Str(schemaVersion))] + NamedIdentity(id)
           + [Entry("decision_digest", Str(decisionDigest))])
  {
    IdentityNamed(id);
    var first, last := [Entry("schema_version", Str(schemaVersion))], [Entry("decision_digest", Str(decisionDigest))];
    Parts(["schema_version"], [Str(schemaVersion)], first, IDENTITY_FIELDS, IdentityValues(id), NamedIdentity(id));
    Parts(["schema_version"] + IDENTITY_FIELDS, [Str(schemaVersion)] + IdentityValues(id), first + NamedIdentity(id),
          ["decision_digest"], [Str(decisionDigest)], last);
    ZipIs(RECORD_FIELDS, RecordValues(schemaVersion, id, decisionDigest), first + NamedIdentity(id) + last);
  }

  lemma StatusesNamed(f: Facts)
    ensures SameEntries(FACT_FIELDS[..12], FactValues(f)[..12], NamedFacts(f)[..12])
  {
    TextsAreStrList(f.violations);
  }

  /** The facts member of the input payload. */
  lemma FactsMembers(f: Facts)
    ensures FactsPayload(f) == Dict(NamedFacts(f))
  {
    StatusesNamed(f);
    AccountingNamed(f.accounting, FACT_FIELDS[12..]);
    var names, values, entries := FACT_FIELDS, FactValues(f), NamedFacts(f);
    assert values[12..] == AccountingValues(f.accounting) && entries[12..] == NamedAccounting(f.accounting);
    Parts(names[..12], values[..12], entries[..12], names[12..], values[12..], entries[12..]);
    assert names == names[..12] + names[12..] && values == values[..12] + values[12..];
    assert entries == entries[..12] + entries[12..];
    ZipIs(names, values, entries);
  }

  lemma InputNamed(input: PolicyInput)
    requires FactsPayload(input.facts) == Dict(NamedFacts(input.facts))
    ensures SameEntries(INPUT_FIELDS, InputValues(input), NamedInput(input))
  {
  }

  /** The input payload, each value under its name. */
  lemma InputMembers(input: PolicyInput)
    ensures InputPayload(input) == Dict(NamedInput(input))
  {
    FactsMembers(input.facts);
    InputNamed(input);
    ZipIs(INPUT_FIELDS, InputValues(input), NamedInput(input));
  }

  // --- The sealed record ---

  /** What sealing a core for an input puts into the record. */
  lemma SealedContent(pf: Platform, input: PolicyInput, core: Core)
    requires Seal(pf, input, core).Ok?
    ensures var r := Seal(pf, input, core).value;
      var id := r.identity;
      && r.schemaVersion == "changegate.policy-evaluation-record.v1"
      && id.taskId == input.taskId && id.bindings == input.bindings
      && id.policyVersion == input.policyVersion && id.evaluatorVersion == input.evaluatorVersion
      && id.mode == (match input.mode case Enforce => "ENFORCE" case Shadow => "SHADOW")
      && id.disposition == (match core.disposition case Block => "BLOCK" case ReviewRequired => "REVIEW_REQUIRED"
                              case Eligible => "ELIGIBLE_TO_MERGE_UNDER_POLICY")
      && id.authority == (match core.authority case Authoritative => "AUTHORITATIVE" case AdvisoryOnly => "ADVISORY_ONLY")
      && id.primary == core.primary && id.complete == core.complete
      && id.blocking == core.blocking && id.review == core.review && id.accounting == input.facts.accounting
  {
    FinalizedShape(pf, input, core);
    BuiltShape(pf, input, FinalizeDecision(pf, input, core).value);
  }

  /** And what its three digests are digests of. */
  lemma SealedDigests(pf: Platform, input: PolicyInput, core: Core)
    requires Seal(pf, input, core).Ok?
    ensures var r := Seal(pf, input, core).value;
      && Digested(pf, NamedInput(input), r.identity.inputDigest)
      && Digested(pf, [Entry("kind", Str("changegate.merge-eligibility-decision.test-oracle.v1"))] + NamedIdentity(r.identity),
                  r.decisionDigest)
      && Digested(pf, [Entry("schema_version", Str(r.schemaVersion))] + NamedIdentity(r.identity)
                      + [Entry("decision_digest", Str(r.decisionDigest))], r.recordDigest)
  {
    FinalizedShape(pf, input, core);
    BuiltShape(pf, input, FinalizeDecision(pf, input, core).value);
    var r := Seal(pf, input, core).value;
    InputMembers(input);
    DecisionMembers(r.identity);
    RecordMembers(r.schemaVersion, r.identity, r.decisionDigest);
  }

  /** The digest of the canonical bytes of these members. */
  predicate Digested(pf: Platform, members: seq<Entry>, digest: string) {
    match Encode(pf.nfc, Dict(members)) case None => false case Some(bytes) => pf.digest(bytes) == digest
  }
}

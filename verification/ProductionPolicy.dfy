/** The frozen production policy MERGE_ELIGIBILITY_POLICY_V1 and its twenty committed reason codes. */
module ProductionPolicy {
  import opened Wrappers
  import opened MergePolicy

  datatype Committed =
    | AuthorityInvalid | RequiredContextIncomplete | EvidenceTaskMismatch | EvidenceRunMismatch
    | EvidenceCandidateMismatch | RepositoryContextMismatch | EvidenceProvenanceInvalid
    | EvidenceDuplicateIdentity | RequiredEvidenceInvalid | TaskContextStale | CandidateStale
    | PolicyContextStale | RequiredEvidenceMissing | ReleaseStateNotClean | ScopeViolation
    | ApprovalMissing | ApprovalStale | VerifierNotIndependent | ScopeUncertain | VerifierIndependenceUnknown

  function Name(c: Committed): string {
    match c
    case AuthorityInvalid => "AUTHORITY_INVALID"
    case RequiredContextIncomplete => "REQUIRED_CONTEXT_INCOMPLETE"
    case EvidenceTaskMismatch => "EVIDENCE_TASK_MISMATCH"
    case EvidenceRunMismatch => "EVIDENCE_RUN_MISMATCH"
    case EvidenceCandidateMismatch => "EVIDENCE_CANDIDATE_MISMATCH"
    case RepositoryContextMismatch => "REPOSITORY_CONTEXT_MISMATCH"
    case EvidenceProvenanceInvalid => "EVIDENCE_PROVENANCE_INVALID"
    case EvidenceDuplicateIdentity => "EVIDENCE_DUPLICATE_IDENTITY"
    case RequiredEvidenceInvalid => "REQUIRED_EVIDENCE_INVALID"
    case TaskContextStale => "TASK_CONTEXT_STALE"
    case CandidateStale => "CANDIDATE_STALE"
    case PolicyContextStale => "POLICY_CONTEXT_STALE"
    case RequiredEvidenceMissing => "REQUIRED_EVIDENCE_MISSING"
    case ReleaseStateNotClean => "RELEASE_STATE_NOT_CLEAN"
    case ScopeViolation => "SCOPE_VIOLATION"
    case ApprovalMissing => "APPROVAL_MISSING"
    case ApprovalStale => "APPROVAL_STALE"
    case VerifierNotIndependent => "VERIFIER_NOT_INDEPENDENT"
    case ScopeUncertain => "SCOPE_UNCERTAIN"
    case VerifierIndependenceUnknown => "VERIFIER_INDEPENDENCE_UNKNOWN"
  }

  function Rank(c: Committed): int {
    match c
    case AuthorityInvalid => 10
    case RequiredContextIncomplete => 20
    case EvidenceTaskMismatch => 30
    case EvidenceRunMismatch => 40
    case EvidenceCandidateMismatch => 50
    case RepositoryContextMismatch => 60
    case EvidenceProvenanceInvalid => 70
    case EvidenceDuplicateIdentity => 80
    case RequiredEvidenceInvalid => 90
    case TaskContextStale => 95
    case CandidateStale => 100
    case PolicyContextStale => 110
    case RequiredEvidenceMissing => 120
    case ReleaseStateNotClean => 130
    case ScopeViolation => 140
    case ApprovalMissing => 150
    case ApprovalStale => 160
    case VerifierNotIndependent => 170
    case ScopeUncertain => 180
    case VerifierIndependenceUnknown => 190
  }

  /** A code of the closed taxonomy `_REASON_CODES` that records may carry. */
  predicate IsCommittedCode(code: string) {
    exists c: Committed :: Name(c) == code
  }

  function Definition(c: Committed): Reason {
    Reason(Name(c), Rank(c), if c.ScopeUncertain? || c.VerifierIndependenceUnknown? then ReviewRequired else Block)
  }

  const REASONS: seq<Reason> := seq(|ORDER|, i requires 0 <= i < |ORDER| => Definition(ORDER[i]))

  const ORDER: seq<Committed> := [
    AuthorityInvalid, RequiredContextIncomplete, EvidenceTaskMismatch, EvidenceRunMismatch,
    EvidenceCandidateMismatch, RepositoryContextMismatch, EvidenceProvenanceInvalid,
    EvidenceDuplicateIdentity, RequiredEvidenceInvalid, TaskContextStale, CandidateStale,
    PolicyContextStale, RequiredEvidenceMissing, ReleaseStateNotClean, ScopeViolation,
    ApprovalMissing, ApprovalStale, VerifierNotIndependent, ScopeUncertain, VerifierIndependenceUnknown]

  function Code(c: Committed): Option<string> { Some(Name(c)) }

  function EnumRow(fact: EnumFact): map<string, Option<string>> {
    match fact
    case TaskContextCurrent =>
      map["CURRENT" := None, "STALE" := Code(TaskContextStale), "UNKNOWN" := Code(RequiredContextIncomplete)]
    case CandidateBindingCurrent =>
      map["CURRENT" := None, "STALE" := Code(CandidateStale), "UNKNOWN" := Code(RequiredContextIncomplete)]
    case RepositorySnapshotCurrent =>
      map["CURRENT" := None, "MISMATCH" := Code(RepositoryContextMismatch), "UNKNOWN" := Code(RequiredContextIncomplete)]
    case RepositoryReleaseClean =>
      map["CLEAN" := None, "DIRTY" := Code(ReleaseStateNotClean), "UNKNOWN" := Code(RequiredContextIncomplete)]
    case PolicyContextCurrent =>
      map["CURRENT" := None, "STALE" := Code(PolicyContextStale), "UNKNOWN" := Code(RequiredContextIncomplete)]
    case EvidenceContextStatus =>
      map["COHERENT" := None, "INCOHERENT" := None, "UNKNOWN" := Code(RequiredContextIncomplete)]
    case ScopeStatus =>
      map["COMPLIANT" := None, "VIOLATION" := Code(ScopeViolation), "SEMANTIC_UNCERTAIN" := Code(ScopeUncertain),
          "NOT_EVALUATED" := Code(RequiredContextIncomplete)]
    case ApprovalStatus =>
      map["VALID" := None, "MISSING" := Code(ApprovalMissing), "STALE" := Code(ApprovalStale),
          "UNKNOWN" := Code(ApprovalMissing)]
    case AuthorityStatus =>
      map["VALID" := None, "INVALID" := Code(AuthorityInvalid), "UNKNOWN" := Code(RequiredContextIncomplete)]
  }

  const VIOLATION_REASONS: map<string, string> := map[
    "TASK_MISMATCH" := Name(EvidenceTaskMismatch), "RUN_MISMATCH" := Name(EvidenceRunMismatch),
    "CANDIDATE_MISMATCH" := Name(EvidenceCandidateMismatch),
    "PROVENANCE_INVALID" := Name(EvidenceProvenanceInvalid),
    "DUPLICATE_IDENTITY" := Name(EvidenceDuplicateIdentity)]

  function SetTrigger(fact: SetFact): Option<string> {
    match fact
    case Missing => Code(RequiredEvidenceMissing)
    case Invalid => Code(RequiredEvidenceInvalid)
    case InvalidProvenance => Code(EvidenceProvenanceInvalid)
    case _ => None
  }

  const VERIFIER_RULE: seq<VerifierRow> := [
    VerifierRow(Some(["INVALID"]), None, Code(AuthorityInvalid)),
    VerifierRow(Some(["ABSENT"]), None, Code(RequiredContextIncomplete)),
    VerifierRow(Some(["ATTESTED", "PRESENT_UNATTESTED"]), Some(["NOT_INDEPENDENT"]), Code(VerifierNotIndependent)),
    VerifierRow(Some(["ATTESTED"]), Some(["INDEPENDENT"]), None),
    VerifierRow(Some(["ATTESTED"]), Some(["UNKNOWN"]), Code(VerifierIndependenceUnknown)),
    VerifierRow(Some(["PRESENT_UNATTESTED"]), Some(["INDEPENDENT", "UNKNOWN"]), Code(VerifierIndependenceUnknown))]

  const DECLARED := PolicyIdentity(
    "changegate-merge-eligibility-policy.v2-draft",
    "sha256:88304ee85d7d10c2124d75b0de11cb8d8f91a8707945cabc651c0cbdedc71934")

  const POLICY_V1: Policy := Policy(
    DECLARED, REASONS, map fact: EnumFact | true :: EnumRow(fact), VIOLATION_REASONS,
    map fact: SetFact | true :: SetTrigger(fact), VERIFIER_RULE)

  function Position(c: Committed): (i: nat)
    ensures i < |ORDER| && ORDER[i] == c
  {
    match c
    case AuthorityInvalid => 0
    case RequiredContextIncomplete => 1
    case EvidenceTaskMismatch => 2
    case EvidenceRunMismatch => 3
    case EvidenceCandidateMismatch => 4
    case RepositoryContextMismatch => 5
    case EvidenceProvenanceInvalid => 6
    case EvidenceDuplicateIdentity => 7
    case RequiredEvidenceInvalid => 8
    case TaskContextStale => 9
    case CandidateStale => 10
    case PolicyContextStale => 11
    case RequiredEvidenceMissing => 12
    case ReleaseStateNotClean => 13
    case ScopeViolation => 14
    case ApprovalMissing => 15
    case ApprovalStale => 16
    case VerifierNotIndependent => 17
    case ScopeUncertain => 18
    case VerifierIndependenceUnknown => 19
  }

  lemma DefinesCommitted(c: Committed)
    ensures POLICY_V1.Defines(Name(c))
  {
    assert POLICY_V1.reasons[Position(c)].code == Name(c);
  }

  /** Every reason the production policy defines is a committed one. */
  lemma ProductionReasons(code: string)
    requires POLICY_V1.Defines(code)
    ensures IsCommittedCode(code)
  {
    var i :| 0 <= i < |REASONS| && REASONS[i].code == code;
    assert Name(ORDER[i]) == code;
  }

  lemma NamesDistinct(c: Committed, d: Committed)
    requires Name(c) == Name(d)
    ensures c == d
  {
  }

  lemma RanksIncrease(i: int, j: int)
    requires 0 <= i < j < |ORDER|
    ensures Rank(ORDER[i]) < Rank(ORDER[j])
  {
  }

  lemma ProductionRanked()
    ensures Ranked(POLICY_V1)
  {
    forall i, j | 0 <= i < j < |REASONS|
      ensures REASONS[i].code != REASONS[j].code && REASONS[i].rank != REASONS[j].rank
    {
      RanksIncrease(i, j);
      ReasonsDiffer(ORDER[i], ORDER[j]);
    }
    forall i | 0 <= i < |REASONS| ensures REASONS[i].rank > 0 {
      RankPositive(ORDER[i]);
    }
  }

  lemma RankPositive(c: Committed)
    ensures Rank(c) > 0 && Definition(c).disposition != Eligible
  {
  }

  lemma ReasonsDiffer(c: Committed, d: Committed)
    requires Rank(c) < Rank(d)
    ensures Definition(c).code != Definition(d).code && Definition(c).rank != Definition(d).rank
  {
    if Name(c) == Name(d) {
      NamesDistinct(c, d);
    }
  }

  predicate CommittedOrNone(code: Option<string>) {
    code.None? || exists c: Committed :: code == Code(c)
  }

  lemma KnowsCommitted(code: Option<string>)
    requires CommittedOrNone(code)
    ensures POLICY_V1.Knows(code)
  {
    if code.Some? {
      var c: Committed :| code == Code(c);
      DefinesCommitted(c);
    }
  }

  lemma EnumRowsTotal(fact: EnumFact)
    ensures EnumRow(fact).Keys == Domain(fact)
    ensures forall v :: v in EnumRow(fact) ==> CommittedOrNone(EnumRow(fact)[v])
  {
  }

  lemma TagsTotal()
    ensures VIOLATION_REASONS.Keys == VIOLATION_TAGS
    ensures forall tag :: tag in VIOLATION_REASONS ==> CommittedOrNone(Some(VIOLATION_REASONS[tag]))
  {
    assert forall c: Committed :: Code(c) == Some(Name(c));
  }

  lemma VerifierRuleResolves(identity: string, independence: string)
    requires identity in VERIFIER_IDENTITIES && independence in VERIFIER_INDEPENDENCES
    ensures Resolves(VERIFIER_RULE, identity, independence)
  {
    assert identity == "INVALID" ==> VERIFIER_RULE[0].Matches(identity, independence);
    assert identity == "ABSENT" ==> VERIFIER_RULE[1].Matches(identity, independence);
    if identity == "ATTESTED" {
      assert independence == "NOT_INDEPENDENT" ==> VERIFIER_RULE[2].Matches(identity, independence);
      assert independence == "INDEPENDENT" ==> VERIFIER_RULE[3].Matches(identity, independence);
      assert independence == "UNKNOWN" ==> VERIFIER_RULE[4].Matches(identity, independence);
    }
    if identity == "PRESENT_UNATTESTED" {
      assert independence == "NOT_INDEPENDENT" ==> VERIFIER_RULE[2].Matches(identity, independence);
      assert independence != "NOT_INDEPENDENT" ==> VERIFIER_RULE[5].Matches(identity, independence);
    }
  }

  lemma VerifierRuleKnown(i: int)
    requires 0 <= i < |VERIFIER_RULE|
    ensures CommittedOrNone(VERIFIER_RULE[i].reason)
  {
  }

  lemma ProductionEnumTable()
    ensures EnumTableTotal(POLICY_V1)
  {
    var p := POLICY_V1;
    forall fact: EnumFact ensures fact in p.enumReasons && p.enumReasons[fact].Keys == Domain(fact) {
      EnumRowsTotal(fact);
    }
    forall fact, v | fact in p.enumReasons && v in p.enumReasons[fact] ensures p.Knows(p.enumReasons[fact][v]) {
      EnumRowsTotal(fact);
      KnowsCommitted(EnumRow(fact)[v]);
    }
  }

  lemma ProductionTagTable()
    ensures TagTableTotal(POLICY_V1)
  {
    TagsTotal();
    forall tag | tag in VIOLATION_REASONS ensures POLICY_V1.Defines(VIOLATION_REASONS[tag]) {
      KnowsCommitted(Some(VIOLATION_REASONS[tag]));
    }
  }

  lemma ProductionVerifierRule()
    ensures VerifierRuleTotal(POLICY_V1)
  {
    forall i | 0 <= i < |VERIFIER_RULE| ensures POLICY_V1.Knows(VERIFIER_RULE[i].reason) {
      VerifierRuleKnown(i);
      KnowsCommitted(VERIFIER_RULE[i].reason);
    }
    forall a, b | a in VERIFIER_IDENTITIES && b in VERIFIER_INDEPENDENCES ensures Resolves(VERIFIER_RULE, a, b) {
      VerifierRuleResolves(a, b);
    }
  }

  lemma ProductionSetTable()
    ensures SetTableTotal(POLICY_V1)
  {
    forall fact: SetFact ensures POLICY_V1.Knows(SetTrigger(fact)) {
      KnowsCommitted(SetTrigger(fact));
    }
  }

  lemma NameNonEmpty(c: Committed)
    ensures Name(c) != ""
  {
  }

  lemma ProductionCoded()
    ensures Coded(POLICY_V1)
  {
    forall i | 0 <= i < |POLICY_V1.reasons| ensures POLICY_V1.reasons[i].code != "" {
      NameNonEmpty(ORDER[i]);
    }
  }

  /** The production policy passes the checks of its own constructor, and always decides. */
  lemma ProductionWellFormed()
    ensures WellFormed(POLICY_V1)
    ensures forall facts :: Decidable(POLICY_V1, facts)
  {
    ProductionRanked();
    ProductionCoded();
    ProductionEnumTable();
    ProductionTagTable();
    ProductionSetTable();
    ProductionVerifierRule();
    forall facts ensures Decidable(POLICY_V1, facts) {
      EffectivePolicyDecides(POLICY_V1, facts);
    }
  }
}

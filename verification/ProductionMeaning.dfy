/**
 What the production policy decides, in terms of the facts and not of its tables: the facts that
 raise each committed reason, the primary reason, and when a change is eligible, under review or
 blocked.
 */
module ProductionMeaning {
  import opened Wrappers
  import opened MergePolicy
  import opened ProductionPolicy

  // --- The facts behind each reason ---

  predicate Is(f: Facts, fact: EnumFact, status: string) {
    fact in f.enums && f.enums[fact] == status
  }

  /** Some status that must be known is unknown or was not evaluated, or the verifier is absent. */
  predicate ContextIncomplete(f: Facts) {
    || Is(f, TaskContextCurrent, "UNKNOWN") || Is(f, CandidateBindingCurrent, "UNKNOWN")
    || Is(f, RepositorySnapshotCurrent, "UNKNOWN") || Is(f, RepositoryReleaseClean, "UNKNOWN")
    || Is(f, PolicyContextCurrent, "UNKNOWN") || Is(f, EvidenceContextStatus, "UNKNOWN")
    || Is(f, AuthorityStatus, "UNKNOWN") || Is(f, ScopeStatus, "NOT_EVALUATED") || f.verifierIdentity == "ABSENT"
  }

  /** The verifier's independence cannot be relied on, though nothing speaks against it. */
  predicate IndependenceUnknown(f: Facts) {
    || (f.verifierIdentity == "ATTESTED" && f.verifierIndependence == "UNKNOWN")
    || (f.verifierIdentity == "PRESENT_UNATTESTED" && f.verifierIndependence in {"INDEPENDENT", "UNKNOWN"})
  }

  /** The facts that raise this reason under the production policy. */
  predicate Raised(f: Facts, c: Committed) {
    match c
    case AuthorityInvalid => Is(f, AuthorityStatus, "INVALID") || f.verifierIdentity == "INVALID"
    case RequiredContextIncomplete => ContextIncomplete(f)
    case EvidenceTaskMismatch => "TASK_MISMATCH" in f.violations
    case EvidenceRunMismatch => "RUN_MISMATCH" in f.violations
    case EvidenceCandidateMismatch => "CANDIDATE_MISMATCH" in f.violations
    case RepositoryContextMismatch => Is(f, RepositorySnapshotCurrent, "MISMATCH")
    case EvidenceProvenanceInvalid => "PROVENANCE_INVALID" in f.violations || f.accounting.invalidProvenance != []
    case EvidenceDuplicateIdentity => "DUPLICATE_IDENTITY" in f.violations
    case RequiredEvidenceInvalid => f.accounting.invalid != []
    case TaskContextStale => Is(f, TaskContextCurrent, "STALE")
    case CandidateStale => Is(f, CandidateBindingCurrent, "STALE")
    case PolicyContextStale => Is(f, PolicyContextCurrent, "STALE")
    case RequiredEvidenceMissing => f.accounting.missing != []
    case ReleaseStateNotClean => Is(f, RepositoryReleaseClean, "DIRTY")
    case ScopeViolation => Is(f, ScopeStatus, "VIOLATION")
    case ApprovalMissing => Is(f, ApprovalStatus, "MISSING") || Is(f, ApprovalStatus, "UNKNOWN")
    case ApprovalStale => Is(f, ApprovalStatus, "STALE")
    case VerifierNotIndependent =>
      f.verifierIdentity in {"ATTESTED", "PRESENT_UNATTESTED"} && f.verifierIndependence == "NOT_INDEPENDENT"
    case ScopeUncertain => Is(f, ScopeStatus, "SEMANTIC_UNCERTAIN")
    case VerifierIndependenceUnknown => IndependenceUnknown(f)
  }

  // --- The tables, row by row ---

  /** Rows of the five currency facts share the reading of "UNKNOWN". */
  function StatusReason(fact: EnumFact, status: string): Option<Committed> {
    if status == "UNKNOWN" then (if fact == ApprovalStatus then Some(ApprovalMissing) else Some(RequiredContextIncomplete))
    else
      match fact
      case TaskContextCurrent => if status == "STALE" then Some(TaskContextStale) else None
      case CandidateBindingCurrent => if status == "STALE" then Some(CandidateStale) else None
      case RepositorySnapshotCurrent => if status == "MISMATCH" then Some(RepositoryContextMismatch) else None
      case RepositoryReleaseClean => if status == "DIRTY" then Some(ReleaseStateNotClean) else None
      case PolicyContextCurrent => if status == "STALE" then Some(PolicyContextStale) else None
      case EvidenceContextStatus => None
      case ScopeStatus =>
        if status == "VIOLATION" then Some(ScopeViolation)
        else if status == "SEMANTIC_UNCERTAIN" then Some(ScopeUncertain)
        else if status == "NOT_EVALUATED" then Some(RequiredContextIncomplete) else None
      case ApprovalStatus =>
        if status == "MISSING" then Some(ApprovalMissing) else if status == "STALE" then Some(ApprovalStale) else None
      case AuthorityStatus => if status == "INVALID" then Some(AuthorityInvalid) else None
  }

  function Coded(c: Option<Committed>): Option<string> {
    match c case None => None case Some(reason) => Some(Name(reason))
  }

  lemma RowExactly(fact: EnumFact, status: string)
    requires status in Domain(fact)
    ensures status in EnumRow(fact) && EnumRow(fact)[status] == Coded(StatusReason(fact, status))
  {
    assert "CURRENT"[0] != "UNKNOWN"[0] && "MISSING"[0] != "UNKNOWN"[0] && "INVALID"[0] != "UNKNOWN"[0];
    assert |"CURRENT"| == |"UNKNOWN"| == 7;
  }

  function TagReason(tag: string): Committed {
    if tag == "TASK_MISMATCH" then EvidenceTaskMismatch
    else if tag == "RUN_MISMATCH" then EvidenceRunMismatch
    else if tag == "CANDIDATE_MISMATCH" then EvidenceCandidateMismatch
    else if tag == "PROVENANCE_INVALID" then EvidenceProvenanceInvalid
    else EvidenceDuplicateIdentity
  }

  lemma TagExactly(tag: string)
    requires tag in VIOLATION_TAGS
    ensures tag in VIOLATION_REASONS && VIOLATION_REASONS[tag] == Name(TagReason(tag))
  {
    assert "PROVENANCE_INVALID"[0] != "DUPLICATE_IDENTITY"[0] && "CANDIDATE_MISMATCH"[0] != "PROVENANCE_INVALID"[0]
        && "CANDIDATE_MISMATCH"[0] != "DUPLICATE_IDENTITY"[0];
  }

  function SetReason(fact: SetFact): Option<Committed> {
    if fact == Missing then Some(RequiredEvidenceMissing)
    else if fact == Invalid then Some(RequiredEvidenceInvalid)
    else if fact == InvalidProvenance then Some(EvidenceProvenanceInvalid)
    else None
  }

  lemma SetExactly(fact: SetFact)
    ensures SetTrigger(fact) == Coded(SetReason(fact))
  {
  }

  /** The reason for a verifier's identity and independence. */
  function VerifierCode(identity: string, independence: string): Option<Committed> {
    if identity == "INVALID" then Some(AuthorityInvalid)
    else if identity == "ABSENT" then Some(RequiredContextIncomplete)
    else if independence == "NOT_INDEPENDENT" then Some(VerifierNotIndependent)
    else if identity == "ATTESTED" && independence == "INDEPENDENT" then None
    else Some(VerifierIndependenceUnknown)
  }

  lemma RuleStep(rule: seq<VerifierRow>, identity: string, independence: string)
    requires Resolves(rule, identity, independence)
    ensures rule[0].Matches(identity, independence) ==> VerifierReason(rule, identity, independence) == rule[0].reason
    ensures !rule[0].Matches(identity, independence) ==>
      Resolves(rule[1..], identity, independence)
      && VerifierReason(rule, identity, independence) == VerifierReason(rule[1..], identity, independence)
  {
    if !rule[0].Matches(identity, independence) {
      var i :| 0 <= i < |rule| && rule[i].Matches(identity, independence);
      assert rule[1..][i - 1] == rule[i];
    }
  }

  /** The first row that matches is row `k`. */
  lemma {:induction false} FirstMatch(rule: seq<VerifierRow>, identity: string, independence: string, k: nat)
    requires k < |rule| && rule[k].Matches(identity, independence)
    requires forall i :: 0 <= i < k ==> !rule[i].Matches(identity, independence)
    ensures Resolves(rule, identity, independence)
    ensures VerifierReason(rule, identity, independence) == rule[k].reason
  {
    RuleStep(rule, identity, independence);
    if k > 0 {
      assert forall i :: 0 <= i < k - 1 ==> rule[1..][i] == rule[i + 1];
      FirstMatch(rule[1..], identity, independence, k - 1);
    }
  }

  lemma IdentitiesDiffer()
    ensures "INVALID" != "ATTESTED" && "INVALID" != "PRESENT_UNATTESTED" && "INVALID" != "ABSENT"
    ensures "ABSENT" != "ATTESTED" && "ABSENT" != "PRESENT_UNATTESTED" && "ATTESTED" != "PRESENT_UNATTESTED"
    ensures "INDEPENDENT" != "NOT_INDEPENDENT" && "INDEPENDENT" != "UNKNOWN" && "NOT_INDEPENDENT" != "UNKNOWN"
  {
    assert |"INVALID"| == 7 && |"ATTESTED"| == 8 && |"ABSENT"| == 6 && |"PRESENT_UNATTESTED"| == 18;
    assert |"INDEPENDENT"| == 11 && |"NOT_INDEPENDENT"| == 15 && |"UNKNOWN"| == 7;
  }

  /** The row of the ordered rule that decides. */
  function RowOf(identity: string, independence: string): nat {
    if identity == "INVALID" then 0 else if identity == "ABSENT" then 1
    else if independence == "NOT_INDEPENDENT" then 2
    else if identity == "ATTESTED" then (if independence == "INDEPENDENT" then 3 else 4)
    else 5
  }

  lemma RowMatches(identity: string, independence: string, i: nat)
    requires identity in VERIFIER_IDENTITIES && independence in VERIFIER_INDEPENDENCES && i <= RowOf(identity, independence)
    ensures VERIFIER_RULE[i].Matches(identity, independence) <==> i == RowOf(identity, independence)
  {
    IdentitiesDiffer();
  }

  lemma RowReason(identity: string, independence: string)
    requires identity in VERIFIER_IDENTITIES && independence in VERIFIER_INDEPENDENCES
    ensures VERIFIER_RULE[RowOf(identity, independence)].reason == Coded(VerifierCode(identity, independence))
  {
  }

  lemma VerifierExactly(identity: string, independence: string)
    requires identity in VERIFIER_IDENTITIES && independence in VERIFIER_INDEPENDENCES
    ensures Resolves(VERIFIER_RULE, identity, independence)
    ensures VerifierReason(VERIFIER_RULE, identity, independence) == Coded(VerifierCode(identity, independence))
  {
    var k := RowOf(identity, independence);
    forall i | 0 <= i <= k ensures VERIFIER_RULE[i].Matches(identity, independence) <==> i == k {
      RowMatches(identity, independence, i);
    }
    FirstMatch(VERIFIER_RULE, identity, independence, k);
    RowReason(identity, independence);
  }

  // --- From the tables to the facts ---

  function StatusOf(f: Facts, fact: EnumFact): Option<Committed>
    requires fact in f.enums
  {
    StatusReason(fact, f.enums[fact])
  }

  function VerifierOf(f: Facts): Option<Committed> {
    VerifierCode(f.verifierIdentity, f.verifierIndependence)
  }

  /** One of the four tables gives the reason. */
  ghost predicate Given(f: Facts, c: Committed) {
    || (exists fact :: fact in f.enums && StatusOf(f, fact) == Some(c))
    || (exists tag :: tag in f.violations && TagReason(tag) == c)
    || (exists fact :: f.accounting.Ids(fact) != [] && SetReason(fact) == Some(c))
    || VerifierOf(f) == Some(c)
  }

  lemma CodedSame(given: Option<Committed>, c: Committed)
    ensures Coded(given) == Some(Name(c)) <==> given == Some(c)
  {
    if given.Some? && Name(given.value) == Name(c) {
      NamesDistinct(given.value, c);
    }
  }

  lemma StatusTriggers(f: Facts, fact: EnumFact, c: Committed)
    requires ValidFacts(f)
    ensures fact in f.enums && fact in POLICY_V1.enumReasons
    ensures EnumTriggers(POLICY_V1, f, fact, Name(c)) <==> StatusOf(f, fact) == Some(c)
  {
    assert fact in f.enums && f.enums[fact] in Domain(fact);
    RowExactly(fact, f.enums[fact]);
    CodedSame(StatusOf(f, fact), c);
  }

  lemma TagTriggersExactly(f: Facts, tag: string, c: Committed)
    requires ValidFacts(f) && tag in f.violations
    ensures TagTriggers(POLICY_V1, f, tag, Name(c)) <==> TagReason(tag) == c
  {
    TagExactly(tag);
    CodedSame(Some(TagReason(tag)), c);
  }

  lemma SetTriggersExactly(f: Facts, fact: SetFact, c: Committed)
    ensures fact in POLICY_V1.setTriggers
    ensures SetTriggers(POLICY_V1, f, fact, Name(c)) <==> f.accounting.Ids(fact) != [] && SetReason(fact) == Some(c)
  {
    SetExactly(fact);
    CodedSame(SetReason(fact), c);
  }

  lemma VerifierTriggersExactly(f: Facts, c: Committed)
    requires ValidFacts(f)
    ensures VerifierTriggers(POLICY_V1, f, Name(c)) <==> VerifierOf(f) == Some(c)
  {
    VerifierExactly(f.verifierIdentity, f.verifierIndependence);
    CodedSame(VerifierOf(f), c);
  }

  /** The tables trigger a committed reason exactly when one of them gives it. */
  lemma TriggersGiven(f: Facts, c: Committed)
    requires ValidFacts(f)
    ensures Triggers(POLICY_V1, f, Name(c)) <==> Given(f, c)
  {
    forall fact
      ensures fact in f.enums && fact in POLICY_V1.enumReasons
      ensures EnumTriggers(POLICY_V1, f, fact, Name(c)) <==> StatusOf(f, fact) == Some(c)
    {
      StatusTriggers(f, fact, c);
    }
    forall tag | tag in f.violations ensures TagTriggers(POLICY_V1, f, tag, Name(c)) <==> TagReason(tag) == c {
      TagTriggersExactly(f, tag, c);
    }
    forall fact
      ensures fact in POLICY_V1.setTriggers
      ensures SetTriggers(POLICY_V1, f, fact, Name(c)) <==> f.accounting.Ids(fact) != [] && SetReason(fact) == Some(c)
    {
      SetTriggersExactly(f, fact, c);
    }
    VerifierTriggersExactly(f, c);
  }

  lemma StatusRaises(f: Facts, fact: EnumFact, c: Committed)
    requires fact in f.enums && f.enums[fact] in Domain(fact) && StatusOf(f, fact) == Some(c)
    ensures Raised(f, c)
  {
  }

  lemma TagRaises(f: Facts, tag: string)
    requires tag in f.violations && tag in VIOLATION_TAGS
    ensures Raised(f, TagReason(tag))
  {
  }

  lemma SetRaises(f: Facts, fact: SetFact, c: Committed)
    requires f.accounting.Ids(fact) != [] && SetReason(fact) == Some(c)
    ensures Raised(f, c)
  {
    assert f.accounting.Ids(Missing) == f.accounting.missing && f.accounting.Ids(Invalid) == f.accounting.invalid
        && f.accounting.Ids(InvalidProvenance) == f.accounting.invalidProvenance;
  }

  lemma VerifierRaises(f: Facts, c: Committed)
    requires f.verifierIdentity in VERIFIER_IDENTITIES && f.verifierIndependence in VERIFIER_INDEPENDENCES
    requires VerifierOf(f) == Some(c)
    ensures Raised(f, c)
  {
  }

  lemma StatusValid(f: Facts, fact: EnumFact)
    requires ValidFacts(f)
    ensures fact in f.enums && f.enums[fact] in Domain(fact)
  {
  }

  lemma GivenRaised(f: Facts, c: Committed)
    requires ValidFacts(f) && Given(f, c)
    ensures Raised(f, c)
  {
    if fact :| fact in f.enums && StatusOf(f, fact) == Some(c) {
      StatusValid(f, fact);
      StatusRaises(f, fact, c);
    } else if tag :| tag in f.violations && TagReason(tag) == c {
      TagRaises(f, tag);
    } else if fact :| f.accounting.Ids(fact) != [] && SetReason(fact) == Some(c) {
      SetRaises(f, fact, c);
    } else {
      VerifierRaises(f, c);
    }
  }

  lemma StatusGives(f: Facts, fact: EnumFact, status: string)
    requires Is(f, fact, status) && StatusReason(fact, status).Some?
    ensures Given(f, StatusReason(fact, status).value)
  {
    assert StatusOf(f, fact) == StatusReason(fact, status);
  }

  lemma TextsDiffer()
    ensures "STALE" != "UNKNOWN" && "MISMATCH" != "UNKNOWN" && "DIRTY" != "UNKNOWN" && "VIOLATION" != "UNKNOWN"
    ensures "SEMANTIC_UNCERTAIN" != "UNKNOWN" && "NOT_EVALUATED" != "UNKNOWN" && "MISSING" != "UNKNOWN"
    ensures "INVALID" != "UNKNOWN" && "VIOLATION" != "SEMANTIC_UNCERTAIN" && "VIOLATION" != "NOT_EVALUATED"
    ensures "SEMANTIC_UNCERTAIN" != "NOT_EVALUATED" && "MISSING" != "STALE"
  {
    assert "MISSING"[0] != "UNKNOWN"[0] && "INVALID"[0] != "UNKNOWN"[0];
    assert |"VIOLATION"| == 9 && |"SEMANTIC_UNCERTAIN"| == 18 && |"NOT_EVALUATED"| == 13 && |"UNKNOWN"| == 7;
    assert |"STALE"| == 5 && |"MISMATCH"| == 8 && |"DIRTY"| == 5 && |"MISSING"| == 7;
  }

  lemma IncompleteGiven(f: Facts)
    requires ValidFacts(f) && ContextIncomplete(f)
    ensures Given(f, RequiredContextIncomplete)
  {
    TextsDiffer();
    if Is(f, TaskContextCurrent, "UNKNOWN") { StatusGives(f, TaskContextCurrent, "UNKNOWN"); }
    else if Is(f, CandidateBindingCurrent, "UNKNOWN") { StatusGives(f, CandidateBindingCurrent, "UNKNOWN"); }
    else if Is(f, RepositorySnapshotCurrent, "UNKNOWN") { StatusGives(f, RepositorySnapshotCurrent, "UNKNOWN"); }
    else if Is(f, RepositoryReleaseClean, "UNKNOWN") { StatusGives(f, RepositoryReleaseClean, "UNKNOWN"); }
    else if Is(f, PolicyContextCurrent, "UNKNOWN") { StatusGives(f, PolicyContextCurrent, "UNKNOWN"); }
    else if Is(f, EvidenceContextStatus, "UNKNOWN") { StatusGives(f, EvidenceContextStatus, "UNKNOWN"); }
    else if Is(f, AuthorityStatus, "UNKNOWN") { StatusGives(f, AuthorityStatus, "UNKNOWN"); }
    else if Is(f, ScopeStatus, "NOT_EVALUATED") { StatusGives(f, ScopeStatus, "NOT_EVALUATED"); }
    else { IdentitiesDiffer(); }
  }

  lemma StatusGiven(f: Facts, c: Committed)
    requires ValidFacts(f) && Raised(f, c)
    requires c in {RepositoryContextMismatch, TaskContextStale, CandidateStale, PolicyContextStale, ReleaseStateNotClean,
                   ScopeViolation, ApprovalMissing, ApprovalStale, ScopeUncertain}
    ensures Given(f, c)
  {
    TextsDiffer();
    match c
    case RepositoryContextMismatch => StatusGives(f, RepositorySnapshotCurrent, "MISMATCH");
    case TaskContextStale => StatusGives(f, TaskContextCurrent, "STALE");
    case CandidateStale => StatusGives(f, CandidateBindingCurrent, "STALE");
    case PolicyContextStale => StatusGives(f, PolicyContextCurrent, "STALE");
    case ReleaseStateNotClean => StatusGives(f, RepositoryReleaseClean, "DIRTY");
    case ScopeViolation => StatusGives(f, ScopeStatus, "VIOLATION");
    case ApprovalMissing => StatusGives(f, ApprovalStatus, f.enums[ApprovalStatus]);
    case ApprovalStale => StatusGives(f, ApprovalStatus, "STALE");
    case ScopeUncertain => StatusGives(f, ScopeStatus, "SEMANTIC_UNCERTAIN");
  }

  lemma TagGiven(f: Facts, tag: string)
    requires tag in f.violations
    ensures Given(f, TagReason(tag))
  {
  }

  lemma SetGiven(f: Facts, fact: SetFact)
    requires f.accounting.Ids(fact) != [] && SetReason(fact).Some?
    ensures Given(f, SetReason(fact).value)
  {
  }

  lemma OtherGiven(f: Facts, c: Committed)
    requires ValidFacts(f) && Raised(f, c)
    requires c in {EvidenceTaskMismatch, EvidenceRunMismatch, EvidenceCandidateMismatch, EvidenceProvenanceInvalid,
                   EvidenceDuplicateIdentity, RequiredEvidenceInvalid, RequiredEvidenceMissing}
    ensures Given(f, c)
  {
    TagsDiffer();
    match c
    case EvidenceTaskMismatch => TagGiven(f, "TASK_MISMATCH");
    case EvidenceRunMismatch => TagGiven(f, "RUN_MISMATCH");
    case EvidenceCandidateMismatch => TagGiven(f, "CANDIDATE_MISMATCH");
    case EvidenceProvenanceInvalid =>
      if "PROVENANCE_INVALID" in f.violations { TagGiven(f, "PROVENANCE_INVALID"); } else { SetGiven(f, InvalidProvenance); }
    case EvidenceDuplicateIdentity => TagGiven(f, "DUPLICATE_IDENTITY");
    case RequiredEvidenceInvalid => SetGiven(f, Invalid);
    case RequiredEvidenceMissing => SetGiven(f, Missing);
  }

  lemma TagsDiffer()
    ensures TagReason("TASK_MISMATCH") == EvidenceTaskMismatch && TagReason("RUN_MISMATCH") == EvidenceRunMismatch
    ensures TagReason("CANDIDATE_MISMATCH") == EvidenceCandidateMismatch
    ensures TagReason("PROVENANCE_INVALID") == EvidenceProvenanceInvalid
    ensures TagReason("DUPLICATE_IDENTITY") == EvidenceDuplicateIdentity
  {
    assert |"TASK_MISMATCH"| == 13 && |"RUN_MISMATCH"| == 12 && |"CANDIDATE_MISMATCH"| == 18;
    assert |"PROVENANCE_INVALID"| == 18 && |"DUPLICATE_IDENTITY"| == 18;
    assert "PROVENANCE_INVALID"[0] != "DUPLICATE_IDENTITY"[0] && "CANDIDATE_MISMATCH"[0] != "PROVENANCE_INVALID"[0]
        && "CANDIDATE_MISMATCH"[0] != "DUPLICATE_IDENTITY"[0];
  }

  lemma VerifierGiven(f: Facts, c: Committed)
    requires ValidFacts(f) && Raised(f, c)
    requires c in {VerifierNotIndependent, VerifierIndependenceUnknown} || (c == AuthorityInvalid && f.verifierIdentity == "INVALID")
    ensures Given(f, c)
  {
    IdentitiesDiffer();
  }

  lemma RaisedGiven(f: Facts, c: Committed)
    requires ValidFacts(f) && Raised(f, c)
    ensures Given(f, c)
  {
    if c == RequiredContextIncomplete {
      IncompleteGiven(f);
    } else if c == AuthorityInvalid && Is(f, AuthorityStatus, "INVALID") {
      TextsDiffer();
      StatusGives(f, AuthorityStatus, "INVALID");
    } else if c in {VerifierNotIndependent, VerifierIndependenceUnknown, AuthorityInvalid} {
      VerifierGiven(f, c);
    } else if c in {EvidenceTaskMismatch, EvidenceRunMismatch, EvidenceCandidateMismatch, EvidenceProvenanceInvalid,
                    EvidenceDuplicateIdentity, RequiredEvidenceInvalid, RequiredEvidenceMissing} {
      OtherGiven(f, c);
    } else {
      StatusGiven(f, c);
    }
  }

  /** The production policy triggers a committed reason exactly for the facts that raise it. */
  lemma TriggersExactly(f: Facts, c: Committed)
    requires ValidFacts(f)
    ensures Triggers(POLICY_V1, f, Name(c)) <==> Raised(f, c)
  {
    TriggersGiven(f, c);
    if Given(f, c) { GivenRaised(f, c); }
    if Raised(f, c) { RaisedGiven(f, c); }
  }

  // --- The decision ---

  /** The policy decides every valid input, and defines whatever it triggers. */
  lemma AlwaysDecides(f: Facts)
    requires ValidFacts(f)
    ensures TriggersDefined(POLICY_V1, f) && Decidable(POLICY_V1, f) && Ranked(POLICY_V1)
  {
    ProductionWellFormed();
    WellFormedIsTotal(POLICY_V1, f);
  }

  /** The reasons of the decision are the codes of the raised reasons and nothing else. */
  lemma CompleteExactly(f: Facts, mode: Mode)
    requires ValidFacts(f)
    ensures forall c :: Name(c) in CoreOf(POLICY_V1, f, mode).complete <==> Raised(f, c)
    ensures forall code :: code in CoreOf(POLICY_V1, f, mode).complete ==> exists c :: code == Name(c) && Raised(f, c)
  {
    AlwaysDecides(f);
    DecisionMeaning(POLICY_V1, f, mode);
    forall c ensures Name(c) in CoreOf(POLICY_V1, f, mode).complete <==> Raised(f, c) {
      TriggersExactly(f, c);
    }
    forall code | code in CoreOf(POLICY_V1, f, mode).complete ensures exists c :: code == Name(c) && Raised(f, c) {
      ProductionReasons(code);
      var c: Committed :| Name(c) == code;
      TriggersExactly(f, c);
    }
  }

  /** Nothing speaks against the change: every status is the satisfied one, no violation tag, an attested and independent
      verifier, and no missing or invalid requirement or provenance. */
  predicate AllInOrder(f: Facts) {
    && Is(f, TaskContextCurrent, "CURRENT") && Is(f, CandidateBindingCurrent, "CURRENT")
    && Is(f, RepositorySnapshotCurrent, "CURRENT") && Is(f, RepositoryReleaseClean, "CLEAN")
    && Is(f, PolicyContextCurrent, "CURRENT") && Is(f, EvidenceContextStatus, "COHERENT")
    && Is(f, ScopeStatus, "COMPLIANT") && Is(f, ApprovalStatus, "VALID") && Is(f, AuthorityStatus, "VALID")
    && f.violations == [] && f.verifierIdentity == "ATTESTED" && f.verifierIndependence == "INDEPENDENT"
    && f.accounting.missing == [] && f.accounting.invalid == [] && f.accounting.invalidProvenance == []
  }

  /** The same but for the scope, which may be semantically uncertain, and the verifier, whose independence may be unknown. */
  predicate InOrderButUncertain(f: Facts) {
    && Is(f, TaskContextCurrent, "CURRENT") && Is(f, CandidateBindingCurrent, "CURRENT")
    && Is(f, RepositorySnapshotCurrent, "CURRENT") && Is(f, RepositoryReleaseClean, "CLEAN")
    && Is(f, PolicyContextCurrent, "CURRENT") && Is(f, EvidenceContextStatus, "COHERENT")
    && Is(f, ApprovalStatus, "VALID") && Is(f, AuthorityStatus, "VALID") && f.violations == []
    && (Is(f, ScopeStatus, "COMPLIANT") || Is(f, ScopeStatus, "SEMANTIC_UNCERTAIN"))
    && f.verifierIdentity in {"ATTESTED", "PRESENT_UNATTESTED"} && f.verifierIndependence in {"INDEPENDENT", "UNKNOWN"}
    && f.accounting.missing == [] && f.accounting.invalid == [] && f.accounting.invalidProvenance == []
  }

  ghost predicate OnlyReviews(f: Facts) {
    forall c :: Raised(f, c) ==> c == ScopeUncertain || c == VerifierIndependenceUnknown
  }

  lemma InOrderRaisesNothingElse(f: Facts, c: Committed)
    requires ValidFacts(f) && InOrderButUncertain(f) && Raised(f, c)
    ensures c == ScopeUncertain || c == VerifierIndependenceUnknown
  {
    TextsDiffer();
    IdentitiesDiffer();
    SatisfiedDiffer();
  }

  lemma SatisfiedDiffer()
    ensures "CURRENT" != "STALE" && "CURRENT" != "UNKNOWN" && "CURRENT" != "MISMATCH" && "CLEAN" != "DIRTY"
    ensures "CLEAN" != "UNKNOWN" && "COHERENT" != "UNKNOWN" && "COMPLIANT" != "VIOLATION"
    ensures "COMPLIANT" != "SEMANTIC_UNCERTAIN" && "COMPLIANT" != "NOT_EVALUATED" && "VALID" != "MISSING"
    ensures "VALID" != "STALE" && "VALID" != "UNKNOWN" && "VALID" != "INVALID" && "COHERENT" != "INCOHERENT"
  {
    assert "CURRENT"[0] != "UNKNOWN"[0] && "CLEAN"[0] != "DIRTY"[0] && "COMPLIANT"[0] != "VIOLATION"[0]
        && "VALID"[0] != "STALE"[0];
    assert |"CURRENT"| == 7 && |"STALE"| == 5 && |"MISMATCH"| == 8 && |"CLEAN"| == 5 && |"UNKNOWN"| == 7;
    assert |"COHERENT"| == 8 && |"INCOHERENT"| == 10 && |"COMPLIANT"| == 9 && |"NOT_EVALUATED"| == 13;
    assert |"VALID"| == 5 && |"MISSING"| == 7 && |"INVALID"| == 7 && |"SEMANTIC_UNCERTAIN"| == 18;
  }

  function Satisfied(fact: EnumFact): string {
    match fact
    case RepositoryReleaseClean => "CLEAN"
    case EvidenceContextStatus => "COHERENT"
    case ScopeStatus => "COMPLIANT"
    case ApprovalStatus => "VALID"
    case AuthorityStatus => "VALID"
    case _ => "CURRENT"
  }

  lemma QuietIsSatisfied(fact: EnumFact, status: string)
    requires status in Domain(fact) && fact != EvidenceContextStatus
    ensures StatusReason(fact, status) == None ==> status == Satisfied(fact)
    ensures StatusReason(fact, status) == Some(ScopeUncertain) ==> fact == ScopeStatus && status == "SEMANTIC_UNCERTAIN"
  {
  }

  /** A status that raises no blocking reason is satisfied, or the scope is uncertain. */
  lemma QuietStatus(f: Facts, fact: EnumFact)
    requires ValidFacts(f) && OnlyReviews(f) && fact != EvidenceContextStatus
    ensures Is(f, fact, Satisfied(fact)) || (fact == ScopeStatus && Is(f, fact, "SEMANTIC_UNCERTAIN"))
  {
    StatusValid(f, fact);
    QuietIsSatisfied(fact, f.enums[fact]);
    if StatusOf(f, fact).Some? {
      StatusRaises(f, fact, StatusOf(f, fact).value);
      NoStatusIndependence(fact, f.enums[fact]);
    }
  }

  lemma NoStatusIndependence(fact: EnumFact, status: string)
    ensures StatusReason(fact, status) != Some(VerifierIndependenceUnknown)
  {
  }

  lemma QuietStatuses(f: Facts)
    requires ValidFacts(f) && OnlyReviews(f)
    ensures forall fact :: fact != EvidenceContextStatus ==>
      Is(f, fact, Satisfied(fact)) || (fact == ScopeStatus && Is(f, fact, "SEMANTIC_UNCERTAIN"))
  {
    forall fact | fact != EvidenceContextStatus
      ensures Is(f, fact, Satisfied(fact)) || (fact == ScopeStatus && Is(f, fact, "SEMANTIC_UNCERTAIN"))
    {
      QuietStatus(f, fact);
    }
  }

  lemma QuietMeans(f: Facts)
    requires forall fact :: fact != EvidenceContextStatus ==>
      Is(f, fact, Satisfied(fact)) || (fact == ScopeStatus && Is(f, fact, "SEMANTIC_UNCERTAIN"))
    ensures Is(f, TaskContextCurrent, "CURRENT") && Is(f, CandidateBindingCurrent, "CURRENT")
    ensures Is(f, RepositorySnapshotCurrent, "CURRENT") && Is(f, RepositoryReleaseClean, "CLEAN")
    ensures Is(f, PolicyContextCurrent, "CURRENT") && Is(f, ApprovalStatus, "VALID") && Is(f, AuthorityStatus, "VALID")
    ensures Is(f, ScopeStatus, "COMPLIANT") || Is(f, ScopeStatus, "SEMANTIC_UNCERTAIN")
  {
    assert Is(f, TaskContextCurrent, Satisfied(TaskContextCurrent));
    assert Is(f, CandidateBindingCurrent, Satisfied(CandidateBindingCurrent));
    assert Is(f, RepositorySnapshotCurrent, Satisfied(RepositorySnapshotCurrent));
    assert Is(f, RepositoryReleaseClean, Satisfied(RepositoryReleaseClean));
    assert Is(f, PolicyContextCurrent, Satisfied(PolicyContextCurrent));
    assert Is(f, ApprovalStatus, Satisfied(ApprovalStatus));
    assert Is(f, AuthorityStatus, Satisfied(AuthorityStatus));
    assert Is(f, ScopeStatus, Satisfied(ScopeStatus)) || Is(f, ScopeStatus, "SEMANTIC_UNCERTAIN");
  }

  lemma TagNotReview(tag: string)
    ensures TagReason(tag) != ScopeUncertain && TagReason(tag) != VerifierIndependenceUnknown
  {
  }

  lemma QuietTags(f: Facts)
    requires ValidFacts(f) && OnlyReviews(f)
    ensures f.violations == []
  {
    if f.violations != [] {
      assert f.violations[0] in f.violations;
      TagRaises(f, f.violations[0]);
      TagNotReview(f.violations[0]);
    }
  }

  lemma QuietSets(f: Facts)
    requires OnlyReviews(f)
    ensures f.accounting.missing == [] && f.accounting.invalid == [] && f.accounting.invalidProvenance == []
  {
    assert !Raised(f, RequiredEvidenceMissing) && !Raised(f, RequiredEvidenceInvalid) && !Raised(f, EvidenceProvenanceInvalid);
  }

  lemma CoherentWithoutTags(f: Facts)
    requires ValidFacts(f) && f.violations == [] && !Is(f, EvidenceContextStatus, "UNKNOWN")
    ensures Is(f, EvidenceContextStatus, "COHERENT")
  {
    StatusValid(f, EvidenceContextStatus);
  }

  lemma QuietEvidence(f: Facts)
    requires ValidFacts(f) && OnlyReviews(f)
    ensures f.violations == [] && Is(f, EvidenceContextStatus, "COHERENT")
  {
    QuietTags(f);
    assert !Raised(f, RequiredContextIncomplete);
    CoherentWithoutTags(f);
  }

  lemma CodeReviews(identity: string, independence: string)
    requires identity in VERIFIER_IDENTITIES && independence in VERIFIER_INDEPENDENCES
    requires VerifierCode(identity, independence) in {None, Some(VerifierIndependenceUnknown)}
    ensures identity in {"ATTESTED", "PRESENT_UNATTESTED"} && independence in {"INDEPENDENT", "UNKNOWN"}
  {
  }

  lemma CodeNotScope(identity: string, independence: string)
    ensures VerifierCode(identity, independence) != Some(ScopeUncertain)
  {
  }

  lemma QuietVerifier(f: Facts)
    requires ValidFacts(f) && OnlyReviews(f)
    ensures f.verifierIdentity in {"ATTESTED", "PRESENT_UNATTESTED"} && f.verifierIndependence in {"INDEPENDENT", "UNKNOWN"}
  {
    if VerifierOf(f).Some? {
      VerifierRaises(f, VerifierOf(f).value);
      CodeNotScope(f.verifierIdentity, f.verifierIndependence);
    }
    CodeReviews(f.verifierIdentity, f.verifierIndependence);
  }

  /** Only review reasons are raised exactly when everything but scope and independence is in order. */
  lemma UncertainExactly(f: Facts)
    requires ValidFacts(f)
    ensures OnlyReviews(f) <==> InOrderButUncertain(f)
  {
    if InOrderButUncertain(f) {
      forall c | Raised(f, c) ensures c == ScopeUncertain || c == VerifierIndependenceUnknown {
        InOrderRaisesNothingElse(f, c);
      }
    }
    if OnlyReviews(f) {
      QuietStatuses(f);
      QuietMeans(f);
      QuietEvidence(f);
      QuietSets(f);
      QuietVerifier(f);
    }
  }

  lemma ScopeCertain(f: Facts)
    requires Is(f, ScopeStatus, "COMPLIANT") || Is(f, ScopeStatus, "SEMANTIC_UNCERTAIN")
    ensures Is(f, ScopeStatus, "COMPLIANT") <==> !Raised(f, ScopeUncertain)
  {
    SatisfiedDiffer();
  }

  lemma VerifierCertain(f: Facts)
    requires f.verifierIdentity in {"ATTESTED", "PRESENT_UNATTESTED"} && f.verifierIndependence in {"INDEPENDENT", "UNKNOWN"}
    ensures f.verifierIdentity == "ATTESTED" && f.verifierIndependence == "INDEPENDENT" <==>
      !Raised(f, VerifierIndependenceUnknown)
  {
    IdentitiesDiffer();
  }

  lemma CertainExactly(f: Facts)
    requires ValidFacts(f) && InOrderButUncertain(f)
    ensures AllInOrder(f) <==> !Raised(f, ScopeUncertain) && !Raised(f, VerifierIndependenceUnknown)
  {
    ScopeCertain(f);
    VerifierCertain(f);
  }

  /** Nothing is raised exactly when all is in order. */
  lemma OrderExactly(f: Facts)
    requires ValidFacts(f)
    ensures AllInOrder(f) <==> forall c :: !Raised(f, c)
  {
    UncertainExactly(f);
    if InOrderButUncertain(f) {
      CertainExactly(f);
    }
  }

  lemma DefinitionExactly(c: Committed)
    ensures POLICY_V1.Defines(Name(c)) && POLICY_V1.Definition(Name(c)) == Definition(c)
  {
    DefinesCommitted(c);
    var r := POLICY_V1.Definition(Name(c));
    var i :| 0 <= i < |REASONS| && REASONS[i] == r;
    NamesDistinct(ORDER[i], c);
  }

  lemma DispositionOf(f: Facts, c: Committed, d: Disposition)
    requires ValidFacts(f) && Raised(f, c)
    ensures TriggersAs(POLICY_V1, f, Name(c), d) <==>
      d == if c == ScopeUncertain || c == VerifierIndependenceUnknown then ReviewRequired else Block
  {
    TriggersExactly(f, c);
    DefinitionExactly(c);
  }

  lemma TriggeredIsRaised(f: Facts, code: string)
    requires ValidFacts(f) && Triggers(POLICY_V1, f, code)
    ensures exists c :: code == Name(c) && Raised(f, c)
  {
    AlwaysDecides(f);
    ProductionReasons(code);
    var c: Committed :| Name(c) == code;
    TriggersExactly(f, c);
  }

  lemma NothingTriggered(f: Facts)
    requires ValidFacts(f)
    ensures (forall code :: !Triggers(POLICY_V1, f, code)) <==> AllInOrder(f)
  {
    OrderExactly(f);
    forall code | Triggers(POLICY_V1, f, code) ensures exists c :: Raised(f, c) {
      TriggeredIsRaised(f, code);
    }
    if c :| Raised(f, c) {
      TriggersExactly(f, c);
    }
  }

  lemma BlockTriggered(f: Facts)
    requires ValidFacts(f)
    ensures (exists code :: TriggersAs(POLICY_V1, f, code, Block)) <==> !InOrderButUncertain(f)
  {
    UncertainExactly(f);
    if code :| TriggersAs(POLICY_V1, f, code, Block) {
      TriggeredIsRaised(f, code);
      var c :| code == Name(c) && Raised(f, c);
      DispositionOf(f, c, Block);
    }
    if !OnlyReviews(f) {
      var c :| Raised(f, c) && c != ScopeUncertain && c != VerifierIndependenceUnknown;
      DispositionOf(f, c, Block);
    }
  }

  /** The decision of the production policy: eligible exactly when all is in order, under review exactly when only scope
      or independence is uncertain, and blocked otherwise. */
  lemma ProductionDecision(f: Facts, mode: Mode)
    requires ValidFacts(f)
    ensures CoreOf(POLICY_V1, f, mode).disposition ==
      if AllInOrder(f) then Eligible else if InOrderButUncertain(f) then ReviewRequired else Block
  {
    AlwaysDecides(f);
    DecisionMeaning(POLICY_V1, f, mode);
    NothingTriggered(f);
    BlockTriggered(f);
  }

  /** The primary reason is the raised one that comes first in the order of precedence. */
  lemma ProductionPrimary(f: Facts, mode: Mode, c: Committed)
    requires ValidFacts(f)
    ensures CoreOf(POLICY_V1, f, mode).primary == Some(Name(c)) <==>
      Raised(f, c) && forall e :: Raised(f, e) ==> Position(c) <= Position(e)
  {
    if CoreOf(POLICY_V1, f, mode).primary == Some(Name(c)) {
      PrimaryRaised(f, mode, c);
      forall e | Raised(f, e) ensures Position(c) <= Position(e) {
        PrimaryFirst(f, mode, c, e);
      }
    } else if Raised(f, c) {
      var e := PrimaryOther(f, mode, c);
      PrimaryFirst(f, mode, e, c);
      if Position(c) == Position(e) {
        PositionsDiffer(c, e);
      }
    }
  }

  lemma PrimaryRaised(f: Facts, mode: Mode, c: Committed)
    requires ValidFacts(f) && CoreOf(POLICY_V1, f, mode).primary == Some(Name(c))
    ensures Raised(f, c)
  {
    AlwaysDecides(f);
    DecisionMeaning(POLICY_V1, f, mode);
    TriggersExactly(f, c);
  }

  lemma PrimaryOther(f: Facts, mode: Mode, c: Committed) returns (e: Committed)
    requires ValidFacts(f) && Raised(f, c)
    ensures Raised(f, e) && CoreOf(POLICY_V1, f, mode).primary == Some(Name(e))
  {
    AlwaysDecides(f);
    TriggersExactly(f, c);
    PrimaryMeaning(POLICY_V1, f, mode, Name(c));
    TriggeredIsRaised(f, CoreOf(POLICY_V1, f, mode).primary.value);
    e :| CoreOf(POLICY_V1, f, mode).primary.value == Name(e) && Raised(f, e);
  }

  lemma PrimaryFirst(f: Facts, mode: Mode, c: Committed, e: Committed)
    requires ValidFacts(f) && CoreOf(POLICY_V1, f, mode).primary == Some(Name(c)) && Raised(f, e)
    ensures Position(c) <= Position(e)
  {
    AlwaysDecides(f);
    TriggersExactly(f, e);
    PrimaryMeaning(POLICY_V1, f, mode, Name(e));
    DefinitionExactly(c);
    DefinitionExactly(e);
    if Position(e) < Position(c) {
      RanksIncrease(Position(e), Position(c));
    }
  }

  lemma PositionsDiffer(c: Committed, e: Committed)
    requires Position(c) == Position(e)
    ensures c == e
  {
  }

  /** The order of precedence, and the code of each reason. */
  lemma OrderSpelled()
    ensures |ORDER| == 20 && forall i :: 0 <= i < 20 ==> Name(ORDER[i]) == [
      "AUTHORITY_INVALID", "REQUIRED_CONTEXT_INCOMPLETE", "EVIDENCE_TASK_MISMATCH", "EVIDENCE_RUN_MISMATCH",
      "EVIDENCE_CANDIDATE_MISMATCH", "REPOSITORY_CONTEXT_MISMATCH", "EVIDENCE_PROVENANCE_INVALID",
      "EVIDENCE_DUPLICATE_IDENTITY", "REQUIRED_EVIDENCE_INVALID", "TASK_CONTEXT_STALE", "CANDIDATE_STALE",
      "POLICY_CONTEXT_STALE", "REQUIRED_EVIDENCE_MISSING", "RELEASE_STATE_NOT_CLEAN", "SCOPE_VIOLATION",
      "APPROVAL_MISSING", "APPROVAL_STALE", "VERIFIER_NOT_INDEPENDENT", "SCOPE_UNCERTAIN",
      "VERIFIER_INDEPENDENCE_UNKNOWN"][i]
  {
  }
}

/**
 The merge-eligibility policy and its evaluator (agent_core/build_harness/merge_eligibility.py).

 Facts and a policy trigger a set of reason codes; the evaluator sorts them, splits them into
 blocking and review reasons, picks the reason of least rank and derives the disposition.
 */
module MergePolicy {
  import opened Wrappers
  import opened StringOrder
  import opened Grammar

  // --- Facts ---

  datatype EnumFact =
    | TaskContextCurrent | CandidateBindingCurrent | RepositorySnapshotCurrent | RepositoryReleaseClean
    | PolicyContextCurrent | EvidenceContextStatus | ScopeStatus | ApprovalStatus | AuthorityStatus

  function Domain(fact: EnumFact): set<string> {
    match fact
    case RepositorySnapshotCurrent => {"CURRENT", "MISMATCH", "UNKNOWN"}
    case RepositoryReleaseClean => {"CLEAN", "DIRTY", "UNKNOWN"}
    case EvidenceContextStatus => {"COHERENT", "INCOHERENT", "UNKNOWN"}
    case ScopeStatus => {"COMPLIANT", "VIOLATION", "SEMANTIC_UNCERTAIN", "NOT_EVALUATED"}
    case ApprovalStatus => {"VALID", "MISSING", "STALE", "UNKNOWN"}
    case AuthorityStatus => {"VALID", "INVALID", "UNKNOWN"}
    case _ => {"CURRENT", "STALE", "UNKNOWN"}
  }

  const VIOLATION_TAGS := {"TASK_MISMATCH", "RUN_MISMATCH", "CANDIDATE_MISMATCH", "PROVENANCE_INVALID", "DUPLICATE_IDENTITY"}
  const VERIFIER_IDENTITIES := {"ATTESTED", "PRESENT_UNATTESTED", "ABSENT", "INVALID"}
  const VERIFIER_INDEPENDENCES := {"INDEPENDENT", "NOT_INDEPENDENT", "UNKNOWN"}

  datatype SetFact = Required | Satisfied | Invalid | Missing | Rejected | InvalidProvenance | Unexpected

  /** The requirement and evidence ids that facts, decisions and records carry. */
  datatype Accounting = Accounting(
    required: seq<string>, satisfied: seq<string>, invalid: seq<string>, missing: seq<string>,
    rejected: seq<string>, invalidProvenance: seq<string>, unexpected: seq<string>)
  {
    function Ids(fact: SetFact): seq<string> {
      match fact
      case Required => required
      case Satisfied => satisfied
      case Invalid => invalid
      case Missing => missing
      case Rejected => rejected
      case InvalidProvenance => invalidProvenance
      case Unexpected => unexpected
    }

    /** Required ids are split into satisfied, invalid and missing ones. */
    predicate Partitioned() {
      && (set x | x in required) == (set x | x in satisfied) + (set x | x in invalid) + (set x | x in missing)
      && (forall x :: x in satisfied ==> x !in invalid && x !in missing)
      && (forall x :: x in invalid ==> x !in missing)
    }
  }

  datatype Facts = Facts(
    enums: map<EnumFact, string>, violations: seq<string>,
    verifierIdentity: string, verifierIndependence: string, accounting: Accounting)

  predicate IdList(ids: seq<string>) {
    Sorted(ids) && forall x :: x in ids ==> x != [] && IsPrintable(x)
  }

  /** What the constructor of `EligibilityFacts` accepts. */
  ghost predicate ValidFacts(facts: Facts) {
    && (forall fact: EnumFact :: fact in facts.enums && facts.enums[fact] in Domain(fact))
    && Sorted(facts.violations) && (forall tag :: tag in facts.violations ==> tag in VIOLATION_TAGS)
    && (facts.violations != [] <==> facts.enums[EvidenceContextStatus] == "INCOHERENT")
    && facts.verifierIdentity in VERIFIER_IDENTITIES && facts.verifierIndependence in VERIFIER_INDEPENDENCES
    && (forall fact: SetFact :: IdList(facts.accounting.Ids(fact)))
    && facts.accounting.Partitioned()
  }

  // --- Policy ---

  datatype Disposition = Eligible | ReviewRequired | Block
  datatype Mode = Enforce | Shadow
  datatype Authority = Authoritative | AdvisoryOnly

  datatype Reason = Reason(code: string, rank: int, disposition: Disposition)

  datatype VerifierRow = VerifierRow(identity: Option<seq<string>>, independence: Option<seq<string>>, reason: Option<string>) {
    predicate Matches(identityValue: string, independenceValue: string) {
      && (identity.None? || identityValue in identity.value)
      && (independence.None? || independenceValue in independence.value)
    }
  }

  datatype PolicyIdentity = PolicyIdentity(version: string, digest: string)

  datatype Policy = Policy(
    declared: PolicyIdentity,
    reasons: seq<Reason>,
    enumReasons: map<EnumFact, map<string, Option<string>>>,
    violationReasons: map<string, string>,
    setTriggers: map<SetFact, Option<string>>,
    verifierRule: seq<VerifierRow>)
  {
    predicate Defines(code: string) {
      exists i :: 0 <= i < |reasons| && reasons[i].code == code
    }

    /** The definition of a code; codes are unique, so the first one is the only one. */
    function Definition(code: string): (r: Reason)
      requires Defines(code)
      ensures r in reasons && r.code == code
    {
      Find(reasons, code)
    }

    static function Find(reasons: seq<Reason>, code: string): (r: Reason)
      requires exists i :: 0 <= i < |reasons| && reasons[i].code == code
      ensures r in reasons && r.code == code
    {
      if reasons[0].code == code then reasons[0] else Find(reasons[1..], code)
    }

    predicate Knows(code: Option<string>) {
      code.Some? ==> Defines(code.value)
    }
  }

  /** Ranks are positive, and no two definitions share a code or a rank. */
  ghost predicate Ranked(p: Policy) {
    && (forall i :: 0 <= i < |p.reasons| ==> p.reasons[i].rank > 0)
    && (forall i, j :: 0 <= i < j < |p.reasons| ==>
          p.reasons[i].code != p.reasons[j].code && p.reasons[i].rank != p.reasons[j].rank)
  }

  /** No reason has an empty code. */
  ghost predicate Coded(p: Policy) {
    forall i :: 0 <= i < |p.reasons| ==> p.reasons[i].code != ""
  }

  ghost predicate EnumTableTotal(p: Policy) {
    && (forall fact: EnumFact :: fact in p.enumReasons && p.enumReasons[fact].Keys == Domain(fact))
    && (forall fact, v :: fact in p.enumReasons && v in p.enumReasons[fact] ==> p.Knows(p.enumReasons[fact][v]))
  }

  ghost predicate TagTableTotal(p: Policy) {
    && p.violationReasons.Keys == VIOLATION_TAGS
    && (forall tag :: tag in p.violationReasons ==> p.Defines(p.violationReasons[tag]))
  }

  ghost predicate VerifierRuleTotal(p: Policy) {
    && (forall i :: 0 <= i < |p.verifierRule| ==> p.Knows(p.verifierRule[i].reason))
    && (forall a, b :: a in VERIFIER_IDENTITIES && b in VERIFIER_INDEPENDENCES ==> Resolves(p.verifierRule, a, b))
  }

  ghost predicate SetTableTotal(p: Policy) {
    forall fact: SetFact :: fact in p.setTriggers && p.Knows(p.setTriggers[fact])
  }

  /** What the constructor of `MergeEligibilityPolicy` accepts. */
  ghost predicate WellFormed(p: Policy) {
    Ranked(p) && Coded(p) && EnumTableTotal(p) && TagTableTotal(p) && SetTableTotal(p) && VerifierRuleTotal(p)
  }

  predicate Resolves(rule: seq<VerifierRow>, identity: string, independence: string) {
    exists i :: 0 <= i < |rule| && rule[i].Matches(identity, independence)
  }

  /** First-match resolution of the ordered verifier rule. */
  function VerifierReason(rule: seq<VerifierRow>, identity: string, independence: string): Option<string>
    requires Resolves(rule, identity, independence)
  {
    if rule[0].Matches(identity, independence) then rule[0].reason
    else VerifierReason(rule[1..], identity, independence)
  }

  // --- Which reasons are triggered ---

  predicate EnumTriggers(p: Policy, facts: Facts, fact: EnumFact, code: string) {
    && fact in p.enumReasons && fact in facts.enums && facts.enums[fact] in p.enumReasons[fact]
    && p.enumReasons[fact][facts.enums[fact]] == Some(code)
  }

  predicate TagTriggers(p: Policy, facts: Facts, tag: string, code: string) {
    tag in facts.violations && tag in p.violationReasons && p.violationReasons[tag] == code
  }

  predicate SetTriggers(p: Policy, facts: Facts, fact: SetFact, code: string) {
    fact in p.setTriggers && p.setTriggers[fact] == Some(code) && facts.accounting.Ids(fact) != []
  }

  predicate VerifierTriggers(p: Policy, facts: Facts, code: string) {
    && Resolves(p.verifierRule, facts.verifierIdentity, facts.verifierIndependence)
    && VerifierReason(p.verifierRule, facts.verifierIdentity, facts.verifierIndependence) == Some(code)
  }

  /** Some fact triggers the reason. */
  predicate Triggers(p: Policy, facts: Facts, code: string) {
    || (exists fact :: fact in p.enumReasons && EnumTriggers(p, facts, fact, code))
    || (exists tag :: tag in facts.violations && TagTriggers(p, facts, tag, code))
    || (exists fact :: fact in p.setTriggers && SetTriggers(p, facts, fact, code))
    || VerifierTriggers(p, facts, code)
  }

  function Triggered(p: Policy, facts: Facts): set<string> {
    set r | r in p.reasons && Triggers(p, facts, r.code) :: r.code
  }

  lemma {:induction false} VerifierReasonKnown(p: Policy, rule: seq<VerifierRow>, identity: string, independence: string)
    requires Resolves(rule, identity, independence)
    requires forall i :: 0 <= i < |rule| ==> p.Knows(rule[i].reason)
    ensures p.Knows(VerifierReason(rule, identity, independence))
  {
    if !rule[0].Matches(identity, independence) {
      VerifierReasonKnown(p, rule[1..], identity, independence);
    }
  }

  /** The policy defines every reason the facts trigger. */
  ghost predicate TriggersDefined(p: Policy, facts: Facts) {
    forall code :: Triggers(p, facts, code) ==> p.Defines(code)
  }

  /** A well-formed policy defines every reason it can trigger, and every lookup in it succeeds. */
  lemma WellFormedIsTotal(p: Policy, facts: Facts)
    requires WellFormed(p) && ValidFacts(facts)
    ensures TriggersDefined(p, facts) && Total(p, facts)
  {
    forall code | Triggers(p, facts, code) ensures p.Defines(code) {
      if VerifierTriggers(p, facts, code) {
        VerifierReasonKnown(p, p.verifierRule, facts.verifierIdentity, facts.verifierIndependence);
      }
      assert p.Knows(Some(code));
    }
  }

  lemma TriggeredExactly(p: Policy, facts: Facts, code: string)
    requires TriggersDefined(p, facts)
    ensures code in Triggered(p, facts) <==> Triggers(p, facts, code)
  {
    if Triggers(p, facts, code) {
      var i :| 0 <= i < |p.reasons| && p.reasons[i].code == code;
      assert p.reasons[i] in p.reasons;
    }
  }

  method CollectEnumReasons(p: Policy, facts: Facts) returns (reasons: set<string>)
    requires forall fact :: fact in p.enumReasons ==> fact in facts.enums && facts.enums[fact] in p.enumReasons[fact]
    ensures forall code :: code in reasons <==> exists fact :: fact in p.enumReasons && EnumTriggers(p, facts, fact, code)
  {
    reasons := {};
    var todo := p.enumReasons.Keys;
    while todo != {}
      invariant todo <= p.enumReasons.Keys
      invariant forall code :: code in reasons <==>
        exists fact :: fact in p.enumReasons && fact !in todo && EnumTriggers(p, facts, fact, code)
    {
      var fact :| fact in todo;
      var code := p.enumReasons[fact][facts.enums[fact]];
      if code.Some? {
        reasons := reasons + {code.value};
        assert EnumTriggers(p, facts, fact, code.value);
      }
      todo := todo - {fact};
    }
  }

  method CollectTagReasons(p: Policy, facts: Facts) returns (reasons: set<string>)
    requires forall tag :: tag in facts.violations ==> tag in p.violationReasons
    ensures forall code :: code in reasons <==> exists tag :: tag in facts.violations && TagTriggers(p, facts, tag, code)
  {
    reasons := {};
    for i := 0 to |facts.violations|
      invariant forall code :: code in reasons <==>
        exists tag :: tag in facts.violations[..i] && TagTriggers(p, facts, tag, code)
    {
      var tag := facts.violations[i];
      ghost var before := reasons;
      reasons := reasons + {p.violationReasons[tag]};
      assert facts.violations[..i + 1] == facts.violations[..i] + [tag];
      assert TagTriggers(p, facts, tag, p.violationReasons[tag]);
    }
    assert facts.violations[..|facts.violations|] == facts.violations;
  }

  method CollectSetReasons(p: Policy, facts: Facts) returns (reasons: set<string>)
    ensures forall code :: code in reasons <==> exists fact :: fact in p.setTriggers && SetTriggers(p, facts, fact, code)
  {
    reasons := {};
    var todo := p.setTriggers.Keys;
    while todo != {}
      invariant todo <= p.setTriggers.Keys
      invariant forall code :: code in reasons <==>
        exists fact :: fact in p.setTriggers && fact !in todo && SetTriggers(p, facts, fact, code)
    {
      var fact :| fact in todo;
      var code := p.setTriggers[fact];
      if code.Some? && |facts.accounting.Ids(fact)| > 0 {
        reasons := reasons + {code.value};
        assert SetTriggers(p, facts, fact, code.value);
      }
      todo := todo - {fact};
    }
  }

  /** Every lookup the evaluator makes succeeds. */
  ghost predicate Total(p: Policy, facts: Facts) {
    && (forall fact :: fact in p.enumReasons ==> fact in facts.enums && facts.enums[fact] in p.enumReasons[fact])
    && (forall tag :: tag in facts.violations ==> tag in p.violationReasons)
    && Resolves(p.verifierRule, facts.verifierIdentity, facts.verifierIndependence)
  }

  /** The `reasons` set after the four collecting loops. */
  method CollectReasons(p: Policy, facts: Facts) returns (reasons: set<string>)
    requires Total(p, facts)
    ensures forall code :: code in reasons <==> Triggers(p, facts, code)
  {
    var enumReasons := CollectEnumReasons(p, facts);
    var tagReasons := CollectTagReasons(p, facts);
    var setReasons := CollectSetReasons(p, facts);
    reasons := enumReasons + tagReasons + setReasons;
    var verifier := VerifierReason(p.verifierRule, facts.verifierIdentity, facts.verifierIndependence);
    if verifier.Some? {
      reasons := reasons + {verifier.value};
    }
    assert forall code :: VerifierTriggers(p, facts, code) <==> verifier == Some(code);
  }

  // --- The decision ---

  datatype Core = Core(
    disposition: Disposition, authority: Authority, primary: Option<string>,
    complete: seq<string>, blocking: seq<string>, review: seq<string>, accounting: Accounting)

  /** The codes of a given disposition, in order. */
  function WithDisposition(p: Policy, codes: seq<string>, d: Disposition): seq<string>
    requires AllDefined(p, codes)
  {
    if codes == [] then []
    else (if p.Definition(codes[0]).disposition == d then [codes[0]] else []) + WithDisposition(p, codes[1..], d)
  }

  function DerivedDisposition(blocking: seq<string>, review: seq<string>): Disposition {
    if blocking != [] then Block else if review != [] then ReviewRequired else Eligible
  }

  function AuthorityFor(mode: Mode): Authority {
    match mode case Enforce => Authoritative case Shadow => AdvisoryOnly
  }

  /** The code of least rank, if any. */
  function Primary(p: Policy, codes: seq<string>): (r: Option<string>)
    requires AllDefined(p, codes)
    ensures codes == [] <==> r.None?
    ensures r.Some? ==> r.value in codes
  {
    if codes == [] then None
    else
      var rest := Primary(p, codes[1..]);
      if rest.None? || p.Definition(codes[0]).rank <= p.Definition(rest.value).rank then Some(codes[0]) else rest
  }

  predicate AllDefined(p: Policy, codes: seq<string>) {
    forall code :: code in codes ==> p.Defines(code)
  }

  /** The decision for a sorted list of reasons. */
  function CoreFrom(p: Policy, complete: seq<string>, mode: Mode, accounting: Accounting): Core
    requires AllDefined(p, complete)
  {
    var blocking := WithDisposition(p, complete, Block);
    var review := WithDisposition(p, complete, ReviewRequired);
    Core(DerivedDisposition(blocking, review), AuthorityFor(mode), Primary(p, complete),
         complete, blocking, review, accounting)
  }

  function CoreOf(p: Policy, facts: Facts, mode: Mode): Core {
    CoreFrom(p, SortedOf(Triggered(p, facts)), mode, facts.accounting)
  }

  /** Every reason blocks or asks for review. */
  predicate AllEffective(p: Policy, codes: seq<string>) {
    forall code :: code in codes ==> p.Defines(code) && p.Definition(code).disposition != Eligible
  }

  predicate Decidable(p: Policy, facts: Facts) {
    AllEffective(p, SortedOf(Triggered(p, facts)))
  }

  datatype Fault = UndefinedReason | UnpartitionedReason | AmbiguousPrimary

  lemma {:induction false} WithDispositionMembers(p: Policy, codes: seq<string>, d: Disposition)
    requires AllDefined(p, codes)
    ensures forall code :: code in WithDisposition(p, codes, d) <==> code in codes && p.Definition(code).disposition == d
    ensures Sorted(codes) ==> Sorted(WithDisposition(p, codes, d))
  {
    if codes != [] {
      WithDispositionMembers(p, codes[1..], d);
      var rest := WithDisposition(p, codes[1..], d);
      if Sorted(codes) {
        assert Sorted(codes[1..]);
        forall i | 0 <= i < |rest| ensures Less(codes[0], rest[i]) {
          assert rest[i] in rest;
          var k :| 0 <= k < |codes[1..]| && codes[1..][k] == rest[i];
        }
      }
    }
  }

  /** Blocking and review reasons cover the list exactly when no reason is eligible. */
  lemma {:induction false} PartitionCount(p: Policy, codes: seq<string>)
    requires AllDefined(p, codes)
    ensures |WithDisposition(p, codes, Block)| + |WithDisposition(p, codes, ReviewRequired)| <= |codes|
    ensures |WithDisposition(p, codes, Block)| + |WithDisposition(p, codes, ReviewRequired)| == |codes| <==>
      AllEffective(p, codes)
  {
    if codes != [] {
      PartitionCount(p, codes[1..]);
      assert codes == [codes[0]] + codes[1..];
    }
  }

  lemma {:induction false} PrimaryIsLeast(p: Policy, codes: seq<string>)
    requires AllDefined(p, codes)
    requires codes != []
    ensures forall code :: code in codes ==> p.Definition(Primary(p, codes).value).rank <= p.Definition(code).rank
  {
    if |codes| > 1 {
      PrimaryIsLeast(p, codes[1..]);
    }
    assert codes == [codes[0]] + codes[1..];
  }

  /** Distinct codes have distinct ranks. */
  lemma RanksDistinct(p: Policy, a: string, b: string)
    requires Ranked(p) && p.Defines(a) && p.Defines(b)
    requires p.Definition(a).rank == p.Definition(b).rank
    ensures a == b
  {
    var i :| 0 <= i < |p.reasons| && p.reasons[i] == p.Definition(a);
    var j :| 0 <= j < |p.reasons| && p.reasons[j] == p.Definition(b);
  }

  method MinimumRank(p: Policy, codes: seq<string>) returns (minimum: int)
    requires AllDefined(p, codes) && codes != []
    ensures minimum == p.Definition(Primary(p, codes).value).rank
  {
    minimum := p.Definition(codes[0]).rank;
    for i := 1 to |codes|
      invariant exists k :: 0 <= k < i && p.Definition(codes[k]).rank == minimum
      invariant forall k :: 0 <= k < i ==> minimum <= p.Definition(codes[k]).rank
    {
      if p.Definition(codes[i]).rank < minimum {
        minimum := p.Definition(codes[i]).rank;
      }
    }
    PrimaryIsLeast(p, codes);
    var least := Primary(p, codes).value;
    ghost var k :| 0 <= k < |codes| && codes[k] == least;
  }

  /** Only the primary reason has its rank. */
  lemma LeastRankUnique(p: Policy, codes: seq<string>, code: string)
    requires Ranked(p) && AllDefined(p, codes) && code in codes
    ensures p.Definition(code).rank == p.Definition(Primary(p, codes).value).rank <==> Primary(p, codes) == Some(code)
  {
    if p.Definition(code).rank == p.Definition(Primary(p, codes).value).rank {
      RanksDistinct(p, code, Primary(p, codes).value);
    }
  }

  lemma SortedOnce(codes: seq<string>, i: nat)
    requires Sorted(codes) && i < |codes|
    ensures codes[i] !in codes[..i]
  {
    LessTotal(codes[i], codes[i]);
  }

  /** The codes of the least rank: the primary reason alone. */
  method Candidates(p: Policy, codes: seq<string>, minimum: int) returns (candidates: seq<string>)
    requires Ranked(p) && Sorted(codes) && AllDefined(p, codes) && codes != []
    requires minimum == p.Definition(Primary(p, codes).value).rank
    ensures candidates == [Primary(p, codes).value]
  {
    ghost var least := Primary(p, codes).value;
    candidates := [];
    for i := 0 to |codes|
      invariant candidates == if least in codes[..i] then [least] else []
    {
      LeastRankUnique(p, codes, codes[i]);
      SortedOnce(codes, i);
      assert codes[..i + 1] == codes[..i] + [codes[i]];
      if p.Definition(codes[i]).rank == minimum {
        candidates := candidates + [codes[i]];
      }
    }
    assert codes[..|codes|] == codes;
  }

  /** The primary reason; more than one candidate would be a fault. */
  method SelectPrimary(p: Policy, codes: seq<string>) returns (r: Result<Option<string>, Fault>)
    requires Ranked(p) && Sorted(codes) && AllDefined(p, codes)
    ensures r == Ok(Primary(p, codes))
  {
    if codes == [] {
      return Ok(None);
    }
    var minimum := MinimumRank(p, codes);
    var candidates := Candidates(p, codes, minimum);
    if |candidates| != 1 {
      return Err(AmbiguousPrimary);
    }
    r := Ok(Some(candidates[0]));
  }

  method Decide(p: Policy, reasons: set<string>, mode: Mode, accounting: Accounting) returns (r: Result<Core, Fault>)
    requires Ranked(p)
    ensures if AllDefined(p, SortedOf(reasons))
      then r == if AllEffective(p, SortedOf(reasons)) then Ok(CoreFrom(p, SortedOf(reasons), mode, accounting))
                else Err(UnpartitionedReason)
      else r == Err(UndefinedReason)
  {
    var complete := SortedOf(reasons);
    if exists code :: code in reasons && !p.Defines(code) {
      return Err(UndefinedReason);
    }
    var blocking := WithDisposition(p, complete, Block);
    var review := WithDisposition(p, complete, ReviewRequired);
    PartitionCount(p, complete);
    if |blocking| + |review| != |complete| {
      return Err(UnpartitionedReason);
    }
    var primary := SelectPrimary(p, complete);
    r := Ok(Core(DerivedDisposition(blocking, review), AuthorityFor(mode), primary.value,
                 complete, blocking, review, accounting));
  }

  /** A policy whose reasons all block or ask for review always decides. */
  lemma EffectivePolicyDecides(p: Policy, facts: Facts)
    requires forall i :: 0 <= i < |p.reasons| ==> p.reasons[i].disposition != Eligible
    ensures Decidable(p, facts)
  {
    forall code | code in SortedOf(Triggered(p, facts))
      ensures p.Defines(code) && p.Definition(code).disposition != Eligible
    {
      var r :| r in p.reasons && r.code == code;
      var i :| 0 <= i < |p.reasons| && p.reasons[i] == r;
      assert p.Defines(code);
    }
  }

  /** The pure semantic evaluator. It faults exactly when a triggered reason is neither blocking nor review. */
  method EvaluateDecisionCore(p: Policy, facts: Facts, mode: Mode) returns (r: Result<Core, Fault>)
    requires WellFormed(p) && ValidFacts(facts)
    ensures r == if Decidable(p, facts) then Ok(CoreOf(p, facts, mode)) else Err(UnpartitionedReason)
  {
    WellFormedIsTotal(p, facts);
    var reasons := CollectReasons(p, facts);
    forall code ensures code in reasons <==> code in Triggered(p, facts) {
      TriggeredExactly(p, facts, code);
    }
    assert reasons == Triggered(p, facts);
    r := Decide(p, reasons, mode, facts.accounting);
  }

  // --- What the decision means ---

  /** The reason lists partition, the primary reason is one of them, the disposition is derived. */
  ghost predicate ReasonsValid(core: Core) {
    && Sorted(core.complete) && Sorted(core.blocking) && Sorted(core.review)
    && (forall code :: code in core.blocking ==> code !in core.review)
    && (forall code :: code in core.complete <==> code in core.blocking || code in core.review)
    && (core.primary.None? <==> core.complete == [])
    && (core.primary.Some? ==> core.primary.value in core.complete)
    && core.disposition == DerivedDisposition(core.blocking, core.review)
  }

  /** Sorted, without repetition, and no empty entry. */
  ghost predicate CodeList(xs: seq<string>) {
    Sorted(xs) && forall x :: x in xs ==> x != ""
  }

  /** What the constructor of `DecisionCore` accepts. */
  ghost predicate ValidCore(core: Core) {
    && ReasonsValid(core)
    && CodeList(core.complete) && CodeList(core.blocking) && CodeList(core.review)
    && (forall fact: SetFact :: CodeList(core.accounting.Ids(fact)))
  }

  lemma PrimaryUnique(p: Policy, codes: seq<string>, code: string)
    requires Ranked(p) && AllDefined(p, codes) && code in codes && Primary(p, codes) != Some(code)
    ensures p.Definition(Primary(p, codes).value).rank < p.Definition(code).rank
  {
    PrimaryIsLeast(p, codes);
    if p.Definition(Primary(p, codes).value).rank == p.Definition(code).rank {
      RanksDistinct(p, Primary(p, codes).value, code);
    }
  }

  ghost function BlockingCodes(p: Policy, complete: seq<string>): set<string>
    requires AllDefined(p, complete)
  {
    set code | code in complete && p.Definition(code).disposition == Block
  }

  lemma SplitByDisposition(p: Policy, complete: seq<string>)
    requires Sorted(complete) && AllEffective(p, complete)
    ensures Sorted(WithDisposition(p, complete, Block)) && Sorted(WithDisposition(p, complete, ReviewRequired))
    ensures forall code :: code in WithDisposition(p, complete, Block) <==> code in BlockingCodes(p, complete)
    ensures forall code :: code in WithDisposition(p, complete, ReviewRequired) <==>
      code in complete && code !in BlockingCodes(p, complete)
  {
    WithDispositionMembers(p, complete, Block);
    WithDispositionMembers(p, complete, ReviewRequired);
  }

  lemma PartitionMeaning(core: Core, blockers: set<string>)
    requires Sorted(core.complete) && Sorted(core.blocking) && Sorted(core.review)
    requires forall code :: code in blockers ==> code in core.complete
    requires forall code :: code in core.blocking <==> code in blockers
    requires forall code :: code in core.review <==> code in core.complete && code !in blockers
    requires core.primary.None? <==> core.complete == []
    requires core.primary.Some? ==> core.primary.value in core.complete
    requires core.disposition == DerivedDisposition(core.blocking, core.review)
    ensures ReasonsValid(core)
    ensures core.disposition == Eligible <==> core.complete == []
    ensures core.disposition == Block <==> blockers != {}
  {
    FirstMember(core.blocking);
    FirstMember(core.review);
    FirstMember(core.complete);
  }

  /** The decision partitions its reasons and derives its disposition from the partition. */
  lemma CoreFromMeaning(p: Policy, complete: seq<string>, mode: Mode, accounting: Accounting)
    requires Sorted(complete) && AllEffective(p, complete)
    ensures var core := CoreFrom(p, complete, mode, accounting);
      && ReasonsValid(core) && core.complete == complete
      && (core.disposition == Eligible <==> complete == [])
      && (core.disposition == Block <==> BlockingCodes(p, complete) != {})
  {
    SplitByDisposition(p, complete);
    PartitionMeaning(CoreFrom(p, complete, mode, accounting), BlockingCodes(p, complete));
  }

  lemma FirstMember(codes: seq<string>)
    ensures codes != [] <==> exists code :: code in codes
  {
    if codes != [] {
      assert codes[0] in codes;
    }
  }

  lemma CompleteIsTriggered(p: Policy, facts: Facts)
    requires TriggersDefined(p, facts)
    ensures forall code :: code in SortedOf(Triggered(p, facts)) <==> Triggers(p, facts, code)
  {
    forall code ensures code in Triggered(p, facts) <==> Triggers(p, facts, code) {
      TriggeredExactly(p, facts, code);
    }
  }

  /** Some fact triggers the reason, and the policy gives it this disposition. */
  predicate TriggersAs(p: Policy, facts: Facts, code: string, d: Disposition) {
    Triggers(p, facts, code) && p.Defines(code) && p.Definition(code).disposition == d
  }

  lemma PartitionByDisposition(p: Policy, facts: Facts, mode: Mode, code: string)
    requires TriggersDefined(p, facts) && Decidable(p, facts)
    ensures code in CoreOf(p, facts, mode).blocking <==> TriggersAs(p, facts, code, Block)
    ensures code in CoreOf(p, facts, mode).review <==> TriggersAs(p, facts, code, ReviewRequired)
  {
    var complete := SortedOf(Triggered(p, facts));
    CompleteIsTriggered(p, facts);
    WithDispositionMembers(p, complete, Block);
    WithDispositionMembers(p, complete, ReviewRequired);
  }

  lemma CoreReasons(p: Policy, facts: Facts, mode: Mode)
    requires TriggersDefined(p, facts) && Decidable(p, facts)
    ensures var core := CoreOf(p, facts, mode);
      && ReasonsValid(core) && core.accounting == facts.accounting
      && (forall code :: code in core.complete <==> Triggers(p, facts, code))
      && (forall code :: code in core.blocking <==> TriggersAs(p, facts, code, Block))
      && (forall code :: code in core.review <==> TriggersAs(p, facts, code, ReviewRequired))
  {
    var core := CoreOf(p, facts, mode);
    CompleteIsTriggered(p, facts);
    CoreFromMeaning(p, SortedOf(Triggered(p, facts)), mode, facts.accounting);
    forall code
      ensures code in core.blocking <==> TriggersAs(p, facts, code, Block)
      ensures code in core.review <==> TriggersAs(p, facts, code, ReviewRequired)
    {
      PartitionByDisposition(p, facts, mode, code);
    }
  }

  lemma DefinedCodes(p: Policy, code: string)
    requires Coded(p) && p.Defines(code)
    ensures code != ""
  {
  }

  /** The constructor of `DecisionCore` accepts what the evaluator hands it. */
  lemma CoreAccepted(p: Policy, facts: Facts, core: Core)
    requires Coded(p) && TriggersDefined(p, facts) && ReasonsValid(core)
    requires forall code :: code in core.complete <==> Triggers(p, facts, code)
    requires (forall fact: SetFact :: IdList(facts.accounting.Ids(fact))) && core.accounting == facts.accounting
    ensures ValidCore(core)
  {
    forall code | code in core.complete ensures code != "" {
      DefinedCodes(p, code);
    }
    forall fact: SetFact ensures CodeList(core.accounting.Ids(fact)) {
      assert IdList(facts.accounting.Ids(fact));
    }
  }

  /** What a decision says about the facts. Its reasons are the triggered ones, split by the disposition the policy
      gives them; it blocks exactly when a blocking reason is triggered, asks for review exactly when reasons are
      triggered and all of them ask for review, and is eligible exactly when no reason is triggered. */
  lemma DecisionMeaning(p: Policy, facts: Facts, mode: Mode)
    requires TriggersDefined(p, facts) && Decidable(p, facts)
    ensures var core := CoreOf(p, facts, mode);
      && ReasonsValid(core) && (Coded(p) && ValidFacts(facts) ==> ValidCore(core))
      && (forall code :: code in core.complete <==> Triggers(p, facts, code))
      && (forall code :: code in core.blocking <==> TriggersAs(p, facts, code, Block))
      && (forall code :: code in core.review <==> TriggersAs(p, facts, code, ReviewRequired))
      && (core.disposition == Block <==> exists code :: TriggersAs(p, facts, code, Block))
      && (core.disposition == ReviewRequired <==>
            (exists code :: Triggers(p, facts, code))
            && forall code :: Triggers(p, facts, code) ==> TriggersAs(p, facts, code, ReviewRequired))
      && (core.disposition == Eligible <==> forall code :: !Triggers(p, facts, code))
      && core.accounting == facts.accounting
  {
    var core := CoreOf(p, facts, mode);
    CoreReasons(p, facts, mode);
    DispositionMeaning(p, facts, core);
    if Coded(p) && ValidFacts(facts) {
      CoreAccepted(p, facts, core);
    }
  }

  lemma DispositionMeaning(p: Policy, facts: Facts, core: Core)
    requires ReasonsValid(core)
    requires forall code :: code in core.complete <==> Triggers(p, facts, code)
    requires forall code :: code in core.blocking <==> TriggersAs(p, facts, code, Block)
    requires forall code :: code in core.review <==> TriggersAs(p, facts, code, ReviewRequired)
    ensures core.disposition == Block <==> exists code :: TriggersAs(p, facts, code, Block)
    ensures core.disposition == ReviewRequired <==>
      (exists code :: Triggers(p, facts, code))
      && forall code :: Triggers(p, facts, code) ==> TriggersAs(p, facts, code, ReviewRequired)
    ensures core.disposition == Eligible <==> forall code :: !Triggers(p, facts, code)
  {
    FirstMember(core.blocking);
    FirstMember(core.review);
    FirstMember(core.complete);
  }

  /** The primary reason outranks every other triggered reason. */
  lemma PrimaryMeaning(p: Policy, facts: Facts, mode: Mode, code: string)
    requires Ranked(p) && TriggersDefined(p, facts) && Triggers(p, facts, code)
    ensures var primary := CoreOf(p, facts, mode).primary;
      && primary.Some? && Triggers(p, facts, primary.value) && p.Defines(code)
      && (primary.value != code ==> p.Definition(primary.value).rank < p.Definition(code).rank)
  {
    var complete := SortedOf(Triggered(p, facts));
    TriggeredExactly(p, facts, code);
    TriggeredExactly(p, facts, Primary(p, complete).value);
    if Primary(p, complete) != Some(code) {
      PrimaryUnique(p, complete, code);
    }
  }

  function Severity(d: Disposition): int {
    match d case Eligible => 0 case ReviewRequired => 1 case Block => 2
  }

  /** More reasons never make the decision milder, nor its primary reason less urgent. */
  lemma CoreFromMonotone(p: Policy, fewer: seq<string>, more: seq<string>, mode: Mode, acc: Accounting, mode': Mode, acc': Accounting)
    requires Sorted(fewer) && Sorted(more) && AllEffective(p, more)
    requires forall code :: code in fewer ==> code in more
    ensures AllEffective(p, fewer)
    ensures var a, b := CoreFrom(p, fewer, mode, acc), CoreFrom(p, more, mode', acc');
      && Severity(a.disposition) <= Severity(b.disposition)
      && (a.primary.Some? ==> b.primary.Some? && p.Definition(b.primary.value).rank <= p.Definition(a.primary.value).rank)
  {
    CoreFromMeaning(p, fewer, mode, acc);
    CoreFromMeaning(p, more, mode', acc');
    var a, b := CoreFrom(p, fewer, mode, acc), CoreFrom(p, more, mode', acc');
    assert BlockingCodes(p, fewer) <= BlockingCodes(p, more);
    if a.primary.Some? {
      PrimaryIsLeast(p, more);
    }
    FirstMember(fewer);
    FirstMember(more);
  }

  lemma Monotone(p: Policy, fewer: Facts, more: Facts, mode: Mode, mode': Mode)
    requires TriggersDefined(p, fewer) && TriggersDefined(p, more) && Decidable(p, more)
    requires forall code :: Triggers(p, fewer, code) ==> Triggers(p, more, code)
    ensures Decidable(p, fewer)
    ensures var a, b := CoreOf(p, fewer, mode), CoreOf(p, more, mode');
      && Severity(a.disposition) <= Severity(b.disposition)
      && (a.primary.Some? ==> b.primary.Some? && p.Definition(b.primary.value).rank <= p.Definition(a.primary.value).rank)
  {
    var xs, ys := SortedOf(Triggered(p, fewer)), SortedOf(Triggered(p, more));
    forall code | code in xs ensures code in ys {
      TriggeredExactly(p, fewer, code);
      TriggeredExactly(p, more, code);
    }
    CoreFromMonotone(p, xs, ys, mode, fewer.accounting, mode', more.accounting);
  }

  /** The evaluation mode changes the authority and nothing else. */
  lemma ModeChangesAuthorityOnly(p: Policy, facts: Facts)
    ensures CoreOf(p, facts, Shadow) == CoreOf(p, facts, Enforce).(authority := AdvisoryOnly)
    ensures CoreOf(p, facts, Enforce).authority == Authoritative
  {
  }
}

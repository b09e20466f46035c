/**
 What a record says about the input it was sealed for: the input digest pins the input, and an
 input whose ids are no tokens cannot be sealed although the facts accept it.
 */
module InputBinding {
  import opened Wrappers
  import opened Grammar
  import opened FieldNames
  import opened JsonText
  import opened CanonicalJson
  import opened MergePolicy
  import opened ProductionPolicy
  import opened MergeRecord
  import opened RecordLifecycle
  import opened Replay

  // --- The input digest pins the input ---

  function InputPayload(input: PolicyInput): Value {
    Dict(Zip(INPUT_FIELDS, InputValues(input)))
  }

  function FactsPayload(facts: Facts): Value {
    Dict(Zip(FACT_FIELDS, FactValues(facts)))
  }

  /** Every enum fact has a value. */
  ghost predicate Total(facts: Facts) {
    forall fact: EnumFact :: fact in facts.enums
  }

  lemma FactsTreeExact(nfc: Normalizer, a: Facts, b: Facts)
    requires FixesProtocol(nfc) && Total(a) && Total(b)
    ensures Canonical(nfc, FactsPayload(a)).Some? && Canonical(nfc, FactsPayload(b)).Some?
    ensures Canonical(nfc, FactsPayload(a)) == Canonical(nfc, FactsPayload(b)) <==> Agree(nfc, FactValues(a), FactValues(b))
  {
    PayloadFieldsDistinct();
    FactsAccepted(nfc, a);
    FactsAccepted(nfc, b);
    ZipAccepted(nfc, FACT_FIELDS, FactValues(a));
    ZipAccepted(nfc, FACT_FIELDS, FactValues(b));
    ZipExact(nfc, FACT_FIELDS, FactValues(a), FactValues(b));
  }

  lemma InputTreeExact(nfc: Normalizer, a: PolicyInput, b: PolicyInput)
    requires FixesProtocol(nfc) && Total(a.facts) && Total(b.facts)
    ensures Encode(nfc, InputPayload(a)).Some? && Encode(nfc, InputPayload(b)).Some?
    ensures Encode(nfc, InputPayload(a)) == Encode(nfc, InputPayload(b)) <==> Agree(nfc, InputValues(a), InputValues(b))
  {
    PayloadFieldsDistinct();
    FactsTreeExact(nfc, a.facts, b.facts);
    InputAccepted(nfc, a);
    InputAccepted(nfc, b);
    ZipAccepted(nfc, INPUT_FIELDS, InputValues(a));
    ZipAccepted(nfc, INPUT_FIELDS, InputValues(b));
    EncodeInjective(nfc, InputPayload(a), InputPayload(b));
    ZipExact(nfc, INPUT_FIELDS, InputValues(a), InputValues(b));
  }

  /** The same input up to the normal form of the texts in its facts. */
  ghost predicate SameInput(nfc: Normalizer, a: PolicyInput, b: PolicyInput) {
    a.(facts := b.facts) == b && Agree(nfc, FactValues(a.facts), FactValues(b.facts))
  }

  lemma TextAt(nfc: Normalizer, vs: seq<Value>, ws: seq<Value>, i: nat, s: string, t: string)
    requires Agree(nfc, vs, ws) && i < |vs| && vs[i] == Str(s) && ws[i] == Str(t) && nfc(s) == s && nfc(t) == t
    ensures s == t
  {
    assert Canonical(nfc, Str(s)) == Some(JStr(nfc(s))) && Canonical(nfc, Str(t)) == Some(JStr(nfc(t)));
  }

  function BindingTexts(b: Bindings): seq<string> {
    [b.taskContract, b.candidate, b.snapshot, b.bundle, b.approval, b.authority, b.verifier, b.policy]
  }

  /** The protocol texts of the input, field 1 to 12 of its payload. */
  function InputTexts(input: PolicyInput): seq<string> {
    [input.taskId] + BindingTexts(input.bindings) + [input.policyVersion, input.evaluatorVersion, ModeText(input.mode)]
  }

  lemma TextsFixed(pf: Platform, input: PolicyInput)
    requires FixesProtocol(pf.nfc) && ValidInput(pf, input)
    ensures FixesAll(pf.nfc, InputTexts(input))
  {
  }

  lemma TextsInPayload(input: PolicyInput, i: nat)
    requires i < |InputTexts(input)|
    ensures InputValues(input)[i + 1] == Str(InputTexts(input)[i])
  {
  }

  lemma TextsPinned(nfc: Normalizer, a: PolicyInput, b: PolicyInput)
    requires Agree(nfc, InputValues(a), InputValues(b)) && FixesAll(nfc, InputTexts(a)) && FixesAll(nfc, InputTexts(b))
    ensures InputTexts(a) == InputTexts(b)
  {
    forall i | 0 <= i < |InputTexts(a)| ensures InputTexts(a)[i] == InputTexts(b)[i] {
      TextsInPayload(a, i);
      TextsInPayload(b, i);
      TextAt(nfc, InputValues(a), InputValues(b), i + 1, InputTexts(a)[i], InputTexts(b)[i]);
    }
  }

  lemma TextsMakeInput(a: PolicyInput, b: PolicyInput)
    requires InputTexts(a) == InputTexts(b)
    ensures a.taskId == b.taskId && a.bindings == b.bindings && a.mode == b.mode
    ensures a.policyVersion == b.policyVersion && a.evaluatorVersion == b.evaluatorVersion
  {
    var s, t := InputTexts(a), InputTexts(b);
    assert s[0] == t[0] && s[1] == t[1] && s[2] == t[2] && s[3] == t[3] && s[4] == t[4] && s[5] == t[5] && s[6] == t[6]
        && s[7] == t[7] && s[8] == t[8] && s[9] == t[9] && s[10] == t[10] && s[11] == t[11];
    assert |ModeText(Enforce)| != |ModeText(Shadow)|;
  }

  lemma FactsPinned(nfc: Normalizer, a: PolicyInput, b: PolicyInput)
    requires Agree(nfc, InputValues(a), InputValues(b))
    ensures Canonical(nfc, FactsPayload(a.facts)) == Canonical(nfc, FactsPayload(b.facts))
  {
    assert InputValues(a)[17] == FactsPayload(a.facts) && InputValues(b)[17] == FactsPayload(b.facts);
  }

  lemma SameInputAgrees(nfc: Normalizer, a: PolicyInput, b: PolicyInput)
    requires a.(facts := b.facts) == b && Canonical(nfc, FactsPayload(a.facts)) == Canonical(nfc, FactsPayload(b.facts))
    ensures Agree(nfc, InputValues(a), InputValues(b))
  {
    var vs, ws := InputValues(a), InputValues(b);
    forall i | 0 <= i < |vs| ensures Canonical(nfc, vs[i]) == Canonical(nfc, ws[i]) {
      if i == 17 {
        assert vs[i] == FactsPayload(a.facts) && ws[i] == FactsPayload(b.facts);
      } else {
        assert vs[i] == ws[i];
      }
    }
  }

  /** Without a collision, two valid inputs have the same digest exactly when they are the same input. */
  lemma InputDigestPins(pf: Platform, a: PolicyInput, b: PolicyInput)
    requires FixesProtocol(pf.nfc) && ValidInput(pf, a) && ValidInput(pf, b)
    requires NoCollision(pf, InputPayload(a), InputPayload(b))
    ensures InputDigest(pf, a) == InputDigest(pf, b) <==> SameInput(pf.nfc, a, b)
  {
    InputTreeExact(pf.nfc, a, b);
    FactsTreeExact(pf.nfc, a.facts, b.facts);
    if Agree(pf.nfc, InputValues(a), InputValues(b)) {
      TextsFixed(pf, a);
      TextsFixed(pf, b);
      TextsPinned(pf.nfc, a, b);
      TextsMakeInput(a, b);
      FactsPinned(pf.nfc, a, b);
    }
    if SameInput(pf.nfc, a, b) {
      SameInputAgrees(pf.nfc, a, b);
    }
  }

  // --- A record belongs to its input ---

  lemma EchoesFollow(a: PolicyInput, b: PolicyInput, id: Identity)
    requires a.(facts := b.facts) == b && Echoes(id, a)
    ensures Echoes(id, b)
  {
  }

  lemma DerivedIsBound(pf: Platform, record: Record, input: PolicyInput)
    requires Derived(pf, record)
    ensures Validate(pf, record, Some(input)) == {} <==>
      Echoes(record.identity, input) && InputDigest(pf, input) == Some(record.identity.inputDigest)
  {
  }

  /** A record bound to one valid input is bound to another exactly when that is the same input. */
  lemma BoundExactly(pf: Platform, own: PolicyInput, input: PolicyInput, record: Record)
    requires FixesProtocol(pf.nfc) && ValidInput(pf, own) && ValidInput(pf, input)
    requires Validate(pf, record, Some(own)) == {} && NoCollision(pf, InputPayload(own), InputPayload(input))
    ensures Validate(pf, record, Some(input)) == {} <==> SameInput(pf.nfc, own, input)
  {
    BoundMeans(pf, own, record);
    DerivedIsBound(pf, record, input);
    InputDigestPins(pf, own, input);
    if SameInput(pf.nfc, own, input) {
      EchoesFollow(own, input, record.identity);
    }
  }

  /** A record of the facade that replays as verified against an input was sealed for that input: the same bindings,
      versions and mode, facts that agree after NFC, and the very same accounting. */
  lemma VerifiedForItsInput(pf: Platform, own: PolicyInput, input: PolicyInput, record: Record,
                            policies: map<PolicyIdentity, Policy>, evaluators: map<string, Evaluator>)
    requires ValidPlatform(pf) && ValidInput(pf, own) && ValidInput(pf, input)
    requires Facade(pf, own) == Ok(record) && NoCollision(pf, InputPayload(own), InputPayload(input))
    requires VerifyReplay(pf, input, record, policies, evaluators).Finished?
    requires VerifyReplay(pf, input, record, policies, evaluators).result.classification == SemanticallyReplayVerified
    ensures SameInput(pf.nfc, own, input) && own.facts.accounting == input.facts.accounting
  {
    ProductionCoreValid(own);
    var core := CoreEvaluator(own, POLICY_V1).value;
    SealedIsValid(pf, own, core);
    VerifiedMeans(pf, input, record, policies, evaluators);
    BoundExactly(pf, own, input, record);
  }

  lemma VerifiedMeans(pf: Platform, input: PolicyInput, record: Record,
                      policies: map<PolicyIdentity, Policy>, evaluators: map<string, Evaluator>)
    requires VerifyReplay(pf, input, record, policies, evaluators).Finished?
    requires VerifyReplay(pf, input, record, policies, evaluators).result.classification == SemanticallyReplayVerified
    ensures Validate(pf, record, Some(input)) == {} && record.identity.accounting == input.facts.accounting
  {
    var identity := PolicyIdentity(record.identity.policyVersion, record.identity.bindings.policy);
    var evaluator := evaluators[record.identity.evaluatorVersion];
    var rebuilt := Rebuild(pf, input, policies[identity], evaluator).value;
    RebuiltAccounting(pf, input, evaluator(input, policies[identity]).value);
    MismatchCodesEmpty(rebuilt, record);
  }

  lemma RebuiltAccounting(pf: Platform, input: PolicyInput, core: Core)
    requires Seal(pf, input, core).Ok?
    ensures Seal(pf, input, core).value.identity.accounting == input.facts.accounting
  {
    FinalizedShape(pf, input, core);
    BuiltShape(pf, input, FinalizeDecision(pf, input, core).value);
  }

  // --- An input that the facts accept and the record refuses ---

  const SPACED_ID := "a b"

  const ALL_ENUM_FACTS := {
    TaskContextCurrent, CandidateBindingCurrent, RepositorySnapshotCurrent, RepositoryReleaseClean,
    PolicyContextCurrent, EvidenceContextStatus, ScopeStatus, ApprovalStatus, AuthorityStatus}

  function GoodValue(fact: EnumFact): string {
    match fact
    case RepositoryReleaseClean => "CLEAN"
    case EvidenceContextStatus => "COHERENT"
    case ScopeStatus => "COMPLIANT"
    case ApprovalStatus => "VALID"
    case AuthorityStatus => "VALID"
    case _ => "CURRENT"
  }

  /** Every status in order, with this accounting. */
  function GoodFacts(a: Accounting): Facts {
    Facts(map fact | fact in ALL_ENUM_FACTS :: GoodValue(fact), [], "ATTESTED", "INDEPENDENT", a)
  }

  lemma GoodEnums(a: Accounting, fact: EnumFact)
    ensures fact in GoodFacts(a).enums && GoodFacts(a).enums[fact] in Domain(fact)
  {
    assert fact in ALL_ENUM_FACTS;
  }

  lemma GoodFactsValid(a: Accounting)
    requires (forall fact: SetFact :: IdList(a.Ids(fact))) && a.Partitioned()
    ensures ValidFacts(GoodFacts(a))
  {
    var facts := GoodFacts(a);
    forall fact: EnumFact ensures fact in facts.enums && facts.enums[fact] in Domain(fact) {
      GoodEnums(a, fact);
    }
    assert facts.enums[EvidenceContextStatus] == GoodValue(EvidenceContextStatus);
    assert |"COHERENT"| != |"INCOHERENT"|;
  }

  /** Every field but the facts, from one token and one digest. */
  function GoodInput(pf: Platform, a: Accounting): PolicyInput {
    var d := pf.digest([]);
    PolicyInput("t", Bindings(d, d, d, d, d, d, d, d), "t", "t", Enforce, SCHEMA_VERSION, pf.schemaDigest,
                CANONICALIZATION_VERSION, pf.contractDigest, GoodFacts(a))
  }

  /** One rejected evidence id and nothing else. */
  function OneRejected(id: string): Accounting {
    Accounting([], [], [], [], [id], [], [])
  }

  lemma GoodInputValid(pf: Platform, id: string)
    requires ValidPlatform(pf) && id != [] && IsPrintable(id)
    ensures ValidInput(pf, GoodInput(pf, OneRejected(id)))
  {
    var a := OneRejected(id);
    forall fact: SetFact ensures IdList(a.Ids(fact)) {
      assert a.Ids(fact) == [id] || a.Ids(fact) == [];
    }
    GoodFactsValid(a);
    assert IsToken("t");
  }

  /** The evidence id "a b" makes a valid input that the facade cannot seal. */
  lemma SpacedIdRefused(pf: Platform)
    requires ValidPlatform(pf)
    ensures var input := GoodInput(pf, OneRejected(SPACED_ID));
      ValidInput(pf, input) && Facade(pf, input).Err?
  {
    SpacedId();
    GoodInputValid(pf, SPACED_ID);
    OneToken(SPACED_ID);
    FacadeSucceeds(pf, GoodInput(pf, OneRejected(SPACED_ID)));
  }

  lemma SpacedId()
    ensures SPACED_ID != [] && IsPrintable(SPACED_ID) && !IsToken(SPACED_ID)
  {
    assert SPACED_ID[1] == ' ' && SPACED_ID[1] in SPACED_ID;
  }

  lemma OneToken(id: string)
    ensures TokenIds(OneRejected(id)) <==> IsToken(id)
  {
    assert OneRejected(id).Ids(Rejected) == [id] && OneRejected(id).Ids(Rejected)[0] == id;
  }

  lemma FacadeRecord(pf: Platform, input: PolicyInput)
    requires ValidPlatform(pf) && ValidInput(pf, input) && TokenIds(input.facts.accounting)
    ensures Facade(pf, input).Ok?
    ensures Validate(pf, Facade(pf, input).value, Some(input)) == {}
    ensures Facade(pf, input).value.identity.accounting == input.facts.accounting
  {
    FacadeSucceeds(pf, input);
    ProductionCoreValid(input);
    SealedIsValid(pf, input, CoreEvaluator(input, POLICY_V1).value);
  }

  /** The facade's record for the evidence id "K", stored with the Kelvin sign instead: bound to its input, both digests
      match, and replay still reports a mismatch. */
  lemma KelvinExample(pf: Platform)
    requires ValidPlatform(pf) && pf.nfc(KELVIN_SIGN) == pf.nfc("K")
    ensures var input := GoodInput(pf, OneRejected("K"));
      && ValidInput(pf, input) && Facade(pf, input).Ok?
      && var stored := WithRejected(Facade(pf, input).value, [KELVIN_SIGN]);
      && Validate(pf, stored, Some(input)) == {}
      && Compared(Facade(pf, input).value, stored)
        == ReplayResult(SemanticReplayMismatch, {AccountingDiffers}, true, true, true, true, true, true)
  {
    var input := GoodInput(pf, OneRejected("K"));
    assert IsToken("K") && IsPrintable("K");
    GoodInputValid(pf, "K");
    OneToken("K");
    FacadeRecord(pf, input);
    KelvinRecordMismatch(pf, input, Facade(pf, input).value);
  }
}

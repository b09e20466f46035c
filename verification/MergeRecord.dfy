/**
 Canonical merge-eligibility records (agent_core/build_harness/merge_eligibility_record.py):
 a decision core is sealed with the input it was made for under two digests.

 SHA-256 and Unicode NFC are the fields `digest` and `nfc` of a `Platform`.
 */
module MergeRecord {
  import opened Wrappers
  import opened Grammar
  import opened FieldNames
  import opened JsonText
  import opened CanonicalJson
  import opened MergePolicy
  import opened ProductionPolicy
  import Utf8

  // --- Payload dictionaries ---

  function Zip(names: seq<string>, values: seq<Value>): (es: seq<Entry>)
    requires |names| == |values|
    ensures |es| == |names|
    ensures forall i :: 0 <= i < |names| ==> es[i] == Entry(names[i], values[i])
  {
    seq(|names|, i requires 0 <= i < |names| => Entry(names[i], values[i]))
  }

  /** The normaliser leaves every name as it is. */
  ghost predicate FixesAll(nfc: Normalizer, names: seq<string>) {
    forall i :: 0 <= i < |names| ==> nfc(names[i]) == names[i]
  }

  ghost predicate Agree(nfc: Normalizer, vs: seq<Value>, ws: seq<Value>) {
    |vs| == |ws| && forall i :: 0 <= i < |vs| ==> Canonical(nfc, vs[i]) == Canonical(nfc, ws[i])
  }

  lemma ZipKeys(nfc: Normalizer, names: seq<string>, vs: seq<Value>)
    requires |names| == |vs| && Distinct(names) && FixesAll(nfc, names)
    ensures KeysDistinct(nfc, Zip(names, vs))
  {
  }

  lemma ZipAccepted(nfc: Normalizer, names: seq<string>, vs: seq<Value>)
    requires |names| == |vs| && Distinct(names) && FixesAll(nfc, names) && AllCanonical(nfc, vs)
    ensures EntriesCanonical(nfc, Zip(names, vs)) && Encode(nfc, Dict(Zip(names, vs))).Some?
  {
    var es := Zip(names, vs);
    ZipKeys(nfc, names, vs);
    forall i | 0 <= i < |es| ensures Canonical(nfc, es[i].value).Some? {
      assert es[i].value == vs[i];
    }
    ObjectAccepted(nfc, es);
  }

  /** Two payloads over the same names have the same tree exactly when they agree field by field. */
  lemma ZipExact(nfc: Normalizer, names: seq<string>, vs: seq<Value>, ws: seq<Value>)
    requires |names| == |vs| == |ws| && Distinct(names) && FixesAll(nfc, names)
    requires AllCanonical(nfc, vs) && AllCanonical(nfc, ws)
    ensures Canonical(nfc, Dict(Zip(names, vs))) == Canonical(nfc, Dict(Zip(names, ws))) <==> Agree(nfc, vs, ws)
  {
    ZipAccepted(nfc, names, vs);
    ZipAccepted(nfc, names, ws);
    ObjectAccepted(nfc, Zip(names, vs));
    ObjectAccepted(nfc, Zip(names, ws));
    if CanonicalMembers(nfc, Zip(names, vs)) == CanonicalMembers(nfc, Zip(names, ws)) {
      ZipMembers(nfc, names, vs, ws);
    }
    if Agree(nfc, vs, ws) {
      ZipCongruent(nfc, names, vs, ws);
    }
  }

  lemma ZipMembers(nfc: Normalizer, names: seq<string>, vs: seq<Value>, ws: seq<Value>)
    requires |names| == |vs| == |ws|
    requires EntriesCanonical(nfc, Zip(names, vs)) && EntriesCanonical(nfc, Zip(names, ws))
    requires CanonicalMembers(nfc, Zip(names, vs)) == CanonicalMembers(nfc, Zip(names, ws))
    ensures Agree(nfc, vs, ws)
  {
    var es, fs := Zip(names, vs), Zip(names, ws);
    forall i | 0 <= i < |vs| ensures Canonical(nfc, vs[i]) == Canonical(nfc, ws[i]) {
      assert es[i] in es && fs[i] in fs;
      MemberAt(nfc, es, es[i]);
      MemberAt(nfc, fs, fs[i]);
    }
  }

  lemma ZipCongruent(nfc: Normalizer, names: seq<string>, vs: seq<Value>, ws: seq<Value>)
    requires |names| == |vs| == |ws| && Agree(nfc, vs, ws)
    requires EntriesCanonical(nfc, Zip(names, vs)) && EntriesCanonical(nfc, Zip(names, ws))
    ensures CanonicalMembers(nfc, Zip(names, vs)) == CanonicalMembers(nfc, Zip(names, ws))
  {
    var es, fs := Zip(names, vs), Zip(names, ws);
    forall e | e in es ensures HasCounterpart(nfc, e, fs) {
      var i :| 0 <= i < |es| && es[i] == e;
      assert fs[i] in fs && Counterpart(nfc, e, fs[i]);
    }
    forall f | f in fs ensures HasCounterpart(nfc, f, es) {
      var i :| 0 <= i < |fs| && fs[i] == f;
      assert es[i] in es && Counterpart(nfc, f, es[i]);
    }
    CoveredMembers(nfc, es, fs);
  }

  function StrList(xs: seq<string>): (v: Value)
    ensures v.List? && |v.items| == |xs| && forall i :: 0 <= i < |xs| ==> v.items[i] == Str(xs[i])
  {
    List(seq(|xs|, i requires 0 <= i < |xs| => Str(xs[i])))
  }

  function OptionalStr(x: Option<string>): Value {
    match x case None => Null case Some(s) => Str(s)
  }

  lemma StrListCanonical(nfc: Normalizer, xs: seq<string>)
    ensures Canonical(nfc, StrList(xs)).Some?
    ensures Canonical(nfc, StrList(xs)).value.JList? && |Canonical(nfc, StrList(xs)).value.items| == |xs|
    ensures forall i :: 0 <= i < |xs| ==> Canonical(nfc, StrList(xs)).value.items[i] == JStr(nfc(xs[i]))
  {
    assert AllCanonical(nfc, StrList(xs).items);
  }

  /** Two lists of strings in normal form with the same tree are equal. */
  lemma StrListExact(nfc: Normalizer, xs: seq<string>, ys: seq<string>)
    requires Canonical(nfc, StrList(xs)) == Canonical(nfc, StrList(ys))
    requires FixesAll(nfc, xs) && FixesAll(nfc, ys)
    ensures xs == ys
  {
    StrListCanonical(nfc, xs);
    StrListCanonical(nfc, ys);
    forall i | 0 <= i < |xs| ensures xs[i] == ys[i] {
      assert JStr(nfc(xs[i])) == JStr(nfc(ys[i]));
    }
  }

  // --- Platform and input ---

  datatype Platform = Platform(
    nfc: Normalizer, digest: seq<Utf8.Byte> -> string, schemaDigest: string, contractDigest: string)

  const SCHEMA_VERSION := "changegate.policy-evaluation-record.v1"
  const CANONICALIZATION_VERSION := "tomtit.canonical.v1"
  const APPROVAL_SENTINEL := "NO_APPROVAL_SUPPLIED"
  const DECISION_KIND := "changegate.merge-eligibility-decision.test-oracle.v1"
  const INPUT_KIND := "changegate.merge-eligibility-policy-input.test-oracle.v1"

  function DispositionText(d: Disposition): string {
    match d case Eligible => "ELIGIBLE_TO_MERGE_UNDER_POLICY" case ReviewRequired => "REVIEW_REQUIRED" case Block => "BLOCK"
  }

  function AuthorityText(a: Authority): string {
    match a case Authoritative => "AUTHORITATIVE" case AdvisoryOnly => "ADVISORY_ONLY"
  }

  function ModeText(m: Mode): string {
    match m case Enforce => "ENFORCE" case Shadow => "SHADOW"
  }

  /** NFC leaves these ASCII strings as they are: identifiers, digests, field names and enum values. */
  ghost predicate FixesProtocol(nfc: Normalizer) {
    && (forall s :: IsToken(s) || IsDigest(s) ==> nfc(s) == s)
    && FixesAll(nfc, DECISION_FIELDS) && FixesAll(nfc, RECORD_FIELDS)
    && FixesAll(nfc, INPUT_FIELDS) && FixesAll(nfc, FACT_FIELDS)
    && (forall c: Committed :: nfc(Name(c)) == Name(c))
    && (forall d :: nfc(DispositionText(d)) == DispositionText(d))
    && (forall a :: nfc(AuthorityText(a)) == AuthorityText(a))
    && (forall m :: nfc(ModeText(m)) == ModeText(m))
    && nfc(APPROVAL_SENTINEL) == APPROVAL_SENTINEL
  }

  ghost predicate ValidPlatform(pf: Platform) {
    FixesProtocol(pf.nfc) && forall bytes :: IsDigest(pf.digest(bytes))
  }

  /** These demands can be met: text without composed characters and any digest-shaped function will do. */
  lemma PlatformExists() returns (pf: Platform)
    ensures ValidPlatform(pf)
  {
    var zeros := seq(64, _ => '0');
    var d := "sha256:" + zeros;
    assert d[..7] == "sha256:" && d[7..] == zeros;
    pf := Platform(s => s, _ => d, d, d);
  }

  datatype Bindings = Bindings(
    taskContract: string, candidate: string, snapshot: string, bundle: string,
    approval: string, authority: string, verifier: string, policy: string)

  predicate ValidBindings(b: Bindings) {
    && IsDigest(b.taskContract) && IsDigest(b.candidate) && IsDigest(b.snapshot) && IsDigest(b.bundle)
    && (b.approval == APPROVAL_SENTINEL || IsDigest(b.approval))
    && IsDigest(b.authority) && IsDigest(b.verifier) && IsDigest(b.policy)
  }

  datatype PolicyInput = PolicyInput(
    taskId: string, bindings: Bindings, policyVersion: string, evaluatorVersion: string, mode: Mode,
    schemaVersion: string, schemaDigest: string, canonicalizationVersion: string, contractDigest: string,
    facts: Facts)

  /** What the constructor of `MergeEligibilityPolicyInput` accepts. */
  ghost predicate ValidInput(pf: Platform, input: PolicyInput) {
    && IsToken(input.taskId) && ValidBindings(input.bindings)
    && IsToken(input.policyVersion) && IsToken(input.evaluatorVersion)
    && input.schemaVersion == SCHEMA_VERSION && input.schemaDigest == pf.schemaDigest
    && input.canonicalizationVersion == CANONICALIZATION_VERSION && input.contractDigest == pf.contractDigest
    && ValidFacts(input.facts)
  }

  /** `canonical_digest`: nothing when the value is refused. */
  function CanonicalDigest(pf: Platform, v: Value): Option<string> {
    match Encode(pf.nfc, v)
    case None => None
    case Some(bytes) => Some(pf.digest(bytes))
  }

  function EnumText(facts: Facts, fact: EnumFact): Value {
    if fact in facts.enums then Str(facts.enums[fact]) else Unsupported
  }

  function AccountingValues(a: Accounting): seq<Value> {
    [StrList(a.required), StrList(a.satisfied), StrList(a.invalid), StrList(a.missing),
     StrList(a.rejected), StrList(a.invalidProvenance), StrList(a.unexpected)]
  }

  function FactValues(facts: Facts): (vs: seq<Value>)
    ensures |vs| == |FACT_FIELDS|
  {
    [EnumText(facts, TaskContextCurrent), EnumText(facts, CandidateBindingCurrent),
     EnumText(facts, RepositorySnapshotCurrent), EnumText(facts, RepositoryReleaseClean),
     EnumText(facts, PolicyContextCurrent), EnumText(facts, EvidenceContextStatus), StrList(facts.violations),
     EnumText(facts, ScopeStatus), EnumText(facts, ApprovalStatus), EnumText(facts, AuthorityStatus),
     Str(facts.verifierIdentity), Str(facts.verifierIndependence)]
    + AccountingValues(facts.accounting)
  }

  function InputValues(input: PolicyInput): (vs: seq<Value>)
    ensures |vs| == |INPUT_FIELDS|
  {
    var b := input.bindings;
    [Str(INPUT_KIND), Str(input.taskId), Str(b.taskContract), Str(b.candidate), Str(b.snapshot), Str(b.bundle),
     Str(b.approval), Str(b.authority), Str(b.verifier), Str(b.policy), Str(input.policyVersion),
     Str(input.evaluatorVersion), Str(ModeText(input.mode)), Str(input.schemaVersion), Str(input.schemaDigest),
     Str(input.canonicalizationVersion), Str(input.contractDigest), Dict(Zip(FACT_FIELDS, FactValues(input.facts)))]
  }

  /** `MergeEligibilityPolicyInput.input_digest`. */
  function InputDigest(pf: Platform, input: PolicyInput): Option<string> {
    CanonicalDigest(pf, Dict(Zip(INPUT_FIELDS, InputValues(input))))
  }

  // --- Records ---

  /** The 26 identity fields, with enums as their texts. */
  datatype Identity = Identity(
    taskId: string, bindings: Bindings, policyVersion: string, evaluatorVersion: string, mode: string,
    inputDigest: string, disposition: string, authority: string, primary: Option<string>,
    complete: seq<string>, blocking: seq<string>, review: seq<string>, accounting: Accounting)

  datatype Decision = Decision(identity: Identity, decisionDigest: string)

  datatype Record = Record(schemaVersion: string, identity: Identity, decisionDigest: string, recordDigest: string)

  function IdentityValues(id: Identity): (vs: seq<Value>)
    ensures |vs| == |IDENTITY_FIELDS|
  {
    var b := id.bindings;
    [Str(id.taskId), Str(b.taskContract), Str(b.candidate), Str(b.snapshot), Str(b.bundle), Str(b.approval),
     Str(b.authority), Str(b.verifier), Str(b.policy), Str(id.policyVersion), Str(id.evaluatorVersion), Str(id.mode),
     Str(id.inputDigest), Str(id.disposition), Str(id.authority), OptionalStr(id.primary), StrList(id.complete),
     StrList(id.blocking), StrList(id.review)]
    + AccountingValues(id.accounting)
  }

  function DecisionValues(id: Identity): (vs: seq<Value>)
    ensures |vs| == |DECISION_FIELDS|
  {
    [Str(DECISION_KIND)] + IdentityValues(id)
  }

  function RecordValues(schemaVersion: string, id: Identity, decisionDigest: string): (vs: seq<Value>)
    ensures |vs| == |RECORD_FIELDS|
  {
    [Str(schemaVersion)] + IdentityValues(id) + [Str(decisionDigest)]
  }

  function DecisionPayload(id: Identity): Value {
    Dict(Zip(DECISION_FIELDS, DecisionValues(id)))
  }

  function RecordPayload(schemaVersion: string, id: Identity, decisionDigest: string): Value {
    Dict(Zip(RECORD_FIELDS, RecordValues(schemaVersion, id, decisionDigest)))
  }

  function DecisionDigest(pf: Platform, id: Identity): Option<string> {
    CanonicalDigest(pf, DecisionPayload(id))
  }

  function RecordDigest(pf: Platform, schemaVersion: string, id: Identity, decisionDigest: string): Option<string> {
    CanonicalDigest(pf, RecordPayload(schemaVersion, id, decisionDigest))
  }

  lemma AccountingAccepted(nfc: Normalizer, a: Accounting)
    ensures AllCanonical(nfc, AccountingValues(a))
  {
    StrListCanonical(nfc, a.required);
    StrListCanonical(nfc, a.satisfied);
    StrListCanonical(nfc, a.invalid);
    StrListCanonical(nfc, a.missing);
    StrListCanonical(nfc, a.rejected);
    StrListCanonical(nfc, a.invalidProvenance);
    StrListCanonical(nfc, a.unexpected);
  }

  lemma IdentityAccepted(nfc: Normalizer, id: Identity)
    ensures AllCanonical(nfc, IdentityValues(id))
  {
    AccountingAccepted(nfc, id.accounting);
    StrListCanonical(nfc, id.complete);
    StrListCanonical(nfc, id.blocking);
    StrListCanonical(nfc, id.review);
  }

  lemma AllCanonicalConcat(nfc: Normalizer, vs: seq<Value>, ws: seq<Value>)
    requires AllCanonical(nfc, vs) && AllCanonical(nfc, ws)
    ensures AllCanonical(nfc, vs + ws)
  {
  }

  lemma PayloadsAccepted(nfc: Normalizer, schemaVersion: string, id: Identity, decisionDigest: string)
    ensures AllCanonical(nfc, DecisionValues(id)) && AllCanonical(nfc, RecordValues(schemaVersion, id, decisionDigest))
  {
    IdentityAccepted(nfc, id);
    AllCanonicalConcat(nfc, [Str(DECISION_KIND)], IdentityValues(id));
    AllCanonicalConcat(nfc, [Str(schemaVersion)], IdentityValues(id));
    AllCanonicalConcat(nfc, [Str(schemaVersion)] + IdentityValues(id), [Str(decisionDigest)]);
  }

  /** Decision and record payloads are never refused. */
  lemma DigestsDefined(pf: Platform, schemaVersion: string, id: Identity, decisionDigest: string)
    requires FixesProtocol(pf.nfc)
    ensures DecisionDigest(pf, id).Some? && RecordDigest(pf, schemaVersion, id, decisionDigest).Some?
  {
    PayloadFieldsDistinct();
    PayloadsAccepted(pf.nfc, schemaVersion, id, decisionDigest);
    ZipAccepted(pf.nfc, DECISION_FIELDS, DecisionValues(id));
    ZipAccepted(pf.nfc, RECORD_FIELDS, RecordValues(schemaVersion, id, decisionDigest));
  }

  lemma FactsAccepted(nfc: Normalizer, facts: Facts)
    requires forall fact: EnumFact :: fact in facts.enums
    ensures AllCanonical(nfc, FactValues(facts))
  {
    AccountingAccepted(nfc, facts.accounting);
    StrListCanonical(nfc, facts.violations);
  }

  lemma InputAccepted(nfc: Normalizer, input: PolicyInput)
    requires Canonical(nfc, Dict(Zip(FACT_FIELDS, FactValues(input.facts)))).Some?
    ensures AllCanonical(nfc, InputValues(input))
  {
  }

  /** The input payload of a valid input is never refused. */
  lemma InputDigestDefined(pf: Platform, input: PolicyInput)
    requires FixesProtocol(pf.nfc) && ValidInput(pf, input)
    ensures InputDigest(pf, input).Some?
  {
    PayloadFieldsDistinct();
    FactsAccepted(pf.nfc, input.facts);
    ZipAccepted(pf.nfc, FACT_FIELDS, FactValues(input.facts));
    InputAccepted(pf.nfc, input);
    ZipAccepted(pf.nfc, INPUT_FIELDS, InputValues(input));
  }

  // --- Digests pin the payload ---

  /** No collision of the digest between two given byte strings. */
  ghost predicate NoCollision(pf: Platform, v: Value, w: Value) {
    var a, b := Encode(pf.nfc, v), Encode(pf.nfc, w);
    a.Some? && b.Some? && pf.digest(a.value) == pf.digest(b.value) ==> a == b
  }

  lemma DecisionTreeExact(nfc: Normalizer, a: Identity, b: Identity)
    requires FixesProtocol(nfc)
    ensures Encode(nfc, DecisionPayload(a)).Some? && Encode(nfc, DecisionPayload(b)).Some?
    ensures Encode(nfc, DecisionPayload(a)) == Encode(nfc, DecisionPayload(b)) <==>
      Agree(nfc, IdentityValues(a), IdentityValues(b))
  {
    PayloadFieldsDistinct();
    PayloadsAccepted(nfc, [], a, []);
    PayloadsAccepted(nfc, [], b, []);
    ZipAccepted(nfc, DECISION_FIELDS, DecisionValues(a));
    ZipAccepted(nfc, DECISION_FIELDS, DecisionValues(b));
    EncodeInjective(nfc, DecisionPayload(a), DecisionPayload(b));
    ZipExact(nfc, DECISION_FIELDS, DecisionValues(a), DecisionValues(b));
    AgreeConcat(nfc, [Str(DECISION_KIND)], IdentityValues(a), [Str(DECISION_KIND)], IdentityValues(b));
  }

  lemma RecordTreeExact(nfc: Normalizer, s: string, a: Identity, d: string, t: string, b: Identity, e: string)
    requires FixesProtocol(nfc)
    ensures Encode(nfc, RecordPayload(s, a, d)).Some? && Encode(nfc, RecordPayload(t, b, e)).Some?
    ensures Encode(nfc, RecordPayload(s, a, d)) == Encode(nfc, RecordPayload(t, b, e)) <==>
      nfc(s) == nfc(t) && Agree(nfc, IdentityValues(a), IdentityValues(b)) && nfc(d) == nfc(e)
  {
    PayloadFieldsDistinct();
    PayloadsAccepted(nfc, s, a, d);
    PayloadsAccepted(nfc, t, b, e);
    ZipAccepted(nfc, RECORD_FIELDS, RecordValues(s, a, d));
    ZipAccepted(nfc, RECORD_FIELDS, RecordValues(t, b, e));
    EncodeInjective(nfc, RecordPayload(s, a, d), RecordPayload(t, b, e));
    ZipExact(nfc, RECORD_FIELDS, RecordValues(s, a, d), RecordValues(t, b, e));
    AgreeConcat(nfc, [Str(s)], IdentityValues(a), [Str(t)], IdentityValues(b));
    AgreeConcat(nfc, [Str(s)] + IdentityValues(a), [Str(d)], [Str(t)] + IdentityValues(b), [Str(e)]);
    AgreeStr(nfc, s, t);
    AgreeStr(nfc, d, e);
  }

  /** Without a collision, equal decision digests mean identities that agree field by field. */
  lemma DecisionDigestPins(pf: Platform, a: Identity, b: Identity)
    requires FixesProtocol(pf.nfc) && NoCollision(pf, DecisionPayload(a), DecisionPayload(b))
    ensures DecisionDigest(pf, a) == DecisionDigest(pf, b) <==> Agree(pf.nfc, IdentityValues(a), IdentityValues(b))
  {
    DecisionTreeExact(pf.nfc, a, b);
  }

  lemma RecordDigestPins(pf: Platform, s: string, a: Identity, d: string, t: string, b: Identity, e: string)
    requires FixesProtocol(pf.nfc) && NoCollision(pf, RecordPayload(s, a, d), RecordPayload(t, b, e))
    ensures RecordDigest(pf, s, a, d) == RecordDigest(pf, t, b, e) <==>
      pf.nfc(s) == pf.nfc(t) && Agree(pf.nfc, IdentityValues(a), IdentityValues(b)) && pf.nfc(d) == pf.nfc(e)
  {
    RecordTreeExact(pf.nfc, s, a, d, t, b, e);
  }

  /** Identities that agree field by field have the same digests. */
  lemma AgreeSameDigests(pf: Platform, a: Identity, b: Identity, schemaVersion: string, decisionDigest: string)
    requires FixesProtocol(pf.nfc) && Agree(pf.nfc, IdentityValues(a), IdentityValues(b))
    ensures DecisionDigest(pf, a) == DecisionDigest(pf, b)
    ensures RecordDigest(pf, schemaVersion, a, decisionDigest) == RecordDigest(pf, schemaVersion, b, decisionDigest)
  {
    DecisionTreeExact(pf.nfc, a, b);
    RecordTreeExact(pf.nfc, schemaVersion, a, decisionDigest, schemaVersion, b, decisionDigest);
  }

  lemma AgreeStr(nfc: Normalizer, s: string, t: string)
    ensures Agree(nfc, [Str(s)], [Str(t)]) <==> nfc(s) == nfc(t)
  {
    assert Canonical(nfc, [Str(s)][0]) == Some(JStr(nfc(s)));
    assert Canonical(nfc, [Str(t)][0]) == Some(JStr(nfc(t)));
  }

  lemma AgreeConcat(nfc: Normalizer, vs: seq<Value>, ws: seq<Value>, vs': seq<Value>, ws': seq<Value>)
    requires |vs| == |vs'|
    ensures Agree(nfc, vs + ws, vs' + ws') <==> Agree(nfc, vs, vs') && Agree(nfc, ws, ws')
  {
    if Agree(nfc, vs + ws, vs' + ws') {
      forall i | 0 <= i < |vs| ensures Canonical(nfc, vs[i]) == Canonical(nfc, vs'[i]) {
        assert (vs + ws)[i] == vs[i] && (vs' + ws')[i] == vs'[i];
      }
      forall i | 0 <= i < |ws| ensures Canonical(nfc, ws[i]) == Canonical(nfc, ws'[i]) {
        assert (vs + ws)[|vs| + i] == ws[i] && (vs' + ws')[|vs| + i] == ws'[i];
      }
    }
  }
}

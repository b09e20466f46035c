/**
 The change gate (agent_core/build_harness/change_gate.py): findings over a reported change, the
 decision they force, and the check that a decision marked PASS is genuine.

 `fnmatch` is the parameter `glob`; reason texts are left out.
 */
module ChangeGate {
  import opened Wrappers
  import opened Text
  import opened StableSort
  import opened StringOrder
  import opened Grammar
  import opened RepoPath

  type Glob = (string, string) -> bool

  datatype Contract = Contract(
    taskId: string, allowed: seq<string>, forbidden: seq<string>, broadScope: bool,
    approvalFor: seq<string>, required: seq<string>)

  datatype Evidence = Evidence(
    command: string, exitCode: int, completed: bool, commit: string, id: string,
    completedAt: Option<string>, artifactDigest: Option<string>)

  datatype GateInput = GateInput(
    contract: Contract, files: seq<string>, dependencyFiles: seq<string>, expected: string, evidence: seq<Evidence>)

  datatype FindingType =
    | InvalidChangedPath | ForbiddenPath | InvalidEvidence | DuplicateEvidenceId
    | NoChangedFiles | OutOfScope | DependencyChange | MissingEvidence | NoEvidence

  datatype Severity = Info | Warning | Block

  /** `subject` is the file or the evidence the finding is about. */
  datatype Finding = Finding(kind: FindingType, severity: Severity, subject: string)

  datatype Verdict = Pass | ReviewRequired | Blocked

  datatype Decision = Decision(
    verdict: Verdict, findings: seq<Finding>, matched: seq<string>, missing: seq<string>, expected: string)

  function SeverityOf(kind: FindingType): Severity {
    if kind.InvalidChangedPath? || kind.ForbiddenPath? || kind.InvalidEvidence? || kind.DuplicateEvidenceId?
    then Block else Warning
  }

  function Raise(kind: FindingType, subject: string): Finding {
    Finding(kind, SeverityOf(kind), subject)
  }

  // --- Paths ---

  /** `_path_matches`: a pattern ending in a double-star segment covers the directory and everything below it. */
  predicate PathMatches(glob: Glob, file: string, pattern: string) {
    if |pattern| >= 3 && pattern[|pattern| - 3..] == "/**" then
      var prefix := pattern[..|pattern| - 3];
      file == prefix || prefix + "/" <= file
    else glob(file, pattern)
  }

  predicate MatchesAny(glob: Glob, file: string, patterns: seq<string>) {
    exists p :: p in patterns && PathMatches(glob, file, p)
  }

  const DEPENDENCY_FILES: set<string> := {
    "requirements.txt", "pyproject.toml", "poetry.lock", "package.json", "package-lock.json", "pnpm-lock.yaml",
    "yarn.lock"}

  /** `PurePosixPath(f).name` of a canonical path. */
  predicate IsDependencyFile(file: string) {
    var ps := SplitOn(file, '/');
    ps[|ps| - 1] in DEPENDENCY_FILES
  }

  /** Some reported spelling has this canonical form. */
  predicate Touches(files: seq<string>, file: string) {
    exists raw :: raw in files && Normal(raw) == Ok(file)
  }

  predicate Scoped(c: Contract) {
    c.allowed != [] && !c.broadScope
  }

  predicate DependenciesNeedApproval(c: Contract) {
    "dependency_change" in c.approvalFor
  }

  // --- Evidence ---

  /** `[A-Za-z0-9][A-Za-z0-9_-]{0,63}`, matched in full, as the error message and the comments promise. */
  predicate IsPrintableId(s: string) {
    1 <= |s| <= 64 && IsAlnum(s[0]) && forall c :: c in s ==> IsAlnum(c) || c == '_' || c == '-'
  }

  predicate EndsInLineFeed(s: string) {
    s != "" && s[|s| - 1] == '\n'
  }

  /** The id without a final line feed. */
  function Core(s: string): string {
    if EndsInLineFeed(s) then s[..|s| - 1] else s
  }

  /** `^[A-Za-z0-9][A-Za-z0-9_-]{0,63}$`, where `$` also matches before a final line feed. */
  predicate IsEvidenceId(s: string) {
    IsPrintableId(Core(s))
  }

  predicate Given(opt: Option<string>) {
    opt.Some? ==> Strip(opt.value) != ""
  }

  /** `_command_evidence_error` finds nothing wrong. */
  predicate WellFormed(ev: Evidence) {
    && Strip(ev.command) != "" && Strip(ev.commit) != "" && Strip(ev.id) != "" && IsEvidenceId(ev.id)
    && Given(ev.completedAt) && Given(ev.artifactDigest)
  }

  /** How many records carry this id. */
  function IdCount(evidence: seq<Evidence>, id: string): nat {
    if evidence == [] then 0
    else (if evidence[0].id == id then 1 else 0) + IdCount(evidence[1..], id)
  }

  predicate Duplicated(evidence: seq<Evidence>, id: string) {
    IsEvidenceId(id) && IdCount(evidence, id) > 1
  }

  /** `_evidence_verdict` is None. */
  predicate Trustworthy(ev: Evidence, expected: string) {
    ev.completed && ev.exitCode == 0 && Strip(ev.id) != "" && expected != "" && ev.commit == expected
  }

  /** A completed exit-0 record of the command at the expected commit, whose id occurs exactly once. */
  predicate Proves(g: GateInput, ev: Evidence, required: string) {
    && ev in g.evidence && WellFormed(ev) && IdCount(g.evidence, ev.id) == 1
    && Words(ev.command) == Words(required)
    && ev.completed && ev.exitCode == 0 && g.expected != "" && ev.commit == g.expected
  }

  ghost predicate Proven(g: GateInput, required: string) {
    exists ev :: Proves(g, ev, required)
  }

  // --- What is found ---

  /** The findings, each by the fact about the input that raises it. */
  ghost predicate Found(glob: Glob, g: GateInput, kind: FindingType, subject: string) {
    match kind
    case InvalidChangedPath => subject in g.files && Normal(subject).Err?
    case ForbiddenPath => Touches(g.files, subject) && MatchesAny(glob, subject, g.contract.forbidden)
    case OutOfScope =>
      && Touches(g.files, subject) && !MatchesAny(glob, subject, g.contract.forbidden)
      && Scoped(g.contract) && !MatchesAny(glob, subject, g.contract.allowed)
    case DependencyChange =>
      && DependenciesNeedApproval(g.contract)
      && (subject in g.dependencyFiles || (Touches(g.files, subject) && IsDependencyFile(subject)))
    case InvalidEvidence => subject == "" && exists ev :: ev in g.evidence && !WellFormed(ev)
    case DuplicateEvidenceId => Duplicated(g.evidence, subject)
    case MissingEvidence => subject in g.contract.required && !Proven(g, subject)
    case NoChangedFiles => subject == "" && g.files == []
    case NoEvidence => subject == "" && g.evidence == [] && g.contract.required == []
  }

  ghost predicate Raised(glob: Glob, g: GateInput, f: Finding) {
    f.severity == SeverityOf(f.kind) && Found(glob, g, f.kind, f.subject)
  }

  ghost predicate Blocks(glob: Glob, g: GateInput) {
    exists kind, subject :: SeverityOf(kind) == Block && Found(glob, g, kind, subject)
  }

  ghost predicate Warns(glob: Glob, g: GateInput) {
    exists kind, subject :: SeverityOf(kind) == Warning && Found(glob, g, kind, subject)
  }

  /** Any block finding blocks, else any warning asks for review. */
  ghost function VerdictOf(glob: Glob, g: GateInput): Verdict {
    if Blocks(glob, g) then Blocked else if Warns(glob, g) then ReviewRequired else Pass
  }

  ghost predicate IsDecision(glob: Glob, g: GateInput, d: Decision) {
    && d.verdict == VerdictOf(glob, g) && d.expected == g.expected
    && (forall f :: f in d.findings <==> Raised(glob, g, f))
    && d.matched == Select(g.contract.required, ProvenIn(g))
    && d.missing == Select(g.contract.required, UnprovenIn(g))
  }

  ghost function ProvenIn(g: GateInput): string -> bool {
    (required: string) => Proven(g, required)
  }

  ghost function UnprovenIn(g: GateInput): string -> bool {
    (required: string) => !Proven(g, required)
  }

  // --- The evaluation ---

  /** These are exactly the findings of these kinds. */
  ghost predicate Exactly(glob: Glob, g: GateInput, findings: seq<Finding>, kinds: set<FindingType>) {
    forall f :: f in findings <==> f.kind in kinds && Raised(glob, g, f)
  }

  /** Step 0: canonicalise every path, drop repetitions, report the refused ones. */
  method CollectPaths(glob: Glob, g: GateInput) returns (normal: seq<string>, findings: seq<Finding>)
    ensures forall n :: n in normal <==> Touches(g.files, n)
    ensures Exactly(glob, g, findings, {InvalidChangedPath})
  {
    normal, findings := [], [];
    var seen: set<string> := {};
    for i := 0 to |g.files|
      invariant forall n :: n in normal <==> n in seen
      invariant forall n :: n in normal <==> Touches(g.files[..i], n)
      invariant forall f :: f in findings <==>
        f.kind == InvalidChangedPath && f.severity == Block && f.subject in g.files[..i] && Normal(f.subject).Err?
    {
      var raw := g.files[i];
      assert g.files[..i + 1] == g.files[..i] + [raw];
      var r := NormalizeRepoPath(raw);
      TouchesSnoc(g.files[..i], raw);
      if r.Err? {
        findings := findings + [Raise(InvalidChangedPath, raw)];
        continue;
      }
      if r.value !in seen {
        seen := seen + {r.value};
        normal := normal + [r.value];
      }
    }
    assert g.files[..|g.files|] == g.files;
  }

  lemma TouchesSnoc(files: seq<string>, raw: string)
    ensures forall n :: Touches(files + [raw], n) <==> Touches(files, n) || Normal(raw) == Ok(n)
  {
    forall n ensures Touches(files + [raw], n) <==> Touches(files, n) || Normal(raw) == Ok(n) {
      if Touches(files, n) {
        var r :| r in files && Normal(r) == Ok(n);
        assert r in files + [raw];
      }
      if Normal(raw) == Ok(n) {
        assert raw in files + [raw];
      }
    }
  }

  /** Steps 1 and 2: forbidden rules first, the scope only for files that are not forbidden. */
  method CheckScope(glob: Glob, g: GateInput, normal: seq<string>) returns (findings: seq<Finding>)
    requires forall n :: n in normal <==> Touches(g.files, n)
    ensures Exactly(glob, g, findings, {ForbiddenPath, OutOfScope})
  {
    findings := [];
    for i := 0 to |normal|
      invariant forall f :: f in findings <==>
        f.kind in {ForbiddenPath, OutOfScope} && f.subject in normal[..i] && Raised(glob, g, f)
    {
      var file := normal[i];
      assert file in normal;
      assert normal[..i + 1] == normal[..i] + [file];
      if MatchesAny(glob, file, g.contract.forbidden) {
        findings := findings + [Raise(ForbiddenPath, file)];
        continue;
      }
      if Scoped(g.contract) && !MatchesAny(glob, file, g.contract.allowed) {
        findings := findings + [Raise(OutOfScope, file)];
      }
    }
    assert normal[..|normal|] == normal;
  }

  method Report(kind: FindingType, subjects: seq<string>) returns (findings: seq<Finding>)
    ensures forall f :: f in findings <==> f.kind == kind && f.severity == SeverityOf(kind) && f.subject in subjects
  {
    findings := [];
    for i := 0 to |subjects|
      invariant forall f :: f in findings <==> f.kind == kind && f.severity == SeverityOf(kind) && f.subject in subjects[..i]
    {
      assert subjects[..i + 1] == subjects[..i] + [subjects[i]];
      findings := findings + [Raise(kind, subjects[i])];
    }
    assert subjects[..|subjects|] == subjects;
  }

  /** Step 3: dependency files without explicit approval, each once, in sorted order. */
  method CheckDependencies(glob: Glob, g: GateInput, normal: seq<string>) returns (findings: seq<Finding>)
    requires forall n :: n in normal <==> Touches(g.files, n)
    ensures Exactly(glob, g, findings, {DependencyChange})
  {
    findings := [];
    if DependenciesNeedApproval(g.contract) {
      var touched := (set f | f in g.dependencyFiles) + (set f | f in normal && IsDependencyFile(f));
      findings := Report(DependencyChange, SortedOf(touched));
    }
  }

  /** Passes 1 and 2: count every valid id, even on a malformed record; more than one is ambiguous. */
  method CountIds(evidence: seq<Evidence>) returns (duplicates: set<string>)
    ensures forall id :: id in duplicates <==> Duplicated(evidence, id)
  {
    var counts: map<string, nat> := map[];
    for i := 0 to |evidence|
      invariant forall id :: id in counts <==> IsEvidenceId(id) && IdCount(evidence[..i], id) > 0
      invariant forall id :: id in counts ==> counts[id] == IdCount(evidence[..i], id)
    {
      var eid := evidence[i].id;
      IdCountSnoc(evidence[..i], evidence[i]);
      assert evidence[..i + 1] == evidence[..i] + [evidence[i]];
      if IsEvidenceId(eid) {
        counts := counts[eid := (if eid in counts then counts[eid] else 0) + 1];
      }
    }
    assert evidence[..|evidence|] == evidence;
    duplicates := set id | id in counts && counts[id] > 1;
  }

  lemma {:induction false} IdCountSnoc(evidence: seq<Evidence>, ev: Evidence)
    ensures forall id :: IdCount(evidence + [ev], id) == IdCount(evidence, id) + if ev.id == id then 1 else 0
  {
    if evidence == [] {
      assert [] + [ev] == [ev] && [ev][1..] == [];
    } else {
      IdCountSnoc(evidence[1..], ev);
      assert (evidence + [ev])[1..] == evidence[1..] + [ev];
    }
  }

  function IsUsable(): Evidence -> bool {
    (ev: Evidence) => WellFormed(ev)
  }

  /** Keep the good records in order and report each of the others. */
  method Sift(evidence: seq<Evidence>, good: Evidence -> bool, report: Finding)
    returns (usable: seq<Evidence>, findings: seq<Finding>)
    ensures forall ev :: ev in usable <==> ev in evidence && good(ev)
    ensures forall f :: f in findings <==> f == report && exists ev :: ev in evidence && !good(ev)
  {
    usable, findings := [], [];
    for i := 0 to |evidence|
      invariant forall ev :: ev in usable <==> ev in evidence[..i] && good(ev)
      invariant forall f :: f in findings <==> f == report && exists ev :: ev in evidence[..i] && !good(ev)
    {
      var ev := evidence[i];
      assert evidence[..i + 1] == evidence[..i] + [ev];
      assert ev in evidence[..i + 1];
      if !good(ev) {
        findings := findings + [report];
        continue;
      }
      usable := usable + [ev];
    }
    assert evidence[..|evidence|] == evidence;
  }

  /** Pass 3: malformed records are reported and excluded. */
  method ValidateEvidence(glob: Glob, g: GateInput) returns (usable: seq<Evidence>, findings: seq<Finding>)
    ensures forall ev :: ev in usable <==> ev in g.evidence && WellFormed(ev)
    ensures Exactly(glob, g, findings, {InvalidEvidence})
  {
    usable, findings := Sift(g.evidence, IsUsable(), Raise(InvalidEvidence, ""));
    SiftedMalformed(g.evidence);
  }

  lemma SiftedMalformed(evidence: seq<Evidence>)
    ensures (exists ev :: ev in evidence && !IsUsable()(ev)) <==> exists ev :: ev in evidence && !WellFormed(ev)
  {
    if ev :| ev in evidence && !WellFormed(ev) {
      assert !IsUsable()(ev);
    }
  }

  /** `_normalize_command`: equal exactly when the words are. */
  lemma SameCommand(a: string, b: string)
    ensures Join(Words(a), " ") == Join(Words(b), " ") <==> Words(a) == Words(b)
  {
    WordsOfJoin(Words(a));
    WordsOfJoin(Words(b));
  }

  /** One record against one requirement: an unambiguous id, the same command, a trustworthy result. */
  lemma RecordProves(g: GateInput, ev: Evidence, required: string)
    requires ev in g.evidence && WellFormed(ev)
    ensures Proves(g, ev, required) <==>
      && !Duplicated(g.evidence, ev.id) && Join(Words(ev.command), " ") == Join(Words(required), " ")
      && Trustworthy(ev, g.expected)
  {
    IdCounted(g.evidence, ev);
    SameCommand(ev.command, required);
  }

  /** The test of pass 4: an id that is no duplicate, the same normalised command, a trustworthy result. */
  function Accepts(duplicates: set<string>, required: string, expected: string): Evidence -> bool {
    (ev: Evidence) =>
      && ev.id !in duplicates && Join(Words(ev.command), " ") == Join(Words(required), " ")
      && Trustworthy(ev, expected)
  }

  /** Look for the first record that passes the test. */
  method FindAccepted(usable: seq<Evidence>, accepts: Evidence -> bool) returns (found: bool)
    ensures found <==> exists ev :: ev in usable && accepts(ev)
  {
    for i := 0 to |usable|
      invariant forall j :: 0 <= j < i ==> !accepts(usable[j])
    {
      if accepts(usable[i]) {
        return true;
      }
    }
    found := false;
  }

  /** Pass 4 for one requirement: look for a trustworthy record with an unambiguous id. */
  method IsSatisfied(g: GateInput, usable: seq<Evidence>, duplicates: set<string>, required: string)
    returns (satisfied: bool)
    requires forall ev :: ev in usable <==> ev in g.evidence && WellFormed(ev)
    requires forall id :: id in duplicates <==> Duplicated(g.evidence, id)
    ensures satisfied <==> Proven(g, required)
  {
    satisfied := FindAccepted(usable, Accepts(duplicates, required, g.expected));
    AcceptedProves(g, usable, duplicates, required);
  }

  lemma AcceptedProves(g: GateInput, usable: seq<Evidence>, duplicates: set<string>, required: string)
    requires forall ev :: ev in usable <==> ev in g.evidence && WellFormed(ev)
    requires forall id :: id in duplicates <==> Duplicated(g.evidence, id)
    ensures (exists ev :: ev in usable && Accepts(duplicates, required, g.expected)(ev)) <==> Proven(g, required)
  {
    var accepts := Accepts(duplicates, required, g.expected);
    if ev :| ev in usable && accepts(ev) {
      RecordProves(g, ev, required);
    }
    if Proven(g, required) {
      var ev :| Proves(g, ev, required);
      RecordProves(g, ev, required);
      assert ev in usable && accepts(ev);
    }
  }

  lemma {:induction false} IdCounted(evidence: seq<Evidence>, ev: Evidence)
    requires ev in evidence
    ensures IdCount(evidence, ev.id) >= 1
  {
    if evidence[0] != ev {
      IdCounted(evidence[1..], ev);
    }
  }

  /** Steps 4 and 5: the requirements that are proven and those that are not. */
  method MatchEvidence(glob: Glob, g: GateInput, usable: seq<Evidence>, duplicates: set<string>)
    returns (matched: seq<string>, missing: seq<string>, findings: seq<Finding>)
    requires forall ev :: ev in usable <==> ev in g.evidence && WellFormed(ev)
    requires forall id :: id in duplicates <==> Duplicated(g.evidence, id)
    ensures matched == Select(g.contract.required, ProvenIn(g))
    ensures missing == Select(g.contract.required, UnprovenIn(g))
    ensures Exactly(glob, g, findings, {MissingEvidence})
  {
    var required := g.contract.required;
    matched, missing := [], [];
    for i := 0 to |required|
      invariant matched == Select(required[..i], ProvenIn(g))
      invariant missing == Select(required[..i], UnprovenIn(g))
    {
      assert required[..i + 1] == required[..i] + [required[i]];
      SelectSnoc(required[..i], required[i], ProvenIn(g));
      SelectSnoc(required[..i], required[i], UnprovenIn(g));
      var satisfied := IsSatisfied(g, usable, duplicates, required[i]);
      if satisfied {
        matched := matched + [required[i]];
      } else {
        missing := missing + [required[i]];
      }
    }
    assert required[..|required|] == required;
    findings := Report(MissingEvidence, missing);
    SelectMembers(required, UnprovenIn(g));
  }

  lemma Joined(glob: Glob, g: GateInput, a: seq<Finding>, b: seq<Finding>, kinds: set<FindingType>, more: set<FindingType>)
    requires Exactly(glob, g, a, kinds) && Exactly(glob, g, b, more)
    ensures Exactly(glob, g, a + b, kinds + more)
  {
  }

  /** A finding about the whole input. */
  method ReportIf(glob: Glob, g: GateInput, kind: FindingType, raised: bool) returns (findings: seq<Finding>)
    requires raised <==> Found(glob, g, kind, "")
    requires forall subject :: Found(glob, g, kind, subject) ==> subject == ""
    ensures Exactly(glob, g, findings, {kind})
  {
    findings := if raised then [Raise(kind, "")] else [];
  }

  method CheckDuplicates(glob: Glob, g: GateInput, duplicates: set<string>) returns (findings: seq<Finding>)
    requires forall id :: id in duplicates <==> Duplicated(g.evidence, id)
    ensures Exactly(glob, g, findings, {DuplicateEvidenceId})
  {
    findings := Report(DuplicateEvidenceId, SortedOf(duplicates));
  }

  method FindPathIssues(glob: Glob, g: GateInput) returns (findings: seq<Finding>)
    ensures Exactly(glob, g, findings, {InvalidChangedPath} + {NoChangedFiles} + {ForbiddenPath, OutOfScope} + {DependencyChange})
  {
    var normal, invalid := CollectPaths(glob, g);
    var none := ReportIf(glob, g, NoChangedFiles, g.files == []);
    var scope := CheckScope(glob, g, normal);
    var dependencies := CheckDependencies(glob, g, normal);
    Joined(glob, g, invalid, none, {InvalidChangedPath}, {NoChangedFiles});
    Joined(glob, g, invalid + none, scope, {InvalidChangedPath} + {NoChangedFiles}, {ForbiddenPath, OutOfScope});
    Joined(glob, g, invalid + none + scope, dependencies,
           {InvalidChangedPath} + {NoChangedFiles} + {ForbiddenPath, OutOfScope}, {DependencyChange});
    findings := invalid + none + scope + dependencies;
  }

  method FindEvidenceIssues(glob: Glob, g: GateInput)
    returns (matched: seq<string>, missing: seq<string>, findings: seq<Finding>)
    ensures matched == Select(g.contract.required, ProvenIn(g))
    ensures missing == Select(g.contract.required, UnprovenIn(g))
    ensures Exactly(glob, g, findings, {InvalidEvidence} + {DuplicateEvidenceId} + {MissingEvidence} + {NoEvidence})
  {
    var duplicates := CountIds(g.evidence);
    var usable, invalid := ValidateEvidence(glob, g);
    var ambiguous := CheckDuplicates(glob, g, duplicates);
    var lacking;
    matched, missing, lacking := MatchEvidence(glob, g, usable, duplicates);
    var none := ReportIf(glob, g, NoEvidence, g.evidence == [] && g.contract.required == []);
    Joined(glob, g, invalid, ambiguous, {InvalidEvidence}, {DuplicateEvidenceId});
    Joined(glob, g, invalid + ambiguous, lacking, {InvalidEvidence} + {DuplicateEvidenceId}, {MissingEvidence});
    Joined(glob, g, invalid + ambiguous + lacking, none,
           {InvalidEvidence} + {DuplicateEvidenceId} + {MissingEvidence}, {NoEvidence});
    findings := invalid + ambiguous + lacking + none;
  }

  method EvaluateChangeGate(glob: Glob, g: GateInput) returns (d: Decision)
    ensures IsDecision(glob, g, d)
  {
    var paths := FindPathIssues(glob, g);
    var matched, missing, evidence := FindEvidenceIssues(glob, g);
    var findings := paths + evidence;
    AllKinds(glob, g, paths, evidence);
    var verdict :=
      if exists f: Finding :: f in findings && f.severity == Block then Blocked
      else if exists f: Finding :: f in findings && f.severity == Warning then ReviewRequired
      else Pass;
    VerdictFromFindings(glob, g, findings);
    d := Decision(verdict, findings, matched, missing, g.expected);
  }

  lemma AllKinds(glob: Glob, g: GateInput, paths: seq<Finding>, evidence: seq<Finding>)
    requires Exactly(glob, g, paths, {InvalidChangedPath} + {NoChangedFiles} + {ForbiddenPath, OutOfScope} + {DependencyChange})
    requires Exactly(glob, g, evidence, {InvalidEvidence} + {DuplicateEvidenceId} + {MissingEvidence} + {NoEvidence})
    ensures forall f :: f in paths + evidence <==> Raised(glob, g, f)
  {
  }

  lemma VerdictFromFindings(glob: Glob, g: GateInput, findings: seq<Finding>)
    requires forall f :: f in findings <==> Raised(glob, g, f)
    ensures (exists f: Finding :: f in findings && f.severity == Block) <==> Blocks(glob, g)
    ensures (exists f: Finding :: f in findings && f.severity == Warning) <==> Warns(glob, g)
  {
    forall kind, subject | Found(glob, g, kind, subject) ensures Raise(kind, subject) in findings {
    }
  }

  // --- A decision marked PASS ---

  datatype IntegrityError =
    | NotPass | SomethingMissing | NotMatched(required: string) | NothingMatched
    | BlockFinding(kind: FindingType) | WarningFinding(kind: FindingType) | Relabelled(kind: FindingType)

  /** Passing, nothing found, nothing missing, every requirement matched. */
  predicate Genuine(c: Contract, d: Decision) {
    d.verdict == Pass && d.findings == [] && d.missing == [] && forall r :: r in c.required ==> r in d.matched
  }

  /** `validate_change_gate_decision`: no finding type is informational, so every finding is an error. */
  method ValidateDecision(c: Contract, d: Decision) returns (errors: seq<IntegrityError>)
    ensures errors == [] <==> Genuine(c, d)
  {
    if d.verdict != Pass {
      return [NotPass];
    }
    errors := if d.missing != [] then [SomethingMissing] else [];
    for i := 0 to |c.required|
      invariant errors == [] <==> d.missing == [] && forall j :: 0 <= j < i ==> c.required[j] in d.matched
    {
      if c.required[i] !in d.matched {
        errors := errors + [NotMatched(c.required[i])];
      }
    }
    if c.required != [] && d.matched == [] {
      assert c.required[0] !in d.matched;
      errors := errors + [NothingMatched];
    }
    ghost var before := errors;
    for i := 0 to |d.findings|
      invariant errors == [] <==> before == [] && i == 0
    {
      var f := d.findings[i];
      if f.severity == Block {
        errors := errors + [BlockFinding(f.kind)];
        continue;
      }
      if f.severity == Warning {
        errors := errors + [WarningFinding(f.kind)];
        continue;
      }
      errors := errors + [Relabelled(f.kind)];
    }
  }

  /** A passing evaluation found nothing, proved every requirement, and is genuine. */
  lemma PassMeaning(glob: Glob, g: GateInput, d: Decision)
    requires IsDecision(glob, g, d) && d.verdict == Pass
    ensures Genuine(g.contract, d) && d.matched == g.contract.required
    ensures forall r :: r in g.contract.required ==> Proven(g, r)
    ensures g.files != [] && forall raw :: raw in g.files ==> Normal(raw).Ok?
  {
    NothingRaised(glob, g);
    NonEmptyHasMember(d.findings);
    PassFacts(glob, g);
    SelectAll(g.contract.required, ProvenIn(g));
    SelectNone(g.contract.required, UnprovenIn(g));
  }

  lemma NothingRaised(glob: Glob, g: GateInput)
    requires VerdictOf(glob, g) == Pass
    ensures forall f :: !Raised(glob, g, f)
  {
    assert forall kind :: SeverityOf(kind) == Block || SeverityOf(kind) == Warning;
  }

  lemma PassFacts(glob: Glob, g: GateInput)
    requires VerdictOf(glob, g) == Pass
    ensures forall r :: r in g.contract.required ==> Proven(g, r)
    ensures g.files != [] && forall raw :: raw in g.files ==> Normal(raw).Ok?
  {
    assert !Found(glob, g, NoChangedFiles, "") by { assert SeverityOf(NoChangedFiles) == Warning; }
    forall r | r in g.contract.required ensures Proven(g, r) {
      assert SeverityOf(MissingEvidence) == Warning && !Found(glob, g, MissingEvidence, r);
    }
    forall raw | raw in g.files ensures Normal(raw).Ok? {
      assert SeverityOf(InvalidChangedPath) == Block && !Found(glob, g, InvalidChangedPath, raw);
    }
  }

  // --- What the decision does not depend on ---

  /** The canonical forms of the reported paths; None stands for a refused path. */
  function Outcomes(files: seq<string>): set<Option<string>> {
    set raw | raw in files :: match Normal(raw) case Ok(n) => Some(n) case Err(_) => None
  }

  /** The same change: files reordered, repeated or respelt, evidence reordered. */
  ghost predicate SameChange(g: GateInput, h: GateInput) {
    && g.contract == h.contract && g.expected == h.expected
    && Outcomes(g.files) == Outcomes(h.files)
    && (forall f :: f in g.dependencyFiles <==> f in h.dependencyFiles)
    && multiset(g.evidence) == multiset(h.evidence)
  }

  lemma OutcomesMeaning(files: seq<string>)
    ensures forall n :: Some(n) in Outcomes(files) <==> Touches(files, n)
    ensures None in Outcomes(files) <==> exists raw :: raw in files && Normal(raw).Err?
    ensures Outcomes(files) == {} <==> files == []
  {
    forall raw | raw in files
      ensures match Normal(raw) case Ok(n) => Some(n) in Outcomes(files) case Err(_) => None in Outcomes(files)
    {
    }
    if files != [] {
      assert files[0] in files;
    }
  }

  lemma {:induction false} IdCountOfMultiset(a: seq<Evidence>, b: seq<Evidence>, id: string)
    requires multiset(a) == multiset(b)
    ensures IdCount(a, id) == IdCount(b, id)
    decreases |a|
  {
    if a == [] {
      assert |multiset(b)| == 0;
    } else {
      assert a[0] in multiset(b);
      var k :| 0 <= k < |b| && b[k] == a[0];
      var rest := b[..k] + b[k + 1..];
      assert a == [a[0]] + a[1..] && b == b[..k] + [b[k]] + b[k + 1..];
      WithoutOne(a[0], a[1..], b[..k], b[k + 1..]);
      IdCountOfMultiset(a[1..], rest, id);
      IdCountSplit(b[..k], b[k], b[k + 1..], id);
    }
  }

  lemma WithoutOne(x: Evidence, a: seq<Evidence>, b: seq<Evidence>, c: seq<Evidence>)
    requires multiset([x] + a) == multiset(b + [x] + c)
    ensures multiset(a) == multiset(b + c)
  {
    assert multiset([x] + a) == multiset{x} + multiset(a);
    assert multiset(b + [x] + c) == multiset{x} + multiset(b + c);
    assert multiset(a) == multiset([x] + a) - multiset{x};
  }

  lemma {:induction false} IdCountSplit(a: seq<Evidence>, ev: Evidence, b: seq<Evidence>, id: string)
    ensures IdCount(a + [ev] + b, id) == IdCount(a + b, id) + if ev.id == id then 1 else 0
  {
    if a == [] {
      assert a + [ev] + b == [ev] + b && ([ev] + b)[1..] == b && a + b == b;
    } else {
      IdCountSplit(a[1..], ev, b, id);
      assert (a + [ev] + b)[1..] == a[1..] + [ev] + b && (a + b)[1..] == a[1..] + b;
    }
  }

  lemma SameEvidence(g: GateInput, h: GateInput)
    requires SameChange(g, h)
    ensures forall ev :: ev in g.evidence <==> ev in h.evidence
    ensures forall id :: IdCount(g.evidence, id) == IdCount(h.evidence, id)
    ensures g.evidence == [] <==> h.evidence == []
    ensures forall r :: Proven(g, r) <==> Proven(h, r)
  {
    forall ev ensures ev in g.evidence <==> ev in h.evidence {
      assert ev in g.evidence <==> ev in multiset(g.evidence);
    }
    forall id ensures IdCount(g.evidence, id) == IdCount(h.evidence, id) {
      IdCountOfMultiset(g.evidence, h.evidence, id);
    }
    assert |multiset(g.evidence)| == |multiset(h.evidence)|;
    forall r ensures Proven(g, r) <==> Proven(h, r) {
      assert forall ev :: Proves(g, ev, r) <==> Proves(h, ev, r);
    }
  }

  lemma SameFindings(glob: Glob, g: GateInput, h: GateInput, kind: FindingType, subject: string)
    requires SameChange(g, h) && kind != InvalidChangedPath
    ensures Found(glob, g, kind, subject) <==> Found(glob, h, kind, subject)
  {
    SameEvidence(g, h);
    OutcomesMeaning(g.files);
    OutcomesMeaning(h.files);
    assert Touches(g.files, subject) <==> Touches(h.files, subject);
  }

  lemma InvalidPathCarried(glob: Glob, g: GateInput, h: GateInput, subject: string)
    requires SameChange(g, h) && Found(glob, g, InvalidChangedPath, subject)
    ensures exists other :: Found(glob, h, InvalidChangedPath, other)
  {
    OutcomesMeaning(g.files);
    OutcomesMeaning(h.files);
    var other :| other in h.files && Normal(other).Err?;
    assert Found(glob, h, InvalidChangedPath, other);
  }

  lemma BlocksCarried(glob: Glob, g: GateInput, h: GateInput)
    requires SameChange(g, h) && Blocks(glob, g)
    ensures Blocks(glob, h)
  {
    var kind, subject :| SeverityOf(kind) == Block && Found(glob, g, kind, subject);
    if kind == InvalidChangedPath {
      InvalidPathCarried(glob, g, h, subject);
    } else {
      SameFindings(glob, g, h, kind, subject);
    }
  }

  lemma WarnsCarried(glob: Glob, g: GateInput, h: GateInput)
    requires SameChange(g, h) && Warns(glob, g)
    ensures Warns(glob, h)
  {
    var kind, subject :| SeverityOf(kind) == Warning && Found(glob, g, kind, subject);
    SameFindings(glob, g, h, kind, subject);
  }

  /** The decision, the matched and the missing evidence are those of the change, not of its presentation. */
  lemma PresentationIrrelevant(glob: Glob, g: GateInput, h: GateInput, d: Decision, e: Decision)
    requires SameChange(g, h) && IsDecision(glob, g, d) && IsDecision(glob, h, e)
    ensures d.verdict == e.verdict && d.matched == e.matched && d.missing == e.missing
    ensures forall f: Finding :: f.kind != InvalidChangedPath ==> (f in d.findings <==> f in e.findings)
  {
    assert SameChange(h, g);
    if Blocks(glob, g) { BlocksCarried(glob, g, h); }
    if Blocks(glob, h) { BlocksCarried(glob, h, g); }
    if Warns(glob, g) { WarnsCarried(glob, g, h); }
    if Warns(glob, h) { WarnsCarried(glob, h, g); }
    SameEvidence(g, h);
    SelectCongruent(g.contract.required, ProvenIn(g), ProvenIn(h));
    SelectCongruent(g.contract.required, UnprovenIn(g), UnprovenIn(h));
    forall f: Finding | f.kind != InvalidChangedPath ensures f in d.findings <==> f in e.findings {
      SameFindings(glob, g, h, f.kind, f.subject);
    }
  }

  // --- What the id pattern lets through ---

  /** An accepted id is of the promised grammar exactly when it does not end in a line feed. */
  lemma PrintableExactly(s: string)
    requires IsEvidenceId(s)
    ensures IsPrintableId(s) <==> !EndsInLineFeed(s)
    ensures IsPrintableId(Core(s))
  {
    if EndsInLineFeed(s) {
      assert s[|s| - 1] in s;
    }
  }

  /** Two accepted ids that print alike are one id exactly when both or neither ends in a line feed. */
  lemma PrintedAlike(a: string, b: string)
    requires IsEvidenceId(a) && IsEvidenceId(b) && Core(a) == Core(b)
    ensures a == b <==> (EndsInLineFeed(a) <==> EndsInLineFeed(b))
  {
    if EndsInLineFeed(a) && EndsInLineFeed(b) {
      assert a == Core(a) + "\n" && b == Core(b) + "\n";
    }
  }

  lemma LineFeedAccepted(id: string)
    requires IsPrintableId(id)
    ensures IsEvidenceId(id) && IsEvidenceId(id + "\n") && Core(id + "\n") == id && Strip(id + "\n") != ""
  {
    var longer := id + "\n";
    assert longer[..|longer| - 1] == id;
    assert id[0] in id && id[|id| - 1] in id;
    var i, j := StripSlice(longer);
    assert !IsSpace(longer[0]);
  }

  /** An accepted id outside the grammar. */
  lemma LineFeedExample()
    ensures IsEvidenceId("a\n") && !IsPrintableId("a\n")
  {
    LineFeedAccepted("a");
    assert "a" + "\n" == "a\n" && EndsInLineFeed("a\n");
    PrintableExactly("a\n");
  }

  lemma {:induction false} IdCountOthers(evidence: seq<Evidence>, id: string)
    requires forall ev :: ev in evidence ==> ev.id != id
    ensures IdCount(evidence, id) == 0
  {
    if evidence != [] {
      IdCountOthers(evidence[1..], id);
    }
  }

  /** A copy of a record under the same printed id: the copy is well-formed, no id becomes a duplicate, and
      whatever the record proves is then proved by both, each as the only record of its id. */
  lemma TwinUnnoticed(g: GateInput, ev: Evidence, required: string)
    requires Proves(g, ev, required) && IsPrintableId(ev.id)
    requires forall other :: other in g.evidence ==> other.id != ev.id + "\n"
    ensures var twin := ev.(id := ev.id + "\n");
      var h := g.(evidence := g.evidence + [twin]);
      && WellFormed(twin) && Proves(h, ev, required) && Proves(h, twin, required)
      && forall id :: Duplicated(h.evidence, id) <==> Duplicated(g.evidence, id)
  {
    var twin := ev.(id := ev.id + "\n");
    LineFeedAccepted(ev.id);
    IdCountSnoc(g.evidence, twin);
    IdCountOthers(g.evidence, twin.id);
    assert twin in g.evidence + [twin] && ev in g.evidence + [twin];
    assert twin.id != ev.id;
  }

  /** How many records print this id. */
  function PrintedCount(evidence: seq<Evidence>, id: string): nat {
    if evidence == [] then 0
    else (if Core(evidence[0].id) == Core(id) then 1 else 0) + PrintedCount(evidence[1..], id)
  }

  lemma {:induction false} PrintedAtLeast(evidence: seq<Evidence>, id: string)
    ensures IdCount(evidence, id) <= PrintedCount(evidence, id)
  {
    if evidence != [] {
      PrintedAtLeast(evidence[1..], id);
    }
  }

  /** The gate counts printed ids correctly exactly when no record prints the id alike under another spelling. */
  lemma {:induction false} CountedAsPrinted(evidence: seq<Evidence>, id: string)
    ensures IdCount(evidence, id) == PrintedCount(evidence, id) <==>
      forall ev :: ev in evidence && Core(ev.id) == Core(id) ==> ev.id == id
  {
    if evidence != [] {
      CountedAsPrinted(evidence[1..], id);
      PrintedAtLeast(evidence[1..], id);
      assert forall ev :: ev in evidence <==> ev == evidence[0] || ev in evidence[1..];
    }
  }

  // --- The rules, in terms of paths, records and the contract ---

  /** A pattern that ends in a slash and two stars matches its directory and whatever lies below; others are `glob`'s. */
  lemma PatternExactly(glob: Glob, file: string, dir: string, other: string)
    ensures PathMatches(glob, file, dir + "/**") <==> file == dir || exists rest :: file == dir + "/" + rest
    ensures !(|other| >= 3 && other[|other| - 3..] == "/**") ==> (PathMatches(glob, file, other) <==> glob(file, other))
  {
    var pattern := dir + "/**";
    assert pattern[..|pattern| - 3] == dir && pattern[|pattern| - 3..] == "/**";
    if dir + "/" <= file {
      assert file == dir + "/" + file[|dir| + 1..];
    }
  }

  predicate DependencyName(name: string) {
    || name == "requirements.txt" || name == "pyproject.toml" || name == "poetry.lock" || name == "package.json"
    || name == "package-lock.json" || name == "pnpm-lock.yaml" || name == "yarn.lock"
  }

  lemma DependencyNames(name: string)
    ensures name in DEPENDENCY_FILES <==> DependencyName(name)
  {
  }

  /** A canonical path is a dependency file exactly when its last segment is one of seven names. */
  lemma DependencyExactly(segs: seq<string>)
    requires segs != [] && forall seg :: seg in segs ==> CleanSegment(seg)
    ensures IsDependencyFile(Join(segs, "/")) <==> DependencyName(segs[|segs| - 1])
  {
    LastSegment(segs, Join(segs, "/"));
    DependencyNames(segs[|segs| - 1]);
  }

  lemma LastSegment(segs: seq<string>, file: string)
    requires segs != [] && (forall seg :: seg in segs ==> CleanSegment(seg)) && file == Join(segs, ['/'])
    ensures IsDependencyFile(file) <==> segs[|segs| - 1] in DEPENDENCY_FILES
  {
    SplitOfJoin(segs, '/');
  }

  predicate HasText(s: string) {
    exists i :: 0 <= i < |s| && !IsSpace(s[i])
  }

  lemma TextExactly(s: string)
    ensures HasText(s) <==> Strip(s) != ""
  {
    var i, j := StripSlice(s);
    if i < j {
      assert s[i..j][0] == s[i];
    }
  }

  /** What a well-formed record is: a command, a commit and an id, and no blank optional field. */
  lemma WellFormedExactly(ev: Evidence)
    ensures WellFormed(ev) <==>
      && HasText(ev.command) && HasText(ev.commit)
      && (IsPrintableId(ev.id) || exists id :: ev.id == id + "\n" && IsPrintableId(id))
      && (ev.completedAt == None || HasText(ev.completedAt.value))
      && (ev.artifactDigest == None || HasText(ev.artifactDigest.value))
  {
    TextExactly(ev.command);
    TextExactly(ev.commit);
    if ev.completedAt.Some? { TextExactly(ev.completedAt.value); }
    if ev.artifactDigest.Some? { TextExactly(ev.artifactDigest.value); }
    IdExactly(ev.id);
    if IsEvidenceId(ev.id) { IdHasText(ev.id); }
    TextExactly(ev.id);
  }

  lemma CoreOfLine(id: string)
    ensures Core(id + "\n") == id
  {
  }

  lemma PrintableHasNoFeed(s: string)
    requires IsPrintableId(s)
    ensures Core(s) == s
  {
    assert s[|s| - 1] in s;
  }

  lemma IdExactly(s: string)
    ensures IsEvidenceId(s) <==> IsPrintableId(s) || exists id :: s == id + "\n" && IsPrintableId(id)
  {
    if EndsInLineFeed(s) {
      assert s == Core(s) + "\n";
    }
    if IsPrintableId(s) {
      PrintableHasNoFeed(s);
    }
    if id :| s == id + "\n" && IsPrintableId(id) {
      CoreOfLine(id);
    }
  }

  lemma IdHasText(s: string)
    requires IsEvidenceId(s)
    ensures HasText(s)
  {
    assert Core(s)[0] == s[0];
  }

  /** Something blocks the change: a refused path, a forbidden file, a malformed record or an ambiguous id. */
  ghost predicate SomethingBlocks(glob: Glob, g: GateInput) {
    || (exists raw :: raw in g.files && Normal(raw).Err?)
    || (exists file :: Touches(g.files, file) && MatchesAny(glob, file, g.contract.forbidden))
    || (exists ev :: ev in g.evidence && !WellFormed(ev))
    || (exists id :: IsEvidenceId(id) && IdCount(g.evidence, id) >= 2)
  }

  /** A file that is neither forbidden nor allowed, under a contract that limits its scope. */
  predicate Strays(glob: Glob, c: Contract, file: string) {
    && c.allowed != [] && !c.broadScope
    && !MatchesAny(glob, file, c.forbidden) && !MatchesAny(glob, file, c.allowed)
  }

  /** Something needs a review: nothing reported, a file out of scope, a dependency change, or evidence lacking. */
  ghost predicate SomethingWarns(glob: Glob, g: GateInput) {
    || g.files == []
    || (exists file :: Touches(g.files, file) && Strays(glob, g.contract, file))
    || ("dependency_change" in g.contract.approvalFor
        && (g.dependencyFiles != [] || exists file :: Touches(g.files, file) && IsDependencyFile(file)))
    || (exists required :: required in g.contract.required && !Proven(g, required))
    || (g.evidence == [] && g.contract.required == [])
  }

  lemma BlocksExactly(glob: Glob, g: GateInput)
    ensures Blocks(glob, g) <==> SomethingBlocks(glob, g)
  {
    if kind, subject :| SeverityOf(kind) == Block && Found(glob, g, kind, subject) {
      match kind {
        case InvalidChangedPath => assert subject in g.files && Normal(subject).Err?;
        case ForbiddenPath => assert Touches(g.files, subject) && MatchesAny(glob, subject, g.contract.forbidden);
        case InvalidEvidence =>
        case DuplicateEvidenceId => assert IdCount(g.evidence, subject) >= 2;
        case _ =>
      }
    }
    if raw :| raw in g.files && Normal(raw).Err? {
      assert Found(glob, g, InvalidChangedPath, raw) && SeverityOf(InvalidChangedPath) == Block;
    } else if file :| Touches(g.files, file) && MatchesAny(glob, file, g.contract.forbidden) {
      assert Found(glob, g, ForbiddenPath, file) && SeverityOf(ForbiddenPath) == Block;
    } else if ev :| ev in g.evidence && !WellFormed(ev) {
      assert Found(glob, g, InvalidEvidence, "") && SeverityOf(InvalidEvidence) == Block;
    } else if id :| IsEvidenceId(id) && IdCount(g.evidence, id) >= 2 {
      assert Found(glob, g, DuplicateEvidenceId, id) && SeverityOf(DuplicateEvidenceId) == Block;
    }
  }

  lemma WarnsExactly(glob: Glob, g: GateInput)
    ensures Warns(glob, g) <==> SomethingWarns(glob, g)
  {
    if kind, subject :| SeverityOf(kind) == Warning && Found(glob, g, kind, subject) {
      match kind {
        case OutOfScope => assert Touches(g.files, subject) && Strays(glob, g.contract, subject);
        case DependencyChange => assert subject in g.dependencyFiles || (Touches(g.files, subject) && IsDependencyFile(subject));
        case MissingEvidence => assert subject in g.contract.required && !Proven(g, subject);
        case NoChangedFiles =>
        case NoEvidence =>
        case _ =>
      }
    }
    if SomethingWarns(glob, g) {
      WarningFound(glob, g);
    }
  }

  lemma WarningFound(glob: Glob, g: GateInput)
    requires SomethingWarns(glob, g)
    ensures Warns(glob, g)
  {
    if g.files == [] {
      assert Found(glob, g, NoChangedFiles, "") && SeverityOf(NoChangedFiles) == Warning;
    } else if file :| Touches(g.files, file) && Strays(glob, g.contract, file) {
      assert Found(glob, g, OutOfScope, file) && SeverityOf(OutOfScope) == Warning;
    } else if required :| required in g.contract.required && !Proven(g, required) {
      assert Found(glob, g, MissingEvidence, required) && SeverityOf(MissingEvidence) == Warning;
    } else if g.evidence == [] && g.contract.required == [] {
      assert Found(glob, g, NoEvidence, "") && SeverityOf(NoEvidence) == Warning;
    } else if g.dependencyFiles != [] {
      assert Found(glob, g, DependencyChange, g.dependencyFiles[0]) && SeverityOf(DependencyChange) == Warning;
    } else {
      var file :| Touches(g.files, file) && IsDependencyFile(file);
      assert Found(glob, g, DependencyChange, file) && SeverityOf(DependencyChange) == Warning;
    }
  }

  /** The decision: blocked exactly when something blocks, under review exactly when nothing blocks and something warns. */
  lemma DecisionExactly(glob: Glob, g: GateInput, d: Decision)
    requires IsDecision(glob, g, d)
    ensures d.verdict == if SomethingBlocks(glob, g) then Blocked else if SomethingWarns(glob, g) then ReviewRequired else Pass
    ensures forall f :: f in d.findings ==>
      f.severity == if f.kind in {InvalidChangedPath, ForbiddenPath, InvalidEvidence, DuplicateEvidenceId} then Block else Warning
  {
    BlocksExactly(glob, g);
    WarnsExactly(glob, g);
  }
}

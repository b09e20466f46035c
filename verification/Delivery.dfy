/**
 The process guard and the next-action cascade (agent_core/build_harness/process_guard.py and
 next_action.py), joined with the change gate and the task state machine.
 */
module Delivery {
  import opened Wrappers
  import G = ChangeGate
  import T = TaskFlow

  datatype Report = Report(taskId: string, role: string, status: string, result: string, parseOk: bool)

  datatype IntendedAction = Continue | Merge | Push | Deploy | Finish

  /** `action` is None when the intended action is not a known one. */
  datatype GuardInput = GuardInput(
    contract: G.Contract, state: T.TaskState, implementer: Option<Report>, verifier: Option<Report>,
    gate: Option<G.Decision>, approved: bool, action: Option<IntendedAction>)

  datatype Step =
    | ValidAction | TrustedImplementer | TrustedVerifier | FixAndReverify | ValidState | ImplementerPass | VerifierPass
    | GatePass | GenuineGate | HumanApproval

  datatype GuardDecision = GuardDecision(verdict: G.Verdict, missing: seq<Step>)

  const IMPLEMENTER := "implementer"
  const VERIFIER := "verifier"
  const PASS := "PASS"
  const NEEDS_FIX := "NEEDS_FIX"
  const BLOCKED := "BLOCKED"

  /** `is_allowed_status_result` for the two roles that own a report slot. */
  predicate Allowed(role: string, status: string, result: string) {
    if role == IMPLEMENTER then (status, result) in {("IMPLEMENTED", PASS), (BLOCKED, BLOCKED)}
    else if role == VERIFIER then (status, result) in {("VERIFIED_PASS", PASS), (NEEDS_FIX, NEEDS_FIX), (BLOCKED, BLOCKED)}
    else false
  }

  /** `_report_identity_error` is None. */
  predicate Trusted(report: Option<Report>, c: G.Contract, role: string) {
    report.Some? ==>
      var r := report.value;
      r.parseOk && r.taskId == c.taskId && r.role == role && Allowed(r.role, r.status, r.result)
  }

  predicate Says(report: Option<Report>, result: string) {
    report.Some? && report.value.result == result
  }

  /** A parsed report for this task in its own slot, with an allowed status and the result PASS. */
  predicate Passed(report: Option<Report>, c: G.Contract, role: string) {
    report.Some? && Trusted(report, c, role) && Says(report, PASS)
  }

  predicate Ships(action: IntendedAction) {
    action != Continue
  }

  function ShipStates(action: IntendedAction): set<T.TaskState> {
    match action
    case Merge => {T.ReadyForMerge, T.Approved}
    case Push => {T.Approved}
    case Deploy => {T.Approved}
    case Finish => {T.Approved, T.Done}
    case Continue => {}
  }

  predicate GatePassed(gi: GuardInput) {
    gi.gate.Some? && gi.gate.value.verdict == G.Pass
  }

  predicate GateTrusted(gi: GuardInput) {
    gi.gate.Some? && G.Genuine(gi.contract, gi.gate.value)
  }

  // --- What the guard's answers mean ---

  /** No report in the way: both slots trusted, neither blocked, verification not failed. */
  predicate Assessable(gi: GuardInput) {
    && gi.action.Some?
    && Trusted(gi.implementer, gi.contract, IMPLEMENTER) && Trusted(gi.verifier, gi.contract, VERIFIER)
    && !Says(gi.implementer, BLOCKED) && !Says(gi.verifier, BLOCKED) && !Says(gi.verifier, NEEDS_FIX)
  }

  predicate StateAllows(gi: GuardInput) {
    gi.action.Some? && (Ships(gi.action.value) ==> gi.state in ShipStates(gi.action.value))
  }

  /** Reports, gate and state are in place; only the approval may be lacking. */
  predicate Prepared(gi: GuardInput) {
    && Passed(gi.implementer, gi.contract, IMPLEMENTER) && Passed(gi.verifier, gi.contract, VERIFIER)
    && GateTrusted(gi) && StateAllows(gi)
  }

  function GuardVerdict(gi: GuardInput): G.Verdict {
    if Prepared(gi) && gi.approved then G.Pass
    else if Assessable(gi) && (!Ships(gi.action.value) || (Prepared(gi) && gi.action.value in {Merge, Finish})) then G.ReviewRequired
    else G.Blocked
  }

  /** What the guard reports as missing once the reports are in order. */
  predicate Lacks(gi: GuardInput, step: Step) {
    match step
    case ValidState => !StateAllows(gi)
    case ImplementerPass => !Passed(gi.implementer, gi.contract, IMPLEMENTER)
    case VerifierPass => !Passed(gi.verifier, gi.contract, VERIFIER)
    case GatePass => !GatePassed(gi)
    case GenuineGate => GatePassed(gi) && !GateTrusted(gi)
    case HumanApproval => !gi.approved && gi.action.Some? && (Ships(gi.action.value) ==> Prepared(gi))
    case _ => false
  }

  /** The first obstacle of an input that cannot be assessed: an unknown action, then the two slots, then a blocked
      report, then a failed verification. A blocked report names no step. */
  function Obstacle(gi: GuardInput): seq<Step> {
    if gi.action.None? then [ValidAction]
    else if !Trusted(gi.implementer, gi.contract, IMPLEMENTER) then [TrustedImplementer]
    else if !Trusted(gi.verifier, gi.contract, VERIFIER) then [TrustedVerifier]
    else if Says(gi.implementer, BLOCKED) || Says(gi.verifier, BLOCKED) then []
    else [FixAndReverify]
  }

  ghost predicate IsGuardDecision(gi: GuardInput, d: GuardDecision) {
    && d.verdict == GuardVerdict(gi)
    && (Assessable(gi) ==> forall step :: step in d.missing <==> Lacks(gi, step))
    && (!Assessable(gi) ==> d.missing == Obstacle(gi))
  }

  method Outstanding(gi: GuardInput) returns (missing: seq<Step>)
    requires Assessable(gi)
    ensures forall step :: step in missing <==> step != HumanApproval && Lacks(gi, step)
  {
    missing := [];
    if Ships(gi.action.value) && gi.state !in ShipStates(gi.action.value) {
      missing := missing + [ValidState];
    }
    if !Says(gi.implementer, PASS) {
      missing := missing + [ImplementerPass];
    }
    if !Says(gi.verifier, PASS) {
      missing := missing + [VerifierPass];
    }
    if gi.gate.None? || gi.gate.value.verdict != G.Pass {
      missing := missing + [GatePass];
    } else {
      var errors := G.ValidateDecision(gi.contract, gi.gate.value);
      if errors != [] {
        missing := missing + [GenuineGate];
      }
    }
  }

  lemma NothingElseLacks(gi: GuardInput)
    requires Assessable(gi)
    ensures Prepared(gi) <==> forall step :: step != HumanApproval ==> !Lacks(gi, step)
  {
    if !Prepared(gi) {
      assert Lacks(gi, ValidState) || Lacks(gi, ImplementerPass) || Lacks(gi, VerifierPass) || Lacks(gi, GatePass)
          || Lacks(gi, GenuineGate);
    }
  }

  lemma NotAssessable(gi: GuardInput)
    requires !Assessable(gi)
    ensures GuardVerdict(gi) == G.Blocked
  {
  }

  method EvaluateProcessGuard(gi: GuardInput) returns (d: GuardDecision)
    ensures IsGuardDecision(gi, d)
  {
    if !Assessable(gi) {
      NotAssessable(gi);
    } else {
      NothingElseLacks(gi);
    }
    if gi.action.None? {
      return GuardDecision(G.Blocked, [ValidAction]);
    }
    if !Trusted(gi.implementer, gi.contract, IMPLEMENTER) {
      return GuardDecision(G.Blocked, [TrustedImplementer]);
    }
    if !Trusted(gi.verifier, gi.contract, VERIFIER) {
      return GuardDecision(G.Blocked, [TrustedVerifier]);
    }
    if Says(gi.implementer, BLOCKED) || Says(gi.verifier, BLOCKED) {
      return GuardDecision(G.Blocked, []);
    }
    if Says(gi.verifier, NEEDS_FIX) {
      return GuardDecision(G.Blocked, [FixAndReverify]);
    }
    var missing := Outstanding(gi);
    if Ships(gi.action.value) {
      if missing != [] {
        assert missing[0] in missing;
        return GuardDecision(G.Blocked, missing);
      }
      if gi.action.value in {Push, Deploy} && !gi.approved {
        return GuardDecision(G.Blocked, [HumanApproval]);
      }
      if !gi.approved {
        return GuardDecision(G.ReviewRequired, [HumanApproval]);
      }
      return GuardDecision(G.Pass, []);
    }
    if !gi.approved {
      missing := missing + [HumanApproval];
    }
    if missing != [] {
      assert missing[0] in missing;
      return GuardDecision(G.ReviewRequired, missing);
    }
    d := GuardDecision(G.Pass, []);
  }

  // --- The next action ---

  datatype NextAction =
    | SendToImplementer | SendToVerifier | SendFixPrompt | EscalateToHuman | RequestHumanReview
    | RequestHumanApproval | ReadyForMergeOrPush

  /** `_identity_error`: a parsed report of another task or role. */
  predicate Misplaced(report: Option<Report>, c: G.Contract, role: string) {
    report.Some? && report.value.parseOk && !(report.value.taskId == c.taskId && report.value.role == role)
  }

  /** `recommend_next_action`; `upper` is `str.upper`. */
  function Recommend(
      upper: string -> string, c: G.Contract, implementer: Option<Report>, verifier: Option<Report>,
      gate: Option<G.Decision>, guard: Option<GuardDecision>): NextAction
  {
    if Misplaced(implementer, c, IMPLEMENTER) || Misplaced(verifier, c, VERIFIER) then EscalateToHuman
    else if implementer.None? then SendToImplementer
    else if !implementer.value.parseOk || upper(implementer.value.result) == BLOCKED then EscalateToHuman
    else if verifier.Some? && upper(verifier.value.result) == NEEDS_FIX then SendFixPrompt
    else if verifier.None? then SendToVerifier
    else if gate.Some? && gate.value.verdict == G.Blocked then SendFixPrompt
    else if gate.Some? && gate.value.verdict == G.ReviewRequired then RequestHumanReview
    else if guard.Some? && guard.value.verdict == G.Blocked then RequestHumanReview
    else if guard.Some? && guard.value.verdict == G.ReviewRequired && HumanApproval in guard.value.missing
    then RequestHumanApproval
    else if guard.Some? && guard.value.verdict == G.Pass then ReadyForMergeOrPush
    else RequestHumanReview
  }

  function RecommendFor(upper: string -> string, gi: GuardInput, d: GuardDecision): NextAction {
    Recommend(upper, gi.contract, gi.implementer, gi.verifier, gi.gate, Some(d))
  }

  // --- Joined ---

  /** With the guard's decision on the same artifacts, release is recommended exactly when everything is in place. */
  lemma ReleaseExactly(upper: string -> string, gi: GuardInput, d: GuardDecision)
    requires upper(PASS) == PASS && IsGuardDecision(gi, d)
    ensures RecommendFor(upper, gi, d) == ReadyForMergeOrPush <==> Prepared(gi) && gi.approved
  {
  }

  predicate BothPassed(gi: GuardInput) {
    Passed(gi.implementer, gi.contract, IMPLEMENTER) && Passed(gi.verifier, gi.contract, VERIFIER)
  }

  /** When approval is requested: for merge and done when it alone is missing; for `continue` also while the gate
      decision is missing or not genuine. */
  lemma ApprovalExactly(upper: string -> string, gi: GuardInput, d: GuardDecision)
    requires upper(PASS) == PASS && IsGuardDecision(gi, d)
    ensures RecommendFor(upper, gi, d) == RequestHumanApproval <==>
      && gi.action.Some? && !gi.approved && BothPassed(gi)
      && (if gi.action == Some(Continue) then gi.gate.None? || gi.gate.value.verdict == G.Pass
          else gi.action.value in {Merge, Finish} && Prepared(gi))
  {
  }

  /** A requested approval is all that is missing exactly when the action ships or the gate decision is genuine. */
  lemma ApprovalAlone(upper: string -> string, gi: GuardInput, d: GuardDecision)
    requires upper(PASS) == PASS && IsGuardDecision(gi, d) && RecommendFor(upper, gi, d) == RequestHumanApproval
    ensures (forall step :: step in d.missing <==> step == HumanApproval) <==> Ships(gi.action.value) || GateTrusted(gi)
  {
    ApprovalExactly(upper, gi, d);
    NothingElseLacks(gi);
    if !GateTrusted(gi) {
      assert Lacks(gi, GatePass) || Lacks(gi, GenuineGate);
    }
  }

  /** If release is recommended in one task state, then in another exactly when the action is `continue` or ships from
      that state. */
  lemma ReleaseByState(
      upper: string -> string, gi: GuardInput, d: GuardDecision, state: T.TaskState, e: GuardDecision)
    requires upper(PASS) == PASS && IsGuardDecision(gi, d) && IsGuardDecision(gi.(state := state), e)
    requires RecommendFor(upper, gi, d) == ReadyForMergeOrPush
    ensures RecommendFor(upper, gi.(state := state), e) == ReadyForMergeOrPush <==>
      gi.action == Some(Continue) || state in ShipStates(gi.action.value)
  {
    ReleaseExactly(upper, gi, d);
    ReleaseExactly(upper, gi.(state := state), e);
  }

  /** A contract without demands, for the examples. */
  const PLAIN_CONTRACT := G.Contract("t", [], [], false, [], [])

  /** Both reports pass; the action is `continue` and the state DRAFT. */
  function Continuing(gate: Option<G.Decision>, approved: bool): GuardInput {
    GuardInput(PLAIN_CONTRACT, T.Draft, Some(Report("t", IMPLEMENTER, "IMPLEMENTED", PASS, true)),
               Some(Report("t", VERIFIER, "VERIFIED_PASS", PASS, true)), gate, approved, Some(Continue))
  }

  lemma ContinuingPassed(gate: Option<G.Decision>, approved: bool)
    ensures BothPassed(Continuing(gate, approved))
  {
  }

  /** Approval is requested although no gate decision exists. */
  lemma ApprovalWithoutGate(upper: string -> string, d: GuardDecision)
    requires upper(PASS) == PASS && IsGuardDecision(Continuing(None, false), d)
    ensures RecommendFor(upper, Continuing(None, false), d) == RequestHumanApproval && GatePass in d.missing
  {
    ContinuingPassed(None, false);
    ApprovalExactly(upper, Continuing(None, false), d);
    assert Lacks(Continuing(None, false), GatePass);
  }

  /** Release is recommended for a task in DRAFT. */
  lemma ReleaseFromDraft(upper: string -> string, d: GuardDecision)
    requires upper(PASS) == PASS
    requires IsGuardDecision(Continuing(Some(G.Decision(G.Pass, [], [], [], "")), true), d)
    ensures RecommendFor(upper, Continuing(Some(G.Decision(G.Pass, [], [], [], "")), true), d) == ReadyForMergeOrPush
  {
    var gate := Some(G.Decision(G.Pass, [], [], [], ""));
    ContinuingPassed(gate, true);
    ReleaseExactly(upper, Continuing(gate, true), d);
  }

  /** Release safety, end to end, for a gate decision that evaluates `g` under the same contract. */
  lemma ReleaseSafety(
      upper: string -> string, glob: G.Glob, g: G.GateInput, gi: GuardInput, d: GuardDecision)
    requires upper(PASS) == PASS && IsGuardDecision(gi, d)
    requires gi.gate.Some? && G.IsDecision(glob, g, gi.gate.value) && g.contract == gi.contract
    requires RecommendFor(upper, gi, d) == ReadyForMergeOrPush
    ensures Passed(gi.implementer, gi.contract, IMPLEMENTER) && Passed(gi.verifier, gi.contract, VERIFIER)
    ensures gi.approved
    ensures forall r :: r in gi.contract.required ==> exists ev :: G.Proves(g, ev, r)
    ensures g.files != [] && forall kind, subject :: !G.Found(glob, g, kind, subject)
  {
    ReleaseExactly(upper, gi, d);
    G.PassMeaning(glob, g, gi.gate.value);
    G.NothingRaised(glob, g);
    forall kind, subject ensures !G.Found(glob, g, kind, subject) {
      assert !G.Raised(glob, g, G.Raise(kind, subject));
    }
  }

  /** A task whose state was reached by accepted events and that passes the guard for a shipping action
      was approved by a human in its history, after verification and the gate. */
  lemma ShippedAfterApproval(gi: GuardInput, d: GuardDecision, events: seq<T.TaskEvent>)
    requires IsGuardDecision(gi, d) && d.verdict == G.Pass && Ships(gi.action.value)
    requires T.Run(T.Draft, events) == Some(gi.state)
    ensures T.HumanApproved in events && T.ChangegatePassed in events && T.VerificationPassed in events
    ensures gi.state == T.Approved || gi.state == T.Done
  {
    T.RunTail(events);
  }

  /** `continue` is not tied to a state: it passes from every one if it passes from one. */
  lemma ContinueIgnoresState(gi: GuardInput, state: T.TaskState)
    requires gi.action == Some(Continue)
    ensures GuardVerdict(gi.(state := state)) == GuardVerdict(gi)
  {
  }

  // --- The same in terms of the artifacts' fields ---

  /** A parsed report that names another task or another role than its slot. */
  predicate NamesOther(report: Option<Report>, task: string, role: string) {
    && report.Some? && report.value.parseOk
    && (report.value.taskId != task || report.value.role != role)
  }

  /** Nothing stops the implementer's report from being followed up. */
  predicate ImplementerUsable(upper: string -> string, c: G.Contract, implementer: Option<Report>, verifier: Option<Report>) {
    && !NamesOther(implementer, c.taskId, "implementer") && !NamesOther(verifier, c.taskId, "verifier")
    && implementer.Some? && implementer.value.parseOk && upper(implementer.value.result) != "BLOCKED"
  }

  /** Both reports can be followed up and the verifier does not ask for a fix. */
  predicate ReportsUsable(upper: string -> string, c: G.Contract, implementer: Option<Report>, verifier: Option<Report>) {
    ImplementerUsable(upper, c, implementer, verifier) && verifier.Some? && upper(verifier.value.result) != "NEEDS_FIX"
  }

  predicate Judged(gate: Option<G.Decision>, verdict: G.Verdict) {
    gate.Some? && gate.value.verdict == verdict
  }

  predicate Guarded(guard: Option<GuardDecision>, verdict: G.Verdict) {
    guard.Some? && guard.value.verdict == verdict
  }

  predicate AsksApproval(guard: Option<GuardDecision>) {
    Guarded(guard, G.ReviewRequired) && exists i :: 0 <= i < |guard.value.missing| && guard.value.missing[i] == HumanApproval
  }

  lemma ReportAnswers(
      upper: string -> string, c: G.Contract, implementer: Option<Report>, verifier: Option<Report>,
      gate: Option<G.Decision>, guard: Option<GuardDecision>)
    ensures var action := Recommend(upper, c, implementer, verifier, gate, guard);
      var misplaced := NamesOther(implementer, c.taskId, "implementer") || NamesOther(verifier, c.taskId, "verifier");
      && (action == SendToImplementer <==> !misplaced && implementer.None?)
      && (action == EscalateToHuman <==>
            misplaced || (implementer.Some? && (!implementer.value.parseOk || upper(implementer.value.result) == "BLOCKED")))
      && (action == SendToVerifier <==> ImplementerUsable(upper, c, implementer, verifier) && verifier.None?)
      && (action == SendFixPrompt <==>
            ImplementerUsable(upper, c, implementer, verifier) && verifier.Some?
            && (upper(verifier.value.result) == "NEEDS_FIX" || Judged(gate, G.Blocked)))
  {
  }

  /** And once both reports can be followed up and the gate does not block. */
  lemma GateAnswers(
      upper: string -> string, c: G.Contract, implementer: Option<Report>, verifier: Option<Report>,
      gate: Option<G.Decision>, guard: Option<GuardDecision>)
    ensures var action := Recommend(upper, c, implementer, verifier, gate, guard);
      var usable := ReportsUsable(upper, c, implementer, verifier) && !Judged(gate, G.Blocked);
      && (action == RequestHumanReview <==>
            usable && (Judged(gate, G.ReviewRequired) || !(AsksApproval(guard) || Guarded(guard, G.Pass))))
      && (action == RequestHumanApproval <==> usable && !Judged(gate, G.ReviewRequired) && AsksApproval(guard))
      && (action == ReadyForMergeOrPush <==> usable && !Judged(gate, G.ReviewRequired) && Guarded(guard, G.Pass))
  {
    if guard.Some? && HumanApproval in guard.value.missing {
      var i :| 0 <= i < |guard.value.missing| && guard.value.missing[i] == HumanApproval;
    }
  }

  /** What a passed report is. */
  lemma PassedExactly(report: Option<Report>, c: G.Contract)
    ensures Passed(report, c, IMPLEMENTER) <==>
      report == Some(Report(c.taskId, "implementer", "IMPLEMENTED", "PASS", true))
    ensures Passed(report, c, VERIFIER) <==>
      report == Some(Report(c.taskId, "verifier", "VERIFIED_PASS", "PASS", true))
  {
    assert |"implementer"| == 11 && |"verifier"| == 8 && |PASS| == 4 && |BLOCKED| == 7 && |NEEDS_FIX| == 9;
  }

  /** Which status and result each slot accepts. */
  lemma AllowedExactly(role: string, status: string, result: string)
    requires role == "implementer" || role == "verifier"
    ensures Allowed(role, status, result) <==>
      || (role == "implementer" && status == "IMPLEMENTED" && result == "PASS")
      || (role == "verifier" && status == "VERIFIED_PASS" && result == "PASS")
      || (role == "verifier" && status == "NEEDS_FIX" && result == "NEEDS_FIX")
      || (status == "BLOCKED" && result == "BLOCKED")
  {
    assert |"implementer"| == 11 && |"verifier"| == 8;
  }

  /** What each action may be taken from. */
  lemma StatesExactly(gi: GuardInput)
    ensures gi.action.Some? ==> (StateAllows(gi) <==>
      || gi.state == T.Approved || gi.action == Some(Continue)
      || (gi.state == T.ReadyForMerge && gi.action == Some(Merge)) || (gi.state == T.Done && gi.action == Some(Finish)))
  {
  }

  /** A passing guard, spelled out. */
  lemma GuardPassExactly(gi: GuardInput)
    ensures GuardVerdict(gi) == G.Pass <==>
      && gi.approved && gi.action.Some?
      && gi.implementer == Some(Report(gi.contract.taskId, "implementer", "IMPLEMENTED", "PASS", true))
      && gi.verifier == Some(Report(gi.contract.taskId, "verifier", "VERIFIED_PASS", "PASS", true))
      && gi.gate.Some? && gi.gate.value.verdict == G.Pass && gi.gate.value.findings == [] && gi.gate.value.missing == []
      && (forall r :: r in gi.contract.required ==> r in gi.gate.value.matched)
      && (gi.state == T.Approved || gi.action == Some(Continue)
          || (gi.state == T.ReadyForMerge && gi.action == Some(Merge)) || (gi.state == T.Done && gi.action == Some(Finish)))
  {
    PassedExactly(gi.implementer, gi.contract);
    PassedExactly(gi.verifier, gi.contract);
    StatesExactly(gi);
  }
}

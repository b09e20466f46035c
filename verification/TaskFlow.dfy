/** The task state machine (agent_core/build_harness/state.py) and its runs. */
module TaskFlow {
  import opened Wrappers

  datatype TaskState =
    | Draft | ReadyForImplementation | Implementing | Implemented | ReadyForVerification | VerifiedPass | NeedsFix
    | ReadyForMerge | ReadyForHumanApproval | Approved | Done | Blocked

  datatype TaskEvent =
    | ContractValidated | ImplementationStarted | ImplementationReportIngested | VerificationRequested
    | VerificationPassed | VerificationFailed | ChangegatePassed | ChangegateFailed | HumanApproved | Merged | Block

  /** `transition`; None is the raised error. `blocked` is accepted from every state but DONE. */
  function Transition(current: TaskState, event: TaskEvent): Option<TaskState> {
    match (current, event)
    case (Done, Block) => None
    case (_, Block) => Some(Blocked)
    case (Draft, ContractValidated) => Some(ReadyForImplementation)
    case (ReadyForImplementation, ImplementationStarted) => Some(Implementing)
    case (Implementing, ImplementationReportIngested) => Some(Implemented)
    case (Implemented, VerificationRequested) => Some(ReadyForVerification)
    case (ReadyForVerification, VerificationPassed) => Some(VerifiedPass)
    case (ReadyForVerification, VerificationFailed) => Some(NeedsFix)
    case (NeedsFix, ImplementationStarted) => Some(Implementing)
    case (VerifiedPass, ChangegatePassed) => Some(ReadyForHumanApproval)
    case (VerifiedPass, ChangegateFailed) => Some(NeedsFix)
    case (ReadyForHumanApproval, HumanApproved) => Some(Approved)
    case (Approved, Merged) => Some(Done)
    case (ReadyForMerge, HumanApproved) => Some(Approved)
    case (ReadyForMerge, Merged) => Some(Done)
    case _ => None
  }

  /** The state after the events; None when one of them is refused. */
  function Run(start: TaskState, events: seq<TaskEvent>): Option<TaskState>
    decreases |events|
  {
    if events == [] then Some(start)
    else
      match Run(start, events[..|events| - 1])
      case None => None
      case Some(s) => Transition(s, events[|events| - 1])
  }

  /** The event `k` places before the end. */
  predicate Back(events: seq<TaskEvent>, k: nat, e: TaskEvent) {
    k < |events| && events[|events| - 1 - k] == e
  }

  /** What the last events of a run from DRAFT are, by the state they lead to. */
  predicate Tail(events: seq<TaskEvent>, s: TaskState) {
    match s
    case VerifiedPass => Back(events, 0, VerificationPassed)
    case ReadyForHumanApproval => Back(events, 1, VerificationPassed) && Back(events, 0, ChangegatePassed)
    case Approved =>
      Back(events, 2, VerificationPassed) && Back(events, 1, ChangegatePassed) && Back(events, 0, HumanApproved)
    case Done =>
      && Back(events, 3, VerificationPassed) && Back(events, 2, ChangegatePassed)
      && Back(events, 1, HumanApproved) && Back(events, 0, Merged)
    case ReadyForMerge => false
    case _ => true
  }

  /** A task is done only after verification, change gate, human approval and merge, in that order and at the end;
      READY_FOR_MERGE is never reached. */
  lemma {:induction false} RunTail(events: seq<TaskEvent>)
    ensures Run(Draft, events).Some? ==> Tail(events, Run(Draft, events).value)
    decreases |events|
  {
    if events != [] {
      RunTail(events[..|events| - 1]);
    }
  }

  /** BLOCKED is never left. */
  lemma {:induction false} BlockedForever(events: seq<TaskEvent>)
    ensures Run(Blocked, events).Some? ==> Run(Blocked, events).value == Blocked
    decreases |events|
  {
    if events != [] {
      BlockedForever(events[..|events| - 1]);
    }
  }

  ghost predicate Reachable(s: TaskState) {
    exists events :: Run(Draft, events) == Some(s)
  }

  lemma ReachStep(s: TaskState, event: TaskEvent, t: TaskState)
    requires Reachable(s) && Transition(s, event) == Some(t)
    ensures Reachable(t)
  {
    var events :| Run(Draft, events) == Some(s);
    assert (events + [event])[..|events|] == events;
    assert Run(Draft, events + [event]) == Some(t);
  }

  lemma ReachVerification()
    ensures Reachable(Draft) && Reachable(Blocked) && Reachable(ReadyForImplementation) && Reachable(Implementing)
    ensures Reachable(Implemented) && Reachable(ReadyForVerification)
  {
    assert Run(Draft, []) == Some(Draft);
    ReachStep(Draft, Block, Blocked);
    ReachStep(Draft, ContractValidated, ReadyForImplementation);
    ReachStep(ReadyForImplementation, ImplementationStarted, Implementing);
    ReachStep(Implementing, ImplementationReportIngested, Implemented);
    ReachStep(Implemented, VerificationRequested, ReadyForVerification);
  }

  lemma ReachVerified()
    ensures Reachable(NeedsFix) && Reachable(VerifiedPass)
  {
    ReachVerification();
    ReachStep(ReadyForVerification, VerificationFailed, NeedsFix);
    ReachStep(ReadyForVerification, VerificationPassed, VerifiedPass);
  }

  lemma ReachDone()
    ensures Reachable(ReadyForHumanApproval) && Reachable(Approved) && Reachable(Done)
  {
    ReachVerified();
    ReachStep(VerifiedPass, ChangegatePassed, ReadyForHumanApproval);
    ReachStep(ReadyForHumanApproval, HumanApproved, Approved);
    ReachStep(Approved, Merged, Done);
  }

  /** Every state but READY_FOR_MERGE can be reached. */
  lemma ReachableStates(s: TaskState)
    ensures Reachable(s) <==> s != ReadyForMerge
  {
    if s == ReadyForMerge {
      forall events ensures Run(Draft, events) != Some(ReadyForMerge) {
        RunTail(events);
      }
    } else {
      ReachVerification();
      ReachVerified();
      ReachDone();
    }
  }

  // --- Accounting of the fix loop ---

  /** How often implementation was started, verification requested, passed and failed, and the gate failed. */
  datatype Tally = Tally(started: nat, requested: nat, passed: nat, failed: nat, gateFailed: nat)

  function Counted(t: Tally, event: TaskEvent): Tally {
    match event
    case ImplementationStarted => t.(started := t.started + 1)
    case VerificationRequested => t.(requested := t.requested + 1)
    case VerificationPassed => t.(passed := t.passed + 1)
    case VerificationFailed => t.(failed := t.failed + 1)
    case ChangegateFailed => t.(gateFailed := t.gateFailed + 1)
    case _ => t
  }

  function TallyOf(events: seq<TaskEvent>): Tally
    decreases |events|
  {
    if events == [] then Tally(0, 0, 0, 0, 0)
    else Counted(TallyOf(events[..|events| - 1]), events[|events| - 1])
  }

  /** An attempt is under way from its start to its verification, and a passed one is open until the gate fails it. */
  predicate Balanced(t: Tally, s: TaskState) {
    var underway := if s in {Implementing, Implemented, ReadyForVerification} then 1 else 0;
    var accepted := if s in {VerifiedPass, ReadyForHumanApproval, Approved, Done} then 1 else 0;
    && t.started == t.passed + t.failed + underway
    && t.requested == t.passed + t.failed + (if s == ReadyForVerification then 1 else 0)
    && t.passed == t.gateFailed + accepted
  }

  /** Every attempt is verified once, and each attempt but the last answers one failure: a task that is DONE was
      started once more than verification and gate failed together. */
  lemma {:induction false} RunBalanced(events: seq<TaskEvent>)
    requires Run(Draft, events).Some? && Run(Draft, events).value != Blocked
    ensures Balanced(TallyOf(events), Run(Draft, events).value)
    decreases |events|
  {
    if events != [] {
      var before := events[..|events| - 1];
      RunTail(before);
      RunBalanced(before);
    }
  }

  /** Which states lead to each state, and by which event. */
  predicate Leads(s: TaskState, event: TaskEvent, t: TaskState) {
    match t
    case Draft => false
    case ReadyForImplementation => s == Draft && event == ContractValidated
    case Implementing => (s == ReadyForImplementation || s == NeedsFix) && event == ImplementationStarted
    case Implemented => s == Implementing && event == ImplementationReportIngested
    case ReadyForVerification => s == Implemented && event == VerificationRequested
    case VerifiedPass => s == ReadyForVerification && event == VerificationPassed
    case NeedsFix =>
      (s == ReadyForVerification && event == VerificationFailed) || (s == VerifiedPass && event == ChangegateFailed)
    case ReadyForHumanApproval => s == VerifiedPass && event == ChangegatePassed
    case ReadyForMerge => false
    case Approved => (s == ReadyForHumanApproval || s == ReadyForMerge) && event == HumanApproved
    case Done => (s == Approved || s == ReadyForMerge) && event == Merged
    case Blocked => s != Done && event == Block
  }

  /** The transitions are exactly these, and no event leads to READY_FOR_MERGE. */
  lemma TransitionExactly(s: TaskState, event: TaskEvent, t: TaskState)
    ensures Transition(s, event) == Some(t) <==> Leads(s, event, t)
  {
  }
}

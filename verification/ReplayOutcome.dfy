/**
 Every answer of semantic replay: when each classification is given, what each flag says, and which
 mismatch codes are reported, in terms of the record, the input and the registries.
 */
module ReplayOutcome {
  import opened Wrappers
  import opened StringOrder
  import opened MergePolicy
  import opened MergeRecord
  import opened RecordLifecycle
  import opened Replay

  /** The record repeats the input's task, bindings, versions and mode, and carries its digest. */
  predicate Bound(pf: Platform, record: Record, input: PolicyInput) {
    var id := record.identity;
    && id.taskId == input.taskId
    && id.bindings.taskContract == input.bindings.taskContract && id.bindings.candidate == input.bindings.candidate
    && id.bindings.snapshot == input.bindings.snapshot && id.bindings.bundle == input.bindings.bundle
    && id.bindings.approval == input.bindings.approval && id.bindings.authority == input.bindings.authority
    && id.bindings.verifier == input.bindings.verifier && id.bindings.policy == input.bindings.policy
    && id.policyVersion == input.policyVersion && id.evaluatorVersion == input.evaluatorVersion
    && id.mode == (if input.mode == Enforce then "ENFORCE" else "SHADOW")
    && InputDigest(pf, input) == Some(id.inputDigest)
  }

  predicate PolicyKnown(record: Record, policies: map<PolicyIdentity, Policy>) {
    PolicyIdentity(record.identity.policyVersion, record.identity.bindings.policy) in policies
  }

  predicate EvaluatorKnown(record: Record, evaluators: map<string, Evaluator>) {
    record.identity.evaluatorVersion in evaluators
  }

  /** Derived from its payload, bound to the input, and known to both registries. */
  ghost predicate Replayable(pf: Platform, input: PolicyInput, record: Record,
                             policies: map<PolicyIdentity, Policy>, evaluators: map<string, Evaluator>)
  {
    Derived(pf, record) && Bound(pf, record, input) && PolicyKnown(record, policies) && EvaluatorKnown(record, evaluators)
  }

  /** The registered evaluator under the registered policy, sealed for this input. */
  function Again(pf: Platform, input: PolicyInput, record: Record,
                 policies: map<PolicyIdentity, Policy>, evaluators: map<string, Evaluator>): Option<Record>
    requires PolicyKnown(record, policies) && EvaluatorKnown(record, evaluators)
  {
    var policy := policies[PolicyIdentity(record.identity.policyVersion, record.identity.bindings.policy)];
    match evaluators[record.identity.evaluatorVersion](input, policy)
    case Err(_) => None
    case Ok(core) => (match Seal(pf, input, core) case Err(_) => None case Ok(rebuilt) => Some(rebuilt))
  }

  // --- Validation in terms of the record ---

  lemma BindingExactly(pf: Platform, record: Record, input: PolicyInput)
    ensures BindingErrors(pf, record.identity, input) == {} <==> Bound(pf, record, input)
  {
  }

  lemma ValidationExactly(pf: Platform, record: Record, input: PolicyInput)
    ensures Validate(pf, record, None) == {} <==> Derived(pf, record)
    ensures Validate(pf, record, Some(input)) == {} <==> Derived(pf, record) && Bound(pf, record, input)
  {
    StructurallyValidIsDerived(pf, record);
    BindingExactly(pf, record, input);
    if WellTyped(record) && IdentityNormalized(record.identity) {
      ValidationOfNormal(pf, record, input);
    }
  }

  lemma ValidationOfNormal(pf: Platform, record: Record, input: PolicyInput)
    requires WellTyped(record) && IdentityNormalized(record.identity)
    ensures Validate(pf, record, Some(input)) == {} <==>
      Derived(pf, record) && BindingErrors(pf, record.identity, input) == {}
  {
  }

  // --- The classifications ---

  predicate Classified(o: Outcome, c: Classification) {
    o.Finished? && o.result.classification == c
  }

  /** The four answers given without replaying. */
  lemma EarlyAnswers(pf: Platform, input: PolicyInput, record: Record, policies: map<PolicyIdentity, Policy>,
                     evaluators: map<string, Evaluator>)
    ensures var o := VerifyReplay(pf, input, record, policies, evaluators);
      && (Classified(o, RecordStructurallyInvalid) <==> !Derived(pf, record))
      && (Classified(o, InputBindingMismatch) <==> Derived(pf, record) && !Bound(pf, record, input))
      && (Classified(o, UnknownPolicyIdentity) <==>
            Derived(pf, record) && Bound(pf, record, input) && !PolicyKnown(record, policies))
      && (Classified(o, UnknownEvaluatorIdentity) <==>
            Derived(pf, record) && Bound(pf, record, input) && PolicyKnown(record, policies)
            && !EvaluatorKnown(record, evaluators))
  {
    ValidationExactly(pf, record, input);
    if Replayable(pf, input, record, policies, evaluators) {
      ReplayedOrFaulted(pf, input, record, policies, evaluators);
    }
  }

  lemma ReplayedOrFaulted(pf: Platform, input: PolicyInput, record: Record, policies: map<PolicyIdentity, Policy>,
                          evaluators: map<string, Evaluator>)
    requires Replayable(pf, input, record, policies, evaluators)
    ensures var o := VerifyReplay(pf, input, record, policies, evaluators);
      match Again(pf, input, record, policies, evaluators)
      case None => o.Faulted?
      case Some(rebuilt) => o == Finished(Compared(rebuilt, record))
  {
    ValidationExactly(pf, record, input);
  }

  /** The other two, and the fault: exactly when the record can be replayed, by what replaying gives. */
  lemma ReplayAnswers(pf: Platform, input: PolicyInput, record: Record, policies: map<PolicyIdentity, Policy>,
                      evaluators: map<string, Evaluator>)
    ensures var o := VerifyReplay(pf, input, record, policies, evaluators);
      var replayable := Replayable(pf, input, record, policies, evaluators);
      && (o.Faulted? <==> replayable && Again(pf, input, record, policies, evaluators).None?)
      && (Classified(o, SemanticallyReplayVerified) <==>
            replayable && Again(pf, input, record, policies, evaluators).Some?
            && MismatchCodes(Again(pf, input, record, policies, evaluators).value, record) == {})
      && (Classified(o, SemanticReplayMismatch) <==>
            replayable && Again(pf, input, record, policies, evaluators).Some?
            && MismatchCodes(Again(pf, input, record, policies, evaluators).value, record) != {})
  {
    EarlyAnswers(pf, input, record, policies, evaluators);
    if Replayable(pf, input, record, policies, evaluators) {
      ReplayedOrFaulted(pf, input, record, policies, evaluators);
    } else {
      NotReplayed(pf, input, record, policies, evaluators);
    }
  }

  lemma NotReplayed(pf: Platform, input: PolicyInput, record: Record, policies: map<PolicyIdentity, Policy>,
                    evaluators: map<string, Evaluator>)
    requires !Replayable(pf, input, record, policies, evaluators)
    ensures var o := VerifyReplay(pf, input, record, policies, evaluators);
      o.Finished? && !o.result.performed && o.result.mismatches == {} && !o.result.decisionMatches && !o.result.recordMatches
      && o.result.classification != SemanticallyReplayVerified && o.result.classification != SemanticReplayMismatch
  {
    ValidationExactly(pf, record, input);
  }

  // --- The flags ---

  /** Each flag of a finished replay. */
  lemma ResultFlags(pf: Platform, input: PolicyInput, record: Record, policies: map<PolicyIdentity, Policy>,
                    evaluators: map<string, Evaluator>)
    requires VerifyReplay(pf, input, record, policies, evaluators).Finished?
    ensures var result := VerifyReplay(pf, input, record, policies, evaluators).result;
      && (result.structurallyValid <==> Derived(pf, record))
      && (result.policyResolved <==> Derived(pf, record) && Bound(pf, record, input) && PolicyKnown(record, policies))
      && (result.evaluatorResolved <==> Replayable(pf, input, record, policies, evaluators))
      && (result.performed <==> Replayable(pf, input, record, policies, evaluators))
  {
    ValidationExactly(pf, record, input);
    if Replayable(pf, input, record, policies, evaluators) {
      ReplayedOrFaulted(pf, input, record, policies, evaluators);
    }
  }

  /** The two match flags compare the stored digests with the rebuilt ones. */
  lemma MatchFlags(pf: Platform, input: PolicyInput, record: Record, policies: map<PolicyIdentity, Policy>,
                   evaluators: map<string, Evaluator>)
    requires Replayable(pf, input, record, policies, evaluators) && Again(pf, input, record, policies, evaluators).Some?
    ensures var result := VerifyReplay(pf, input, record, policies, evaluators).result;
      var rebuilt := Again(pf, input, record, policies, evaluators).value;
      && (result.decisionMatches <==> rebuilt.decisionDigest == record.decisionDigest)
      && (result.recordMatches <==> rebuilt.recordDigest == record.recordDigest)
      && result.mismatches == MismatchCodes(rebuilt, record)
  {
    ReplayedOrFaulted(pf, input, record, policies, evaluators);
    var rebuilt := Again(pf, input, record, policies, evaluators).value;
    CodesExactly(rebuilt, record);
  }

  /** Which difference each mismatch code reports. */
  lemma CodesExactly(a: Record, b: Record)
    ensures var codes := MismatchCodes(a, b);
      && (DispositionMismatch in codes <==> a.identity.disposition != b.identity.disposition)
      && (PrimaryReasonMismatch in codes <==> a.identity.primary != b.identity.primary)
      && (ReasonSetMismatch in codes <==> a.identity.complete != b.identity.complete)
      && (PartitionMismatch in codes <==>
            a.identity.blocking != b.identity.blocking || a.identity.review != b.identity.review)
      && (AccountingDiffers in codes <==>
            || a.identity.accounting.required != b.identity.accounting.required
            || a.identity.accounting.satisfied != b.identity.accounting.satisfied
            || a.identity.accounting.invalid != b.identity.accounting.invalid
            || a.identity.accounting.missing != b.identity.accounting.missing
            || a.identity.accounting.rejected != b.identity.accounting.rejected
            || a.identity.accounting.invalidProvenance != b.identity.accounting.invalidProvenance
            || a.identity.accounting.unexpected != b.identity.accounting.unexpected)
      && (DecisionDigestMismatch in codes <==> a.decisionDigest != b.decisionDigest)
      && (RecordDigestMismatch in codes <==> a.recordDigest != b.recordDigest)
  {
  }

  // --- What structural validity is ---

  /** The reason lists are disjoint and cover, the primary reason is one of them, and the disposition text follows. */
  ghost predicate ReasonsInOrder(id: Identity) {
    && (forall x :: x in id.complete <==> x in id.blocking || x in id.review)
    && (forall x :: !(x in id.blocking && x in id.review))
    && (id.primary == None <==> |id.complete| == 0)
    && (id.primary.Some? ==> id.primary.value in id.complete)
    && id.disposition == (if |id.blocking| > 0 then "BLOCK" else if |id.review| > 0 then "REVIEW_REQUIRED"
                          else "ELIGIBLE_TO_MERGE_UNDER_POLICY")
  }

  /** Every required id is satisfied, invalid or missing, one of the three only, and there are no others. */
  ghost predicate RequirementsInOrder(a: Accounting) {
    && (forall x :: x in a.required <==> x in a.satisfied || x in a.invalid || x in a.missing)
    && (forall x :: !(x in a.satisfied && x in a.invalid) && !(x in a.satisfied && x in a.missing)
                    && !(x in a.invalid && x in a.missing))
  }

  predicate ListsInOrder(id: Identity) {
    var a := id.accounting;
    && Sorted(id.complete) && Sorted(id.blocking) && Sorted(id.review)
    && Sorted(a.required) && Sorted(a.satisfied) && Sorted(a.invalid) && Sorted(a.missing)
    && Sorted(a.rejected) && Sorted(a.invalidProvenance) && Sorted(a.unexpected)
  }

  lemma ReasonsCoherentExactly(id: Identity)
    ensures ReasonsCoherent(id) <==> ReasonsInOrder(id)
  {
    CoversExactly(id.complete, id.blocking, id.review);
  }

  lemma CoversExactly(xs: seq<string>, ys: seq<string>, zs: seq<string>)
    ensures (set x | x in xs) == (set x | x in ys) + (set x | x in zs) <==>
      forall x :: x in xs <==> x in ys || x in zs
  {
    var a, b, c := set x | x in xs, set x | x in ys, set x | x in zs;
    assert forall x :: (x in a <==> x in xs) && (x in b <==> x in ys) && (x in c <==> x in zs);
    if a == b + c {
      forall x ensures x in xs <==> x in ys || x in zs {
        assert x in a <==> x in b + c;
      }
    }
  }

  lemma PartitionedExactly(a: Accounting)
    ensures a.Partitioned() <==> RequirementsInOrder(a)
  {
    var r, s, i, m := set x | x in a.required, set x | x in a.satisfied, set x | x in a.invalid, set x | x in a.missing;
    assert forall x :: (x in r <==> x in a.required) && (x in s <==> x in a.satisfied)
                    && (x in i <==> x in a.invalid) && (x in m <==> x in a.missing);
    if r == s + i + m {
      forall x ensures x in a.required <==> x in a.satisfied || x in a.invalid || x in a.missing {
        assert x in r <==> x in s + i + m;
      }
    }
  }

  lemma ListsExactly(id: Identity)
    ensures (forall k :: 0 <= k < |SortedLists(id)| ==> Sorted(SortedLists(id)[k])) <==> ListsInOrder(id)
  {
    var ls := SortedLists(id);
    assert ls[0] == id.complete && ls[1] == id.blocking && ls[2] == id.review && ls[3] == id.accounting.required
        && ls[4] == id.accounting.satisfied && ls[5] == id.accounting.invalid && ls[6] == id.accounting.missing
        && ls[7] == id.accounting.rejected && ls[8] == id.accounting.invalidProvenance
        && ls[9] == id.accounting.unexpected;
  }

  /** A record is normalised exactly when its lists are sorted, its reasons and its requirements in order. */
  lemma NormalizedExactly(id: Identity)
    ensures IdentityNormalized(id) <==> ListsInOrder(id) && ReasonsInOrder(id) && RequirementsInOrder(id.accounting)
  {
    ListsExactly(id);
    ReasonsCoherentExactly(id);
    PartitionedExactly(id.accounting);
  }
}

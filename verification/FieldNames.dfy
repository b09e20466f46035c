/** The field names of merge-eligibility payloads; each payload names a field once. */
module FieldNames {

  const IDENTITY_FIELDS: seq<string> := [
    "task_id", "task_contract_digest", "candidate_digest", "repository_snapshot_digest", "verification_bundle_digest",
    "approval_digest_or_sentinel", "authority_binding_digest", "verifier_binding_digest", "policy_digest",
    "policy_version", "evaluator_version", "evaluation_mode", "input_digest",
    "disposition", "decision_authority", "primary_reason_code", "complete_reason_codes", "blocking_reason_codes",
    "review_reason_codes", "required_requirement_ids", "satisfied_requirement_ids", "invalid_requirement_ids",
    "missing_requirement_ids", "rejected_evidence_ids", "invalid_provenance_evidence_ids", "unexpected_evidence_ids"]

  const DECISION_FIELDS: seq<string> := ["kind"] + IDENTITY_FIELDS

  const RECORD_FIELDS: seq<string> := ["schema_version"] + IDENTITY_FIELDS + ["decision_digest"]

  const INPUT_FIELDS: seq<string> := [
    "kind", "task_id", "task_contract_digest", "candidate_digest", "repository_snapshot_digest",
    "verification_bundle_digest", "approval_digest_or_sentinel", "authority_binding_digest", "verifier_binding_digest",
    "policy_digest", "policy_version", "evaluator_version", "evaluation_mode", "policy_record_schema_version",
    "policy_record_schema_digest", "canonicalization_version", "canonicalization_contract_digest", "facts"]

  const FACT_FIELDS: seq<string> := [
    "task_context_current", "candidate_binding_current", "repository_snapshot_current", "repository_release_clean",
    "policy_context_current", "evidence_context_status", "evidence_context_violations", "scope_status",
    "approval_status", "authority_status", "verifier_identity_status", "verifier_independence_status",
    "required_requirement_ids", "satisfied_requirement_ids", "invalid_requirement_ids", "missing_requirement_ids",
    "rejected_evidence_ids", "invalid_provenance_evidence_ids", "unexpected_evidence_ids"]

  ghost predicate Distinct(names: seq<string>) {
    forall i, j :: 0 <= i < j < |names| ==> names[i] != names[j]
  }

  ghost predicate Long(names: seq<string>) {
    forall i :: 0 <= i < |names| ==> |names[i]| > 2
  }

  lemma IdentityFieldsLong()
    ensures Long(IDENTITY_FIELDS)
  {
  }

  lemma IdentityFieldsSeparated(i: int, j: int)
    requires Long(IDENTITY_FIELDS) && 0 <= i < j < |IDENTITY_FIELDS|
    ensures |IDENTITY_FIELDS[i]| != |IDENTITY_FIELDS[j]| || IDENTITY_FIELDS[i][0] != IDENTITY_FIELDS[j][0]
  {
  }

  lemma InputFieldsLong()
    ensures Long(INPUT_FIELDS)
  {
  }

  lemma InputFieldsSeparated(i: int, j: int)
    requires Long(INPUT_FIELDS) && 0 <= i < j < |INPUT_FIELDS|
    ensures |INPUT_FIELDS[i]| != |INPUT_FIELDS[j]| || INPUT_FIELDS[i][0] != INPUT_FIELDS[j][0]
  {
  }

  lemma FactFieldsLong()
    ensures Long(FACT_FIELDS)
  {
  }

  lemma FactFieldsSeparated(i: int, j: int)
    requires Long(FACT_FIELDS) && 0 <= i < j < |FACT_FIELDS|
    ensures |FACT_FIELDS[i]| != |FACT_FIELDS[j]| || FACT_FIELDS[i][2] != FACT_FIELDS[j][2]
  {
  }

  lemma OtherFieldsNew(name: string)
    requires name in IDENTITY_FIELDS
    ensures |name| > 4 && !(|name| == 14 && name[0] == 's') && !(|name| == 15 && name[0] == 'd')
  {
  }

  lemma PayloadFieldsDistinct()
    ensures Distinct(DECISION_FIELDS) && Distinct(RECORD_FIELDS) && Distinct(INPUT_FIELDS) && Distinct(FACT_FIELDS)
  {
    IdentityFieldsLong();
    forall i, j | 0 <= i < j < |IDENTITY_FIELDS| ensures IDENTITY_FIELDS[i] != IDENTITY_FIELDS[j] {
      IdentityFieldsSeparated(i, j);
    }
    InputFieldsLong();
    forall i, j | 0 <= i < j < |INPUT_FIELDS| ensures INPUT_FIELDS[i] != INPUT_FIELDS[j] {
      InputFieldsSeparated(i, j);
    }
    FactFieldsLong();
    forall i, j | 0 <= i < j < |FACT_FIELDS| ensures FACT_FIELDS[i] != FACT_FIELDS[j] {
      FactFieldsSeparated(i, j);
    }
    forall name | name in IDENTITY_FIELDS
      ensures name != "kind" && name != "schema_version" && name != "decision_digest"
    {
      OtherFieldsNew(name);
    }
    DistinctAround("kind", IDENTITY_FIELDS, []);
    assert DECISION_FIELDS + [] == DECISION_FIELDS;
    DistinctAround("schema_version", IDENTITY_FIELDS, ["decision_digest"]);
  }

  lemma DistinctAround(first: string, names: seq<string>, last: seq<string>)
    requires Distinct(names) && first !in names && |last| <= 1
    requires forall x :: x in last ==> x !in names && x != first
    ensures Distinct([first] + names + last)
  {
    var all := [first] + names + last;
    forall i, j | 0 <= i < j < |all| ensures all[i] != all[j] {
      if 0 < i && j <= |names| {
        assert all[i] == names[i - 1] && all[j] == names[j - 1];
      } else if j > |names| {
        assert all[j] == last[0] && all[j] in last;
      }
    }
  }
}

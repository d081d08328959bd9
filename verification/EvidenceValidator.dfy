/**
 The evidence half of internal/report/validate.go: declared inputs, provenance, anchors, and the unknown
 that must accompany an external input not bound to the scanned snapshot.
 */
module EvidenceValidator {
  import opened Sorting
  import opened ReportModel
  import opened EvidenceGraph

  const TARGET_FORMAT := "plug-prejudice-inventory"
  const TARGET_VERSION := "2.0.0"

  type Inputs = map<string, EvidenceInput>

  predicate LowerHexDigit(c: char) {
    '0' <= c <= '9' || 'a' <= c <= 'f'
  }

  /** 64 lowercase hexadecimal characters. */
  predicate HexSum(s: string) {
    |s| == 64 && forall c <- s :: LowerHexDigit(c)
  }

  // ---------- evidence inputs ----------

  datatype Policy = Policy(inputType: InputType, format: string, version: string, requiresDocument: bool,
    suppliesSubject: bool)

  /** The production table: the one external format it knows supplies no subject root digest. */
  const PRODUCTION_POLICIES := [Policy(OmarchyInput, "omarchy-plugin-audit", "pr8439-732b104", true, false)]

  function PolicyFor(policies: seq<Policy>, input: EvidenceInput): Option<Policy> {
    First(policies, (p: Policy) => input.inputType == p.inputType && input.format == p.format
      && input.version == p.version)
  }

  predicate InputValid(input: EvidenceInput, rootDigest: string, policies: seq<Policy>) {
    && input.id != "" && input.title != "" && input.format != "" && input.version != ""
    && (match input.inputType
        case TargetInput =>
          && input.id == TARGET_INPUT_ID && input.format == TARGET_FORMAT && input.version == TARGET_VERSION
          && input.documentSHA256 == "" && input.subjectRootDigest != ""
        case OmarchyInput =>
          var policy := PolicyFor(policies, input);
          && input.id != TARGET_INPUT_ID && policy.Some?
          && (policy.value.requiresDocument ==> input.documentSHA256 != "")
          && (input.subjectRootDigest != "" ==> policy.value.suppliesSubject && input.subjectRootDigest == rootDigest))
    && (input.documentSHA256 == "" || HexSum(input.documentSHA256))
    && (input.subjectRootDigest == "" || HexSum(input.subjectRootDigest))
  }

  ghost predicate DistinctInputs(inputs: seq<EvidenceInput>) {
    forall i, j :: 0 <= i < j < |inputs| ==> inputs[i].id != inputs[j].id
  }

  /** Bounded, distinct, valid declarations, one of which binds the retained target inventory. */
  ghost predicate InputsValid(inputs: seq<EvidenceInput>, rootDigest: string, policies: seq<Policy>) {
    && 0 < |inputs| <= MAX_EVIDENCE_INPUTS && DistinctInputs(inputs)
    && (forall input <- inputs :: InputValid(input, rootDigest, policies))
    && exists input <- inputs :: input.inputType == TargetInput && input.subjectRootDigest == rootDigest
  }

  function IndexInputs(inputs: seq<EvidenceInput>): Inputs {
    if inputs == [] then map[] else IndexInputs(inputs[..|inputs| - 1])[inputs[|inputs| - 1].id := inputs[|inputs| - 1]]
  }

  lemma {:induction false} IndexedInputs(inputs: seq<EvidenceInput>)
    requires DistinctInputs(inputs)
    ensures forall id <- IndexInputs(inputs) :: IndexInputs(inputs)[id] in inputs && IndexInputs(inputs)[id].id == id
    ensures forall input <- inputs :: input.id in IndexInputs(inputs) && IndexInputs(inputs)[input.id] == input
  {
    if inputs != [] {
      var n := |inputs| - 1;
      IndexedInputs(inputs[..n]);
      forall input | input in inputs ensures input.id in IndexInputs(inputs) && IndexInputs(inputs)[input.id] == input {
        var i :| 0 <= i < |inputs| && inputs[i] == input;
        if i < n {
          assert inputs[..n][i] == input && inputs[i].id != inputs[n].id;
        }
      }
    }
  }

  /** What the loop holds after a prefix, for any check of a single declaration. */
  ghost predicate Read(done: seq<EvidenceInput>, valid: EvidenceInput -> bool, values: Inputs, targets: nat) {
    && values == IndexInputs(done) && DistinctInputs(done) && (forall input <- done :: valid(input))
    && targets == if TARGET_INPUT_ID in values then 1 else 0
  }

  lemma ReadMore(
    done: seq<EvidenceInput>, valid: EvidenceInput -> bool, values: Inputs, targets: nat, input: EvidenceInput)
    requires Read(done, valid, values, targets) && valid(input) && input.id !in values
    ensures Read(done + [input], valid, values[input.id := input], if input.id == TARGET_INPUT_ID then targets + 1
      else targets)
  {
    var more := done + [input];
    assert more[..|done|] == done;
    IndexedInputs(done);
    forall i, j | 0 <= i < j < |more| ensures more[i].id != more[j].id {
      assert more[i] in done;
    }
  }

  lemma RepeatRefused(inputs: seq<EvidenceInput>, k: nat)
    requires k < |inputs| && DistinctInputs(inputs[..k]) && inputs[k].id in IndexInputs(inputs[..k])
    ensures !DistinctInputs(inputs)
  {
    IndexedInputs(inputs[..k]);
    var i :| 0 <= i < k && inputs[..k][i] == IndexInputs(inputs[..k])[inputs[k].id];
    assert inputs[i].id == inputs[k].id;
  }

  method ReadInputs(inputs: seq<EvidenceInput>, valid: EvidenceInput -> bool)
    returns (ok: bool, values: Inputs, targets: nat)
    requires forall input <- inputs :: valid(input) ==>
      (input.inputType == TargetInput <==> input.id == TARGET_INPUT_ID)
    ensures ok <==> DistinctInputs(inputs) && forall input <- inputs :: valid(input)
    ensures ok ==> Read(inputs, valid, values, targets)
  {
    values, targets := map[], 0;
    for k := 0 to |inputs|
      invariant Read(inputs[..k], valid, values, targets)
    {
      var input := inputs[k];
      if input.id in values {
        RepeatRefused(inputs, k);
        return false, values, targets;
      }
      if !valid(input) {
        return false, values, targets;
      }
      ReadMore(inputs[..k], valid, values, targets, input);
      TakeMore(inputs, k);
      if input.inputType == TargetInput {
        targets := targets + 1;
      }
      values := values[input.id := input];
    }
    assert inputs[..|inputs|] == inputs;
    ok := true;
  }

  function InputCheck(rootDigest: string, policies: seq<Policy>): EvidenceInput -> bool {
    input => InputValid(input, rootDigest, policies)
  }

  lemma TargetDecides(
    inputs: seq<EvidenceInput>, rootDigest: string, policies: seq<Policy>, values: Inputs, targets: nat)
    requires Read(inputs, InputCheck(rootDigest, policies), values, targets)
    ensures (targets == 1 && values[TARGET_INPUT_ID].inputType == TargetInput
      && values[TARGET_INPUT_ID].subjectRootDigest == rootDigest)
      <==> exists input <- inputs :: input.inputType == TargetInput && input.subjectRootDigest == rootDigest
  {
    IndexedInputs(inputs);
    if input :| input in inputs && input.inputType == TargetInput && input.subjectRootDigest == rootDigest {
      assert InputCheck(rootDigest, policies)(input);
    }
  }

  /** `validateEvidenceInputs`: the loop over declarations, the map it fills and the count it keeps. */
  method ValidateEvidenceInputs(inputs: seq<EvidenceInput>, rootDigest: string, policies: seq<Policy>)
    returns (ok: bool, values: Inputs)
    ensures ok <==> InputsValid(inputs, rootDigest, policies)
    ensures ok ==> values == IndexInputs(inputs)
  {
    if |inputs| == 0 || |inputs| > MAX_EVIDENCE_INPUTS {
      return false, map[];
    }
    ghost var valid := InputCheck(rootDigest, policies);
    var targets;
    ok, values, targets := ReadInputs(inputs, InputCheck(rootDigest, policies));
    assert (forall input <- inputs :: valid(input)) <==>
      forall input <- inputs :: InputValid(input, rootDigest, policies);
    if !ok {
      return;
    }
    TargetDecides(inputs, rootDigest, policies, values, targets);
    ok := targets == 1 && values[TARGET_INPUT_ID].inputType == TargetInput
      && values[TARGET_INPUT_ID].subjectRootDigest == rootDigest;
  }

  // ---------- provenance ----------

  datatype RecordKind = OperationRecord | ResourceRecord | FindingRecord | UnknownRecord

  predicate ProvenanceValid(p: Provenance, scannerVersion: string, kind: RecordKind) {
    && p.ruleID != "" && p.analyzer != "" && p.analyzerVersion != ""
    && match p.source
       case TargetSource => p.analyzer == DETERMINISTIC_ANALYZER && p.analyzerVersion == scannerVersion
       case InventoryMetadata => p.analyzer == DETERMINISTIC_ANALYZER && p.analyzerVersion == scannerVersion
       case OmarchyAudit =>
         if p.analyzer == OMARCHY_ANALYZER then p.ruleID == AUDIT_OBSERVATION_RULE && kind != UnknownRecord
         else
           && p.analyzer == DETERMINISTIC_ANALYZER && p.analyzerVersion == scannerVersion
           && ((kind == FindingRecord && p.ruleID == COVERAGE_RULE)
             || (kind == UnknownRecord && (p.ruleID == BINDING_ASSESSMENT_RULE || p.ruleID == COMPARISON_BUDGET_RULE)))
       case UnstatedSource => false
  }

  // ---------- anchored evidence ----------

  predicate EvidenceShape(e: Evidence, safePath: string -> bool) {
    && e.inputID != "" && e.path != "" && safePath(e.path)
    && e.lineStart >= 0 && e.lineEnd >= 0 && !(e.lineStart == 0 && e.lineEnd != 0)
    && !(e.lineEnd != 0 && e.lineEnd < e.lineStart)
  }

  predicate Anchored(e: Evidence, p: Provenance, files: set<string>, inputs: Inputs, safePath: string -> bool) {
    && EvidenceShape(e, safePath) && e.inputID in inputs
    && var input := inputs[e.inputID];
       match p.source
       case OmarchyAudit => input.inputType == OmarchyInput
         && (p.analyzer == OMARCHY_ANALYZER ==> p.analyzerVersion == input.version)
       case UnstatedSource => true
       case _ => input.inputType == TargetInput && e.inputID == TARGET_INPUT_ID && e.path in files
  }

  /** Evidence of an external record needs a declared external input. */
  lemma ExternalEvidenceNeedsInput(
    e: Evidence, p: Provenance, files: set<string>, inputs: seq<EvidenceInput>, safePath: string -> bool)
    requires DistinctInputs(inputs) && Anchored(e, p, files, IndexInputs(inputs), safePath) && p.External()
    ensures exists input <- inputs :: input.inputType == OmarchyInput && input.id == e.inputID
  {
    IndexedInputs(inputs);
    assert IndexInputs(inputs)[e.inputID] in inputs;
  }

  // ---------- binding unknowns ----------

  datatype BindingCheck = NotBinding | Binding(inputID: string) | BadBinding

  /** `validateExternalBindingUnknown`. */
  function CheckBinding(u: Unknown, inputs: Inputs): BindingCheck {
    if u.category != BINDING_CATEGORY && u.reason != ExternalBinding then NotBinding
    else if u.category != BINDING_CATEGORY || u.reason != ExternalBinding || u.scope != UnknownScope
      || u.confidence != HighConfidence then BadBinding
    else if |u.evidence| != 1 || u.origins != [] || u.affected != []
      || u.suppressed != [SNAPSHOT_BINDING_RULE] then BadBinding
    else if u.evidence[0].inputID !in inputs || inputs[u.evidence[0].inputID].inputType != OmarchyInput
      || inputs[u.evidence[0].inputID].subjectRootDigest != "" then BadBinding
    else if u.provenance.ruleID != BINDING_ASSESSMENT_RULE || !u.provenance.External()
      || u.provenance.analyzer != DETERMINISTIC_ANALYZER then BadBinding
    else Binding(inputs[u.evidence[0].inputID].id)
  }
}

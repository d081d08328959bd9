/**
 The main validator of internal/report/validate.go. `ReportValid` says what an acceptable report is;
 `Validate` is the pass over maps and loops that decides it.
 */
module ReportValidator {
  import opened Integers
  import opened Sorting
  import opened ReportModel
  import opened EvidenceGraph
  import opened RelationshipValidator
  import GraphFacts
  import InventoryDigest
  import opened HostileText
  import opened EvidenceValidator
  import opened InventoryValidator
  import Review

  const MAX_OPERATIONS := 20_000
  const MAX_RESOURCES := 20_000
  const MAX_FINDINGS := 20_000
  const MAX_UNKNOWNS := 20_000
  const MAX_LIMITATIONS := 20_000
  const MAX_ERRORS := 10_000
  const MAX_ARGUMENTS := 1_024
  const MAX_MANIFEST_KINDS := 128
  const MAX_MANIFEST_ENTRY_POINTS := 128
  const MAX_RELATIONSHIPS :=
    MAX_RESOURCES + MAX_FINDINGS * MAX_FINDING_RELATED + MAX_UNKNOWNS * MAX_UNKNOWN_AFFECTED + MAX_COMPARISONS
  const ORIGIN_KINDS := ["assignment", "parameter-expansion", "property-assignment", "use-site"]

  /**
   What the validator computes with but this model leaves open: the digest, UTF-8 validity, the path rules, and
   whether the schema version, the timestamps and the sandbox metadata are valid, which are not modelled.
   */
  datatype Environment = Environment(
    digest: Digest, validUTF8: string -> bool, safePath: string -> bool, supported: string -> bool,
    metadataValid: bool)
  {
    function Check(): string -> bool {
      s => Serializes(s, validUTF8)
    }
  }

  // ---------- single records ----------

  datatype Context = Context(scannerVersion: string, digest: Digest, files: set<string>, inputs: Inputs,
    safePath: string -> bool)

  predicate Named(node: Node, digest: Digest) {
    node.id != "" && node.reference == PublicReference(node.kind, node.id, digest)
  }

  predicate OperationValid(o: Operation, c: Context) {
    && Named(OperationAsNode(o), c.digest) && o.category != "" && o.command != ""
    && ProvenanceValid(o.provenance, c.scannerVersion, OperationRecord)
    && |o.arguments| <= MAX_ARGUMENTS && !o.scope.UnsetScope?
    && Anchored(o.evidence, o.provenance, c.files, c.inputs, c.safePath)
  }

  predicate ResourceValid(o: Resource, operations: set<string>, c: Context) {
    && Named(ResourceAsNode(o), c.digest) && o.kind != "" && o.access != "" && o.value != ""
    && ProvenanceValid(o.provenance, c.scannerVersion, ResourceRecord)
    && !o.scope.UnsetScope? && Anchored(o.evidence, o.provenance, c.files, c.inputs, c.safePath)
    && o.relatedOperation != "" && o.relatedOperation in operations
  }

  predicate RepeatFree(xs: seq<string>) {
    forall i, j :: 0 <= i < j < |xs| ==> xs[i] != xs[j]
  }

  predicate ReservedValid(f: Finding, scannerVersion: string) {
    && f.provenance.ruleID == COVERAGE_RULE && f.category == COVERAGE_CATEGORY
    && f.provenance.analyzer == DETERMINISTIC_ANALYZER && f.provenance.analyzerVersion == scannerVersion
    && f.claim == Fact && f.severity == Informational && f.confidence == HighConfidence && f.scope == UnknownScope
    && |f.evidence| == 1 && f.related == []
  }

  predicate FindingValid(f: Finding, operations: set<string>, c: Context) {
    && Named(FindingAsNode(f), c.digest) && f.category != "" && f.title != "" && f.explanation != ""
    && ProvenanceValid(f.provenance, c.scannerVersion, FindingRecord)
    && 0 < |f.evidence| <= MAX_FINDING_EVIDENCE && |f.related| <= MAX_FINDING_RELATED && !f.scope.UnsetScope?
    && (forall e <- f.evidence :: Anchored(e, f.provenance, c.files, c.inputs, c.safePath))
    && (forall id <- f.related :: id in operations)
    && (f.claim == Inference ==> f.related != []) && RepeatFree(f.related)
    && (Reserved(f) ==> ReservedValid(f, c.scannerVersion))
  }

  /** The checks by the local analyzer's rule on external evidence. */
  predicate RuleShape(u: Unknown, inputs: Inputs) {
    u.provenance.External() && u.provenance.analyzer == DETERMINISTIC_ANALYZER ==>
      (u.provenance.ruleID == BINDING_ASSESSMENT_RULE ==> CheckBinding(u, inputs).Binding?)
      && (u.provenance.ruleID == COMPARISON_BUDGET_RULE ==> u.reason == BudgetExhaustion)
  }

  predicate UnknownValid(u: Unknown, operations: set<string>, c: Context) {
    && Named(UnknownAsNode(u), c.digest) && u.category != "" && u.title != "" && u.description != ""
    && ProvenanceValid(u.provenance, c.scannerVersion, UnknownRecord) && !u.scope.UnsetScope?
    && 0 < |u.evidence| <= MAX_UNKNOWN_EVIDENCE && |u.origins| <= MAX_UNKNOWN_ORIGINS
    && |u.affected| <= MAX_UNKNOWN_AFFECTED && |u.suppressed| <= MAX_UNKNOWN_SUPPRESSED
    && (forall e <- u.evidence :: Anchored(e, u.provenance, c.files, c.inputs, c.safePath))
    && (u.reason == NativeBehavior ==> u.scope != ToolingScope)
    && !CheckBinding(u, c.inputs).BadBinding? && RuleShape(u, c.inputs)
    && (forall v <- u.origins ::
       v.kind in ORIGIN_KINDS && Anchored(v.evidence, u.provenance, c.files, c.inputs, c.safePath))
    && (forall id <- u.affected :: id in operations) && RepeatFree(u.affected)
  }

  predicate LimitationValid(l: Limitation, safePath: string -> bool) {
    l.code != "" && l.description != "" && (l.path != "" ==> safePath(l.path))
  }

  predicate ErrorValid(e: ScanError, safePath: string -> bool) {
    e.code != "" && e.message != "" && (e.path != "" ==> safePath(e.path))
  }

  // ---------- the whole report ----------

  predicate HeaderValid(r: Report) {
    && |r.inventory| <= MAX_INVENTORY && |r.operations| <= MAX_OPERATIONS && |r.resources| <= MAX_RESOURCES
    && |r.findings| <= MAX_FINDINGS && |r.unknowns| <= MAX_UNKNOWNS && |r.relationships| <= MAX_RELATIONSHIPS
    && |r.limitations| <= MAX_LIMITATIONS && |r.errors| <= MAX_ERRORS
    && r.scannerVersion != "" && r.policyVersion != "" && r.target.displayName != ""
    && r.target.fileCount >= 0 && r.target.readBytes >= 0 && r.target.binaryBytes >= 0
    && HexSum(r.target.rootDigest) && r.target.fileCount == |r.inventory|
  }

  predicate ManifestValid(m: Option<Manifest>) {
    m.Some? ==>
      && m.value.kinds.Slice? && m.value.entryPoints.Some?
      && |m.value.kinds.elements| <= MAX_MANIFEST_KINDS && |m.value.entryPoints.value| <= MAX_MANIFEST_ENTRY_POINTS
  }

  function OperationIDs(r: Report): set<string> {
    set o <- r.operations :: o.id
  }

  function ContextOf(r: Report, env: Environment): Context {
    Context(r.scannerVersion, env.digest, PathsOf(r.inventory), IndexInputs(r.inputs), env.safePath)
  }

  ghost predicate NodesValid(r: Report, c: Context) {
    && (forall o <- r.operations :: OperationValid(o, c))
    && (forall o <- r.resources :: ResourceValid(o, OperationIDs(r), c))
    && (forall f <- r.findings :: FindingValid(f, OperationIDs(r), c))
    && (forall u <- r.unknowns :: UnknownValid(u, OperationIDs(r), c))
    && GraphFacts.DistinctReferences(Nodes(r))
  }

  predicate NativeEvidence(u: Unknown, e: Evidence) {
    u.reason == NativeBehavior && e.inputID == TARGET_INPUT_ID
      && (u.provenance.source.TargetSource? || u.provenance.source.InventoryMetadata?)
  }

  predicate NativeExplained(us: seq<Unknown>, path: string) {
    exists u <- us :: exists e <- u.evidence :: NativeEvidence(u, e) && e.path == path
  }

  ghost predicate BindingsDistinct(us: seq<Unknown>, inputs: Inputs) {
    forall i, j :: 0 <= i < j < |us| && CheckBinding(us[i], inputs).Binding? ==>
      CheckBinding(us[i], inputs) != CheckBinding(us[j], inputs)
  }

  predicate BindingExplained(us: seq<Unknown>, inputs: Inputs, id: string) {
    exists u <- us :: CheckBinding(u, inputs) == Binding(id)
  }

  /** Every ELF record has a native-behavior unknown, and every unbound external input exactly one binding unknown. */
  ghost predicate Explained(r: Report, inputs: Inputs) {
    && BindingsDistinct(r.unknowns, inputs)
    && (forall f <- r.inventory :: f.binary.Some? || f.Elf() ==> NativeExplained(r.unknowns, f.path))
    && (forall input <- r.inputs :: input.inputType == OmarchyInput && input.subjectRootDigest == "" ==>
       BindingExplained(r.unknowns, inputs, input.id))
  }

  function KindsOf(nodes: seq<Node>): Kinds {
    if nodes == [] then map[]
      else KindsOf(nodes[..|nodes| - 1])[nodes[|nodes| - 1].reference := nodes[|nodes| - 1].kind]
  }

  function OriginsOf(nodes: seq<Node>): Origins {
    if nodes == [] then map[]
      else OriginsOf(nodes[..|nodes| - 1])[nodes[|nodes| - 1].reference := nodes[|nodes| - 1].provenance]
  }

  ghost predicate GraphValid(r: Report, digest: Digest) {
    Accepts(r, KindsOf(Nodes(r)), OriginsOf(Nodes(r)), digest)
  }

  predicate NotesValid(r: Report, safePath: string -> bool) {
    (forall l <- r.limitations :: LimitationValid(l, safePath)) && forall e <- r.errors :: ErrorValid(e, safePath)
  }

  predicate ReviewValid(r: Report) {
    && r.review.Some? && Review.CoverageValid(r.review.value.coverage)
    && r.review.value.coverage == Review.CoverageOf(r.inventory)
    && r.review.value == Review.ReviewOf(r, r.review.value.coverage)
  }

  predicate StatusValid(r: Report)
    requires r.review.Some?
  {
    match r.status
    case Complete =>
      && r.unknowns == [] && r.limitations == [] && r.errors == []
      && (r.review.value.coverage.level.CompleteCoverage? || r.review.value.coverage.level.NoCoverage?)
      && r.review.value.coverage.excluded == 0
    case Incomplete => r.unknowns != [] || r.limitations != [] || r.errors != []
    case ErrorStatus => r.errors != []
  }

  ghost predicate RootMatches(r: Report, env: Environment) {
    InventoryDigest.RootDigest(r.inventory, env.validUTF8, env.digest) == Some(r.target.rootDigest)
  }

  /** The target half: header, inputs, manifest, inventory and root digest. */
  ghost predicate TargetValid(r: Report, policies: seq<Policy>, env: Environment) {
    && HeaderValid(r) && InputsValid(r.inputs, r.target.rootDigest, policies) && ManifestValid(r.target.manifest)
    && InventoryValid(r.inventory, r.target.readBytes, r.target.binaryBytes, FileCheck(env.safePath, env.supported))
    && RootMatches(r, env)
  }

  /** The record half: nodes, explanations, graph, notes, review and status. */
  ghost predicate RecordsValid(r: Report, env: Environment) {
    && NodesValid(r, ContextOf(r, env)) && Explained(r, IndexInputs(r.inputs)) && GraphValid(r, env.digest)
    && NotesValid(r, env.safePath) && ReviewValid(r) && StatusValid(r)
  }

  ghost predicate ReportValid(r: Report, policies: seq<Policy>, env: Environment) {
    env.metadataValid && TextsFit(r, env.Check()) && TargetValid(r, policies, env) && RecordsValid(r, env)
  }

  // ---------- the node pass ----------

  /** The reference maps after a prefix of the nodes. */
  ghost predicate Filed(done: seq<Node>, kinds: Kinds, origins: Origins) {
    kinds == KindsOf(done) && origins == OriginsOf(done) && GraphFacts.DistinctReferences(done)
  }

  lemma {:induction false} CatalogueKeys(nodes: seq<Node>)
    ensures KindsOf(nodes).Keys == OriginsOf(nodes).Keys == set n <- nodes :: n.reference
  {
    if nodes != [] {
      CatalogueKeys(nodes[..|nodes| - 1]);
    }
  }

  lemma FiledMore(done: seq<Node>, kinds: Kinds, origins: Origins, node: Node)
    requires Filed(done, kinds, origins)
    ensures GraphFacts.DistinctReferences(done + [node]) <==> node.reference !in kinds
    ensures node.reference !in kinds ==>
      Filed(done + [node], kinds[node.reference := node.kind], origins[node.reference := node.provenance])
  {
    var more := done + [node];
    assert more[..|done|] == done;
    CatalogueKeys(done);
    if node.reference in kinds {
      var n :| n in done && n.reference == node.reference;
      var i :| 0 <= i < |done| && done[i] == n;
      assert more[i].reference == more[|done|].reference;
    } else {
      forall i, j | 0 <= i < j < |more| ensures more[i].reference != more[j].reference {
        assert more[i] in done;
      }
    }
  }

  /** A reference that occurs once is filed with its own node's kind and provenance. */
  lemma {:induction false} FiledAt(nodes: seq<Node>, i: nat)
    requires i < |nodes| && GraphFacts.DistinctReferences(nodes)
    ensures KindAt(KindsOf(nodes), nodes[i].reference) == nodes[i].kind
    ensures OriginAt(OriginsOf(nodes), nodes[i].reference) == nodes[i].provenance
  {
    var n := |nodes| - 1;
    if i < n {
      assert nodes[i].reference != nodes[n].reference && nodes[..n][i] == nodes[i];
      FiledAt(nodes[..n], i);
    }
  }

  lemma Catalogues(nodes: seq<Node>)
    requires GraphFacts.DistinctReferences(nodes)
    ensures GraphFacts.Catalogued(nodes, KindsOf(nodes), OriginsOf(nodes))
  {
    forall i | 0 <= i < |nodes|
      ensures KindAt(KindsOf(nodes), nodes[i].reference) == nodes[i].kind
      ensures OriginAt(OriginsOf(nodes), nodes[i].reference) == nodes[i].provenance
    {
      FiledAt(nodes, i);
    }
    CatalogueKeys(nodes);
    forall key | key in KindsOf(nodes) ensures exists i :: 0 <= i < |nodes| && nodes[i].reference == key {
      var x :| x in nodes && x.reference == key;
      var i :| 0 <= i < |nodes| && nodes[i] == x;
    }
  }

  /** A check that makes every record of one kind carry the reference derived from its ID. */
  ghost predicate Derives<T>(xs: seq<T>, node: T -> Node, valid: T -> bool, kind: NodeKind, digest: Digest) {
    forall x <- xs :: valid(x) ==> Named(node(x), digest) && node(x).kind == kind
  }

  /** What one record loop holds after a prefix of its list. */
  ghost predicate Admitted<T>(
    done: seq<T>, node: T -> Node, valid: T -> bool, before: seq<Node>, kinds: Kinds, origins: Origins,
    ids: set<string>)
  {
    Filed(before + Map(done, node), kinds, origins) && (forall x <- done :: valid(x)) && ids == set x <- done ::
      node(x).id
  }

  lemma AdmitMore<T>(
    done: seq<T>, x: T, node: T -> Node, valid: T -> bool, before: seq<Node>, kinds: Kinds, origins: Origins,
    ids: set<string>)
    requires Admitted(done, node, valid, before, kinds, origins, ids) && valid(x) && node(x).reference !in kinds
    ensures Admitted(done + [x], node, valid, before, kinds[node(x).reference := node(x).kind],
      origins[node(x).reference := node(x).provenance], ids + {node(x).id})
  {
    FiledMore(before + Map(done, node), kinds, origins, node(x));
    assert before + Map(done + [x], node) == before + Map(done, node) + [node(x)];
    assert forall y :: y in done + [x] <==> y in done || y == x;
  }

  lemma ClashRefuses<T>(xs: seq<T>, node: T -> Node, k: nat, before: seq<Node>)
    requires k < |xs| && !GraphFacts.DistinctReferences(before + Map(xs[..k], node) + [node(xs[k])])
    ensures !GraphFacts.DistinctReferences(before + Map(xs, node))
  {
    var part, all := before + Map(xs[..k], node) + [node(xs[k])], before + Map(xs, node);
    assert all[..|part|] == part;
    var i, j :| 0 <= i < j < |part| && part[i].reference == part[j].reference;
    assert all[i] == part[i] && all[j] == part[j];
  }

  /** A repeated ID repeats its reference, so the reference maps would refuse it too. */
  lemma RepeatedIDClashes<T>(done: seq<T>, x: T, node: T -> Node, valid: T -> bool, before: seq<Node>, kinds: Kinds,
    origins: Origins, ids: set<string>,
                             kind: NodeKind, digest: Digest)
    requires Admitted(done, node, valid, before, kinds, origins, ids) && Derives(done + [x], node, valid, kind, digest)
    requires valid(x)
    requires node(x).id in ids
    ensures node(x).reference in kinds
  {
    var y :| y in done && node(y).id == node(x).id;
    assert y in done + [x] && x in done + [x];
    var i :| 0 <= i < |done| && done[i] == y;
    CatalogueKeys(before + Map(done, node));
    assert (before + Map(done, node))[|before| + i] == node(y);
  }

  lemma AdmitRefused<T>(xs: seq<T>, k: nat, node: T -> Node, valid: T -> bool, before: seq<Node>, kinds: Kinds,
    origins: Origins, ids: set<string>,
                        kind: NodeKind, digest: Digest)
    requires k < |xs| && Admitted(xs[..k], node, valid, before, kinds, origins, ids)
    requires Derives(xs, node, valid, kind, digest) && valid(xs[k])
    requires node(xs[k]).id in ids || node(xs[k]).reference in kinds
    ensures !GraphFacts.DistinctReferences(before + Map(xs, node))
  {
    if node(xs[k]).id in ids {
      RepeatedIDClashes(xs[..k], xs[k], node, valid, before, kinds, origins, ids, kind, digest);
    }
    FiledMore(before + Map(xs[..k], node), kinds, origins, node(xs[k]));
    ClashRefuses(xs, node, k, before);
  }

  /** One record loop: per-record checks, the set of IDs, and `addReference` into the shared maps. */
  method AdmitRecords<T(==)>(xs: seq<T>, node: T -> Node, valid: T -> bool, kinds: Kinds, origins: Origins,
                             ghost before: seq<Node>, ghost kind: NodeKind, ghost digest: Digest)
    returns (ok: bool, kinds': Kinds, origins': Origins, ids: set<string>)
    requires Filed(before, kinds, origins) && Derives(xs, node, valid, kind, digest)
    ensures ok <==> (forall x <- xs :: valid(x)) && GraphFacts.DistinctReferences(before + Map(xs, node))
    ensures ok ==> Filed(before + Map(xs, node), kinds', origins') && ids == set x <- xs :: node(x).id
  {
    kinds', origins', ids := kinds, origins, {};
    assert before + Map(xs[..0], node) == before;
    for k := 0 to |xs|
      invariant Admitted(xs[..k], node, valid, before, kinds', origins', ids)
    {
      var x := xs[k];
      if !valid(x) {
        return false, kinds', origins', ids;
      }
      assert Named(node(x), digest);
      if node(x).id in ids || node(x).reference == "" || node(x).reference in kinds' {
        AdmitRefused(xs, k, node, valid, before, kinds', origins', ids, kind, digest);
        return false, kinds', origins', ids;
      }
      AdmitMore(xs[..k], x, node, valid, before, kinds', origins', ids);
      TakeMore(xs, k);
      kinds' := kinds'[node(x).reference := node(x).kind];
      origins' := origins'[node(x).reference := node(x).provenance];
      ids := ids + {node(x).id};
    }
    assert xs[..|xs|] == xs;
    ok := true;
  }

  function OperationCheck(c: Context): Operation -> bool {
    o => OperationValid(o, c)
  }

  function ResourceCheck(operations: set<string>, c: Context): Resource -> bool {
    o => ResourceValid(o, operations, c)
  }

  function FindingCheck(operations: set<string>, c: Context): Finding -> bool {
    f => FindingValid(f, operations, c)
  }

  function UnknownCheck(operations: set<string>, c: Context): Unknown -> bool {
    u => UnknownValid(u, operations, c)
  }

  /** The four record lists, each against its own check. */
  ghost predicate AllPass(
    r: Report, operation: Operation -> bool, resource: Resource -> bool, finding: Finding -> bool,
    unknown: Unknown -> bool)
  {
    && (forall o <- r.operations :: operation(o)) && (forall o <- r.resources :: resource(o))
    && (forall f <- r.findings :: finding(f)) && (forall u <- r.unknowns :: unknown(u))
    && GraphFacts.DistinctReferences(Nodes(r))
  }

  lemma AllPassIsNodesValid(r: Report, c: Context)
    ensures NodesValid(r, c)
      <==> AllPass(r, OperationCheck(c), ResourceCheck(OperationIDs(r), c), FindingCheck(OperationIDs(r), c),
        UnknownCheck(OperationIDs(r), c))
  {
  }

  lemma ChecksDerive(r: Report, operations: set<string>, c: Context)
    ensures Derives(r.operations, OperationAsNode, OperationCheck(c), OperationNode, c.digest)
    ensures Derives(r.resources, ResourceAsNode, ResourceCheck(operations, c), ResourceNode, c.digest)
    ensures Derives(r.findings, FindingAsNode, FindingCheck(operations, c), FindingNode, c.digest)
    ensures Derives(r.unknowns, UnknownAsNode, UnknownCheck(operations, c), UnknownNode, c.digest)
  {
  }

  function NodesBeforeResources(r: Report): seq<Node> {
    [] + Map(r.operations, OperationAsNode)
  }

  function NodesBeforeFindings(r: Report): seq<Node> {
    NodesBeforeResources(r) + Map(r.resources, ResourceAsNode)
  }

  function NodesBeforeUnknowns(r: Report): seq<Node> {
    NodesBeforeFindings(r) + Map(r.findings, FindingAsNode)
  }

  lemma PrefixDistinct(a: seq<Node>, b: seq<Node>)
    requires GraphFacts.DistinctReferences(a + b)
    ensures GraphFacts.DistinctReferences(a)
  {
    forall i, j | 0 <= i < j < |a| ensures a[i].reference != a[j].reference {
      assert (a + b)[i] == a[i] && (a + b)[j] == a[j];
    }
  }

  lemma NodesInOrder(r: Report)
    ensures Nodes(r) == NodesBeforeUnknowns(r) + Map(r.unknowns, UnknownAsNode)
    ensures GraphFacts.DistinctReferences(Nodes(r)) ==> GraphFacts.DistinctReferences(NodesBeforeUnknowns(r))
    ensures GraphFacts.DistinctReferences(NodesBeforeUnknowns(r)) ==>
      GraphFacts.DistinctReferences(NodesBeforeFindings(r))
    ensures GraphFacts.DistinctReferences(NodesBeforeFindings(r)) ==>
      GraphFacts.DistinctReferences(NodesBeforeResources(r))
  {
    assert NodesBeforeResources(r) == Map(r.operations, OperationAsNode);
    if GraphFacts.DistinctReferences(Nodes(r)) {
      PrefixDistinct(NodesBeforeUnknowns(r), Map(r.unknowns, UnknownAsNode));
    }
    if GraphFacts.DistinctReferences(NodesBeforeUnknowns(r)) {
      PrefixDistinct(NodesBeforeFindings(r), Map(r.findings, FindingAsNode));
    }
    if GraphFacts.DistinctReferences(NodesBeforeFindings(r)) {
      PrefixDistinct(NodesBeforeResources(r), Map(r.resources, ResourceAsNode));
    }
  }

  /** The first two record loops: operations, whose IDs later records refer to, and resources. */
  method AdmitObservations(
    r: Report, operation: Operation -> bool, resource: set<string> -> Resource -> bool, ghost digest: Digest)
    returns (ok: bool, kinds: Kinds, origins: Origins, ids: set<string>)
    requires Derives(r.operations, OperationAsNode, operation, OperationNode, digest)
    requires Derives(r.resources, ResourceAsNode, resource(OperationIDs(r)), ResourceNode, digest)
    ensures ok ==>
      (forall o <- r.operations :: operation(o)) && (forall o <- r.resources :: resource(OperationIDs(r))(o))
    ensures ok ==> Filed(NodesBeforeFindings(r), kinds, origins) && ids == OperationIDs(r)
    ensures
      && GraphFacts.DistinctReferences(NodesBeforeFindings(r)) && (forall o <- r.operations :: operation(o))
      && (forall o <- r.resources :: resource(OperationIDs(r))(o))
      ==> ok
  {
    NodesInOrder(r);
    var others;
    ok, kinds, origins, ids := AdmitRecords(r.operations, OperationAsNode, operation, map[], map[], [], OperationNode,
      digest);
    if !ok { return; }
    assert ids == OperationIDs(r);
    ok, kinds, origins, others := AdmitRecords(r.resources, ResourceAsNode, resource(ids), kinds, origins,
      NodesBeforeResources(r), ResourceNode, digest);
  }

  /** The four record loops in order, for any four checks that derive references. */
  method AdmitAll(r: Report, operation: Operation -> bool, resource: set<string> -> Resource -> bool,
    finding: set<string> -> Finding -> bool,
                  unknown: set<string> -> Unknown -> bool, ghost digest: Digest)
                    returns (ok: bool, kinds: Kinds, origins: Origins)
    requires Derives(r.operations, OperationAsNode, operation, OperationNode, digest)
    requires Derives(r.resources, ResourceAsNode, resource(OperationIDs(r)), ResourceNode, digest)
    requires Derives(r.findings, FindingAsNode, finding(OperationIDs(r)), FindingNode, digest)
    requires Derives(r.unknowns, UnknownAsNode, unknown(OperationIDs(r)), UnknownNode, digest)
    ensures ok <==> AllPass(r, operation, resource(OperationIDs(r)), finding(OperationIDs(r)), unknown(OperationIDs(r)))
    ensures ok ==> kinds == KindsOf(Nodes(r)) && origins == OriginsOf(Nodes(r))
  {
    NodesInOrder(r);
    var ids, others;
    ok, kinds, origins, ids := AdmitObservations(r, operation, resource, digest);
    if !ok { return; }
    ok, kinds, origins, others := AdmitRecords(r.findings, FindingAsNode, finding(ids), kinds, origins,
      NodesBeforeFindings(r), FindingNode, digest);
    if !ok { return; }
    ok, kinds, origins, others := AdmitRecords(r.unknowns, UnknownAsNode, unknown(ids), kinds, origins,
      NodesBeforeUnknowns(r), UnknownNode, digest);
  }

  /** The node pass of the validator. */
  method AdmitNodes(r: Report, c: Context) returns (ok: bool, kinds: Kinds, origins: Origins)
    ensures ok <==> NodesValid(r, c)
    ensures ok ==> kinds == KindsOf(Nodes(r)) && origins == OriginsOf(Nodes(r))
  {
    AllPassIsNodesValid(r, c);
    ChecksDerive(r, OperationIDs(r), c);
    ok, kinds, origins :=
      AdmitAll(r, OperationCheck(c), (ids: set<string>) => ResourceCheck(ids, c),
      (ids: set<string>) => FindingCheck(ids, c),
      (ids: set<string>) => UnknownCheck(ids, c), c.digest);
  }

  // ---------- the sweep over unknowns ----------

  method NativePaths(us: seq<Unknown>) returns (paths: set<string>)
    ensures forall path :: path in paths <==> NativeExplained(us, path)
  {
    paths := {};
    for k := 0 to |us|
      invariant forall path :: path in paths <==> NativeExplained(us[..k], path)
    {
      var u := us[k];
      var more := set e <- u.evidence | NativeEvidence(u, e) :: e.path;
      TakeMore(us, k);
      paths := paths + more;
    }
    assert us[..|us|] == us;
  }

  method BindingIDs(us: seq<Unknown>, inputs: Inputs) returns (ok: bool, ids: set<string>)
    ensures ok <==> BindingsDistinct(us, inputs)
    ensures ok ==> forall id :: id in ids <==> BindingExplained(us, inputs, id)
  {
    ids := {};
    for k := 0 to |us|
      invariant BindingsDistinct(us[..k], inputs)
      invariant forall id :: id in ids <==> BindingExplained(us[..k], inputs, id)
    {
      var check := CheckBinding(us[k], inputs);
      TakeMore(us, k);
      if check.Binding? {
        if check.inputID in ids {
          var u :| u in us[..k] && CheckBinding(u, inputs) == check;
          assert exists i :: 0 <= i < k && us[i] == u;
          return false, ids;
        }
        BindingFresh(us, k, inputs);
        ids := ids + {check.inputID};
      }
    }
    assert us[..|us|] == us;
    ok := true;
  }

  lemma BindingFresh(us: seq<Unknown>, k: nat, inputs: Inputs)
    requires k < |us| && BindingsDistinct(us[..k], inputs) && CheckBinding(us[k], inputs).Binding?
    requires !BindingExplained(us[..k], inputs, CheckBinding(us[k], inputs).inputID)
    ensures BindingsDistinct(us[..k + 1], inputs)
  {
    forall i | 0 <= i < k ensures CheckBinding(us[i], inputs) != CheckBinding(us[k], inputs) {
      assert us[..k][i] in us[..k];
    }
  }

  method CheckExplained(r: Report, inputs: Inputs) returns (ok: bool)
    ensures ok <==> Explained(r, inputs)
  {
    var native := NativePaths(r.unknowns);
    var bound;
    ok, bound := BindingIDs(r.unknowns, inputs);
    if !ok {
      return;
    }
    for k := 0 to |r.inventory|
      invariant forall i :: 0 <= i < k && (r.inventory[i].binary.Some? || r.inventory[i].Elf()) ==>
        NativeExplained(r.unknowns, r.inventory[i].path)
    {
      var f := r.inventory[k];
      assert f in r.inventory;
      if (f.binary.Some? || f.Elf()) && f.path !in native {
        return false;
      }
    }
    for k := 0 to |r.inputs|
      invariant forall i ::
        0 <= i < k && r.inputs[i].inputType == OmarchyInput && r.inputs[i].subjectRootDigest == "" ==>
          BindingExplained(r.unknowns, inputs, r.inputs[i].id)
    {
      var input := r.inputs[k];
      assert input in r.inputs;
      if input.inputType == OmarchyInput && input.subjectRootDigest == "" && input.id !in bound {
        return false;
      }
    }
  }

  // ---------- the validator ----------

  /** What Go's types already guarantee of the numbers in a report. */
  predicate MachineNumbers(r: Report) {
    Int64(r.target.readBytes) && Int64(r.target.binaryBytes) && forall f <- r.inventory :: MachineSized(f)
  }

  method ValidateTarget(r: Report, policies: seq<Policy>, env: Environment) returns (ok: bool, c: Context)
    requires MachineNumbers(r)
    ensures ok <==> TargetValid(r, policies, env)
    ensures ok ==> c == ContextOf(r, env)
  {
    c := Context(r.scannerVersion, env.digest, {}, map[], env.safePath);
    if !HeaderValid(r) {
      return false, c;
    }
    var inputs;
    ok, inputs := ValidateEvidenceInputs(r.inputs, r.target.rootDigest, policies);
    if !ok || !ManifestValid(r.target.manifest) {
      return false, c;
    }
    var files;
    ok, files := ValidateInventory(r.inventory, r.target.readBytes, r.target.binaryBytes, env.safePath, env.supported);
    if !ok {
      return false, c;
    }
    var root := InventoryDigest.InventoryRootDigest(r.inventory, env.validUTF8, env.digest);
    if root != Some(r.target.rootDigest) {
      return false, c;
    }
    c := c.(files := files, inputs := inputs);
  }

  method ValidateReview(r: Report) returns (ok: bool)
    ensures ok <==> ReviewValid(r)
  {
    if r.review.None? || !Review.CoverageValid(r.review.value.coverage) {
      return false;
    }
    var coverage := Review.CoverageFromInventory(r.inventory);
    if r.review.value.coverage != coverage {
      return false;
    }
    var expected := Review.DeriveReviewSummary(r, coverage);
    ok := r.review.value == expected;
  }

  method ValidateRecords(r: Report, c: Context, env: Environment) returns (ok: bool)
    requires c == ContextOf(r, env)
    ensures ok <==> RecordsValid(r, env)
  {
    var kinds, origins;
    ok, kinds, origins := AdmitNodes(r, c);
    if !ok {
      return;
    }
    ok := CheckExplained(r, c.inputs);
    if !ok {
      return;
    }
    ok := ValidateRelationships(r, kinds, origins, c.digest);
    if !ok || !NotesValid(r, c.safePath) {
      return false;
    }
    ok := ValidateReview(r);
    if !ok {
      return;
    }
    ok := StatusValid(r);
  }

  /** `validateWithEvidenceInputPolicies` decides `ReportValid`. */
  method Validate(r: Report, policies: seq<Policy>, env: Environment) returns (ok: bool)
    requires MachineNumbers(r)
    ensures ok <==> ReportValid(r, policies, env)
  {
    if !env.metadataValid || !TextsFit(r, env.Check()) {
      return false;
    }
    var c;
    ok, c := ValidateTarget(r, policies, env);
    if !ok {
      return;
    }
    ok := ValidateRecords(r, c, env);
  }
}

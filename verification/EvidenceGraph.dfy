/**
 internal/report/evidence_graph.go: public references, base edges and comparison edges.
 The functions give the value each operation leaves behind; class `LiveReport` performs the same
 operations in place, with the source's maps and loops, and is proved to leave exactly that value.
 */
module EvidenceGraph {
  import opened Text
  import opened Sorting
  import opened ReportModel
  import opened Encodings

  // ---------- digests and display identities ----------

  type Octet = n: nat | n < 256
  type Sum = s: seq<Octet> | |s| == 32 witness seq(32, _ => 0)

  /** SHA-256 in production, but an arbitrary function here: colliding digests are included. */
  type Digest = string -> Sum

  function HexDigit(n: nat): (c: char)
    requires n < 16
    ensures c != '\0'
  {
    if n < 10 then '0' + n as char else 'A' + (n - 10) as char
  }

  function UpperHex(bytes: seq<Octet>): (s: string)
    ensures |s| == 2 * |bytes| && NulFree(s)
  {
    if bytes == [] then "" else [HexDigit(bytes[0] / 16), HexDigit(bytes[0] % 16)] + UpperHex(bytes[1..])
  }

  function Identity(kind: NodeKind, id: string): string {
    NulJoin(kind.Text(), id)
  }

  function PublicReference(kind: NodeKind, id: string, digest: Digest): (s: string)
    ensures s != "" && NulFree(s)
  {
    "PP-" + UpperHex(digest(Identity(kind, id))[..16])
  }

  /** The preimage of an edge ID, which is also the key that relationships are sorted by on encoding. */
  function TupleText(t: EdgeTuple): string {
    NulJoin(t.relation.Text(), NulJoin(t.fromKind.Text(), NulJoin(t.from, NulJoin(t.toKind.Text(), t.to))))
  }

  function RelationshipID(t: EdgeTuple, digest: Digest): (s: string)
    ensures s != ""
  {
    "PE-" + UpperHex(digest(TupleText(t))[..16])
  }

  predicate ListedKind(kind: NodeKind) {
    !kind.UnlistedNode?
  }

  lemma ListedKindText(kind: NodeKind, other: NodeKind)
    requires ListedKind(kind) && ListedKind(other)
    ensures NulFree(kind.Text())
    ensures kind.Text() == other.Text() ==> kind == other
  {
    assert |kind.Text()| == (match kind case OperationNode => 9 case ResourceNode => 8 case _ => 7);
    assert FindingNode.Text()[0] == 'f' && UnknownNode.Text()[0] == 'u';
  }

  lemma IdentityInjective(kind: NodeKind, id: string, kind': NodeKind, id': string)
    requires ListedKind(kind) && ListedKind(kind')
    requires Identity(kind, id) == Identity(kind', id')
    ensures kind == kind' && id == id'
  {
    ListedKindText(kind, kind');
    ListedKindText(kind', kind);
    NulJoinInjective(kind.Text(), id, kind'.Text(), id');
  }

  lemma ListedRelationText(relation: RelationType, other: RelationType)
    requires !relation.UnlistedRelation? && !other.UnlistedRelation?
    ensures NulFree(relation.Text())
    ensures relation.Text() == other.Text() ==> relation == other
  {
    assert |relation.Text()| == (match relation
      case DerivedFrom => 12 case EstablishedBy => 14 case InferredFrom => 13 case UnknownBecause => 15
      case Corroborates => 12 case DisagreesWith => 14 case Duplicates => 10 case UnlistedRelation(_) => 0);
    assert DerivedFrom.Text()[0] == 'd' && Corroborates.Text()[0] == 'c';
    assert EstablishedBy.Text()[0] == 'e' && DisagreesWith.Text()[0] == 'd';
  }

  ghost predicate PlainTuple(t: EdgeTuple) {
    !t.relation.UnlistedRelation? && ListedKind(t.fromKind) && ListedKind(t.toKind) && NulFree(t.from) && NulFree(t.to)
  }

  lemma TupleTextInjective(t: EdgeTuple, u: EdgeTuple)
    requires PlainTuple(t) && PlainTuple(u) && TupleText(t) == TupleText(u)
    ensures t == u
  {
    ListedRelationText(t.relation, u.relation);
    ListedRelationText(u.relation, t.relation);
    ListedKindText(t.fromKind, u.fromKind);
    ListedKindText(u.fromKind, t.fromKind);
    ListedKindText(t.toKind, u.toKind);
    ListedKindText(u.toKind, t.toKind);
    var t3, u3 := NulJoin(t.toKind.Text(), t.to), NulJoin(u.toKind.Text(), u.to);
    var t2, u2 := NulJoin(t.from, t3), NulJoin(u.from, u3);
    var t1, u1 := NulJoin(t.fromKind.Text(), t2), NulJoin(u.fromKind.Text(), u2);
    NulJoinInjective(t.relation.Text(), t1, u.relation.Text(), u1);
    NulJoinInjective(t.fromKind.Text(), t2, u.fromKind.Text(), u2);
    NulJoinInjective(t.from, t3, u.from, u3);
    NulJoinInjective(t.toKind.Text(), t.to, u.toKind.Text(), u.to);
  }

  // ---------- nodes ----------

  /** What every node kind shares: the report's nodes in builder order are one list of these. */
  datatype Node = Node(kind: NodeKind, id: string, reference: string, provenance: Provenance) {
    predicate SameIdentity(other: Node) {
      kind == other.kind && id == other.id
    }
  }

  function OperationAsNode(o: Operation): Node {
    Node(OperationNode, o.id, o.reference, o.provenance)
  }

  function ResourceAsNode(o: Resource): Node {
    Node(ResourceNode, o.id, o.reference, o.provenance)
  }

  function FindingAsNode(o: Finding): Node {
    Node(FindingNode, o.id, o.reference, o.provenance)
  }

  function UnknownAsNode(o: Unknown): Node {
    Node(UnknownNode, o.id, o.reference, o.provenance)
  }

  function Nodes(r: Report): seq<Node> {
    Map(r.operations, OperationAsNode) + Map(r.resources, ResourceAsNode)
      + Map(r.findings, FindingAsNode) + Map(r.unknowns, UnknownAsNode)
  }

  /** An operation or resource as a comparison sees it. */
  datatype Payload =
    | OperationPayload(category: string, scope: Scope, command: string, arguments: seq<string>, dynamic: bool,
      confidence: Confidence)
    | ResourcePayload(kind: string, access: string, value: string, sensitive: bool, dynamic: bool, scope: Scope,
      confidence: Confidence)

  datatype Observation = Observation(
    id: string, reference: string, subject: string, payload: Payload, evidence: Evidence, provenance: Provenance)

  /** `filepath.Base` on slash paths: the text after the last slash once trailing slashes are dropped. */
  function BaseName(path: string): string {
    if path == "" then "."
    else if path[|path| - 1] == '/' then (if |path| == 1 then "/" else BaseName(path[..|path| - 1]))
    else LastElement(path)
  }

  function LastElement(path: string): string {
    if path == "" || path[|path| - 1] == '/' then "" else LastElement(path[..|path| - 1]) + [path[|path| - 1]]
  }

  function ObserveOperation(o: Operation): Observation {
    Observation(o.id, o.reference, NulJoin("command", BaseName(o.command)),
      OperationPayload(o.category, o.scope, o.command, o.arguments, o.dynamic, o.confidence), o.evidence, o.provenance)
  }

  function ObserveResource(o: Resource): Observation {
    Observation(o.id, o.reference, ResourceSubject(o.kind, o.access, o.value),
      ResourcePayload(o.kind, o.access, o.value, o.sensitive, o.dynamic, o.scope, o.confidence), o.evidence,
        o.provenance)
  }

  function Observations(r: Report, kind: NodeKind): seq<Observation> {
    match kind
    case OperationNode => Map(r.operations, ObserveOperation)
    case ResourceNode => Map(r.resources, ObserveResource)
    case _ => []
  }

  function First<T>(xs: seq<T>, p: T -> bool): (r: Option<T>)
    ensures r.Some? ==> r.value in xs && p(r.value)
    ensures r.None? ==> forall x <- xs :: !p(x)
  {
    if xs == [] then None else if p(xs[0]) then Some(xs[0]) else First(xs[1..], p)
  }

  function Last<T>(xs: seq<T>, p: T -> bool): (r: Option<T>)
    ensures r.Some? ==> r.value in xs && p(r.value)
    ensures r.None? ==> forall x <- xs :: !p(x)
  {
    if xs == [] then None else if p(xs[|xs| - 1]) then Some(xs[|xs| - 1]) else Last(xs[..|xs| - 1], p)
  }

  /** The reference of the first node with this kind and ID, or the empty text. */
  function ReferenceOf(r: Report, kind: NodeKind, id: string): string {
    var found := First(Nodes(r), (n: Node) => n.kind == kind && n.id == id);
    if found.Some? then found.value.reference else ""
  }

  /** `semanticSubject`: of the first operation or resource with this ID. */
  function SubjectOf(r: Report, kind: NodeKind, id: string): Option<string> {
    var found := First(Observations(r, kind), (o: Observation) => o.id == id);
    if found.Some? then Some(found.value.subject) else None
  }

  /** `semanticSubjectByReference`. */
  function SubjectAt(r: Report, kind: NodeKind, reference: string): Option<string> {
    var found := First(Observations(r, kind), (o: Observation) => o.reference == reference);
    if found.Some? then Some(found.value.subject) else None
  }

  /** `duplicateEquivalent`: it keeps the last match of each ID. */
  predicate DuplicateEquivalent(r: Report, kind: NodeKind, firstID: string, secondID: string) {
    var first := Last(Observations(r, kind), (o: Observation) => o.id == firstID);
    var second := Last(Observations(r, kind), (o: Observation) => o.id == secondID);
    first.Some? && second.Some? && first.value.payload == second.value.payload
  }

  /** `duplicateEquivalentByReference`. */
  predicate DuplicateEquivalentAt(r: Report, kind: NodeKind, first: string, second: string) {
    var a := Last(Observations(r, kind), (o: Observation) => o.reference == first);
    var b := Last(Observations(r, kind), (o: Observation) => o.reference == second);
    a.Some? && b.Some? && a.value.id != "" && b.value.id != "" && DuplicateEquivalent(r, kind, a.value.id, b.value.id)
  }

  // ---------- coverage differences ----------

  /** The shape that `coverageDifferenceShape` demands of the finding. */
  predicate CoverageFinding(f: Finding, source: Observation, scannerVersion: string) {
    && f.claim == Fact && f.severity == Informational && f.confidence == HighConfidence && f.scope == UnknownScope
    && f.category == COVERAGE_CATEGORY && |f.evidence| == 1 && f.evidence[0] == source.evidence && f.related == []
    && f.provenance.ruleID == COVERAGE_RULE && f.provenance.analyzer == DETERMINISTIC_ANALYZER
    && f.provenance.analyzerVersion == scannerVersion && f.provenance.source == source.provenance.source
  }

  predicate OppositeMatch(r: Report, kind: NodeKind, other: Observation, source: Observation, subject: string) {
    && other.reference != source.reference
    && other.provenance.External() != source.provenance.External()
    && SubjectAt(r, kind, other.reference) == Some(subject)
  }

  /** `coverageDifferenceShape`: no observation on the other evidence side has the source's subject. */
  predicate CoverageDifference(r: Report, kind: NodeKind, source: string, finding: string) {
    var found := Last(Observations(r, kind), (o: Observation) => o.reference == source);
    var subject := SubjectAt(r, kind, source);
    var target := First(r.findings, (f: Finding) => f.reference == finding);
    && found.Some?
    && (found.value.provenance.External() || exists input <- r.inputs :: input.inputType == OmarchyInput)
    && subject.Some?
    && (forall other <- Observations(r, kind) :: !OppositeMatch(r, kind, other, found.value, subject.value))
    && target.Some? && CoverageFinding(target.value, found.value, r.scannerVersion)
  }

  /** `isCoverageDifferenceFinding`: the same question asked by internal IDs, keeping the last match of each. */
  predicate CoverageDifferenceByID(r: Report, kind: NodeKind, sourceID: string, findingID: string) {
    var source := Last(Observations(r, kind), (o: Observation) => o.id == sourceID);
    var finding := Last(r.findings, (f: Finding) => f.id == findingID);
    && source.Some? && source.value.reference != ""
    && finding.Some? && finding.value.reference != ""
    && CoverageDifference(r, kind, source.value.reference, finding.value.reference)
  }

  // ---------- binding evidence to inputs ----------

  /** The least ID among the declared external inputs, or the empty text. */
  function ExternalInput(inputs: seq<EvidenceInput>): string {
    if inputs == [] then ""
    else
      var external := ExternalInput(inputs[..|inputs| - 1]);
      var input := inputs[|inputs| - 1];
      if input.inputType == OmarchyInput && (external == "" || Less(input.id, external)) then input.id else external
  }

  function Bind(e: Evidence, p: Provenance, external: string): Evidence {
    if e.inputID != "" then e else e.(inputID := if p.External() then external else TARGET_INPUT_ID)
  }

  function BindOperation(o: Operation, external: string): Operation {
    o.(evidence := Bind(o.evidence, o.provenance, external))
  }

  function BindResource(o: Resource, external: string): Resource {
    o.(evidence := Bind(o.evidence, o.provenance, external))
  }

  function BindFinding(o: Finding, external: string): Finding {
    o.(evidence := Map(o.evidence, e => Bind(e, o.provenance, external)))
  }

  function BindOrigin(o: ValueOrigin, p: Provenance, external: string): ValueOrigin {
    o.(evidence := Bind(o.evidence, p, external))
  }

  function BindUnknown(o: Unknown, external: string): Unknown {
    o.(evidence := Map(o.evidence, e => Bind(e, o.provenance, external)),
       origins := Map(o.origins, v => BindOrigin(v, o.provenance, external)))
  }

  function Bound(r: Report): Report {
    var external := ExternalInput(r.inputs);
    r.(operations := Map(r.operations, o => BindOperation(o, external)),
       resources := Map(r.resources, o => BindResource(o, external)),
       findings := Map(r.findings, o => BindFinding(o, external)),
       unknowns := Map(r.unknowns, o => BindUnknown(o, external)))
  }

  // ---------- assigning references ----------

  /** The reference of the i-th node of a list when assignment stopped at position n: the failing node loses its own. */
  function Assigned(node: Node, i: int, n: int, digest: Digest): string {
    if i < n then PublicReference(node.kind, node.id, digest) else if i == n then "" else node.reference
  }

  function AssignAll<T>(os: seq<T>, node: T -> Node, put: (T, string) -> T, n: int, digest: Digest): (rs: seq<T>)
    ensures |rs| == |os|
    ensures forall i :: 0 <= i < |os| ==> rs[i] == put(os[i], Assigned(node(os[i]), i, n, digest))
  {
    seq(|os|, i requires 0 <= i < |os| => put(os[i], Assigned(node(os[i]), i, n, digest)))
  }

  function PutOperation(o: Operation, reference: string): Operation { o.(reference := reference) }
  function PutResource(o: Resource, reference: string): Resource { o.(reference := reference) }
  function PutFinding(o: Finding, reference: string): Finding { o.(reference := reference) }
  function PutUnknown(o: Unknown, reference: string): Unknown { o.(reference := reference) }

  /** The report after the first n nodes were given references, in builder order. */
  function Referenced(r: Report, n: int, digest: Digest): Report {
    var a := n;
    var b := a - |r.operations|;
    var c := b - |r.resources|;
    var d := c - |r.findings|;
    r.(operations := AssignAll(r.operations, OperationAsNode, PutOperation, a, digest),
       resources := AssignAll(r.resources, ResourceAsNode, PutResource, b, digest),
       findings := AssignAll(r.findings, FindingAsNode, PutFinding, c, digest),
       unknowns := AssignAll(r.unknowns, UnknownAsNode, PutUnknown, d, digest))
  }

  ghost predicate CollidesAt(nodes: seq<Node>, k: nat, digest: Digest)
    requires k < |nodes|
  {
    exists j :: 0 <= j < k && !nodes[j].SameIdentity(nodes[k])
      && PublicReference(nodes[j].kind, nodes[j].id, digest) == PublicReference(nodes[k].kind, nodes[k].id, digest)
  }

  /** How many nodes receive a reference before two identities collide. */
  ghost function CollisionFree(nodes: seq<Node>, digest: Digest): (n: nat)
    ensures n <= |nodes|
  {
    CollisionFreeFrom(nodes, 0, digest)
  }

  ghost function CollisionFreeFrom(nodes: seq<Node>, from: nat, digest: Digest): (n: nat)
    requires from <= |nodes|
    ensures from <= n <= |nodes|
    decreases |nodes| - from
  {
    if from == |nodes| || CollidesAt(nodes, from, digest) then from else CollisionFreeFrom(nodes, from + 1, digest)
  }

  lemma {:induction false} CollisionFreeFromIsLeast(nodes: seq<Node>, from: nat, digest: Digest)
    requires from <= |nodes|
    ensures forall k :: from <= k < CollisionFreeFrom(nodes, from, digest) ==> !CollidesAt(nodes, k, digest)
    ensures CollisionFreeFrom(nodes, from, digest) < |nodes| ==>
      CollidesAt(nodes, CollisionFreeFrom(nodes, from, digest), digest)
    decreases |nodes| - from
  {
    if from < |nodes| && !CollidesAt(nodes, from, digest) {
      CollisionFreeFromIsLeast(nodes, from + 1, digest);
    }
  }

  /** It is the position of the first node whose reference already names another identity. */
  lemma CollisionFreeIsLeast(nodes: seq<Node>, digest: Digest)
    ensures forall k :: 0 <= k < CollisionFree(nodes, digest) ==> !CollidesAt(nodes, k, digest)
    ensures CollisionFree(nodes, digest) < |nodes| ==> CollidesAt(nodes, CollisionFree(nodes, digest), digest)
  {
    CollisionFreeFromIsLeast(nodes, 0, digest);
  }

  // ---------- base edges ----------

  /** The builder's map from operation IDs: the last operation with an ID wins, a missing one gives the empty text. */
  function OperationReference(os: seq<Operation>, id: string): string {
    if os == [] then ""
    else if os[|os| - 1].id == id then os[|os| - 1].reference
    else OperationReference(os[..|os| - 1], id)
  }

  function ToOperation(
    relation: RelationType, kind: NodeKind, from: string, os: seq<Operation>, id: string): EdgeTuple
  {
    EdgeTuple(relation, kind, from, OperationNode, OperationReference(os, id))
  }

  function FindingRelation(f: Finding): RelationType {
    if f.claim == Inference then InferredFrom else EstablishedBy
  }

  function ResourceTuple(os: seq<Operation>, o: Resource): EdgeTuple {
    ToOperation(DerivedFrom, ResourceNode, o.reference, os, o.relatedOperation)
  }

  function SupportTuples(
    relation: RelationType, kind: NodeKind, from: string, os: seq<Operation>, ids: seq<string>): (ts: seq<EdgeTuple>)
    ensures |ts| == |ids|
    ensures forall i :: 0 <= i < |ids| ==> ts[i] == ToOperation(relation, kind, from, os, ids[i])
  {
    seq(|ids|, i requires 0 <= i < |ids| => ToOperation(relation, kind, from, os, ids[i]))
  }

  function ResourceTuples(os: seq<Operation>, rs: seq<Resource>): (ts: seq<EdgeTuple>)
    ensures |ts| == |rs|
    ensures forall i :: 0 <= i < |rs| ==> ts[i] == ResourceTuple(os, rs[i])
  {
    seq(|rs|, i requires 0 <= i < |rs| => ResourceTuple(os, rs[i]))
  }

  function FindingTuples(os: seq<Operation>, f: Finding): seq<EdgeTuple> {
    SupportTuples(FindingRelation(f), FindingNode, f.reference, os, f.related)
  }

  function FindingsTuples(os: seq<Operation>, fs: seq<Finding>): seq<EdgeTuple> {
    if fs == [] then [] else FindingsTuples(os, fs[..|fs| - 1]) + FindingTuples(os, fs[|fs| - 1])
  }

  function UnknownTuples(os: seq<Operation>, u: Unknown): seq<EdgeTuple> {
    SupportTuples(UnknownBecause, UnknownNode, u.reference, os, u.affected)
  }

  function UnknownsTuples(os: seq<Operation>, us: seq<Unknown>): seq<EdgeTuple> {
    if us == [] then [] else UnknownsTuples(os, us[..|us| - 1]) + UnknownTuples(os, us[|us| - 1])
  }

  /** The typed base edges that a report's own nodes declare, in builder order. */
  function BaseTuples(r: Report): seq<EdgeTuple> {
    ResourceTuples(r.operations, r.resources) + FindingsTuples(r.operations, r.findings)
      + UnknownsTuples(r.operations, r.unknowns)
  }

  function Edge(t: EdgeTuple, comparison: Option<ComparisonBasis>, digest: Digest): Relationship {
    Relationship(RelationshipID(t, digest), t.relation, t.fromKind, t.from, t.toKind, t.to, comparison)
  }

  function BaseEdges(ts: seq<EdgeTuple>, digest: Digest): seq<Relationship> {
    Map(ts, t => Edge(t, None, digest))
  }

  ghost predicate Distinguished(ts: seq<EdgeTuple>, digest: Digest) {
    forall i, j :: 0 <= i < |ts| && 0 <= j < |ts| && RelationshipID(ts[i], digest) == RelationshipID(ts[j], digest) ==>
      ts[i] == ts[j]
  }

  // ---------- relationships in ID order ----------

  predicate IDLess(a: Relationship, b: Relationship) {
    Less(a.id, b.id)
  }

  /** Equal IDs name equal records. Every list the builder produces is coherent, whatever the digest. */
  ghost predicate Coherent(rs: seq<Relationship>) {
    forall i, j :: 0 <= i < |rs| && 0 <= j < |rs| && rs[i].id == rs[j].id ==> rs[i] == rs[j]
  }

  function SortByID(rs: seq<Relationship>): seq<Relationship> {
    SortedBy(rs, IDLess)
  }

  lemma SortByIDSorts(rs: seq<Relationship>)
    ensures SortedPermutation(rs, SortByID(rs), IDLess)
  {
    KeyOrder((e: Relationship) => e.id, IDLess);
    SortedBySorts(rs, IDLess);
  }

  /** On a coherent list every sort by ID, stable or not, gives the same result. */
  lemma SortedByIDIsUnique(rs: seq<Relationship>, sorted: seq<Relationship>)
    requires Coherent(rs) && SortedPermutation(rs, sorted, IDLess)
    ensures sorted == SortByID(rs)
  {
    SortByIDSorts(rs);
    CoherentPermutation(rs, sorted);
    forall i, j | 0 <= i < |sorted| && 0 <= j < |sorted| && !IDLess(sorted[i], sorted[j])
      && !IDLess(sorted[j], sorted[i])
      ensures sorted[i] == sorted[j]
    {
      LessTrichotomy(sorted[i].id, sorted[j].id);
    }
    SortedPermutationIsUnique(sorted, SortByID(rs), IDLess);
  }

  lemma CoherentPermutation(rs: seq<Relationship>, ps: seq<Relationship>)
    requires Coherent(rs) && multiset(rs) == multiset(ps)
    ensures Coherent(ps)
  {
    SameMembers(rs, ps);
    forall i, j | 0 <= i < |ps| && 0 <= j < |ps| && ps[i].id == ps[j].id ensures ps[i] == ps[j] {
      assert ps[i] in rs && ps[j] in rs;
    }
  }

  // ---------- the two operations ----------

  /** The report left behind, and whether the operation reported success. */
  datatype Outcome = Outcome(report: Report, ok: bool)

  ghost function BuildGraph(r: Report, digest: Digest): Outcome {
    var bound := Bound(r);
    var n := CollisionFree(Nodes(bound), digest);
    var referenced := Referenced(bound, n, digest);
    var tuples := BaseTuples(referenced);
    if n < |Nodes(bound)| || |tuples| > MAX_PRODUCED_RELATIONS
      || !Distinguished(tuples, digest) then Outcome(referenced, false)
    else Outcome(referenced.(relationships := SortByID(BaseEdges(tuples, digest))), true)
  }

  /** A request to compare two retained nodes, named by their internal IDs. */
  datatype Comparison = Comparison(
    relation: RelationType, fromKind: NodeKind, fromID: string, toKind: NodeKind, toID: string, basis: ComparisonBasis)

  /** The endpoints in canonical order: a symmetric comparison starts at the lesser reference. */
  function ComparisonTuple(
    relation: RelationType, fromKind: NodeKind, from: string, toKind: NodeKind, to: string): EdgeTuple
  {
    if relation != DisagreesWith && Less(to, from) then EdgeTuple(relation, toKind, to, fromKind, from)
    else EdgeTuple(relation, fromKind, from, toKind, to)
  }

  /** The edge a request asks for, or nothing when the request is refused. */
  function ComparisonEdge(r: Report, v: Comparison, digest: Digest): Option<Relationship> {
    RequestedEdge(v, ReferenceOf(r, v.fromKind, v.fromID), ReferenceOf(r, v.toKind, v.toID),
      SubjectOf(r, v.fromKind, v.fromID), SubjectOf(r, v.toKind, v.toID),
      DuplicateEquivalent(r, v.fromKind, v.fromID, v.toID), CoverageDifferenceByID(r, v.fromKind, v.fromID, v.toID),
        digest)
  }

  /** The same decision over what the report answers about the two endpoints. */
  function RequestedEdge(v: Comparison, from: string, to: string, fromSubject: Option<string>,
    toSubject: Option<string>,
                         equivalent: bool, coverage: bool, digest: Digest): Option<Relationship> {
    if !v.relation.Comparison() || from == "" || to == "" || fromSubject.None? then None
    else
      var tuple := ComparisonTuple(v.relation, v.fromKind, from, v.toKind, to);
      var allowed := match v.relation
        case Corroborates => fromSubject == toSubject && v.fromKind == v.toKind
        case Duplicates => fromSubject == toSubject && v.fromKind == v.toKind && equivalent
        case _ =>
          && v.basis.kind == "coverage" && v.basis.subject != "" && fromSubject.value == v.basis.subject
          && v.toKind == FindingNode && coverage;
      var basis := if v.relation == DisagreesWith then v.basis
        else ComparisonBasis(v.fromKind.Text(), fromSubject.value);
      if allowed then Some(Edge(tuple, Some(basis), digest)) else None
  }

  /** Adding one edge to a list: repeating an identical edge is harmless, any other clash of IDs fails closed. */
  function AddEdge(es: seq<Relationship>, edge: Relationship): (seq<Relationship>, bool) {
    var existing := First(es, (e: Relationship) => e.id == edge.id);
    if existing.Some? then (es, existing.value == edge)
    else if |es| >= MAX_PRODUCED_RELATIONS then (es, false)
    else (SortByID(es + [edge]), true)
  }

  function Compare(r: Report, v: Comparison, digest: Digest): Outcome {
    var edge := ComparisonEdge(r, v, digest);
    if edge.None? then Outcome(r, false)
    else
      var (es, ok) := AddEdge(r.relationships, edge.value);
      Outcome(r.(relationships := es), ok)
  }
}

/**
 Lookups by internal ID and by public reference agree on a grounded report: the builder asks by ID,
 the validator asks by reference, and both reach the same node.
 */
module GraphFacts {
  import opened ReportModel
  import opened EvidenceGraph
  import opened RelationshipValidator

  // ---------- what the validator's node pass establishes ----------

  ghost predicate DistinctIdentities(nodes: seq<Node>) {
    forall i, j :: 0 <= i < j < |nodes| ==> !nodes[i].SameIdentity(nodes[j])
  }

  ghost predicate DistinctReferences(nodes: seq<Node>) {
    forall i, j :: 0 <= i < j < |nodes| ==> nodes[i].reference != nodes[j].reference
  }

  ghost predicate DerivedReferences(nodes: seq<Node>, digest: Digest) {
    forall i :: 0 <= i < |nodes| ==>
      nodes[i].id != "" && nodes[i].reference == PublicReference(nodes[i].kind, nodes[i].id, digest)
  }

  ghost predicate NoRepeats(xs: seq<string>) {
    forall i, j :: 0 <= i < j < |xs| ==> xs[i] != xs[j]
  }

  ghost predicate Declared(os: seq<Operation>, id: string) {
    exists i :: 0 <= i < |os| && os[i].id == id
  }

  /** Supporting operations exist and none is repeated. */
  ghost predicate Supported(r: Report) {
    && (forall i :: 0 <= i < |r.resources| ==> Declared(r.operations, r.resources[i].relatedOperation))
    && (forall i :: 0 <= i < |r.findings| ==> NoRepeats(r.findings[i].related))
    && (forall i, k :: 0 <= i < |r.findings| && 0 <= k < |r.findings[i].related| ==>
       Declared(r.operations, r.findings[i].related[k]))
    && (forall i :: 0 <= i < |r.unknowns| ==> NoRepeats(r.unknowns[i].affected))
    && (forall i, k :: 0 <= i < |r.unknowns| && 0 <= k < |r.unknowns[i].affected| ==>
       Declared(r.operations, r.unknowns[i].affected[k]))
  }

  /** Derived, distinct references over distinct non-empty IDs. */
  ghost predicate WellNamed(r: Report, digest: Digest) {
    DistinctIdentities(Nodes(r)) && DistinctReferences(Nodes(r)) && DerivedReferences(Nodes(r), digest)
  }

  /** What the validator's node pass establishes: well-named nodes and declared support. */
  ghost predicate Grounded(r: Report, digest: Digest) {
    WellNamed(r, digest) && Supported(r)
  }

  /** The reference maps that `addReference` fills. */
  ghost predicate Catalogued(nodes: seq<Node>, kinds: Kinds, origins: Origins) {
    && (forall i :: 0 <= i < |nodes| ==> KindAt(kinds, nodes[i].reference) == nodes[i].kind)
    && (forall i :: 0 <= i < |nodes| ==> OriginAt(origins, nodes[i].reference) == nodes[i].provenance)
    && (forall key <- kinds :: exists i :: 0 <= i < |nodes| && nodes[i].reference == key)
  }

  // ---------- searching ----------

  lemma {:induction false} FirstIsOnly<T>(xs: seq<T>, p: T -> bool, i: nat)
    requires i < |xs| && p(xs[i]) && forall j :: 0 <= j < |xs| && j != i ==> !p(xs[j])
    ensures First(xs, p) == Some(xs[i])
  {
    if i > 0 {
      FirstIsOnly(xs[1..], p, i - 1);
    }
  }

  lemma {:induction false} LastIsOnly<T>(xs: seq<T>, p: T -> bool, i: nat)
    requires i < |xs| && p(xs[i]) && forall j :: 0 <= j < |xs| && j != i ==> !p(xs[j])
    ensures Last(xs, p) == Some(xs[i])
  {
    if i < |xs| - 1 {
      LastIsOnly(xs[..|xs| - 1], p, i);
    }
  }

  // ---------- nodes and observations ----------

  lemma NodePositions(r: Report)
    ensures forall i :: 0 <= i < |r.operations| ==> Nodes(r)[i] == OperationAsNode(r.operations[i])
    ensures forall i :: 0 <= i < |r.resources| ==> Nodes(r)[|r.operations| + i] == ResourceAsNode(r.resources[i])
    ensures forall i :: 0 <= i < |r.findings| ==>
      Nodes(r)[|r.operations| + |r.resources| + i] == FindingAsNode(r.findings[i])
    ensures forall i :: 0 <= i < |r.unknowns| ==>
      Nodes(r)[|r.operations| + |r.resources| + |r.findings| + i] == UnknownAsNode(r.unknowns[i])
    ensures |Nodes(r)| == |r.operations| + |r.resources| + |r.findings| + |r.unknowns|
  {
  }

  function ObservationNode(o: Observation, kind: NodeKind): Node {
    Node(kind, o.id, o.reference, o.provenance)
  }

  function NodePosition(r: Report, kind: NodeKind, i: nat): nat {
    if kind.OperationNode? then i else |r.operations| + i
  }

  lemma ObservationIsNode(r: Report, kind: NodeKind, i: nat)
    requires i < |Observations(r, kind)|
    ensures NodePosition(r, kind, i) < |Nodes(r)|
    ensures Nodes(r)[NodePosition(r, kind, i)] == ObservationNode(Observations(r, kind)[i], kind)
    ensures kind.OperationNode? || kind.ResourceNode?
  {
    NodePositions(r);
  }

  /** Observations of one kind keep distinct IDs and distinct references. */
  lemma ObservationsDistinct(r: Report, digest: Digest, kind: NodeKind)
    requires WellNamed(r, digest)
    ensures var os := Observations(r, kind); forall i, j :: 0 <= i < j < |os| ==>
      os[i].id != os[j].id && os[i].reference != os[j].reference
  {
    var os := Observations(r, kind);
    forall i, j | 0 <= i < j < |os| ensures os[i].id != os[j].id && os[i].reference != os[j].reference {
      ObservationIsNode(r, kind, i);
      ObservationIsNode(r, kind, j);
      assert !Nodes(r)[NodePosition(r, kind, i)].SameIdentity(Nodes(r)[NodePosition(r, kind, j)]);
    }
  }

  /** Every way of asking for an observation reaches the same one. */
  lemma ObservationLookups(r: Report, digest: Digest, kind: NodeKind, i: nat)
    requires WellNamed(r, digest) && i < |Observations(r, kind)|
    ensures var os := Observations(r, kind); var o := os[i];
      && First(os, (x: Observation) => x.id == o.id) == Some(o) && Last(os, (x: Observation) => x.id == o.id) == Some(o)
      && First(os, (x: Observation) => x.reference == o.reference) == Some(o)
      && Last(os, (x: Observation) => x.reference == o.reference) == Some(o)
  {
    ObservationsDistinct(r, digest, kind);
    var os := Observations(r, kind);
    var o := os[i];
    FirstIsOnly(os, (x: Observation) => x.id == o.id, i);
    LastIsOnly(os, (x: Observation) => x.id == o.id, i);
    FirstIsOnly(os, (x: Observation) => x.reference == o.reference, i);
    LastIsOnly(os, (x: Observation) => x.reference == o.reference, i);
  }

  lemma NodesDiffer(nodes: seq<Node>, p: nat, q: nat)
    requires DistinctIdentities(nodes) && DistinctReferences(nodes) && p < q < |nodes|
    ensures !nodes[p].SameIdentity(nodes[q]) && nodes[p].reference != nodes[q].reference
  {
  }

  lemma FindingIsNode(r: Report, i: nat)
    requires i < |r.findings|
    ensures |r.operations| + |r.resources| + |r.findings| <= |Nodes(r)|
    ensures Nodes(r)[|r.operations| + |r.resources| + i] == FindingAsNode(r.findings[i])
  {
  }

  lemma FindingsDistinct(r: Report, digest: Digest, i: nat, j: nat)
    requires WellNamed(r, digest) && i < j < |r.findings|
    ensures r.findings[i].reference != r.findings[j].reference && r.findings[i].id != r.findings[j].id
  {
    FindingIsNode(r, i);
    FindingIsNode(r, j);
    NodesDiffer(Nodes(r), |r.operations| + |r.resources| + i, |r.operations| + |r.resources| + j);
  }

  lemma NodeLookup(r: Report, digest: Digest, i: nat)
    requires WellNamed(r, digest) && i < |Nodes(r)|
    ensures ReferenceOf(r, Nodes(r)[i].kind, Nodes(r)[i].id) == Nodes(r)[i].reference
  {
    var nodes := Nodes(r);
    var n := nodes[i];
    forall j | 0 <= j < |nodes| && j != i ensures !(nodes[j].kind == n.kind && nodes[j].id == n.id) {
      assert !(if i < j then nodes[i].SameIdentity(nodes[j]) else nodes[j].SameIdentity(nodes[i]));
    }
    FirstIsOnly(nodes, (x: Node) => x.kind == n.kind && x.id == n.id, i);
  }

  /** The observation that a subject lookup by ID reached. */
  lemma SubjectHasObservation(r: Report, digest: Digest, kind: NodeKind, id: string) returns (i: nat)
    requires WellNamed(r, digest) && SubjectOf(r, kind, id).Some?
    ensures i < |Observations(r, kind)| && Observations(r, kind)[i].id == id
    ensures SubjectOf(r, kind, id) == Some(Observations(r, kind)[i].subject)
    ensures ReferenceOf(r, kind, id) == Observations(r, kind)[i].reference
  {
    var os := Observations(r, kind);
    var found := First(os, (o: Observation) => o.id == id);
    i :| 0 <= i < |os| && os[i] == found.value;
    ObservationIsNode(r, kind, i);
    NodeLookup(r, digest, NodePosition(r, kind, i));
  }

  lemma SubjectByReference(r: Report, digest: Digest, kind: NodeKind, i: nat)
    requires WellNamed(r, digest) && i < |Observations(r, kind)|
    ensures SubjectAt(r, kind, Observations(r, kind)[i].reference) == Some(Observations(r, kind)[i].subject)
    ensures SubjectOf(r, kind, Observations(r, kind)[i].id) == Some(Observations(r, kind)[i].subject)
  {
    ObservationLookups(r, digest, kind, i);
  }

  /** The observation that a subject lookup by reference reached. */
  lemma ReferenceHasObservation(r: Report, kind: NodeKind, reference: string) returns (i: nat)
    requires SubjectAt(r, kind, reference).Some?
    ensures i < |Observations(r, kind)| && Observations(r, kind)[i].reference == reference
    ensures SubjectAt(r, kind, reference) == Some(Observations(r, kind)[i].subject)
  {
    var os := Observations(r, kind);
    var found := First(os, (o: Observation) => o.reference == reference);
    i :| 0 <= i < |os| && os[i] == found.value;
  }

  /** Equivalence asked by ID, asked by reference, and equality of payloads are one thing. */
  lemma EquivalenceByPayload(r: Report, digest: Digest, kind: NodeKind, i: nat, j: nat)
    requires WellNamed(r, digest) && i < |Observations(r, kind)| && j < |Observations(r, kind)|
    ensures var a, b := Observations(r, kind)[i], Observations(r, kind)[j];
      && (DuplicateEquivalent(r, kind, a.id, b.id) <==> a.payload == b.payload)
      && (DuplicateEquivalentAt(r, kind, a.reference, b.reference) <==> a.payload == b.payload)
  {
    ObservationLookups(r, digest, kind, i);
    ObservationLookups(r, digest, kind, j);
    ObservationIsNode(r, kind, i);
    ObservationIsNode(r, kind, j);
  }
}

/** What acceptance guarantees to a reader of the graph: its comparisons never contradict each other. */
module GraphConsistency {
  import opened ReportModel
  import opened EvidenceGraph
  import opened RelationshipValidator
  import opened GraphFacts
  import opened RunTheorems

  /** An accepted list, seen through what every theorem here needs of it. */
  ghost predicate Sound(r: Report, digest: Digest, kinds: Kinds, origins: Origins) {
    WellNamed(r, digest) && Catalogued(Nodes(r), kinds, origins) && Accepts(r, kinds, origins, digest)
  }

  lemma AcceptedEdge(r: Report, digest: Digest, kinds: Kinds, origins: Origins, e: Relationship)
    requires Accepts(r, kinds, origins, digest) && e in r.relationships
    ensures EdgeValid(r, kinds, origins, e, digest)
  {
    var i :| 0 <= i < |r.relationships| && r.relationships[i] == e;
    assert EdgeCheck(r, kinds, origins, digest)(r.relationships[i]);
  }

  /** The observation behind one endpoint of a symmetric comparison, or behind a disagreement's source. */
  lemma EndpointObservation(
    r: Report, digest: Digest, kinds: Kinds, origins: Origins, kind: NodeKind, reference: string)
    returns (i: nat)
    requires WellNamed(r, digest) && Catalogued(Nodes(r), kinds, origins) && SubjectAt(r, kind, reference).Some?
    ensures i < |Observations(r, kind)| && Observations(r, kind)[i].reference == reference
    ensures OriginAt(origins, reference) == Observations(r, kind)[i].provenance
    ensures Last(Observations(r, kind), (o: Observation) => o.reference == reference) == Some(Observations(r, kind)[i])
  {
    i := ReferenceHasObservation(r, kind, reference);
    ObservationEndpoint(r, digest, kinds, origins, kind, i);
    ObservationLookups(r, digest, kind, i);
  }

  /** A disagreement's source has no observation of its subject on the other evidence side. */
  lemma NoOppositeObservation(
    r: Report, digest: Digest, kinds: Kinds, origins: Origins, kind: NodeKind, source: string, finding: string,
    other: string)
    requires WellNamed(r, digest) && Catalogued(Nodes(r), kinds, origins)
    requires CoverageDifference(r, kind, source, finding)
    requires SubjectAt(r, kind, other).Some? && SubjectAt(r, kind, other) == SubjectAt(r, kind, source)
    ensures OriginAt(origins, other).External() == OriginAt(origins, source).External()
  {
    var i := EndpointObservation(r, digest, kinds, origins, kind, source);
    var j := EndpointObservation(r, digest, kinds, origins, kind, other);
    var os := Observations(r, kind);
    assert os[j] in os;
    assert !OppositeMatch(r, kind, os[j], os[i], SubjectAt(r, kind, source).value);
  }

  /** No observation is both an endpoint of a corroboration and the source of a coverage disagreement. */
  lemma CorroboratedIsNotMissing(
    r: Report, digest: Digest, kinds: Kinds, origins: Origins, e: Relationship, d: Relationship)
    requires Sound(r, digest, kinds, origins) && e in r.relationships && d in r.relationships
    requires e.relation.Corroborates? && d.relation.DisagreesWith?
    ensures d.from != e.from && d.from != e.to
  {
    AcceptedEdge(r, digest, kinds, origins, e);
    AcceptedEdge(r, digest, kinds, origins, d);
    if d.from == e.from {
      NoOppositeObservation(r, digest, kinds, origins, d.fromKind, d.from, d.to, e.to);
    }
    if d.from == e.to {
      NoOppositeObservation(r, digest, kinds, origins, d.fromKind, d.from, d.to, e.from);
    }
  }

  /** All observations of a disagreement source's kind and subject lie on one evidence side. */
  lemma MissingIsOneSided(r: Report, digest: Digest, kinds: Kinds, origins: Origins, d: Relationship, i: nat, j: nat)
    requires Sound(r, digest, kinds, origins) && d in r.relationships && d.relation.DisagreesWith?
    requires i < |Observations(r, d.fromKind)| && j < |Observations(r, d.fromKind)|
    requires Some(Observations(r, d.fromKind)[i].subject) == SubjectAt(r, d.fromKind, d.from)
    requires Some(Observations(r, d.fromKind)[j].subject) == SubjectAt(r, d.fromKind, d.from)
    ensures Observations(r, d.fromKind)[i].provenance.External() == Observations(r, d.fromKind)[j].provenance.External()
  {
    AcceptedEdge(r, digest, kinds, origins, d);
    var os := Observations(r, d.fromKind);
    SubjectByReference(r, digest, d.fromKind, i);
    SubjectByReference(r, digest, d.fromKind, j);
    ObservationEndpoint(r, digest, kinds, origins, d.fromKind, i);
    ObservationEndpoint(r, digest, kinds, origins, d.fromKind, j);
    NoOppositeObservation(r, digest, kinds, origins, d.fromKind, d.from, d.to, os[i].reference);
    NoOppositeObservation(r, digest, kinds, origins, d.fromKind, d.from, d.to, os[j].reference);
  }

  lemma EvidenceSides(r: Report, e: Relationship, origins: Origins)
    requires ComparisonValid(r, e, origins)
    ensures e.relation.Corroborates? ==> OriginAt(origins, e.from).External() != OriginAt(origins, e.to).External()
    ensures e.relation.Duplicates? ==> OriginAt(origins, e.from).External() == OriginAt(origins, e.to).External()
  {
  }

  /** No two observations are both independent corroborations and duplicates of each other, in either direction. */
  lemma CorroboratedIsNotDuplicated(
    r: Report, digest: Digest, kinds: Kinds, origins: Origins, e: Relationship, d: Relationship)
    requires Sound(r, digest, kinds, origins) && e in r.relationships && d in r.relationships
    requires e.relation.Corroborates? && d.relation.Duplicates?
    ensures !(d.from == e.from && d.to == e.to) && !(d.from == e.to && d.to == e.from)
  {
    AcceptedEdge(r, digest, kinds, origins, e);
    AcceptedEdge(r, digest, kinds, origins, d);
    EvidenceSides(r, e, origins);
    EvidenceSides(r, d, origins);
  }
}

/** The relationship validator does not look at the order of records: an accepted graph stays accepted. */
module GraphUnderOrder {
  import opened Sorting
  import opened ReportModel
  import opened EvidenceGraph
  import opened RelationshipValidator
  import opened GraphFacts
  import BaseEdgeTheorems
  import opened ReportValidator
  import opened Permutations

  // ---------- reordered reports ----------

  /** Findings that say the same, but for the order of their lists. */
  ghost predicate SameFinding(f: Finding, g: Finding) {
    g == f.(evidence := g.evidence, related := g.related) && multiset(f.evidence) == multiset(g.evidence)
      && multiset(f.related) == multiset(g.related)
  }

  ghost predicate SameUnknown(u: Unknown, v: Unknown) {
    && v == u.(evidence := v.evidence, affected := v.affected, suppressed := v.suppressed)
    && multiset(u.evidence) == multiset(v.evidence) && multiset(u.affected) == multiset(v.affected)
    && multiset(u.suppressed) == multiset(v.suppressed)
  }

  ghost predicate FindingsWithin(fs: seq<Finding>, gs: seq<Finding>) {
    forall f <- fs :: exists g <- gs :: SameFinding(f, g)
  }

  ghost predicate UnknownsWithin(us: seq<Unknown>, vs: seq<Unknown>) {
    forall u <- us :: exists v <- vs :: SameUnknown(u, v)
  }

  /** The same records in another order. */
  ghost predicate Reordered(a: Report, b: Report) {
    && a.scannerVersion == b.scannerVersion && multiset(a.inputs) == multiset(b.inputs)
    && multiset(a.operations) == multiset(b.operations) && multiset(a.resources) == multiset(b.resources)
    && FindingsWithin(a.findings, b.findings) && FindingsWithin(b.findings, a.findings)
    && UnknownsWithin(a.unknowns, b.unknowns) && UnknownsWithin(b.unknowns, a.unknowns)
    && multiset(a.relationships) == multiset(b.relationships)
    && multiset(Nodes(a)) == multiset(Nodes(b))
  }

  lemma ReorderedBack(a: Report, b: Report)
    requires Reordered(a, b)
    ensures Reordered(b, a)
  {
  }

  // ---------- lookups ----------

  lemma SameObservations(a: Report, b: Report, kind: NodeKind)
    requires Reordered(a, b)
    ensures multiset(Observations(a, kind)) == multiset(Observations(b, kind))
  {
    MapPermutation(a.operations, b.operations, ObserveOperation);
    MapPermutation(a.resources, b.resources, ObserveResource);
  }

  lemma OneObservation(a: Report, digest: Digest, kind: NodeKind, x: Observation, y: Observation)
    requires WellNamed(a, digest) && x in Observations(a, kind) && y in Observations(a, kind)
    ensures x.reference == y.reference ==> x == y
    ensures x.id == y.id ==> x == y
  {
    ObservationsDistinct(a, digest, kind);
    var os := Observations(a, kind);
    var i :| 0 <= i < |os| && os[i] == x;
    var j :| 0 <= j < |os| && os[j] == y;
    assert i < j ==> os[i].id != os[j].id && os[i].reference != os[j].reference;
    assert j < i ==> os[j].id != os[i].id && os[j].reference != os[i].reference;
  }

  /** Every lookup of an observation, by reference or by ID, is the same in both orders. */
  lemma SameObservationLookups(a: Report, b: Report, digest: Digest, kind: NodeKind, text: string)
    requires Reordered(a, b) && WellNamed(a, digest)
    ensures var p, q := (o: Observation) => o.reference == text, (o: Observation) => o.id == text;
      && First(Observations(a, kind), p) == First(Observations(b, kind), p)
      && Last(Observations(a, kind), p) == Last(Observations(b, kind), p)
      && Last(Observations(a, kind), q) == Last(Observations(b, kind), q)
  {
    SameObservations(a, b, kind);
    var os := Observations(a, kind);
    forall x <- os, y <- os ensures (x.reference == y.reference ==> x == y) && (x.id == y.id ==> x == y) {
      OneObservation(a, digest, kind, x, y);
    }
    SameLookup(os, Observations(b, kind), (o: Observation) => o.reference == text);
    SameLookup(os, Observations(b, kind), (o: Observation) => o.id == text);
  }

  lemma SameSubjects(a: Report, b: Report, digest: Digest, kind: NodeKind, reference: string)
    requires Reordered(a, b) && WellNamed(a, digest)
    ensures SubjectAt(a, kind, reference) == SubjectAt(b, kind, reference)
  {
    SameObservationLookups(a, b, digest, kind, reference);
  }

  lemma SameEquivalence(a: Report, b: Report, digest: Digest, kind: NodeKind, first: string, second: string)
    requires Reordered(a, b) && WellNamed(a, digest)
    ensures DuplicateEquivalentAt(a, kind, first, second) == DuplicateEquivalentAt(b, kind, first, second)
  {
    SameObservationLookups(a, b, digest, kind, first);
    SameObservationLookups(a, b, digest, kind, second);
    var x, y := Last(Observations(a, kind), (o: Observation) => o.reference == first), Last(Observations(a, kind),
      (o: Observation) => o.reference == second);
    if x.Some? && y.Some? {
      SameObservationLookups(a, b, digest, kind, x.value.id);
      SameObservationLookups(a, b, digest, kind, y.value.id);
    }
  }

  lemma OneFinding(b: Report, digest: Digest, x: Finding, y: Finding)
    requires WellNamed(b, digest) && x in b.findings && y in b.findings && x.reference == y.reference
    ensures x == y
  {
    var i :| 0 <= i < |b.findings| && b.findings[i] == x;
    var j :| 0 <= j < |b.findings| && b.findings[j] == y;
    if i < j {
      FindingsDistinct(b, digest, i, j);
    } else if j < i {
      FindingsDistinct(b, digest, j, i);
    }
  }

  lemma FindingTarget(a: Report, b: Report, digest: Digest, reference: string)
    requires FindingsWithin(a.findings, b.findings) && WellNamed(b, digest)
    ensures var x, y := First(a.findings, (f: Finding) => f.reference == reference),
      First(b.findings, (f: Finding) => f.reference == reference);
      x.Some? ==> y.Some? && SameFinding(x.value, y.value)
  {
    var x, y := First(a.findings, (f: Finding) => f.reference == reference), First(b.findings,
      (f: Finding) => f.reference == reference);
    if x.Some? {
      var g :| g in b.findings && SameFinding(x.value, g);
      assert g.reference == reference;
      OneFinding(b, digest, g, y.value);
    }
  }

  lemma CoverageFindingKept(f: Finding, g: Finding, source: Observation, scannerVersion: string)
    requires SameFinding(f, g) && CoverageFinding(f, source, scannerVersion)
    ensures CoverageFinding(g, source, scannerVersion)
  {
    SingletonKept(f.evidence, g.evidence);
    SingletonKept(f.related, g.related);
  }

  lemma CoverageKept(a: Report, b: Report, digest: Digest, kind: NodeKind, source: string, finding: string)
    requires Reordered(a, b) && WellNamed(a, digest) && WellNamed(b, digest)
    requires CoverageDifference(a, kind, source, finding)
    ensures CoverageDifference(b, kind, source, finding)
  {
    SameObservationLookups(a, b, digest, kind, source);
    SameSubjects(a, b, digest, kind, source);
    SameObservations(a, b, kind);
    SameMembers(Observations(a, kind), Observations(b, kind));
    SameMembers(a.inputs, b.inputs);
    FindingTarget(a, b, digest, finding);
    var found := Last(Observations(a, kind), (o: Observation) => o.reference == source);
    var subject := SubjectAt(a, kind, source);
    CoverageFindingKept(First(a.findings, (f: Finding) => f.reference == finding).value,
      First(b.findings, (f: Finding) => f.reference == finding).value, found.value, a.scannerVersion);
    forall other | other in Observations(b, kind) ensures !OppositeMatch(b, kind, other, found.value, subject.value) {
      SameSubjects(a, b, digest, kind, other.reference);
      assert !OppositeMatch(a, kind, other, found.value, subject.value);
    }
  }

  lemma SymmetricKept(a: Report, b: Report, digest: Digest, e: Relationship, basis: ComparisonBasis)
    requires Reordered(a, b) && WellNamed(a, digest)
    ensures Symmetric(a, e, basis) == Symmetric(b, e, basis)
  {
    SameSubjects(a, b, digest, e.fromKind, e.from);
    SameSubjects(a, b, digest, e.toKind, e.to);
  }

  lemma ComparisonKept(a: Report, b: Report, digest: Digest, e: Relationship, origins: Origins)
    requires Reordered(a, b) && WellNamed(a, digest) && WellNamed(b, digest) && ComparisonValid(a, e, origins)
    ensures ComparisonValid(b, e, origins)
  {
    SymmetricKept(a, b, digest, e, e.comparison.value);
    SameEquivalence(a, b, digest, e.fromKind, e.from, e.to);
    SameSubjects(a, b, digest, e.fromKind, e.from);
    if e.relation.DisagreesWith? {
      CoverageKept(a, b, digest, e.fromKind, e.from, e.to);
    }
  }

  // ---------- base tuples ----------

  lemma SameOperationReference(a: Report, b: Report, digest: Digest, id: string)
    requires Reordered(a, b) && WellNamed(a, digest) && WellNamed(b, digest)
    ensures OperationReference(a.operations, id) == OperationReference(b.operations, id)
  {
    SameMembers(a.operations, b.operations);
    OperationAgrees(a, b, digest, id);
    OperationAgrees(b, a, digest, id);
  }

  lemma {:induction false} ReferenceSource(os: seq<Operation>, id: string)
    ensures OperationReference(os, id) == "" || exists o <- os ::
      o.id == id && o.reference == OperationReference(os, id)
    ensures
      && (exists o <- os :: o.id == id && o.reference != "")
      && (forall o <- os, q <- os :: o.id == q.id ==> o == q)
      ==> OperationReference(os, id) != ""
  {
    if os != [] {
      ReferenceSource(os[..|os| - 1], id);
      if os[|os| - 1].id == id {
        assert os[|os| - 1] in os;
      }
    }
  }

  lemma OperationsDiffer(a: Report, digest: Digest, i: nat, j: nat)
    requires WellNamed(a, digest) && i < j < |a.operations|
    ensures a.operations[i].id != a.operations[j].id
  {
    BaseEdgeTheorems.OperationIsNode(a, i);
    BaseEdgeTheorems.OperationIsNode(a, j);
    NodesDiffer(Nodes(a), i, j);
  }

  lemma OneOperation(a: Report, digest: Digest, o: Operation, q: Operation)
    requires WellNamed(a, digest) && o in a.operations && q in a.operations && o.id == q.id
    ensures o == q && o.reference != ""
  {
    var i :| 0 <= i < |a.operations| && a.operations[i] == o;
    var j :| 0 <= j < |a.operations| && a.operations[j] == q;
    BaseEdgeTheorems.OperationIsNode(a, i);
    if i < j {
      OperationsDiffer(a, digest, i, j);
    } else if j < i {
      OperationsDiffer(a, digest, j, i);
    }
  }

  lemma OperationAgrees(a: Report, b: Report, digest: Digest, id: string)
    requires WellNamed(a, digest) && WellNamed(b, digest) && (forall o :: o in a.operations <==> o in b.operations)
    ensures OperationReference(a.operations, id) != "" ==>
      OperationReference(b.operations, id) == OperationReference(a.operations, id)
  {
    ReferenceSource(a.operations, id);
    ReferenceSource(b.operations, id);
    forall o <- b.operations, q <- b.operations | o.id == q.id ensures o == q {
      OneOperation(b, digest, o, q);
    }
  }

  /** Operation references resolve alike in both orders. */
  ghost predicate SameResolution(os: seq<Operation>, qs: seq<Operation>) {
    forall id :: OperationReference(os, id) == OperationReference(qs, id)
  }

  lemma Resolves(a: Report, b: Report, digest: Digest)
    requires Reordered(a, b) && WellNamed(a, digest) && WellNamed(b, digest)
    ensures SameResolution(a.operations, b.operations)
  {
    forall id ensures OperationReference(a.operations, id) == OperationReference(b.operations, id) {
      SameOperationReference(a, b, digest, id);
    }
  }

  lemma ResourceTupleKept(os: seq<Operation>, qs: seq<Operation>, xs: seq<Resource>, ys: seq<Resource>, t: EdgeTuple)
    requires SameResolution(os, qs) && multiset(xs) == multiset(ys) && t in ResourceTuples(os, xs)
    ensures t in ResourceTuples(qs, ys)
  {
    var i :| 0 <= i < |xs| && ResourceTuples(os, xs)[i] == t;
    SameMembers(xs, ys);
    assert xs[i] in ys;
    var j :| 0 <= j < |ys| && ys[j] == xs[i];
    assert ResourceTuples(qs, ys)[j] == t;
  }

  lemma FindingTupleKept(os: seq<Operation>, qs: seq<Operation>, fs: seq<Finding>, gs: seq<Finding>, t: EdgeTuple)
    requires SameResolution(os, qs) && FindingsWithin(fs, gs) && t in FindingsTuples(os, fs)
    ensures t in FindingsTuples(qs, gs)
  {
    var i, k := BaseEdgeTheorems.FindingTupleSource(os, fs, t);
    assert fs[i] in fs;
    var g :| g in gs && SameFinding(fs[i], g);
    SameMembers(fs[i].related, g.related);
    assert fs[i].related[k] in g.related;
    FindingTupleIn(qs, gs, g, fs[i].related[k]);
  }

  lemma UnknownTupleKept(os: seq<Operation>, qs: seq<Operation>, us: seq<Unknown>, vs: seq<Unknown>, t: EdgeTuple)
    requires SameResolution(os, qs) && UnknownsWithin(us, vs) && t in UnknownsTuples(os, us)
    ensures t in UnknownsTuples(qs, vs)
  {
    var i, k := BaseEdgeTheorems.UnknownTupleSource(os, us, t);
    assert us[i] in us;
    var v :| v in vs && SameUnknown(us[i], v);
    SameMembers(us[i].affected, v.affected);
    assert us[i].affected[k] in v.affected;
    UnknownTupleIn(qs, vs, v, us[i].affected[k]);
  }

  lemma TupleKept(a: Report, b: Report, digest: Digest, t: EdgeTuple)
    requires Reordered(a, b) && WellNamed(a, digest) && WellNamed(b, digest) && t in BaseTuples(a)
    ensures t in BaseTuples(b)
  {
    Resolves(a, b, digest);
    if t in ResourceTuples(a.operations, a.resources) {
      ResourceTupleKept(a.operations, b.operations, a.resources, b.resources, t);
    } else if t in FindingsTuples(a.operations, a.findings) {
      FindingTupleKept(a.operations, b.operations, a.findings, b.findings, t);
    } else {
      UnknownTupleKept(a.operations, b.operations, a.unknowns, b.unknowns, t);
    }
  }

  lemma {:induction false} FindingTupleIn(os: seq<Operation>, fs: seq<Finding>, f: Finding, id: string)
    requires f in fs && id in f.related
    ensures ToOperation(FindingRelation(f), FindingNode, f.reference, os, id) in FindingsTuples(os, fs)
  {
    var n := |fs| - 1;
    if f == fs[n] {
      var k :| 0 <= k < |f.related| && f.related[k] == id;
      assert FindingTuples(os, f)[k] == ToOperation(FindingRelation(f), FindingNode, f.reference, os, id);
    } else {
      FindingTupleIn(os, fs[..n], f, id);
    }
  }

  lemma {:induction false} UnknownTupleIn(os: seq<Operation>, us: seq<Unknown>, u: Unknown, id: string)
    requires u in us && id in u.affected
    ensures ToOperation(UnknownBecause, UnknownNode, u.reference, os, id) in UnknownsTuples(os, us)
  {
    var n := |us| - 1;
    if u == us[n] {
      var k :| 0 <= k < |u.affected| && u.affected[k] == id;
      assert UnknownTuples(os, u)[k] == ToOperation(UnknownBecause, UnknownNode, u.reference, os, id);
    } else {
      UnknownTupleIn(os, us[..n], u, id);
    }
  }

  lemma ReservedWithin(a: Report, b: Report)
    requires FindingsWithin(a.findings, b.findings)
    ensures ReservedReferences(a) <= ReservedReferences(b)
  {
    forall f | f in a.findings && Reserved(f) ensures f.reference in ReservedReferences(b) {
      var g :| g in b.findings && SameFinding(f, g);
      assert Reserved(g) && g.reference == f.reference;
    }
  }

  lemma SameReserved(a: Report, b: Report)
    requires Reordered(a, b)
    ensures ReservedReferences(a) == ReservedReferences(b)
  {
    ReservedWithin(a, b);
    ReservedWithin(b, a);
  }

  lemma EdgeKept(a: Report, b: Report, kinds: Kinds, origins: Origins, digest: Digest, e: Relationship)
    requires Reordered(a, b) && WellNamed(a, digest) && WellNamed(b, digest) && EdgeValid(a, kinds, origins, e, digest)
    ensures EdgeValid(b, kinds, origins, e, digest)
  {
    SameReserved(a, b);
    if e.relation.Comparison() {
      ComparisonKept(a, b, digest, e, origins);
    } else {
      TupleKept(a, b, digest, e.Tuple());
    }
  }

  // ---------- the list ----------

  function Weight(ok: Relationship -> bool): Relationship -> int {
    e => if ok(e) then 1 else 0
  }

  lemma {:induction false} CountsAreSums(es: seq<Relationship>, finding: string)
    ensures ComparisonCount(es) == SumBy(es, Weight((e: Relationship) => e.relation.Comparison()))
    ensures Disagreements(es, finding) ==
      SumBy(es, Weight((e: Relationship) => e.relation.DisagreesWith? && e.to == finding))
  {
    if es != [] {
      CountsAreSums(es[..|es| - 1], finding);
    }
  }

  lemma SameCounts(es: seq<Relationship>, fs: seq<Relationship>, finding: string)
    requires multiset(es) == multiset(fs)
    ensures ComparisonCount(es) == ComparisonCount(fs) && Disagreements(es, finding) == Disagreements(fs, finding)
  {
    CountsAreSums(es, finding);
    CountsAreSums(fs, finding);
    SumPermutation(es, fs, Weight((e: Relationship) => e.relation.Comparison()));
    SumPermutation(es, fs, Weight((e: Relationship) => e.relation.DisagreesWith? && e.to == finding));
  }

  lemma SameDistinctness(es: seq<Relationship>, fs: seq<Relationship>)
    requires multiset(es) == multiset(fs) && DistinctIDs(es) && DistinctPairs(es)
    ensures DistinctIDs(fs) && DistinctPairs(fs)
  {
    var byID := (x: Relationship, y: Relationship) => x.id != y.id;
    var byPair := (x: Relationship, y: Relationship) => x.relation.Comparison() && y.relation.Comparison() ==>
      PairKey(x) != PairKey(y);
    assert Pairwise(es, byID) && Pairwise(es, byPair);
    PairwisePermutation(es, fs, byID);
    PairwisePermutation(es, fs, byPair);
    forall i, j | 0 <= i < j < |fs|
      ensures fs[i].id != fs[j].id
      ensures (fs[i].relation.Comparison() && fs[j].relation.Comparison() ==> PairKey(fs[i]) != PairKey(fs[j]))
    {
      assert byID(fs[i], fs[j]) && byPair(fs[i], fs[j]);
    }
  }

  lemma ListKept(valid: Relationship -> bool, valid': Relationship -> bool, es: seq<Relationship>,
    fs: seq<Relationship>,
                 ts: seq<EdgeTuple>, us: seq<EdgeTuple>, reserved: set<string>)
    requires ListAccepted(valid, es, ts, reserved) && multiset(es) == multiset(fs)
    requires (forall e :: valid(e) ==> valid'(e)) && forall u <- us :: u in ts
    ensures ListAccepted(valid', fs, us, reserved)
  {
    SameMembers(es, fs);
    SameDistinctness(es, fs);
    forall i | 0 <= i < |fs| ensures valid'(fs[i]) {
      assert fs[i] in es;
      var j :| 0 <= j < |es| && es[j] == fs[i];
      assert valid(es[j]);
    }
    forall i | 0 <= i < |us| ensures Present(us[i], fs) {
      assert us[i] in us;
      var j :| 0 <= j < |ts| && ts[j] == us[i];
      assert Present(ts[j], es);
    }
    SameCounts(es, fs, "");
    forall f | f in reserved ensures Disagreements(fs, f) == 1 {
      SameCounts(es, fs, f);
    }
  }

  lemma SameEntryFor(xs: seq<Node>, ys: seq<Node>, key: string)
    requires Catalogued(xs, KindsOf(xs), OriginsOf(xs)) && Catalogued(ys, KindsOf(ys), OriginsOf(ys))
    requires multiset(xs) == multiset(ys) && key in KindsOf(xs)
    ensures KindAt(KindsOf(xs), key) == KindAt(KindsOf(ys), key)
    ensures OriginAt(OriginsOf(xs), key) == OriginAt(OriginsOf(ys), key)
  {
    SameMembers(xs, ys);
    var i :| 0 <= i < |xs| && xs[i].reference == key;
    assert xs[i] in ys;
    var j :| 0 <= j < |ys| && ys[j] == xs[i];
  }

  lemma SameKeys(xs: seq<Node>, ys: seq<Node>)
    requires multiset(xs) == multiset(ys)
    ensures KindsOf(xs).Keys == KindsOf(ys).Keys && OriginsOf(xs).Keys == OriginsOf(ys).Keys
    ensures KindsOf(xs).Keys == OriginsOf(xs).Keys
  {
    CatalogueKeys(xs);
    CatalogueKeys(ys);
    SameMembers(xs, ys);
  }

  lemma EqualMaps<K, V>(a: map<K, V>, b: map<K, V>)
    requires a.Keys == b.Keys && forall k <- a.Keys :: a[k] == b[k]
    ensures a == b
  {
  }

  lemma SameCatalogue(xs: seq<Node>, ys: seq<Node>)
    requires multiset(xs) == multiset(ys) && DistinctReferences(xs) && DistinctReferences(ys)
    ensures KindsOf(xs) == KindsOf(ys) && OriginsOf(xs) == OriginsOf(ys)
  {
    Catalogues(xs);
    Catalogues(ys);
    SameKeys(xs, ys);
    var ks, kt, os, ot := KindsOf(xs), KindsOf(ys), OriginsOf(xs), OriginsOf(ys);
    forall key | key in ks.Keys ensures ks[key] == kt[key] && os[key] == ot[key] {
      SameEntryFor(xs, ys, key);
    }
    EqualMaps(ks, kt);
    EqualMaps(os, ot);
  }

  /** Acceptance of a graph does not depend on the order of anything in the report. */
  lemma GraphValidUnderOrder(a: Report, b: Report, digest: Digest)
    requires Reordered(a, b) && WellNamed(a, digest) && WellNamed(b, digest) && GraphValid(a, digest)
    ensures GraphValid(b, digest)
  {
    var kinds, origins := KindsOf(Nodes(a)), OriginsOf(Nodes(a));
    SameCatalogue(Nodes(a), Nodes(b));
    ReorderedBack(a, b);
    forall e: Relationship | EdgeCheck(a, kinds, origins, digest)(e) ensures EdgeCheck(b, kinds, origins, digest)(e) {
      EdgeKept(a, b, kinds, origins, digest, e);
    }
    forall t | t in BaseTuples(b) ensures t in BaseTuples(a) {
      TupleKept(b, a, digest, t);
    }
    SameReserved(a, b);
    ListKept(EdgeCheck(a, kinds, origins, digest), EdgeCheck(b, kinds, origins, digest), a.relationships,
      b.relationships,
      BaseTuples(a), BaseTuples(b), ReservedReferences(a));
  }
}

/**
 Whole runs: a build followed by any sequence of AddComparison calls, refused calls included. What every
 reachable list keeps, and exactly which runs the independent validator accepts.
 */
module RunTheorems {
  import opened Text
  import opened Sorting
  import opened ReportModel
  import opened Encodings
  import opened EvidenceGraph
  import opened RelationshipValidator
  import opened GraphFacts
  import opened BaseEdgeTheorems
  import opened BuildTheorems
  import opened ComparisonTheorems

  function Run(r: Report, calls: seq<Comparison>, digest: Digest): Report {
    if calls == [] then r
    else Compare(Run(r, calls[..|calls| - 1], digest), calls[|calls| - 1], digest).report
  }

  // ---------- what every reachable list keeps ----------

  /** Some request on the built report asks for exactly this edge. */
  ghost predicate Requested(g: Report, e: Relationship, digest: Digest) {
    exists v :: ComparisonEdge(g, v, digest) == Some(e)
  }

  ghost predicate Reached(g: Report, es: seq<Relationship>, digest: Digest) {
    && DistinctIDs(es) && Sorted(es, IDLess) && |es| <= MAX_PRODUCED_RELATIONS
    && (forall e <- g.relationships :: e in es)
    && (forall e <- es :: e in g.relationships || Requested(g, e, digest))
  }

  lemma ReachedStep(g: Report, es: seq<Relationship>, v: Comparison, digest: Digest)
    requires Reached(g, es, digest)
    ensures var next := Compare(g.(relationships := es), v, digest).report;
      next == g.(relationships := next.relationships) && Reached(g, next.relationships, digest)
  {
    hide ComparisonEdge, Reached, AddEdge;
    RequestAside(g, es, v, digest);
    var edge := ComparisonEdge(g, v, digest);
    if edge.Some? && AddEdge(es, edge.value).1 {
      assert Requested(g, edge.value, digest);
      ReachedAdd(g, es, edge.value, digest);
    } else if edge.Some? {
      RefusedStays(es, edge.value);
    }
  }

  lemma RefusedStays(es: seq<Relationship>, e: Relationship)
    requires !AddEdge(es, e).1
    ensures AddEdge(es, e).0 == es
  {
  }

  lemma ReachedAdd(g: Report, es: seq<Relationship>, e: Relationship, digest: Digest)
    requires Reached(g, es, digest) && Requested(g, e, digest) && AddEdge(es, e).1
    ensures Reached(g, AddEdge(es, e).0, digest)
  {
    AddedEdge(es, e);
  }

  /**
   Every reachable report differs from the built one in its relationships only, and that list keeps distinct
   IDs in ID order, at most 20,000 entries, every base edge as built, and otherwise only requested edges.
   */
  lemma {:induction false} RunKeeps(g: Report, calls: seq<Comparison>, digest: Digest)
    requires Reached(g, g.relationships, digest)
    ensures Run(g, calls, digest) == g.(relationships := Run(g, calls, digest).relationships)
    ensures Reached(g, Run(g, calls, digest).relationships, digest)
  {
    if calls != [] {
      RunKeeps(g, calls[..|calls| - 1], digest);
      ReachedStep(g, Run(g, calls[..|calls| - 1], digest).relationships, calls[|calls| - 1], digest);
    }
  }

  lemma FreshMembers(g: Report, digest: Digest)
    requires FreshlyBuilt(g, digest)
    ensures forall t <- BaseTuples(g) :: Edge(t, None, digest) in g.relationships
    ensures forall e <- g.relationships :: e.Tuple() in BaseTuples(g) && e == Edge(e.Tuple(), None, digest)
  {
    var ts := BaseTuples(g);
    var bs := BaseEdges(ts, digest);
    SortByIDSorts(bs);
    SameMembers(bs, g.relationships);
    forall t | t in ts ensures Edge(t, None, digest) in g.relationships {
      var i :| 0 <= i < |ts| && ts[i] == t;
      assert bs[i] in bs;
    }
    forall e | e in g.relationships ensures e.Tuple() in ts && e == Edge(e.Tuple(), None, digest) {
      assert e in bs;
      var i :| 0 <= i < |bs| && bs[i] == e;
      assert ts[i] in ts;
    }
  }

  lemma BaseListSorts(ts: seq<EdgeTuple>, digest: Digest)
    requires Distinct(ts) && Distinguished(ts, digest)
    ensures var es := SortByID(BaseEdges(ts, digest)); DistinctIDs(es) && Sorted(es, IDLess) && |es| == |ts|
  {
    var bs := BaseEdges(ts, digest);
    SortByIDSorts(bs);
    TuplesOfBase(ts, digest);
    DistinguishedIDs(bs, ts, digest);
    PermutedIDs(bs, SortByID(bs));
    assert |multiset(bs)| == |bs| && |multiset(SortByID(bs))| == |SortByID(bs)|;
  }

  lemma FreshIsReached(g: Report, digest: Digest)
    requires FreshlyBuilt(g, digest)
    ensures Reached(g, g.relationships, digest)
  {
    BaseTuplesDistinct(g, digest);
    BaseListSorts(BaseTuples(g), digest);
  }

  // ---------- what a requested edge looks like ----------

  /** An edge between two observations of one kind with one subject, in canonical order. */
  ghost predicate SymmetricEdge(g: Report, e: Relationship, i: int, j: int) {
    var os := Observations(g, e.fromKind);
    && 0 <= i < |os| && 0 <= j < |os| && e.fromKind == e.toKind
    && os[i].reference == e.from && os[j].reference == e.to && os[i].subject == os[j].subject && !Less(e.to, e.from)
    && e.comparison == Some(ComparisonBasis(e.fromKind.Text(), os[i].subject))
    && (e.relation.Duplicates? ==> os[i].payload == os[j].payload)
  }

  /** An edge from an observation to a coverage-difference finding. */
  ghost predicate CoverageEdge(g: Report, e: Relationship, i: int, j: int) {
    var os := Observations(g, e.fromKind);
    && 0 <= i < |os| && 0 <= j < |g.findings| && e.toKind == FindingNode
    && os[i].reference == e.from && g.findings[j].reference == e.to
    && e.comparison == Some(ComparisonBasis("coverage", os[i].subject)) && os[i].subject != ""
    && CoverageDifference(g, e.fromKind, e.from, e.to)
  }

  ghost predicate WellShaped(g: Report, e: Relationship, digest: Digest) {
    && e.relation.Comparison() && e.id == RelationshipID(e.Tuple(), digest)
    && if e.relation.DisagreesWith? then exists i, j :: CoverageEdge(g, e, i, j) else exists i, j ::
       SymmetricEdge(g, e, i, j)
  }

  lemma SymmetricRequest(g: Report, v: Comparison, digest: Digest)
    requires WellNamed(g, digest) && v.relation != DisagreesWith && ComparisonEdge(g, v, digest).Some?
    ensures WellShaped(g, ComparisonEdge(g, v, digest).value, digest)
  {
    var e := ComparisonEdge(g, v, digest).value;
    var a := SubjectHasObservation(g, digest, v.fromKind, v.fromID);
    var b := SubjectHasObservation(g, digest, v.toKind, v.toID);
    var os := Observations(g, v.fromKind);
    EquivalenceByPayload(g, digest, v.fromKind, a, b);
    LessTrichotomy(os[a].reference, os[b].reference);
    if Less(os[b].reference, os[a].reference) {
      if Less(os[a].reference, os[b].reference) {
        LessTransitive(os[a].reference, os[b].reference, os[a].reference);
        LessIrreflexive(os[a].reference);
      }
      assert SymmetricEdge(g, e, b, a);
    } else {
      assert SymmetricEdge(g, e, a, b);
    }
  }

  lemma FindingByID(g: Report, id: string) returns (j: nat)
    requires Last(g.findings, (f: Finding) => f.id == id).Some?
    ensures j < |g.findings| && g.findings[j].id == id
    ensures Last(g.findings, (f: Finding) => f.id == id) == Some(g.findings[j])
  {
    var found := Last(g.findings, (f: Finding) => f.id == id);
    j :| 0 <= j < |g.findings| && g.findings[j] == found.value;
  }

  lemma CoverageRequest(g: Report, v: Comparison, digest: Digest)
    requires WellNamed(g, digest) && v.relation == DisagreesWith && ComparisonEdge(g, v, digest).Some?
    ensures WellShaped(g, ComparisonEdge(g, v, digest).value, digest)
  {
    hide WellNamed, RelationshipID;
    var e := ComparisonEdge(g, v, digest).value;
    var a := SubjectHasObservation(g, digest, v.fromKind, v.fromID);
    var b := FindingByID(g, v.toID);
    ObservationLookups(g, digest, v.fromKind, a);
    FindingIsNode(g, b);
    NodeLookup(g, digest, |g.operations| + |g.resources| + b);
    assert CoverageEdge(g, e, a, b);
  }

  /** Every edge that the builder adds on request has the shape the validator looks for. */
  lemma RequestedIsWellShaped(g: Report, e: Relationship, digest: Digest)
    requires WellNamed(g, digest) && Requested(g, e, digest)
    ensures WellShaped(g, e, digest)
  {
    var v :| ComparisonEdge(g, v, digest) == Some(e);
    if v.relation == DisagreesWith {
      CoverageRequest(g, v, digest);
    } else {
      SymmetricRequest(g, v, digest);
    }
  }

  // ---------- when the validator accepts a requested edge ----------

  /** What the validator asks of a comparison beyond what the builder checked: the evidence boundary. */
  predicate Independent(e: Relationship, origins: Origins) {
    var from, to := OriginAt(origins, e.from), OriginAt(origins, e.to);
    match e.relation
    case Corroborates => from.External() != to.External() && !from.SameAnalyzer(to)
    case Duplicates => e.from != e.to && from.source == to.source && from.SameAnalyzer(to)
    case _ => true
  }

  lemma ObservationEndpoint(g: Report, digest: Digest, kinds: Kinds, origins: Origins, kind: NodeKind, i: nat)
    requires WellNamed(g, digest) && Catalogued(Nodes(g), kinds, origins) && i < |Observations(g, kind)|
    ensures var o := Observations(g, kind)[i];
      && o.reference != "" && NulFree(o.reference) && o.id != "" && KindAt(kinds, o.reference) == kind
      && OriginAt(origins, o.reference) == o.provenance && (kind.OperationNode? || kind.ResourceNode?)
  {
    ObservationIsNode(g, kind, i);
    var p := NodePosition(g, kind, i);
    assert Nodes(g)[p].reference == PublicReference(Nodes(g)[p].kind, Nodes(g)[p].id, digest);
  }

  lemma FindingEndpoint(g: Report, digest: Digest, kinds: Kinds, origins: Origins, j: nat)
    requires WellNamed(g, digest) && Catalogued(Nodes(g), kinds, origins) && j < |g.findings|
    ensures g.findings[j].reference != "" && KindAt(kinds, g.findings[j].reference) == FindingNode
  {
    FindingIsNode(g, j);
    var p := |g.operations| + |g.resources| + j;
    assert Nodes(g)[p].reference == PublicReference(Nodes(g)[p].kind, Nodes(g)[p].id, digest);
  }

  lemma OperationSubjectNotEmpty(command: string)
    ensures NulJoin("command", BaseName(command)) != "" && OperationNode.Text() != "" && ResourceNode.Text() != ""
  {
  }

  lemma SubjectNotEmpty(g: Report, kind: NodeKind, i: nat)
    requires i < |Observations(g, kind)|
    ensures Observations(g, kind)[i].subject != "" && kind.Text() != ""
  {
    OperationSubjectNotEmpty("");
    if kind.OperationNode? {
      OperationSubjectNotEmpty(g.operations[i].command);
    } else {
      assert |ResourceSubject(g.resources[i].kind, g.resources[i].access, g.resources[i].value)| >= |SUBJECT_VERSION|;
    }
  }

  lemma SymmetricIdentified(g: Report, digest: Digest, kinds: Kinds, origins: Origins, e: Relationship, i: int, j: int)
    requires WellNamed(g, digest) && Catalogued(Nodes(g), kinds, origins)
    requires SymmetricEdge(g, e, i, j) && e.id == RelationshipID(e.Tuple(), digest)
    ensures Identified(e, kinds, digest) <==> e.from != e.to
    ensures e.fromKind.OperationNode? || e.fromKind.ResourceNode?
  {
    ObservationEndpoint(g, digest, kinds, origins, e.fromKind, i);
    ObservationEndpoint(g, digest, kinds, origins, e.fromKind, j);
  }

  lemma SymmetricHolds(g: Report, digest: Digest, e: Relationship, i: int, j: int)
    requires WellNamed(g, digest) && SymmetricEdge(g, e, i, j)
    ensures Symmetric(g, e, e.comparison.value) && e.comparison.value.kind != "" && e.comparison.value.subject != ""
    ensures e.relation.Duplicates? ==> DuplicateEquivalentAt(g, e.fromKind, e.from, e.to)
  {
    SubjectByReference(g, digest, e.fromKind, i);
    SubjectByReference(g, digest, e.fromKind, j);
    SubjectNotEmpty(g, e.fromKind, i);
    EquivalenceByPayload(g, digest, e.fromKind, i, j);
  }

  lemma SymmetricEdgeValid(g: Report, digest: Digest, kinds: Kinds, origins: Origins, e: Relationship, i: int, j: int)
    requires WellNamed(g, digest) && Catalogued(Nodes(g), kinds, origins)
    requires SymmetricEdge(g, e, i, j) && e.id == RelationshipID(e.Tuple(), digest)
    requires e.relation.Corroborates? || e.relation.Duplicates?
    ensures EdgeValid(g, kinds, origins, e, digest) <==> Independent(e, origins)
  {
    SymmetricIdentified(g, digest, kinds, origins, e, i, j);
    SymmetricHolds(g, digest, e, i, j);
    ByBoundary(g, digest, kinds, origins, e);
  }

  lemma ByBoundary(g: Report, digest: Digest, kinds: Kinds, origins: Origins, e: Relationship)
    requires e.relation.Corroborates? || e.relation.Duplicates?
    requires Identified(e, kinds, digest) <==> e.from != e.to
    requires e.fromKind.OperationNode? || e.fromKind.ResourceNode?
    requires e.comparison.Some? && e.comparison.value.kind != "" && e.comparison.value.subject != ""
    requires Symmetric(g, e, e.comparison.value)
    requires e.relation.Duplicates? ==> DuplicateEquivalentAt(g, e.fromKind, e.from, e.to)
    ensures EdgeValid(g, kinds, origins, e, digest) <==> Independent(e, origins)
  {
  }

  lemma CoverageTargetReserved(g: Report, kind: NodeKind, source: string, finding: string)
    requires CoverageDifference(g, kind, source, finding)
    ensures finding in ReservedReferences(g)
  {
    var target := First(g.findings, (f: Finding) => f.reference == finding);
    assert Reserved(target.value);
  }

  lemma CoverageEdgeValid(g: Report, digest: Digest, kinds: Kinds, origins: Origins, e: Relationship, i: int, j: int)
    requires WellNamed(g, digest) && Catalogued(Nodes(g), kinds, origins)
    requires CoverageEdge(g, e, i, j) && e.relation.DisagreesWith? && e.id == RelationshipID(e.Tuple(), digest)
    ensures EdgeValid(g, kinds, origins, e, digest)
  {
    hide WellNamed, Catalogued, Nodes, SubjectAt, RelationshipID, CoverageDifference, ReservedReferences;
    ObservationEndpoint(g, digest, kinds, origins, e.fromKind, i);
    FindingEndpoint(g, digest, kinds, origins, j);
    SubjectByReference(g, digest, e.fromKind, i);
    CoverageTargetReserved(g, e.fromKind, e.from, e.to);
  }

  /** A requested edge is valid exactly when it respects the evidence boundary. */
  lemma RequestedValidIff(g: Report, digest: Digest, kinds: Kinds, origins: Origins, e: Relationship)
    requires WellNamed(g, digest) && Catalogued(Nodes(g), kinds, origins) && Requested(g, e, digest)
    ensures EdgeValid(g, kinds, origins, e, digest) <==> Independent(e, origins)
  {
    RequestedIsWellShaped(g, e, digest);
    if e.relation.DisagreesWith? {
      var i, j :| CoverageEdge(g, e, i, j);
      CoverageEdgeValid(g, digest, kinds, origins, e, i, j);
    } else {
      var i, j :| SymmetricEdge(g, e, i, j);
      SymmetricEdgeValid(g, digest, kinds, origins, e, i, j);
    }
  }

  // ---------- pairs of endpoints ----------

  lemma KnownReferenceIsPlain(nodes: seq<Node>, digest: Digest, kinds: Kinds, origins: Origins, reference: string)
    requires DerivedReferences(nodes, digest) && Catalogued(nodes, kinds, origins) && reference in kinds
    ensures NulFree(reference)
  {
    var i :| 0 <= i < |nodes| && nodes[i].reference == reference;
  }

  /** Two valid comparisons over one pair of endpoints are the same typed edge. */
  lemma OnePairOneTuple(g: Report, digest: Digest, kinds: Kinds, origins: Origins, e: Relationship, f: Relationship)
    requires WellNamed(g, digest) && Catalogued(Nodes(g), kinds, origins)
    requires EdgeValid(g, kinds, origins, e, digest) && EdgeValid(g, kinds, origins, f, digest)
    requires e.relation.Comparison() && f.relation.Comparison() && PairKey(e) == PairKey(f)
    ensures e.Tuple() == f.Tuple()
  {
    hide Nodes, ComparisonValid, RelationshipID, BaseTuples, ReservedReferences;
    ComparisonKinds(g, e, origins);
    ComparisonKinds(g, f, origins);
    KnownReferenceIsPlain(Nodes(g), digest, kinds, origins, e.from);
    KnownReferenceIsPlain(Nodes(g), digest, kinds, origins, f.from);
    NulJoinInjective(e.from, e.to, f.from, f.to);
    BoundaryFixesRelation(g, e, f, origins);
  }

  lemma ComparisonKinds(g: Report, e: Relationship, origins: Origins)
    requires ComparisonValid(g, e, origins)
    ensures e.fromKind.OperationNode? || e.fromKind.ResourceNode?
    ensures e.toKind == if e.relation.DisagreesWith? then FindingNode else e.fromKind
  {
  }

  lemma BoundaryFixesRelation(g: Report, e: Relationship, f: Relationship, origins: Origins)
    requires ComparisonValid(g, e, origins) && ComparisonValid(g, f, origins)
    requires e.from == f.from && e.to == f.to && e.fromKind == f.fromKind && e.toKind == f.toKind
    ensures e.relation == f.relation
  {
    ComparisonKinds(g, e, origins);
    ComparisonKinds(g, f, origins);
  }

  lemma {:induction false} CountAtMostLength(es: seq<Relationship>)
    ensures ComparisonCount(es) <= |es|
  {
    if es != [] {
      CountAtMostLength(es[..|es| - 1]);
    }
  }

  lemma ValidPairsDistinct(g: Report, digest: Digest, kinds: Kinds, origins: Origins, es: seq<Relationship>)
    requires WellNamed(g, digest) && Catalogued(Nodes(g), kinds, origins) && DistinctIDs(es)
    requires forall i :: 0 <= i < |es| ==> EdgeCheck(g, kinds, origins, digest)(es[i])
    ensures DistinctPairs(es)
  {
    forall i, j | 0 <= i < j < |es| && es[i].relation.Comparison() && es[j].relation.Comparison()
      ensures PairKey(es[i]) != PairKey(es[j])
    {
      assert EdgeCheck(g, kinds, origins, digest)(es[i]) && EdgeCheck(g, kinds, origins, digest)(es[j]);
      assert es[i].id != es[j].id;
      if PairKey(es[i]) == PairKey(es[j]) {
        OnePairOneTuple(g, digest, kinds, origins, es[i], es[j]);
      }
    }
  }

  // ---------- the theorem over whole runs ----------

  lemma ReachedValidIff(g: Report, digest: Digest, kinds: Kinds, origins: Origins, e: Relationship)
    requires FreshlyBuilt(g, digest) && Catalogued(Nodes(g), kinds, origins)
    requires e in g.relationships || Requested(g, e, digest)
    ensures EdgeValid(g, kinds, origins, e, digest) <==> Independent(e, origins)
  {
    if e in g.relationships {
      FreshMembers(g, digest);
      DeclaredEdgeValid(g, digest, kinds, origins, e);
    } else {
      RequestedValidIff(g, digest, kinds, origins, e);
    }
  }

  lemma SymmetricAside(g: Report, es: seq<Relationship>, e: Relationship, basis: ComparisonBasis)
    ensures Symmetric(g.(relationships := es), e, basis) == Symmetric(g, e, basis)
  {
    SubjectsAside(g, es, e.fromKind, e.from);
    SubjectsAside(g, es, e.toKind, e.to);
  }

  lemma ComparisonAside(g: Report, es: seq<Relationship>, origins: Origins, e: Relationship)
    ensures ComparisonValid(g.(relationships := es), e, origins) == ComparisonValid(g, e, origins)
  {
    hide SubjectAt, CoverageDifference, DuplicateEquivalentAt, Symmetric;
    if e.comparison.Some? {
      SymmetricAside(g, es, e, e.comparison.value);
    }
    SubjectsAside(g, es, e.fromKind, e.from);
    CoverageAside(g, es, e.fromKind, e.from, e.to);
    EquivalentAtAside(g, es, e.fromKind, e.from, e.to);
  }

  lemma EdgeAside(g: Report, es: seq<Relationship>, kinds: Kinds, origins: Origins, e: Relationship, digest: Digest)
    ensures EdgeValid(g.(relationships := es), kinds, origins, e, digest) == EdgeValid(g, kinds, origins, e, digest)
  {
    RelationshipsAside(g, es);
    ComparisonAside(g, es, origins, e);
  }

  lemma EquivalentAtAside(r: Report, es: seq<Relationship>, kind: NodeKind, a: string, b: string)
    ensures DuplicateEquivalentAt(r.(relationships := es), kind, a, b) == DuplicateEquivalentAt(r, kind, a, b)
  {
    LookupsAside(r, es, kind);
  }

  lemma BoundaryDecides(
    valid: Relationship -> bool, es: seq<Relationship>, ts: seq<EdgeTuple>, reserved: set<string>, origins: Origins)
    requires forall i :: 0 <= i < |es| ==> (valid(es[i]) <==> Independent(es[i], origins))
    requires DistinctIDs(es) && |es| <= MAX_COMPARISONS && forall i :: 0 <= i < |ts| ==> Present(ts[i], es)
    requires (forall i :: 0 <= i < |es| ==> valid(es[i])) ==> DistinctPairs(es)
    ensures ListAccepted(valid, es, ts, reserved) <==>
      ((forall e <- es :: Independent(e, origins)) && forall f <- reserved :: Disagreements(es, f) == 1)
  {
    CountAtMostLength(es);
    assert (forall e <- es :: Independent(e, origins)) <==> forall i :: 0 <= i < |es| ==> Independent(es[i], origins);
  }

  lemma ReachedListAccepted(g: Report, digest: Digest, kinds: Kinds, origins: Origins, es: seq<Relationship>)
    requires FreshlyBuilt(g, digest) && Catalogued(Nodes(g), kinds, origins) && Reached(g, es, digest)
    ensures ListAccepted(EdgeCheck(g, kinds, origins, digest), es, BaseTuples(g), ReservedReferences(g)) <==>
      ((forall e <- es :: Independent(e, origins)) && forall f <- ReservedReferences(g) :: Disagreements(es, f) == 1)
  {
    var valid := EdgeCheck(g, kinds, origins, digest);
    forall i | 0 <= i < |es| ensures valid(es[i]) <==> Independent(es[i], origins) {
      assert es[i] in es;
      ReachedValidIff(g, digest, kinds, origins, es[i]);
    }
    BasePresent(g, es, digest);
    if forall i :: 0 <= i < |es| ==> valid(es[i]) {
      ValidPairsDistinct(g, digest, kinds, origins, es);
    }
    BoundaryDecides(valid, es, BaseTuples(g), ReservedReferences(g), origins);
  }

  lemma BasePresent(g: Report, es: seq<Relationship>, digest: Digest)
    requires FreshlyBuilt(g, digest) && forall e <- g.relationships :: e in es
    ensures forall i :: 0 <= i < |BaseTuples(g)| ==> Present(BaseTuples(g)[i], es)
  {
    FreshMembers(g, digest);
    var ts := BaseTuples(g);
    forall i | 0 <= i < |ts| ensures Present(ts[i], es) {
      var e := Edge(ts[i], None, digest);
      assert e in g.relationships && e.Tuple() == ts[i];
    }
  }

  lemma AcceptsAside(g: Report, es: seq<Relationship>, kinds: Kinds, origins: Origins, digest: Digest)
    ensures Accepts(g.(relationships := es), kinds, origins, digest) <==>
      ListAccepted(EdgeCheck(g, kinds, origins, digest), es, BaseTuples(g), ReservedReferences(g))
  {
    RelationshipsAside(g, es);
    forall e: Relationship
      ensures EdgeValid(g.(relationships := es), kinds, origins, e, digest) == EdgeValid(g, kinds, origins, e, digest)
    {
      EdgeAside(g, es, kinds, origins, e, digest);
    }
    SameCheck(EdgeCheck(g.(relationships := es), kinds, origins, digest), EdgeCheck(g, kinds, origins, digest), es,
      BaseTuples(g), ReservedReferences(g));
  }

  lemma SameCheck(
    a: Relationship -> bool, b: Relationship -> bool, es: seq<Relationship>, ts: seq<EdgeTuple>, reserved: set<string>)
    requires forall e :: a(e) == b(e)
    ensures ListAccepted(a, es, ts, reserved) <==> ListAccepted(b, es, ts, reserved)
  {
  }

  /**
   Exactly which runs are accepted: after any successful build and any sequence of AddComparison calls, the
   independent validator accepts the result if and only if every corroboration joins a local and an external
   observation of different analyzers, every duplicate joins two distinct observations of one source and
   analyzer, and every reserved coverage finding is the target of exactly one disagreement.
   */
  lemma RunAcceptedExactly(r: Report, calls: seq<Comparison>, digest: Digest, kinds: Kinds, origins: Origins)
    requires Buildable(r) && BuildGraph(r, digest).ok
    requires Catalogued(Nodes(BuildGraph(r, digest).report), kinds, origins)
    ensures var g := BuildGraph(r, digest).report; var end := Run(g, calls, digest);
      Accepts(end, kinds, origins, digest) <==>
        ((forall e <- end.relationships :: Independent(e, origins))
         && forall f <- ReservedReferences(g) :: Disagreements(end.relationships, f) == 1)
  {
    var g := BuildGraph(r, digest).report;
    BuildGrounds(r, digest);
    FreshIsReached(g, digest);
    RunKeeps(g, calls, digest);
    var es := Run(g, calls, digest).relationships;
    AcceptsAside(g, es, kinds, origins, digest);
    ReachedListAccepted(g, digest, kinds, origins, es);
  }

  lemma SelfRequest(v: Comparison, reference: string, subject: string, coverage: bool, digest: Digest)
    requires v.relation.Duplicates? && v.fromKind == v.toKind && reference != ""
    ensures var edge := RequestedEdge(v, reference, reference, Some(subject), Some(subject), true, coverage, digest);
      edge.Some? && edge.value.from == edge.value.to
  {
  }

  lemma SelfEdgeInvalid(g: Report, kinds: Kinds, origins: Origins, e: Relationship, digest: Digest)
    requires e.from == e.to
    ensures !EdgeValid(g, kinds, origins, e, digest)
  {
    hide ComparisonValid, BaseTuples, BaseKinds, ReservedReferences;
  }

  /** What every lookup says about one observation. */
  lemma ObservationAnswers(g: Report, digest: Digest, kind: NodeKind, i: nat)
    requires WellNamed(g, digest) && i < |Observations(g, kind)|
    ensures var o := Observations(g, kind)[i];
      && ReferenceOf(g, kind, o.id) == o.reference && SubjectOf(g, kind, o.id) == Some(o.subject)
      && DuplicateEquivalent(g, kind, o.id, o.id)
  {
    hide Observations, Nodes, WellNamed, SubjectOf, DuplicateEquivalent, ReferenceOf;
    ObservationIsNode(g, kind, i);
    NodeLookup(g, digest, NodePosition(g, kind, i));
    SubjectByReference(g, digest, kind, i);
    EquivalenceByPayload(g, digest, kind, i, i);
  }

  /**
   The builder asks no more of a duplicate than equal payloads, so it grants every node a duplicate of itself;
   that edge never respects the boundary, and no run that holds it is accepted.
   */
  lemma SelfDuplicateGrantedAndRefused(
    g: Report, digest: Digest, kinds: Kinds, origins: Origins, kind: NodeKind, i: nat, basis: ComparisonBasis)
    requires WellNamed(g, digest) && Catalogued(Nodes(g), kinds, origins) && i < |Observations(g, kind)|
    ensures var id := Observations(g, kind)[i].id;
      var edge := ComparisonEdge(g, Comparison(Duplicates, kind, id, kind, id, basis), digest);
      edge.Some? && !EdgeValid(g, kinds, origins, edge.value, digest)
  {
    hide RequestedEdge, Observations, Nodes, WellNamed, Catalogued, SubjectOf, DuplicateEquivalent, ReferenceOf;
    hide EdgeValid, CoverageDifferenceByID;
    var o := Observations(g, kind)[i];
    var v := Comparison(Duplicates, kind, o.id, kind, o.id, basis);
    ObservationEndpoint(g, digest, kinds, origins, kind, i);
    ObservationAnswers(g, digest, kind, i);
    SelfRequest(v, o.reference, o.subject, CoverageDifferenceByID(g, kind, o.id, o.id), digest);
    SelfEdgeInvalid(g, kinds, origins, ComparisonEdge(g, v, digest).value, digest);
  }
}

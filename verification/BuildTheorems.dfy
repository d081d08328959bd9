/** What a successful build establishes, and what the validator makes of its output. */
module BuildTheorems {
  import opened Sorting
  import opened ReportModel
  import opened EvidenceGraph
  import opened RelationshipValidator
  import opened GraphFacts
  import opened BaseEdgeTheorems

  /** The IDs and support declarations that the analyzers hand to the builder. */
  ghost predicate Buildable(r: Report) {
    && DistinctIdentities(Nodes(r)) && Supported(r)
    && forall i :: 0 <= i < |Nodes(r)| ==> Nodes(r)[i].id != ""
  }

  // ---------- nodes through binding and reference assignment ----------

  function Renamed(n: Node, digest: Digest): Node {
    n.(reference := PublicReference(n.kind, n.id, digest))
  }

  function ReferencedReport(r: Report, digest: Digest): Report {
    Referenced(Bound(r), |Nodes(Bound(r))|, digest)
  }

  lemma NodeCounts(r: Report, digest: Digest)
    ensures |Nodes(Bound(r))| == |Nodes(r)| == |Nodes(ReferencedReport(r, digest))|
    ensures |Nodes(r)| == |r.operations| + |r.resources| + |r.findings| + |r.unknowns|
  {
  }

  lemma OperationRenamed(r: Report, digest: Digest, i: nat)
    requires i < |r.operations|
    ensures ReferencedReport(r, digest).operations[i].id == r.operations[i].id
    ensures OperationAsNode(ReferencedReport(r, digest).operations[i]) ==
      Renamed(OperationAsNode(r.operations[i]), digest)
  {
  }

  lemma ResourceRenamed(r: Report, digest: Digest, i: nat)
    requires i < |r.resources|
    ensures ReferencedReport(r, digest).resources[i].relatedOperation == r.resources[i].relatedOperation
    ensures ResourceAsNode(ReferencedReport(r, digest).resources[i]) == Renamed(ResourceAsNode(r.resources[i]), digest)
  {
  }

  lemma FindingRenamed(r: Report, digest: Digest, i: nat)
    requires i < |r.findings|
    ensures ReferencedReport(r, digest).findings[i].related == r.findings[i].related
    ensures FindingAsNode(ReferencedReport(r, digest).findings[i]) == Renamed(FindingAsNode(r.findings[i]), digest)
  {
  }

  lemma UnknownRenamed(r: Report, digest: Digest, i: nat)
    requires i < |r.unknowns|
    ensures ReferencedReport(r, digest).unknowns[i].affected == r.unknowns[i].affected
    ensures UnknownAsNode(ReferencedReport(r, digest).unknowns[i]) == Renamed(UnknownAsNode(r.unknowns[i]), digest)
  {
  }

  lemma OperationNodeRenamed(r: Report, digest: Digest, i: nat)
    requires i < |r.operations|
    ensures |r.operations| <= |Nodes(r)| && |r.operations| <= |Nodes(ReferencedReport(r, digest))|
    ensures Nodes(ReferencedReport(r, digest))[i] == Renamed(Nodes(r)[i], digest)
  {
    OperationIsNode(r, i);
    OperationIsNode(ReferencedReport(r, digest), i);
    OperationRenamed(r, digest, i);
  }

  lemma ResourceNodeRenamed(r: Report, digest: Digest, i: nat)
    requires i < |r.resources|
    ensures |r.operations| + |r.resources| <= |Nodes(r)|
    ensures |r.operations| + |r.resources| <= |Nodes(ReferencedReport(r, digest))|
    ensures Nodes(ReferencedReport(r, digest))[|r.operations| + i] == Renamed(Nodes(r)[|r.operations| + i], digest)
  {
    ResourceIsNode(r, i);
    ResourceIsNode(ReferencedReport(r, digest), i);
    ResourceRenamed(r, digest, i);
  }

  lemma FindingNodeRenamed(r: Report, digest: Digest, i: nat, base: nat)
    requires i < |r.findings| && base == |r.operations| + |r.resources|
    ensures base + |r.findings| <= |Nodes(r)| && base + |r.findings| <= |Nodes(ReferencedReport(r, digest))|
    ensures Nodes(ReferencedReport(r, digest))[base + i] == Renamed(Nodes(r)[base + i], digest)
  {
    FindingIsNode(r, i);
    FindingIsNode(ReferencedReport(r, digest), i);
    FindingRenamed(r, digest, i);
  }

  lemma UnknownNodeRenamed(r: Report, digest: Digest, i: nat, base: nat)
    requires i < |r.unknowns| && base == |r.operations| + |r.resources| + |r.findings|
    ensures base + |r.unknowns| == |Nodes(r)| == |Nodes(ReferencedReport(r, digest))|
    ensures Nodes(ReferencedReport(r, digest))[base + i] == Renamed(Nodes(r)[base + i], digest)
  {
    UnknownIsNode(r, i);
    UnknownIsNode(ReferencedReport(r, digest), i);
    UnknownRenamed(r, digest, i);
  }

  /** Binding and reference assignment change nothing about a node but its reference. */
  lemma NodeRenamed(r: Report, digest: Digest, i: nat)
    requires i < |Nodes(r)|
    ensures i < |Nodes(ReferencedReport(r, digest))|
    ensures Nodes(ReferencedReport(r, digest))[i] == Renamed(Nodes(r)[i], digest)
  {
    hide Renamed, ReferencedReport;
    NodeCounts(r, digest);
    var a, b := |r.operations|, |r.operations| + |r.resources|;
    var c := b + |r.findings|;
    if i < a {
      OperationNodeRenamed(r, digest, i);
    } else if i < b {
      ResourceNodeRenamed(r, digest, i - a);
    } else if i < c {
      FindingNodeRenamed(r, digest, i - b, b);
    } else {
      UnknownNodeRenamed(r, digest, i - c, c);
    }
  }

  lemma BoundNode(r: Report, i: nat)
    requires i < |Nodes(r)|
    ensures |Nodes(Bound(r))| == |Nodes(r)| && Nodes(Bound(r))[i] == Nodes(r)[i]
  {
  }

  lemma {:induction false} StillDeclared(r: Report, digest: Digest, id: string)
    requires Declared(r.operations, id)
    ensures Declared(ReferencedReport(r, digest).operations, id)
  {
    var i :| 0 <= i < |r.operations| && r.operations[i].id == id;
    OperationRenamed(r, digest, i);
  }

  lemma StillSupported(r: Report, digest: Digest)
    requires Supported(r)
    ensures Supported(ReferencedReport(r, digest))
  {
    var g := ReferencedReport(r, digest);
    forall i | 0 <= i < |g.resources| ensures Declared(g.operations, g.resources[i].relatedOperation) {
      ResourceRenamed(r, digest, i);
      StillDeclared(r, digest, r.resources[i].relatedOperation);
    }
    forall i | 0 <= i < |g.findings|
      ensures NoRepeats(g.findings[i].related)
      ensures forall k :: 0 <= k < |g.findings[i].related| ==> Declared(g.operations, g.findings[i].related[k])
    {
      FindingRenamed(r, digest, i);
      forall k | 0 <= k < |r.findings[i].related| ensures Declared(g.operations, r.findings[i].related[k]) {
        StillDeclared(r, digest, r.findings[i].related[k]);
      }
    }
    forall i | 0 <= i < |g.unknowns|
      ensures NoRepeats(g.unknowns[i].affected)
      ensures forall k :: 0 <= k < |g.unknowns[i].affected| ==> Declared(g.operations, g.unknowns[i].affected[k])
    {
      UnknownRenamed(r, digest, i);
      forall k | 0 <= k < |r.unknowns[i].affected| ensures Declared(g.operations, r.unknowns[i].affected[k]) {
        StillDeclared(r, digest, r.unknowns[i].affected[k]);
      }
    }
  }

  lemma RenamedDistinct(r: Report, digest: Digest, i: nat, j: nat)
    requires Buildable(r) && i < j < |Nodes(r)|
    requires CollisionFree(Nodes(Bound(r)), digest) == |Nodes(Bound(r))|
    ensures !Renamed(Nodes(r)[i], digest).SameIdentity(Renamed(Nodes(r)[j], digest))
    ensures Renamed(Nodes(r)[i], digest).reference != Renamed(Nodes(r)[j], digest).reference
  {
    BoundNode(r, i);
    BoundNode(r, j);
    assert !Nodes(r)[i].SameIdentity(Nodes(r)[j]);
    CollisionFreeIsLeast(Nodes(Bound(r)), digest);
    assert !CollidesAt(Nodes(Bound(r)), j, digest);
  }

  /** A build that runs out of neither names nor references leaves a well-named report. */
  lemma BuiltIsWellNamed(r: Report, digest: Digest)
    requires Buildable(r) && CollisionFree(Nodes(Bound(r)), digest) == |Nodes(Bound(r))|
    ensures WellNamed(ReferencedReport(r, digest), digest)
  {
    var nodes := Nodes(ReferencedReport(r, digest));
    NodeCounts(r, digest);
    forall i, j | 0 <= i < j < |nodes|
      ensures !nodes[i].SameIdentity(nodes[j]) && nodes[i].reference != nodes[j].reference
    {
      NodeRenamed(r, digest, i);
      NodeRenamed(r, digest, j);
      RenamedDistinct(r, digest, i, j);
    }
    forall i | 0 <= i < |nodes|
      ensures nodes[i].id != "" && nodes[i].reference == PublicReference(nodes[i].kind, nodes[i].id, digest)
    {
      NodeRenamed(r, digest, i);
    }
  }

  // ---------- relationships do not enter the nodes ----------

  lemma RelationshipsAside(r: Report, es: seq<Relationship>)
    ensures Nodes(r.(relationships := es)) == Nodes(r)
    ensures BaseTuples(r.(relationships := es)) == BaseTuples(r)
    ensures ReservedReferences(r.(relationships := es)) == ReservedReferences(r)
    ensures Supported(r.(relationships := es)) <==> Supported(r)
  {
  }

  // ---------- the built report ----------

  /** A report fresh from a successful build. */
  ghost predicate FreshlyBuilt(g: Report, digest: Digest) {
    && Grounded(g, digest) && |BaseTuples(g)| <= MAX_PRODUCED_RELATIONS && Distinguished(BaseTuples(g), digest)
    && g.relationships == SortByID(BaseEdges(BaseTuples(g), digest))
  }

  lemma BuildGrounds(r: Report, digest: Digest)
    requires Buildable(r) && BuildGraph(r, digest).ok
    ensures FreshlyBuilt(BuildGraph(r, digest).report, digest)
  {
    var g := ReferencedReport(r, digest);
    assert CollisionFree(Nodes(Bound(r)), digest) == |Nodes(Bound(r))|;
    BuiltIsWellNamed(r, digest);
    StillSupported(r, digest);
    RelationshipsAside(g, SortByID(BaseEdges(BaseTuples(g), digest)));
  }

  function Bare(e: Relationship): Relationship {
    e.(comparison := None)
  }

  lemma BareMap(es: seq<Relationship>, digest: Digest)
    ensures DerivedIDs(es, digest) ==> Map(es, Bare) == BaseEdges(Map(es, TupleOf), digest)
  {
  }

  lemma TuplesOfBase(ts: seq<EdgeTuple>, digest: Digest)
    ensures Map(BaseEdges(ts, digest), TupleOf) == ts
    ensures DerivedIDs(BaseEdges(ts, digest), digest)
  {
  }

  lemma TuplesOfBare(es: seq<Relationship>)
    ensures Map(Map(es, Bare), TupleOf) == Map(es, TupleOf)
  {
  }

  lemma BareIDs(es: seq<Relationship>, bs: seq<Relationship>, digest: Digest)
    requires multiset(Map(es, Bare)) == multiset(bs) && DerivedIDs(bs, digest)
    ensures DerivedIDs(es, digest)
  {
    SameMembers(Map(es, Bare), bs);
    forall i | 0 <= i < |es| ensures es[i].id == RelationshipID(es[i].Tuple(), digest) {
      assert Map(es, Bare)[i] in bs;
    }
  }

  lemma DistinguishedIDs(es: seq<Relationship>, ts: seq<EdgeTuple>, digest: Digest)
    requires Distinct(ts) && Distinguished(ts, digest) && DerivedIDs(es, digest)
    requires multiset(Map(es, TupleOf)) == multiset(ts)
    ensures DistinctIDs(es)
  {
    var ms := Map(es, TupleOf);
    DistinctPermutation(ts, ms);
    SameMembers(ms, ts);
    forall i, j | 0 <= i < j < |es| ensures es[i].id != es[j].id {
      assert ms[i] != ms[j] && ms[i] in ts && ms[j] in ts;
    }
  }

  /** A permutation of the built edges, comparison fields aside, is the same thing as being exactly declared. */
  lemma PermutationIsDeclared(g: Report, es: seq<Relationship>, digest: Digest)
    requires FreshlyBuilt(g, digest)
    ensures ExactlyDeclared(g, es, digest) <==> multiset(Map(es, Bare)) == multiset(g.relationships)
  {
    var ts := BaseTuples(g);
    var bs := BaseEdges(ts, digest);
    SortByIDSorts(bs);
    TuplesOfBase(ts, digest);
    BareMap(es, digest);
    if ExactlyDeclared(g, es, digest) {
      MapPermutation(Map(es, TupleOf), ts, t => Edge(t, None, digest));
      assert Map(Map(es, TupleOf), t => Edge(t, None, digest)) == BaseEdges(Map(es, TupleOf), digest);
    }
    if multiset(Map(es, Bare)) == multiset(bs) {
      BareIDs(es, bs, digest);
      MapPermutation(Map(es, Bare), bs, TupleOf);
      TuplesOfBare(es);
      BaseTuplesDistinct(g, digest);
      DistinguishedIDs(es, ts, digest);
    }
  }

  /**
   What the builder emits is the only base list there is: against the nodes of a successful build, a list
   without comparison edges is accepted exactly when, comparison fields aside, it is a permutation of the
   builder's own list. The digest may collide anywhere it likes.
   */
  lemma BuilderListIsExact(r: Report, digest: Digest, kinds: Kinds, origins: Origins, es: seq<Relationship>)
    requires Buildable(r) && BuildGraph(r, digest).ok
    requires Catalogued(Nodes(BuildGraph(r, digest).report), kinds, origins)
    requires ReservedReferences(BuildGraph(r, digest).report) == {} && BaseOnly(es)
    ensures var g := BuildGraph(r, digest).report;
      Accepts(g.(relationships := es), kinds, origins, digest) <==> multiset(Map(es, Bare)) == multiset(g.relationships)
  {
    var g := BuildGraph(r, digest).report;
    BuildGrounds(r, digest);
    RelationshipsAside(g, es);
    BaseEdgesExact(g.(relationships := es), digest, kinds, origins);
    PermutationIsDeclared(g, es, digest);
  }

  lemma SharedID(
    valid: Relationship -> bool, es: seq<Relationship>, ts: seq<EdgeTuple>, reserved: set<string>, digest: Digest,
    i: nat, j: nat)
    requires forall e :: valid(e) ==> e.id == RelationshipID(e.Tuple(), digest)
    requires ListAccepted(valid, es, ts, reserved)
    requires i < |ts| && j < |ts| && RelationshipID(ts[i], digest) == RelationshipID(ts[j], digest)
    ensures ts[i] == ts[j]
  {
    assert Present(ts[i], es) && Present(ts[j], es);
    var p :| 0 <= p < |es| && es[p].Tuple() == ts[i];
    var q :| 0 <= q < |es| && es[q].Tuple() == ts[j];
    assert valid(es[p]) && valid(es[q]) && es[p].id == es[q].id;
  }

  /** When two declared tuples share an edge ID the builder refuses, and no list at all is accepted. */
  lemma CollisionRefusesEveryList(r: Report, digest: Digest, kinds: Kinds, origins: Origins)
    requires !Distinguished(BaseTuples(r), digest)
    ensures !Accepts(r, kinds, origins, digest)
  {
    var ts := BaseTuples(r);
    var i, j :| 0 <= i < |ts| && 0 <= j < |ts| && RelationshipID(ts[i], digest) == RelationshipID(ts[j], digest)
      && ts[i] != ts[j];
    if Accepts(r, kinds, origins, digest) {
      SharedID(EdgeCheck(r, kinds, origins, digest), r.relationships, ts, ReservedReferences(r), digest, i, j);
    }
  }
}

/**
 Base edges are exact: a list without comparisons is accepted if and only if it is, edge for edge,
 what the builder emits. The digest is arbitrary, so this holds under collisions too.
 */
module BaseEdgeTheorems {
  import opened Sorting
  import opened ReportModel
  import opened EvidenceGraph
  import opened RelationshipValidator
  import opened GraphFacts

  // ---------- which tuples a report declares ----------

  ghost predicate FindingDeclares(os: seq<Operation>, fs: seq<Finding>, t: EdgeTuple, i: int, k: int) {
    0 <= i < |fs| && 0 <= k < |fs[i].related|
      && t == ToOperation(FindingRelation(fs[i]), FindingNode, fs[i].reference, os, fs[i].related[k])
  }

  ghost predicate UnknownDeclares(os: seq<Operation>, us: seq<Unknown>, t: EdgeTuple, i: int, k: int) {
    0 <= i < |us| && 0 <= k < |us[i].affected|
      && t == ToOperation(UnknownBecause, UnknownNode, us[i].reference, os, us[i].affected[k])
  }

  lemma {:induction false} FindingTupleSource(os: seq<Operation>, fs: seq<Finding>, t: EdgeTuple)
    returns (i: int, k: int)
    requires t in FindingsTuples(os, fs)
    ensures FindingDeclares(os, fs, t, i, k)
  {
    var n := |fs| - 1;
    if t in FindingTuples(os, fs[n]) {
      i := n;
      k :| 0 <= k < |fs[n].related| && FindingTuples(os, fs[n])[k] == t;
    } else {
      i, k := FindingTupleSource(os, fs[..n], t);
    }
  }

  lemma {:induction false} UnknownTupleSource(os: seq<Operation>, us: seq<Unknown>, t: EdgeTuple)
    returns (i: int, k: int)
    requires t in UnknownsTuples(os, us)
    ensures UnknownDeclares(os, us, t, i, k)
  {
    var n := |us| - 1;
    if t in UnknownTuples(os, us[n]) {
      i := n;
      k :| 0 <= k < |us[n].affected| && UnknownTuples(os, us[n])[k] == t;
    } else {
      i, k := UnknownTupleSource(os, us[..n], t);
    }
  }

  lemma {:induction false} OperationFound(os: seq<Operation>, id: string) returns (i: nat)
    requires Declared(os, id)
    ensures i < |os| && os[i].id == id && OperationReference(os, id) == os[i].reference
  {
    if os[|os| - 1].id == id {
      i := |os| - 1;
    } else {
      var j :| 0 <= j < |os| && os[j].id == id;
      assert os[..|os| - 1][j].id == id;
      i := OperationFound(os[..|os| - 1], id);
    }
  }

  lemma OperationIsNode(r: Report, i: nat)
    requires i < |r.operations|
    ensures |r.operations| <= |Nodes(r)| && Nodes(r)[i] == OperationAsNode(r.operations[i])
  {
  }

  lemma ResourceIsNode(r: Report, i: nat)
    requires i < |r.resources|
    ensures |r.operations| + |r.resources| <= |Nodes(r)|
    ensures Nodes(r)[|r.operations| + i] == ResourceAsNode(r.resources[i])
  {
  }

  lemma UnknownIsNode(r: Report, i: nat)
    requires i < |r.unknowns|
    ensures |r.operations| + |r.resources| + |r.findings| + |r.unknowns| == |Nodes(r)|
    ensures Nodes(r)[|r.operations| + |r.resources| + |r.findings| + i] == UnknownAsNode(r.unknowns[i])
  {
  }

  /** Different declared operations have different references. */
  lemma OperationReferencesDiffer(r: Report, digest: Digest, a: string, b: string)
    requires WellNamed(r, digest) && Declared(r.operations, a) && Declared(r.operations, b) && a != b
    ensures OperationReference(r.operations, a) != OperationReference(r.operations, b)
  {
    var i := OperationFound(r.operations, a);
    var j := OperationFound(r.operations, b);
    OperationIsNode(r, i);
    OperationIsNode(r, j);
    NodesDiffer(Nodes(r), if i < j then i else j, if i < j then j else i);
  }

  // ---------- no tuple is declared twice ----------

  lemma SupportDistinct(
    r: Report, digest: Digest, relation: RelationType, kind: NodeKind, from: string, ids: seq<string>)
    requires WellNamed(r, digest) && NoRepeats(ids)
    requires forall k :: 0 <= k < |ids| ==> Declared(r.operations, ids[k])
    ensures Distinct(SupportTuples(relation, kind, from, r.operations, ids))
  {
    var ts := SupportTuples(relation, kind, from, r.operations, ids);
    forall i, j | 0 <= i < j < |ts| ensures ts[i] != ts[j] {
      OperationReferencesDiffer(r, digest, ids[i], ids[j]);
    }
  }

  lemma ConcatDistinct<T>(xs: seq<T>, ys: seq<T>)
    requires Distinct(xs) && Distinct(ys) && forall x <- xs :: x !in ys
    ensures Distinct(xs + ys)
  {
    var zs := xs + ys;
    forall i, j | 0 <= i < j < |zs| ensures zs[i] != zs[j] {
      if i < |xs| <= j {
        assert xs[i] in xs && ys[j - |xs|] in ys;
      }
    }
  }

  lemma FindingDistinctFromEarlier(r: Report, digest: Digest, n: nat, t: EdgeTuple)
    requires WellNamed(r, digest) && n < |r.findings| && t in FindingsTuples(r.operations, r.findings[..n])
    ensures t !in FindingTuples(r.operations, r.findings[n])
  {
    var i, k := FindingTupleSource(r.operations, r.findings[..n], t);
    FindingsDistinct(r, digest, i, n);
  }

  lemma {:induction false} FindingsTuplesDistinct(r: Report, digest: Digest, n: nat)
    requires Grounded(r, digest) && n <= |r.findings|
    ensures Distinct(FindingsTuples(r.operations, r.findings[..n]))
  {
    if n > 0 {
      FindingsTuplesDistinct(r, digest, n - 1);
      var f := r.findings[n - 1];
      SupportDistinct(r, digest, FindingRelation(f), FindingNode, f.reference, f.related);
      forall t | t in FindingsTuples(r.operations, r.findings[..n - 1]) ensures t !in FindingTuples(r.operations, f) {
        FindingDistinctFromEarlier(r, digest, n - 1, t);
      }
      ConcatDistinct(FindingsTuples(r.operations, r.findings[..n - 1]), FindingTuples(r.operations, f));
      assert r.findings[..n][..n - 1] == r.findings[..n - 1];
    }
  }

  lemma UnknownDistinctFromEarlier(r: Report, digest: Digest, n: nat, t: EdgeTuple)
    requires WellNamed(r, digest) && n < |r.unknowns| && t in UnknownsTuples(r.operations, r.unknowns[..n])
    ensures t !in UnknownTuples(r.operations, r.unknowns[n])
  {
    var i, k := UnknownTupleSource(r.operations, r.unknowns[..n], t);
    UnknownIsNode(r, i);
    UnknownIsNode(r, n);
    var base := |r.operations| + |r.resources| + |r.findings|;
    NodesDiffer(Nodes(r), base + i, base + n);
  }

  lemma {:induction false} UnknownsTuplesDistinct(r: Report, digest: Digest, n: nat)
    requires Grounded(r, digest) && n <= |r.unknowns|
    ensures Distinct(UnknownsTuples(r.operations, r.unknowns[..n]))
  {
    if n > 0 {
      UnknownsTuplesDistinct(r, digest, n - 1);
      var u := r.unknowns[n - 1];
      SupportDistinct(r, digest, UnknownBecause, UnknownNode, u.reference, u.affected);
      forall t | t in UnknownsTuples(r.operations, r.unknowns[..n - 1]) ensures t !in UnknownTuples(r.operations, u) {
        UnknownDistinctFromEarlier(r, digest, n - 1, t);
      }
      ConcatDistinct(UnknownsTuples(r.operations, r.unknowns[..n - 1]), UnknownTuples(r.operations, u));
      assert r.unknowns[..n][..n - 1] == r.unknowns[..n - 1];
    }
  }

  lemma ResourceTuplesDistinct(r: Report, digest: Digest)
    requires WellNamed(r, digest)
    ensures Distinct(ResourceTuples(r.operations, r.resources))
  {
    var ts := ResourceTuples(r.operations, r.resources);
    forall i, j | 0 <= i < j < |ts| ensures ts[i] != ts[j] {
      ResourceIsNode(r, i);
      ResourceIsNode(r, j);
      NodesDiffer(Nodes(r), |r.operations| + i, |r.operations| + j);
    }
  }

  lemma TupleFromKinds(r: Report)
    ensures forall t <- ResourceTuples(r.operations, r.resources) :: t.fromKind == ResourceNode
    ensures forall t <- FindingsTuples(r.operations, r.findings) :: t.fromKind == FindingNode
    ensures forall t <- UnknownsTuples(r.operations, r.unknowns) :: t.fromKind == UnknownNode
  {
    forall t | t in FindingsTuples(r.operations, r.findings) ensures t.fromKind == FindingNode {
      var i, k := FindingTupleSource(r.operations, r.findings, t);
    }
    forall t | t in UnknownsTuples(r.operations, r.unknowns) ensures t.fromKind == UnknownNode {
      var i, k := UnknownTupleSource(r.operations, r.unknowns, t);
    }
  }

  /** A grounded report declares each base tuple once. */
  lemma BaseTuplesDistinct(r: Report, digest: Digest)
    requires Grounded(r, digest)
    ensures Distinct(BaseTuples(r))
  {
    var a, b, c := ResourceTuples(r.operations, r.resources), FindingsTuples(r.operations,
      r.findings), UnknownsTuples(r.operations, r.unknowns);
    ResourceTuplesDistinct(r, digest);
    FindingsTuplesDistinct(r, digest, |r.findings|);
    UnknownsTuplesDistinct(r, digest, |r.unknowns|);
    assert r.findings[..|r.findings|] == r.findings && r.unknowns[..|r.unknowns|] == r.unknowns;
    TupleFromKinds(r);
    ConcatDistinct(a, b);
    ConcatDistinct(a + b, c);
  }

  // ---------- every declared tuple is a valid edge ----------

  /** A tuple from one of the report's nodes to one of its operations. */
  ghost predicate BetweenNodes(nodes: seq<Node>, t: EdgeTuple, i: int, j: int) {
    && 0 <= i < |nodes| && 0 <= j < |nodes|
    && nodes[i].kind == t.fromKind && nodes[i].reference == t.from
    && nodes[j].kind == t.toKind && nodes[j].reference == t.to && t.toKind == OperationNode
  }

  lemma ToDeclaredOperation(r: Report, id: string) returns (j: nat)
    requires Declared(r.operations, id)
    ensures j < |Nodes(r)| && Nodes(r)[j].kind == OperationNode
    ensures Nodes(r)[j].reference == OperationReference(r.operations, id)
  {
    j := OperationFound(r.operations, id);
    OperationIsNode(r, j);
  }

  ghost predicate BaseShape(t: EdgeTuple) {
    match t.relation
    case DerivedFrom => t.fromKind.ResourceNode?
    case EstablishedBy => t.fromKind.FindingNode?
    case InferredFrom => t.fromKind.FindingNode?
    case UnknownBecause => t.fromKind.UnknownNode?
    case _ => false
  }

  lemma DeclaredTupleNodes(r: Report, t: EdgeTuple) returns (i: int, j: int)
    requires Supported(r) && t in BaseTuples(r)
    ensures BetweenNodes(Nodes(r), t, i, j) && BaseShape(t)
  {
    hide Nodes, FindingsTuples, UnknownsTuples;
    var os := r.operations;
    if t in ResourceTuples(os, r.resources) {
      var a :| 0 <= a < |r.resources| && ResourceTuples(os, r.resources)[a] == t;
      ResourceIsNode(r, a);
      i := |os| + a;
      j := ToDeclaredOperation(r, r.resources[a].relatedOperation);
    } else if t in FindingsTuples(os, r.findings) {
      var a, k := FindingTupleSource(os, r.findings, t);
      FindingIsNode(r, a);
      i := |os| + |r.resources| + a;
      j := ToDeclaredOperation(r, r.findings[a].related[k]);
    } else {
      var a, k := UnknownTupleSource(os, r.unknowns, t);
      UnknownIsNode(r, a);
      i := |os| + |r.resources| + |r.findings| + a;
      j := ToDeclaredOperation(r, r.unknowns[a].affected[k]);
    }
  }

  lemma BetweenNodesIdentified(
    nodes: seq<Node>, digest: Digest, kinds: Kinds, origins: Origins, e: Relationship, i: int, j: int)
    requires DistinctReferences(nodes) && DerivedReferences(nodes, digest) && Catalogued(nodes, kinds, origins)
    requires 0 <= i < |nodes| && 0 <= j < |nodes| && i != j
    requires nodes[i].kind == e.fromKind && nodes[i].reference == e.from && nodes[j].kind == e.toKind
    requires nodes[j].reference == e.to
    requires e.id == RelationshipID(e.Tuple(), digest)
    ensures Identified(e, kinds, digest)
  {
    if i < j { assert nodes[i].reference != nodes[j].reference; }
      else { assert nodes[j].reference != nodes[i].reference; }
  }

  lemma DeclaredEdgeValid(r: Report, digest: Digest, kinds: Kinds, origins: Origins, e: Relationship)
    requires Grounded(r, digest) && Catalogued(Nodes(r), kinds, origins)
    requires e.Tuple() in BaseTuples(r) && e.id == RelationshipID(e.Tuple(), digest)
    ensures EdgeValid(r, kinds, origins, e, digest) && !e.relation.Comparison()
  {
    hide Nodes, BaseTuples, RelationshipID, Identified, Catalogued;
    var i, j := DeclaredTupleNodes(r, e.Tuple());
    BetweenNodesIdentified(Nodes(r), digest, kinds, origins, e, i, j);
  }

  // ---------- the exactness theorem ----------

  function TupleOf(e: Relationship): EdgeTuple {
    e.Tuple()
  }

  ghost predicate BaseOnly(es: seq<Relationship>) {
    forall i :: 0 <= i < |es| ==> !es[i].relation.Comparison()
  }

  ghost predicate DerivedIDs(es: seq<Relationship>, digest: Digest) {
    forall i :: 0 <= i < |es| ==> es[i].id == RelationshipID(es[i].Tuple(), digest)
  }

  /** The list is, edge for edge, the declared tuples, each once under its derived ID. */
  ghost predicate ExactlyDeclared(r: Report, es: seq<Relationship>, digest: Digest) {
    multiset(Map(es, TupleOf)) == multiset(BaseTuples(r)) && DerivedIDs(es, digest) && DistinctIDs(es)
  }

  lemma {:induction false} NoComparisons(es: seq<Relationship>, f: string)
    requires BaseOnly(es)
    ensures ComparisonCount(es) == 0 && Disagreements(es, f) == 0
  {
    if es != [] {
      NoComparisons(es[..|es| - 1], f);
    }
  }

  lemma PresentByMap(es: seq<Relationship>, t: EdgeTuple)
    ensures Present(t, es) <==> t in Map(es, TupleOf)
  {
    if t in Map(es, TupleOf) {
      var i :| 0 <= i < |es| && Map(es, TupleOf)[i] == t;
      assert es[i] in es;
    }
  }

  lemma ValidBaseEdges(r: Report, digest: Digest, kinds: Kinds, origins: Origins, es: seq<Relationship>)
    requires Grounded(r, digest) && Catalogued(Nodes(r), kinds, origins) && BaseOnly(es)
    ensures (forall i :: 0 <= i < |es| ==> EdgeCheck(r, kinds, origins, digest)(es[i])) <==>
      (DerivedIDs(es, digest) && forall i :: 0 <= i < |es| ==> es[i].Tuple() in BaseTuples(r))
  {
    forall i | 0 <= i < |es| ensures EdgeCheck(r, kinds, origins, digest)(es[i]) <==>
      es[i].id == RelationshipID(es[i].Tuple(), digest) && es[i].Tuple() in BaseTuples(r)
    {
      ValidBaseEdge(r, digest, kinds, origins, es[i]);
    }
  }

  lemma ValidBaseEdge(r: Report, digest: Digest, kinds: Kinds, origins: Origins, e: Relationship)
    requires Grounded(r, digest) && Catalogued(Nodes(r), kinds, origins) && !e.relation.Comparison()
    ensures EdgeCheck(r, kinds, origins, digest)(e) <==>
      e.id == RelationshipID(e.Tuple(), digest) && e.Tuple() in BaseTuples(r)
  {
    if e.id == RelationshipID(e.Tuple(), digest) && e.Tuple() in BaseTuples(r) {
      DeclaredEdgeValid(r, digest, kinds, origins, e);
    }
  }

  lemma DistinctTuples(es: seq<Relationship>, digest: Digest)
    requires DerivedIDs(es, digest) && DistinctIDs(es)
    ensures Distinct(Map(es, TupleOf))
  {
  }

  lemma DeclaredMembers(es: seq<Relationship>, ts: seq<EdgeTuple>, digest: Digest)
    requires Distinct(ts) && DerivedIDs(es, digest) && DistinctIDs(es)
    ensures multiset(Map(es, TupleOf)) == multiset(ts) <==>
      ((forall i :: 0 <= i < |es| ==> es[i].Tuple() in ts) && forall i :: 0 <= i < |ts| ==> Present(ts[i], es))
  {
    var ms := Map(es, TupleOf);
    forall t ensures Present(t, es) <==> t in ms { PresentByMap(es, t); }
    if multiset(ms) == multiset(ts) {
      SameMembers(ms, ts);
      forall i | 0 <= i < |es| ensures es[i].Tuple() in ts { assert ms[i] in ms; }
    }
    if (forall i :: 0 <= i < |es| ==> es[i].Tuple() in ts) && forall i :: 0 <= i < |ts| ==> Present(ts[i], es) {
      DistinctTuples(es, digest);
      DistinctSameMembers(ms, ts);
    }
  }

  lemma BaseListAccepted(valid: Relationship -> bool, es: seq<Relationship>, ts: seq<EdgeTuple>, digest: Digest)
    requires Distinct(ts) && BaseOnly(es)
    requires (forall i :: 0 <= i < |es| ==> valid(es[i])) <==>
      (DerivedIDs(es, digest) && forall i :: 0 <= i < |es| ==> es[i].Tuple() in ts)
    ensures ListAccepted(valid, es, ts, {}) <==>
      multiset(Map(es, TupleOf)) == multiset(ts) && DerivedIDs(es, digest) && DistinctIDs(es)
  {
    NoComparisons(es, "");
    if DerivedIDs(es, digest) && DistinctIDs(es) {
      DeclaredMembers(es, ts, digest);
    }
  }

  /**
   On a report with no reserved coverage finding, a list without comparison edges is accepted exactly
   when it consists of the declared base tuples, each once, under distinct derived IDs.
   */
  lemma BaseEdgesExact(r: Report, digest: Digest, kinds: Kinds, origins: Origins)
    requires Grounded(r, digest) && Catalogued(Nodes(r), kinds, origins)
    requires BaseOnly(r.relationships) && ReservedReferences(r) == {}
    ensures Accepts(r, kinds, origins, digest) <==> ExactlyDeclared(r, r.relationships, digest)
  {
    BaseTuplesDistinct(r, digest);
    ValidBaseEdges(r, digest, kinds, origins, r.relationships);
    BaseListAccepted(EdgeCheck(r, kinds, origins, digest), r.relationships, BaseTuples(r), digest);
  }
}

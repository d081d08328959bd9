/**
 Comparison edges: what an accepted request looks like, how requests compose, and exactly which runs
 of requests the independent validator accepts.
 */
module ComparisonTheorems {
  import opened Text
  import opened Sorting
  import opened ReportModel
  import opened EvidenceGraph
  import opened RelationshipValidator
  import opened GraphFacts
  import opened BuildTheorems

  // ---------- requests read the nodes, never the relationships ----------

  lemma LookupsAside(r: Report, es: seq<Relationship>, kind: NodeKind)
    ensures Observations(r.(relationships := es), kind) == Observations(r, kind)
  {
  }

  lemma SubjectsAside(r: Report, es: seq<Relationship>, kind: NodeKind, key: string)
    ensures SubjectAt(r.(relationships := es), kind, key) == SubjectAt(r, kind, key)
    ensures SubjectOf(r.(relationships := es), kind, key) == SubjectOf(r, kind, key)
    ensures ReferenceOf(r.(relationships := es), kind, key) == ReferenceOf(r, kind, key)
  {
    LookupsAside(r, es, kind);
    RelationshipsAside(r, es);
  }

  lemma EquivalenceAside(r: Report, es: seq<Relationship>, kind: NodeKind, a: string, b: string)
    ensures DuplicateEquivalent(r.(relationships := es), kind, a, b) == DuplicateEquivalent(r, kind, a, b)
  {
    LookupsAside(r, es, kind);
  }

  lemma CoverageAside(r: Report, es: seq<Relationship>, kind: NodeKind, source: string, finding: string)
    ensures CoverageDifference(r.(relationships := es), kind, source, finding) ==
      CoverageDifference(r, kind, source, finding)
  {
    var q := r.(relationships := es);
    LookupsAside(r, es, kind);
    SubjectsAside(r, es, kind, source);
    forall other: Observation, o: Observation, s: string
      ensures OppositeMatch(q, kind, other, o, s) == OppositeMatch(r, kind, other, o, s)
    {
      SubjectsAside(r, es, kind, other.reference);
    }
  }

  lemma CoverageByIDAside(r: Report, es: seq<Relationship>, kind: NodeKind, source: string, finding: string)
    ensures CoverageDifferenceByID(r.(relationships := es), kind, source, finding) ==
      CoverageDifferenceByID(r, kind, source, finding)
  {
    LookupsAside(r, es, kind);
    var s := Last(Observations(r, kind), (o: Observation) => o.id == source);
    var f := Last(r.findings, (f: Finding) => f.id == finding);
    if s.Some? && f.Some? {
      CoverageAside(r, es, kind, s.value.reference, f.value.reference);
    }
  }

  lemma RequestAside(r: Report, es: seq<Relationship>, v: Comparison, digest: Digest)
    ensures ComparisonEdge(r.(relationships := es), v, digest) == ComparisonEdge(r, v, digest)
  {
    SubjectsAside(r, es, v.fromKind, v.fromID);
    SubjectsAside(r, es, v.toKind, v.toID);
    EquivalenceAside(r, es, v.fromKind, v.fromID, v.toID);
    CoverageByIDAside(r, es, v.fromKind, v.fromID, v.toID);
  }

  // ---------- the algebra of AddComparison ----------

  lemma OnlyOneWithID(es: seq<Relationship>, e: Relationship)
    requires DistinctIDs(es) && e in es
    ensures First(es, (x: Relationship) => x.id == e.id) == Some(e)
  {
    var i :| 0 <= i < |es| && es[i] == e;
    forall j | 0 <= j < |es| && j != i ensures es[j].id != e.id {
      if i < j { assert es[i].id != es[j].id; } else { assert es[j].id != es[i].id; }
    }
    FirstIsOnly(es, (x: Relationship) => x.id == e.id, i);
  }

  lemma PermutedIDs(es: seq<Relationship>, ps: seq<Relationship>)
    requires DistinctIDs(es) && multiset(es) == multiset(ps)
    ensures DistinctIDs(ps)
  {
    DistinctPermutation(es, ps);
    SameMembers(es, ps);
    forall i, j | 0 <= i < j < |ps| ensures ps[i].id != ps[j].id {
      assert ps[i] != ps[j] && ps[i] in es && ps[j] in es;
    }
  }

  /** Adding an edge under a new ID: the list grows by that edge alone and stays sorted without repeated IDs. */
  lemma AddedEdge(es: seq<Relationship>, e: Relationship)
    requires DistinctIDs(es) && AddEdge(es, e).1
    ensures var more := AddEdge(es, e).0;
      && DistinctIDs(more) && (forall x :: x in more <==> x in es || x == e)
      && (e !in es ==>
         multiset(more) == multiset(es + [e]) && Sorted(more, IDLess) && |more| == |es| + 1 <= MAX_PRODUCED_RELATIONS)
      && (e in es ==> more == es)
  {
    if e in es {
      OnlyOneWithID(es, e);
    } else {
      assert First(es, (x: Relationship) => x.id == e.id).None?;
      NewEdge(es, e);
    }
  }

  lemma NewEdge(es: seq<Relationship>, e: Relationship)
    requires DistinctIDs(es) && forall x <- es :: x.id != e.id
    ensures var more := SortByID(es + [e]);
      && DistinctIDs(more) && (forall x :: x in more <==> x in es || x == e)
      && multiset(more) == multiset(es + [e]) && Sorted(more, IDLess) && |more| == |es| + 1
  {
    var more := es + [e];
    SortByIDSorts(more);
    assert forall i :: 0 <= i < |es| ==> es[i] in es;
    PermutedIDs(more, SortByID(more));
    SameMembers(more, SortByID(more));
    assert |multiset(more)| == |more| && |multiset(SortByID(more))| == |SortByID(more)|;
    assert forall x :: x in more <==> x in es || x == e;
  }

  lemma RepeatEdge(es: seq<Relationship>, e: Relationship)
    requires DistinctIDs(es) && AddEdge(es, e).1
    ensures AddEdge(AddEdge(es, e).0, e) == (AddEdge(es, e).0, true)
  {
    AddedEdge(es, e);
    OnlyOneWithID(AddEdge(es, e).0, e);
  }

  lemma DistinctIDsCoherent(es: seq<Relationship>)
    requires DistinctIDs(es)
    ensures Coherent(es)
  {
  }

  lemma EdgesCommute(es: seq<Relationship>, x: Relationship, y: Relationship)
    requires DistinctIDs(es) && AddEdge(es, x).1 && AddEdge(AddEdge(es, x).0, y).1
    ensures AddEdge(es, y).1 && AddEdge(AddEdge(es, y).0, x) == AddEdge(AddEdge(es, x).0, y)
  {
    var xs := AddEdge(es, x).0;
    AddedEdge(es, x);
    AddedEdge(xs, y);
    if y in es {
      OnlyOneWithID(es, y);
    } else if y == x {
    } else {
      SecondIsNew(es, x, y);
      AddedEdge(es, y);
      var ys := AddEdge(es, y).0;
      if x in es {
        OnlyOneWithID(ys, x);
      } else {
        FirstIsNew(es, x, y);
        BothNew(es, x, y);
      }
    }
  }

  lemma SecondIsNew(es: seq<Relationship>, x: Relationship, y: Relationship)
    requires DistinctIDs(es) && AddEdge(es, x).1 && AddEdge(AddEdge(es, x).0, y).1
    requires y !in es && y != x
    ensures (forall e <- es :: e.id != y.id) && x.id != y.id && AddEdge(es, y).1
  {
    AddedEdge(es, x);
    var xs := AddEdge(es, x).0;
    var existing := First(xs, (e: Relationship) => e.id == y.id);
    assert existing.None?;
    assert forall e <- es :: e in xs;
    assert x in xs;
    assert First(es, (e: Relationship) => e.id == y.id).None?;
  }

  lemma FirstIsNew(es: seq<Relationship>, x: Relationship, y: Relationship)
    requires DistinctIDs(es) && AddEdge(es, x).1 && AddEdge(AddEdge(es, x).0, y).1
    requires x !in es && y !in es && y != x
    ensures (forall e <- es :: e.id != x.id) && |es| + 1 < MAX_PRODUCED_RELATIONS
  {
    AddedEdge(es, x);
    AddedEdge(AddEdge(es, x).0, y);
    assert First(es, (e: Relationship) => e.id == x.id).None?;
  }

  lemma AddNew(es: seq<Relationship>, e: Relationship)
    requires |es| < MAX_PRODUCED_RELATIONS && forall x <- es :: x.id != e.id
    ensures AddEdge(es, e) == (SortByID(es + [e]), true)
  {
    assert First(es, (x: Relationship) => x.id == e.id).None?;
  }

  lemma NewAfterNew(es: seq<Relationship>, x: Relationship, y: Relationship)
    requires DistinctIDs(es) && |es| + 1 < MAX_PRODUCED_RELATIONS && x.id != y.id
    requires (forall e <- es :: e.id != x.id) && forall e <- es :: e.id != y.id
    ensures AddEdge(AddEdge(es, x).0, y).1
    ensures var zs := AddEdge(AddEdge(es, x).0, y).0;
      DistinctIDs(zs) && Sorted(zs, IDLess) && multiset(zs) == multiset(es) + multiset{x} + multiset{y}
  {
    AddNew(es, x);
    NewEdge(es, x);
    var xs := SortByID(es + [x]);
    AddNew(xs, y);
    NewEdge(xs, y);
  }

  lemma BothNew(es: seq<Relationship>, x: Relationship, y: Relationship)
    requires DistinctIDs(es) && |es| + 1 < MAX_PRODUCED_RELATIONS && x.id != y.id
    requires (forall e <- es :: e.id != x.id) && forall e <- es :: e.id != y.id
    ensures AddEdge(AddEdge(es, y).0, x) == AddEdge(AddEdge(es, x).0, y)
  {
    NewAfterNew(es, x, y);
    NewAfterNew(es, y, x);
    var zs := AddEdge(AddEdge(es, x).0, y).0;
    DistinctIDsCoherent(zs);
    SortedTwice(zs, AddEdge(AddEdge(es, y).0, x).0);
  }

  lemma SortedTwice(es: seq<Relationship>, fs: seq<Relationship>)
    requires Coherent(es) && multiset(es) == multiset(fs) && Sorted(es, IDLess) && Sorted(fs, IDLess)
    ensures es == fs
  {
    SortedByIDIsUnique(es, es);
    SortedByIDIsUnique(es, fs);
  }

  /** Repeating a successful call changes nothing and succeeds again. */
  lemma RepeatIsIdentity(r: Report, v: Comparison, digest: Digest)
    requires DistinctIDs(r.relationships) && Compare(r, v, digest).ok
    ensures Compare(Compare(r, v, digest).report, v, digest) == Outcome(Compare(r, v, digest).report, true)
  {
    var edge := ComparisonEdge(r, v, digest).value;
    var es := AddEdge(r.relationships, edge).0;
    RequestAside(r, es, v, digest);
    RepeatEdge(r.relationships, edge);
  }

  function Swapped(v: Comparison): Comparison {
    v.(fromKind := v.toKind, fromID := v.toID, toKind := v.fromKind, toID := v.fromID)
  }

  lemma CanonicalOrder(relation: RelationType, kind: NodeKind, from: string, to: string)
    requires relation != DisagreesWith
    ensures ComparisonTuple(relation, kind, from, kind, to) == ComparisonTuple(relation, kind, to, kind, from)
  {
    LessTrichotomy(from, to);
    if Less(from, to) && Less(to, from) {
      LessTransitive(from, to, from);
      LessIrreflexive(from);
    }
  }

  lemma SwappedEdge(v: Comparison, from: string, to: string, fromSubject: Option<string>, toSubject: Option<string>,
                    equivalent: bool, equivalent': bool, coverage: bool, coverage': bool, digest: Digest)
    requires v.relation.Corroborates? || v.relation.Duplicates?
    requires v.fromKind == v.toKind ==> equivalent == equivalent'
    ensures RequestedEdge(Swapped(v), to, from, toSubject, fromSubject, equivalent', coverage', digest)
      == RequestedEdge(v, from, to, fromSubject, toSubject, equivalent, coverage, digest)
  {
    if v.fromKind == v.toKind {
      CanonicalOrder(v.relation, v.fromKind, from, to);
    }
  }

  lemma EquivalentBothWays(r: Report, kind: NodeKind, a: string, b: string)
    ensures DuplicateEquivalent(r, kind, a, b) == DuplicateEquivalent(r, kind, b, a)
  {
  }

  /** The endpoints of a corroboration or a duplicate may be given in either order, on any report. */
  lemma SwapIsIdentity(r: Report, v: Comparison, digest: Digest)
    requires v.relation.Corroborates? || v.relation.Duplicates?
    ensures Compare(r, Swapped(v), digest) == Compare(r, v, digest)
  {
    hide RequestedEdge, ReferenceOf, SubjectOf, CoverageDifferenceByID, DuplicateEquivalent, AddEdge;
    EquivalentBothWays(r, v.fromKind, v.fromID, v.toID);
    SwappedEdge(v, ReferenceOf(r, v.fromKind, v.fromID), ReferenceOf(r, v.toKind, v.toID),
      SubjectOf(r, v.fromKind, v.fromID), SubjectOf(r, v.toKind, v.toID),
      DuplicateEquivalent(r, v.fromKind, v.fromID, v.toID), DuplicateEquivalent(r, v.toKind, v.toID, v.fromID),
      CoverageDifferenceByID(r, v.fromKind, v.fromID, v.toID), CoverageDifferenceByID(r, v.toKind, v.toID,
        v.fromID), digest);
    assert ComparisonEdge(r, Swapped(v), digest) == ComparisonEdge(r, v, digest);
  }

  /** Two calls that succeed in one order succeed in the other and leave the same report. */
  lemma CallsCommute(r: Report, a: Comparison, b: Comparison, digest: Digest)
    requires DistinctIDs(r.relationships)
    requires Compare(r, a, digest).ok && Compare(Compare(r, a, digest).report, b, digest).ok
    ensures Compare(r, b, digest).ok
    ensures Compare(Compare(r, b, digest).report, a, digest) == Compare(Compare(r, a, digest).report, b, digest)
  {
    var es := r.relationships;
    var afterA := Compare(r, a, digest).report.relationships;
    RequestAside(r, afterA, b, digest);
    var x, y := ComparisonEdge(r, a, digest).value, ComparisonEdge(r, b, digest).value;
    EdgesCommute(es, x, y);
    RequestAside(r, AddEdge(es, y).0, a, digest);
  }

  /** Two different edges under one ID: the later call is refused and changes nothing. */
  lemma CollisionFailsClosed(r: Report, v: Comparison, digest: Digest, e: Relationship)
    requires DistinctIDs(r.relationships) && e in r.relationships
    requires ComparisonEdge(r, v, digest).Some? && ComparisonEdge(r, v, digest).value.id == e.id
    ensures Compare(r, v, digest) == Outcome(r, e == ComparisonEdge(r, v, digest).value)
  {
    OnlyOneWithID(r.relationships, e);
  }
}

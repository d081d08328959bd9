/**
 canonicalReport of internal/report/encode.go. Collections whose order carries no meaning are sorted, the
 review summary is derived again, and the result is validated. The order in which records were inserted is
 proved not to matter, whatever the sort does with ties.
 */
module Canonical {
  import opened Text
  import opened Sorting
  import opened ReportModel
  import opened EvidenceGraph
  import opened RelationshipValidator
  import opened Comparators
  import GraphFacts
  import opened EvidenceValidator
  import opened ReportValidator
  import AcceptedReports
  import Review

  // ---------- the sort orders ----------

  predicate InputLess(a: EvidenceInput, b: EvidenceInput) { Less(a.id, b.id) }
  predicate PathLess(a: File, b: File) { Less(a.path, b.path) }
  predicate OperationLess(a: Operation, b: Operation) { Less(a.id, b.id) }
  predicate ResourceLess(a: Resource, b: Resource) { Less(a.id, b.id) }
  predicate FindingLess(a: Finding, b: Finding) { Less(a.id, b.id) }
  predicate UnknownLess(a: Unknown, b: Unknown) { Less(a.id, b.id) }
  predicate TupleLess(a: Relationship, b: Relationship) { Less(TupleText(a.Tuple()), TupleText(b.Tuple())) }

  // ---------- nested collections ----------

  /** `sortedStrings`: appending nothing to a nil slice leaves it nil. */
  function SortedStrings(values: Slice<string>): Slice<string> {
    if values.Items() == [] then NilSlice else Slice(SortedBy(values.Items(), StringLess))
  }

  function Copied<T>(values: Slice<T>): Slice<T> {
    if values.Items() == [] then NilSlice else Slice(values.Items())
  }

  function CanonManifest(m: Manifest): Manifest {
    m.(kinds := SortedStrings(m.kinds))
  }

  function CanonBinary(b: Binary): Binary {
    b.(libraries := SortedStrings(b.libraries), importedSymbols := SortedStrings(b.importedSymbols),
       extractedStrings := SortedStrings(b.extractedStrings), embeddedURLs := SortedStrings(b.embeddedURLs),
       fileCapabilities := SortedStrings(b.fileCapabilities))
  }

  /** Archive entries keep their order, which is the package's own. */
  function CanonArchive(a: Archive): Archive {
    a.(entries := Copied(a.entries))
  }

  function Lift<T>(value: Option<T>, f: T -> T): Option<T> {
    if value.Some? then Some(f(value.value)) else None
  }

  function CanonFile(f: File): File {
    f.(binary := Lift(f.binary, CanonBinary), archive := Lift(f.archive, CanonArchive))
  }

  function CanonFinding(f: Finding): Finding {
    f.(evidence := SortedBy(f.evidence, EvidenceLess), related := SortedBy(f.related, StringLess))
  }

  /** Origins keep their order, which is a data-flow trace. */
  function CanonUnknown(u: Unknown): Unknown {
    u.(evidence := SortedBy(u.evidence, EvidenceLess), affected := SortedBy(u.affected, StringLess),
       suppressed := SortedBy(u.suppressed, StringLess))
  }

  // ---------- a canonical form ----------

  /** Every collection is a sorted permutation; ties may fall either way. */
  ghost predicate Arranged(r: Report, c: Report) {
    && SortedPermutation(r.inputs, c.inputs, InputLess)
    && SortedPermutation(Map(r.inventory, CanonFile), c.inventory, PathLess)
    && SortedPermutation(r.operations, c.operations, OperationLess)
    && SortedPermutation(r.resources, c.resources, ResourceLess)
    && SortedPermutation(Map(r.findings, CanonFinding), c.findings, FindingLess)
    && SortedPermutation(Map(r.unknowns, CanonUnknown), c.unknowns, UnknownLess)
    && SortedPermutation(r.relationships, c.relationships, TupleLess)
    && SortedPermutation(r.limitations, c.limitations, LimitationLess)
    && SortedPermutation(r.errors, c.errors, ScanErrorLess)
  }

  ghost predicate SameHeader(r: Report, c: Report) {
    && c.status == r.status && c.scannerVersion == r.scannerVersion && c.policyVersion == r.policyVersion
    && c.target == r.target.(manifest := Lift(r.target.manifest, CanonManifest))
  }

  ghost predicate Rederived(c: Report) {
    c.review == Some(Review.ReviewOf(c, Review.CoverageOf(c.inventory)))
  }

  ghost predicate CanonicalForm(r: Report, c: Report) {
    SameHeader(r, c) && Arranged(r, c) && Rederived(c)
  }

  // ---------- equal up to order ----------

  function Bag(values: Slice<string>): multiset<string> {
    multiset(values.Items())
  }

  datatype FileView = FileView(rest: File, lists: seq<multiset<string>>, entries: seq<ArchiveEntry>)
  datatype FindingView = FindingView(rest: Finding, evidence: multiset<Evidence>, related: multiset<string>)
  datatype UnknownView = UnknownView(rest: Unknown, evidence: multiset<Evidence>, affected: multiset<string>,
    suppressed: multiset<string>)
  datatype ManifestView = ManifestView(rest: Manifest, kinds: multiset<string>)

  function BareBinary(b: Binary): Binary {
    b.(libraries := NilSlice, importedSymbols := NilSlice, extractedStrings := NilSlice,
       embeddedURLs := NilSlice, fileCapabilities := NilSlice)
  }

  function BareArchive(a: Archive): Archive {
    a.(entries := NilSlice)
  }

  function BinaryBags(b: Binary): seq<multiset<string>> {
    [Bag(b.libraries), Bag(b.importedSymbols), Bag(b.extractedStrings), Bag(b.embeddedURLs), Bag(b.fileCapabilities)]
  }

  /** A record without the order of its unordered collections, or the difference between a nil and an empty one. */
  function ViewFile(f: File): FileView {
    FileView(f.(binary := Lift(f.binary, BareBinary), archive := Lift(f.archive, BareArchive)),
      if f.binary.Some? then BinaryBags(f.binary.value) else [], if f.archive.Some? then f.archive.value.entries.Items()
        else [])
  }

  function ViewFinding(f: Finding): FindingView {
    FindingView(f.(evidence := [], related := []), multiset(f.evidence), multiset(f.related))
  }

  function ViewUnknown(u: Unknown): UnknownView {
    UnknownView(u.(evidence := [], affected := [], suppressed := []), multiset(u.evidence), multiset(u.affected),
      multiset(u.suppressed))
  }

  function ViewManifest(m: Manifest): ManifestView {
    ManifestView(m.(kinds := NilSlice), Bag(m.kinds))
  }

  function ManifestViews(m: Option<Manifest>): Option<ManifestView> {
    if m.Some? then Some(ViewManifest(m.value)) else None
  }

  /** Two reports that differ only in the order of unordered collections, at any level, and in their summaries. */
  ghost predicate SameUpToOrder(a: Report, b: Report) {
    && a.status == b.status && a.scannerVersion == b.scannerVersion && a.policyVersion == b.policyVersion
    && a.target.(manifest := None) == b.target.(manifest := None)
    && ManifestViews(a.target.manifest) == ManifestViews(b.target.manifest)
    && multiset(a.inputs) == multiset(b.inputs)
    && multiset(Map(a.inventory, ViewFile)) == multiset(Map(b.inventory, ViewFile))
    && multiset(a.operations) == multiset(b.operations) && multiset(a.resources) == multiset(b.resources)
    && multiset(Map(a.findings, ViewFinding)) == multiset(Map(b.findings, ViewFinding))
    && multiset(Map(a.unknowns, ViewUnknown)) == multiset(Map(b.unknowns, ViewUnknown))
    && multiset(a.relationships) == multiset(b.relationships)
    && multiset(a.limitations) == multiset(b.limitations) && multiset(a.errors) == multiset(b.errors)
  }

  // ---------- canonical records depend on their views only ----------

  lemma SortedByBag<T(!new)>(xs: seq<T>, ys: seq<T>, less: (T, T) -> bool)
    requires multiset(xs) == multiset(ys) && StrictWeakOrder(less) && forall zs :: Decided(zs, less)
    ensures SortedBy(xs, less) == SortedBy(ys, less)
  {
    SortedBySorts(xs, less);
    SortedBySorts(ys, less);
    SortedPermutationIsUnique(SortedBy(xs, less), SortedBy(ys, less), less);
  }

  lemma SortedStringsByBag(a: Slice<string>, b: Slice<string>)
    requires Bag(a) == Bag(b)
    ensures SortedStrings(a) == SortedStrings(b)
  {
    StringOrderIsTotal();
    SortedByBag(a.Items(), b.Items(), StringLess);
    assert |a.Items()| == |Bag(a)| == |Bag(b)| == |b.Items()|;
  }

  lemma FindingByView(f: Finding, g: Finding)
    requires ViewFinding(f) == ViewFinding(g)
    ensures CanonFinding(f) == CanonFinding(g)
  {
    EvidenceOrderIsTotal();
    StringOrderIsTotal();
    SortedByBag(f.evidence, g.evidence, EvidenceLess);
    SortedByBag(f.related, g.related, StringLess);
    assert f.(evidence := [], related := []) == g.(evidence := [], related := []);
  }

  lemma UnknownByView(u: Unknown, v: Unknown)
    requires ViewUnknown(u) == ViewUnknown(v)
    ensures CanonUnknown(u) == CanonUnknown(v)
  {
    EvidenceOrderIsTotal();
    StringOrderIsTotal();
    SortedByBag(u.evidence, v.evidence, EvidenceLess);
    SortedByBag(u.affected, v.affected, StringLess);
    SortedByBag(u.suppressed, v.suppressed, StringLess);
    assert u.(evidence := [], affected := [], suppressed := []) == v.(evidence := [], affected := [], suppressed := []);
  }

  lemma BinaryByBags(b: Binary, d: Binary)
    requires BareBinary(b) == BareBinary(d) && BinaryBags(b) == BinaryBags(d)
    ensures CanonBinary(b) == CanonBinary(d)
  {
    assert forall i :: 0 <= i < 5 ==> BinaryBags(b)[i] == BinaryBags(d)[i];
    SortedStringsByBag(b.libraries, d.libraries);
    SortedStringsByBag(b.importedSymbols, d.importedSymbols);
    SortedStringsByBag(b.extractedStrings, d.extractedStrings);
    SortedStringsByBag(b.embeddedURLs, d.embeddedURLs);
    SortedStringsByBag(b.fileCapabilities, d.fileCapabilities);
  }

  lemma FileByView(f: File, g: File)
    requires ViewFile(f) == ViewFile(g)
    ensures CanonFile(f) == CanonFile(g)
  {
    var a, b := ViewFile(f).rest, ViewFile(g).rest;
    assert a.binary == b.binary && a.archive == b.archive;
    if f.binary.Some? {
      BinaryByBags(f.binary.value, g.binary.value);
    }
    assert f.(binary := None, archive := None) == a.(binary := None, archive := None) ==
      g.(binary := None, archive := None);
  }

  lemma ManifestByView(m: Option<Manifest>, n: Option<Manifest>)
    requires ManifestViews(m) == ManifestViews(n)
    ensures Lift(m, CanonManifest) == Lift(n, CanonManifest)
  {
    if m.Some? {
      SortedStringsByBag(m.value.kinds, n.value.kinds);
      assert m.value.(kinds := NilSlice) == n.value.(kinds := NilSlice);
    }
  }

  /** A mapping that a view determines maps equal bags of views to equal bags. */
  lemma {:induction false} MapThrough<T, V, U>(xs: seq<T>, ys: seq<T>, view: T -> V, f: T -> U)
    requires multiset(Map(xs, view)) == multiset(Map(ys, view))
    requires forall a <- xs, b <- ys :: view(a) == view(b) ==> f(a) == f(b)
    ensures multiset(Map(xs, f)) == multiset(Map(ys, f))
    decreases |xs|
  {
    assert |xs| == |multiset(Map(xs, view))| == |multiset(Map(ys, view))| == |ys|;
    if xs != [] {
      var n := |xs| - 1;
      assert Map(xs, view)[n] in multiset(Map(ys, view));
      var i :| 0 <= i < |ys| && Map(ys, view)[i] == view(xs[n]);
      MapWithout(xs, n, view);
      MapWithout(ys, i, view);
      MapWithout(xs, n, f);
      MapWithout(ys, i, f);
      RemoveOne(multiset(Map(Without(xs, n), view)), multiset(Map(Without(ys, i), view)), view(xs[n]));
      MapThrough(Without(xs, n), Without(ys, i), view, f);
      assert f(xs[n]) == f(ys[i]);
    }
  }

  lemma RemoveOne<V>(a: multiset<V>, b: multiset<V>, v: V)
    requires a + multiset{v} == b + multiset{v}
    ensures a == b
  {
    assert a == (a + multiset{v}) - multiset{v};
    assert b == (b + multiset{v}) - multiset{v};
  }

  lemma MapWithout<T, V>(xs: seq<T>, i: nat, f: T -> V)
    requires i < |xs|
    ensures multiset(Map(xs, f)) == multiset(Map(Without(xs, i), f)) + multiset{f(xs[i])}
  {
    MultisetWithout(Map(xs, f), i);
    assert Without(Map(xs, f), i) == Map(Without(xs, i), f);
  }

  lemma SameBags(a: Report, b: Report)
    requires SameUpToOrder(a, b)
    ensures multiset(Map(a.inventory, CanonFile)) == multiset(Map(b.inventory, CanonFile))
    ensures multiset(Map(a.findings, CanonFinding)) == multiset(Map(b.findings, CanonFinding))
    ensures multiset(Map(a.unknowns, CanonUnknown)) == multiset(Map(b.unknowns, CanonUnknown))
  {
    forall f <- a.inventory, g <- b.inventory | ViewFile(f) == ViewFile(g) ensures CanonFile(f) == CanonFile(g) {
      FileByView(f, g);
    }
    MapThrough(a.inventory, b.inventory, ViewFile, CanonFile);
    forall f <- a.findings, g <- b.findings | ViewFinding(f) == ViewFinding(g)
      ensures CanonFinding(f) == CanonFinding(g)
    {
      FindingByView(f, g);
    }
    MapThrough(a.findings, b.findings, ViewFinding, CanonFinding);
    forall f <- a.unknowns, g <- b.unknowns | ViewUnknown(f) == ViewUnknown(g)
      ensures CanonUnknown(f) == CanonUnknown(g)
    {
      UnknownByView(f, g);
    }
    MapThrough(a.unknowns, b.unknowns, ViewUnknown, CanonUnknown);
  }

  // ---------- validation leaves no ties ----------

  lemma DecidedTarget(c: Report, policies: seq<Policy>, env: Environment)
    requires TargetValid(c, policies, env)
    ensures Decided(c.inputs, InputLess) && Decided(c.inventory, PathLess)
  {
    DistinctKeysAreDecided(c.inputs, (x: EvidenceInput) => x.id, InputLess);
    DistinctKeysAreDecided(c.inventory, (f: File) => f.path, PathLess);
  }

  ghost predicate DistinctAt(nodes: seq<Node>, from: nat, to: nat) {
    forall i, j :: from <= i < j < to <= |nodes| ==> nodes[i].id != nodes[j].id
  }

  lemma SameKindDistinct(nodes: seq<Node>, from: nat, to: nat, kind: NodeKind)
    requires GraphFacts.DistinctIdentities(nodes) && from <= to <= |nodes| && forall i :: from <= i < to ==>
      nodes[i].kind == kind
    ensures DistinctAt(nodes, from, to)
  {
    forall i, j | from <= i < j < to ensures nodes[i].id != nodes[j].id {
      assert !nodes[i].SameIdentity(nodes[j]);
    }
  }

  lemma DecidedPart<T(!new)>(xs: seq<T>, node: T -> Node, nodes: seq<Node>, from: nat, kind: NodeKind,
    less: (T, T) -> bool)
    requires forall a, b :: less(a, b) == Less(node(a).id, node(b).id)
    requires from + |xs| <= |nodes|
    requires (forall i :: 0 <= i < |xs| ==> nodes[from + i] == node(xs[i]) && node(xs[i]).kind == kind)
    requires GraphFacts.DistinctIdentities(nodes)
    ensures Decided(xs, less)
  {
    forall i | from <= i < from + |xs| ensures nodes[i].kind == kind {
      assert nodes[from + (i - from)] == node(xs[i - from]);
    }
    SameKindDistinct(nodes, from, from + |xs|, kind);
    forall i, j | 0 <= i < j < |xs| ensures node(xs[i]).id != node(xs[j]).id {
      assert nodes[from + i].id != nodes[from + j].id;
    }
    DistinctKeysAreDecided(xs, (x: T) => node(x).id, less);
  }

  lemma DecidedNodes(c: Report, digest: Digest)
    requires GraphFacts.WellNamed(c, digest)
    ensures Decided(c.operations, OperationLess) && Decided(c.resources, ResourceLess)
    ensures Decided(c.findings, FindingLess) && Decided(c.unknowns, UnknownLess)
  {
    var nodes := Nodes(c);
    var a, b := |c.operations|, |c.operations| + |c.resources|;
    DecidedPart(c.operations, OperationAsNode, nodes, 0, OperationNode, OperationLess);
    DecidedPart(c.resources, ResourceAsNode, nodes, a, ResourceNode, ResourceLess);
    DecidedPart(c.findings, FindingAsNode, nodes, b, FindingNode, FindingLess);
    DecidedPart(c.unknowns, UnknownAsNode, nodes, b + |c.findings|, UnknownNode, UnknownLess);
  }

  /** An accepted list has no two edges of one tuple text: their derived IDs would clash. */
  lemma DecidedEdges(c: Report, kinds: Kinds, origins: Origins, digest: Digest)
    requires Accepts(c, kinds, origins, digest)
    ensures Decided(c.relationships, TupleLess)
  {
    var es := c.relationships;
    forall i | 0 <= i < |es| ensures es[i].id == RelationshipID(es[i].Tuple(), digest) {
      assert EdgeCheck(c, kinds, origins, digest)(es[i]);
    }
    forall i, j | 0 <= i < j < |es| ensures TupleText(es[i].Tuple()) != TupleText(es[j].Tuple()) {
      assert es[i].id != es[j].id;
    }
    DistinctKeysAreDecided(es, (e: Relationship) => TupleText(e.Tuple()), TupleLess);
  }

  ghost predicate Untied(c: Report) {
    && Decided(c.inputs, InputLess) && Decided(c.inventory, PathLess) && Decided(c.operations, OperationLess)
    && Decided(c.resources, ResourceLess) && Decided(c.findings, FindingLess) && Decided(c.unknowns, UnknownLess)
    && Decided(c.relationships, TupleLess) && Decided(c.limitations, LimitationLess) && Decided(c.errors, ScanErrorLess)
  }

  lemma ValidIsUntied(c: Report, policies: seq<Policy>, env: Environment)
    requires ReportValid(c, policies, env)
    ensures Untied(c)
  {
    DecidedTarget(c, policies, env);
    AcceptedReports.AcceptedIsSound(c, policies, env);
    DecidedNodes(c, env.digest);
    DecidedEdges(c, KindsOf(Nodes(c)), OriginsOf(Nodes(c)), env.digest);
    LimitationOrderIsTotal();
    ScanErrorOrderIsTotal();
  }

  // ---------- order independence ----------

  lemma SameTarget(a: Report, b: Report, c: Report, d: Report)
    requires SameUpToOrder(a, b) && SameHeader(a, c) && SameHeader(b, d)
    ensures c.status == d.status && c.scannerVersion == d.scannerVersion && c.policyVersion == d.policyVersion
    ensures c.target == d.target
  {
    ManifestByView(a.target.manifest, b.target.manifest);
    assert a.target.(manifest := c.target.manifest) == a.target.(manifest := None).(manifest := c.target.manifest);
    assert b.target.(manifest := c.target.manifest) == b.target.(manifest := None).(manifest := c.target.manifest);
  }

  lemma SameNodes(a: Report, b: Report, c: Report, d: Report)
    requires SameUpToOrder(a, b) && Arranged(a, c) && Arranged(b, d) && Untied(c)
    ensures c.operations == d.operations && c.resources == d.resources && c.findings == d.findings
    ensures c.unknowns == d.unknowns
  {
    SameBags(a, b);
    SortIgnoresInputOrder(a.operations, b.operations, c.operations, d.operations, OperationLess);
    SortIgnoresInputOrder(a.resources, b.resources, c.resources, d.resources, ResourceLess);
    SortIgnoresInputOrder(Map(a.findings, CanonFinding), Map(b.findings, CanonFinding), c.findings, d.findings,
      FindingLess);
    SortIgnoresInputOrder(Map(a.unknowns, CanonUnknown), Map(b.unknowns, CanonUnknown), c.unknowns, d.unknowns,
      UnknownLess);
  }

  lemma SameRest(a: Report, b: Report, c: Report, d: Report)
    requires SameUpToOrder(a, b) && Arranged(a, c) && Arranged(b, d) && Untied(c)
    ensures c.inputs == d.inputs && c.inventory == d.inventory && c.relationships == d.relationships
    ensures c.limitations == d.limitations && c.errors == d.errors
  {
    SameBags(a, b);
    SortIgnoresInputOrder(a.inputs, b.inputs, c.inputs, d.inputs, InputLess);
    SortIgnoresInputOrder(Map(a.inventory, CanonFile), Map(b.inventory, CanonFile), c.inventory, d.inventory, PathLess);
    SortIgnoresInputOrder(a.relationships, b.relationships, c.relationships, d.relationships, TupleLess);
    SortIgnoresInputOrder(a.limitations, b.limitations, c.limitations, d.limitations, LimitationLess);
    SortIgnoresInputOrder(a.errors, b.errors, c.errors, d.errors, ScanErrorLess);
  }

  lemma SameReview(c: Report, d: Report)
    requires Rederived(c) && Rederived(d) && d == c.(review := d.review)
    ensures c == d
  {
    Review.ReviewIgnoresHeader(c, d.review, c.target, Review.CoverageOf(c.inventory));
  }

  /**
   Insertion order never matters. Two reports equal up to the order of their unordered collections have one
   canonical form between them as soon as one of its candidates is accepted, summary included.
   */
  lemma OrderIndependence(a: Report, b: Report, c: Report, d: Report, policies: seq<Policy>, env: Environment)
    requires SameUpToOrder(a, b) && CanonicalForm(a, c) && CanonicalForm(b, d)
    requires ReportValid(c, policies, env)
    ensures c == d
  {
    hide ReportValid, SameUpToOrder, Untied, Arranged, Rederived;
    ValidIsUntied(c, policies, env);
    SameTarget(a, b, c, d);
    SameNodes(a, b, c, d);
    SameRest(a, b, c, d);
    SameReview(c, d);
  }
}

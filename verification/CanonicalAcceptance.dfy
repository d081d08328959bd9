/**
 What the validator still accepts of a report once it is in canonical form: its target, its records, its graph and
 its notes. Copying turns an empty nested list into the nil that the validator does not accept.
 */
module CanonicalAcceptance {
  import opened Sorting
  import opened ReportModel
  import opened EvidenceGraph
  import opened GraphFacts
  import opened EvidenceValidator
  import opened InventoryValidator
  import opened ReportValidator
  import opened Comparators
  import opened Canonical
  import opened CanonicalEncoding
  import opened Permutations
  import opened GraphUnderOrder
  import AcceptedReports
  import InventoryDigest
  import Review

  // ---------- the condition ----------

  predicate BinaryListsFilled(b: Binary) {
    b.libraries.Items() != [] && b.importedSymbols.Items() != [] && b.extractedStrings.Items() != []
    && b.embeddedURLs.Items() != [] && b.fileCapabilities.Items() != []
  }

  predicate FileFilled(f: File) {
    (f.binary.Some? ==> BinaryListsFilled(f.binary.value))
      && (f.archive.Some? ==> f.archive.value.entries.Items() != [])
  }

  predicate ManifestFilled(m: Option<Manifest>) {
    m.Some? ==> m.value.kinds.Items() != []
  }

  /** No manifest without kinds, no archive without entries, no binary with an empty list. */
  predicate NestedListsFilled(r: Report) {
    ManifestFilled(r.target.manifest) && forall f <- r.inventory :: FileFilled(f)
  }

  // ---------- target ----------

  lemma SortedLength<T(!new)>(xs: seq<T>, less: (T, T) -> bool)
    requires StrictWeakOrder(less)
    ensures |SortedBy(xs, less)| == |xs|
  {
    SortedBySorts(xs, less);
    SameLength(SortedBy(xs, less), xs);
  }

  lemma SortedStringsShape(values: Slice<string>)
    ensures SortedStrings(values).Slice? <==> values.Items() != []
    ensures |SortedStrings(values).Items()| == |values.Items()|
  {
    StringOrderIsTotal();
    SortedLength(values.Items(), StringLess);
  }

  lemma ManifestKept(m: Option<Manifest>)
    requires ManifestValid(m)
    ensures ManifestValid(Lift(m, CanonManifest)) <==> ManifestFilled(m)
  {
    if m.Some? {
      SortedStringsShape(m.value.kinds);
    }
  }

  lemma BinaryKept(b: Binary)
    requires BinaryValid(b)
    ensures BinaryValid(CanonBinary(b)) <==> BinaryListsFilled(b)
  {
    SortedStringsShape(b.libraries);
    SortedStringsShape(b.importedSymbols);
    SortedStringsShape(b.extractedStrings);
    SortedStringsShape(b.embeddedURLs);
    SortedStringsShape(b.fileCapabilities);
  }

  lemma FileKept(f: File, safePath: string -> bool, supported: string -> bool)
    requires FileValid(f, safePath, supported)
    ensures FileValid(CanonFile(f), safePath, supported) <==> FileFilled(f)
  {
    if f.binary.Some? {
      BinaryKept(f.binary.value);
    }
  }

  lemma {:induction false} SizesAreSums(files: seq<File>, counted: File -> bool)
    ensures Sizes(files, counted) == SumBy(files, (f: File) => if counted(f) then f.size else 0)
  {
    if files != [] {
      SizesAreSums(files[..|files| - 1], counted);
    }
  }

  lemma {:induction false} SumOfMapped<T>(xs: seq<T>, f: T -> T, weight: T -> int)
    requires forall x <- xs :: weight(f(x)) == weight(x)
    ensures SumBy(Map(xs, f), weight) == SumBy(xs, weight)
  {
    if xs != [] {
      SumOfMapped(xs[..|xs| - 1], f, weight);
      assert Map(xs, f)[..|xs| - 1] == Map(xs[..|xs| - 1], f);
    }
  }

  lemma SizesKept(files: seq<File>, out: seq<File>, counted: File -> bool)
    requires multiset(out) == multiset(Map(files, CanonFile)) && forall f :: counted(CanonFile(f)) == counted(f)
    ensures Sizes(out, counted) == Sizes(files, counted)
  {
    var weight := (f: File) => if counted(f) then f.size else 0;
    SizesAreSums(files, counted);
    SizesAreSums(out, counted);
    SumPermutation(out, Map(files, CanonFile), weight);
    SumOfMapped(files, CanonFile, weight);
  }

  lemma PathsKept(files: seq<File>, out: seq<File>)
    requires multiset(out) == multiset(Map(files, CanonFile))
    ensures DistinctPaths(files) ==> DistinctPaths(out)
    ensures PathsOf(out) == PathsOf(files)
  {
    var canon := Map(files, CanonFile);
    SameMembers(out, canon);
    MapMembers(files, files, CanonFile);
    forall f | f in files ensures f.path in PathsOf(out) {
      assert CanonFile(f) in out;
    }
    if DistinctPaths(files) {
      var apart := (x: File, y: File) => x.path != y.path;
      assert Pairwise(canon, apart);
      PairwisePermutation(canon, out, apart);
      forall i, j | 0 <= i < j < |out| ensures out[i].path != out[j].path {
        assert apart(out[i], out[j]);
      }
    }
  }

  lemma FilesKept(files: seq<File>, out: seq<File>, safePath: string -> bool, supported: string -> bool)
    requires multiset(out) == multiset(Map(files, CanonFile)) && forall f <- files :: FileCheck(safePath, supported)(f)
    ensures (forall f <- out :: FileCheck(safePath, supported)(f)) <==> forall f <- files :: FileFilled(f)
  {
    SameMembers(out, Map(files, CanonFile));
    MapMembers(files, files, CanonFile);
    forall f | f in files ensures FileCheck(safePath, supported)(CanonFile(f)) <==> FileFilled(f) {
      FileKept(f, safePath, supported);
    }
    forall f | f in files ensures CanonFile(f) in out {
    }
  }

  lemma InventoryKept(
    files: seq<File>, out: seq<File>, readBytes: int, binaryBytes: int, safePath: string -> bool,
    supported: string -> bool)
    requires multiset(out) == multiset(Map(files, CanonFile))
    requires InventoryValid(files, readBytes, binaryBytes, FileCheck(safePath, supported))
    ensures InventoryValid(out, readBytes, binaryBytes, FileCheck(safePath, supported)) <==>
      forall f <- files :: FileFilled(f)
  {
    FilesKept(files, out, safePath, supported);
    PathsKept(files, out);
    SizesKept(files, out, SourceFile);
    SizesKept(files, out, ElfFile);
  }

  lemma InputsKept(inputs: seq<EvidenceInput>, out: seq<EvidenceInput>, rootDigest: string, policies: seq<Policy>)
    requires multiset(out) == multiset(inputs) && InputsValid(inputs, rootDigest, policies)
    ensures InputsValid(out, rootDigest, policies) && IndexInputs(out) == IndexInputs(inputs)
  {
    SameMembers(out, inputs);
    SameLength(out, inputs);
    var apart := (x: EvidenceInput, y: EvidenceInput) => x.id != y.id;
    assert Pairwise(inputs, apart);
    PairwisePermutation(inputs, out, apart);
    forall i, j | 0 <= i < j < |out| ensures out[i].id != out[j].id {
      assert apart(out[i], out[j]);
    }
    IndexedInputs(inputs);
    IndexedInputs(out);
    EqualMaps(IndexInputs(out), IndexInputs(inputs));
  }

  lemma CoverageKept(files: seq<File>, out: seq<File>)
    requires multiset(out) == multiset(Map(files, CanonFile))
    ensures multiset(Map(files, InventoryDigest.CoveredFields)) == multiset(Map(out, InventoryDigest.CoveredFields))
  {
    MapPermutation(out, Map(files, CanonFile), InventoryDigest.CoveredFields);
    assert Map(Map(files, CanonFile), InventoryDigest.CoveredFields) == Map(files, InventoryDigest.CoveredFields);
  }

  /** Canonicalising keeps the root digest. */
  lemma RootKept(r: Report, c: Report, env: Environment)
    requires multiset(c.inventory) == multiset(Map(r.inventory, CanonFile)) && DistinctPaths(r.inventory)
    requires c.target.rootDigest == r.target.rootDigest
    ensures RootMatches(c, env) <==> RootMatches(r, env)
  {
    CoverageKept(r.inventory, c.inventory);
    InventoryDigest.RootDigestIgnoresOrder(r.inventory, c.inventory, env.validUTF8, env.digest);
  }

  lemma LengthsKept(r: Report, c: Report)
    requires Arranged(r, c)
    ensures |c.inputs| == |r.inputs| && |c.inventory| == |r.inventory| && |c.operations| == |r.operations|
    ensures |c.resources| == |r.resources|
    ensures |c.findings| == |r.findings| && |c.unknowns| == |r.unknowns| && |c.relationships| == |r.relationships|
    ensures |c.limitations| == |r.limitations| && |c.errors| == |r.errors|
  {
    SameLength(c.inputs, r.inputs);
    SameLength(c.inventory, Map(r.inventory, CanonFile));
    SameLength(c.operations, r.operations);
    SameLength(c.resources, r.resources);
    SameLength(c.findings, Map(r.findings, CanonFinding));
    SameLength(c.unknowns, Map(r.unknowns, CanonUnknown));
    SameLength(c.relationships, r.relationships);
    SameLength(c.limitations, r.limitations);
    SameLength(c.errors, r.errors);
  }

  lemma TargetKept(r: Report, c: Report, policies: seq<Policy>, env: Environment)
    requires CanonicalForm(r, c) && TargetValid(r, policies, env)
    ensures TargetValid(c, policies, env) <==> NestedListsFilled(r)
  {
    hide InputsValid, DistinctPaths, FileFilled, ManifestFilled, ManifestValid, RootMatches;
    LengthsKept(r, c);
    InputsKept(r.inputs, c.inputs, r.target.rootDigest, policies);
    ManifestKept(r.target.manifest);
    InventoryKept(r.inventory, c.inventory, r.target.readBytes, r.target.binaryBytes, env.safePath, env.supported);
    RootKept(r, c, env);
  }

  // ---------- records ----------

  lemma CanonFindingIsSame(f: Finding)
    ensures SameFinding(f, CanonFinding(f)) && SameFinding(CanonFinding(f), f)
  {
    EvidenceOrderIsTotal();
    StringOrderIsTotal();
    SortedKeepsBag(f.evidence, EvidenceLess);
    SortedKeepsBag(f.related, StringLess);
  }

  lemma CanonUnknownIsSame(u: Unknown)
    ensures SameUnknown(u, CanonUnknown(u)) && SameUnknown(CanonUnknown(u), u)
  {
    EvidenceOrderIsTotal();
    StringOrderIsTotal();
    SortedKeepsBag(u.evidence, EvidenceLess);
    SortedKeepsBag(u.affected, StringLess);
    SortedKeepsBag(u.suppressed, StringLess);
  }

  lemma MappedMember<T>(xs: seq<T>, out: seq<T>, f: T -> T, x: T)
    requires multiset(out) == multiset(Map(xs, f)) && x in xs
    ensures f(x) in out
  {
    var i :| 0 <= i < |xs| && xs[i] == x;
    var ys, y := Map(xs, f), f(x);
    assert ys[i] == y;
    assert y in multiset(ys);
    assert y in multiset(out);
  }

  lemma MappedSource<T>(xs: seq<T>, out: seq<T>, f: T -> T, y: T) returns (x: T)
    requires multiset(out) == multiset(Map(xs, f)) && y in out
    ensures x in xs && f(x) == y
  {
    SameMembers(out, Map(xs, f));
    MapMembers(xs, xs, f);
    x :| x in xs && f(x) == y;
  }

  ghost predicate LikeFinding(f: Finding, gs: seq<Finding>) {
    exists g <- gs :: SameFinding(f, g)
  }

  ghost predicate LikeUnknown(u: Unknown, vs: seq<Unknown>) {
    exists v <- vs :: SameUnknown(u, v)
  }

  lemma FindingsReordered(fs: seq<Finding>, out: seq<Finding>)
    requires multiset(out) == multiset(Map(fs, CanonFinding))
    ensures FindingsWithin(fs, out) && FindingsWithin(out, fs)
  {
    forall f | f in fs ensures LikeFinding(f, out) {
      MappedMember(fs, out, CanonFinding, f);
      CanonFindingIsSame(f);
    }
    forall g | g in out ensures LikeFinding(g, fs) {
      var f := MappedSource(fs, out, CanonFinding, g);
      CanonFindingIsSame(f);
    }
  }

  lemma UnknownsReordered(us: seq<Unknown>, out: seq<Unknown>)
    requires multiset(out) == multiset(Map(us, CanonUnknown))
    ensures UnknownsWithin(us, out) && UnknownsWithin(out, us)
  {
    forall u | u in us ensures LikeUnknown(u, out) {
      MappedMember(us, out, CanonUnknown, u);
      CanonUnknownIsSame(u);
    }
    forall v | v in out ensures LikeUnknown(v, us) {
      var u := MappedSource(us, out, CanonUnknown, v);
      CanonUnknownIsSame(u);
    }
  }

  lemma MappedNodes<T>(xs: seq<T>, out: seq<T>, f: T -> T, node: T -> Node)
    requires multiset(out) == multiset(Map(xs, f)) && forall x <- xs :: node(f(x)) == node(x)
    ensures multiset(Map(out, node)) == multiset(Map(xs, node))
  {
    MapPermutation(out, Map(xs, f), node);
    assert Map(Map(xs, f), node) == Map(xs, node);
  }

  lemma NodesReordered(r: Report, c: Report)
    requires Arranged(r, c)
    ensures multiset(Nodes(c)) == multiset(Nodes(r))
  {
    MapPermutation(c.operations, r.operations, OperationAsNode);
    MapPermutation(c.resources, r.resources, ResourceAsNode);
    MappedNodes(r.findings, c.findings, CanonFinding, FindingAsNode);
    MappedNodes(r.unknowns, c.unknowns, CanonUnknown, UnknownAsNode);
  }

  lemma CanonicalFormReorders(r: Report, c: Report)
    requires CanonicalForm(r, c)
    ensures Reordered(r, c)
  {
    FindingsReordered(r.findings, c.findings);
    UnknownsReordered(r.unknowns, c.unknowns);
    NodesReordered(r, c);
  }

  lemma RepeatFreeKept(xs: seq<string>, ys: seq<string>)
    requires multiset(xs) == multiset(ys) && RepeatFree(xs)
    ensures RepeatFree(ys)
  {
    assert Distinct(xs);
    DistinctPermutation(xs, ys);
  }

  lemma FindingValidKept(f: Finding, g: Finding, operations: set<string>, c: Context)
    requires SameFinding(f, g) && FindingValid(f, operations, c)
    ensures FindingValid(g, operations, c)
  {
    SameLength(f.evidence, g.evidence);
    SameLength(f.related, g.related);
    SameMembers(f.evidence, g.evidence);
    SameMembers(f.related, g.related);
    RepeatFreeKept(f.related, g.related);
  }

  lemma BindingKept(u: Unknown, v: Unknown, inputs: Inputs)
    requires SameUnknown(u, v)
    ensures CheckBinding(u, inputs) == CheckBinding(v, inputs)
  {
    SameLength(u.evidence, v.evidence);
    SameLength(u.affected, v.affected);
    SameLength(u.suppressed, v.suppressed);
    if |u.evidence| == 1 {
      SingletonKept(u.evidence, v.evidence);
    }
    if |u.suppressed| == 1 {
      SingletonKept(u.suppressed, v.suppressed);
    }
    assert [SNAPSHOT_BINDING_RULE] != [] && |[SNAPSHOT_BINDING_RULE]| == 1;
  }

  lemma UnknownValidKept(u: Unknown, v: Unknown, operations: set<string>, c: Context)
    requires SameUnknown(u, v) && UnknownValid(u, operations, c)
    ensures UnknownValid(v, operations, c)
  {
    SameLength(u.evidence, v.evidence);
    SameLength(u.affected, v.affected);
    SameLength(u.suppressed, v.suppressed);
    SameMembers(u.evidence, v.evidence);
    SameMembers(u.affected, v.affected);
    RepeatFreeKept(u.affected, v.affected);
    BindingKept(u, v, c.inputs);
  }

  lemma FindingsKept(fs: seq<Finding>, out: seq<Finding>, operations: set<string>, c: Context)
    requires FindingsWithin(out, fs) && forall f <- fs :: FindingValid(f, operations, c)
    ensures forall f <- out :: FindingValid(f, operations, c)
  {
    forall g | g in out ensures FindingValid(g, operations, c) {
      var f :| f in fs && SameFinding(g, f);
      FindingValidKept(f, g, operations, c);
    }
  }

  lemma UnknownsKept(us: seq<Unknown>, out: seq<Unknown>, operations: set<string>, c: Context)
    requires UnknownsWithin(out, us) && forall u <- us :: UnknownValid(u, operations, c)
    ensures forall u <- out :: UnknownValid(u, operations, c)
  {
    forall v | v in out ensures UnknownValid(v, operations, c) {
      var u :| u in us && SameUnknown(v, u);
      UnknownValidKept(u, v, operations, c);
    }
  }

  lemma ReferencesKept(xs: seq<Node>, ys: seq<Node>)
    requires multiset(xs) == multiset(ys) && DistinctReferences(xs)
    ensures DistinctReferences(ys)
  {
    var apart := (x: Node, y: Node) => x.reference != y.reference;
    assert Pairwise(xs, apart);
    PairwisePermutation(xs, ys, apart);
    forall i, j | 0 <= i < j < |ys| ensures ys[i].reference != ys[j].reference {
      assert apart(ys[i], ys[j]);
    }
  }

  lemma SameOperationIDs(a: Report, b: Report)
    requires multiset(a.operations) == multiset(b.operations)
    ensures OperationIDs(a) == OperationIDs(b)
  {
    SameMembers(a.operations, b.operations);
  }

  lemma NodesKept(r: Report, c: Report, context: Context)
    requires Reordered(r, c) && NodesValid(r, context)
    ensures NodesValid(c, context)
  {
    SameOperationIDs(r, c);
    SameMembers(r.operations, c.operations);
    SameMembers(r.resources, c.resources);
    FindingsKept(r.findings, c.findings, OperationIDs(r), context);
    UnknownsKept(r.unknowns, c.unknowns, OperationIDs(r), context);
    ReferencesKept(Nodes(r), Nodes(c));
  }

  lemma NativeKept(us: seq<Unknown>, vs: seq<Unknown>, path: string)
    requires UnknownsWithin(us, vs) && NativeExplained(us, path)
    ensures NativeExplained(vs, path)
  {
    var u :| u in us && exists e <- u.evidence :: NativeEvidence(u, e) && e.path == path;
    var e :| e in u.evidence && NativeEvidence(u, e) && e.path == path;
    var v :| v in vs && SameUnknown(u, v);
    SameMembers(u.evidence, v.evidence);
    assert e in v.evidence && NativeEvidence(v, e);
  }

  lemma BindingExplainedKept(us: seq<Unknown>, vs: seq<Unknown>, inputs: Inputs, id: string)
    requires UnknownsWithin(us, vs) && BindingExplained(us, inputs, id)
    ensures BindingExplained(vs, inputs, id)
  {
    var u :| u in us && CheckBinding(u, inputs) == Binding(id);
    var v :| v in vs && SameUnknown(u, v);
    BindingKept(u, v, inputs);
  }

  lemma BindingsKept(us: seq<Unknown>, out: seq<Unknown>, inputs: Inputs)
    requires multiset(out) == multiset(Map(us, CanonUnknown)) && BindingsDistinct(us, inputs)
    ensures BindingsDistinct(out, inputs)
  {
    var apart := (x: Unknown, y: Unknown) => CheckBinding(x, inputs).Binding? ==>
      CheckBinding(x, inputs) != CheckBinding(y, inputs);
    var canon := Map(us, CanonUnknown);
    forall i, j | 0 <= i < j < |canon| ensures apart(canon[i], canon[j]) {
      CanonUnknownIsSame(us[i]);
      CanonUnknownIsSame(us[j]);
      BindingKept(us[i], canon[i], inputs);
      BindingKept(us[j], canon[j], inputs);
    }
    forall a <- canon, b <- canon ensures apart(a, b) == apart(b, a) {
    }
    PairwisePermutation(canon, out, apart);
    forall i, j | 0 <= i < j < |out| && CheckBinding(out[i], inputs).Binding?
      ensures CheckBinding(out[i], inputs) != CheckBinding(out[j], inputs)
    {
      assert apart(out[i], out[j]);
    }
  }

  lemma NativeSweepKept(files: seq<File>, out: seq<File>, us: seq<Unknown>, vs: seq<Unknown>)
    requires multiset(out) == multiset(Map(files, CanonFile)) && UnknownsWithin(us, vs)
    requires forall f <- files :: f.binary.Some? || f.Elf() ==> NativeExplained(us, f.path)
    ensures forall f <- out :: f.binary.Some? || f.Elf() ==> NativeExplained(vs, f.path)
  {
    SameMembers(out, Map(files, CanonFile));
    MapMembers(files, files, CanonFile);
    forall g | g in out && (g.binary.Some? || g.Elf()) ensures NativeExplained(vs, g.path) {
      var f :| f in files && CanonFile(f) == g;
      NativeKept(us, vs, f.path);
    }
  }

  lemma BindingSweepKept(
    xs: seq<EvidenceInput>, ys: seq<EvidenceInput>, us: seq<Unknown>, vs: seq<Unknown>, inputs: Inputs)
    requires multiset(ys) == multiset(xs) && UnknownsWithin(us, vs)
    requires forall x <- xs :: x.inputType == OmarchyInput && x.subjectRootDigest == "" ==>
      BindingExplained(us, inputs, x.id)
    ensures forall x <- ys :: x.inputType == OmarchyInput && x.subjectRootDigest == "" ==>
      BindingExplained(vs, inputs, x.id)
  {
    SameMembers(ys, xs);
    forall x | x in ys && x.inputType == OmarchyInput && x.subjectRootDigest == ""
      ensures BindingExplained(vs, inputs, x.id)
    {
      BindingExplainedKept(us, vs, inputs, x.id);
    }
  }

  lemma ExplainedKept(r: Report, c: Report, inputs: Inputs)
    requires Arranged(r, c) && Explained(r, inputs)
    ensures Explained(c, inputs)
  {
    UnknownsReordered(r.unknowns, c.unknowns);
    BindingsKept(r.unknowns, c.unknowns, inputs);
    NativeSweepKept(r.inventory, c.inventory, r.unknowns, c.unknowns);
    BindingSweepKept(r.inputs, c.inputs, r.unknowns, c.unknowns, inputs);
  }

  lemma NotesKept(r: Report, c: Report, safePath: string -> bool)
    requires CanonicalForm(r, c) && NotesValid(r, safePath)
    ensures NotesValid(c, safePath)
  {
    SameMembers(r.limitations, c.limitations);
    SameMembers(r.errors, c.errors);
  }

  lemma {:induction false} CountsAreWeights(files: seq<File>, a: Analysis)
    ensures Review.CountAnalysis(files, a) == SumBy(files, (f: File) => if f.analysis == a then 1 else 0)
  {
    if files != [] {
      CountsAreWeights(files[..|files| - 1], a);
    }
  }

  lemma CountKept(files: seq<File>, out: seq<File>, a: Analysis)
    requires multiset(out) == multiset(Map(files, CanonFile))
    ensures Review.CountAnalysis(out, a) == Review.CountAnalysis(files, a)
  {
    var weight := (f: File) => if f.analysis == a then 1 else 0;
    CountsAreWeights(files, a);
    CountsAreWeights(out, a);
    SumPermutation(out, Map(files, CanonFile), weight);
    SumOfMapped(files, CanonFile, weight);
  }

  /** Coverage does not depend on the order of the inventory. */
  lemma SameCoverageSummary(files: seq<File>, out: seq<File>)
    requires multiset(out) == multiset(Map(files, CanonFile))
    ensures Review.CoverageOf(out) == Review.CoverageOf(files)
  {
    CountKept(files, out, Analyzed);
    CountKept(files, out, Partial);
    CountKept(files, out, Unanalyzed);
    CountKept(files, out, NotApplicable);
  }

  lemma ReviewCoverage(r: Report)
    requires ReviewValid(r)
    ensures r.review.value.coverage == Review.CoverageOf(r.inventory)
  {
  }

  lemma StatusKept(r: Report, c: Report, a: Coverage, b: Coverage)
    requires CanonicalForm(r, c) && r.review.Some? && r.review.value.coverage == a && c.review.Some?
    requires c.review.value.coverage == b && a == b
    requires StatusValid(r)
    ensures StatusValid(c)
  {
    LengthsKept(r, c);
  }

  lemma SummaryKept(r: Report, c: Report)
    requires CanonicalForm(r, c) && ReviewValid(r) && StatusValid(r) && |r.inventory| <= MAX_INVENTORY
    ensures ReviewValid(c) && StatusValid(c)
  {
    LengthsKept(r, c);
    AcceptedReports.DerivedReviewIsValid(c);
    SameCoverageSummary(r.inventory, c.inventory);
    ReviewCoverage(r);
    ReviewCoverage(c);
    StatusKept(r, c, r.review.value.coverage, c.review.value.coverage);
  }

  lemma RecordsKept(r: Report, c: Report, env: Environment)
    requires CanonicalForm(r, c) && RecordsValid(r, env) && ContextOf(c, env) == ContextOf(r, env)
    requires |r.inventory| <= MAX_INVENTORY
    ensures RecordsValid(c, env)
  {
    CanonicalFormReorders(r, c);
    NodesKept(r, c, ContextOf(r, env));
    ExplainedKept(r, c, IndexInputs(r.inputs));
    AcceptedReports.AcceptedIsWellNamed(r, ContextOf(r, env));
    AcceptedReports.AcceptedIsWellNamed(c, ContextOf(r, env));
    GraphValidUnderOrder(r, c, env.digest);
    NotesKept(r, c, env.safePath);
    SummaryKept(r, c);
  }

  lemma ContextKept(r: Report, c: Report, policies: seq<Policy>, env: Environment)
    requires CanonicalForm(r, c) && TargetValid(r, policies, env)
    ensures ContextOf(c, env) == ContextOf(r, env)
  {
    InputsKept(r.inputs, c.inputs, r.target.rootDigest, policies);
    PathsKept(r.inventory, c.inventory);
  }

  lemma TargetIsBounded(r: Report, policies: seq<Policy>, env: Environment)
    requires TargetValid(r, policies, env)
    ensures |r.inventory| <= MAX_INVENTORY
  {
    hide InputsValid, InventoryValid, RootMatches, ManifestValid;
  }
}

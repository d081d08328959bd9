/** The canonicaliser as it runs, and what repeating it does. */
module CanonicalEncoding {
  import opened Text
  import opened Sorting
  import opened ReportModel
  import opened EvidenceGraph
  import opened Comparators
  import opened EvidenceValidator
  import opened InventoryValidator
  import opened ReportValidator
  import opened Canonical
  import Review

  // ---------- nested sorts ----------

  method SortStrings(values: seq<string>) returns (sorted: seq<string>)
    ensures sorted == SortedBy(values, StringLess)
  {
    StringOrderIsTotal();
    sorted := SortSlice(values, StringLess);
    SortedBySorts(values, StringLess);
    SortedPermutationIsUnique(sorted, SortedBy(values, StringLess), StringLess);
  }

  method SortEvidence(values: seq<Evidence>) returns (sorted: seq<Evidence>)
    ensures sorted == SortedBy(values, EvidenceLess)
  {
    EvidenceOrderIsTotal();
    sorted := SortSlice(values, EvidenceLess);
    SortedBySorts(values, EvidenceLess);
    SortedPermutationIsUnique(sorted, SortedBy(values, EvidenceLess), EvidenceLess);
  }

  /** `sortedStrings`. */
  method SortedCopy(values: Slice<string>) returns (sorted: Slice<string>)
    ensures sorted == SortedStrings(values)
  {
    if |values.Items()| == 0 {
      return NilSlice;
    }
    var items := SortStrings(values.Items());
    sorted := Slice(items);
  }

  method CanonicaliseBinary(b: Binary) returns (c: Binary)
    ensures c == CanonBinary(b)
  {
    var libraries := SortedCopy(b.libraries);
    var symbols := SortedCopy(b.importedSymbols);
    var texts := SortedCopy(b.extractedStrings);
    var urls := SortedCopy(b.embeddedURLs);
    var capabilities := SortedCopy(b.fileCapabilities);
    c := b.(libraries := libraries, importedSymbols := symbols, extractedStrings := texts, embeddedURLs := urls,
      fileCapabilities := capabilities);
  }

  /** The loop over inventory records, rewriting each in place. */
  method CanonicaliseFiles(files: seq<File>) returns (out: seq<File>)
    ensures out == Map(files, CanonFile)
  {
    out := files;
    for k := 0 to |files|
      invariant |out| == |files|
      invariant forall i :: 0 <= i < k ==> out[i] == CanonFile(files[i])
      invariant forall i :: k <= i < |files| ==> out[i] == files[i]
    {
      var file := out[k];
      if file.binary.Some? {
        var binary := CanonicaliseBinary(file.binary.value);
        file := file.(binary := Some(binary));
      }
      if file.archive.Some? {
        file := file.(archive := Some(file.archive.value.(entries := Copied(file.archive.value.entries))));
      }
      out := out[k := file];
    }
  }

  method CanonicaliseFindings(findings: seq<Finding>) returns (out: seq<Finding>)
    ensures out == Map(findings, CanonFinding)
  {
    out := findings;
    for k := 0 to |findings|
      invariant |out| == |findings|
      invariant forall i :: 0 <= i < k ==> out[i] == CanonFinding(findings[i])
      invariant forall i :: k <= i < |findings| ==> out[i] == findings[i]
    {
      var evidence := SortEvidence(out[k].evidence);
      var related := SortStrings(out[k].related);
      out := out[k := out[k].(evidence := evidence, related := related)];
    }
  }

  method CanonicaliseUnknowns(unknowns: seq<Unknown>) returns (out: seq<Unknown>)
    ensures out == Map(unknowns, CanonUnknown)
  {
    out := unknowns;
    for k := 0 to |unknowns|
      invariant |out| == |unknowns|
      invariant forall i :: 0 <= i < k ==> out[i] == CanonUnknown(unknowns[i])
      invariant forall i :: k <= i < |unknowns| ==> out[i] == unknowns[i]
    {
      var evidence := SortEvidence(out[k].evidence);
      var affected := SortStrings(out[k].affected);
      var suppressed := SortStrings(out[k].suppressed);
      out := out[k := out[k].(evidence := evidence, affected := affected, suppressed := suppressed)];
    }
  }

  // ---------- sorting first, rewriting second ----------

  /** Rewriting that leaves the sort key alone turns a sorted permutation into one. */
  lemma RewriteSorted<T(!new)>(xs: seq<T>, ys: seq<T>, less: (T, T) -> bool, f: T -> T)
    requires SortedPermutation(xs, ys, less) && forall a, b :: less(f(a), f(b)) == less(a, b)
    ensures SortedPermutation(Map(xs, f), Map(ys, f), less)
  {
    MapPermutation(ys, xs, f);
  }

  method SortByKey<T(!new)>(xs: seq<T>, ghost key: T -> string, less: (T, T) -> bool) returns (ys: seq<T>)
    requires forall a, b :: less(a, b) == Less(key(a), key(b))
    ensures SortedPermutation(xs, ys, less)
  {
    KeyOrder(key, less);
    ys := SortSlice(xs, less);
  }

  method ArrangeFiles(files: seq<File>) returns (out: seq<File>)
    ensures SortedPermutation(Map(files, CanonFile), out, PathLess)
  {
    var sorted := SortByKey(files, (f: File) => f.path, PathLess);
    RewriteSorted(files, sorted, PathLess, CanonFile);
    out := CanonicaliseFiles(sorted);
  }

  method ArrangeFindings(findings: seq<Finding>) returns (out: seq<Finding>)
    ensures SortedPermutation(Map(findings, CanonFinding), out, FindingLess)
  {
    var sorted := SortByKey(findings, (f: Finding) => f.id, FindingLess);
    RewriteSorted(findings, sorted, FindingLess, CanonFinding);
    out := CanonicaliseFindings(sorted);
  }

  method ArrangeUnknowns(unknowns: seq<Unknown>) returns (out: seq<Unknown>)
    ensures SortedPermutation(Map(unknowns, CanonUnknown), out, UnknownLess)
  {
    var sorted := SortByKey(unknowns, (u: Unknown) => u.id, UnknownLess);
    RewriteSorted(unknowns, sorted, UnknownLess, CanonUnknown);
    out := CanonicaliseUnknowns(sorted);
  }

  method Arrange(r: Report) returns (c: Report)
    ensures Arranged(r, c) && SameHeader(r, c) && c.review == r.review
  {
    var manifest := r.target.manifest;
    if manifest.Some? {
      var kinds := SortedCopy(manifest.value.kinds);
      manifest := Some(manifest.value.(kinds := kinds));
    }
    var inputs := SortByKey(r.inputs, (x: EvidenceInput) => x.id, InputLess);
    var inventory := ArrangeFiles(r.inventory);
    var operations := SortByKey(r.operations, (o: Operation) => o.id, OperationLess);
    var resources := SortByKey(r.resources, (o: Resource) => o.id, ResourceLess);
    var findings := ArrangeFindings(r.findings);
    var unknowns := ArrangeUnknowns(r.unknowns);
    var relationships := SortByKey(r.relationships, (e: Relationship) => TupleText(e.Tuple()), TupleLess);
    LimitationOrderIsTotal();
    ScanErrorOrderIsTotal();
    var limitations := SortSlice(r.limitations, LimitationLess);
    var errors := SortSlice(r.errors, ScanErrorLess);
    c := r.(target := r.target.(manifest := manifest), inputs := inputs, inventory := inventory,
            operations := operations, resources := resources, findings := findings, unknowns := unknowns,
            relationships := relationships, limitations := limitations, errors := errors);
  }

  lemma ArrangedIgnoresReview(r: Report, c: Report, review: Option<ReviewSummary>)
    requires Arranged(r, c) && SameHeader(r, c)
    ensures Arranged(r, c.(review := review)) && SameHeader(r, c.(review := review))
  {
  }

  lemma ArrangedNumbers(r: Report, c: Report)
    requires Arranged(r, c) && SameHeader(r, c) && MachineNumbers(r)
    ensures MachineNumbers(c)
  {
    SameMembers(c.inventory, Map(r.inventory, CanonFile));
    MapMembers(r.inventory, r.inventory, CanonFile);
    forall f | f in c.inventory ensures MachineSized(f) {
      var g :| g in r.inventory && CanonFile(g) == f;
    }
  }

  /** `BuildReviewSummary`. */
  method BuildReview(r: Report) returns (c: Report, ok: bool)
    ensures ok <==> |r.inventory| <= MAX_INVENTORY
    ensures c == r.(review := c.review) && (ok ==> Rederived(c))
  {
    c := r;
    var coverage := Review.CoverageFromInventory(r.inventory);
    Review.DerivedCoverageValidIff(r.inventory);
    if !Review.CoverageValid(coverage) {
      return c, false;
    }
    var review := Review.DeriveReviewSummary(r, coverage);
    Review.ReviewIgnoresHeader(r, Some(review), r.target, coverage);
    c, ok := r.(review := Some(review)), true;
  }

  lemma SameUpToOrderReflexive(r: Report)
    ensures SameUpToOrder(r, r)
  {
  }

  /** When one candidate is refused every candidate is. */
  lemma RefusedOnce(r: Report, c: Report, d: Report, policies: seq<Policy>, env: Environment)
    requires CanonicalForm(r, c) && CanonicalForm(r, d) && !ReportValid(c, policies, env)
    ensures !ReportValid(d, policies, env)
  {
    hide *;
    SameUpToOrderReflexive(r);
    if ReportValid(d, policies, env) {
      OrderIndependence(r, r, d, c, policies, env);
    }
  }

  lemma TooManyFiles(r: Report, d: Report, policies: seq<Policy>, env: Environment)
    requires Arranged(r, d) && |r.inventory| > MAX_INVENTORY
    ensures !ReportValid(d, policies, env)
  {
    hide RecordsValid, InputsValid, InventoryValid, RootMatches;
    assert |d.inventory| == |multiset(d.inventory)| == |multiset(Map(r.inventory, CanonFile))| == |r.inventory|;
  }

  /** `canonicalReport`: the accepted canonical form, or nothing when no canonical form is accepted. */
  method CanonicalReport(r: Report, policies: seq<Policy>, env: Environment) returns (out: Option<Report>)
    requires MachineNumbers(r)
    ensures out.Some? ==> CanonicalForm(r, out.value) && ReportValid(out.value, policies, env)
    ensures out.None? ==> forall d :: CanonicalForm(r, d) ==> !ReportValid(d, policies, env)
  {
    hide ReportValid;
    var arranged := Arrange(r);
    ArrangedNumbers(r, arranged);
    var c, ok := BuildReview(arranged);
    ArrangedIgnoresReview(r, arranged, c.review);
    assert |arranged.inventory| == |multiset(arranged.inventory)| == |multiset(Map(r.inventory, CanonFile))| ==
      |r.inventory|;
    if !ok {
      forall d | CanonicalForm(r, d) ensures !ReportValid(d, policies, env) {
        TooManyFiles(r, d, policies, env);
      }
      return None;
    }
    assert CanonicalForm(r, c);
    ok := Validate(c, policies, env);
    if ok {
      return Some(c);
    }
    forall d | CanonicalForm(r, d) ensures !ReportValid(d, policies, env) {
      RefusedOnce(r, c, d, policies, env);
    }
    out := None;
  }

  // ---------- idempotence ----------

  lemma MapMap<T, V>(xs: seq<T>, f: T -> T, view: T -> V)
    requires forall x <- xs :: view(f(x)) == view(x)
    ensures Map(Map(xs, f), view) == Map(xs, view)
  {
  }

  lemma SortedKeepsBag<T(!new)>(xs: seq<T>, less: (T, T) -> bool)
    requires StrictWeakOrder(less)
    ensures multiset(SortedBy(xs, less)) == multiset(xs)
  {
    SortedBySorts(xs, less);
  }

  lemma SortedStringsKeepBag(values: Slice<string>)
    ensures Bag(SortedStrings(values)) == Bag(values)
  {
    StringOrderIsTotal();
    SortedKeepsBag(values.Items(), StringLess);
  }

  lemma FindingViewKept(f: Finding)
    ensures ViewFinding(CanonFinding(f)) == ViewFinding(f)
  {
    EvidenceOrderIsTotal();
    StringOrderIsTotal();
    SortedKeepsBag(f.evidence, EvidenceLess);
    SortedKeepsBag(f.related, StringLess);
  }

  lemma UnknownViewKept(u: Unknown)
    ensures ViewUnknown(CanonUnknown(u)) == ViewUnknown(u)
  {
    EvidenceOrderIsTotal();
    StringOrderIsTotal();
    SortedKeepsBag(u.evidence, EvidenceLess);
    SortedKeepsBag(u.affected, StringLess);
    SortedKeepsBag(u.suppressed, StringLess);
  }

  lemma BinaryViewKept(b: Binary)
    ensures BareBinary(CanonBinary(b)) == BareBinary(b) && BinaryBags(CanonBinary(b)) == BinaryBags(b)
  {
    SortedStringsKeepBag(b.libraries);
    SortedStringsKeepBag(b.importedSymbols);
    SortedStringsKeepBag(b.extractedStrings);
    SortedStringsKeepBag(b.embeddedURLs);
    SortedStringsKeepBag(b.fileCapabilities);
  }

  lemma FileViewKept(f: File)
    ensures ViewFile(CanonFile(f)) == ViewFile(f)
  {
    if f.binary.Some? {
      BinaryViewKept(f.binary.value);
    }
  }

  lemma BagsKept(r: Report, c: Report)
    requires Arranged(r, c)
    ensures multiset(Map(c.inventory, ViewFile)) == multiset(Map(r.inventory, ViewFile))
    ensures multiset(Map(c.findings, ViewFinding)) == multiset(Map(r.findings, ViewFinding))
    ensures multiset(Map(c.unknowns, ViewUnknown)) == multiset(Map(r.unknowns, ViewUnknown))
  {
    forall f ensures ViewFile(CanonFile(f)) == ViewFile(f) { FileViewKept(f); }
    forall f ensures ViewFinding(CanonFinding(f)) == ViewFinding(f) { FindingViewKept(f); }
    forall u ensures ViewUnknown(CanonUnknown(u)) == ViewUnknown(u) { UnknownViewKept(u); }
    MapMap(r.inventory, CanonFile, ViewFile);
    MapMap(r.findings, CanonFinding, ViewFinding);
    MapMap(r.unknowns, CanonUnknown, ViewUnknown);
    MapPermutation(c.inventory, Map(r.inventory, CanonFile), ViewFile);
    MapPermutation(c.findings, Map(r.findings, CanonFinding), ViewFinding);
    MapPermutation(c.unknowns, Map(r.unknowns, CanonUnknown), ViewUnknown);
  }

  /** A canonical form holds the same content: nothing is added, lost or changed but order and summary. */
  lemma CanonicalFormKeepsContent(r: Report, c: Report)
    requires CanonicalForm(r, c)
    ensures SameUpToOrder(r, c)
  {
    BagsKept(r, c);
    var m := r.target.manifest;
    if m.Some? {
      SortedStringsKeepBag(m.value.kinds);
    }
    assert c.target.(manifest := None) == r.target.(manifest := None);
  }

  /** Canonicalising twice is canonicalising once. */
  lemma CanonicalFormIsIdempotent(r: Report, c: Report, d: Report, policies: seq<Policy>, env: Environment)
    requires CanonicalForm(r, c) && ReportValid(c, policies, env) && CanonicalForm(c, d)
    ensures d == c
  {
    hide *;
    CanonicalFormKeepsContent(r, c);
    OrderIndependence(r, c, c, d, policies, env);
  }

  /** Two encodings agree exactly when the reports hold the same content. */
  lemma SameFormIffSameContent(a: Report, b: Report, c: Report, d: Report, policies: seq<Policy>, env: Environment)
    requires CanonicalForm(a, c) && CanonicalForm(b, d) && ReportValid(c, policies, env)
    requires ReportValid(d, policies, env)
    ensures c == d <==> SameUpToOrder(a, b)
  {
    hide ReportValid, CanonicalForm;
    CanonicalFormKeepsContent(a, c);
    CanonicalFormKeepsContent(b, d);
    if SameUpToOrder(a, b) {
      OrderIndependence(a, b, c, d, policies, env);
    }
  }
}

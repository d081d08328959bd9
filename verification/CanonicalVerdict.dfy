/**
 Exactly when an accepted report has an accepted canonical form. Beside the nested lists there is one thing that
 reordering can break: the derived summary quotes the first eight reasons, and sorting can bring a reason forward
 whose title is too long to be serialized.
 */
module CanonicalVerdict {
  import opened Sorting
  import opened ReportModel
  import opened EvidenceGraph
  import GraphFacts
  import opened EvidenceValidator
  import opened ReportValidator
  import opened HostileText
  import opened Comparators
  import opened Canonical
  import opened CanonicalEncoding
  import opened CanonicalAcceptance
  import AcceptedReports
  import Review

  // ---------- the strings of the records ----------

  lemma SortedStringsFit(values: Slice<string>, fits: string -> bool)
    ensures AllFit(SortedStrings(values).Items(), fits) <==> AllFit(values.Items(), fits)
  {
    SortedStringsKeepBag(values);
    SameMembers(SortedStrings(values).Items(), values.Items());
  }

  lemma BinaryStillFits(b: Binary, fits: string -> bool)
    ensures BinaryFits(CanonBinary(b), fits) <==> BinaryFits(b, fits)
  {
    hide SortedStrings, AllFit;
    SortedStringsFit(b.libraries, fits);
    SortedStringsFit(b.importedSymbols, fits);
    SortedStringsFit(b.extractedStrings, fits);
    SortedStringsFit(b.embeddedURLs, fits);
    SortedStringsFit(b.fileCapabilities, fits);
  }

  lemma FileStillFits(f: File, fits: string -> bool)
    ensures FileFits(CanonFile(f), fits) <==> FileFits(f, fits)
  {
    hide AllFit, BinaryFits, CanonBinary;
    if f.binary.Some? {
      BinaryStillFits(f.binary.value, fits);
    }
  }

  lemma FindingStillFits(f: Finding, fits: string -> bool)
    requires FindingFits(f, fits)
    ensures FindingFits(CanonFinding(f), fits)
  {
    CanonFindingIsSame(f);
    SameMembers(f.evidence, CanonFinding(f).evidence);
    SameMembers(f.related, CanonFinding(f).related);
  }

  lemma UnknownStillFits(u: Unknown, fits: string -> bool)
    requires UnknownFits(u, fits)
    ensures UnknownFits(CanonUnknown(u), fits)
  {
    CanonUnknownIsSame(u);
    SameMembers(u.evidence, CanonUnknown(u).evidence);
    SameMembers(u.affected, CanonUnknown(u).affected);
    SameMembers(u.suppressed, CanonUnknown(u).suppressed);
  }

  lemma TargetStillFits(t: Target, fits: string -> bool)
    requires TargetFits(t, fits)
    ensures TargetFits(t.(manifest := Lift(t.manifest, CanonManifest)), fits)
  {
    if t.manifest.Some? {
      SortedStringsFit(t.manifest.value.kinds, fits);
    }
  }

  /** A per-record check that canonicalising one record keeps holds of the whole canonical list. */
  lemma MappedStillFit<T>(xs: seq<T>, out: seq<T>, f: T -> T, check: T -> bool)
    requires multiset(out) == multiset(Map(xs, f)) && forall x <- xs :: check(x) ==> check(f(x))
    requires forall x <- xs :: check(x)
    ensures forall y <- out :: check(y)
  {
    forall y | y in out ensures check(y) {
      var x := MappedSource(xs, out, f, y);
    }
  }

  lemma SameStillFit<T>(xs: seq<T>, out: seq<T>, check: T -> bool)
    requires multiset(out) == multiset(xs) && forall x <- xs :: check(x)
    ensures forall y <- out :: check(y)
  {
    SameMembers(out, xs);
  }

  lemma ListsStillFit(r: Report, c: Report, fits: string -> bool)
    requires Arranged(r, c) && RecordsFit(r, fits)
    ensures (forall i <- c.inputs :: InputFits(i, fits)) && (forall f <- c.inventory :: FileFits(f, fits))
    ensures (forall o <- c.operations :: OperationFits(o, fits)) && (forall o <- c.resources :: ResourceFits(o, fits))
    ensures (forall f <- c.findings :: FindingFits(f, fits)) && (forall u <- c.unknowns :: UnknownFits(u, fits))
    ensures forall e <- c.relationships :: RelationshipFits(e, fits)
    ensures (forall l <- c.limitations :: LimitationFits(l, fits)) && (forall e <- c.errors :: ErrorFits(e, fits))
  {
    hide InputFits, FileFits, OperationFits, ResourceFits, FindingFits, UnknownFits, RelationshipFits, LimitationFits;
    hide ErrorFits, CanonFile, CanonFinding, CanonUnknown, TargetFits;
    SameStillFit(r.inputs, c.inputs, x => InputFits(x, fits));
    SameStillFit(r.operations, c.operations, x => OperationFits(x, fits));
    SameStillFit(r.resources, c.resources, x => ResourceFits(x, fits));
    SameStillFit(r.relationships, c.relationships, x => RelationshipFits(x, fits));
    SameStillFit(r.limitations, c.limitations, x => LimitationFits(x, fits));
    SameStillFit(r.errors, c.errors, x => ErrorFits(x, fits));
    MappedListsStillFit(r, c, fits);
  }

  lemma MappedListsStillFit(r: Report, c: Report, fits: string -> bool)
    requires Arranged(r, c) && RecordsFit(r, fits)
    ensures forall f <- c.inventory :: FileFits(f, fits)
    ensures (forall f <- c.findings :: FindingFits(f, fits)) && (forall u <- c.unknowns :: UnknownFits(u, fits))
  {
    hide InputFits, FileFits, OperationFits, ResourceFits, FindingFits, UnknownFits, RelationshipFits, LimitationFits;
    hide ErrorFits, CanonFile, CanonFinding, CanonUnknown, TargetFits;
    forall f | f in r.inventory ensures FileFits(CanonFile(f), fits) {
      FileStillFits(f, fits);
    }
    forall f | f in r.findings ensures FindingFits(CanonFinding(f), fits) {
      FindingStillFits(f, fits);
    }
    forall u | u in r.unknowns ensures UnknownFits(CanonUnknown(u), fits) {
      UnknownStillFits(u, fits);
    }
    MappedStillFit(r.inventory, c.inventory, CanonFile, x => FileFits(x, fits));
    MappedStillFit(r.findings, c.findings, CanonFinding, x => FindingFits(x, fits));
    MappedStillFit(r.unknowns, c.unknowns, CanonUnknown, x => UnknownFits(x, fits));
  }

  /** Canonicalising touches no string of a record. */
  lemma RecordsStillFit(r: Report, c: Report, fits: string -> bool)
    requires CanonicalForm(r, c) && RecordsFit(r, fits)
    ensures RecordsFit(c, fits)
  {
    hide InputFits, FileFits, OperationFits, ResourceFits, FindingFits, UnknownFits, RelationshipFits, LimitationFits;
    hide ErrorFits, TargetFits, Arranged, Rederived;
    TargetStillFits(r.target, fits);
    ListsStillFit(r, c, fits);
  }

  // ---------- the strings of the summary ----------

  lemma {:induction false} AtSeverityMembers(fs: seq<Finding>, s: Severity)
    ensures forall f <- Review.AtSeverity(fs, s) :: f in fs
  {
    if fs != [] {
      AtSeverityMembers(fs[..|fs| - 1], s);
    }
  }

  lemma ImpactFits(fs: seq<Finding>, fits: string -> bool)
    requires forall f <- fs :: FindingFits(f, fits)
    ensures ReasonsFit(Review.ImpactOf(fs).reasons, fits)
  {
    var most := Review.AtSeverity(fs, Review.MaxSeverity(fs));
    var all := Map(most, Review.FindingReason);
    AtSeverityMembers(fs, Review.MaxSeverity(fs));
    forall x | x in Review.ImpactOf(fs).reasons ensures fits(x.reference) && fits(x.title) {
      assert x in all;
      var i :| 0 <= i < |all| && all[i] == x;
      FindingReasonFits(most[i], fits);
    }
  }

  lemma FindingReasonFits(f: Finding, fits: string -> bool)
    requires FindingFits(f, fits)
    ensures fits(f.reference) && fits(f.title)
  {
    var texts := [f.id, f.reference, f.category, f.title, f.explanation];
    assert texts[1] in texts && texts[3] in texts;
  }

  lemma FirstReasonsWithin(xs: seq<ReviewReason>)
    ensures forall x <- Review.FirstReasons(xs) :: x in xs
  {
  }

  lemma MainFits(impact: seq<ReviewReason>, unknown: seq<ReviewReason>, fits: string -> bool)
    requires ReasonsFit(impact, fits) && ReasonsFit(unknown, fits)
    ensures ReasonsFit(Review.MainOf(impact, unknown), fits)
  {
    var ok := (x: ReviewReason) => !Review.Refers(impact, x.reference);
    Review.KeepMembers(unknown, ok);
    var all := impact + Review.Keep(unknown, ok);
    forall x | x in Review.MainOf(impact, unknown) ensures fits(x.reference) && fits(x.title) {
      assert x in all;
    }
  }

  /** Of all the strings of a derived summary only the titles of its unknown reasons are in question. */
  lemma DerivedFitsIff(r: Report, fits: string -> bool)
    requires RecordsFit(r, fits) && fits("")
    ensures ReviewFits(Review.ReviewOf(r, Review.CoverageOf(r.inventory)), fits) <==>
      TitlesFit(Review.UnknownOf(r).reasons, fits)
  {
    hide Review.ImpactOf, Review.UnknownOf, Review.MainOf, Review.CoverageOf, Review.CountsOf, Review.Confidences;
    hide FindingFits;
    var impact, unknown := Review.ImpactOf(r.findings), Review.UnknownOf(r);
    ImpactFits(r.findings, fits);
    UnknownReferencesFit(r, fits);
    if TitlesFit(unknown.reasons, fits) {
      MainFits(impact.reasons, unknown.reasons, fits);
    }
  }

  predicate TitlesFit(reasons: seq<ReviewReason>, fits: string -> bool) {
    forall x <- reasons :: fits(x.title)
  }

  /** A reason of unknown behaviour refers to an unknown or to nothing. */
  predicate RefersToUnknown(x: ReviewReason, us: seq<Unknown>) {
    x.reference == "" || exists u <- us :: u.reference == x.reference
  }

  lemma MappedRefer<T>(xs: seq<T>, reason: T -> ReviewReason, us: seq<Unknown>)
    requires forall x <- xs :: RefersToUnknown(reason(x), us)
    ensures forall y <- Map(xs, reason) :: RefersToUnknown(y, us)
  {
    forall y | y in Map(xs, reason) ensures RefersToUnknown(y, us) {
      var i :| 0 <= i < |xs| && Map(xs, reason)[i] == y;
      assert xs[i] in xs;
    }
  }

  lemma CandidatesRefer(r: Report)
    ensures forall x <- Review.Candidates(r) :: RefersToUnknown(x, r.unknowns)
  {
    Review.KeepMembers(r.unknowns, Review.Urgent);
    MappedRefer(r.errors, Review.ErrorReason, r.unknowns);
    MappedRefer(Review.Keep(r.unknowns, Review.Urgent), Review.UnknownReasonOf, r.unknowns);
    MappedRefer(r.unknowns, Review.UnknownReasonOf, r.unknowns);
    MappedRefer(Review.Keep(r.limitations, Review.RuntimeLimitation), Review.LimitationReason, r.unknowns);
    MappedRefer(r.limitations, Review.LimitationReason, r.unknowns);
  }

  lemma UnknownReferencesFit(r: Report, fits: string -> bool)
    requires (forall u <- r.unknowns :: UnknownFits(u, fits)) && fits("")
    ensures forall x <- Review.UnknownOf(r).reasons :: fits(x.reference)
  {
    hide Review.Candidates;
    var candidates := Review.Candidates(r);
    CandidatesRefer(r);
    Review.UnrepeatedCovers(candidates);
    FirstReasonsWithin(Review.Unrepeated(candidates));
    forall x | x in Review.UnknownOf(r).reasons ensures fits(x.reference) {
      assert x in candidates && RefersToUnknown(x, r.unknowns);
      if u :| u in r.unknowns && u.reference == x.reference {
        UnknownReferenceFits(u, fits);
      }
    }
  }

  lemma UnknownReferenceFits(u: Unknown, fits: string -> bool)
    requires UnknownFits(u, fits)
    ensures fits(u.reference)
  {
    var texts := [u.id, u.reference, u.category, u.title, u.description];
    assert texts[1] in texts;
  }

  // ---------- the reasons in canonical order ----------

  /** The report with the lists that feed the reasons in canonical order. */
  function InOrder(r: Report): Report {
    r.(errors := SortedBy(r.errors, ScanErrorLess), limitations := SortedBy(r.limitations, LimitationLess),
       unknowns := SortedBy(Map(r.unknowns, CanonUnknown), UnknownLess))
  }

  /** Every title that the summary quotes in canonical order can be serialized. */
  predicate QuotedTitlesFit(r: Report, fits: string -> bool) {
    TitlesFit(Review.UnknownOf(InOrder(r)).reasons, fits)
  }

  lemma UnknownOrder()
    ensures StrictWeakOrder(UnknownLess)
  {
    KeyOrder((u: Unknown) => u.id, UnknownLess);
  }

  lemma OneOrder<T(!new)>(xs: seq<T>, ys: seq<T>, less: (T, T) -> bool)
    requires StrictWeakOrder(less) && SortedPermutation(xs, ys, less) && Decided(ys, less)
    ensures ys == SortedBy(xs, less)
  {
    SortedBySorts(xs, less);
    SortedPermutationIsUnique(ys, SortedBy(xs, less), less);
  }

  lemma CanonicalReasons(r: Report, c: Report, digest: Digest)
    requires CanonicalForm(r, c) && GraphFacts.WellNamed(c, digest)
    ensures Review.UnknownOf(c).reasons == Review.UnknownOf(InOrder(r)).reasons
  {
    DecidedNodes(c, digest);
    LimitationOrderIsTotal();
    ScanErrorOrderIsTotal();
    UnknownOrder();
    OneOrder(r.errors, c.errors, ScanErrorLess);
    OneOrder(r.limitations, c.limitations, LimitationLess);
    OneOrder(Map(r.unknowns, CanonUnknown), c.unknowns, UnknownLess);
    CandidatesOfLists(c, InOrder(r));
  }

  lemma CandidatesOfLists(a: Report, b: Report)
    requires a.errors == b.errors && a.limitations == b.limitations && a.unknowns == b.unknowns
    ensures Review.UnknownOf(a).reasons == Review.UnknownOf(b).reasons
  {
  }

  lemma FormIsWellNamed(r: Report, c: Report, env: Environment)
    requires CanonicalForm(r, c) && NodesValid(r, ContextOf(r, env)) && ContextOf(c, env) == ContextOf(r, env)
    ensures GraphFacts.WellNamed(c, env.digest)
  {
    hide CanonicalForm, NodesValid, GraphFacts.WellNamed;
    CanonicalFormReorders(r, c);
    NodesKept(r, c, ContextOf(r, env));
    AcceptedReports.AcceptedIsWellNamed(c, ContextOf(r, env));
  }

  lemma TextsKept(r: Report, c: Report, env: Environment)
    requires CanonicalForm(r, c) && RecordsFit(r, env.Check()) && env.validUTF8("")
    requires GraphFacts.WellNamed(c, env.digest)
    ensures TextsFit(c, env.Check()) <==> QuotedTitlesFit(r, env.Check())
  {
    hide RecordsFit, ReviewFits, GraphFacts.WellNamed, Arranged, InOrder, Review.UnknownOf, TitlesFit;
    RecordsStillFit(r, c, env.Check());
    DerivedFitsIff(c, env.Check());
    CanonicalReasons(r, c, env.digest);
  }

  // ---------- the theorem ----------

  /**
   An accepted report has an accepted canonical form exactly when no nested list in it is empty and, with errors,
   unknowns and limitations in canonical order, each of the first eight reasons has a title that can be serialized.
   Nothing is asked of the canonical form.
   */
  lemma CanonicalFormAcceptedIff(r: Report, c: Report, policies: seq<Policy>, env: Environment)
    requires CanonicalForm(r, c) && ReportValid(r, policies, env) && env.validUTF8("")
    ensures ReportValid(c, policies, env) <==> NestedListsFilled(r) && QuotedTitlesFit(r, env.Check())
  {
    hide TargetValid, CanonicalForm, NestedListsFilled, ContextOf, RecordsFit, ReviewFits, QuotedTitlesFit;
    hide NodesValid, Explained, GraphValid, NotesValid, ReviewValid, StatusValid;
    TargetIsBounded(r, policies, env);
    TargetKept(r, c, policies, env);
    ContextKept(r, c, policies, env);
    RecordsKept(r, c, env);
    FormIsWellNamed(r, c, env);
    TextsKept(r, c, env);
  }
}

/**
 Canonicalisation can refuse an accepted report, in both ways that the verdict allows. The reports here are about
 an empty target: one whose manifest lists its kinds as an empty array, and one with nine scan errors of which the
 last has a long code.
 */
module CanonicalRefusal {
  import opened Text
  import opened Sorting
  import opened ReportModel
  import opened EvidenceGraph
  import opened RelationshipValidator
  import opened EvidenceValidator
  import opened InventoryValidator
  import opened ReportValidator
  import opened HostileText
  import opened Comparators
  import opened Canonical
  import opened CanonicalAcceptance
  import opened CanonicalVerdict
  import opened Permutations
  import AcceptedReports
  import InventoryDigest
  import Review

  function Declaration(root: string): EvidenceInput {
    EvidenceInput(TARGET_INPUT_ID, TargetInput, "scanned target", "", root, TARGET_FORMAT, TARGET_VERSION)
  }

  /** A report about an empty target with these scan errors. */
  function Bare(
    root: string, manifest: Option<Manifest>, errors: seq<ScanError>, review: Option<ReviewSummary>): Report
  {
    Report(if errors == [] then Complete else ErrorStatus, "1", "1", Target("plugin", root, 0, 0, 0, manifest),
           [Declaration(root)], review, [], [], [], [], [], [], [], errors)
  }

  // ---------- such a report is accepted ----------

  lemma EmptyRoot(env: Environment) returns (root: string)
    ensures HexSum(root) && InventoryDigest.RootDigest([], env.validUTF8, env.digest) == Some(root)
  {
    var cs: seq<InventoryDigest.Covered> := [];
    assert Map(SortedBy([], InventoryDigest.PathLess), InventoryDigest.CoveredFields) == cs;
    root := InventoryDigest.RootDigest([], env.validUTF8, env.digest).value;
  }

  lemma BareHeader(root: string, manifest: Option<Manifest>, errors: seq<ScanError>, review: Option<ReviewSummary>)
    requires HexSum(root) && |errors| <= MAX_ERRORS
    ensures HeaderValid(Bare(root, manifest, errors, review))
  {
  }

  lemma EmptyInputs(root: string, policies: seq<Policy>)
    requires HexSum(root)
    ensures InputsValid([Declaration(root)], root, policies)
  {
    assert Declaration(root) in [Declaration(root)];
  }

  lemma EmptyInventory(check: File -> bool)
    ensures InventoryValid([], 0, 0, check)
  {
  }

  lemma EmptyNodes(r: Report, c: Context)
    requires r.operations == [] && r.resources == [] && r.findings == [] && r.unknowns == []
    ensures Nodes(r) == [] && NodesValid(r, c)
  {
  }

  lemma EmptyExplained(r: Report, root: string, inputs: Inputs)
    requires r.inputs == [Declaration(root)] && r.inventory == [] && r.unknowns == []
    ensures Explained(r, inputs)
  {
  }

  lemma EmptyGraph(r: Report, digest: Digest)
    requires r.operations == [] && r.resources == [] && r.findings == [] && r.unknowns == [] && r.relationships == []
    ensures GraphValid(r, digest)
  {
    assert BaseTuples(r) == [];
    assert ReservedReferences(r) == {};
  }

  lemma EmptyCoverage()
    ensures Review.CoverageOf([]).level.NoCoverage? && Review.CoverageOf([]).excluded == 0
  {
    assert forall a :: Review.CountAnalysis([], a) == 0;
  }

  lemma BareStatus(r: Report)
    requires r.status == (if r.errors == [] then Complete else ErrorStatus) && r.unknowns == [] && r.limitations == []
    requires r.review.Some? && r.review.value.coverage == Review.CoverageOf([])
    ensures StatusValid(r)
  {
    hide Review.CoverageOf;
    EmptyCoverage();
  }

  /** A report on an empty target with the review derived from it. */
  ghost predicate Reviewed(
    r: Report, root: string, manifest: Option<Manifest>, errors: seq<ScanError>, review: ReviewSummary)
  {
    r == Bare(root, manifest, errors, Some(review)) && review == Review.ReviewOf(r, Review.CoverageOf([]))
  }

  lemma BareTarget(
    root: string, manifest: Option<Manifest>, errors: seq<ScanError>, review: ReviewSummary, r: Report,
    policies: seq<Policy>, env: Environment)
    requires Reviewed(r, root, manifest, errors, review) && HexSum(root) && ManifestValid(manifest)
    requires |errors| <= MAX_ERRORS && InventoryDigest.RootDigest([], env.validUTF8, env.digest) == Some(root)
    ensures TargetValid(r, policies, env)
  {
    hide HeaderValid, InputsValid, InventoryValid, ManifestValid, InventoryDigest.RootDigest, HexSum, Review.ReviewOf;
    BareHeader(root, manifest, errors, Some(review));
    EmptyInputs(root, policies);
    EmptyInventory(FileCheck(env.safePath, env.supported));
  }

  lemma BareRecords(
    root: string, manifest: Option<Manifest>, errors: seq<ScanError>, review: ReviewSummary, r: Report,
    env: Environment)
    requires Reviewed(r, root, manifest, errors, review) && forall e <- errors :: ErrorValid(e, env.safePath)
    ensures RecordsValid(r, env)
  {
    hide NodesValid, Explained, GraphValid, ReviewValid, StatusValid, IndexInputs, ContextOf, Review.ReviewOf;
    hide Review.CoverageOf, Nodes, ErrorValid;
    EmptyNodes(r, ContextOf(r, env));
    EmptyExplained(r, root, IndexInputs(r.inputs));
    EmptyGraph(r, env.digest);
    AcceptedReports.DerivedReviewIsValid(r);
    Review.ReviewKeepsCoverage(r, Review.CoverageOf([]));
    BareStatus(r);
  }

  // ---------- its strings ----------

  lemma HexIsPlain(root: string)
    requires HexSum(root)
    ensures Plain(root) && |root| == 64
  {
    forall i | 0 <= i < |root| ensures ' ' <= root[i] <= '~' && CharCost(root[i]) == 1 {
      assert root[i] in root;
    }
  }

  lemma Short(s: string, env: Environment)
    requires AsciiIsValid(env.validUTF8) && Plain(s) && |s| <= 4_094
    ensures env.Check()(s)
  {
    PlainSerializes(s, env.validUTF8);
  }

  lemma InputWords(env: Environment)
    requires AsciiIsValid(env.validUTF8)
    ensures env.Check()(TARGET_INPUT_ID) && env.Check()("scanned target") && env.Check()("")
  {
    hide Serializes, AsciiIsValid;
    Short(TARGET_INPUT_ID, env);
    Short("scanned target", env);
    Short("", env);
  }

  lemma FormatWords(env: Environment)
    requires AsciiIsValid(env.validUTF8)
    ensures env.Check()(TARGET_FORMAT) && env.Check()(TARGET_VERSION)
  {
    hide Serializes, AsciiIsValid;
    Short(TARGET_FORMAT, env);
    Short(TARGET_VERSION, env);
  }

  lemma DeclarationFits(root: string, env: Environment)
    requires AsciiIsValid(env.validUTF8) && HexSum(root)
    ensures InputFits(Declaration(root), env.Check())
  {
    hide Serializes, HexSum, AsciiIsValid, Plain;
    HexIsPlain(root);
    Short(root, env);
    InputWords(env);
    FormatWords(env);
  }

  lemma BareFits(
    root: string, manifest: Option<Manifest>, errors: seq<ScanError>, review: Option<ReviewSummary>, env: Environment)
    requires AsciiIsValid(env.validUTF8) && HexSum(root)
    requires manifest.Some? ==> ManifestFits(manifest.value, env.Check())
    requires forall e <- errors :: ErrorFits(e, env.Check())
    ensures RecordsFit(Bare(root, manifest, errors, review), env.Check())
  {
    hide Serializes, HexSum, ManifestFits, ErrorFits, InputFits, AsciiIsValid;
    DeclarationFits(root, env);
    HexIsPlain(root);
    Short(root, env);
    Short("1", env);
    Short("plugin", env);
  }

  /** The report is accepted when its manifest and its errors are, and the titles it quotes fit. */
  lemma BareAccepted(
    root: string, manifest: Option<Manifest>, errors: seq<ScanError>, review: ReviewSummary, r: Report,
    policies: seq<Policy>, env: Environment)
    requires Reviewed(r, root, manifest, errors, review) && HexSum(root) && ManifestValid(manifest)
    requires |errors| <= MAX_ERRORS && InventoryDigest.RootDigest([], env.validUTF8, env.digest) == Some(root)
    requires env.metadataValid && AsciiIsValid(env.validUTF8)
    requires (manifest.Some? ==> ManifestFits(manifest.value, env.Check()))
    requires forall e <- errors :: ErrorValid(e, env.safePath) && ErrorFits(e, env.Check())
    requires TitlesFit(Review.UnknownOf(r).reasons, env.Check())
    ensures ReportValid(r, policies, env)
  {
    hide TargetValid, RecordsValid, RecordsFit, ReviewFits, Review.ReviewOf, Review.CoverageOf, Review.UnknownOf;
    hide HexSum, ManifestValid, ManifestFits, ErrorValid, ErrorFits, TitlesFit, InventoryDigest.RootDigest;
    BareTarget(root, manifest, errors, review, r, policies, env);
    BareRecords(root, manifest, errors, review, r, env);
    BareFits(root, manifest, errors, Some(review), env);
    Short("", env);
    DerivedFitsIff(r, env.Check());
  }

  /** The report with its review, which does not depend on the review it is derived into. */
  lemma WithReview(root: string, manifest: Option<Manifest>, errors: seq<ScanError>)
    returns (r: Report, review: ReviewSummary)
    ensures Reviewed(r, root, manifest, errors, review)
  {
    hide Review.ReviewOf, Review.CoverageOf;
    var before := Bare(root, manifest, errors, None);
    review := Review.ReviewOf(before, Review.CoverageOf([]));
    r := Bare(root, manifest, errors, Some(review));
    Review.ReviewIgnoresHeader(before, Some(review), before.target, Review.CoverageOf([]));
  }

  lemma FormOfBare(root: string, m: Option<Manifest>, errors: seq<ScanError>, a: ReviewSummary, r: Report)
    returns (c: Report)
    requires Reviewed(r, root, m, errors, a)
    ensures CanonicalForm(r, c)
  {
    hide Review.ReviewOf, Review.CoverageOf, CanonManifest;
    var b;
    c, b := WithReview(root, Lift(m, CanonManifest), SortedBy(errors, ScanErrorLess));
    ScanErrorOrderIsTotal();
    SortedBySorts(errors, ScanErrorLess);
    SameLength(errors, c.errors);
    var files: seq<File> := [];
    var findings: seq<Finding> := [];
    var unknowns: seq<Unknown> := [];
    assert Map(files, CanonFile) == [] && Map(findings, CanonFinding) == [] && Map(unknowns, CanonUnknown) == [];
  }

  // ---------- an empty list of kinds ----------

  const NO_KINDS := Manifest("plugin", "plugin", "1", "", Slice([]), Some(map[]))

  lemma NoKindsStands(env: Environment)
    requires AsciiIsValid(env.validUTF8)
    ensures ManifestValid(Some(NO_KINDS)) && ManifestFits(NO_KINDS, env.Check())
  {
    hide Serializes, AsciiIsValid;
    Short("plugin", env);
    Short("1", env);
    Short("", env);
  }

  lemma NothingQuoted(r: Report, fits: string -> bool)
    requires r.errors == [] && r.unknowns == [] && r.limitations == []
    ensures TitlesFit(Review.UnknownOf(r).reasons, fits)
  {
    assert Review.Candidates(r) == [];
  }

  /**
   For every digest, every policy table and every environment in which the metadata is valid there is an accepted
   report with an empty list of manifest kinds whose canonical form is refused.
   */
  lemma NoKindsRefused(policies: seq<Policy>, env: Environment) returns (r: Report, c: Report)
    requires env.metadataValid && AsciiIsValid(env.validUTF8)
    ensures ReportValid(r, policies, env) && CanonicalForm(r, c) && !ReportValid(c, policies, env)
  {
    hide *;
    var root := EmptyRoot(env);
    var review;
    r, review := WithReview(root, Some(NO_KINDS), []);
    NoKindsStands(env);
    BareLists(root, Some(NO_KINDS), [], review, r);
    NothingQuoted(r, env.Check());
    FewErrors([]);
    BareAccepted(root, Some(NO_KINDS), [], review, r, policies, env);
    c := FormOfBare(root, Some(NO_KINDS), [], review, r);
    NotFilled(root, review, r);
    EmptyIsValid(env);
    CanonicalFormAcceptedIff(r, c, policies, env);
  }

  lemma FewErrors(errors: seq<ScanError>)
    requires |errors| <= 9
    ensures |errors| <= MAX_ERRORS
  {
  }

  lemma EmptyIsValid(env: Environment)
    requires AsciiIsValid(env.validUTF8)
    ensures env.validUTF8("")
  {
  }

  lemma BareLists(root: string, m: Option<Manifest>, errors: seq<ScanError>, review: ReviewSummary, r: Report)
    requires Reviewed(r, root, m, errors, review)
    ensures r.errors == errors && r.unknowns == [] && r.limitations == []
  {
  }

  lemma NotFilled(root: string, review: ReviewSummary, r: Report)
    requires Reviewed(r, root, Some(NO_KINDS), [], review)
    ensures !NestedListsFilled(r)
  {
    hide Review.ReviewOf, Review.CoverageOf;
  }

  // ---------- a long code that sorts to the front ----------

  /** Eight errors with one-letter codes from `b` on, and one whose code is 4,090 times `a`. */
  function ShortError(i: nat): ScanError
    requires i < 8
  {
    ScanError(['b' + i as char], "failed", "")
  }

  function LongCode(): string {
    seq(4_090, _ => 'a')
  }

  function LongError(): ScanError {
    ScanError(LongCode(), "failed", "")
  }

  function NineErrors(): (es: seq<ScanError>)
    ensures |es| == 9 && es[8] == LongError() && forall i :: 0 <= i < 8 ==> es[i] == ShortError(i)
  {
    seq(8, i requires 0 <= i < 8 => ShortError(i)) + [LongError()]
  }

  lemma ShortErrorFits(i: nat, env: Environment)
    requires i < 8 && AsciiIsValid(env.validUTF8)
    ensures ErrorValid(ShortError(i), env.safePath) && ErrorFits(ShortError(i), env.Check())
    ensures env.Check()(Review.ErrorReason(ShortError(i)).title)
  {
    hide Serializes, AsciiIsValid;
    var e := ShortError(i);
    Short(e.code, env);
    Short("failed", env);
    Short("", env);
    TitleIsPlain(e.code);
    Short("Scan error: " + e.code, env);
  }

  lemma TitleIsPlain(code: string)
    requires Plain(code)
    ensures Plain("Scan error: " + code)
  {
    var prefix := "Scan error: ";
    assert Plain(prefix);
    var title := prefix + code;
    forall i | 0 <= i < |title| ensures ' ' <= title[i] <= '~' && CharCost(title[i]) == 1 {
      assert title[i] == if i < |prefix| then prefix[i] else code[i - |prefix|];
    }
  }

  /** The code itself can be serialized, its title cannot. */
  lemma LongErrorFits(env: Environment)
    requires AsciiIsValid(env.validUTF8)
    ensures ErrorValid(LongError(), env.safePath) && ErrorFits(LongError(), env.Check())
    ensures !env.Check()(Review.ErrorReason(LongError()).title)
  {
    hide AsciiIsValid, Serializes, Plain, LongCode;
    LongCodeIsPlain();
    Short(LongCode(), env);
    ShortWords(env);
    TitleIsPlain(LongCode());
    LongTitle(env);
  }

  lemma LongCodeIsPlain()
    ensures Plain(LongCode()) && |LongCode()| == 4_090 && LongCode() != ""
  {
  }

  lemma ShortWords(env: Environment)
    requires AsciiIsValid(env.validUTF8)
    ensures env.Check()("failed") && env.Check()("")
  {
    hide Serializes, AsciiIsValid;
    Short("failed", env);
    Short("", env);
  }

  lemma LongTitle(env: Environment)
    requires AsciiIsValid(env.validUTF8) && Plain("Scan error: " + LongCode())
    ensures !env.Check()("Scan error: " + LongCode())
  {
    hide AsciiIsValid, Serializes, Plain;
    PlainSerializes("Scan error: " + LongCode(), env.validUTF8);
  }

  /** Reasons that never repeat are all kept. */
  lemma {:induction false} NothingRepeats(xs: seq<ReviewReason>)
    requires Review.NoRepeats(xs)
    ensures Review.Unrepeated(xs) == xs
  {
    hide Review.NoRepeats, Review.Repeats, Review.SameReason;
    if xs != [] {
      var before, x := xs[..|xs| - 1], xs[|xs| - 1];
      LastIsNew(xs);
      NothingRepeats(before);
      assert Review.Unrepeated(xs) == before + [x];
    }
  }

  lemma LastIsNew(xs: seq<ReviewReason>)
    requires Review.NoRepeats(xs) && xs != []
    ensures Review.NoRepeats(xs[..|xs| - 1]) && !Review.Repeats(xs[..|xs| - 1], xs[|xs| - 1])
  {
    hide Review.SameReason;
    var before, x := xs[..|xs| - 1], xs[|xs| - 1];
    forall y | y in before ensures !Review.SameReason(x, y) {
      var i :| 0 <= i < |before| && before[i] == y;
      SameEitherWay(xs[i], x);
    }
  }

  lemma SameEitherWay(a: ReviewReason, b: ReviewReason)
    ensures Review.SameReason(a, b) <==> Review.SameReason(b, a)
  {
  }

  lemma {:induction false} FirstIsKept(xs: seq<ReviewReason>)
    requires xs != []
    ensures Review.Unrepeated(xs) != [] && Review.Unrepeated(xs)[0] == xs[0]
  {
    if |xs| > 1 {
      FirstIsKept(xs[..|xs| - 1]);
    } else {
      assert Review.Unrepeated(xs[..0]) == [];
    }
  }

  lemma ErrorCandidates(r: Report)
    requires r.unknowns == [] && r.limitations == []
    ensures Review.Candidates(r) == Map(r.errors, Review.ErrorReason)
  {
  }

  lemma TitlesDiffer(a: string, b: string)
    requires a != b
    ensures "Scan error: " + a != "Scan error: " + b
  {
    var prefix := "Scan error: ";
    assert (prefix + a)[|prefix|..] == a && (prefix + b)[|prefix|..] == b;
  }

  lemma NineCodesDiffer(i: nat, j: nat)
    requires i < j < 9
    ensures NineErrors()[i].code != NineErrors()[j].code
  {
    if j < 8 {
      assert NineErrors()[i].code[0] != NineErrors()[j].code[0];
    } else {
      assert |NineErrors()[i].code| == 1 && |NineErrors()[j].code| == 4_090;
    }
  }

  /** In this order the first eight reasons are the short ones. */
  lemma ShortTitlesQuoted(r: Report, env: Environment)
    requires r.errors == NineErrors() && r.unknowns == [] && r.limitations == [] && AsciiIsValid(env.validUTF8)
    ensures TitlesFit(Review.UnknownOf(r).reasons, env.Check())
  {
    hide Serializes, AsciiIsValid, Review.Candidates, NineErrors, ShortError, LongError;
    var reasons := Map(r.errors, Review.ErrorReason);
    ErrorCandidates(r);
    forall i, j | 0 <= i < j < |reasons| ensures !Review.SameReason(reasons[i], reasons[j]) {
      NineCodesDiffer(i, j);
      TitlesDiffer(r.errors[i].code, r.errors[j].code);
    }
    NothingRepeats(reasons);
    forall x | x in Review.UnknownOf(r).reasons ensures env.Check()(x.title) {
      var i :| 0 <= i < 8 && reasons[i] == x;
      ShortErrorFits(i, env);
    }
  }

  lemma LongSortsFirst(i: nat)
    requires i < 8
    ensures ScanErrorLess(LongError(), ShortError(i))
  {
    var a, b := LongCode(), ShortError(i).code;
    assert a[0] == 'a' && b[0] > 'a';
    assert Less(a, b);
  }

  lemma LeastIsFront<T(!new)>(es: seq<T>, less: (T, T) -> bool, x: T)
    requires Sorted(es, less) && x in es && forall y <- es :: y == x || less(x, y)
    ensures es[0] == x
  {
    var k :| 0 <= k < |es| && es[k] == x;
    assert k == 0 || !less(es[k], es[0]);
    assert es[0] in es;
  }

  lemma LongIsFirst(es: seq<ScanError>)
    requires es == SortedBy(NineErrors(), ScanErrorLess)
    ensures |es| == 9 && es[0] == LongError()
  {
    hide NineErrors, ScanErrorLess, LongError, ShortError;
    ScanErrorOrderIsTotal();
    SortedBySorts(NineErrors(), ScanErrorLess);
    SameLength(es, NineErrors());
    SameMembers(es, NineErrors());
    assert NineErrors()[8] in es;
    forall y | y in es ensures y == LongError() || ScanErrorLess(LongError(), y) {
      var i :| 0 <= i < 9 && NineErrors()[i] == y;
      if i < 8 {
        LongSortsFirst(i);
      }
    }
    LeastIsFront(es, ScanErrorLess, LongError());
  }

  /** In canonical order the long title comes first. */
  lemma LongTitleQuoted(r: Report, env: Environment)
    requires r.errors == NineErrors() && r.unknowns == [] && r.limitations == [] && AsciiIsValid(env.validUTF8)
    ensures !QuotedTitlesFit(r, env.Check())
  {
    hide Serializes, AsciiIsValid, Review.Candidates, NineErrors, LongError, Review.Unrepeated;
    var c := InOrder(r);
    NoUnknowns(r);
    LongIsFirst(c.errors);
    ErrorCandidates(c);
    var reasons := Map(c.errors, Review.ErrorReason);
    FirstIsKept(reasons);
    LongErrorFits(env);
    assert reasons[0] == Review.UnknownOf(c).reasons[0];
  }

  lemma NoUnknowns(r: Report)
    requires r.unknowns == [] && r.limitations == []
    ensures InOrder(r).unknowns == [] && InOrder(r).limitations == []
  {
    assert Map(r.unknowns, CanonUnknown) == [];
  }

  lemma NineStand(env: Environment)
    requires AsciiIsValid(env.validUTF8)
    ensures forall e <- NineErrors() :: ErrorValid(e, env.safePath) && ErrorFits(e, env.Check())
    ensures |NineErrors()| == 9
  {
    hide AsciiIsValid, ErrorValid, ErrorFits, NineErrors;
    LongErrorFits(env);
    forall e | e in NineErrors() ensures ErrorValid(e, env.safePath) && ErrorFits(e, env.Check()) {
      var i :| 0 <= i < 9 && NineErrors()[i] == e;
      if i < 8 {
        ShortErrorFits(i, env);
      }
    }
  }

  lemma NoManifest(env: Environment)
    ensures ManifestValid(None)
  {
  }

  /** An accepted report with no nested list at all whose canonical form is refused for the title of its ninth error. */
  lemma LateLongCodeRefused(policies: seq<Policy>, env: Environment) returns (r: Report, c: Report)
    requires env.metadataValid && AsciiIsValid(env.validUTF8)
    ensures ReportValid(r, policies, env) && CanonicalForm(r, c) && !ReportValid(c, policies, env)
    ensures NestedListsFilled(r)
  {
    hide *;
    var root := EmptyRoot(env);
    var review;
    r, review := WithReview(root, None, NineErrors());
    BareLists(root, None, NineErrors(), review, r);
    NoManifest(env);
    NineStand(env);
    FewErrors(NineErrors());
    ShortTitlesQuoted(r, env);
    BareAccepted(root, None, NineErrors(), review, r, policies, env);
    c := FormOfBare(root, None, NineErrors(), review, r);
    LongTitleQuoted(r, env);
    EmptyIsValid(env);
    NothingNested(root, NineErrors(), review, r);
    CanonicalFormAcceptedIff(r, c, policies, env);
  }

  lemma NothingNested(root: string, errors: seq<ScanError>, review: ReviewSummary, r: Report)
    requires Reviewed(r, root, None, errors, review)
    ensures NestedListsFilled(r)
  {
    hide Review.ReviewOf, Review.CoverageOf;
  }
}

/**
 The review summary of internal/report/review.go: the loops that accumulate it, proved against a batch
 specification, and the coverage arithmetic with its validator.
 */
module Review {
  import opened Text
  import opened Integers
  import opened Sorting
  import opened ReportModel

  const MAX_REASONS := 8

  function FirstReasons(xs: seq<ReviewReason>): seq<ReviewReason> {
    if |xs| <= MAX_REASONS then xs else xs[..MAX_REASONS]
  }

  // ---------- coverage ----------

  function Level(analyzed: nat, total: nat): CoverageLevel {
    if total == 0 then NoCoverage
    else if analyzed == total then CompleteCoverage
    else if analyzed * 100 / total >= 80 then SubstantialCoverage
    else if analyzed * 100 / total > 0 then PartialCoverage
    else LimitedCoverage
  }

  /** `NewCoverageSummary`, on counts. */
  function NewCoverage(analyzed: nat, partial: nat, unanalyzed: nat, excluded: nat): Coverage {
    var total := analyzed + partial + unanalyzed;
    Coverage(Level(analyzed, total), analyzed, partial, unanalyzed, excluded, total, total + excluded,
      if total == 0 then None else Some(analyzed * 100 / total))
  }

  /** `validateCoverageSummary` on a hostile summary: its additions wrap. */
  predicate CoverageValid(c: Coverage) {
    && c.analyzed >= 0 && c.partial >= 0 && c.unanalyzed >= 0 && c.excluded >= 0 && c.total >= 0 && c.retained >= 0
    && Wrap(c.analyzed + c.partial + c.unanalyzed) == c.total && Wrap(c.total + c.excluded) == c.retained
    && c.analyzed <= MAX_INVENTORY && c.partial <= MAX_INVENTORY && c.unanalyzed <= MAX_INVENTORY
    && c.excluded <= MAX_INVENTORY && c.total <= MAX_INVENTORY && c.retained <= MAX_INVENTORY
    && (if c.total == 0 then c.percentage.None? else c.percentage == Some(c.analyzed * 100 / c.total))
    && c.level == Level(c.analyzed, c.total)
  }

  /** No wrapped sum slips through: a summary is valid exactly when it is the one its four counts determine. */
  lemma CoverageValidIff(c: Coverage)
    ensures CoverageValid(c) <==>
      c.analyzed >= 0 && c.partial >= 0 && c.unanalyzed >= 0 && c.excluded >= 0
      && c.analyzed + c.partial + c.unanalyzed + c.excluded <= MAX_INVENTORY
      && c == NewCoverage(c.analyzed, c.partial, c.unanalyzed, c.excluded)
  {
  }

  function CountAnalysis(files: seq<File>, a: Analysis): nat {
    if files == [] then 0 else CountAnalysis(files[..|files| - 1], a) + if files[|files| - 1].analysis == a then 1
      else 0
  }

  function CoverageOf(files: seq<File>): Coverage {
    NewCoverage(CountAnalysis(files, Analyzed), CountAnalysis(files, Partial), CountAnalysis(files, Unanalyzed),
      CountAnalysis(files, NotApplicable))
  }

  lemma CountStep(files: seq<File>, k: nat)
    requires k < |files|
    ensures forall a ::
      CountAnalysis(files[..k + 1], a) == CountAnalysis(files[..k], a) + if files[k].analysis == a then 1 else 0
  {
    assert files[..k + 1][..k] == files[..k];
  }

  /** `coverageFromInventory`. */
  method CoverageFromInventory(files: seq<File>) returns (c: Coverage)
    ensures c == CoverageOf(files)
  {
    var analyzed, partial, unanalyzed, excluded := 0, 0, 0, 0;
    for k := 0 to |files|
      invariant analyzed == CountAnalysis(files[..k], Analyzed) && partial == CountAnalysis(files[..k], Partial)
      invariant unanalyzed == CountAnalysis(files[..k], Unanalyzed)
      invariant excluded == CountAnalysis(files[..k], NotApplicable)
    {
      CountStep(files, k);
      match files[k].analysis {
        case Analyzed => analyzed := analyzed + 1;
        case Partial => partial := partial + 1;
        case Unanalyzed => unanalyzed := unanalyzed + 1;
        case NotApplicable => excluded := excluded + 1;
      }
    }
    assert files[..|files|] == files;
    c := NewCoverage(analyzed, partial, unanalyzed, excluded);
  }

  lemma {:induction false} CountsCoverInventory(files: seq<File>)
    ensures CountAnalysis(files, Analyzed) + CountAnalysis(files, Partial) + CountAnalysis(files, Unanalyzed)
      + CountAnalysis(files, NotApplicable) == |files|
  {
    if files != [] {
      CountsCoverInventory(files[..|files| - 1]);
    }
  }

  /** Derived coverage is accepted exactly when the inventory is within its limit. */
  lemma DerivedCoverageValidIff(files: seq<File>)
    ensures CoverageValid(CoverageOf(files)) <==> |files| <= MAX_INVENTORY
    ensures CoverageOf(files).retained == |files|
  {
    CountsCoverInventory(files);
    CoverageValidIff(CoverageOf(files));
  }

  lemma {:induction false} CountZero(files: seq<File>, a: Analysis)
    ensures CountAnalysis(files, a) == 0 <==> forall f <- files :: f.analysis != a
  {
    if files != [] {
      CountZero(files[..|files| - 1], a);
    }
  }

  /** Coverage without exclusions is complete or inapplicable exactly when every file was analysed. */
  lemma FullCoverageIff(files: seq<File>)
    ensures var c := CoverageOf(files);
      (c.level.CompleteCoverage? || c.level.NoCoverage?) && c.excluded == 0 <==>
        forall f <- files :: f.analysis == Analyzed
  {
    CountZero(files, Partial);
    CountZero(files, Unanalyzed);
    CountZero(files, NotApplicable);
  }

  // ---------- impact ----------

  function SeverityRank(s: Severity): nat {
    match s
    case Critical => 4
    case HighSeverity => 3
    case MediumSeverity => 2
    case LowSeverity => 1
    case Informational => 0
  }

  function FindingReason(f: Finding): ReviewReason {
    ReviewReason(f.reference, f.title, f.scope)
  }

  function UnknownReasonOf(u: Unknown): ReviewReason {
    ReviewReason(u.reference, u.title, u.scope)
  }

  function AtSeverity(fs: seq<Finding>, s: Severity): seq<Finding> {
    if fs == [] then []
    else AtSeverity(fs[..|fs| - 1], s) + if fs[|fs| - 1].severity == s then [fs[|fs| - 1]] else []
  }

  /** The greatest severity among the findings, informational when there are none. */
  function MaxSeverity(fs: seq<Finding>): Severity {
    if fs == [] then Informational
    else
      var before := MaxSeverity(fs[..|fs| - 1]);
      if SeverityRank(fs[|fs| - 1].severity) > SeverityRank(before) then fs[|fs| - 1].severity else before
  }

  function ImpactOf(fs: seq<Finding>): Impact {
    Impact(MaxSeverity(fs), FirstReasons(Map(AtSeverity(fs, MaxSeverity(fs)), FindingReason)))
  }

  lemma {:induction false} MaxSeverityIsMaximum(fs: seq<Finding>)
    ensures forall f <- fs :: SeverityRank(f.severity) <= SeverityRank(MaxSeverity(fs))
    ensures fs != [] ==> exists f <- fs :: f.severity == MaxSeverity(fs)
  {
    if fs != [] {
      var before, last := fs[..|fs| - 1], fs[|fs| - 1];
      MaxSeverityIsMaximum(before);
      if before == [] {
        assert last.severity == MaxSeverity(fs);
        assert last in fs;
      } else if SeverityRank(last.severity) > SeverityRank(MaxSeverity(before)) {
        assert last in fs;
      } else {
        var f :| f in before && f.severity == MaxSeverity(before);
        assert f in fs;
      }
    }
  }

  lemma {:induction false} AtSeverityMembers(fs: seq<Finding>, s: Severity)
    ensures forall f :: f in AtSeverity(fs, s) <==> f in fs && f.severity == s
  {
    if fs != [] {
      AtSeverityMembers(fs[..|fs| - 1], s);
    }
  }

  /** The impact level is the maximum severity, and the first eight findings at that level are its reasons. */
  lemma ImpactIsTheMaximum(fs: seq<Finding>)
    ensures forall f <- fs :: SeverityRank(f.severity) <= SeverityRank(ImpactOf(fs).level)
    ensures fs == [] <==> ImpactOf(fs).reasons == []
    ensures forall x <- ImpactOf(fs).reasons ::
      exists f <- fs :: f.severity == ImpactOf(fs).level && x == FindingReason(f)
  {
    MaxSeverityIsMaximum(fs);
    var level := MaxSeverity(fs);
    var chosen := AtSeverity(fs, level);
    AtSeverityMembers(fs, level);
    if fs != [] {
      var f :| f in fs && f.severity == level;
      assert f in chosen;
      assert Map(chosen, FindingReason) != [];
    }
    forall x | x in ImpactOf(fs).reasons ensures exists f <- fs :: f.severity == level && x == FindingReason(f) {
      var i :| 0 <= i < |ImpactOf(fs).reasons| && ImpactOf(fs).reasons[i] == x;
      assert chosen[i] in chosen && x == FindingReason(chosen[i]);
    }
  }

  lemma NoneAbove(fs: seq<Finding>, s: Severity)
    requires SeverityRank(s) > SeverityRank(MaxSeverity(fs)) || fs == []
    ensures AtSeverity(fs, s) == []
  {
    MaxSeverityIsMaximum(fs);
    AtSeverityMembers(fs, s);
    var at := AtSeverity(fs, s);
    assert forall i :: 0 <= i < |at| ==> at[i] in at;
  }

  lemma AtSeverityStep(fs: seq<Finding>, k: nat, s: Severity)
    requires k < |fs|
    ensures AtSeverity(fs[..k + 1], s) == AtSeverity(fs[..k], s) + if fs[k].severity == s then [fs[k]] else []
    ensures Map(AtSeverity(fs[..k + 1], s), FindingReason)
      == Map(AtSeverity(fs[..k], s), FindingReason) + if fs[k].severity == s then [FindingReason(fs[k])] else []
    ensures MaxSeverity(fs[..k + 1]) ==
      if SeverityRank(fs[k].severity) > SeverityRank(MaxSeverity(fs[..k])) then fs[k].severity else MaxSeverity(fs[..k])
  {
    assert fs[..k + 1][..k] == fs[..k];
  }

  lemma FirstReasonsMore(xs: seq<ReviewReason>, x: ReviewReason)
    ensures FirstReasons(xs + [x]) == if |FirstReasons(xs)| < MAX_REASONS then FirstReasons(xs) + [x]
      else FirstReasons(xs)
  {
  }

  method SummarizeImpact(fs: seq<Finding>) returns (impact: Impact)
    ensures impact == ImpactOf(fs)
  {
    impact := Impact(Informational, []);
    var rank: int := -1;
    for k := 0 to |fs|
      invariant impact == ImpactOf(fs[..k])
      invariant rank == if k == 0 then -1 else SeverityRank(MaxSeverity(fs[..k]))
    {
      var finding := fs[k];
      AtSeverityStep(fs, k, finding.severity);
      AtSeverityStep(fs, k, MaxSeverity(fs[..k]));
      if SeverityRank(finding.severity) > rank {
        NoneAbove(fs[..k], finding.severity);
        rank := SeverityRank(finding.severity);
        impact := Impact(finding.severity, []);
        assert k == 0 ==> MaxSeverity(fs[..1]) == finding.severity;
      }
      if SeverityRank(finding.severity) == rank {
        assert finding.severity == impact.level;
        FirstReasonsMore(Map(AtSeverity(fs[..k], finding.severity), FindingReason), FindingReason(finding));
        if |impact.reasons| < MAX_REASONS {
          impact := impact.(reasons := impact.reasons + [FindingReason(finding)]);
        }
      }
    }
    assert fs[..|fs|] == fs;
  }

  // ---------- confidence ----------

  function CountConfidence(cs: seq<Confidence>, c: Confidence): nat {
    if cs == [] then 0 else CountConfidence(cs[..|cs| - 1], c) + if cs[|cs| - 1] == c then 1 else 0
  }

  function Confidences(r: Report): seq<Confidence> {
    Map(r.operations, (o: Operation) => o.confidence) + Map(r.resources, (s: Resource) => s.confidence)
    + Map(r.findings, (f: Finding) => f.confidence) + Map(r.unknowns, (u: Unknown) => u.confidence)
  }

  /** The weakest confidence among the findings of one severity. */
  function WeakestAt(fs: seq<Finding>, s: Severity): Confidence {
    if exists f <- fs :: f.severity == s && f.confidence == LowConfidence then LowConfidence
    else if exists f <- fs :: f.severity == s && f.confidence == MediumConfidence then MediumConfidence
    else HighConfidence
  }

  /** `confidenceForImpactReasons`, with its early return. */
  method ConfidenceForImpact(fs: seq<Finding>, s: Severity) returns (level: Confidence)
    ensures level == WeakestAt(fs, s)
  {
    level := HighConfidence;
    for k := 0 to |fs|
      invariant forall i :: 0 <= i < k && fs[i].severity == s ==> fs[i].confidence != LowConfidence
      invariant level ==
        if exists i :: 0 <= i < k && fs[i].severity == s && fs[i].confidence == MediumConfidence then MediumConfidence
        else HighConfidence
    {
      if fs[k].severity == s {
        if fs[k].confidence == LowConfidence {
          assert fs[k] in fs;
          return LowConfidence;
        }
        if fs[k].confidence == MediumConfidence {
          level := MediumConfidence;
        }
      }
    }
    if level == MediumConfidence {
      var i :| 0 <= i < |fs| && fs[i].severity == s && fs[i].confidence == MediumConfidence;
      assert fs[i] in fs;
    }
  }

  function AddConfidence(s: ConfidenceSummary, c: Confidence): ConfidenceSummary {
    match c
    case HighConfidence => s.(high := s.high + 1)
    case MediumConfidence => s.(medium := s.medium + 1)
    case LowConfidence => s.(low := s.low + 1)
  }

  function Tally(cs: seq<Confidence>): ConfidenceSummary {
    ConfidenceSummary(NoConfidence, CountConfidence(cs, HighConfidence), CountConfidence(cs, MediumConfidence),
      CountConfidence(cs, LowConfidence), [])
  }

  lemma TallyMore(cs: seq<Confidence>, c: Confidence)
    ensures Tally(cs + [c]) == AddConfidence(Tally(cs), c)
  {
    assert (cs + [c])[..|cs|] == cs;
  }

  /** One of the four counting loops. */
  method TallyAll(ghost before: seq<Confidence>, cs: seq<Confidence>, start: ConfidenceSummary)
    returns (s: ConfidenceSummary)
    requires start == Tally(before)
    ensures s == Tally(before + cs)
  {
    s := start;
    assert before + cs[..0] == before;
    for k := 0 to |cs|
      invariant s == Tally(before + cs[..k])
    {
      TallyMore(before + cs[..k], cs[k]);
      assert before + cs[..k + 1] == before + cs[..k] + [cs[k]];
      s := AddConfidence(s, cs[k]);
    }
    assert cs[..|cs|] == cs;
  }

  function ConfidenceOf(r: Report, impact: Impact): ConfidenceSummary {
    var tally := Tally(Confidences(r));
    if impact.reasons == [] then tally
    else tally.(level := ConfidenceLevel.Level(WeakestAt(r.findings, impact.level)), reasons := impact.reasons)
  }

  // ---------- unknown behaviour ----------

  predicate Urgent(u: Unknown) {
    u.reason == BudgetExhaustion || u.reason == ParserFailure || (u.scope == RuntimeScope && u.affected != [])
  }

  predicate BudgetLimitation(l: Limitation) {
    Contains(l.code, "budget") || HasPrefix(l.code, "max-") || l.code == "result-production-limit"
  }

  /** The level is a join over the members of three collections, so their order cannot matter. */
  function UnknownLevelOf(r: Report): UnknownLevel {
    if r.errors != [] || (exists u <- r.unknowns :: Urgent(u))
      || (exists l <- r.limitations :: BudgetLimitation(l)) then HighUnknown
    else if (exists u <- r.unknowns :: u.scope == RuntimeScope)
      || (exists l <- r.limitations :: l.scope == RuntimeScope) then ModerateUnknown
    else if r.unknowns != [] || r.limitations != [] then LowUnknown
    else NoUnknown
  }

  /** `unknownLevel`, with its early returns. */
  method ComputeUnknownLevel(r: Report) returns (level: UnknownLevel)
    ensures level == UnknownLevelOf(r)
  {
    if |r.errors| > 0 {
      return HighUnknown;
    }
    level := NoUnknown;
    for k := 0 to |r.unknowns|
      invariant forall i :: 0 <= i < k ==> !Urgent(r.unknowns[i])
      invariant level == if exists i :: 0 <= i < k && r.unknowns[i].scope == RuntimeScope then ModerateUnknown
        else if k > 0 then LowUnknown else NoUnknown
    {
      var unknown := r.unknowns[k];
      if Urgent(unknown) {
        assert unknown in r.unknowns;
        return HighUnknown;
      }
      if unknown.scope == RuntimeScope {
        level := ModerateUnknown;
      } else if level == NoUnknown {
        level := LowUnknown;
      }
    }
    ghost var runtime := exists u <- r.unknowns :: u.scope == RuntimeScope;
    assert runtime <==> level == ModerateUnknown;
    for k := 0 to |r.limitations|
      invariant forall i :: 0 <= i < k ==> !BudgetLimitation(r.limitations[i])
      invariant level == if runtime || exists i ::
        0 <= i < k && r.limitations[i].scope == RuntimeScope then ModerateUnknown
        else if r.unknowns != [] || k > 0 then LowUnknown else NoUnknown
    {
      var limitation := r.limitations[k];
      if BudgetLimitation(limitation) {
        assert limitation in r.limitations;
        return HighUnknown;
      }
      if limitation.scope == RuntimeScope {
        if level != HighUnknown {
          level := ModerateUnknown;
        }
      } else if level == NoUnknown {
        level := LowUnknown;
      }
    }
    assert (exists l <- r.limitations :: l.scope == RuntimeScope) <==>
      exists i :: 0 <= i < |r.limitations| && r.limitations[i].scope == RuntimeScope;
  }

  // ---------- reasons without repeats ----------

  /** Two reasons repeat each other when they share a reference, or share a title and have no reference. */
  predicate SameReason(a: ReviewReason, b: ReviewReason) {
    if a.reference != "" then b.reference == a.reference else b.reference == "" && b.title == a.title
  }

  predicate Repeats(xs: seq<ReviewReason>, x: ReviewReason) {
    exists y <- xs :: SameReason(x, y)
  }

  /** First occurrences only, in order. */
  function Unrepeated(xs: seq<ReviewReason>): seq<ReviewReason> {
    if xs == [] then []
    else
      var before, x := Unrepeated(xs[..|xs| - 1]), xs[|xs| - 1];
      if Repeats(before, x) then before else before + [x]
  }

  /** The batch selection: the first eight of the de-duplicated candidates. */
  function Selected(xs: seq<ReviewReason>): seq<ReviewReason> {
    FirstReasons(Unrepeated(xs))
  }

  /** `appendReviewReason`. */
  method AppendReviewReason(values: seq<ReviewReason>, reason: ReviewReason) returns (more: seq<ReviewReason>)
    ensures more == if |values| >= MAX_REASONS || Repeats(values, reason) then values else values + [reason]
  {
    if |values| >= MAX_REASONS {
      return values;
    }
    for k := 0 to |values|
      invariant forall i :: 0 <= i < k ==> !SameReason(reason, values[i])
    {
      var existing := values[k];
      if (reason.reference != "" && existing.reference == reason.reference)
        || (reason.reference == "" && existing.reference == "" && existing.title == reason.title)
      {
        assert existing in values;
        return values;
      }
    }
    more := values + [reason];
  }

  lemma SelectMore(xs: seq<ReviewReason>, x: ReviewReason)
    ensures var values := Selected(xs);
      Selected(xs + [x]) == if |values| >= MAX_REASONS || Repeats(values, x) then values else values + [x]
  {
    assert (xs + [x])[..|xs|] == xs;
    var all := Unrepeated(xs);
    FirstReasonsMore(all, x);
    if |all| > MAX_REASONS {
      assert |FirstReasons(all)| == MAX_REASONS;
    }
  }

  /** One of the five appending loops. */
  method AppendAll(ghost before: seq<ReviewReason>, xs: seq<ReviewReason>, start: seq<ReviewReason>)
    returns (values: seq<ReviewReason>)
    requires start == Selected(before)
    ensures values == Selected(before + xs)
  {
    values := start;
    assert before + xs[..0] == before;
    for k := 0 to |xs|
      invariant values == Selected(before + xs[..k])
    {
      SelectMore(before + xs[..k], xs[k]);
      assert before + xs[..k + 1] == before + xs[..k] + [xs[k]];
      values := AppendReviewReason(values, xs[k]);
    }
    assert xs[..|xs|] == xs;
  }

  function Keep<T>(xs: seq<T>, ok: T -> bool): seq<T> {
    if xs == [] then [] else Keep(xs[..|xs| - 1], ok) + if ok(xs[|xs| - 1]) then [xs[|xs| - 1]] else []
  }

  method KeepOnly<T>(xs: seq<T>, ok: T -> bool) returns (kept: seq<T>)
    ensures kept == Keep(xs, ok)
  {
    kept := [];
    for k := 0 to |xs|
      invariant kept == Keep(xs[..k], ok)
    {
      assert xs[..k + 1][..k] == xs[..k];
      if ok(xs[k]) {
        kept := kept + [xs[k]];
      }
    }
    assert xs[..|xs|] == xs;
  }

  function ErrorReason(e: ScanError): ReviewReason {
    ReviewReason("", "Scan error: " + e.code, UnsetScope)
  }

  function LimitationReason(l: Limitation): ReviewReason {
    ReviewReason("", "Analysis limitation: " + l.code, l.scope)
  }

  function RuntimeLimitation(l: Limitation): bool {
    l.scope == RuntimeScope
  }

  /** Errors, then urgent unknowns, then unknowns, then runtime limitations, then limitations. */
  function Candidates(r: Report): seq<ReviewReason> {
    Map(r.errors, ErrorReason) + Map(Keep(r.unknowns, Urgent), UnknownReasonOf) + Map(r.unknowns, UnknownReasonOf)
    + Map(Keep(r.limitations, RuntimeLimitation), LimitationReason) + Map(r.limitations, LimitationReason)
  }

  function UnknownOf(r: Report): UnknownSummary {
    UnknownSummary(UnknownLevelOf(r), |r.unknowns|, |r.limitations|, |r.errors|, Selected(Candidates(r)))
  }

  method SummarizeUnknown(r: Report) returns (s: UnknownSummary)
    ensures s == UnknownOf(r)
  {
    var level := ComputeUnknownLevel(r);
    var reasons := AppendAll([], Map(r.errors, ErrorReason), []);
    ghost var done := [] + Map(r.errors, ErrorReason);
    var urgent := KeepOnly(r.unknowns, Urgent);
    reasons := AppendAll(done, Map(urgent, UnknownReasonOf), reasons);
    done := done + Map(urgent, UnknownReasonOf);
    reasons := AppendAll(done, Map(r.unknowns, UnknownReasonOf), reasons);
    done := done + Map(r.unknowns, UnknownReasonOf);
    var runtime := KeepOnly(r.limitations, RuntimeLimitation);
    reasons := AppendAll(done, Map(runtime, LimitationReason), reasons);
    done := done + Map(runtime, LimitationReason);
    reasons := AppendAll(done, Map(r.limitations, LimitationReason), reasons);
    done := done + Map(r.limitations, LimitationReason);
    assert [] + Map(r.errors, ErrorReason) == Map(r.errors, ErrorReason);
    s := UnknownSummary(level, |r.unknowns|, |r.limitations|, |r.errors|, reasons);
  }

  // ---------- main reasons ----------

  predicate Refers(xs: seq<ReviewReason>, reference: string) {
    reference != "" && exists x <- xs :: x.reference == reference
  }

  /** The impact reasons followed by the unknown reasons they do not already refer to, eight in all. */
  function MainOf(impact: seq<ReviewReason>, unknown: seq<ReviewReason>): seq<ReviewReason> {
    FirstReasons(impact + Keep(unknown, (x: ReviewReason) => !Refers(impact, x.reference)))
  }

  ghost predicate NoRepeats(xs: seq<ReviewReason>) {
    forall i, j :: 0 <= i < j < |xs| ==> !SameReason(xs[i], xs[j])
  }

  ghost predicate ReferencesOnce(xs: seq<ReviewReason>) {
    forall i, j :: 0 <= i < j < |xs| && xs[i].reference != "" ==> xs[i].reference != xs[j].reference
  }

  lemma {:induction false} UnrepeatedNeverRepeats(xs: seq<ReviewReason>)
    ensures NoRepeats(Unrepeated(xs))
  {
    if xs != [] {
      var before, x := Unrepeated(xs[..|xs| - 1]), xs[|xs| - 1];
      UnrepeatedNeverRepeats(xs[..|xs| - 1]);
      if !Repeats(before, x) {
        forall i | 0 <= i < |before| ensures !SameReason(before[i], x) {
          assert before[i] in before && !SameReason(x, before[i]);
        }
      }
    }
  }

  lemma SelectedNeverRepeats(xs: seq<ReviewReason>)
    ensures NoRepeats(Selected(xs)) && ReferencesOnce(Selected(xs)) && |Selected(xs)| <= MAX_REASONS
  {
    UnrepeatedNeverRepeats(xs);
  }

  /** Nothing is lost but repeats: every candidate repeats some member of the de-duplicated list. */
  lemma {:induction false} UnrepeatedCovers(xs: seq<ReviewReason>)
    ensures forall x <- xs :: Repeats(Unrepeated(xs), x)
    ensures forall x <- Unrepeated(xs) :: x in xs
  {
    if xs != [] {
      var before := xs[..|xs| - 1];
      UnrepeatedCovers(before);
      forall x | x in xs ensures Repeats(Unrepeated(xs), x) {
        if x in before {
          var y :| y in Unrepeated(before) && SameReason(x, y);
          assert y in Unrepeated(xs);
        } else if !Repeats(Unrepeated(before), x) {
          assert x in Unrepeated(xs) && SameReason(x, x);
        }
      }
    }
  }

  lemma {:induction false} KeepMembers<T>(xs: seq<T>, ok: T -> bool)
    ensures forall x :: x in Keep(xs, ok) <==> x in xs && ok(x)
  {
    if xs != [] {
      KeepMembers(xs[..|xs| - 1], ok);
    }
  }

  lemma {:induction false} KeepReferencesOnce(xs: seq<ReviewReason>, ok: ReviewReason -> bool)
    requires ReferencesOnce(xs)
    ensures ReferencesOnce(Keep(xs, ok))
  {
    if xs != [] {
      var before := xs[..|xs| - 1];
      KeepReferencesOnce(before, ok);
      KeepMembers(before, ok);
      forall i, j | 0 <= i < j < |Keep(xs, ok)| && Keep(xs, ok)[i].reference != ""
        ensures Keep(xs, ok)[i].reference != Keep(xs, ok)[j].reference
      {
        if j == |Keep(before, ok)| {
          assert Keep(before, ok)[i] in before;
        }
      }
    }
  }

  /** Main reasons repeat a reference exactly when the impact reasons do. */
  lemma MainReasonsNeverRepeat(impact: seq<ReviewReason>, candidates: seq<ReviewReason>)
    requires |impact| <= MAX_REASONS
    ensures ReferencesOnce(MainOf(impact, Selected(candidates))) <==> ReferencesOnce(impact)
  {
    var unknown := Selected(candidates);
    var ok := (x: ReviewReason) => !Refers(impact, x.reference);
    var kept := Keep(unknown, ok);
    SelectedNeverRepeats(candidates);
    KeepReferencesOnce(unknown, ok);
    KeepMembers(unknown, ok);
    var main := MainOf(impact, unknown);
    assert main[..|impact|] == impact;
    if ReferencesOnce(impact) {
      forall i, j | 0 <= i < j < |main| && main[i].reference != "" ensures main[i].reference != main[j].reference {
        if i < |impact| && j >= |impact| {
          assert main[i] in impact && main[j] == kept[j - |impact|] && kept[j - |impact|] in kept;
        } else if i >= |impact| {
          assert main[i] == kept[i - |impact|] && main[j] == kept[j - |impact|];
        }
      }
    }
  }

  lemma RefersMore(impact: seq<ReviewReason>, kept: seq<ReviewReason>, unknown: seq<ReviewReason>, k: nat)
    requires k < |unknown| && ReferencesOnce(unknown) && forall x <- kept :: x in unknown[..k]
    ensures Refers(impact + kept, unknown[k].reference) <==> Refers(impact, unknown[k].reference)
  {
    var reference := unknown[k].reference;
    if Refers(impact, reference) {
      var x :| x in impact && x.reference == reference;
      assert x in impact + kept;
    }
    forall x | x in kept ensures reference == "" || x.reference != reference {
      var i :| 0 <= i < k && unknown[i] == x;
    }
  }

  method SelectMain(impact: seq<ReviewReason>, unknown: seq<ReviewReason>) returns (main: seq<ReviewReason>)
    requires |impact| <= MAX_REASONS && ReferencesOnce(unknown)
    ensures main == MainOf(impact, unknown)
  {
    main := impact;
    ghost var ok := (x: ReviewReason) => !Refers(impact, x.reference);
    var k := 0;
    while k < |unknown|
      invariant 0 <= k <= |unknown|
      invariant main == impact + Keep(unknown[..k], ok) && |main| <= MAX_REASONS
    {
      assert unknown[..k + 1][..k] == unknown[..k];
      if |main| >= MAX_REASONS {
        KeepPrefix(unknown, ok, k);
        return;
      }
      KeepMembers(unknown[..k], ok);
      RefersMore(impact, Keep(unknown[..k], ok), unknown, k);
      if !Refers(main, unknown[k].reference) {
        main := main + [unknown[k]];
      }
      k := k + 1;
    }
    assert unknown[..k] == unknown;
  }

  lemma {:induction false} KeepPrefix<T>(xs: seq<T>, ok: T -> bool, k: nat)
    requires k <= |xs|
    ensures Keep(xs[..k], ok) <= Keep(xs, ok)
    decreases |xs|
  {
    if k < |xs| {
      KeepPrefix(xs[..|xs| - 1], ok, k);
      assert xs[..|xs| - 1][..k] == xs[..k];
    } else {
      assert xs[..k] == xs;
    }
  }

  // ---------- the whole summary ----------

  predicate FactFinding(f: Finding) {
    f.claim == Fact
  }

  function CountsOf(r: Report): ClaimCounts {
    var facts := |Keep(r.findings, FactFinding)|;
    ClaimCounts(|r.operations| + |r.resources| + facts, |r.findings| - facts, |r.unknowns|)
  }

  function ReviewOf(r: Report, coverage: Coverage): ReviewSummary {
    var impact := ImpactOf(r.findings);
    var unknown := UnknownOf(r);
    ReviewSummary(impact, ConfidenceOf(r, impact), coverage, unknown, CountsOf(r),
      MainOf(impact.reasons, unknown.reasons))
  }

  /** The summary is derived from the records alone, never from a summary already present. */
  lemma ReviewIgnoresHeader(r: Report, review: Option<ReviewSummary>, target: Target, coverage: Coverage)
    ensures ReviewOf(r.(review := review, target := target), coverage) == ReviewOf(r, coverage)
  {
  }

  lemma ReviewKeepsCoverage(r: Report, coverage: Coverage)
    ensures ReviewOf(r, coverage).coverage == coverage
  {
  }

  method CountClaims(r: Report) returns (counts: ClaimCounts)
    ensures counts == CountsOf(r)
  {
    var facts, inferences := |r.operations| + |r.resources|, 0;
    for k := 0 to |r.findings|
      invariant facts == |r.operations| + |r.resources| + |Keep(r.findings[..k], FactFinding)|
      invariant inferences == k - |Keep(r.findings[..k], FactFinding)|
    {
      assert r.findings[..k + 1][..k] == r.findings[..k];
      match r.findings[k].claim {
        case Fact => facts := facts + 1;
        case Inference => inferences := inferences + 1;
      }
    }
    assert r.findings[..|r.findings|] == r.findings;
    counts := ClaimCounts(facts, inferences, |r.unknowns|);
  }

  /** `deriveReviewSummary` computes exactly the batch specification. */
  method DeriveReviewSummary(r: Report, coverage: Coverage) returns (s: ReviewSummary)
    ensures s == ReviewOf(r, coverage)
  {
    var impact := SummarizeImpact(r.findings);
    var tally := Tally([]);
    tally := TallyAll([], Map(r.operations, (o: Operation) => o.confidence), tally);
    ghost var done := [] + Map(r.operations, (o: Operation) => o.confidence);
    tally := TallyAll(done, Map(r.resources, (s: Resource) => s.confidence), tally);
    done := done + Map(r.resources, (s: Resource) => s.confidence);
    tally := TallyAll(done, Map(r.findings, (f: Finding) => f.confidence), tally);
    done := done + Map(r.findings, (f: Finding) => f.confidence);
    tally := TallyAll(done, Map(r.unknowns, (u: Unknown) => u.confidence), tally);
    done := done + Map(r.unknowns, (u: Unknown) => u.confidence);
    assert done == Confidences(r);
    if |impact.reasons| > 0 {
      var weakest := ConfidenceForImpact(r.findings, impact.level);
      tally := tally.(level := ConfidenceLevel.Level(weakest), reasons := impact.reasons);
    }
    var unknown := SummarizeUnknown(r);
    SelectedNeverRepeats(Candidates(r));
    var counts := CountClaims(r);
    var main := SelectMain(impact.reasons, unknown.reasons);
    s := ReviewSummary(impact, tally, coverage, unknown, counts, main);
  }

  /** The confidence of a reported impact is the minimum over all findings at its level. */
  lemma ImpactConfidenceIsTheMinimum(r: Report, coverage: Coverage)
    ensures var s := ReviewOf(r, coverage);
      if r.findings == [] then s.confidence.level == NoConfidence
      else
        && s.confidence.level.Level?
        && (forall f <- r.findings :: f.severity == s.impact.level ==>
           !Weaker(f.confidence, s.confidence.level.confidence))
        && exists f <- r.findings :: f.severity == s.impact.level && f.confidence == s.confidence.level.confidence
  {
    ImpactIsTheMaximum(r.findings);
    MaxSeverityIsMaximum(r.findings);
    var level := MaxSeverity(r.findings);
    if r.findings != [] && WeakestAt(r.findings, level) == HighConfidence {
      var f :| f in r.findings && f.severity == level;
      assert f.confidence == HighConfidence;
    }
  }

  predicate Weaker(a: Confidence, b: Confidence) {
    (a == LowConfidence && b != LowConfidence) || (a == MediumConfidence && b == HighConfidence)
  }

  ghost predicate DistinctFindings(fs: seq<Finding>) {
    forall i, j :: 0 <= i < j < |fs| ==> fs[i].reference != fs[j].reference
  }

  /** With distinct finding references, as every accepted report has, no main reason repeats a reference. */
  lemma ReviewNeverRepeatsAReference(r: Report, coverage: Coverage)
    requires DistinctFindings(r.findings)
    ensures ReferencesOnce(ReviewOf(r, coverage).mainReasons)
  {
    var level := MaxSeverity(r.findings);
    DistinctAtSeverity(r.findings, level);
    var at, impact := AtSeverity(r.findings, level), ImpactOf(r.findings).reasons;
    forall i, j | 0 <= i < j < |impact| ensures impact[i].reference != impact[j].reference {
      assert impact[i] == FindingReason(at[i]) && impact[j] == FindingReason(at[j]);
      assert at[i].reference != at[j].reference;
    }
    MainReasonsNeverRepeat(impact, Candidates(r));
  }

  lemma {:induction false} DistinctAtSeverity(fs: seq<Finding>, s: Severity)
    requires DistinctFindings(fs)
    ensures DistinctFindings(AtSeverity(fs, s))
  {
    if fs != [] {
      var before := fs[..|fs| - 1];
      DistinctAtSeverity(before, s);
      AtSeverityMembers(before, s);
      var at, first := AtSeverity(fs, s), AtSeverity(before, s);
      forall i, j | 0 <= i < j < |at| ensures at[i].reference != at[j].reference {
        assert at[i] == first[i];
        if j == |first| {
          assert first[i] in before;
          var k :| 0 <= k < |before| && before[k] == first[i];
          assert fs[k] == first[i] && fs[k].reference != fs[|fs| - 1].reference;
          assert at[j] == fs[|fs| - 1];
        } else {
          assert at[j] == first[j];
        }
      }
    }
  }
}

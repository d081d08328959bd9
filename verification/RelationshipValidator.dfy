/**
 validateRelationships of internal/report/validate.go: the independent check of a relationship list.
 `Accepts` says what an acceptable list is; `ValidateRelationships` is the scan over maps and counters
 that decides it.
 */
module RelationshipValidator {
  import opened Text
  import opened Sorting
  import opened ReportModel
  import opened Encodings
  import opened EvidenceGraph
  import opened GraphBuilder

  type Kinds = map<string, NodeKind>
  type Origins = map<string, Provenance>

  /** Reading a Go map gives the zero value for a missing key. */
  function KindAt(kinds: Kinds, reference: string): NodeKind {
    if reference in kinds then kinds[reference] else UnlistedNode("")
  }

  function OriginAt(origins: Origins, reference: string): Provenance {
    if reference in origins then origins[reference] else Provenance("", "", "", UnstatedSource)
  }

  // ---------- one comparison ----------

  predicate Symmetric(r: Report, e: Relationship, basis: ComparisonBasis) {
    var from, to := SubjectAt(r, e.fromKind, e.from), SubjectAt(r, e.toKind, e.to);
    && !Less(e.to, e.from) && e.fromKind == e.toKind && from.Some? && from == to
    && basis == ComparisonBasis(e.fromKind.Text(), from.value)
  }

  /** `validateComparisonRelationship`. */
  predicate ComparisonValid(r: Report, e: Relationship, origins: Origins) {
    var from, to := OriginAt(origins, e.from), OriginAt(origins, e.to);
    && e.comparison.Some? && e.comparison.value.kind != "" && e.comparison.value.subject != ""
    && match e.relation
       case Corroborates =>
         && Symmetric(r, e, e.comparison.value) && (e.fromKind.OperationNode? || e.fromKind.ResourceNode?)
         && from.External() != to.External() && !from.SameAnalyzer(to)
       case Duplicates =>
         && Symmetric(r, e, e.comparison.value) && DuplicateEquivalentAt(r, e.fromKind, e.from, e.to)
         && from.source == to.source && from.SameAnalyzer(to)
       case DisagreesWith =>
         && (e.fromKind.OperationNode? || e.fromKind.ResourceNode?) && e.toKind.FindingNode?
         && e.comparison.value.kind == "coverage"
         && SubjectAt(r, e.fromKind, e.from) == Some(e.comparison.value.subject)
         && CoverageDifference(r, e.fromKind, e.from, e.to)
       case _ => false
  }

  // ---------- one edge ----------

  predicate Reserved(f: Finding) {
    f.provenance.ruleID == COVERAGE_RULE || f.category == COVERAGE_CATEGORY
  }

  function ReservedReferences(r: Report): set<string> {
    set f <- r.findings | Reserved(f) :: f.reference
  }

  /** The endpoint kinds that each base relation admits. */
  predicate BaseKinds(e: Relationship) {
    match e.relation
    case DerivedFrom => e.fromKind.ResourceNode? && e.toKind.OperationNode?
    case EstablishedBy => e.fromKind.FindingNode? && e.toKind.OperationNode?
    case InferredFrom => e.fromKind.FindingNode? && e.toKind.OperationNode?
    case UnknownBecause => (e.fromKind.FindingNode? || e.fromKind.UnknownNode?) && e.toKind.OperationNode?
    case _ => false
  }

  predicate Identified(e: Relationship, kinds: Kinds, digest: Digest) {
    && e.id != "" && e.from != "" && e.to != "" && e.from != e.to
    && KindAt(kinds, e.from) == e.fromKind && KindAt(kinds, e.to) == e.toKind
    && e.id == RelationshipID(e.Tuple(), digest)
  }

  predicate EdgeValid(r: Report, kinds: Kinds, origins: Origins, e: Relationship, digest: Digest) {
    && Identified(e, kinds, digest)
    && (if e.relation.Comparison() then ComparisonValid(r, e, origins)
       && (e.relation.DisagreesWith? ==> e.to in ReservedReferences(r))
        else BaseKinds(e) && e.Tuple() in BaseTuples(r))
  }

  // ---------- the whole list ----------

  function PairKey(e: Relationship): string {
    NulJoin(e.from, e.to)
  }

  function ComparisonCount(es: seq<Relationship>): nat {
    if es == [] then 0 else ComparisonCount(es[..|es| - 1]) + if es[|es| - 1].relation.Comparison() then 1 else 0
  }

  function Disagreements(es: seq<Relationship>, finding: string): nat {
    if es == [] then 0
    else
      var e := es[|es| - 1];
      Disagreements(es[..|es| - 1], finding) + if e.relation.DisagreesWith? && e.to == finding then 1 else 0
  }

  ghost predicate DistinctIDs(es: seq<Relationship>) {
    forall i, j :: 0 <= i < j < |es| ==> es[i].id != es[j].id
  }

  ghost predicate DistinctPairs(es: seq<Relationship>) {
    forall i, j :: 0 <= i < j < |es| && es[i].relation.Comparison() && es[j].relation.Comparison() ==>
      PairKey(es[i]) != PairKey(es[j])
  }

  ghost predicate Present(t: EdgeTuple, es: seq<Relationship>) {
    exists e :: e in es && e.Tuple() == t
  }

  /** A list that meets its required tuples and reserved findings, for any check of a single edge. */
  ghost predicate ListAccepted(
    valid: Relationship -> bool, es: seq<Relationship>, ts: seq<EdgeTuple>, reserved: set<string>)
  {
    && (forall i :: 0 <= i < |es| ==> valid(es[i]))
    && DistinctIDs(es) && DistinctPairs(es)
    && ComparisonCount(es) <= MAX_COMPARISONS
    && (forall i :: 0 <= i < |ts| ==> Present(ts[i], es))
    && (forall f <- reserved :: Disagreements(es, f) == 1)
  }

  function EdgeCheck(r: Report, kinds: Kinds, origins: Origins, digest: Digest): Relationship -> bool {
    e => EdgeValid(r, kinds, origins, e, digest)
  }

  /** What the validator accepts, stated without any scanning order. */
  ghost predicate Accepts(r: Report, kinds: Kinds, origins: Origins, digest: Digest) {
    ListAccepted(EdgeCheck(r, kinds, origins, digest), r.relationships, BaseTuples(r), ReservedReferences(r))
  }

  // ---------- the scan, prefix by prefix, for any check of a single edge ----------

  ghost function Seen(es: seq<Relationship>): set<string> {
    set e <- es :: e.id
  }

  ghost function Paired(es: seq<Relationship>): set<string> {
    set e <- es | e.relation.Comparison() :: PairKey(e)
  }

  ghost predicate StepOk(valid: Relationship -> bool, done: seq<Relationship>, e: Relationship) {
    && valid(e)
    && e.id !in Seen(done)
    && (e.relation.Comparison() ==> ComparisonCount(done) < MAX_COMPARISONS && PairKey(e) !in Paired(done))
    && (e.relation.DisagreesWith? ==> Disagreements(done, e.to) == 0)
  }

  ghost predicate ScanOk(valid: Relationship -> bool, es: seq<Relationship>) {
    es == [] || (
      && ScanOk(valid, es[..|es| - 1])
      && StepOk(valid, es[..|es| - 1], es[|es| - 1]))
  }

  lemma {:induction false} ScanOkPrefix(valid: Relationship -> bool, es: seq<Relationship>, k: nat)
    requires k <= |es| && ScanOk(valid, es)
    ensures ScanOk(valid, es[..k])
  {
    if k < |es| {
      ScanOkPrefix(valid, es[..|es| - 1], k);
      assert es[..|es| - 1][..k] == es[..k];
    } else {
      assert es[..k] == es;
    }
  }

  lemma {:induction false} DisagreementsGrow(es: seq<Relationship>, k: nat, finding: string)
    requires k <= |es|
    ensures Disagreements(es[..k], finding) <= Disagreements(es, finding)
  {
    if k < |es| {
      DisagreementsGrow(es[..|es| - 1], k, finding);
      assert es[..|es| - 1][..k] == es[..k];
    } else {
      assert es[..k] == es;
    }
  }

  lemma {:induction false} ComparisonCountGrows(es: seq<Relationship>, k: nat)
    requires k <= |es|
    ensures ComparisonCount(es[..k]) <= ComparisonCount(es)
  {
    if k < |es| {
      ComparisonCountGrows(es[..|es| - 1], k);
      assert es[..|es| - 1][..k] == es[..k];
    } else {
      assert es[..k] == es;
    }
  }

  /** The declarative conditions that a scan without early exit establishes. */
  ghost predicate ListOk(valid: Relationship -> bool, es: seq<Relationship>) {
    && (forall i :: 0 <= i < |es| ==> valid(es[i]))
    && DistinctIDs(es) && DistinctPairs(es)
    && ComparisonCount(es) <= MAX_COMPARISONS
    && (forall i :: 0 <= i < |es| && es[i].relation.DisagreesWith? ==> Disagreements(es, es[i].to) <= 1)
  }

  lemma {:induction false} NoDisagreement(es: seq<Relationship>, finding: string)
    ensures Disagreements(es, finding) == 0 <==>
      forall i :: 0 <= i < |es| ==> !(es[i].relation.DisagreesWith? && es[i].to == finding)
  {
    if es != [] {
      NoDisagreement(es[..|es| - 1], finding);
    }
  }

  lemma {:induction false} ScanDecidesList(valid: Relationship -> bool, es: seq<Relationship>)
    ensures ScanOk(valid, es) <==> ListOk(valid, es)
  {
    if es != [] {
      var done, e := es[..|es| - 1], es[|es| - 1];
      ScanDecidesList(valid, done);
      if ListOk(valid, es) {
        ListOkLast(valid, es);
      }
      if ScanOk(valid, es) {
        ListOkMore(valid, es);
      }
    }
  }

  lemma ListOkLast(valid: Relationship -> bool, es: seq<Relationship>)
    requires es != [] && ListOk(valid, es)
    ensures ListOk(valid, es[..|es| - 1])
    ensures StepOk(valid, es[..|es| - 1], es[|es| - 1])
  {
    var n := |es| - 1;
    var done, e := es[..n], es[n];
    forall i | 0 <= i < n && done[i].relation.DisagreesWith? ensures Disagreements(done, done[i].to) <= 1 {
      DisagreementsGrow(es, n, done[i].to);
      assert Disagreements(es, es[i].to) <= 1;
    }
    ComparisonCountGrows(es, n);
  }

  lemma KeysOfPrefix(es: seq<Relationship>, n: nat, e: Relationship)
    requires n < |es| && es[n] == e && DistinctIDs(es[..n]) && DistinctPairs(es[..n])
    requires n + 1 == |es| && e.id !in Seen(es[..n]) && (e.relation.Comparison() ==> PairKey(e) !in Paired(es[..n]))
    ensures DistinctIDs(es) && DistinctPairs(es)
  {
    var done := es[..n];
    forall i | 0 <= i < n ensures es[i].id != e.id {
      assert done[i] in done && done[i].id in Seen(done);
    }
    forall i | 0 <= i < n && es[i].relation.Comparison() && e.relation.Comparison()
      ensures PairKey(es[i]) != PairKey(e)
    {
      assert done[i] in done && PairKey(done[i]) in Paired(done);
    }
    forall i, j | 0 <= i < j < |es| ensures es[i].id != es[j].id {
      if j < n { assert done[i].id != done[j].id; }
    }
    forall i, j | 0 <= i < j < |es| && es[i].relation.Comparison() && es[j].relation.Comparison()
      ensures PairKey(es[i]) != PairKey(es[j])
    {
      if j < n { assert PairKey(done[i]) != PairKey(done[j]); }
    }
  }

  lemma ListOkMore(valid: Relationship -> bool, es: seq<Relationship>)
    requires es != [] && ListOk(valid, es[..|es| - 1])
    requires StepOk(valid, es[..|es| - 1], es[|es| - 1])
    ensures ListOk(valid, es)
  {
    var n := |es| - 1;
    var done, e := es[..n], es[n];
    KeysOfPrefix(es, n, e);
    forall i | 0 <= i < |es| ensures valid(es[i]) {
      if i < n { assert valid(done[i]); }
    }
    forall i | 0 <= i < |es| && es[i].relation.DisagreesWith? ensures Disagreements(es, es[i].to) <= 1 {
      if i < n {
        assert Disagreements(done, done[i].to) <= 1;
      }
    }
  }

  // ---------- the maps the validator fills before scanning ----------

  ghost function Members<T>(xs: seq<T>): set<T> {
    set x <- xs
  }

  lemma MembersMore<T>(xs: seq<T>, x: T)
    ensures Members(xs + [x]) == Members(xs) + {x}
  {
  }

  method IndexReferences(os: seq<Operation>) returns (index: map<string, string>)
    ensures Indexes(index, os)
  {
    index := map[];
    for k := 0 to |os|
      invariant Indexes(index, os[..k])
    {
      IndexesOneMore(index, os, k);
      index := index[os[k].id := os[k].reference];
    }
    assert os[..|os|] == os;
  }

  /** Adds the required tuples of one record, as the validator's inner loops do. */
  method RequireSupport(required: map<EdgeTuple, bool>, index: map<string, string>, relation: RelationType,
    kind: NodeKind, from: string,
                        ids: seq<string>, ghost os: seq<Operation>, ghost ts: seq<EdgeTuple>)
                          returns (more: map<EdgeTuple, bool>)
    requires Indexes(index, os) && required.Keys == Members(ts) && forall t <- required :: !required[t]
    ensures more.Keys == Members(ts + SupportTuples(relation, kind, from, os, ids)) && forall t <- more :: !more[t]
  {
    more := required;
    ghost var xs := SupportTuples(relation, kind, from, os, ids);
    assert ts + xs[..0] == ts;
    for k := 0 to |ids|
      invariant more.Keys == Members(ts + xs[..k]) && forall t <- more :: !more[t]
    {
      var tuple := EdgeTuple(relation, kind, from, OperationNode, LookUp(index, ids[k]));
      assert tuple == xs[k];
      ConcatMore(ts, xs, k);
      MembersMore(ts + xs[..k], tuple);
      more := more[tuple := false];
    }
    assert xs[..|ids|] == xs;
  }

  method RequireResources(r: Report, index: map<string, string>) returns (required: map<EdgeTuple, bool>)
    requires Indexes(index, r.operations)
    ensures required.Keys == Members(ResourceTuples(r.operations, r.resources)) && forall t <- required :: !required[t]
  {
    required := map[];
    ghost var xs := ResourceTuples(r.operations, r.resources);
    for k := 0 to |r.resources|
      invariant required.Keys == Members(xs[..k]) && forall t <- required :: !required[t]
    {
      var resource := r.resources[k];
      var tuple := EdgeTuple(DerivedFrom, ResourceNode, resource.reference, OperationNode,
        LookUp(index, resource.relatedOperation));
      assert tuple == xs[k];
      TakeMore(xs, k);
      MembersMore(xs[..k], tuple);
      required := required[tuple := false];
    }
    assert xs[..|xs|] == xs;
  }

  method RequireFindings(r: Report, index: map<string, string>, before: map<EdgeTuple, bool>, ghost ts: seq<EdgeTuple>)
    returns (required: map<EdgeTuple, bool>, coverage: map<string, nat>)
    requires Indexes(index, r.operations) && before.Keys == Members(ts) && forall t <- before :: !before[t]
    ensures required.Keys == Members(ts + FindingsTuples(r.operations, r.findings))
    ensures forall t <- required :: !required[t]
    ensures coverage.Keys == ReservedReferences(r) && forall f <- coverage :: coverage[f] == 0
  {
    required, coverage := before, map[];
    ghost var done := ts;
    assert ts + FindingsTuples(r.operations, r.findings[..0]) == ts;
    for k := 0 to |r.findings|
      invariant done == ts + FindingsTuples(r.operations, r.findings[..k])
      invariant required.Keys == Members(done) && forall t <- required :: !required[t]
      invariant coverage.Keys == (set f <- r.findings[..k] | Reserved(f) :: f.reference)
      invariant forall f <- coverage :: coverage[f] == 0
    {
      var finding := r.findings[k];
      if finding.provenance.ruleID == COVERAGE_RULE || finding.category == COVERAGE_CATEGORY {
        coverage := coverage[finding.reference := 0];
      }
      var relation := EstablishedBy;
      if finding.claim == Inference {
        relation := InferredFrom;
      }
      required := RequireSupport(required, index, relation, FindingNode, finding.reference, finding.related,
        r.operations, done);
      FindingsMore(r.operations, r.findings, k, ts);
      TakeMore(r.findings, k);
      done := done + FindingTuples(r.operations, finding);
    }
    assert r.findings[..|r.findings|] == r.findings;
  }

  method RequireUnknowns(r: Report, index: map<string, string>, before: map<EdgeTuple, bool>, ghost ts: seq<EdgeTuple>)
    returns (required: map<EdgeTuple, bool>)
    requires Indexes(index, r.operations) && before.Keys == Members(ts) && forall t <- before :: !before[t]
    ensures required.Keys == Members(ts + UnknownsTuples(r.operations, r.unknowns))
    ensures forall t <- required :: !required[t]
  {
    required := before;
    ghost var done := ts;
    assert ts + UnknownsTuples(r.operations, r.unknowns[..0]) == ts;
    for k := 0 to |r.unknowns|
      invariant done == ts + UnknownsTuples(r.operations, r.unknowns[..k])
      invariant required.Keys == Members(done) && forall t <- required :: !required[t]
    {
      var unknown := r.unknowns[k];
      required := RequireSupport(required, index, UnknownBecause, UnknownNode, unknown.reference, unknown.affected,
        r.operations, done);
      UnknownsMore(r.operations, r.unknowns, k, ts);
      done := done + UnknownTuples(r.operations, unknown);
    }
    assert r.unknowns[..|r.unknowns|] == r.unknowns;
  }

  // ---------- the scan ----------

  /** The validator's maps and counter. */
  datatype Scan = Scan(required: map<EdgeTuple, bool>, coverage: map<string, nat>, seen: map<string, EdgeTuple>,
                       pairs: map<string, RelationType>, count: nat)

  ghost predicate Scanned(s: Scan, done: seq<Relationship>, ts: seq<EdgeTuple>, reserved: set<string>) {
    && s.required.Keys == Members(ts) && (forall t <- s.required :: s.required[t] <==> Present(t, done))
    && s.coverage.Keys == reserved && (forall f <- s.coverage :: s.coverage[f] == Disagreements(done, f))
    && s.seen.Keys == Seen(done) && s.pairs.Keys == Paired(done) && s.count == ComparisonCount(done)
  }

  lemma PresentStep(done: seq<Relationship>, e: Relationship, t: EdgeTuple)
    ensures Present(t, done + [e]) <==> Present(t, done) || t == e.Tuple()
  {
    assert e in done + [e];
    if Present(t, done) {
      var x :| x in done && x.Tuple() == t;
      assert x in done + [e];
    }
  }

  lemma CountStep(done: seq<Relationship>, e: Relationship)
    ensures forall f ::
      Disagreements(done + [e], f) == Disagreements(done, f) + if e.relation.DisagreesWith? && e.to == f then 1 else 0
    ensures ComparisonCount(done + [e]) == ComparisonCount(done) + if e.relation.Comparison() then 1 else 0
  {
    var more := done + [e];
    assert more[..|done|] == done && more[|done|] == e;
  }

  lemma KeyStep(done: seq<Relationship>, e: Relationship)
    ensures Seen(done + [e]) == Seen(done) + {e.id}
    ensures Paired(done + [e]) == Paired(done) + if e.relation.Comparison() then {PairKey(e)} else {}
  {
    assert forall x :: x in done + [e] <==> x in done || x == e;
  }

  /** The maps after one accepted edge. */
  ghost function NextScan(s: Scan, e: Relationship): Scan {
    Scan(
      if e.Tuple() in s.required then s.required[e.Tuple() := true] else s.required,
      if e.relation.DisagreesWith? && e.to in s.coverage then s.coverage[e.to := s.coverage[e.to] + 1] else s.coverage,
      s.seen[e.id := e.Tuple()],
      if e.relation.Comparison() then s.pairs[PairKey(e) := e.relation] else s.pairs,
      if e.relation.Comparison() then s.count + 1 else s.count)
  }

  lemma NextRequired(s: Scan, e: Relationship, done: seq<Relationship>)
    requires forall t <- s.required :: s.required[t] <==> Present(t, done)
    ensures NextScan(s, e).required.Keys == s.required.Keys
    ensures forall t <- NextScan(s, e).required :: NextScan(s, e).required[t] <==> Present(t, done + [e])
  {
    forall t | t in s.required ensures NextScan(s, e).required[t] <==> Present(t, done + [e]) {
      PresentStep(done, e, t);
    }
  }

  lemma NextCoverage(s: Scan, e: Relationship, done: seq<Relationship>)
    requires forall f <- s.coverage :: s.coverage[f] == Disagreements(done, f)
    ensures NextScan(s, e).coverage.Keys == s.coverage.Keys
    ensures forall f <- NextScan(s, e).coverage :: NextScan(s, e).coverage[f] == Disagreements(done + [e], f)
  {
    CountStep(done, e);
  }

  lemma NextKeys(s: Scan, e: Relationship, done: seq<Relationship>)
    requires s.seen.Keys == Seen(done) && s.pairs.Keys == Paired(done) && s.count == ComparisonCount(done)
    ensures NextScan(s, e).seen.Keys == Seen(done + [e]) && NextScan(s, e).pairs.Keys == Paired(done + [e])
    ensures NextScan(s, e).count == ComparisonCount(done + [e])
  {
    CountStep(done, e);
    KeyStep(done, e);
  }

  lemma NextScanned(s: Scan, e: Relationship, done: seq<Relationship>, ts: seq<EdgeTuple>, reserved: set<string>)
    requires Scanned(s, done, ts, reserved)
    ensures Scanned(NextScan(s, e), done + [e], ts, reserved)
  {
    NextRequired(s, e, done);
    NextCoverage(s, e, done);
    NextKeys(s, e, done);
  }

  /** The part of one iteration that reads and updates what the earlier edges left behind. */
  method Record(s: Scan, e: Relationship, ghost valid: Relationship -> bool, ghost done: seq<Relationship>,
                ghost ts: seq<EdgeTuple>, ghost reserved: set<string>) returns (ok: bool, next: Scan)
    requires Scanned(s, done, ts, reserved) && valid(e)
    requires e.relation.DisagreesWith? ==> e.to in reserved
    ensures ok <==> StepOk(valid, done, e)
    ensures ok ==> Scanned(next, done + [e], ts, reserved)
  {
    next := s;
    if e.id in s.seen {
      return false, next;
    }
    next := next.(seen := s.seen[e.id := e.Tuple()]);
    if e.relation.Comparison() {
      next := next.(count := next.count + 1);
      if next.count > MAX_COMPARISONS {
        return false, next;
      }
      if e.relation.DisagreesWith? {
        next := next.(coverage := s.coverage[e.to := s.coverage[e.to] + 1]);
        if next.coverage[e.to] > 1 {
          return false, next;
        }
      }
      if PairKey(e) in s.pairs {
        return false, next;
      }
      next := next.(pairs := s.pairs[PairKey(e) := e.relation]);
    }
    if e.Tuple() in s.required {
      next := next.(required := s.required[e.Tuple() := true]);
    }
    NextScanned(s, e, done, ts, reserved);
    ok := true;
  }

  /** The per-edge switch: everything that does not depend on the edges scanned before. */
  method CheckEdge(r: Report, kinds: Kinds, origins: Origins, e: Relationship, required: map<EdgeTuple, bool>,
                   coverage: map<string, nat>, digest: Digest) returns (ok: bool)
    requires required.Keys == Members(BaseTuples(r)) && coverage.Keys == ReservedReferences(r)
    ensures ok <==> EdgeValid(r, kinds, origins, e, digest)
  {
    hide ComparisonValid, RelationshipID, BaseTuples, ReservedReferences;
    if e.id == "" || e.from == "" || e.to == "" || e.from == e.to {
      return false;
    }
    if KindAt(kinds, e.from) != e.fromKind || KindAt(kinds, e.to) != e.toKind {
      return false;
    }
    if e.id != RelationshipID(e.Tuple(), digest) {
      return false;
    }
    match e.relation {
      case DerivedFrom =>
        ok := e.fromKind.ResourceNode? && e.toKind.OperationNode? && e.Tuple() in required;
      case EstablishedBy =>
        ok := e.fromKind.FindingNode? && e.toKind.OperationNode? && e.Tuple() in required;
      case InferredFrom =>
        ok := e.fromKind.FindingNode? && e.toKind.OperationNode? && e.Tuple() in required;
      case UnknownBecause =>
        ok := (e.fromKind.FindingNode? || e.fromKind.UnknownNode?) && e.toKind.OperationNode? && e.Tuple() in required;
      case UnlistedRelation(_) =>
        ok := false;
      case _ =>
        ok := ComparisonValid(r, e, origins) && (e.relation.DisagreesWith? ==> e.to in coverage);
    }
  }

  lemma RefusedStep(valid: Relationship -> bool, es: seq<Relationship>, k: nat)
    requires k < |es| && !StepOk(valid, es[..k], es[k])
    ensures !ScanOk(valid, es)
  {
    assert es[..k + 1][..k] == es[..k];
    if ScanOk(valid, es) {
      ScanOkPrefix(valid, es, k + 1);
    }
  }

  lemma AcceptedStep(valid: Relationship -> bool, es: seq<Relationship>, k: nat)
    requires k < |es| && ScanOk(valid, es[..k]) && StepOk(valid, es[..k], es[k])
    ensures ScanOk(valid, es[..k + 1])
  {
    assert es[..k + 1][..k] == es[..k];
  }

  /** Acceptance is the scan's verdict plus the two final sweeps. */
  lemma AcceptedByScan(valid: Relationship -> bool, es: seq<Relationship>, ts: seq<EdgeTuple>, reserved: set<string>)
    requires forall e <- es :: valid(e) && e.relation.DisagreesWith? ==> e.to in reserved
    ensures ListAccepted(valid, es, ts, reserved) <==>
      (ScanOk(valid, es) && (forall i :: 0 <= i < |ts| ==> Present(ts[i], es)) && forall f <- reserved ::
        Disagreements(es, f) == 1)
  {
    ScanDecidesList(valid, es);
    if ListAccepted(valid, es, ts, reserved) {
      forall i | 0 <= i < |es| && es[i].relation.DisagreesWith? ensures Disagreements(es, es[i].to) <= 1 {
        assert es[i] in es;
      }
    }
  }

  /** Ranging over a Go map: any order, so the answer must not depend on it. */
  method AllPresent(required: map<EdgeTuple, bool>) returns (ok: bool)
    ensures ok <==> forall t <- required :: required[t]
  {
    var pending := required.Keys;
    while pending != {}
      invariant pending <= required.Keys
      invariant forall t <- required :: t in pending || required[t]
    {
      var t :| t in pending;
      if !required[t] {
        return false;
      }
      pending := pending - {t};
    }
    ok := true;
  }

  method AllOnce(coverage: map<string, nat>) returns (ok: bool)
    ensures ok <==> forall f <- coverage :: coverage[f] == 1
  {
    var pending := coverage.Keys;
    while pending != {}
      invariant pending <= coverage.Keys
      invariant forall f <- coverage :: f in pending || coverage[f] == 1
    {
      var f :| f in pending;
      if coverage[f] != 1 {
        return false;
      }
      pending := pending - {f};
    }
    ok := true;
  }

  method ScanRelationships(r: Report, kinds: Kinds, origins: Origins, digest: Digest, start: Scan)
    returns (ok: bool, end: Scan)
    requires Scanned(start, [], BaseTuples(r), ReservedReferences(r))
    ensures ok <==> ScanOk(EdgeCheck(r, kinds, origins, digest), r.relationships)
    ensures ok ==> Scanned(end, r.relationships, BaseTuples(r), ReservedReferences(r))
  {
    ghost var valid, ts, reserved := EdgeCheck(r, kinds, origins, digest), BaseTuples(r), ReservedReferences(r);
    var es := r.relationships;
    end := start;
    var k := 0;
    while k < |es|
      invariant 0 <= k <= |es| && ScanOk(valid, es[..k]) && Scanned(end, es[..k], ts, reserved)
    {
      ok := CheckEdge(r, kinds, origins, es[k], end.required, end.coverage, digest);
      if !ok {
        RefusedStep(valid, es, k);
        return;
      }
      ok, end := Record(end, es[k], valid, es[..k], ts, reserved);
      if !ok {
        RefusedStep(valid, es, k);
        return;
      }
      AcceptedStep(valid, es, k);
      TakeMore(es, k);
      k := k + 1;
    }
    assert es[..k] == es;
    ok := true;
  }

  lemma ValidDisagreements(r: Report, kinds: Kinds, origins: Origins, digest: Digest)
    ensures forall e <- r.relationships :: EdgeCheck(r, kinds, origins, digest)(e) && e.relation.DisagreesWith? ==>
      e.to in ReservedReferences(r)
  {
  }

  /** `validateRelationships` decides `Accepts`, both ways, for every digest. */
  method ValidateRelationships(r: Report, kinds: Kinds, origins: Origins, digest: Digest) returns (accepted: bool)
    ensures accepted <==> Accepts(r, kinds, origins, digest)
  {
    ghost var ts, reserved := BaseTuples(r), ReservedReferences(r);
    ValidDisagreements(r, kinds, origins, digest);
    AcceptedByScan(EdgeCheck(r, kinds, origins, digest), r.relationships, ts, reserved);
    var scan := PrepareScan(r);
    var scanned;
    scanned, scan := ScanRelationships(r, kinds, origins, digest, scan);
    if !scanned {
      return false;
    }
    var present := AllPresent(scan.required);
    var once := AllOnce(scan.coverage);
    MembersAll(ts, r.relationships);
    return present && once;
  }

  lemma MembersAll(ts: seq<EdgeTuple>, es: seq<Relationship>)
    ensures (forall t <- Members(ts) :: Present(t, es)) <==> forall i :: 0 <= i < |ts| ==> Present(ts[i], es)
  {
    forall t | t in Members(ts) && forall i :: 0 <= i < |ts| ==> Present(ts[i], es) ensures Present(t, es) {
      var i :| 0 <= i < |ts| && ts[i] == t;
    }
  }

  method PrepareScan(r: Report) returns (scan: Scan)
    ensures Scanned(scan, [], BaseTuples(r), ReservedReferences(r))
  {
    var index := IndexReferences(r.operations);
    var required := RequireResources(r, index);
    ghost var ts := ResourceTuples(r.operations, r.resources);
    var coverage;
    required, coverage := RequireFindings(r, index, required, ts);
    required := RequireUnknowns(r, index, required, ts + FindingsTuples(r.operations, r.findings));
    scan := Scan(required, coverage, map[], map[], 0);
  }
}

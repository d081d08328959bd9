/** The report of internal/report/report.go as values. */
module ReportModel {

  datatype Option<+T> = None | Some(value: T)

  /** A Go slice where the code tells nil from empty. */
  datatype Slice<+T> = NilSlice | Slice(elements: seq<T>) {
    function Items(): seq<T> {
      if NilSlice? then [] else elements
    }
  }

  const TARGET_INPUT_ID := "input-target"
  const DETERMINISTIC_ANALYZER := "plug-prejudice/deterministic"
  const OMARCHY_ANALYZER := "omarchy/plugin-audit"
  const BINDING_CATEGORY := "external-evidence-binding"
  const SNAPSHOT_BINDING_RULE := "external-snapshot-equivalence/v1"
  const BINDING_ASSESSMENT_RULE := "external-binding-assessment/v1"
  const AUDIT_OBSERVATION_RULE := "omarchy-audit-observation/v1"
  const COVERAGE_CATEGORY := "omarchy-audit-coverage-disagreement"
  const COVERAGE_RULE := "omarchy-audit-coverage-comparison/v1"
  const COMPARISON_BUDGET_RULE := "omarchy-audit-comparison-budget/v1"
  const ELF_CONTENT_TYPE := "application/x-elf"
  const REGULAR_KIND := "regular"

  const MAX_INVENTORY := 10_000
  const MAX_COMPARISONS := 20_000
  const MAX_PRODUCED_RELATIONS := 20_000
  const MAX_EVIDENCE_INPUTS := 16
  const MAX_FINDING_EVIDENCE := 8
  const MAX_FINDING_RELATED := 16
  const MAX_UNKNOWN_EVIDENCE := 8
  const MAX_UNKNOWN_AFFECTED := 16
  const MAX_UNKNOWN_ORIGINS := 8
  const MAX_UNKNOWN_SUPPRESSED := 16
  const MAX_JSON_DEPTH := 64

  datatype Claim = Fact | Inference
  datatype Severity = Critical | HighSeverity | MediumSeverity | LowSeverity | Informational
  datatype Confidence = HighConfidence | MediumConfidence | LowConfidence
  datatype Scope = RuntimeScope | ToolingScope | UnknownScope | UnsetScope {
    function Text(): string {
      match this
      case RuntimeScope => "runtime"
      case ToolingScope => "repository-tooling"
      case UnknownScope => "unknown"
      case UnsetScope => ""
    }
  }
  datatype Status = Complete | Incomplete | ErrorStatus
  datatype UnknownReason =
    | DynamicValue | UnsupportedSyntax | ParserFailure | BudgetExhaustion
    | UnreachableSource | NativeBehavior | UnresolvedFlow | ExternalBinding
  datatype EvidenceSource = TargetSource | InventoryMetadata | OmarchyAudit | UnstatedSource
  datatype InputType = TargetInput | OmarchyInput
  datatype Analysis = NotApplicable | Analyzed | Partial | Unanalyzed

  /** Node kinds and relationship types stay open: the validator meets hostile values of both. */
  datatype NodeKind = OperationNode | ResourceNode | FindingNode | UnknownNode | UnlistedNode(text: string) {
    function Text(): string {
      match this
      case OperationNode => "operation"
      case ResourceNode => "resource"
      case FindingNode => "finding"
      case UnknownNode => "unknown"
      case UnlistedNode(text) => text
    }
  }
  datatype RelationType =
    | DerivedFrom | EstablishedBy | InferredFrom | UnknownBecause
    | Corroborates | DisagreesWith | Duplicates | UnlistedRelation(text: string)
  {
    function Text(): string {
      match this
      case DerivedFrom => "derived-from"
      case EstablishedBy => "established-by"
      case InferredFrom => "inferred-from"
      case UnknownBecause => "unknown-because"
      case Corroborates => "corroborates"
      case DisagreesWith => "disagrees-with"
      case Duplicates => "duplicates"
      case UnlistedRelation(text) => text
    }

    predicate Comparison() {
      Corroborates? || DisagreesWith? || Duplicates?
    }
  }

  datatype Evidence = Evidence(inputID: string, path: string, lineStart: int, lineEnd: int, operation: string,
    excerpt: string)
  datatype Provenance = Provenance(ruleID: string, analyzer: string, analyzerVersion: string, source: EvidenceSource) {
    predicate External() {
      source == OmarchyAudit
    }

    predicate SameAnalyzer(other: Provenance) {
      analyzer == other.analyzer && analyzerVersion == other.analyzerVersion
    }
  }

  datatype EvidenceInput = EvidenceInput(
    id: string, inputType: InputType, title: string, documentSHA256: string,
    subjectRootDigest: string, format: string, version: string)

  datatype Operation = Operation(
    id: string, reference: string, category: string, scope: Scope, command: string, arguments: seq<string>,
    dynamic: bool, confidence: Confidence, evidence: Evidence, provenance: Provenance)

  datatype Resource = Resource(
    id: string, reference: string, kind: string, access: string, value: string, sensitive: bool, dynamic: bool,
    scope: Scope, confidence: Confidence, evidence: Evidence, relatedOperation: string, provenance: Provenance)

  datatype Finding = Finding(
    id: string, reference: string, claim: Claim, severity: Severity, confidence: Confidence, category: string,
    scope: Scope, title: string, explanation: string, evidence: seq<Evidence>, related: seq<string>,
    provenance: Provenance)

  datatype ValueOrigin = ValueOrigin(kind: string, name: string, evidence: Evidence)

  datatype Unknown = Unknown(
    id: string, reference: string, category: string, reason: UnknownReason, scope: Scope, confidence: Confidence,
    title: string, description: string, evidence: seq<Evidence>, origins: seq<ValueOrigin>,
    affected: seq<string>, suppressed: seq<string>, provenance: Provenance)

  datatype ComparisonBasis = ComparisonBasis(kind: string, subject: string)

  datatype Relationship = Relationship(
    id: string, relation: RelationType, fromKind: NodeKind, from: string, toKind: NodeKind, to: string,
    comparison: Option<ComparisonBasis>)
  {
    function Tuple(): EdgeTuple {
      EdgeTuple(relation, fromKind, from, toKind, to)
    }
  }

  datatype EdgeTuple = EdgeTuple(relation: RelationType, fromKind: NodeKind, from: string, toKind: NodeKind, to: string)

  datatype Limitation = Limitation(code: string, description: string, path: string, scope: Scope)
  datatype ScanError = ScanError(code: string, message: string, path: string)

  datatype Binary = Binary(
    format: string, class_: string, byteOrder: string, machine: string, type_: string, interpreter: string,
    libraries: Slice<string>, importedSymbols: Slice<string>, extractedStrings: Slice<string>,
    embeddedURLs: Slice<string>, fileCapabilities: Slice<string>, hasSymbols: bool)
  datatype ArchiveEntry = ArchiveEntry(path: string, kind: string, size: int, compressedSize: int)
  datatype Archive = Archive(format: string, entries: Slice<ArchiveEntry>, retainedBytes: int)

  datatype File = File(
    path: string, kind: string, mode: string, size: int, sha256: string, contentType: string, linkTarget: string,
    inspected: bool, skipReason: string, analysis: Analysis, analysisReason: string,
    binary: Option<Binary>, archive: Option<Archive>)
  {
    predicate Elf() {
      contentType == ELF_CONTENT_TYPE
    }
  }

  datatype Manifest = Manifest(
    id: string, name: string, version: string, description: string, kinds: Slice<string>,
      entryPoints: Option<map<string, string>>)
  datatype Target = Target(
    displayName: string, rootDigest: string, fileCount: int, readBytes: int, binaryBytes: int,
      manifest: Option<Manifest>)

  datatype ReviewReason = ReviewReason(reference: string, title: string, scope: Scope)
  datatype Impact = Impact(level: Severity, reasons: seq<ReviewReason>)
  datatype ConfidenceLevel = NoConfidence | Level(confidence: Confidence)
  datatype ConfidenceSummary = ConfidenceSummary(level: ConfidenceLevel, high: int, medium: int, low: int,
    reasons: seq<ReviewReason>)
  datatype CoverageLevel = NoCoverage | CompleteCoverage | SubstantialCoverage | PartialCoverage | LimitedCoverage
  datatype Coverage = Coverage(
    level: CoverageLevel, analyzed: int, partial: int, unanalyzed: int, excluded: int, total: int, retained: int,
    percentage: Option<int>)
  datatype UnknownLevel = NoUnknown | LowUnknown | ModerateUnknown | HighUnknown
  datatype UnknownSummary = UnknownSummary(level: UnknownLevel, unknowns: int, limitations: int, errors: int,
    reasons: seq<ReviewReason>)
  datatype ClaimCounts = ClaimCounts(facts: int, inferences: int, unknowns: int)
  datatype ReviewSummary = ReviewSummary(
    impact: Impact, confidence: ConfidenceSummary, coverage: Coverage, unknown: UnknownSummary,
    counts: ClaimCounts, mainReasons: seq<ReviewReason>)

  datatype Report = Report(
    status: Status, scannerVersion: string, policyVersion: string, target: Target, inputs: seq<EvidenceInput>,
    review: Option<ReviewSummary>, inventory: seq<File>, operations: seq<Operation>, resources: seq<Resource>,
    findings: seq<Finding>, unknowns: seq<Unknown>, relationships: seq<Relationship>,
    limitations: seq<Limitation>, errors: seq<ScanError>)
}

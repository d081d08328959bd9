/**
 The check of every serialized string in internal/report/validate.go: valid UTF-8, and at most 4,096 bytes when
 encoded as a JSON string with HTML escaping.
 */
module HostileText {
  import opened Text
  import opened ReportModel

  const MAX_HOSTILE_BYTES := 4_096

  /** What one byte takes in a JSON string: quotes and common controls two, other controls and `<>&` six. */
  function CharCost(c: char): nat {
    if c == '"' || c == '\\' || c == '\n' || c == '\r' || c == '\t' || c == 8 as char || c == 12 as char then 2
    else if c < ' ' || c == '<' || c == '>' || c == '&' then 6
    else 1
  }

  /** The three bytes of U+2028 or U+2029, which are escaped as well. */
  predicate LineSeparator(s: string) {
    |s| >= 3 && s[0] == 0xE2 as char && s[1] == 0x80 as char && (s[2] == 0xA8 as char || s[2] == 0xA9 as char)
  }

  function BodyCost(s: string): nat {
    if s == "" then 0
    else if LineSeparator(s) then 6 + BodyCost(s[3..])
    else CharCost(s[0]) + BodyCost(s[1..])
  }

  /** The length of `json.Marshal` of a valid string. */
  function EncodedLength(s: string): nat {
    2 + BodyCost(s)
  }

  predicate Serializes(s: string, validUTF8: string -> bool) {
    validUTF8(s) && EncodedLength(s) <= MAX_HOSTILE_BYTES
  }

  /** Printable ASCII that JSON does not escape. */
  predicate Plain(s: string) {
    Printable(s) && forall i :: 0 <= i < |s| ==> CharCost(s[i]) == 1
  }

  lemma {:induction false} PlainCost(s: string)
    requires Plain(s)
    ensures EncodedLength(s) == 2 + |s|
  {
    if s != "" {
      PlainCost(s[1..]);
    }
  }

  lemma PlainSerializes(s: string, validUTF8: string -> bool)
    requires AsciiIsValid(validUTF8) && Plain(s)
    ensures Serializes(s, validUTF8) <==> 2 + |s| <= MAX_HOSTILE_BYTES
  {
    PlainCost(s);
  }

  // ---------- the strings of each record ----------

  predicate AllFit(texts: seq<string>, fits: string -> bool) {
    forall t <- texts :: fits(t)
  }

  predicate EvidenceFits(e: Evidence, fits: string -> bool) {
    fits(e.inputID) && fits(e.path) && fits(e.operation) && fits(e.excerpt)
  }

  predicate ProvenanceFits(p: Provenance, fits: string -> bool) {
    fits(p.ruleID) && fits(p.analyzer) && fits(p.analyzerVersion)
  }

  predicate InputFits(i: EvidenceInput, fits: string -> bool) {
    AllFit([i.id, i.title, i.documentSHA256, i.subjectRootDigest, i.format, i.version], fits)
  }

  predicate OperationFits(o: Operation, fits: string -> bool) {
    && AllFit([o.id, o.reference, o.category, o.command], fits) && AllFit(o.arguments, fits)
    && EvidenceFits(o.evidence, fits) && ProvenanceFits(o.provenance, fits)
  }

  predicate ResourceFits(o: Resource, fits: string -> bool) {
    && AllFit([o.id, o.reference, o.kind, o.access, o.value, o.relatedOperation], fits)
    && EvidenceFits(o.evidence, fits) && ProvenanceFits(o.provenance, fits)
  }

  predicate FindingFits(f: Finding, fits: string -> bool) {
    && AllFit([f.id, f.reference, f.category, f.title, f.explanation], fits) && AllFit(f.related, fits)
    && (forall e <- f.evidence :: EvidenceFits(e, fits)) && ProvenanceFits(f.provenance, fits)
  }

  predicate UnknownFits(u: Unknown, fits: string -> bool) {
    && AllFit([u.id, u.reference, u.category, u.title, u.description], fits)
    && AllFit(u.affected, fits) && AllFit(u.suppressed, fits)
    && (forall e <- u.evidence :: EvidenceFits(e, fits)) && ProvenanceFits(u.provenance, fits)
    && (forall v <- u.origins :: fits(v.kind) && fits(v.name) && EvidenceFits(v.evidence, fits))
  }

  predicate RelationshipFits(e: Relationship, fits: string -> bool) {
    && AllFit([e.id, e.relation.Text(), e.fromKind.Text(), e.from, e.toKind.Text(), e.to], fits)
    && (e.comparison.Some? ==> fits(e.comparison.value.kind) && fits(e.comparison.value.subject))
  }

  predicate LimitationFits(l: Limitation, fits: string -> bool) {
    fits(l.code) && fits(l.description) && fits(l.path)
  }

  predicate ErrorFits(e: ScanError, fits: string -> bool) {
    fits(e.code) && fits(e.message) && fits(e.path)
  }

  predicate BinaryFits(b: Binary, fits: string -> bool) {
    && AllFit([b.format, b.class_, b.byteOrder, b.machine, b.type_, b.interpreter], fits)
    && AllFit(b.libraries.Items(), fits) && AllFit(b.importedSymbols.Items(), fits)
    && AllFit(b.extractedStrings.Items(), fits) && AllFit(b.embeddedURLs.Items(), fits)
    && AllFit(b.fileCapabilities.Items(), fits)
  }

  predicate ArchiveFits(a: Archive, fits: string -> bool) {
    fits(a.format) && forall e <- a.entries.Items() :: fits(e.path) && fits(e.kind)
  }

  predicate FileFits(f: File, fits: string -> bool) {
    && AllFit([f.path, f.kind, f.mode, f.sha256, f.contentType, f.linkTarget, f.skipReason, f.analysisReason], fits)
    && (f.binary.Some? ==> BinaryFits(f.binary.value, fits)) && (f.archive.Some? ==> ArchiveFits(f.archive.value, fits))
  }

  predicate ManifestFits(m: Manifest, fits: string -> bool) {
    && AllFit([m.id, m.name, m.version, m.description], fits) && AllFit(m.kinds.Items(), fits)
    && (m.entryPoints.Some? ==> forall key <- m.entryPoints.value :: fits(key) && fits(m.entryPoints.value[key]))
  }

  predicate TargetFits(t: Target, fits: string -> bool) {
    fits(t.displayName) && fits(t.rootDigest) && (t.manifest.Some? ==> ManifestFits(t.manifest.value, fits))
  }

  predicate ReasonsFit(reasons: seq<ReviewReason>, fits: string -> bool) {
    forall x <- reasons :: fits(x.reference) && fits(x.title)
  }

  predicate ReviewFits(s: ReviewSummary, fits: string -> bool) {
    && ReasonsFit(s.impact.reasons, fits) && ReasonsFit(s.confidence.reasons, fits)
    && ReasonsFit(s.unknown.reasons, fits) && ReasonsFit(s.mainReasons, fits)
  }

  /** Every string outside the derived summary. */
  predicate RecordsFit(r: Report, fits: string -> bool) {
    && fits(r.scannerVersion) && fits(r.policyVersion) && TargetFits(r.target, fits)
    && (forall i <- r.inputs :: InputFits(i, fits)) && (forall f <- r.inventory :: FileFits(f, fits))
    && (forall o <- r.operations :: OperationFits(o, fits)) && (forall o <- r.resources :: ResourceFits(o, fits))
    && (forall f <- r.findings :: FindingFits(f, fits)) && (forall u <- r.unknowns :: UnknownFits(u, fits))
    && (forall e <- r.relationships :: RelationshipFits(e, fits))
    && (forall l <- r.limitations :: LimitationFits(l, fits)) && (forall e <- r.errors :: ErrorFits(e, fits))
  }

  /** `validateHostileStrings`. */
  predicate TextsFit(r: Report, fits: string -> bool) {
    RecordsFit(r, fits) && (r.review.Some? ==> ReviewFits(r.review.value, fits))
  }
}

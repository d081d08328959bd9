/**
 A whole scan: both passes, the sorted records and their root digest. What an unchanged target must look like to
 be scanned at all.
 */
module TargetScan {
  import opened Text
  import opened Sorting
  import opened ReportModel
  import opened Inventory
  import opened WalkerClass
  import opened Reach
  import opened SecondPassTheorems
  import opened SettledTargets
  import EvidenceGraph
  import InventoryDigest

  // ---------- from walked records to report records ----------

  /** What a scan takes from its libraries: the digest, UTF-8 validity and content sniffing. */
  datatype Tools = Tools(digest: EvidenceGraph.Digest, validUTF8: string -> bool, detect: seq<Octet> -> string)

  function KindText(k: Kind): string {
    match k
    case RegularKind => REGULAR_KIND
    case SymlinkKind => "symlink"
    case DirectoryKind => "directory"
    case SpecialKind(FifoType) => "fifo"
    case SpecialKind(SocketType) => "socket"
    case SpecialKind(CharacterDevice) => "character-device"
    case SpecialKind(BlockDevice) => "block-device"
    case SpecialKind(_) => "special"
  }

  function Octets(bytes: seq<Octet>): string {
    seq(|bytes|, i requires 0 <= i < |bytes| => bytes[i] as char)
  }

  function HashText(inspection: Inspection, digest: EvidenceGraph.Digest): string {
    match inspection
    case Source(bytes) => InventoryDigest.LowerHex(digest(Octets(bytes)))
    case Elf(bytes) => InventoryDigest.LowerHex(digest(Octets(bytes)))
    case _ => ""
  }

  function TypeText(inspection: Inspection, detect: seq<Octet> -> string): string {
    match inspection
    case Source(bytes) => detect(bytes)
    case Elf(_) => ELF_CONTENT_TYPE
    case _ => ""
  }

  /** The record as the scan returns it; its analysis is filled in later. */
  function FileOf(r: Record, tools: Tools): File {
    File(PathText(r.path), KindText(r.kind), r.mode, r.size, HashText(r.inspection, tools.digest),
         TypeText(r.inspection, tools.detect), r.linkTarget, r.inspection.Source? || r.inspection.Elf?,
         if r.inspection.SkippedGit? then "git-internal-database" else "", NotApplicable, "", None, None)
  }

  function FilesOf(records: seq<Record>, tools: Tools): seq<File> {
    Map(records, r => FileOf(r, tools))
  }

  // ---------- the records of a walk have unique paths ----------

  lemma WalkedPathsUnique(limits: Limits, root: Node, tools: Tools)
    requires root.Directory? && Proper(root) && FirstPass(limits, root).Done?
    ensures InventoryDigest.UniquePaths(FilesOf(FirstPass(limits, root).value.files, tools))
  {
    hide FirstPass, Visits;
    var files, visits := FirstPass(limits, root).value.files, Visits(limits, root);
    FirstPassRetains(limits, root);
    VisitsAreDistinct(limits, root);
    forall i, j | 0 <= i < j < |files| ensures PathText(files[i].path) != PathText(files[j].path) {
      RetainedPath(files, visits, i);
      RetainedPath(files, visits, j);
      CleanVisit(visits, i);
      CleanVisit(visits, j);
      if PathText(files[i].path) == PathText(files[j].path) {
        PathTextInjective(files[i].path, files[j].path);
      }
    }
  }

  lemma RetainedPath(files: seq<Record>, visits: seq<Visit>, i: nat)
    requires Retains([], files, visits) && i < |files|
    ensures i < |visits| && files[i].path == visits[i].path
    ensures files[i].(inspection := NotInspected) == RecordFor(visits[i].path, visits[i].entry.node)
  {
    var none: seq<Record> := [];
    assert files[|none| + i] == files[i];
  }

  lemma CleanVisit(visits: seq<Visit>, i: nat)
    requires VisitsBelow(visits, []) && i < |visits|
    ensures forall name <- visits[i].path :: CleanName(name)
  {
    assert visits[i] in visits && visits[i].path[0..] == visits[i].path;
  }

  // ---------- the scan ----------

  datatype Scanned = Scanned(files: seq<File>, rootDigest: string)

  ghost predicate AllEncodable(files: seq<File>, validUTF8: string -> bool) {
    forall f <- files :: !InventoryDigest.Refused(InventoryDigest.CoveredFields(f), validUTF8)
  }

  /** The scan completes: both passes do, and every record can be encoded for the root digest. */
  ghost predicate Completes(limits: Limits, first: Node, second: Node, tools: Tools)
    requires first.Directory? && second.Directory?
  {
    && BothPasses(limits, first, second)
    && AllEncodable(FilesOf(FirstPass(limits, first).value.files, tools), tools.validUTF8)
  }

  lemma RootExistsIff(files: seq<File>, tools: Tools)
    ensures InventoryDigest.RootDigest(files, tools.validUTF8, tools.digest).Some? <==>
      AllEncodable(files, tools.validUTF8)
  {
    InventoryDigest.PathOrder();
    SortedBySorts(files, InventoryDigest.PathLess);
    var ordered := SortedBy(files, InventoryDigest.PathLess);
    SameMembers(ordered, files);
    var cs := Map(ordered, InventoryDigest.CoveredFields);
    if AllEncodable(files, tools.validUTF8) {
      forall i | 0 <= i < |cs| ensures !InventoryDigest.Refused(cs[i], tools.validUTF8) {
        assert ordered[i] in files;
      }
    }
    if InventoryDigest.AllWritable(cs, tools.validUTF8) {
      forall f | f in files ensures !InventoryDigest.Refused(InventoryDigest.CoveredFields(f), tools.validUTF8) {
        var i :| 0 <= i < |ordered| && ordered[i] == f;
        assert cs[i] == InventoryDigest.CoveredFields(f);
      }
    }
  }

  /**
   `Scan` over a pair of readings: the target as the first pass met it and as the second pass meets it. It returns
   the walked records in path order with their root digest, or nothing when a pass fails or a record cannot be
   encoded.
   */
  method Scan(limits: Limits, first: Node, second: Node, tools: Tools) returns (result: Option<Scanned>)
    requires first.Directory? && second.Directory? && Proper(first) && Proper(second)
    ensures result.Some? <==> Completes(limits, first, second, tools)
    ensures result.Some? ==> SortedPermutation(
      FilesOf(FirstPass(limits, first).value.files, tools), result.value.files, InventoryDigest.PathLess)
    ensures result.Some? ==>
      InventoryDigest.RootDigest(result.value.files, tools.validUTF8, tools.digest) == Some(result.value.rootDigest)
  {
    hide WalkDirectory, VerifyDirectory, InventoryDigest.RootDigest, InventoryDigest.Refused, FileOf;
    var walker := new Walker(limits, first.listed);
    var ok := walker.Walk(first, [], 0);
    if !ok || [] !in walker.seen || !Stable(first.listed, first.closed) {
      return None;
    }
    walker.seen := walker.seen[[] := walker.seen[[]].(meta := first.closed)];
    assert FirstPass(limits, first) == Done(walker.Snapshot());
    ok := walker.VerifyTree(second, [], 0);
    if !ok {
      return None;
    }
    var listed := Map(walker.files, r => FileOf(r, tools));
    WalkedPathsUnique(limits, first, tools);
    InventoryDigest.PathOrder();
    var files := SortSlice(listed, InventoryDigest.PathLess);
    InventoryDigest.OrderedPathsStayDistinct(listed, files);
    var root := InventoryDigest.InventoryRootDigest(files, tools.validUTF8, tools.digest);
    RootExistsIff(files, tools);
    SameMembers(listed, files);
    result := if root.Some? then Some(Scanned(files, root.value)) else None;
  }

  // ---------- an unchanged target ----------

  /** The path, the mode and a link's target can be encoded. */
  predicate Encodable(v: Visit, validUTF8: string -> bool) {
    && InventoryDigest.Clean(PathText(v.path), validUTF8) && InventoryDigest.Clean(v.entry.node.listed.mode, validUTF8)
    && (v.entry.node.Symlink? && v.entry.node.target.Some? ==>
          InventoryDigest.Clean(v.entry.node.target.value, validUTF8))
  }

  lemma PrintableIsClean(s: string, validUTF8: string -> bool)
    requires Printable(s) && AsciiIsValid(validUTF8)
    ensures InventoryDigest.Clean(s, validUTF8)
  {
  }

  lemma RecordEncodableIff(r: Record, v: Visit, tools: Tools)
    requires r.(inspection := NotInspected) == RecordFor(v.path, v.entry.node) && AsciiIsValid(tools.validUTF8)
    ensures !InventoryDigest.Refused(InventoryDigest.CoveredFields(FileOf(r, tools)), tools.validUTF8) <==>
      Encodable(v, tools.validUTF8)
  {
    var c := InventoryDigest.CoveredFields(FileOf(r, tools));
    FieldsPrintable(r, tools);
    hide InventoryDigest.Clean, Printable, PathText, KindText, InventoryDigest.Refused, HashText, TypeText;
    PrintableIsClean(c.kind, tools.validUTF8);
    PrintableIsClean(c.sha256, tools.validUTF8);
    PrintableIsClean(c.skipReason, tools.validUTF8);
    PrintableIsClean("", tools.validUTF8);
    RefusedFields(c, tools.validUTF8);
  }

  lemma FieldsPrintable(r: Record, tools: Tools)
    ensures var f := FileOf(r, tools);
      Printable(f.kind) && Printable(f.sha256) && Printable(f.skipReason) && Printable("")
  {
    hide HashText;
    KindPrintable(r.kind);
    HashPrintable(r.inspection, tools.digest);
  }

  lemma KindPrintable(k: Kind)
    ensures Printable(KindText(k))
  {
  }

  lemma HashPrintable(inspection: Inspection, digest: EvidenceGraph.Digest)
    ensures Printable(HashText(inspection, digest))
  {
    if inspection.Source? || inspection.Elf? {
      HexPrintable(digest(Octets(inspection.bytes)));
    }
  }

  lemma HexPrintable(bytes: seq<EvidenceGraph.Octet>)
    ensures Printable(InventoryDigest.LowerHex(bytes))
  {
    var s := InventoryDigest.LowerHex(bytes);
    forall i | 0 <= i < |s| ensures ' ' <= s[i] <= '~' {
      assert s[i] in s;
    }
  }

  lemma RefusedFields(c: InventoryDigest.Covered, validUTF8: string -> bool)
    requires c.size >= 0
    ensures !InventoryDigest.Refused(c, validUTF8) <==>
      && InventoryDigest.Clean(c.path, validUTF8) && InventoryDigest.Clean(c.kind, validUTF8)
      && InventoryDigest.Clean(c.mode, validUTF8) && InventoryDigest.Clean(c.sha256, validUTF8)
      && InventoryDigest.Clean(c.linkTarget, validUTF8) && InventoryDigest.Clean(c.skipReason, validUTF8)
  {
    hide InventoryDigest.Clean;
    var ss := InventoryDigest.Strings(c);
    assert ss == [c.path, c.kind, c.mode, c.sha256, c.linkTarget, c.skipReason];
    assert ss[0] == c.path && ss[1] == c.kind && ss[2] == c.mode;
    assert ss[3] == c.sha256 && ss[4] == c.linkTarget && ss[5] == c.skipReason;
  }

  lemma AllEncodableIff(records: seq<Record>, visits: seq<Visit>, tools: Tools)
    requires Retains([], records, visits) && AsciiIsValid(tools.validUTF8)
    ensures AllEncodable(FilesOf(records, tools), tools.validUTF8) <==>
      forall v <- visits :: Encodable(v, tools.validUTF8)
  {
    hide InventoryDigest.Refused, FileOf, Encodable, Retains;
    RetainsCount(records, visits);
    var files := FilesOf(records, tools);
    forall i | 0 <= i < |records|
      ensures !InventoryDigest.Refused(InventoryDigest.CoveredFields(files[i]), tools.validUTF8) <==>
        Encodable(visits[i], tools.validUTF8)
    {
      RetainedPath(records, visits, i);
      RecordEncodableIff(records[i], visits[i], tools);
    }
    if AllEncodable(files, tools.validUTF8) {
      forall v | v in visits ensures Encodable(v, tools.validUTF8) {
        var i :| 0 <= i < |visits| && visits[i] == v;
        assert files[i] in files;
      }
    }
    if forall v <- visits :: Encodable(v, tools.validUTF8) {
      forall f | f in files ensures !InventoryDigest.Refused(InventoryDigest.CoveredFields(f), tools.validUTF8) {
        var i :| 0 <= i < |files| && files[i] == f;
        assert visits[i] in visits;
      }
    }
  }

  lemma RetainsCount(records: seq<Record>, visits: seq<Visit>)
    requires Retains([], records, visits)
    ensures |records| == |visits|
  {
  }

  /**
   Exactly which unchanged targets are scanned: those whose own listing can be read and at whose entries, as far as
   the limits let the walk come, nothing is missing. The metadata can be read, an inspected file or a directory can
   be opened, a directory within the budgets can be listed, a link can be read, and path and link target encode.
   */
  lemma UnchangedTargetScannedIff(limits: Limits, root: Node, tools: Tools)
    requires Snapshot(root) && AsciiIsValid(tools.validUTF8)
    ensures Completes(limits, root, root, tools) <==>
      && !ListingFails(limits, root, 0, 0)
      && forall v <- Visits(limits, root) :: Passable(v) && Encodable(v, tools.validUTF8)
  {
    hide FirstPass, SecondPass, Visits, Passable, Encodable, Settled, Typed;
    UnchangedTargetAcceptedIff(limits, root);
    if FirstPass(limits, root).Done? {
      FirstPassRetains(limits, root);
      AllEncodableIff(FirstPass(limits, root).value.files, Visits(limits, root), tools);
    }
  }

  const PIPE := Meta(FifoType, "prw-r--r--", 0, 0, 2, 1, 0, 0)

  /** A name that is no UTF-8 is enough to fail a scan whose passes both succeed. */
  lemma UndecodableNameRefused(limits: Limits, name: string, tools: Tools) returns (root: Node)
    requires limits.maxFiles >= 1 && AsciiIsValid(tools.validUTF8) && CleanName(name) && !tools.validUTF8(name)
    ensures Snapshot(root) && BothPasses(limits, root, root) && !Completes(limits, root, root, tools)
  {
    var e := Entry(name, true, Special(PIPE, PIPE));
    root := OneEntry(e);
    ReadableTargetAccepted(limits, root);
    OneEntryIsVisited(limits, e);
    UnchangedTargetScannedIff(limits, root, tools);
  }

  /** And so is a link target that is no UTF-8. */
  lemma UndecodableTargetRefused(limits: Limits, target: string, tools: Tools) returns (root: Node)
    requires limits.maxFiles >= 1 && AsciiIsValid(tools.validUTF8) && !tools.validUTF8(target)
    ensures Snapshot(root) && BothPasses(limits, root, root) && !Completes(limits, root, root, tools)
  {
    var e := Entry("l", true, Symlink(LINK, LINK, Some(target)));
    root := OneEntry(e);
    ReadableTargetAccepted(limits, root);
    OneEntryIsVisited(limits, e);
    UnchangedTargetScannedIff(limits, root, tools);
  }
}

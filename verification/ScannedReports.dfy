/**
 From a scan to a report: the root digest that the scan computes is the one the validator recomputes, whatever the
 analysis adds to the scanned records and in whatever order the report holds them.
 */
module ScannedReports {
  import opened Sorting
  import opened ReportModel
  import opened Inventory
  import opened WalkerClass
  import opened TargetScan
  import opened ReportValidator
  import InventoryDigest

  /** The inventory holds the scanned records, up to order and the fields that the root digest does not cover. */
  ghost predicate Keeps(inventory: seq<File>, scanned: seq<File>) {
    multiset(Map(inventory, InventoryDigest.CoveredFields)) == multiset(Map(scanned, InventoryDigest.CoveredFields))
  }

  /** What a completed scan returns. */
  ghost predicate ScanOf(limits: Limits, first: Node, second: Node, tools: Tools, s: Scanned)
    requires first.Directory? && second.Directory?
  {
    && Completes(limits, first, second, tools)
    && SortedPermutation(FilesOf(FirstPass(limits, first).value.files, tools), s.files, InventoryDigest.PathLess)
    && InventoryDigest.RootDigest(s.files, tools.validUTF8, tools.digest) == Some(s.rootDigest)
  }

  /**
   End to end: whatever report keeps the covered fields of the scanned records passes the root digest check with
   the scanned root, and with no other.
   */
  lemma ScannedRootMatches(
    limits: Limits, first: Node, second: Node, tools: Tools, s: Scanned, r: Report, env: Environment)
    requires first.Directory? && second.Directory? && Proper(first) && ScanOf(limits, first, second, tools, s)
    requires env.digest == tools.digest && env.validUTF8 == tools.validUTF8 && Keeps(r.inventory, s.files)
    ensures RootMatches(r, env) <==> r.target.rootDigest == s.rootDigest
  {
    hide FirstPass, SecondPass, FileOf, InventoryDigest.RootDigest;
    var listed := FilesOf(FirstPass(limits, first).value.files, tools);
    WalkedPathsUnique(limits, first, tools);
    InventoryDigest.OrderedPathsStayDistinct(listed, s.files);
    InventoryDigest.RootDigestIgnoresOrder(s.files, r.inventory, tools.validUTF8, tools.digest);
  }
}

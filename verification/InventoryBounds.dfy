/** How much a walk can retain and read, whatever the target does to it. */
module InventoryBounds {
  import opened Text
  import opened ReportModel
  import opened Inventory
  import opened WalkerClass
  import opened SecondPassTheorems
  import opened SettledTargets
  import opened Reach

  // ---------- the entry bound ----------

  /** The sum over `levels` levels of what is left of the file budget, one less on each level. */
  function Budget(maxFiles: nat, count: nat, levels: nat): nat
    decreases levels
  {
    if levels == 0 then 0 else AtLeastZero(maxFiles - count) + Budget(maxFiles, count + 1, levels - 1)
  }

  lemma {:induction false} BudgetShrinks(maxFiles: nat, count: nat, more: nat, levels: nat)
    ensures Budget(maxFiles, count + more, levels) <= Budget(maxFiles, count, levels)
    decreases levels
  {
    if levels > 0 {
      BudgetShrinks(maxFiles, count + 1, more, levels - 1);
    }
  }

  lemma {:induction false} BudgetSpent(maxFiles: nat, count: nat, levels: nat)
    requires count >= maxFiles
    ensures Budget(maxFiles, count, levels) == 0
    decreases levels
  {
    if levels > 0 {
      BudgetSpent(maxFiles, count + 1, levels - 1);
    }
  }

  /** Spending x of a budget leaves at most the rest of it. */
  lemma BudgetAbsorbs(maxFiles: nat, count: nat, levels: nat, x: nat)
    requires x <= Budget(maxFiles, count, levels)
    ensures x + Budget(maxFiles, count + x, levels) <= Budget(maxFiles, count, levels)
  {
    if levels > 0 {
      if count + x >= maxFiles {
        BudgetSpent(maxFiles, count + x, levels);
      } else {
        BudgetShrinks(maxFiles, count + 1, x, levels - 1);
      }
    }
  }

  function Levels(limits: Limits, depth: nat): nat {
    AtLeastZero(limits.maxDepth + 1 - depth)
  }

  lemma {:induction false} DirectoryVisitsBounded(
    limits: Limits, es: seq<Entry>, path: Path, depth: nat, count: nat)
    requires ProperEntries(es)
    ensures |VisitDirectory(limits, es, path, depth, count)| <= Budget(limits.maxFiles, count, Levels(limits, depth))
    decreases limits.maxDepth + 1 - depth, 1, 0
  {
    if depth <= limits.maxDepth && |es| <= AtLeastZero(limits.maxFiles - count) {
      OrderedMembers(es);
      EntriesVisitsBounded(limits, InNameOrder(es), path, depth, count);
    }
  }

  lemma {:induction false} EntriesVisitsBounded(limits: Limits, es: seq<Entry>, path: Path, depth: nat, count: nat)
    requires depth <= limits.maxDepth && ProperEntries(es)
    ensures |VisitEntries(limits, es, path, depth, count)| <=
      if es == [] then 0 else |es| + Budget(limits.maxFiles, count + 1, Levels(limits, depth + 1))
    decreases limits.maxDepth + 1 - depth, 0, |es|
  {
    hide Budget, AtLeastZero;
    if es != [] {
      var levels := Levels(limits, depth + 1);
      var first := VisitEntry(limits, es[0], path, depth, count);
      if es[0].node.Directory? {
        DirectoryVisitsBounded(limits, es[0].node.entries, path + [es[0].name], depth + 1, count + 1);
      }
      EntriesVisitsBounded(limits, es[1..], path, depth, count + |first|);
      var x := |first| - 1;
      BudgetAbsorbs(limits.maxFiles, count + 1, levels, x);
      BudgetShrinks(limits.maxFiles, count + 1 + x, 1, levels);
    }
  }

  lemma {:induction false} BudgetAtMostProduct(maxFiles: nat, count: nat, levels: nat)
    ensures Budget(maxFiles, count, levels) <= levels * maxFiles
    decreases levels
  {
    if levels > 0 {
      BudgetAtMostProduct(maxFiles, count + 1, levels - 1);
      assert levels * maxFiles == maxFiles + (levels - 1) * maxFiles;
    }
  }

  /**
   A scan never retains more entries than the sum over i = 0..MaxDepth of max(MaxFiles - i, 0): the budget
   counts appended entries only, so pending siblings can push the inventory past MaxFiles itself.
   */
  lemma ScanIsBounded(limits: Limits, root: Node)
    requires root.Directory? && Proper(root) && FirstPass(limits, root).Done?
    ensures |FirstPass(limits, root).value.files| <= Budget(limits.maxFiles, 0, limits.maxDepth + 1)
    ensures |FirstPass(limits, root).value.files| <= (limits.maxDepth + 1) * limits.maxFiles
  {
    FirstPassRetains(limits, root);
    DirectoryVisitsBounded(limits, root.entries, [], 0, 0);
    BudgetAtMostProduct(limits.maxFiles, 0, limits.maxDepth + 1);
  }

  // ---------- names in number order ----------

  function Pow10(n: nat): nat {
    if n == 0 then 1 else 10 * Pow10(n - 1)
  }

  /** How many decimal digits write every number below n. */
  function Width(n: nat): (w: nat)
    ensures w >= 1
  {
    if n <= 10 then 1 else 1 + Width((n + 9) / 10)
  }

  lemma {:induction false} WidthSuffices(n: nat)
    ensures n <= Pow10(Width(n))
  {
    if n > 10 {
      WidthSuffices((n + 9) / 10);
    } else {
      assert Pow10(1) == 10 * Pow10(0);
    }
  }

  /** The last `width` decimal digits of n. */
  function Decimal(n: nat, width: nat): (s: string)
    ensures |s| == width && forall i :: 0 <= i < |s| ==> '0' <= s[i] <= '9'
  {
    if width == 0 then "" else Decimal(n / 10, width - 1) + ['0' + (n % 10) as char]
  }

  lemma {:induction false} LessByPrefix(a: string, b: string, x: char, y: char)
    requires |a| == |b| && (Less(a, b) || (a == b && x < y))
    ensures Less(a + [x], b + [y])
  {
    if a != "" {
      assert (a + [x])[1..] == a[1..] + [x] && (b + [y])[1..] == b[1..] + [y];
      if a[0] == b[0] {
        LessByPrefix(a[1..], b[1..], x, y);
      }
    } else {
      assert a + [x] == [x] && b + [y] == [y];
    }
  }

  lemma {:induction false} DecimalsAscend(m: nat, n: nat, width: nat)
    requires m < n < Pow10(width)
    ensures Less(Decimal(m, width), Decimal(n, width))
    decreases width
  {
    if width > 0 {
      if m / 10 < n / 10 {
        DecimalsAscend(m / 10, n / 10, width - 1);
      }
      var a, b := Decimal(m / 10, width - 1), Decimal(n / 10, width - 1);
      LessByPrefix(a, b, '0' + (m % 10) as char, '0' + (n % 10) as char);
    }
  }

  lemma DecimalIsClean(n: nat, width: nat)
    requires width >= 1
    ensures CleanName(Decimal(n, width))
  {
    var s := Decimal(n, width);
    assert s[0] != '.';
  }

  // ---------- the bound is attained ----------

  const SAMPLE := Meta(SymlinkType, "Lrwxrwxrwx", 0, 0, 0, 1, 0, 0)

  /** One directory on each level, told apart by its inode. */
  function Level(levels: nat): Meta {
    Meta(DirectoryType, "drwxr-xr-x", 0, 0, levels + 1, 3, 0, 0)
  }

  function Settle(m: Meta, es: seq<Entry>): Node {
    Directory(m, m, m, true, true, es)
  }

  function Filler(): Node {
    Symlink(SAMPLE, SAMPLE, Some("target"))
  }

  /** A full directory whose first entry is a full directory one entry smaller, and so on down. */
  function FullTree(width: nat, size: nat, levels: nat): (es: seq<Entry>)
    ensures |es| == size
    ensures forall i :: 0 <= i < size ==> es[i].name == Decimal(i, width) && es[i].stats
    ensures forall i :: 1 <= i < size ==> es[i].node == Filler()
    ensures size > 0 ==> es[0].node == Settle(Level(levels), Inner(width, size, levels))
    decreases levels, 1, size
  {
    seq(size, i requires 0 <= i < size =>
      Entry(Decimal(i, width), true, if i == 0 then Settle(Level(levels), Inner(width, size, levels)) else Filler()))
  }

  function Inner(width: nat, size: nat, levels: nat): seq<Entry>
    requires size > 0
    decreases levels, 0, size
  {
    if levels <= 1 then [] else FullTree(width, size - 1, levels - 1)
  }

  lemma InOrderAlready(es: seq<Entry>)
    requires ProperEntries(es) && forall i, j :: 0 <= i < j < |es| ==> !NameLess(es[j], es[i])
    ensures InNameOrder(es) == es
  {
    NameOrderIsUnique(es, es);
  }

  lemma LessOneWay(a: string, b: string)
    requires Less(a, b)
    ensures a != b && !Less(b, a)
  {
    LessIrreflexive(a);
    if Less(b, a) {
      LessTransitive(a, b, a);
    }
  }

  ghost predicate Good(n: Node) {
    Settled(n) && Typed(n) && Readable(n)
  }

  ghost predicate AllGood(es: seq<Entry>) {
    forall e <- es :: e.stats && Good(e.node)
  }

  lemma FillerIsGood()
    ensures Proper(Filler()) && Good(Filler())
  {
  }

  lemma FolderIsGood(m: Meta, es: seq<Entry>)
    requires m.fileType == DirectoryType && ProperEntries(es) && AllGood(es)
    ensures Proper(Settle(m, es)) && Good(Settle(m, es))
  {
  }

  lemma NumberedInOrder(es: seq<Entry>, width: nat)
    requires width >= 1 && |es| <= Pow10(width)
    requires forall i :: 0 <= i < |es| ==> es[i].name == Decimal(i, width) && Proper(es[i].node)
    ensures ProperEntries(es) && InNameOrder(es) == es
  {
    hide Proper, InNameOrder, Decimal, Less;
    forall i, j | 0 <= i < j < |es| ensures es[i].name != es[j].name && !NameLess(es[j], es[i]) {
      DecimalsAscend(i, j, width);
      LessOneWay(es[i].name, es[j].name);
    }
    forall e | e in es ensures CleanName(e.name) && Proper(e.node) {
      var i :| 0 <= i < |es| && es[i] == e;
      DecimalIsClean(i, width);
    }
    InOrderAlready(es);
  }

  /** Names are distinct and already in order, everything holds still and everything can be read. */
  lemma {:induction false} FullTreeStands(width: nat, size: nat, levels: nat)
    requires width >= 1 && size <= Pow10(width)
    ensures var es := FullTree(width, size, levels); ProperEntries(es) && InNameOrder(es) == es && AllGood(es)
    decreases levels, size
  {
    hide FullTree, Decimal, Good, Proper, InNameOrder, Filler, Pow10;
    var es := FullTree(width, size, levels);
    FillerIsGood();
    if size > 0 {
      if levels > 1 {
        FullTreeStands(width, size - 1, levels - 1);
      }
      FolderIsGood(Level(levels), Inner(width, size, levels));
    }
    forall i | 0 <= i < |es| ensures Proper(es[i].node) && es[i].stats && Good(es[i].node) {
      assert i > 0 ==> es[i].node == Filler();
    }
    NumberedInOrder(es, width);
  }

  lemma GoodIsReadable(es: seq<Entry>)
    requires AllGood(es)
    ensures AllSettled(es) && AllReadable(es)
  {
  }

  lemma {:induction false} FillersCount(limits: Limits, es: seq<Entry>, path: Path, depth: nat, count: nat)
    requires depth <= limits.maxDepth && forall i :: 0 <= i < |es| ==> es[i].node == Filler()
    ensures |VisitEntries(limits, es, path, depth, count)| == |es|
    decreases |es|
  {
    if es != [] {
      FillersCount(limits, es[1..], path, depth, count + 1);
    }
  }

  /** A full directory adds its own entries and what its first one holds. */
  lemma FullFolderCounts(limits: Limits, es: seq<Entry>, path: Path, depth: nat, count: nat)
    requires depth <= limits.maxDepth && 0 < |es| <= limits.maxFiles - count && InNameOrder(es) == es
    requires es[0].node.Directory? && forall i :: 1 <= i < |es| ==> es[i].node == Filler()
    ensures |VisitDirectory(limits, es, path, depth, count)| ==
      |es| + |VisitDirectory(limits, es[0].node.entries, path + [es[0].name], depth + 1, count + 1)|
  {
    var first := VisitEntry(limits, es[0], path, depth, count);
    FillersCount(limits, es[1..], path, depth, count + |first|);
    assert VisitEntries(limits, es, path, depth, count) ==
      first + VisitEntries(limits, es[1..], path, depth, count + |first|);
  }

  lemma NothingToVisit(limits: Limits, path: Path, depth: nat, count: nat)
    ensures VisitDirectory(limits, [], path, depth, count) == []
  {
    assert InNameOrder([]) == [];
  }

  /** Filling from the count of files so far: `size` is what is left of the budget. */
  lemma {:induction false} FullTreeFills(
    limits: Limits, width: nat, size: nat, levels: nat, path: Path, depth: nat, count: nat)
    requires width >= 1 && limits.maxFiles <= Pow10(width)
    requires depth + levels == limits.maxDepth + 1 && count + size == limits.maxFiles && levels > 0
    ensures |VisitDirectory(limits, FullTree(width, size, levels), path, depth, count)| ==
      Budget(limits.maxFiles, count, levels)
    decreases levels
  {
    hide FullTree, Decimal, InNameOrder, VisitDirectory, ProperEntries, Filler;
    var es := FullTree(width, size, levels);
    if size == 0 {
      NothingToVisit(limits, path, depth, count);
      BudgetSpent(limits.maxFiles, count, levels);
    } else {
      FullTreeStands(width, size, levels);
      FullFolderCounts(limits, es, path, depth, count);
      var child := path + [es[0].name];
      if levels == 1 {
        NothingToVisit(limits, child, depth + 1, count + 1);
      } else {
        FullTreeFills(limits, width, size - 1, levels - 1, child, depth + 1, count + 1);
      }
    }
  }

  /** A snapshot of which a whole scan, both passes, retains exactly this many entries. */
  ghost predicate ScanRetains(limits: Limits, root: Node, most: nat) {
    Snapshot(root) && BothPasses(limits, root, root) && |FirstPass(limits, root).value.files| == most
  }

  /** Every name in the tree is at most this long. */
  ghost predicate NamesWithin(es: seq<Entry>, length: nat) {
    forall e <- es :: |e.name| <= length && (e.node.Directory? ==> NamesWithin(e.node.entries, length))
  }

  lemma {:induction false} FullTreeNames(width: nat, size: nat, levels: nat)
    ensures NamesWithin(FullTree(width, size, levels), width)
    decreases levels, size
  {
    var es := FullTree(width, size, levels);
    if size > 0 && levels > 1 {
      FullTreeNames(width, size - 1, levels - 1);
    }
    forall e | e in es ensures |e.name| <= width && (e.node.Directory? ==> NamesWithin(e.node.entries, width)) {
      var i :| 0 <= i < |es| && es[i] == e;
    }
  }

  /**
   The bound is the exact maximum for every choice of limits, so with depth to spare MaxFiles is exceeded. The tree
   needs no longer names than the digits of the file limit.
   */
  lemma BoundIsAttained(limits: Limits) returns (root: Node)
    ensures ScanRetains(limits, root, Budget(limits.maxFiles, 0, limits.maxDepth + 1))
    ensures NamesWithin(root.entries, Width(limits.maxFiles))
    ensures limits.maxDepth >= 1 && limits.maxFiles >= 2 ==>
      Budget(limits.maxFiles, 0, limits.maxDepth + 1) > limits.maxFiles
  {
    var width, levels := Width(limits.maxFiles), limits.maxDepth + 1;
    WidthSuffices(limits.maxFiles);
    FullTreeStands(width, limits.maxFiles, levels);
    FullTreeNames(width, limits.maxFiles, levels);
    GoodIsReadable(FullTree(width, limits.maxFiles, levels));
    root := Settle(Level(levels + 1), FullTree(width, limits.maxFiles, levels));
    FullTreeFills(limits, width, limits.maxFiles, levels, [], 0, 0);
    ReadableTargetAccepted(limits, root);
    FirstPassRetains(limits, root);
    BudgetExceedsFiles(limits.maxFiles, limits.maxDepth);
  }

  /** Four digits name ten thousand entries. */
  lemma ProductionNamesAreShort()
    ensures Width(10_000) == 4
  {
    assert Width(10) == 1 && Width(100) == 2 && Width(1_000) == 3;
  }

  lemma BudgetExceedsFiles(maxFiles: nat, depth: nat)
    ensures depth >= 1 && maxFiles >= 2 ==> Budget(maxFiles, 0, depth + 1) > maxFiles
  {
    if depth >= 1 && maxFiles >= 2 {
      assert Budget(maxFiles, 1, depth) >= maxFiles - 1;
    }
  }
}

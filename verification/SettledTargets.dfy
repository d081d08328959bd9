/**
 What a scan guarantees on a target that holds still: it completes, its second pass fails on exactly the
 links it could not read, and its byte counters are the sizes of what it retained.
 */
module SettledTargets {
  import opened ReportModel
  import opened Inventory
  import opened WalkerClass
  import opened SecondPassTheorems
  import opened WalkedRecords
  import opened Reach

  // ---------- invariants of walks ----------

  /** An invariant of walks over nodes that satisfy `ok` at their paths. */
  ghost predicate Kept(limits: Limits, ok: (Path, Node) -> bool, inv: State -> bool) {
    && (forall p, n, e :: ok(p, n) && n.Directory? && e in n.entries ==> ok(p + [e.name], e.node))
    && (forall p, n, st ::
      ok(p, n) && !n.Directory? && inv(st) && WalkLeaf(limits, n, p, st).Done? ==>
        inv(WalkLeaf(limits, n, p, st).value))
    && (forall st, p, o :: inv(st) ==> inv(Observe(st, p, o)))
    && (forall st, c, p :: inv(st) ==> inv(NoteLimit(st, c, p)))
    && (forall p, n, st :: ok(p, n) && n.Directory? && inv(st) ==> inv(Append(st, RecordFor(p, n))))
  }

  ghost predicate AllOk(ok: (Path, Node) -> bool, path: Path, es: seq<Entry>) {
    forall e <- es :: ok(path + [e.name], e.node)
  }

  lemma {:induction false} WalkKeeps(
    limits: Limits, ok: (Path, Node) -> bool, inv: State -> bool, es: seq<Entry>, path: Path, depth: nat, st: State)
    requires Kept(limits, ok, inv) && path in st.seen && inv(st) && ProperEntries(es) && AllOk(ok, path, es)
    ensures WalkDirectory(limits, es, path, depth, st).Done? ==> inv(WalkDirectory(limits, es, path, depth, st).value)
    decreases limits.maxDepth + 1 - depth, 1, 0
  {
    if depth <= limits.maxDepth && Fits(limits, es, st) {
      OrderedMembers(es);
      OwnKeyStays(limits, es, path, depth, st);
      WalkEntriesKeeps(limits, ok, inv, InNameOrder(es), path, depth, Opened(limits, es, path, st));
    }
  }

  lemma {:induction false} WalkEntriesKeeps(
    limits: Limits, ok: (Path, Node) -> bool, inv: State -> bool, es: seq<Entry>, path: Path, depth: nat, st: State)
    requires Kept(limits, ok, inv) && depth <= limits.maxDepth && inv(st) && ProperEntries(es) && AllOk(ok, path, es)
    ensures WalkEntries(limits, es, path, depth, st).Done? ==> inv(WalkEntries(limits, es, path, depth, st).value)
    decreases limits.maxDepth + 1 - depth, 0, |es|
  {
    if es != [] {
      var first := WalkEntry(limits, es[0], path, depth, st);
      var child := path + [es[0].name];
      if es[0].node.Directory? {
        WalkKeeps(limits, ok, inv, es[0].node.entries, child, depth + 1, Entered(st, es[0], child));
      }
      if first.Done? {
        WalkEntriesKeeps(limits, ok, inv, es[1..], path, depth, first.value);
      }
    }
  }

  lemma FirstPassKeeps(limits: Limits, ok: (Path, Node) -> bool, inv: State -> bool, root: Node)
    requires root.Directory? && Proper(root) && Kept(limits, ok, inv) && AllOk(ok, [], root.entries) && inv(Start(root))
    ensures FirstPass(limits, root).Done? ==> inv(FirstPass(limits, root).value)
  {
    WalkKeeps(limits, ok, inv, root.entries, [], 0, Start(root));
  }

  // ---------- what ends the walk of a settled target ----------

  ghost predicate AllSettled(es: seq<Entry>) {
    forall e <- es :: Settled(e.node) && Typed(e.node)
  }

  lemma SettledOrder(es: seq<Entry>)
    requires ProperEntries(es) && AllSettled(es)
    ensures ProperEntries(InNameOrder(es)) && AllSettled(InNameOrder(es))
  {
    OrderedMembers(es);
  }

  lemma {:induction false} SettledDirectoryDone(limits: Limits, es: seq<Entry>, path: Path, depth: nat, st: State)
    requires path in st.seen && ProperEntries(es) && AllSettled(es)
    ensures WalkDirectory(limits, es, path, depth, st).Done? <==>
      AllEnter(VisitDirectory(limits, es, path, depth, |st.files|))
    decreases limits.maxDepth + 1 - depth, 1, 0
  {
    if depth <= limits.maxDepth && Fits(limits, es, st) {
      SettledOrder(es);
      OwnKeyStays(limits, es, path, depth, st);
      SettledEntriesDone(limits, InNameOrder(es), path, depth, Opened(limits, es, path, st));
    }
  }

  lemma NoneEnter()
    ensures AllEnter([]) && !SomeUnread([])
  {
  }

  lemma {:induction false} SettledEntriesDone(limits: Limits, es: seq<Entry>, path: Path, depth: nat, st: State)
    requires depth <= limits.maxDepth && ProperEntries(es) && AllSettled(es)
    ensures WalkEntries(limits, es, path, depth, st).Done? <==>
      AllEnter(VisitEntries(limits, es, path, depth, |st.files|))
    decreases limits.maxDepth + 1 - depth, 0, |es|
  {
    hide VisitEntry, WalkEntry, AllEnter, Settled, Typed, Proper;
    if es == [] {
      NoneEnter();
    } else {
      var v := VisitEntry(limits, es[0], path, depth, |st.files|);
      AllEnterSplits(v, VisitEntries(limits, es[1..], path, depth, |st.files| + |v|));
      SettledEntryDone(limits, es[0], path, depth, st);
      if WalkEntry(limits, es[0], path, depth, st).Done? {
        EntryRetained(limits, es[0], path, depth, st);
        SettledEntriesDone(limits, es[1..], path, depth, WalkEntry(limits, es[0], path, depth, st).value);
      }
    }
  }

  lemma {:induction false} SettledEntryDone(limits: Limits, e: Entry, path: Path, depth: nat, st: State)
    requires depth <= limits.maxDepth && Proper(e.node) && Settled(e.node) && Typed(e.node)
    ensures WalkEntry(limits, e, path, depth, st).Done? <==>
      AllEnter(VisitEntry(limits, e, path, depth, |st.files|))
    decreases limits.maxDepth + 1 - depth, 0, 0
  {
    var child := path + [e.name];
    var own := Visit(child, e, Lists(limits, e.node, depth + 1, |st.files| + 1));
    assert AllEnter([own]) <==> Enters(own);
    if e.node.Directory? {
      var entered := Entered(st, e, child);
      AllEnterSplits([own], VisitDirectory(limits, e.node.entries, child, depth + 1, |st.files| + 1));
      SettledDirectoryDone(limits, e.node.entries, child, depth + 1, entered);
      DirectoryFrame(limits, e.node.entries, child, depth + 1, entered);
      StableIsEqual(e.node.pinned, e.node.closed);
    } else {
      SettledLeafDone(limits, e.node, child, st);
    }
  }

  // ---------- the second pass fails on unread links only ----------

  /** Some link so far could not be read. */
  ghost predicate LinkUnread(st: State) {
    exists n <- st.errors :: n.code == ReadlinkError
  }

  lemma LeafUnread(limits: Limits, node: Node, path: Path, st: State)
    requires !node.Directory? && WalkLeaf(limits, node, path, st).Done?
    ensures LinkUnread(WalkLeaf(limits, node, path, st).value) <==>
      LinkUnread(st) || (node.Symlink? && node.target.None?)
  {
    var after := WalkLeaf(limits, node, path, st).value;
    assert after.errors == st.errors || (|after.errors| == |st.errors| + 1 && after.errors[..|st.errors|] == st.errors);
    if |after.errors| > |st.errors| {
      var n := after.errors[|st.errors|];
      assert after.errors == st.errors + [n];
      assert n.code == ReadlinkError <==> node.Symlink? && node.target.None?;
      assert n in after.errors;
    }
  }

  lemma VerifiedLeaf(limits: Limits, final: Seen, e: Entry, path: Path, depth: nat, st: State)
    requires depth <= limits.maxDepth && !e.node.Directory? && Settled(e.node)
    requires WalkEntry(limits, e, path, depth, st).Done?
    requires AgreeUnder(final, WalkEntry(limits, e, path, depth, st).value.seen, path + [e.name])
    ensures VerifyEntry(limits, final, e, path, depth) <==> !(e.node.Symlink? && e.node.target.None?)
  {
    var child := path + [e.name];
    LeafEffect(limits, e.node, child, st);
    assert Under(child, child) && SameAt(final, WalkEntry(limits, e, path, depth, st).value.seen, child);
    StableIsEqual(final[child].meta, e.node.listed);
  }

  lemma {:induction false} EntryVerified(limits: Limits, final: Seen, e: Entry, path: Path, depth: nat, st: State)
    requires depth <= limits.maxDepth && Proper(e.node) && Settled(e.node) && Typed(e.node)
    requires NothingUnder(st.seen, path + [e.name]) && WalkEntry(limits, e, path, depth, st).Done?
    requires AgreeUnder(final, WalkEntry(limits, e, path, depth, st).value.seen, path + [e.name])
    ensures LinkUnread(WalkEntry(limits, e, path, depth, st).value) <==>
      LinkUnread(st) || !VerifyEntry(limits, final, e, path, depth)
    decreases limits.maxDepth + 1 - depth, 0, 0
  {
    var child := path + [e.name];
    if !e.node.Directory? {
      LeafUnread(limits, e.node, child, st);
      VerifiedLeaf(limits, final, e, path, depth, st);
    } else {
      var entered := Entered(st, e, child);
      var walked := WalkDirectory(limits, e.node.entries, child, depth + 1, entered).value;
      var after := WalkEntry(limits, e, path, depth, st).value;
      assert Under(child, child) && SameAt(final, after.seen, child);
      forall k | Under(child, k) && k != child ensures SameAt(final, walked.seen, k) {
        assert SameAt(final, after.seen, k);
      }
      StableIsEqual(final[child].meta, e.node.listed);
      DirectoryVerified(limits, final, e.node, child, depth + 1, entered);
      assert after.errors == walked.errors && entered.errors == st.errors;
    }
  }

  lemma {:induction false} EntriesVerified(
    limits: Limits, final: Seen, es: seq<Entry>, path: Path, depth: nat, st: State)
    requires depth <= limits.maxDepth && ProperEntries(es) && AllSettled(es)
    requires NothingUnderAll(st.seen, path, es) && WalkEntries(limits, es, path, depth, st).Done?
    requires AgreeUnderAll(final, WalkEntries(limits, es, path, depth, st).value.seen, path, es)
    ensures LinkUnread(WalkEntries(limits, es, path, depth, st).value) <==>
      LinkUnread(st) || !VerifyEntries(limits, final, es, path, depth)
    decreases limits.maxDepth + 1 - depth, 0, |es|
  {
    if es != [] {
      var first := WalkEntry(limits, es[0], path, depth, st).value;
      var last := WalkEntries(limits, es, path, depth, st).value;
      AgreeTail(final, last.seen, path, es);
      FirstIsFinal(limits, final, es, path, depth, first, last);
      assert NothingUnder(st.seen, path + [es[0].name]);
      EntryVerified(limits, final, es[0], path, depth, st);
      AfterFirst(limits, es, path, depth, st);
      EntriesVerified(limits, final, es[1..], path, depth, first);
    }
  }

  lemma {:induction false} DirectoryVerified(limits: Limits, final: Seen, node: Node, path: Path, depth: nat, st: State)
    requires node.Directory? && Proper(node) && Settled(node) && Typed(node)
    requires path in st.seen && NothingBelow(st.seen, path) && !ListingFails(limits, node, depth, |st.files|)
    requires WalkDirectory(limits, node.entries, path, depth, st).Done?
    requires var walked := WalkDirectory(limits, node.entries, path, depth, st).value;
      path in walked.seen && path in final && final[path] == walked.seen[path].(meta := node.listed)
        && AgreeBelow(final, walked.seen, path)
    requires st.seen[path] == Listed(node.listed)
    ensures LinkUnread(WalkDirectory(limits, node.entries, path, depth, st).value) <==>
      LinkUnread(st) || !VerifyDirectory(limits, final, node, path, depth)
    decreases limits.maxDepth + 1 - depth, 1, 0
  {
    StableIsEqual(final[path].meta, node.pinned);
    if depth <= limits.maxDepth && Fits(limits, node.entries, st) {
      var ordered := InNameOrder(node.entries);
      var inside := Opened(limits, node.entries, path, st);
      SettledOrder(node.entries);
      OwnKeyStays(limits, node.entries, path, depth, st);
      OpenedHasNothing(limits, node.entries, path, st, ordered);
      BelowIsUnderAll(final, WalkDirectory(limits, node.entries, path, depth, st).value.seen, path, ordered);
      EntriesVerified(limits, final, ordered, path, depth, inside);
      assert inside.errors == st.errors;
    }
  }

  // ---------- unread links among the visits ----------

  lemma {:induction false} EntryUnread(limits: Limits, e: Entry, path: Path, depth: nat, st: State)
    requires depth <= limits.maxDepth && WalkEntry(limits, e, path, depth, st).Done?
    ensures LinkUnread(WalkEntry(limits, e, path, depth, st).value) <==>
      LinkUnread(st) || SomeUnread(VisitEntry(limits, e, path, depth, |st.files|))
    decreases limits.maxDepth + 1 - depth, 0, 0
  {
    var child := path + [e.name];
    var own := Visit(child, e, Lists(limits, e.node, depth + 1, |st.files| + 1));
    assert SomeUnread([own]) <==> UnreadLink(own) by { assert own in [own]; }
    if e.node.Directory? {
      var entered := Entered(st, e, child);
      SomeUnreadSplits([own], VisitDirectory(limits, e.node.entries, child, depth + 1, |st.files| + 1));
      DirectoryUnread(limits, e.node.entries, child, depth + 1, entered);
      assert entered.errors == st.errors;
      assert WalkEntry(limits, e, path, depth, st).value.errors ==
        WalkDirectory(limits, e.node.entries, child, depth + 1, entered).value.errors;
    } else {
      LeafUnread(limits, e.node, child, st);
    }
  }

  lemma {:induction false} EntriesUnread(limits: Limits, es: seq<Entry>, path: Path, depth: nat, st: State)
    requires depth <= limits.maxDepth && WalkEntries(limits, es, path, depth, st).Done?
    ensures LinkUnread(WalkEntries(limits, es, path, depth, st).value) <==>
      LinkUnread(st) || SomeUnread(VisitEntries(limits, es, path, depth, |st.files|))
    decreases limits.maxDepth + 1 - depth, 0, |es|
  {
    hide VisitEntry, WalkEntry, SomeUnread, LinkUnread;
    if es == [] {
      NoneEnter();
    } else {
      var v := VisitEntry(limits, es[0], path, depth, |st.files|);
      SomeUnreadSplits(v, VisitEntries(limits, es[1..], path, depth, |st.files| + |v|));
      EntryUnread(limits, es[0], path, depth, st);
      EntryRetained(limits, es[0], path, depth, st);
      EntriesUnread(limits, es[1..], path, depth, WalkEntry(limits, es[0], path, depth, st).value);
    }
  }

  lemma {:induction false} DirectoryUnread(limits: Limits, es: seq<Entry>, path: Path, depth: nat, st: State)
    requires path in st.seen && WalkDirectory(limits, es, path, depth, st).Done?
    ensures LinkUnread(WalkDirectory(limits, es, path, depth, st).value) <==>
      LinkUnread(st) || SomeUnread(VisitDirectory(limits, es, path, depth, |st.files|))
    decreases limits.maxDepth + 1 - depth, 1, 0
  {
    if depth <= limits.maxDepth && Fits(limits, es, st) {
      OwnKeyStays(limits, es, path, depth, st);
      EntriesUnread(limits, InNameOrder(es), path, depth, Opened(limits, es, path, st));
    }
  }

  /** On any target a completed first pass notes an unread link exactly when it came to a link it could not read. */
  lemma UnreadIffVisited(limits: Limits, root: Node)
    requires root.Directory? && FirstPass(limits, root).Done?
    ensures LinkUnread(FirstPass(limits, root).value) <==> SomeUnread(Visits(limits, root))
  {
    DirectoryUnread(limits, root.entries, [], 0, Start(root));
  }

  // ---------- when an unchanged target is accepted ----------

  lemma UnchangedTargetVerified(limits: Limits, root: Node)
    requires root.Directory? && Proper(root) && Settled(root) && Typed(root) && FirstPass(limits, root).Done?
    ensures SecondPass(limits, FirstPass(limits, root).value.seen, root) <==> !LinkUnread(FirstPass(limits, root).value)
  {
    var st := Start(root);
    DirectoryFrame(limits, root.entries, [], 0, st);
    StableIsEqual(root.listed, root.closed);
    var walked := WalkDirectory(limits, root.entries, [], 0, st).value;
    var final := FirstPass(limits, root).value.seen;
    forall k | k != [] ensures SameAt(final, walked.seen, k) {
    }
    DirectoryVerified(limits, final, root, [], 0, st);
  }

  /** An entry at which nothing stops a scan of an unchanged target. */
  predicate Passable(v: Visit) {
    Enters(v) && !UnreadLink(v)
  }

  predicate AllPassable(visits: seq<Visit>) {
    forall v <- visits :: Passable(v)
  }

  ghost predicate BothPasses(limits: Limits, first: Node, second: Node)
    requires first.Directory? && second.Directory?
  {
    FirstPass(limits, first).Done? && SecondPass(limits, FirstPass(limits, first).value.seen, second)
  }

  /**
   A snapshot goes through both passes exactly when its own listing can be read and nothing stops the scan at any
   entry the walk comes to: its metadata can be read, an inspected file or a directory can be opened, a directory
   within the budgets can be listed to the end, a link can be read.
   */
  lemma UnchangedTargetAcceptedIff(limits: Limits, root: Node)
    requires root.Directory? && Proper(root) && Settled(root) && Typed(root)
    ensures BothPasses(limits, root, root) <==>
      !ListingFails(limits, root, 0, 0) && AllPassable(Visits(limits, root))
  {
    var st := Start(root);
    SettledDirectoryDone(limits, root.entries, [], 0, st);
    DirectoryFrame(limits, root.entries, [], 0, st);
    StableIsEqual(root.listed, root.closed);
    if FirstPass(limits, root).Done? {
      UnchangedTargetVerified(limits, root);
      UnreadIffVisited(limits, root);
    }
  }

  // ---------- a tree with full access ----------

  /** Everything in the tree can be read. */
  ghost predicate Readable(node: Node) {
    match node
    case Regular(_, _, _, content) => content.opens
    case Symlink(_, _, target) => target.Some?
    case Directory(_, _, _, opens, complete, es) => opens && complete && forall e <- es :: e.stats && Readable(e.node)
    case Special(_, _) => true
  }

  ghost predicate AllReadable(es: seq<Entry>) {
    forall e <- es :: e.stats && Readable(e.node)
  }

  lemma PassableSplits(v: seq<Visit>, w: seq<Visit>)
    ensures AllPassable(v + w) <==> AllPassable(v) && AllPassable(w)
  {
    assert forall x :: x in v + w <==> x in v || x in w;
  }

  lemma {:induction false} ReadableDirectory(limits: Limits, es: seq<Entry>, path: Path, depth: nat, count: nat)
    requires ProperEntries(es) && AllReadable(es)
    ensures AllPassable(VisitDirectory(limits, es, path, depth, count))
    decreases limits.maxDepth + 1 - depth, 1, 0
  {
    if depth <= limits.maxDepth && |es| <= AtLeastZero(limits.maxFiles - count) {
      OrderedMembers(es);
      ReadableEntries(limits, InNameOrder(es), path, depth, count);
    }
  }

  lemma {:induction false} ReadableEntries(limits: Limits, es: seq<Entry>, path: Path, depth: nat, count: nat)
    requires depth <= limits.maxDepth && ProperEntries(es) && AllReadable(es)
    ensures AllPassable(VisitEntries(limits, es, path, depth, count))
    decreases limits.maxDepth + 1 - depth, 0, |es|
  {
    if es != [] {
      var child := path + [es[0].name];
      var own := Visit(child, es[0], Lists(limits, es[0].node, depth + 1, count + 1));
      assert AllPassable([own]) <==> Passable(own);
      if es[0].node.Directory? {
        ReadableDirectory(limits, es[0].node.entries, child, depth + 1, count + 1);
        PassableSplits([own], VisitDirectory(limits, es[0].node.entries, child, depth + 1, count + 1));
      }
      var v := VisitEntry(limits, es[0], path, depth, count);
      ReadableEntries(limits, es[1..], path, depth, count + |v|);
      PassableSplits(v, VisitEntries(limits, es[1..], path, depth, count + |v|));
    }
  }

  lemma ReadableTargetAccepted(limits: Limits, root: Node)
    requires root.Directory? && Proper(root) && Settled(root) && Typed(root) && Readable(root)
    ensures BothPasses(limits, root, root) && AllPassable(Visits(limits, root))
  {
    UnchangedTargetAcceptedIff(limits, root);
    ReadableDirectory(limits, root.entries, [], 0, 0);
  }

  // ---------- each cause of refusal ----------

  function OneEntry(e: Entry): Node {
    Directory(TOP, TOP, TOP, true, true, [e])
  }

  ghost predicate Snapshot(root: Node) {
    root.Directory? && Proper(root) && Settled(root) && Typed(root)
  }

  lemma OneEntryIsVisited(limits: Limits, e: Entry)
    requires limits.maxFiles >= 1
    ensures Visit([e.name], e, Lists(limits, e.node, 1, 1)) in Visits(limits, OneEntry(e))
  {
    OneEntryOrder(e);
    assert [] + [e.name] == [e.name];
    var v := VisitEntry(limits, e, [], 0, 0);
    assert v[0] == Visit([e.name], e, Lists(limits, e.node, 1, 1));
    assert VisitEntries(limits, [e], [], 0, 0)[0] == v[0];
  }

  /** One entry that stops the scan is enough, in a snapshot that never changes. */
  lemma OneBadEntryRefused(limits: Limits, e: Entry)
    requires limits.maxFiles >= 1 && CleanName(e.name) && Proper(e.node) && Settled(e.node) && Typed(e.node)
    requires !Passable(Visit([e.name], e, Lists(limits, e.node, 1, 1)))
    ensures Snapshot(OneEntry(e)) && !BothPasses(limits, OneEntry(e), OneEntry(e))
  {
    OneEntryIsVisited(limits, e);
    UnchangedTargetAcceptedIff(limits, OneEntry(e));
  }

  const PLAIN := Meta(RegularType, "-rw-r--r--", 0, 0, 2, 1, 0, 0)
  const LINK := Meta(SymlinkType, "Lrwxrwxrwx", 0, 0, 2, 1, 0, 0)

  ghost predicate Refused(limits: Limits, root: Node) {
    Snapshot(root) && !BothPasses(limits, root, root)
  }

  /** A link that cannot be read. */
  lemma UnreadableLinkRefused(limits: Limits) returns (e: Entry)
    requires limits.maxFiles >= 1
    ensures e.stats && e.node.Symlink? && Refused(limits, OneEntry(e))
  {
    e := Entry("l", true, Symlink(LINK, LINK, None));
    OneBadEntryRefused(limits, e);
  }

  /** A regular file that cannot be opened, such as one without read permission. */
  lemma UnopenableFileRefused(limits: Limits) returns (e: Entry)
    requires limits.maxFiles >= 1
    ensures e.stats && e.node.Regular? && Refused(limits, OneEntry(e))
  {
    e := Entry("f", true, Regular(PLAIN, PLAIN, PLAIN, Content([], false, true, true, true)));
    OneBadEntryRefused(limits, e);
  }

  /** A directory that cannot be opened, even when the walk would not list it. */
  lemma UnopenableDirectoryRefused(limits: Limits) returns (e: Entry)
    requires limits.maxFiles >= 1
    ensures e.stats && e.node.Directory? && !e.node.opens && e.node.complete && Refused(limits, OneEntry(e))
  {
    e := Entry("d", true, Directory(AFTER, AFTER, AFTER, false, true, []));
    OneBadEntryRefused(limits, e);
  }

  /** A directory whose listing fails, exactly when the depth allows listing it. */
  lemma UnlistableDirectoryRefused(limits: Limits) returns (e: Entry)
    requires limits.maxFiles >= 1 && limits.maxDepth >= 1
    ensures e.stats && e.node.Directory? && e.node.opens && !e.node.complete && Refused(limits, OneEntry(e))
  {
    e := Entry("d", true, Directory(AFTER, AFTER, AFTER, true, false, []));
    OneBadEntryRefused(limits, e);
  }

  /** A name whose metadata cannot be read. */
  lemma UnstatableEntryRefused(limits: Limits) returns (e: Entry)
    requires limits.maxFiles >= 1
    ensures !e.stats && Refused(limits, OneEntry(e))
  {
    e := Entry("f", false, Regular(PLAIN, PLAIN, PLAIN, Content([], true, true, true, true)));
    OneBadEntryRefused(limits, e);
  }

  // ---------- byte conservation ----------

  function SourceBytes(files: seq<Record>): nat {
    if files == [] then 0
    else SourceBytes(files[..|files| - 1]) + match files[|files| - 1].inspection case Source(b) => |b| case _ => 0
  }

  function ElfBytes(files: seq<Record>): nat {
    if files == [] then 0
    else ElfBytes(files[..|files| - 1]) + match files[|files| - 1].inspection case Elf(b) => |b| case _ => 0
  }

  lemma SumsAppend(files: seq<Record>, f: Record)
    ensures SourceBytes(files + [f]) == SourceBytes(files) + match f.inspection case Source(b) => |b| case _ => 0
    ensures ElfBytes(files + [f]) == ElfBytes(files) + match f.inspection case Elf(b) => |b| case _ => 0
  {
    assert (files + [f])[..|files|] == files;
  }

  /** The counters are the bytes retained, and reading stops within one file of the source budget. */
  ghost predicate Counted(limits: Limits, st: State) {
    && st.readBytes == SourceBytes(st.files) && st.readBytes <= limits.maxReadBytes + limits.maxFileBytes
    && st.binaryBytes == ElfBytes(st.files) && st.binaryBytes <= limits.maxBinaryReadBytes
  }

  /** On a target that holds still each inspected file also has the size recorded for it. */
  ghost predicate CountedExactly(limits: Limits, st: State) {
    && Counted(limits, st) && st.readBytes <= limits.maxReadBytes
    && forall f <- st.files ::
       match f.inspection case Source(b) => |b| == f.size case Elf(b) => |b| == f.size case _ => true
  }

  lemma InspectCounts(limits: Limits, node: Node, file: Record, st: State)
    requires node.Regular? && InspectRegular(limits, node, file, st).Done? && Counted(limits, st)
    requires file.inspection == NotInspected && file.size == node.listed.size
    ensures var (after, out) := InspectRegular(limits, node, file, st).value; Counted(limits, Append(after, out))
    ensures var (after, out) := InspectRegular(limits, node, file, st).value;
      Settled(node) && CountedExactly(limits, st) ==> CountedExactly(limits, Append(after, out))
  {
    hide SourceBytes, ElfBytes, ElfHeader;
    var (after, out) := InspectRegular(limits, node, file, st).value;
    SumsAppend(st.files, out);
    assert after.files == st.files;
  }

  /** A record without content leaves both sums alone. */
  lemma PlainCounts(limits: Limits, st: State, file: Record)
    requires !file.inspection.Source? && !file.inspection.Elf?
    ensures Counted(limits, st) ==> Counted(limits, Append(st, file))
    ensures CountedExactly(limits, st) ==> CountedExactly(limits, Append(st, file))
  {
    SumsAppend(st.files, file);
  }

  /** Counting looks at the retained files and the two counters only. */
  lemma CountsAside(limits: Limits, a: State, b: State)
    requires a.files == b.files && a.readBytes == b.readBytes && a.binaryBytes == b.binaryBytes
    ensures Counted(limits, a) == Counted(limits, b) && CountedExactly(limits, a) == CountedExactly(limits, b)
  {
  }

  lemma LeafCounts(limits: Limits, node: Node, path: Path, st: State)
    requires !node.Directory? && WalkLeaf(limits, node, path, st).Done? && Counted(limits, st)
    ensures Counted(limits, WalkLeaf(limits, node, path, st).value)
    ensures Settled(node) && CountedExactly(limits, st) ==>
      CountedExactly(limits, WalkLeaf(limits, node, path, st).value)
  {
    var seen := Observe(st, path, Listed(node.listed));
    var file := RecordFor(path, node);
    CountsAside(limits, st, seen);
    if node.Regular? && !GitDatabasePath(path) {
      InspectCounts(limits, node, file, seen);
    } else {
      var kept := if node.Regular? then file.(inspection := SkippedGit) else file;
      PlainCounts(limits, st, kept);
      CountsAside(limits, Append(st, kept), WalkLeaf(limits, node, path, st).value);
    }
  }

  lemma RecordCounts(limits: Limits, path: Path, node: Node, st: State)
    ensures Counted(limits, st) ==> Counted(limits, Append(st, RecordFor(path, node)))
    ensures CountedExactly(limits, st) ==> CountedExactly(limits, Append(st, RecordFor(path, node)))
  {
    PlainCounts(limits, st, RecordFor(path, node));
  }

  /**
   Whatever the target does under the walker, both counters are the bytes retained, the binary budget is never
   passed and the source budget by less than one more file.
   */
  lemma ScanCountsItsBytes(limits: Limits, root: Node)
    requires root.Directory? && Proper(root) && FirstPass(limits, root).Done?
    ensures Counted(limits, FirstPass(limits, root).value)
  {
    var ok := (p: Path, n: Node) => true;
    var inv := (st: State) => Counted(limits, st);
    forall p, n: Node, st | !n.Directory? && inv(st) && WalkLeaf(limits, n, p, st).Done?
      ensures inv(WalkLeaf(limits, n, p, st).value)
    {
      LeafCounts(limits, n, p, st);
    }
    forall st, p, n | inv(st) ensures inv(Append(st, RecordFor(p, n))) {
      RecordCounts(limits, p, n, st);
    }
    FirstPassKeeps(limits, ok, inv, root);
  }

  /** On a target that holds still the counters are the summed sizes of the inspected records, within both budgets. */
  lemma SettledScanConservesBytes(limits: Limits, root: Node)
    requires root.Directory? && Proper(root) && Settled(root) && FirstPass(limits, root).Done?
    ensures CountedExactly(limits, FirstPass(limits, root).value)
  {
    var ok := (p: Path, n: Node) => Settled(n);
    var inv := (st: State) => CountedExactly(limits, st);
    forall p, n: Node, st | ok(p, n) && !n.Directory? && inv(st) && WalkLeaf(limits, n, p, st).Done?
      ensures inv(WalkLeaf(limits, n, p, st).value)
    {
      LeafCounts(limits, n, p, st);
    }
    forall st, p, n | inv(st) ensures inv(Append(st, RecordFor(p, n))) {
      RecordCounts(limits, p, n, st);
    }
    FirstPassKeeps(limits, ok, inv, root);
  }
}

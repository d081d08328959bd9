/**
 Every retained record is of a node of the walked tree: where that node is, what the record took from it, and
 what was observed of it last. This decides exactly which listings a second walk reproduces.
 */
module WalkedRecords {
  import opened Sorting
  import opened ReportModel
  import opened Inventory
  import opened WalkerClass
  import opened SecondPassTheorems

  // ---------- nodes by path ----------

  function Named(es: seq<Entry>, name: string): Option<Node> {
    if es == [] then None else if es[0].name == name then Some(es[0].node) else Named(es[1..], name)
  }

  /** The node below a directory with these entries that this relative path leads to. */
  function NodeAt(es: seq<Entry>, rel: Path): Option<Node>
    decreases |rel|
  {
    if rel == [] then None
    else
      var first := Named(es, rel[0]);
      if |rel| == 1 || first.None? then first
      else if first.value.Directory? then NodeAt(first.value.entries, rel[1..]) else None
  }

  lemma {:induction false} NamedFinds(es: seq<Entry>, e: Entry)
    requires ProperEntries(es) && e in es
    ensures Named(es, e.name) == Some(e.node)
  {
    if es[0] != e {
      assert es[0].name != e.name by {
        var i :| 0 <= i < |es| && es[i] == e;
      }
      NamedFinds(es[1..], e);
    }
  }

  /** One step further down. */
  lemma {:induction false} NodeAtChild(es: seq<Entry>, rel: Path, e: Entry)
    requires rel != [] && NodeAt(es, rel).Some? && NodeAt(es, rel).value.Directory?
    requires ProperEntries(NodeAt(es, rel).value.entries) && e in NodeAt(es, rel).value.entries
    ensures NodeAt(es, rel + [e.name]) == Some(e.node)
    decreases |rel|
  {
    var first := Named(es, rel[0]).value;
    assert (rel + [e.name])[0] == rel[0] && (rel + [e.name])[1..] == rel[1..] + [e.name];
    if |rel| == 1 {
      NamedFinds(first.entries, e);
    } else {
      NodeAtChild(first.entries, rel[1..], e);
    }
  }

  /** The entries listed at a path are the nodes that paths through it lead to. */
  ghost predicate Rooted(top: seq<Entry>, path: Path, es: seq<Entry>) {
    forall e <- es :: NodeAt(top, path + [e.name]) == Some(e.node)
  }

  lemma RootedTop(top: seq<Entry>)
    requires ProperEntries(top)
    ensures Rooted(top, [], top)
  {
    forall e | e in top ensures NodeAt(top, [] + [e.name]) == Some(e.node) {
      NamedFinds(top, e);
      assert [] + [e.name] == [e.name];
    }
  }

  lemma RootedChild(top: seq<Entry>, path: Path, e: Entry)
    requires NodeAt(top, path + [e.name]) == Some(e.node) && e.node.Directory? && Proper(e.node)
    ensures Rooted(top, path + [e.name], e.node.entries)
  {
    forall g | g in e.node.entries ensures NodeAt(top, path + [e.name] + [g.name]) == Some(g.node) {
      NodeAtChild(top, path + [e.name], g);
    }
  }

  // ---------- every record is of a node ----------

  /**
   The record is what listing this node gave, and the last observation is the listing too, except that a
   directory is observed again when it is left, in the state in which it was pinned.
   */
  ghost predicate Records(final: Seen, f: Record, n: Node) {
    && f.(inspection := NotInspected) == RecordFor(f.path, n)
    && f.path in final && final[f.path].meta == if n.Directory? then n.pinned else n.listed
  }

  ghost predicate Recorded(top: seq<Entry>, final: Seen, f: Record) {
    NodeAt(top, f.path).Some? && Records(final, f, NodeAt(top, f.path).value)
  }

  ghost predicate AllRecorded(top: seq<Entry>, final: Seen, files: seq<Record>) {
    forall f <- files :: Recorded(top, final, f)
  }

  lemma RecordedAppend(top: seq<Entry>, final: Seen, files: seq<Record>, more: seq<Record>)
    requires AllRecorded(top, final, files) && |more| == |files| + 1 && more[..|files|] == files
    requires Recorded(top, final, more[|files|])
    ensures AllRecorded(top, final, more)
  {
    forall f | f in more ensures Recorded(top, final, f) {
      var i :| 0 <= i < |more| && more[i] == f;
      assert i < |files| ==> files[i] == f;
    }
  }

  lemma LeafRecorded(limits: Limits, top: seq<Entry>, final: Seen, e: Entry, path: Path, depth: nat, st: State)
    requires depth <= limits.maxDepth && !e.node.Directory? && NodeAt(top, path + [e.name]) == Some(e.node)
    requires WalkEntry(limits, e, path, depth, st).Done?
    requires AgreeUnder(final, WalkEntry(limits, e, path, depth, st).value.seen, path + [e.name])
    requires AllRecorded(top, final, st.files)
    ensures AllRecorded(top, final, WalkEntry(limits, e, path, depth, st).value.files)
  {
    var child := path + [e.name];
    var after := WalkEntry(limits, e, path, depth, st).value;
    LeafEffect(limits, e.node, child, st);
    assert Under(child, child) && SameAt(final, after.seen, child);
    RecordedAppend(top, final, st.files, after.files);
  }

  lemma {:induction false} EntryRecorded(
    limits: Limits, top: seq<Entry>, final: Seen, e: Entry, path: Path, depth: nat, st: State)
    requires depth <= limits.maxDepth && Proper(e.node) && NodeAt(top, path + [e.name]) == Some(e.node)
    requires WalkEntry(limits, e, path, depth, st).Done?
    requires AgreeUnder(final, WalkEntry(limits, e, path, depth, st).value.seen, path + [e.name])
    requires AllRecorded(top, final, st.files)
    ensures AllRecorded(top, final, WalkEntry(limits, e, path, depth, st).value.files)
    decreases limits.maxDepth + 1 - depth, 0, 0
  {
    if !e.node.Directory? {
      LeafRecorded(limits, top, final, e, path, depth, st);
    } else {
      var child := path + [e.name];
      var entered := Entered(st, e, child);
      FolderLeft(limits, final, e, path, depth, st);
      RecordedAppend(top, final, st.files, entered.files);
      RootedChild(top, path, e);
      DirectoryRecorded(limits, top, final, e.node.entries, child, depth + 1, entered);
    }
  }

  /** Leaving a directory observes it as it was pinned and touches nothing below it. */
  lemma FolderLeft(limits: Limits, final: Seen, e: Entry, path: Path, depth: nat, st: State)
    requires depth <= limits.maxDepth && e.node.Directory? && WalkEntry(limits, e, path, depth, st).Done?
    requires AgreeUnder(final, WalkEntry(limits, e, path, depth, st).value.seen, path + [e.name])
    ensures var child := path + [e.name];
      var walked := WalkDirectory(limits, e.node.entries, child, depth + 1, Entered(st, e, child));
      && walked.Done? && walked.value.files == WalkEntry(limits, e, path, depth, st).value.files
      && AgreeBelow(final, walked.value.seen, child)
      && child in final && final[child].meta == e.node.pinned
  {
    var child := path + [e.name];
    var walked := WalkDirectory(limits, e.node.entries, child, depth + 1, Entered(st, e, child)).value;
    var after := WalkEntry(limits, e, path, depth, st).value;
    assert Under(child, child) && SameAt(final, after.seen, child);
    StableIsEqual(e.node.pinned, e.node.closed);
    forall k | Under(child, k) && k != child ensures SameAt(final, walked.seen, k) {
      assert SameAt(final, after.seen, k);
    }
  }

  lemma {:induction false} EntriesRecorded(
    limits: Limits, top: seq<Entry>, final: Seen, es: seq<Entry>, path: Path, depth: nat, st: State)
    requires depth <= limits.maxDepth && ProperEntries(es) && Rooted(top, path, es)
    requires WalkEntries(limits, es, path, depth, st).Done?
    requires AgreeUnderAll(final, WalkEntries(limits, es, path, depth, st).value.seen, path, es)
    requires AllRecorded(top, final, st.files)
    ensures AllRecorded(top, final, WalkEntries(limits, es, path, depth, st).value.files)
    decreases limits.maxDepth + 1 - depth, 0, |es|
  {
    if es != [] {
      var first := WalkEntry(limits, es[0], path, depth, st).value;
      var last := WalkEntries(limits, es, path, depth, st).value;
      AgreeTail(final, last.seen, path, es);
      FirstIsFinal(limits, final, es, path, depth, first, last);
      EntryRecorded(limits, top, final, es[0], path, depth, st);
      EntriesRecorded(limits, top, final, es[1..], path, depth, first);
    }
  }

  lemma {:induction false} DirectoryRecorded(
    limits: Limits, top: seq<Entry>, final: Seen, es: seq<Entry>, path: Path, depth: nat, st: State)
    requires path in st.seen && ProperEntries(es) && Rooted(top, path, es)
    requires WalkDirectory(limits, es, path, depth, st).Done?
    requires AgreeBelow(final, WalkDirectory(limits, es, path, depth, st).value.seen, path)
    requires AllRecorded(top, final, st.files)
    ensures AllRecorded(top, final, WalkDirectory(limits, es, path, depth, st).value.files)
    decreases limits.maxDepth + 1 - depth, 1, 0
  {
    if depth <= limits.maxDepth && Fits(limits, es, st) {
      OrderedMembers(es);
      OwnKeyStays(limits, es, path, depth, st);
      BelowIsUnderAll(final, WalkDirectory(limits, es, path, depth, st).value.seen, path, InNameOrder(es));
      EntriesRecorded(limits, top, final, InNameOrder(es), path, depth, Opened(limits, es, path, st));
    }
  }

  /** After a first pass every retained record is what listing the node at its path gave. */
  lemma FirstPassRecords(limits: Limits, root: Node)
    requires root.Directory? && Proper(root) && FirstPass(limits, root).Done?
    ensures AllRecorded(root.entries, FirstPass(limits, root).value.seen, FirstPass(limits, root).value.files)
  {
    var walked := WalkDirectory(limits, root.entries, [], 0, Start(root)).value;
    var final := FirstPass(limits, root).value.seen;
    forall k | Under([], k) && k != [] ensures SameAt(final, walked.seen, k) {
    }
    RootedTop(root.entries);
    DirectoryRecorded(limits, root.entries, final, root.entries, [], 0, Start(root));
  }

  // ---------- which listings agree ----------

  predicate SameListing(a: Record, b: Record) {
    a.path == b.path && a.kind == b.kind && a.linkTarget == b.linkTarget && a.mode == b.mode && a.size == b.size
  }

  /** A directory that had the same mode and size when it was pinned as when it was listed. */
  predicate Held(n: Node) {
    n.Directory? ==> n.listed.mode == n.pinned.mode && n.listed.size == n.pinned.size
  }

  /**
   Path, kind and link target always agree; mode and size agree exactly for the nodes that held. The walker
   records a directory's mode and size when it lists it and compares only its identity when it pins it, so a
   directory changed in that window keeps a stale record. Files, links and special files never do.
   */
  lemma ListingsAgreeIff(limits: Limits, t1: Node, t2: Node)
    requires t1.Directory? && Proper(t1) && Typed(t1) && FirstPass(limits, t1).Done?
    requires t2.Directory? && Proper(t2) && Typed(t2) && Settled(t2)
    requires SecondPass(limits, FirstPass(limits, t1).value.seen, t2)
    ensures FirstPass(limits, t2).Done? ==>
      var first, again := FirstPass(limits, t1).value.files, FirstPass(limits, t2).value.files;
      && |again| == |first|
      && forall i :: 0 <= i < |first| ==>
        var n := NodeAt(t1.entries, first[i].path);
        n.Some? && (SameListing(first[i], again[i]) <==> Held(n.value))
  {
    SecondPassIsSound(limits, t1, t2);
    FirstPassRecords(limits, t1);
    if FirstPass(limits, t2).Aborted? {
      return;
    }
    var first, again := FirstPass(limits, t1).value, FirstPass(limits, t2).value;
    forall i | 0 <= i < |first.files|
      ensures var n := NodeAt(t1.entries, first.files[i].path);
        n.Some? && (SameListing(first.files[i], again.files[i]) <==> Held(n.value))
    {
      assert Recorded(t1.entries, first.seen, first.files[i]);
      OneListingAgreesIff(first.seen, first.files[i], again.files[i], NodeAt(t1.entries, first.files[i].path).value);
    }
  }

  lemma OneListingAgreesIff(final: Seen, a: Record, b: Record, n: Node)
    requires Records(final, a, n) && SameEntry(a, b, final)
    ensures SameListing(a, b) <==> Held(n)
  {
  }

  /** Both walks list the same entries iff every directory that was recorded held until it was pinned. */
  lemma AllListingsAgreeIff(limits: Limits, t1: Node, t2: Node)
    requires t1.Directory? && Proper(t1) && Typed(t1) && FirstPass(limits, t1).Done?
    requires t2.Directory? && Proper(t2) && Typed(t2) && Settled(t2)
    requires SecondPass(limits, FirstPass(limits, t1).value.seen, t2)
    ensures FirstPass(limits, t2).Done? ==>
      var first, again := FirstPass(limits, t1).value.files, FirstPass(limits, t2).value.files;
      && |again| == |first|
      && ((forall i :: 0 <= i < |first| ==> SameListing(first[i], again[i]))
          <==> forall f <- first :: NodeAt(t1.entries, f.path).Some? && Held(NodeAt(t1.entries, f.path).value))
  {
    ListingsAgreeIff(limits, t1, t2);
  }

  // ---------- the window is real ----------

  const BEFORE := Meta(DirectoryType, "drwx------", 0, 0, 2, 2, 0, 0)
  const AFTER := Meta(DirectoryType, "drwxr-xr-x", 0, 0, 2, 2, 0, 0)
  const TOP := Meta(DirectoryType, "drwxr-xr-x", 0, 0, 1, 3, 0, 0)

  function Folder(listed: Meta): Node {
    Directory(listed, AFTER, AFTER, true, true, [])
  }

  /** One empty subdirectory, listed with one mode and pinned with another. */
  function OneFolder(listed: Meta): Node {
    Directory(TOP, TOP, TOP, true, true, [Entry("d", true, Folder(listed))])
  }

  function OneFolderSeen(limits: Limits): Seen {
    map[[] := Observation(TOP, ["d"], "", false, limits.maxFiles),
        ["d"] := Observation(AFTER, [], "", false, limits.maxFiles - 1)]
  }

  ghost predicate StaleWitness(limits: Limits, t1: Node, t2: Node) {
    && t1.Directory? && t2.Directory? && Proper(t1) && Typed(t1) && Proper(t2) && Typed(t2) && Settled(t2)
    && FirstPass(limits, t1).Done? && SecondPass(limits, FirstPass(limits, t1).value.seen, t2)
    && FirstPass(limits, t2).Done?
    && var first := FirstPass(limits, t1).value.files;
       var again := FirstPass(limits, t2).value.files;
       |again| == |first| && exists i :: 0 <= i < |first| && !SameListing(first[i], again[i])
  }

  /** A directory whose mode changes before it is pinned passes both passes with a stale record. */
  lemma StaleDirectoryRecord(limits: Limits) returns (t1: Node, t2: Node)
    requires limits.maxFiles >= 1 && limits.maxDepth >= 1
    ensures StaleWitness(limits, t1, t2)
  {
    t1, t2 := OneFolder(BEFORE), OneFolder(AFTER);
    OneFolderWalks(limits, BEFORE);
    OneFolderWalks(limits, AFTER);
    OneFolderVerifies(limits);
    ListingsAgreeIff(limits, t1, t2);
    assert NodeAt(t1.entries, ["d"]) == Some(t1.entries[0].node);
    assert !SameListing(FirstPass(limits, t1).value.files[0], FirstPass(limits, t2).value.files[0]);
  }

  lemma OneEntryOrder(e: Entry)
    ensures InNameOrder([e]) == [e] && InNameOrder([]) == []
  {
    assert [e][..0] == [];
    assert SortedBy([e][..0], NameLess) == [];
    var none: seq<Entry> := [];
    assert Insert(none, e, NameLess) == none[..0] + [e] + none[0..] == [e];
  }

  lemma OneFolderWalks(limits: Limits, listed: Meta)
    requires limits.maxFiles >= 1 && limits.maxDepth >= 1 && SameFile(listed, AFTER)
    ensures FirstPass(limits, OneFolder(listed)) ==
      Done(State([RecordFor(["d"], Folder(listed))], [], [], 0, 0, OneFolderSeen(limits)))
  {
    var root := OneFolder(listed);
    var e := root.entries[0];
    OneEntryOrder(e);
    var st := Observe(Start(root), [], Observation(TOP, ["d"], "", false, limits.maxFiles));
    assert EntryNames([e]) == ["d"];
    assert WalkDirectory(limits, root.entries, [], 0, Start(root)) == WalkEntries(limits, [e], [], 0, st);
    var child: Path := [] + ["d"];
    assert child == ["d"];
    var entered := Entered(st, e, child);
    EmptyWalk(limits, child, entered);
    var inner := Observe(entered, child, Observation(listed, [], "", false, limits.maxFiles - 1));
    assert WalkEntry(limits, e, [], 0, st) ==
      Done(Observe(inner, child, Observation(AFTER, [], "", false, limits.maxFiles - 1)));
    assert [e][1..] == [];
    var last := Observe(inner, child, Observation(AFTER, [], "", false, limits.maxFiles - 1));
    assert WalkEntries(limits, [e], [], 0, st) == WalkEntries(limits, [], [], 0, last) == Done(last);
    assert last.files == [RecordFor(["d"], e.node)];
    assert last.seen[[] := last.seen[[]].(meta := TOP)] == OneFolderSeen(limits);
  }

  lemma OneFolderVerifies(limits: Limits)
    requires limits.maxFiles >= 1 && limits.maxDepth >= 1
    ensures SecondPass(limits, OneFolderSeen(limits), OneFolder(AFTER))
  {
    var root, seen := OneFolder(AFTER), OneFolderSeen(limits);
    var e := root.entries[0];
    OneEntryOrder(e);
    var child: Path := [] + ["d"];
    assert child == ["d"];
    assert EntryNames([]) == seen[child].children;
    assert VerifyDirectory(limits, seen, e.node, child, 1);
    assert VerifyEntry(limits, seen, e, [], 0);
    assert [e][1..] == [];
    assert EntryNames([e]) == seen[[]].children;
  }

  lemma EmptyWalk(limits: Limits, path: Path, st: State)
    requires path in st.seen && limits.maxDepth >= 1 && |st.files| <= limits.maxFiles
    ensures var walked := WalkDirectory(limits, [], path, 1, st);
      walked == Done(Observe(st, path,
        st.seen[path].(entryLimit := limits.maxFiles - |st.files|, overflow := false, children := [])))
  {
    assert InNameOrder([]) == [];
    assert EntryNames([]) == [];
  }
}

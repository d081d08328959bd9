/**
 The second pass is sound and complete. If it accepts a target against what the first pass observed, then
 walking that target from scratch reproduces the whole observation map, the same entries and the same
 cut-offs. An unchanged target is accepted unless some link could not be read.
 */
module SecondPassTheorems {
  import opened Sorting
  import opened ReportModel
  import opened Inventory
  import opened WalkerClass
  import opened Reach

  type Seen = map<Path, Observation>

  // ---------- what a walk may touch ----------

  ghost predicate SameAt(a: Seen, b: Seen, k: Path) {
    (k in a <==> k in b) && (k in a ==> a[k] == b[k])
  }

  ghost predicate Under(p: Path, k: Path) {
    p <= k
  }

  ghost predicate SameOutside(a: Seen, b: Seen, p: Path) {
    forall k :: !Under(p, k) ==> SameAt(a, b, k)
  }

  ghost predicate UnderSome(es: seq<Entry>, p: Path, k: Path) {
    exists i :: 0 <= i < |es| && Under(p + [es[i].name], k)
  }

  lemma ChildIsUnder(p: Path, name: string, k: Path)
    requires Under(p + [name], k)
    ensures Under(p, k) && k != p
  {
    assert p <= p + [name];
  }

  lemma SiblingsApart(p: Path, a: string, b: string, k: Path)
    requires Under(p + [a], k) && a != b
    ensures !Under(p + [b], k)
  {
    assert (p + [a])[|p|] == a && (p + [b])[|p|] == b;
  }

  lemma NotUnderItsChild(p: Path, name: string)
    ensures !Under(p + [name], p)
  {
  }

  lemma LeafFrame(limits: Limits, node: Node, path: Path, st: State)
    requires !node.Directory?
    ensures var walked := WalkLeaf(limits, node, path, st);
      walked.Done? ==> (path in walked.value.seen && forall k :: k != path ==> SameAt(st.seen, walked.value.seen, k))
  {
  }

  lemma {:induction false} EntryFrame(limits: Limits, e: Entry, path: Path, depth: nat, st: State)
    requires depth <= limits.maxDepth
    ensures var walked := WalkEntry(limits, e, path, depth, st); var child := path + [e.name];
      walked.Done? ==> (SameOutside(st.seen, walked.value.seen, child) && child in walked.value.seen)
    decreases limits.maxDepth + 1 - depth, 0, 0
  {
    var child := path + [e.name];
    if e.node.Directory? {
      var entered := Append(Observe(st, child, Listed(e.node.listed)), RecordFor(child, e.node));
      DirectoryFrame(limits, e.node.entries, child, depth + 1, entered);
    } else {
      LeafFrame(limits, e.node, child, st);
    }
  }

  lemma {:induction false} EntriesFrame(limits: Limits, es: seq<Entry>, path: Path, depth: nat, st: State, k: Path)
    requires depth <= limits.maxDepth && !UnderSome(es, path, k)
    ensures var walked := WalkEntries(limits, es, path, depth, st); walked.Done? ==>
      SameAt(st.seen, walked.value.seen, k)
    decreases limits.maxDepth + 1 - depth, 0, |es|
  {
    if es != [] {
      var first := WalkEntry(limits, es[0], path, depth, st);
      EntryFrame(limits, es[0], path, depth, st);
      assert !Under(path + [es[0].name], k);
      if first.Done? {
        assert !UnderSome(es[1..], path, k) by {
          assert forall i :: 0 <= i < |es[1..]| ==> es[1..][i] == es[i + 1];
        }
        EntriesFrame(limits, es[1..], path, depth, first.value, k);
      }
    }
  }

  lemma {:induction false} DirectoryFrame(limits: Limits, entries: seq<Entry>, path: Path, depth: nat, st: State)
    requires path in st.seen
    ensures var walked := WalkDirectory(limits, entries, path, depth, st);
      walked.Done? ==> (SameOutside(st.seen, walked.value.seen, path) && path in walked.value.seen)
    decreases limits.maxDepth + 1 - depth, 1, 0
  {
    if depth <= limits.maxDepth && |entries| <= AtLeastZero(limits.maxFiles - |st.files|) {
      var ordered := InNameOrder(entries);
      var current := st.seen[path].(
        entryLimit := limits.maxFiles - |st.files|, overflow := false, children := EntryNames(ordered));
      var inside := Observe(st, path, current);
      var walked := WalkEntries(limits, ordered, path, depth, inside);
      if walked.Done? {
        forall k | !Under(path, k) || k == path ensures SameAt(inside.seen, walked.value.seen, k) {
          if UnderSome(ordered, path, k) {
            var i :| 0 <= i < |ordered| && Under(path + [ordered[i].name], k);
            ChildIsUnder(path, ordered[i].name, k);
          }
          EntriesFrame(limits, ordered, path, depth, inside, k);
        }
        assert SameAt(inside.seen, walked.value.seen, path);
      }
    }
  }

  // ---------- settled trees ----------

  /** Each entry is read the way its listed file type says, as the walker's switch does. */
  ghost predicate Typed(node: Node) {
    match node
    case Regular(m, _, _, _) => m.fileType == RegularType
    case Symlink(m, _, _) => m.fileType == SymlinkType
    case Directory(m, _, _, _, _, es) => m.fileType == DirectoryType && forall e <- es :: Typed(e.node)
    case Special(m, _) => m.fileType != RegularType && m.fileType != SymlinkType && m.fileType != DirectoryType
  }

  /** A snapshot: every reading of a node agrees, and a regular file holds as many bytes as its size says. */
  ghost predicate Settled(node: Node) {
    match node
    case Regular(a, b, c, content) => a == b == c && |content.bytes| == a.size
    case Symlink(a, c, _) => a == c
    case Directory(a, b, c, _, _, es) => a == b == c && forall e <- es :: Settled(e.node)
    case Special(a, c) => a == c
  }

  lemma StableIsEqual(a: Meta, b: Meta)
    ensures Stable(a, b) <==> a == b
  {
  }

  lemma OrderedMembers(es: seq<Entry>)
    requires ProperEntries(es)
    ensures forall e :: e in InNameOrder(es) <==> e in es
    ensures ProperEntries(InNameOrder(es)) && |InNameOrder(es)| == |es|
  {
    InNameOrderProper(es);
    SameMembers(InNameOrder(es), es);
    assert |multiset(InNameOrder(es))| == |InNameOrder(es)| && |multiset(es)| == |es|;
  }

  // ---------- corresponding states ----------

  /** The same entry: identical up to mode and size, which must be the ones finally observed. */
  ghost predicate SameEntry(a: Record, b: Record, final: Seen) {
    && a.path == b.path && a.kind == b.kind && a.linkTarget == b.linkTarget
    && a.path in final && b.mode == final[a.path].meta.mode && b.size == final[a.path].meta.size
  }

  predicate Structural(n: Notice) {
    n.code == MaxDepth || n.code == MaxFiles || n.code == SpecialFile
  }

  /** The depth cut-offs, overflow decisions and special files, in the order they were met. */
  function CutOffs(ns: seq<Notice>): seq<Notice> {
    if ns == [] then []
    else CutOffs(ns[..|ns| - 1]) + if Structural(ns[|ns| - 1]) then [ns[|ns| - 1]] else []
  }

  lemma CutOffsAppend(ns: seq<Notice>, n: Notice)
    ensures CutOffs(ns + [n]) == CutOffs(ns) + if Structural(n) then [n] else []
  {
    assert (ns + [n])[..|ns|] == ns;
  }

  ghost predicate Mirrors(a: State, b: State, final: Seen) {
    && |a.files| == |b.files| && (forall i :: 0 <= i < |a.files| ==> SameEntry(a.files[i], b.files[i], final))
    && CutOffs(a.limitations) == CutOffs(b.limitations)
  }

  /** What visiting one leaf does to the parts of the state that the second pass relies on. */
  lemma LeafEffect(limits: Limits, node: Node, path: Path, st: State)
    requires !node.Directory? && WalkLeaf(limits, node, path, st).Done?
    ensures var after := WalkLeaf(limits, node, path, st).value; var file := after.files[|after.files| - 1];
      && |after.files| == |st.files| + 1 && after.files[..|st.files|] == st.files
      && file.(inspection := NotInspected) == RecordFor(path, node)
      && CutOffs(after.limitations) ==
         CutOffs(st.limitations) + (if node.Special? then [Notice(SpecialFile, path)] else [])
      && after.seen == st.seen[path := Listed(node.listed).(linkTarget := RecordFor(path, node).linkTarget)]
  {
    var seen := Observe(st, path, Listed(node.listed));
    var file := RecordFor(path, node);
    if node.Regular? && !GitDatabasePath(path) {
      InspectEffect(limits, node, file, seen);
    } else if node.Special? {
      CutOffsAppend(st.limitations, Notice(SpecialFile, path));
    }
  }

  lemma NoCutOff(st: State, code: Code, path: Path)
    requires !Structural(Notice(code, path))
    ensures CutOffs(st.limitations + [Notice(code, path)]) == CutOffs(st.limitations)
  {
    CutOffsAppend(st.limitations, Notice(code, path));
  }

  /** Inspecting a file adds at most notices that are no cut-offs, and fills in the record's inspection only. */
  ghost predicate InspectedOnly(st: State, file: Record, after: State, out: Record) {
    && after.files == st.files && after.seen == st.seen && CutOffs(after.limitations) == CutOffs(st.limitations)
    && out.(inspection := NotInspected) == file.(inspection := NotInspected)
  }

  lemma ElfEffect(limits: Limits, listed: Meta, closed: Meta, content: Content, file: Record, st: State)
    requires InspectElf(limits, listed, closed, content, file, st).Done?
    ensures var (after, out) := InspectElf(limits, listed, closed, content, file, st).value;
      InspectedOnly(st, file, after, out)
  {
    hide CutOffs, ElfHeader, Stable;
    NoCutOff(st, MaxBinaryFileBytes, file.path);
    NoCutOff(st, MaxBinaryTotalBytes, file.path);
    NoCutOff(st, ElfParseError, file.path);
  }

  lemma ContentEffect(limits: Limits, listed: Meta, closed: Meta, content: Content, file: Record, st: State)
    requires InspectContent(limits, listed, closed, content, file, st).Done?
    ensures var (after, out) := InspectContent(limits, listed, closed, content, file, st).value;
      InspectedOnly(st, file, after, out)
  {
    hide CutOffs, ElfHeader, InspectElf;
    if content.seekable && ElfHeader(content.bytes) {
      ElfEffect(limits, listed, closed, content, file, st);
    } else {
      NoCutOff(st, MaxFileBytes, file.path);
      NoCutOff(st, MaxTotalBytes, file.path);
    }
  }

  lemma InspectEffect(limits: Limits, node: Node, file: Record, st: State)
    requires node.Regular? && InspectRegular(limits, node, file, st).Done?
    ensures var (after, out) := InspectRegular(limits, node, file, st).value; InspectedOnly(st, file, after, out)
  {
    ContentEffect(limits, node.listed, node.closed, node.content, file, st);
  }

  // ---------- soundness ----------

  ghost predicate AgreeUnder(final: Seen, now: Seen, p: Path) {
    forall k :: Under(p, k) ==> SameAt(final, now, k)
  }

  ghost predicate AgreeBelow(final: Seen, now: Seen, p: Path) {
    forall k :: Under(p, k) && k != p ==> SameAt(final, now, k)
  }

  ghost predicate NothingUnder(now: Seen, p: Path) {
    forall k :: Under(p, k) ==> k !in now
  }

  ghost predicate NothingBelow(now: Seen, p: Path) {
    forall k :: Under(p, k) && k != p ==> k !in now
  }

  /** A leaf that the second pass accepts is walked to the same entry and the same observation. */
  lemma MirrorLeaf(limits: Limits, final: Seen, e1: Entry, e2: Entry, path: Path, depth: nat, a: State, b: State)
    requires depth <= limits.maxDepth && e1.name == e2.name && !e1.node.Directory? && Typed(e1.node) && Typed(e2.node)
    requires Settled(e2.node)
    requires WalkEntry(limits, e1, path, depth, a).Done? && WalkEntry(limits, e2, path, depth, b).Done?
    requires AgreeUnder(final, WalkEntry(limits, e1, path, depth, a).value.seen, path + [e1.name])
    requires NothingUnder(a.seen, path + [e1.name]) && NothingUnder(b.seen, path + [e1.name])
    requires VerifyEntry(limits, final, e2, path, depth) && Mirrors(a, b, final)
    ensures !e2.node.Directory?
    ensures Mirrors(WalkEntry(limits, e1, path, depth, a).value, WalkEntry(limits, e2, path, depth, b).value, final)
    ensures AgreeUnder(final, WalkEntry(limits, e2, path, depth, b).value.seen, path + [e1.name])
  {
    var child := path + [e1.name];
    var a', b' := WalkEntry(limits, e1, path, depth, a).value, WalkEntry(limits, e2, path, depth, b).value;
    LeafEffect(limits, e1.node, child, a);
    assert Under(child, child) && SameAt(final, a'.seen, child);
    StableIsEqual(final[child].meta, e2.node.listed);
    LeafEffect(limits, e2.node, child, b);
    LeavesMatch(final, e1.node, e2.node, child);
    MirrorAppend(a, b, a', b', final);
    forall k | Under(child, k) ensures SameAt(final, b'.seen, k) {
      assert SameAt(final, a'.seen, k);
    }
  }

  lemma LeavesMatch(final: Seen, n1: Node, n2: Node, path: Path)
    requires !n1.Directory? && !n2.Directory? && Typed(n1) && Typed(n2) && n1.listed == n2.listed
    requires path in final && final[path].meta == n1.listed
    requires final[path].linkTarget == RecordFor(path, n1).linkTarget
    requires n2.Symlink? ==> n2.target == Some(final[path].linkTarget)
    ensures SameEntry(RecordFor(path, n1), RecordFor(path, n2), final)
    ensures RecordFor(path, n1).linkTarget == RecordFor(path, n2).linkTarget && (n1.Special? <==> n2.Special?)
  {
  }

  lemma MirrorAppend(a: State, b: State, a': State, b': State, final: Seen)
    requires Mirrors(a, b, final)
    requires |a'.files| == |a.files| + 1 && a'.files[..|a.files|] == a.files
    requires |b'.files| == |b.files| + 1 && b'.files[..|b.files|] == b.files
    requires SameEntry(a'.files[|a.files|].(inspection := NotInspected),
      b'.files[|b.files|].(inspection := NotInspected), final)
    requires CutOffs(a'.limitations) == CutOffs(b'.limitations)
    ensures Mirrors(a', b', final)
  {
    forall i | 0 <= i < |a'.files| ensures SameEntry(a'.files[i], b'.files[i], final) {
      if i < |a.files| {
        assert a'.files[i] == a.files[i] && b'.files[i] == b.files[i];
      }
    }
  }

  /** On a snapshot the only leaf that ends the walk is a file that cannot be opened. */
  lemma SettledLeafDone(limits: Limits, node: Node, path: Path, st: State)
    requires !node.Directory? && Settled(node)
    ensures WalkLeaf(limits, node, path, st).Done? <==> FileOpens(path, node)
  {
  }

  /** The list of entries at hand: same names, snapshots on the second side. */
  ghost predicate Paired(es1: seq<Entry>, es2: seq<Entry>) {
    && |es1| == |es2| && ProperEntries(es1) && ProperEntries(es2)
    && (forall i :: 0 <= i < |es1| ==> es1[i].name == es2[i].name)
    && (forall i :: 0 <= i < |es1| ==> Typed(es1[i].node) && Typed(es2[i].node) && Settled(es2[i].node))
  }

  ghost predicate AgreeUnderAll(final: Seen, now: Seen, p: Path, es: seq<Entry>) {
    forall i :: 0 <= i < |es| ==> AgreeUnder(final, now, p + [es[i].name])
  }

  ghost predicate NothingUnderAll(now: Seen, p: Path, es: seq<Entry>) {
    forall i :: 0 <= i < |es| ==> NothingUnder(now, p + [es[i].name])
  }

  lemma LaterSiblingsElsewhere(es: seq<Entry>, p: Path, k: Path)
    requires es != [] && ProperEntries(es) && Under(p + [es[0].name], k)
    ensures !UnderSome(es[1..], p, k)
  {
    forall i | 0 <= i < |es[1..]| ensures !Under(p + [es[1..][i].name], k) {
      assert es[1..][i] == es[i + 1] && es[0].name != es[i + 1].name;
      SiblingsApart(p, es[0].name, es[i + 1].name, k);
    }
  }

  lemma EarlierSiblingElsewhere(es: seq<Entry>, p: Path, i: nat, k: Path)
    requires 1 <= i < |es| && ProperEntries(es) && Under(p + [es[i].name], k)
    ensures !Under(p + [es[0].name], k)
  {
    assert es[0].name != es[i].name;
    SiblingsApart(p, es[i].name, es[0].name, k);
  }

  /** After the first entry, its own keys are final and its siblings' keys are still absent. */
  lemma AfterFirst(limits: Limits, es: seq<Entry>, path: Path, depth: nat, st: State)
    requires depth <= limits.maxDepth && es != [] && ProperEntries(es) && NothingUnderAll(st.seen, path, es)
    requires WalkEntry(limits, es[0], path, depth, st).Done?
    ensures NothingUnderAll(WalkEntry(limits, es[0], path, depth, st).value.seen, path, es[1..])
  {
    var first := WalkEntry(limits, es[0], path, depth, st).value;
    EntryFrame(limits, es[0], path, depth, st);
    forall i | 0 <= i < |es[1..]| ensures NothingUnder(first.seen, path + [es[1..][i].name]) {
      assert es[1..][i] == es[i + 1];
      assert NothingUnder(st.seen, path + [es[i + 1].name]);
      forall k | Under(path + [es[i + 1].name], k) ensures k !in first.seen {
        EarlierSiblingElsewhere(es, path, i + 1, k);
        assert SameAt(st.seen, first.seen, k);
      }
    }
  }

  lemma FirstIsFinal(limits: Limits, final: Seen, es: seq<Entry>, path: Path, depth: nat, first: State, last: State)
    requires depth <= limits.maxDepth && es != [] && ProperEntries(es)
    requires WalkEntries(limits, es[1..], path, depth, first) == Done(last)
    ensures AgreeUnder(final, first.seen, path + [es[0].name]) <==> AgreeUnder(final, last.seen, path + [es[0].name])
  {
    forall k | Under(path + [es[0].name], k) ensures SameAt(first.seen, last.seen, k) {
      LaterSiblingsElsewhere(es, path, k);
      EntriesFrame(limits, es[1..], path, depth, first, k);
    }
  }

  lemma PairedTail(es1: seq<Entry>, es2: seq<Entry>)
    requires Paired(es1, es2) && es1 != []
    ensures Paired(es1[1..], es2[1..])
  {
    ProperTail(es1);
    ProperTail(es2);
    forall i | 0 <= i < |es1[1..]|
      ensures es1[1..][i].name == es2[1..][i].name
      ensures Typed(es1[1..][i].node) && Typed(es2[1..][i].node) && Settled(es2[1..][i].node)
    {
      assert es1[1..][i] == es1[i + 1] && es2[1..][i] == es2[i + 1];
    }
  }

  lemma ProperTail(es: seq<Entry>)
    requires ProperEntries(es) && es != []
    ensures ProperEntries(es[1..])
  {
  }

  lemma {:induction false} MirrorEntries(
    limits: Limits, final: Seen, es1: seq<Entry>, es2: seq<Entry>, path: Path, depth: nat, a: State, b: State)
    requires depth <= limits.maxDepth && Paired(es1, es2)
    requires WalkEntries(limits, es1, path, depth, a).Done?
    requires AgreeUnderAll(final, WalkEntries(limits, es1, path, depth, a).value.seen, path, es1)
    requires NothingUnderAll(a.seen, path, es1) && NothingUnderAll(b.seen, path, es1)
    requires VerifyEntries(limits, final, es2, path, depth) && Mirrors(a, b, final)
    requires FilesOpen(VisitEntries(limits, es2, path, depth, |b.files|))
    ensures WalkEntries(limits, es2, path, depth, b).Done?
    ensures Mirrors(
      WalkEntries(limits, es1, path, depth, a).value, WalkEntries(limits, es2, path, depth, b).value, final)
    ensures AgreeUnderAll(final, WalkEntries(limits, es2, path, depth, b).value.seen, path, es1)
    decreases limits.maxDepth + 1 - depth, 1, |es1|
  {
    hide VisitEntry, VisitEntries, VisitDirectory, FilesOpen;
    hide WalkEntry, VerifyEntry, Mirrors, AgreeUnder, NothingUnder, NothingUnderAll, AgreeUnderAll, Settled, Typed;
    if es1 == [] {
      AgreeNone(final, b.seen, path);
    } else {
      var a' := WalkEntries(limits, es1, path, depth, a).value;
      var a1 := WalkEntry(limits, es1[0], path, depth, a).value;
      FirstIsFinal(limits, final, es1, path, depth, a1, a');
      OpenFirst(limits, es2, path, depth, |b.files|);
      AgreeTail(final, a'.seen, path, es1);
      NothingFirst(a.seen, path, es1);
      NothingFirst(b.seen, path, es1);
      MirrorEntry(limits, final, es1[0], es2[0], path, depth, a, b);
      EntryRetained(limits, es2[0], path, depth, b);
      var b1 := WalkEntry(limits, es2[0], path, depth, b).value;
      AfterFirst(limits, es1, path, depth, a);
      SameNames(b.seen, path, es1, es2);
      AfterFirst(limits, es2, path, depth, b);
      SameNames(b1.seen, path, es2[1..], es1[1..]);
      PairedTail(es1, es2);
      MirrorEntries(limits, final, es1[1..], es2[1..], path, depth, a1, b1);
      var b' := WalkEntries(limits, es2[1..], path, depth, b1).value;
      FirstIsFinal(limits, final, es2, path, depth, b1, b');
      AgreeHead(final, b'.seen, path, es1);
    }
  }

  lemma SameNames(now: Seen, p: Path, es: seq<Entry>, fs: seq<Entry>)
    requires NothingUnderAll(now, p, es) && |es| == |fs| && forall i :: 0 <= i < |es| ==> es[i].name == fs[i].name
    ensures NothingUnderAll(now, p, fs)
  {
    forall i | 0 <= i < |fs| ensures NothingUnder(now, p + [fs[i].name]) {
      assert NothingUnder(now, p + [es[i].name]);
    }
  }

  lemma NothingFirst(now: Seen, p: Path, es: seq<Entry>)
    requires es != [] && NothingUnderAll(now, p, es)
    ensures NothingUnder(now, p + [es[0].name])
  {
  }

  lemma AgreeNone(final: Seen, now: Seen, p: Path)
    ensures AgreeUnderAll(final, now, p, [])
  {
  }

  lemma AgreeTail(final: Seen, now: Seen, p: Path, es: seq<Entry>)
    requires es != [] && AgreeUnderAll(final, now, p, es)
    ensures AgreeUnder(final, now, p + [es[0].name]) && AgreeUnderAll(final, now, p, es[1..])
  {
    forall i | 0 <= i < |es[1..]| ensures AgreeUnder(final, now, p + [es[1..][i].name]) {
      assert es[1..][i] == es[i + 1];
    }
  }

  lemma AgreeHead(final: Seen, now: Seen, p: Path, es: seq<Entry>)
    requires es != [] && AgreeUnder(final, now, p + [es[0].name]) && AgreeUnderAll(final, now, p, es[1..])
    ensures AgreeUnderAll(final, now, p, es)
  {
    forall i | 0 <= i < |es| ensures AgreeUnder(final, now, p + [es[i].name]) {
      if i > 0 {
        assert es[1..][i - 1] == es[i];
      }
    }
  }

  lemma {:induction false} MirrorEntry(
    limits: Limits, final: Seen, e1: Entry, e2: Entry, path: Path, depth: nat, a: State, b: State)
    requires depth <= limits.maxDepth && e1.name == e2.name && Proper(e1.node) && Proper(e2.node)
    requires Typed(e1.node) && Typed(e2.node) && Settled(e2.node)
    requires WalkEntry(limits, e1, path, depth, a).Done?
    requires AgreeUnder(final, WalkEntry(limits, e1, path, depth, a).value.seen, path + [e1.name])
    requires NothingUnder(a.seen, path + [e1.name]) && NothingUnder(b.seen, path + [e1.name])
    requires VerifyEntry(limits, final, e2, path, depth) && Mirrors(a, b, final)
    requires FilesOpen(VisitEntry(limits, e2, path, depth, |b.files|))
    ensures WalkEntry(limits, e2, path, depth, b).Done?
    ensures Mirrors(WalkEntry(limits, e1, path, depth, a).value, WalkEntry(limits, e2, path, depth, b).value, final)
    ensures AgreeUnder(final, WalkEntry(limits, e2, path, depth, b).value.seen, path + [e1.name])
    decreases limits.maxDepth + 1 - depth, 0, 1
  {
    if !e1.node.Directory? {
      LeafStaysLeaf(limits, final, e1, e2, path, depth, a);
      assert FilesOpen([Visit(path + [e2.name], e2, false)]) by {
        assert Visit(path + [e2.name], e2, false) in VisitEntry(limits, e2, path, depth, |b.files|);
      }
      SettledLeafDone(limits, e2.node, path + [e2.name], b);
      MirrorLeaf(limits, final, e1, e2, path, depth, a, b);
    } else {
      MirrorFolder(limits, final, e1, e2, path, depth, a, b);
    }
  }

  lemma LeafStaysLeaf(limits: Limits, final: Seen, e1: Entry, e2: Entry, path: Path, depth: nat, a: State)
    requires depth <= limits.maxDepth && e1.name == e2.name && !e1.node.Directory? && Typed(e1.node) && Typed(e2.node)
    requires WalkEntry(limits, e1, path, depth, a).Done?
    requires AgreeUnder(final, WalkEntry(limits, e1, path, depth, a).value.seen, path + [e1.name])
    requires VerifyEntry(limits, final, e2, path, depth)
    ensures !e2.node.Directory?
  {
    var child := path + [e1.name];
    LeafEffect(limits, e1.node, child, a);
    assert Under(child, child) && SameAt(final, WalkEntry(limits, e1, path, depth, a).value.seen, child);
    StableIsEqual(final[child].meta, e2.node.listed);
  }

  function Entered(st: State, e: Entry, child: Path): State {
    Append(Observe(st, child, Listed(e.node.listed)), RecordFor(child, e.node))
  }

  lemma {:induction false} MirrorFolder(
    limits: Limits, final: Seen, e1: Entry, e2: Entry, path: Path, depth: nat, a: State, b: State)
    requires depth <= limits.maxDepth && e1.name == e2.name && Proper(e1.node) && Proper(e2.node) && e1.node.Directory?
    requires Typed(e1.node) && Typed(e2.node) && Settled(e2.node)
    requires WalkEntry(limits, e1, path, depth, a).Done?
    requires AgreeUnder(final, WalkEntry(limits, e1, path, depth, a).value.seen, path + [e1.name])
    requires NothingUnder(a.seen, path + [e1.name]) && NothingUnder(b.seen, path + [e1.name])
    requires VerifyEntry(limits, final, e2, path, depth) && Mirrors(a, b, final)
    requires FilesOpen(VisitEntry(limits, e2, path, depth, |b.files|))
    ensures WalkEntry(limits, e2, path, depth, b).Done?
    ensures Mirrors(WalkEntry(limits, e1, path, depth, a).value, WalkEntry(limits, e2, path, depth, b).value, final)
    ensures AgreeUnder(final, WalkEntry(limits, e2, path, depth, b).value.seen, path + [e1.name])
    decreases limits.maxDepth + 1 - depth, 0, 0
  {
    hide WalkDirectory, VerifyDirectory, NothingUnder;
    var child := path + [e1.name];
    var a0 := Entered(a, e1, child);
    var a1 := WalkDirectory(limits, e1.node.entries, child, depth + 1, a0).value;
    FolderFacts(limits, final, e1, e2, path, depth, a);
    var b0 := Entered(b, e2, child);
    FilesOpenSplits([Visit(child, e2, Lists(limits, e2.node, depth + 1, |b0.files|))],
                    VisitDirectory(limits, e2.node.entries, child, depth + 1, |b0.files|));
    EnteredMirrors(final, e1, e2, child, a, b);
    MirrorDirectory(limits, final, e1.node.entries, e2.node, child, depth + 1, a0, b0);
    var b1 := WalkDirectory(limits, e2.node.entries, child, depth + 1, b0).value;
    StableIsEqual(e2.node.pinned, e2.node.closed);
    assert WalkEntry(limits, e2, path, depth, b).value == Observe(b1, child, final[child]);
    forall k | Under(child, k) ensures SameAt(final, b1.seen[child := final[child]], k) {
      if k != child { assert SameAt(final, b1.seen, k); }
    }
  }

  /** A directory the second pass accepts was left as it was pinned, and the second tree holds it in that state. */
  lemma FolderFacts(limits: Limits, final: Seen, e1: Entry, e2: Entry, path: Path, depth: nat, a: State)
    requires depth <= limits.maxDepth && e1.name == e2.name && e1.node.Directory? && Typed(e1.node) && Typed(e2.node)
    requires Settled(e2.node)
    requires WalkEntry(limits, e1, path, depth, a).Done?
    requires AgreeUnder(final, WalkEntry(limits, e1, path, depth, a).value.seen, path + [e1.name])
    requires VerifyEntry(limits, final, e2, path, depth)
    ensures var child := path + [e1.name];
      var walked := WalkDirectory(limits, e1.node.entries, child, depth + 1, Entered(a, e1, child));
      && walked.Done? && child in walked.value.seen && child in final
      && final[child] == walked.value.seen[child].(meta := final[child].meta) && final[child].meta == e2.node.listed
      && e2.node.Directory? && VerifyDirectory(limits, final, e2.node, child, depth + 1)
      && AgreeBelow(final, walked.value.seen, child)
  {
    var child := path + [e1.name];
    var walked := WalkDirectory(limits, e1.node.entries, child, depth + 1, Entered(a, e1, child)).value;
    var a' := WalkEntry(limits, e1, path, depth, a).value;
    assert Under(child, child) && SameAt(final, a'.seen, child);
    StableIsEqual(e1.node.pinned, e1.node.closed);
    StableIsEqual(final[child].meta, e2.node.listed);
    forall k | Under(child, k) && k != child ensures SameAt(final, walked.seen, k) {
      assert SameAt(final, a'.seen, k);
    }
  }

  lemma EnteredMirrors(final: Seen, e1: Entry, e2: Entry, child: Path, a: State, b: State)
    requires e1.node.Directory? && e2.node.Directory? && child in final && final[child].meta == e2.node.listed
    requires NothingUnder(a.seen, child) && NothingUnder(b.seen, child) && Mirrors(a, b, final)
    ensures Mirrors(Entered(a, e1, child), Entered(b, e2, child), final)
    ensures NothingBelow(Entered(a, e1, child).seen, child) && NothingBelow(Entered(b, e2, child).seen, child)
    ensures Entered(a, e1, child).seen[child] == Listed(e1.node.listed)
    ensures Entered(b, e2, child).seen[child] == Listed(final[child].meta)
  {
    MirrorAppend(a, b, Entered(a, e1, child), Entered(b, e2, child), final);
  }

  ghost predicate AllTyped(es: seq<Entry>) {
    forall e <- es :: Typed(e.node)
  }

  /** The two states stand at the door of the same directory, with nothing seen inside it yet. */
  ghost predicate AtDoor(final: Seen, path: Path, a: State, b: State) {
    && path in a.seen && path in b.seen && path in final
    && a.seen[path] == Listed(a.seen[path].meta) && b.seen[path] == Listed(final[path].meta)
    && NothingBelow(a.seen, path) && NothingBelow(b.seen, path) && Mirrors(a, b, final)
  }

  function Opened(limits: Limits, es: seq<Entry>, path: Path, st: State): State
    requires path in st.seen
  {
    Observe(st, path,
      st.seen[path].(entryLimit := limits.maxFiles - |st.files|, overflow := false,
                     children := EntryNames(InNameOrder(es))))
  }

  predicate Fits(limits: Limits, es: seq<Entry>, st: State) {
    |es| <= AtLeastZero(limits.maxFiles - |st.files|)
  }

  lemma {:induction false} MirrorDirectory(
    limits: Limits, final: Seen, es1: seq<Entry>, n2: Node, path: Path, depth: nat, a: State, b: State)
    requires n2.Directory? && ProperEntries(es1) && Proper(n2) && AllTyped(es1) && Typed(n2) && Settled(n2)
    requires AtDoor(final, path, a, b) && WalkDirectory(limits, es1, path, depth, a).Done?
    requires var walked := WalkDirectory(limits, es1, path, depth, a).value;
      path in walked.seen && final[path] == walked.seen[path].(meta := final[path].meta)
        && AgreeBelow(final, walked.seen, path)
    requires VerifyDirectory(limits, final, n2, path, depth)
    requires FilesOpen(VisitDirectory(limits, n2.entries, path, depth, |b.files|))
    ensures !ListingFails(limits, n2, depth, |b.files|) && WalkDirectory(limits, n2.entries, path, depth, b).Done?
    ensures var walked := WalkDirectory(limits, n2.entries, path, depth, b).value;
      && Mirrors(WalkDirectory(limits, es1, path, depth, a).value, walked, final)
      && path in walked.seen && walked.seen[path] == final[path] && AgreeBelow(final, walked.seen, path)
    decreases limits.maxDepth + 1 - depth, 3, 0
  {
    if depth > limits.maxDepth {
      MirrorCutOff(final, path, a, b, MaxDepth, a.seen, b.seen);
    } else if Fits(limits, es1, a) {
      MirrorListing(limits, final, es1, n2, path, depth, a, b);
    } else {
      MirrorOverflow(limits, final, es1, n2, path, depth, a, b);
    }
  }

  lemma MirrorOverflow(
    limits: Limits, final: Seen, es1: seq<Entry>, n2: Node, path: Path, depth: nat, a: State, b: State)
    requires n2.Directory? && depth <= limits.maxDepth && AtDoor(final, path, a, b) && !Fits(limits, es1, a)
    requires var walked := WalkDirectory(limits, es1, path, depth, a).value;
      path in walked.seen && final[path] == walked.seen[path].(meta := final[path].meta)
        && AgreeBelow(final, walked.seen, path)
    requires VerifyDirectory(limits, final, n2, path, depth)
    ensures !ListingFails(limits, n2, depth, |b.files|) && WalkDirectory(limits, n2.entries, path, depth, b).Done?
    ensures var walked := WalkDirectory(limits, n2.entries, path, depth, b).value;
      && Mirrors(WalkDirectory(limits, es1, path, depth, a).value, walked, final)
      && path in walked.seen && walked.seen[path] == final[path] && AgreeBelow(final, walked.seen, path)
  {
    hide WalkDirectory, VerifyDirectory, AgreeBelow, NothingBelow, Mirrors, SameAt;
    MirrorsCount(a, b, final);
    OverflowWalk(limits, es1, path, depth, a);
    var oa := a.seen[path].(entryLimit := limits.maxFiles - |a.files|, overflow := true);
    assert final[path] == oa.(meta := final[path].meta);
    OverflowVerified(limits, final, n2, path, depth);
    OverflowWalk(limits, n2.entries, path, depth, b);
    UpdateFrame(a.seen, a.seen[path := oa], path, oa);
    UpdateFrame(b.seen, b.seen[path := final[path]], path, final[path]);
    MirrorCutOff(final, path, a, b, MaxFiles, a.seen[path := oa], b.seen[path := final[path]]);
  }

  lemma UpdateFrame(seen: Seen, more: Seen, path: Path, o: Observation)
    requires more == seen[path := o]
    ensures forall k :: k != path ==> SameAt(seen, more, k)
  {
  }

  lemma MirrorsCount(a: State, b: State, final: Seen)
    requires Mirrors(a, b, final)
    ensures |a.files| == |b.files|
  {
  }

  lemma OverflowWalk(limits: Limits, es: seq<Entry>, path: Path, depth: nat, st: State)
    requires path in st.seen && depth <= limits.maxDepth && !Fits(limits, es, st)
    ensures var o := st.seen[path].(entryLimit := limits.maxFiles - |st.files|, overflow := true);
      WalkDirectory(limits, es, path, depth, st) == Done(NoteLimit(Observe(st, path, o), MaxFiles, path))
  {
  }

  lemma OverflowVerified(limits: Limits, final: Seen, n2: Node, path: Path, depth: nat)
    requires n2.Directory? && depth <= limits.maxDepth && VerifyDirectory(limits, final, n2, path, depth)
    requires path in final && final[path].overflow
    ensures |n2.entries| > AtLeastZero(final[path].entryLimit)
  {
  }

  lemma {:induction false} MirrorListing(
    limits: Limits, final: Seen, es1: seq<Entry>, n2: Node, path: Path, depth: nat, a: State, b: State)
    requires n2.Directory? && ProperEntries(es1) && Proper(n2) && AllTyped(es1) && Typed(n2) && Settled(n2)
    requires depth <= limits.maxDepth && Fits(limits, es1, a)
    requires AtDoor(final, path, a, b) && WalkDirectory(limits, es1, path, depth, a).Done?
    requires var walked := WalkDirectory(limits, es1, path, depth, a).value;
      path in walked.seen && final[path] == walked.seen[path].(meta := final[path].meta)
        && AgreeBelow(final, walked.seen, path)
    requires VerifyDirectory(limits, final, n2, path, depth)
    requires FilesOpen(VisitDirectory(limits, n2.entries, path, depth, |b.files|))
    ensures !ListingFails(limits, n2, depth, |b.files|) && WalkDirectory(limits, n2.entries, path, depth, b).Done?
    ensures var walked := WalkDirectory(limits, n2.entries, path, depth, b).value;
      && Mirrors(WalkDirectory(limits, es1, path, depth, a).value, walked, final)
      && path in walked.seen && walked.seen[path] == final[path] && AgreeBelow(final, walked.seen, path)
    decreases limits.maxDepth + 1 - depth, 2, 0
  {
    hide WalkDirectory, WalkEntries, Mirrors, AgreeUnderAll, AgreeBelow, NothingUnderAll, Paired, VerifyEntries;
    hide Typed, Settled, Proper, ProperEntries, AllTyped;
    DoorOpens(limits, final, es1, n2, path, depth, a, b);
    OwnKeyStays(limits, n2.entries, path, depth, b);
    MirrorEntries(limits, final, InNameOrder(es1), InNameOrder(n2.entries), path, depth, Opened(limits, es1, path, a),
      Opened(limits, n2.entries, path, b));
    DoorCloses(limits, final, es1, n2, path, depth, a, b);
  }

  lemma MirrorCutOff(final: Seen, path: Path, a: State, b: State, code: Code, sa: Seen, sb: Seen)
    requires AtDoor(final, path, a, b) && AgreeBelow(final, sa, path)
    requires (forall k :: k != path ==> SameAt(a.seen, sa, k)) && forall k :: k != path ==> SameAt(b.seen, sb, k)
    ensures Mirrors(NoteLimit(a.(seen := sa), code, path), NoteLimit(b.(seen := sb), code, path), final)
    ensures AgreeBelow(final, sb, path)
  {
    CutOffsAppend(a.limitations, Notice(code, path));
    CutOffsAppend(b.limitations, Notice(code, path));
    forall k | Under(path, k) && k != path ensures SameAt(final, sb, k) {
      assert SameAt(final, sa, k) && SameAt(a.seen, sa, k) && SameAt(b.seen, sb, k);
    }
  }

  lemma OwnKeyStays(limits: Limits, es: seq<Entry>, path: Path, depth: nat, st: State)
    requires path in st.seen && depth <= limits.maxDepth && Fits(limits, es, st)
    ensures WalkDirectory(limits, es, path, depth, st) ==
      WalkEntries(limits, InNameOrder(es), path, depth, Opened(limits, es, path, st))
    ensures var walked := WalkDirectory(limits, es, path, depth, st);
      walked.Done? ==> SameAt(Opened(limits, es, path, st).seen, walked.value.seen, path)
  {
    var ordered := InNameOrder(es);
    forall i | 0 <= i < |ordered| ensures !Under(path + [ordered[i].name], path) {
      NotUnderItsChild(path, ordered[i].name);
    }
    EntriesFrame(limits, ordered, path, depth, Opened(limits, es, path, st), path);
  }

  lemma OpenedHasNothing(limits: Limits, es: seq<Entry>, path: Path, st: State, names: seq<Entry>)
    requires path in st.seen && NothingBelow(st.seen, path)
    ensures NothingUnderAll(Opened(limits, es, path, st).seen, path, names)
  {
    forall i, k | 0 <= i < |names| && Under(path + [names[i].name], k) ensures k !in Opened(limits, es, path, st).seen {
      ChildIsUnder(path, names[i].name, k);
    }
  }

  lemma BelowIsUnderAll(final: Seen, now: Seen, path: Path, es: seq<Entry>)
    requires AgreeBelow(final, now, path)
    ensures AgreeUnderAll(final, now, path, es)
  {
    forall i, k | 0 <= i < |es| && Under(path + [es[i].name], k) ensures SameAt(final, now, k) {
      ChildIsUnder(path, es[i].name, k);
    }
  }

  lemma PairedListings(es1: seq<Entry>, es2: seq<Entry>)
    requires ProperEntries(es1) && ProperEntries(es2) && AllTyped(es1) && AllTyped(es2)
    requires forall e <- es2 :: Settled(e.node)
    requires EntryNames(InNameOrder(es1)) == EntryNames(InNameOrder(es2))
    ensures Paired(InNameOrder(es1), InNameOrder(es2))
  {
    OrderedMembers(es1);
    OrderedMembers(es2);
    var o1, o2 := InNameOrder(es1), InNameOrder(es2);
    assert |EntryNames(o1)| == |o1| && |EntryNames(o2)| == |o2|;
    forall i | 0 <= i < |o1|
      ensures o1[i].name == o2[i].name && Typed(o1[i].node) && Typed(o2[i].node) && Settled(o2[i].node)
    {
      assert EntryNames(o1)[i] == o1[i].name && EntryNames(o2)[i] == o2[i].name;
      assert o1[i] in es1 && o2[i] in es2;
    }
  }

  /** Before the entries: both listings fit the same budget and carry the same names. */
  lemma DoorOpens(limits: Limits, final: Seen, es1: seq<Entry>, n2: Node, path: Path, depth: nat, a: State, b: State)
    requires n2.Directory? && ProperEntries(es1) && Proper(n2) && AllTyped(es1) && Typed(n2) && Settled(n2)
    requires depth <= limits.maxDepth
    requires AtDoor(final, path, a, b) && WalkDirectory(limits, es1, path, depth, a).Done? && Fits(limits, es1, a)
    requires var walked := WalkDirectory(limits, es1, path, depth, a).value;
      path in walked.seen && final[path] == walked.seen[path].(meta := final[path].meta)
        && AgreeBelow(final, walked.seen, path)
    requires VerifyDirectory(limits, final, n2, path, depth)
    ensures var o1, o2 := InNameOrder(es1), InNameOrder(n2.entries);
      var a0, b0 := Opened(limits, es1, path, a), Opened(limits, n2.entries, path, b);
      && Fits(limits, n2.entries, b) && Paired(o1, o2) && VerifyEntries(limits, final, o2, path, depth)
      && WalkEntries(limits, o1, path, depth, a0) == WalkDirectory(limits, es1, path, depth, a)
      && AgreeUnderAll(final, WalkEntries(limits, o1, path, depth, a0).value.seen, path, o1)
      && NothingUnderAll(a0.seen, path, o1) && NothingUnderAll(b0.seen, path, o1) && Mirrors(a0, b0, final)
      && b0.seen[path] == final[path]
  {
    OwnKeyStays(limits, es1, path, depth, a);
    var o1 := InNameOrder(es1);
    PairedListings(es1, n2.entries);
    BelowIsUnderAll(final, WalkDirectory(limits, es1, path, depth, a).value.seen, path, o1);
    OpenedHasNothing(limits, es1, path, a, o1);
    OpenedHasNothing(limits, n2.entries, path, b, o1);
  }

  /** After the entries: nothing else was seen below the directory on either side. */
  lemma DoorCloses(limits: Limits, final: Seen, es1: seq<Entry>, n2: Node, path: Path, depth: nat, a: State, b: State)
    requires n2.Directory? && depth <= limits.maxDepth && AtDoor(final, path, a, b)
    requires Fits(limits, es1, a) && Fits(limits, n2.entries, b)
    requires WalkDirectory(limits, es1, path, depth, a).Done? && WalkDirectory(limits, n2.entries, path, depth, b).Done?
    requires AgreeBelow(final, WalkDirectory(limits, es1, path, depth, a).value.seen, path)
    requires Paired(InNameOrder(es1), InNameOrder(n2.entries))
    requires AgreeUnderAll(final, WalkDirectory(limits, n2.entries, path, depth, b).value.seen, path, InNameOrder(es1))
    ensures AgreeBelow(final, WalkDirectory(limits, n2.entries, path, depth, b).value.seen, path)
    ensures path in WalkDirectory(limits, n2.entries, path, depth, b).value.seen
    ensures WalkDirectory(limits, n2.entries, path, depth, b).value.seen[path] ==
      Opened(limits, n2.entries, path, b).seen[path]
  {
    OwnKeyStays(limits, es1, path, depth, a);
    OwnKeyStays(limits, n2.entries, path, depth, b);
    var o1, o2 := InNameOrder(es1), InNameOrder(n2.entries);
    var a', b' :=
      WalkDirectory(limits, es1, path, depth, a).value, WalkDirectory(limits, n2.entries, path, depth, b).value;
    forall k | Under(path, k) && k != path ensures SameAt(final, b'.seen, k) {
      assert SameAt(final, a'.seen, k);
      if UnderSome(o1, path, k) {
        var i :| 0 <= i < |o1| && Under(path + [o1[i].name], k);
        assert AgreeUnder(final, b'.seen, path + [o1[i].name]);
      } else {
        NotUnderPaired(o1, o2, path, k);
        EntriesFrame(limits, o1, path, depth, Opened(limits, es1, path, a), k);
        EntriesFrame(limits, o2, path, depth, Opened(limits, n2.entries, path, b), k);
      }
    }
  }

  lemma NotUnderPaired(es1: seq<Entry>, es2: seq<Entry>, path: Path, k: Path)
    requires Paired(es1, es2) && !UnderSome(es1, path, k)
    ensures !UnderSome(es2, path, k)
  {
    forall i | 0 <= i < |es2| ensures !Under(path + [es2[i].name], k) {
      assert es1[i].name == es2[i].name && !Under(path + [es1[i].name], k);
    }
  }

  // ---------- the soundness theorem ----------

  /** The retained entries as the second pass can vouch for them: mode and size from the final observation. */
  ghost predicate Reproduced(first: State, again: State) {
    && again.seen == first.seen
    && |again.files| == |first.files|
    && (forall i :: 0 <= i < |first.files| ==> SameEntry(first.files[i], again.files[i], first.seen))
    && CutOffs(again.limitations) == CutOffs(first.limitations)
  }

  /**
   If the second pass accepts a snapshot against the first pass's observations, then walking that snapshot from
   scratch reproduces the observation map, the entries and every cut-off. It completes exactly when the regular
   files it comes to can be opened, which the second pass does not try.
   */
  lemma SecondPassIsSound(limits: Limits, t1: Node, t2: Node)
    requires t1.Directory? && Proper(t1) && Typed(t1) && FirstPass(limits, t1).Done?
    requires t2.Directory? && Proper(t2) && Typed(t2) && Settled(t2)
    requires SecondPass(limits, FirstPass(limits, t1).value.seen, t2)
    ensures FirstPass(limits, t2).Done? <==> FilesOpen(Visits(limits, t2))
    ensures FirstPass(limits, t2).Done? ==> Reproduced(FirstPass(limits, t1).value, FirstPass(limits, t2).value)
  {
    if FilesOpen(Visits(limits, t2)) {
      OpenSnapshotReproduces(limits, t1, t2);
    }
    if FirstPass(limits, t2).Done? {
      DirectoryOpens(limits, t2.entries, [], 0, Start(t2));
    }
  }

  lemma OpenSnapshotReproduces(limits: Limits, t1: Node, t2: Node)
    requires t1.Directory? && Proper(t1) && Typed(t1) && FirstPass(limits, t1).Done?
    requires t2.Directory? && Proper(t2) && Typed(t2) && Settled(t2)
    requires SecondPass(limits, FirstPass(limits, t1).value.seen, t2) && FilesOpen(Visits(limits, t2))
    ensures FirstPass(limits, t2).Done? && Reproduced(FirstPass(limits, t1).value, FirstPass(limits, t2).value)
  {
    var final := FirstPass(limits, t1).value.seen;
    var a, b := Start(t1), Start(t2);
    DirectoryFrame(limits, t1.entries, [], 0, a);
    var a' := WalkDirectory(limits, t1.entries, [], 0, a).value;
    RootIsPinned(limits, final, t2);
    MirrorDirectory(limits, final, t1.entries, t2, [], 0, a, b);
    var b' := WalkDirectory(limits, t2.entries, [], 0, b).value;
    StableIsEqual(t2.listed, t2.closed);
    var again := FirstPass(limits, t2).value;
    assert again == Observe(b', [], final[[]]);
    forall k ensures SameAt(final, again.seen, k) {
      assert Under([], k);
      if k != [] { assert SameAt(final, b'.seen, k); }
    }
    SameMaps(final, again.seen);
  }

  lemma RootIsPinned(limits: Limits, final: Seen, t2: Node)
    requires t2.Directory? && Settled(t2) && SecondPass(limits, final, t2)
    ensures [] in final && final[[]].meta == t2.pinned == t2.listed
  {
    StableIsEqual(final[[]].meta, t2.pinned);
  }

  lemma SameMaps(a: Seen, b: Seen)
    requires forall k :: SameAt(a, b, k)
    ensures a == b
  {
    forall k ensures k in a <==> k in b { assert SameAt(a, b, k); }
    forall k | k in a ensures a[k] == b[k] { assert SameAt(a, b, k); }
  }
}

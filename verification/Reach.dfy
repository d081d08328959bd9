/**
 Where a walk comes to: the entries it takes up, in order, as a function of the tree and the limits alone. What
 the readings say decides only whether the walk gets to the end of this list.
 */
module Reach {
  import opened Inventory
  import opened WalkerClass

  /** An entry at its path, and whether the walk goes on to list it as a directory within its budgets. */
  datatype Visit = Visit(path: Path, entry: Entry, lists: bool)

  function VisitDirectory(limits: Limits, entries: seq<Entry>, path: Path, depth: nat, count: nat): seq<Visit>
    decreases limits.maxDepth + 1 - depth, 1, 0
  {
    if depth > limits.maxDepth || |entries| > AtLeastZero(limits.maxFiles - count) then []
    else VisitEntries(limits, InNameOrder(entries), path, depth, count)
  }

  function VisitEntries(limits: Limits, es: seq<Entry>, path: Path, depth: nat, count: nat): seq<Visit>
    requires depth <= limits.maxDepth
    decreases limits.maxDepth + 1 - depth, 0, |es|
  {
    if es == [] then []
    else
      var first := VisitEntry(limits, es[0], path, depth, count);
      first + VisitEntries(limits, es[1..], path, depth, count + |first|)
  }

  function VisitEntry(limits: Limits, e: Entry, path: Path, depth: nat, count: nat): seq<Visit>
    requires depth <= limits.maxDepth
    decreases limits.maxDepth + 1 - depth, 0, 0
  {
    var child := path + [e.name];
    [Visit(child, e, Lists(limits, e.node, depth + 1, count + 1))]
    + if e.node.Directory? then VisitDirectory(limits, e.node.entries, child, depth + 1, count + 1) else []
  }

  predicate Lists(limits: Limits, node: Node, depth: nat, count: nat) {
    node.Directory? && depth <= limits.maxDepth && |node.entries| <= AtLeastZero(limits.maxFiles - count)
  }

  /** Every entry that a walk of this target takes up. */
  function Visits(limits: Limits, root: Node): seq<Visit>
    requires root.Directory?
  {
    VisitDirectory(limits, root.entries, [], 0, 0)
  }

  /** A regular file that the walk inspects can be opened; git's databases are not inspected. */
  predicate FileOpens(path: Path, node: Node) {
    node.Regular? && !GitDatabasePath(path) ==> node.content.opens
  }

  predicate FilesOpen(visits: seq<Visit>) {
    forall v <- visits :: FileOpens(v.path, v.entry.node)
  }

  /** What the first pass asks of the access to an entry. */
  predicate Enters(v: Visit) {
    && v.entry.stats && FileOpens(v.path, v.entry.node)
    && (v.entry.node.Directory? ==> v.entry.node.opens && (v.lists ==> v.entry.node.complete))
  }

  predicate AllEnter(visits: seq<Visit>) {
    forall v <- visits :: Enters(v)
  }

  lemma AllEnterSplits(v: seq<Visit>, w: seq<Visit>)
    ensures AllEnter(v + w) <==> AllEnter(v) && AllEnter(w)
  {
    assert forall x :: x in v + w <==> x in v || x in w;
  }

  predicate UnreadLink(v: Visit) {
    v.entry.node.Symlink? && v.entry.node.target.None?
  }

  predicate SomeUnread(visits: seq<Visit>) {
    exists v <- visits :: UnreadLink(v)
  }

  lemma SomeUnreadSplits(v: seq<Visit>, w: seq<Visit>)
    ensures SomeUnread(v + w) <==> SomeUnread(v) || SomeUnread(w)
  {
    assert forall x :: x in v + w <==> x in v || x in w;
  }

  lemma FilesOpenSplits(v: seq<Visit>, w: seq<Visit>)
    ensures FilesOpen(v + w) <==> FilesOpen(v) && FilesOpen(w)
  {
    assert forall x :: x in v + w <==> x in v || x in w;
  }

  lemma OpenFirst(limits: Limits, es: seq<Entry>, path: Path, depth: nat, count: nat)
    requires depth <= limits.maxDepth && es != [] && FilesOpen(VisitEntries(limits, es, path, depth, count))
    ensures var v := VisitEntry(limits, es[0], path, depth, count);
      FilesOpen(v) && FilesOpen(VisitEntries(limits, es[1..], path, depth, count + |v|))
  {
    var v := VisitEntry(limits, es[0], path, depth, count);
    FilesOpenSplits(v, VisitEntries(limits, es[1..], path, depth, count + |v|));
  }

  // ---------- a completed walk retains its visits ----------

  /** The records after a stretch of the walk: one for each visit, after those before. */
  ghost predicate Retains(before: seq<Record>, after: seq<Record>, visits: seq<Visit>) {
    && |after| == |before| + |visits| && after[..|before|] == before
    && forall i :: 0 <= i < |visits| ==>
      after[|before| + i].(inspection := NotInspected) == RecordFor(visits[i].path, visits[i].entry.node)
  }

  lemma RetainsMore(a: seq<Record>, b: seq<Record>, c: seq<Record>, v: seq<Visit>, w: seq<Visit>)
    requires Retains(a, b, v) && Retains(b, c, w)
    ensures Retains(a, c, v + w)
  {
    assert c[..|a|] == c[..|b|][..|a|];
    forall i | 0 <= i < |v + w|
      ensures c[|a| + i].(inspection := NotInspected) == RecordFor((v + w)[i].path, (v + w)[i].entry.node)
    {
      if i < |v| {
        assert c[|a| + i] == c[..|b|][|a| + i] == b[|a| + i];
      } else {
        assert c[|a| + i] == c[|b| + (i - |v|)];
      }
    }
  }

  lemma LeafRetained(limits: Limits, e: Entry, path: Path, depth: nat, st: State)
    requires depth <= limits.maxDepth && !e.node.Directory? && WalkEntry(limits, e, path, depth, st).Done?
    ensures Retains(st.files, WalkEntry(limits, e, path, depth, st).value.files,
                    VisitEntry(limits, e, path, depth, |st.files|))
  {
    hide Stable, ElfHeader, GitDatabasePath;
    var after := WalkEntry(limits, e, path, depth, st).value;
    assert |after.files| == |st.files| + 1 && after.files[..|st.files|] == st.files;
  }

  lemma {:induction false} EntryRetained(limits: Limits, e: Entry, path: Path, depth: nat, st: State)
    requires depth <= limits.maxDepth && WalkEntry(limits, e, path, depth, st).Done?
    ensures Retains(st.files, WalkEntry(limits, e, path, depth, st).value.files,
                    VisitEntry(limits, e, path, depth, |st.files|))
    decreases limits.maxDepth + 1 - depth, 0, 0
  {
    if !e.node.Directory? {
      LeafRetained(limits, e, path, depth, st);
    } else {
      var child := path + [e.name];
      var entered := Append(Observe(st, child, Listed(e.node.listed)), RecordFor(child, e.node));
      DirectoryRetained(limits, e.node.entries, child, depth + 1, entered);
      var own := Visit(child, e, Lists(limits, e.node, depth + 1, |st.files| + 1));
      RetainsMore(st.files, entered.files, WalkEntry(limits, e, path, depth, st).value.files, [own],
                  VisitDirectory(limits, e.node.entries, child, depth + 1, |st.files| + 1));
    }
  }

  lemma {:induction false} EntriesRetained(limits: Limits, es: seq<Entry>, path: Path, depth: nat, st: State)
    requires depth <= limits.maxDepth && WalkEntries(limits, es, path, depth, st).Done?
    ensures Retains(st.files, WalkEntries(limits, es, path, depth, st).value.files,
                    VisitEntries(limits, es, path, depth, |st.files|))
    decreases limits.maxDepth + 1 - depth, 0, |es|
  {
    if es != [] {
      var first := WalkEntry(limits, es[0], path, depth, st).value;
      var v := VisitEntry(limits, es[0], path, depth, |st.files|);
      EntryRetained(limits, es[0], path, depth, st);
      EntriesRetained(limits, es[1..], path, depth, first);
      RetainsMore(st.files, first.files, WalkEntries(limits, es, path, depth, st).value.files, v,
                  VisitEntries(limits, es[1..], path, depth, |first.files|));
    }
  }

  lemma {:induction false} DirectoryRetained(limits: Limits, entries: seq<Entry>, path: Path, depth: nat, st: State)
    requires path in st.seen && WalkDirectory(limits, entries, path, depth, st).Done?
    ensures Retains(st.files, WalkDirectory(limits, entries, path, depth, st).value.files,
                    VisitDirectory(limits, entries, path, depth, |st.files|))
    decreases limits.maxDepth + 1 - depth, 1, 0
  {
    if depth <= limits.maxDepth && |entries| <= AtLeastZero(limits.maxFiles - |st.files|) {
      var ordered := InNameOrder(entries);
      var current := st.seen[path].(
        entryLimit := limits.maxFiles - |st.files|, overflow := false, children := EntryNames(ordered));
      EntriesRetained(limits, ordered, path, depth, Observe(st, path, current));
    }
  }

  /** On any target, a first pass that completes retains one record for each visit, in order. */
  lemma FirstPassRetains(limits: Limits, root: Node)
    requires root.Directory? && FirstPass(limits, root).Done?
    ensures Retains([], FirstPass(limits, root).value.files, Visits(limits, root))
  {
    DirectoryRetained(limits, root.entries, [], 0, Start(root));
  }

  // ---------- a completed walk opened its files ----------

  lemma LeafOpens(limits: Limits, e: Entry, path: Path, depth: nat, st: State)
    requires depth <= limits.maxDepth && !e.node.Directory? && WalkEntry(limits, e, path, depth, st).Done?
    ensures FilesOpen(VisitEntry(limits, e, path, depth, |st.files|))
  {
  }

  lemma {:induction false} EntryOpens(limits: Limits, e: Entry, path: Path, depth: nat, st: State)
    requires depth <= limits.maxDepth && WalkEntry(limits, e, path, depth, st).Done?
    ensures FilesOpen(VisitEntry(limits, e, path, depth, |st.files|))
    decreases limits.maxDepth + 1 - depth, 0, 0
  {
    if !e.node.Directory? {
      LeafOpens(limits, e, path, depth, st);
    } else {
      var child := path + [e.name];
      var entered := Append(Observe(st, child, Listed(e.node.listed)), RecordFor(child, e.node));
      DirectoryOpens(limits, e.node.entries, child, depth + 1, entered);
    }
  }

  lemma {:induction false} EntriesOpen(limits: Limits, es: seq<Entry>, path: Path, depth: nat, st: State)
    requires depth <= limits.maxDepth && WalkEntries(limits, es, path, depth, st).Done?
    ensures FilesOpen(VisitEntries(limits, es, path, depth, |st.files|))
    decreases limits.maxDepth + 1 - depth, 0, |es|
  {
    if es != [] {
      EntryOpens(limits, es[0], path, depth, st);
      EntryRetained(limits, es[0], path, depth, st);
      EntriesOpen(limits, es[1..], path, depth, WalkEntry(limits, es[0], path, depth, st).value);
    }
  }

  lemma {:induction false} DirectoryOpens(limits: Limits, entries: seq<Entry>, path: Path, depth: nat, st: State)
    requires path in st.seen && WalkDirectory(limits, entries, path, depth, st).Done?
    ensures FilesOpen(VisitDirectory(limits, entries, path, depth, |st.files|))
    decreases limits.maxDepth + 1 - depth, 1, 0
  {
    if depth <= limits.maxDepth && |entries| <= AtLeastZero(limits.maxFiles - |st.files|) {
      var ordered := InNameOrder(entries);
      var current := st.seen[path].(
        entryLimit := limits.maxFiles - |st.files|, overflow := false, children := EntryNames(ordered));
      EntriesOpen(limits, ordered, path, depth, Observe(st, path, current));
    }
  }

  // ---------- no path is visited twice ----------

  ghost predicate DistinctVisits(visits: seq<Visit>) {
    forall i, j :: 0 <= i < j < |visits| ==> visits[i].path != visits[j].path
  }

  /** Every visit lies at this path or below it, one clean name after the other. */
  ghost predicate VisitsBelow(visits: seq<Visit>, path: Path) {
    forall v <- visits :: path <= v.path && forall name <- v.path[|path|..] :: CleanName(name)
  }

  lemma VisitsFurtherUp(visits: seq<Visit>, path: Path, name: string)
    requires VisitsBelow(visits, path + [name]) && CleanName(name)
    ensures VisitsBelow(visits, path) && forall v <- visits :: |v.path| > |path| && v.path[|path|] == name
  {
    forall v | v in visits
      ensures path <= v.path && |v.path| > |path| && v.path[|path|] == name
      ensures forall other <- v.path[|path|..] :: CleanName(other)
    {
      assert path + [name] <= v.path && (path + [name])[|path|] == name;
      assert v.path[|path|..] == [name] + v.path[|path| + 1..];
    }
  }

  lemma DistinctConcat(v: seq<Visit>, w: seq<Visit>)
    requires DistinctVisits(v) && DistinctVisits(w) && forall a <- v, b <- w :: a.path != b.path
    ensures DistinctVisits(v + w)
  {
  }

  lemma BelowConcat(v: seq<Visit>, w: seq<Visit>, path: Path)
    requires VisitsBelow(v, path) && VisitsBelow(w, path)
    ensures VisitsBelow(v + w, path)
  {
  }

  lemma {:induction false} EntryVisitsDistinct(limits: Limits, e: Entry, path: Path, depth: nat, count: nat)
    requires depth <= limits.maxDepth && Proper(e.node)
    ensures DistinctVisits(VisitEntry(limits, e, path, depth, count))
    ensures VisitsBelow(VisitEntry(limits, e, path, depth, count), path + [e.name])
    decreases limits.maxDepth + 1 - depth, 0, 0
  {
    var child := path + [e.name];
    var own := [Visit(child, e, Lists(limits, e.node, depth + 1, count + 1))];
    assert child[|child|..] == [];
    if e.node.Directory? {
      var below := VisitDirectory(limits, e.node.entries, child, depth + 1, count + 1);
      DirectoryVisitsDistinct(limits, e.node.entries, child, depth + 1, count + 1);
      DistinctConcat(own, below);
      BelowConcat(own, below, child);
    }
  }

  lemma {:induction false} DirectoryVisitsDistinct(
    limits: Limits, es: seq<Entry>, path: Path, depth: nat, count: nat)
    requires ProperEntries(es)
    ensures var visits := VisitDirectory(limits, es, path, depth, count);
      DistinctVisits(visits) && VisitsBelow(visits, path) && forall v <- visits :: v.path != path
    decreases limits.maxDepth + 1 - depth, 1, 0
  {
    if depth <= limits.maxDepth && |es| <= AtLeastZero(limits.maxFiles - count) {
      InNameOrderProper(es);
      EntriesVisitsDistinct(limits, InNameOrder(es), path, depth, count);
    }
  }

  /** The names under which these entries are visited are theirs. */
  ghost predicate NamedAmong(visits: seq<Visit>, path: Path, es: seq<Entry>) {
    forall v <- visits :: |v.path| > |path| && exists i :: 0 <= i < |es| && es[i].name == v.path[|path|]
  }

  lemma {:induction false} EntriesVisitsDistinct(limits: Limits, es: seq<Entry>, path: Path, depth: nat, count: nat)
    requires depth <= limits.maxDepth && ProperEntries(es)
    ensures var visits := VisitEntries(limits, es, path, depth, count);
      DistinctVisits(visits) && VisitsBelow(visits, path) && NamedAmong(visits, path, es)
    decreases limits.maxDepth + 1 - depth, 0, |es|
  {
    if es != [] {
      var first := VisitEntry(limits, es[0], path, depth, count);
      var rest := VisitEntries(limits, es[1..], path, depth, count + |first|);
      EntryVisitsDistinct(limits, es[0], path, depth, count);
      VisitsFurtherUp(first, path, es[0].name);
      EntriesVisitsDistinct(limits, es[1..], path, depth, count + |first|);
      SiblingVisits(first, rest, path, es);
    }
  }

  lemma SiblingVisits(first: seq<Visit>, rest: seq<Visit>, path: Path, es: seq<Entry>)
    requires es != [] && ProperEntries(es) && NamedAmong(rest, path, es[1..])
    requires forall v <- first :: |v.path| > |path| && v.path[|path|] == es[0].name
    requires DistinctVisits(first) && DistinctVisits(rest) && VisitsBelow(first, path) && VisitsBelow(rest, path)
    ensures DistinctVisits(first + rest) && VisitsBelow(first + rest, path) && NamedAmong(first + rest, path, es)
  {
    forall b | b in rest
      ensures b.path[|path|] != es[0].name && exists i :: 0 <= i < |es| && es[i].name == b.path[|path|]
    {
      var i :| 0 <= i < |es[1..]| && es[1..][i].name == b.path[|path|];
      assert es[i + 1].name == b.path[|path|];
    }
    DistinctConcat(first, rest);
    BelowConcat(first, rest, path);
  }

  /** No two visits of a walk have the same path, and paths are made of clean names. */
  lemma VisitsAreDistinct(limits: Limits, root: Node)
    requires root.Directory? && Proper(root)
    ensures DistinctVisits(Visits(limits, root)) && VisitsBelow(Visits(limits, root), [])
  {
    DirectoryVisitsDistinct(limits, root.entries, [], 0, 0);
  }
}

/**
 The walker as it runs: counters, slices and the observation map are fields that the recursion updates.
 Both passes are proved to compute exactly what module Inventory says.
 */
module WalkerClass {
  import opened Text
  import opened Sorting
  import opened ReportModel
  import opened Inventory

  /** What every filesystem guarantees: names are distinct within a directory, and each is one path component. */
  ghost predicate ProperEntries(es: seq<Entry>) {
    && (forall i, j :: 0 <= i < j < |es| ==> es[i].name != es[j].name)
    && (forall e <- es :: CleanName(e.name) && Proper(e.node))
  }

  ghost predicate Proper(node: Node) {
    node.Directory? ==> ProperEntries(node.entries)
  }

  lemma NameOrder()
    ensures StrictWeakOrder(NameLess)
  {
    KeyOrder((e: Entry) => e.name, NameLess);
  }

  lemma PermutedNames(es: seq<Entry>, fs: seq<Entry>)
    requires multiset(es) == multiset(fs) && ProperEntries(es)
    ensures ProperEntries(fs)
  {
    SameMembers(es, fs);
    assert Distinct(es);
    DistinctPermutation(es, fs);
    forall i, j | 0 <= i < j < |fs| ensures fs[i].name != fs[j].name {
      assert fs[i] in es && fs[j] in es && fs[i] != fs[j];
    }
  }

  /** With distinct names there is one sorted listing, whatever order the directory was read in. */
  lemma NameOrderIsUnique(es: seq<Entry>, sorted: seq<Entry>)
    requires ProperEntries(es) && SortedPermutation(es, sorted, NameLess)
    ensures sorted == InNameOrder(es) && ProperEntries(sorted)
  {
    NameOrder();
    SortedBySorts(es, NameLess);
    PermutedNames(es, sorted);
    DistinctKeysAreDecided(sorted, (e: Entry) => e.name, NameLess);
    SortedPermutationIsUnique(sorted, InNameOrder(es), NameLess);
  }

  lemma InNameOrderProper(es: seq<Entry>)
    requires ProperEntries(es)
    ensures ProperEntries(InNameOrder(es)) && multiset(InNameOrder(es)) == multiset(es)
  {
    NameOrder();
    SortedBySorts(es, NameLess);
    PermutedNames(es, InNameOrder(es));
  }

  method SortEntries(es: seq<Entry>) returns (sorted: seq<Entry>)
    requires ProperEntries(es)
    ensures sorted == InNameOrder(es)
  {
    NameOrder();
    sorted := SortSlice(es, NameLess);
    NameOrderIsUnique(es, sorted);
  }

  /**
   `readDirBounded`: batches of at most 128, giving up once the limit is passed. An error after the entries at
   hand counts only if they stay within the limit.
   */
  method ReadBounded(directory: seq<Entry>, complete: bool, limit: int)
    returns (entries: seq<Entry>, exceeded: bool, failed: bool)
    ensures exceeded <==> |directory| > AtLeastZero(limit)
    ensures failed <==> !complete && !exceeded
    ensures !exceeded && !failed ==> entries == directory
  {
    var bound := AtLeastZero(limit);
    entries := [];
    while true
      invariant entries <= directory && |entries| <= bound
      decreases |directory| - |entries|
    {
      var room := bound + 1 - |entries|;
      var batch := if room < 128 then room else 128;
      var left := |directory| - |entries|;
      var take := if left < batch then left else batch;
      var before := |entries|;
      entries := directory[..before + take];
      if |entries| > bound {
        return [], true, false;
      }
      if take == 0 {
        return entries, false, !complete;
      }
    }
  }

  class Walker {
    const limits: Limits
    var files: seq<Record>
    var limitations: seq<Notice>
    var errors: seq<Notice>
    var readBytes: nat
    var binaryBytes: nat
    var seen: map<Path, Observation>

    constructor (limits: Limits, rootInfo: Meta)
      ensures this.limits == limits
      ensures Snapshot() == State([], [], [], 0, 0, map[[] := Listed(rootInfo)])
    {
      this.limits := limits;
      files, limitations, errors, readBytes, binaryBytes := [], [], [], 0, 0;
      seen := map[[] := Listed(rootInfo)];
    }

    function Snapshot(): State
      reads this
    {
      State(files, limitations, errors, readBytes, binaryBytes, seen)
    }

    method AddLimit(code: Code, path: Path)
      modifies this`limitations
      ensures Snapshot() == NoteLimit(old(Snapshot()), code, path)
    {
      limitations := limitations + [Notice(code, path)];
    }

    method AddError(code: Code, path: Path)
      modifies this`errors
      ensures Snapshot() == NoteError(old(Snapshot()), code, path)
    {
      errors := errors + [Notice(code, path)];
    }

    method InspectBinary(listed: Meta, closed: Meta, content: Content, file: Record) returns (out: Record, ok: bool)
      modifies this`limitations, this`errors, this`binaryBytes
      ensures InspectElf(limits, listed, closed, content, file, old(Snapshot())) == if ok then Done((Snapshot(), out))
        else Aborted
    {
      out := file;
      if listed.size > limits.maxBinaryFileBytes {
        AddLimit(MaxBinaryFileBytes, file.path);
        return out, true;
      }
      if binaryBytes + listed.size > limits.maxBinaryReadBytes {
        AddLimit(MaxBinaryTotalBytes, file.path);
        return out, true;
      }
      if !content.readable {
        AddError(ReadBinaryError, file.path);
        return out, Stable(listed, closed);
      }
      var data := ReadUpTo(content.bytes, limits.maxBinaryFileBytes);
      if |data| != listed.size {
        return out, false;
      }
      binaryBytes := binaryBytes + |data|;
      out := out.(inspection := Elf(data));
      if !content.elfParses {
        AddLimit(ElfParseError, file.path);
      }
      ok := true;
    }

    method InspectSource(listed: Meta, closed: Meta, content: Content, file: Record) returns (out: Record, ok: bool)
      modifies this`limitations, this`errors, this`binaryBytes, this`readBytes
      ensures InspectContent(limits, listed, closed, content, file, old(Snapshot())) ==
        if ok then Done((Snapshot(), out)) else Aborted
    {
      out := file;
      if !content.seekable {
        AddError(SeekError, file.path);
        return out, true;
      }
      if ElfHeader(content.bytes) {
        out, ok := InspectBinary(listed, closed, content, file);
        return;
      }
      if listed.size > limits.maxFileBytes {
        AddLimit(MaxFileBytes, file.path);
        return out, true;
      }
      if readBytes + listed.size > limits.maxReadBytes {
        AddLimit(MaxTotalBytes, file.path);
        return out, true;
      }
      if !content.readable {
        AddError(ReadError, file.path);
        return out, true;
      }
      var data := ReadUpTo(content.bytes, limits.maxFileBytes);
      if |data| > limits.maxFileBytes {
        return out, false;
      }
      readBytes := readBytes + |data|;
      out := out.(inspection := Source(data));
      ok := true;
    }

    method VisitLeaf(node: Node, path: Path) returns (ok: bool)
      requires !node.Directory?
      modifies this
      ensures WalkLeaf(limits, node, path, old(Snapshot())) == if ok then Done(Snapshot()) else Aborted
    {
      var file := RecordFor(path, node);
      seen := seen[path := Listed(node.listed)];
      match node {
        case Symlink(listed, closed, target) =>
          if target.None? {
            AddError(ReadlinkError, path);
          } else {
            seen := seen[path := seen[path].(linkTarget := target.value)];
          }
          if !Stable(listed, closed) {
            return false;
          }
          files := files + [file];
        case Regular(listed, pinned, closed, content) =>
          if GitDatabasePath(path) {
            file := file.(inspection := SkippedGit);
            if !Stable(listed, closed) {
              return false;
            }
          } else {
            var inspected;
            file, inspected := PinAndInspect(node, file);
            if !inspected {
              return false;
            }
          }
          files := files + [file];
        case Special(listed, closed) =>
          files := files + [file];
          AddLimit(SpecialFile, path);
          if !Stable(listed, closed) {
            return false;
          }
      }
      ok := true;
    }

    method PinAndInspect(node: Node, file: Record) returns (out: Record, ok: bool)
      requires node.Regular?
      modifies this`limitations, this`errors, this`binaryBytes, this`readBytes
      ensures InspectRegular(limits, node, file, old(Snapshot())) == if ok then Done((Snapshot(), out))
        else Aborted
    {
      if !node.content.opens || !SameFile(node.listed, node.pinned) {
        return file, false;
      }
      out, ok := InspectSource(node.listed, node.closed, node.content, file);
      ok := ok && Stable(node.pinned, node.closed);
    }

    method Walk(node: Node, path: Path, depth: nat) returns (ok: bool)
      requires node.Directory? && path in seen && Proper(node)
      modifies this
      ensures WalkFolder(limits, node, path, depth, old(Snapshot())) == if ok then Done(Snapshot()) else Aborted
      decreases limits.maxDepth + 1 - depth, 2
    {
      if depth > limits.maxDepth {
        AddLimit(MaxDepth, path);
        return true;
      }
      var remaining := limits.maxFiles - |files|;
      var entries, exceeded, failed := ReadBounded(node.entries, node.complete, remaining);
      if failed {
        return false;
      }
      var current := seen[path];
      current := current.(entryLimit := remaining, overflow := exceeded);
      if exceeded {
        seen := seen[path := current];
        AddLimit(MaxFiles, path);
        return true;
      }
      entries := SortEntries(entries);
      InNameOrderProper(node.entries);
      seen := seen[path := current.(children := EntryNames(entries))];
      ok := VisitAll(entries, path, depth);
    }

    method VisitAll(entries: seq<Entry>, path: Path, depth: nat) returns (ok: bool)
      requires depth <= limits.maxDepth && ProperEntries(entries)
      modifies this
      ensures WalkEntries(limits, entries, path, depth, old(Snapshot())) == if ok then Done(Snapshot())
        else Aborted
      decreases limits.maxDepth + 1 - depth, 1
    {
      ghost var start := Snapshot();
      var k := 0;
      while k < |entries|
        invariant 0 <= k <= |entries|
        invariant WalkEntries(limits, entries, path, depth, start) ==
          WalkEntries(limits, entries[k..], path, depth, Snapshot())
      {
        assert entries[k..][1..] == entries[k + 1..];
        ok := Visit(entries[k], path, depth);
        if !ok {
          return;
        }
        k := k + 1;
      }
      ok := true;
    }

    method Visit(e: Entry, path: Path, depth: nat) returns (ok: bool)
      requires depth <= limits.maxDepth && Proper(e.node)
      modifies this
      ensures WalkEntry(limits, e, path, depth, old(Snapshot())) == if ok then Done(Snapshot()) else Aborted
      decreases limits.maxDepth + 1 - depth, 0
    {
      var child := path + [e.name];
      if !e.stats {
        return false;
      }
      if !e.node.Directory? {
        ok := VisitLeaf(e.node, child);
        return;
      }
      seen := seen[child := Listed(e.node.listed)];
      files := files + [RecordFor(child, e.node)];
      if !e.node.opens || !SameFile(e.node.listed, e.node.pinned) {
        return false;
      }
      ok := Walk(e.node, child, depth + 1);
      if !ok || child !in seen || !Stable(e.node.pinned, e.node.closed) {
        return false;
      }
      seen := seen[child := seen[child].(meta := e.node.closed)];
    }

    method VerifyTree(node: Node, path: Path, depth: nat) returns (ok: bool)
      requires node.Directory? && Proper(node)
      ensures ok <==> VerifyDirectory(limits, seen, node, path, depth)
      decreases limits.maxDepth + 1 - depth, 1
    {
      hide Stable, InNameOrder, AtLeastZero, VerifyEntry;
      if depth > limits.maxDepth {
        return true;
      }
      if path !in seen || !Stable(seen[path].meta, node.pinned) {
        return false;
      }
      var o := seen[path];
      var entries, exceeded, failed := ReadBounded(node.entries, node.complete, o.entryLimit);
      if failed {
        return false;
      }
      if o.overflow {
        return exceeded;
      }
      if exceeded {
        return false;
      }
      entries := SortEntries(entries);
      InNameOrderProper(node.entries);
      if |entries| != |o.children| {
        return false;
      }
      var k := 0;
      while k < |entries|
        invariant 0 <= k <= |entries|
        invariant forall j :: 0 <= j < k ==> entries[j].name == o.children[j]
        invariant VerifyEntries(limits, seen, entries, path, depth) ==
          VerifyEntries(limits, seen, entries[k..], path, depth)
      {
        var e := entries[k];
        assert entries[k..][1..] == entries[k + 1..];
        if e.name != o.children[k] {
          return false;
        }
        var same := VerifyChild(e, path, depth);
        if !same {
          return false;
        }
        k := k + 1;
      }
      ok := true;
    }

    /** One iteration of the second pass at an entry whose name is the expected one. */
    method VerifyChild(e: Entry, path: Path, depth: nat) returns (ok: bool)
      requires depth <= limits.maxDepth && Proper(e.node)
      ensures ok <==> VerifyEntry(limits, seen, e, path, depth)
      decreases limits.maxDepth + 1 - depth, 0
    {
      hide Stable, VerifyDirectory;
      var child := path + [e.name];
      if child !in seen || !e.stats || !Stable(seen[child].meta, e.node.listed) {
        return false;
      }
      match e.node {
        case Symlink(_, _, target) =>
          ok := target == Some(seen[child].linkTarget);
        case Directory(_, _, _, _, _, _) =>
          if !e.node.opens {
            return false;
          }
          ok := VerifyTree(e.node, child, depth + 1);
        case _ =>
          ok := true;
      }
    }
  }

  /** Paths join their components by slashes, as `path.Join` does on clean names. */
  function PathText(p: Path): string {
    if p == [] then "." else if |p| == 1 then p[0] else PathText(p[..|p| - 1]) + "/" + p[|p| - 1]
  }

  ghost predicate CleanName(name: string) {
    name != "" && name != "." && name != ".." && '/' !in name
  }

  function TailLength(s: string): nat {
    if s == "" || s[|s| - 1] == '/' then 0 else 1 + TailLength(s[..|s| - 1])
  }

  lemma {:induction false} TailOfJoin(a: string, b: string)
    requires '/' !in b
    ensures TailLength(a + "/" + b) == |b|
    decreases |b|
  {
    var s := a + "/" + b;
    if b != "" {
      assert s[..|s| - 1] == a + "/" + b[..|b| - 1];
      TailOfJoin(a, b[..|b| - 1]);
    }
  }

  lemma LastSlash(a: string, b: string, c: string, d: string)
    requires '/' !in b && '/' !in d && a + "/" + b == c + "/" + d
    ensures a == c && b == d
  {
    var s := a + "/" + b;
    TailOfJoin(a, b);
    TailOfJoin(c, d);
    assert s[..|a|] == a && s[..|c|] == c && s[|a| + 1..] == b && s[|c| + 1..] == d;
  }

  lemma JoinedHasSlash(p: Path)
    requires |p| > 1
    ensures '/' in PathText(p)
  {
    assert PathText(p)[|PathText(p[..|p| - 1])|] == '/';
  }

  /** Component lists and joined paths correspond one to one, so observations may be keyed by either. */
  lemma {:induction false} PathTextInjective(p: Path, q: Path)
    requires (forall name <- p :: CleanName(name)) && (forall name <- q :: CleanName(name))
    requires PathText(p) == PathText(q)
    ensures p == q
    decreases |p|
  {
    if |p| > 1 && |q| > 1 {
      assert p[|p| - 1] in p && q[|q| - 1] in q;
      LastSlash(PathText(p[..|p| - 1]), p[|p| - 1], PathText(q[..|q| - 1]), q[|q| - 1]);
      PathTextInjective(p[..|p| - 1], q[..|q| - 1]);
      assert p == p[..|p| - 1] + [p[|p| - 1]] && q == q[..|q| - 1] + [q[|q| - 1]];
    } else {
      if |p| > 1 { JoinedHasSlash(p); }
      if |q| > 1 { JoinedHasSlash(q); }
      assert |p| == 1 ==> p == [p[0]] && p[0] in p;
      assert |q| == 1 ==> q == [q[0]] && q[0] in q;
    }
  }

  predicate RecordLess(a: Record, b: Record) {
    Less(PathText(a.path), PathText(b.path))
  }
}

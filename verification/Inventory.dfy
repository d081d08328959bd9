/**
 The two-pass walker of internal/inventory/inventory.go. A tree here is a trace of filesystem readings:
 each node carries the metadata read when it was listed, when it was pinned and when it was left, so the
 first pass can meet a target that changes under it. A settled tree, where all readings of a node agree,
 is a snapshot.
 */
module Inventory {
  import opened Text
  import opened Sorting
  import opened ReportModel

  // ---------- filesystem readings ----------

  type Octet = n: nat | n < 256
  type Path = seq<string>

  datatype FileType = RegularType | DirectoryType | SymlinkType | FifoType | SocketType | CharacterDevice | BlockDevice
    | OtherType

  /** One Lstat or Stat result, as far as the walker looks at it. */
  datatype Meta = Meta(fileType: FileType, mode: string, size: nat, device: nat, inode: nat, links: nat, modified: int,
    changed: int)

  predicate SameFile(a: Meta, b: Meta) {
    a.fileType == b.fileType && a.device == b.device && a.inode == b.inode
  }

  predicate Stable(a: Meta, b: Meta) {
    SameFile(a, b) && a.mode == b.mode && a.size == b.size && a.links == b.links && a.modified == b.modified
      && a.changed == b.changed
  }

  /** What reading a regular file yields: it may fail to open, to seek or to be read to the end. */
  datatype Content = Content(bytes: seq<Octet>, opens: bool, seekable: bool, readable: bool, elfParses: bool)

  /** One name of a listing, and whether its metadata can be read at all. */
  datatype Entry = Entry(name: string, stats: bool, node: Node)

  /**
   What the name stands for. A directory may fail to open, and its listing may stop with an error after the
   entries given here.
   */
  datatype Node =
    | Regular(listed: Meta, pinned: Meta, closed: Meta, content: Content)
    | Symlink(listed: Meta, closed: Meta, target: Option<string>)
    | Directory(listed: Meta, pinned: Meta, closed: Meta, opens: bool, complete: bool, entries: seq<Entry>)
    | Special(listed: Meta, closed: Meta)

  predicate NameLess(a: Entry, b: Entry) {
    Less(a.name, b.name)
  }

  /** Go lists a directory in any order and sorts by name. */
  function InNameOrder(es: seq<Entry>): seq<Entry> {
    SortedBy(es, NameLess)
  }

  // ---------- what a scan retains ----------

  datatype Limits = Limits(
    maxFiles: nat, maxDepth: nat, maxFileBytes: nat, maxReadBytes: nat, maxBinaryFileBytes: nat,
      maxBinaryReadBytes: nat)

  datatype Inspection = NotInspected | SkippedGit | Source(bytes: seq<Octet>) | Elf(bytes: seq<Octet>)
  datatype Kind = RegularKind | SymlinkKind | DirectoryKind | SpecialKind(fileType: FileType)
  datatype Record = Record(path: Path, kind: Kind, mode: string, size: nat, linkTarget: string, inspection: Inspection)

  datatype Code =
    | MaxDepth | MaxFiles | SpecialFile | MaxFileBytes | MaxTotalBytes | MaxBinaryFileBytes | MaxBinaryTotalBytes
    | ElfParseError | ReadlinkError | SeekError | ReadError | ReadBinaryError
  datatype Notice = Notice(code: Code, path: Path)

  datatype Observation = Observation(meta: Meta, children: seq<string>, linkTarget: string, overflow: bool,
    entryLimit: int)

  datatype State = State(
    files: seq<Record>, limitations: seq<Notice>, errors: seq<Notice>, readBytes: nat, binaryBytes: nat,
    seen: map<Path, Observation>)

  /** A pass either completes or ends the scan with an error: most often that the target changed under it. */
  datatype Result<T> = Done(value: T) | Aborted

  function NoteLimit(st: State, code: Code, path: Path): State {
    st.(limitations := st.limitations + [Notice(code, path)])
  }

  function NoteError(st: State, code: Code, path: Path): State {
    st.(errors := st.errors + [Notice(code, path)])
  }

  function Append(st: State, file: Record): State {
    st.(files := st.files + [file])
  }

  function Observe(st: State, path: Path, o: Observation): State {
    st.(seen := st.seen[path := o])
  }

  function Listed(meta: Meta): Observation {
    Observation(meta, [], "", false, 0)
  }

  // ---------- regular files ----------

  predicate GitDatabasePath(path: Path) {
    |path| >= 3 && path[0] == ".git" && (path[1] == "objects" || path[1] == "logs")
  }

  predicate ElfHeader(bytes: seq<Octet>) {
    |bytes| >= 4 && bytes[..4] == [0x7f, 0x45, 0x4c, 0x46]
  }

  /** `io.ReadAll` over a reader limited to one byte past the limit. */
  function ReadUpTo(bytes: seq<Octet>, limit: nat): (data: seq<Octet>)
    ensures |data| == if |bytes| <= limit then |bytes| else limit + 1
  {
    if |bytes| <= limit + 1 then bytes else bytes[..limit + 1]
  }

  /** `inspectELF`, up to its caller's final stability check. */
  function InspectElf(
    limits: Limits, listed: Meta, closed: Meta, content: Content, file: Record, st: State): Result<(State, Record)>
  {
    if listed.size > limits.maxBinaryFileBytes then Done((NoteLimit(st, MaxBinaryFileBytes, file.path), file))
    else if st.binaryBytes + listed.size > limits.maxBinaryReadBytes then
      Done((NoteLimit(st, MaxBinaryTotalBytes, file.path), file))
    else if !content.readable then
      if Stable(listed, closed) then Done((NoteError(st, ReadBinaryError, file.path), file)) else Aborted
    else
      var data := ReadUpTo(content.bytes, limits.maxBinaryFileBytes);
      if |data| != listed.size then Aborted
      else
        var counted := st.(binaryBytes := st.binaryBytes + |data|);
        Done((if content.elfParses then counted
          else NoteLimit(counted, ElfParseError, file.path), file.(inspection := Elf(data))))
  }

  /** `inspectRegular` after the file is pinned and before its final stability check. */
  function InspectContent(
    limits: Limits, listed: Meta, closed: Meta, content: Content, file: Record, st: State): Result<(State, Record)>
  {
    if !content.seekable then Done((NoteError(st, SeekError, file.path), file))
    else if ElfHeader(content.bytes) then InspectElf(limits, listed, closed, content, file, st)
    else if listed.size > limits.maxFileBytes then Done((NoteLimit(st, MaxFileBytes, file.path), file))
    else if st.readBytes + listed.size > limits.maxReadBytes then Done((NoteLimit(st, MaxTotalBytes, file.path), file))
    else if !content.readable then Done((NoteError(st, ReadError, file.path), file))
    else
      var data := ReadUpTo(content.bytes, limits.maxFileBytes);
      if |data| > limits.maxFileBytes then Aborted
      else Done((st.(readBytes := st.readBytes + |data|), file.(inspection := Source(data))))
  }

  function InspectRegular(limits: Limits, node: Node, file: Record, st: State): Result<(State, Record)>
    requires node.Regular?
  {
    if !node.content.opens || !SameFile(node.listed, node.pinned) then Aborted
    else
      var inspected := InspectContent(limits, node.listed, node.closed, node.content, file, st);
      if inspected.Done? && Stable(node.pinned, node.closed) then inspected else Aborted
  }

  // ---------- the first pass ----------

  function RecordFor(path: Path, node: Node): Record {
    Record(path,
      match node case Regular(_, _, _, _) => RegularKind case Symlink(_, _, _) => SymlinkKind
        case Directory(_, _, _, _, _, _) => DirectoryKind case Special(m, _) => SpecialKind(m.fileType),
      node.listed.mode, node.listed.size, if node.Symlink? && node.target.Some? then node.target.value
        else "", NotInspected)
  }

  function WalkLeaf(limits: Limits, node: Node, path: Path, st: State): Result<State>
    requires !node.Directory?
  {
    var seen := Observe(st, path, Listed(node.listed));
    var file := RecordFor(path, node);
    match node
    case Symlink(listed, closed, target) =>
      var read := if target.None? then NoteError(seen, ReadlinkError, path)
        else Observe(seen, path, Listed(listed).(linkTarget := target.value));
      if Stable(listed, closed) then Done(Append(read, file)) else Aborted
    case Regular(listed, pinned, closed, content) =>
      if GitDatabasePath(path) then
        if Stable(listed, closed) then Done(Append(seen, file.(inspection := SkippedGit))) else Aborted
      else
        var inspected := InspectRegular(limits, node, file, seen);
        if inspected.Done? then Done(Append(inspected.value.0, inspected.value.1)) else Aborted
    case Special(listed, closed) =>
      if Stable(listed, closed) then Done(NoteLimit(Append(seen, file), SpecialFile, path)) else Aborted
  }

  function EntryNames(es: seq<Entry>): (names: seq<string>)
    ensures |names| == |es|
    ensures forall i :: 0 <= i < |es| ==> names[i] == es[i].name
  {
    seq(|es|, i requires 0 <= i < |es| => es[i].name)
  }

  function AtLeastZero(n: int): nat {
    if n < 0 then 0 else n
  }

  /** Reading the directory's entries stops with an error before it passes the budget. */
  predicate ListingFails(limits: Limits, node: Node, depth: nat, count: nat)
    requires node.Directory?
  {
    depth <= limits.maxDepth && !node.complete && |node.entries| <= AtLeastZero(limits.maxFiles - count)
  }

  /** `walk`, past its listing: the remaining budget is fixed on entry, before any pending sibling is appended. */
  function WalkDirectory(limits: Limits, entries: seq<Entry>, path: Path, depth: nat, st: State): Result<State>
    requires path in st.seen
    decreases limits.maxDepth + 1 - depth, 1, 0
  {
    if depth > limits.maxDepth then Done(NoteLimit(st, MaxDepth, path))
    else
      var remaining := limits.maxFiles - |st.files|;
      var current := st.seen[path].(entryLimit := remaining, overflow := |entries| > AtLeastZero(remaining));
      if current.overflow then Done(NoteLimit(Observe(st, path, current), MaxFiles, path))
      else
        var ordered := InNameOrder(entries);
        WalkEntries(limits, ordered, path, depth, Observe(st, path, current.(children := EntryNames(ordered))))
  }

  function WalkEntries(limits: Limits, es: seq<Entry>, path: Path, depth: nat, st: State): Result<State>
    requires depth <= limits.maxDepth
    decreases limits.maxDepth + 1 - depth, 0, |es|
  {
    if es == [] then Done(st)
    else
      var first := WalkEntry(limits, es[0], path, depth, st);
      if first.Aborted? then Aborted else WalkEntries(limits, es[1..], path, depth, first.value)
  }

  function WalkEntry(limits: Limits, e: Entry, path: Path, depth: nat, st: State): Result<State>
    requires depth <= limits.maxDepth
    decreases limits.maxDepth + 1 - depth, 0, 0
  {
    var child := path + [e.name];
    if !e.stats then Aborted
    else if !e.node.Directory? then WalkLeaf(limits, e.node, child, st)
    else if !e.node.opens || !SameFile(e.node.listed, e.node.pinned) then Aborted
    else if ListingFails(limits, e.node, depth + 1, |st.files| + 1) then Aborted
    else
      var entered := Append(Observe(st, child, Listed(e.node.listed)), RecordFor(child, e.node));
      var walked := WalkDirectory(limits, e.node.entries, child, depth + 1, entered);
      if walked.Aborted? || child !in walked.value.seen
        || !Stable(e.node.pinned, e.node.closed) then Aborted
      else Done(Observe(walked.value, child, walked.value.seen[child].(meta := e.node.closed)))
  }

  /** `walk`. */
  function WalkFolder(limits: Limits, node: Node, path: Path, depth: nat, st: State): Result<State>
    requires node.Directory? && path in st.seen
  {
    if ListingFails(limits, node, depth, |st.files|) then Aborted
    else WalkDirectory(limits, node.entries, path, depth, st)
  }

  function Start(root: Node): State {
    State([], [], [], 0, 0, map[[] := Listed(root.listed)])
  }

  /** `scan` up to the end of its first pass. */
  function FirstPass(limits: Limits, root: Node): Result<State>
    requires root.Directory?
  {
    var walked := WalkFolder(limits, root, [], 0, Start(root));
    if walked.Aborted? || [] !in walked.value.seen || !Stable(root.listed, root.closed) then Aborted
    else Done(Observe(walked.value, [], walked.value.seen[[]].(meta := root.closed)))
  }

  // ---------- the second pass ----------

  predicate VerifyDirectory(limits: Limits, seen: map<Path, Observation>, node: Node, path: Path, depth: nat)
    requires node.Directory?
    decreases limits.maxDepth + 1 - depth, 1, 0
  {
    depth > limits.maxDepth || (
      && path in seen && Stable(seen[path].meta, node.pinned)
      && var o := seen[path];
         var exceeded := |node.entries| > AtLeastZero(o.entryLimit);
         if o.overflow then exceeded
         else
           && !exceeded && node.complete
           && var ordered := InNameOrder(node.entries);
              EntryNames(ordered) == o.children && VerifyEntries(limits, seen, ordered, path, depth))
  }

  predicate VerifyEntries(limits: Limits, seen: map<Path, Observation>, es: seq<Entry>, path: Path, depth: nat)
    requires depth <= limits.maxDepth
    decreases limits.maxDepth + 1 - depth, 0, |es|
  {
    es == [] || (VerifyEntry(limits, seen, es[0], path, depth) && VerifyEntries(limits, seen, es[1..], path, depth))
  }

  predicate VerifyEntry(limits: Limits, seen: map<Path, Observation>, e: Entry, path: Path, depth: nat)
    requires depth <= limits.maxDepth
    decreases limits.maxDepth + 1 - depth, 0, 0
  {
    var child := path + [e.name];
    && e.stats && child in seen && Stable(seen[child].meta, e.node.listed)
    && match e.node
       case Symlink(_, _, target) => target == Some(seen[child].linkTarget)
       case Directory(_, _, _, _, _, _) => e.node.opens && VerifyDirectory(limits, seen, e.node, child, depth + 1)
       case _ => true
  }

  /** The second pass over a whole target. */
  predicate SecondPass(limits: Limits, seen: map<Path, Observation>, root: Node)
    requires root.Directory?
  {
    VerifyDirectory(limits, seen, root, [], 0)
  }
}

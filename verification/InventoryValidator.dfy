/**
 The inventory half of internal/report/validate.go: what each record must say, and the byte totals that are
 checked by subtracting before adding so that hostile 64-bit sizes cannot wrap a sum.
 */
module InventoryValidator {
  import opened Integers
  import opened Sorting
  import opened ReportModel
  import EvidenceValidator

  const MAX_IMPORTED_LIBRARIES := 1_024
  const MAX_IMPORTED_SYMBOLS := 1_024
  const MAX_EXTRACTED_STRINGS := 256
  const MAX_EMBEDDED_URLS := 128
  const MAX_FILE_CAPABILITIES := 64
  const MAX_ARCHIVE_ENTRIES := 4_096

  // ---------- totals ----------

  function Sizes(files: seq<File>, counted: File -> bool): int {
    if files == [] then 0
    else Sizes(files[..|files| - 1], counted) + if counted(files[|files| - 1]) then files[|files| - 1].size else 0
  }

  predicate SourceFile(f: File) {
    f.inspected && !f.Elf()
  }

  predicate ElfFile(f: File) {
    f.inspected && f.Elf()
  }

  function EntrySizes(es: seq<ArchiveEntry>): int {
    if es == [] then 0 else EntrySizes(es[..|es| - 1]) + es[|es| - 1].size
  }

  lemma {:induction false} SizesGrow(files: seq<File>, counted: File -> bool, k: nat)
    requires k <= |files| && forall f <- files :: f.size >= 0
    ensures 0 <= Sizes(files[..k], counted) <= Sizes(files, counted)
    decreases |files|, |files| - k
  {
    if k < |files| {
      SizesGrow(files[..|files| - 1], counted, k);
      assert files[..|files| - 1][..k] == files[..k];
    } else {
      assert files[..k] == files;
      if files != [] {
        SizesGrow(files[..|files| - 1], counted, 0);
        assert files[..0] == files[..|files| - 1][..0] == [];
      }
    }
  }

  lemma {:induction false} EntrySizesGrow(es: seq<ArchiveEntry>, k: nat)
    requires k <= |es| && forall e <- es :: e.size >= 0
    ensures 0 <= EntrySizes(es[..k]) <= EntrySizes(es)
    decreases |es|, |es| - k
  {
    if k < |es| {
      EntrySizesGrow(es[..|es| - 1], k);
      assert es[..|es| - 1][..k] == es[..k];
    } else {
      assert es[..k] == es;
      if es != [] {
        EntrySizesGrow(es[..|es| - 1], 0);
        assert es[..0] == es[..|es| - 1][..0] == [];
      }
    }
  }

  lemma SizesStep(files: seq<File>, counted: File -> bool, k: nat)
    requires k < |files|
    ensures Sizes(files[..k + 1], counted) == Sizes(files[..k], counted) + if counted(files[k]) then files[k].size
      else 0
  {
    assert files[..k + 1][..k] == files[..k];
  }

  // ---------- archives ----------

  predicate EntryNamed(e: ArchiveEntry) {
    e.path != "" && e.kind != "" && e.size >= 0 && e.compressedSize >= 0
  }

  predicate ArchiveValid(a: Archive) {
    && a.format in ["zip", "tar", "gzip", "xz", "zstd", "bzip2"] && a.entries.Slice? && a.retainedBytes >= 0
    && |a.entries.elements| <= MAX_ARCHIVE_ENTRIES
    && (forall e <- a.entries.elements :: EntryNamed(e)) && EntrySizes(a.entries.elements) == a.retainedBytes
  }

  /** The entry loop in 64-bit arithmetic: it accepts exactly the matching total, and nothing wraps. */
  method SumEntries(es: seq<ArchiveEntry>, retained: int) returns (ok: bool)
    requires 0 <= retained && Int64(retained) && forall e <- es :: Int64(e.size)
    ensures ok <==> (forall e <- es :: EntryNamed(e)) && EntrySizes(es) == retained
  {
    var total := 0;
    for k := 0 to |es|
      invariant total == EntrySizes(es[..k]) && 0 <= total <= retained
      invariant forall i :: 0 <= i < k ==> EntryNamed(es[i])
    {
      var e := es[k];
      assert e in es && es[..k + 1][..k] == es[..k];
      assert Wrap(retained - total) == retained - total;
      if e.path == "" || e.kind == "" || e.size < 0 || e.compressedSize < 0 || e.size > Wrap(retained - total) {
        if forall x <- es :: EntryNamed(x) {
          EntrySizesGrow(es, k + 1);
        }
        return false;
      }
      assert Wrap(total + e.size) == total + e.size;
      total := Wrap(total + e.size);
    }
    assert es[..|es|] == es;
    ok := total == retained;
  }

  // ---------- one record ----------

  predicate BinaryValid(b: Binary) {
    && b.format == "ELF" && b.class_ != "" && b.byteOrder != "" && b.machine != "" && b.type_ != ""
    && b.libraries.Slice? && b.importedSymbols.Slice? && b.extractedStrings.Slice? && b.embeddedURLs.Slice?
    && b.fileCapabilities.Slice?
    && |b.libraries.elements| <= MAX_IMPORTED_LIBRARIES && |b.importedSymbols.elements| <= MAX_IMPORTED_SYMBOLS
    && |b.extractedStrings.elements| <= MAX_EXTRACTED_STRINGS && |b.embeddedURLs.elements| <= MAX_EMBEDDED_URLS
    && |b.fileCapabilities.elements| <= MAX_FILE_CAPABILITIES
  }

  predicate SemanticallyOpen(f: File) {
    f.analysis == Partial || f.analysis == Unanalyzed
  }

  /** The disposition a record claims against what was inspected. `supported` marks names that cannot be excluded. */
  predicate DispositionValid(f: File, supported: string -> bool) {
    && (match f.analysis
        case NotApplicable => f.analysisReason != "" && !supported(f.path)
        case Analyzed => f.inspected && f.analysisReason == ""
        case Partial => f.inspected && f.analysisReason != ""
        case Unanalyzed => f.analysisReason != "")
    && (f.binary.Some? || f.Elf() ==> SemanticallyOpen(f))
    && (f.archive.Some? ==> SemanticallyOpen(f))
  }

  predicate InspectionValid(f: File) {
    && (f.sha256 == "" || EvidenceValidator.HexSum(f.sha256)) && (f.inspected <==> f.sha256 != "")
    && (f.inspected ==> f.kind == REGULAR_KIND && f.contentType != "" && f.skipReason == "")
    && (f.linkTarget != "" ==> f.kind == "symlink")
    && (f.binary.Some? ==> f.inspected && f.Elf())
    && (f.archive.Some? ==> f.inspected && f.kind == REGULAR_KIND && f.binary.None?)
  }

  predicate FileValid(f: File, safePath: string -> bool, supported: string -> bool) {
    && f.path != "" && f.kind != "" && f.mode != "" && f.size >= 0 && safePath(f.path)
    && InspectionValid(f) && DispositionValid(f, supported)
    && (f.archive.Some? ==> ArchiveValid(f.archive.value)) && (f.binary.Some? ==> BinaryValid(f.binary.value))
  }

  /** What Go's types already guarantee of the numbers in a record. */
  predicate MachineSized(f: File) {
    Int64(f.size)
      && (f.archive.Some? ==>
      Int64(f.archive.value.retainedBytes) && forall e <- f.archive.value.entries.Items() :: Int64(e.size))
  }

  method CheckFile(f: File, safePath: string -> bool, supported: string -> bool) returns (ok: bool)
    requires MachineSized(f)
    ensures ok <==> FileValid(f, safePath, supported)
  {
    if f.path == "" || f.kind == "" || f.mode == "" || f.size < 0 || !safePath(f.path) {
      return false;
    }
    if !InspectionValid(f) || !DispositionValid(f, supported) {
      return false;
    }
    if f.archive.Some? {
      var a := f.archive.value;
      if a.format !in ["zip", "tar", "gzip", "xz", "zstd", "bzip2"] || a.entries.NilSlice? || a.retainedBytes < 0 {
        return false;
      }
      if |a.entries.elements| > MAX_ARCHIVE_ENTRIES {
        return false;
      }
      ok := SumEntries(a.entries.elements, a.retainedBytes);
      if !ok {
        return;
      }
    }
    ok := f.binary.Some? ==> BinaryValid(f.binary.value);
  }

  // ---------- the whole inventory ----------

  ghost predicate DistinctPaths(files: seq<File>) {
    forall i, j :: 0 <= i < j < |files| ==> files[i].path != files[j].path
  }

  /** Every record stands on its own, no path repeats, and both declared totals are exact. */
  ghost predicate InventoryValid(files: seq<File>, readBytes: int, binaryBytes: int, valid: File -> bool) {
    && (forall f <- files :: valid(f)) && DistinctPaths(files)
    && Sizes(files, SourceFile) == readBytes && Sizes(files, ElfFile) == binaryBytes
  }

  function PathsOf(files: seq<File>): set<string> {
    set f <- files :: f.path
  }

  /** What the loop holds after a prefix. */
  ghost predicate Summed(done: seq<File>, valid: File -> bool, paths: set<string>, source: int, elf: int) {
    && (forall f <- done :: valid(f)) && DistinctPaths(done) && paths == PathsOf(done)
    && source == Sizes(done, SourceFile) && elf == Sizes(done, ElfFile)
  }

  lemma PathFresh(done: seq<File>, f: File)
    requires DistinctPaths(done)
    ensures DistinctPaths(done + [f]) <==> f.path !in PathsOf(done)
    ensures PathsOf(done + [f]) == PathsOf(done) + {f.path}
  {
    var more := done + [f];
    if f.path in PathsOf(done) {
      var g :| g in done && g.path == f.path;
      var i :| 0 <= i < |done| && done[i] == g;
      assert more[i].path == more[|done|].path;
    } else {
      forall i, j | 0 <= i < j < |more| ensures more[i].path != more[j].path {
        assert more[i] in done;
      }
    }
    assert forall x :: x in more <==> x in done || x == f;
  }

  lemma ExceedsTotals(files: seq<File>, k: nat, valid: File -> bool, readBytes: int, binaryBytes: int)
    requires k < |files| && forall f <- files :: valid(f) ==> f.size >= 0
    requires Sizes(files[..k + 1], SourceFile) > readBytes || Sizes(files[..k + 1], ElfFile) > binaryBytes
    ensures !InventoryValid(files, readBytes, binaryBytes, valid)
  {
    if forall f <- files :: valid(f) {
      SizesGrow(files, SourceFile, k + 1);
      SizesGrow(files, ElfFile, k + 1);
    }
  }

  /** The totals after one record, or a refusal; 64-bit subtraction and addition never wrap here. */
  method AddSize(f: File, source: int, elf: int, readBytes: int, binaryBytes: int)
    returns (ok: bool, source': int, elf': int)
    requires 0 <= source <= readBytes && 0 <= elf <= binaryBytes && Int64(readBytes) && Int64(binaryBytes)
    requires f.size >= 0 && Int64(f.size)
    ensures source' == source + (if ok && SourceFile(f) then f.size else 0)
    ensures elf' == elf + (if ok && ElfFile(f) then f.size else 0)
    ensures ok <==>
      && source + (if SourceFile(f) then f.size else 0) <= readBytes
      && elf + (if ElfFile(f) then f.size else 0) <= binaryBytes
  {
    source', elf', ok := source, elf, true;
    if f.inspected {
      if f.Elf() {
        assert Wrap(binaryBytes - elf) == binaryBytes - elf;
        if f.size > Wrap(binaryBytes - elf) {
          return false, source', elf';
        }
        assert Wrap(elf + f.size) == elf + f.size;
        elf' := Wrap(elf + f.size);
      } else {
        assert Wrap(readBytes - source) == readBytes - source;
        if f.size > Wrap(readBytes - source) {
          return false, source', elf';
        }
        assert Wrap(source + f.size) == source + f.size;
        source' := Wrap(source + f.size);
      }
    }
  }

  function SourceSize(f: File): int {
    if SourceFile(f) then f.size else 0
  }

  function ElfSize(f: File): int {
    if ElfFile(f) then f.size else 0
  }

  /** The record is valid, its path is new, and its size still fits its declared total. */
  ghost predicate Fits(
    f: File, valid: File -> bool, paths: set<string>, source: int, elf: int, readBytes: int, binaryBytes: int)
  {
    valid(f) && f.path !in paths && source + SourceSize(f) <= readBytes && elf + ElfSize(f) <= binaryBytes
  }

  lemma SummedMore(files: seq<File>, k: nat, valid: File -> bool, paths: set<string>, source: int, elf: int)
    requires k < |files| && Summed(files[..k], valid, paths, source, elf) && valid(files[k]) && files[k].path !in paths
    ensures Summed(files[..k + 1], valid, paths + {files[k].path},
                   source + SourceSize(files[k]), elf + ElfSize(files[k]))
  {
    TakeMore(files, k);
    PathFresh(files[..k], files[k]);
    SizesStep(files, SourceFile, k);
    SizesStep(files, ElfFile, k);
  }

  lemma PrefixPaths(files: seq<File>, k: nat)
    requires k <= |files|
    ensures DistinctPaths(files) ==> DistinctPaths(files[..k])
  {
  }

  lemma Misfit(
    files: seq<File>, k: nat, valid: File -> bool, paths: set<string>, source: int, elf: int, readBytes: int,
    binaryBytes: int)
    requires k < |files| && Summed(files[..k], valid, paths, source, elf)
    requires !Fits(files[k], valid, paths, source, elf, readBytes, binaryBytes)
    requires forall f <- files :: valid(f) ==> f.size >= 0
    ensures !InventoryValid(files, readBytes, binaryBytes, valid)
  {
    assert files[k] in files;
    if files[k].path in paths {
      PathFresh(files[..k], files[k]);
      TakeMore(files, k);
      PrefixPaths(files, k + 1);
    } else if valid(files[k]) {
      SizesStep(files, SourceFile, k);
      SizesStep(files, ElfFile, k);
      ExceedsTotals(files, k, valid, readBytes, binaryBytes);
    }
  }

  /** One iteration of the inventory loop. */
  method AdmitFile(
    f: File, paths: set<string>, source: int, elf: int, readBytes: int, binaryBytes: int, safePath: string -> bool,
    supported: string -> bool)
    returns (ok: bool, paths': set<string>, source': int, elf': int)
    requires 0 <= source <= readBytes && 0 <= elf <= binaryBytes && Int64(readBytes) && Int64(binaryBytes)
    requires MachineSized(f)
    ensures ok <==> Fits(f, FileCheck(safePath, supported), paths, source, elf, readBytes, binaryBytes)
    ensures ok ==>
      paths' == paths + {f.path} && source' == source + SourceSize(f) && elf' == elf + ElfSize(f) && f.size >= 0
  {
    paths', source', elf' := paths + {f.path}, source, elf;
    ok := CheckFile(f, safePath, supported);
    if !ok {
      return;
    }
    if f.path in paths {
      return false, paths', source', elf';
    }
    ok, source', elf' := AddSize(f, source, elf, readBytes, binaryBytes);
  }

  lemma CheckedSizes(files: seq<File>, safePath: string -> bool, supported: string -> bool)
    ensures forall f <- files :: FileCheck(safePath, supported)(f) ==> f.size >= 0
  {
  }

  /** The inventory loop: it accepts exactly the valid inventories with matching totals. */
  method ValidateInventory(
    files: seq<File>, readBytes: int, binaryBytes: int, safePath: string -> bool, supported: string -> bool)
    returns (ok: bool, paths: set<string>)
    requires 0 <= readBytes && Int64(readBytes) && 0 <= binaryBytes && Int64(binaryBytes)
    requires forall f <- files :: MachineSized(f)
    ensures ok <==> InventoryValid(files, readBytes, binaryBytes, FileCheck(safePath, supported))
    ensures ok ==> paths == PathsOf(files)
  {
    ghost var valid := FileCheck(safePath, supported);
    CheckedSizes(files, safePath, supported);
    paths := {};
    var source, elf := 0, 0;
    var k := 0;
    while k < |files|
      invariant 0 <= k <= |files|
      invariant Summed(files[..k], valid, paths, source, elf) && 0 <= source <= readBytes && 0 <= elf <= binaryBytes
    {
      assert files[k] in files;
      var more, source', elf';
      ok, more, source', elf' := AdmitFile(files[k], paths, source, elf, readBytes, binaryBytes, safePath, supported);
      if !ok {
        Misfit(files, k, valid, paths, source, elf, readBytes, binaryBytes);
        return;
      }
      SummedMore(files, k, valid, paths, source, elf);
      paths, source, elf := more, source', elf';
      k := k + 1;
    }
    assert files[..k] == files;
    ok := source == readBytes && elf == binaryBytes;
  }

  function FileCheck(safePath: string -> bool, supported: string -> bool): File -> bool {
    f => FileValid(f, safePath, supported)
  }

  /** A record claiming full analysis is an inspected regular file that is neither ELF nor an archive. */
  lemma AnalyzedMeansPlainSource(f: File, safePath: string -> bool, supported: string -> bool)
    requires FileValid(f, safePath, supported) && f.analysis == Analyzed
    ensures f.inspected && f.kind == REGULAR_KIND && !f.Elf() && f.binary.None? && f.archive.None?
  {
  }
}

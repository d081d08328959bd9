/**
 The byte stream that internal/report/inventory_digest.go feeds to SHA-256. The hash itself stays
 an arbitrary function of this stream; what is proved is that the stream binds the seven covered
 fields of every record and nothing else.
 */
module InventoryDigest {
  import opened Text
  import opened Sorting
  import opened ReportModel
  import EvidenceGraph

  const DIGEST_DOMAIN := "plug-prejudice/target-inventory-root/v1"
  const MAX_INT64 := 0x7fff_ffff_ffff_ffff

  function Power256(width: nat): nat {
    if width == 0 then 1 else 256 * Power256(width - 1)
  }

  /** `binary.BigEndian.PutUint64` for width 8. */
  function BigEndian(n: nat, width: nat): (s: string)
    ensures |s| == width
  {
    if width == 0 then "" else BigEndian(n / 256, width - 1) + [(n % 256) as char]
  }

  lemma {:induction false} BigEndianInjective(m: nat, n: nat, width: nat)
    requires m < Power256(width) && n < Power256(width)
    requires BigEndian(m, width) == BigEndian(n, width)
    ensures m == n
  {
    if width > 0 {
      var s := BigEndian(m, width);
      assert s[..width - 1] == BigEndian(m / 256, width - 1);
      assert s[..width - 1] == BigEndian(n / 256, width - 1);
      assert s[width - 1] == (m % 256) as char == (n % 256) as char;
      BigEndianInjective(m / 256, n / 256, width - 1);
    }
  }

  lemma Int64FitsEightBytes()
    ensures MAX_INT64 < Power256(8)
  {
    assert Power256(2) == 65536;
    assert Power256(4) == 65536 * 65536;
    assert Power256(6) == 65536 * Power256(4);
    assert Power256(8) == 65536 * Power256(6);
  }

  function Uint64(n: nat): string {
    BigEndian(n, 8)
  }

  function Prefixed(value: string): string {
    Uint64(|value|) + value
  }

  /** The seven fields of an inventory record that the root digest covers. */
  datatype Covered = Covered(
    path: string, kind: string, mode: string, size: int, sha256: string, linkTarget: string, skipReason: string)

  function CoveredFields(f: File): Covered {
    Covered(f.path, f.kind, f.mode, f.size, f.sha256, f.linkTarget, f.skipReason)
  }

  function Strings(c: Covered): seq<string> {
    [c.path, c.kind, c.mode, c.sha256, c.linkTarget, c.skipReason]
  }

  /** Go lengths and sizes are 64-bit, so no record outside this range exists there. */
  predicate WithinInt64(c: Covered) {
    c.size <= MAX_INT64 && forall s <- Strings(c) :: |s| <= MAX_INT64
  }

  /** The records that InventoryRootDigest refuses: negative sizes, invalid UTF-8, embedded NUL. */
  predicate Refused(c: Covered, validUTF8: string -> bool) {
    c.size < 0 || !forall s <- Strings(c) :: Clean(s, validUTF8)
  }

  predicate Clean(s: string, validUTF8: string -> bool) {
    validUTF8(s) && '\0' !in s
  }

  /** One record: each variable field behind its length, the size as a number. */
  function Record(c: Covered): string
    requires c.size >= 0
  {
    Prefixed(c.path) + AfterPath(c)
  }

  function AfterPath(c: Covered): string
    requires c.size >= 0
  {
    Prefixed(c.kind) + AfterKind(c)
  }

  function AfterKind(c: Covered): string
    requires c.size >= 0
  {
    Prefixed(c.mode) + AfterMode(c)
  }

  function AfterMode(c: Covered): string
    requires c.size >= 0
  {
    Uint64(c.size) + AfterSize(c)
  }

  function AfterSize(c: Covered): string {
    Prefixed(c.sha256) + AfterHash(c)
  }

  function AfterHash(c: Covered): string {
    Prefixed(c.linkTarget) + Prefixed(c.skipReason)
  }

  function Records(cs: seq<Covered>): string
    requires forall c <- cs :: c.size >= 0
  {
    if cs == [] then "" else Record(cs[0]) + Records(cs[1..])
  }

  function Stream(cs: seq<Covered>): string
    requires forall c <- cs :: c.size >= 0
  {
    Prefixed(DIGEST_DOMAIN) + (Uint64(|cs|) + Records(cs))
  }

  predicate PathLess(a: File, b: File) {
    Less(a.path, b.path)
  }

  predicate CoveredPathLess(a: Covered, b: Covered) {
    Less(a.path, b.path)
  }

  /** A hash.Hash destination, before hashing: it keeps everything written to it. */
  class HashSink {
    var written: string

    constructor ()
      ensures written == ""
    {
      written := "";
    }

    method WriteUint64(value: nat)
      modifies this
      ensures written == old(written) + Uint64(value)
    {
      var encoded := Uint64(value);
      written := written + encoded;
    }

    method WriteString(value: string)
      modifies this
      ensures written == old(written) + Prefixed(value)
    {
      WriteUint64(|value|);
      written := written + value;
      assert written == old(written) + Prefixed(value);
    }
  }

  lemma {:induction false} RecordsAppend(cs: seq<Covered>, c: Covered)
    requires c.size >= 0 && forall d <- cs :: d.size >= 0
    ensures Records(cs + [c]) == Records(cs) + Record(c)
  {
    if cs == [] {
      OneRecord(c);
      assert cs + [c] == [c];
    } else {
      RecordsAppend(cs[1..], c);
      AppendedTail(cs, c);
      Associate(Record(cs[0]), Records(cs[1..]), Record(c));
    }
  }

  lemma OneRecord(c: Covered)
    requires c.size >= 0
    ensures Records([c]) == Record(c)
  {
    assert [c][1..] == [];
    assert Record(c) + Records([]) == Record(c);
  }

  lemma AppendedTail(cs: seq<Covered>, c: Covered)
    requires cs != [] && c.size >= 0 && forall d <- cs :: d.size >= 0
    ensures Records(cs + [c]) == Record(cs[0]) + Records(cs[1..] + [c])
  {
    var all := cs + [c];
    assert all[0] == cs[0] && all[1..] == cs[1..] + [c];
  }

  lemma RecordsTake(cs: seq<Covered>, i: nat)
    requires i < |cs| && cs[i].size >= 0 && forall d <- cs[..i] :: d.size >= 0
    ensures forall d <- cs[..i + 1] :: d.size >= 0
    ensures Records(cs[..i + 1]) == Records(cs[..i]) + Record(cs[i])
  {
    TakeMore(cs, i);
    RecordsAppend(cs[..i], cs[i]);
  }

  ghost predicate Appended(before: string, after: string, cs: seq<Covered>) {
    (forall c <- cs :: c.size >= 0) && after == before + Records(cs)
  }

  lemma AppendedNothing(written: string, cs: seq<Covered>)
    ensures Appended(written, written, cs[..0])
  {
    assert cs[..0] == [];
  }

  lemma AppendedMore(start: string, before: string, after: string, cs: seq<Covered>, i: nat)
    requires i < |cs| && cs[i].size >= 0 && Appended(start, before, cs[..i])
    requires after == before + Record(cs[i])
    ensures Appended(start, after, cs[..i + 1])
  {
    RecordsTake(cs, i);
    Associate(start, Records(cs[..i]), Record(cs[i]));
  }

  lemma Associate(a: string, b: string, c: string)
    ensures a + b + c == a + (b + c)
  {
  }

  method CheckRecord(file: Covered, validUTF8: string -> bool) returns (refused: bool)
    ensures refused <==> Refused(file, validUTF8)
  {
    refused := file.size < 0;
    var strings := Strings(file);
    var k := 0;
    while k < |strings| && !refused
      invariant 0 <= k <= |strings|
      invariant refused ==> Refused(file, validUTF8)
      invariant !refused ==> file.size >= 0 && forall j :: 0 <= j < k ==> Clean(strings[j], validUTF8)
    {
      refused := !Clean(strings[k], validUTF8);
      k := k + 1;
    }
  }

  method WriteRecord(sink: HashSink, file: Covered)
    requires file.size >= 0
    modifies sink
    ensures sink.written == old(sink.written) + Record(file)
  {
    sink.WriteString(file.path);
    sink.WriteString(file.kind);
    sink.WriteString(file.mode);
    sink.WriteUint64(file.size);
    sink.WriteString(file.sha256);
    sink.WriteString(file.linkTarget);
    sink.WriteString(file.skipReason);
  }

  ghost predicate AllWritable(cs: seq<Covered>, validUTF8: string -> bool) {
    forall i :: 0 <= i < |cs| ==> !Refused(cs[i], validUTF8)
  }

  method WriteRecords(sink: HashSink, files: seq<File>, validUTF8: string -> bool) returns (ok: bool)
    modifies sink
    ensures ok <==> AllWritable(Map(files, CoveredFields), validUTF8)
    ensures ok ==> Appended(old(sink.written), sink.written, Map(files, CoveredFields))
  {
    hide Appended, Record, Strings, Clean, CoveredFields;
    ghost var covered := Map(files, CoveredFields);
    var i := 0;
    AppendedNothing(sink.written, covered);
    while i < |files|
      invariant 0 <= i <= |files|
      invariant AllWritable(covered[..i], validUTF8)
      invariant Appended(old(sink.written), sink.written, covered[..i])
    {
      var file := CoveredFields(files[i]);
      var refused := CheckRecord(file, validUTF8);
      if refused {
        return false;
      }
      ghost var before := sink.written;
      WriteRecord(sink, file);
      AppendedMore(old(sink.written), before, sink.written, covered, i);
      i := i + 1;
    }
    assert covered[..i] == covered;
    ok := true;
  }

  /** The digest's input stream for a retained inventory, or nothing when a record cannot be encoded. */
  method InventoryStream(files: seq<File>, validUTF8: string -> bool)
    returns (stream: Option<string>, ghost ordered: seq<File>)
    ensures SortedPermutation(files, ordered, PathLess)
    ensures stream.Some? <==> AllWritable(Map(ordered, CoveredFields), validUTF8)
    ensures stream.Some? ==> forall c <- Map(ordered, CoveredFields) :: c.size >= 0
    ensures stream.Some? ==> stream.value == Stream(Map(ordered, CoveredFields))
  {
    KeyOrder((f: File) => f.path, PathLess);
    var sorted := SortSlice(files, PathLess);
    ordered := sorted;
    var sink := new HashSink();
    sink.WriteString(DIGEST_DOMAIN);
    sink.WriteUint64(|sorted|);
    var ok := WriteRecords(sink, sorted, validUTF8);
    stream := if ok then Some(sink.written) else None;
  }

  // ---------- what the stream binds ----------

  lemma ConcatEqual(a: string, b: string, c: string, d: string)
    requires |a| == |c| && a + b == c + d
    ensures a == c && b == d
  {
    assert (a + b)[..|a|] == a && (a + b)[|a|..] == b;
    assert (c + d)[..|c|] == c && (c + d)[|c|..] == d;
  }

  lemma Uint64Prefix(m: nat, rest: string, n: nat, rest': string)
    requires m <= MAX_INT64 && n <= MAX_INT64
    requires Uint64(m) + rest == Uint64(n) + rest'
    ensures m == n && rest == rest'
  {
    ConcatEqual(Uint64(m), rest, Uint64(n), rest');
    Int64FitsEightBytes();
    BigEndianInjective(m, n, 8);
  }

  lemma PrefixedPrefix(f: string, rest: string, g: string, rest': string)
    requires |f| <= MAX_INT64 && |g| <= MAX_INT64
    requires Prefixed(f) + rest == Prefixed(g) + rest'
    ensures f == g && rest == rest'
  {
    assert Prefixed(f) + rest == Uint64(|f|) + (f + rest);
    assert Prefixed(g) + rest' == Uint64(|g|) + (g + rest');
    Uint64Prefix(|f|, f + rest, |g|, g + rest');
    ConcatEqual(f, rest, g, rest');
  }

  lemma FieldStep(f: string, tail: string, rest: string, g: string, tail': string, rest': string)
    requires |f| <= MAX_INT64 && |g| <= MAX_INT64
    requires Prefixed(f) + tail + rest == Prefixed(g) + tail' + rest'
    ensures f == g && tail + rest == tail' + rest'
  {
    assert Prefixed(f) + tail + rest == Prefixed(f) + (tail + rest);
    assert Prefixed(g) + tail' + rest' == Prefixed(g) + (tail' + rest');
    PrefixedPrefix(f, tail + rest, g, tail' + rest');
  }

  lemma SizeStep(m: nat, tail: string, rest: string, n: nat, tail': string, rest': string)
    requires m <= MAX_INT64 && n <= MAX_INT64
    requires Uint64(m) + tail + rest == Uint64(n) + tail' + rest'
    ensures m == n && tail + rest == tail' + rest'
  {
    assert Uint64(m) + tail + rest == Uint64(m) + (tail + rest);
    assert Uint64(n) + tail' + rest' == Uint64(n) + (tail' + rest');
    Uint64Prefix(m, tail + rest, n, tail' + rest');
  }

  lemma RecordPrefix(c: Covered, rest: string, d: Covered, rest': string)
    requires 0 <= c.size && 0 <= d.size && WithinInt64(c) && WithinInt64(d)
    requires Record(c) + rest == Record(d) + rest'
    ensures c == d && rest == rest'
  {
    assert forall i :: 0 <= i < 6 ==> Strings(c)[i] in Strings(c) && Strings(d)[i] in Strings(d);
    FieldStep(c.path, AfterPath(c), rest, d.path, AfterPath(d), rest');
    FieldStep(c.kind, AfterKind(c), rest, d.kind, AfterKind(d), rest');
    FieldStep(c.mode, AfterMode(c), rest, d.mode, AfterMode(d), rest');
    SizeStep(c.size, AfterSize(c), rest, d.size, AfterSize(d), rest');
    FieldStep(c.sha256, AfterHash(c), rest, d.sha256, AfterHash(d), rest');
    FieldStep(c.linkTarget, Prefixed(c.skipReason), rest, d.linkTarget, Prefixed(d.skipReason), rest');
    PrefixedPrefix(c.skipReason, rest, d.skipReason, rest');
  }

  lemma {:induction false} RecordsInjective(cs: seq<Covered>, ds: seq<Covered>)
    requires |cs| == |ds|
    requires forall c <- cs :: 0 <= c.size && WithinInt64(c)
    requires forall d <- ds :: 0 <= d.size && WithinInt64(d)
    requires Records(cs) == Records(ds)
    ensures cs == ds
  {
    if cs != [] {
      RecordPrefix(cs[0], Records(cs[1..]), ds[0], Records(ds[1..]));
      RecordsInjective(cs[1..], ds[1..]);
    }
  }

  ghost predicate EncodableInventory(files: seq<File>) {
    && |files| <= MAX_INT64
    && UniquePaths(files)
    && forall f <- files :: f.size >= 0 && WithinInt64(CoveredFields(f))
  }

  ghost predicate UniquePaths(files: seq<File>) {
    forall i, j :: 0 <= i < j < |files| ==> files[i].path != files[j].path
  }

  lemma {:induction false} OrderedPathsStayDistinct(files: seq<File>, ordered: seq<File>)
    requires UniquePaths(files) && multiset(files) == multiset(ordered)
    ensures UniquePaths(ordered)
  {
    forall i, j | 0 <= i < j < |ordered| ensures ordered[i].path != ordered[j].path {
      SameMembers(files, ordered);
      if ordered[i].path == ordered[j].path {
        assert ordered[i] in files && ordered[j] in files;
        var a :| 0 <= a < |files| && files[a] == ordered[i];
        var b :| 0 <= b < |files| && files[b] == ordered[j];
        assert files[a].path == files[b].path;
        assert a == b;
        TwiceInMultiset(ordered, i, j);
        OnceInMultiset(files, a);
      }
    }
  }

  /**
   The root digest's input binds exactly the seven covered fields: two inventories with unique paths
   feed SHA-256 the same bytes if and only if they hold the same covered records, in any order.
   */
  lemma RootStreamExact(files: seq<File>, ordered: seq<File>, files': seq<File>, ordered': seq<File>)
    requires EncodableInventory(files) && EncodableInventory(files')
    requires SortedPermutation(files, ordered, PathLess) && SortedPermutation(files', ordered', PathLess)
    ensures forall c <- Map(ordered, CoveredFields) :: c.size >= 0
    ensures forall c <- Map(ordered', CoveredFields) :: c.size >= 0
    ensures Stream(Map(ordered, CoveredFields)) == Stream(Map(ordered', CoveredFields)) <==>
            multiset(Map(files, CoveredFields)) == multiset(Map(files', CoveredFields))
  {
    var cs, ds := Map(ordered, CoveredFields), Map(ordered', CoveredFields);
    MapMembers(files, ordered, CoveredFields);
    MapMembers(files', ordered', CoveredFields);
    MapPermutation(files, ordered, CoveredFields);
    MapPermutation(files', ordered', CoveredFields);
    assert |files| == |multiset(files)| == |ordered|;
    assert |files'| == |multiset(files')| == |ordered'|;
    if Stream(cs) == Stream(ds) {
      ConcatEqual(Prefixed(DIGEST_DOMAIN), Uint64(|cs|) + Records(cs), Prefixed(DIGEST_DOMAIN),
        Uint64(|ds|) + Records(ds));
      Uint64Prefix(|cs|, Records(cs), |ds|, Records(ds));
      RecordsInjective(cs, ds);
    }
    if multiset(cs) == multiset(ds) {
      CoveredOrderIsUnique(files, ordered, files', ordered');
    }
  }

  /** With unique paths the order in which the covered records are written does not depend on the input order. */
  lemma CoveredOrderIsUnique(files: seq<File>, ordered: seq<File>, files': seq<File>, ordered': seq<File>)
    requires UniquePaths(files)
    requires SortedPermutation(files, ordered, PathLess) && SortedPermutation(files', ordered', PathLess)
    requires multiset(Map(files, CoveredFields)) == multiset(Map(files', CoveredFields))
    ensures Map(ordered, CoveredFields) == Map(ordered', CoveredFields)
  {
    var cs, ds := Map(ordered, CoveredFields), Map(ordered', CoveredFields);
    MapPermutation(files, ordered, CoveredFields);
    MapPermutation(files', ordered', CoveredFields);
    OrderedPathsStayDistinct(files, ordered);
    DistinctKeysAreDecided(cs, (c: Covered) => c.path, CoveredPathLess);
    SortedPermutationIsUnique(cs, ds, CoveredPathLess);
  }

  // ---------- the root digest ----------

  function LowerHexDigit(n: nat): (c: char)
    requires n < 16
    ensures '0' <= c <= '9' || 'a' <= c <= 'f'
  {
    if n < 10 then '0' + n as char else 'a' + (n - 10) as char
  }

  /** `hex.EncodeToString`. */
  function LowerHex(bytes: seq<EvidenceGraph.Octet>): (s: string)
    ensures |s| == 2 * |bytes|
    ensures forall c <- s :: '0' <= c <= '9' || 'a' <= c <= 'f'
  {
    if bytes == [] then "" else [LowerHexDigit(bytes[0] / 16), LowerHexDigit(bytes[0] % 16)] + LowerHex(bytes[1..])
  }

  ghost function StreamDigest(
    cs: seq<Covered>, validUTF8: string -> bool, digest: EvidenceGraph.Digest): Option<string>
  {
    if AllWritable(cs, validUTF8) then Some(LowerHex(digest(WritableStream(cs, validUTF8)))) else None
  }

  ghost function WritableStream(cs: seq<Covered>, validUTF8: string -> bool): string
    requires AllWritable(cs, validUTF8)
  {
    Stream(cs)
  }

  /** `InventoryRootDigest`, for any digest: nothing when a record cannot be encoded. */
  ghost function RootDigest(files: seq<File>, validUTF8: string -> bool, digest: EvidenceGraph.Digest): Option<string> {
    StreamDigest(Map(SortedBy(files, PathLess), CoveredFields), validUTF8, digest)
  }

  method InventoryRootDigest(files: seq<File>, validUTF8: string -> bool, digest: EvidenceGraph.Digest)
    returns (root: Option<string>)
    requires UniquePaths(files)
    ensures root == RootDigest(files, validUTF8, digest)
  {
    var stream, ordered := InventoryStream(files, validUTF8);
    PathOrder();
    SortedBySorts(files, PathLess);
    CoveredOrderIsUnique(files, ordered, files, SortedBy(files, PathLess));
    root := if stream.Some? then Some(LowerHex(digest(stream.value))) else None;
  }

  lemma PathOrder()
    ensures StrictWeakOrder(PathLess)
  {
    KeyOrder((f: File) => f.path, PathLess);
  }

  /** The root digest, refusals included, is a function of the bag of covered records. */
  lemma RootDigestIgnoresOrder(
    files: seq<File>, files': seq<File>, validUTF8: string -> bool, digest: EvidenceGraph.Digest)
    requires UniquePaths(files)
    requires multiset(Map(files, CoveredFields)) == multiset(Map(files', CoveredFields))
    ensures RootDigest(files, validUTF8, digest) == RootDigest(files', validUTF8, digest)
  {
    PathOrder();
    SortedBySorts(files, PathLess);
    SortedBySorts(files', PathLess);
    CoveredOrderIsUnique(files, SortedBy(files, PathLess), files', SortedBy(files', PathLess));
  }

  predicate Collide(digest: EvidenceGraph.Digest, x: string, y: string) {
    x != y && digest(x) == digest(y)
  }

  /** And it determines that bag: equal roots mean equal bags, unless the two streams themselves collide. */
  lemma RootDigestBinds(files: seq<File>, files': seq<File>, validUTF8: string -> bool, digest: EvidenceGraph.Digest)
    requires EncodableInventory(files) && EncodableInventory(files')
    requires RootDigest(files, validUTF8, digest).Some? && RootDigest(files', validUTF8, digest).Some?
    ensures var cs := Map(SortedBy(files, PathLess), CoveredFields); var ds := Map(SortedBy(files', PathLess),
      CoveredFields);
      RootDigest(files, validUTF8, digest) == RootDigest(files', validUTF8, digest) <==>
        || multiset(Map(files, CoveredFields)) == multiset(Map(files', CoveredFields))
        || Collide(digest, WritableStream(cs, validUTF8), WritableStream(ds, validUTF8))
  {
    PathOrder();
    SortedBySorts(files, PathLess);
    SortedBySorts(files', PathLess);
    var cs, ds := Map(SortedBy(files, PathLess), CoveredFields), Map(SortedBy(files', PathLess), CoveredFields);
    RootStreamExact(files, SortedBy(files, PathLess), files', SortedBy(files', PathLess));
    if RootDigest(files, validUTF8, digest) == RootDigest(files', validUTF8, digest) {
      LowerHexInjective(digest(WritableStream(cs, validUTF8)), digest(WritableStream(ds, validUTF8)));
    }
    if multiset(Map(files, CoveredFields)) == multiset(Map(files', CoveredFields)) {
      RootDigestIgnoresOrder(files, files', validUTF8, digest);
    }
  }

  lemma {:induction false} LowerHexInjective(a: seq<EvidenceGraph.Octet>, b: seq<EvidenceGraph.Octet>)
    requires |a| == |b| && LowerHex(a) == LowerHex(b)
    ensures a == b
  {
    if a != [] {
      var x, y := LowerHex(a), LowerHex(b);
      assert x[0] == LowerHexDigit(a[0] / 16) && y[0] == LowerHexDigit(b[0] / 16);
      assert x[1] == LowerHexDigit(a[0] % 16) && y[1] == LowerHexDigit(b[0] % 16);
      assert x[2..] == LowerHex(a[1..]) && y[2..] == LowerHex(b[1..]);
      LowerHexInjective(a[1..], b[1..]);
      assert a == [a[0]] + a[1..] && b == [b[0]] + b[1..];
    }
  }
}

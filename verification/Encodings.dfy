/**
 The length-prefixed encodings of internal/report/semantic_subject.go and inventory_digest.go.
 Both are proved injective, so no hostile byte can move across a field boundary.
 */
module Encodings {

  // ---------- joining with NUL ----------

  predicate NulFree(s: string) {
    '\0' !in s
  }

  function FirstIndex(s: string, mark: char): nat {
    if s == [] || s[0] == mark then 0 else 1 + FirstIndex(s[1..], mark)
  }

  lemma {:induction false} FirstIndexOfJoin(a: string, mark: char, b: string)
    requires mark !in a
    ensures FirstIndex(a + [mark] + b, mark) == |a|
  {
    if a != [] {
      assert (a + [mark] + b)[1..] == a[1..] + [mark] + b;
      FirstIndexOfJoin(a[1..], mark, b);
    }
  }

  /** Text splits at the first mark in one way only. */
  lemma SplitAtMark(a: string, b: string, c: string, d: string, mark: char)
    requires mark !in a && mark !in c
    requires a + [mark] + b == c + [mark] + d
    ensures a == c && b == d
  {
    var s := a + [mark] + b;
    FirstIndexOfJoin(a, mark, b);
    FirstIndexOfJoin(c, mark, d);
    assert s[..|a|] == a && s[|a| + 1..] == b && s[..|c|] == c && s[|c| + 1..] == d;
  }

  /** Joins two texts by NUL. */
  function NulJoin(a: string, b: string): string {
    a + ['\0'] + b
  }

  /** A NUL-joined text splits in one way only when the left parts hold no NUL. */
  lemma NulJoinInjective(a: string, b: string, c: string, d: string)
    requires NulFree(a) && NulFree(c) && NulJoin(a, b) == NulJoin(c, d)
    ensures a == c && b == d
  {
    SplitAtMark(a, b, c, d, '\0');
  }

  // ---------- decimal lengths ----------

  /** `strconv.AppendInt` in base ten. */
  function Decimal(n: nat): (s: string)
    ensures |s| > 0 && ':' !in s
  {
    if n < 10 then [Digit(n)] else Decimal(n / 10) + [Digit(n % 10)]
  }

  function Digit(n: nat): char
    requires n < 10
  {
    '0' + n as char
  }

  lemma {:induction false} DecimalInjective(m: nat, n: nat)
    requires Decimal(m) == Decimal(n)
    ensures m == n
  {
    var s := Decimal(m);
    assert m >= 10 ==> s == Decimal(m / 10) + [Digit(m % 10)];
    assert n >= 10 ==> s == Decimal(n / 10) + [Digit(n % 10)];
    if m >= 10 && n >= 10 {
      assert Decimal(m / 10) == s[..|s| - 1] == Decimal(n / 10);
      DecimalInjective(m / 10, n / 10);
      assert Digit(m % 10) == s[|s| - 1] == Digit(n % 10);
    }
  }

  // ---------- resource subjects ----------

  const SUBJECT_VERSION := "resource-subject/v1"

  function SubjectField(field: string): string {
    ":" + Decimal(|field|) + ":" + field
  }

  function ResourceSubject(kind: string, access: string, value: string): string {
    SUBJECT_VERSION + SubjectField(kind) + SubjectField(access) + SubjectField(value)
  }

  /** The builder as written: one byte slice appended to in a loop over the three fields. */
  method BuildResourceSubject(kind: string, access: string, value: string) returns (result: string)
    ensures result == ResourceSubject(kind, access, value)
  {
    result := SUBJECT_VERSION;
    var fields := [kind, access, value];
    for i := 0 to 3
      invariant i == 0 ==> result == SUBJECT_VERSION
      invariant i == 1 ==> result == SUBJECT_VERSION + SubjectField(kind)
      invariant i == 2 ==> result == SUBJECT_VERSION + SubjectField(kind) + SubjectField(access)
      invariant i == 3 ==> result == ResourceSubject(kind, access, value)
    {
      ghost var before := result;
      result := result + ":";
      result := result + Decimal(|fields[i]|);
      result := result + ":";
      result := result + fields[i];
      assert result == before + SubjectField(fields[i]);
    }
  }

  /** A length-prefixed field can be read back from the front of any text. */
  lemma SubjectFieldPrefix(f: string, rest: string, g: string, rest': string)
    requires SubjectField(f) + rest == SubjectField(g) + rest'
    ensures f == g && rest == rest'
  {
    var s := SubjectField(f) + rest;
    assert s[1..] == Decimal(|f|) + [':'] + (f + rest);
    assert s[1..] == Decimal(|g|) + [':'] + (g + rest');
    SplitAtMark(Decimal(|f|), f + rest, Decimal(|g|), g + rest', ':');
    DecimalInjective(|f|, |g|);
    assert (f + rest)[..|f|] == f && (g + rest')[..|g|] == g;
    assert (f + rest)[|f|..] == rest && (g + rest')[|g|..] == rest';
  }

  /** Two resources have one comparison subject exactly when kind, access and value all agree. */
  lemma ResourceSubjectInjective(k: string, a: string, v: string, k': string, a': string, v': string)
    ensures ResourceSubject(k, a, v) == ResourceSubject(k', a', v') <==> k == k' && a == a' && v == v'
  {
    if ResourceSubject(k, a, v) == ResourceSubject(k', a', v') {
      var n := |SUBJECT_VERSION|;
      var s := ResourceSubject(k, a, v);
      assert s[n..] == SubjectField(k) + (SubjectField(a) + SubjectField(v));
      assert s[n..] == SubjectField(k') + (SubjectField(a') + SubjectField(v'));
      SubjectFieldPrefix(k, SubjectField(a) + SubjectField(v), k', SubjectField(a') + SubjectField(v'));
      SubjectFieldPrefix(a, SubjectField(v), a', SubjectField(v'));
      assert SubjectField(v) + "" == SubjectField(v') + "";
      SubjectFieldPrefix(v, "", v', "");
    }
  }
}

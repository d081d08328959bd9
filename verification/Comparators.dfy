/**
 The typed comparators of internal/report/encode.go. Each is proved to be a comparison of key lists, and
 comparing key lists is proved once to be a total order in which only equal lists tie.
 */
module Comparators {
  import opened Text
  import opened Sorting
  import opened ReportModel

  // ---------- comparisons as written ----------

  function CompareString(left: string, right: string): int {
    if Less(left, right) then -1 else if Less(right, left) then 1 else 0
  }

  function CompareInt(left: int, right: int): int {
    if left < right then -1 else if left > right then 1 else 0
  }

  function CompareEvidence(left: Evidence, right: Evidence): int {
    var byInput := CompareString(left.inputID, right.inputID);
    if byInput != 0 then byInput else
    var byPath := CompareString(left.path, right.path);
    if byPath != 0 then byPath else
    var byStart := CompareInt(left.lineStart, right.lineStart);
    if byStart != 0 then byStart else
    var byEnd := CompareInt(left.lineEnd, right.lineEnd);
    if byEnd != 0 then byEnd else
    var byOperation := CompareString(left.operation, right.operation);
    if byOperation != 0 then byOperation else
    CompareString(left.excerpt, right.excerpt)
  }

  function CompareLimitation(left: Limitation, right: Limitation): int {
    var byCode := CompareString(left.code, right.code);
    if byCode != 0 then byCode else
    var byPath := CompareString(left.path, right.path);
    if byPath != 0 then byPath else
    var byScope := CompareString(left.scope.Text(), right.scope.Text());
    if byScope != 0 then byScope else
    CompareString(left.description, right.description)
  }

  function CompareScanError(left: ScanError, right: ScanError): int {
    var byCode := CompareString(left.code, right.code);
    if byCode != 0 then byCode else
    var byPath := CompareString(left.path, right.path);
    if byPath != 0 then byPath else
    CompareString(left.message, right.message)
  }

  // ---------- comparing key lists ----------

  datatype Key = Word(text: string) | Number(n: int)

  function CompareKey(a: Key, b: Key): int {
    match (a, b)
    case (Word(x), Word(y)) => CompareString(x, y)
    case (Number(x), Number(y)) => CompareInt(x, y)
    case (Word(_), Number(_)) => -1
    case (Number(_), Word(_)) => 1
  }

  function CompareKeys(a: seq<Key>, b: seq<Key>): int {
    if a == [] && b == [] then 0
    else if a == [] then -1
    else if b == [] then 1
    else if CompareKey(a[0], b[0]) != 0 then CompareKey(a[0], b[0])
    else CompareKeys(a[1..], b[1..])
  }

  lemma CompareStringIsTotal(a: string, b: string)
    ensures CompareString(a, b) == 0 <==> a == b
    ensures CompareString(b, a) == -CompareString(a, b)
  {
    LessTrichotomy(a, b);
    LessIrreflexive(a);
    if Less(a, b) && Less(b, a) {
      LessTransitive(a, b, a);
    }
  }

  lemma CompareKeyIsTotal(a: Key, b: Key)
    ensures CompareKey(a, b) == 0 <==> a == b
    ensures CompareKey(b, a) == -CompareKey(a, b)
  {
    if a.Word? && b.Word? {
      CompareStringIsTotal(a.text, b.text);
    }
  }

  lemma CompareKeyTransitive(a: Key, b: Key, c: Key)
    requires CompareKey(a, b) < 0 && CompareKey(b, c) < 0
    ensures CompareKey(a, c) < 0
  {
    if a.Word? && b.Word? && c.Word? {
      LessTransitive(a.text, b.text, c.text);
    }
  }

  /** Only equal lists tie, and swapping the sides flips the sign. */
  lemma {:induction false} CompareKeysIsTotal(a: seq<Key>, b: seq<Key>)
    ensures CompareKeys(a, b) == 0 <==> a == b
    ensures CompareKeys(b, a) == -CompareKeys(a, b)
  {
    if a != [] && b != [] {
      CompareKeyIsTotal(a[0], b[0]);
      CompareKeysIsTotal(a[1..], b[1..]);
      assert a == [a[0]] + a[1..] && b == [b[0]] + b[1..];
    }
  }

  lemma {:induction false} CompareKeysTransitive(a: seq<Key>, b: seq<Key>, c: seq<Key>)
    requires CompareKeys(a, b) < 0 && CompareKeys(b, c) < 0
    ensures CompareKeys(a, c) < 0
  {
    if a != [] {
      CompareKeyIsTotal(a[0], b[0]);
      CompareKeyIsTotal(b[0], c[0]);
      if CompareKey(a[0], b[0]) == 0 && CompareKey(b[0], c[0]) == 0 {
        CompareKeysTransitive(a[1..], b[1..], c[1..]);
      } else if CompareKey(a[0], b[0]) < 0 && CompareKey(b[0], c[0]) < 0 {
        CompareKeyTransitive(a[0], b[0], c[0]);
      }
    }
  }

  /** Sorting by a key list is a strict weak order. */
  lemma KeysOrder<T(!new)>(keys: T -> seq<Key>, less: (T, T) -> bool)
    requires forall a, b :: less(a, b) == (CompareKeys(keys(a), keys(b)) < 0)
    ensures StrictWeakOrder(less)
  {
    forall a: T, b: T | less(a, b) ensures !less(b, a) {
      CompareKeysIsTotal(keys(a), keys(b));
    }
    forall a: T, b: T, c: T | NotAfter(less, a, b) && NotAfter(less, b, c) ensures NotAfter(less, a, c) {
      NotAfterKeys(keys(a), keys(b), keys(c));
    }
  }

  lemma NotAfterKeys(a: seq<Key>, b: seq<Key>, c: seq<Key>)
    requires CompareKeys(b, a) >= 0 && CompareKeys(c, b) >= 0
    ensures CompareKeys(c, a) >= 0
  {
    CompareKeysIsTotal(a, b);
    CompareKeysIsTotal(b, c);
    CompareKeysIsTotal(a, c);
    if CompareKeys(a, b) < 0 && CompareKeys(b, c) < 0 {
      CompareKeysTransitive(a, b, c);
    }
  }

  /** Where equal keys mean equal records, a sort leaves no ties. */
  lemma KeyedIsDecided<T>(xs: seq<T>, keys: T -> seq<Key>, less: (T, T) -> bool)
    requires forall a <- xs, b <- xs :: less(a, b) == (CompareKeys(keys(a), keys(b)) < 0)
    requires forall a <- xs, b <- xs :: keys(a) == keys(b) ==> a == b
    ensures Decided(xs, less)
  {
    forall i, j | 0 <= i < |xs| && 0 <= j < |xs| && !less(xs[i], xs[j]) && !less(xs[j], xs[i]) ensures xs[i] == xs[j] {
      CompareKeysIsTotal(keys(xs[i]), keys(xs[j]));
    }
  }

  // ---------- the comparators are key comparisons ----------

  function EvidenceKeys(e: Evidence): seq<Key> {
    [Word(e.inputID), Word(e.path), Number(e.lineStart), Number(e.lineEnd), Word(e.operation), Word(e.excerpt)]
  }

  function LimitationKeys(l: Limitation): seq<Key> {
    [Word(l.code), Word(l.path), Word(l.scope.Text()), Word(l.description)]
  }

  function ScanErrorKeys(e: ScanError): seq<Key> {
    [Word(e.code), Word(e.path), Word(e.message)]
  }

  lemma CompareHead(a: Key, as_: seq<Key>, b: Key, bs: seq<Key>)
    ensures CompareKeys([a] + as_, [b] + bs) == if CompareKey(a, b) != 0 then CompareKey(a, b) else CompareKeys(as_, bs)
  {
    assert ([a] + as_)[1..] == as_ && ([b] + bs)[1..] == bs;
  }

  lemma CompareThree(a: seq<Key>, b: seq<Key>)
    requires |a| == 3 && |b| == 3
    ensures CompareKeys(a, b) == if CompareKey(a[0], b[0]) != 0 then CompareKey(a[0], b[0])
      else if CompareKey(a[1], b[1]) != 0 then CompareKey(a[1], b[1]) else CompareKey(a[2], b[2])
  {
    assert a == [a[0]] + ([a[1]] + ([a[2]] + [])) && b == [b[0]] + ([b[1]] + ([b[2]] + []));
    CompareHead(a[2], [], b[2], []);
    CompareHead(a[1], [a[2]] + [], b[1], [b[2]] + []);
    CompareHead(a[0], [a[1]] + ([a[2]] + []), b[0], [b[1]] + ([b[2]] + []));
  }

  lemma CompareScanErrorIsKeyed(a: ScanError, b: ScanError)
    ensures CompareScanError(a, b) == CompareKeys(ScanErrorKeys(a), ScanErrorKeys(b))
  {
    CompareThree(ScanErrorKeys(a), ScanErrorKeys(b));
  }

  lemma CompareLimitationIsKeyed(a: Limitation, b: Limitation)
    ensures CompareLimitation(a, b) == CompareKeys(LimitationKeys(a), LimitationKeys(b))
  {
    var ka, kb := LimitationKeys(a), LimitationKeys(b);
    assert ka == [ka[0]] + ka[1..] && kb == [kb[0]] + kb[1..];
    CompareHead(ka[0], ka[1..], kb[0], kb[1..]);
    CompareThree(ka[1..], kb[1..]);
  }

  lemma CompareEvidenceIsKeyed(a: Evidence, b: Evidence)
    ensures CompareEvidence(a, b) == CompareKeys(EvidenceKeys(a), EvidenceKeys(b))
  {
    var ka, kb := EvidenceKeys(a), EvidenceKeys(b);
    assert ka == [ka[0]] + ([ka[1]] + ([ka[2]] + ka[3..])) && kb == [kb[0]] + ([kb[1]] + ([kb[2]] + kb[3..]));
    CompareThree(ka[3..], kb[3..]);
    CompareHead(ka[2], ka[3..], kb[2], kb[3..]);
    CompareHead(ka[1], [ka[2]] + ka[3..], kb[1], [kb[2]] + kb[3..]);
    CompareHead(ka[0], [ka[1]] + ([ka[2]] + ka[3..]), kb[0], [kb[1]] + ([kb[2]] + kb[3..]));
  }

  lemma ScopeTextInjective(a: Scope, b: Scope)
    requires a.Text() == b.Text()
    ensures a == b
  {
    assert |RuntimeScope.Text()| == 7 && |ToolingScope.Text()| == 18 && |UnknownScope.Text()| == 7;
    assert RuntimeScope.Text()[0] == 'r' && UnknownScope.Text()[0] == 'u';
  }

  predicate EvidenceLess(a: Evidence, b: Evidence) {
    CompareEvidence(a, b) < 0
  }

  predicate LimitationLess(a: Limitation, b: Limitation) {
    CompareLimitation(a, b) < 0
  }

  predicate ScanErrorLess(a: ScanError, b: ScanError) {
    CompareScanError(a, b) < 0
  }

  /** Only the same evidence ties with itself, and sorting evidence never depends on the order given. */
  lemma EvidenceOrderIsTotal()
    ensures StrictWeakOrder(EvidenceLess)
    ensures forall a, b :: CompareEvidence(a, b) == 0 <==> a == b
    ensures forall xs :: Decided(xs, EvidenceLess)
  {
    forall a, b
      ensures EvidenceLess(a, b) == (CompareKeys(EvidenceKeys(a), EvidenceKeys(b)) < 0)
      ensures (CompareEvidence(a, b) == 0 <==> a == b)
    {
      CompareEvidenceIsKeyed(a, b);
      CompareKeysIsTotal(EvidenceKeys(a), EvidenceKeys(b));
      EvidenceKeysInjective(a, b);
    }
    KeysOrder(EvidenceKeys, EvidenceLess);
    forall xs ensures Decided(xs, EvidenceLess) {
      KeyedIsDecided(xs, EvidenceKeys, EvidenceLess);
    }
  }

  lemma EvidenceKeysInjective(a: Evidence, b: Evidence)
    ensures EvidenceKeys(a) == EvidenceKeys(b) <==> a == b
  {
    if EvidenceKeys(a) == EvidenceKeys(b) {
      assert forall i :: 0 <= i < 6 ==> EvidenceKeys(a)[i] == EvidenceKeys(b)[i];
    }
  }

  lemma LimitationOrderIsTotal()
    ensures StrictWeakOrder(LimitationLess)
    ensures forall a, b :: CompareLimitation(a, b) == 0 <==> a == b
    ensures forall xs :: Decided(xs, LimitationLess)
  {
    forall a, b
      ensures LimitationLess(a, b) == (CompareKeys(LimitationKeys(a), LimitationKeys(b)) < 0)
      ensures (CompareLimitation(a, b) == 0 <==> a == b)
    {
      CompareLimitationIsKeyed(a, b);
      CompareKeysIsTotal(LimitationKeys(a), LimitationKeys(b));
      LimitationKeysInjective(a, b);
    }
    KeysOrder(LimitationKeys, LimitationLess);
    forall xs ensures Decided(xs, LimitationLess) {
      KeyedIsDecided(xs, LimitationKeys, LimitationLess);
    }
  }

  lemma LimitationKeysInjective(a: Limitation, b: Limitation)
    ensures LimitationKeys(a) == LimitationKeys(b) <==> a == b
  {
    if LimitationKeys(a) == LimitationKeys(b) {
      assert forall i :: 0 <= i < 4 ==> LimitationKeys(a)[i] == LimitationKeys(b)[i];
      ScopeTextInjective(a.scope, b.scope);
    }
  }

  lemma ScanErrorOrderIsTotal()
    ensures StrictWeakOrder(ScanErrorLess)
    ensures forall a, b :: CompareScanError(a, b) == 0 <==> a == b
    ensures forall xs :: Decided(xs, ScanErrorLess)
  {
    forall a, b
      ensures ScanErrorLess(a, b) == (CompareKeys(ScanErrorKeys(a), ScanErrorKeys(b)) < 0)
      ensures (CompareScanError(a, b) == 0 <==> a == b)
    {
      CompareScanErrorIsKeyed(a, b);
      CompareKeysIsTotal(ScanErrorKeys(a), ScanErrorKeys(b));
      ScanErrorKeysInjective(a, b);
    }
    KeysOrder(ScanErrorKeys, ScanErrorLess);
    forall xs ensures Decided(xs, ScanErrorLess) {
      KeyedIsDecided(xs, ScanErrorKeys, ScanErrorLess);
    }
  }

  lemma ScanErrorKeysInjective(a: ScanError, b: ScanError)
    ensures ScanErrorKeys(a) == ScanErrorKeys(b) <==> a == b
  {
    if ScanErrorKeys(a) == ScanErrorKeys(b) {
      assert forall i :: 0 <= i < 3 ==> ScanErrorKeys(a)[i] == ScanErrorKeys(b)[i];
    }
  }

  /** The order of `sort.Strings`. */
  predicate StringLess(a: string, b: string) {
    Less(a, b)
  }

  lemma StringOrderIsTotal()
    ensures StrictWeakOrder(StringLess)
    ensures forall xs :: Decided(xs, StringLess)
  {
    KeyOrder((s: string) => s, StringLess);
    forall xs ensures Decided(xs, StringLess) {
      forall i, j | 0 <= i < |xs| && 0 <= j < |xs| && !StringLess(xs[i], xs[j]) && !StringLess(xs[j], xs[i])
        ensures xs[i] == xs[j]
      {
        LessTrichotomy(xs[i], xs[j]);
      }
    }
  }
}

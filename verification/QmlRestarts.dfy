/**
 Where the scans of qmlCommandExpressions start again (internal/analyze/qml.go:174-208): each value is followed by
 a scan that takes its own start for code.
 */
module QmlRestarts {
  import opened Qml

  /** A value that ends with its line and not with a bracket pair. */
  ghost predicate Unbracketed(data: string, block: Interval, x: Interval) {
    x.start < block.end <= |data| && !(data[x.start] == '[' && Bracketed(data[..block.end], x.start, x.end))
  }

  /** Read on its own, the value leaves no string and no comment open where it ends. */
  predicate ClosedAtEnd(data: string, x: Interval) {
    x.start <= x.end <= |data| && LexAt(data, x.start, x.end) == Code
  }

  predicate InCode(data: string, i: nat) {
    i <= |data| && LexAt(data, 0, i) == Code
  }

  /** Every scan of the block starts in code of the whole document. */
  predicate RestartsInCode(data: string, block: Interval, xs: seq<Interval>, n: nat)
    requires n <= |xs|
  {
    forall i :: 0 <= i <= n ==> InCode(data, GoOn(xs, i, block.start, PastValue))
  }

  ghost predicate UnbracketedClosed(data: string, block: Interval, xs: seq<Interval>, n: nat)
    requires n <= |xs|
  {
    forall i :: 0 <= i < n ==> Unbracketed(data, block, xs[i]) ==> ClosedAtEnd(data, xs[i])
  }

  lemma BlockStartsInCode(data: string, block: Interval)
    requires ProcessBlock(data, block)
    ensures InCode(data, block.start)
  {
  }

  /** An expression starts in code of the document when its scan does. */
  lemma StartsWithItsScan(data: string, block: Interval, classes: Classes, base: nat, x: Interval)
    requires block.end < |data| && InCode(data, base) && NextExpression(data, block.end, classes, base, x)
    ensures base <= x.start <= x.end <= block.end && InCode(data, x.start)
  {
    var w: nat :| base <= w && ExpressionAt(data, block.end, classes, base, w, x);
    var colon: nat :| ColonAt(data, block.end, classes, base, w + |COMMAND|, colon)
      && ValueAt(data, block.end, classes, base, colon, x);
    assert Shown(data, classes, base, x.start);
    Resume(data, 0, base, x.start);
  }

  /** A bracketed value is closed at its end. */
  lemma BracketsClose(data: string, block: Interval, x: Interval)
    requires block.end < |data| && Bracketed(data[..block.end], x.start, x.end)
    ensures ClosedAtEnd(data, x)
  {
    CutReadsSame(data, block.end, x.start, x.end - 1);
  }

  /** From an expression that starts in code the next scan starts in code exactly when the value is closed. */
  lemma RestartIff(data: string, block: Interval, classes: Classes, base: nat, x: Interval)
    requires block.end < |data| && InCode(data, base) && NextExpression(data, block.end, classes, base, x)
    ensures InCode(data, x.end) <==> (Unbracketed(data, block, x) ==> ClosedAtEnd(data, x))
  {
    StartsWithItsScan(data, block, classes, base, x);
    Resume(data, 0, x.start, x.end);
    if !Unbracketed(data, block, x) {
      BracketsClose(data, block, x);
    }
  }

  lemma FoundFromItsScan(data: string, block: Interval, classes: Classes, xs: seq<Interval>, i: nat)
    requires ExpressionsOf(data, block, classes, xs) && i < |xs|
    ensures NextExpression(data, block.end, classes, GoOn(xs, i, block.start, PastValue), xs[i])
  {
    hide NextExpression;
  }

  lemma NoScanYet(data: string, block: Interval, xs: seq<Interval>)
    ensures RestartsInCode(data, block, xs, 0) <==> InCode(data, block.start)
    ensures UnbracketedClosed(data, block, xs, 0)
  {
    assert GoOn(xs, 0, block.start, PastValue) == block.start;
  }

  lemma OneMoreScan(data: string, block: Interval, xs: seq<Interval>, n: nat)
    requires 0 < n <= |xs|
    ensures var x := xs[n - 1];
      && (RestartsInCode(data, block, xs, n) <==> RestartsInCode(data, block, xs, n - 1) && InCode(data, x.end))
      && (UnbracketedClosed(data, block, xs, n) <==>
          UnbracketedClosed(data, block, xs, n - 1) && (Unbracketed(data, block, x) ==> ClosedAtEnd(data, x)))
    ensures RestartsInCode(data, block, xs, n - 1) ==> InCode(data, GoOn(xs, n - 1, block.start, PastValue))
  {
    hide InCode, Unbracketed, ClosedAtEnd;
    assert GoOn(xs, n, block.start, PastValue) == xs[n - 1].end;
  }

  /** Up to any expression the scans start in code exactly when the unbracketed values before it are closed. */
  lemma {:induction false} ScansInCodeIff(
    data: string, block: Interval, classes: Classes, xs: seq<Interval>, n: nat)
    requires ProcessBlock(data, block) && ExpressionsOf(data, block, classes, xs) && n <= |xs|
    ensures RestartsInCode(data, block, xs, n) <==> UnbracketedClosed(data, block, xs, n)
    decreases n
  {
    hide ExpressionsOf, NextExpression, RestartsInCode, UnbracketedClosed, Unbracketed, ClosedAtEnd, InCode, GoOn;
    if n == 0 {
      NoScanYet(data, block, xs);
      BlockStartsInCode(data, block);
    } else {
      ScansInCodeIff(data, block, classes, xs, n - 1);
      OneMoreScan(data, block, xs, n);
      FoundFromItsScan(data, block, classes, xs, n - 1);
      if RestartsInCode(data, block, xs, n - 1) {
        RestartIff(data, block, classes, GoOn(xs, n - 1, block.start, PastValue), xs[n - 1]);
      }
    }
  }

  function AllButLast(xs: seq<Interval>): nat {
    if xs == [] then 0 else |xs| - 1
  }

  /**
   In a block of a document every expression is found by a scan that starts in code of the document if and only if
   no unbracketed value but the last leaves a string or comment open at the end of its line. Then every expression
   starts in code of the document.
   */
  lemma ExpressionsInCodeIff(data: string, block: Interval, classes: Classes, xs: seq<Interval>)
    requires ProcessBlock(data, block) && ExpressionsOf(data, block, classes, xs)
    ensures RestartsInCode(data, block, xs, AllButLast(xs)) <==> UnbracketedClosed(data, block, xs, AllButLast(xs))
    ensures UnbracketedClosed(data, block, xs, AllButLast(xs)) ==> forall x <- xs :: InCode(data, x.start)
  {
    hide ExpressionsOf, NextExpression, UnbracketedClosed, GoOn;
    ScansInCodeIff(data, block, classes, xs, AllButLast(xs));
    if UnbracketedClosed(data, block, xs, AllButLast(xs)) {
      forall i | 0 <= i < |xs| ensures InCode(data, xs[i].start) {
        FoundFromItsScan(data, block, classes, xs, i);
        StartsWithItsScan(data, block, classes, GoOn(xs, i, block.start, PastValue), xs[i]);
      }
    }
  }

  // ---------- a string read as code ----------

  const DOCUMENT := "{" + COMMAND + ":\"a;" + COMMAND + ":[b]\"}"

  /** Lower-case letters are letters, and this punctuation is nothing. */
  ghost predicate Latin(classes: Classes) {
    && Sane(classes) && (forall c :: 'a' <= c <= 'z' ==> classes.letter(c))
    && forall c :: c == ':' || c == ';' || c == '[' || c == '*' ==>
      !classes.space(c) && !IdentifierPart(c, classes)
  }

  predicate Plain(data: string, a: nat, b: nat) {
    a <= b <= |data| && forall k :: a <= k < b ==> !Quote(data[k]) && data[k] != '/' && data[k] != '\\'
  }

  /** Plain text changes no reading. */
  lemma {:induction false} PlainKeeps(data: string, base: nat, a: nat, b: nat)
    requires base <= a && Plain(data, a, b) && (LexAt(data, base, a) == Code || LexAt(data, base, a) == Quoted('"'))
    ensures LexAt(data, base, b) == LexAt(data, base, a)
    decreases b
  {
    if b > a {
      PlainKeeps(data, base, a, b - 1);
    }
  }

  lemma CommandStands(text: string, classes: Classes, base: nat, w: nat)
    requires Latin(classes) && base <= w && w + 7 < |text| && text[w..w + 7] == COMMAND && text[w + 7] == ':'
    requires LexAt(text, base, w) == Code && forall k :: base <= k < w ==> !IdentifierStart(text[k], classes)
    ensures WordAt(text, classes, base, w, COMMAND)
  {
    assert forall k :: w <= k < w + 7 ==> text[k] == COMMAND[k - w];
  }

  lemma CodeIsFirstShown(data: string, classes: Classes, base: nat, i: nat)
    requires base <= i < |data| && LexAt(data, base, i) == Code && !classes.space(data[i]) && data[i] != '/'
    ensures FirstShown(data, classes, base, i, i)
  {
  }

  lemma TheString(classes: Classes)
    requires Latin(classes)
    ensures NextExpression(DOCUMENT, 24, classes, 1, Interval(9, 11))
    ensures forall i :: 10 <= i <= 23 ==> LexAt(DOCUMENT, 0, i) == Quoted('"')
  {
    var data, x := DOCUMENT, Interval(9, 11);
    assert data[1..8] == COMMAND && data[..24][1..8] == data[1..8];
    CommandStands(data[..24], classes, 1, 1);
    PlainKeeps(data, 1, 1, 8);
    CodeIsFirstShown(data, classes, 1, 8);
    PlainKeeps(data, 1, 1, 9);
    CodeIsFirstShown(data, classes, 1, 9);
    assert ColonAt(data, 24, classes, 1, 8, 8) && ValueAt(data, 24, classes, 1, 8, x);
    assert ExpressionAt(data, 24, classes, 1, 1, x);
    PlainKeeps(data, 0, 0, 9);
    forall i | 10 <= i <= 23 ensures LexAt(data, 0, i) == Quoted('"') {
      assert LexAt(data, 0, 10) == Quoted('"');
      PlainKeeps(data, 0, 10, i);
    }
  }

  lemma TheRestOfIt(classes: Classes)
    requires Latin(classes)
    ensures NextExpression(DOCUMENT, 24, classes, 11, Interval(20, 23))
  {
    var data, x := DOCUMENT, Interval(20, 23);
    var text := data[..24];
    PlainKeeps(text, 11, 11, 12);
    assert text[12..19] == COMMAND;
    assert !IdentifierPart(text[11], classes);
    CommandStands(text, classes, 11, 12);
    PlainKeeps(data, 11, 11, 19);
    CodeIsFirstShown(data, classes, 11, 19);
    PlainKeeps(data, 11, 11, 20);
    CodeIsFirstShown(data, classes, 11, 20);
    BracketedB();
    assert ColonAt(data, 24, classes, 11, 19, 19) && ValueAt(data, 24, classes, 11, 19, x);
    assert ExpressionAt(data, 24, classes, 11, 12, x);
  }

  lemma BracketedB()
    ensures Bracketed(DOCUMENT[..24], 20, 23)
  {
    var text := DOCUMENT[..24];
    assert text[20] == '[' && text[21] == 'b' && text[22] == ']';
    PlainKeeps(text, 20, 20, 21);
    PlainKeeps(text, 20, 20, 22);
    assert Depth(text, 20, 21, '[', ']') == 1;
    assert Depth(text, 20, 22, '[', ']') == 1;
    assert Depth(text, 20, 23, '[', ']') == 0;
  }

  lemma NothingAfterLast(data: string, block: Interval, classes: Classes, xs: seq<Interval>, x: Interval)
    requires ExpressionsOf(data, block, classes, xs)
    ensures !NextExpression(data, block.end, classes, GoOn(xs, |xs|, block.start, PastValue), x)
  {
    hide NextExpression, GoOn;
    var chosen := (base: nat, x: Interval) => NextExpression(data, block.end, classes, base, x);
    assert WholeChain(chosen, PastValue, block.start, xs);
    assert !chosen(GoOn(xs, |xs|, block.start, PastValue), x);
  }

  lemma FoundNext(data: string, block: Interval, classes: Classes, xs: seq<Interval>, i: nat, x: Interval)
    requires ExpressionsOf(data, block, classes, xs) && i <= |xs|
    requires NextExpression(data, block.end, classes, GoOn(xs, i, block.start, PastValue), x)
    ensures i < |xs| && xs[i] == x
  {
    hide NextExpression, GoOn;
    NothingAfterLast(data, block, classes, xs, x);
    if i < |xs| {
      FoundFromItsScan(data, block, classes, xs, i);
      NextExpressionIsUnique(data, block.end, classes, GoOn(xs, i, block.start, PastValue), xs[i], x);
    }
  }

  /** In `{command:"a;command:[b]"}` the second expression is read out of a string literal. */
  method StringIsRead(classes: Classes) returns (xs: seq<Interval>)
    requires Latin(classes)
    ensures ExpressionsOf(DOCUMENT, Interval(1, 24), classes, xs)
    ensures |xs| >= 2 && xs[0] == Interval(9, 11) && xs[1] == Interval(20, 23)
    ensures forall i :: 10 <= i <= 23 ==> LexAt(DOCUMENT, 0, i) == Quoted('"')
  {
    hide ExpressionsOf, NextExpression, LexAt;
    xs := CommandExpressions(DOCUMENT, Interval(1, 24), classes);
    TheString(classes);
    TheRestOfIt(classes);
    FoundNext(DOCUMENT, Interval(1, 24), classes, xs, 0, Interval(9, 11));
    FoundNext(DOCUMENT, Interval(1, 24), classes, xs, 1, Interval(20, 23));
  }

  // ---------- back in code by chance ----------

  const COMMENTED := "{" + COMMAND + ":a/*;*/" + COMMAND + ":[b]}"

  lemma CommentedReads()
    ensures LexAt(COMMENTED, 1, 9) == Code
    ensures LexAt(COMMENTED, 9, 12) == Block && LexAt(COMMENTED, 0, 15) == Code
  {
    var data := COMMENTED;
    PlainKeeps(data, 1, 1, 9);
    PlainKeeps(data, 0, 0, 9);
    assert LexAt(data, 9, 10) == Code && LexAt(data, 9, 11) == Opener && LexAt(data, 9, 12) == Block;
    assert LexAt(data, 9, 13) == Block && LexAt(data, 9, 14) == Closer && LexAt(data, 9, 15) == Code;
    Resume(data, 0, 9, 15);
  }

  lemma TheComment(classes: Classes)
    requires Latin(classes)
    ensures NextExpression(COMMENTED, 26, classes, 1, Interval(9, 12))
  {
    var data, x := COMMENTED, Interval(9, 12);
    assert data[1..8] == COMMAND && data[..26][1..8] == data[1..8];
    CommandStands(data[..26], classes, 1, 1);
    PlainKeeps(data, 1, 1, 8);
    CodeIsFirstShown(data, classes, 1, 8);
    CommentedReads();
    CodeIsFirstShown(data, classes, 1, 9);
    assert ColonAt(data, 26, classes, 1, 8, 8) && ValueAt(data, 26, classes, 1, 8, x);
    assert ExpressionAt(data, 26, classes, 1, 1, x);
  }

  lemma AfterTheComment(classes: Classes)
    requires Latin(classes)
    ensures NextExpression(COMMENTED, 26, classes, 12, Interval(23, 26))
  {
    var data, x := COMMENTED, Interval(23, 26);
    var text := data[..26];
    assert data[15..22] == COMMAND && text[15..22] == data[15..22];
    assert text[12] == ';' && text[13] == '*' && text[14] == '/' && text[15] == 'c';
    SlashKeeps(text);
    assert !IdentifierPart(text[12], classes) && !IdentifierPart(text[13], classes);
    assert Punctuation(text[14]);
    CommandStands(text, classes, 12, 15);
    SlashKeeps(data);
    PlainKeeps(data, 12, 15, 22);
    CodeIsFirstShown(data, classes, 12, 22);
    PlainKeeps(data, 12, 15, 23);
    CodeIsFirstShown(data, classes, 12, 23);
    BracketedAgain();
    assert ColonAt(data, 26, classes, 12, 22, 22) && ValueAt(data, 26, classes, 12, 22, x);
    assert ExpressionAt(data, 26, classes, 12, 15, x);
  }

  /** Read from the middle of the comment, its end is code. */
  lemma SlashKeeps(text: string)
    requires |text| > 15 && text[12] == ';' && text[13] == '*' && text[14] == '/' && text[15] == 'c'
    ensures LexAt(text, 12, 15) == Code
  {
    assert LexAt(text, 12, 13) == Code && LexAt(text, 12, 14) == Code;
  }

  lemma BracketedAgain()
    ensures Bracketed(COMMENTED[..26], 23, 26)
  {
    var text := COMMENTED[..26];
    assert text[23] == '[' && text[24] == 'b' && text[25] == ']';
    PlainKeeps(text, 23, 23, 24);
    PlainKeeps(text, 23, 23, 25);
    assert Depth(text, 23, 24, '[', ']') == 1;
    assert Depth(text, 23, 25, '[', ']') == 1;
    assert Depth(text, 23, 26, '[', ']') == 0;
  }

  /**
   In `{command:a/*;*/command:[b]}` the first value leaves a comment open, the next scan starts in it, and the
   expression it finds is code all the same.
   */
  method CommentEndsInTime(classes: Classes) returns (xs: seq<Interval>)
    requires Latin(classes)
    ensures ExpressionsOf(COMMENTED, Interval(1, 26), classes, xs)
    ensures |xs| >= 2 && xs[0] == Interval(9, 12) && xs[1] == Interval(23, 26)
    ensures !ClosedAtEnd(COMMENTED, xs[0]) && InCode(COMMENTED, xs[1].start)
  {
    hide ExpressionsOf, NextExpression, LexAt;
    xs := CommandExpressions(COMMENTED, Interval(1, 26), classes);
    TheComment(classes);
    AfterTheComment(classes);
    FoundNext(COMMENTED, Interval(1, 26), classes, xs, 0, Interval(9, 12));
    FoundNext(COMMENTED, Interval(1, 26), classes, xs, 1, Interval(23, 26));
    CommentedReads();
    PlainKeeps(COMMENTED, 0, 15, 23);
  }
}

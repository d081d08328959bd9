/**
 The lexical QML scanner of internal/analyze/qml.go. Its loops jump over strings and comments; the
 specification reads one byte at a time. Line comments end at a newline or at `;`, as the scanner has it.
 */
module Qml {
  import opened ReportModel

  // ---------- one byte at a time ----------

  datatype Lex = Code | Quoted(quote: char) | Escaped(quote: char) | Line | Opener | Block | Closer

  predicate Quote(c: char) {
    c == '"' || c == '\''
  }

  predicate Terminator(c: char) {
    c == '\n' || c == ';'
  }

  predicate LineStart(data: string, i: nat) {
    i + 1 < |data| && data[i] == '/' && data[i + 1] == '/'
  }

  predicate BlockStart(data: string, i: nat) {
    i + 1 < |data| && data[i] == '/' && data[i + 1] == '*'
  }

  predicate BlockStop(data: string, i: nat) {
    i + 1 < |data| && data[i] == '*' && data[i + 1] == '/'
  }

  /** How the byte after position i is read, given how the byte at i is. */
  function Step(data: string, i: nat, lex: Lex): Lex
    requires i < |data|
  {
    match lex
    case Code => if Quote(data[i]) then Quoted(data[i]) else if LineStart(data, i) then Line
      else if BlockStart(data, i) then Opener else Code
    case Quoted(q) => if data[i] == '\\' then Escaped(q) else if data[i] == q then Code else Quoted(q)
    case Escaped(q) => Quoted(q)
    case Line => if i + 1 < |data| && Terminator(data[i + 1]) then Code else Line
    case Opener => Block
    case Block => if BlockStop(data, i) then Closer else Block
    case Closer => Code
  }

  /** How position i is read when reading starts, in code, at `start`. */
  function LexAt(data: string, start: nat, i: nat): Lex
    requires start <= i <= |data|
  {
    if i == start then Code else Step(data, i - 1, LexAt(data, start, i - 1))
  }

  /** Reading can be resumed at any position that is read as code. */
  lemma {:induction false} Resume(data: string, a: nat, b: nat, i: nat)
    requires a <= b <= i <= |data| && LexAt(data, a, b) == Code
    ensures LexAt(data, b, i) == LexAt(data, a, i)
    decreases i
  {
    if i > b {
      Resume(data, a, b, i - 1);
    }
  }

  function Weight(data: string, start: nat, i: nat, open: char, close: char): int
    requires start <= i < |data|
  {
    if LexAt(data, start, i) != Code then 0 else if data[i] == open then 1 else if data[i] == close then -1 else 0
  }

  /** Delimiters opened minus delimiters closed in the code before position i. */
  function Depth(data: string, start: nat, i: nat, open: char, close: char): int
    requires start <= i <= |data|
  {
    if i == start then 0 else Depth(data, start, i - 1, open, close) + Weight(data, start, i - 1, open, close)
  }

  predicate Closes(data: string, start: nat, i: nat, open: char, close: char)
    requires start <= i < |data|
  {
    LexAt(data, start, i) == Code && data[i] == close && Depth(data, start, i + 1, open, close) == 0
  }

  /** The first place where the depth returns to zero at a closing delimiter. */
  ghost predicate MatchesAt(data: string, start: nat, end: nat, open: char, close: char) {
    && start <= end < |data| && Closes(data, start, end, open, close)
    && forall j :: start <= j < end ==> !Closes(data, start, j, open, close)
  }

  ghost predicate NeverCloses(data: string, start: nat, upTo: nat, open: char, close: char) {
    start <= upTo <= |data| && forall j :: start <= j < upTo ==> !Closes(data, start, j, open, close)
  }

  /** No byte of this stretch is code, except one that is no delimiter. */
  ghost predicate Quiet(data: string, start: nat, a: nat, b: nat, open: char, close: char) {
    start <= a <= b <= |data| && forall k :: a <= k < b ==>
      LexAt(data, start, k) != Code || (data[k] != open && data[k] != close)
  }

  lemma {:induction false} QuietStretch(data: string, start: nat, a: nat, b: nat, open: char, close: char)
    requires Quiet(data, start, a, b, open, close) && NeverCloses(data, start, a, open, close)
    ensures Depth(data, start, b, open, close) == Depth(data, start, a, open, close)
    ensures NeverCloses(data, start, b, open, close)
    decreases b - a
  {
    if b > a {
      QuietStretch(data, start, a, b - 1, open, close);
    }
  }

  // ---------- stretches that the loops jump over ----------

  /** A string or comment that opens in code at `start`: `end` is the first code after it, or the end of the text. */
  ghost predicate Span(data: string, start: nat, end: nat) {
    && start < end <= |data| && (LexAt(data, start, end) == Code || end == |data|)
    && forall k :: start < k < end ==> LexAt(data, start, k) != Code
  }

  /** `lineEnd`. */
  method LineEnd(data: string, start: nat, limit: nat) returns (end: nat)
    requires start <= limit <= |data|
    ensures start <= end <= limit && (end < limit ==> Terminator(data[end]))
    ensures forall k :: start <= k < end ==> !Terminator(data[k])
  {
    for index := start to limit
      invariant forall k :: start <= k < index ==> !Terminator(data[k])
    {
      if Terminator(data[index]) {
        return index;
      }
    }
    end := limit;
  }

  lemma {:induction false} LineSpan(data: string, start: nat, end: nat, k: nat)
    requires LineStart(data, start) && start < k <= end <= |data| && forall j :: start <= j < end ==>
      !Terminator(data[j])
    requires end < |data| ==> Terminator(data[end])
    ensures LexAt(data, start, k) == if k == end && end < |data| then Code else Line
    decreases k
  {
    if k > start + 1 {
      LineSpan(data, start, end, k - 1);
    } else {
      assert LexAt(data, start, start) == Code && !Terminator('/');
    }
  }

  method SkipLineComment(data: string, start: nat) returns (end: nat)
    requires LineStart(data, start)
    ensures Span(data, start, end)
  {
    end := LineEnd(data, start, |data|);
    assert end > start + 1;
    forall k | start < k <= end ensures LexAt(data, start, k) == if k == end && end < |data| then Code else Line {
      LineSpan(data, start, end, k);
    }
  }

  /** `skipQMLString`. */
  method SkipString(data: string, start: nat) returns (end: nat)
    requires start < |data| && Quote(data[start])
    ensures Span(data, start, end)
  {
    var quote := data[start];
    var index := start + 1;
    while index < |data|
      invariant start < index <= |data| + 1
      invariant index <= |data| ==> LexAt(data, start, index) == Quoted(quote)
      invariant forall k :: start < k < index && k <= |data| ==> LexAt(data, start, k) != Code
    {
      if data[index] == '\\' {
        assert LexAt(data, start, index + 1) == Escaped(quote);
        index := index + 2;
      } else if data[index] == quote {
        return index + 1;
      } else {
        index := index + 1;
      }
    }
    end := |data|;
  }

  /** The last byte of the text, unless the text ends before it. */
  function Last(data: string, from: nat): nat {
    if from < |data| then |data| - 1 else from
  }

  /** The inner loop over a block comment: where it stops, and whether it found the end of the comment. */
  method FindBlockStop(data: string, start: nat) returns (index: nat, found: bool)
    requires BlockStart(data, start)
    ensures start + 2 <= index <= |data|
    ensures if found then index + 2 <= |data| && LexAt(data, start, index + 2) == Code
      else index == Last(data, start + 2)
    ensures Span(data, start, if found then index + 2 else |data|)
    ensures !found ==> LexAt(data, start, |data|) != Code
  {
    index := start + 2;
    assert LexAt(data, start, start) == Code;
    assert LexAt(data, start, start + 1) == Opener;
    while index + 1 < |data| && !(data[index] == '*' && data[index + 1] == '/')
      invariant start + 2 <= index <= Last(data, start + 2) && LexAt(data, start, index) == Block
      invariant forall k :: start < k <= index ==> LexAt(data, start, k) != Code
    {
      index := index + 1;
    }
    found := index + 1 < |data|;
    if found {
      assert LexAt(data, start, index + 1) == Closer;
    }
  }

  lemma SpanIsQuiet(data: string, start: nat, i: nat, end: nat, open: char, close: char)
    requires start <= i && Span(data, i, end) && LexAt(data, start, i) == Code && data[i] != open && data[i] != close
    ensures Quiet(data, start, i, end, open, close) && (LexAt(data, start, end) == Code || end == |data|)
  {
    Resume(data, start, i, end);
    forall k | i <= k < end ensures LexAt(data, start, k) != Code || (data[k] != open && data[k] != close) {
      Resume(data, start, i, k);
    }
  }

  // ---------- matching delimiters ----------

  predicate Delimiters(open: char, close: char) {
    open != close && !Quote(open) && !Quote(close) && open != '/' && close != '/'
  }

  /** One iteration at a quote, a comment or a byte of no interest: where reading goes on. */
  method Advance(data: string, start: nat, index: nat, open: char, close: char) returns (next: nat)
    requires Delimiters(open, close) && start <= index < |data| && LexAt(data, start, index) == Code
    requires data[index] != open && data[index] != close
    ensures index < next <= |data| && Quiet(data, start, index, next, open, close)
    ensures (LexAt(data, start, next) == Code || next == |data|)
  {
    if Quote(data[index]) {
      next := SkipString(data, index);
    } else if LineStart(data, index) {
      next := SkipLineComment(data, index);
    } else if BlockStart(data, index) {
      var stop, found := FindBlockStop(data, index);
      next := if found then stop + 2 else |data|;
    } else {
      return index + 1;
    }
    SpanIsQuiet(data, start, index, next, open, close);
  }

  /** `matchQMLDelimiter`: the first return to depth zero outside strings and comments, if there is one. */
  method MatchDelimiter(data: string, start: nat, open: char, close: char) returns (end: nat, matched: bool)
    requires start <= |data| && Delimiters(open, close)
    ensures if matched then MatchesAt(data, start, end, open, close)
      else end == |data| && NeverCloses(data, start, |data|, open, close)
  {
    var depth := 0;
    var index := start;
    while index < |data|
      invariant start <= index <= |data| && NeverCloses(data, start, index, open, close)
      invariant index < |data| ==> LexAt(data, start, index) == Code
      invariant depth == Depth(data, start, index, open, close)
    {
      if data[index] == open {
        depth := depth + 1;
        index := index + 1;
      } else if data[index] == close {
        depth := depth - 1;
        if depth == 0 {
          return index, true;
        }
        index := index + 1;
      } else {
        var next := Advance(data, start, index, open, close);
        QuietStretch(data, start, index, next, open, close);
        index := next;
      }
    }
    end, matched := |data|, false;
  }

  // ---------- tokens ----------

  /** The Unicode classes of a byte. */
  datatype Classes = Classes(space: char -> bool, letter: char -> bool, digit: char -> bool)

  predicate Punctuation(c: char) {
    Quote(c) || c == '/' || c == '{' || c == '}'
  }

  /** Spaces, identifier bytes and this punctuation are three different things. */
  ghost predicate Sane(classes: Classes) {
    forall c :: if classes.space(c) then !IdentifierPart(c, classes) && !Punctuation(c)
                else IdentifierPart(c, classes) ==> !Punctuation(c)
  }

  predicate IdentifierStart(c: char, classes: Classes) {
    c == '_' || classes.letter(c)
  }

  predicate IdentifierPart(c: char, classes: Classes) {
    IdentifierStart(c, classes) || classes.digit(c)
  }

  /** Position i is read as code when reading starts at `base`, or the text ends there. */
  ghost predicate AtCode(data: string, base: nat, i: nat) {
    base <= i <= |data| && (i < |data| ==> LexAt(data, base, i) == Code)
  }

  /** A byte of code that is neither space nor the start of a comment. */
  ghost predicate Significant(data: string, classes: Classes, base: nat, k: nat) {
    && base <= k < |data| && LexAt(data, base, k) == Code
    && !classes.space(data[k]) && !LineStart(data, k) && !BlockStart(data, k)
  }

  /** A block comment that opens in code and is never closed. */
  ghost predicate OpensUnclosed(data: string, base: nat, o: nat) {
    && base <= o && BlockStart(data, o) && LexAt(data, base, o) == Code
    && forall k :: o < k <= |data| ==> LexAt(data, base, k) != Code
  }

  /** The last byte of the text, inside an unclosed block comment and past its opener. */
  ghost predicate Leftover(data: string, base: nat, i: nat) {
    i + 1 == |data| && exists o: nat :: o + 2 <= i && OpensUnclosed(data, base, o)
  }

  /** What the tokenizer does not skip: the significant bytes, and the leftover byte if it is no space. */
  ghost predicate Shown(data: string, classes: Classes, base: nat, k: nat) {
    Significant(data, classes, base, k) || (Leftover(data, base, k) && !classes.space(data[k]))
  }

  /** The first shown byte at or after `from`, or the end of the text. */
  ghost predicate FirstShown(data: string, classes: Classes, base: nat, from: nat, index: nat) {
    && from <= index <= |data| && (index < |data| ==> Shown(data, classes, base, index))
    && forall k :: from <= k < index ==> !Shown(data, classes, base, k)
  }

  lemma FirstShownIsUnique(data: string, classes: Classes, base: nat, from: nat, a: nat, b: nat)
    requires FirstShown(data, classes, base, from, a) && FirstShown(data, classes, base, from, b)
    ensures a == b
  {
  }

  /** A shown byte is read out of code exactly when it is left over from an unclosed block comment. */
  lemma OutOfCodeIff(data: string, classes: Classes, base: nat, i: nat)
    requires base <= i < |data| && Shown(data, classes, base, i)
    ensures LexAt(data, base, i) != Code <==> Leftover(data, base, i)
  {
  }

  /** Nothing is shown inside a string or comment that ends. */
  lemma SpanHides(data: string, classes: Classes, base: nat, i: nat, end: nat)
    requires base <= i && Span(data, i, end) && LexAt(data, base, i) == Code
    requires BlockStart(data, i) ==> LexAt(data, i, end) == Code
    ensures AtCode(data, base, end) && forall k :: i < k < end ==> !Shown(data, classes, base, k)
  {
    Resume(data, base, i, end);
    forall k | i < k < end ensures !Shown(data, classes, base, k) {
      Resume(data, base, i, k);
      if Leftover(data, base, k) {
        var o: nat :| o + 2 <= k && OpensUnclosed(data, base, o);
        if o > i {
          Resume(data, base, i, o);
        }
      }
    }
  }

  /** An unclosed block comment hides everything but its leftover byte. */
  lemma UnclosedHides(data: string, classes: Classes, base: nat, i: nat, stop: nat)
    requires base <= i && BlockStart(data, i) && LexAt(data, base, i) == Code
    requires forall k :: i < k <= |data| ==> LexAt(data, i, k) != Code
    requires stop == Last(data, i + 2)
    ensures forall k :: i < k < stop ==> !Shown(data, classes, base, k)
    ensures stop < |data| ==> Leftover(data, base, stop)
  {
    forall k | i < k <= |data| ensures LexAt(data, base, k) != Code {
      Resume(data, base, i, k);
    }
    assert OpensUnclosed(data, base, i);
  }

  /** `skipQMLSpaceAndComments`: on to the first byte that is shown. */
  method SkipSpaceAndComments(data: string, start: nat, classes: Classes, ghost base: nat) returns (index: nat)
    requires AtCode(data, base, start) && Sane(classes)
    ensures FirstShown(data, classes, base, start, index)
  {
    index := start;
    while index < |data|
      invariant start <= index <= |data|
      invariant index < |data| ==> LexAt(data, base, index) == Code || Leftover(data, base, index)
      invariant forall k :: start <= k < index ==> !Shown(data, classes, base, k)
    {
      if classes.space(data[index]) {
        index := index + 1;
      } else if LineStart(data, index) {
        var end := SkipLineComment(data, index);
        SpanHides(data, classes, base, index, end);
        index := end;
      } else if BlockStart(data, index) {
        var stop, found := FindBlockStop(data, index);
        if found {
          SpanHides(data, classes, base, index, stop + 2);
        } else {
          UnclosedHides(data, classes, base, index, stop);
        }
        index := if found then stop + 2 else stop;
      } else {
        return;
      }
    }
  }

  /** The identifier that starts at `begin`, to its last byte. */
  ghost predicate Identifier(data: string, begin: nat, next: nat, classes: Classes) {
    && begin < next <= |data| && IdentifierStart(data[begin], classes)
    && (forall k :: begin < k < next ==> IdentifierPart(data[k], classes))
    && (next < |data| ==> !IdentifierPart(data[next], classes))
  }

  method ReadIdentifier(data: string, begin: nat, classes: Classes) returns (next: nat)
    requires begin < |data| && IdentifierStart(data[begin], classes)
    ensures Identifier(data, begin, next, classes)
  {
    next := begin + 1;
    while next < |data| && IdentifierPart(data[next], classes)
      invariant begin < next <= |data|
      invariant forall k :: begin < k < next ==> IdentifierPart(data[k], classes)
    {
      next := next + 1;
    }
  }

  lemma PartIsNoPunctuation(c: char, classes: Classes)
    requires Sane(classes) && IdentifierPart(c, classes)
    ensures !Punctuation(c)
  {
  }

  /** The bytes of an identifier leave code code. */
  lemma {:induction false} IdentifierIsCode(data: string, classes: Classes, base: nat, begin: nat, next: nat, i: nat)
    requires Sane(classes) && base <= begin <= i <= next && Identifier(data, begin, next, classes)
    requires LexAt(data, base, begin) == Code
    ensures LexAt(data, base, i) == Code
    decreases i
  {
    if i > begin {
      IdentifierIsCode(data, classes, base, begin, next, i - 1);
      assert IdentifierPart(data[i - 1], classes);
      PartIsNoPunctuation(data[i - 1], classes);
    }
  }

  /** A shown byte at which an identifier can start. */
  ghost predicate Names(data: string, classes: Classes, base: nat, k: nat) {
    Shown(data, classes, base, k) && IdentifierStart(data[k], classes)
  }

  ghost predicate NoNames(data: string, classes: Classes, base: nat, from: nat, upTo: nat) {
    forall k :: from <= k < upTo ==> !Names(data, classes, base, k)
  }

  /** `nextQMLToken`: the identifier at the first shown byte that can start one, if there is such a byte. */
  method NextToken(data: string, start: nat, classes: Classes, ghost base: nat)
    returns (next: nat, token: string, ok: bool, ghost begin: nat)
    requires AtCode(data, base, start) && Sane(classes)
    ensures ok ==> start <= begin && Names(data, classes, base, begin) && NoNames(data, classes, base, start, begin)
    ensures ok ==> Identifier(data, begin, next, classes) && token == data[begin..next] && AtCode(data, base, next)
    ensures !ok ==> next == |data| && NoNames(data, classes, base, start, |data|)
  {
    begin := start;
    next := SkipSpaceAndComments(data, start, classes, base);
    while next < |data|
      invariant start <= next <= |data| && NoNames(data, classes, base, start, next)
      invariant next < |data| ==> Shown(data, classes, base, next)
    {
      if Quote(data[next]) {
        var end := SkipString(data, next);
        if Significant(data, classes, base, next) {
          SpanHides(data, classes, base, next, end);
        }
        next := SkipSpaceAndComments(data, end, classes, base);
      } else if IdentifierStart(data[next], classes) {
        var first := next;
        next := ReadIdentifier(data, first, classes);
        if Significant(data, classes, base, first) {
          IdentifierIsCode(data, classes, base, first, next, next);
        }
        return next, data[first..next], true, first;
      } else {
        next := SkipSpaceAndComments(data, next + 1, classes, base);
      }
    }
    token, ok := "", false;
  }

  /**
   The exception is real: in a comment that is never closed the last byte comes back as a token, although it is
   no code.
   */
  method LeftoverIsRead(classes: Classes) returns (token: string, ok: bool)
    requires Sane(classes) && classes.letter('x')
    ensures ok && token == "x" && LexAt("/*x", 0, 2) == Block
  {
    var next;
    ghost var begin;
    ghost var data := "/*x";
    next, token, ok, begin := NextToken("/*x", 0, classes, 0);
    assert LexAt(data, 0, 0) == Code && LexAt(data, 0, 1) == Opener && LexAt(data, 0, 2) == Block
      && LexAt(data, 0, 3) == Block;
    assert OpensUnclosed(data, 0, 0);
    assert Names(data, classes, 0, 2);
    assert !Names(data, classes, 0, 0) && !Names(data, classes, 0, 1);
  }

  // ---------- words ----------

  /** The byte at i belongs to an identifier that starts in code before it. */
  ghost predicate Continues(data: string, classes: Classes, base: nat, i: nat) {
    i < |data| && exists a :: base <= a < i && StartsWord(data, classes, base, a) && AllParts(data, classes, a, i)
  }

  ghost predicate StartsWord(data: string, classes: Classes, base: nat, a: nat) {
    base <= a < |data| && LexAt(data, base, a) == Code && IdentifierStart(data[a], classes)
  }

  ghost predicate AllParts(data: string, classes: Classes, a: nat, i: nat) {
    a <= i < |data| && forall k :: a <= k <= i ==> IdentifierPart(data[k], classes)
  }

  /** This word stands at w: in code, whole, and not the rest of a longer one. */
  ghost predicate WordAt(data: string, classes: Classes, base: nat, w: nat, word: string) {
    && w + |word| <= |data| && data[w..w + |word|] == word && Identifier(data, w, w + |word|, classes)
    && StartsWord(data, classes, base, w) && !Continues(data, classes, base, w)
  }

  ghost predicate BetweenWords(data: string, classes: Classes, base: nat, i: nat) {
    AtCode(data, base, i) && !Continues(data, classes, base, i)
  }

  /** A word of at least two letters that the tokenizer reads from between two words stands there in code. */
  lemma TokenIsWord(data: string, classes: Classes, base: nat, start: nat, begin: nat, next: nat)
    requires BetweenWords(data, classes, base, start) && Sane(classes)
    requires start <= begin && Names(data, classes, base, begin) && NoNames(data, classes, base, start, begin)
    requires Identifier(data, begin, next, classes) && next > begin + 1
    ensures WordAt(data, classes, base, begin, data[begin..next])
  {
    forall a: nat | base <= a < begin && AllParts(data, classes, a, begin) ensures !StartsWord(data, classes, base, a) {
      if a < start {
        assert AllParts(data, classes, a, start);
      } else {
        UnnamedIsNoStart(data, classes, base, a);
      }
    }
  }

  lemma UnnamedIsNoStart(data: string, classes: Classes, base: nat, a: nat)
    requires !Names(data, classes, base, a) && Sane(classes)
    ensures !StartsWord(data, classes, base, a)
  {
  }

  lemma SameWord(data: string, classes: Classes, begin: nat, a: nat, b: nat)
    requires Identifier(data, begin, a, classes) && Identifier(data, begin, b, classes)
    ensures a == b
  {
  }

  /** Reading one token passes over no word but that token. */
  lemma TokenPasses(data: string, classes: Classes, base: nat, start: nat, begin: nat, next: nat, w: nat, word: string)
    requires Sane(classes) && start <= begin && Names(data, classes, base, begin)
    requires NoNames(data, classes, base, start, begin)
    requires Identifier(data, begin, next, classes)
    requires start <= w < next && WordAt(data, classes, base, w, word)
    ensures w == begin && data[begin..next] == word
  {
    if w < begin {
      UnnamedIsNoStart(data, classes, base, w);
    } else if w == begin {
      SameWord(data, classes, begin, next, w + |word|);
    } else {
      assert StartsWord(data, classes, base, begin) && AllParts(data, classes, begin, w);
    }
  }

  lemma NoNamesNoWord(data: string, classes: Classes, base: nat, from: nat, upTo: nat, w: nat, word: string)
    requires Sane(classes) && NoNames(data, classes, base, from, upTo) && from <= w < upTo
    ensures !WordAt(data, classes, base, w, word)
  {
    UnnamedIsNoStart(data, classes, base, w);
  }

  // ---------- greedy lists ----------

  datatype Interval = Interval(start: nat, end: nat)

  ghost predicate Ordered(xs: seq<Interval>) {
    && (forall i :: 0 <= i < |xs| ==> xs[i].start <= xs[i].end)
    && forall i, j :: 0 <= i < j < |xs| ==> xs[i].end < xs[j].start
  }

  lemma OrderedMore(xs: seq<Interval>, x: Interval)
    requires Ordered(xs) && x.start <= x.end && (xs != [] ==> xs[|xs| - 1].end < x.start)
    ensures Ordered(xs + [x])
  {
    forall i | 0 <= i < |xs| ensures xs[i].end < x.start {
      assert i < |xs| - 1 ==> xs[i].end < xs[|xs| - 1].start;
    }
  }

  /** Where the search goes on after the first i intervals. */
  function GoOn(xs: seq<Interval>, i: nat, start: nat, resume: Interval -> nat): nat
    requires i <= |xs|
  {
    if i == 0 then start else resume(xs[i - 1])
  }

  /** Each interval is what the search finds next from where it goes on. */
  ghost predicate Chain(next: (nat, Interval) -> bool, resume: Interval -> nat, start: nat, xs: seq<Interval>) {
    forall i :: 0 <= i < |xs| ==> next(GoOn(xs, i, start, resume), xs[i])
  }

  /** And after the last one it finds nothing. */
  ghost predicate WholeChain(next: (nat, Interval) -> bool, resume: Interval -> nat, start: nat, xs: seq<Interval>) {
    Chain(next, resume, start, xs) && forall x :: !next(GoOn(xs, |xs|, start, resume), x)
  }

  lemma ChainMore(next: (nat, Interval) -> bool, resume: Interval -> nat, start: nat, xs: seq<Interval>, x: Interval)
    requires Chain(next, resume, start, xs) && next(GoOn(xs, |xs|, start, resume), x)
    ensures Chain(next, resume, start, xs + [x]) && GoOn(xs + [x], |xs| + 1, start, resume) == resume(x)
  {
    forall i | 0 <= i < |xs + [x]| ensures next(GoOn(xs + [x], i, start, resume), (xs + [x])[i]) {
      assert GoOn(xs + [x], i, start, resume) == GoOn(xs, i, start, resume);
    }
  }

  /** A search that finds at most one interval from each place has one whole chain. */
  lemma WholeChainIsUnique(
    next: (nat, Interval) -> bool, resume: Interval -> nat, start: nat, xs: seq<Interval>, ys: seq<Interval>)
    requires forall from, x, y :: next(from, x) && next(from, y) ==> x == y
    requires WholeChain(next, resume, start, xs) && WholeChain(next, resume, start, ys)
    ensures xs == ys
  {
    var n := if |xs| < |ys| then |xs| else |ys|;
    ChainPrefix(next, resume, start, xs, ys, n);
    SamePrefixGoesOn(xs, ys, n, start, resume);
  }

  lemma SamePrefixGoesOn(xs: seq<Interval>, ys: seq<Interval>, n: nat, start: nat, resume: Interval -> nat)
    requires n <= |xs| && n <= |ys| && xs[..n] == ys[..n]
    ensures GoOn(xs, n, start, resume) == GoOn(ys, n, start, resume)
  {
    assert n > 0 ==> xs[n - 1] == xs[..n][n - 1] == ys[..n][n - 1] == ys[n - 1];
  }

  lemma {:induction false} ChainPrefix(
    next: (nat, Interval) -> bool, resume: Interval -> nat, start: nat, xs: seq<Interval>, ys: seq<Interval>, n: nat)
    requires forall from, x, y :: next(from, x) && next(from, y) ==> x == y
    requires Chain(next, resume, start, xs) && Chain(next, resume, start, ys) && n <= |xs| && n <= |ys|
    ensures xs[..n] == ys[..n]
    decreases n
  {
    hide GoOn;
    if n > 0 {
      ChainPrefix(next, resume, start, xs, ys, n - 1);
      SamePrefixGoesOn(xs, ys, n - 1, start, resume);
      assert xs[n - 1] == ys[n - 1];
      assert xs[..n] == xs[..n - 1] + [xs[n - 1]] && ys[..n] == ys[..n - 1] + [ys[n - 1]];
    }
  }

  // ---------- process blocks ----------

  const PROCESS := "Process"

  /** The inside of a brace pair: it opens in code and closes where the depth first returns to zero. */
  ghost predicate ProcessBlock(data: string, b: Interval) {
    && 0 < b.start <= b.end < |data| && data[b.start - 1] == '{' && LexAt(data, 0, b.start - 1) == Code
    && MatchesAt(data, b.start - 1, b.end, '{', '}')
  }

  /** A block whose brace follows the word `Process` at w across nothing but spaces and comments. */
  ghost predicate BlockAt(data: string, classes: Classes, w: nat, b: Interval) {
    && WordAt(data, classes, 0, w, PROCESS) && ProcessBlock(data, b)
    && FirstShown(data, classes, 0, w + |PROCESS|, b.start - 1)
  }

  ghost predicate NoBlock(data: string, classes: Classes, from: nat, upTo: nat) {
    forall w, b :: from <= w < upTo ==> !BlockAt(data, classes, w, b)
  }

  /** The first block whose word stands at or after `from`. */
  ghost predicate NextBlock(data: string, classes: Classes, from: nat, b: Interval) {
    exists w :: from <= w && BlockAt(data, classes, w, b) && NoBlock(data, classes, from, w)
  }

  function AfterBrace(b: Interval): nat {
    b.end + 1
  }

  /** The blocks of a text: each is the next one after the brace that closes the last, until there is none. */
  ghost predicate BlocksOf(data: string, classes: Classes, blocks: seq<Interval>) {
    WholeChain((from: nat, b: Interval) => NextBlock(data, classes, from, b), AfterBrace, 0, blocks)
  }

  lemma BlocksOfIsUnique(data: string, classes: Classes, xs: seq<Interval>, ys: seq<Interval>)
    requires BlocksOf(data, classes, xs) && BlocksOf(data, classes, ys)
    ensures xs == ys
  {
    var next := (from: nat, b: Interval) => NextBlock(data, classes, from, b);
    forall from: nat, x, y | next(from, x) && next(from, y) ensures x == y {
      NextBlockIsUnique(data, classes, from, x, y);
    }
    WholeChainIsUnique(next, AfterBrace, 0, xs, ys);
  }

  lemma NextBlockIsUnique(data: string, classes: Classes, from: nat, x: Interval, y: Interval)
    requires NextBlock(data, classes, from, x) && NextBlock(data, classes, from, y)
    ensures x == y
  {
    var v: nat :| from <= v && BlockAt(data, classes, v, x) && NoBlock(data, classes, from, v);
    var w: nat :| from <= w && BlockAt(data, classes, w, y) && NoBlock(data, classes, from, w);
    assert v == w;
    FirstShownIsUnique(data, classes, 0, w + |PROCESS|, x.start - 1, y.start - 1);
  }

  /** Past a matched brace pair the scanner is in code again, between two words. */
  lemma AfterBlock(data: string, classes: Classes, brace: nat, end: nat)
    requires Sane(classes) && brace < |data| && Shown(data, classes, 0, brace) && data[brace] == '{'
    requires MatchesAt(data, brace, end, '{', '}')
    ensures ProcessBlock(data, Interval(brace + 1, end)) && BetweenWords(data, classes, 0, end + 1)
  {
    assert data[end] == '}' && brace < end;
    Resume(data, 0, brace, end + 1);
  }

  /** Where a token ends no word continues. */
  lemma AfterToken(data: string, classes: Classes, base: nat, begin: nat, next: nat)
    requires Identifier(data, begin, next, classes) && AtCode(data, base, next)
    ensures BetweenWords(data, classes, base, next)
  {
  }

  lemma TokenPassesBlocks(data: string, classes: Classes, start: nat, begin: nat, next: nat)
    requires Sane(classes) && start <= begin && Names(data, classes, 0, begin)
    requires NoNames(data, classes, 0, start, begin)
    requires Identifier(data, begin, next, classes)
    ensures forall w, b :: start <= w < next && BlockAt(data, classes, w, b) ==>
      w == begin && data[begin..next] == PROCESS
  {
    forall w, b | start <= w < next && BlockAt(data, classes, w, b) ensures w == begin && data[begin..next] == PROCESS {
      TokenPasses(data, classes, 0, start, begin, next, w, PROCESS);
    }
  }

  lemma NoTokenNoBlock(data: string, classes: Classes, start: nat)
    requires Sane(classes) && NoNames(data, classes, 0, start, |data|)
    ensures forall w, b :: start <= w ==> !BlockAt(data, classes, w, b)
  {
    forall w, b | start <= w < |data| ensures !BlockAt(data, classes, w, b) {
      NoNamesNoWord(data, classes, 0, start, |data|, w, PROCESS);
    }
  }

  /** Without a brace, or without the brace that closes it, the word opens no block. */
  lemma WordWithoutBlock(data: string, classes: Classes, w: nat, brace: nat)
    requires FirstShown(data, classes, 0, w + |PROCESS|, brace)
    requires brace < |data| && data[brace] == '{' ==> NeverCloses(data, brace, |data|, '{', '}')
    ensures forall b :: !BlockAt(data, classes, w, b)
  {
    forall b | BlockAt(data, classes, w, b) ensures false {
      FirstShownIsUnique(data, classes, 0, w + |PROCESS|, brace, b.start - 1);
    }
  }

  lemma TextStart(data: string, classes: Classes)
    ensures BetweenWords(data, classes, 0, 0)
  {
  }

  /** One iteration of the block loop at the word `Process`. */
  method TakeBlock(data: string, classes: Classes, next: nat, ghost w: nat) returns (block: Option<Interval>)
    requires Sane(classes) && WordAt(data, classes, 0, w, PROCESS) && next == w + |PROCESS| && AtCode(data, 0, next)
    ensures block.Some? ==> next < block.value.start && BlockAt(data, classes, w, block.value)
    ensures block.Some? ==> BetweenWords(data, classes, 0, block.value.end + 1)
    ensures block.None? ==> forall b :: !BlockAt(data, classes, w, b)
  {
    var brace := SkipSpaceAndComments(data, next, classes, 0);
    if brace >= |data| || data[brace] != '{' {
      WordWithoutBlock(data, classes, w, brace);
      return None;
    }
    var end, matched := MatchDelimiter(data, brace, '{', '}');
    if !matched {
      WordWithoutBlock(data, classes, w, brace);
      return None;
    }
    AfterBlock(data, classes, brace, end);
    block := Some(Interval(brace + 1, end));
  }

  lemma NoBlockPast(data: string, classes: Classes, from: nat, index: nat, begin: nat, next: nat)
    requires Sane(classes) && from <= index <= begin && NoBlock(data, classes, from, index)
    requires Names(data, classes, 0, begin) && NoNames(data, classes, 0, index, begin)
    requires Identifier(data, begin, next, classes)
    ensures NoBlock(data, classes, from, begin)
    ensures (forall b :: !BlockAt(data, classes, begin, b)) || data[begin..next] != PROCESS ==>
      NoBlock(data, classes, from, next)
  {
    TokenPassesBlocks(data, classes, index, begin, next);
  }

  lemma NoBlockLeft(data: string, classes: Classes, from: nat, index: nat)
    requires Sane(classes) && from <= index && NoBlock(data, classes, from, index)
    requires NoNames(data, classes, 0, index, |data|)
    ensures forall b :: !NextBlock(data, classes, from, b)
  {
    NoTokenNoBlock(data, classes, index);
  }

  /** `qmlProcessBlocks`: exactly the blocks of the text, in order and disjoint. */
  method ProcessBlocks(data: string, classes: Classes) returns (blocks: seq<Interval>)
    requires Sane(classes)
    ensures Ordered(blocks) && BlocksOf(data, classes, blocks)
  {
    hide WordAt, FirstShown, Names, NoNames, MatchesAt, NeverCloses, Continues, Ordered, Chain, GoOn, NoBlock;
    ghost var chosen := (from: nat, b: Interval) => NextBlock(data, classes, from, b);
    ghost var from := 0;
    blocks := [];
    var index := 0;
    TextStart(data, classes);
    NothingYet(data, classes, chosen);
    while index < |data|
      invariant from <= index <= |data| && BetweenWords(data, classes, 0, index) && Ordered(blocks)
      invariant blocks != [] ==> blocks[|blocks| - 1].end < index
      invariant from == GoOn(blocks, |blocks|, 0, AfterBrace) && Chain(chosen, AfterBrace, 0, blocks)
      invariant NoBlock(data, classes, from, index)
      decreases |data| - index
    {
      ghost var begin;
      var next, token, ok;
      next, token, ok, begin := NextToken(data, index, classes, 0);
      if !ok {
        NoBlockLeft(data, classes, from, index);
        return;
      }
      AfterToken(data, classes, 0, begin, next);
      NoBlockPast(data, classes, from, index, begin, next);
      if token != PROCESS {
        index := next;
        continue;
      }
      TokenIsWord(data, classes, 0, index, begin, next);
      var block := TakeBlock(data, classes, next, begin);
      index := next;
      if block.Some? {
        assert chosen(from, block.value);
        OrderedMore(blocks, block.value);
        ChainMore(chosen, AfterBrace, 0, blocks, block.value);
        blocks := blocks + [block.value];
        index, from := block.value.end + 1, block.value.end + 1;
        NothingBetween(data, classes, from);
      }
    }
    NoBlockAtEnd(data, classes, from, index);
  }

  lemma NothingYet(data: string, classes: Classes, chosen: (nat, Interval) -> bool)
    ensures Ordered([]) && Chain(chosen, AfterBrace, 0, []) && GoOn([], 0, 0, AfterBrace) == 0
    ensures NoBlock(data, classes, 0, 0)
  {
  }

  lemma NothingBetween(data: string, classes: Classes, from: nat)
    ensures NoBlock(data, classes, from, from)
  {
  }

  lemma NoBlockAtEnd(data: string, classes: Classes, from: nat, index: nat)
    requires index >= |data| && NoBlock(data, classes, from, index)
    ensures forall b :: !NextBlock(data, classes, from, b)
  {
  }

  // ---------- command expressions ----------

  const COMMAND := "command"

  ghost predicate LineEnds(text: string, x: Interval) {
    && x.start <= x.end <= |text| && (x.end < |text| ==> Terminator(text[x.end]))
    && forall k :: x.start <= k < x.end ==> !Terminator(text[k])
  }

  ghost predicate Bracketed(text: string, start: nat, end: nat) {
    start < end && MatchesAt(text, start, end - 1, '[', ']')
  }

  /** A value ends past its bracket pair, if it opens with a bracket that is closed, and else with its line. */
  ghost predicate ValueEnds(text: string, x: Interval) {
    && x.start < |text|
    && if text[x.start] == '[' && exists end ::
       Bracketed(text, x.start, end) then Bracketed(text, x.start, x.end) else LineEnds(text, x)
  }

  /** The value after `word` and a colon, each the next shown byte; words end at the limit, comments need not. */
  ghost predicate ValueAfter(data: string, limit: nat, classes: Classes, base: nat, next: nat, x: Interval) {
    limit <= |data| && exists colon: nat ::
      ColonAt(data, limit, classes, base, next, colon) && ValueAt(data, limit, classes, base, colon, x)
  }

  ghost predicate ColonAt(data: string, limit: nat, classes: Classes, base: nat, next: nat, colon: nat) {
    FirstShown(data, classes, base, next, colon) && colon < limit <= |data| && data[colon] == ':'
  }

  ghost predicate ValueAt(data: string, limit: nat, classes: Classes, base: nat, colon: nat, x: Interval) {
    FirstShown(data, classes, base, colon + 1, x.start) && x.start < limit <= |data| && ValueEnds(data[..limit], x)
  }

  /** The expression of the word `command` at w, when the scanner started in code at `base`. */
  ghost predicate ExpressionAt(data: string, limit: nat, classes: Classes, base: nat, w: nat, x: Interval) {
    && limit <= |data| && WordAt(data[..limit], classes, base, w, COMMAND)
    && ValueAfter(data, limit, classes, base, w + |COMMAND|, x)
  }

  ghost predicate NoExpressionIn(data: string, limit: nat, classes: Classes, base: nat, from: nat, upTo: nat) {
    forall w, x :: from <= w < upTo ==> !ExpressionAt(data, limit, classes, base, w, x)
  }

  /** The first expression of a scan that starts in code at `base`. */
  ghost predicate NextExpression(data: string, limit: nat, classes: Classes, base: nat, x: Interval) {
    exists w :: base <= w && ExpressionAt(data, limit, classes, base, w, x)
      && NoExpressionIn(data, limit, classes, base, base, w)
  }

  function PastValue(x: Interval): nat {
    x.end
  }

  /**
   The expressions of a block: each is the first one of a scan that starts, in code, where the last one ended,
   until a scan finds none.
   */
  ghost predicate ExpressionsOf(data: string, block: Interval, classes: Classes, xs: seq<Interval>) {
    WholeChain((base: nat, x: Interval) => NextExpression(data, block.end, classes, base, x),
               PastValue, block.start, xs)
  }

  lemma ValueEndIsUnique(text: string, x: Interval, y: Interval)
    requires ValueEnds(text, x) && ValueEnds(text, y) && x.start == y.start
    ensures x == y
  {
  }

  lemma ValueIsUnique(data: string, limit: nat, classes: Classes, base: nat, next: nat, x: Interval, y: Interval)
    requires ValueAfter(data, limit, classes, base, next, x) && ValueAfter(data, limit, classes, base, next, y)
    ensures x == y
  {
    var a: nat :| ColonAt(data, limit, classes, base, next, a) && ValueAt(data, limit, classes, base, a, x);
    var b: nat :| ColonAt(data, limit, classes, base, next, b) && ValueAt(data, limit, classes, base, b, y);
    FirstShownIsUnique(data, classes, base, next, a, b);
    FirstShownIsUnique(data, classes, base, a + 1, x.start, y.start);
    ValueEndIsUnique(data[..limit], x, y);
  }

  lemma NextExpressionIsUnique(data: string, limit: nat, classes: Classes, base: nat, x: Interval, y: Interval)
    requires NextExpression(data, limit, classes, base, x) && NextExpression(data, limit, classes, base, y)
    ensures x == y
  {
    var v: nat :| base <= v && ExpressionAt(data, limit, classes, base, v, x)
      && NoExpressionIn(data, limit, classes, base, base, v);
    var w: nat :| base <= w && ExpressionAt(data, limit, classes, base, w, y)
      && NoExpressionIn(data, limit, classes, base, base, w);
    assert v == w;
    ValueIsUnique(data, limit, classes, base, w + |COMMAND|, x, y);
  }

  lemma ExpressionsOfIsUnique(data: string, block: Interval, classes: Classes, xs: seq<Interval>, ys: seq<Interval>)
    requires ExpressionsOf(data, block, classes, xs) && ExpressionsOf(data, block, classes, ys)
    ensures xs == ys
  {
    var next := (base: nat, x: Interval) => NextExpression(data, block.end, classes, base, x);
    forall base: nat, x, y | next(base, x) && next(base, y) ensures x == y {
      NextExpressionIsUnique(data, block.end, classes, base, x, y);
    }
    WholeChainIsUnique(next, PastValue, block.start, xs, ys);
  }

  /** Where the value after `command:` ends: past its bracket pair, or at the end of its line. */
  method ExpressionEnd(data: string, start: nat, limit: nat) returns (end: nat)
    requires start < limit <= |data|
    ensures start <= end <= limit && ValueEnds(data[..limit], Interval(start, end))
  {
    if data[start] == '[' {
      var close, matched := MatchDelimiter(data[..limit], start, '[', ']');
      if matched {
        return close + 1;
      }
    }
    end := LineEnd(data, start, limit);
  }

  /** Cutting the text off changes nothing before the cut. */
  lemma {:induction false} CutReadsSame(data: string, limit: nat, base: nat, i: nat)
    requires base <= i < limit <= |data|
    ensures LexAt(data[..limit], base, i) == LexAt(data, base, i)
    decreases i
  {
    if i > base {
      CutReadsSame(data, limit, base, i - 1);
    }
  }

  /** Past a word of the text that was cut off, the whole text is in code too. */
  lemma PastCutWord(data: string, limit: nat, classes: Classes, base: nat, w: nat, word: string)
    requires Sane(classes) && limit <= |data| && word != "" && WordAt(data[..limit], classes, base, w, word)
    ensures AtCode(data, base, w + |word|)
  {
    var next := w + |word|;
    IdentifierIsCode(data[..limit], classes, base, w, next, next - 1);
    CutReadsSame(data, limit, base, next - 1);
    assert data[next - 1] == data[..limit][next - 1] && IdentifierPart(data[next - 1], classes);
    PartIsNoPunctuation(data[next - 1], classes);
  }

  lemma PastColon(data: string, classes: Classes, base: nat, colon: nat)
    requires colon < |data| && Shown(data, classes, base, colon) && data[colon] == ':'
    ensures AtCode(data, base, colon + 1)
  {
  }

  lemma NoColonNoValue(data: string, limit: nat, classes: Classes, base: nat, next: nat, colon: nat)
    requires FirstShown(data, classes, base, next, colon) && limit <= |data| && (colon < limit ==> data[colon] != ':')
    ensures forall x :: !ValueAfter(data, limit, classes, base, next, x)
  {
    forall c: nat ensures !ColonAt(data, limit, classes, base, next, c) {
      if FirstShown(data, classes, base, next, c) {
        FirstShownIsUnique(data, classes, base, next, colon, c);
      }
    }
  }

  lemma NothingAfterColon(data: string, limit: nat, classes: Classes, base: nat, next: nat, colon: nat, start: nat)
    requires ColonAt(data, limit, classes, base, next, colon)
    requires FirstShown(data, classes, base, colon + 1, start) && start >= limit
    ensures forall x :: !ValueAfter(data, limit, classes, base, next, x)
  {
    forall x, c | ColonAt(data, limit, classes, base, next, c) ensures !ValueAt(data, limit, classes, base, c, x) {
      FirstShownIsUnique(data, classes, base, next, colon, c);
      if ValueAt(data, limit, classes, base, c, x) {
        FirstShownIsUnique(data, classes, base, colon + 1, start, x.start);
      }
    }
  }

  /** One iteration of the expression loop at the word `command`. */
  method TakeValue(data: string, limit: nat, classes: Classes, next: nat, ghost base: nat)
    returns (value: Option<Interval>)
    requires Sane(classes) && AtCode(data, base, next) && next <= limit <= |data|
    ensures value.Some? ==>
      next < value.value.start <= value.value.end <= limit && ValueAfter(data, limit, classes, base, next, value.value)
    ensures value.None? ==> forall x :: !ValueAfter(data, limit, classes, base, next, x)
  {
    var colon := SkipSpaceAndComments(data, next, classes, base);
    if colon >= limit || data[colon] != ':' {
      NoColonNoValue(data, limit, classes, base, next, colon);
      return None;
    }
    PastColon(data, classes, base, colon);
    var start := SkipSpaceAndComments(data, colon + 1, classes, base);
    if start >= limit {
      NothingAfterColon(data, limit, classes, base, next, colon, start);
      return None;
    }
    var end := ExpressionEnd(data, start, limit);
    assert ColonAt(data, limit, classes, base, next, colon)
      && ValueAt(data, limit, classes, base, colon, Interval(start, end));
    value := Some(Interval(start, end));
  }

  lemma NoExpressionPast(data: string, limit: nat, classes: Classes, base: nat, index: nat, begin: nat, next: nat)
    requires Sane(classes) && limit <= |data| && base <= index <= begin
    requires NoExpressionIn(data, limit, classes, base, base, index)
    requires var text := data[..limit];
      && Names(text, classes, base, begin) && NoNames(text, classes, base, index, begin)
      && Identifier(text, begin, next, classes)
    ensures NoExpressionIn(data, limit, classes, base, base, begin)
    ensures data[begin..next] != COMMAND || (forall x :: !ValueAfter(data, limit, classes, base, next, x))
      ==> NoExpressionIn(data, limit, classes, base, base, next)
  {
    var text := data[..limit];
    assert data[begin..next] == text[begin..next];
    forall w, x | index <= w < next && ExpressionAt(data, limit, classes, base, w, x)
      ensures w == begin && data[begin..next] == COMMAND
    {
      TokenPasses(text, classes, base, index, begin, next, w, COMMAND);
    }
  }

  lemma NoExpressionLeft(data: string, limit: nat, classes: Classes, base: nat, index: nat)
    requires Sane(classes) && limit <= |data| && base <= index
    requires NoExpressionIn(data, limit, classes, base, base, index)
    requires NoNames(data[..limit], classes, base, index, limit)
    ensures forall x :: !NextExpression(data, limit, classes, base, x)
  {
    forall w, x | base <= w ensures !ExpressionAt(data, limit, classes, base, w, x) {
      if index <= w < limit {
        NoNamesNoWord(data[..limit], classes, base, index, limit, w, COMMAND);
      }
    }
  }

  ghost predicate Inside(xs: seq<Interval>, block: Interval) {
    forall x <- xs :: block.start < x.start && x.end <= block.end
  }

  lemma NoExpressionYet(data: string, block: Interval, classes: Classes, base: nat)
    requires block.end <= |data| && base <= block.end
    ensures BetweenWords(data[..block.end], classes, base, base)
    ensures NoExpressionIn(data, block.end, classes, base, base, base)
  {
  }

  lemma NoneAtFirst(chosen: (nat, Interval) -> bool, block: Interval)
    ensures Ordered([]) && Inside([], block) && Chain(chosen, PastValue, block.start, [])
    ensures GoOn([], 0, block.start, PastValue) == block.start
  {
  }

  /** `qmlCommandExpressions`: exactly the expressions of the block, in order, disjoint and inside it. */
  method CommandExpressions(data: string, block: Interval, classes: Classes) returns (expressions: seq<Interval>)
    requires Sane(classes) && block.start <= block.end <= |data|
    ensures Ordered(expressions) && Inside(expressions, block) && ExpressionsOf(data, block, classes, expressions)
  {
    hide WordAt, FirstShown, Names, NoNames, Continues, Ordered, Chain, GoOn, NoExpressionIn, ValueAfter;
    ghost var chosen := (base: nat, x: Interval) => NextExpression(data, block.end, classes, base, x);
    ghost var base := block.start;
    var text := data[..block.end];
    expressions := [];
    var index := block.start;
    NoneAtFirst(chosen, block);
    NoExpressionYet(data, block, classes, base);
    while index < block.end
      invariant block.start <= base <= index <= block.end && BetweenWords(text, classes, base, index)
      invariant Ordered(expressions) && Inside(expressions, block)
      invariant expressions != [] ==> expressions[|expressions| - 1].end <= index
      invariant base == GoOn(expressions, |expressions|, block.start, PastValue)
      invariant Chain(chosen, PastValue, block.start, expressions)
      invariant NoExpressionIn(data, block.end, classes, base, base, index)
      decreases block.end - index
    {
      ghost var begin;
      var next, token, ok;
      next, token, ok, begin := NextToken(text, index, classes, base);
      if !ok {
        NoExpressionLeft(data, block.end, classes, base, index);
        return;
      }
      AfterToken(text, classes, base, begin, next);
      NoExpressionPast(data, block.end, classes, base, index, begin, next);
      assert data[begin..next] == text[begin..next];
      if token != COMMAND {
        index := next;
        continue;
      }
      TokenIsWord(text, classes, base, index, begin, next);
      PastCutWord(data, block.end, classes, base, begin, COMMAND);
      var value := TakeValue(data, block.end, classes, next, base);
      index := next;
      if value.Some? {
        assert ExpressionAt(data, block.end, classes, base, begin, value.value);
        assert chosen(base, value.value);
        OrderedMore(expressions, value.value);
        ChainMore(chosen, PastValue, block.start, expressions, value.value);
        expressions := expressions + [value.value];
        index, base := value.value.end, value.value.end;
        NoExpressionYet(data, block, classes, base);
      }
    }
    NoExpressionLeft(data, block.end, classes, base, index);
  }

  // ---------- inside a block ----------

  /** Between its braces a block's depth stays positive: nothing inside closes it early. */
  lemma {:induction false} DepthStaysPositive(data: string, b: Interval, i: nat)
    requires ProcessBlock(data, b) && b.start <= i <= b.end
    ensures Depth(data, b.start - 1, i, '{', '}') >= 1
    decreases i
  {
    var brace := b.start - 1;
    if i > b.start {
      DepthStaysPositive(data, b, i - 1);
      assert !Closes(data, brace, i - 1, '{', '}');
    }
  }
}

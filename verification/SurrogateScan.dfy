/**
 validateSurrogateEscapes of internal/report/json_structure.go. The scan jumps over escapes; the
 specification reads one byte at a time and says where every escape stands (section 7 of RFC 8259,
 section 2.2 of RFC 2781).
 */
module SurrogateScan {
  import opened ReportModel

  // ---------- reading one byte at a time ----------

  datatype Place = Outside | Inside | AfterBackslash

  function Next(place: Place, c: char): Place {
    match place
    case Outside => if c == '"' then Inside else Outside
    case Inside => if c == '\\' then AfterBackslash else if c == '"' then Outside else Inside
    case AfterBackslash => Inside
  }

  /** Where the byte at position i stands. */
  function PlaceAt(data: string, i: nat): Place
    requires i <= |data|
  {
    if i == 0 then Outside else Next(PlaceAt(data, i - 1), data[i - 1])
  }

  // ---------- escapes ----------

  predicate HexDigit(c: char) {
    '0' <= c <= '9' || 'a' <= c <= 'f' || 'A' <= c <= 'F'
  }

  function HexValue(c: char): (n: nat)
    requires HexDigit(c)
    ensures n < 16
  {
    if '0' <= c <= '9' then c as nat - '0' as nat
    else if 'a' <= c <= 'f' then c as nat - 'a' as nat + 10
    else c as nat - 'A' as nat + 10
  }

  /** A `\u` escape starts at i, inside a string and not itself escaped. */
  predicate EscapeAt(data: string, i: nat) {
    i + 1 < |data| && PlaceAt(data, i) == Inside && data[i] == '\\' && data[i + 1] == 'u'
  }

  predicate FourHex(data: string, i: nat) {
    i + 6 <= |data| && HexDigit(data[i + 2]) && HexDigit(data[i + 3]) && HexDigit(data[i + 4]) && HexDigit(data[i + 5])
  }

  function Unit(data: string, i: nat): (n: nat)
    requires FourHex(data, i)
    ensures n < 0x10000
  {
    HexValue(data[i + 2]) * 4096 + HexValue(data[i + 3]) * 256 + HexValue(data[i + 4]) * 16 + HexValue(data[i + 5])
  }

  predicate High(n: nat) {
    0xd800 <= n <= 0xdbff
  }

  predicate Low(n: nat) {
    0xdc00 <= n <= 0xdfff
  }

  predicate HighAt(data: string, i: nat) {
    EscapeAt(data, i) && FourHex(data, i) && High(Unit(data, i))
  }

  predicate LowAt(data: string, i: nat) {
    EscapeAt(data, i) && FourHex(data, i) && Low(Unit(data, i))
  }

  /** Four digits, a high unit with a low one right after it, a low unit with a high one right before it. */
  predicate WellFormed(data: string, i: nat) {
    && FourHex(data, i)
    && (High(Unit(data, i)) ==> LowAt(data, i + 6))
    && (Low(Unit(data, i)) ==> i >= 6 && HighAt(data, i - 6))
  }

  ghost predicate Accepts(data: string) {
    forall i: nat :: EscapeAt(data, i) ==> WellFormed(data, i)
  }

  // ---------- the scan ----------

  /** `parseUnicodeEscape`: the value and the position after it. */
  method ParseUnicodeEscape(data: string, slash: nat) returns (value: Option<nat>, next: nat)
    ensures value.Some? <==> FourHex(data, slash) && data[slash] == '\\' && data[slash + 1] == 'u'
    ensures value.Some? ==> value.value == Unit(data, slash) && next == slash + 6
  {
    next := slash;
    if slash + 6 > |data| || data[slash] != '\\' || data[slash + 1] != 'u' {
      return None, next;
    }
    var n := 0;
    for k := 2 to 6
      invariant forall j :: slash + 2 <= j < slash + k ==> HexDigit(data[j])
      invariant k == 2 ==> n == 0
      invariant k == 3 ==> n == HexValue(data[slash + 2])
      invariant k == 4 ==> n == HexValue(data[slash + 2]) * 16 + HexValue(data[slash + 3])
      invariant k == 5 ==>
        n == HexValue(data[slash + 2]) * 256 + HexValue(data[slash + 3]) * 16 + HexValue(data[slash + 4])
      invariant k == 6 ==> FourHex(data, slash) && n == Unit(data, slash)
    {
      if !HexDigit(data[slash + k]) {
        return None, next;
      }
      n := n * 16 + HexValue(data[slash + k]);
    }
    value, next := Some(n), slash + 6;
  }

  /** Every escape that starts before the bound is well formed. */
  ghost predicate AcceptedBefore(data: string, bound: int) {
    forall i: nat :: i < bound && EscapeAt(data, i) ==> WellFormed(data, i)
  }

  /** Hexadecimal digits leave the place alone, so the byte after an escape is inside the string again. */
  lemma AfterEscape(data: string, i: nat)
    requires EscapeAt(data, i) && FourHex(data, i)
    ensures PlaceAt(data, i + 6) == Inside
    ensures forall k: nat :: i < k < i + 6 ==> !EscapeAt(data, k)
  {
    assert PlaceAt(data, i + 1) == AfterBackslash;
    assert PlaceAt(data, i + 2) == Inside;
    assert PlaceAt(data, i + 3) == Inside && PlaceAt(data, i + 4) == Inside && PlaceAt(data, i + 5) == Inside;
  }

  lemma SingleAccepted(data: string, i: nat)
    requires AcceptedBefore(data, i) && EscapeAt(data, i) && FourHex(data, i) && !High(Unit(data, i))
    requires !Low(Unit(data, i))
    ensures AcceptedBefore(data, i + 6)
  {
    AfterEscape(data, i);
  }

  lemma PairAccepted(data: string, i: nat)
    requires AcceptedBefore(data, i) && HighAt(data, i) && FourHex(data, i + 6) && data[i + 6] == '\\'
    requires data[i + 7] == 'u' && Low(Unit(data, i + 6))
    ensures AcceptedBefore(data, i + 12) && PlaceAt(data, i + 12) == Inside
  {
    AfterEscape(data, i);
    AfterEscape(data, i + 6);
  }

  /** No high unit before the bound still waits for its low half there. */
  ghost predicate PairsComplete(data: string, bound: int) {
    forall k: nat :: k < bound && HighAt(data, k) ==> k + 12 <= bound
  }

  lemma SingleComplete(data: string, i: nat)
    requires PairsComplete(data, i) && EscapeAt(data, i) && FourHex(data, i) && !High(Unit(data, i))
    ensures PairsComplete(data, i + 6)
  {
    AfterEscape(data, i);
  }

  lemma PairComplete(data: string, i: nat)
    requires PairsComplete(data, i) && HighAt(data, i) && FourHex(data, i + 6) && data[i + 6] == '\\'
    requires data[i + 7] == 'u' && Low(Unit(data, i + 6))
    ensures PairsComplete(data, i + 12)
  {
    AfterEscape(data, i);
    AfterEscape(data, i + 6);
  }

  /** The branch for one escape: past it, or past the pair it begins. */
  method ScanEscape(data: string, slash: nat) returns (ok: bool, next: nat)
    requires EscapeAt(data, slash) && AcceptedBefore(data, slash) && PairsComplete(data, slash)
    ensures ok ==>
      slash < next <= |data| && PlaceAt(data, next) == Inside && AcceptedBefore(data, next) && PairsComplete(data, next)
    ensures !ok ==> !WellFormed(data, slash)
  {
    var code;
    code, next := ParseUnicodeEscape(data, slash);
    if code.None? {
      return false, next;
    }
    AfterEscape(data, slash);
    if High(code.value) {
      if next + 6 > |data| || data[next] != '\\' || data[next + 1] != 'u' {
        return false, next;
      }
      var low, after := ParseUnicodeEscape(data, next);
      if low.None? || !Low(low.value) {
        return false, next;
      }
      PairAccepted(data, slash);
      PairComplete(data, slash);
      return true, after;
    } else if Low(code.value) {
      return false, next;
    }
    SingleAccepted(data, slash);
    SingleComplete(data, slash);
    ok := true;
  }

  /** The scan's two flags as a place. */
  function PlaceOf(inString: bool, escaped: bool): Place {
    if !inString then Outside else if escaped then AfterBackslash else Inside
  }

  /** Where the scan stands, with everything before it settled; a pending backslash is not settled yet. */
  ghost predicate Reached(data: string, index: nat, place: Place) {
    && index <= |data| && PlaceAt(data, index) == place
    && (place.AfterBackslash? ==> index > 0 && PlaceAt(data, index - 1) == Inside && data[index - 1] == '\\')
    && var bound := if place.AfterBackslash? then index - 1 else index;
       AcceptedBefore(data, bound) && PairsComplete(data, bound)
  }

  /** One byte that is not the `u` of an escape. */
  lemma PlainStep(data: string, index: nat, place: Place)
    requires index < |data| && Reached(data, index, place) && !(place.AfterBackslash? && data[index] == 'u')
    ensures Reached(data, index + 1, Next(place, data[index]))
  {
  }

  lemma ReachedEnd(data: string, place: Place)
    requires Reached(data, |data|, place)
    ensures Accepts(data)
  {
  }

  /** The scan accepts exactly the texts whose escapes are all well formed, and never reads out of bounds. */
  method ValidateSurrogateEscapes(data: string) returns (ok: bool)
    ensures ok <==> Accepts(data)
  {
    var inString, escaped := false, false;
    var index := 0;
    while index < |data|
      invariant Reached(data, index, PlaceOf(inString, escaped)) && (escaped ==> inString)
      decreases |data| - index
    {
      var value := data[index];
      if inString && escaped && value == 'u' {
        var accepted, next := ScanEscape(data, index - 1);
        if !accepted {
          return false;
        }
        escaped := false;
        index := next;
        continue;
      }
      PlainStep(data, index, PlaceOf(inString, escaped));
      if !inString {
        if value == '"' {
          inString := true;
        }
      } else if escaped {
        escaped := false;
      } else if value == '\\' {
        escaped := true;
      } else if value == '"' {
        inString := false;
      }
      index := index + 1;
    }
    ReachedEnd(data, PlaceOf(inString, escaped));
    ok := true;
  }
}

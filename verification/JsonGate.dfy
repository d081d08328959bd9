/**
 consumeTypedJSONValue of internal/report/json_structure.go: a recursive consumer of decoder tokens, typed by
 the Go type the value will be decoded into. It is proved to accept exactly the token streams of trees that
 satisfy a tree predicate (duplicate names: section 4 of RFC 8259).
 */
module JsonGate {
  import opened ReportModel

  // ---------- tokens, trees, types ----------

  /** What `Decoder.Token` returns; `Broken` stands where the decoder itself reports a syntax error. */
  datatype Token = OpenObject | CloseObject | OpenArray | CloseArray | Text(value: string) | Literal(value: string)
    | Broken

  datatype Member = Member(name: string, value: Json)
  datatype Json = Str(value: string) | Lit(value: string) | Obj(members: seq<Member>) | Arr(items: seq<Json>)

  /** A Go type as the gate reads it: `Scalar` is a basic kind, `Atomic` implements TextUnmarshaler. */
  datatype Shape =
    | Any | Scalar | Atomic
    | Struct(fields: map<string, Shape>) | MapOf(element: Shape) | ListOf(element: Shape) | Pointer(element: Shape)

  function Encode(t: Json): seq<Token> {
    match t
    case Str(value) => [Text(value)]
    case Lit(value) => [Literal(value)]
    case Obj(members) => [OpenObject] + EncodeMembers(members) + [CloseObject]
    case Arr(items) => [OpenArray] + EncodeItems(items) + [CloseArray]
  }

  function EncodeMembers(ms: seq<Member>): seq<Token> {
    if ms == [] then [] else [Text(ms[0].name)] + Encode(ms[0].value) + EncodeMembers(ms[1..])
  }

  function EncodeItems(ts: seq<Json>): seq<Token> {
    if ts == [] then [] else Encode(ts[0]) + EncodeItems(ts[1..])
  }

  // ---------- what the gate admits ----------

  function Pointee(s: Shape): Shape {
    match s
    case Pointer(element) => Pointee(element)
    case _ => s
  }

  /** The type of a member, or nothing when a struct has no field of exactly this name. */
  function MemberShape(s: Shape, name: string): Option<Shape> {
    match s
    case Struct(fields) => if name in fields then Some(fields[name]) else None
    case MapOf(element) => Some(element)
    case _ => Some(Any)
  }

  function ItemShape(s: Shape): Shape {
    match s
    case ListOf(element) => element
    case _ => Any
  }

  /** A tree within its type and the nesting limit, with no name repeated in any object. */
  predicate Admitted(t: Json, s: Shape, depth: nat) {
    && depth <= MAX_JSON_DEPTH
    && match t
       case Obj(members) => !Pointee(s).Atomic? && MembersAdmitted(members, Pointee(s), depth, {})
       case Arr(items) => !Pointee(s).Atomic? && ItemsAdmitted(items, ItemShape(Pointee(s)), depth)
       case _ => true
  }

  predicate MembersAdmitted(ms: seq<Member>, s: Shape, depth: nat, seen: set<string>) {
    ms == [] || (
      && ms[0].name !in seen && MemberShape(s, ms[0].name).Some?
      && Admitted(ms[0].value, MemberShape(s, ms[0].name).value, depth + 1)
      && MembersAdmitted(ms[1..], s, depth, seen + {ms[0].name}))
  }

  predicate ItemsAdmitted(ts: seq<Json>, s: Shape, depth: nat) {
    ts == [] || (Admitted(ts[0], s, depth + 1) && ItemsAdmitted(ts[1..], s, depth))
  }

  // ---------- reading back ----------

  datatype Read<T> = Done(value: T, rest: seq<Token>) | Refused

  predicate More(ts: seq<Token>) {
    ts != [] && !ts[0].CloseObject? && !ts[0].CloseArray?
  }

  /** The consumer as a function from the tokens left to a tree and the tokens left after it. */
  function ReadValue(ts: seq<Token>, s: Shape, depth: nat): (r: Read<Json>)
    ensures r.Done? ==> |r.rest| < |ts|
    decreases |ts|, 0
  {
    if depth > MAX_JSON_DEPTH || ts == [] then Refused
    else match ts[0]
      case Text(value) => Done(Str(value), ts[1..])
      case Literal(value) => Done(Lit(value), ts[1..])
      case OpenObject =>
        if Pointee(s).Atomic? then Refused
        else
          var members := ReadMembers(ts[1..], Pointee(s), depth, {});
          if members.Done? && members.rest != []
            && members.rest[0].CloseObject? then Done(Obj(members.value), members.rest[1..]) else Refused
      case OpenArray =>
        if Pointee(s).Atomic? then Refused
        else
          var items := ReadItems(ts[1..], ItemShape(Pointee(s)), depth);
          if items.Done? && items.rest != [] && items.rest[0].CloseArray? then Done(Arr(items.value), items.rest[1..])
            else Refused
      case _ => Refused
  }

  function ReadMembers(ts: seq<Token>, s: Shape, depth: nat, seen: set<string>): (r: Read<seq<Member>>)
    ensures r.Done? ==> |r.rest| <= |ts|
    decreases |ts|, 1
  {
    if !More(ts) then Done([], ts)
    else if !ts[0].Text? || ts[0].value in seen || MemberShape(s, ts[0].value).None? then Refused
    else
      var value := ReadValue(ts[1..], MemberShape(s, ts[0].value).value, depth + 1);
      if value.Refused? then Refused
      else
        var others := ReadMembers(value.rest, s, depth, seen + {ts[0].value});
        if others.Refused? then Refused else Done([Member(ts[0].value, value.value)] + others.value, others.rest)
  }

  function ReadItems(ts: seq<Token>, s: Shape, depth: nat): (r: Read<seq<Json>>)
    ensures r.Done? ==> |r.rest| <= |ts|
    decreases |ts|, 1
  {
    if !More(ts) then Done([], ts)
    else
      var value := ReadValue(ts, s, depth + 1);
      if value.Refused? then Refused
      else
        var others := ReadItems(value.rest, s, depth);
        if others.Refused? then Refused else Done([value.value] + others.value, others.rest)
  }

  // ---------- the consumer as it runs ----------

  class Decoder {
    const tokens: seq<Token>
    var position: nat

    constructor (tokens: seq<Token>)
      ensures this.tokens == tokens && position == 0
    {
      this.tokens, position := tokens, 0;
    }

    ghost predicate Valid()
      reads this
    {
      position <= |tokens|
    }

    function Left(): seq<Token>
      reads this
      requires Valid()
    {
      tokens[position..]
    }

    method HasMore() returns (more: bool)
      requires Valid()
      ensures more == More(Left())
    {
      more := position < |tokens| && !tokens[position].CloseObject? && !tokens[position].CloseArray?;
    }

    /** `Decoder.Token`: the next token, or an error at the end of the input and at broken syntax. */
    method Next() returns (token: Option<Token>)
      requires Valid()
      modifies this
      ensures Valid() && position >= old(position)
      ensures token.Some? <==> old(Left()) != [] && !old(Left())[0].Broken?
      ensures token.Some? ==>
        token.value == old(Left())[0] && Left() == old(Left())[1..] && position == old(position) + 1
    {
      if position >= |tokens| || tokens[position].Broken? {
        return None;
      }
      token := Some(tokens[position]);
      position := position + 1;
    }

    method Consume(s: Shape, depth: nat) returns (ok: bool)
      requires Valid()
      modifies this
      ensures Valid() && position >= old(position)
      ensures ok <==> ReadValue(old(Left()), s, depth).Done?
      ensures ok ==> Left() == ReadValue(old(Left()), s, depth).rest && position > old(position)
      decreases |tokens| - position, 0
    {
      if depth > MAX_JSON_DEPTH {
        return false;
      }
      var target := s;
      while target.Pointer?
        invariant Pointee(target) == Pointee(s)
        decreases target
      {
        target := target.element;
      }
      assert target == Pointee(target);
      var token := Next();
      if token.None? {
        return false;
      }
      if token.value.Text? || token.value.Literal? {
        return true;
      }
      if target.Atomic? {
        return false;
      }
      match token.value {
        case OpenObject =>
          ok := ConsumeMembers(target, depth);
        case OpenArray =>
          ok := ConsumeItems(ItemShape(target), depth);
        case _ =>
          ok := false;
      }
      if !ok {
        return false;
      }
      var closing := Next();
      var want := if token.value.OpenArray? then CloseArray else CloseObject;
      ok := closing == Some(want);
    }

    method ConsumeMembers(s: Shape, depth: nat) returns (ok: bool)
      requires Valid()
      modifies this
      ensures Valid() && position >= old(position)
      ensures ok <==> ReadMembers(old(Left()), s, depth, {}).Done?
      ensures ok ==> Left() == ReadMembers(old(Left()), s, depth, {}).rest
      decreases |tokens| - position, 1
    {
      var seen := {};
      ghost var start := Left();
      var more := HasMore();
      while more
        invariant Valid() && position >= old(position) && more == More(Left())
        invariant SameMemberEnd(start, {}, Left(), seen, s, depth)
        decreases |tokens| - position
      {
        ghost var before := Left();
        var nameToken := Next();
        if nameToken.None? || !nameToken.value.Text? {
          return false;
        }
        var name := nameToken.value.value;
        if name in seen {
          return false;
        }
        var shape := MemberShape(s, name);
        if shape.None? {
          return false;
        }
        ok := Consume(shape.value, depth + 1);
        if !ok {
          return false;
        }
        seen := seen + {name};
        more := HasMore();
      }
      ok := true;
    }

    method ConsumeItems(s: Shape, depth: nat) returns (ok: bool)
      requires Valid()
      modifies this
      ensures Valid() && position >= old(position)
      ensures ok <==> ReadItems(old(Left()), s, depth).Done?
      ensures ok ==> Left() == ReadItems(old(Left()), s, depth).rest
      decreases |tokens| - position, 1
    {
      ghost var start := Left();
      var more := HasMore();
      while more
        invariant Valid() && position >= old(position) && more == More(Left())
        invariant SameItemEnd(start, Left(), s, depth)
        decreases |tokens| - position
      {
        ok := Consume(s, depth + 1);
        if !ok {
          return false;
        }
        more := HasMore();
      }
      ok := true;
    }
  }

  /** Reading the rest of an object from here ends where reading all of it does. */
  ghost predicate SameMemberEnd(
    start: seq<Token>, none: set<string>, now: seq<Token>, seen: set<string>, s: Shape, depth: nat)
  {
    var all, rest := ReadMembers(start, s, depth, none), ReadMembers(now, s, depth, seen);
    (all.Done? <==> rest.Done?) && (all.Done? ==> all.rest == rest.rest)
  }

  ghost predicate SameItemEnd(start: seq<Token>, now: seq<Token>, s: Shape, depth: nat) {
    var all, rest := ReadItems(start, s, depth), ReadItems(now, s, depth);
    (all.Done? <==> rest.Done?) && (all.Done? ==> all.rest == rest.rest)
  }

  /** `validateJSONStructure` after its byte checks: one value and nothing after it. */
  method ValidateStructure(tokens: seq<Token>, target: Shape) returns (ok: bool)
    ensures ok <==> exists t :: tokens == Encode(t) && Admitted(t, target, 0)
  {
    var decoder := new Decoder(tokens);
    ok := decoder.Consume(target, 0);
    GateDecides(tokens, target);
    if !ok {
      return;
    }
    var trailing := decoder.position < |tokens|;
    ok := !trailing;
  }

  // ---------- the gate against trees ----------

  lemma Reassociate<T>(x: T, b: seq<T>, c: seq<T>, d: seq<T>)
    ensures var ts := [x] + b + c + d; ts != [] && ts[0] == x && ts[1..] == b + (c + d)
  {
  }

  /** The tokens of an object, member by member. */
  lemma MemberTokens(ms: seq<Member>, rest: seq<Token>)
    requires ms != []
    ensures var ts := EncodeMembers(ms) + rest;
      ts != [] && ts[0] == Text(ms[0].name) && ts[1..] == Encode(ms[0].value) + (EncodeMembers(ms[1..]) + rest)
  {
    Reassociate(Text(ms[0].name), Encode(ms[0].value), EncodeMembers(ms[1..]), rest);
  }

  lemma PrependMember(name: string, value: Json, others: seq<Member>, rest: seq<Token>)
    ensures EncodeMembers([Member(name, value)] + others) + rest ==
      [Text(name)] + (Encode(value) + (EncodeMembers(others) + rest))
  {
    var ms := [Member(name, value)] + others;
    assert ms[1..] == others;
    assert EncodeMembers(ms) == [Text(name)] + Encode(value) + EncodeMembers(others);
  }

  lemma PrependItem(value: Json, others: seq<Json>, rest: seq<Token>)
    ensures EncodeItems([value] + others) + rest == Encode(value) + (EncodeItems(others) + rest)
  {
    var ts := [value] + others;
    assert ts[1..] == others;
  }

  /** A bracketed run of tokens, read from the front. */
  lemma Bracketed(open: Token, inner: seq<Token>, close: Token, rest: seq<Token>)
    ensures ([close] + rest)[1..] == rest
    ensures var ts := [open] + inner + [close] + rest; ts[0] == open && ts[1..] == inner + ([close] + rest)
  {
  }

  lemma Rebracketed(ts: seq<Token>, inner: seq<Token>, left: seq<Token>)
    requires ts != [] && left != [] && ts[1..] == inner + left
    ensures ts == [ts[0]] + inner + [left[0]] + left[1..]
  {
    assert ts == [ts[0]] + ts[1..];
  }

  lemma {:induction false} EncodingStarts(t: Json)
    ensures Encode(t) != [] && More(Encode(t)) && !Encode(t)[0].Broken?
  {
  }

  /** On the tokens of a tree, whatever follows them, the consumer takes exactly that tree or refuses it. */
  lemma {:induction false} ReadsBack(t: Json, rest: seq<Token>, s: Shape, depth: nat)
    ensures ReadValue(Encode(t) + rest, s, depth) == if Admitted(t, s, depth) then Done(t, rest) else Refused
    decreases t, 0
  {
    match t {
      case Obj(members) =>
        Bracketed(OpenObject, EncodeMembers(members), CloseObject, rest);
        MembersReadBack(members, [CloseObject] + rest, Pointee(s), depth, {});
      case Arr(items) =>
        Bracketed(OpenArray, EncodeItems(items), CloseArray, rest);
        ItemsReadBack(items, [CloseArray] + rest, ItemShape(Pointee(s)), depth);
      case _ =>
        assert (Encode(t) + rest)[1..] == rest;
    }
  }

  /** One member read, then the others. */
  lemma JoinMembers(
    ts: seq<Token>, m: Member, left: seq<Token>, others: Read<seq<Member>>, s: Shape, depth: nat, seen: set<string>)
    requires ts != [] && ts[0] == Text(m.name) && m.name !in seen && MemberShape(s, m.name).Some?
    requires ReadValue(ts[1..], MemberShape(s, m.name).value, depth + 1) == Done(m.value, left)
    requires ReadMembers(left, s, depth, seen + {m.name}) == others
    ensures ReadMembers(ts, s, depth, seen) == if others.Done? then Done([m] + others.value, others.rest) else Refused
  {
  }

  lemma StopMembers(ts: seq<Token>, name: string, s: Shape, depth: nat, seen: set<string>)
    requires ts != [] && ts[0] == Text(name)
    requires name in seen || MemberShape(s, name).None?
      || ReadValue(ts[1..], MemberShape(s, name).value, depth + 1).Refused?
    ensures ReadMembers(ts, s, depth, seen).Refused?
  {
  }

  lemma {:induction false} MembersReadBack(ms: seq<Member>, rest: seq<Token>, s: Shape, depth: nat, seen: set<string>)
    requires rest != [] && !More(rest)
    ensures ReadMembers(EncodeMembers(ms) + rest, s, depth, seen) ==
      if MembersAdmitted(ms, s, depth, seen) then Done(ms, rest) else Refused
    decreases ms, 1
  {
    if ms == [] {
      assert EncodeMembers(ms) + rest == rest;
    } else {
      MemberTokens(ms, rest);
      var ts, left := EncodeMembers(ms) + rest, EncodeMembers(ms[1..]) + rest;
      var m := ms[0];
      var shape := MemberShape(s, m.name);
      if m.name in seen || shape.None? {
        StopMembers(ts, m.name, s, depth, seen);
        return;
      }
      ReadsBack(m.value, left, shape.value, depth + 1);
      if !Admitted(m.value, shape.value, depth + 1) {
        StopMembers(ts, m.name, s, depth, seen);
        return;
      }
      MembersReadBack(ms[1..], rest, s, depth, seen + {m.name});
      JoinMembers(ts, m, left, ReadMembers(left, s, depth, seen + {m.name}), s, depth, seen);
      assert [m] + ms[1..] == ms;
    }
  }

  lemma {:induction false} ItemsReadBack(ts: seq<Json>, rest: seq<Token>, s: Shape, depth: nat)
    requires rest != [] && !More(rest)
    ensures ReadItems(EncodeItems(ts) + rest, s, depth) == if ItemsAdmitted(ts, s, depth) then Done(ts, rest)
      else Refused
    decreases ts, 1
  {
    if ts == [] {
      assert EncodeItems(ts) + rest == rest;
    } else {
      assert EncodeItems(ts) + rest == Encode(ts[0]) + (EncodeItems(ts[1..]) + rest);
      EncodingStarts(ts[0]);
      ReadsBack(ts[0], EncodeItems(ts[1..]) + rest, s, depth + 1);
      ItemsReadBack(ts[1..], rest, s, depth);
      assert [ts[0]] + ts[1..] == ts;
    }
  }

  /** On any token stream, what the consumer takes is the encoding of an admitted tree. */
  lemma {:induction false} OnlyTrees(ts: seq<Token>, s: Shape, depth: nat)
    ensures var r := ReadValue(ts, s, depth); r.Done? ==> ts == Encode(r.value) + r.rest && Admitted(r.value, s, depth)
    decreases |ts|, 0
  {
    var r := ReadValue(ts, s, depth);
    if r.Done? {
      match ts[0] {
        case OpenObject =>
          OnlyMembers(ts[1..], Pointee(s), depth, {});
          var members := ReadMembers(ts[1..], Pointee(s), depth, {});
          Rebracketed(ts, EncodeMembers(members.value), members.rest);
        case OpenArray =>
          OnlyItems(ts[1..], ItemShape(Pointee(s)), depth);
          var items := ReadItems(ts[1..], ItemShape(Pointee(s)), depth);
          Rebracketed(ts, EncodeItems(items.value), items.rest);
        case Text(_) =>
          assert ts == [ts[0]] + ts[1..];
        case Literal(_) =>
          assert ts == [ts[0]] + ts[1..];
        case _ =>
      }
    }
  }

  lemma SplitMembers(ts: seq<Token>, s: Shape, depth: nat, seen: set<string>)
    returns (m: Member, left: seq<Token>, others: seq<Member>)
    requires ReadMembers(ts, s, depth, seen).Done? && More(ts)
    ensures var r := ReadMembers(ts, s, depth, seen);
      && ts[0] == Text(m.name) && m.name !in seen && MemberShape(s, m.name).Some? && |left| < |ts|
      && ReadValue(ts[1..], MemberShape(s, m.name).value, depth + 1) == Done(m.value, left)
      && ReadMembers(left, s, depth, seen + {m.name}) == Done(others, r.rest) && r.value == [m] + others
  {
    var value := ReadValue(ts[1..], MemberShape(s, ts[0].value).value, depth + 1);
    m, left := Member(ts[0].value, value.value), value.rest;
    others := ReadMembers(left, s, depth, seen + {m.name}).value;
  }

  lemma AdmitMember(m: Member, others: seq<Member>, s: Shape, depth: nat, seen: set<string>)
    requires m.name !in seen && MemberShape(s, m.name).Some?
    requires Admitted(m.value, MemberShape(s, m.name).value, depth + 1)
    requires MembersAdmitted(others, s, depth, seen + {m.name})
    ensures MembersAdmitted([m] + others, s, depth, seen)
  {
    assert ([m] + others)[1..] == others;
  }

  lemma {:induction false} OnlyMembers(ts: seq<Token>, s: Shape, depth: nat, seen: set<string>)
    ensures var r := ReadMembers(ts, s, depth, seen); r.Done? ==>
      ts == EncodeMembers(r.value) + r.rest && MembersAdmitted(r.value, s, depth, seen)
    decreases |ts|, 1
  {
    var r := ReadMembers(ts, s, depth, seen);
    if r.Done? && More(ts) {
      var m, left, others := SplitMembers(ts, s, depth, seen);
      OnlyTrees(ts[1..], MemberShape(s, m.name).value, depth + 1);
      OnlyMembers(left, s, depth, seen + {m.name});
      PrependMember(m.name, m.value, others, r.rest);
      AdmitMember(m, others, s, depth, seen);
      assert ts == [ts[0]] + ts[1..];
    }
  }

  lemma {:induction false} OnlyItems(ts: seq<Token>, s: Shape, depth: nat)
    ensures var r := ReadItems(ts, s, depth); r.Done? ==>
      ts == EncodeItems(r.value) + r.rest && ItemsAdmitted(r.value, s, depth)
    decreases |ts|, 1
  {
    var r := ReadItems(ts, s, depth);
    if r.Done? && More(ts) {
      var value := ReadValue(ts, s, depth + 1);
      var others := ReadItems(value.rest, s, depth);
      OnlyTrees(ts, s, depth + 1);
      OnlyItems(value.rest, s, depth);
      PrependItem(value.value, others.value, others.rest);
      assert r.value[1..] == others.value;
    }
  }

  /** For every token stream: one value is read and nothing is left exactly when the stream encodes an admitted tree. */
  lemma GateDecides(ts: seq<Token>, s: Shape)
    ensures (ReadValue(ts, s, 0).Done? && ReadValue(ts, s, 0).rest == []) <==>
      exists t :: ts == Encode(t) && Admitted(t, s, 0)
  {
    OnlyTrees(ts, s, 0);
    var r := ReadValue(ts, s, 0);
    if r.Done? && r.rest == [] {
      assert ts == Encode(r.value);
    }
    if t :| ts == Encode(t) && Admitted(t, s, 0) {
      ReadsBack(t, [], s, 0);
      assert Encode(t) + [] == ts;
    }
  }

  lemma EncodingOpens(t: Json, rest: seq<Token>)
    ensures var ts := Encode(t) + rest;
      ts != [] && More(ts) && ts[0] == match t
        case Str(value) => Text(value)
        case Lit(value) => Literal(value)
        case Obj(_) => OpenObject
        case Arr(_) => OpenArray
  {
  }

  lemma MembersOpen(ms: seq<Member>, rest: seq<Token>)
    requires rest != [] && !More(rest)
    ensures More(EncodeMembers(ms) + rest) <==> ms != []
  {
    if ms == [] {
      assert EncodeMembers(ms) + rest == rest;
    } else {
      MemberTokens(ms, rest);
    }
  }

  lemma ItemsOpen(ts: seq<Json>, rest: seq<Token>)
    requires rest != [] && !More(rest)
    ensures More(EncodeItems(ts) + rest) <==> ts != []
  {
    if ts == [] {
      assert EncodeItems(ts) + rest == rest;
    } else {
      EncodingOpens(ts[0], EncodeItems(ts[1..]) + rest);
      assert EncodeItems(ts) + rest == Encode(ts[0]) + (EncodeItems(ts[1..]) + rest);
    }
  }

  /** A token stream starts with the encoding of at most one tree, and what is left after it is determined. */
  lemma {:induction false} EncodingIsPrefixFree(t: Json, a: seq<Token>, u: Json, b: seq<Token>)
    requires Encode(t) + a == Encode(u) + b
    ensures t == u && a == b
    decreases t, 0
  {
    EncodingOpens(t, a);
    EncodingOpens(u, b);
    match t {
      case Obj(members) =>
        Bracketed(OpenObject, EncodeMembers(members), CloseObject, a);
        Bracketed(OpenObject, EncodeMembers(u.members), CloseObject, b);
        MembersArePrefixFree(members, [CloseObject] + a, u.members, [CloseObject] + b);
      case Arr(items) =>
        Bracketed(OpenArray, EncodeItems(items), CloseArray, a);
        Bracketed(OpenArray, EncodeItems(u.items), CloseArray, b);
        ItemsArePrefixFree(items, [CloseArray] + a, u.items, [CloseArray] + b);
      case _ =>
        assert a == (Encode(t) + a)[1..] && b == (Encode(u) + b)[1..];
    }
  }

  lemma {:induction false} MembersArePrefixFree(ms: seq<Member>, a: seq<Token>, ns: seq<Member>, b: seq<Token>)
    requires a != [] && !More(a) && b != [] && !More(b) && EncodeMembers(ms) + a == EncodeMembers(ns) + b
    ensures ms == ns && a == b
    decreases ms, 1
  {
    MembersOpen(ms, a);
    MembersOpen(ns, b);
    if ms == [] {
      assert EncodeMembers(ms) + a == a && EncodeMembers(ns) + b == b;
    } else {
      MemberTokens(ms, a);
      MemberTokens(ns, b);
      EncodingIsPrefixFree(ms[0].value, EncodeMembers(ms[1..]) + a, ns[0].value, EncodeMembers(ns[1..]) + b);
      MembersArePrefixFree(ms[1..], a, ns[1..], b);
      assert ms == [ms[0]] + ms[1..] && ns == [ns[0]] + ns[1..];
    }
  }

  lemma {:induction false} ItemsArePrefixFree(ts: seq<Json>, a: seq<Token>, us: seq<Json>, b: seq<Token>)
    requires a != [] && !More(a) && b != [] && !More(b) && EncodeItems(ts) + a == EncodeItems(us) + b
    ensures ts == us && a == b
    decreases ts, 1
  {
    ItemsOpen(ts, a);
    ItemsOpen(us, b);
    if ts == [] {
      assert EncodeItems(ts) + a == a && EncodeItems(us) + b == b;
    } else {
      assert EncodeItems(ts) + a == Encode(ts[0]) + (EncodeItems(ts[1..]) + a);
      assert EncodeItems(us) + b == Encode(us[0]) + (EncodeItems(us[1..]) + b);
      EncodingIsPrefixFree(ts[0], EncodeItems(ts[1..]) + a, us[0], EncodeItems(us[1..]) + b);
      ItemsArePrefixFree(ts[1..], a, us[1..], b);
      assert ts == [ts[0]] + ts[1..] && us == [us[0]] + us[1..];
    }
  }

  /** A token stream encodes at most one tree, of whatever depth and with whatever names. */
  lemma EncodeInjective(t: Json, u: Json)
    requires Encode(t) == Encode(u)
    ensures t == u
  {
    EncodingIsPrefixFree(t, [], u, []);
  }

  // ---------- what admission means ----------

  function Height(t: Json): nat {
    match t
    case Obj(members) => MembersHeight(members)
    case Arr(items) => ItemsHeight(items)
    case _ => 0
  }

  function MembersHeight(ms: seq<Member>): nat {
    if ms == [] then 0
    else
      var first, others := 1 + Height(ms[0].value), MembersHeight(ms[1..]);
      if first > others then first else others
  }

  function ItemsHeight(ts: seq<Json>): nat {
    if ts == [] then 0
    else
      var first, others := 1 + Height(ts[0]), ItemsHeight(ts[1..]);
      if first > others then first else others
  }

  predicate NamesDistinct(ms: seq<Member>) {
    forall i, j :: 0 <= i < j < |ms| ==> ms[i].name != ms[j].name
  }

  /** No object at any level repeats a member name. */
  predicate RepeatFree(t: Json) {
    match t
    case Obj(members) => NamesDistinct(members) && forall m <- members :: RepeatFree(m.value)
    case Arr(items) => forall item <- items :: RepeatFree(item)
    case _ => true
  }

  /** Untyped, the gate is exactly the duplicate-name check and the nesting limit. */
  lemma {:induction false} UntypedGate(t: Json, depth: nat)
    ensures Admitted(t, Any, depth) <==> RepeatFree(t) && depth + Height(t) <= MAX_JSON_DEPTH
    decreases t, 0
  {
    if depth <= MAX_JSON_DEPTH {
      match t {
        case Obj(members) => UntypedMembers(members, depth, {});
        case Arr(items) => UntypedItems(items, depth);
        case _ =>
      }
    }
  }

  lemma {:induction false} UntypedMembers(ms: seq<Member>, depth: nat, seen: set<string>)
    requires depth <= MAX_JSON_DEPTH
    ensures MembersAdmitted(ms, Any, depth, seen) <==>
      NamesDistinct(ms) && (forall m <- ms :: m.name !in seen && RepeatFree(m.value))
        && depth + MembersHeight(ms) <= MAX_JSON_DEPTH
    decreases ms, 1
  {
    if ms != [] {
      UntypedGate(ms[0].value, depth + 1);
      UntypedMembers(ms[1..], depth, seen + {ms[0].name});
      assert ms == [ms[0]] + ms[1..];
      assert NamesDistinct(ms) <==> NamesDistinct(ms[1..]) && forall m <- ms[1..] :: m.name != ms[0].name by {
        if NamesDistinct(ms[1..]) && forall m <- ms[1..] :: m.name != ms[0].name {
          forall i, j | 0 <= i < j < |ms| ensures ms[i].name != ms[j].name {
            assert ms[j] == ms[1..][j - 1] && ms[j] in ms[1..];
            if i > 0 { assert ms[i] == ms[1..][i - 1]; }
          }
        }
      }
    }
  }

  lemma {:induction false} UntypedItems(ts: seq<Json>, depth: nat)
    requires depth <= MAX_JSON_DEPTH
    ensures ItemsAdmitted(ts, Any, depth) <==>
      (forall t <- ts :: RepeatFree(t)) && depth + ItemsHeight(ts) <= MAX_JSON_DEPTH
    decreases ts, 1
  {
    if ts != [] {
      UntypedGate(ts[0], depth + 1);
      UntypedItems(ts[1..], depth);
      assert ts == [ts[0]] + ts[1..];
    }
  }

  /** Types only ever refuse more: whatever a type admits is admitted untyped. */
  lemma {:induction false} TypesOnlyRefuse(t: Json, s: Shape, depth: nat)
    requires Admitted(t, s, depth)
    ensures Admitted(t, Any, depth)
    decreases t, 0
  {
    match t {
      case Obj(members) => MembersOnlyRefuse(members, Pointee(s), depth, {});
      case Arr(items) => ItemsOnlyRefuse(items, ItemShape(Pointee(s)), depth);
      case _ =>
    }
  }

  lemma {:induction false} MembersOnlyRefuse(ms: seq<Member>, s: Shape, depth: nat, seen: set<string>)
    requires MembersAdmitted(ms, s, depth, seen)
    ensures MembersAdmitted(ms, Any, depth, seen)
    decreases ms, 1
  {
    if ms != [] {
      TypesOnlyRefuse(ms[0].value, MemberShape(s, ms[0].name).value, depth + 1);
      MembersOnlyRefuse(ms[1..], s, depth, seen + {ms[0].name});
    }
  }

  lemma {:induction false} ItemsOnlyRefuse(ts: seq<Json>, s: Shape, depth: nat)
    requires ItemsAdmitted(ts, s, depth)
    ensures ItemsAdmitted(ts, Any, depth)
    decreases ts, 1
  {
    if ts != [] {
      TypesOnlyRefuse(ts[0], s, depth + 1);
      ItemsOnlyRefuse(ts[1..], s, depth);
    }
  }

  /** An admitted object of a struct type uses only exact field names, each holding a value of its field's type. */
  lemma {:induction false} StructMembersExact(
    ms: seq<Member>, fields: map<string, Shape>, depth: nat, seen: set<string>)
    requires MembersAdmitted(ms, Struct(fields), depth, seen)
    ensures forall m <- ms :: m.name in fields && Admitted(m.value, fields[m.name], depth + 1)
    decreases |ms|
  {
    if ms != [] {
      StructMembersExact(ms[1..], fields, depth, seen + {ms[0].name});
      assert ms == [ms[0]] + ms[1..];
    }
  }
}

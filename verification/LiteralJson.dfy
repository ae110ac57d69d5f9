/** Which GraphQL literals convert to JSON.  GraphQL treats commas as blanks, so a literal may
    have none, or too many, where JSON needs exactly one; and several kinds of value are
    written as JSON does not write them. */
module LiteralJson {
  import opened Common
  import opened ObjectLiteral
  import opened JsonText

  // ----------------------------------------------------------- the literals

  /** What may stand between two tokens: blanks, commas, and comments.  What a comment says,
      and whether it ends, does not matter here: a gap is free from its first `#` on. */
  type Gap = string

  datatype Literal =
    | Str(body: string)
    | Block(content: string)
    | Num(digits: string)
    | Power(digits: string, exponent: string)
    | Name(name: string)
    | Variable(name: string)
    | List(items: seq<Entry>, end: Gap)
    | Object(members: seq<Member>, end: Gap)

  datatype Entry = Entry(gap: Gap, value: Literal)

  /** The key is a name or a string. */
  datatype Member = Member(gap: Gap, key: Literal, before: Gap, after: Gap, value: Literal)

  /** The literal as written, in front of `x`. */
  function Write(v: Literal, x: string): string
    decreases v, 0
  {
    match v
    case Str(body) => "\"" + body + "\"" + x
    case Block(content) => "\"\"\"" + (content + "\"\"\"" + x)
    case Num(digits) => digits + x
    case Power(digits, exponent) => digits + (exponent + x)
    case Name(name) => name + x
    case Variable(name) => "$" + (name + x)
    case List(items, end) => "[" + WriteEntries(items, Tail(end, ']', x))
    case Object(members, end) => "{" + WriteMembers(members, Tail(end, '}', x))
  }

  function Tail(end: Gap, close: char, x: string): string { end + ([close] + x) }

  function WriteEntries(items: seq<Entry>, x: string): string
    decreases items, 0
  {
    if items == [] then x else items[0].gap + Write(items[0].value, WriteEntries(items[1..], x))
  }

  function WriteMembers(members: seq<Member>, x: string): string
    decreases members, 0
  {
    if members == [] then x else members[0].gap + WriteMember(members[0], WriteMembers(members[1..], x))
  }

  /** A member from its key on. */
  function WriteMember(m: Member, x: string): string
    decreases m, 1
  {
    Write(m.key, m.before + (":" + (m.after + Write(m.value, x))))
  }

  predicate GapOk(g: Gap) { g == [] || g[0] == '#' || ((Blank(g[0]) || g[0] == ',') && GapOk(g[1..])) }

  /** A number without an exponent: digits, signs and points. */
  predicate IsRun(digits: string) { digits != [] && Made(digits, NumberChar) }

  predicate IsName(name: string) { name != [] && IsLetter(name[0]) && Made(name, WordChar) }

  /** Every part is spelled as GraphQL spells it and does not run into what follows. */
  predicate Legal(v: Literal, x: string)
    decreases v, 0
  {
    match v
    case Str(body) => BodyOk(body)
    case Block(_) => true
    case Num(digits) => IsRun(digits) && Stops(x, NumberChar)
    case Power(digits, exponent) => IsRun(digits) && exponent != [] && (exponent[0] == 'e' || exponent[0] == 'E')
    case Name(name) => IsName(name) && Stops(x, WordChar)
    case Variable(_) => true
    case List(items, end) => GapOk(end) && LegalEntries(items, Tail(end, ']', x))
    case Object(members, end) => GapOk(end) && LegalMembers(members, Tail(end, '}', x))
  }

  predicate LegalEntries(items: seq<Entry>, x: string)
    decreases items, 0
  {
    items == [] ||
    (GapOk(items[0].gap) && Legal(items[0].value, WriteEntries(items[1..], x)) && LegalEntries(items[1..], x))
  }

  predicate LegalMembers(members: seq<Member>, x: string)
    decreases members, 0
  {
    members == [] ||
    (GapOk(members[0].gap) && LegalMember(members[0], WriteMembers(members[1..], x)) && LegalMembers(members[1..], x))
  }

  predicate LegalMember(m: Member, x: string)
    decreases m, 1
  {
    && GapOk(m.before) && GapOk(m.after) && (m.key.Str? || m.key.Name?)
    && Legal(m.key, m.before + (":" + (m.after + Write(m.value, x)))) && Legal(m.value, x)
  }

  // ---------------------------------------------------- the ones that are JSON

  /** Commas in a gap, up to its first comment. */
  function Commas(g: Gap): nat
  {
    if g == [] || g[0] == '#' then 0 else (if g[0] == ',' then 1 else 0) + Commas(g[1..])
  }

  /** The gap has `n` commas and no comment. */
  predicate Plain(g: Gap, n: nat) { '#' !in g && Commas(g) == n }

  predicate Inline(g: Gap) { forall c | c in g :: c == ' ' || c == '\t' }

  /** Exactly one comma between neighbours and none elsewhere, no comment, no block string,
      no exponent, no variable, only strings and numbers that JSON allows, and true, false
      and null as keys only with their colon on the same line. */
  predicate Sound(v: Literal)
    decreases v, 0
  {
    match v
    case Str(body) => JsonBody(body)
    case Num(digits) => JsonNumber(digits)
    case Name(_) => true
    case List(items, end) => Plain(end, 0) && SoundEntries(items, 0)
    case Object(members, end) => Plain(end, 0) && SoundMembers(members, 0)
    case _ => false
  }

  predicate SoundEntries(items: seq<Entry>, commas: nat)
    decreases items, 0
  {
    items == [] || (Plain(items[0].gap, commas) && Sound(items[0].value) && SoundEntries(items[1..], 1))
  }

  predicate SoundMembers(members: seq<Member>, commas: nat)
    decreases members, 0
  {
    members == [] || (Plain(members[0].gap, commas) && SoundMember(members[0]) && SoundMembers(members[1..], 1))
  }

  predicate SoundMember(m: Member)
    decreases m, 1
  {
    && Sound(m.key) && (m.key.Name? && IsConstant(m.key.name) ==> Inline(m.before))
    && Plain(m.before, 0) && Plain(m.after, 0) && Sound(m.value)
  }

  // ---------------------------------------------------------- scanning a gap

  function Repeat(n: nat): seq<Piece> { if n == 0 then [] else [Punct(',')] + Repeat(n - 1) }

  /** Nothing is read past a comment. */
  function Past(g: Gap, ps: seq<Piece>): seq<Piece> { if '#' in g then [Bad] else ps }

  lemma {:induction false} GapScans(g: Gap, x: string)
    requires GapOk(g)
    ensures Scan(g + x) == Repeat(Commas(g)) + Past(g, Scan(x))
  {
    if g == [] {
      assert g + x == x;
    } else if g[0] != '#' {
      GapScans(g[1..], x);
      GapStep(g, x);
      assert g[0] == ',' ==> Repeat(Commas(g)) == [Punct(',')] + Repeat(Commas(g[1..]));
    }
  }

  lemma GapStep(g: Gap, x: string)
    requires g != [] && (Blank(g[0]) || g[0] == ',')
    ensures Scan(g + x) == (if g[0] == ',' then [Punct(',')] else []) + Scan(g[1..] + x)
    ensures '#' in g <==> '#' in g[1..]
  {
    assert (g + x)[1..] == g[1..] + x;
    assert g == [g[0]] + g[1..];
  }

  lemma InlineHead(g: Gap)
    requires g != []
    ensures Inline(g) <==> (g[0] == ' ' || g[0] == '\t') && Inline(g[1..])
  {
    assert g[0] in g;
    assert forall c | c in g[1..] :: c in g;
    assert forall c | c in g :: c == g[0] || c in g[1..];
  }

  lemma {:induction false} GapBeforeColon(g: Gap, x: string)
    requires GapOk(g)
    ensures BeforeColon(g + (":" + x)) <==> Inline(g)
  {
    if g == [] {
      assert g + (":" + x) == ":" + x;
    } else {
      InlineHead(g);
      assert (g + (":" + x))[1..] == g[1..] + (":" + x);
      if g[0] != '#' {
        GapBeforeColon(g[1..], x);
      }
    }
  }

  // -------------------------------------------------------- scanning a value

  /** The recogniser has stopped short: no value was read, or another token stands where a
      comma or the end has to. */
  predicate Stuck(r: Option<seq<Piece>>) { r.Some? ==> r.value != [] && !r.value[0].Punct? }

  lemma MarkScans(c: char, x: string)
    requires Structural(c)
    ensures Scan([c] + x) == [Punct(c)] + Scan(x)
  {
    assert ([c] + x)[1..] == x;
  }

  lemma {:induction false} BodyCloses(body: string, x: string)
    requires BodyOk(body)
    ensures Close(body + ("\"" + x)) == Some(x)
  {
    var s := body + ("\"" + x);
    if body == [] {
      assert s == "\"" + x;
      assert s[1..] == x;
    } else if body[0] == '\\' {
      assert s[2..] == body[2..] + ("\"" + x);
      BodyCloses(body[2..], x);
    } else {
      assert s[1..] == body[1..] + ("\"" + x);
      BodyCloses(body[1..], x);
    }
  }

  lemma StrScans(body: string, x: string)
    requires BodyOk(body)
    ensures Scan("\"" + body + "\"" + x) == [Text(JsonBody(body))] + Scan(x)
  {
    BodyCloses(body, x);
    Delimited(body, x);
    QuoteScans("\"" + body + "\"" + x, x);
  }

  lemma QuoteScans(s: string, rest: string)
    requires s != [] && s[0] == '"' && Close(s[1..]) == Some(rest)
    ensures Scan(s) == [Text(JsonBody(s[1..|s| - |rest| - 1]))] + Scan(rest)
  {
  }

  lemma NumScans(digits: string, x: string)
    requires IsRun(digits) && Stops(x, NumberChar)
    ensures Scan(digits + x) == [Numeral(JsonNumber(digits))] + Scan(x)
  {
    var s := digits + x;
    assert digits[0] in digits && s[1..] == digits[1..] + x;
    RunReads(digits[1..], NumberChar, x);
    assert Taken(s, x) == digits;
  }

  lemma NameScans(name: string, x: string)
    requires IsName(name) && Stops(x, WordChar)
    ensures Scan(name + x) == [WordPiece(name, BeforeColon(x))] + Scan(x)
  {
    WordRun(name, x);
  }

  /** A letter or a quote is where a token starts that is no mark. */
  lemma TokenAhead(s: string)
    requires s != [] && (IsLetter(s[0]) || s[0] == '"')
    ensures Scan(s) != [] && !Scan(s)[0].Punct?
  {
  }

  /** A block string is read as an empty string with another string after it. */
  lemma BlockStuck(content: string, x: string)
    ensures var ps := Scan(Write(Block(content), x)); ps != [] && !ps[0].Punct? && Stuck(AfterValue(ps))
  {
    var rest := "\"" + (content + "\"\"\"" + x);
    var s := Write(Block(content), x);
    assert s == "\"" + "" + "\"" + rest;
    StrScans("", rest);
    TokenAhead(rest);
    assert ([Text(true)] + Scan(rest))[1..] == Scan(rest);
  }

  /** A number with an exponent is read as a number with a word after it. */
  lemma PowerStuck(digits: string, exponent: string, x: string)
    requires Legal(Power(digits, exponent), x)
    ensures var ps := Scan(Write(Power(digits, exponent), x)); ps != [] && !ps[0].Punct? && Stuck(AfterValue(ps))
  {
    var rest := exponent + x;
    NumScans(digits, rest);
    TokenAhead(rest);
    var p := Numeral(JsonNumber(digits));
    assert ([p] + Scan(rest))[1..] == Scan(rest);
  }

  predicate IsScalar(v: Literal) { !v.List? && !v.Object? }

  /** A value that is neither a list nor an object. */
  lemma ScalarRecognised(v: Literal, x: string)
    requires IsScalar(v) && Legal(v, x)
    ensures Scan(Write(v, x)) != [] && !Scan(Write(v, x))[0].Punct?
    ensures if Sound(v) then AfterValue(Scan(Write(v, x))) == Some(Scan(x)) else Stuck(AfterValue(Scan(Write(v, x))))
  {
    match v
    case Str(body) => StrScans(body, x);
    case Block(content) => BlockStuck(content, x);
    case Num(digits) => NumScans(digits, x);
    case Power(digits, exponent) => PowerStuck(digits, exponent, x);
    case Name(name) => NameScans(name, x);
    case Variable(_) =>
  }

  /** The first token of a value is neither a comma nor a colon nor a closing bracket. */
  lemma ValueHead(v: Literal, x: string)
    requires Legal(v, x)
    ensures var ps := Scan(Write(v, x));
            ps != [] && ps[0] != Punct(',') && ps[0] != Punct(']') && ps[0] != Punct('}') && ps[0] != Punct(':')
  {
    if IsScalar(v) {
      ScalarRecognised(v, x);
    } else if v.List? {
      MarkScans('[', WriteEntries(v.items, Tail(v.end, ']', x)));
    } else {
      MarkScans('{', WriteMembers(v.members, Tail(v.end, '}', x)));
    }
  }

  // ------------------------------------------------------- the recogniser

  /** What the recogniser makes of a literal: it reads exactly past it when it is sound, and
      never comes to its end when it is not. */
  lemma {:induction false} LiteralRecognised(v: Literal, x: string)
    requires Legal(v, x)
    ensures if Sound(v) then AfterValue(Scan(Write(v, x))) == Some(Scan(x)) else Stuck(AfterValue(Scan(Write(v, x))))
    decreases v, 0
  {
    if IsScalar(v) {
      ScalarRecognised(v, x);
    } else if v.List? {
      ListRecognised(v.items, v.end, x);
    } else {
      ObjectRecognised(v.members, v.end, x);
    }
  }

  lemma {:induction false} ListRecognised(items: seq<Entry>, end: Gap, x: string)
    requires GapOk(end) && LegalEntries(items, Tail(end, ']', x))
    ensures AfterValue(Scan("[" + WriteEntries(items, Tail(end, ']', x)))) ==
            if SoundEntries(items, 0) && Plain(end, 0) then Some(Scan(x)) else None
    decreases items, 5
  {
    var y := Tail(end, ']', x);
    MarkScans('[', WriteEntries(items, y));
    if items == [] {
      EndScans(end, ']', x);
      EmptyRecognised(end, '[', ']', Scan(x));
    } else {
      EntriesRecognised(items, end, x);
      EntryHead(items, y);
      Opened('[', Scan(WriteEntries(items, y)));
    }
  }

  lemma {:induction false} ObjectRecognised(members: seq<Member>, end: Gap, x: string)
    requires GapOk(end) && LegalMembers(members, Tail(end, '}', x))
    ensures AfterValue(Scan("{" + WriteMembers(members, Tail(end, '}', x)))) ==
            if SoundMembers(members, 0) && Plain(end, 0) then Some(Scan(x)) else None
    decreases members, 5
  {
    var y := Tail(end, '}', x);
    MarkScans('{', WriteMembers(members, y));
    if members == [] {
      EndScans(end, '}', x);
      EmptyRecognised(end, '{', '}', Scan(x));
    } else {
      MembersRecognised(members, end, x);
      MemberHead(members, y);
      Opened('{', Scan(WriteMembers(members, y)));
    }
  }

  lemma Opened(open: char, ps: seq<Piece>)
    requires (open == '[' && !Next(ps, ']')) || (open == '{' && !Next(ps, '}'))
    ensures AfterValue([Punct(open)] + ps) == if open == '[' then AfterElements(ps) else AfterMembers(ps)
  {
    assert ([Punct(open)] + ps)[1..] == ps;
  }

  lemma EndScans(end: Gap, close: char, x: string)
    requires GapOk(end) && Structural(close)
    ensures Scan(Tail(end, close, x)) == Repeat(Commas(end)) + Past(end, [Punct(close)] + Scan(x))
  {
    GapScans(end, [close] + x);
    MarkScans(close, x);
  }

  lemma EmptyRecognised(end: Gap, open: char, close: char, x: seq<Piece>)
    requires (open == '[' && close == ']') || (open == '{' && close == '}')
    ensures AfterValue([Punct(open)] + (Repeat(Commas(end)) + Past(end, [Punct(close)] + x))) ==
            if Plain(end, 0) then Some(x) else None
  {
    var n, last := Commas(end), Past(end, [Punct(close)] + x);
    var ps := [Punct(open)] + (Repeat(n) + last);
    assert ps[1..] == Repeat(n) + last;
    CommaFirst(n, last);
    if n == 0 && '#' !in end {
      assert ps[2..] == x;
    } else {
      NoEnd(n, if n == 0 then [Bad] else last);
    }
  }

  /** Nothing is read where a comma stands. */
  lemma CommaFirst(n: nat, x: seq<Piece>)
    ensures n > 0 ==> Repeat(n) + x == [Punct(',')] + (Repeat(n - 1) + x)
    ensures n > 0 ==> AfterElements(Repeat(n) + x).None? && AfterMembers(Repeat(n) + x).None? && AfterValue(Repeat(n) + x).None?
    ensures n == 0 ==> Repeat(n) + x == x
  {
  }

  /** After an element: exactly one comma lets the recogniser go on to what stands next. */
  lemma NextRecognised(n: nat, close: char, v: seq<Piece>)
    requires (close == ']' || close == '}') && v != [] && v[0] != Punct(',') && v[0] != Punct(close)
    ensures AfterItem(Repeat(n) + v, close) ==
            if n != 1 then None else if close == ']' then AfterElements(v) else AfterMembers(v)
  {
    var ps := Repeat(n) + v;
    CommaFirst(n, v);
    if n > 0 {
      var rest := Repeat(n - 1) + v;
      assert ps[1..] == rest;
      CommaFirst(n - 1, v);
    }
  }

  lemma EndRecognised(end: Gap, close: char, x: seq<Piece>)
    requires close == ']' || close == '}'
    ensures AfterItem(Repeat(Commas(end)) + Past(end, [Punct(close)] + x), close) == if Plain(end, 0) then Some(x) else None
  {
    var n, last := Commas(end), Past(end, [Punct(close)] + x);
    CommaFirst(n, last);
    if n > 0 {
      assert (Repeat(n) + last)[1..] == Repeat(n - 1) + last;
      NoEnd(n - 1, last);
    } else if '#' !in end {
      assert last[1..] == x;
    }
  }

  /** A comma is not followed by the end. */
  lemma NoEnd(n: nat, last: seq<Piece>)
    requires last != [] && (last[0] == Bad || last[0] == Punct(']') || last[0] == Punct('}'))
    ensures AfterElements(Repeat(n) + last).None? && AfterMembers(Repeat(n) + last).None?
  {
    CommaFirst(n, last);
    if n == 0 {
      assert AfterValue(last).None?;
    }
  }

  // -- lists

  /** The tokens from an entry's value on, unless a comment comes first. */
  function EntryRest(items: seq<Entry>, x: string): seq<Piece>
    requires items != []
  {
    Past(items[0].gap, Scan(Write(items[0].value, WriteEntries(items[1..], x))))
  }

  lemma EntryScans(items: seq<Entry>, x: string)
    requires items != [] && LegalEntries(items, x)
    ensures Scan(WriteEntries(items, x)) == Repeat(Commas(items[0].gap)) + EntryRest(items, x)
    ensures var ps := EntryRest(items, x); ps != [] && ps[0] != Punct(',') && ps[0] != Punct(']')
  {
    GapScans(items[0].gap, Write(items[0].value, WriteEntries(items[1..], x)));
    ValueHead(items[0].value, WriteEntries(items[1..], x));
  }

  lemma EntryHead(items: seq<Entry>, x: string)
    requires items != [] && LegalEntries(items, x)
    ensures !Next(Scan(WriteEntries(items, x)), ']')
  {
    EntryScans(items, x);
    CommaFirst(Commas(items[0].gap), EntryRest(items, x));
  }

  lemma {:induction false} EntriesRecognised(items: seq<Entry>, end: Gap, x: string)
    requires items != [] && GapOk(end) && LegalEntries(items, Tail(end, ']', x))
    ensures AfterElements(Scan(WriteEntries(items, Tail(end, ']', x)))) ==
            if SoundEntries(items, 0) && Plain(end, 0) then Some(Scan(x)) else None
    decreases items, 3
  {
    var y := Tail(end, ']', x);
    EntryScans(items, y);
    CommaFirst(Commas(items[0].gap), EntryRest(items, y));
    ElementRecognised(items, end, x);
  }

  /** From the first value on. */
  lemma {:induction false} ElementRecognised(items: seq<Entry>, end: Gap, x: string)
    requires items != [] && GapOk(end) && LegalEntries(items, Tail(end, ']', x))
    ensures AfterElements(EntryRest(items, Tail(end, ']', x))) ==
            if '#' !in items[0].gap && Sound(items[0].value) && SoundEntries(items[1..], 1) && Plain(end, 0)
            then Some(Scan(x)) else None
    decreases items, 2
  {
    LiteralRecognised(items[0].value, WriteEntries(items[1..], Tail(end, ']', x)));
    MoreEntries(items[1..], end, x);
  }

  /** After a value: a comma and more of them, or the end. */
  lemma {:induction false} MoreEntries(items: seq<Entry>, end: Gap, x: string)
    requires GapOk(end) && LegalEntries(items, Tail(end, ']', x))
    ensures AfterItem(Scan(WriteEntries(items, Tail(end, ']', x))), ']') ==
            if SoundEntries(items, 1) && Plain(end, 0) then Some(Scan(x)) else None
    decreases items, 4
  {
    if items == [] {
      EndScans(end, ']', x);
      EndRecognised(end, ']', Scan(x));
    } else {
      var y := Tail(end, ']', x);
      EntryScans(items, y);
      NextRecognised(Commas(items[0].gap), ']', EntryRest(items, y));
      ElementRecognised(items, end, x);
    }
  }

  // -- objects

  /** The key's token. */
  function KeyPiece(m: Member): Piece
    requires m.key.Str? || m.key.Name?
  {
    if m.key.Str? then Text(JsonBody(m.key.body)) else WordPiece(m.key.name, Inline(m.before))
  }

  lemma KeySound(m: Member)
    requires m.key.Str? || m.key.Name?
    ensures KeyPiece(m) == Text(true) <==> Sound(m.key) && (m.key.Name? && IsConstant(m.key.name) ==> Inline(m.before))
  {
  }

  /** The tokens after a key, and after its colon. */
  function KeyRest(m: Member, x: string): seq<Piece> { Past(m.before, [Punct(':')] + (Repeat(Commas(m.after)) + ValueRest(m, x))) }

  function ValueRest(m: Member, x: string): seq<Piece> { Past(m.after, Scan(Write(m.value, x))) }

  lemma KeyScans(m: Member, x: string)
    requires LegalMember(m, x)
    ensures Scan(WriteMember(m, x)) == [KeyPiece(m)] + (Repeat(Commas(m.before)) + KeyRest(m, x))
  {
    var z := m.after + Write(m.value, x);
    var y := m.before + (":" + z);
    if m.key.Str? {
      StrScans(m.key.body, y);
    } else {
      NameScans(m.key.name, y);
      GapBeforeColon(m.before, z);
    }
    GapScans(m.before, ":" + z);
    MarkScans(':', z);
    GapScans(m.after, Write(m.value, x));
  }

  /** The tokens from a member's key on, unless a comment comes first. */
  function MemberRest(members: seq<Member>, x: string): seq<Piece>
    requires members != []
  {
    Past(members[0].gap, Scan(WriteMember(members[0], WriteMembers(members[1..], x))))
  }

  lemma MemberScans(members: seq<Member>, x: string)
    requires members != [] && LegalMembers(members, x)
    ensures Scan(WriteMembers(members, x)) == Repeat(Commas(members[0].gap)) + MemberRest(members, x)
    ensures var ps := MemberRest(members, x); ps != [] && ps[0] != Punct(',') && ps[0] != Punct('}')
  {
    GapScans(members[0].gap, WriteMember(members[0], WriteMembers(members[1..], x)));
    KeyScans(members[0], WriteMembers(members[1..], x));
  }

  lemma MemberHead(members: seq<Member>, x: string)
    requires members != [] && LegalMembers(members, x)
    ensures !Next(Scan(WriteMembers(members, x)), '}')
  {
    MemberScans(members, x);
    CommaFirst(Commas(members[0].gap), MemberRest(members, x));
  }

  lemma {:induction false} MembersRecognised(members: seq<Member>, end: Gap, x: string)
    requires members != [] && GapOk(end) && LegalMembers(members, Tail(end, '}', x))
    ensures AfterMembers(Scan(WriteMembers(members, Tail(end, '}', x)))) ==
            if SoundMembers(members, 0) && Plain(end, 0) then Some(Scan(x)) else None
    decreases members, 3
  {
    var y := Tail(end, '}', x);
    MemberScans(members, y);
    CommaFirst(Commas(members[0].gap), MemberRest(members, y));
    MemberRecognised(members, end, x);
  }

  /** From the first key on. */
  lemma {:induction false} MemberRecognised(members: seq<Member>, end: Gap, x: string)
    requires members != [] && GapOk(end) && LegalMembers(members, Tail(end, '}', x))
    ensures AfterMembers(MemberRest(members, Tail(end, '}', x))) ==
            if '#' !in members[0].gap && SoundMember(members[0]) && SoundMembers(members[1..], 1) && Plain(end, 0)
            then Some(Scan(x)) else None
    decreases members, 2
  {
    var m, rest := members[0], WriteMembers(members[1..], Tail(end, '}', x));
    KeyScans(m, rest);
    KeySound(m);
    PairRecognised(m, rest);
    LiteralRecognised(m.value, rest);
    MoreMembers(members[1..], end, x);
  }

  /** A key, its colon and its value, with nothing else among them. */
  lemma PairRecognised(m: Member, x: string)
    requires m.key.Str? || m.key.Name?
    ensures var v := AfterValue(Scan(Write(m.value, x)));
            AfterMembers([KeyPiece(m)] + (Repeat(Commas(m.before)) + KeyRest(m, x))) ==
            if KeyPiece(m) == Text(true) && Plain(m.before, 0) && Plain(m.after, 0) && v.Some?
            then AfterItem(v.value, '}') else None
  {
    var key, tail := KeyPiece(m), KeyRest(m, x);
    var ps := [key] + (Repeat(Commas(m.before)) + tail);
    assert ps[1..] == Repeat(Commas(m.before)) + tail;
    CommaFirst(Commas(m.before), tail);
    CommaFirst(Commas(m.after), ValueRest(m, x));
    if Plain(m.before, 0) {
      assert ps[2..] == Repeat(Commas(m.after)) + ValueRest(m, x);
    }
  }

  lemma {:induction false} MoreMembers(members: seq<Member>, end: Gap, x: string)
    requires GapOk(end) && LegalMembers(members, Tail(end, '}', x))
    ensures AfterItem(Scan(WriteMembers(members, Tail(end, '}', x))), '}') ==
            if SoundMembers(members, 1) && Plain(end, 0) then Some(Scan(x)) else None
    decreases members, 4
  {
    if members == [] {
      EndScans(end, '}', x);
      EndRecognised(end, '}', Scan(x));
    } else {
      var y := Tail(end, '}', x);
      MemberScans(members, y);
      NextRecognised(Commas(members[0].gap), '}', MemberRest(members, y));
      MemberRecognised(members, end, x);
    }
  }

  // ------------------------------------------------------------ the results

  /** A literal's text converts to JSON exactly when the literal is sound. */
  lemma ConvertsToJsonIff(v: Literal)
    requires Legal(v, "")
    ensures ConvertsToJson(Write(v, "")) <==> Sound(v)
  {
    LiteralRecognised(v, "");
    ConvertsIffScanned(Write(v, ""));
  }

  // -- two legal literals that do not convert to JSON

  function Pair(gap: Gap, key: char, value: Literal): Member { Member(gap, Name([key]), "", " ", value) }

  lemma PairWrites(gap: Gap, key: char, value: Literal, x: string)
    requires IsLetter(key) && Legal(value, x)
    ensures WriteMember(Pair(gap, key, value), x) == [key, ':', ' '] + Write(value, x)
    ensures LegalMember(Pair(gap, key, value), x)
  {
    var m, rest := Pair(gap, key, value), Write(value, x);
    assert m.before + (":" + (m.after + rest)) == [':', ' '] + rest;
    assert [key] + ([':', ' '] + rest) == [key, ':', ' '] + rest;
  }

  lemma DigitPairWrites(gap: Gap, key: char, digit: char, x: string)
    requires IsLetter(key) && IsDigit(digit) && Stops(x, NumberChar)
    ensures WriteMember(Pair(gap, key, Num([digit])), x) == [key, ':', ' ', digit] + x
    ensures LegalMember(Pair(gap, key, Num([digit])), x)
  {
    PairWrites(gap, key, Num([digit]), x);
    assert [key, ':', ' '] + ([digit] + x) == [key, ':', ' ', digit] + x;
  }

  lemma OneMember(m: Member, x: string)
    ensures WriteMembers([m], x) == m.gap + WriteMember(m, x)
    ensures LegalMembers([m], x) <==> GapOk(m.gap) && LegalMember(m, x)
    ensures !Sound(m.value) ==> !SoundMembers([m], 0)
  {
    assert [m][1..] == [];
  }

  lemma TwoMembers(m: Member, n: Member, x: string)
    ensures WriteMembers([m, n], x) == m.gap + WriteMember(m, n.gap + WriteMember(n, x))
    ensures LegalMembers([m, n], x) <==>
            GapOk(m.gap) && LegalMember(m, n.gap + WriteMember(n, x)) && GapOk(n.gap) && LegalMember(n, x)
    ensures Commas(n.gap) != 1 ==> !SoundMembers([m, n], 0)
  {
    assert [m, n][1..] == [n];
    OneMember(n, x);
  }

  /** Two members with only a blank between. */
  lemma TwoPairs(a: char, d: char, b: char, e: char, x: string)
    requires IsLetter(a) && IsDigit(d) && IsLetter(b) && IsDigit(e) && Stops(x, NumberChar)
    ensures var ms := [Pair("", a, Num([d])), Pair(" ", b, Num([e]))];
            WriteMembers(ms, x) == [a, ':', ' ', d, ' ', b, ':', ' ', e] + x && LegalMembers(ms, x) && !SoundMembers(ms, 0)
  {
    var m, n := Pair("", a, Num([d])), Pair(" ", b, Num([e]));
    TwoMembers(m, n, x);
    DigitPairWrites(" ", b, e, x);
    var y := n.gap + WriteMember(n, x);
    DigitPairWrites("", a, d, y);
    assert m.gap + WriteMember(m, y) == [a, ':', ' ', d, ' ', b, ':', ' ', e] + x;
  }

  /** The literal written `{a: 1 b: 2}`: its members are apart, but no comma is between. */
  function Unseparated(): Literal { Object([Pair("", 'a', Num(['1'])), Pair(" ", 'b', Num(['2']))], "") }

  /** The literal written `{a: 1e5}`. */
  function Scientific(): Literal { Object([Pair("", 'a', Power("1", "e5"))], "") }

  /** A relation between texts and their conversions that holds token by token. */
  ghost predicate Closed(ok: (string, string) -> bool)
  {
    ok("", "") &&
    forall t: Token, x, y | ok(x, y) && TokenOk(t, x) :: ok(TokenText(t) + x, TokenJson(t, BeforeColon(x)) + y)
  }

  /** The conversion is one. */
  lemma TranslateIsClosed()
    ensures Closed((x, y) => Translate(x) == Converted(y))
  {
    forall t: Token, x, y | Translate(x) == Converted(y) && TokenOk(t, x)
      ensures Translate(TokenText(t) + x) == Converted(TokenJson(t, BeforeColon(x)) + y)
    {
      TokenReads(t, x);
      TranslateStep(TokenText(t) + x, x, TokenJson(t, BeforeColon(x)));
    }
  }

  lemma Prefixed(t: Token, ok: (string, string) -> bool, x: string, y: string, text: string, json: string)
    requires Closed(ok) && ok(x, y) && TokenOk(t, x)
    requires text == TokenText(t) + x && json == TokenJson(t, BeforeColon(x)) + y
    ensures ok(text, json)
  {
  }

  lemma MarkPrefixed(c: char, ok: (string, string) -> bool, x: string, y: string)
    requires Closed(ok) && ok(x, y) && Structural(c)
    ensures ok([c] + x, [c] + y)
  {
    Prefixed(Mark(c), ok, x, y, [c] + x, [c] + y);
  }

  lemma SpacePrefixed(ok: (string, string) -> bool, x: string, y: string)
    requires Closed(ok) && ok(x, y)
    ensures ok([' '] + x, [' '] + y)
  {
    Prefixed(Space(' '), ok, x, y, [' '] + x, [' '] + y);
  }

  lemma DigitPrefixed(d: char, ok: (string, string) -> bool, x: string, y: string)
    requires Closed(ok) && ok(x, y) && IsDigit(d) && Stops(x, NumberChar)
    ensures ok([d] + x, [d] + y)
  {
    Prefixed(Number([d]), ok, x, y, [d] + x, [d] + y);
  }

  lemma WordPrefixed(name: string, ok: (string, string) -> bool, x: string, y: string)
    requires Closed(ok) && ok(x, y) && IsName(name) && Stops(x, WordChar) && !IsConstant(name)
    ensures ok(name + x, "\"" + name + "\"" + y)
  {
    Prefixed(Word(name), ok, x, y, name + x, "\"" + name + "\"" + y);
  }

  /** A key of one letter and a number of one digit. */
  lemma PairPrefixed(key: char, digit: char, ok: (string, string) -> bool, x: string, y: string)
    requires Closed(ok) && ok(x, y) && IsLetter(key) && IsDigit(digit) && Stops(x, NumberChar)
    ensures ok([key, ':', ' ', digit] + x, ['"', key, '"', ':', ' ', digit] + y)
  {
    var s1, j1 := [digit] + x, [digit] + y;
    var s2, j2 := [' '] + s1, [' '] + j1;
    var s3, j3 := [':'] + s2, [':'] + j2;
    DigitPrefixed(digit, ok, x, y);
    SpacePrefixed(ok, s1, j1);
    MarkPrefixed(':', ok, s2, j2);
    WordPrefixed([key], ok, s3, j3);
    assert [key] + s3 == [key, ':', ' ', digit] + x;
    assert "\"" + [key] + "\"" + j3 == ['"', key, '"', ':', ' ', digit] + y;
  }

  /** Legal, converted without an error, and not JSON. */
  lemma UnseparatedIsNotJson(src: string)
    requires src == "{a: 1 b: 2}"
    ensures Legal(Unseparated(), "") && src == Write(Unseparated(), "")
    ensures Translate(src) == Converted("{\"a\": 1 \"b\": 2}") && !ConvertsToJson(src)
  {
    UnseparatedIsLegal(src);
    ConvertsToJsonIff(Unseparated());
    TranslateIsClosed();
    UnseparatedConverts((x, y) => Translate(x) == Converted(y));
  }

  lemma UnseparatedIsLegal(src: string)
    requires src == "{a: 1 b: 2}"
    ensures Legal(Unseparated(), "") && src == Write(Unseparated(), "") && !Sound(Unseparated())
  {
    var x := Tail("", '}', "");
    assert x == ['}'];
    TwoPairs('a', '1', 'b', '2', x);
  }

  lemma UnseparatedConverts(ok: (string, string) -> bool)
    requires Closed(ok)
    ensures ok("{a: 1 b: 2}", "{\"a\": 1 \"b\": 2}")
  {
    MarkPrefixed('}', ok, "", "");
    assert ['}'] + "" == "}";
    PairPrefixed('b', '2', ok, "}", "}");
    var x, y := "b: 2}", "\"b\": 2}";
    assert x == ['b', ':', ' ', '2'] + "}" && y == ['"', 'b', '"', ':', ' ', '2'] + "}";
    SpacePrefixed(ok, x, y);
    PairPrefixed('a', '1', ok, [' '] + x, [' '] + y);
    var x', y' := ['a', ':', ' ', '1'] + ([' '] + x), ['"', 'a', '"', ':', ' ', '1'] + ([' '] + y);
    MarkPrefixed('{', ok, x', y');
    assert "{a: 1 b: 2}" == ['{'] + x' && "{\"a\": 1 \"b\": 2}" == ['{'] + y';
  }

  lemma ScientificIsNotJson(src: string)
    requires src == "{a: 1e5}"
    ensures Legal(Scientific(), "") && src == Write(Scientific(), "")
    ensures Translate(src) == Converted("{\"a\": 1\"e5\"}") && !ConvertsToJson(src)
  {
    ScientificIsLegal(src);
    ConvertsToJsonIff(Scientific());
    TranslateIsClosed();
    ScientificConverts((x, y) => Translate(x) == Converted(y));
  }

  lemma ScientificIsLegal(src: string)
    requires src == "{a: 1e5}"
    ensures Legal(Scientific(), "") && src == Write(Scientific(), "") && !Sound(Scientific())
  {
    var m, x := Pair("", 'a', Power("1", "e5")), Tail("", '}', "");
    assert x == "}";
    OneMember(m, x);
    PairWrites("", 'a', Power("1", "e5"), x);
    assert "" + WriteMember(m, x) == "a: 1e5}";
  }

  lemma ScientificConverts(ok: (string, string) -> bool)
    requires Closed(ok)
    ensures ok("{a: 1e5}", "{\"a\": 1\"e5\"}")
  {
    MarkPrefixed('}', ok, "", "");
    assert ['}'] + "" == "}";
    WordPrefixed("e5", ok, "}", "}");
    var x, y := "e5}", "\"e5\"}";
    assert x == "e5" + "}" && y == "\"" + "e5" + "\"" + "}";
    PairPrefixed('a', '1', ok, x, y);
    var x', y' := ['a', ':', ' ', '1'] + x, ['"', 'a', '"', ':', ' ', '1'] + y;
    MarkPrefixed('{', ok, x', y');
    assert "{a: 1e5}" == ['{'] + x' && "{\"a\": 1\"e5\"}" == ['{'] + y';
  }
}

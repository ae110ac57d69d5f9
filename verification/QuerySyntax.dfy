/** What the query parser reads, as functions from the unread input to a value
    and the input left over.  `QueryParser` shows that the cursor-moving parser
    computes these; `QueryRender` shows they accept every rendered document. */
module QuerySyntax {
  import opened Common
  import opened QueryAst

  datatype Parsed<+T> = Ok(value: T, rest: string) | Bad

  /** Items already read, put in front of the items still to come. */
  function Prepend<T>(items: seq<T>, more: Parsed<seq<T>>): Parsed<seq<T>>
  {
    if more.Bad? then Bad else Ok(items + more.value, more.rest)
  }

  lemma PrependNothing<T>(more: Parsed<seq<T>>)
    ensures Prepend([], more) == more
  {
    assert more.Ok? ==> [] + more.value == more.value;
  }

  lemma PrependOne<T>(items: seq<T>, item: T, more: Parsed<seq<T>>)
    ensures Prepend(items, Prepend([item], more)) == Prepend(items + [item], more)
  {
    assert more.Ok? ==> items + ([item] + more.value) == items + [item] + more.value;
  }

  // ------------------------------------------------------------- tokens

  predicate Blank(c: char) { c == ' ' || c == '\t' || c == '\n' || c == '\r' || c == ',' }

  predicate NameChar(c: char)
  {
    'a' <= c <= 'z' || 'A' <= c <= 'Z' || IsDigit(c) || c == '_'
  }

  predicate Starts(s: string, c: char) { s != [] && s[0] == c }

  function DropComment(s: string): (r: string)
    ensures |r| <= |s| && (s != [] && s[0] != '\n' ==> |r| < |s|)
  {
    if s == [] || s[0] == '\n' then s else DropComment(s[1..])
  }

  function SkipWS(s: string): (r: string)
    ensures |r| <= |s|
    decreases |s|
  {
    if s == [] then s
    else if Blank(s[0]) then SkipWS(s[1..])
    else if s[0] == '#' then SkipWS(DropComment(s))
    else s
  }

  function NameOf(s: string): string
  {
    if s == [] || !NameChar(s[0]) then [] else [s[0]] + NameOf(s[1..])
  }

  function DropName(s: string): (r: string)
    ensures |r| == |s| - |NameOf(s)|
  {
    if s == [] || !NameChar(s[0]) then s else DropName(s[1..])
  }

  function ReadName(s: string): string { NameOf(SkipWS(s)) }

  function AfterName(s: string): (r: string)
    ensures |r| <= |s| - |ReadName(s)|
  {
    DropName(SkipWS(s))
  }

  /** Just past `c`, if `c` is the next token. */
  function Expect(s: string, c: char): Parsed<()>
  {
    if Starts(SkipWS(s), c) then Ok((), SkipWS(s)[1..]) else Bad
  }

  // ------------------------------------------------- strings and spans

  const TRIPLE: string := "\"\"\""

  /** Past the next block-string delimiter. */
  function AfterTriple(s: string): (r: Option<string>)
    ensures r.Some? ==> |r.value| < |s|
  {
    if |s| < 3 then None
    else if s[..3] == TRIPLE then Some(s[3..])
    else AfterTriple(s[1..])
  }

  /** Past the closing quote of a string body; a backslash takes its successor along. */
  function AfterBody(s: string): (r: Option<string>)
    ensures r.Some? ==> |r.value| < |s|
    decreases |s|
  {
    if s == [] then None
    else if s[0] == '\\' then (if |s| == 1 then None else AfterBody(s[2..]))
    else if s[0] == '"' then Some(s[1..])
    else AfterBody(s[1..])
  }

  /** Past the string literal that starts here. */
  function AfterString(s: string): (r: Option<string>)
    requires Starts(s, '"')
    ensures r.Some? ==> |r.value| < |s|
  {
    if TRIPLE <= s then AfterTriple(s[3..]) else AfterBody(s[1..])
  }

  /** The text read between two points of the input. */
  function Taken(s: string, rest: string): string
    requires |rest| <= |s|
  {
    s[..|s| - |rest|]
  }

  // What a literal or a span consumes is a prefix that ends in its delimiter.

  lemma {:induction false} BodyEnds(s: string)
    requires AfterBody(s).Some?
    ensures var r := AfterBody(s).value; r == s[|s| - |r|..] && s[|s| - |r| - 1] == '"'
    decreases |s|
  {
    if s[0] == '\\' {
      BodyEnds(s[2..]);
    } else if s[0] != '"' {
      BodyEnds(s[1..]);
    }
  }

  lemma {:induction false} TripleEnds(s: string)
    requires AfterTriple(s).Some?
    ensures var r := AfterTriple(s).value; r == s[|s| - |r|..] && s[|s| - |r| - 1] == '"'
  {
    if s[..3] == TRIPLE {
      assert s[2] == s[..3][2];
    } else {
      TripleEnds(s[1..]);
    }
  }

  lemma StringEnds(s: string)
    requires Starts(s, '"') && AfterString(s).Some?
    ensures var r := AfterString(s).value; r == s[|s| - |r|..] && s[|s| - |r| - 1] == '"'
  {
    if TRIPLE <= s {
      TripleEnds(s[3..]);
    } else {
      BodyEnds(s[1..]);
    }
  }

  lemma {:induction false} BalanceEnds(s: string, open: char, close: char, depth: int)
    requires Balance(s, open, close, depth).Ok?
    ensures s[|s| - |Balance(s, open, close, depth).rest| - 1] == close
    decreases |s|
  {
    if s[0] == open {
      BalanceEnds(s[1..], open, close, depth + 1);
    } else if s[0] == close {
      if depth != 1 {
        BalanceEnds(s[1..], open, close, depth - 1);
      }
    } else if s[0] == '"' {
      StringEnds(s);
      BalanceEnds(AfterString(s).value, open, close, depth);
    } else {
      BalanceEnds(s[1..], open, close, depth);
    }
  }

  function ReadString(s: string): (r: Parsed<string>)
    requires Starts(s, '"')
    ensures r.Ok? ==> |r.rest| < |s| && SafeRaw(r.value)
  {
    var r := AfterString(s);
    if r.None? then Bad
    else
      StringEnds(s);
      Ok(Taken(s, r.value), r.value)
  }

  /** Rest of the input after the `close` that brings `depth` back to zero. */
  function Balance(s: string, open: char, close: char, depth: int): (r: Parsed<()>)
    ensures r.Ok? ==> |r.rest| < |s|
    decreases |s|
  {
    if s == [] then Bad
    else if s[0] == open then Balance(s[1..], open, close, depth + 1)
    else if s[0] == close then
      if depth == 1 then Ok((), s[1..]) else Balance(s[1..], open, close, depth - 1)
    else if s[0] == '"' then
      var t := AfterString(s);
      if t.None? then Bad
      else
        Balance(t.value, open, close, depth)
    else Balance(s[1..], open, close, depth)
  }

  function SkipBalanced(s: string, open: char, close: char): (r: Parsed<()>)
    ensures r.Ok? ==> |r.rest| < |s|
  {
    if Starts(s, open) then Balance(s, open, close, 0) else Bad
  }

  // --------------------------------------------------- argument values

  /** The executor scans raw values with a two-byte escape skip, which stays in
      range because no raw value ends in a backslash. */
  predicate SafeRaw(raw: string) { raw != [] && raw[|raw| - 1] != '\\' }

  predicate SafeArgs(args: map<string, ArgValue>)
  {
    forall k | k in args :: SafeRaw(args[k].raw)
  }

  function DropDigits(s: string): (r: string)
    ensures |r| <= |s|
    ensures forall i | 0 <= i < |s| - |r| :: IsDigit(s[i])
  {
    if s == [] || !IsDigit(s[0]) then s else DropDigits(s[1..])
  }

  function DropWhole(s: string): (r: string)
    ensures |r| <= |s|
  {
    DropDigits(if Starts(s, '-') then s[1..] else s)
  }

  function ReadNumber(s: string): (r: Parsed<ArgValue>)
    requires Starts(s, '-') || (s != [] && IsDigit(s[0]))
    ensures r.Ok? && |r.rest| < |s| && SafeRaw(r.value.raw)
  {
    var t := DropWhole(s);
    var r := if Starts(t, '.') then DropDigits(t[1..]) else t;
    NumberTail(s);
    Ok(ArgValue(if Starts(t, '.') then None else Atoi(Taken(s, r)), Taken(s, r)), r)
  }

  lemma {:induction false} DropDigitsIsSuffix(s: string)
    ensures DropDigits(s) == s[|s| - |DropDigits(s)|..]
  {
    if s != [] && IsDigit(s[0]) {
      DropDigitsIsSuffix(s[1..]);
    }
  }

  lemma FractionTail(s: string, t: string)
    requires |t| <= |s| && t == s[|s| - |t|..] && Starts(t, '.')
    ensures SafeRaw(Taken(s, DropDigits(t[1..])))
  {
    var r := DropDigits(t[1..]);
    DropDigitsIsSuffix(t[1..]);
    assert s[|s| - |r| - 1] == t[|t| - |r| - 1];
  }

  lemma NumberTail(s: string)
    requires Starts(s, '-') || (s != [] && IsDigit(s[0]))
    ensures var t := DropWhole(s);
            var r := if Starts(t, '.') then DropDigits(t[1..]) else t;
            |r| < |s| && SafeRaw(Taken(s, r))
  {
    var u := if Starts(s, '-') then s[1..] else s;
    var t := DropWhole(s);
    DropDigitsIsSuffix(u);
    assert |t| < |u| ==> s[|s| - |t| - 1] == u[|u| - |t| - 1];
    if Starts(t, '.') {
      assert t == s[|s| - |t|..];
      FractionTail(s, t);
    }
  }

  function Span(s: string, open: char, close: char): (r: Parsed<ArgValue>)
    requires close != '\\'
    ensures r.Ok? ==> |r.rest| < |s| && SafeRaw(r.value.raw)
  {
    var r := SkipBalanced(s, open, close);
    if r.Bad? then Bad
    else
      BalanceEnds(s, open, close, 0);
      Ok(ArgValue(None, Taken(s, r.rest)), r.rest)
  }

  function ReadValue(s: string): (r: Parsed<ArgValue>)
    ensures r.Ok? ==> |r.rest| < |s| && SafeRaw(r.value.raw)
  {
    var t := SkipWS(s);
    if t == [] then Bad
    else if t[0] == '$' then
      NameTail(t[1..]);
      Ok(ArgValue(None, "$" + ReadName(t[1..])), AfterName(t[1..]))
    else if t[0] == '"' then
      var r := ReadString(t);
      if r.Bad? then Bad else Ok(ArgValue(None, r.value), r.rest)
    else if t[0] == '[' then Span(t, '[', ']')
    else if t[0] == '{' then Span(t, '{', '}')
    else if t[0] == '-' || IsDigit(t[0]) then ReadNumber(t)
    else
      NameTail(t);
      if ReadName(t) == [] then Bad else Ok(ArgValue(None, ReadName(t)), AfterName(t))
  }

  lemma {:induction false} NameChars(s: string)
    ensures forall c | c in NameOf(s) :: NameChar(c)
  {
    if s != [] && NameChar(s[0]) {
      NameChars(s[1..]);
    }
  }

  lemma NameTail(s: string)
    ensures SafeRaw("$" + ReadName(s)) && (ReadName(s) != [] ==> SafeRaw(ReadName(s)))
  {
    NameChars(SkipWS(s));
    var n := ReadName(s);
    assert n != [] ==> n[|n| - 1] in n;
  }

  /** The rest of an argument list, added to the arguments read so far. */
  function ReadArgs(s: string, into: map<string, ArgValue>): (r: Parsed<map<string, ArgValue>>)
    ensures r.Ok? ==> |r.rest| < |s| && (SafeArgs(into) ==> SafeArgs(r.value))
    decreases |s|
  {
    var t := SkipWS(s);
    if t == [] then Bad
    else if t[0] == ')' then Ok(into, t[1..])
    else if ReadName(t) == [] then Bad
    else
      var c := Expect(AfterName(t), ':');
      if c.Bad? then Bad
      else
        var v := ReadValue(c.rest);
        if v.Bad? then Bad else ReadArgs(v.rest, into[ReadName(t) := v.value])
  }

  lemma {:induction false} SkipTwice(s: string)
    ensures SkipWS(SkipWS(s)) == SkipWS(s)
    decreases |s|
  {
    if s != [] {
      if Blank(s[0]) {
        SkipTwice(s[1..]);
      } else if s[0] == '#' {
        SkipTwice(DropComment(s));
      }
    }
  }

  lemma SkipTwiceArgs(s: string, into: map<string, ArgValue>)
    ensures SkipWS(SkipWS(s)) == SkipWS(s)
    ensures ReadArgs(SkipWS(s), into) == ReadArgs(s, into)
  {
    SkipTwice(s);
  }

  // --------------------------------------------------------- directives

  /** A run of directives; `s` and the result have no leading ignored tokens. */
  function ReadDirectives(s: string): (r: Parsed<seq<string>>)
    ensures r.Ok? ==> |r.rest| <= |s|
    decreases |s|
  {
    if !Starts(s, '@') then Ok([], s)
    else
      var t := SkipWS(AfterName(s[1..]));
      var u := SkipOptional(t);
      if u.Bad? then Bad
      else
        Prepend([ReadName(s[1..])], ReadDirectives(SkipWS(u.rest)))
  }

  // --------------------------------------------------------- selections

  /** Field name and alias; the rest has no leading ignored tokens. */
  function ReadHead(s: string): (r: Parsed<(string, string)>)
    ensures r.Ok? ==> |r.rest| < |s|
  {
    var first, t := ReadName(s), SkipWS(AfterName(s));
    if first == [] then Bad
    else if !Starts(t, ':') then Ok((first, ""), t)
    else
      var u := SkipWS(t[1..]);
      if ReadName(u) == [] then Bad else Ok((ReadName(u), first), SkipWS(AfterName(u)))
  }

  function ReadOptionalArgs(s: string): (r: Parsed<map<string, ArgValue>>)
    ensures r.Ok? ==> |r.rest| <= |s| && SafeArgs(r.value)
  {
    if Starts(s, '(') then ReadArgs(s[1..], map[]) else Ok(map[], s)
  }

  /** A parenthesised span that may be absent. */
  function SkipOptional(s: string): (r: Parsed<()>)
    ensures r.Ok? ==> |r.rest| <= |s|
  {
    if Starts(s, '(') then SkipBalanced(s, '(', ')') else Ok((), s)
  }

  predicate SafeSels(sels: seq<Selection>)
  {
    forall i | 0 <= i < |sels| :: SafeSel(sels[i])
  }

  predicate SafeSel(s: Selection)
  {
    match s
    case FieldSel(f) => SafeArgs(f.args) && SafeSels(f.sels)
    case Inline(_, sels) => SafeSels(sels)
    case Spread(_) => true
  }

  function ReadSet(s: string): (r: Parsed<seq<Selection>>)
    ensures r.Ok? ==> |r.rest| < |s| && SafeSels(r.value)
    decreases |s|, 0
  {
    var o := Expect(s, '{');
    if o.Bad? then Bad else ReadSels(o.rest)
  }

  /** The selections up to the closing brace. */
  function ReadSels(s: string): (r: Parsed<seq<Selection>>)
    ensures r.Ok? ==> |r.rest| < |s| && SafeSels(r.value)
    decreases |s|, 3
  {
    var t := SkipWS(s);
    if t == [] then Bad
    else if t[0] == '}' then Ok([], t[1..])
    else
      var one := ReadSel(t);
      if one.Bad? then Bad
      else
        Prepend([one.value], ReadSels(one.rest))
  }

  function ReadSel(t: string): (r: Parsed<Selection>)
    requires t != []
    ensures r.Ok? ==> |r.rest| < |t| && SafeSel(r.value)
    decreases |t|, 2
  {
    if "..." <= t then
      var u := SkipWS(t[3..]);
      if ReadName(u) == "on" then
        var v := AfterName(u);
        var d := ReadDirectives(SkipWS(AfterName(v)));
        if d.Bad? then Bad
        else
          var set_ := ReadSet(d.rest);
          if set_.Bad? then Bad else Ok(Inline(ReadName(v), set_.value), set_.rest)
      else Ok(Spread(ReadName(u)), AfterName(u))
    else
      var f := ReadField(t);
      if f.Bad? then Bad else Ok(FieldSel(f.value), f.rest)
  }

  /** A field up to its selection set. */
  function ReadFlatField(s: string): (r: Parsed<Field>)
    ensures r.Ok? ==> |r.rest| < |s| && SafeArgs(r.value.args) && r.value.sels == []
  {
    var head := ReadHead(s);
    if head.Bad? then Bad
    else
      var args := ReadOptionalArgs(head.rest);
      if args.Bad? then Bad
      else
        var d := ReadDirectives(SkipWS(args.rest));
        if d.Bad? then Bad else Ok(Field(head.value.0, head.value.1, args.value, d.value, []), d.rest)
  }

  function ReadField(s: string): (r: Parsed<Field>)
    ensures r.Ok? ==> |r.rest| < |s| && SafeArgs(r.value.args) && SafeSels(r.value.sels)
    decreases |s|, 1
  {
    var flat := ReadFlatField(s);
    if flat.Bad? then Bad
    else
      var sub := if Starts(flat.rest, '{') then ReadSet(flat.rest) else Ok([], flat.rest);
      if sub.Bad? then Bad else Ok(flat.value.(sels := sub.value), sub.rest)
  }

  // -------------------------------------------------------- definitions

  function ReadOperation(s: string, kind: OperationKind): (r: Parsed<Operation>)
    ensures r.Ok? ==> |r.rest| < |s| && SafeSels(r.value.sels)
  {
    var t := SkipWS(AfterName(s));
    var vars := SkipOptional(t);
    if vars.Bad? then Bad
    else
      var d := ReadDirectives(SkipWS(vars.rest));
      if d.Bad? then Bad
      else
        var sels := ReadSet(d.rest);
        if sels.Bad? then Bad else Ok(Operation(kind, ReadName(s), sels.value), sels.rest)
  }

  function ReadFragment(s: string): (r: Parsed<Fragment>)
    ensures r.Ok? ==> |r.rest| < |s| && SafeSels(r.value.sels) && r.value.onType != ""
  {
    var t := AfterName(s);
    var u := AfterName(t);
    if ReadName(s) == "" || ReadName(t) != "on" || ReadName(u) == "" then Bad
    else
      var sels := ReadSet(AfterName(u));
      if sels.Bad? then Bad else Ok(Fragment(ReadName(s), ReadName(u), sels.value), sels.rest)
  }

  predicate SafeDocument(doc: Document)
  {
    && (forall op | op in doc.operations :: SafeSels(op.sels))
    && (forall n | n in doc.fragments :: SafeSels(doc.fragments[n].sels) && doc.fragments[n].onType != "")
  }

  /** The remaining top-level definitions, added to those read so far. */
  function ReadDefinitions(s: string, doc: Document): (r: Parsed<Document>)
    ensures r.Ok? && SafeDocument(doc) ==> SafeDocument(r.value)
    decreases |s|
  {
    if s == [] then Ok(doc, s)
    else
      var kw, t := ReadName(s), AfterName(s);
      if kw == "query" || kw == "mutation" then
        var op := ReadOperation(t, if kw == "mutation" then OpMutation else OpQuery);
        if op.Bad? then Bad
        else ReadDefinitions(SkipWS(op.rest), doc.(operations := doc.operations + [op.value]))
      else if kw == "fragment" then
        var f := ReadFragment(t);
        if f.Bad? then Bad
        else ReadDefinitions(SkipWS(f.rest), doc.(fragments := doc.fragments[f.value.name := f.value]))
      else Bad
  }

  function ReadDocument(src: string): (r: Parsed<Document>)
    ensures r.Ok? ==> SafeDocument(r.value) && r.value.operations != []
  {
    var s := SkipWS(src);
    if Starts(s, '{') then
      var sels := ReadSet(s);
      if sels.Bad? then Bad
      else if SkipWS(sels.rest) != [] then Bad
      else Ok(Document([Operation(OpQuery, "", sels.value)], map[]), [])
    else
      var doc := ReadDefinitions(s, Document([], map[]));
      if doc.Bad? || doc.value.operations == [] then Bad else doc
  }
}

/** The parser accepts nothing but rendered documents: whatever it reads, a concrete document
    with that text and that meaning can be given.  With the converse, the texts of `Text`
    are exactly the accepted ones.  Each lemma rebuilds what one reader has read, in front
    of what it left over. */
module QueryAccepts {
  import opened Common
  import opened QueryAst
  import opened QuerySyntax
  import opened QueryRender
  import opened QuerySpans

  // --------------------------------------------------------------- ignored

  lemma {:induction false} CommentOf(s: string) returns (t: string)
    ensures '\n' !in t && s == t + DropComment(s)
    ensures DropComment(s) == [] || DropComment(s)[0] == '\n'
  {
    if s == [] || s[0] == '\n' {
      t := [];
    } else {
      var rest := CommentOf(s[1..]);
      t := [s[0]] + rest;
    }
  }

  lemma SpaceCons(c: char, g: Gap, x: string)
    requires GapOk(g) && Blank(c)
    ensures GapOk([Space(c)] + g) && GapText([Space(c)] + g, x) == [c] + GapText(g, x)
  {
    assert ([Space(c)] + g)[1..] == g;
  }

  lemma CommentCons(t: string, g: Gap, x: string)
    requires GapOk(g) && '\n' !in t
    ensures GapOk([Comment(t)] + g) && GapText([Comment(t)] + g, x) == ['#'] + (t + (['\n'] + GapText(g, x)))
  {
    assert ([Comment(t)] + g)[1..] == g;
  }

  lemma CommentSplits(s: string, t: string, d: string)
    requires Starts(s, '#') && s[1..] == t + d && d != [] && d[0] == '\n'
    ensures s == ['#'] + (t + (['\n'] + d[1..])) && |d| <= |s|
  {
    assert d == ['\n'] + d[1..];
    assert s == ['#'] + s[1..];
  }

  lemma CommentSkips(s: string, d: string)
    requires Starts(s, '#') && DropComment(s) == d && d != [] && d[0] == '\n'
    ensures SkipWS(s) == SkipWS(d[1..])
  {
  }

  /** A comment that something follows ends in a line break. */
  lemma CommentGap(s: string) returns (t: string, rest: string)
    requires Starts(s, '#') && DropComment(s) != []
    ensures '\n' !in t && s == ['#'] + (t + (['\n'] + rest)) && |rest| < |s| && SkipWS(s) == SkipWS(rest)
  {
    t := CommentOf(s[1..]);
    var d := DropComment(s);
    assert d == DropComment(s[1..]);
    rest := d[1..];
    CommentSplits(s, t, d);
    CommentSkips(s, d);
  }

  lemma {:induction false} GapOf(s: string) returns (g: Gap)
    requires SkipWS(s) != []
    ensures GapOk(g) && GapText(g, SkipWS(s)) == s && Solid(SkipWS(s))
    decreases |s|
  {
    if Blank(s[0]) {
      var rest := GapOf(s[1..]);
      SpaceCons(s[0], rest, SkipWS(s));
      g := [Space(s[0])] + rest;
      assert s == [s[0]] + s[1..];
    } else if s[0] == '#' {
      var t, rest := CommentGap(s);
      var more := GapOf(rest);
      CommentCons(t, more, SkipWS(s));
      g := [Comment(t)] + more;
    } else {
      g := [];
    }
  }

  /** Nothing but ignored tokens, the last of them perhaps a comment without a line break. */
  lemma {:induction false} EndOf(s: string) returns (e: End)
    requires SkipWS(s) == []
    ensures EndOk(e) && EndText(e) == s
    decreases |s|
  {
    if s == [] {
      e := End([], None);
    } else if Blank(s[0]) {
      var rest := EndOf(s[1..]);
      SpaceCons(s[0], rest.gap, if rest.comment.None? then "" else ['#'] + rest.comment.value);
      e := End([Space(s[0])] + rest.gap, rest.comment);
      assert s == [s[0]] + s[1..];
    } else if DropComment(s) == [] {
      var t := CommentOf(s[1..]);
      assert DropComment(s) == DropComment(s[1..]);
      assert s == ['#'] + t;
      e := End([], Some(t));
    } else {
      var t, rest := CommentGap(s);
      var more := EndOf(rest);
      CommentCons(t, more.gap, if more.comment.None? then "" else ['#'] + more.comment.value);
      e := End([Comment(t)] + more.gap, more.comment);
    }
  }

  // ----------------------------------------------------------------- names

  lemma {:induction false} NameStops(s: string)
    ensures StopsName(DropName(s))
  {
    if s != [] && NameChar(s[0]) {
      NameStops(s[1..]);
    }
  }

  lemma {:induction false} NameAndRest(s: string)
    ensures s == NameOf(s) + DropName(s)
  {
    if s != [] && NameChar(s[0]) {
      NameAndRest(s[1..]);
      assert s == [s[0]] + s[1..];
    }
  }

  lemma NameSplit(s: string)
    ensures s == NameOf(s) + DropName(s) && StopsName(DropName(s)) && forall c | c in NameOf(s) :: NameChar(c)
  {
    NameAndRest(s);
    NameStops(s);
    NameChars(s);
  }

  /** A name, or none, and what was ignored before it. */
  lemma MaybeNameOf(s: string) returns (g: Gap)
    requires SkipWS(s) != []
    ensures GapOk(g) && GapText(g, ReadName(s) + AfterName(s)) == s && NameEnds(ReadName(s), AfterName(s))
    ensures |AfterName(s)| <= |s|
  {
    g := GapOf(s);
    NameSplit(SkipWS(s));
    SkipTwice(s);
  }

  // ---------------------------------------------------------------- values

  lemma Unit(u: ())
    ensures u == ()
  {
    match u
    case () =>
  }

  lemma SpanOf(s: string, b: Brackets) returns (items: seq<Item>)
    requires BracketsOk(b) && SkipBalanced(s, b.open, b.close).Ok?
    ensures var x := SkipBalanced(s, b.open, b.close).rest;
            ItemsOk(items, b, [b.close] + x) && s == SpanText(items, b, x)
  {
    var x := SkipBalanced(s, b.open, b.close).rest;
    Unit(SkipBalanced(s, b.open, b.close).value);
    SpanReadsIff(s, b, x);
    items :| ItemsOk(items, b, [b.close] + x) && s == SpanText(items, b, x);
  }

  /** The value that stands here, with its ignored tokens already skipped. */
  ghost predicate IsValue(t: string, v: Value)
  {
    var r := ReadValue(t);
    r.Ok? && ValueOk(v, r.rest) && ValueText(v, r.rest) == t && ValueAst(v) == r.value
  }

  /** A value's text fixes what the parser reports of it. */
  lemma ValueIs(t: string, v: Value)
    requires ReadValue(t).Ok? && ValueOk(v, ReadValue(t).rest) && ValueText(v, ReadValue(t).rest) == t
    ensures IsValue(t, v)
  {
    BareValueReads(v, ReadValue(t).rest);
  }

  lemma NothingAfter(u: string)
    ensures SkipWS(u) == [] ==> AfterName(u) == []
  {
  }

  lemma VariableOf(t: string) returns (v: Value)
    requires Starts(t, '$') && ReadValue(t).Ok? && SkipWS(ReadValue(t).rest) != []
    ensures ValueOk(v, ReadValue(t).rest) && ValueText(v, ReadValue(t).rest) == t
  {
    var u := t[1..];
    NothingAfter(u);
    var g := MaybeNameOf(u);
    v := Variable(g, ReadName(u));
    assert t == ['$'] + u;
  }

  lemma StringOf(t: string) returns (v: Value)
    requires Starts(t, '"') && ReadValue(t).Ok?
    ensures ValueOk(v, ReadValue(t).rest) && ValueText(v, ReadValue(t).rest) == t
  {
    assert SkipWS(t) == t;
    var x := ReadValue(t).rest;
    var l := LiteralOf(t);
    v := StringValue(l);
    LiteralAppends(l, "", x);
    assert "" + x == x;
  }

  lemma SpanValue(t: string, b: Brackets)
    requires (b == SQUARE || b == CURLY) && Starts(t, b.open) && ReadValue(t).Ok?
    ensures SkipBalanced(t, b.open, b.close).Ok? && ReadValue(t).rest == SkipBalanced(t, b.open, b.close).rest
  {
    assert SkipWS(t) == t;
  }

  lemma SpanSplits(items: seq<Item>, b: Brackets, x: string)
    ensures SpanText(items, b, "") + x == SpanText(items, b, x)
  {
    ItemsAppend(items, b, [b.close] + "", x);
    assert ([b.close] + "") + x == [b.close] + x;
  }

  lemma BracketedOf(t: string, b: Brackets) returns (items: seq<Item>)
    requires (b == SQUARE || b == CURLY) && Starts(t, b.open) && ReadValue(t).Ok?
    ensures var x := ReadValue(t).rest; ItemsOk(items, b, [b.close] + x) && SpanText(items, b, "") + x == t
  {
    SpanValue(t, b);
    items := SpanOf(t, b);
    SpanSplits(items, b, ReadValue(t).rest);
  }

  lemma {:induction false} DigitsOf(s: string) returns (n: string)
    ensures AllDigits(n) && s == n + DropDigits(s) && StopsDigits(DropDigits(s))
    ensures s != [] && IsDigit(s[0]) ==> n != []
  {
    if s == [] || !IsDigit(s[0]) {
      n := [];
    } else {
      var rest := DigitsOf(s[1..]);
      n := [s[0]] + rest;
      assert s == [s[0]] + s[1..];
    }
  }

  /** Sign and digits before a possible point. */
  lemma WholeOf(t: string) returns (negative: bool, whole: string)
    requires Starts(t, '-') || (t != [] && IsDigit(t[0]))
    ensures t == Sign(negative) + (whole + DropWhole(t)) && AllDigits(whole) && (negative || whole != [])
    ensures StopsDigits(DropWhole(t))
  {
    negative := t[0] == '-';
    whole := DigitsOf(if negative then t[1..] else t);
    if negative {
      assert t == "-" + t[1..];
    } else {
      assert t == "" + t;
    }
  }

  lemma IntOf(t: string) returns (v: Value)
    requires (Starts(t, '-') || (t != [] && IsDigit(t[0]))) && !Starts(DropWhole(t), '.')
    ensures ValueOk(v, DropWhole(t)) && ValueText(v, DropWhole(t)) == t
  {
    var negative, whole := WholeOf(t);
    v := IntValue(negative, whole);
    Joined(Sign(negative), whole, DropWhole(t));
  }

  lemma Joined(a: string, b: string, c: string)
    ensures a + (b + c) == (a + b) + c
  {
  }

  lemma FloatText(negative: bool, whole: string, fraction: string, x: string)
    ensures Sign(negative) + (whole + (['.'] + (fraction + x))) == ValueText(FloatValue(negative, whole, fraction), x)
  {
    Joined(['.'], fraction, x);
    Joined(whole, ['.'] + fraction, x);
    Joined(Sign(negative), whole + (['.'] + fraction), x);
  }

  lemma FloatOf(t: string) returns (v: Value)
    requires (Starts(t, '-') || (t != [] && IsDigit(t[0]))) && Starts(DropWhole(t), '.')
    ensures var x := DropDigits(DropWhole(t)[1..]); ValueOk(v, x) && ValueText(v, x) == t
  {
    var negative, whole := WholeOf(t);
    var rest := DropWhole(t);
    var fraction := DigitsOf(rest[1..]);
    assert rest == ['.'] + rest[1..];
    v := FloatValue(negative, whole, fraction);
    FloatText(negative, whole, fraction, DropDigits(rest[1..]));
  }

  lemma NumberRest(t: string)
    requires Starts(t, '-') || (t != [] && IsDigit(t[0]))
    ensures ReadValue(t).Ok?
    ensures ReadValue(t).rest == if Starts(DropWhole(t), '.') then DropDigits(DropWhole(t)[1..]) else DropWhole(t)
  {
    NumberIsValue(t);
  }

  lemma NumberOf(t: string) returns (v: Value)
    requires Starts(t, '-') || (t != [] && IsDigit(t[0]))
    ensures ReadValue(t).Ok? && ValueOk(v, ReadValue(t).rest) && ValueText(v, ReadValue(t).rest) == t
  {
    NumberRest(t);
    if Starts(DropWhole(t), '.') {
      v := FloatOf(t);
    } else {
      v := IntOf(t);
    }
  }

  lemma WordOf(t: string) returns (v: Value)
    requires Solid(t) && t[0] !in "$\"[{-" && !IsDigit(t[0]) && ReadValue(t).Ok?
    ensures ValueOk(v, ReadValue(t).rest) && ValueText(v, ReadValue(t).rest) == t
  {
    assert SkipWS(t) == t;
    NameSplit(t);
    v := Word(ReadName(t));
  }

  lemma BareValueOf(t: string) returns (v: Value)
    requires Solid(t) && ReadValue(t).Ok? && SkipWS(ReadValue(t).rest) != []
    ensures IsValue(t, v)
  {
    if t[0] == '$' {
      v := VariableOf(t);
    } else if t[0] == '"' {
      v := StringOf(t);
    } else if t[0] == '[' {
      var items := BracketedOf(t, SQUARE);
      v := ListValue(items);
    } else if t[0] == '{' {
      var items := BracketedOf(t, CURLY);
      v := ObjectValue(items);
    } else if t[0] == '-' || IsDigit(t[0]) {
      v := NumberOf(t);
    } else {
      v := WordOf(t);
    }
    ValueIs(t, v);
  }

  lemma ValueOf(s: string) returns (g: Gap, v: Value)
    requires ReadValue(s).Ok? && SkipWS(ReadValue(s).rest) != []
    ensures GapOk(g) && ValueOk(v, ReadValue(s).rest) && GapText(g, ValueText(v, ReadValue(s).rest)) == s
    ensures ValueAst(v) == ReadValue(s).value
  {
    g := GapOf(s);
    SkipTwice(s);
    assert ReadValue(SkipWS(s)) == ReadValue(s);
    v := BareValueOf(SkipWS(s));
  }

  // ------------------------------------------------------------- arguments

  lemma ArgsNotDone(s: string, into: map<string, ArgValue>)
    requires ReadArgs(s, into).Ok?
    ensures SkipWS(s) != []
  {
  }

  /** One argument and its value. */
  lemma ArgOf(s: string, into: map<string, ArgValue>) returns (a: Arg, x: string)
    requires ReadArgs(s, into).Ok? && !Starts(SkipWS(s), ')')
    ensures GapOk(a.gap) && IsName(a.name) && GapOk(a.colon) && GapOk(a.before) && ValueOk(a.value, x) && |x| < |s|
    ensures s == GapText(a.gap, a.name + GapText(a.colon, [':'] + GapText(a.before, ValueText(a.value, x))))
    ensures ReadArgs(s, into) == ReadArgs(x, into[a.name := ValueAst(a.value)])
  {
    var t := SkipWS(s);
    SkipTwice(s);
    var gap := MaybeNameOf(s);
    var after := AfterName(s);
    var colon := GapOf(after);
    var c := Expect(after, ':').rest;
    assert SkipWS(after) == [':'] + c;
    x := ReadValue(c).rest;
    var value;
    ArgsNotDone(x, into[ReadName(t) := ReadValue(c).value]);
    var before;
    before, value := ValueOf(c);
    a := Arg(gap, ReadName(s), colon, before, value);
  }

  lemma {:induction false} ArgsOf(s: string, into: map<string, ArgValue>) returns (args: seq<Arg>, end: Gap)
    requires ReadArgs(s, into).Ok?
    ensures var r := ReadArgs(s, into);
            ArgsOk(args, end, r.rest) && ArgsText(args, end, r.rest) == s && ArgsAst(args, into) == r.value
    decreases |s|
  {
    if Starts(SkipWS(s), ')') {
      args := [];
      end := GapOf(s);
      assert SkipWS(s) == [')'] + SkipWS(s)[1..];
    } else {
      var a, x := ArgOf(s, into);
      var more;
      more, end := ArgsOf(x, into[a.name := ValueAst(a.value)]);
      args := [a] + more;
      assert args[1..] == more;
    }
  }

  // ------------------------------------------------------------ directives

  /** An optional parenthesised span; `z` keeps the ignored tokens it starts with. */
  lemma MaybeSpanOf(s: string) returns (m: MaybeSpan, z: string)
    requires SkipWS(s) != [] && SkipOptional(SkipWS(s)).Ok?
    ensures MaybeSpanOk(m, z) && MaybeSpanText(m, z) == s && |z| <= |s|
    ensures SkipWS(z) == SkipWS(SkipOptional(SkipWS(s)).rest)
  {
    var t := SkipWS(s);
    SkipTwice(s);
    if Starts(t, '(') {
      var g := GapOf(s);
      z := SkipOptional(t).rest;
      var items := SpanOf(t, ROUND);
      m := RoundSpan(g, items);
    } else {
      m, z := NoSpan, s;
    }
  }

  lemma DirectivesGoOn(t: string)
    requires ReadDirectives(t).Ok? && ReadDirectives(t).rest != []
    ensures t != []
  {
  }

  lemma DirectiveOf(s: string) returns (d: Directive, y: string)
    requires var t := SkipWS(s); Starts(t, '@') && ReadDirectives(t).Ok? && ReadDirectives(t).rest != []
    ensures GapOk(d.at) && GapOk(d.gap) && MaybeSpanOk(d.args, y) && NameEnds(d.name, MaybeSpanText(d.args, y))
    ensures s == GapText(d.at, ['@'] + GapText(d.gap, d.name + MaybeSpanText(d.args, y))) && |y| < |s|
    ensures ReadDirectives(SkipWS(s)) == Prepend([d.name], ReadDirectives(SkipWS(y)))
  {
    var t := SkipWS(s);
    var at := GapOf(s);
    var w := t[1..];
    assert t == ['@'] + w;
    var after := AfterName(w);
    var u := SkipOptional(SkipWS(after));
    DirectivesGoOn(SkipWS(u.rest));
    AfterNameSkips(w);
    var gap := MaybeNameOf(w);
    var args;
    args, y := MaybeSpanOf(after);
    d := Directive(at, gap, ReadName(w), args);
  }

  /** If something follows a name, something follows what was ignored before it. */
  lemma AfterNameSkips(w: string)
    requires var u := SkipOptional(SkipWS(AfterName(w))); u.Ok? && SkipWS(u.rest) != []
    ensures SkipWS(AfterName(w)) != [] && SkipWS(w) != []
  {
  }

  lemma {:induction false} DirectivesOf(s: string) returns (ds: seq<Directive>, z: string)
    requires ReadDirectives(SkipWS(s)).Ok? && ReadDirectives(SkipWS(s)).rest != []
    ensures DirectivesOk(ds, z) && DirectivesText(ds, z) == s && |z| <= |s|
    ensures SkipWS(z) == ReadDirectives(SkipWS(s)).rest && DirectiveNames(ds) == ReadDirectives(SkipWS(s)).value
    decreases |s|
  {
    if Starts(SkipWS(s), '@') {
      var d, y := DirectiveOf(s);
      var more;
      more, z := DirectivesOf(y);
      ds := [d] + more;
      assert ds[1..] == more;
    } else {
      ds, z := [], s;
    }
  }

  // ------------------------------------------------------------ selections

  lemma HeadOf(t: string) returns (alias: MaybeAlias, name: string, x: string)
    requires Solid(t) && ReadHead(t).Ok?
    ensures HeadOk(alias, name, x) && HeadText(alias, name, x) == t && |x| < |t|
    ensures ReadHead(t) == Ok((name, AliasOf(alias)), SkipWS(x))
  {
    assert SkipWS(t) == t;
    NameSplit(t);
    var first, after := ReadName(t), AfterName(t);
    var u := SkipWS(after);
    if !Starts(u, ':') {
      alias, name, x := NoAlias, first, after;
    } else {
      var colon := GapOf(after);
      assert u == [':'] + u[1..];
      SkipTwice(u[1..]);
      name, x := ReadName(u[1..]), AfterName(u[1..]);
      var before := MaybeNameOf(u[1..]);
      alias := Alias(first, colon, before);
    }
  }

  /** Optional arguments; `z` keeps the ignored tokens it starts with. */
  lemma MaybeArgsOf(s: string) returns (m: MaybeArgs, z: string)
    requires ReadOptionalArgs(SkipWS(s)).Ok?
    ensures MaybeArgsOk(m, z) && MaybeArgsText(m, z) == s && |z| <= |s|
    ensures var r := ReadOptionalArgs(SkipWS(s)); MaybeArgsAst(m) == r.value && SkipWS(z) == SkipWS(r.rest)
  {
    var t := SkipWS(s);
    SkipTwice(s);
    if Starts(t, '(') {
      var open := GapOf(s);
      assert t == ['('] + t[1..];
      var args, close := ArgsOf(t[1..], map[]);
      m, z := Args(open, args, close), ReadOptionalArgs(t).rest;
    } else {
      m, z := NoArgs, s;
    }
  }

  /** A field up to its selection set. */
  lemma FlatFieldOf(t: string) returns (alias: MaybeAlias, name: string, args: MaybeArgs, ds: seq<Directive>, z: string)
    requires Solid(t) && ReadFlatField(t).Ok? && ReadFlatField(t).rest != []
    ensures t == HeadText(alias, name, MaybeArgsText(args, DirectivesText(ds, z))) && |z| < |t|
    ensures HeadOk(alias, name, MaybeArgsText(args, DirectivesText(ds, z)))
    ensures MaybeArgsOk(args, DirectivesText(ds, z)) && DirectivesOk(ds, z)
    ensures ReadFlatField(t) == Ok(Field(name, AliasOf(alias), MaybeArgsAst(args), DirectiveNames(ds), []), SkipWS(z))
  {
    var x, y;
    alias, name, x := HeadOf(t);
    args, y := MaybeArgsOf(x);
    ds, z := DirectivesOf(y);
  }

  /** `s` is the selection `sel` in front of `z`, and the reader has read just that. */
  ghost predicate IsSel(s: string, sel: Sel, z: string)
    requires SkipWS(s) != []
  {
    var r := ReadSel(SkipWS(s));
    && r.Ok? && SelOk(sel, z) && SelText(sel, z) == s && |z| < |s|
    && SelAst(sel) == r.value && SkipWS(z) == SkipWS(r.rest)
  }

  lemma {:induction false} SelsOf(s: string) returns (sels: seq<Sel>, close: Gap)
    requires ReadSels(s).Ok?
    ensures var r := ReadSels(s);
            GapOk(close) && SelsOk(sels, GapText(close, ['}'] + r.rest))
            && SelsText(sels, GapText(close, ['}'] + r.rest)) == s && SelsAst(sels) == r.value
    decreases |s|, 3
  {
    var t := SkipWS(s);
    if t[0] == '}' {
      sels := [];
      close := GapOf(s);
      assert t == ['}'] + t[1..];
    } else {
      var one := ReadSel(t);
      SelsGoOn(one.rest);
      var sel, z := SelOf(s);
      ReadSelsSkips(one.rest, z);
      var more;
      more, close := SelsOf(z);
      sels := [sel] + more;
      assert sels[1..] == more;
    }
  }

  lemma SelsGoOn(s: string)
    requires ReadSels(s).Ok?
    ensures SkipWS(s) != []
  {
  }

  lemma {:induction false} SelOf(s: string) returns (sel: Sel, z: string)
    requires SkipWS(s) != [] && ReadSel(SkipWS(s)).Ok? && SkipWS(ReadSel(SkipWS(s)).rest) != []
    ensures IsSel(s, sel, z)
    decreases |s|, 2
  {
    var t := SkipWS(s);
    var gap := GapOf(s);
    if "..." <= t {
      if ReadName(SkipWS(t[3..])) == "on" {
        sel, z := InlineOf(s, gap);
      } else {
        sel, z := SpreadOf(s, gap);
      }
    } else {
      sel, z := FieldOf(s, gap);
    }
  }

  lemma SpreadOf(s: string, gap: Gap) returns (sel: Sel, z: string)
    requires SkipWS(s) != [] && GapOk(gap) && GapText(gap, SkipWS(s)) == s
    requires var t := SkipWS(s); "..." <= t && ReadName(SkipWS(t[3..])) != "on"
    requires SkipWS(ReadSel(SkipWS(s)).rest) != []
    ensures IsSel(s, sel, z)
  {
    var t := SkipWS(s);
    var w := t[3..];
    SkipTwice(w);
    NothingAfter(SkipWS(w));
    z := AfterName(w);
    var before := MaybeNameOf(w);
    sel := SpreadNode(gap, before, ReadName(w));
    assert t == "..." + w;
    SuffixShorter(gap, t, s);
  }

  lemma {:induction false} SuffixShorter(gap: Gap, t: string, s: string)
    requires GapText(gap, t) == s
    ensures |t| <= |s|
  {
    if gap != [] {
      SuffixShorter(gap[1..], t, GapText(gap[1..], t));
    }
  }

  /** An optional selection set. */
  lemma {:induction false} MaybeBracesOf(y: string) returns (sub: MaybeBraces, z: string)
    requires Starts(SkipWS(y), '{') ==> ReadSet(SkipWS(y)).Ok?
    ensures MaybeBracesText(sub, z) == y && (sub.Sub? ==> BracesOk(sub.body, z)) && |z| <= |y|
    ensures sub.Sub? <==> Starts(SkipWS(y), '{')
    ensures if sub.Sub? then ReadSet(SkipWS(y)) == Ok(SelsAst(sub.body.sels), z) else z == y
    decreases |y|, 1
  {
    if Starts(SkipWS(y), '{') {
      ReadSetSkips(y);
      var body := BracesOf(y);
      sub, z := Sub(body), ReadSet(y).rest;
    } else {
      sub, z := NoBraces, y;
    }
  }

  lemma {:induction false} FieldOf(s: string, gap: Gap) returns (sel: Sel, z: string)
    requires SkipWS(s) != [] && GapOk(gap) && GapText(gap, SkipWS(s)) == s && Solid(SkipWS(s))
    requires var t := SkipWS(s); !("..." <= t) && ReadSel(t).Ok? && SkipWS(ReadSel(t).rest) != []
    ensures IsSel(s, sel, z)
    decreases |s|, 1
  {
    var t := SkipWS(s);
    SuffixShorter(gap, t, s);
    FieldGoesOn(t);
    var alias, name, args, ds, y := FlatFieldOf(t);
    var sub;
    sub, z := MaybeBracesOf(y);
    sel := FieldNode(gap, alias, name, args, ds, sub);
    FieldOk(sel, y, z);
    FieldRead(t, Field(name, AliasOf(alias), MaybeArgsAst(args), DirectiveNames(ds), []), sub, y, z);
  }

  lemma FieldGoesOn(t: string)
    requires t != [] && !("..." <= t) && ReadSel(t).Ok? && SkipWS(ReadSel(t).rest) != []
    ensures ReadFlatField(t).Ok? && ReadFlatField(t).rest != []
    ensures Starts(ReadFlatField(t).rest, '{') ==> ReadSet(ReadFlatField(t).rest).Ok?
  {
  }

  lemma FieldOk(sel: Sel, y: string, z: string)
    requires sel.FieldNode? && GapOk(sel.gap) && y == MaybeBracesText(sel.sub, z)
    requires HeadOk(sel.alias, sel.name, MaybeArgsText(sel.args, DirectivesText(sel.dirs, y)))
    requires MaybeArgsOk(sel.args, DirectivesText(sel.dirs, y)) && DirectivesOk(sel.dirs, y)
    requires sel.sub.Sub? ==> BracesOk(sel.sub.body, z)
    ensures SelOk(sel, z)
  {
  }

  lemma FieldRead(t: string, flat: Field, sub: MaybeBraces, y: string, z: string)
    requires t != [] && !("..." <= t) && ReadFlatField(t) == Ok(flat, SkipWS(y))
    requires sub.Sub? <==> Starts(SkipWS(y), '{')
    requires if sub.Sub? then ReadSet(SkipWS(y)) == Ok(SelsAst(sub.body.sels), z) else z == y
    ensures var r := ReadSel(t);
            && r.Ok? && SkipWS(z) == SkipWS(r.rest)
            && r.value == FieldSel(flat.(sels := if sub.NoBraces? then [] else SelsAst(sub.body.sels)))
  {
    SkipTwice(y);
  }

  lemma ReadSetSkips(s: string)
    ensures ReadSet(SkipWS(s)) == ReadSet(s)
  {
    SkipTwice(s);
  }

  lemma {:induction false} InlineOf(s: string, gap: Gap) returns (sel: Sel, z: string)
    requires SkipWS(s) != [] && GapOk(gap) && GapText(gap, SkipWS(s)) == s
    requires var t := SkipWS(s); "..." <= t && ReadName(SkipWS(t[3..])) == "on" && ReadSel(t).Ok?
    ensures IsSel(s, sel, z)
    decreases |s|, 1
  {
    var t := SkipWS(s);
    SuffixShorter(gap, t, s);
    var w := t[3..];
    assert t == "..." + w;
    SkipTwice(w);
    var on := MaybeNameOf(w);
    var v := AfterName(w);
    var after := AfterName(v);
    SetGoesOn(after);
    NothingAfter(v);
    var before := MaybeNameOf(v);
    var ds, y := DirectivesOf(after);
    ReadSetSkips(y);
    var body := BracesOf(y);
    z := ReadSet(y).rest;
    sel := InlineNode(gap, on, before, ReadName(v), ds, body);
    assert BracesText(body, z) == y && DirectivesText(ds, y) == after;
    assert GapText(before, ReadName(v) + after) == v && GapText(on, "on" + v) == w;
  }

  /** A selection set after directives is not at the end of the text. */
  lemma SetGoesOn(s: string)
    requires var d := ReadDirectives(SkipWS(s)); d.Ok? && ReadSet(d.rest).Ok?
    ensures ReadDirectives(SkipWS(s)).rest != [] && SkipWS(s) != []
  {
  }

  lemma {:induction false} BracesOf(s: string) returns (b: Braces)
    requires ReadSet(s).Ok?
    ensures BracesOk(b, ReadSet(s).rest) && BracesText(b, ReadSet(s).rest) == s && SelsAst(b.sels) == ReadSet(s).value
    decreases |s|, 0
  {
    var open := GapOf(s);
    var u := SkipWS(s)[1..];
    assert SkipWS(s) == ['{'] + u;
    var sels, close := SelsOf(u);
    b := Braces(open, sels, close);
  }

  // ----------------------------------------------------------- definitions

  /** The optional name of an operation; `w` keeps the ignored tokens it starts with. */
  lemma OptionalNameOf(s: string) returns (name: MaybeName, w: string)
    requires SkipWS(s) != []
    ensures MaybeNameText(name, w) == s && NameOr(name) == ReadName(s) && SkipWS(w) == SkipWS(AfterName(s)) && |w| <= |s|
    ensures name.Named? ==> GapOk(name.gap) && IsName(name.name) && StopsName(w)
  {
    if ReadName(s) == "" {
      name, w := NoName, s;
      SkipTwice(s);
    } else {
      var g := MaybeNameOf(s);
      name, w := Named(g, ReadName(s)), AfterName(s);
    }
  }

  lemma OperationGoesOn(s: string, kind: OperationKind)
    requires ReadOperation(s, kind).Ok?
    ensures var vars := SkipOptional(SkipWS(AfterName(s)));
            SkipWS(AfterName(s)) != [] && SkipWS(s) != [] && vars.Ok?
            && ReadDirectives(SkipWS(vars.rest)).Ok? && ReadDirectives(SkipWS(vars.rest)).rest != []
  {
    NothingAfter(s);
    SetGoesOn(SkipOptional(SkipWS(AfterName(s))).rest);
  }

  /** `s` is the definition in front of `x`, and `s` has been read as that. */
  lemma OperationOf(gap: Gap, s: string, kind: OperationKind) returns (d: Definition)
    requires GapOk(gap) && StopsName(s) && ReadOperation(s, kind).Ok?
    ensures var r := ReadOperation(s, kind);
            && d.OperationDef? && d.gap == gap && d.kind == kind && DefinitionOk(d, r.rest)
            && MaybeNameText(d.name, SignatureText(d, r.rest)) == s
            && r.value == Operation(kind, NameOr(d.name), SelsAst(d.body.sels))
  {
    OperationGoesOn(s, kind);
    var name, w := OptionalNameOf(s);
    var vars, y := MaybeSpanOf(w);
    var dirs, z := DirectivesOf(y);
    ReadSetSkips(z);
    var body := BracesOf(z);
    d := OperationDef(gap, kind, name, vars, dirs, body);
  }

  /** A gap is needed in front of a name that would run into what stands before. */
  lemma GapNeeded(g: Gap, n: string, x: string)
    requires StopsName(GapText(g, n + x)) && IsName(n)
    ensures g != []
  {
    assert n[0] in n;
  }

  lemma FragmentOf(gap: Gap, s: string) returns (d: Definition)
    requires GapOk(gap) && StopsName(s) && ReadFragment(s).Ok?
    ensures var r := ReadFragment(s);
            && d.FragmentDef? && d.gap == gap && DefinitionOk(d, r.rest)
            && GapText(d.before, d.fragment + GapText(d.on, "on" + GapText(d.beforeType, d.onType + BracesText(d.body, r.rest)))) == s
            && r.value == Fragment(d.fragment, d.onType, SelsAst(d.body.sels))
  {
    var t, u, w := AfterName(s), AfterName(AfterName(s)), AfterName(AfterName(AfterName(s)));
    NothingAfter(s);
    NothingAfter(t);
    NothingAfter(u);
    var before := MaybeNameOf(s);
    var on := MaybeNameOf(t);
    var beforeType := MaybeNameOf(u);
    GapNeeded(before, ReadName(s), t);
    GapNeeded(on, "on", u);
    GapNeeded(beforeType, ReadName(u), w);
    var body := BracesOf(w);
    d := FragmentDef(gap, before, ReadName(s), on, beforeType, ReadName(u), body);
  }

  /** The definition that stands first. */
  lemma DefinitionOf(s: string, doc: Document) returns (d: Definition, x: string)
    requires SkipWS(s) != [] && ReadDefinitions(SkipWS(s), doc).Ok?
    ensures DefinitionOk(d, x) && DefinitionText(d, x) == s && |x| < |s|
    ensures ReadDefinitions(SkipWS(s), doc) == ReadDefinitions(SkipWS(x), AddDefinition(d, doc))
  {
    var t := SkipWS(s);
    SkipTwice(s);
    var gap := MaybeNameOf(s);
    var kw, y := ReadName(t), AfterName(t);
    SuffixShorter(gap, kw + y, s);
    if kw == "fragment" {
      d := FragmentOf(gap, y);
      x := ReadFragment(y).rest;
    } else {
      var kind := if kw == "mutation" then OpMutation else OpQuery;
      d := OperationOf(gap, y, kind);
      x := ReadOperation(y, kind).rest;
    }
  }

  lemma {:induction false} DefinitionsOf(s: string, doc: Document) returns (defs: seq<Definition>, e: End)
    requires ReadDefinitions(SkipWS(s), doc).Ok?
    ensures EndOk(e) && DefinitionsOk(defs, EndText(e)) && DefinitionsText(defs, EndText(e)) == s
    ensures ReadDefinitions(SkipWS(s), doc) == Ok(DefinitionsAst(defs, doc), [])
    decreases |s|
  {
    if SkipWS(s) == [] {
      defs := [];
      e := EndOf(s);
    } else {
      var d, x := DefinitionOf(s, doc);
      var more;
      more, e := DefinitionsOf(x, AddDefinition(d, doc));
      defs := [d] + more;
      assert defs[1..] == more;
    }
  }

  lemma {:induction false} NoOperations(defs: seq<Definition>, doc: Document)
    requires forall d | d in defs :: !d.OperationDef?
    ensures DefinitionsAst(defs, doc).operations == doc.operations
    decreases |defs|
  {
    if defs != [] {
      assert defs[0] in defs;
      NoOperations(defs[1..], AddDefinition(defs[0], doc));
    }
  }

  /** The characters of a name and the ignored characters. */
  lemma LexicalClasses(c: char)
    ensures NameChar(c) <==> c in "abcdefghijklmnopqrstuvwxyz" || c in "ABCDEFGHIJKLMNOPQRSTUVWXYZ" || c in "0123456789_"
    ensures Blank(c) <==> c in " \t\n\r,"
  {
  }

  // ---------------------------------------------------------------- the result

  /** Whatever the parser accepts is the text of some concrete document with the meaning
      the parser gives it. */
  lemma AcceptedIsText(src: string) returns (t: Text)
    requires ReadDocument(src).Ok?
    ensures TextOk(t) && Source(t) == src && ReadDocument(src) == Ok(Meaning(t), [])
  {
    if Starts(SkipWS(src), '{') {
      ReadSetSkips(src);
      var body := BracesOf(src);
      var end := EndOf(ReadSet(src).rest);
      t := Shorthand(body, end);
    } else {
      var defs, end := DefinitionsOf(src, Document([], map[]));
      t := Definitions(defs, end);
      if forall d | d in defs :: !d.OperationDef? {
        NoOperations(defs, Document([], map[]));
      }
    }
  }

  /** A text parses to a document exactly when it is the text of a concrete document with
      that meaning. */
  lemma ParsesIff(src: string, doc: Document)
    ensures ReadDocument(src) == Ok(doc, []) <==> exists t :: TextOk(t) && Source(t) == src && Meaning(t) == doc
  {
    if ReadDocument(src) == Ok(doc, []) {
      var t := AcceptedIsText(src);
    }
    if t :| TextOk(t) && Source(t) == src && Meaning(t) == doc {
      DocumentReads(t);
    }
  }
}

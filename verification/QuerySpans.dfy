/** Bracketed spans are skipped without knowing comments.  Exactly which texts are read as
    one span, why quiet comments do no harm, and legal queries that are rejected because
    a comment inside a span is not quiet. */
module QuerySpans {
  import opened Common
  import opened QueryAst
  import opened QuerySyntax
  import opened QueryRender

  // ------------------------------------------------- texts read as one span

  lemma PartsCons(p: Part, parts: seq<Part>, x: string)
    ensures PartsText([p] + parts, x) == (if p.Plain? then [p.c] + PartsText(parts, x) else ['\\'] + ([p.c] + PartsText(parts, x)))
  {
    assert ([p] + parts)[1..] == parts;
  }

  lemma {:induction false} PartsOf(s: string) returns (parts: seq<Part>)
    requires AfterBody(s).Some?
    ensures forall i | 0 <= i < |parts| :: parts[i].Plain? ==> parts[i].c != '"' && parts[i].c != '\\'
    ensures PartsText(parts, ['"'] + AfterBody(s).value) == s
    ensures parts == [] ==> s[0] == '"'
    decreases |s|
  {
    if s[0] == '"' {
      parts := [];
      assert s == ['"'] + s[1..];
    } else if s[0] == '\\' {
      var rest := PartsOf(s[2..]);
      parts := [Escape(s[1])] + rest;
      PartsCons(Escape(s[1]), rest, ['"'] + AfterBody(s).value);
      assert s == ['\\'] + ([s[1]] + s[2..]);
    } else {
      var rest := PartsOf(s[1..]);
      parts := [Plain(s[0])] + rest;
      PartsCons(Plain(s[0]), rest, ['"'] + AfterBody(s).value);
      assert s == [s[0]] + s[1..];
    }
  }

  lemma ContentCons(s: string, rest: string, x: string)
    requires |s| >= 3 && s[..3] != TRIPLE && NoTriple(rest) && rest + (TRIPLE + x) == s[1..]
    ensures NoTriple([s[0]] + rest) && ([s[0]] + rest) + (TRIPLE + x) == s
  {
    var content := [s[0]] + rest;
    assert s == [s[0]] + s[1..];
    assert content + (TRIPLE + x) == [s[0]] + (rest + (TRIPLE + x));
    assert content[1..] == rest;
    assert (content + TRIPLE)[..3] == s[..3] by {
      assert content + (TRIPLE + x) == (content + TRIPLE) + x;
    }
  }

  lemma {:induction false} ContentOf(s: string) returns (content: string)
    requires AfterTriple(s).Some?
    ensures NoTriple(content) && content + (TRIPLE + AfterTriple(s).value) == s
  {
    if s[..3] == TRIPLE {
      content := [];
      assert s == s[..3] + s[3..];
    } else {
      var rest := ContentOf(s[1..]);
      content := [s[0]] + rest;
      var x := AfterTriple(s).value;
      ContentCons(s, rest, x);
    }
  }

  /** Whatever the string reader accepts is a literal in front of the rest. */
  lemma LiteralOf(s: string) returns (l: Literal)
    requires Starts(s, '"') && AfterString(s).Some?
    ensures LiteralOk(l, AfterString(s).value) && LiteralText(l, AfterString(s).value) == s
  {
    var x := AfterString(s).value;
    if TRIPLE <= s {
      var content := ContentOf(s[3..]);
      l := Block(content);
      assert s == TRIPLE + s[3..];
    } else {
      var parts := PartsOf(s[1..]);
      l := Quoted(parts);
      assert s == ['"'] + s[1..];
      if parts == [] {
        assert s == ['"', '"'] + x;
      }
    }
  }

  /** `s` is items, the closing bracket of this level, and `y`. */
  ghost predicate Level(s: string, b: Brackets, items: seq<Item>, y: string)
  {
    ItemsOk(items, b, [b.close] + y) && s == ItemsText(items, b, [b.close] + y) && |y| < |s|
  }

  lemma LevelCons(s: string, b: Brackets, item: Item, rest: string, items: seq<Item>, y: string)
    requires Level(rest, b, items, y) && ItemOk(item, b, rest) && s == ItemText(item, b, rest) && |rest| < |s|
    ensures Level(s, b, [item] + items, y)
  {
    assert ([item] + items)[1..] == items;
  }

  /** A successful skip at any depth splits into the items of one level and what the
      enclosing levels go on to read. */
  lemma {:induction false} LevelOf(s: string, b: Brackets, depth: nat) returns (items: seq<Item>, y: string)
    requires BracketsOk(b) && depth > 0 && Balance(s, b.open, b.close, depth).Ok?
    ensures Level(s, b, items, y)
    ensures Balance(s, b.open, b.close, depth) ==
            if depth == 1 then Ok((), y) else Balance(y, b.open, b.close, depth - 1)
    decreases |s|
  {
    if s[0] == b.open {
      var inner, rest := LevelOf(s[1..], b, depth + 1);
      var more;
      more, y := LevelOf(rest, b, depth);
      var group := Group(inner);
      assert s == ItemText(group, b, rest) by {
        assert s == [b.open] + s[1..];
      }
      LevelCons(s, b, group, rest, more, y);
      items := [group] + more;
    } else if s[0] == b.close {
      items, y := [], s[1..];
      assert s == [b.close] + y;
    } else if s[0] == '"' {
      var l := LiteralOf(s);
      var rest := AfterString(s).value;
      var more;
      more, y := LevelOf(rest, b, depth);
      LevelCons(s, b, Str(l), rest, more, y);
      items := [Str(l)] + more;
    } else {
      var more;
      more, y := LevelOf(s[1..], b, depth);
      assert s == [s[0]] + s[1..];
      LevelCons(s, b, Char(s[0]), s[1..], more, y);
      items := [Char(s[0])] + more;
    }
  }

  /** A text is skipped as one span in front of `x` exactly when it is a bracketed list of
      ordinary characters, complete strings and nested groups.  A comment counts as
      ordinary characters, whatever it says. */
  lemma SpanReadsIff(s: string, b: Brackets, x: string)
    requires BracketsOk(b)
    ensures SkipBalanced(s, b.open, b.close) == Ok((), x) <==>
            exists items :: ItemsOk(items, b, [b.close] + x) && s == SpanText(items, b, x)
  {
    if SkipBalanced(s, b.open, b.close) == Ok((), x) {
      var items, y := LevelOf(s[1..], b, 1);
      assert s == [b.open] + s[1..];
      assert ItemsOk(items, b, [b.close] + x) && s == SpanText(items, b, x);
    }
    if items :| ItemsOk(items, b, [b.close] + x) && s == SpanText(items, b, x) {
      SpanReads(items, b, x);
    }
  }

  // ------------------------------------------------------- quiet comments

  /** The text mentions neither bracket nor a quote. */
  predicate Quiet(t: string, b: Brackets) { b.open !in t && b.close !in t && '"' !in t }

  function CharItems(t: string): seq<Item> { if t == [] then [] else [Char(t[0])] + CharItems(t[1..]) }

  lemma FirstChar(item: Item, items: seq<Item>, b: Brackets, x: string)
    requires item.Char?
    ensures ItemsText([item] + items, b, x) == [item.c] + ItemsText(items, b, x)
  {
    assert ([item] + items)[1..] == items;
  }

  lemma {:induction false} CharsText(t: string, b: Brackets, x: string)
    ensures ItemsText(CharItems(t), b, x) == t + x
  {
    if t == [] {
      assert t + x == x;
    } else {
      var c, u := t[0], t[1..];
      assert CharItems(t) == [Char(c)] + CharItems(u);
      CharsText(u, b, x);
      assert t == [c] + u;
      FirstChar(Char(c), CharItems(u), b, x);
      assert ([c] + u) + x == [c] + (u + x);
    }
  }

  lemma {:induction false} CharsOk(t: string, b: Brackets, x: string)
    requires Quiet(t, b)
    ensures ItemsOk(CharItems(t), b, x)
  {
    if t != [] {
      assert t[0] in t;
      assert CharItems(t)[1..] == CharItems(t[1..]);
      assert forall c | c in t[1..] :: c in t;
      CharsOk(t[1..], b, x);
    }
  }

  lemma QuietItems(t: string, b: Brackets, x: string)
    requires Quiet(t, b)
    ensures ItemsText(CharItems(t), b, x) == t + x && ItemsOk(CharItems(t), b, x)
  {
    CharsText(t, b, x);
    CharsOk(t, b, x);
  }

  /** A quiet comment anywhere in a span changes nothing about where it ends. */
  lemma QuietCommentIsSkipped(t: string, b: Brackets, x: string, depth: nat)
    requires BracketsOk(b) && depth > 0 && Quiet("#" + t + "\n", b)
    ensures Balance(("#" + t + "\n") + x, b.open, b.close, depth) == Balance(x, b.open, b.close, depth)
  {
    var c := "#" + t + "\n";
    QuietItems(c, b, x);
    ItemsBalance(CharItems(c), b, x, depth);
  }

  // ------------------------------------------- comments that are not quiet

  /** A closing bracket in a comment ends the span there and then. */
  lemma CommentClosesSpan(items: seq<Item>, b: Brackets, x: string)
    requires BracketsOk(b) && b.open != '#' && b.close != '#'
    requires ItemsOk(items + [Char('#')], b, [b.close] + x)
    ensures SkipBalanced(SpanText(items + [Char('#')], b, x), b.open, b.close) == Ok((), x)
  {
    SpanReads(items + [Char('#')], b, x);
  }

  lemma {:induction false} NoQuoteNoEnd(s: string)
    requires '"' !in s
    ensures AfterBody(s).None?
    decreases |s|
  {
    if s != [] {
      assert s[0] in s;
      if s[0] != '\\' {
        NoQuoteNoEnd(s[1..]);
      } else if |s| > 1 {
        NoQuoteNoEnd(s[2..]);
      }
    }
  }

  /** A lone quote, in a comment or not, opens a string that nothing closes. */
  lemma QuoteOpensString(t: string, b: Brackets, u: string)
    requires BracketsOk(b) && Quiet(t, b) && '"' !in u
    ensures SkipBalanced([b.open] + (t + (['"'] + u)), b.open, b.close).Bad?
  {
    var x := ['"'] + u;
    var s := [b.open] + (t + x);
    QuietItems(t, b, x);
    ItemsBalance(CharItems(t), b, x, 1);
    assert s[1..] == t + x && x[1..] == u;
    NoQuoteNoEnd(u);
    assert forall i | 0 <= i < |u| :: u[i] != '"';
    assert forall i | 1 <= i < |x| :: x[i] == u[i - 1];
    assert |x| < 2 || x[1] != '"';
  }

  /** A list whose comment holds a closing bracket is cut inside the comment. */
  lemma ValueCutByComment(x: string)
    ensures ReadValue("[1 # ]" + x) == Ok(ArgValue(None, "[1 # ]"), x)
  {
    QuietItems("1 # ", SQUARE, "]" + x);
    ListText();
    BareListReads(CharItems("1 # "), x);
  }

  /** The legal query `{a(x: [1 # ]⏎])}` is rejected: the list ends inside its comment and
      the bracket that should close it is not an argument name. */
  lemma CommentedListIsRejected(src: string)
    requires src == "{a(x: [1 # ]\n])}"
    ensures ReadDocument(src).Bad?
  {
    var field, args := src[1..], src[3..];
    ListSplit(src, field, args);
    ArgsRejected(args, "\n])}");
    FieldRejected(args);
    ShorthandRejected(field);
  }

  lemma ListSplit(src: string, field: string, args: string)
    requires src == "{a(x: [1 # ]\n])}" && field == src[1..] && args == src[3..]
    ensures src == "{" + field && field == "a" + ("(" + args) && args == "x: [1 # ]" + "\n])}"
  {
  }

  lemma ShorthandRejected(t: string)
    requires ReadSels(t).Bad?
    ensures ReadDocument("{" + t).Bad?
  {
    var s := "{" + t;
    assert s[1..] == t && SkipWS(s) == s;
  }

  lemma StrayBracket(into: map<string, ArgValue>, rest: string)
    requires "\n]" <= rest
    ensures ReadArgs(rest, into).Bad?
  {
    var t := rest[1..];
    assert rest[0] == '\n' && t[0] == ']';
    assert SkipWS(rest) == t;
    assert SkipWS(t) == t && NameOf(t) == [];
  }

  lemma ArgsRejected(args: string, rest: string)
    requires args == "x: [1 # ]" + rest && "\n]" <= rest
    ensures ReadArgs(args, map[]).Bad?
  {
    var v := ListValue(CharItems("1 # "));
    QuietItems("1 # ", SQUARE, "]" + rest);
    ListText();
    var a := Arg([], "x", [], [Space(' ')], v);
    ArgReads(a, rest, map[]);
    ArgText(v, rest);
    StrayBracket(map["x" := ValueAst(v)], rest);
  }

  lemma ArgText(v: Value, rest: string)
    requires v.ListValue? && RawOf(v) == "[1 # ]"
    ensures "x" + GapText([], [':'] + GapText([Space(' ')], ValueText(v, rest))) == "x: [1 # ]" + rest
  {
    assert [Space(' ')][1..] == [];
    assert GapText([Space(' ')], ValueText(v, rest)) == [' '] + ("[1 # ]" + rest);
    assert "x" + ([':'] + ([' '] + ("[1 # ]" + rest))) == "x: [1 # ]" + rest;
  }

  lemma ListText()
    ensures SpanText(CharItems("1 # "), SQUARE, "") == "[1 # ]"
  {
    QuietItems("1 # ", SQUARE, "]");
    assert [']'] + "" == "]";
    assert ['['] + ("1 # " + "]") == "[1 # ]";
  }

  lemma FieldRejected(args: string)
    requires ReadArgs(args, map[]).Bad?
    ensures ReadSels("a" + ("(" + args)).Bad?
  {
    var u := "(" + args;
    var t := "a" + u;
    NameReads([], "a", u);
    assert u[1..] == args;
    assert SkipWS(u) == u;
    assert ReadHead(t) == Ok(("a", ""), u);
    assert ReadOptionalArgs(u).Bad?;
    assert ReadField(t).Bad?;
    assert t[0] == 'a' && !("..." <= t);
    assert SkipWS(t) == t && ReadSel(t).Bad?;
  }

  /** So is `query Q($x: Int # "⏎) {a}`: the comment's quote swallows the rest. */
  lemma CommentedVariablesAreRejected(src: string)
    requires src == "query Q($x: Int # \"\n) {a}"
    ensures ReadDocument(src).Bad?
  {
    VariablesAreQuiet();
    QuoteOpensString("$x: Int # ", ROUND, "\n) {a}");
    var vars := ['('] + ("$x: Int # " + (['"'] + "\n) {a}"));
    OperationRejected(vars);
    VariablesSplit(src, vars);
  }

  lemma VariablesAreQuiet()
    ensures Quiet("$x: Int # ", ROUND) && '"' !in "\n) {a}"
  {
  }

  lemma VariablesSplit(src: string, vars: string)
    requires src == "query Q($x: Int # \"\n) {a}" && vars == ['('] + ("$x: Int # " + (['"'] + "\n) {a}"))
    ensures src == "query" + (" Q" + vars)
  {
  }

  lemma OperationRejected(vars: string)
    requires Starts(vars, '(') && SkipBalanced(vars, '(', ')').Bad?
    ensures ReadDocument("query" + (" Q" + vars)).Bad?
  {
    var t := " Q" + vars;
    var s := "query" + t;
    NameReads([], "query", t);
    assert t[1..] == "Q" + vars;
    assert SkipWS(t) == "Q" + vars;
    NameReads([], "Q", vars);
    assert SkipWS(vars) == vars;
    assert ReadOperation(t, OpQuery).Bad?;
    assert SkipWS(s) == s && s[0] == 'q';
    assert ReadDefinitions(s, Document([], map[])).Bad?;
  }
}

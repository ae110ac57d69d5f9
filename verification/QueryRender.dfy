/** Completeness of the query grammar.  A concrete document fixes a syntax tree
    and the ignored tokens written before each of its tokens; whatever those
    are, reading its text gives back exactly the tree.  Texts are rendered in
    front of what follows them, and `...Ok` predicates say that no token runs
    into its successor.  Inside brackets that the parser skips unread the text
    is a list of items; `QuerySpans` shows that nothing else is skipped. */
module QueryRender {
  import opened Common
  import opened QueryAst
  import opened QuerySyntax
  import QueryParser

  // -------------------------------------------------------------- ignored

  datatype Ignored = Space(c: char) | Comment(text: string)

  type Gap = seq<Ignored>

  predicate GapOk(g: Gap)
  {
    forall i | 0 <= i < |g| ::
      match g[i]
      case Space(c) => Blank(c)
      case Comment(t) => '\n' !in t
  }

  function GapText(g: Gap, x: string): string
  {
    if g == [] then x
    else
      match g[0]
      case Space(c) => [c] + GapText(g[1..], x)
      case Comment(t) => ['#'] + (t + (['\n'] + GapText(g[1..], x)))
  }

  lemma {:induction false} DropCommentText(t: string, x: string)
    requires '\n' !in t
    ensures DropComment(t + (['\n'] + x)) == ['\n'] + x
  {
    if t == [] {
      assert t + (['\n'] + x) == ['\n'] + x;
    } else {
      assert t[0] in t;
      assert (t + (['\n'] + x))[1..] == t[1..] + (['\n'] + x);
      DropCommentText(t[1..], x);
    }
  }

  lemma SkipComment(t: string, y: string)
    requires '\n' !in t
    ensures SkipWS(['#'] + (t + (['\n'] + y))) == SkipWS(y)
  {
    var s := ['#'] + (t + (['\n'] + y));
    DropCommentText(t, y);
    assert s[1..] == t + (['\n'] + y);
    assert DropComment(s) == ['\n'] + y;
    assert (['\n'] + y)[1..] == y;
  }

  lemma {:induction false} SkipGap(g: Gap, x: string)
    requires GapOk(g)
    ensures SkipWS(GapText(g, x)) == SkipWS(x)
  {
    if g != [] {
      SkipGap(g[1..], x);
      var y := GapText(g[1..], x);
      match g[0]
      case Space(c) =>
        assert ([c] + y)[1..] == y;
      case Comment(t) =>
        SkipComment(t, y);
    }
  }

  /** A token's first character is neither blank nor a comment. */
  predicate Solid(x: string) { x != [] && !Blank(x[0]) && x[0] != '#' }

  lemma SkipGapSolid(g: Gap, x: string)
    requires GapOk(g) && Solid(x)
    ensures SkipWS(GapText(g, x)) == x
  {
    SkipGap(g, x);
  }

  // ---------------------------------------------------------------- names

  predicate IsName(n: string) { n != [] && forall c | c in n :: NameChar(c) }

  predicate StopsName(x: string) { x == [] || !NameChar(x[0]) }

  lemma GapStops(g: Gap, x: string)
    requires GapOk(g) && (g != [] || StopsName(x))
    ensures StopsName(GapText(g, x))
  {
  }

  lemma {:induction false} NameText(n: string, x: string)
    requires (forall c | c in n :: NameChar(c)) && StopsName(x)
    ensures NameOf(n + x) == n && DropName(n + x) == x
  {
    if n == [] {
      assert n + x == x;
    } else {
      assert (n + x)[1..] == n[1..] + x;
      assert n[0] in n;
      NameText(n[1..], x);
    }
  }

  /** A name, or none where the parser does not insist on one, in front of `x`. */
  predicate NameEnds(n: string, x: string)
  {
    (forall c | c in n :: NameChar(c)) && StopsName(x) && (n == [] ==> SkipWS(x) == x)
  }

  lemma MaybeNameReads(g: Gap, n: string, x: string)
    requires GapOk(g) && NameEnds(n, x)
    ensures ReadName(GapText(g, n + x)) == n && AfterName(GapText(g, n + x)) == x
    ensures SkipWS(GapText(g, n + x)) == n + x
  {
    SkipGap(g, n + x);
    NameText(n, x);
    if n == [] {
      assert n + x == x;
    } else {
      assert n[0] in n;
    }
  }

  lemma NameReads(g: Gap, n: string, x: string)
    requires GapOk(g) && IsName(n) && StopsName(x)
    ensures ReadName(GapText(g, n + x)) == n && AfterName(GapText(g, n + x)) == x
    ensures Solid(n + x) && ReadName(n + x) == n && AfterName(n + x) == x
  {
    assert n[0] in n;
    assert Solid(n + x);
    SkipGapSolid(g, n + x);
    NameText(n, x);
  }

  // -------------------------------------------------- strings and spans

  datatype Part = Plain(c: char) | Escape(c: char)

  datatype Literal = Quoted(parts: seq<Part>) | Block(content: string)

  function PartsText(parts: seq<Part>, x: string): string
  {
    if parts == [] then x
    else
      match parts[0]
      case Plain(c) => [c] + PartsText(parts[1..], x)
      case Escape(c) => ['\\'] + ([c] + PartsText(parts[1..], x))
  }

  function LiteralText(l: Literal, x: string): string
  {
    match l
    case Quoted(parts) => ['"'] + PartsText(parts, ['"'] + x)
    case Block(content) => TRIPLE + (content + (TRIPLE + x))
  }

  predicate LiteralOk(l: Literal, x: string)
  {
    match l
    case Quoted(parts) =>
      && (forall i | 0 <= i < |parts| :: parts[i].Plain? ==> parts[i].c != '"' && parts[i].c != '\\')
      && (parts == [] ==> !Starts(x, '"'))
    case Block(content) => NoTriple(content)
  }

  /** The delimiter occurs in `content` followed by the delimiter only at its end. */
  predicate NoTriple(content: string)
  {
    content != [] ==> (content + TRIPLE)[..3] != TRIPLE && NoTriple(content[1..])
  }

  lemma {:induction false} PartsRead(parts: seq<Part>, x: string)
    requires forall i | 0 <= i < |parts| :: parts[i].Plain? ==> parts[i].c != '"' && parts[i].c != '\\'
    ensures AfterBody(PartsText(parts, ['"'] + x)) == Some(x)
  {
    if parts == [] {
      assert (['"'] + x)[1..] == x;
    } else {
      var y := PartsText(parts[1..], ['"'] + x);
      PartsRead(parts[1..], x);
      match parts[0]
      case Plain(c) => assert ([c] + y)[1..] == y;
      case Escape(c) => assert (['\\'] + ([c] + y))[2..] == y;
    }
  }

  lemma {:induction false} BlockReads(content: string, x: string)
    requires NoTriple(content)
    ensures AfterTriple(content + (TRIPLE + x)) == Some(x)
  {
    var s := content + (TRIPLE + x);
    if content == [] {
      assert s == TRIPLE + x;
      assert s[..3] == TRIPLE && s[3..] == x;
    } else {
      assert s == (content + TRIPLE) + x;
      assert s[..3] == (content + TRIPLE)[..3];
      assert s[1..] == content[1..] + (TRIPLE + x);
      BlockReads(content[1..], x);
    }
  }

  lemma LiteralReads(l: Literal, x: string)
    requires LiteralOk(l, x)
    ensures Starts(LiteralText(l, x), '"') && AfterString(LiteralText(l, x)) == Some(x)
  {
    var s := LiteralText(l, x);
    match l
    case Quoted(parts) =>
      PartsRead(parts, x);
      assert s[1..] == PartsText(parts, ['"'] + x);
      assert parts != [] ==> s[1] != '"';
      assert parts == [] ==> s[2..] == x;
      assert !(TRIPLE <= s);
    case Block(content) =>
      BlockReads(content, x);
      assert s[3..] == content + (TRIPLE + x);
  }

  /** Text inside balanced brackets of one kind. */
  datatype Item = Char(c: char) | Str(l: Literal) | Group(items: seq<Item>)

  datatype Brackets = Brackets(open: char, close: char)

  predicate BracketsOk(b: Brackets) { b.open != b.close && b.open != '"' && b.close != '"' && b.close != '\\' }

  function ItemsText(items: seq<Item>, b: Brackets, x: string): string
    decreases items, 0
  {
    if items == [] then x else ItemText(items[0], b, ItemsText(items[1..], b, x))
  }

  function ItemText(item: Item, b: Brackets, x: string): string
    decreases item, 1
  {
    match item
    case Char(c) => [c] + x
    case Str(l) => LiteralText(l, x)
    case Group(items) => [b.open] + ItemsText(items, b, [b.close] + x)
  }

  predicate ItemsOk(items: seq<Item>, b: Brackets, x: string)
    decreases items, 0
  {
    items != [] ==> ItemOk(items[0], b, ItemsText(items[1..], b, x)) && ItemsOk(items[1..], b, x)
  }

  predicate ItemOk(item: Item, b: Brackets, x: string)
    decreases item, 1
  {
    match item
    case Char(c) => c != b.open && c != b.close && c != '"'
    case Str(l) => LiteralOk(l, x)
    case Group(items) => ItemsOk(items, b, [b.close] + x)
  }

  lemma {:induction false} ItemsBalance(items: seq<Item>, b: Brackets, x: string, depth: nat)
    requires BracketsOk(b) && ItemsOk(items, b, x) && depth > 0
    ensures Balance(ItemsText(items, b, x), b.open, b.close, depth) == Balance(x, b.open, b.close, depth)
    decreases items, 0
  {
    if items != [] {
      ItemBalances(items[0], b, ItemsText(items[1..], b, x), depth);
      ItemsBalance(items[1..], b, x, depth);
    }
  }

  lemma {:induction false} ItemBalances(item: Item, b: Brackets, x: string, depth: nat)
    requires BracketsOk(b) && ItemOk(item, b, x) && depth > 0
    ensures Balance(ItemText(item, b, x), b.open, b.close, depth) == Balance(x, b.open, b.close, depth)
    decreases item, 1
  {
    match item
    case Char(c) =>
      assert ([c] + x)[1..] == x;
    case Str(l) =>
      LiteralReads(l, x);
    case Group(items) =>
      var y := [b.close] + x;
      ItemsBalance(items, b, y, depth + 1);
      assert ([b.open] + ItemsText(items, b, y))[1..] == ItemsText(items, b, y);
      assert y[1..] == x;
  }

  function SpanText(items: seq<Item>, b: Brackets, x: string): string
  {
    [b.open] + ItemsText(items, b, [b.close] + x)
  }

  lemma SpanReads(items: seq<Item>, b: Brackets, x: string)
    requires BracketsOk(b) && ItemsOk(items, b, [b.close] + x)
    ensures SkipBalanced(SpanText(items, b, x), b.open, b.close) == Ok((), x)
  {
    var y := [b.close] + x;
    ItemsBalance(items, b, y, 1);
    assert SpanText(items, b, x)[1..] == ItemsText(items, b, y);
    assert y[1..] == x;
  }

  // Rendering in front of a longer continuation only appends to the text.

  lemma {:induction false} PartsAppend(parts: seq<Part>, x: string, z: string)
    ensures PartsText(parts, x + z) == PartsText(parts, x) + z
  {
    if parts != [] {
      PartsAppend(parts[1..], x, z);
    }
  }

  lemma LiteralAppends(l: Literal, x: string, z: string)
    ensures LiteralText(l, x + z) == LiteralText(l, x) + z
  {
    match l
    case Quoted(parts) =>
      PartsAppend(parts, ['"'] + x, z);
      assert ['"'] + (x + z) == (['"'] + x) + z;
    case Block(content) =>
      assert TRIPLE + (content + (TRIPLE + (x + z))) == (TRIPLE + (content + (TRIPLE + x))) + z;
  }

  lemma {:induction false} ItemsAppend(items: seq<Item>, b: Brackets, x: string, z: string)
    ensures ItemsText(items, b, x + z) == ItemsText(items, b, x) + z
    decreases items, 0
  {
    if items != [] {
      ItemsAppend(items[1..], b, x, z);
      ItemAppends(items[0], b, ItemsText(items[1..], b, x), z);
    }
  }

  lemma {:induction false} ItemAppends(item: Item, b: Brackets, x: string, z: string)
    ensures ItemText(item, b, x + z) == ItemText(item, b, x) + z
    decreases item, 1
  {
    match item
    case Char(c) => assert [c] + (x + z) == ([c] + x) + z;
    case Str(l) => LiteralAppends(l, x, z);
    case Group(items) =>
      ItemsAppend(items, b, [b.close] + x, z);
      assert [b.close] + (x + z) == ([b.close] + x) + z;
      assert [b.open] + (ItemsText(items, b, [b.close] + x) + z) == ([b.open] + ItemsText(items, b, [b.close] + x)) + z;
  }

  // --------------------------------------------------------------- values

  datatype Value =
    | Variable(gap: Gap, name: string)
    | StringValue(l: Literal)
    | ListValue(items: seq<Item>)
    | ObjectValue(items: seq<Item>)
    | IntValue(negative: bool, whole: string)
    | FloatValue(negative: bool, whole: string, fraction: string)
    | Word(name: string)

  const SQUARE := Brackets('[', ']')
  const CURLY := Brackets('{', '}')
  const ROUND := Brackets('(', ')')

  function Sign(negative: bool): string { if negative then "-" else "" }

  /** The value as the parser reports it. */
  function RawOf(v: Value): string
  {
    match v
    case Variable(_, name) => "$" + name
    case StringValue(l) => LiteralText(l, "")
    case ListValue(items) => SpanText(items, SQUARE, "")
    case ObjectValue(items) => SpanText(items, CURLY, "")
    case IntValue(negative, whole) => Sign(negative) + whole
    case FloatValue(negative, whole, fraction) => Sign(negative) + (whole + (['.'] + fraction))
    case Word(name) => name
  }

  function ValueAst(v: Value): ArgValue
  {
    ArgValue(if v.IntValue? then Atoi(RawOf(v)) else None, RawOf(v))
  }

  /** The value as written: a variable may have ignored tokens after its `$`. */
  function ValueText(v: Value, x: string): string
  {
    if v.Variable? then ['$'] + GapText(v.gap, v.name + x) else RawOf(v) + x
  }

  predicate StopsDigits(x: string) { x == [] || !IsDigit(x[0]) }

  predicate AllDigits(s: string) { forall c | c in s :: IsDigit(c) }

  predicate ValueOk(v: Value, x: string)
  {
    match v
    case Variable(gap, name) => GapOk(gap) && NameEnds(name, x)
    case StringValue(l) => LiteralOk(l, x)
    case ListValue(items) => ItemsOk(items, SQUARE, [']'] + x)
    case ObjectValue(items) => ItemsOk(items, CURLY, ['}'] + x)
    case IntValue(negative, whole) => (negative || whole != []) && AllDigits(whole) && StopsDigits(x) && !Starts(x, '.')
    case FloatValue(negative, whole, fraction) =>
      (negative || whole != []) && AllDigits(whole) && AllDigits(fraction) && StopsDigits(x)
    case Word(name) => IsName(name) && !IsDigit(name[0]) && StopsName(x)
  }

  lemma {:induction false} DigitsText(n: string, x: string)
    requires AllDigits(n) && StopsDigits(x)
    ensures DropDigits(n + x) == x
  {
    if n == [] {
      assert n + x == x;
    } else {
      assert (n + x)[1..] == n[1..] + x;
      assert n[0] in n;
      DigitsText(n[1..], x);
    }
  }

  lemma WholeText(negative: bool, whole: string, x: string)
    requires (negative || whole != []) && AllDigits(whole) && StopsDigits(x)
    ensures var s := Sign(negative) + (whole + x);
            && DropWhole(s) == x
            && (Starts(s, '-') || (s != [] && IsDigit(s[0])))
  {
    DigitsText(whole, x);
    assert whole != [] ==> whole[0] in whole;
    var s := Sign(negative) + (whole + x);
    assert negative ==> s[1..] == whole + x;
    assert !negative ==> s == whole + x;
  }

  lemma TakenText(raw: string, x: string)
    ensures Taken(raw + x, x) == raw
  {
  }

  lemma NumberReads(v: Value, x: string)
    requires (v.IntValue? || v.FloatValue?) && ValueOk(v, x)
    ensures var s := RawOf(v) + x;
            && (Starts(s, '-') || (s != [] && IsDigit(s[0])))
            && ReadNumber(s) == Ok(ValueAst(v), x)
  {
    var s := RawOf(v) + x;
    TakenText(RawOf(v), x);
    if v.IntValue? {
      assert s == Sign(v.negative) + (v.whole + x);
      WholeText(v.negative, v.whole, x);
    } else {
      var y := ['.'] + (v.fraction + x);
      assert s == Sign(v.negative) + (v.whole + y);
      WholeText(v.negative, v.whole, y);
      DigitsText(v.fraction, x);
      assert y[1..] == v.fraction + x;
    }
  }

  lemma SpanValueReads(items: seq<Item>, b: Brackets, x: string)
    requires BracketsOk(b) && ItemsOk(items, b, [b.close] + x)
    ensures var raw := SpanText(items, b, "");
            && Starts(raw + x, b.open)
            && Span(raw + x, b.open, b.close) == Ok(ArgValue(None, raw), x)
  {
    SpanReads(items, b, x);
    ItemsAppend(items, b, [b.close] + "", x);
    assert ([b.close] + "") + x == [b.close] + x;
    assert SpanText(items, b, "") + x == SpanText(items, b, x);
    TakenText(SpanText(items, b, ""), x);
  }

  lemma StringValueReads(l: Literal, x: string)
    requires LiteralOk(l, x)
    ensures var raw := LiteralText(l, "");
            Solid(raw + x) && ReadValue(raw + x) == Ok(ArgValue(None, raw), x)
  {
    LiteralReads(l, x);
    LiteralAppends(l, "", x);
    assert "" + x == x;
    TakenText(LiteralText(l, ""), x);
  }

  /** A value whose leading ignored tokens have already been skipped. */
  lemma BareWordReads(name: string, x: string)
    requires IsName(name) && !IsDigit(name[0]) && StopsName(x)
    ensures Solid(name + x) && ReadValue(name + x) == Ok(ArgValue(None, name), x)
  {
    NameReads([], name, x);
    assert name[0] in name;
  }

  lemma BareVariableReads(gap: Gap, name: string, x: string)
    requires GapOk(gap) && NameEnds(name, x)
    ensures ReadValue(['$'] + GapText(gap, name + x)) == Ok(ArgValue(None, "$" + name), x)
  {
    MaybeNameReads(gap, name, x);
    assert (['$'] + GapText(gap, name + x))[1..] == GapText(gap, name + x);
  }

  lemma BareListReads(items: seq<Item>, x: string)
    requires ItemsOk(items, SQUARE, [']'] + x)
    ensures var raw := SpanText(items, SQUARE, "");
            Solid(raw + x) && ReadValue(raw + x) == Ok(ArgValue(None, raw), x)
  {
    SpanValueReads(items, SQUARE, x);
  }

  lemma BareObjectReads(items: seq<Item>, x: string)
    requires ItemsOk(items, CURLY, ['}'] + x)
    ensures var raw := SpanText(items, CURLY, "");
            Solid(raw + x) && ReadValue(raw + x) == Ok(ArgValue(None, raw), x)
  {
    SpanValueReads(items, CURLY, x);
  }

  lemma NumberIsValue(s: string)
    requires Starts(s, '-') || (s != [] && IsDigit(s[0]))
    ensures Solid(s) && ReadValue(s) == ReadNumber(s)
  {
    assert SkipWS(s) == s;
  }

  lemma BareNumberReads(v: Value, x: string)
    requires (v.IntValue? || v.FloatValue?) && ValueOk(v, x)
    ensures Solid(RawOf(v) + x) && ReadValue(RawOf(v) + x) == Ok(ValueAst(v), x)
  {
    NumberReads(v, x);
    NumberIsValue(RawOf(v) + x);
  }

  lemma BareValueReads(v: Value, x: string)
    requires ValueOk(v, x)
    ensures Solid(ValueText(v, x)) && ReadValue(ValueText(v, x)) == Ok(ValueAst(v), x)
  {
    match v
    case Variable(gap, name) => BareVariableReads(gap, name, x);
    case StringValue(l) => StringValueReads(l, x);
    case ListValue(items) => BareListReads(items, x);
    case ObjectValue(items) => BareObjectReads(items, x);
    case IntValue(_, _) => BareNumberReads(v, x);
    case FloatValue(_, _, _) => BareNumberReads(v, x);
    case Word(name) => BareWordReads(name, x);
  }

  lemma ValueReads(g: Gap, v: Value, x: string)
    requires GapOk(g) && ValueOk(v, x)
    ensures ReadValue(GapText(g, ValueText(v, x))) == Ok(ValueAst(v), x)
  {
    BareValueReads(v, x);
    SkipGapSolid(g, ValueText(v, x));
    assert SkipWS(ValueText(v, x)) == ValueText(v, x);
  }

  // ------------------------------------------------------------ arguments

  datatype Arg = Arg(gap: Gap, name: string, colon: Gap, before: Gap, value: Value)

  function ArgsText(args: seq<Arg>, end: Gap, x: string): string
  {
    if args == [] then GapText(end, [')'] + x)
    else
      var a := args[0];
      GapText(a.gap, a.name + GapText(a.colon, [':'] + GapText(a.before, ValueText(a.value, ArgsText(args[1..], end, x)))))
  }

  predicate ArgsOk(args: seq<Arg>, end: Gap, x: string)
  {
    if args == [] then GapOk(end)
    else
      var a := args[0];
      && GapOk(a.gap) && IsName(a.name) && GapOk(a.colon) && GapOk(a.before)
      && ValueOk(a.value, ArgsText(args[1..], end, x))
      && ArgsOk(args[1..], end, x)
  }

  function ArgsAst(args: seq<Arg>, into: map<string, ArgValue>): map<string, ArgValue>
  {
    if args == [] then into else ArgsAst(args[1..], into[args[0].name := ValueAst(args[0].value)])
  }

  lemma ExpectReads(g: Gap, c: char, x: string)
    requires GapOk(g) && Solid([c] + x)
    ensures Expect(GapText(g, [c] + x), c) == Ok((), x)
  {
    SkipGapSolid(g, [c] + x);
    assert ([c] + x)[1..] == x;
  }

  lemma ArgReads(a: Arg, x: string, into: map<string, ArgValue>)
    requires GapOk(a.gap) && IsName(a.name) && GapOk(a.colon) && GapOk(a.before) && ValueOk(a.value, x)
    ensures var s := GapText(a.gap, a.name + GapText(a.colon, [':'] + GapText(a.before, ValueText(a.value, x))));
            ReadArgs(s, into) == ReadArgs(x, into[a.name := ValueAst(a.value)])
  {
    var y := GapText(a.before, ValueText(a.value, x));
    var z := GapText(a.colon, [':'] + y);
    ValueReads(a.before, a.value, x);
    ExpectReads(a.colon, ':', y);
    GapStops(a.colon, [':'] + y);
    NameReads(a.gap, a.name, z);
    assert a.name[0] in a.name;
    SkipGapSolid(a.gap, a.name + z);
  }

  lemma {:induction false} ArgsRead(args: seq<Arg>, end: Gap, x: string, into: map<string, ArgValue>)
    requires ArgsOk(args, end, x)
    ensures ReadArgs(ArgsText(args, end, x), into) == Ok(ArgsAst(args, into), x)
    decreases |args|
  {
    if args == [] {
      SkipGapSolid(end, [')'] + x);
      assert ([')'] + x)[1..] == x;
    } else {
      ArgReads(args[0], ArgsText(args[1..], end, x), into);
      ArgsRead(args[1..], end, x, into[args[0].name := ValueAst(args[0].value)]);
    }
  }

  // ----------------------------------------------------------- directives

  /** A parenthesised span that may be absent. */
  datatype MaybeSpan = NoSpan | RoundSpan(gap: Gap, items: seq<Item>)

  function MaybeSpanText(m: MaybeSpan, x: string): string
  {
    if m.NoSpan? then x else GapText(m.gap, SpanText(m.items, ROUND, x))
  }

  predicate MaybeSpanOk(m: MaybeSpan, x: string)
  {
    m.RoundSpan? ==> GapOk(m.gap) && ItemsOk(m.items, ROUND, [')'] + x)
  }

  /** What follows in the text does not begin with token `c`. */
  predicate NotNext(x: string, c: char) { !Starts(SkipWS(x), c) }

  lemma MaybeSpanReads(m: MaybeSpan, x: string)
    requires MaybeSpanOk(m, x) && NotNext(x, '(')
    ensures var u := SkipOptional(SkipWS(MaybeSpanText(m, x)));
            u.Ok? && SkipWS(u.rest) == SkipWS(x)
  {
    if m.NoSpan? {
      SkipTwice(x);
    } else {
      SpanReads(m.items, ROUND, x);
      SkipGapSolid(m.gap, SpanText(m.items, ROUND, x));
    }
  }

  datatype Directive = Directive(at: Gap, gap: Gap, name: string, args: MaybeSpan)

  function DirectivesText(ds: seq<Directive>, x: string): string
  {
    if ds == [] then x
    else
      var d := ds[0];
      GapText(d.at, ['@'] + GapText(d.gap, d.name + MaybeSpanText(d.args, DirectivesText(ds[1..], x))))
  }

  predicate DirectivesOk(ds: seq<Directive>, x: string)
  {
    ds != [] ==>
      var d, y := ds[0], DirectivesText(ds[1..], x);
      && GapOk(d.at) && GapOk(d.gap)
      && MaybeSpanOk(d.args, y) && NameEnds(d.name, MaybeSpanText(d.args, y))
      && DirectivesOk(ds[1..], x)
  }

  function DirectiveNames(ds: seq<Directive>): seq<string>
  {
    if ds == [] then [] else [ds[0].name] + DirectiveNames(ds[1..])
  }

  lemma DirectivesHead(ds: seq<Directive>, x: string, c: char)
    requires DirectivesOk(ds, x) && NotNext(x, c) && c != '@'
    ensures NotNext(DirectivesText(ds, x), c)
  {
    if ds != [] {
      SkipGapSolid(ds[0].at, ['@'] + GapText(ds[0].gap, ds[0].name + MaybeSpanText(ds[0].args, DirectivesText(ds[1..], x))));
    }
  }

  lemma DirectiveReads(d: Directive, y: string)
    requires GapOk(d.at) && GapOk(d.gap) && MaybeSpanOk(d.args, y)
    requires NameEnds(d.name, MaybeSpanText(d.args, y)) && NotNext(y, '(')
    ensures var s := SkipWS(GapText(d.at, ['@'] + GapText(d.gap, d.name + MaybeSpanText(d.args, y))));
            ReadDirectives(s) == Prepend([d.name], ReadDirectives(SkipWS(y)))
  {
    var z := MaybeSpanText(d.args, y);
    var s := ['@'] + GapText(d.gap, d.name + z);
    SkipGapSolid(d.at, s);
    MaybeNameReads(d.gap, d.name, z);
    assert s[1..] == GapText(d.gap, d.name + z);
    MaybeSpanReads(d.args, y);
  }

  lemma {:induction false} DirectivesRead(ds: seq<Directive>, x: string)
    requires DirectivesOk(ds, x) && NotNext(x, '(') && NotNext(x, '@')
    ensures ReadDirectives(SkipWS(DirectivesText(ds, x))) == Ok(DirectiveNames(ds), SkipWS(x))
    decreases |ds|
  {
    if ds != [] {
      DirectivesHead(ds[1..], x, '(');
      DirectiveReads(ds[0], DirectivesText(ds[1..], x));
      DirectivesRead(ds[1..], x);
    }
  }

  // ----------------------------------------------------------- selections

  datatype Braces = Braces(open: Gap, sels: seq<Sel>, close: Gap)

  datatype MaybeBraces = NoBraces | Sub(body: Braces)

  datatype MaybeAlias = NoAlias | Alias(name: string, colon: Gap, before: Gap)

  datatype MaybeArgs = NoArgs | Args(open: Gap, args: seq<Arg>, close: Gap)

  datatype Sel =
    | FieldNode(gap: Gap, alias: MaybeAlias, name: string, args: MaybeArgs, dirs: seq<Directive>, sub: MaybeBraces)
    | SpreadNode(gap: Gap, before: Gap, name: string)
    | InlineNode(gap: Gap, on: Gap, before: Gap, onType: string, dirs: seq<Directive>, body: Braces)

  function HeadText(alias: MaybeAlias, name: string, x: string): string
  {
    if alias.NoAlias? then name + x
    else alias.name + GapText(alias.colon, [':'] + GapText(alias.before, name + x))
  }

  predicate HeadOk(alias: MaybeAlias, name: string, x: string)
  {
    && IsName(name) && StopsName(x)
    && (alias.Alias? ==> IsName(alias.name) && GapOk(alias.colon) && GapOk(alias.before))
  }

  function AliasOf(alias: MaybeAlias): string { if alias.NoAlias? then "" else alias.name }

  lemma HeadReads(alias: MaybeAlias, name: string, x: string)
    requires HeadOk(alias, name, x) && NotNext(x, ':')
    ensures Solid(HeadText(alias, name, x)) && NameChar(HeadText(alias, name, x)[0])
    ensures ReadHead(HeadText(alias, name, x)) == Ok((name, AliasOf(alias)), SkipWS(x))
  {
    if alias.NoAlias? {
      NameReads([], name, x);
      assert name[0] in name;
    } else {
      var y := GapText(alias.before, name + x);
      var z := GapText(alias.colon, [':'] + y);
      GapStops(alias.colon, [':'] + y);
      NameReads([], alias.name, z);
      assert alias.name[0] in alias.name;
      SkipGapSolid(alias.colon, [':'] + y);
      assert ([':'] + y)[1..] == y;
      NameReads(alias.before, name, x);
      SkipGapSolid(alias.before, name + x);
      assert SkipWS(y) == name + x;
    }
  }

  function MaybeArgsText(m: MaybeArgs, x: string): string
  {
    if m.NoArgs? then x else GapText(m.open, ['('] + ArgsText(m.args, m.close, x))
  }

  predicate MaybeArgsOk(m: MaybeArgs, x: string)
  {
    m.Args? ==> GapOk(m.open) && ArgsOk(m.args, m.close, x)
  }

  function MaybeArgsAst(m: MaybeArgs): map<string, ArgValue>
  {
    if m.NoArgs? then map[] else ArgsAst(m.args, map[])
  }

  lemma MaybeArgsRead(m: MaybeArgs, x: string)
    requires MaybeArgsOk(m, x) && NotNext(x, '(')
    ensures var r := ReadOptionalArgs(SkipWS(MaybeArgsText(m, x)));
            r.Ok? && r.value == MaybeArgsAst(m) && SkipWS(r.rest) == SkipWS(x)
  {
    if m.NoArgs? {
      SkipTwice(x);
    } else {
      var y := ArgsText(m.args, m.close, x);
      SkipGapSolid(m.open, ['('] + y);
      assert (['('] + y)[1..] == y;
      ArgsRead(m.args, m.close, x, map[]);
    }
  }

  lemma MaybeArgsHead(m: MaybeArgs, x: string, c: char)
    requires MaybeArgsOk(m, x) && NotNext(x, c) && c != '('
    ensures NotNext(MaybeArgsText(m, x), c)
  {
    if m.Args? {
      SkipGapSolid(m.open, ['('] + ArgsText(m.args, m.close, x));
    }
  }

  function BracesText(b: Braces, x: string): string
    decreases b, 0
  {
    GapText(b.open, ['{'] + SelsText(b.sels, GapText(b.close, ['}'] + x)))
  }

  function MaybeBracesText(m: MaybeBraces, x: string): string
    decreases m, 1
  {
    if m.NoBraces? then x else BracesText(m.body, x)
  }

  function SelsText(sels: seq<Sel>, x: string): string
    decreases sels, 0
  {
    if sels == [] then x else SelText(sels[0], SelsText(sels[1..], x))
  }

  function FieldTail(args: MaybeArgs, dirs: seq<Directive>, sub: MaybeBraces, x: string): string
    decreases sub, 2
  {
    MaybeArgsText(args, DirectivesText(dirs, MaybeBracesText(sub, x)))
  }

  function SelText(s: Sel, x: string): string
    decreases s, 3
  {
    match s
    case FieldNode(gap, alias, name, args, dirs, sub) =>
      GapText(gap, HeadText(alias, name, FieldTail(args, dirs, sub, x)))
    case SpreadNode(gap, before, name) =>
      GapText(gap, "..." + GapText(before, name + x))
    case InlineNode(gap, on, before, onType, dirs, body) =>
      GapText(gap, "..." + GapText(on, "on" + GapText(before, onType + DirectivesText(dirs, BracesText(body, x)))))
  }

  predicate BracesOk(b: Braces, x: string)
    decreases b, 0
  {
    GapOk(b.open) && GapOk(b.close) && SelsOk(b.sels, GapText(b.close, ['}'] + x))
  }

  predicate SelsOk(sels: seq<Sel>, x: string)
    decreases sels, 0
  {
    sels != [] ==> SelOk(sels[0], SelsText(sels[1..], x)) && SelsOk(sels[1..], x)
  }

  predicate SelOk(s: Sel, x: string)
    decreases s, 3
  {
    match s
    case FieldNode(gap, alias, name, args, dirs, sub) =>
      && GapOk(gap)
      && HeadOk(alias, name, FieldTail(args, dirs, sub, x))
      && MaybeArgsOk(args, DirectivesText(dirs, MaybeBracesText(sub, x)))
      && DirectivesOk(dirs, MaybeBracesText(sub, x))
      && (sub.Sub? ==> BracesOk(sub.body, x))
    case SpreadNode(gap, before, name) =>
      GapOk(gap) && GapOk(before) && NameEnds(name, x) && name != "on"
    case InlineNode(gap, on, before, onType, dirs, body) =>
      var y := DirectivesText(dirs, BracesText(body, x));
      && GapOk(gap) && GapOk(on) && GapOk(before) && StopsName(GapText(before, onType + y))
      && NameEnds(onType, y) && DirectivesOk(dirs, BracesText(body, x)) && BracesOk(body, x)
  }

  function SelsAst(sels: seq<Sel>): seq<Selection>
    decreases sels, 0
  {
    if sels == [] then [] else [SelAst(sels[0])] + SelsAst(sels[1..])
  }

  function SelAst(s: Sel): Selection
    decreases s, 3
  {
    match s
    case FieldNode(_, alias, name, args, dirs, sub) =>
      FieldSel(Field(name, AliasOf(alias), MaybeArgsAst(args), DirectiveNames(dirs),
                     if sub.NoBraces? then [] else SelsAst(sub.body.sels)))
    case SpreadNode(_, _, name) => Spread(name)
    case InlineNode(_, _, _, onType, _, body) => Inline(onType, SelsAst(body.sels))
  }

  /** What can follow a selection: another one or the closing brace. */
  predicate FollowsSelection(x: string)
  {
    var t := SkipWS(x);
    t != [] && (NameChar(t[0]) || t[0] == '.' || t[0] == '}')
  }

  lemma SelHead(s: Sel, x: string)
    requires SelOk(s, x)
    ensures FollowsSelection(SelText(s, x)) && !Starts(SkipWS(SelText(s, x)), '}')
  {
    match s
    case FieldNode(gap, alias, name, args, dirs, sub) =>
      var y := FieldTail(args, dirs, sub, x);
      assert name[0] in name;
      assert alias.Alias? ==> alias.name[0] in alias.name;
      SkipGapSolid(gap, HeadText(alias, name, y));
    case SpreadNode(gap, before, name) =>
      SkipGapSolid(gap, "..." + GapText(before, name + x));
    case InlineNode(gap, on, before, onType, dirs, body) =>
      SkipGapSolid(gap, "..." + GapText(on, "on" + GapText(before, onType + DirectivesText(dirs, BracesText(body, x)))));
  }

  lemma SelsHead(sels: seq<Sel>, close: Gap, x: string)
    requires GapOk(close) && SelsOk(sels, GapText(close, ['}'] + x))
    ensures FollowsSelection(SelsText(sels, GapText(close, ['}'] + x)))
  {
    if sels == [] {
      SkipGapSolid(close, ['}'] + x);
    } else {
      SelHead(sels[0], SelsText(sels[1..], GapText(close, ['}'] + x)));
    }
  }

  lemma ReadSelsSkips(s: string, t: string)
    requires SkipWS(s) == SkipWS(t)
    ensures ReadSels(s) == ReadSels(t)
  {
  }

  lemma BracesHead(b: Braces, x: string)
    requires BracesOk(b, x)
    ensures Starts(SkipWS(BracesText(b, x)), '{')
  {
    SkipGapSolid(b.open, ['{'] + SelsText(b.sels, GapText(b.close, ['}'] + x)));
  }

  lemma {:induction false} BracesRead(b: Braces, x: string)
    requires BracesOk(b, x)
    ensures ReadSet(BracesText(b, x)) == Ok(SelsAst(b.sels), x)
    ensures ReadSet(SkipWS(BracesText(b, x))) == Ok(SelsAst(b.sels), x)
    decreases b, 0
  {
    var y := SelsText(b.sels, GapText(b.close, ['}'] + x));
    ExpectReads(b.open, '{', y);
    SkipTwice(BracesText(b, x));
    SelsRead(b.sels, b.close, x);
  }

  lemma {:induction false} SelsRead(sels: seq<Sel>, close: Gap, x: string)
    requires GapOk(close) && SelsOk(sels, GapText(close, ['}'] + x))
    ensures ReadSels(SelsText(sels, GapText(close, ['}'] + x))) == Ok(SelsAst(sels), x)
    decreases sels, 0
  {
    if sels == [] {
      SkipGapSolid(close, ['}'] + x);
      assert (['}'] + x)[1..] == x;
    } else {
      var y := SelsText(sels[1..], GapText(close, ['}'] + x));
      SelsHead(sels[1..], close, x);
      SelHead(sels[0], y);
      SelReads(sels[0], y);
      SelsRead(sels[1..], close, x);
      var one := ReadSel(SkipWS(SelText(sels[0], y)));
      ReadSelsSkips(one.rest, y);
    }
  }

  lemma {:induction false} SelReads(s: Sel, x: string)
    requires SelOk(s, x) && FollowsSelection(x)
    ensures SkipWS(SelText(s, x)) != []
    ensures var r := ReadSel(SkipWS(SelText(s, x)));
            r.Ok? && r.value == SelAst(s) && SkipWS(r.rest) == SkipWS(x)
    decreases s, 3
  {
    SelHead(s, x);
    match s
    case FieldNode(gap, alias, name, args, dirs, sub) =>
      FieldReads(alias, name, args, dirs, sub, x);
      SkipGapSolid(gap, HeadText(alias, name, FieldTail(args, dirs, sub, x)));
    case SpreadNode(gap, before, name) =>
      var t := "..." + GapText(before, name + x);
      SkipGapSolid(gap, t);
      assert t[3..] == GapText(before, name + x);
      MaybeNameReads(before, name, x);
      MaybeNameReads([], name, x);
    case InlineNode(gap, on, before, onType, dirs, body) =>
      InlineReads(gap, on, before, onType, dirs, body, x);
      BracesRead(body, x);
  }

  lemma InlineReads(gap: Gap, on: Gap, before: Gap, onType: string, dirs: seq<Directive>, body: Braces, x: string)
    requires SelOk(InlineNode(gap, on, before, onType, dirs, body), x)
    ensures var t := SkipWS(SelText(InlineNode(gap, on, before, onType, dirs, body), x));
            var u := SkipWS(BracesText(body, x));
            "..." <= t && ReadSel(t) == (if ReadSet(u).Bad? then Bad else Ok(Inline(onType, ReadSet(u).value), ReadSet(u).rest))
  {
    var z := BracesText(body, x);
    var y := DirectivesText(dirs, z);
    var v := GapText(before, onType + y);
    var t := "..." + GapText(on, "on" + v);
    SkipGapSolid(gap, t);
    assert t[3..] == GapText(on, "on" + v);
    NameReads(on, "on", v);
    SkipGapSolid(on, "on" + v);
    MaybeNameReads(before, onType, y);
    BracesHead(body, x);
    DirectivesRead(dirs, z);
  }

  lemma {:induction false} FieldReads(alias: MaybeAlias, name: string, args: MaybeArgs, dirs: seq<Directive>,
                                      sub: MaybeBraces, x: string)
    requires FollowsSelection(x)
    requires HeadOk(alias, name, FieldTail(args, dirs, sub, x))
    requires MaybeArgsOk(args, DirectivesText(dirs, MaybeBracesText(sub, x)))
    requires DirectivesOk(dirs, MaybeBracesText(sub, x))
    requires sub.Sub? ==> BracesOk(sub.body, x)
    ensures var t := HeadText(alias, name, FieldTail(args, dirs, sub, x));
            var r := ReadField(t);
            && Solid(t) && NameChar(t[0])
            && r.Ok? && SkipWS(r.rest) == SkipWS(x)
            && r.value == Field(name, AliasOf(alias), MaybeArgsAst(args), DirectiveNames(dirs),
                                if sub.NoBraces? then [] else SelsAst(sub.body.sels))
    decreases sub, 2
  {
    var z := MaybeBracesText(sub, x);
    if sub.Sub? {
      BracesHead(sub.body, x);
      BracesRead(sub.body, x);
    } else {
      SkipTwice(x);
    }
    FieldHeadReads(alias, name, args, dirs, z);
  }

  /** Name, alias, arguments and directives, in front of what follows them. */
  lemma FieldHeadReads(alias: MaybeAlias, name: string, args: MaybeArgs, dirs: seq<Directive>, z: string)
    requires HeadOk(alias, name, MaybeArgsText(args, DirectivesText(dirs, z)))
    requires MaybeArgsOk(args, DirectivesText(dirs, z)) && DirectivesOk(dirs, z)
    requires NotNext(z, '(') && NotNext(z, '@') && NotNext(z, ':')
    ensures var t := HeadText(alias, name, MaybeArgsText(args, DirectivesText(dirs, z)));
            && Solid(t) && NameChar(t[0])
            && ReadFlatField(t) ==
               Ok(Field(name, AliasOf(alias), MaybeArgsAst(args), DirectiveNames(dirs), []), SkipWS(z))
  {
    var y := DirectivesText(dirs, z);
    DirectivesRead(dirs, z);
    DirectivesHead(dirs, z, '(');
    DirectivesHead(dirs, z, ':');
    MaybeArgsRead(args, y);
    MaybeArgsHead(args, y, ':');
    HeadReads(alias, name, MaybeArgsText(args, y));
  }

  // ------------------------------------------------------------ documents

  datatype MaybeName = NoName | Named(gap: Gap, name: string)

  datatype Definition =
    | OperationDef(gap: Gap, kind: OperationKind, name: MaybeName, vars: MaybeSpan, dirs: seq<Directive>, body: Braces)
    | FragmentDef(gap: Gap, before: Gap, fragment: string, on: Gap, beforeType: Gap, onType: string, body: Braces)

  /** A comment at the very end of a document needs no line break. */
  datatype End = End(gap: Gap, comment: Option<string>)

  datatype Text = Shorthand(body: Braces, end: End) | Definitions(defs: seq<Definition>, end: End)

  function Keyword(kind: OperationKind): string { if kind == OpMutation then "mutation" else "query" }

  function MaybeNameText(m: MaybeName, x: string): string
  {
    if m.NoName? then x else GapText(m.gap, m.name + x)
  }

  function NameOr(m: MaybeName): string { if m.NoName? then "" else m.name }

  function SignatureText(d: Definition, x: string): string
    requires d.OperationDef?
  {
    MaybeSpanText(d.vars, DirectivesText(d.dirs, BracesText(d.body, x)))
  }

  function DefinitionText(d: Definition, x: string): string
  {
    match d
    case OperationDef(gap, kind, name, _, _, _) =>
      GapText(gap, Keyword(kind) + MaybeNameText(name, SignatureText(d, x)))
    case FragmentDef(gap, before, name, on, beforeType, onType, body) =>
      GapText(gap, "fragment" + GapText(before, name + GapText(on, "on" + GapText(beforeType, onType + BracesText(body, x)))))
  }

  predicate DefinitionOk(d: Definition, x: string)
  {
    match d
    case OperationDef(gap, kind, name, vars, dirs, body) =>
      && GapOk(gap) && BracesOk(body, x)
      && DirectivesOk(dirs, BracesText(body, x))
      && MaybeSpanOk(vars, DirectivesText(dirs, BracesText(body, x)))
      && StopsName(MaybeNameText(name, SignatureText(d, x)))
      && (name.Named? ==> GapOk(name.gap) && IsName(name.name) && StopsName(SignatureText(d, x)))
    case FragmentDef(gap, before, name, on, beforeType, onType, body) =>
      && GapOk(gap) && GapOk(before) && before != [] && IsName(name)
      && GapOk(on) && on != [] && GapOk(beforeType) && beforeType != [] && IsName(onType)
      && BracesOk(body, x)
  }

  function AddDefinition(d: Definition, doc: Document): Document
  {
    match d
    case OperationDef(_, kind, name, _, _, body) =>
      doc.(operations := doc.operations + [Operation(kind, NameOr(name), SelsAst(body.sels))])
    case FragmentDef(_, _, name, _, _, onType, body) =>
      doc.(fragments := doc.fragments[name := Fragment(name, onType, SelsAst(body.sels))])
  }

  function EndText(e: End): string
  {
    GapText(e.gap, if e.comment.None? then "" else ['#'] + e.comment.value)
  }

  predicate EndOk(e: End)
  {
    GapOk(e.gap) && (e.comment.Some? ==> '\n' !in e.comment.value)
  }

  function DefinitionsText(defs: seq<Definition>, x: string): string
  {
    if defs == [] then x else DefinitionText(defs[0], DefinitionsText(defs[1..], x))
  }

  predicate DefinitionsOk(defs: seq<Definition>, x: string)
  {
    defs != [] ==> DefinitionOk(defs[0], DefinitionsText(defs[1..], x)) && DefinitionsOk(defs[1..], x)
  }

  function DefinitionsAst(defs: seq<Definition>, doc: Document): Document
  {
    if defs == [] then doc else DefinitionsAst(defs[1..], AddDefinition(defs[0], doc))
  }

  /** The source text of a concrete document. */
  function Source(t: Text): string
  {
    match t
    case Shorthand(body, end) => BracesText(body, EndText(end))
    case Definitions(defs, end) => DefinitionsText(defs, EndText(end))
  }

  predicate TextOk(t: Text)
  {
    match t
    case Shorthand(body, end) => EndOk(end) && BracesOk(body, EndText(end))
    case Definitions(defs, end) =>
      EndOk(end) && DefinitionsOk(defs, EndText(end)) && exists d :: d in defs && d.OperationDef?
  }

  /** The document it denotes. */
  function Meaning(t: Text): Document
  {
    match t
    case Shorthand(body, _) => Document([Operation(OpQuery, "", SelsAst(body.sels))], map[])
    case Definitions(defs, _) => DefinitionsAst(defs, Document([], map[]))
  }

  lemma {:induction false} OpenComment(t: string)
    requires '\n' !in t
    ensures DropComment(t) == []
  {
    if t != [] {
      assert t[0] in t;
      OpenComment(t[1..]);
    }
  }

  lemma EndReads(e: End)
    requires EndOk(e)
    ensures SkipWS(EndText(e)) == []
  {
    if e.comment.None? {
      SkipGap(e.gap, "");
    } else {
      var s := ['#'] + e.comment.value;
      SkipGap(e.gap, s);
      assert s[1..] == e.comment.value;
      OpenComment(e.comment.value);
      assert DropComment(s) == [];
    }
  }

  lemma NameAbsent(x: string)
    requires SkipWS(x) != [] && !NameChar(SkipWS(x)[0])
    ensures ReadName(x) == "" && AfterName(x) == SkipWS(x)
  {
  }

  lemma SignatureHead(d: Definition, x: string)
    requires d.OperationDef? && DefinitionOk(d, x)
    ensures var t := SkipWS(SignatureText(d, x)); t != [] && !NameChar(t[0])
  {
    BracesHead(d.body, x);
    var z := BracesText(d.body, x);
    if d.dirs != [] {
      var e := d.dirs[0];
      SkipGapSolid(e.at, ['@'] + GapText(e.gap, e.name + MaybeSpanText(e.args, DirectivesText(d.dirs[1..], z))));
    }
    if d.vars.RoundSpan? {
      SkipGapSolid(d.vars.gap, SpanText(d.vars.items, ROUND, DirectivesText(d.dirs, z)));
    }
  }

  lemma OperationReads(d: Definition, x: string)
    requires d.OperationDef? && DefinitionOk(d, x)
    ensures ReadOperation(MaybeNameText(d.name, SignatureText(d, x)), d.kind) ==
            Ok(Operation(d.kind, NameOr(d.name), SelsAst(d.body.sels)), x)
  {
    var z := BracesText(d.body, x);
    var y := DirectivesText(d.dirs, z);
    var w := SignatureText(d, x);
    SignatureHead(d, x);
    if d.name.NoName? {
      NameAbsent(w);
      SkipTwice(w);
    } else {
      NameReads(d.name.gap, d.name.name, w);
    }
    BracesHead(d.body, x);
    BracesRead(d.body, x);
    DirectivesRead(d.dirs, z);
    DirectivesHead(d.dirs, z, '(');
    MaybeSpanReads(d.vars, y);
  }

  lemma FragmentReads(d: Definition, x: string)
    requires d.FragmentDef? && DefinitionOk(d, x)
    ensures var s := GapText(d.before, d.fragment + GapText(d.on, "on" + GapText(d.beforeType, d.onType + BracesText(d.body, x))));
            ReadFragment(s) == Ok(Fragment(d.fragment, d.onType, SelsAst(d.body.sels)), x)
  {
    var z := BracesText(d.body, x);
    GapStops(d.body.open, ['{'] + SelsText(d.body.sels, GapText(d.body.close, ['}'] + x)));
    GapStops(d.beforeType, d.onType + z);
    GapStops(d.on, "on" + GapText(d.beforeType, d.onType + z));
    NameReads(d.beforeType, d.onType, z);
    NameReads(d.on, "on", GapText(d.beforeType, d.onType + z));
    NameReads(d.before, d.fragment, GapText(d.on, "on" + GapText(d.beforeType, d.onType + z)));
    BracesRead(d.body, x);
  }

  /** The keyword that opens a definition is read off first. */
  lemma KeywordReads(gap: Gap, kw: string, y: string)
    requires GapOk(gap) && IsName(kw) && StopsName(y)
    ensures var s := SkipWS(GapText(gap, kw + y));
            Solid(s) && NameChar(s[0]) && ReadName(s) == kw && AfterName(s) == y
  {
    NameReads([], kw, y);
    assert kw[0] in kw;
    SkipGapSolid(gap, kw + y);
  }

  lemma OperationDefReads(d: Definition, x: string, doc: Document)
    requires d.OperationDef? && DefinitionOk(d, x)
    ensures var s := SkipWS(DefinitionText(d, x));
            && Solid(s) && NameChar(s[0])
            && ReadDefinitions(s, doc) == ReadDefinitions(SkipWS(x), AddDefinition(d, doc))
  {
    KeywordReads(d.gap, Keyword(d.kind), MaybeNameText(d.name, SignatureText(d, x)));
    OperationReads(d, x);
  }

  lemma FragmentDefReads(d: Definition, x: string, doc: Document)
    requires d.FragmentDef? && DefinitionOk(d, x)
    ensures var s := SkipWS(DefinitionText(d, x));
            && Solid(s) && NameChar(s[0])
            && ReadDefinitions(s, doc) == ReadDefinitions(SkipWS(x), AddDefinition(d, doc))
  {
    var y := d.fragment + GapText(d.on, "on" + GapText(d.beforeType, d.onType + BracesText(d.body, x)));
    GapStops(d.before, y);
    KeywordReads(d.gap, "fragment", GapText(d.before, y));
    FragmentReads(d, x);
  }

  lemma DefinitionReads(d: Definition, x: string, doc: Document)
    requires DefinitionOk(d, x)
    ensures var s := SkipWS(DefinitionText(d, x));
            && Solid(s) && NameChar(s[0])
            && ReadDefinitions(s, doc) == ReadDefinitions(SkipWS(x), AddDefinition(d, doc))
  {
    if d.OperationDef? {
      OperationDefReads(d, x, doc);
    } else {
      FragmentDefReads(d, x, doc);
    }
  }

  lemma {:induction false} DefinitionsRead(defs: seq<Definition>, x: string, doc: Document)
    requires DefinitionsOk(defs, x) && SkipWS(x) == []
    ensures ReadDefinitions(SkipWS(DefinitionsText(defs, x)), doc) == Ok(DefinitionsAst(defs, doc), [])
    decreases |defs|
  {
    if defs != [] {
      DefinitionReads(defs[0], DefinitionsText(defs[1..], x), doc);
      DefinitionsRead(defs[1..], x, AddDefinition(defs[0], doc));
    }
  }

  lemma {:induction false} OperationsCollected(defs: seq<Definition>, doc: Document)
    ensures |DefinitionsAst(defs, doc).operations| >= |doc.operations|
    ensures (exists d :: d in defs && d.OperationDef?) ==> DefinitionsAst(defs, doc).operations != []
    decreases |defs|
  {
    if defs != [] {
      OperationsCollected(defs[1..], AddDefinition(defs[0], doc));
      assert forall d | d in defs :: d == defs[0] || d in defs[1..];
    }
  }

  /** Whatever ignored tokens separate its tokens, a document reads back as itself. */
  lemma DocumentReads(t: Text)
    requires TextOk(t)
    ensures ReadDocument(Source(t)) == Ok(Meaning(t), [])
  {
    match t
    case Shorthand(body, end) =>
      BracesRead(body, EndText(end));
      BracesHead(body, EndText(end));
      EndReads(end);
    case Definitions(defs, end) =>
      EndReads(end);
      DefinitionReads(defs[0], DefinitionsText(defs[1..], EndText(end)), Document([], map[]));
      DefinitionsRead(defs, EndText(end), Document([], map[]));
      OperationsCollected(defs, Document([], map[]));
  }

  /** The parser itself returns the document that was written down. */
  method ParseRendered(t: Text) returns (r: Option<Document>)
    requires TextOk(t)
    ensures r == Some(Meaning(t))
  {
    DocumentReads(t);
    r := QueryParser.ParseQuery(Source(t));
  }
}

/** Legal GraphQL that the parser turns down, each form for every text that has it: a
    shorthand operation with something after it, a float with an exponent, directives on a
    fragment definition, subscriptions, and spreads with directives or without a type. */
module QueryRejects {
  import opened Common
  import opened QueryAst
  import opened QuerySyntax
  import opened QueryRender
  import opened QuerySpans

  // -------------------------------------------------- shorthand operations

  /** Nothing but ignored tokens may follow a shorthand operation. */
  lemma ShorthandStandsAlone(body: Braces, x: string)
    requires BracesOk(body, x) && SkipWS(x) != []
    ensures ReadDocument(BracesText(body, x)).Bad?
  {
    BracesHead(body, x);
    BracesRead(body, x);
  }

  /** So it cannot use a fragment: `{...F}fragment F on T{a}`. */
  lemma ShorthandWithFragment(src: string)
    requires src == "{...F}fragment F on T{a}"
    ensures ReadDocument(src).Bad?
  {
    var x := src[6..];
    assert src == "{...F}" + x;
    var sel := SpreadNode([], [], "F");
    var body := Braces([], [sel], []);
    SpreadText(sel, x);
    ShorthandStandsAlone(body, x);
  }

  lemma SpreadText(sel: Sel, x: string)
    requires sel == SpreadNode([], [], "F") && Solid(x)
    ensures BracesText(Braces([], [sel], []), x) == "{...F}" + x && BracesOk(Braces([], [sel], []), x) && SkipWS(x) != []
  {
    var y := ['}'] + x;
    var sels := [sel];
    assert sels[1..] == [];
    assert SelsText([], y) == y && SelsOk([], y);
    assert SelsText(sels, y) == SelText(sel, y) == "..." + ("F" + y);
    assert SelsOk(sels, y);
    assert GapText([], ['{'] + SelsText(sels, GapText([], y))) == ['{'] + ("..." + ("F" + y));
    assert ['{'] + ("..." + ("F" + y)) == "{...F}" + x;
  }

  // ------------------------------------------------------------- exponents

  /** The number is read alone, and its exponent taken for the name of an argument without a
      value. */
  lemma PowerIsRejected(a: Arg, exponent: string, x: string, into: map<string, ArgValue>)
    requires GapOk(a.gap) && IsName(a.name) && GapOk(a.colon) && GapOk(a.before)
    requires (a.value.IntValue? || a.value.FloatValue?) && ValueOk(a.value, exponent + x)
    requires IsName(exponent) && StopsName(x) && NotNext(x, ':')
    ensures ReadArgs(GapText(a.gap, a.name + GapText(a.colon, [':'] + GapText(a.before, ValueText(a.value, exponent + x)))), into).Bad?
  {
    ArgReads(a, exponent + x, into);
    NameReads([], exponent, x);
    assert exponent[0] in exponent;
  }

  /** As in `{a(x: 1e5)}`. */
  lemma PowerArgumentIsRejected(src: string)
    requires src == "{a(x: 1e5)}"
    ensures ReadDocument(src).Bad?
  {
    var args := src[3..];
    assert src == "{" + ("a" + ("(" + args));
    PowerArgs(args);
    FieldRejected(args);
    ShorthandRejected("a" + ("(" + args));
  }

  lemma PowerArgs(args: string)
    requires args == "x: 1e5)}"
    ensures ReadArgs(args, map[]).Bad?
  {
    var a := Arg([], "x", [], [Space(' ')], IntValue(false, "1"));
    var y := "e5" + ")}";
    PowerText(a, y);
    PowerIsRejected(a, "e5", ")}", map[]);
    PowerSplit(args, y);
  }

  lemma PowerSplit(args: string, y: string)
    requires args == "x: 1e5)}" && y == "e5" + ")}"
    ensures "x" + ([':'] + ([' '] + ("1" + y))) == args
  {
  }

  lemma PowerText(a: Arg, y: string)
    requires a == Arg([], "x", [], [Space(' ')], IntValue(false, "1"))
    ensures GapText(a.gap, a.name + GapText(a.colon, [':'] + GapText(a.before, ValueText(a.value, y)))) ==
            "x" + ([':'] + ([' '] + ("1" + y)))
  {
    assert [Space(' ')][1..] == [];
    assert "" + "1" == "1";
  }

  // -------------------------------------------------- fragment directives

  /** A fragment's type condition has to be followed by its selections. */
  lemma FragmentNeedsBody(s: string, t: string, u: string, z: string)
    requires AfterName(s) == t && AfterName(t) == u && AfterName(u) == z && !Starts(SkipWS(z), '{')
    ensures ReadFragment(s).Bad?
  {
  }

  /** The text of a fragment definition after its keyword, with a directive. */
  function Directed(name: string, onType: string, before: Gap, on: Gap, beforeType: Gap, at: Gap, x: string): string
  {
    GapText(before, name + GapText(on, "on" + GapText(beforeType, onType + GapText(at, ['@'] + x))))
  }

  lemma FragmentDirective(name: string, onType: string, before: Gap, on: Gap, beforeType: Gap, at: Gap, x: string)
    requires IsName(name) && IsName(onType) && GapOk(before) && GapOk(on) && GapOk(beforeType) && GapOk(at)
    requires on != [] && beforeType != []
    ensures ReadFragment(Directed(name, onType, before, on, beforeType, at, x)).Bad?
  {
    var z := GapText(at, ['@'] + x);
    var u := GapText(beforeType, onType + z);
    var t := GapText(on, "on" + u);
    GapStops(at, ['@'] + x);
    GapStops(beforeType, onType + z);
    GapStops(on, "on" + u);
    NameReads(beforeType, onType, z);
    NameReads(on, "on", u);
    NameReads(before, name, t);
    SkipGapSolid(at, ['@'] + x);
    FragmentNeedsBody(GapText(before, name + t), t, u, z);
  }

  /** A document that opens with such a definition. */
  lemma FragmentDirectiveIsRejected(g: Gap, s: string)
    requires GapOk(g) && StopsName(s) && ReadFragment(s).Bad?
    ensures ReadDocument(GapText(g, "fragment" + s)).Bad?
  {
    KeywordReads(g, "fragment", s);
  }

  /** As in `fragment F on T @d {a} query {...F}`. */
  lemma DirectedFragmentIsRejected(src: string)
    requires src == "fragment F on T @d {a} query {...F}"
    ensures ReadDocument(src).Bad?
  {
    var g, rest := [Space(' ')], src[17..];
    DirectedSplit(src, rest);
    var s := " F on T @" + rest;
    DirectedText(g, rest);
    FragmentDirective("F", "T", g, g, g, g, rest);
    FragmentDirectiveIsRejected([], s);
  }

  lemma DirectedSplit(src: string, rest: string)
    requires src == "fragment F on T @d {a} query {...F}" && rest == src[17..]
    ensures src == "fragment" + (" F on T @" + rest)
  {
  }

  lemma DirectedText(g: Gap, rest: string)
    requires g == [Space(' ')]
    ensures Directed("F", "T", g, g, g, g, rest) == " F on T @" + rest
  {
    var a := ['@'] + rest;
    var b := "T" + ([' '] + a);
    var c := "on" + ([' '] + b);
    var d := "F" + ([' '] + c);
    OneSpace(a);
    OneSpace(b);
    OneSpace(c);
    OneSpace(d);
    assert [' '] + d == " F on T @" + rest;
  }

  lemma OneSpace(x: string)
    ensures GapText([Space(' ')], x) == [' '] + x
  {
    assert [Space(' ')][1..] == [];
  }

  // --------------------------------------------------------- subscriptions

  /** A document that opens with any keyword but query, mutation and fragment. */
  lemma KeywordIsRejected(g: Gap, kw: string, x: string)
    requires GapOk(g) && IsName(kw) && StopsName(x) && kw != "query" && kw != "mutation" && kw != "fragment"
    ensures ReadDocument(GapText(g, kw + x)).Bad?
  {
    KeywordReads(g, kw, x);
  }

  lemma SubscriptionIsRejected(kw: string, x: string)
    requires kw == "subscription" && StopsName(x)
    ensures ReadDocument(kw + x).Bad?
  {
    KeywordIsRejected([], kw, x);
  }

  // --------------------------------------------------------------- spreads

  /** No selection starts with a directive or a brace. */
  lemma StrayToken(g: Gap, c: char, x: string)
    requires GapOk(g) && (c == '@' || c == '{')
    ensures ReadSels(GapText(g, [c] + x)).Bad?
  {
    var t := [c] + x;
    SkipGapSolid(g, t);
    assert SkipWS(t) == t && NameOf(t) == [];
    assert ReadField(t).Bad?;
    assert t[0] == c && !("..." <= t);
  }

  lemma SpreadIsRead(gap: Gap, before: Gap, name: string, y: string)
    requires GapOk(gap) && GapOk(before) && NameEnds(name, y) && name != "on"
    ensures var t := SkipWS(SelText(SpreadNode(gap, before, name), y));
            t != [] && t[0] == '.' && ReadSel(t) == Ok(Spread(name), y)
  {
    var t := "..." + GapText(before, name + y);
    SkipGapSolid(gap, t);
    assert t[3..] == GapText(before, name + y);
    MaybeNameReads(before, name, y);
    MaybeNameReads([], name, y);
  }

  /** A spread with a directive is turned down, and so is an inline fragment without a type,
      which is read as a spread without a name. */
  lemma SpreadStandsAlone(gap: Gap, before: Gap, name: string, g: Gap, c: char, x: string)
    requires GapOk(gap) && GapOk(before) && GapOk(g) && (c == '@' || c == '{')
    requires name != "on" && NameEnds(name, GapText(g, [c] + x))
    ensures ReadSels(SelText(SpreadNode(gap, before, name), GapText(g, [c] + x))).Bad?
  {
    SpreadIsRead(gap, before, name, GapText(g, [c] + x));
    StrayToken(g, c, x);
  }
}

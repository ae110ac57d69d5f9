/** What queries cost as they are written: the number an argument stands for, and two queries
    under the default weights. */
module CostQueries {
  import opened Common
  import opened QueryAst
  import opened CostWalk
  import opened CostAccount
  import opened CostAnalyzer
  import S = QuerySyntax
  import R = QueryRender

  // ----------------------------------------------------------- page arguments

  function Signed(negative: bool, whole: string): int
    requires R.AllDigits(whole)
  {
    var n: int := Natural(whole);
    if negative then -n else n
  }

  /** The integer a written value stands for, zero if it stands for none. */
  function Number(g: Settings, v: R.Value): int
    requires v.IntValue? ==> R.AllDigits(v.whole)
  {
    match v
    case IntValue(negative, whole) =>
      var n := Signed(negative, whole);
      if whole != "" && -0x8000_0000_0000_0000 <= n < 0x8000_0000_0000_0000 then n else 0
    case Variable(_, name) => if name != "" && name in g.vars then g.vars[name] else 0
    case _ => 0
  }

  lemma NotANumber(s: string)
    requires s != [] && ((exists i | 0 < i < |s| :: !IsDigit(s[i])) || (!IsDigit(s[0]) && s[0] != '-' && s[0] != '+'))
    ensures Atoi(s).None?
  {
    var signed := s[0] == '-' || s[0] == '+';
    var digits := if signed then s[1..] else s;
    if i :| 0 < i < |s| && !IsDigit(s[i]) {
      assert s[i] in digits;
    } else {
      assert s[0] in digits;
    }
  }

  lemma IntReads(negative: bool, whole: string)
    requires R.AllDigits(whole)
    ensures var n := Signed(negative, whole);
            Atoi(R.Sign(negative) + whole) ==
            if whole != "" && -0x8000_0000_0000_0000 <= n < 0x8000_0000_0000_0000 then Some(n) else None
  {
    var s := R.Sign(negative) + whole;
    if negative {
      assert s[0] == '-' && s[1..] == whole;
      AtoiIs(s, true, whole);
    } else {
      assert s == whole;
      assert whole != [] ==> whole[0] in whole;
      AtoiIs(s, false, whole);
    }
  }

  lemma AtoiIs(s: string, signed: bool, digits: string)
    requires R.AllDigits(digits) && (if signed then s != [] && s[0] == '-' && s[1..] == digits else s == digits)
    requires !signed && s != [] ==> s[0] != '-' && s[0] != '+'
    ensures var n := Signed(signed, digits);
            Atoi(s) == if digits != "" && -0x8000_0000_0000_0000 <= n < 0x8000_0000_0000_0000 then Some(n) else None
  {
  }

  /** The analyzer takes every argument for the integer it is written as: a literal in the
      64-bit range, or the value of a variable; anything else counts as zero. */
  lemma ArgumentCounts(g: Settings, args: map<string, ArgValue>, name: string, v: R.Value, x: string)
    requires R.ValueOk(v, x) && name in args && args[name] == R.ValueAst(v)
    ensures IntArg(g, args, name) == Number(g, v)
  {
    match v
    case IntValue(negative, whole) =>
      IntReads(negative, whole);
      assert whole != [] ==> whole[0] in whole;
      assert R.RawOf(v)[0] == if negative then '-' else whole[0];
    case Variable(_, n) =>
      var raw := "$" + n;
      assert raw[1..] == n;
      if n == "" {
        NotANumber(raw);
      }
    case FloatValue(negative, whole, fraction) =>
      var raw := R.RawOf(v);
      FloatHasPoint(negative, whole, fraction);
      NotANumber(raw);
    case StringValue(l) => NotANumber(R.RawOf(v));
    case ListValue(items) => NotANumber(R.RawOf(v));
    case ObjectValue(items) => NotANumber(R.RawOf(v));
    case Word(n) =>
      assert n[0] in n;
      NotANumber(n);
  }

  lemma FloatHasPoint(negative: bool, whole: string, fraction: string)
    requires negative || whole != []
    ensures var raw := R.Sign(negative) + (whole + (['.'] + fraction)); exists i | 0 < i < |raw| :: !IsDigit(raw[i])
  {
    var raw := R.Sign(negative) + (whole + (['.'] + fraction));
    var i := |R.Sign(negative)| + |whole|;
    assert raw[i] == '.';
  }

  lemma AbsentCountsNothing(g: Settings, args: map<string, ArgValue>, name: string)
    requires name !in args
    ensures IntArg(g, args, name) == 0
  {
  }

  // ------------------------------------------------------- the default weights

  function DefaultSettings(vars: map<string, int>): Settings
  {
    Settings(
      1,
      map[
        "Query" := map["repository" := Weight(1, []), "user" := Weight(1, []), "agent" := Weight(1, []),
                       "pullRequest" := Weight(2, []), "organization" := Weight(1, [])],
        "Repository" := map["owner" := Weight(1, []), "pullRequests" := Weight(2, ["first"]), "issues" := Weight(2, ["first"])],
        "Organization" := map["members" := Weight(2, ["first"])],
        "Mutation" := map["createPullRequest" := Weight(10, []), "createAgent" := Weight(10, []),
                          "updateAgentPermissions" := Weight(10, [])]],
      map[
        "Query" := map["repository" := "Repository", "user" := "User", "agent" := "Agent",
                       "pullRequest" := "PullRequest", "organization" := "Organization"],
        "Repository" := map["owner" := "User", "pullRequests" := "PullRequestConnection",
                            "issues" := "IssueConnection", "defaultBranch" := "Ref"],
        "Organization" := map["members" := "UserConnection"],
        "PullRequestConnection" := map["nodes" := "PullRequest", "pageInfo" := "PageInfo"],
        "IssueConnection" := map["nodes" := "Issue", "pageInfo" := "PageInfo"],
        "UserConnection" := map["nodes" := "User", "pageInfo" := "PageInfo"],
        "PullRequest" := map["author" := "User"],
        "Mutation" := map["createPullRequest" := "CreatePullRequestPayload", "createAgent" := "CreateAgentPayload",
                          "updateAgentPermissions" := "UpdateAgentPermissionsPayload"],
        "CreatePullRequestPayload" := map["pullRequest" := "PullRequest"],
        "CreateAgentPayload" := map["agent" := "Agent"],
        "UpdateAgentPermissionsPayload" := map["agent" := "Agent"]],
      20, 100, vars)
  }

  // ------------------------------------------------------------- a mutation

  const GAP: R.Gap := [R.Space(' ')]

  lemma GapText(x: string)
    ensures R.GapText(GAP, x) == [' '] + x && R.GapOk(GAP)
  {
    assert GAP[1..] == [];
  }

  /** `name` with a blank before it. */
  function Leaf(name: string): R.Sel { R.FieldNode(GAP, R.NoAlias, name, R.NoArgs, [], R.NoBraces) }

  function LeafField(name: string): Field { Field(name, "", map[], [], []) }

  lemma LeafText(name: string, x: string)
    requires R.IsName(name) && R.StopsName(x)
    ensures R.SelText(Leaf(name), x) == [' '] + (name + x) && R.SelOk(Leaf(name), x)
    ensures R.SelAst(Leaf(name)) == FieldSel(LeafField(name))
  {
    GapText(name + x);
  }

  /** One selection in braces, blanks around it. */
  function Set(before: R.Gap, sel: R.Sel): R.Braces { R.Braces(before, [sel], GAP) }

  lemma SetText(before: R.Gap, sel: R.Sel, x: string)
    requires R.GapOk(before) && R.SelOk(sel, [' ', '}'] + x)
    ensures R.BracesText(Set(before, sel), x) == R.GapText(before, ['{'] + R.SelText(sel, [' ', '}'] + x))
    ensures R.BracesOk(Set(before, sel), x) && R.SelsAst([sel]) == [R.SelAst(sel)]
  {
    GapText(['}'] + x);
    assert [' '] + (['}'] + x) == [' ', '}'] + x;
    OneSel(sel, [' ', '}'] + x);
  }

  lemma OneSel(sel: R.Sel, y: string)
    ensures R.SelsText([sel], y) == R.SelText(sel, y) && (R.SelsOk([sel], y) <==> R.SelOk(sel, y)) && R.SelsAst([sel]) == [R.SelAst(sel)]
  {
    assert [sel][1..] == [];
    assert R.SelsText([], y) == y && R.SelsOk([], y) && R.SelsAst([]) == [];
  }

  function MutationOf(name: string): Operation { Operation(OpMutation, "", [FieldSel(LeafField(name))]) }

  /** The text `mutation { name }`. */
  lemma MutationReads(src: string, name: string)
    requires R.IsName(name) && src == "mutation" + ([' ', '{', ' '] + (name + [' ', '}']))
    ensures S.ReadDocument(src) == S.Ok(Document([MutationOf(name)], map[]), [])
  {
    var x := "";
    var d := R.OperationDef([], OpMutation, R.NoName, R.NoSpan, [], Set(GAP, Leaf(name)));
    LeafText(name, [' ', '}'] + x);
    SetText(GAP, Leaf(name), x);
    GapText(['{'] + R.SelText(Leaf(name), [' ', '}'] + x));
    var t := R.Definitions([d], R.End([], None));
    assert [d][1..] == [] && d in [d];
    assert R.DefinitionsText([d], x) == R.DefinitionText(d, x);
    assert [' '] + (['{'] + ([' '] + (name + ([' ', '}'] + x)))) == [' ', '{', ' '] + (name + [' ', '}']);
    assert R.Source(t) == src;
    assert R.TextOk(t);
    R.DocumentReads(t);
    var op := MutationOf(name);
    assert R.AddDefinition(d, Document([], map[])) == Document([] + [op], map[]);
    assert [] + [op] == [op];
    assert R.DefinitionsAst([], Document([op], map[])) == Document([op], map[]);
  }

  lemma OneOccurrence(doc: Document, name: string, path: seq<Hop>)
    requires !("__" <= name)
    ensures Occurrences(doc, [FieldSel(LeafField(name))], path, {}) == [Occurrence(path, LeafField(name))]
  {
    var s := FieldSel(LeafField(name));
    assert [s][1..] == [];
    assert Occurrences(doc, [], path + [Into(name)], {}) == [];
    assert OccurrencesOne(doc, s, path, {}) == [Occurrence(path, LeafField(name))];
  }

  /** `mutation { createPullRequest }` costs ten. */
  lemma MutationCosts(src: string, name: string, vars: map<string, int>, lim: Limits)
    requires name == "createPullRequest" && src == "mutation" + ([' ', '{', ' '] + (name + [' ', '}']))
    ensures S.ReadDocument(src) == S.Ok(Document([MutationOf(name)], map[]), [])
    ensures Costs(DefaultSettings(vars), lim, Document([MutationOf(name)], map[]), MutationOf(name), false, Cost(1, 10))
  {
    assert R.IsName(name) && name[0] == 'c';
    MutationReads(src, name);
    var doc, o := Document([MutationOf(name)], map[]), Occurrence([], LeafField(name));
    OneOccurrence(doc, name, []);
    MutationPrice(name, vars);
    assert [o][1..] == [];
  }

  lemma MutationPrice(name: string, vars: map<string, int>)
    requires name == "createPullRequest"
    ensures Price(DefaultSettings(vars), "Mutation", Occurrence([], LeafField(name))) == 10
  {
  }

  // ------------------------------------------------------- a nested connection

  function Paged(g: R.Gap, name: string, arg: string, digits: string, sub: R.Sel): R.Sel
  {
    R.FieldNode(g, R.NoAlias, name, R.Args([], [R.Arg([], arg, [], GAP, R.IntValue(false, digits))], []), [], R.Sub(Set(GAP, sub)))
  }

  function PagedField(name: string, arg: string, digits: string, sub: Field): Field
  {
    Field(name, "", map[arg := ArgValue(Atoi(digits), digits)], [], [FieldSel(sub)])
  }

  lemma ArgText(arg: string, digits: string, x: string)
    requires R.IsName(arg) && digits != "" && R.AllDigits(digits)
    ensures var m := R.Args([], [R.Arg([], arg, [], GAP, R.IntValue(false, digits))], []);
            && R.MaybeArgsText(m, x) == ['('] + (arg + ([':', ' '] + (digits + ([')'] + x)))) && R.MaybeArgsOk(m, x)
            && R.MaybeArgsAst(m) == map[arg := ArgValue(Atoi(digits), digits)]
  {
    var v := R.IntValue(false, digits);
    var args := [R.Arg([], arg, [], GAP, v)];
    var y := [')'] + x;
    assert args[1..] == [];
    assert R.RawOf(v) == digits by {
      assert "" + digits == digits;
    }
    assert R.ArgsText([], [], x) == y && R.ArgsOk([], [], x);
    GapText(digits + y);
    assert [':'] + ([' '] + (digits + y)) == [':', ' '] + (digits + y);
    assert R.ArgsAst([], map[arg := R.ValueAst(v)]) == map[arg := R.ValueAst(v)];
  }

  /** A field with arguments and a selection set. */
  lemma NodeText(name: string, args: R.MaybeArgs, body: R.Braces, x: string)
    requires R.IsName(name) && R.MaybeArgsOk(args, R.BracesText(body, x)) && R.BracesOk(body, x)
    requires R.StopsName(R.MaybeArgsText(args, R.BracesText(body, x)))
    ensures var node := R.FieldNode(GAP, R.NoAlias, name, args, [], R.Sub(body));
            && R.SelText(node, x) == [' '] + (name + R.MaybeArgsText(args, R.BracesText(body, x))) && R.SelOk(node, x)
            && R.SelAst(node) == FieldSel(Field(name, "", R.MaybeArgsAst(args), [], R.SelsAst(body.sels)))
  {
    var y := R.BracesText(body, x);
    assert R.MaybeBracesText(R.Sub(body), x) == y;
    assert R.DirectivesText([], y) == y && R.DirectivesOk([], y);
    assert R.FieldTail(args, [], R.Sub(body), x) == R.MaybeArgsText(args, y);
    GapText(name + R.MaybeArgsText(args, y));
  }

  lemma PagedText(name: string, arg: string, digits: string, sub: R.Sel, x: string)
    requires R.IsName(name) && R.IsName(arg) && digits != "" && R.AllDigits(digits) && R.SelOk(sub, [' ', '}'] + x)
    ensures var rest := [' ', '{'] + R.SelText(sub, [' ', '}'] + x);
            R.SelText(Paged(GAP, name, arg, digits, sub), x) == [' '] + (name + (['('] + (arg + ([':', ' '] + (digits + ([')'] + rest))))))
    ensures R.SelOk(Paged(GAP, name, arg, digits, sub), x)
    ensures R.SelAst(sub).FieldSel? ==>
              R.SelAst(Paged(GAP, name, arg, digits, sub)) == FieldSel(PagedField(name, arg, digits, R.SelAst(sub).field))
  {
    var rest := SubText(sub, x);
    var args := R.Args([], [R.Arg([], arg, [], GAP, R.IntValue(false, digits))], []);
    ArgText(arg, digits, rest);
    NodeText(name, args, Set(GAP, sub), x);
  }

  lemma SubText(sub: R.Sel, x: string) returns (rest: string)
    requires R.SelOk(sub, [' ', '}'] + x)
    ensures rest == [' ', '{'] + R.SelText(sub, [' ', '}'] + x) && R.BracesText(Set(GAP, sub), x) == rest
    ensures R.BracesOk(Set(GAP, sub), x) && R.SelsAst([sub]) == [R.SelAst(sub)]
  {
    SetText(GAP, sub, x);
    var inner := ['{'] + R.SelText(sub, [' ', '}'] + x);
    GapText(inner);
    rest := [' '] + inner;
    assert rest == [' ', '{'] + R.SelText(sub, [' ', '}'] + x);
  }

  function Nest(g: R.Gap, name: string, sub: R.Sel): R.Sel { R.FieldNode(g, R.NoAlias, name, R.NoArgs, [], R.Sub(Set(GAP, sub))) }

  lemma NestText(name: string, sub: R.Sel, x: string)
    requires R.IsName(name) && R.SelOk(sub, [' ', '}'] + x)
    ensures R.SelText(Nest(GAP, name, sub), x) == [' '] + (name + ([' ', '{'] + R.SelText(sub, [' ', '}'] + x)))
    ensures R.SelOk(Nest(GAP, name, sub), x)
    ensures R.SelAst(Nest(GAP, name, sub)) == FieldSel(Field(name, "", map[], [], [R.SelAst(sub)]))
  {
    var rest := SubText(sub, x);
    NodeText(name, R.NoArgs, Set(GAP, sub), x);
  }

  function ConnectionOf(a: string, b: string, arg: string, digits: string, c: string): Operation
  {
    Operation(OpQuery, "", [FieldSel(Field(a, "", map[], [], [FieldSel(PagedField(b, arg, digits, LeafField(c)))]))])
  }

  /** The text `{ a { b(arg: digits) { c } } }`. */
  function ConnectionText(a: string, b: string, arg: string, digits: string, c: string): string
  {
    ['{'] + ([' '] + (a + ([' ', '{'] + ([' '] + (b + (['('] + (arg + ([':', ' '] + (digits + ([')'] + ([' ', '{'] + ([' '] + (c +
      ([' ', '}'] + ([' ', '}'] + ([' ', '}'] + []))))))))))))))))
  }

  lemma ConnectionReads(src: string, a: string, b: string, arg: string, digits: string, c: string)
    requires R.IsName(a) && R.IsName(b) && R.IsName(arg) && digits != "" && R.AllDigits(digits) && R.IsName(c)
    requires src == ConnectionText(a, b, arg, digits, c)
    ensures S.ReadDocument(src) == S.Ok(Document([ConnectionOf(a, b, arg, digits, c)], map[]), [])
  {
    var x1: string := [' ', '}'] + [];
    var x2 := [' ', '}'] + x1;
    LeafText(c, [' ', '}'] + x2);
    PagedText(b, arg, digits, Leaf(c), x2);
    NestText(a, Paged(GAP, b, arg, digits, Leaf(c)), x1);
    var sel := Nest(GAP, a, Paged(GAP, b, arg, digits, Leaf(c)));
    SetText([], sel, []);
    var t := R.Shorthand(Set([], sel), R.End([], None));
    assert R.EndText(R.End([], None)) == "";
    assert R.Source(t) == src;
    R.DocumentReads(t);
  }

  lemma NestedOccurrences(doc: Document, a: string, b: string, arg: string, digits: string, c: string)
    requires !("__" <= a) && !("__" <= b) && !("__" <= c)
    ensures var inner := PagedField(b, arg, digits, LeafField(c));
            Occurrences(doc, ConnectionOf(a, b, arg, digits, c).sels, [], {}) ==
            [Occurrence([], Field(a, "", map[], [], [FieldSel(inner)])), Occurrence([Into(a)], inner),
             Occurrence([Into(a), Into(b)], LeafField(c))]
  {
    var inner := PagedField(b, arg, digits, LeafField(c));
    var outer := Field(a, "", map[], [], [FieldSel(inner)]);
    assert [] + [Into(a)] == [Into(a)] && [Into(a)] + [Into(b)] == [Into(a), Into(b)];
    OneOccurrence(doc, c, [Into(a), Into(b)]);
    OneField(doc, inner, [Into(a)]);
    OneField(doc, outer, []);
  }

  lemma OneField(doc: Document, f: Field, path: seq<Hop>)
    requires !("__" <= f.name)
    ensures Occurrences(doc, [FieldSel(f)], path, {}) == [Occurrence(path, f)] + Occurrences(doc, f.sels, path + [Into(f.name)], {})
  {
    assert [FieldSel(f)][1..] == [];
    assert Occurrences(doc, [], path, {}) == [];
    var os := [Occurrence(path, f)] + Occurrences(doc, f.sels, path + [Into(f.name)], {});
    assert OccurrencesOne(doc, FieldSel(f), path, {}) == os;
    assert os + [] == os;
  }

  lemma HundredReads(digits: string)
    requires digits == "100"
    ensures R.AllDigits(digits) && Atoi(digits) == Some(100)
  {
    assert digits[..2] == "10" && digits[..2][..1] == "1" && digits[..2][..1][..0] == "";
    assert Natural(digits[..2][..1][..0]) == 0;
    assert Natural(digits[..2][..1]) == 1;
    assert Natural(digits[..2]) == 10;
  }

  /** The types of `repository`, of its `pullRequests` and of their `nodes`. */
  lemma ConnectionTypes(g: Settings, vars: map<string, int>, a: string, b: string)
    requires g == DefaultSettings(vars) && a == "repository" && b == "pullRequests"
    ensures TypeAt(g, "Query", []) == "Query" && TypeAt(g, "Query", [Into(a)]) == "Repository"
    ensures TypeAt(g, "Query", [Into(a), Into(b)]) == "PullRequestConnection"
  {
    assert [Into(a)][..0] == [] && [Into(a), Into(b)][..1] == [Into(a)];
  }

  lemma ConnectionPrices(g: Settings, vars: map<string, int>, a: string, b: string, arg: string, digits: string, c: string)
    requires g == DefaultSettings(vars)
    requires a == "repository" && b == "pullRequests" && arg == "first" && digits == "100" && c == "nodes"
    ensures var inner := PagedField(b, arg, digits, LeafField(c));
            && Price(g, "Query", Occurrence([], Field(a, "", map[], [], [FieldSel(inner)]))) == 1
            && Price(g, "Query", Occurrence([Into(a)], inner)) == 200
            && Price(g, "Query", Occurrence([Into(a), Into(b)], LeafField(c))) == 1
  {
    HundredReads(digits);
    ConnectionTypes(g, vars, a, b);
    PageOfHundred(g, PagedField(b, arg, digits, LeafField(c)).args, arg);
  }

  lemma PageOfHundred(g: Settings, args: map<string, ArgValue>, arg: string)
    requires arg in args && args[arg].intValue == Some(100) && g.maxFirst == 100
    ensures PageSize(g, args, [arg]) == 100
  {
  }

  /** `{ repository { pullRequests(first: 100) { nodes } } }` costs 202 and is three deep. */
  lemma ConnectionCosts(src: string, vars: map<string, int>, lim: Limits,
                        a: string, b: string, arg: string, digits: string, c: string)
    requires a == "repository" && b == "pullRequests" && arg == "first" && digits == "100" && c == "nodes"
    requires src == ConnectionText(a, b, arg, digits, c)
    ensures var op := ConnectionOf(a, b, arg, digits, c);
            && S.ReadDocument(src) == S.Ok(Document([op], map[]), [])
            && Costs(DefaultSettings(vars), lim, Document([op], map[]), op, false, Cost(3, 202))
  {
    PlainNames(a, b, arg, c);
    HundredReads(digits);
    ConnectionReads(src, a, b, arg, digits, c);
    ConnectionPrices(DefaultSettings(vars), vars, a, b, arg, digits, c);
    var op := ConnectionOf(a, b, arg, digits, c);
    NestedOccurrences(Document([op], map[]), a, b, arg, digits, c);
    var inner := PagedField(b, arg, digits, LeafField(c));
    ThreeDeep(DefaultSettings(vars), Occurrence([], Field(a, "", map[], [], [FieldSel(inner)])), Occurrence([Into(a)], inner),
              Occurrence([Into(a), Into(b)], LeafField(c)));
  }

  lemma PlainNames(a: string, b: string, arg: string, c: string)
    requires a == "repository" && b == "pullRequests" && arg == "first" && c == "nodes"
    ensures R.IsName(a) && R.IsName(b) && R.IsName(arg) && R.IsName(c) && !("__" <= a) && !("__" <= b) && !("__" <= c)
  {
    assert a[0] == 'r' && b[0] == 'p' && c[0] == 'n';
  }

  lemma ThreeDeep(g: Settings, x: Occurrence, y: Occurrence, z: Occurrence)
    requires x.path == [] && |y.path| == 1 && y.path[0].Into? && |z.path| == 2 && z.path[0].Into? && z.path[1].Into?
    requires x.field.sels != [] && y.field.sels != [] && z.field.sels == []
    ensures Total(g, "Query", [x, y, z]) == Price(g, "Query", x) + Price(g, "Query", y) + Price(g, "Query", z)
    ensures Deepest([x, y, z], 1, 3)
  {
    assert [x, y, z][1..] == [y, z] && [y, z][1..] == [z] && [z][1..] == [];
    assert Total(g, "Query", [z]) == Price(g, "Query", z);
    assert Total(g, "Query", [y, z]) == Price(g, "Query", y) + Total(g, "Query", [z]);
    assert Levels([]) == 0 && y.path[..0] == [] && Levels(y.path) == 1;
    assert y in [x, y, z];
  }
}

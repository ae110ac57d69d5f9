/** `Analyze`: parse, pick the operation, walk it, discount, and compare with
    the limits of the principal's class. */
module CostAnalyzer {
  import opened Common
  import opened QueryAst
  import opened CostWalk
  import opened CostAccount
  import S = QuerySyntax
  import P = QueryParser

  datatype PrincipalKind = Unknown | Human | Agent

  /** A class without an entry, or with an entry of zero or less, is unlimited. */
  datatype Limits = Limits(
    maxDepth: map<PrincipalKind, int>, maxComplexity: map<PrincipalKind, int>, persistedDiscount: real)

  const DEFAULT_LIMITS := Limits(map[Human := 10, Agent := 8], map[Human := 1000, Agent := 5000], 0.5)

  datatype Cost = Cost(depth: int, complexity: int)

  datatype Reason = ParseError | UnknownOperation | AmbiguousOperation | BadFragment(e: WalkError)

  datatype Verdict =
    | Accepted(cost: Cost)
    | TooDeep(cost: Cost)
    | TooComplex(cost: Cost)
    | Invalid(reason: Reason)

  datatype Picked = Op(op: Operation) | NotPicked(reason: Reason)

  function PickOperation(doc: Document, name: string): (r: Picked)
    ensures r.Op? ==> r.op in doc.operations
    ensures r.Op? && |doc.operations| > 1 ==> name != "" && r.op.name == name
    ensures r.NotPicked? ==> r.reason == UnknownOperation || r.reason == AmbiguousOperation
    ensures |doc.operations| == 1 ==> (r.Op? <==> name == "" || doc.operations[0].name == "" || doc.operations[0].name == name)
    ensures |doc.operations| > 1 ==> (r.Op? <==> name != "" && exists op :: op in doc.operations && op.name == name)
    ensures r.Op? && |doc.operations| > 1 ==>
              exists i | 0 <= i < |doc.operations| :: doc.operations[i] == r.op && forall j | 0 <= j < i :: doc.operations[j].name != name
    ensures r == NotPicked(AmbiguousOperation) <==> |doc.operations| > 1 && name == ""
  {
    if |doc.operations| == 0 then NotPicked(UnknownOperation)
    else if |doc.operations| == 1 then
      var op := doc.operations[0];
      if name != "" && op.name != name && op.name != "" then NotPicked(UnknownOperation) else Op(op)
    else if name == "" then NotPicked(AmbiguousOperation)
    else FirstNamed(doc.operations, name)
  }

  function FirstNamed(ops: seq<Operation>, name: string): (r: Picked)
    ensures r.Op? ==> exists i | 0 <= i < |ops| :: ops[i] == r.op && r.op.name == name && forall j | 0 <= j < i :: ops[j].name != name
    ensures r.NotPicked? ==> r.reason == UnknownOperation && forall op | op in ops :: op.name != name
  {
    if ops == [] then NotPicked(UnknownOperation)
    else if ops[0].name == name then Op(ops[0])
    else
      var rest := FirstNamed(ops[1..], name);
      assert rest.Op? ==> forall i | 0 <= i < |ops| - 1 :: ops[1..][i] == ops[i + 1];
      rest
  }

  function Ceil(x: real): int { -((-x).Floor) }

  function Discounted(lim: Limits, complexity: int, persisted: bool): int
  {
    if persisted && lim.persistedDiscount > 0.0 then Ceil(complexity as real * lim.persistedDiscount) else complexity
  }

  predicate Over(limit: map<PrincipalKind, int>, kind: PrincipalKind, v: int)
  {
    kind in limit && limit[kind] > 0 && v > limit[kind]
  }

  function RootType(kind: OperationKind): string { if kind == OpMutation then "Mutation" else "Query" }

  /** The cost the verdict is about: that of the operation with all spreads inlined. */
  function CostOf(g: Settings, lim: Limits, doc: Document, op: Operation, persisted: bool): Cost
  {
    var flat := Inlined(g, doc, op.sels, RootType(op.kind), {});
    Cost(Depth(flat, 1), Discounted(lim, Complexity(flat), persisted))
  }

  /** The cost of an operation, from its field occurrences: their total, rounded up after a
      discount, and their deepest nesting. */
  ghost predicate Costs(g: Settings, lim: Limits, doc: Document, op: Operation, persisted: bool, cost: Cost)
  {
    var os := Occurrences(doc, op.sels, [], {});
    var total := Total(g, if op.kind == OpMutation then "Mutation" else "Query", os);
    && Deepest(os, 1, cost.depth)
    && (if persisted && lim.persistedDiscount > 0.0
        then cost.complexity as real - 1.0 < total as real * lim.persistedDiscount <= cost.complexity as real
        else cost.complexity == total)
  }

  lemma CostIs(g: Settings, lim: Limits, doc: Document, op: Operation, persisted: bool)
    ensures Costs(g, lim, doc, op, persisted, CostOf(g, lim, doc, op, persisted))
  {
    BillAgrees(g, doc, op.sels, RootType(op.kind), [], {});
  }

  /** A cost is determined by what is said of it. */
  lemma CostIsUnique(g: Settings, lim: Limits, doc: Document, op: Operation, persisted: bool, c: Cost, d: Cost)
    requires Costs(g, lim, doc, op, persisted, c) && Costs(g, lim, doc, op, persisted, d)
    ensures c == d
  {
  }

  /** Walks the operation and applies the discount. */
  method Measure(g: Settings, lim: Limits, doc: Document, op: Operation, persisted: bool)
    returns (err: Option<WalkError>, c: Cost)
    ensures err == Failure(doc, op.sels, {})
    ensures err.None? ==> Costs(g, lim, doc, op, persisted, c)
  {
    var w := new Walker(g, doc);
    err := w.Walk(op.sels, RootType(op.kind), 1);
    DepthAtLeast(Inlined(g, doc, op.sels, RootType(op.kind), {}), 1);
    CostIs(g, lim, doc, op, persisted);
    c := Cost(w.depth, Discounted(lim, w.complexity, persisted));
  }

  method Analyze(g: Settings, lim: Limits, src: string, opName: string, kind: PrincipalKind, persisted: bool)
    returns (v: Verdict)
    ensures v == Invalid(ParseError) <==> S.ReadDocument(src).Bad?
    ensures S.ReadDocument(src).Ok? ==>
      var doc := S.ReadDocument(src).value;
      var p := PickOperation(doc, opName);
      && (p.NotPicked? ==> v == Invalid(p.reason))
      && (p.Op? ==>
            var failure := Failure(doc, p.op.sels, {});
            && (failure.Some? ==> v == Invalid(BadFragment(failure.value)))
            && (failure.None? ==>
                  && !v.Invalid? && Costs(g, lim, doc, p.op, persisted, v.cost)
                  && (v.TooDeep? <==> kind in lim.maxDepth && 0 < lim.maxDepth[kind] < v.cost.depth)
                  && (v.TooComplex? <==> !v.TooDeep? && kind in lim.maxComplexity && 0 < lim.maxComplexity[kind] < v.cost.complexity)))
  {
    var doc := P.ParseQuery(src);
    if doc.None? {
      return Invalid(ParseError);
    }
    var p := PickOperation(doc.value, opName);
    if p.NotPicked? {
      return Invalid(p.reason);
    }
    var err, c := Measure(g, lim, doc.value, p.op, persisted);
    if err.Some? {
      return Invalid(BadFragment(err.value));
    }
    if Over(lim.maxDepth, kind, c.depth) {
      return TooDeep(c);
    }
    if Over(lim.maxComplexity, kind, c.complexity) {
      return TooComplex(c);
    }
    v := Accepted(c);
  }
}

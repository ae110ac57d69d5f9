/** The pre-execution cost walk: it follows named fragment spreads with a
    path-based `visited` map.  The reference is the operation with every spread
    inlined, and graph reachability decides exactly when the walk fails. */
module CostWalk {
  import opened Common
  import opened QueryAst

  // ------------------------------------------------------- configuration

  datatype Weight = Weight(weight: int, multipliers: seq<string>)

  /** Analyzer settings plus the integer values of the request's variables
      (a variable that is absent or not an integer is not in the map). */
  datatype Settings = Settings(
    defaultWeight: int,
    perType: map<string, map<string, Weight>>,
    childTypes: map<string, map<string, string>>,
    defaultFirst: int,
    maxFirst: int,
    vars: map<string, int>)

  function WeightFor(g: Settings, parent: string, field: string): Weight
  {
    if parent in g.perType && field in g.perType[parent] then g.perType[parent][field]
    else Weight(g.defaultWeight, [])
  }

  function ChildType(g: Settings, parent: string, field: string): string
  {
    if parent in g.childTypes && field in g.childTypes[parent] then g.childTypes[parent][field]
    else "_unknown_"
  }

  function IntArg(g: Settings, args: map<string, ArgValue>, name: string): int
  {
    if name !in args then 0
    else
      var v := args[name];
      if v.intValue.Some? then v.intValue.value
      else if |v.raw| > 1 && v.raw[0] == '$' then
        if v.raw[1..] in g.vars then g.vars[v.raw[1..]] else 0
      else if Atoi(v.raw).Some? then Atoi(v.raw).value
      else 0
  }

  /** The multiplier of a connection field: its first declared argument, capped;
      the default page size when that argument is missing or not positive. */
  function PageSize(g: Settings, args: map<string, ArgValue>, multipliers: seq<string>): int
  {
    if multipliers == [] then 1
    else if IntArg(g, args, multipliers[0]) <= 0 then g.defaultFirst
    else Min(IntArg(g, args, multipliers[0]), g.maxFirst)
  }

  /** The cap binds every page size a query asks for, but not the default: exactly a
      missing or non-positive argument under a default above the cap exceeds it. */
  lemma PageSizeOverCapIff(g: Settings, args: map<string, ArgValue>, multipliers: seq<string>)
    requires g.maxFirst >= 1
    ensures PageSize(g, args, multipliers) > g.maxFirst <==>
            multipliers != [] && IntArg(g, args, multipliers[0]) <= 0 && g.defaultFirst > g.maxFirst
  {
  }

  /** The multiplier loop of `walkField`, which scans every declared argument. */
  method Multiplier(g: Settings, args: map<string, ArgValue>, multipliers: seq<string>) returns (mult: int)
    ensures mult == PageSize(g, args, multipliers)
    ensures g.defaultFirst >= 1 && g.maxFirst >= 1 ==> 1 <= mult <= Max(g.maxFirst, g.defaultFirst)
  {
    mult := 1;
    for i := 0 to |multipliers|
      invariant mult == 1
      invariant forall j | 0 <= j < i :: IntArg(g, args, multipliers[j]) <= 0
    {
      var v := IntArg(g, args, multipliers[i]);
      if v > 0 {
        mult := if v > g.maxFirst then g.maxFirst else v;
        break;
      }
    }
    if |multipliers| > 0 && IntArg(g, args, multipliers[0]) <= 0 {
      mult := g.defaultFirst;
    }
  }

  predicate Introspection(name: string)
  {
    |name| >= 2 && name[..2] == "__"
  }

  function FieldCost(g: Settings, parent: string, f: Field): int
  {
    var w := WeightFor(g, parent, f.name);
    w.weight * PageSize(g, f.args, w.multipliers)
  }

  // --------------------------------------------- the inlined operation

  /** A field of the fully inlined operation: its own cost, whether it had a
      selection set, and the fields under it. */
  datatype Flat = Flat(cost: int, nested: bool, kids: seq<Flat>)

  function Complexity(fs: seq<Flat>): int
  {
    if fs == [] then 0 else fs[0].cost + Complexity(fs[0].kids) + Complexity(fs[1..])
  }

  function Depth(fs: seq<Flat>, d: int): int
    decreases fs
  {
    if fs == [] then d
    else Max(if fs[0].nested then Depth(fs[0].kids, d + 1) else d, Depth(fs[1..], d))
  }

  /** Inline every spread.  `open` holds the fragments being expanded on the way
      here; a spread of one of those, or of an undefined one, contributes nothing. */
  function Inlined(g: Settings, doc: Document, sels: seq<Selection>, parent: string, open: set<string>): seq<Flat>
    decreases doc.fragments.Keys - open, sels, 0
  {
    if sels == [] then []
    else InlinedOne(g, doc, sels[0], parent, open) + Inlined(g, doc, sels[1..], parent, open)
  }

  function InlinedOne(g: Settings, doc: Document, s: Selection, parent: string, open: set<string>): seq<Flat>
    decreases doc.fragments.Keys - open, s, 1
  {
    match s
    case FieldSel(f) =>
      if Introspection(f.name) then []
      else [Flat(FieldCost(g, parent, f), f.sels != [], Inlined(g, doc, f.sels, ChildType(g, parent, f.name), open))]
    case Inline(onType, sels) =>
      Inlined(g, doc, sels, if onType == "" then parent else onType, open)
    case Spread(n) =>
      if n in open || n !in doc.fragments then []
      else
        assert n in doc.fragments.Keys - open;
        Inlined(g, doc, doc.fragments[n].sels, doc.fragments[n].onType, open + {n})
  }

  // ------------------------------------------------------------- failure

  datatype WalkError = FragmentCycle(name: string) | FragmentNotDefined(name: string)

  /** The first error in walk order, if any. */
  function Failure(doc: Document, sels: seq<Selection>, open: set<string>): Option<WalkError>
    decreases doc.fragments.Keys - open, sels, 0
  {
    if sels == [] then None
    else
      var e := FailureOne(doc, sels[0], open);
      if e.Some? then e else Failure(doc, sels[1..], open)
  }

  function FailureOne(doc: Document, s: Selection, open: set<string>): Option<WalkError>
    decreases doc.fragments.Keys - open, s, 1
  {
    match s
    case FieldSel(f) => if Introspection(f.name) then None else Failure(doc, f.sels, open)
    case Inline(_, sels) => Failure(doc, sels, open)
    case Spread(n) =>
      if n in open then Some(FragmentCycle(n))
      else if n !in doc.fragments then Some(FragmentNotDefined(n))
      else
        assert n in doc.fragments.Keys - open;
        Failure(doc, doc.fragments[n].sels, open + {n})
  }

  // ---------------------------------------------------- reachability

  /** Fragment names spread by a selection set outside introspection fields. */
  function Spreads(sels: seq<Selection>): set<string>
  {
    if sels == [] then {} else SpreadsOne(sels[0]) + Spreads(sels[1..])
  }

  function SpreadsOne(s: Selection): set<string>
  {
    match s
    case FieldSel(f) => if Introspection(f.name) then {} else Spreads(f.sels)
    case Inline(_, sels) => Spreads(sels)
    case Spread(n) => {n}
  }

  /** A chain of spreads that starts in `sels` and goes from fragment to fragment. */
  ghost predicate Path(doc: Document, sels: seq<Selection>, p: seq<string>)
    decreases |p|
  {
    && |p| > 0
    && p[0] in Spreads(sels)
    && (|p| > 1 ==> p[0] in doc.fragments && Path(doc, doc.fragments[p[0]].sels, p[1..]))
  }

  ghost predicate PathTo(doc: Document, sels: seq<Selection>, p: seq<string>, n: string)
  {
    Path(doc, sels, p) && p[|p| - 1] == n
  }

  ghost predicate Reachable(doc: Document, sels: seq<Selection>, n: string)
  {
    exists p :: PathTo(doc, sels, p, n)
  }

  ghost predicate OnCycle(doc: Document, n: string)
  {
    n in doc.fragments && Reachable(doc, doc.fragments[n].sels, n)
  }

  /** If the walk fails, the offending name ends a chain of spreads. */
  lemma {:induction false} FailurePath(doc: Document, sels: seq<Selection>, open: set<string>) returns (p: seq<string>)
    requires Failure(doc, sels, open).Some?
    ensures PathTo(doc, sels, p, Failure(doc, sels, open).value.name)
    ensures var n := p[|p| - 1]; n in open || n in p[..|p| - 1] || n !in doc.fragments
    decreases doc.fragments.Keys - open, sels, 0
  {
    if FailureOne(doc, sels[0], open).Some? {
      p := FailurePathOne(doc, sels[0], open);
    } else {
      p := FailurePath(doc, sels[1..], open);
    }
  }

  lemma {:induction false} FailurePathOne(doc: Document, s: Selection, open: set<string>) returns (p: seq<string>)
    requires FailureOne(doc, s, open).Some?
    ensures PathTo(doc, [s], p, FailureOne(doc, s, open).value.name)
    ensures p[0] in SpreadsOne(s)
    ensures var n := p[|p| - 1]; n in open || n in p[..|p| - 1] || n !in doc.fragments
    decreases doc.fragments.Keys - open, s, 1
  {
    match s
    case FieldSel(f) => p := FailurePath(doc, f.sels, open);
    case Inline(_, sels) => p := FailurePath(doc, sels, open);
    case Spread(n) =>
      if n in open || n !in doc.fragments {
        p := [n];
      } else {
        assert n in doc.fragments.Keys - open;
        var q := FailurePath(doc, doc.fragments[n].sels, open + {n});
        p := [n] + q;
        assert p[1..] == q && p[..|p| - 1] == [n] + q[..|q| - 1];
      }
  }

  /** Every spread inside a walk that succeeds is itself walked successfully. */
  lemma {:induction false} SuccessDescends(doc: Document, sels: seq<Selection>, open: set<string>, n: string)
    requires Failure(doc, sels, open).None? && n in Spreads(sels)
    ensures n !in open && n in doc.fragments && Failure(doc, doc.fragments[n].sels, open + {n}).None?
    decreases sels, 0
  {
    if n in SpreadsOne(sels[0]) {
      SuccessDescendsOne(doc, sels[0], open, n);
    } else {
      SuccessDescends(doc, sels[1..], open, n);
    }
  }

  lemma {:induction false} SuccessDescendsOne(doc: Document, s: Selection, open: set<string>, n: string)
    requires FailureOne(doc, s, open).None? && n in SpreadsOne(s)
    ensures n !in open && n in doc.fragments && Failure(doc, doc.fragments[n].sels, open + {n}).None?
    decreases s, 1
  {
    match s
    case FieldSel(f) => SuccessDescends(doc, f.sels, open, n);
    case Inline(_, sels) => SuccessDescends(doc, sels, open, n);
    case Spread(_) =>
  }

  /** After a successful walk every chain of spreads stays among defined
      fragments, avoids the open ones and never repeats a name. */
  lemma {:induction false} SuccessPaths(doc: Document, sels: seq<Selection>, open: set<string>, p: seq<string>)
    requires Failure(doc, sels, open).None? && Path(doc, sels, p)
    ensures forall n | n in p :: n in doc.fragments && n !in open
    ensures p[|p| - 1] !in p[..|p| - 1]
    decreases |p|
  {
    SuccessDescends(doc, sels, open, p[0]);
    if |p| > 1 {
      var q := p[1..];
      SuccessPaths(doc, doc.fragments[p[0]].sels, open + {p[0]}, q);
      assert p == [p[0]] + q && p[..|p| - 1] == [p[0]] + q[..|q| - 1];
    }
  }

  lemma {:induction false} JoinPaths(doc: Document, sels: seq<Selection>, p: seq<string>, q: seq<string>)
    requires Path(doc, sels, p) && p[|p| - 1] in doc.fragments
    requires Path(doc, doc.fragments[p[|p| - 1]].sels, q)
    ensures Path(doc, sels, p + q)
    decreases |p|
  {
    assert (p + q)[1..] == p[1..] + q;
    if |p| > 1 {
      JoinPaths(doc, doc.fragments[p[0]].sels, p[1..], q);
    } else {
      assert p[1..] + q == q;
    }
  }

  lemma {:induction false} PathTail(doc: Document, sels: seq<Selection>, p: seq<string>, j: nat)
    requires Path(doc, sels, p) && j < |p| - 1
    ensures p[j] in doc.fragments && Path(doc, doc.fragments[p[j]].sels, p[j + 1..])
    decreases |p|
  {
    if j > 0 {
      PathTail(doc, doc.fragments[p[0]].sels, p[1..], j - 1);
      assert p[1..][j..] == p[j + 1..];
    }
  }

  /** The walk fails exactly when a reachable fragment is undefined or cyclic. */
  lemma WalkFailsIff(doc: Document, sels: seq<Selection>)
    ensures Failure(doc, sels, {}).Some? <==>
            exists n :: Reachable(doc, sels, n) && (n !in doc.fragments || OnCycle(doc, n))
  {
    if Failure(doc, sels, {}).Some? {
      var p := FailurePath(doc, sels, {});
      var n := p[|p| - 1];
      assert Reachable(doc, sels, n);
      if n in doc.fragments {
        var j: nat :| j < |p| - 1 && p[j] == n;
        PathTail(doc, sels, p, j);
        assert PathTo(doc, doc.fragments[n].sels, p[j + 1..], n);
      }
    } else {
      forall n | Reachable(doc, sels, n)
        ensures n in doc.fragments && !OnCycle(doc, n)
      {
        var p :| PathTo(doc, sels, p, n);
        SuccessPaths(doc, sels, {}, p);
        assert p[|p| - 1] in p;
        forall q
          ensures !PathTo(doc, doc.fragments[n].sels, q, n)
        {
          if Path(doc, doc.fragments[n].sels, q) {
            JoinPaths(doc, sels, p, q);
            SuccessPaths(doc, sels, {}, p + q);
            assert p[|p| - 1] == n && p + q == p[..|p| - 1] + [n] + q;
            assert (p + q)[|p| - 1] in (p + q)[..|p + q| - 1];
          }
        }
      }
    }
  }

  // ------------------------------------------------- the reference is sane

  lemma {:induction false} FewerOpen(doc: Document, sels: seq<Selection>, open: set<string>, fewer: set<string>)
    requires fewer <= open && Failure(doc, sels, open).None?
    ensures Failure(doc, sels, fewer).None?
    decreases doc.fragments.Keys - open, sels, 0
  {
    if sels != [] {
      FewerOpenOne(doc, sels[0], open, fewer);
      FewerOpen(doc, sels[1..], open, fewer);
    }
  }

  lemma {:induction false} FewerOpenOne(doc: Document, s: Selection, open: set<string>, fewer: set<string>)
    requires fewer <= open && FailureOne(doc, s, open).None?
    ensures FailureOne(doc, s, fewer).None?
    decreases doc.fragments.Keys - open, s, 1
  {
    match s
    case FieldSel(f) => if !Introspection(f.name) { FewerOpen(doc, f.sels, open, fewer); }
    case Inline(_, sels) => FewerOpen(doc, sels, open, fewer);
    case Spread(n) =>
      assert n in doc.fragments.Keys - open;
      FewerOpen(doc, doc.fragments[n].sels, open + {n}, fewer + {n});
  }

  /** Where the walk succeeds, the inlining does not depend on the bookkeeping. */
  lemma {:induction false} InlinedOpen(g: Settings, doc: Document, sels: seq<Selection>, parent: string,
                                       open: set<string>, fewer: set<string>)
    requires fewer <= open && Failure(doc, sels, open).None?
    ensures Inlined(g, doc, sels, parent, open) == Inlined(g, doc, sels, parent, fewer)
    decreases doc.fragments.Keys - open, sels, 0
  {
    if sels != [] {
      InlinedOpenOne(g, doc, sels[0], parent, open, fewer);
      InlinedOpen(g, doc, sels[1..], parent, open, fewer);
    }
  }

  lemma {:induction false} InlinedOpenOne(g: Settings, doc: Document, s: Selection, parent: string,
                                          open: set<string>, fewer: set<string>)
    requires fewer <= open && FailureOne(doc, s, open).None?
    ensures InlinedOne(g, doc, s, parent, open) == InlinedOne(g, doc, s, parent, fewer)
    decreases doc.fragments.Keys - open, s, 1
  {
    match s
    case FieldSel(f) =>
      if !Introspection(f.name) { InlinedOpen(g, doc, f.sels, ChildType(g, parent, f.name), open, fewer); }
    case Inline(onType, sels) =>
      InlinedOpen(g, doc, sels, if onType == "" then parent else onType, open, fewer);
    case Spread(n) =>
      assert n in doc.fragments.Keys - open;
      InlinedOpen(g, doc, doc.fragments[n].sels, doc.fragments[n].onType, open + {n}, fewer + {n});
  }

  /** The defining equation of inlining: a spread costs what the body of its
      fragment costs in the fragment's own type, at any nesting. */
  lemma SpreadIsItsFragment(g: Settings, doc: Document, n: string, parent: string)
    requires Failure(doc, [Spread(n)], {}).None?
    ensures n in doc.fragments && Failure(doc, doc.fragments[n].sels, {}).None?
    ensures Inlined(g, doc, [Spread(n)], parent, {}) ==
            Inlined(g, doc, doc.fragments[n].sels, doc.fragments[n].onType, {})
  {
    var f := doc.fragments[n];
    assert FailureOne(doc, Spread(n), {}).None?;
    assert {} + {n} == {n};
    FewerOpen(doc, f.sels, {n}, {});
    InlinedOpen(g, doc, f.sels, f.onType, {n}, {});
    assert [Spread(n)][1..] == [];
  }

  // ------------------------------------------------------------ the walk

  lemma {:induction false} SumOfParts(a: seq<Flat>, b: seq<Flat>, d: int)
    ensures Complexity(a + b) == Complexity(a) + Complexity(b)
    ensures Depth(a + b, d) == Max(Depth(a, d), Depth(b, d))
    ensures Depth(a, d) >= d
  {
    DepthAtLeast(b, d);
    if a == [] {
      assert a + b == b;
    } else {
      assert (a + b)[1..] == a[1..] + b;
      SumOfParts(a[1..], b, d);
    }
  }

  lemma {:induction false} DepthAtLeast(a: seq<Flat>, d: int)
    ensures Depth(a, d) >= d
    decreases |a|
  {
    if a != [] {
      DepthAtLeast(a[1..], d);
    }
  }

  /** The walk's mutable state: the running cost and the `visited` map. */
  class Walker {
    const g: Settings
    const doc: Document
    var depth: int
    var complexity: int
    var visited: set<string>

    constructor (g: Settings, doc: Document)
      ensures this.g == g && this.doc == doc
      ensures depth == 0 && complexity == 0 && visited == {}
    {
      this.g, this.doc := g, doc;
      depth, complexity, visited := 0, 0, {};
    }

    /** Fails with the first error in walk order; otherwise leaves `visited` as
        it was and has added exactly the cost of the inlined selection set. */
    method Walk(sels: seq<Selection>, parent: string, d: int) returns (err: Option<WalkError>)
      modifies this
      ensures err == Failure(doc, sels, old(visited))
      ensures err.None? ==> visited == old(visited)
      ensures err.None? ==>
        var flat := Inlined(g, doc, sels, parent, old(visited));
        complexity == old(complexity) + Complexity(flat) && depth == Max(old(depth), Depth(flat, d))
      decreases doc.fragments.Keys - visited, sels, 0
    {
      if d > depth {
        depth := d;
      }
      ghost var open := visited;
      ghost var flat := Inlined(g, doc, sels, parent, open);
      DepthAtLeast(flat, d);
      assert sels[0..] == sels;
      for i := 0 to |sels|
        invariant visited == open && depth >= d
        invariant Failure(doc, sels, open) == Failure(doc, sels[i..], open)
        invariant var rest := Inlined(g, doc, sels[i..], parent, open);
          && old(complexity) + Complexity(flat) == complexity + Complexity(rest)
          && Max(old(depth), Depth(flat, d)) == Max(depth, Depth(rest, d))
      {
        var s := sels[i];
        assert sels[i..][0] == s && sels[i..][1..] == sels[i + 1..];
        SumOfParts(InlinedOne(g, doc, s, parent, open), Inlined(g, doc, sels[i + 1..], parent, open), d);
        err := WalkOne(s, parent, d);
        if err.Some? {
          return;
        }
      }
      err := None;
    }

    method WalkOne(s: Selection, parent: string, d: int) returns (err: Option<WalkError>)
      requires depth >= d
      modifies this
      ensures err == FailureOne(doc, s, old(visited))
      ensures err.None? ==> visited == old(visited) && depth >= d
      ensures err.None? ==>
        var flat := InlinedOne(g, doc, s, parent, old(visited));
        complexity == old(complexity) + Complexity(flat) && depth == Max(old(depth), Depth(flat, d))
      decreases doc.fragments.Keys - visited, s, 1
    {
      ghost var open := visited;
      DepthAtLeast(InlinedOne(g, doc, s, parent, open), d);
      match s
      case FieldSel(f) =>
        err := WalkField(f, parent, d);
      case Inline(onType, sels) =>
        err := Walk(sels, if onType == "" then parent else onType, d);
      case Spread(n) =>
        if n in visited {
          return Some(FragmentCycle(n));
        }
        if n !in doc.fragments {
          return Some(FragmentNotDefined(n));
        }
        assert n in doc.fragments.Keys - visited;
        visited := visited + {n};
        err := Walk(doc.fragments[n].sels, doc.fragments[n].onType, d);
        if err.Some? {
          return;
        }
        visited := visited - {n};
        assert visited == open;
    }

    method WalkField(f: Field, parent: string, d: int) returns (err: Option<WalkError>)
      requires depth >= d
      modifies this
      ensures err == FailureOne(doc, FieldSel(f), old(visited))
      ensures err.None? ==> visited == old(visited)
      ensures err.None? ==>
        var flat := InlinedOne(g, doc, FieldSel(f), parent, old(visited));
        complexity == old(complexity) + Complexity(flat) && depth == Max(old(depth), Depth(flat, d))
      decreases doc.fragments.Keys - visited, f, 1
    {
      if |f.name| >= 2 && f.name[..2] == "__" {
        return None;
      }
      var w := WeightFor(g, parent, f.name);
      var mult := Multiplier(g, f.args, w.multipliers);
      complexity := complexity + w.weight * mult;
      ghost var kids := Inlined(g, doc, f.sels, ChildType(g, parent, f.name), visited);
      ghost var flat := [Flat(FieldCost(g, parent, f), f.sels != [], kids)];
      assert Complexity(flat) == FieldCost(g, parent, f) + Complexity(kids);
      DepthAtLeast(kids, d + 1);
      if |f.sels| > 0 {
        err := Walk(f.sels, ChildType(g, parent, f.name), d + 1);
      } else {
        err := None;
      }
    }
  }
}

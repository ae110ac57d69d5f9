/** The bill of an operation, item by item: every field occurrence of the operation with its
    spreads inlined, where it stands, what type it is a field of, and what it costs. */
module CostAccount {
  import opened Common
  import opened QueryAst
  import opened CostWalk

  // ------------------------------------------------------------ the occurrences

  /** One step down: into the selection set of a field, or under a type condition. */
  datatype Hop = Into(field: string) | As(onType: string)

  /** A field and the way to it from the operation. */
  datatype Occurrence = Occurrence(path: seq<Hop>, field: Field)

  /** The field occurrences of `sels` with every spread inlined, introspection left out. */
  function Occurrences(doc: Document, sels: seq<Selection>, path: seq<Hop>, open: set<string>): seq<Occurrence>
    decreases doc.fragments.Keys - open, sels, 0
  {
    if sels == [] then [] else OccurrencesOne(doc, sels[0], path, open) + Occurrences(doc, sels[1..], path, open)
  }

  function OccurrencesOne(doc: Document, s: Selection, path: seq<Hop>, open: set<string>): seq<Occurrence>
    decreases doc.fragments.Keys - open, s, 1
  {
    match s
    case FieldSel(f) =>
      if "__" <= f.name then [] else [Occurrence(path, f)] + Occurrences(doc, f.sels, path + [Into(f.name)], open)
    case Inline(onType, sels) => Occurrences(doc, sels, if onType == "" then path else path + [As(onType)], open)
    case Spread(n) =>
      if n in open || n !in doc.fragments then []
      else
        assert n in doc.fragments.Keys - open;
        Occurrences(doc, doc.fragments[n].sels, path + [As(doc.fragments[n].onType)], open + {n})
  }

  /** The type a path leads to: a type condition names it, a field has a declared type. */
  function TypeAt(g: Settings, root: string, path: seq<Hop>): string
  {
    if path == [] then root
    else
      var n := |path| - 1;
      match path[n]
      case As(t) => t
      case Into(f) =>
        var up := TypeAt(g, root, path[..n]);
        if up in g.childTypes && f in g.childTypes[up] then g.childTypes[up][f] else "_unknown_"
  }

  /** What one occurrence costs: the weight declared for its type, times its page size, or
      the default weight. */
  function Price(g: Settings, root: string, o: Occurrence): int
  {
    var t := TypeAt(g, root, o.path);
    if t in g.perType && o.field.name in g.perType[t]
    then g.perType[t][o.field.name].weight * PageSize(g, o.field.args, g.perType[t][o.field.name].multipliers)
    else g.defaultWeight
  }

  function Total(g: Settings, root: string, os: seq<Occurrence>): int
  {
    if os == [] then 0 else Price(g, root, os[0]) + Total(g, root, os[1..])
  }

  /** How many fields a path goes through. */
  function Levels(path: seq<Hop>): nat
  {
    if path == [] then 0 else Levels(path[..|path| - 1]) + if path[|path| - 1].Into? then 1 else 0
  }

  /** The longest chain of nested selection sets, if the outermost is the `base`-th: an
      occurrence with selections of its own adds one below all it stands in. */
  ghost predicate Deepest(os: seq<Occurrence>, base: int, d: int)
  {
    && d >= base
    && (forall o | o in os && o.field.sels != [] :: Levels(o.path) + 2 <= d)
    && (d == base || exists o | o in os :: o.field.sels != [] && Levels(o.path) + 2 == d)
  }

  // ------------------------------------------------------------------ the proof

  lemma {:induction false} TotalJoins(g: Settings, root: string, a: seq<Occurrence>, b: seq<Occurrence>)
    ensures Total(g, root, a + b) == Total(g, root, a) + Total(g, root, b)
  {
    if a == [] {
      assert a + b == b;
    } else {
      assert (a + b)[1..] == a[1..] + b;
      TotalJoins(g, root, a[1..], b);
    }
  }

  lemma DeepestJoins(a: seq<Occurrence>, b: seq<Occurrence>, base: int, d: int, e: int)
    requires Deepest(a, base, d) && Deepest(b, base, e)
    ensures Deepest(a + b, base, Max(d, e))
  {
    if Max(d, e) != base {
      if Max(d, e) == d {
        var o :| o in a && o.field.sels != [] && Levels(o.path) + 2 == d;
        assert o in a + b;
      } else {
        var o :| o in b && o.field.sels != [] && Levels(o.path) + 2 == e;
        assert o in a + b;
      }
    }
  }

  /** The last hop of a path. */
  lemma LastHop(g: Settings, root: string, path: seq<Hop>, hop: Hop)
    ensures Levels(path + [hop]) == Levels(path) + if hop.Into? then 1 else 0
    ensures hop.As? ==> TypeAt(g, root, path + [hop]) == hop.onType
    ensures hop.Into? ==> TypeAt(g, root, path + [hop]) == ChildType(g, TypeAt(g, root, path), hop.field)
  {
    assert (path + [hop])[..|path|] == path;
  }

  lemma PriceIs(g: Settings, root: string, path: seq<Hop>, f: Field)
    ensures Price(g, root, Occurrence(path, f)) == FieldCost(g, TypeAt(g, root, path), f)
  {
  }

  lemma FieldTotal(g: Settings, root: string, o: Occurrence, kids: seq<Occurrence>, flat: Flat)
    requires flat.cost == Price(g, root, o) && Complexity(flat.kids) == Total(g, root, kids)
    ensures Complexity([flat]) == Total(g, root, [o] + kids)
  {
    assert [flat][1..] == [] && ([o] + kids)[1..] == kids;
  }

  lemma FieldDeepest(o: Occurrence, kids: seq<Occurrence>, flat: Flat, base: int)
    requires base == Levels(o.path) + 1 && flat.nested == (o.field.sels != []) && (o.field.sels == [] ==> kids == [])
    requires Deepest(kids, base + 1, Depth(flat.kids, base + 1))
    ensures Deepest([o] + kids, base, Depth([flat], base))
  {
    assert [flat][1..] == [];
    var d := Depth(flat.kids, base + 1);
    if flat.nested {
      assert Depth([flat], base) == d;
      assert o in [o] + kids;
      if d != base + 1 {
        var x :| x in kids && x.field.sels != [] && Levels(x.path) + 2 == d;
        assert x in [o] + kids;
      }
    }
  }

  /** The bill adds up to the complexity of the inlined operation, and its deepest item is
      its depth. */
  ghost predicate Agree(g: Settings, root: string, os: seq<Occurrence>, flats: seq<Flat>, base: int)
  {
    Complexity(flats) == Total(g, root, os) && Deepest(os, base, Depth(flats, base))
  }

  lemma {:induction false} BillAgrees(g: Settings, doc: Document, sels: seq<Selection>, root: string, path: seq<Hop>, open: set<string>)
    ensures Agree(g, root, Occurrences(doc, sels, path, open), Inlined(g, doc, sels, TypeAt(g, root, path), open), Levels(path) + 1)
    decreases doc.fragments.Keys - open, sels, 0
  {
    if sels != [] {
      BillAgreesOne(g, doc, sels[0], root, path, open);
      BillAgrees(g, doc, sels[1..], root, path, open);
      var a, b := OccurrencesOne(doc, sels[0], path, open), Occurrences(doc, sels[1..], path, open);
      var parent, base := TypeAt(g, root, path), Levels(path) + 1;
      var x, y := InlinedOne(g, doc, sels[0], parent, open), Inlined(g, doc, sels[1..], parent, open);
      AgreeJoins(g, root, a, b, x, y, base);
    }
  }

  lemma AgreeJoins(g: Settings, root: string, a: seq<Occurrence>, b: seq<Occurrence>, x: seq<Flat>, y: seq<Flat>, base: int)
    requires Agree(g, root, a, x, base) && Agree(g, root, b, y, base)
    ensures Agree(g, root, a + b, x + y, base)
  {
    TotalJoins(g, root, a, b);
    SumOfParts(x, y, base);
    DeepestJoins(a, b, base, Depth(x, base), Depth(y, base));
  }

  lemma {:induction false} BillAgreesOne(g: Settings, doc: Document, s: Selection, root: string, path: seq<Hop>, open: set<string>)
    ensures Agree(g, root, OccurrencesOne(doc, s, path, open), InlinedOne(g, doc, s, TypeAt(g, root, path), open), Levels(path) + 1)
    decreases doc.fragments.Keys - open, s, 1
  {
    match s
    case FieldSel(f) => BillAgreesField(g, doc, f, root, path, open);
    case Inline(onType, sels) =>
      if onType == "" {
        BillAgrees(g, doc, sels, root, path, open);
      } else {
        BillAgreesUnder(g, doc, sels, root, path, onType, open);
      }
    case Spread(n) =>
      if n in open || n !in doc.fragments {
        NothingAgrees(g, root, Levels(path) + 1);
      } else {
        assert n in doc.fragments.Keys - open;
        BillAgreesUnder(g, doc, doc.fragments[n].sels, root, path, doc.fragments[n].onType, open + {n});
      }
  }

  /** Under a type condition. */
  lemma {:induction false} BillAgreesUnder(g: Settings, doc: Document, sels: seq<Selection>, root: string, path: seq<Hop>, onType: string, open: set<string>)
    ensures Agree(g, root, Occurrences(doc, sels, path + [As(onType)], open), Inlined(g, doc, sels, onType, open), Levels(path) + 1)
    decreases doc.fragments.Keys - open, sels, 1
  {
    LastHop(g, root, path, As(onType));
    BillAgrees(g, doc, sels, root, path + [As(onType)], open);
  }

  lemma NothingAgrees(g: Settings, root: string, base: int)
    ensures Agree(g, root, [], [], base)
  {
  }

  lemma {:induction false} BillAgreesField(g: Settings, doc: Document, f: Field, root: string, path: seq<Hop>, open: set<string>)
    ensures Agree(g, root, OccurrencesOne(doc, FieldSel(f), path, open),
                  InlinedOne(g, doc, FieldSel(f), TypeAt(g, root, path), open), Levels(path) + 1)
    decreases doc.fragments.Keys - open, f, 1
  {
    IsIntrospection(f.name);
    if Introspection(f.name) {
      NothingAgrees(g, root, Levels(path) + 1);
    } else {
      var parent, below := TypeAt(g, root, path), path + [Into(f.name)];
      BillAgreesBelow(g, doc, f, root, path, open);
      var kids, flats := Occurrences(doc, f.sels, below, open), Inlined(g, doc, f.sels, ChildType(g, parent, f.name), open);
      FieldAgrees(g, root, Occurrence(path, f), kids, Flat(FieldCost(g, parent, f), f.sels != [], flats));
    }
  }

  /** In a field's own selection set. */
  lemma {:induction false} BillAgreesBelow(g: Settings, doc: Document, f: Field, root: string, path: seq<Hop>, open: set<string>)
    ensures Agree(g, root, Occurrences(doc, f.sels, path + [Into(f.name)], open),
                  Inlined(g, doc, f.sels, ChildType(g, TypeAt(g, root, path), f.name), open), Levels(path) + 2)
    ensures f.sels == [] ==> Occurrences(doc, f.sels, path + [Into(f.name)], open) == []
    decreases doc.fragments.Keys - open, f, 0
  {
    LastHop(g, root, path, Into(f.name));
    BillAgrees(g, doc, f.sels, root, path + [Into(f.name)], open);
  }

  lemma IsIntrospection(name: string)
    ensures Introspection(name) <==> "__" <= name
  {
  }

  lemma FieldAgrees(g: Settings, root: string, o: Occurrence, kids: seq<Occurrence>, flat: Flat)
    requires Agree(g, root, kids, flat.kids, Levels(o.path) + 2) && (o.field.sels == [] ==> kids == [])
    requires flat.cost == FieldCost(g, TypeAt(g, root, o.path), o.field) && flat.nested == (o.field.sels != [])
    ensures Agree(g, root, [o] + kids, [flat], Levels(o.path) + 1)
  {
    PriceIs(g, root, o.path, o.field);
    FieldTotal(g, root, o, kids, flat);
    FieldDeepest(o, kids, flat, Levels(o.path) + 1);
  }
}

/** Canonical JSON: object keys sorted, no white space. The text is unambiguous even
    with more text after it, and the buffer-growing emitter produces it. */
module CanonicalJson {
  import opened Common

  datatype Json =
    | Null
    | Bool(b: bool)
    | Num(n: int)
    | Str(s: string)
    | Arr(items: seq<Json>)
    | Obj(fields: map<string, Json>)

  /** What `encoding/json` contributes: `json.Marshal` on strings and on numbers (a
      number is a float64, named here by its bit pattern), and `json.Unmarshal`. */
  datatype Codec = Codec(str: string -> Bytes, num: int -> Bytes, parse: Bytes -> Option<Json>)

  predicate NumericByte(b: Byte)
  {
    48 <= b <= 57 || b == 43 || b == 45 || b == 46 || b == 69 || b == 101
  }

  /** String literals are quoted and self-delimiting; number literals are made of
      numeric bytes; distinct scalars have distinct texts. */
  ghost predicate ScalarLaw(c: Codec)
  {
    && (forall s :: |c.str(s)| > 0 && c.str(s)[0] == 34)
    && (forall s, t, x, y | c.str(s) + x == c.str(t) + y :: s == t)
    && (forall n :: |c.num(n)| > 0 && forall i | 0 <= i < |c.num(n)| :: NumericByte(c.num(n)[i]))
    && (forall m, n | c.num(m) == c.num(n) :: m == n)
  }

  predicate Less(a: string, b: string)
  {
    b != [] && (a == [] || a[0] < b[0] || (a[0] == b[0] && Less(a[1..], b[1..])))
  }

  lemma {:induction false} LessTotal(a: string, b: string)
    ensures a == b || Less(a, b) || Less(b, a)
  {
    if a != [] && b != [] && a[0] == b[0] {
      LessTotal(a[1..], b[1..]);
      assert a == [a[0]] + a[1..] && b == [b[0]] + b[1..];
    }
  }

  lemma {:induction false} LessTransitive(a: string, b: string, c: string)
    requires Less(a, b) && Less(b, c)
    ensures Less(a, c)
  {
    if a != [] && a[0] == b[0] == c[0] {
      LessTransitive(a[1..], b[1..], c[1..]);
    }
  }

  ghost predicate IsLeast(s: set<string>, m: string) { m in s && forall k | k in s :: k == m || Less(m, k) }

  lemma {:induction false} LeastExists(s: set<string>) returns (m: string)
    requires s != {}
    ensures IsLeast(s, m)
    decreases |s|
  {
    m :| m in s;
    if s != {m} {
      var rest := s - {m};
      assert exists k :: k in rest by {
        assert s == rest + {m};
      }
      var l := LeastExists(rest);
      LessTotal(m, l);
      if Less(l, m) {
        m := l;
      } else {
        forall k | k in rest && k != l
          ensures Less(m, k)
        {
          LessTransitive(m, l, k);
        }
      }
    }
  }

  ghost function Least(s: set<string>): (m: string)
    requires s != {}
    ensures IsLeast(s, m)
  {
    LeastWitness(s);
    var m :| IsLeast(s, m);
    m
  }

  lemma LeastWitness(s: set<string>)
    requires s != {}
    ensures exists m :: IsLeast(s, m)
  {
    var m := LeastExists(s);
  }

  /** The keys of an object as `sort.Strings` leaves them. */
  ghost function SortedKeys(s: set<string>): (ks: seq<string>)
    ensures forall k :: k in ks <==> k in s
    decreases |s|
  {
    if s == {} then [] else [Least(s)] + SortedKeys(s - {Least(s)})
  }

  lemma {:induction false} SortedKeysCount(s: set<string>)
    ensures |SortedKeys(s)| == |s|
    decreases |s|
  {
    if s != {} {
      SortedKeysCount(s - {Least(s)});
    }
  }

  lemma {:induction false} SortedKeysAscend(s: set<string>, i: nat, j: nat)
    requires i < j < |SortedKeys(s)|
    ensures Less(SortedKeys(s)[i], SortedKeys(s)[j])
    decreases |s|
  {
    var rest := SortedKeys(s - {Least(s)});
    assert SortedKeys(s) == [Least(s)] + rest;
    if i == 0 {
      assert rest[j - 1] in s - {Least(s)};
    } else {
      SortedKeysAscend(s - {Least(s)}, i - 1, j - 1);
    }
  }

  function Text(s: string): (b: Bytes)
    ensures |b| == |s|
  {
    seq(|s|, i requires 0 <= i < |s| => s[i] as int % 256)
  }

  /** The canonical text of `v`, written in front of `x`. */
  ghost function Put(c: Codec, v: Json, x: Bytes): Bytes
    decreases v, 0
  {
    match v
    case Null => Text("null") + x
    case Bool(b) => (if b then Text("true") else Text("false")) + x
    case Num(n) => c.num(n) + x
    case Str(s) => c.str(s) + x
    case Arr(items) => [91] + (if items == [] then [93] + x else Put(c, items[0], PutItems(c, items[1..], x)))
    case Obj(fields) =>
      var ks := SortedKeys(fields.Keys);
      [123] + (if ks == [] then [125] + x else PutMember(c, v, ks[0], PutMembers(c, v, ks[1..], x)))
  }

  ghost function PutItems(c: Codec, items: seq<Json>, x: Bytes): Bytes
    decreases items, 1
  {
    if items == [] then [93] + x else [44] + Put(c, items[0], PutItems(c, items[1..], x))
  }

  ghost function PutMember(c: Codec, v: Json, k: string, x: Bytes): Bytes
    requires v.Obj? && k in v.fields
    decreases v, 0, 0
  {
    c.str(k) + ([58] + Put(c, v.fields[k], x))
  }

  ghost function PutMembers(c: Codec, v: Json, ks: seq<string>, x: Bytes): Bytes
    requires v.Obj? && forall k | k in ks :: k in v.fields
    decreases v, 0, 1 + |ks|
  {
    if ks == [] then [125] + x else [44] + PutMember(c, v, ks[0], PutMembers(c, v, ks[1..], x))
  }

  ghost function Canonical(c: Codec, v: Json): Bytes { Put(c, v, []) }

  // ------------------------------------- canonical texts are unambiguous

  /** What can follow a value inside an array or object, or nothing at all. */
  predicate Delimited(x: Bytes) { x == [] || x[0] == 44 || x[0] == 93 || x[0] == 125 }

  /** The first byte tells the kinds of value apart. */
  lemma PutHead(c: Codec, v: Json, x: Bytes)
    requires ScalarLaw(c)
    ensures var t := Put(c, v, x);
            && |t| > 0
            && (v.Null? <==> t[0] == 110)
            && (v == Bool(true) <==> t[0] == 116)
            && (v == Bool(false) <==> t[0] == 102)
            && (v.Num? <==> NumericByte(t[0]))
            && (v.Str? <==> t[0] == 34)
            && (v.Arr? <==> t[0] == 91)
            && (v.Obj? <==> t[0] == 123)
            && t[0] != 93 && t[0] != 125
  {
    match v
    case Null => assert Text("null")[0] == 110;
    case Bool(b) => assert Text("true")[0] == 116 && Text("false")[0] == 102;
    case Num(n) => assert NumericByte(c.num(n)[0]);
    case Str(s) =>
    case Arr(_) =>
    case Obj(_) =>
  }

  lemma CutEqual(a: Bytes, b: Bytes, x: Bytes, y: Bytes)
    requires a + x == b + y && |a| == |b|
    ensures a == b && x == y
  {
    assert a == (a + x)[..|a|] && b == (b + y)[..|b|];
    assert x == (a + x)[|a|..] && y == (b + y)[|b|..];
  }

  /** A run of numeric bytes ends where a delimiter or the end comes. */
  lemma RunUnique(a: Bytes, b: Bytes, x: Bytes, y: Bytes)
    requires a + x == b + y && Delimited(x) && Delimited(y)
    requires forall i | 0 <= i < |a| :: NumericByte(a[i])
    requires forall i | 0 <= i < |b| :: NumericByte(b[i])
    ensures a == b && x == y
  {
    var t := a + x;
    assert forall i | 0 <= i < |a| :: t[i] == a[i];
    assert forall i | 0 <= i < |b| :: t[i] == b[i];
    assert |a| < |t| ==> t[|a|] == x[0];
    assert |b| < |t| ==> t[|b|] == y[0];
    assert |a| == |b|;
    CutEqual(a, b, x, y);
  }

  lemma PutTail(c: Codec, k: Byte, x: Bytes, y: Bytes)
    requires [k] + x == [k] + y
    ensures x == y
  {
    CutEqual([k], [k], x, y);
  }

  /** Equal texts come from equal values followed by equal rests. */
  lemma {:induction false} PutInjective(c: Codec, v: Json, w: Json, x: Bytes, y: Bytes)
    requires ScalarLaw(c) && Put(c, v, x) == Put(c, w, y) && Delimited(x) && Delimited(y)
    ensures v == w && x == y
    decreases v, 0
  {
    PutHead(c, v, x);
    PutHead(c, w, y);
    match v
    case Null => CutEqual(Text("null"), Text("null"), x, y);
    case Bool(b) => var t := if b then Text("true") else Text("false"); CutEqual(t, t, x, y);
    case Num(n) => RunUnique(c.num(n), c.num(w.n), x, y);
    case Str(s) => CutEqual(c.str(s), c.str(w.s), x, y);
    case Arr(items) => ArrInjective(c, items, w.items, x, y);
    case Obj(_) => ObjInjective(c, v, w, x, y);
  }

  ghost function Elements(c: Codec, items: seq<Json>, x: Bytes): Bytes
  {
    if items == [] then [93] + x else Put(c, items[0], PutItems(c, items[1..], x))
  }

  lemma {:induction false} ArrInjective(c: Codec, a: seq<Json>, b: seq<Json>, x: Bytes, y: Bytes)
    requires ScalarLaw(c) && Put(c, Arr(a), x) == Put(c, Arr(b), y)
    ensures a == b && x == y
    decreases a, 2
  {
    PutTail(c, 91, Elements(c, a, x), Elements(c, b, y));
    if a == [] || b == [] {
      if a != [] {
        PutHead(c, a[0], PutItems(c, a[1..], x));
      }
      if b != [] {
        PutHead(c, b[0], PutItems(c, b[1..], y));
      }
      PutTail(c, 93, x, y);
    } else {
      PutInjective(c, a[0], b[0], PutItems(c, a[1..], x), PutItems(c, b[1..], y));
      ItemsInjective(c, a[1..], b[1..], x, y);
      assert a == [a[0]] + a[1..] && b == [b[0]] + b[1..];
    }
  }

  lemma {:induction false} ItemsInjective(c: Codec, a: seq<Json>, b: seq<Json>, x: Bytes, y: Bytes)
    requires ScalarLaw(c) && PutItems(c, a, x) == PutItems(c, b, y)
    ensures a == b && x == y
    decreases a, 1
  {
    assert PutItems(c, a, x)[0] == if a == [] then 93 else 44;
    assert PutItems(c, b, y)[0] == if b == [] then 93 else 44;
    if a == [] {
      PutTail(c, 93, x, y);
    } else {
      var p, q := PutItems(c, a[1..], x), PutItems(c, b[1..], y);
      PutTail(c, 44, Put(c, a[0], p), Put(c, b[0], q));
      PutInjective(c, a[0], b[0], p, q);
      ItemsInjective(c, a[1..], b[1..], x, y);
      assert a == [a[0]] + a[1..] && b == [b[0]] + b[1..];
    }
  }

  lemma {:induction false} MemberInjective(c: Codec, v: Json, w: Json, k: string, l: string, x: Bytes, y: Bytes)
    requires ScalarLaw(c) && v.Obj? && w.Obj? && k in v.fields && l in w.fields
    requires PutMember(c, v, k, x) == PutMember(c, w, l, y) && Delimited(x) && Delimited(y)
    ensures k == l && v.fields[k] == w.fields[l] && x == y
    decreases v, 0, 0
  {
    var p, q := [58] + Put(c, v.fields[k], x), [58] + Put(c, w.fields[l], y);
    assert k == l;
    CutEqual(c.str(k), c.str(l), p, q);
    PutTail(c, 58, Put(c, v.fields[k], x), Put(c, w.fields[l], y));
    PutInjective(c, v.fields[k], w.fields[l], x, y);
  }

  lemma {:induction false} MembersInjective(c: Codec, v: Json, w: Json, ks: seq<string>, ls: seq<string>, x: Bytes, y: Bytes)
    requires ScalarLaw(c) && v.Obj? && w.Obj?
    requires (forall k | k in ks :: k in v.fields) && (forall l | l in ls :: l in w.fields)
    requires PutMembers(c, v, ks, x) == PutMembers(c, w, ls, y)
    ensures ks == ls && x == y && forall k | k in ks :: v.fields[k] == w.fields[k]
    decreases v, 0, 1 + |ks|
  {
    assert PutMembers(c, v, ks, x)[0] == if ks == [] then 125 else 44;
    assert PutMembers(c, w, ls, y)[0] == if ls == [] then 125 else 44;
    if ks == [] {
      PutTail(c, 125, x, y);
    } else {
      var p, q := PutMembers(c, v, ks[1..], x), PutMembers(c, w, ls[1..], y);
      PutTail(c, 44, PutMember(c, v, ks[0], p), PutMember(c, w, ls[0], q));
      MemberInjective(c, v, w, ks[0], ls[0], p, q);
      MembersInjective(c, v, w, ks[1..], ls[1..], x, y);
      assert ks == [ks[0]] + ks[1..] && ls == [ls[0]] + ls[1..];
    }
  }

  ghost function Body(c: Codec, v: Json, ks: seq<string>, x: Bytes): Bytes
    requires v.Obj? && forall k | k in ks :: k in v.fields
  {
    if ks == [] then [125] + x else PutMember(c, v, ks[0], PutMembers(c, v, ks[1..], x))
  }

  lemma {:induction false} BodyInjective(c: Codec, v: Json, w: Json, ks: seq<string>, ls: seq<string>, x: Bytes, y: Bytes)
    requires ScalarLaw(c) && v.Obj? && w.Obj?
    requires (forall k | k in ks :: k in v.fields) && (forall l | l in ls :: l in w.fields)
    requires Body(c, v, ks, x) == Body(c, w, ls, y)
    ensures ks == ls && x == y && forall k | k in ks :: v.fields[k] == w.fields[k]
    decreases v, 0, 1 + |ks|
  {
    assert Body(c, v, ks, x)[0] == if ks == [] then 125 else 34;
    assert Body(c, w, ls, y)[0] == if ls == [] then 125 else 34;
    if ks == [] {
      PutTail(c, 125, x, y);
    } else {
      MemberInjective(c, v, w, ks[0], ls[0], PutMembers(c, v, ks[1..], x), PutMembers(c, w, ls[1..], y));
      MembersInjective(c, v, w, ks[1..], ls[1..], x, y);
      assert ks == [ks[0]] + ks[1..] && ls == [ls[0]] + ls[1..];
    }
  }

  lemma PutObject(c: Codec, v: Json, x: Bytes)
    requires v.Obj?
    ensures Put(c, v, x) == [123] + Body(c, v, SortedKeys(v.fields.Keys), x)
  {
  }

  lemma {:induction false} ObjInjective(c: Codec, v: Json, w: Json, x: Bytes, y: Bytes)
    requires ScalarLaw(c) && v.Obj? && w.Obj? && Put(c, v, x) == Put(c, w, y)
    ensures v == w && x == y
    decreases v, 0, 2 + |v.fields|
  {
    var ks, ls := SortedKeys(v.fields.Keys), SortedKeys(w.fields.Keys);
    PutObject(c, v, x);
    PutObject(c, w, y);
    PutTail(c, 123, Body(c, v, ks, x), Body(c, w, ls, y));
    SortedKeysCount(v.fields.Keys);
    BodyInjective(c, v, w, ks, ls, x, y);
    SameFields(v, w);
  }

  lemma SameFields(v: Json, w: Json)
    requires v.Obj? && w.Obj? && SortedKeys(v.fields.Keys) == SortedKeys(w.fields.Keys)
    requires forall k | k in SortedKeys(v.fields.Keys) :: v.fields[k] == w.fields[k]
    ensures v == w
  {
    assert forall k :: k in v.fields.Keys <==> k in SortedKeys(v.fields.Keys);
    assert v.fields.Keys == w.fields.Keys;
    assert v.fields == w.fields;
  }

  /** Distinct values have distinct canonical texts. */
  lemma CanonicalInjective(c: Codec, v: Json, w: Json)
    requires ScalarLaw(c) && Canonical(c, v) == Canonical(c, w)
    ensures v == w
  {
    PutInjective(c, v, w, [], []);
  }

  // ------------------------------------------------------------ the emitter

  /** What follows a value never changes its text. */
  lemma {:induction false} PutAppends(c: Codec, v: Json, x: Bytes)
    ensures Put(c, v, x) == Canonical(c, v) + x
    decreases v, 0
  {
    match v
    case Null =>
    case Bool(_) =>
    case Num(_) =>
    case Str(_) =>
    case Arr(items) =>
      if items != [] {
        ItemsAppend(c, items[1..], x);
        PutAppends(c, items[0], PutItems(c, items[1..], x));
        PutAppends(c, items[0], PutItems(c, items[1..], []));
      }
    case Obj(_) =>
      var ks := SortedKeys(v.fields.Keys);
      PutObject(c, v, x);
      PutObject(c, v, []);
      SortedKeysCount(v.fields.Keys);
      if ks != [] {
        MembersAppend(c, v, ks[1..], x);
        MemberAppends(c, v, ks[0], PutMembers(c, v, ks[1..], x));
        MemberAppends(c, v, ks[0], PutMembers(c, v, ks[1..], []));
      }
  }

  lemma {:induction false} ItemsAppend(c: Codec, items: seq<Json>, x: Bytes)
    ensures PutItems(c, items, x) == PutItems(c, items, []) + x
    decreases items, 1
  {
    if items != [] {
      ItemsAppend(c, items[1..], x);
      PutAppends(c, items[0], PutItems(c, items[1..], x));
      PutAppends(c, items[0], PutItems(c, items[1..], []));
    }
  }

  lemma {:induction false} MemberAppends(c: Codec, v: Json, k: string, x: Bytes)
    requires v.Obj? && k in v.fields
    ensures PutMember(c, v, k, x) == (c.str(k) + [58] + Canonical(c, v.fields[k])) + x
    decreases v, 0, 0
  {
    PutAppends(c, v.fields[k], x);
  }

  lemma {:induction false} MembersAppend(c: Codec, v: Json, ks: seq<string>, x: Bytes)
    requires v.Obj? && forall k | k in ks :: k in v.fields
    ensures PutMembers(c, v, ks, x) == PutMembers(c, v, ks, []) + x
    decreases v, 0, 1 + |ks|
  {
    if ks != [] {
      MembersAppend(c, v, ks[1..], x);
      MemberAppends(c, v, ks[0], PutMembers(c, v, ks[1..], x));
      MemberAppends(c, v, ks[0], PutMembers(c, v, ks[1..], []));
    }
  }

  lemma {:induction false} LessAsymmetric(a: string, b: string)
    requires Less(a, b)
    ensures !Less(b, a)
  {
    if a != [] && a[0] == b[0] {
      LessAsymmetric(a[1..], b[1..]);
    }
  }

  lemma LeastUnique(s: set<string>, m: string)
    requires IsLeast(s, m)
    ensures m == Least(s)
  {
    if m != Least(s) {
      LessAsymmetric(m, Least(s));
    }
  }

  method LeastKey(s: set<string>) returns (m: string)
    requires s != {}
    ensures m == Least(s)
  {
    m :| m in s;
    var rest := s - {m};
    while rest != {}
      invariant rest <= s && m in s
      invariant forall k | k in s - rest :: k == m || Less(m, k)
      decreases |rest|
    {
      var k :| k in rest;
      LessTotal(k, m);
      if Less(k, m) {
        forall l | l in s - rest && l != m
          ensures Less(k, l)
        {
          LessTransitive(k, m, l);
        }
        m := k;
      }
      rest := rest - {k};
    }
    LeastUnique(s, m);
  }

  method SortKeys(s: set<string>) returns (ks: seq<string>)
    ensures ks == SortedKeys(s)
  {
    ks := [];
    var rest := s;
    while rest != {}
      invariant SortedKeys(s) == ks + SortedKeys(rest)
      decreases |rest|
    {
      var k := LeastKey(rest);
      ks, rest := ks + [k], rest - {k};
    }
  }

  method Canonicalize(c: Codec, v: Json) returns (buf: Bytes)
    ensures buf == Canonical(c, v)
    decreases v, 0
  {
    match v
    case Null => buf := Text("null");
    case Bool(b) => buf := if b then Text("true") else Text("false");
    case Num(n) => buf := c.num(n);
    case Str(s) => buf := c.str(s);
    case Arr(items) => buf := CanonicalizeArray(c, items);
    case Obj(_) => buf := CanonicalizeObject(c, v);
  }

  method CanonicalizeArray(c: Codec, items: seq<Json>) returns (buf: Bytes)
    ensures buf == Canonical(c, Arr(items))
    decreases items
  {
    buf := [91];
    for i := 0 to |items|
      invariant Canonical(c, Arr(items)) == buf + ElementsFrom(c, items, i)
    {
      ElementsStep(c, items, i);
      ghost var before := buf;
      if i > 0 {
        buf := buf + [44];
      }
      var e := Canonicalize(c, items[i]);
      buf := buf + e;
      Regroup(before, if i > 0 then [44] else [], e, ElementsFrom(c, items, i + 1));
    }
    buf := buf + [93];
    assert [93] + [] == [93];
  }

  /** What is left of an array's text after its first `i` elements. */
  ghost function ElementsFrom(c: Codec, items: seq<Json>, i: nat): Bytes
    requires i <= |items|
  {
    if i == 0 then Elements(c, items, []) else PutItems(c, items[i..], [])
  }

  lemma ElementsStep(c: Codec, items: seq<Json>, i: nat)
    requires i < |items|
    ensures ElementsFrom(c, items, i) ==
            (if i > 0 then [44] else []) + Canonical(c, items[i]) + ElementsFrom(c, items, i + 1)
  {
    PutAppends(c, items[i], PutItems(c, items[i + 1..], []));
    assert items[i..][1..] == items[i + 1..];
  }

  /** What is left of an object's text after its first `i` members. */
  ghost function MembersFrom(c: Codec, v: Json, ks: seq<string>, i: nat): Bytes
    requires v.Obj? && i <= |ks| && forall k | k in ks :: k in v.fields
  {
    if i == 0 then Body(c, v, ks, []) else PutMembers(c, v, ks[i..], [])
  }

  ghost function Entry(c: Codec, v: Json, k: string): Bytes
    requires v.Obj? && k in v.fields
  {
    c.str(k) + [58] + Canonical(c, v.fields[k])
  }

  lemma MembersStep(c: Codec, v: Json, ks: seq<string>, i: nat)
    requires v.Obj? && i < |ks| && forall k | k in ks :: k in v.fields
    ensures MembersFrom(c, v, ks, i) ==
            (if i > 0 then [44] else []) + Entry(c, v, ks[i]) + MembersFrom(c, v, ks, i + 1)
  {
    MemberAppends(c, v, ks[i], PutMembers(c, v, ks[i + 1..], []));
    assert ks[i..][1..] == ks[i + 1..];
  }

  method CanonicalizeObject(c: Codec, v: Json) returns (buf: Bytes)
    requires v.Obj?
    ensures buf == Canonical(c, v)
    decreases v, 0, 1
  {
    var keys := SortKeys(v.fields.Keys);
    PutObject(c, v, []);
    buf := CanonicalizeMembers(c, v, keys);
    buf := buf + [125];
    assert keys[|keys|..] == [];
    assert [125] + [] == [125];
  }

  method CanonicalizeMembers(c: Codec, v: Json, keys: seq<string>) returns (buf: Bytes)
    requires v.Obj? && forall k | k in keys :: k in v.fields
    ensures [123] + MembersFrom(c, v, keys, 0) == buf + MembersFrom(c, v, keys, |keys|)
    decreases v, 0, 0
  {
    buf := [123];
    for i := 0 to |keys|
      invariant [123] + MembersFrom(c, v, keys, 0) == buf + MembersFrom(c, v, keys, i)
    {
      MembersStep(c, v, keys, i);
      ghost var before := buf;
      if i > 0 {
        buf := buf + [44];
      }
      var e := Canonicalize(c, v.fields[keys[i]]);
      buf := buf + (c.str(keys[i]) + [58] + e);
      Regroup(before, if i > 0 then [44] else [], Entry(c, v, keys[i]), MembersFrom(c, v, keys, i + 1));
    }
  }

  lemma Regroup(a: Bytes, s: Bytes, e: Bytes, x: Bytes)
    ensures a + (s + e + x) == (a + s + e) + x
    ensures a + [] == a
  {
  }
}

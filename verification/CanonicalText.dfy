/** Canonical JSON as it reads: elements and members joined by commas between brackets, each
    key with a colon before its value, keys ascending. */
module CanonicalText {
  import opened Common
  import opened CanonicalJson

  function Join(parts: seq<Bytes>): Bytes
  {
    if parts == [] then [] else if |parts| == 1 then parts[0] else parts[0] + Text(",") + Join(parts[1..])
  }

  lemma Regroup(a: Bytes, b: Bytes, c: Bytes)
    ensures (a + b) + c == a + (b + c)
  {
  }

  /** What is written does not depend on what follows. */
  lemma {:induction false} PutAppends(c: Codec, v: Json, x: Bytes, y: Bytes)
    ensures Put(c, v, x + y) == Put(c, v, x) + y
    decreases v, 0
  {
    match v
    case Null => Regroup(Text("null"), x, y);
    case Bool(b) => Regroup(if b then Text("true") else Text("false"), x, y);
    case Num(n) => Regroup(c.num(n), x, y);
    case Str(s) => Regroup(c.str(s), x, y);
    case Arr(items) =>
      if items == [] {
        Regroup([93], x, y);
      } else {
        ItemsAppend(c, items[1..], x, y);
        PutAppends(c, items[0], PutItems(c, items[1..], x), y);
      }
      Regroup([91], Elements(c, items, x), y);
    case Obj(fields) =>
      var ks := SortedKeys(fields.Keys);
      if ks == [] {
        Regroup([125], x, y);
      } else {
        MembersAppend(c, v, ks[1..], x, y);
        MemberAppends(c, v, ks[0], PutMembers(c, v, ks[1..], x), y);
      }
      Regroup([123], Body(c, v, ks, x), y);
  }

  lemma {:induction false} ItemsAppend(c: Codec, items: seq<Json>, x: Bytes, y: Bytes)
    ensures PutItems(c, items, x + y) == PutItems(c, items, x) + y
    decreases items, 1
  {
    if items == [] {
      Regroup([93], x, y);
    } else {
      ItemsAppend(c, items[1..], x, y);
      PutAppends(c, items[0], PutItems(c, items[1..], x), y);
      Regroup([44], Put(c, items[0], PutItems(c, items[1..], x)), y);
    }
  }

  lemma {:induction false} MemberAppends(c: Codec, v: Json, k: string, x: Bytes, y: Bytes)
    requires v.Obj? && k in v.fields
    ensures PutMember(c, v, k, x + y) == PutMember(c, v, k, x) + y
    decreases v, 0, 0
  {
    PutAppends(c, v.fields[k], x, y);
    Regroup([58], Put(c, v.fields[k], x), y);
    Regroup(c.str(k), [58] + Put(c, v.fields[k], x), y);
  }

  lemma {:induction false} MembersAppend(c: Codec, v: Json, ks: seq<string>, x: Bytes, y: Bytes)
    requires v.Obj? && forall k | k in ks :: k in v.fields
    ensures PutMembers(c, v, ks, x + y) == PutMembers(c, v, ks, x) + y
    decreases v, 0, 1 + |ks|
  {
    if ks == [] {
      Regroup([125], x, y);
    } else {
      MembersAppend(c, v, ks[1..], x, y);
      MemberAppends(c, v, ks[0], PutMembers(c, v, ks[1..], x), y);
      Regroup([44], PutMember(c, v, ks[0], PutMembers(c, v, ks[1..], x)), y);
    }
  }

  lemma PutIs(c: Codec, v: Json, x: Bytes)
    ensures Put(c, v, x) == Canonical(c, v) + x
  {
    PutAppends(c, v, [], x);
    assert [] + x == x;
  }

  lemma Marks()
    ensures Text("[") == [91] && Text("]") == [93] && Text("{") == [123] && Text("}") == [125]
    ensures Text(",") == [44] && Text(":") == [58]
  {
  }

  // ------------------------------------------------------------------ arrays

  ghost function ItemTexts(c: Codec, items: seq<Json>): (ts: seq<Bytes>)
    ensures |ts| == |items| && forall i | 0 <= i < |items| :: ts[i] == Canonical(c, items[i])
  {
    if items == [] then [] else [Canonical(c, items[0])] + ItemTexts(c, items[1..])
  }

  lemma {:induction false} ElementsJoined(c: Codec, items: seq<Json>, x: Bytes)
    requires items != []
    ensures Put(c, items[0], PutItems(c, items[1..], x)) == Join(ItemTexts(c, items)) + (Text("]") + x)
  {
    Marks();
    var ts := ItemTexts(c, items);
    PutIs(c, items[0], PutItems(c, items[1..], x));
    assert ts[1..] == ItemTexts(c, items[1..]);
    if |items| > 1 {
      ElementsJoined(c, items[1..], x);
      assert PutItems(c, items[1..], x) == [44] + (Join(ts[1..]) + ([93] + x));
      JoinStep(ts, [93] + x);
    }
  }

  lemma JoinStep(ts: seq<Bytes>, x: Bytes)
    requires |ts| > 1
    ensures ts[0] + ([44] + (Join(ts[1..]) + x)) == Join(ts) + x
  {
    Marks();
    Regroup([44], Join(ts[1..]), x);
    Regroup(ts[0], [44] + Join(ts[1..]), x);
    Regroup(ts[0], [44], Join(ts[1..]));
  }

  /** An array is its elements, joined by commas, in brackets. */
  lemma ArrayReads(c: Codec, items: seq<Json>)
    ensures Canonical(c, Arr(items)) == Text("[") + (Join(ItemTexts(c, items)) + Text("]"))
  {
    Marks();
    assert [93] + [] == [93];
    if items == [] {
      assert [] + [93] == [93];
    } else {
      ElementsJoined(c, items, []);
    }
  }

  // ----------------------------------------------------------------- objects

  /** `a` comes first: it goes on with a smaller character, or ends, where they part. */
  ghost predicate Precedes(a: string, b: string)
  {
    exists n | 0 <= n <= |a| && n < |b| :: a[..n] == b[..n] && (n == |a| || a[n] < b[n])
  }

  lemma {:induction false} LessPrecedes(a: string, b: string)
    requires Less(a, b)
    ensures Precedes(a, b)
  {
    if a == [] || a[0] < b[0] {
      assert a[..0] == b[..0];
    } else {
      LessPrecedes(a[1..], b[1..]);
      var n :| 0 <= n <= |a[1..]| && n < |b[1..]| && a[1..][..n] == b[1..][..n] && (n == |a[1..]| || a[1..][n] < b[1..][n]);
      var m := n + 1;
      assert a[..m] == [a[0]] + a[1..][..n] && b[..m] == [b[0]] + b[1..][..n];
    }
  }

  ghost function MemberTexts(c: Codec, fields: map<string, Json>, ks: seq<string>): (ts: seq<Bytes>)
    requires forall k | k in ks :: k in fields
    ensures |ts| == |ks| && forall i | 0 <= i < |ks| :: ts[i] == c.str(ks[i]) + (Text(":") + Canonical(c, fields[ks[i]]))
  {
    if ks == [] then []
    else [c.str(ks[0]) + (Text(":") + Canonical(c, fields[ks[0]]))] + MemberTexts(c, fields, ks[1..])
  }

  lemma MemberIs(c: Codec, v: Json, k: string, x: Bytes)
    requires v.Obj? && k in v.fields
    ensures PutMember(c, v, k, x) == (c.str(k) + (Text(":") + Canonical(c, v.fields[k]))) + x
  {
    Marks();
    PutIs(c, v.fields[k], x);
    Regroup([58], Canonical(c, v.fields[k]), x);
    Regroup(c.str(k), [58] + Canonical(c, v.fields[k]), x);
  }

  lemma {:induction false} MembersJoined(c: Codec, v: Json, ks: seq<string>, x: Bytes)
    requires v.Obj? && ks != [] && forall k | k in ks :: k in v.fields
    ensures PutMember(c, v, ks[0], PutMembers(c, v, ks[1..], x)) == Join(MemberTexts(c, v.fields, ks)) + (Text("}") + x)
    decreases |ks|
  {
    Marks();
    var ts := MemberTexts(c, v.fields, ks);
    MemberIs(c, v, ks[0], PutMembers(c, v, ks[1..], x));
    assert ts[1..] == MemberTexts(c, v.fields, ks[1..]);
    if |ks| > 1 {
      MembersJoined(c, v, ks[1..], x);
      assert PutMembers(c, v, ks[1..], x) == [44] + (Join(ts[1..]) + ([125] + x));
      JoinStep(ts, [125] + x);
    }
  }

  /** An object is its members, each a key, a colon and a value, joined by commas, in braces;
      the keys are exactly its own, ascending. */
  lemma ObjectReads(c: Codec, fields: map<string, Json>) returns (ks: seq<string>)
    ensures (forall k :: k in ks <==> k in fields) && forall i, j | 0 <= i < j < |ks| :: Precedes(ks[i], ks[j])
    ensures Canonical(c, Obj(fields)) == Text("{") + (Join(MemberTexts(c, fields, ks)) + Text("}"))
  {
    Marks();
    ks := SortedKeys(fields.Keys);
    forall i, j | 0 <= i < j < |ks|
      ensures Precedes(ks[i], ks[j])
    {
      SortedKeysAscend(fields.Keys, i, j);
      LessPrecedes(ks[i], ks[j]);
    }
    assert [125] + [] == [125];
    if ks == [] {
      assert [] + [125] == [125];
    } else {
      MembersJoined(c, Obj(fields), ks, []);
    }
  }
}

/** AGENTS.md policies: the string key that identifies a predicate, the parser that
    produces predicates, and the merge of an organisation's policy with a repository's. */
module AgentsPolicy {
  import opened Common

  type Int64 = n: int | -0x8000_0000_0000_0000 <= n < 0x8000_0000_0000_0000

  const MIN_INT64: int := -0x8000_0000_0000_0000

  datatype Pred = Pred(name: string, branchGlob: string, pathGlob: string, maxBytes: Int64)

  datatype Policy = Policy(empty: bool, never: seq<Pred>)

  // ------------------------------------------------------ decimal rendering

  /** What the buffer-filling loop produces. The most negative value has no positive
      counterpart: its negation wraps to itself and only the sign is written. */
  function Itoa(n: Int64): string
  {
    if n == MIN_INT64 then "-" else if n < 0 then "-" + Decimal(-n) else Decimal(n)
  }

  function Pow10(k: nat): nat { if k == 0 then 1 else 10 * Pow10(k - 1) }

  lemma {:induction false} DecimalLength(n: nat, k: nat)
    requires n < Pow10(k)
    ensures |Decimal(n)| <= if k == 0 then 1 else k
  {
    if n >= 10 {
      assert n / 10 < Pow10(k - 1);
      DecimalLength(n / 10, k - 1);
    }
  }

  lemma NineteenDigits(n: nat)
    requires n < 0x8000_0000_0000_0000
    ensures |Decimal(n)| <= 19
  {
    assert Pow10(10) == 10_000_000_000;
    assert Pow10(19) == 10_000_000_000_000_000_000;
    DecimalLength(n, 19);
  }

  /** `-n` on int64. */
  function Negated(n: Int64): Int64 { if n == MIN_INT64 then MIN_INT64 else -n }

  /** The 20-byte buffer is filled from its end and never overrun. */
  method Itoa64(n: Int64) returns (s: string)
    ensures s == Itoa(n)
  {
    if n == 0 {
      return "0";
    }
    var negative := n < 0;
    var m: Int64 := n;
    if negative {
      m := Negated(n);
    }
    var buf := new char[20];
    NineteenDigits(if m > 0 then m else 0);
    var i := FillDigits(buf, m);
    if negative {
      i := i - 1;
      buf[i] := '-';
    }
    s := buf[i..];
  }

  /** The digits of a positive number, none for zero and below. */
  function Digits(n: int): string { if n > 0 then Decimal(n) else [] }

  method LastDigit(m: int) returns (c: char, rest: int)
    requires m > 0
    ensures Digits(m) == Digits(rest) + [c] && rest < m
  {
    c, rest := DigitChar(m % 10), m / 10;
  }

  /** `m` is what remains of `n` once the buffer holds its last digits from `i` on. */
  ghost predicate Filling(buf: array<char>, i: int, m: int, n: int)
    reads buf
  {
    |Digits(m)| < i <= buf.Length && Digits(n) == Digits(m) + buf[i..]
  }

  /** One turn: the last digit goes in front of the digits already written. */
  method WriteDigit(buf: array<char>, i: int, m: int, ghost n: int) returns (j: int, rest: int)
    requires m > 0 && Filling(buf, i, m, n)
    modifies buf
    ensures rest < m && Filling(buf, j, rest, n)
  {
    var c;
    c, rest := LastDigit(m);
    ghost var done := buf[i..];
    j := i - 1;
    buf[j] := c;
    assert buf[j..] == [c] + done;
    Regroup(Digits(rest), c, done);
  }

  /** Writes the digits of `n` at the end of the buffer. */
  method FillDigits(buf: array<char>, n: int) returns (i: int)
    requires |Digits(n)| < buf.Length
    modifies buf
    ensures 0 < i <= buf.Length && buf[i..] == Digits(n)
  {
    i := buf.Length;
    var m := n;
    assert Filling(buf, i, m, n);
    while m > 0
      invariant Filling(buf, i, m, n)
      decreases m
    {
      i, m := WriteDigit(buf, i, m, n);
    }
  }

  lemma Regroup(a: string, c: char, b: string)
    ensures (a + [c]) + b == a + ([c] + b)
  {
  }

  lemma ItoaInjective(m: Int64, n: Int64)
    requires Itoa(m) == Itoa(n)
    ensures m == n
  {
    ItoaHead(m);
    ItoaHead(n);
    if m < 0 {
      assert Itoa(m)[1..] == if m == MIN_INT64 then [] else Decimal(-m);
      assert Itoa(n)[1..] == if n == MIN_INT64 then [] else Decimal(-n);
      DecimalIsDigits(if m == MIN_INT64 then 0 else -m);
      DecimalIsDigits(if n == MIN_INT64 then 0 else -n);
      if m != MIN_INT64 && n != MIN_INT64 {
        DecimalInjective(-m, -n);
      }
    } else {
      DecimalInjective(m, n);
    }
  }

  lemma ItoaHead(n: Int64)
    ensures Itoa(n) != [] && (Itoa(n)[0] == '-' <==> n < 0) && '|' !in Itoa(n)
  {
    DecimalIsDigits(if n == MIN_INT64 then 0 else if n < 0 then -n else n);
    if n >= 0 {
      assert Itoa(n)[0] in Decimal(n);
    }
  }

  // ---------------------------------------------------------------- the key

  function Selector(p: Pred): string { p.branchGlob + (['|'] + (p.pathGlob + ['|'] + Itoa(p.maxBytes))) }

  function Key(p: Pred): string { p.name + (['|'] + Selector(p)) }

  lemma FirstSeparatorUnique(p: string, q: string, s: string, t: string, sep: char)
    requires p + ([sep] + s) == q + ([sep] + t)
    requires sep !in p && sep !in q
    ensures p == q && s == t
  {
    var w := p + ([sep] + s);
    assert w[|p|] == sep && w[|q|] == sep;
    assert forall i | 0 <= i < |p| :: w[i] == p[i];
    assert forall i | 0 <= i < |q| :: w[i] == q[i];
    assert |p| == |q|;
    assert p == w[..|p|] && q == w[..|q|];
    assert s == w[|p| + 1..] && t == w[|q| + 1..];
  }

  /** Name and globs with bars between them. */
  function Joined(p: Pred): string { p.name + "|" + p.branchGlob + "|" + p.pathGlob }

  lemma KeyEnds(p: Pred)
    ensures Key(p) == Joined(p) + ['|'] + Itoa(p.maxBytes) && '|' !in Itoa(p.maxBytes)
  {
    ItoaHead(p.maxBytes);
  }

  /** Exactly when two predicates share a key: the sizes agree, and so do name and globs
      once they are joined by bars. */
  lemma KeyIff(p: Pred, q: Pred)
    ensures Key(p) == Key(q) <==> p.maxBytes == q.maxBytes && Joined(p) == Joined(q)
  {
    KeyEnds(p);
    KeyEnds(q);
    if Key(p) == Key(q) {
      LastSeparatorUnique(Joined(p), Joined(q), Itoa(p.maxBytes), Itoa(q.maxBytes), '|');
      ItoaInjective(p.maxBytes, q.maxBytes);
    }
  }

  /** Keys of predicates with bar-free names separate them as soon as the branch globs,
      or the path globs, are bar-free. */
  lemma KeySeparates(p: Pred, q: Pred)
    requires Key(p) == Key(q) && '|' !in p.name && '|' !in q.name
    requires ('|' !in p.branchGlob && '|' !in q.branchGlob) || ('|' !in p.pathGlob && '|' !in q.pathGlob)
    ensures p == q
  {
    KeyIff(p, q);
    var a, b := p.branchGlob + ['|'] + p.pathGlob, q.branchGlob + ['|'] + q.pathGlob;
    JoinedSplits(p, a);
    JoinedSplits(q, b);
    FirstSeparatorUnique(p.name, q.name, a, b, '|');
    if '|' !in p.branchGlob && '|' !in q.branchGlob {
      assert a == p.branchGlob + (['|'] + p.pathGlob) && b == q.branchGlob + (['|'] + q.pathGlob);
      FirstSeparatorUnique(p.branchGlob, q.branchGlob, p.pathGlob, q.pathGlob, '|');
    } else {
      LastSeparatorUnique(p.branchGlob, q.branchGlob, p.pathGlob, q.pathGlob, '|');
    }
  }

  lemma JoinedSplits(p: Pred, globs: string)
    requires globs == p.branchGlob + ['|'] + p.pathGlob
    ensures Joined(p) == p.name + (['|'] + globs)
  {
  }

  const BRANCH_NAMES: set<string> := {"force_push_to_branch", "delete_branch", "push_to_branch"}

  const KNOWN: set<string> := BRANCH_NAMES + {"modify_path", "push_binary_over_size"}

  /** The shape of a predicate the parser keeps: a known name and only its own selector. */
  predicate Parsed(p: Pred)
  {
    && p.name in KNOWN
    && (p.name !in BRANCH_NAMES ==> p.branchGlob == "")
    && (p.name != "modify_path" ==> p.pathGlob == "")
    && (p.name != "push_binary_over_size" ==> p.maxBytes == 0)
  }

  lemma NamesHaveNoBar(name: string)
    requires name in KNOWN
    ensures '|' !in name
  {
  }

  /** The key is injective on parsed predicates. */
  lemma KeyInjective(p: Pred, q: Pred)
    requires Parsed(p) && Parsed(q) && Key(p) == Key(q)
    ensures p == q
  {
    NamesHaveNoBar(p.name);
    NamesHaveNoBar(q.name);
    FirstSeparatorUnique(p.name, q.name, Selector(p), Selector(q), '|');
    KeySeparates(p, q);
  }

  /** Off the parsed shape it is not: a bar in a glob shifts the fields. */
  lemma KeyCollides(name: string)
    ensures var p, q := Pred(name, "a|b", "", 0), Pred(name, "a", "b|", 0);
            Key(p) == Key(q) && p != q
  {
    var n := Itoa(0);
    assert ("a|b" + (['|'] + ("" + ['|'] + n))) == ("a" + (['|'] + ("b|" + ['|'] + n)));
  }

  // ------------------------------------------------------------------ merge

  function Effective(p: Option<Policy>): seq<Pred>
  {
    if p.Some? && !p.value.empty then p.value.never else []
  }

  /** The elements of `xs` whose key has not been seen, first occurrences only. */
  function Fresh<T>(key: T -> string, xs: seq<T>, seen: set<string>): seq<T>
  {
    if xs == [] then []
    else if key(xs[0]) in seen then Fresh(key, xs[1..], seen)
    else [xs[0]] + Fresh(key, xs[1..], seen + {key(xs[0])})
  }

  function Keys<T>(key: T -> string, xs: seq<T>): set<string> { set i | 0 <= i < |xs| :: key(xs[i]) }

  lemma KeysCons<T>(key: T -> string, xs: seq<T>)
    requires xs != []
    ensures Keys(key, xs) == {key(xs[0])} + Keys(key, xs[1..])
  {
    forall k
      ensures k in Keys(key, xs) <==> k in {key(xs[0])} + Keys(key, xs[1..])
    {
      if k in Keys(key, xs) {
        var i :| 0 <= i < |xs| && k == key(xs[i]);
        if i > 0 {
          assert xs[1..][i - 1] == xs[i];
        }
      }
      if k in Keys(key, xs[1..]) {
        var i :| 0 <= i < |xs[1..]| && k == key(xs[1..][i]);
        assert xs[i + 1] == xs[1..][i];
      }
    }
  }

  lemma KeysSnoc<T>(key: T -> string, xs: seq<T>, p: T)
    ensures Keys(key, xs + [p]) == Keys(key, xs) + {key(p)}
  {
    var ys := xs + [p];
    assert ys[|xs|] == p;
    forall k | k in Keys(key, xs)
      ensures k in Keys(key, ys)
    {
      var i :| 0 <= i < |xs| && k == key(xs[i]);
      assert ys[i] == xs[i];
    }
  }

  lemma {:induction false} FreshAppend<T>(key: T -> string, xs: seq<T>, p: T, seen: set<string>)
    ensures Fresh(key, xs + [p], seen) == Fresh(key, xs, seen) + if key(p) in seen + Keys(key, xs) then [] else [p]
  {
    if xs == [] {
      assert xs + [p] == [p];
    } else {
      assert (xs + [p])[1..] == xs[1..] + [p];
      KeysCons(key, xs);
      FreshAppend(key, xs[1..], p, if key(xs[0]) in seen then seen else seen + {key(xs[0])});
    }
  }

  method Key64(p: Pred) returns (k: string)
    ensures k == Key(p)
  {
    var n := Itoa64(p.maxBytes);
    k := p.name + "|" + p.branchGlob + "|" + p.pathGlob + "|" + n;
    assert k == Key(p);
  }

  lemma AddStep<T>(key: T -> string, done: seq<T>, xs: seq<T>, i: nat)
    requires i < |xs|
    ensures Keys(key, done + xs[..i + 1]) == Keys(key, done + xs[..i]) + {key(xs[i])}
    ensures Fresh(key, done + xs[..i + 1], {}) ==
            Fresh(key, done + xs[..i], {}) + if key(xs[i]) in Keys(key, done + xs[..i]) then [] else [xs[i]]
  {
    var soFar := done + xs[..i];
    assert done + xs[..i + 1] == soFar + [xs[i]];
    FreshAppend(key, soFar, xs[i], {});
    KeysSnoc(key, soFar, xs[i]);
    assert {} + Keys(key, soFar) == Keys(key, soFar);
  }

  /** One of the two loops: appends the predicates not seen yet. */
  method AddAll(xs: seq<Pred>, ghost done: seq<Pred>, seen0: set<string>, merged0: seq<Pred>)
    returns (seen: set<string>, merged: seq<Pred>)
    requires seen0 == Keys(Key, done) && merged0 == Fresh(Key, done, {})
    ensures seen == Keys(Key, done + xs) && merged == Fresh(Key, done + xs, {})
  {
    seen, merged := seen0, merged0;
    assert done + xs[..0] == done;
    for i := 0 to |xs|
      invariant seen == Keys(Key, done + xs[..i])
      invariant merged == Fresh(Key, done + xs[..i], {})
    {
      AddStep(Key, done, xs, i);
      var k := Key64(xs[i]);
      if k !in seen {
        seen, merged := seen + {k}, merged + [xs[i]];
      }
    }
    assert done + xs[..|xs|] == done + xs;
  }

  /** Organisation first, then the repository's predicates that do not collide. */
  method Merge(org: Option<Policy>, repo: Option<Policy>) returns (merged: Policy)
    ensures merged.never == Fresh(Key, Effective(org) + Effective(repo), {})
    ensures merged.empty <==> merged.never == []
  {
    var seen, never := {}, [];
    var a, b := Effective(org), Effective(repo);
    assert [] + a == a;
    seen, never := AddAll(a, [], seen, never);
    seen, never := AddAll(b, a, seen, never);
    merged := Policy(|never| == 0, never);
  }

  lemma {:induction false} FreshMembers<T>(key: T -> string, xs: seq<T>, seen: set<string>)
    ensures forall p | p in Fresh(key, xs, seen) :: p in xs && key(p) !in seen
  {
    if xs != [] {
      FreshMembers(key, xs[1..], if key(xs[0]) in seen then seen else seen + {key(xs[0])});
    }
  }

  lemma {:induction false} FreshCovers<T>(key: T -> string, xs: seq<T>, seen: set<string>, p: T) returns (q: T)
    requires p in xs && key(p) !in seen
    ensures q in Fresh(key, xs, seen) && key(q) == key(p)
  {
    var k := key(xs[0]);
    if key(p) == k {
      q := xs[0];
    } else {
      q := FreshCovers(key, xs[1..], if k in seen then seen else seen + {k}, p);
    }
  }

  ghost predicate DistinctKeys<T>(key: T -> string, xs: seq<T>)
  {
    forall i, j | 0 <= i < j < |xs| :: key(xs[i]) != key(xs[j])
  }

  /** No key is kept twice. */
  lemma {:induction false} FreshDistinct<T>(key: T -> string, xs: seq<T>, seen: set<string>)
    ensures DistinctKeys(key, Fresh(key, xs, seen))
  {
    if xs != [] {
      var k := key(xs[0]);
      var seen1 := if k in seen then seen else seen + {k};
      FreshDistinct(key, xs[1..], seen1);
      FreshMembers(key, xs[1..], seen1);
      var r, rest := Fresh(key, xs, seen), Fresh(key, xs[1..], seen1);
      if k in seen {
        assert r == rest;
      } else {
        assert r == [xs[0]] + rest;
        assert forall i | 0 <= i < |rest| :: rest[i] in rest;
      }
    }
  }

  ghost predicate AllParsed(xs: seq<Pred>) { forall p | p in xs :: Parsed(p) }

  /** Deduplicating parsed predicates by key loses none of them. */
  lemma FreshKeepsAll(xs: seq<Pred>)
    requires AllParsed(xs)
    ensures forall p :: p in Fresh(Key, xs, {}) <==> p in xs
  {
    FreshMembers(Key, xs, {});
    forall p | p in xs
      ensures p in Fresh(Key, xs, {})
    {
      var q := FreshCovers(Key, xs, {}, p);
      KeyInjective(p, q);
    }
  }
}

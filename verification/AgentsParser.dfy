/** Reading the Never block of an AGENTS.md body: which lines are predicates, what one
    bullet item says, and that everything kept has the shape merging relies on. */
module AgentsParser {
  import opened Common
  import opened AgentsPolicy

  // ------------------------------------------------------------ white space

  predicate IsSpace(c: char)
  {
    c in "\t\n\U{0b}\U{0c}\r \U{85}\U{a0}\U{1680}\U{2028}\U{2029}\U{202f}\U{205f}\U{3000}" ||
    '\U{2000}' <= c <= '\U{200a}'
  }

  function TrimStart(s: string): string { if s != [] && IsSpace(s[0]) then TrimStart(s[1..]) else s }

  function TrimEnd(s: string): string { if s != [] && IsSpace(s[|s| - 1]) then TrimEnd(s[..|s| - 1]) else s }

  function Trim(s: string): string { TrimEnd(TrimStart(s)) }

  // -------------------------------------------------------------- one item

  /** Two's complement wrap-around to 64 bits. */
  function Wrap(n: int): Int64
  {
    (n + 0x8000_0000_0000_0000) % 0x1_0000_0000_0000_0000 - 0x8000_0000_0000_0000
  }

  /** The last character may scale the size by a power of 1024. */
  function Scale(s: string): int
    requires s != []
  {
    var c := s[|s| - 1];
    if c == 'k' || c == 'K' then 1024
    else if c == 'm' || c == 'M' then 1024 * 1024
    else if c == 'g' || c == 'G' then 1024 * 1024 * 1024
    else 1
  }

  function SizeDigits(s: string): string
    requires s != []
  {
    if Scale(s) == 1 then s else s[..|s| - 1]
  }

  predicate AllDigits(s: string) { forall c | c in s :: IsDigit(c) }

  function SizeOf(s: string): Option<Int64>
  {
    if s == "" || !AllDigits(SizeDigits(s)) then None
    else Some(Wrap(Wrap(Natural(SizeDigits(s))) * Scale(s)))
  }

  lemma WrapShift(n: int, k: int)
    ensures Wrap(n + k * 0x1_0000_0000_0000_0000) == Wrap(n)
  {
  }

  lemma WrapQuotient(n: int) returns (k: int)
    ensures Wrap(n) == n + k * 0x1_0000_0000_0000_0000
  {
    k := -((n + 0x8000_0000_0000_0000) / 0x1_0000_0000_0000_0000);
  }

  lemma WrapDigit(n: int, d: int)
    ensures Wrap(Wrap(n) * 10 + d) == Wrap(n * 10 + d)
  {
    var k := WrapQuotient(n);
    WrapShift(n * 10 + d, 10 * k);
  }

  /** Sizes below 2^63 are read exactly. */
  lemma SizeIsExact(s: string)
    requires s != "" && AllDigits(SizeDigits(s)) && Natural(SizeDigits(s)) * Scale(s) < 0x8000_0000_0000_0000
    ensures SizeOf(s) == Some(Natural(SizeDigits(s)) * Scale(s))
  {
    var v := Natural(SizeDigits(s));
    assert v <= v * Scale(s);
    assert Wrap(v) == v;
  }

  method ParseSize(s: string) returns (r: Option<Int64>)
    ensures r == SizeOf(s)
  {
    if s == "" {
      return None;
    }
    var scale, digits := Scale(s), SizeDigits(s);
    var n: Int64 := 0;
    assert digits[..0] == [];
    for i := 0 to |digits|
      invariant AllDigits(digits[..i]) && n == Wrap(Natural(digits[..i]))
    {
      if !IsDigit(digits[i]) {
        return None;
      }
      assert digits[..i + 1][..i] == digits[..i];
      WrapDigit(Natural(digits[..i]), DigitValue(digits[i]));
      n := Wrap(n * 10 + DigitValue(digits[i]));
    }
    assert digits[..|digits|] == digits;
    r := Some(Wrap(n * scale));
  }

  function Unquote(s: string): string
  {
    if |s| >= 2 && s[0] == s[|s| - 1] && (s[0] == '"' || s[0] == '\'') then s[1..|s| - 1] else s
  }

  function IndexOf(s: string, c: char): (k: int)
    ensures -1 <= k < |s| && (k >= 0 ==> s[k] == c)
  {
    if s == [] then -1 else if s[0] == c then 0
    else var k := IndexOf(s[1..], c); if k == -1 then -1 else k + 1
  }

  /** `name: selector`. An unknown name is carried through for the caller to reject. */
  function ItemOf(item: string): Option<Pred>
  {
    var colon := IndexOf(item, ':');
    if colon < 0 then None
    else
      var name, selector := Trim(item[..colon]), Trim(item[colon + 1..]);
      if name == "" || selector == "" then None
      else if name == "modify_path" then Some(Pred(name, "", Unquote(selector), 0))
      else if name == "push_binary_over_size" then
        var n := SizeOf(Unquote(selector));
        if n.None? then None else Some(Pred(name, "", "", n.value))
      else Some(Pred(name, Unquote(selector), "", 0))
  }

  method ParsePredicateItem(item: string) returns (r: Option<Pred>)
    ensures r == ItemOf(item)
    ensures r.Some? && r.value.name in KNOWN ==> Parsed(r.value)
  {
    ItemShape(item);
    var colon := IndexOf(item, ':');
    if colon < 0 {
      return None;
    }
    var name, selector := Trim(item[..colon]), Trim(item[colon + 1..]);
    if name == "" || selector == "" {
      return None;
    }
    var pred := Pred(name, "", "", 0);
    if name == "modify_path" {
      pred := pred.(pathGlob := Unquote(selector));
    } else if name == "push_binary_over_size" {
      var n := ParseSize(Unquote(selector));
      if n.None? {
        return None;
      }
      pred := pred.(maxBytes := n.value);
    } else {
      pred := pred.(branchGlob := Unquote(selector));
    }
    r := Some(pred);
  }

  /** A parsed item with a known name fills only that name's selector. */
  lemma ItemShape(item: string)
    ensures var r := ItemOf(item); r.Some? && r.value.name in KNOWN ==> Parsed(r.value)
  {
  }

  // ------------------------------------------------------- the Never block

  predicate IsHeading(line: string) { "#" <= Trim(line) }

  function DropHashes(s: string): string { if s != [] && s[0] == '#' then DropHashes(s[1..]) else s }

  function Lower(c: char): char { if 'A' <= c <= 'Z' then c + 32 as char else c }

  predicate IsNever(line: string)
  {
    var h := Trim(DropHashes(Trim(line)));
    |h| == 5 && Lower(h[0]) == 'n' && Lower(h[1]) == 'e' && Lower(h[2]) == 'v' && Lower(h[3]) == 'e' && Lower(h[4]) == 'r'
  }

  predicate IsBullet(line: string) { "- " <= Trim(line) }

  function ItemText(line: string): string
    requires IsBullet(line)
  {
    Trim(Trim(line)[2..])
  }

  /** The line's predicate, when it is a bullet with a known one. */
  function PredAt(line: string): Option<Pred>
  {
    if !IsBullet(line) then None
    else
      var p := ItemOf(ItemText(line));
      if p.Some? && p.value.name in KNOWN then p else None
  }

  /** How one line reads: whether it is a heading, whether it says Never, and the
      predicate it holds. The scan depends on nothing else. */
  datatype Reader = Reader(heading: string -> bool, never: string -> bool, pred: string -> Option<Pred>)

  const READER: Reader := Reader(IsHeading, IsNever, PredAt)

  /** The predicates met while scanning; a heading switches the scan on or off. */
  function Scan(r: Reader, lines: seq<string>, inNever: bool): seq<Pred>
  {
    if lines == [] then []
    else if r.heading(lines[0]) then Scan(r, lines[1..], r.never(lines[0]))
    else if inNever && r.pred(lines[0]).Some? then [r.pred(lines[0]).value] + Scan(r, lines[1..], inNever)
    else Scan(r, lines[1..], inNever)
  }

  method ReadLine(line: string, inNever: bool) returns (p: Option<Pred>)
    requires !IsHeading(line)
    ensures p == if inNever then PredAt(line) else None
  {
    if !inNever || !IsBullet(line) {
      return None;
    }
    p := ParsePredicateItem(ItemText(line));
    if p.None? || p.value.name !in KNOWN {
      return None;
    }
  }

  lemma ScanNext(r: Reader, done: seq<Pred>, lines: seq<string>, i: nat, inNever: bool)
    requires i < |lines|
    ensures r.heading(lines[i]) ==> Scan(r, lines[i..], inNever) == Scan(r, lines[i + 1..], r.never(lines[i]))
    ensures !r.heading(lines[i]) && (!inNever || r.pred(lines[i]).None?) ==>
              Scan(r, lines[i..], inNever) == Scan(r, lines[i + 1..], inNever)
    ensures !r.heading(lines[i]) && inNever && r.pred(lines[i]).Some? ==>
              done + Scan(r, lines[i..], inNever) == (done + [r.pred(lines[i]).value]) + Scan(r, lines[i + 1..], inNever)
  {
    assert lines[i..][1..] == lines[i + 1..];
  }

  method ParseNeverBlock(lines: seq<string>) returns (preds: seq<Pred>)
    ensures preds == Fresh(Key, Scan(READER, lines, false), {})
  {
    preds := [];
    var seen := {};
    var inNever := false;
    ghost var done: seq<Pred> := [];
    assert lines[0..] == lines;
    for i := 0 to |lines|
      invariant Scan(READER, lines, false) == done + Scan(READER, lines[i..], inNever)
      invariant seen == Keys(Key, done) && preds == Fresh(Key, done, {})
    {
      ScanNext(READER, done, lines, i, inNever);
      if IsHeading(lines[i]) {
        inNever := IsNever(lines[i]);
        continue;
      }
      var p := ReadLine(lines[i], inNever);
      if p.None? {
        continue;
      }
      seen, preds := Remember(p.value, done, seen, preds);
      done := done + [p.value];
    }
    assert done + [] == done;
  }

  method Remember(p: Pred, ghost done: seq<Pred>, seen0: set<string>, preds0: seq<Pred>)
    returns (seen: set<string>, preds: seq<Pred>)
    requires seen0 == Keys(Key, done) && preds0 == Fresh(Key, done, {})
    ensures seen == Keys(Key, done + [p]) && preds == Fresh(Key, done + [p], {})
  {
    FreshAppend(Key, done, p, {});
    KeysSnoc(Key, done, p);
    seen, preds := seen0, preds0;
    var k := Key64(p);
    if k in seen {
      return;
    }
    seen, preds := seen + {k}, preds + [p];
  }

  // -- which lines the scan picks

  /** Line `h` is a Never heading and the nearest heading above line `i`. */
  ghost predicate NeverAbove(r: Reader, lines: seq<string>, i: nat, h: nat)
    requires h < i <= |lines|
  {
    r.heading(lines[h]) && r.never(lines[h]) && forall j | h < j < i :: !r.heading(lines[j])
  }

  ghost predicate InNever(r: Reader, lines: seq<string>, i: nat)
    requires i <= |lines|
  {
    exists h | 0 <= h < i :: NeverAbove(r, lines, i, h)
  }

  /** Line `i` is a predicate line of a Never section. */
  ghost predicate Declares(r: Reader, lines: seq<string>, i: nat, p: Pred)
    requires i < |lines|
  {
    !r.heading(lines[i]) && r.pred(lines[i]) == Some(p) && InNever(r, lines, i)
  }

  lemma InNeverNext(r: Reader, lines: seq<string>, i: nat)
    requires i < |lines|
    ensures InNever(r, lines, i + 1) <==> if r.heading(lines[i]) then r.never(lines[i]) else InNever(r, lines, i)
  {
    var n := i + 1;
    if r.heading(lines[i]) {
      assert forall h | 0 <= h < i :: !NeverAbove(r, lines, n, h);
      assert NeverAbove(r, lines, n, i) <==> r.never(lines[i]);
    } else {
      assert forall h | 0 <= h < i :: NeverAbove(r, lines, n, h) <==> NeverAbove(r, lines, i, h);
      assert !NeverAbove(r, lines, n, i);
    }
  }

  lemma ScanStep(r: Reader, lines: seq<string>, k: nat, p: Pred)
    requires k < |lines|
    ensures p in Scan(r, lines[k..], InNever(r, lines, k)) <==>
            Declares(r, lines, k, p) || p in Scan(r, lines[k + 1..], InNever(r, lines, k + 1))
  {
    InNeverNext(r, lines, k);
    ScanNext(r, [], lines, k, InNever(r, lines, k));
    assert [] + Scan(r, lines[k..], InNever(r, lines, k)) == Scan(r, lines[k..], InNever(r, lines, k));
  }

  lemma {:induction false} ScanFrom(r: Reader, lines: seq<string>, k: nat, p: Pred)
    requires k <= |lines|
    ensures p in Scan(r, lines[k..], InNever(r, lines, k)) <==> exists i | k <= i < |lines| :: Declares(r, lines, i, p)
    decreases |lines| - k
  {
    if k < |lines| {
      ScanStep(r, lines, k, p);
      ScanFrom(r, lines, k + 1, p);
      if p in Scan(r, lines[k..], InNever(r, lines, k)) && !Declares(r, lines, k, p) {
        var i :| k + 1 <= i < |lines| && Declares(r, lines, i, p);
      }
    }
  }

  lemma PredAtIsParsed(line: string)
    ensures PredAt(line).Some? ==> Parsed(PredAt(line).value)
  {
    if IsBullet(line) {
      ItemShape(ItemText(line));
    }
  }

  /** The parsed policy holds exactly the predicates its Never sections declare, all of
      parsed shape and none twice. */
  lemma ParsedPolicy(lines: seq<string>)
    ensures var preds := Fresh(Key, Scan(READER, lines, false), {});
            && AllParsed(preds) && DistinctKeys(Key, preds)
            && forall p :: p in preds <==> exists i | 0 <= i < |lines| :: Declares(READER, lines, i, p)
  {
    var all := Scan(READER, lines, false);
    assert lines[0..] == lines;
    assert !InNever(READER, lines, 0);
    forall p
      ensures p in all <==> exists i | 0 <= i < |lines| :: Declares(READER, lines, i, p)
      ensures p in all ==> Parsed(p)
    {
      ScanFrom(READER, lines, 0, p);
      if p in all {
        var i :| 0 <= i < |lines| && Declares(READER, lines, i, p);
        PredAtIsParsed(lines[i]);
      }
    }
    FreshKeepsAll(all);
    FreshDistinct(Key, all, {});
  }
}

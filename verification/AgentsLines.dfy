/** What a line of an AGENTS.md body says, read off its characters: which lines are headings,
    which headings say Never, and which lines are rules. */
module AgentsLines {
  import opened Common
  import opened AgentsPolicy
  import opened AgentsParser
  import opened AgentsHeadings
  import opened AgentsEvaluate
  import opened AgentsRules

  // ------------------------------------------------------------ white space

  /** Unicode's white space, by code point. */
  ghost predicate Blank(c: char)
  {
    var n := c as int;
    || 9 <= n <= 13 || n == 32 || n == 0x85 || n == 0xa0 || n == 0x1680 || 0x2000 <= n <= 0x200a
    || n == 0x2028 || n == 0x2029 || n == 0x202f || n == 0x205f || n == 0x3000
  }

  lemma SpaceIff(c: char)
    ensures IsSpace(c) <==> Blank(c)
  {
  }

  ghost predicate AllBlank(s: string) { forall i | 0 <= i < |s| :: Blank(s[i]) }

  /** `t` is what stands in `s` from `i` to `j`, with white space around it and none at its ends. */
  ghost predicate Framed(s: string, t: string, i: nat, j: nat)
  {
    && i <= j <= |s| && t == s[i..j] && AllBlank(s[..i]) && AllBlank(s[j..])
    && (t != [] ==> !Blank(t[0]) && !Blank(t[|t| - 1]))
  }

  ghost predicate Strips(s: string, t: string) { exists i: nat, j: nat :: Framed(s, t, i, j) }

  lemma BlankPushed(c: char, s: string, k: nat)
    requires Blank(c) && k <= |s| && AllBlank(s[..k])
    ensures var t := [c] + s; AllBlank(t[..k + 1]) && t[k + 1..] == s[k..]
  {
    assert forall i | 0 <= i < k :: ([c] + s)[i + 1] == s[..k][i];
  }

  lemma BlankAppended(s: string, c: char, k: nat)
    requires Blank(c) && k <= |s| && AllBlank(s[k..])
    ensures var t := s + [c]; AllBlank(t[k..]) && t[..k] == s[..k]
  {
    assert (s + [c])[k..] == s[k..] + [c];
  }

  lemma TrimStartNext(c: char, s: string)
    ensures TrimStart([c] + s) == if IsSpace(c) then TrimStart(s) else [c] + s
  {
    assert ([c] + s)[1..] == s;
  }

  lemma {:induction false} TrimStartAt(s: string) returns (i: nat)
    ensures i <= |s| && TrimStart(s) == s[i..] && AllBlank(s[..i]) && (i < |s| ==> !Blank(s[i]))
  {
    i := 0;
    if s != [] {
      var c, rest := s[0], s[1..];
      assert s == [c] + rest;
      TrimStartNext(c, rest);
      SpaceIff(c);
      if IsSpace(c) {
        var k := TrimStartAt(rest);
        i := k + 1;
        BlankPushed(c, rest, k);
      }
    }
  }

  lemma TrimEndNext(s: string, c: char)
    ensures TrimEnd(s + [c]) == if IsSpace(c) then TrimEnd(s) else s + [c]
  {
    assert (s + [c])[..|s|] == s;
  }

  lemma {:induction false} TrimEndAt(s: string) returns (j: nat)
    ensures j <= |s| && TrimEnd(s) == s[..j] && AllBlank(s[j..]) && (j > 0 ==> !Blank(s[j - 1]))
  {
    j := |s|;
    if s != [] {
      var front, c := s[..|s| - 1], s[|s| - 1];
      assert s == front + [c];
      TrimEndNext(front, c);
      SpaceIff(c);
      if IsSpace(c) {
        j := TrimEndAt(front);
        BlankAppended(front, c, j);
      }
    }
  }

  lemma TrimStrips(s: string)
    ensures Strips(s, Trim(s))
  {
    var i := TrimStartAt(s);
    var n := TrimEndAt(s[i..]);
    var j := i + n;
    assert s[i..][..n] == s[i..j] && s[i..][n..] == s[j..];
    assert Framed(s, Trim(s), i, j);
  }

  /** What is not white space stands within the frame. */
  lemma InFrame(s: string, t: string, i: nat, j: nat, k: nat)
    requires Framed(s, t, i, j) && k < |s| && !Blank(s[k])
    ensures i <= k < j
  {
    assert forall n | 0 <= n < i :: s[n] == s[..i][n];
    assert forall n | j <= n < |s| :: s[n] == s[j..][n - j];
  }

  lemma FramedOnce(s: string, t: string, i: nat, j: nat, u: string, k: nat, l: nat)
    requires Framed(s, t, i, j) && Framed(s, u, k, l)
    ensures t == u
  {
    if t != [] {
      InFrame(s, u, k, l, i);
      InFrame(s, u, k, l, j - 1);
    }
    if u != [] {
      InFrame(s, t, i, j, k);
      InFrame(s, t, i, j, l - 1);
    }
  }

  /** Trimming takes the white space off both ends and nothing else. */
  lemma TrimIff(s: string, t: string)
    ensures Trim(s) == t <==> Strips(s, t)
  {
    TrimStrips(s);
    if Strips(s, t) {
      var i: nat, j: nat :| Framed(s, t, i, j);
      var k: nat, l: nat :| Framed(s, Trim(s), k, l);
      FramedOnce(s, t, i, j, Trim(s), k, l);
    }
  }

  // --------------------------------------------------------------- headings

  /** The first character that is not white space is a hash. */
  ghost predicate HeadingLine(line: string) { exists i: nat :: i < |line| && line[i] == '#' && AllBlank(line[..i]) }

  lemma BlankBefore(s: string, k: nat, i: nat)
    requires k <= |s| && i < |s| && AllBlank(s[..k]) && !Blank(s[i])
    ensures k <= i
  {
    assert forall n | 0 <= n < k :: s[n] == s[..k][n];
  }

  lemma HeadingIff(line: string)
    ensures IsHeading(line) <==> HeadingLine(line)
  {
    TrimStrips(line);
    var i: nat, j: nat :| Framed(line, Trim(line), i, j);
    assert IsHeading(line) <==> i < j && line[i] == '#';
    if HeadingLine(line) {
      var k: nat :| k < |line| && line[k] == '#' && AllBlank(line[..k]);
      InFrame(line, Trim(line), i, j, k);
      BlankBefore(line, k, i);
    }
  }

  /** `never` in any mix of cases. */
  ghost predicate SaysNever(w: string)
  {
    && |w| == 5 && (w[0] == 'n' || w[0] == 'N') && (w[1] == 'e' || w[1] == 'E') && (w[2] == 'v' || w[2] == 'V')
    && (w[3] == 'e' || w[3] == 'E') && (w[4] == 'r' || w[4] == 'R')
  }

  /** Any number of hashes, white space, and that word. */
  ghost predicate NeverText(line: string, n: nat, t: string, w: string)
  {
    Strips(line, Hashes(n) + t) && (t == [] || t[0] != '#') && Strips(t, w) && SaysNever(w)
  }

  ghost predicate NeverLine(line: string) { exists n: nat, t: string, w: string :: NeverText(line, n, t, w) }

  lemma {:induction false} HashesDropped(n: nat, t: string)
    requires t == [] || t[0] != '#'
    ensures DropHashes(Hashes(n) + t) == t
  {
    var s := Hashes(n) + t;
    if n == 0 {
      assert s == t;
    } else {
      assert s[1..] == Hashes(n - 1) + t;
      HashesDropped(n - 1, t);
    }
  }

  lemma {:induction false} HashesCounted(s: string)
    ensures s == Hashes(HashCount(s)) + DropHashes(s)
    ensures DropHashes(s) == [] || DropHashes(s)[0] != '#'
  {
    if s != [] && s[0] == '#' {
      HashesCounted(s[1..]);
      assert s == ['#'] + s[1..];
    }
  }

  lemma LowerIs(c: char, small: char, large: char)
    requires 'A' <= large <= 'Z' && small as int == large as int + 32
    ensures Lower(c) == small <==> c == small || c == large
  {
  }

  lemma NeverWord(w: string)
    requires |w| == 5
    ensures SaysNever(w) <==>
            Lower(w[0]) == 'n' && Lower(w[1]) == 'e' && Lower(w[2]) == 'v' && Lower(w[3]) == 'e' && Lower(w[4]) == 'r'
  {
    LowerIs(w[0], 'n', 'N');
    LowerIs(w[1], 'e', 'E');
    LowerIs(w[2], 'v', 'V');
    LowerIs(w[3], 'e', 'E');
    LowerIs(w[4], 'r', 'R');
  }

  lemma NeverIff(line: string)
    ensures IsNever(line) <==> NeverLine(line)
  {
    var s := Trim(line);
    var h := Trim(DropHashes(s));
    if |h| == 5 {
      NeverWord(h);
    }
    if IsNever(line) {
      TrimStrips(line);
      HashesCounted(s);
      TrimStrips(DropHashes(s));
      assert NeverText(line, HashCount(s), DropHashes(s), h);
    }
    if NeverLine(line) {
      var n: nat, t: string, w: string :| NeverText(line, n, t, w);
      TrimIff(line, Hashes(n) + t);
      HashesDropped(n, t);
      TrimIff(t, w);
    }
  }

  // ------------------------------------------------------------------ rules

  /** The number modulo 2^64, between -2^63 and 2^63. */
  ghost predicate Fits(v: int, n: int)
  {
    -0x8000_0000_0000_0000 <= n < 0x8000_0000_0000_0000 && (v - n) % 0x1_0000_0000_0000_0000 == 0
  }

  /** Digits and then perhaps a unit. */
  ghost predicate Sizes(s: string, digits: string, unit: string, n: int)
  {
    && s == digits + unit && s != "" && (forall c | c in digits :: IsDigit(c)) && UnitOf(unit).Some?
    && Fits(Natural(digits) * UnitOf(unit).value, n)
  }

  lemma WrapFits(v: int, n: int)
    ensures Wrap(v) == n <==> Fits(v, n)
  {
    var k := WrapQuotient(v);
    if Fits(v, n) {
      var q := (v - n) / 0x1_0000_0000_0000_0000;
      WrapShift(n, q);
    }
  }

  lemma WrapTimes(v: int, k: int)
    ensures Wrap(Wrap(v) * k) == Wrap(v * k)
  {
    var q := WrapQuotient(v);
    assert Wrap(v) * k == v * k + (q * k) * 0x1_0000_0000_0000_0000;
    WrapShift(v * k, q * k);
  }

  lemma SizeIff(s: string, n: int)
    ensures SizeOf(s) == Some(n) <==> exists digits, unit :: Sizes(s, digits, unit, n)
  {
    if s != "" {
      var digits := SizeDigits(s);
      var unit := s[|digits|..];
      assert s == digits + unit && UnitOf(unit) == Some(Scale(s));
      if AllDigits(digits) {
        var v := Natural(digits);
        WrapTimes(v, Scale(s));
        WrapFits(v * Scale(s), n);
        assert SizeOf(s) == Some(n) ==> Sizes(s, digits, unit, n);
      }
      forall d, u | Sizes(s, d, u, n) ensures SizeOf(s) == Some(n) {
        SizeReads(d, u);
        WrapTimes(Natural(d), UnitOf(u).value);
        WrapFits(Natural(d) * UnitOf(u).value, n);
      }
    }
  }

  /** What a rule's name and selector say. */
  ghost predicate Rules(name: string, selector: string, p: Pred)
  {
    exists inner :: Selects(selector, inner) && SelectorSays(name, inner, p)
  }

  ghost predicate SelectorSays(name: string, inner: string, p: Pred)
  {
    if name == "modify_path" then p == Pred(name, "", inner, 0)
    else if name == "push_binary_over_size" then
      p == Pred(name, "", "", p.maxBytes) && exists digits, unit :: Sizes(inner, digits, unit, p.maxBytes)
    else p == Pred(name, inner, "", 0)
  }

  /** The item is cut at its first colon. */
  ghost predicate Cuts(item: string, before: string, after: string) { item == before + ([':'] + after) && ':' !in before }

  ghost predicate ItemSays(item: string, before: string, after: string, name: string, selector: string, p: Pred)
  {
    Cuts(item, before, after) && Strips(before, name) && Strips(after, selector) && name != "" && selector != "" && Rules(name, selector, p)
  }

  ghost predicate ItemLine(item: string, p: Pred)
  {
    exists before, after, name, selector :: ItemSays(item, before, after, name, selector, p)
  }

  lemma ColonNext(c: char, rest: string)
    ensures IndexOf([c] + rest, ':') ==
            if c == ':' then 0 else if IndexOf(rest, ':') < 0 then -1 else IndexOf(rest, ':') + 1
  {
    assert ([c] + rest)[1..] == rest;
  }

  lemma CutsNext(c: char, before: string, after: string)
    requires c != ':' && ':' !in before
    ensures Cuts([c] + (before + ([':'] + after)), [c] + before, after)
  {
  }

  lemma {:induction false} ColonCuts(item: string)
    ensures var k := IndexOf(item, ':'); if k < 0 then ':' !in item else Cuts(item, item[..k], item[k + 1..])
  {
    if item != [] {
      var c, rest := item[0], item[1..];
      assert item == [c] + rest;
      ColonNext(c, rest);
      if c != ':' {
        ColonCuts(rest);
        var k := IndexOf(rest, ':');
        if k >= 0 {
          CutsNext(c, rest[..k], rest[k + 1..]);
          assert item[..k + 1] == [c] + rest[..k] && item[k + 2..] == rest[k + 1..];
        }
      }
    }
  }

  lemma SelectsIff(s: string, selector: string, inner: string)
    requires Strips(s, selector) && selector != ""
    ensures Selects(selector, inner) <==> Unquote(selector) == inner
  {
    var i: nat, j: nat :| Framed(s, selector, i, j);
    SpaceIff(selector[0]);
    SpaceIff(selector[|selector| - 1]);
    if Selects(selector, inner) {
      SelectorReads(selector, inner);
    }
    if |selector| >= 2 {
      assert selector == [selector[0]] + selector[1..|selector| - 1] + [selector[|selector| - 1]];
    }
  }

  /** The predicate read off a trimmed name and selector. */
  function RuleOf(name: string, inner: string): Option<Pred>
  {
    if name == "modify_path" then Some(Pred(name, "", inner, 0))
    else if name == "push_binary_over_size" then
      var n := SizeOf(inner);
      if n.None? then None else Some(Pred(name, "", "", n.value))
    else Some(Pred(name, inner, "", 0))
  }

  lemma RuleOfIff(name: string, inner: string, p: Pred)
    ensures RuleOf(name, inner) == Some(p) <==> SelectorSays(name, inner, p)
  {
    SizeIff(inner, p.maxBytes);
  }

  lemma ItemParts(item: string, before: string, after: string, name: string, selector: string)
    requires Cuts(item, before, after) && Trim(before) == name && Trim(after) == selector
    ensures ItemOf(item) == if name == "" || selector == "" then None else RuleOf(name, Unquote(selector))
  {
    FirstColon(before, after);
    assert item[..|before|] == before && item[|before| + 1..] == after;
  }

  lemma SaysIsRead(item: string, before: string, after: string, name: string, selector: string, p: Pred)
    requires ItemSays(item, before, after, name, selector, p)
    ensures ItemOf(item) == Some(p)
  {
    TrimIff(before, name);
    TrimIff(after, selector);
    ItemParts(item, before, after, name, selector);
    var inner :| Selects(selector, inner) && SelectorSays(name, inner, p);
    SelectsIff(after, selector, inner);
    RuleOfIff(name, inner, p);
  }

  lemma PartsSay(item: string, before: string, after: string, name: string, selector: string, p: Pred)
    requires Cuts(item, before, after) && Strips(before, name) && Strips(after, selector) && name != "" && selector != ""
    requires RuleOf(name, Unquote(selector)) == Some(p)
    ensures ItemLine(item, p)
  {
    RuleOfIff(name, Unquote(selector), p);
    SelectsIff(after, selector, Unquote(selector));
    assert ItemSays(item, before, after, name, selector, p);
  }

  lemma ReadIsSaid(item: string, p: Pred)
    requires ItemOf(item) == Some(p)
    ensures ItemLine(item, p)
  {
    ColonCuts(item);
    var k := IndexOf(item, ':');
    var before, after := item[..k], item[k + 1..];
    TrimStrips(before);
    TrimStrips(after);
    ItemParts(item, before, after, Trim(before), Trim(after));
    PartsSay(item, before, after, Trim(before), Trim(after), p);
  }

  lemma ItemIff(item: string, p: Pred)
    ensures ItemOf(item) == Some(p) <==> ItemLine(item, p)
  {
    if ItemOf(item) == Some(p) {
      ReadIsSaid(item, p);
    } else if ItemLine(item, p) {
      var before, after, name, selector :| ItemSays(item, before, after, name, selector, p);
      SaysIsRead(item, before, after, name, selector, p);
    }
  }

  /** A dash, a space and an item with one of the five names. */
  ghost predicate DashText(line: string, t: string, item: string, p: Pred)
  {
    && Strips(line, ['-', ' '] + t) && Strips(t, item) && ItemLine(item, p)
    && (p.name == "delete_branch" || p.name == "push_to_branch" || p.name == "force_push_to_branch" || p.name == "modify_path"
        || p.name == "push_binary_over_size")
  }

  ghost predicate RuleLine(line: string, p: Pred) { exists t, item :: DashText(line, t, item, p) }

  lemma BulletParts(line: string, t: string)
    requires Strips(line, ['-', ' '] + t)
    ensures IsBullet(line) && ItemText(line) == Trim(t)
  {
    TrimIff(line, ['-', ' '] + t);
    assert Trim(line)[2..] == t;
  }

  lemma FiveNames(name: string)
    ensures name in KNOWN <==> name == "delete_branch" || name == "push_to_branch" || name == "force_push_to_branch"
                               || name == "modify_path" || name == "push_binary_over_size"
  {
  }

  lemma ReadIsText(line: string, p: Pred)
    requires IsBullet(line) && ItemLine(ItemText(line), p) && p.name in KNOWN
    ensures RuleLine(line, p)
  {
    var t := Trim(line)[2..];
    TrimStrips(line);
    assert Trim(line) == ['-', ' '] + t;
    TrimStrips(t);
    FiveNames(p.name);
    assert DashText(line, t, Trim(t), p);
  }

  lemma TextIsRead(line: string, t: string, item: string, p: Pred)
    requires DashText(line, t, item, p)
    ensures IsBullet(line) && ItemLine(ItemText(line), p) && p.name in KNOWN
  {
    BulletParts(line, t);
    TrimIff(t, item);
    FiveNames(p.name);
  }

  lemma RuleIff(line: string, p: Pred)
    ensures PredAt(line) == Some(p) <==> RuleLine(line, p)
  {
    if IsBullet(line) {
      ItemIff(ItemText(line), p);
    }
    if PredAt(line) == Some(p) {
      ReadIsText(line, p);
    } else if RuleLine(line, p) {
      var t, item :| DashText(line, t, item, p);
      TextIsRead(line, t, item, p);
    }
  }

  // -------------------------------------------------------------- documents

  /** Line `i` is a rule, line `h` the nearest heading above it, and that says Never. */
  ghost predicate Below(heading: string -> bool, never: string -> bool, rule: string -> bool, lines: seq<string>, h: nat, i: nat)
  {
    && h < i < |lines| && heading(lines[h]) && never(lines[h]) && (forall j | h < j <= i :: !heading(lines[j])) && rule(lines[i])
  }

  lemma BelowIff(r: Reader, heading: string -> bool, never: string -> bool, rule: string -> bool, lines: seq<string>, p: Pred)
    requires forall i | 0 <= i < |lines| :: r.heading(lines[i]) == heading(lines[i])
    requires forall i | 0 <= i < |lines| :: r.never(lines[i]) == never(lines[i])
    requires forall i | 0 <= i < |lines| :: (r.pred(lines[i]) == Some(p)) == rule(lines[i])
    ensures (exists i | 0 <= i < |lines| :: Declares(r, lines, i, p)) <==>
            exists h, i :: Below(heading, never, rule, lines, h, i)
  {
    if i :| 0 <= i < |lines| && Declares(r, lines, i, p) {
      var h :| 0 <= h < i && NeverAbove(r, lines, i, h);
      assert Below(heading, never, rule, lines, h, i);
    }
    forall h: nat, i: nat | Below(heading, never, rule, lines, h, i) ensures Declares(r, lines, i, p) {
      assert NeverAbove(r, lines, i, h);
    }
  }

  ghost predicate InForce(lines: seq<string>, p: Pred, h: nat, i: nat)
  {
    Below(l => HeadingLine(l), l => NeverLine(l), l => RuleLine(l, p), lines, h, i)
  }

  /** A document puts exactly the rules in force that stand below its Never headings. */
  lemma DeclaredIff(lines: seq<string>, p: Pred)
    ensures Declared(lines, p) <==> exists h, i :: InForce(lines, p, h, i)
  {
    forall i | 0 <= i < |lines|
      ensures IsHeading(lines[i]) == HeadingLine(lines[i]) && IsNever(lines[i]) == NeverLine(lines[i])
      ensures (PredAt(lines[i]) == Some(p)) == RuleLine(lines[i], p)
    {
      HeadingIff(lines[i]);
      NeverIff(lines[i]);
      RuleIff(lines[i], p);
    }
    BelowIff(READER, l => HeadingLine(l), l => NeverLine(l), l => RuleLine(l, p), lines, p);
    if Declared(lines, p) {
      var h: nat, i: nat :| Below(l => HeadingLine(l), l => NeverLine(l), l => RuleLine(l, p), lines, h, i);
      assert InForce(lines, p, h, i);
    }
    forall h: nat, i: nat | InForce(lines, p, h, i)
      ensures Below(l => HeadingLine(l), l => NeverLine(l), l => RuleLine(l, p), lines, h, i)
    {
    }
  }
}

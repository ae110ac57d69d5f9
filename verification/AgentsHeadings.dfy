/** How far a Never section reaches.  It is documented to end at the next heading of the same
    or a higher level, but the scan ends it at any heading: where the two differ. */
module AgentsHeadings {
  import opened Common
  import opened AgentsPolicy
  import opened AgentsParser

  /** The level of a heading: how many hashes open it. */
  function HashCount(s: string): nat { if s != [] && s[0] == '#' then 1 + HashCount(s[1..]) else 0 }

  function DepthOf(line: string): nat { HashCount(Trim(line)) }

  /** Headings between `h` and `i` are all of a lower level than `h`. */
  ghost predicate AllBelow(r: Reader, depth: string -> nat, lines: seq<string>, h: nat, i: nat)
    requires h < i <= |lines|
  {
    forall j | h < j < i :: r.heading(lines[j]) ==> depth(lines[j]) > depth(lines[h])
  }

  /** Line `h` is a Never heading and its section, as documented, reaches line `i`. */
  ghost predicate Covers(r: Reader, depth: string -> nat, lines: seq<string>, h: nat, i: nat)
    requires h < i <= |lines|
  {
    r.heading(lines[h]) && r.never(lines[h]) && AllBelow(r, depth, lines, h, i)
  }

  ghost predicate InSection(r: Reader, depth: string -> nat, lines: seq<string>, i: nat)
    requires i <= |lines|
  {
    exists h | 0 <= h < i :: Covers(r, depth, lines, h, i)
  }

  /** Line `j` is a heading inside a Never section that is not a Never heading itself. */
  ghost predicate Nested(r: Reader, depth: string -> nat, lines: seq<string>, j: nat)
    requires j < |lines|
  {
    r.heading(lines[j]) && !r.never(lines[j]) && InSection(r, depth, lines, j + 1)
  }

  /** Line `j` is such a heading and the nearest one above line `i`. */
  ghost predicate NestedAbove(r: Reader, depth: string -> nat, lines: seq<string>, i: nat, j: nat)
    requires j < i <= |lines|
  {
    Nested(r, depth, lines, j) && NearestAbove(r, lines, i, j)
  }

  ghost predicate NearestAbove(r: Reader, lines: seq<string>, i: nat, j: nat)
    requires j < i <= |lines|
  {
    r.heading(lines[j]) && forall k | j < k < i :: !r.heading(lines[k])
  }

  // ---------------------------------------------------------------- the proof

  /** The scan never reaches further than documented. */
  lemma ScannedIsCovered(r: Reader, depth: string -> nat, lines: seq<string>, i: nat)
    requires i <= |lines| && InNever(r, lines, i)
    ensures InSection(r, depth, lines, i)
  {
    var h :| 0 <= h < i && NeverAbove(r, lines, i, h);
    assert Covers(r, depth, lines, h, i);
  }

  lemma {:induction false} Nearest(r: Reader, lines: seq<string>, i: nat, h: nat) returns (j: nat)
    requires h < i <= |lines| && r.heading(lines[h])
    ensures h <= j < i && NearestAbove(r, lines, i, j)
    decreases i
  {
    if r.heading(lines[i - 1]) {
      j := i - 1;
    } else {
      j := Nearest(r, lines, i - 1, h);
    }
  }

  /** Past its nearest heading a section reaches as far as up to it. */
  lemma CoversMoves(r: Reader, depth: string -> nat, lines: seq<string>, h: nat, i: nat, j: nat)
    requires h < j < i <= |lines| && NearestAbove(r, lines, i, j)
    ensures Covers(r, depth, lines, h, i) <==> Covers(r, depth, lines, h, j + 1)
  {
    var n := j + 1;
    assert forall k | h < k < i :: r.heading(lines[k]) ==> k < n;
  }

  lemma NestedCovers(r: Reader, depth: string -> nat, lines: seq<string>, i: nat, j: nat)
    requires j < i <= |lines| && NestedAbove(r, depth, lines, i, j)
    ensures InSection(r, depth, lines, i) && !InNever(r, lines, i)
  {
    var n := j + 1;
    var h :| 0 <= h < n && Covers(r, depth, lines, h, n);
    assert h != j;
    CoversMoves(r, depth, lines, h, i, j);
    forall k | 0 <= k < i
      ensures !NeverAbove(r, lines, i, k)
    {
    }
  }

  lemma LostIsNested(r: Reader, depth: string -> nat, lines: seq<string>, i: nat) returns (j: nat)
    requires i <= |lines| && InSection(r, depth, lines, i) && !InNever(r, lines, i)
    ensures j < i && NestedAbove(r, depth, lines, i, j)
  {
    var h :| 0 <= h < i && Covers(r, depth, lines, h, i);
    j := Nearest(r, lines, i, h);
    assert r.never(lines[j]) ==> NeverAbove(r, lines, i, j);
    assert h != j;
    CoversMoves(r, depth, lines, h, i, j);
  }

  // --------------------------------------------------------------- the results

  /** A line documented to be in a Never section is passed over exactly when the nearest
      heading above it is a subheading of that section. */
  lemma LostIff(r: Reader, depth: string -> nat, lines: seq<string>, i: nat)
    requires i <= |lines|
    ensures InSection(r, depth, lines, i) && !InNever(r, lines, i) <==>
            exists j | 0 <= j < i :: NestedAbove(r, depth, lines, i, j)
  {
    if InSection(r, depth, lines, i) && !InNever(r, lines, i) {
      var j := LostIsNested(r, depth, lines, i);
    }
    if j :| 0 <= j < i && NestedAbove(r, depth, lines, i, j) {
      NestedCovers(r, depth, lines, i, j);
    }
  }

  /** The scan reads a text as documented exactly when no Never section has subheadings. */
  lemma AsDocumentedIff(r: Reader, depth: string -> nat, lines: seq<string>)
    ensures (forall i | 0 <= i <= |lines| :: InSection(r, depth, lines, i) <==> InNever(r, lines, i)) <==>
            forall j | 0 <= j < |lines| :: !Nested(r, depth, lines, j)
  {
    forall i | 0 <= i <= |lines|
      ensures InNever(r, lines, i) ==> InSection(r, depth, lines, i)
      ensures InSection(r, depth, lines, i) && !InNever(r, lines, i) ==> exists j | 0 <= j < i :: NestedAbove(r, depth, lines, i, j)
    {
      if InNever(r, lines, i) {
        ScannedIsCovered(r, depth, lines, i);
      }
      LostIff(r, depth, lines, i);
    }
    if j :| 0 <= j < |lines| && Nested(r, depth, lines, j) {
      var n := j + 1;
      assert NestedAbove(r, depth, lines, n, j);
      LostIff(r, depth, lines, n);
    }
  }

  // ------------------------------------------------------------------ a text

  predicate Unspaced(s: string) { s != [] && !IsSpace(s[0]) && !IsSpace(s[|s| - 1]) }

  lemma TrimsToItself(s: string)
    requires Unspaced(s)
    ensures Trim(s) == s
  {
  }

  lemma TrimsSpace(s: string)
    requires Unspaced(s)
    ensures Trim([' '] + s) == s
  {
    assert ([' '] + s)[1..] == s;
    TrimsToItself(s);
  }

  lemma {:induction false} FirstColon(name: string, x: string)
    requires ':' !in name
    ensures IndexOf(name + ([':'] + x), ':') == |name|
  {
    var s := name + ([':'] + x);
    if name == [] {
      assert s[0] == ':';
    } else {
      assert name[0] in name;
      assert s[1..] == name[1..] + ([':'] + x);
      FirstColon(name[1..], x);
    }
  }

  /** A bullet with a predicate about branches. */
  function BranchBullet(name: string, glob: string): string { ['-', ' '] + (name + ([':'] + ([' '] + glob))) }

  lemma BranchItem(name: string, glob: string)
    requires name in BRANCH_NAMES && Unspaced(name) && ':' !in name && Unspaced(glob) && Unquote(glob) == glob
    ensures ItemOf(name + ([':'] + ([' '] + glob))) == Some(Pred(name, glob, "", 0))
  {
    var item := name + ([':'] + ([' '] + glob));
    FirstColon(name, [' '] + glob);
    assert item[..|name|] == name && item[|name| + 1..] == [' '] + glob;
    TrimsToItself(name);
    TrimsSpace(glob);
  }

  lemma BulletItem(item: string)
    requires Unspaced(item)
    ensures var line := ['-', ' '] + item; !IsHeading(line) && IsBullet(line) && ItemText(line) == item
  {
    var line := ['-', ' '] + item;
    TrimsToItself(line);
    assert line[2..] == item;
    TrimsToItself(item);
  }

  lemma BulletReads(name: string, glob: string)
    requires name in BRANCH_NAMES && Unspaced(name) && ':' !in name && Unspaced(glob) && Unquote(glob) == glob
    ensures var line := BranchBullet(name, glob); !IsHeading(line) && PredAt(line) == Some(Pred(name, glob, "", 0))
  {
    BranchItem(name, glob);
    BulletItem(name + ([':'] + ([' '] + glob)));
  }

  function Hashes(n: nat): string { if n == 0 then "" else ['#'] + Hashes(n - 1) }

  function Heading(n: nat, title: string): string { Hashes(n) + ([' '] + title) }

  lemma {:induction false} HashesRead(n: nat, title: string)
    ensures HashCount(Heading(n, title)) == n && DropHashes(Heading(n, title)) == [' '] + title
  {
    var s := Heading(n, title);
    if n == 0 {
      assert s == [' '] + title;
    } else {
      assert s[1..] == Heading(n - 1, title);
      HashesRead(n - 1, title);
    }
  }

  lemma HeadingReads(n: nat, title: string)
    requires n > 0 && Unspaced(title)
    ensures var line := Heading(n, title); IsHeading(line) && DepthOf(line) == n && Trim(DropHashes(Trim(line))) == title
  {
    TrimsToItself(Heading(n, title));
    HashesRead(n, title);
    TrimsSpace(title);
  }

  lemma NeverReads(n: nat)
    requires n > 0
    ensures IsNever(Heading(n, "Never"))
  {
    HeadingReads(n, "Never");
  }

  lemma OtherReads(n: nat, title: string)
    requires n > 0 && Unspaced(title) && |title| != 5
    ensures !IsNever(Heading(n, title))
  {
    HeadingReads(n, title);
  }

  /** Under a subheading of any name but Never a rule is documented to be enforced and is
      not even read: `## Never`, `### x`, `- delete_branch: main`. */
  lemma SubheadingHidesRule(lines: seq<string>, n: nat, m: nat, title: string, name: string, glob: string)
    requires lines == [Heading(n, "Never"), Heading(m, title), BranchBullet(name, glob)]
    requires 0 < n < m && Unspaced(title) && |title| != 5
    requires name in BRANCH_NAMES && Unspaced(name) && ':' !in name && Unspaced(glob) && Unquote(glob) == glob
    ensures InSection(READER, DepthOf, lines, 2) && PredAt(lines[2]) == Some(Pred(name, glob, "", 0))
    ensures Scan(READER, lines, false) == []
  {
    HeadingReads(n, "Never");
    NeverReads(n);
    HeadingReads(m, title);
    OtherReads(m, title);
    BulletReads(name, glob);
    assert Covers(READER, DepthOf, lines, 0, 2);
    HeadingsOnly(READER, lines);
  }

  lemma HeadingsOnly(r: Reader, lines: seq<string>)
    requires |lines| == 3 && r.heading(lines[0]) && r.heading(lines[1]) && !r.never(lines[1]) && !r.heading(lines[2])
    ensures Scan(r, lines, false) == []
  {
    var rest := lines[1..];
    assert rest[0] == lines[1] && rest[1..] == [lines[2]];
    assert Scan(r, [lines[2]], false) == Scan(r, [], false);
    assert Scan(r, rest, r.never(lines[0])) == Scan(r, [lines[2]], false);
  }
}

/** What a rule written down in a document does: from its text to the violation. */
module AgentsRules {
  import opened Common
  import opened AgentsPolicy
  import opened AgentsParser
  import opened AgentsHeadings
  import opened AgentsEvaluate

  /** `- name: selector`. */
  function RuleText(name: string, selector: string): string { ['-', ' '] + (name + ([':'] + ([' '] + selector))) }

  /** A selector may stand in either kind of quotes. */
  ghost predicate Selects(selector: string, inner: string)
  {
    || (selector == inner && Unspaced(inner) && (|inner| < 2 || inner[0] != inner[|inner| - 1] || (inner[0] != '"' && inner[0] != '\'')))
    || selector == ['"'] + inner + ['"']
    || selector == ['\''] + inner + ['\'']
  }

  lemma SelectorReads(selector: string, inner: string)
    requires Selects(selector, inner)
    ensures Unspaced(selector) && Unquote(selector) == inner
  {
    if selector != inner {
      assert |selector| == |inner| + 2 && selector[1..|selector| - 1] == inner;
    }
  }

  /** The item of any rule is split at its first colon. */
  lemma ItemSplits(name: string, selector: string, inner: string)
    requires Unspaced(name) && ':' !in name && Selects(selector, inner)
    ensures var item := name + ([':'] + ([' '] + selector));
            && IndexOf(item, ':') == |name| && Trim(item[..|name|]) == name && Trim(item[|name| + 1..]) == selector
            && Unspaced(item) && Unquote(selector) == inner && name != "" && selector != ""
  {
    var item := name + ([':'] + ([' '] + selector));
    SelectorReads(selector, inner);
    FirstColon(name, [' '] + selector);
    assert item[..|name|] == name && item[|name| + 1..] == [' '] + selector;
    TrimsToItself(name);
    TrimsSpace(selector);
  }

  /** What the three branch rules say. */
  lemma BranchRuleReads(name: string, selector: string, glob: string)
    requires name == "delete_branch" || name == "push_to_branch" || name == "force_push_to_branch"
    requires Unspaced(name) && ':' !in name && Selects(selector, glob)
    ensures !IsHeading(RuleText(name, selector)) && PredAt(RuleText(name, selector)) == Some(Pred(name, glob, "", 0))
  {
    ItemSplits(name, selector, glob);
    BulletItem(name + ([':'] + ([' '] + selector)));
  }

  /** What the path rule says. */
  lemma PathRuleReads(name: string, selector: string, glob: string)
    requires name == "modify_path" && Unspaced(name) && ':' !in name && Selects(selector, glob)
    ensures !IsHeading(RuleText(name, selector)) && PredAt(RuleText(name, selector)) == Some(Pred(name, "", glob, 0))
  {
    ItemSplits(name, selector, glob);
    BulletItem(name + ([':'] + ([' '] + selector)));
  }

  /** What the size rule says: digits, then perhaps a unit. */
  lemma SizeRuleReads(name: string, selector: string, digits: string, unit: string, n: int)
    requires name == "push_binary_over_size" && Unspaced(name) && ':' !in name && Selects(selector, digits + unit)
    requires digits != "" && (forall c | c in digits :: IsDigit(c)) && UnitOf(unit).Some?
    requires n == Natural(digits) * UnitOf(unit).value && n < 0x8000_0000_0000_0000
    ensures !IsHeading(RuleText(name, selector)) && PredAt(RuleText(name, selector)) == Some(Pred(name, "", "", n))
  {
    ItemSplits(name, selector, digits + unit);
    SizeReads(digits, unit);
    SizeIsExact(digits + unit);
    BulletItem(name + ([':'] + ([' '] + selector)));
  }

  /** Bytes, or thousands of them by powers of 1024. */
  function UnitOf(unit: string): Option<int>
  {
    if unit == "" then Some(1)
    else if unit == "k" || unit == "K" then Some(1_024)
    else if unit == "m" || unit == "M" then Some(1_048_576)
    else if unit == "g" || unit == "G" then Some(1_073_741_824)
    else None
  }

  lemma SizeReads(digits: string, unit: string)
    requires digits + unit != "" && (forall c | c in digits :: IsDigit(c)) && UnitOf(unit).Some?
    ensures var s := digits + unit; Scale(s) == UnitOf(unit).value && SizeDigits(s) == digits
  {
    var s := digits + unit;
    if unit == "" {
      assert s == digits && digits[|digits| - 1] in digits;
    } else {
      assert s[|s| - 1] == unit[0] && s[..|s| - 1] == digits;
    }
  }

  // --------------------------------------------------------------- a section

  lemma RuleDeclares(r: Reader, head: string, rules: seq<string>, i: nat, p: Pred)
    requires i < |rules| && r.heading(head) && r.never(head) && r.pred(rules[i]) == Some(p)
    requires forall j | 0 <= j < |rules| :: !r.heading(rules[j])
    ensures Declares(r, [head] + rules, i + 1, p)
  {
    var lines, k := [head] + rules, i + 1;
    assert forall j | 0 < j <= k :: lines[j] == rules[j - 1];
    assert NeverAbove(r, lines, k, 0);
  }

  lemma NeverHeads(n: nat)
    requires n > 0
    ensures var head := Heading(n, "Never"); READER.heading(head) && READER.never(head)
  {
    HeadingReads(n, "Never");
    NeverReads(n);
  }

  /** Below a Never heading of any level every rule is in force. */
  lemma SectionDeclares(n: nat, rules: seq<string>, i: nat, p: Pred)
    requires n > 0 && i < |rules| && PredAt(rules[i]) == Some(p)
    requires forall j | 0 <= j < |rules| :: !IsHeading(rules[j])
    ensures Declared([Heading(n, "Never")] + rules, p)
  {
    var head := Heading(n, "Never");
    NeverHeads(n);
    RuleDeclares(READER, head, rules, i, p);
    DeclaredAt([head] + rules, i + 1, p);
  }

  lemma DeclaredAt(lines: seq<string>, k: nat, p: Pred)
    requires k < |lines| && Declares(READER, lines, k, p)
    ensures Declared(lines, p)
  {
  }

  /** `## Never`, `- force_push_to_branch: main`: a push to main that is not a fast-forward
      is reported, and likewise for any other branch. */
  lemma ForcePushIsReported(glob: Glob, files: Files, name: string, branch: string, u: Update)
    requires name == "force_push_to_branch" && Selects(branch, branch) && glob(branch, branch)
    requires u.refName == "refs/heads/" + branch && !NoCommit(u.oldOid) && !NoCommit(u.newOid)
    requires files.fastForward(u.oldOid, u.newOid) == Yes(false)
    ensures var rule := Pred(name, branch, "", 0);
            && Declared([Heading(2, "Never"), RuleText(name, branch)], rule)
            && Breaks(glob, Some(files), rule, u, Forces(branch, branch))
  {
    RuleIsDeclared(name, branch);
    SelectorReads(branch, branch);
  }

  lemma RuleIsDeclared(name: string, branch: string)
    requires name == "force_push_to_branch" && Selects(branch, branch)
    ensures Declared([Heading(2, "Never"), RuleText(name, branch)], Pred(name, branch, "", 0))
  {
    NameIsPlain(name);
    BranchRuleReads(name, branch, branch);
    OneRuleDeclares(2, RuleText(name, branch), Pred(name, branch, "", 0));
  }

  lemma OneRuleDeclares(n: nat, rule: string, p: Pred)
    requires n > 0 && !IsHeading(rule) && PredAt(rule) == Some(p)
    ensures Declared([Heading(n, "Never"), rule], p)
  {
    SectionDeclares(n, [rule], 0, p);
    assert [Heading(n, "Never")] + [rule] == [Heading(n, "Never"), rule];
  }

  lemma NameIsPlain(name: string)
    requires name == "force_push_to_branch"
    ensures Unspaced(name) && ':' !in name
  {
  }
}

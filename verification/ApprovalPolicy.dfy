/** Approval policies: the structural validation every registered policy has passed,
    and the first-match-wins choice of the rule that gates a plan. */
module ApprovalPolicy {
  import opened Common
  import opened AuditChain

  datatype OnTimeout = NotifyNext | AutoDeny | FallBack | OtherTimeout(text: string)

  datatype PredicateKind =
    | PrMerge | ForcePush | ProductionDeploy | BulkAction | AgentDefault | OtherPredicate(text: string)

  datatype ProposerKind = Agent | Service | OtherProposer(text: string)

  datatype Rung = Rung(group: string, slaSeconds: int, onTimeout: OnTimeout)

  datatype Group = Group(name: string, humans: seq<Uuid>, required: int)

  datatype Rule = Rule(
    kind: PredicateKind,
    filter: map<string, string>,
    threshold: Option<int>,
    ladder: seq<Rung>,
    expirySeconds: int)

  datatype Policy = Policy(id: Uuid, orgId: Uuid, name: string, rules: seq<Rule>, groups: map<string, Group>)

  // ------------------------------------------------------------ validation

  datatype Code =
    | EmptyName | NoRules | ZeroRequiredCount | RequiredCountTooLarge | NonHumanApprover
    | InvalidPredicateKind | NonPositiveExpiry | BulkThresholdMissing | EmptyLadder
    | UnknownApproverGroup | NonPositiveSla | InvalidOnTimeout | FallBackOnFirstRung

  function GroupError(name: string, g: Group): Option<Code>
  {
    if name != g.name then Some(EmptyName)
    else if g.required <= 0 then Some(ZeroRequiredCount)
    else if g.required > |g.humans| then Some(RequiredCountTooLarge)
    else if ZERO_ID in g.humans then Some(NonHumanApprover)
    else None
  }

  /** The groups are visited in whatever order the map hands them out. */
  function GroupsError(groups: map<string, Group>, order: seq<string>): Option<Code>
    requires forall n | n in order :: n in groups
  {
    if order == [] then None
    else
      var e := GroupError(order[0], groups[order[0]]);
      if e.Some? then e else GroupsError(groups, order[1..])
  }

  function RungError(groups: map<string, Group>, first: bool, r: Rung): Option<Code>
  {
    if r.group !in groups then Some(UnknownApproverGroup)
    else if r.slaSeconds <= 0 then Some(NonPositiveSla)
    else if r.onTimeout.OtherTimeout? then Some(InvalidOnTimeout)
    else if first && r.onTimeout.FallBack? then Some(FallBackOnFirstRung)
    else None
  }

  function LadderError(groups: map<string, Group>, first: bool, ladder: seq<Rung>): Option<Code>
  {
    if ladder == [] then None
    else
      var e := RungError(groups, first, ladder[0]);
      if e.Some? then e else LadderError(groups, false, ladder[1..])
  }

  function RuleError(groups: map<string, Group>, r: Rule): Option<Code>
  {
    if r.kind.OtherPredicate? then Some(InvalidPredicateKind)
    else if r.expirySeconds <= 0 then Some(NonPositiveExpiry)
    else if r.kind.BulkAction? && (r.threshold.None? || r.threshold.value <= 0) then Some(BulkThresholdMissing)
    else if r.ladder == [] then Some(EmptyLadder)
    else LadderError(groups, true, r.ladder)
  }

  function RulesError(groups: map<string, Group>, rules: seq<Rule>): Option<Code>
  {
    if rules == [] then None
    else
      var e := RuleError(groups, rules[0]);
      if e.Some? then e else RulesError(groups, rules[1..])
  }

  ghost predicate Lists(order: seq<string>, groups: map<string, Group>) { forall n :: n in order <==> n in groups }

  function Validate(p: Policy, order: seq<string>): Option<Code>
    requires forall n | n in order :: n in p.groups
  {
    if p.name == "" then Some(EmptyName)
    else if p.rules == [] then Some(NoRules)
    else
      var e := GroupsError(p.groups, order);
      if e.Some? then e else RulesError(p.groups, p.rules)
  }

  // -- what a clean validation means

  ghost predicate GroupOk(name: string, g: Group)
  {
    g.name == name && 0 < g.required <= |g.humans| && ZERO_ID !in g.humans
  }

  ghost predicate LadderOk(groups: map<string, Group>, ladder: seq<Rung>)
  {
    forall j | 0 <= j < |ladder| ::
      && ladder[j].group in groups && ladder[j].slaSeconds > 0 && !ladder[j].onTimeout.OtherTimeout?
      && (j == 0 ==> !ladder[j].onTimeout.FallBack?)
  }

  ghost predicate RuleOk(groups: map<string, Group>, r: Rule)
  {
    && !r.kind.OtherPredicate? && r.expirySeconds > 0
    && (r.kind.BulkAction? ==> r.threshold.Some? && r.threshold.value > 0)
    && r.ladder != [] && LadderOk(groups, r.ladder)
  }

  ghost predicate GroupsOk(groups: map<string, Group>) { forall n | n in groups :: GroupOk(n, groups[n]) }

  ghost predicate WellFormed(p: Policy)
  {
    && p.name != "" && p.rules != [] && GroupsOk(p.groups)
    && forall i | 0 <= i < |p.rules| :: RuleOk(p.groups, p.rules[i])
  }

  lemma {:induction false} GroupsErrorIff(groups: map<string, Group>, order: seq<string>)
    requires forall n | n in order :: n in groups
    ensures GroupsError(groups, order).None? <==> forall n | n in order :: GroupOk(n, groups[n])
  {
    if order != [] {
      GroupsErrorIff(groups, order[1..]);
      assert order == [order[0]] + order[1..];
    }
  }

  lemma {:induction false} LadderErrorIff(groups: map<string, Group>, ladder: seq<Rung>)
    ensures LadderError(groups, false, ladder).None? <==>
            forall j | 0 <= j < |ladder| :: RungError(groups, false, ladder[j]).None?
  {
    if ladder != [] {
      LadderErrorIff(groups, ladder[1..]);
      assert forall j | 0 < j < |ladder| :: ladder[j] == ladder[1..][j - 1];
    }
  }

  lemma LadderCleanIff(groups: map<string, Group>, ladder: seq<Rung>)
    ensures LadderError(groups, true, ladder).None? <==> LadderOk(groups, ladder)
  {
    if ladder != [] {
      LadderErrorIff(groups, ladder[1..]);
      assert forall j | 0 < j < |ladder| :: ladder[j] == ladder[1..][j - 1];
      assert forall j | 0 <= j < |ladder[1..]| :: ladder[1..][j] == ladder[j + 1];
    }
  }

  lemma {:induction false} RulesErrorIff(groups: map<string, Group>, rules: seq<Rule>)
    ensures RulesError(groups, rules).None? <==> forall i | 0 <= i < |rules| :: RuleOk(groups, rules[i])
  {
    if rules != [] {
      LadderCleanIff(groups, rules[0].ladder);
      RulesErrorIff(groups, rules[1..]);
      assert forall i | 0 < i < |rules| :: rules[i] == rules[1..][i - 1];
    }
  }

  /** Validation accepts exactly the well-formed policies, whatever the map order. */
  lemma ValidateIff(p: Policy, order: seq<string>)
    requires Lists(order, p.groups)
    ensures Validate(p, order).None? <==> WellFormed(p)
  {
    GroupsErrorIff(p.groups, order);
    RulesErrorIff(p.groups, p.rules);
  }

  /** What each code accuses a policy of. */
  ghost predicate Guilty(p: Policy, code: Code)
  {
    match code
    case EmptyName => p.name == "" || exists n | n in p.groups :: p.groups[n].name != n
    case NoRules => p.rules == []
    case ZeroRequiredCount => exists n | n in p.groups :: p.groups[n].required <= 0
    case RequiredCountTooLarge => exists n | n in p.groups :: p.groups[n].required > |p.groups[n].humans|
    case NonHumanApprover => exists n | n in p.groups :: ZERO_ID in p.groups[n].humans
    case InvalidPredicateKind => exists r | r in p.rules :: r.kind.OtherPredicate?
    case NonPositiveExpiry => exists r | r in p.rules :: r.expirySeconds <= 0
    case BulkThresholdMissing =>
      exists r | r in p.rules :: r.kind.BulkAction? && (r.threshold.None? || r.threshold.value <= 0)
    case EmptyLadder => exists r | r in p.rules :: r.ladder == []
    case UnknownApproverGroup => exists r, g | r in p.rules && g in r.ladder :: g.group !in p.groups
    case NonPositiveSla => exists r, g | r in p.rules && g in r.ladder :: g.slaSeconds <= 0
    case InvalidOnTimeout => exists r, g | r in p.rules && g in r.ladder :: g.onTimeout.OtherTimeout?
    case FallBackOnFirstRung => exists r | r in p.rules :: r.ladder != [] && r.ladder[0].onTimeout.FallBack?
  }

  lemma {:induction false} GroupsBlame(groups: map<string, Group>, order: seq<string>) returns (n: string)
    requires forall m | m in order :: m in groups
    requires GroupsError(groups, order).Some?
    ensures n in groups && GroupsError(groups, order) == GroupError(n, groups[n])
  {
    n := order[0];
    if GroupError(n, groups[n]).None? {
      n := GroupsBlame(groups, order[1..]);
    }
  }

  lemma {:induction false} LadderBlames(groups: map<string, Group>, first: bool, ladder: seq<Rung>) returns (j: nat)
    requires LadderError(groups, first, ladder).Some?
    ensures j < |ladder| && LadderError(groups, first, ladder) == RungError(groups, first && j == 0, ladder[j])
  {
    j := 0;
    if RungError(groups, first, ladder[0]).None? {
      j := LadderBlames(groups, false, ladder[1..]);
      j := j + 1;
    }
  }

  lemma {:induction false} RulesBlame(groups: map<string, Group>, rules: seq<Rule>) returns (r: Rule)
    requires RulesError(groups, rules).Some?
    ensures r in rules && RulesError(groups, rules) == RuleError(groups, r)
  {
    r := rules[0];
    if RuleError(groups, r).None? {
      r := RulesBlame(groups, rules[1..]);
    }
  }

  /** The reported code is true of the policy. */
  lemma ValidateBlames(p: Policy, order: seq<string>)
    requires Lists(order, p.groups) && Validate(p, order).Some?
    ensures Guilty(p, Validate(p, order).value)
  {
    if p.name != "" && p.rules != [] {
      if GroupsError(p.groups, order).Some? {
        var n := GroupsBlame(p.groups, order);
      } else {
        var r := RulesBlame(p.groups, p.rules);
        if LadderError(p.groups, true, r.ladder).Some? {
          var j := LadderBlames(p.groups, true, r.ladder);
          assert r.ladder[j] in r.ladder;
        }
      }
    }
  }

  // -------------------------------------------------------------- matching

  datatype Action = Action(kind: string, fields: map<string, string>)

  function Field(fields: map<string, string>, key: string): string { if key in fields then fields[key] else "" }

  /** `path.Match` with a malformed pattern read as no match. */
  type Glob = (string, string) -> bool

  predicate HasSuffix(s: string, t: string) { |t| <= |s| && s[|s| - |t|..] == t }

  predicate RefMatches(glob: Glob, pattern: string, v: string)
  {
    pattern == "" || glob(pattern, v) || (HasSuffix(pattern, "/*") && pattern[..|pattern| - 1] <= v)
  }

  predicate Fires(glob: Glob, r: Rule, actions: seq<Action>, proposer: ProposerKind)
  {
    match r.kind
    case PrMerge => FieldFires(actions, "pr_merge", "branch", Field(r.filter, "branch"))
    case ForcePush => PatternFires(glob, actions, Field(r.filter, "ref_pattern"))
    case ProductionDeploy => FieldFires(actions, "production_deploy", "environment", Field(r.filter, "environment"))
    case BulkAction => r.threshold.Some? && |actions| >= r.threshold.value
    case AgentDefault => proposer.Agent?
    case OtherPredicate(_) => false
  }

  predicate FieldFires(actions: seq<Action>, kind: string, key: string, want: string)
  {
    exists a | a in actions :: a.kind == kind && (want == "" || Field(a.fields, key) == want)
  }

  predicate PatternFires(glob: Glob, actions: seq<Action>, pattern: string)
  {
    exists a | a in actions :: a.kind == "force_push" && RefMatches(glob, pattern, Field(a.fields, "ref"))
  }

  /** Index of the first rule that fires, or -1. */
  function FirstMatch(glob: Glob, rules: seq<Rule>, actions: seq<Action>, proposer: ProposerKind): (k: int)
    ensures -1 <= k < |rules|
  {
    if rules == [] then -1
    else if Fires(glob, rules[0], actions, proposer) then 0
    else
      var k := FirstMatch(glob, rules[1..], actions, proposer);
      if k == -1 then -1 else k + 1
  }

  lemma {:induction false} FirstMatchIsFirst(glob: Glob, rules: seq<Rule>, actions: seq<Action>, proposer: ProposerKind)
    ensures var k := FirstMatch(glob, rules, actions, proposer);
            && (k >= 0 ==> Fires(glob, rules[k], actions, proposer))
            && forall i | 0 <= i < (if k == -1 then |rules| else k) :: !Fires(glob, rules[i], actions, proposer)
  {
    if rules != [] && !Fires(glob, rules[0], actions, proposer) {
      FirstMatchIsFirst(glob, rules[1..], actions, proposer);
      assert forall i | 0 < i < |rules| :: rules[i] == rules[1..][i - 1];
    }
  }

  /** A catch-all placed early pre-empts every later rule for agents. */
  lemma CatchAllPreempts(glob: Glob, rules: seq<Rule>, actions: seq<Action>, i: nat)
    requires i < |rules| && rules[i].kind.AgentDefault?
    ensures 0 <= FirstMatch(glob, rules, actions, Agent) <= i
  {
    FirstMatchIsFirst(glob, rules, actions, Agent);
    assert Fires(glob, rules[i], actions, Agent);
  }

  // ------------------------------------------------ what the five rules mean

  /** The rule does not ask for a particular value of this field, or the action has it. */
  predicate Wanted(r: Rule, key: string, a: Action, field: string)
  {
    key !in r.filter || r.filter[key] == "" || (field in a.fields && a.fields[field] == r.filter[key])
  }

  /** The ref is matched by the glob, or lies under the directory a pattern ending in a
      slash and a star names. */
  ghost predicate RefCovered(glob: Glob, pattern: string, ref: string)
  {
    glob(pattern, ref) || exists dir :: pattern == dir + "/*" && dir + "/" <= ref
  }

  /** The rule is about this plan. */
  ghost predicate Applies(glob: Glob, r: Rule, actions: seq<Action>, proposer: ProposerKind)
  {
    match r.kind
    case PrMerge => exists a | a in actions :: a.kind == "pr_merge" && Wanted(r, "branch", a, "branch")
    case ForcePush =>
      exists a | a in actions ::
        && a.kind == "force_push"
        && ("ref_pattern" !in r.filter || r.filter["ref_pattern"] == "" ||
            RefCovered(glob, r.filter["ref_pattern"], if "ref" in a.fields then a.fields["ref"] else ""))
    case ProductionDeploy =>
      exists a | a in actions :: a.kind == "production_deploy" && Wanted(r, "environment", a, "environment")
    case BulkAction => r.threshold.Some? && |actions| >= r.threshold.value
    case AgentDefault => proposer == Agent
    case OtherPredicate(_) => false
  }

  lemma RefMatchesIff(glob: Glob, pattern: string, v: string)
    requires pattern != ""
    ensures RefMatches(glob, pattern, v) <==> RefCovered(glob, pattern, v)
  {
    if HasSuffix(pattern, "/*") {
      var dir := pattern[..|pattern| - 2];
      assert pattern == dir + "/*" && dir + "/" == pattern[..|pattern| - 1];
    }
    forall dir | pattern == dir + "/*"
      ensures HasSuffix(pattern, "/*") && pattern[..|pattern| - 1] == dir + "/"
    {
    }
  }

  lemma PatternFiresIff(glob: Glob, r: Rule, actions: seq<Action>)
    requires r.kind.ForcePush?
    ensures PatternFires(glob, actions, Field(r.filter, "ref_pattern")) <==> Applies(glob, r, actions, Agent)
  {
    var pattern := Field(r.filter, "ref_pattern");
    forall a | a in actions && pattern != ""
      ensures RefMatches(glob, pattern, Field(a.fields, "ref")) <==> RefCovered(glob, pattern, Field(a.fields, "ref"))
    {
      RefMatchesIff(glob, pattern, Field(a.fields, "ref"));
    }
  }

  lemma FiresIff(glob: Glob, r: Rule, actions: seq<Action>, proposer: ProposerKind)
    ensures Fires(glob, r, actions, proposer) <==> Applies(glob, r, actions, proposer)
  {
    if r.kind.ForcePush? {
      PatternFiresIff(glob, r, actions);
    }
  }

  /** Rule `k` gates the plan: it is the first that is about it. */
  ghost predicate Gates(glob: Glob, rules: seq<Rule>, actions: seq<Action>, proposer: ProposerKind, k: int)
  {
    && 0 <= k < |rules| && Applies(glob, rules[k], actions, proposer)
    && forall i | 0 <= i < k :: !Applies(glob, rules[i], actions, proposer)
  }

  ghost predicate Ungated(glob: Glob, rules: seq<Rule>, actions: seq<Action>, proposer: ProposerKind)
  {
    forall i | 0 <= i < |rules| :: !Applies(glob, rules[i], actions, proposer)
  }

  /** The choice of the rule, on the actions and the filters themselves. */
  lemma FirstMatchGates(glob: Glob, rules: seq<Rule>, actions: seq<Action>, proposer: ProposerKind)
    ensures var k := FirstMatch(glob, rules, actions, proposer);
            && (k == -1 <==> Ungated(glob, rules, actions, proposer))
            && forall i :: Gates(glob, rules, actions, proposer, i) <==> i == k && k >= 0
  {
    FirstMatchIsFirst(glob, rules, actions, proposer);
    forall i | 0 <= i < |rules|
      ensures Fires(glob, rules[i], actions, proposer) <==> Applies(glob, rules[i], actions, proposer)
    {
      FiresIff(glob, rules[i], actions, proposer);
    }
  }

  /** A merge rule for one branch gates exactly the plans that merge into it. */
  lemma MergeRuleGates(glob: Glob, r: Rule, branch: string, a: Action, proposer: ProposerKind)
    requires r.kind.PrMerge? && r.filter == map["branch" := branch] && branch != "" && a.kind == "pr_merge"
    ensures FirstMatch(glob, [r], [a], proposer) == if "branch" in a.fields && a.fields["branch"] == branch then 0 else -1
  {
    FirstMatchGates(glob, [r], [a], proposer);
    assert Applies(glob, r, [a], proposer) <==> "branch" in a.fields && a.fields["branch"] == branch by {
      assert a in [a];
    }
  }
}

/** The approval service: policies, plans and the audit chains, the steps its callers
    can take in any order, what every run keeps, and the methods that take the steps. */
module ApprovalService {
  import opened Common
  import opened CanonicalJson
  import opened AuditChain
  import opened ApprovalPolicy
  import opened ApprovalPlan

  /** The parts that are not this package's: the hash, JSON, globbing, and the order in
      which a map hands out its keys. */
  datatype Env = Env(
    h: Bytes -> Hash,
    c: Codec,
    pay: Detail -> Bytes,
    glob: Glob,
    order: Policy -> seq<string>)

  /** Payloads are JSON, and every group of a policy is visited. */
  ghost predicate EnvOk(env: Env)
  {
    && (forall d :: Document(env.c, env.pay(d)).Some?)
    && (forall p :: Lists(env.order(p), p.groups))
  }

  type Chains = map<Uuid, seq<Row>>

  datatype Service = State(policies: map<Uuid, Policy>, plans: map<Uuid, PlanState>, audit: Chains)

  datatype Reply<T> = Ok(value: T) | Err(error: Error)

  datatype Decision = Decision(planId: Uuid, status: Status, matched: int, ladder: seq<Rung>, expirySeconds: int)

  datatype Tally = Tally(status: Status, quorumMet: bool, approvals: nat, rejections: nat)

  datatype Escalation = Escalation(newRung: int, onTimeout: OnTimeout, finalRung: bool)

  // ------------------------------------------------------------ audit rows

  function RowsOf(audit: Chains, policyId: Uuid): seq<Row>
  {
    if policyId in audit then audit[policyId] else []
  }

  function Unstamped(audit: Chains, policyId: Uuid, planId: Uuid, kind: string, actor: Option<Uuid>,
                     actorKind: string, payload: Bytes, now: Nanos): Row
  {
    Row(|RowsOf(audit, policyId)| + 1, policyId, Some(planId), kind, actor, actorKind, payload, GENESIS, GENESIS, now)
  }

  /** The chains after an append; a row whose payload is not JSON is not appended. */
  ghost function Appended(env: Env, audit: Chains, r: Row): Chains
  {
    match Stamped(env.h, env.c, LastHash(RowsOf(audit, r.policyId)), r)
    case None => audit
    case Some(s) => audit[r.policyId := RowsOf(audit, r.policyId) + [s]]
  }

  // ----------------------------------------------------------------- steps

  datatype Step =
    | Register(policy: Policy)
    | Submit(plan: Plan, newId: Uuid, now: Nanos)
    | Decide(ballot: Ballot, now: Nanos)
    | Escalate(planId: Uuid, fromRung: int, reason: string, now: Nanos)

  function ProposerActor(k: ProposerKind): string
  {
    match k case Agent => "agent" case Service => "service" case OtherProposer(_) => "system"
  }

  /** The verdict on a plan under a policy: the first rule that fires gates it. */
  function Verdict(glob: Glob, pol: Policy, plan: Plan): Decision
  {
    var k := FirstMatch(glob, pol.rules, plan.actions, plan.proposerKind);
    if k == -1 then Decision(plan.id, AutoApproved, -1, [], 0)
    else Decision(plan.id, Pending, k, pol.rules[k].ladder, pol.rules[k].expirySeconds)
  }

  function NewPlan(pol: Policy, plan: Plan, d: Decision, now: int): PlanState
  {
    PlanState(plan, d.status, 0, map[], map[], d.ladder, pol,
              if d.expirySeconds > 0 then Some(now + d.expirySeconds * 1_000_000_000) else None)
  }

  function Named(plan: Plan, newId: Uuid): Plan { if plan.id == ZERO_ID then plan.(id := newId) else plan }

  /** Why a submission is turned away before anything is recorded. */
  function SubmitError(env: Env, s: Service, plan: Plan): Option<Error>
    requires EnvOk(env)
  {
    if plan.proposerKind.OtherProposer? then Some(BadProposer)
    else if plan.orgId !in s.policies then Some(PolicyNotFound)
    else
      var p := s.policies[plan.orgId];
      var e := Validate(p, env.order(p));
      if e.Some? then Some(InvalidPolicy(e.value)) else None
  }

  ghost function SubmissionRow(env: Env, audit: Chains, pol: Policy, plan: Plan, d: Decision, now: Nanos): Row
  {
    Unstamped(audit, pol.id, plan.id, if d.status.AutoApproved? then "auto_approved_no_rule" else "submitted",
              Some(plan.proposerId), ProposerActor(plan.proposerKind),
              env.pay(Submission(plan.id, d.matched, plan.proposerKind)), now)
  }

  ghost function Recorded(env: Env, s: Service, pol: Policy, plan: Plan, d: Decision, now: Nanos): Service
  {
    s.(plans := s.plans[plan.id := NewPlan(pol, plan, d, now)],
       audit := Appended(env, s.audit, SubmissionRow(env, s.audit, pol, plan, d, now)))
  }

  ghost function EffectRow(env: Env, audit: Chains, e: Effect, now: Nanos): Row
    requires e.Change?
  {
    Unstamped(audit, e.next.policy.id, e.next.plan.id, e.kind, e.actor, e.actorKind, env.pay(e.detail), now)
  }

  /** A change to a stored plan together with its audit row. */
  ghost function Applied(env: Env, s: Service, id: Uuid, e: Effect, now: Nanos): Service
    requires id in s.plans
  {
    if !e.Change? then s
    else s.(plans := s.plans[id := e.next], audit := Appended(env, s.audit, EffectRow(env, s.audit, e, now)))
  }

  ghost predicate Indexed(s: Service) { forall id | id in s.plans :: Indexable(s.plans[id]) }

  ghost function After(env: Env, s: Service, step: Step): Service
    requires EnvOk(env) && Indexed(s)
  {
    match step
    case Register(p) => if Validate(p, env.order(p)).Some? then s else s.(policies := s.policies[p.orgId := p])
    case Submit(plan, newId, now) =>
      if SubmitError(env, s, plan).Some? then s
      else
        var pol, named := s.policies[plan.orgId], Named(plan, newId);
        Recorded(env, s, pol, named, Verdict(env.glob, pol, named), now)
    case Decide(b, now) =>
      if b.planId !in s.plans then s else Applied(env, s, b.planId, Vote(s.plans[b.planId], b, now), now)
    case Escalate(id, fromRung, reason, now) =>
      if id !in s.plans then s else Applied(env, s, id, Elapse(s.plans[id], fromRung, reason), now)
  }

  // ------------------------------------------------------- state invariant

  ghost predicate PoliciesOk(s: Service) { forall o | o in s.policies :: WellFormed(s.policies[o]) }

  /** A registered policy never fails its second validation. */
  lemma SubmitErrorIff(env: Env, s: Service, plan: Plan)
    requires EnvOk(env) && PoliciesOk(s)
    ensures SubmitError(env, s, plan).Some? <==> plan.proposerKind.OtherProposer? || plan.orgId !in s.policies
  {
    if plan.orgId in s.policies {
      var p := s.policies[plan.orgId];
      ValidateIff(p, env.order(p));
    }
  }

  ghost predicate PlansOk(s: Service) { forall id | id in s.plans :: PlanInv(s.plans[id]) && s.plans[id].plan.id == id }

  ghost predicate ChainOk(env: Env, rows: seq<Row>) { Accepted(env.h, env.c, rows) && AllKindsValid(rows) }

  /** Every chain the service has built is accepted by verification. */
  ghost predicate ChainsOk(env: Env, audit: Chains) { forall p | p in audit :: ChainOk(env, audit[p]) }

  ghost predicate Inv(env: Env, s: Service) { PoliciesOk(s) && PlansOk(s) && ChainsOk(env, s.audit) }

  lemma AppendKeepsChains(env: Env, audit: Chains, r: Row)
    requires ChainsOk(env, audit) && ValidKinds(r)
    ensures ChainsOk(env, Appended(env, audit, r))
  {
    var rows := RowsOf(audit, r.policyId);
    var stamped := Stamped(env.h, env.c, LastHash(rows), r);
    if stamped.Some? {
      assert ChainOk(env, rows);
      AppendKeepsAccepted(env.h, env.c, rows, r);
      assert ValidKinds(stamped.value);
      assert ChainOk(env, rows + [stamped.value]);
    }
  }

  lemma NewPlanOk(glob: Glob, pol: Policy, plan: Plan, now: int)
    requires WellFormed(pol)
    ensures PlanInv(NewPlan(pol, plan, Verdict(glob, pol, plan), now))
  {
    var k := FirstMatch(glob, pol.rules, plan.actions, plan.proposerKind);
    if k >= 0 {
      assert RuleOk(pol.groups, pol.rules[k]);
    }
  }

  lemma AppliedKeeps(env: Env, s: Service, id: Uuid, e: Effect, now: Nanos)
    requires Inv(env, s) && id in s.plans && Honest(s.plans[id], e) && (e.Change? ==> PlanInv(e.next))
    ensures Inv(env, Applied(env, s, id, e, now))
  {
    if e.Change? {
      AppendKeepsChains(env, s.audit, EffectRow(env, s.audit, e, now));
    }
  }

  lemma SubmissionKinds(env: Env, audit: Chains, pol: Policy, plan: Plan, d: Decision, now: Nanos)
    requires !plan.proposerKind.OtherProposer?
    ensures ValidKinds(SubmissionRow(env, audit, pol, plan, d, now))
  {
  }

  lemma RecordedKeeps(env: Env, s: Service, pol: Policy, plan: Plan, now: Nanos)
    requires Inv(env, s) && WellFormed(pol) && !plan.proposerKind.OtherProposer?
    ensures Inv(env, Recorded(env, s, pol, plan, Verdict(env.glob, pol, plan), now))
  {
    var d := Verdict(env.glob, pol, plan);
    NewPlanOk(env.glob, pol, plan, now);
    SubmissionKinds(env, s.audit, pol, plan, d, now);
    AppendKeepsChains(env, s.audit, SubmissionRow(env, s.audit, pol, plan, d, now));
  }

  lemma StepKeeps(env: Env, s: Service, step: Step)
    requires EnvOk(env) && Inv(env, s)
    ensures Inv(env, After(env, s, step))
  {
    match step
    case Register(p) => ValidateIff(p, env.order(p));
    case Submit(plan, newId, now) =>
      if SubmitError(env, s, plan).None? {
        RecordedKeeps(env, s, s.policies[plan.orgId], Named(plan, newId), now);
      }
    case Decide(b, now) =>
      if b.planId in s.plans {
        var ps := s.plans[b.planId];
        VoteHonest(ps, b, now);
        VoteKeeps(ps, b, now);
        AppliedKeeps(env, s, b.planId, Vote(ps, b, now), now);
      }
    case Escalate(id, fromRung, reason, now) =>
      if id in s.plans {
        var ps := s.plans[id];
        ElapseHonest(ps, fromRung, reason);
        ElapseKeeps(ps, fromRung, reason);
        AppliedKeeps(env, s, id, Elapse(ps, fromRung, reason), now);
      }
  }

  // -------------------------------------------------------------- all runs

  const EMPTY: Service := State(map[], map[], map[])

  /** The service after a run from empty. */
  ghost function Run(env: Env, steps: seq<Step>): Service
    requires EnvOk(env)
    decreases |steps|, 0
  {
    if steps == [] then EMPTY
    else
      var n := |steps| - 1;
      RunKeeps(env, steps[..n]);
      After(env, Run(env, steps[..n]), steps[n])
  }

  /** The invariant holds after every run, whatever the interleaving of callers. */
  lemma {:induction false} RunKeeps(env: Env, steps: seq<Step>)
    requires EnvOk(env)
    ensures Inv(env, Run(env, steps))
    decreases |steps|, 1
  {
    if steps != [] {
      var n := |steps| - 1;
      RunKeeps(env, steps[..n]);
      StepKeeps(env, Run(env, steps[..n]), steps[n]);
    }
  }

  // ---------------------------------------- one terminal row per decided plan

  /** The kinds of the terminal rows a chain holds for a plan, in order. */
  function Terminals(rows: seq<Row>, id: Uuid): seq<string>
  {
    if rows == [] then []
    else
      var n := |rows| - 1;
      Terminals(rows[..n], id) + TerminalOf(rows[n], id)
  }

  function TerminalOf(r: Row, id: Uuid): seq<string>
  {
    if r.planId == Some(id) && r.eventKind in TERMINAL then [r.eventKind] else []
  }

  /** One row naming its status in its own policy's chain, for a decided plan. */
  function Expected(s: Service, id: Uuid, policyId: Uuid): seq<string>
  {
    if id in s.plans && s.plans[id].policy.id == policyId && !s.plans[id].status.Pending?
    then [KindOf(s.plans[id].status)]
    else []
  }

  ghost predicate RowsMatch(s: Service, id: Uuid, policyId: Uuid)
  {
    Terminals(RowsOf(s.audit, policyId), id) == Expected(s, id, policyId)
  }

  ghost predicate OncePerPlan(s: Service, reused: set<Uuid>)
  {
    forall id, p | id !in reused :: RowsMatch(s, id, p)
  }

  lemma TerminalsAppend(env: Env, audit: Chains, r: Row, id: Uuid, p: Uuid)
    requires Document(env.c, r.payload).Some?
    ensures Terminals(RowsOf(Appended(env, audit, r), p), id) ==
            Terminals(RowsOf(audit, p), id) + if p == r.policyId then TerminalOf(r, id) else []
  {
    var rows := RowsOf(audit, r.policyId);
    var x := Stamped(env.h, env.c, LastHash(rows), r).value;
    assert (rows + [x])[..|rows|] == rows;
    assert TerminalOf(x, id) == TerminalOf(r, id);
  }

  lemma EffectTerminal(env: Env, audit: Chains, ps: PlanState, e: Effect, now: Nanos, i: Uuid)
    requires e.Change? && Honest(ps, e)
    ensures TerminalOf(EffectRow(env, audit, e, now), i) ==
            if i == ps.plan.id && !e.next.status.Pending? then [KindOf(e.next.status)] else []
  {
  }

  lemma AppliedMatch(env: Env, s: Service, id: Uuid, e: Effect, now: Nanos, i: Uuid, p: Uuid)
    requires EnvOk(env) && RowsMatch(s, i, p) && id in s.plans && s.plans[id].plan.id == id
    requires e.Change? && Honest(s.plans[id], e)
    ensures RowsMatch(Applied(env, s, id, e, now), i, p)
  {
    TerminalsAppend(env, s.audit, EffectRow(env, s.audit, e, now), i, p);
    EffectTerminal(env, s.audit, s.plans[id], e, now, i);
  }

  lemma AppliedOnce(env: Env, s: Service, id: Uuid, e: Effect, now: Nanos, reused: set<Uuid>)
    requires EnvOk(env) && OncePerPlan(s, reused) && id in s.plans && s.plans[id].plan.id == id && Honest(s.plans[id], e)
    ensures OncePerPlan(Applied(env, s, id, e, now), reused)
  {
    if e.Change? {
      forall i, p | i !in reused
        ensures RowsMatch(Applied(env, s, id, e, now), i, p)
      {
        AppliedMatch(env, s, id, e, now, i, p);
      }
    }
  }

  lemma SubmissionTerminal(env: Env, audit: Chains, pol: Policy, plan: Plan, d: Decision, now: Nanos, i: Uuid)
    ensures TerminalOf(SubmissionRow(env, audit, pol, plan, d, now), i) ==
            if i == plan.id && d.status.AutoApproved? then [KindOf(AutoApproved)] else []
  {
  }

  lemma RecordedMatch(env: Env, s: Service, pol: Policy, plan: Plan, d: Decision, now: Nanos, i: Uuid, p: Uuid)
    requires EnvOk(env) && RowsMatch(s, i, p) && (d.status.Pending? || d.status.AutoApproved?)
    requires i == plan.id ==> i !in s.plans
    ensures RowsMatch(Recorded(env, s, pol, plan, d, now), i, p)
  {
    TerminalsAppend(env, s.audit, SubmissionRow(env, s.audit, pol, plan, d, now), i, p);
    SubmissionTerminal(env, s.audit, pol, plan, d, now, i);
  }

  lemma RecordedOnce(env: Env, s: Service, pol: Policy, plan: Plan, d: Decision, now: Nanos, reused: set<Uuid>)
    requires EnvOk(env) && OncePerPlan(s, reused) && (d.status.Pending? || d.status.AutoApproved?)
    ensures OncePerPlan(Recorded(env, s, pol, plan, d, now), if plan.id in s.plans then reused + {plan.id} else reused)
  {
    forall i, p | i !in reused && (i == plan.id ==> i !in s.plans)
      ensures RowsMatch(Recorded(env, s, pol, plan, d, now), i, p)
    {
      RecordedMatch(env, s, pol, plan, d, now, i, p);
    }
  }

  /** The id a step records a submission under, if it does. */
  ghost function RecordedId(env: Env, s: Service, step: Step): Option<Uuid>
    requires EnvOk(env)
  {
    if step.Submit? && SubmitError(env, s, step.plan).None? then Some(Named(step.plan, step.newId).id) else None
  }

  /** The ids under which some plan has been recorded more than once. */
  ghost function Reused(env: Env, steps: seq<Step>): set<Uuid>
    requires EnvOk(env)
  {
    if steps == [] then {}
    else
      var n := |steps| - 1;
      var before := Run(env, steps[..n]);
      var id := RecordedId(env, before, steps[n]);
      Reused(env, steps[..n]) + if id.Some? && id.value in before.plans then {id.value} else {}
  }

  lemma SamePlansOnce(s: Service, t: Service, reused: set<Uuid>)
    requires OncePerPlan(s, reused) && s.plans == t.plans && s.audit == t.audit
    ensures OncePerPlan(t, reused)
  {
    forall i, p | i !in reused
      ensures RowsMatch(t, i, p)
    {
      assert RowsMatch(s, i, p);
    }
  }

  lemma StepOnce(env: Env, s: Service, step: Step, reused: set<Uuid>)
    requires EnvOk(env) && Inv(env, s) && OncePerPlan(s, reused)
    ensures var id := RecordedId(env, s, step);
            OncePerPlan(After(env, s, step), reused + if id.Some? && id.value in s.plans then {id.value} else {})
  {
    assert reused + {} == reused;
    match step
    case Register(p) =>
      SamePlansOnce(s, After(env, s, step), reused);
    case Submit(plan, newId, now) =>
      if SubmitError(env, s, plan).None? {
        var pol, named := s.policies[plan.orgId], Named(plan, newId);
        RecordedOnce(env, s, pol, named, Verdict(env.glob, pol, named), now, reused);
      }
    case Decide(b, now) =>
      if b.planId in s.plans {
        VoteHonest(s.plans[b.planId], b, now);
        AppliedOnce(env, s, b.planId, Vote(s.plans[b.planId], b, now), now, reused);
      }
    case Escalate(id, fromRung, reason, now) =>
      if id in s.plans {
        ElapseHonest(s.plans[id], fromRung, reason);
        AppliedOnce(env, s, id, Elapse(s.plans[id], fromRung, reason), now, reused);
      }
  }

  /** In every run, a plan recorded once has no terminal row while it is pending and
      exactly one, naming its status, from then on. */
  lemma {:induction false} OneTerminalRow(env: Env, steps: seq<Step>)
    requires EnvOk(env)
    ensures OncePerPlan(Run(env, steps), Reused(env, steps))
  {
    if steps == [] {
      forall i, p: Uuid
        ensures RowsMatch(EMPTY, i, p)
      {
      }
    } else {
      var n := |steps| - 1;
      OneTerminalRow(env, steps[..n]);
      RunKeeps(env, steps[..n]);
      StepOnce(env, Run(env, steps[..n]), steps[n], Reused(env, steps[..n]));
    }
  }

  lemma AppliedFreezes(env: Env, s: Service, i: Uuid, e: Effect, now: Nanos, id: Uuid)
    requires i in s.plans && id in s.plans && !s.plans[id].status.Pending? && Honest(s.plans[i], e)
    ensures Applied(env, s, i, e, now).plans.Keys == s.plans.Keys && Applied(env, s, i, e, now).plans[id] == s.plans[id]
  {
  }

  lemma StepFreezes(env: Env, s: Service, step: Step, id: Uuid)
    requires EnvOk(env) && Indexed(s) && id in s.plans && !s.plans[id].status.Pending?
    requires RecordedId(env, s, step) != Some(id)
    ensures id in After(env, s, step).plans && After(env, s, step).plans[id] == s.plans[id]
  {
    match step
    case Register(_) =>
    case Submit(_, _, _) =>
    case Decide(b, now) =>
      if b.planId in s.plans {
        VoteHonest(s.plans[b.planId], b, now);
        AppliedFreezes(env, s, b.planId, Vote(s.plans[b.planId], b, now), now, id);
      }
    case Escalate(i, fromRung, reason, now) =>
      if i in s.plans {
        ElapseHonest(s.plans[i], fromRung, reason);
        AppliedFreezes(env, s, i, Elapse(s.plans[i], fromRung, reason), now, id);
      }
  }

  lemma RunStep(env: Env, steps: seq<Step>, step: Step)
    requires EnvOk(env)
    ensures Indexed(Run(env, steps)) && Run(env, steps + [step]) == After(env, Run(env, steps), step)
    ensures var id := RecordedId(env, Run(env, steps), step);
            id.Some? && id.value in Run(env, steps).plans ==> id.value in Reused(env, steps + [step])
  {
    assert (steps + [step])[..|steps|] == steps;
    RunKeeps(env, steps);
  }

  lemma ReusedGrows(env: Env, steps: seq<Step>, step: Step)
    requires EnvOk(env)
    ensures Reused(env, steps) <= Reused(env, steps + [step])
  {
    assert (steps + [step])[..|steps|] == steps;
  }

  lemma FinalStep(env: Env, steps: seq<Step>, step: Step, id: Uuid)
    requires EnvOk(env) && id in Run(env, steps).plans && !Run(env, steps).plans[id].status.Pending?
    requires id !in Reused(env, steps + [step])
    ensures id in Run(env, steps + [step]).plans && Run(env, steps + [step]).plans[id] == Run(env, steps).plans[id]
  {
    RunStep(env, steps, step);
    RunKeeps(env, steps);
    StepFreezes(env, Run(env, steps), step, id);
  }

  /** A decision is final: whatever follows, a decided plan never changes again unless
      its id is submitted anew. */
  lemma {:induction false} DecidedIsFinal(env: Env, a: seq<Step>, b: seq<Step>, id: Uuid)
    requires EnvOk(env) && id in Run(env, a).plans && !Run(env, a).plans[id].status.Pending?
    requires id !in Reused(env, a + b)
    ensures id in Run(env, a + b).plans && Run(env, a + b).plans[id] == Run(env, a).plans[id]
    decreases |b|
  {
    if b == [] {
      assert a + b == a;
    } else {
      var n := |b| - 1;
      var sofar := a + b[..n];
      assert a + b == sofar + [b[n]];
      ReusedGrows(env, sofar, b[n]);
      DecidedIsFinal(env, a, b[..n], id);
      FinalStep(env, sofar, b[n], id);
    }
  }
}

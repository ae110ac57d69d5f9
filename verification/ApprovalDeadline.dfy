/** Deadlines over whole runs of the approval service, read off the steps: which rule a plan
    was submitted under, when its window closes, and that no vote counts after that. */
module ApprovalDeadline {
  import opened Common
  import opened AuditChain
  import opened ApprovalPolicy
  import opened ApprovalPlan
  import opened ApprovalService
  import opened ApprovalAnswers

  // ------------------------------------------------------- what the steps say

  /** The policy an organisation has before step `n`: the last well-formed one registered. */
  ghost function InForce(steps: seq<Step>, n: nat, org: Uuid): Option<Policy>
    requires n <= |steps|
  {
    if n == 0 then None
    else
      var step := steps[n - 1];
      if step.Register? && step.policy.orgId == org && WellFormed(step.policy) then Some(step.policy)
      else InForce(steps, n - 1, org)
  }

  /** Step `i` submits a plan that is recorded under `id`. */
  ghost predicate Submits(steps: seq<Step>, i: nat, id: Uuid)
    requires i < |steps|
  {
    var step := steps[i];
    && step.Submit? && (if step.plan.id == ZERO_ID then step.newId else step.plan.id) == id
    && !step.plan.proposerKind.OtherProposer? && InForce(steps, i, step.plan.orgId).Some?
  }

  /** Step `i` is the last before `n` to do so. */
  ghost predicate SubmittedLast(steps: seq<Step>, n: nat, i: nat, id: Uuid)
    requires n <= |steps|
  {
    i < n && Submits(steps, i, id) && forall j | i < j < n :: !Submits(steps, j, id)
  }

  /** The policy it was submitted under. */
  ghost function PolicyOf(steps: seq<Step>, i: nat): Policy
    requires i < |steps| && steps[i].Submit? && InForce(steps, i, steps[i].plan.orgId).Some?
  {
    InForce(steps, i, steps[i].plan.orgId).value
  }

  /** Rule `k` of that policy gates it. */
  ghost predicate GatedBy(env: Env, steps: seq<Step>, i: nat, k: int)
    requires i < |steps| && steps[i].Submit? && InForce(steps, i, steps[i].plan.orgId).Some?
  {
    Gates(env.glob, PolicyOf(steps, i).rules, steps[i].plan.actions, steps[i].plan.proposerKind, k)
  }

  /** The end of the window in nanoseconds. */
  ghost function Deadline(env: Env, steps: seq<Step>, i: nat, k: int): int
    requires i < |steps| && steps[i].Submit? && InForce(steps, i, steps[i].plan.orgId).Some? && GatedBy(env, steps, i, k)
  {
    steps[i].now + PolicyOf(steps, i).rules[k].expirySeconds * 1_000_000_000
  }

  // -------------------------------------------------------------- the state

  ghost function At(env: Env, steps: seq<Step>, n: nat): Service
    requires EnvOk(env) && n <= |steps|
  {
    Run(env, steps[..n])
  }

  lemma NextAt(env: Env, steps: seq<Step>, n: nat)
    requires EnvOk(env) && n < |steps|
    ensures Inv(env, At(env, steps, n)) && Indexed(At(env, steps, n))
    ensures At(env, steps, n + 1) == After(env, At(env, steps, n), steps[n])
  {
    assert steps[..n + 1] == steps[..n] + [steps[n]];
    RunStep(env, steps[..n], steps[n]);
    RunKeeps(env, steps[..n]);
  }

  lemma PoliciesNext(env: Env, s: Service, step: Step)
    requires EnvOk(env) && Indexed(s)
    ensures After(env, s, step).policies ==
            if step.Register? && WellFormed(step.policy) then s.policies[step.policy.orgId := step.policy] else s.policies
  {
    if step.Register? {
      ValidateIff(step.policy, env.order(step.policy));
    }
  }

  lemma {:induction false} PoliciesAre(env: Env, steps: seq<Step>, n: nat, org: Uuid)
    requires EnvOk(env) && n <= |steps|
    ensures var ps := At(env, steps, n).policies;
            InForce(steps, n, org) == if org in ps then Some(ps[org]) else None
  {
    if n == 0 {
      assert steps[..0] == [];
    } else {
      PoliciesAre(env, steps, n - 1, org);
      NextAt(env, steps, n - 1);
      PoliciesNext(env, At(env, steps, n - 1), steps[n - 1]);
    }
  }

  lemma RecordsIff(env: Env, steps: seq<Step>, n: nat, id: Uuid)
    requires EnvOk(env) && n < |steps|
    ensures RecordedId(env, At(env, steps, n), steps[n]) == Some(id) <==> Submits(steps, n, id)
  {
    if steps[n].Submit? {
      NextAt(env, steps, n);
      PoliciesAre(env, steps, n, steps[n].plan.orgId);
      SubmitErrorIff(env, At(env, steps, n), steps[n].plan);
    }
  }

  // ---------------------------------------------------- the stored plan

  /** The plan as its submission left it, apart from votes and escalations. */
  ghost predicate AsSubmitted(env: Env, steps: seq<Step>, i: nat, ps: PlanState)
    requires i < |steps| && steps[i].Submit? && InForce(steps, i, steps[i].plan.orgId).Some?
  {
    && ps.policy == PolicyOf(steps, i)
    && ps.plan == steps[i].plan.(id := if steps[i].plan.id == ZERO_ID then steps[i].newId else steps[i].plan.id)
    && (forall k | GatedBy(env, steps, i, k) ::
          ps.ladder == PolicyOf(steps, i).rules[k].ladder && ps.expiresAt == Some(Deadline(env, steps, i, k)))
    && (Ungated(env.glob, PolicyOf(steps, i).rules, steps[i].plan.actions, steps[i].plan.proposerKind) <==> ps.status.AutoApproved?)
  }

  /** What a policy makes of a plan. */
  ghost predicate StoredAs(glob: Glob, pol: Policy, plan: Plan, now: int, ps: PlanState)
  {
    && ps.policy == pol && ps.plan == plan
    && (Ungated(glob, pol.rules, plan.actions, plan.proposerKind) <==> ps.status.AutoApproved?)
    && forall k | Gates(glob, pol.rules, plan.actions, plan.proposerKind, k) ::
         ps.ladder == pol.rules[k].ladder && ps.expiresAt == Some(now + pol.rules[k].expirySeconds * 1_000_000_000)
  }

  lemma NewPlanIs(glob: Glob, pol: Policy, plan: Plan, now: int)
    requires WellFormed(pol)
    ensures StoredAs(glob, pol, plan, now, NewPlan(pol, plan, Verdict(glob, pol, plan), now))
  {
    FirstMatchGates(glob, pol.rules, plan.actions, plan.proposerKind);
    var k := FirstMatch(glob, pol.rules, plan.actions, plan.proposerKind);
    if k >= 0 {
      assert RuleOk(pol.groups, pol.rules[k]);
    }
  }

  lemma StoredAsSubmitted(env: Env, steps: seq<Step>, i: nat, id: Uuid, ps: PlanState)
    requires i < |steps| && Submits(steps, i, id)
    requires StoredAs(env.glob, PolicyOf(steps, i), steps[i].plan.(id := id), steps[i].now, ps)
    ensures AsSubmitted(env, steps, i, ps)
  {
  }

  lemma SubmitStores(env: Env, s: Service, plan: Plan, newId: Uuid, now: Nanos)
    requires EnvOk(env) && Inv(env, s) && Indexed(s) && !plan.proposerKind.OtherProposer? && plan.orgId in s.policies
    ensures var named := Named(plan, newId);
            var s' := After(env, s, Submit(plan, newId, now));
            named.id in s'.plans && s'.plans[named.id] == NewPlan(s.policies[plan.orgId], named, Verdict(env.glob, s.policies[plan.orgId], named), now)
  {
    SubmitErrorIff(env, s, plan);
  }

  lemma Submitted(env: Env, steps: seq<Step>, i: nat, id: Uuid)
    requires EnvOk(env) && i < |steps| && Submits(steps, i, id)
    ensures var s := At(env, steps, i + 1); id in s.plans && AsSubmitted(env, steps, i, s.plans[id])
  {
    var step := steps[i];
    NextAt(env, steps, i);
    PoliciesAre(env, steps, i, step.plan.orgId);
    SubmitStores(env, At(env, steps, i), step.plan, step.newId, step.now);
    NewPlanIs(env.glob, PolicyOf(steps, i), Named(step.plan, step.newId), step.now);
    StoredAsSubmitted(env, steps, i, id, At(env, steps, i + 1).plans[id]);
  }

  lemma AppliedLeaves(env: Env, s: Service, i: Uuid, e: Effect, now: Nanos, id: Uuid)
    requires i in s.plans && id in s.plans && Honest(s.plans[i], e)
    ensures var s' := Applied(env, s, i, e, now);
            && id in s'.plans && SamePlan(s.plans[id], s'.plans[id])
            && (s'.plans[id].status.AutoApproved? <==> s.plans[id].status.AutoApproved?)
  {
  }

  lemma StepLeaves(env: Env, s: Service, step: Step, id: Uuid)
    requires EnvOk(env) && Indexed(s) && id in s.plans && RecordedId(env, s, step) != Some(id)
    ensures var s' := After(env, s, step);
            && id in s'.plans && SamePlan(s.plans[id], s'.plans[id])
            && (s'.plans[id].status.AutoApproved? <==> s.plans[id].status.AutoApproved?)
  {
    match step
    case Register(_) =>
    case Submit(_, _, _) =>
    case Decide(b, now) =>
      if b.planId in s.plans {
        VoteHonest(s.plans[b.planId], b, now);
        AppliedLeaves(env, s, b.planId, Vote(s.plans[b.planId], b, now), now, id);
      }
    case Escalate(i, fromRung, reason, now) =>
      if i in s.plans {
        ElapseHonest(s.plans[i], fromRung, reason);
        AppliedLeaves(env, s, i, Elapse(s.plans[i], fromRung, reason), now, id);
      }
  }

  /** In every run the stored plan is as its last submission left it. */
  lemma {:induction false} StoredPlan(env: Env, steps: seq<Step>, n: nat, i: nat, id: Uuid)
    requires EnvOk(env) && n <= |steps| && SubmittedLast(steps, n, i, id)
    ensures id in At(env, steps, n).plans && AsSubmitted(env, steps, i, At(env, steps, n).plans[id])
  {
    if n == i + 1 {
      Submitted(env, steps, i, id);
    } else {
      StoredPlan(env, steps, n - 1, i, id);
      NextAt(env, steps, n - 1);
      RecordsIff(env, steps, n - 1, id);
      StepLeaves(env, At(env, steps, n - 1), steps[n - 1], id);
    }
  }

  // ---------------------------------------------------------------- the results

  /** A vote on a pending plan is answered as expired, and leaves it expired, exactly when it
      comes after the window of the rule the plan was submitted under. */
  lemma VoteTooLateIff(env: Env, steps: seq<Step>, i: nat, k: int, b: Ballot, now: Nanos)
    requires EnvOk(env) && SubmittedLast(steps, |steps|, i, b.planId) && GatedBy(env, steps, i, k)
    requires b.planId in Run(env, steps).plans && Run(env, steps).plans[b.planId].status.Pending?
    ensures Indexed(Run(env, steps)) && b.planId in After(env, Run(env, steps), Decide(b, now)).plans
    ensures VoteReply(Run(env, steps).plans[b.planId], b, now) == Err(PlanExpired) <==> now > Deadline(env, steps, i, k)
    ensures After(env, Run(env, steps), Decide(b, now)).plans[b.planId].status.Expired? <==> now > Deadline(env, steps, i, k)
  {
    assert steps[..|steps|] == steps;
    StoredPlan(env, steps, |steps|, i, b.planId);
    RunKeeps(env, steps);
    LapsesIff(Run(env, steps).plans[b.planId], b, now, Deadline(env, steps, i, k));
  }

  lemma LapsesIff(ps: PlanState, b: Ballot, now: Nanos, deadline: int)
    requires PlanInv(ps) && ps.status.Pending? && ps.expiresAt == Some(deadline)
    ensures VoteReply(ps, b, now) == Err(PlanExpired) <==> now > deadline
    ensures Vote(ps, b, now).Change? && Vote(ps, b, now).next.status.Expired? <==> now > deadline
  {
  }

  lemma {:induction false} StaysDecided(env: Env, steps: seq<Step>, m: nat, n: nat, id: Uuid)
    requires EnvOk(env) && m <= n <= |steps| && forall j | m <= j < n :: !Submits(steps, j, id)
    requires id in At(env, steps, m).plans && !At(env, steps, m).plans[id].status.Pending?
    ensures id in At(env, steps, n).plans && At(env, steps, n).plans[id] == At(env, steps, m).plans[id]
  {
    if m < n {
      StaysDecided(env, steps, m, n - 1, id);
      NextAt(env, steps, n - 1);
      RecordsIff(env, steps, n - 1, id);
      StepFreezes(env, At(env, steps, n - 1), steps[n - 1], id);
    }
  }

  /** A plan that ends approved or rejected took every vote while its window was open. */
  lemma VotesWereInTime(env: Env, steps: seq<Step>, i: nat, k: int, id: Uuid, j: nat)
    requires EnvOk(env) && SubmittedLast(steps, |steps|, i, id) && GatedBy(env, steps, i, k)
    requires id in Run(env, steps).plans && (Run(env, steps).plans[id].status.Approved? || Run(env, steps).plans[id].status.Rejected?)
    requires i < j < |steps| && steps[j].Decide? && steps[j].ballot.planId == id
    requires id in At(env, steps, j).plans && At(env, steps, j).plans[id].status.Pending?
    ensures steps[j].now <= Deadline(env, steps, i, k)
  {
    assert steps[..|steps|] == steps;
    StoredPlan(env, steps, j, i, id);
    if steps[j].now > Deadline(env, steps, i, k) {
      EndsExpired(env, steps, j, id, Deadline(env, steps, i, k));
    }
  }

  lemma EndsExpired(env: Env, steps: seq<Step>, j: nat, id: Uuid, deadline: int)
    requires EnvOk(env) && j < |steps| && steps[j].Decide? && steps[j].ballot.planId == id && steps[j].now > deadline
    requires id in At(env, steps, j).plans && At(env, steps, j).plans[id].status.Pending?
    requires At(env, steps, j).plans[id].expiresAt == Some(deadline)
    requires forall m | j < m < |steps| :: !Submits(steps, m, id)
    ensures id in At(env, steps, |steps|).plans && At(env, steps, |steps|).plans[id].status.Expired?
  {
    LateVoteExpires(env, steps, j, id, deadline);
    StaysDecided(env, steps, j + 1, |steps|, id);
  }

  lemma LateVoteExpires(env: Env, steps: seq<Step>, j: nat, id: Uuid, deadline: int)
    requires EnvOk(env) && j < |steps| && steps[j].Decide? && steps[j].ballot.planId == id && steps[j].now > deadline
    requires id in At(env, steps, j).plans && At(env, steps, j).plans[id].status.Pending?
    requires At(env, steps, j).plans[id].expiresAt == Some(deadline)
    ensures id in At(env, steps, j + 1).plans && At(env, steps, j + 1).plans[id].status.Expired?
  {
    NextAt(env, steps, j);
    LapsesIff(At(env, steps, j).plans[id], steps[j].ballot, steps[j].now, deadline);
  }
}

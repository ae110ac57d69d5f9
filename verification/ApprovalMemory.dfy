/** The in-memory approval service: the object whose methods take the service's steps. */
module ApprovalMemory {
  import opened Common
  import opened AuditChain
  import opened ApprovalPolicy
  import opened ApprovalPlan
  import opened ApprovalService
  import opened ApprovalAnswers

  lemma VoteFacts(env: Env, s: Service, b: Ballot, now: Nanos)
    requires EnvOk(env) && Inv(env, s) && b.planId in s.plans
    ensures var ps, id := s.plans[b.planId], b.planId;
            var t := Applied(env, s, id, Vote(ps, b, now), now);
            && id in t.plans && t.plans == s.plans[id := t.plans[id]] && Answers(ps, b, now, VoteReply(ps, b, now), t.plans[id])
            && var note := VoteNote(ps, b, now);
            if note.None? then t.audit == s.audit else Notes(env, s.audit, t.audit, ps.policy.id, id, note.value, now)
  {
    var ps := s.plans[b.planId];
    VoteAnswers(ps, b, now);
    VoteMatches(ps, b, now);
    VoteHonest(ps, b, now);
    AppliedNotes(env, s, b.planId, Vote(ps, b, now), now, VoteNote(ps, b, now));
  }

  lemma EscalationFacts(env: Env, s: Service, id: Uuid, fromRung: int, reason: string, now: Nanos)
    requires EnvOk(env) && Inv(env, s) && id in s.plans
    ensures var ps := s.plans[id];
            var t := Applied(env, s, id, Elapse(ps, fromRung, reason), now);
            && id in t.plans && t.plans == s.plans[id := t.plans[id]] && Climbs(ps, fromRung, ElapseReply(ps, fromRung, reason), t.plans[id])
            && var note := ClimbNote(ps, fromRung, reason);
            if note.None? then t.audit == s.audit else Notes(env, s.audit, t.audit, ps.policy.id, id, note.value, now)
  {
    var ps := s.plans[id];
    ElapseClimbs(ps, fromRung, reason);
    ClimbMatches(ps, fromRung, reason);
    ElapseHonest(ps, fromRung, reason);
    AppliedNotes(env, s, id, Elapse(ps, fromRung, reason), now, ClimbNote(ps, fromRung, reason));
  }

  /** A ballot turned down, or the plan with it entered and the group that votes. */
  datatype Entry = Refused(error: Error) | Entered(marked: PlanState, group: Group)

  class MemService {
    const env: Env
    var policies: map<Uuid, Policy>
    var plans: map<Uuid, PlanState>
    var audit: Chains

    ghost function View(): Service
      reads this
    {
      State(policies, plans, audit)
    }

    ghost predicate Valid()
      reads this
    {
      EnvOk(env) && Inv(env, View())
    }

    constructor (env: Env)
      requires EnvOk(env)
      ensures Valid() && this.env == env && View() == EMPTY
    {
      this.env := env;
      policies, plans, audit := map[], map[], map[];
    }

    method RegisterPolicy(p: Policy) returns (err: Option<Code>)
      requires Valid()
      modifies this`policies
      ensures Valid() && View() == After(env, old(View()), Register(p))
      ensures err.None? <==> WellFormed(p)
      ensures err.Some? ==> Guilty(p, err.value) && policies == old(policies)
    {
      StepKeeps(env, View(), Register(p));
      ValidateIff(p, env.order(p));
      err := Validate(p, env.order(p));
      if err.Some? {
        ValidateBlames(p, env.order(p));
        return;
      }
      policies := policies[p.orgId := p];
    }

    method AppendAudit(policyId: Uuid, planId: Uuid, kind: string, actor: Option<Uuid>, actorKind: string,
                       payload: Bytes, now: Nanos) returns (ok: bool)
      modifies this`audit
      ensures audit == Appended(env, old(audit), Unstamped(old(audit), policyId, planId, kind, actor, actorKind, payload, now))
      ensures ok <==> Document(env.c, payload).Some?
    {
      var prev := GENESIS;
      var rows := if policyId in audit then audit[policyId] else [];
      if |rows| > 0 {
        prev := rows[|rows| - 1].rowHash;
      }
      var row := Row(|rows| + 1, policyId, Some(planId), kind, actor, actorKind, payload, GENESIS, GENESIS, now);
      var stamped := AppendRow(env.h, env.c, prev, row, false, now);
      if stamped.None? {
        return false;
      }
      audit := audit[policyId := rows + [stamped.value]];
      ok := true;
    }

    method RecordSubmission(plan: Plan, d: Decision, now: Nanos) returns (err: Option<Error>)
      requires EnvOk(env)
      modifies this`plans, this`audit
      ensures plan.orgId !in policies ==> err == Some(PolicyNotFound) && View() == old(View())
      ensures plan.orgId in policies ==>
                err.None? && View() == Recorded(env, old(View()), policies[plan.orgId], plan, d, now)
    {
      if plan.orgId !in policies {
        return Some(PolicyNotFound);
      }
      var pol := policies[plan.orgId];
      var expiresAt := None;
      if d.expirySeconds > 0 {
        expiresAt := Some(now + d.expirySeconds * 1_000_000_000);
      }
      plans := plans[plan.id := PlanState(plan, d.status, 0, map[], map[], d.ladder, pol, expiresAt)];
      var kind := "submitted";
      if d.status.AutoApproved? {
        kind := "auto_approved_no_rule";
      }
      var ok := AppendAudit(pol.id, plan.id, kind, Some(plan.proposerId), ProposerActor(plan.proposerKind),
                            env.pay(Submission(plan.id, d.matched, plan.proposerKind)), now);
      err := if ok then None else Some(AuditFailed);
    }

    /** The rule that gates the plan is found by walking the rules in order. */
    method Evaluate(pol: Policy, plan: Plan) returns (d: Decision)
      ensures d == Verdict(env.glob, pol, plan)
    {
      for i := 0 to |pol.rules|
        invariant FirstMatch(env.glob, pol.rules, plan.actions, plan.proposerKind) ==
                  var k := FirstMatch(env.glob, pol.rules[i..], plan.actions, plan.proposerKind);
                  if k == -1 then -1 else k + i
      {
        assert pol.rules[i..][1..] == pol.rules[i + 1..];
        if Fires(env.glob, pol.rules[i], plan.actions, plan.proposerKind) {
          return Decision(plan.id, Pending, i, pol.rules[i].ladder, pol.rules[i].expirySeconds);
        }
      }
      d := Decision(plan.id, AutoApproved, -1, [], 0);
    }

    method SubmitPlan(plan: Plan, newId: Uuid, now: Nanos) returns (r: Reply<Decision>)
      requires Valid()
      modifies this`plans, this`audit
      ensures Valid() && View() == After(env, old(View()), Submit(plan, newId, now))
      ensures r == Err(BadProposer) <==> plan.proposerKind.OtherProposer?
      ensures r == Err(PolicyNotFound) <==> !plan.proposerKind.OtherProposer? && plan.orgId !in policies
      ensures r.Err? ==> (r.error.BadProposer? || r.error.PolicyNotFound?) && plans == old(plans) && audit == old(audit)
      ensures r.Ok? ==>
        var id := if plan.id == ZERO_ID then newId else plan.id;
        && id in plans && Judges(env.glob, policies[plan.orgId], plan, id, now, r.value, plans[id])
        && Notes(env, old(audit), audit, policies[plan.orgId].id, id, SubmitNote(plan, id, r.value), now)
      ensures r.Err? <==> SubmitError(env, old(View()), plan).Some?
      ensures r.Ok? ==> r.value == Verdict(env.glob, policies[plan.orgId], Named(plan, newId))
    {
      SubmitErrorIff(env, View(), plan);
      if plan.orgId in policies {
        VerdictJudges(env.glob, policies[plan.orgId], plan, newId, now);
        if !plan.proposerKind.OtherProposer? {
          var pol, named := policies[plan.orgId], Named(plan, newId);
          SubmissionNotes(env, View(), pol, named, named.id, Verdict(env.glob, pol, named), now);
        }
      }
      r := Judge(plan, newId, now);
    }

    method Judge(plan: Plan, newId: Uuid, now: Nanos) returns (r: Reply<Decision>)
      requires Valid()
      modifies this`plans, this`audit
      ensures Valid() && View() == After(env, old(View()), Submit(plan, newId, now))
      ensures r.Err? <==> SubmitError(env, old(View()), plan).Some?
      ensures r.Err? ==> Some(r.error) == SubmitError(env, old(View()), plan)
      ensures r.Ok? ==> r.value == Verdict(env.glob, policies[plan.orgId], Named(plan, newId))
    {
      StepKeeps(env, View(), Submit(plan, newId, now));
      if plan.proposerKind.OtherProposer? {
        return Err(BadProposer);
      }
      if plan.orgId !in policies {
        return Err(PolicyNotFound);
      }
      var pol := policies[plan.orgId];
      var e := Validate(pol, env.order(pol));
      if e.Some? {
        return Err(InvalidPolicy(e.value));
      }
      var named := plan;
      if named.id == ZERO_ID {
        named := named.(id := newId);
      }
      var d := Evaluate(pol, named);
      var failed := RecordSubmission(named, d, now);
      if failed.Some? {
        return Err(AuditFailed);
      }
      r := Ok(d);
    }

    /** Stores a changed plan and writes its row; audit failures are ignored. */
    method Store(id: Uuid, ghost was: PlanState, e: Effect, now: Nanos)
      requires EnvOk(env) && id in plans && plans[id] == was && e.Change?
      modifies this`plans, this`audit
      ensures View() == Applied(env, old(View()), id, e, now)
    {
      plans := plans[id := e.next];
      var _ := AppendAudit(e.next.policy.id, e.next.plan.id, e.kind, e.actor, e.actorKind, env.pay(e.detail), now);
    }

    method RecordDecision(b: Ballot, now: Nanos) returns (r: Reply<Tally>)
      requires Valid()
      modifies this`plans, this`audit
      ensures Valid() && View() == After(env, old(View()), Decide(b, now))
      ensures b.planId !in old(plans) ==> r == Err(NotFound) && plans == old(plans) && audit == old(audit)
      ensures b.planId in old(plans) ==>
                b.planId in plans && Answers(old(plans)[b.planId], b, now, r, plans[b.planId]) && plans == old(plans)[b.planId := plans[b.planId]]
      ensures b.planId in old(plans) ==>
                var note := VoteNote(old(plans)[b.planId], b, now);
                if note.None? then audit == old(audit)
                else Notes(env, old(audit), audit, old(plans)[b.planId].policy.id, b.planId, note.value, now)
    {
      StepKeeps(env, View(), Decide(b, now));
      if b.planId in plans {
        VoteFacts(env, View(), b, now);
      }
      if b.planId !in plans {
        return Err(NotFound);
      }
      r := CastVote(b, now);
    }

    method CastVote(b: Ballot, now: Nanos) returns (r: Reply<Tally>)
      requires EnvOk(env) && b.planId in plans
      modifies this`plans, this`audit
      ensures View() == Applied(env, old(View()), b.planId, Vote(old(plans)[b.planId], b, now), now)
      ensures r == VoteReply(old(plans)[b.planId], b, now)
    {
      var mp := plans[b.planId];
      if !mp.status.Pending? {
        return Err(AlreadyDecided);
      }
      if mp.expiresAt.Some? && now > mp.expiresAt.value {
        Store(b.planId, mp, Change(mp.(status := Expired), "expired", None, "system", Lapse), now);
        return Err(PlanExpired);
      }
      var entry := EnterVote(mp, b, now);
      if entry.Refused? {
        return Err(entry.error);
      }
      r := CountVotes(mp, entry.marked, entry.group, b, now);
    }

    /** Checks the ballot against the plan's current rung and enters it. */
    method EnterVote(mp: PlanState, b: Ballot, ghost now: Nanos) returns (entry: Entry)
      requires mp.status.Pending? && !Lapsed(mp, now)
      ensures entry.Refused? ==> Vote(mp, b, now) == Refuse(entry.error)
      ensures entry.Entered? ==> entry.marked == Marked(mp, b) && Vote(mp, b, now) == Count(entry.marked, entry.group, b)
    {
      if b.rung < 0 || b.rung >= |mp.ladder| || b.rung != mp.rung {
        return Refused(RungOutOfRange);
      }
      if mp.ladder[mp.rung].group !in mp.policy.groups {
        return Refused(Unauthorized);
      }
      var group := mp.policy.groups[mp.ladder[mp.rung].group];
      if b.actor !in group.humans {
        return Refused(Unauthorized);
      }
      if b.approve {
        return Entered(mp.(approvals := mp.approvals[b.rung := On(mp.approvals, b.rung) + {b.actor}]), group);
      }
      if b.reason == "" {
        return Refused(Unauthorized);
      }
      entry := Entered(mp.(rejections := mp.rejections[b.rung := On(mp.rejections, b.rung) + {b.actor}]), group);
    }

    method CountVotes(ghost was: PlanState, mp: PlanState, group: Group, b: Ballot, now: Nanos) returns (r: Reply<Tally>)
      requires EnvOk(env) && b.planId in plans && plans[b.planId] == was && mp.status.Pending?
      modifies this`plans, this`audit
      ensures View() == Applied(env, old(View()), b.planId, Count(mp, group, b), now)
      ensures r == Ok(Tally(Count(mp, group, b).next.status, Count(mp, group, b).next.status.Approved?,
                            |On(mp.approvals, b.rung)|, |On(mp.rejections, b.rung)|))
    {
      var approvals, rejections := |On(mp.approvals, b.rung)|, |On(mp.rejections, b.rung)|;
      if rejections > 0 {
        Store(b.planId, was, HumanChange(mp.(status := Rejected), "rejected", b.actor, Refusal(b.rung, b.reason)), now);
        return Ok(Tally(Rejected, false, approvals, rejections));
      }
      if approvals >= group.required {
        Store(b.planId, was, HumanChange(mp.(status := Approved), "approved", b.actor, Quorum(b.rung, approvals)), now);
        return Ok(Tally(Approved, true, approvals, rejections));
      }
      Store(b.planId, was, HumanChange(mp, "submitted", b.actor, Partial(b.rung, approvals)), now);
      r := Ok(Tally(Pending, false, approvals, rejections));
    }

    method EscalatePlan(id: Uuid, fromRung: int, reason: string, now: Nanos) returns (r: Reply<Escalation>)
      requires Valid()
      modifies this`plans, this`audit
      ensures Valid() && View() == After(env, old(View()), Escalate(id, fromRung, reason, now))
      ensures id !in old(plans) ==> r == Err(NotFound) && plans == old(plans) && audit == old(audit)
      ensures id in old(plans) ==> id in plans && Climbs(old(plans)[id], fromRung, r, plans[id]) && plans == old(plans)[id := plans[id]]
      ensures id in old(plans) ==>
                var note := ClimbNote(old(plans)[id], fromRung, reason);
                if note.None? then audit == old(audit)
                else Notes(env, old(audit), audit, old(plans)[id].policy.id, id, note.value, now)
      ensures r == if id in old(plans) then ElapseReply(old(plans)[id], fromRung, reason) else Err(NotFound)
    {
      StepKeeps(env, View(), Escalate(id, fromRung, reason, now));
      if id in plans {
        EscalationFacts(env, View(), id, fromRung, reason, now);
      }
      if id !in plans {
        return Err(NotFound);
      }
      r := ElapseRung(id, fromRung, reason, now);
    }

    method ElapseRung(id: Uuid, fromRung: int, reason: string, now: Nanos) returns (r: Reply<Escalation>)
      requires EnvOk(env) && id in plans && Indexable(plans[id])
      modifies this`plans, this`audit
      ensures View() == Applied(env, old(View()), id, Elapse(old(plans)[id], fromRung, reason), now)
      ensures r == ElapseReply(old(plans)[id], fromRung, reason)
    {
      var mp := plans[id];
      if !mp.status.Pending? {
        return Err(AlreadyDecided);
      }
      if fromRung != mp.rung {
        return Err(RungOutOfRange);
      }
      var onTimeout := mp.ladder[mp.rung].onTimeout;
      match onTimeout {
        case AutoDeny =>
          Store(id, mp, SystemChange(mp.(status := AutoDenied), "auto_denied", Denial(mp.rung, reason)), now);
          r := Ok(Escalation(mp.rung, onTimeout, true));
        case FallBack =>
          Store(id, mp, SystemChange(mp.(rung := mp.rung - 1), "escalated", Fallen(fromRung, mp.rung - 1)), now);
          r := Ok(Escalation(mp.rung - 1, onTimeout, false));
        case NotifyNext =>
          var next := mp.rung + 1;
          if next >= |mp.ladder| {
            Store(id, mp, SystemChange(mp.(status := AutoDenied), "auto_denied", Exhausted(mp.rung)), now);
            r := Ok(Escalation(mp.rung, onTimeout, true));
          } else {
            Store(id, mp, SystemChange(mp.(rung := next), "escalated", Raised(fromRung, next)), now);
            r := Ok(Escalation(next, onTimeout, false));
          }
        case OtherTimeout(_) =>
          r := Ok(Escalation(0, onTimeout, false));
      }
    }

    method GetPlanStatus(id: Uuid) returns (r: Reply<Status>)
      ensures r == if id in plans then Ok(plans[id].status) else Err(NotFound)
    {
      if id !in plans {
        return Err(NotFound);
      }
      r := Ok(plans[id].status);
    }
  }
}

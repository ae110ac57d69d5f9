/** The workflow side of approval: an activity that submits a plan, polls it, and
    escalates when a rung's deadline passes, while people vote concurrently. */
module ApprovalActivity {
  import opened Common
  import opened AuditChain
  import opened ApprovalPolicy
  import opened ApprovalPlan
  import opened ApprovalService
  import opened ApprovalMemory
  import opened ApprovalAnswers

  /** A step of anyone but the activity: it never escalates the activity's plan and
      never submits another plan under its id. */
  predicate ByOthers(id: Uuid, step: Step)
  {
    && (step.Escalate? ==> step.planId != id)
    && (step.Submit? ==> Named(step.plan, step.newId).id != id)
  }

  /** One turn of the polling loop: when the context is cancelled, what others do before
      each call reaches the service, and what the clocks read. */
  datatype Turn = Turn(
    cancelled: bool,
    beforePoll: seq<Step>,
    checkedAt: int,
    beforeEscalate: seq<Step>,
    escalatedAt: Nanos,
    enteredAt: int,
    cancelledAsleep: bool)

  predicate TurnByOthers(id: Uuid, t: Turn)
  {
    && (forall s | s in t.beforePoll :: ByOthers(id, s))
    && (forall s | s in t.beforeEscalate :: ByOthers(id, s))
  }

  datatype Outcome =
    | Finished(planId: Uuid, status: Status)
    | Cancelled
    | SubmitFailed(error: Error)
    | PollFailed
    | EscalateFailed(error: Error)
    | LadderExhausted
    | StillPolling

  /** What others can do to a plan: vote on its current rung, or let it lapse. */
  predicate Follows(a: PlanState, b: PlanState)
  {
    && a.ladder == b.ladder && a.rung == b.rung
    && (!a.status.Pending? ==> b == a)
  }

  lemma VoteFollows(ps: PlanState, b: Ballot, now: int)
    ensures Vote(ps, b, now).Change? ==> Follows(ps, Vote(ps, b, now).next)
  {
  }

  lemma OthersFollow(env: Env, s: Service, step: Step, id: Uuid)
    requires EnvOk(env) && Indexed(s) && id in s.plans && ByOthers(id, step)
    ensures id in After(env, s, step).plans && Follows(s.plans[id], After(env, s, step).plans[id])
  {
    if step.Decide? && step.ballot.planId == id {
      VoteFollows(s.plans[id], step.ballot, step.now);
    }
  }

  method Perform(svc: MemService, step: Step)
    requires svc.Valid()
    modifies svc
    ensures svc.Valid() && svc.View() == After(svc.env, old(svc.View()), step)
  {
    match step
    case Register(p) => var _ := svc.RegisterPolicy(p);
    case Submit(plan, newId, now) => var _ := svc.SubmitPlan(plan, newId, now);
    case Decide(b, now) => var _ := svc.RecordDecision(b, now);
    case Escalate(id, fromRung, reason, now) => var _ := svc.EscalatePlan(id, fromRung, reason, now);
  }

  /** The service after a sequence of steps. */
  ghost function AfterAll(env: Env, s: Service, steps: seq<Step>): Service
    requires EnvOk(env) && Inv(env, s)
    decreases |steps|
  {
    if steps == [] then s
    else
      StepKeeps(env, s, steps[0]);
      AfterAll(env, After(env, s, steps[0]), steps[1..])
  }

  lemma {:induction false} AfterAllKeeps(env: Env, s: Service, steps: seq<Step>)
    requires EnvOk(env) && Inv(env, s)
    ensures Inv(env, AfterAll(env, s, steps))
    decreases |steps|
  {
    if steps != [] {
      StepKeeps(env, s, steps[0]);
      AfterAllKeeps(env, After(env, s, steps[0]), steps[1..]);
    }
  }

  lemma AfterAllNext(env: Env, s: Service, steps: seq<Step>, i: nat)
    requires EnvOk(env) && Inv(env, s) && i < |steps|
    ensures Inv(env, After(env, s, steps[i]))
    ensures AfterAll(env, s, steps[i..]) == AfterAll(env, After(env, s, steps[i]), steps[i + 1..])
  {
    StepKeeps(env, s, steps[i]);
    assert steps[i..][1..] == steps[i + 1..];
  }

  method PerformAll(svc: MemService, steps: seq<Step>, ghost id: Uuid)
    requires svc.Valid() && id in svc.plans && forall s | s in steps :: ByOthers(id, s)
    modifies svc
    ensures svc.Valid() && svc.View() == AfterAll(svc.env, old(svc.View()), steps)
    ensures id in svc.plans && Follows(old(svc.plans[id]), svc.plans[id])
  {
    assert steps[0..] == steps;
    for i := 0 to |steps|
      invariant svc.Valid() && id in svc.plans && Follows(old(svc.plans[id]), svc.plans[id])
      invariant AfterAll(svc.env, old(svc.View()), steps) == AfterAll(svc.env, svc.View(), steps[i..])
    {
      OthersFollow(svc.env, svc.View(), steps[i], id);
      AfterAllNext(svc.env, svc.View(), steps, i);
      Perform(svc, steps[i]);
    }
  }

  // --------------------------------------------- the loop, as a specification

  /** What the loop head knows: the service, and the activity's rung and its entry time. */
  datatype Head = Head(service: Service, rung: int, enteredAt: int)

  predicate PendingIn(s: Service, id: Uuid) { id in s.plans && s.plans[id].status.Pending? }

  /** The service as the poll of this turn finds it. */
  ghost function Polled(env: Env, h: Head, t: Turn): Service
    requires EnvOk(env) && Inv(env, h.service)
  {
    AfterAll(env, h.service, t.beforePoll)
  }

  /** The service as an escalation of this turn would find it. */
  ghost function Met(env: Env, h: Head, t: Turn): Service
    requires EnvOk(env) && Inv(env, h.service)
  {
    AfterAllKeeps(env, h.service, t.beforePoll);
    AfterAll(env, Polled(env, h, t), t.beforeEscalate)
  }

  /** The rung's deadline has passed when the turn looks at the clock. */
  predicate Overdue(d: Decision, jitter: int, h: Head, t: Turn)
  {
    0 <= h.rung < |d.ladder| && t.checkedAt > h.enteredAt + d.ladder[h.rung].slaSeconds * 1_000_000_000 + jitter
  }

  /** The turn polls a pending plan, finds its deadline passed, and meets a decided plan
      when its escalation arrives. */
  ghost predicate Raced(env: Env, d: Decision, jitter: int, h: Head, t: Turn)
    requires EnvOk(env) && Inv(env, h.service)
  {
    && !t.cancelled && PendingIn(Polled(env, h, t), d.planId) && Overdue(d, jitter, h, t)
    && !PendingIn(Met(env, h, t), d.planId)
  }

  /** The head after an escalation of the plan as met: the plan's new rung, entered when
      the turn looked at the clock again, or the old head's if the plan is now decided. */
  ghost predicate Escalates(env: Env, d: Decision, met: Service, h: Head, t: Turn, next: Head)
    requires EnvOk(env) && Inv(env, met)
  {
    && next.service == After(env, met, Escalate(d.planId, h.rung, "sla_breach", t.escalatedAt))
    && d.planId in next.service.plans
    && var ps := next.service.plans[d.planId];
    && next.rung == (if ps.status.Pending? then ps.rung else h.rung)
    && next.enteredAt == (if ps.status.Pending? then t.enteredAt else h.enteredAt)
  }

  /** The turn leads from one loop head to the next. */
  ghost predicate Goes(env: Env, d: Decision, jitter: int, h: Head, t: Turn, next: Head)
    requires EnvOk(env) && Inv(env, h.service)
  {
    && !t.cancelled && PendingIn(Polled(env, h, t), d.planId)
    && if Overdue(d, jitter, h, t)
       then
         AfterAllKeeps(env, h.service, t.beforePoll);
         AfterAllKeeps(env, Polled(env, h, t), t.beforeEscalate);
         PendingIn(Met(env, h, t), d.planId) && Escalates(env, d, Met(env, h, t), h, t, next)
       else !t.cancelledAsleep && next == Head(Polled(env, h, t), h.rung, h.enteredAt)
  }

  /** The loop heads of a run of the loop over a schedule, each led to by the turn before. */
  ghost predicate Walked(env: Env, d: Decision, jitter: int, schedule: seq<Turn>, heads: seq<Head>)
    requires EnvOk(env)
    decreases |heads|
  {
    && 0 < |heads| <= |schedule| + 1 && Inv(env, heads[|heads| - 1].service)
    && var n := |heads| - 1;
    n > 0 ==> Walked(env, d, jitter, schedule, heads[..n]) && Goes(env, d, jitter, heads[n - 1], schedule[n - 1], heads[n])
  }

  /** One turn escalates exactly when it looks at the clock later than the rung's service
      level, in seconds, and the jitter after the rung was entered. */
  ghost predicate InTime(env: Env, d: Decision, jitter: int, h: Head, t: Turn, next: Head)
    requires EnvOk(env)
  {
    && Inv(env, h.service) && Inv(env, Met(env, h, t))
    && if 0 <= h.rung < |d.ladder| && t.checkedAt > h.enteredAt + d.ladder[h.rung].slaSeconds * 1_000_000_000 + jitter
       then Escalates(env, d, Met(env, h, t), h, t, next)
       else next == Head(Polled(env, h, t), h.rung, h.enteredAt)
  }

  lemma GoesInTime(env: Env, d: Decision, jitter: int, h: Head, t: Turn, next: Head)
    requires EnvOk(env) && Inv(env, h.service) && Goes(env, d, jitter, h, t, next)
    ensures InTime(env, d, jitter, h, t, next)
  {
    AfterAllKeeps(env, h.service, t.beforePoll);
    AfterAllKeeps(env, Polled(env, h, t), t.beforeEscalate);
  }

  lemma LastHeadKept(env: Env, d: Decision, jitter: int, schedule: seq<Turn>, heads: seq<Head>)
    requires EnvOk(env) && Walked(env, d, jitter, schedule, heads) && |heads| > 1
    ensures var n := |heads| - 1;
            Inv(env, heads[n - 1].service) && Goes(env, d, jitter, heads[n - 1], schedule[n - 1], heads[n])
  {
    var n := |heads| - 1;
    assert heads[..n][n - 1] == heads[n - 1];
  }

  lemma {:induction false} EscalatesWhenDue(env: Env, d: Decision, jitter: int, schedule: seq<Turn>, heads: seq<Head>, i: nat)
    requires EnvOk(env) && Walked(env, d, jitter, schedule, heads) && i < |heads| - 1
    ensures InTime(env, d, jitter, heads[i], schedule[i], heads[i + 1])
    decreases |heads|
  {
    var n := |heads| - 1;
    if i < n - 1 {
      var init := heads[..n];
      EscalatesWhenDue(env, d, jitter, schedule, init, i);
      assert init[i] == heads[i] && init[i + 1] == heads[i + 1];
    } else {
      LastHeadKept(env, d, jitter, schedule, heads);
      GoesInTime(env, d, jitter, heads[i], schedule[i], heads[i + 1]);
    }
  }

  /** The last turn the loop entered was raced. */
  ghost predicate LastRaced(env: Env, d: Decision, jitter: int, schedule: seq<Turn>, heads: seq<Head>)
    requires EnvOk(env) && Walked(env, d, jitter, schedule, heads)
  {
    |heads| <= |schedule| && Raced(env, d, jitter, heads[|heads| - 1], schedule[|heads| - 1])
  }

  /** The activity's copy of the rung is the service's, or the plan is decided. */
  ghost predicate InStep(svc: MemService, d: Decision, rung: int)
    reads svc
  {
    && d.planId in svc.plans && svc.plans[d.planId].ladder == d.ladder
    && 0 <= rung < |d.ladder|
    && (svc.plans[d.planId].status.Pending? ==> svc.plans[d.planId].rung == rung)
  }

  /** Submit, poll, escalate. Whatever the interleaving, the ladder is never exhausted
      undecided and polling never fails; an escalation fails exactly when the plan was
      decided between that turn's poll and its call. */
  method Execute(svc: MemService, plan: Plan, newId: Uuid, submittedAt: Nanos, startedAt: int, jitter: int,
                 schedule: seq<Turn>) returns (out: Outcome, ghost heads: seq<Head>)
    requires svc.Valid() && plan.id == ZERO_ID
    requires forall t | t in schedule :: TurnByOthers(newId, t)
    modifies svc
    ensures svc.Valid()
    ensures !out.LadderExhausted? && !out.PollFailed?
    ensures out.SubmitFailed? <==> SubmitError(svc.env, old(svc.View()), plan).Some?
    ensures out.Finished? ==> out.planId == newId && newId in svc.plans && svc.plans[newId].status == out.status
                              && !out.status.Pending?
    ensures out.EscalateFailed? ==> out.error == AlreadyDecided && newId in svc.plans && !svc.plans[newId].status.Pending?
    ensures SubmitError(svc.env, old(svc.View()), plan).None? ==>
              var d := Verdict(svc.env.glob, old(svc.policies)[plan.orgId], Named(plan, newId));
              if d.status.Pending? then
                && Walked(svc.env, d, jitter, schedule, heads)
                && heads[0] == Head(After(svc.env, old(svc.View()), Submit(plan, newId, submittedAt)), 0, startedAt)
                && (out.EscalateFailed? <==> LastRaced(svc.env, d, jitter, schedule, heads))
              else out == Finished(newId, d.status)
  {
    heads := [];
    if SubmitError(svc.env, svc.View(), plan).None? {
      SubmittedInStep(svc.env, svc.View(), plan, newId, submittedAt);
    }
    var r := svc.SubmitPlan(plan, newId, submittedAt);
    if r.Err? {
      return SubmitFailed(r.error), [];
    }
    var d := r.value;
    if !d.status.Pending? {
      return Finished(d.planId, d.status), [];
    }
    out, heads := Poll(svc, d, startedAt, jitter, schedule);
  }

  lemma SubmittedInStep(env: Env, s: Service, plan: Plan, newId: Uuid, now: Nanos)
    requires EnvOk(env) && Inv(env, s) && SubmitError(env, s, plan).None? && plan.id == ZERO_ID
    ensures var t := After(env, s, Submit(plan, newId, now));
            var d := Verdict(env.glob, s.policies[plan.orgId], Named(plan, newId));
            && d.planId == newId && newId in t.plans && t.plans[newId].rung == 0
            && t.plans[newId].ladder == d.ladder && t.plans[newId].status == d.status
            && (d.status.Pending? ==> d.ladder != [])
  {
    NewPlanOk(env.glob, s.policies[plan.orgId], Named(plan, newId), now);
    StepKeeps(env, s, Submit(plan, newId, now));
  }

  lemma WalkedOn(env: Env, d: Decision, jitter: int, schedule: seq<Turn>, heads: seq<Head>, next: Head)
    requires EnvOk(env) && Inv(env, next.service) && Walked(env, d, jitter, schedule, heads) && |heads| <= |schedule|
    requires Goes(env, d, jitter, heads[|heads| - 1], schedule[|heads| - 1], next)
    ensures Walked(env, d, jitter, schedule, heads + [next])
  {
    assert (heads + [next])[..|heads|] == heads;
  }

  method Poll(svc: MemService, d: Decision, startedAt: int, jitter: int, schedule: seq<Turn>)
    returns (out: Outcome, ghost heads: seq<Head>)
    requires svc.Valid() && InStep(svc, d, 0)
    requires forall t | t in schedule :: TurnByOthers(d.planId, t)
    modifies svc
    ensures svc.Valid() && d.planId in svc.plans
    ensures out.Finished? || out.Cancelled? || out.EscalateFailed? || out.StillPolling?
    ensures out.Finished? ==> out.planId == d.planId && svc.plans[d.planId].status == out.status && !out.status.Pending?
    ensures out.EscalateFailed? ==> out.error == AlreadyDecided && !svc.plans[d.planId].status.Pending?
    ensures Walked(svc.env, d, jitter, schedule, heads)
    ensures heads[0] == Head(old(svc.View()), 0, startedAt)
    ensures out.EscalateFailed? <==> LastRaced(svc.env, d, jitter, schedule, heads)
  {
    var rung, enteredAt := 0, startedAt;
    heads := [Head(svc.View(), rung, enteredAt)];
    for i := 0 to |schedule|
      invariant svc.Valid() && InStep(svc, d, rung)
      invariant |heads| == i + 1 && heads[i] == Head(svc.View(), rung, enteredAt)
      invariant Walked(svc.env, d, jitter, schedule, heads)
      invariant heads[0] == Head(old(svc.View()), 0, startedAt)
    {
      var stop, next, entered := TakeTurn(svc, d, rung, enteredAt, jitter, schedule[i]);
      if stop.Some? {
        return stop.value, heads;
      }
      rung, enteredAt := next, entered;
      WalkedOn(svc.env, d, jitter, schedule, heads, Head(svc.View(), rung, enteredAt));
      heads := heads + [Head(svc.View(), rung, enteredAt)];
    }
    out := StillPolling;
  }

  /** One turn of the loop: the reason to stop, or the rung and entry time to go on with. */
  method TakeTurn(svc: MemService, d: Decision, rung: int, enteredAt: int, jitter: int, t: Turn)
    returns (stop: Option<Outcome>, next: int, entered: int)
    requires svc.Valid() && InStep(svc, d, rung) && TurnByOthers(d.planId, t)
    modifies svc
    ensures svc.Valid() && d.planId in svc.plans
    ensures var h := Head(old(svc.View()), rung, enteredAt);
            if stop.None? then
              && InStep(svc, d, next)
              && Goes(svc.env, d, jitter, h, t, Head(svc.View(), next, entered))
            else
              && (stop.value.Finished? || stop.value.Cancelled? || stop.value.EscalateFailed?)
              && (stop.value.Finished? ==> stop.value.planId == d.planId && !stop.value.status.Pending?
                                           && svc.plans[d.planId].status == stop.value.status)
              && (stop.value.EscalateFailed? ==> stop.value.error == AlreadyDecided && !svc.plans[d.planId].status.Pending?)
              && (stop.value.EscalateFailed? <==> Raced(svc.env, d, jitter, h, t))
  {
    stop, next, entered := None, rung, enteredAt;
    if t.cancelled {
      return Some(Cancelled), next, entered;
    }
    PerformAll(svc, t.beforePoll, d.planId);
    var status := svc.GetPlanStatus(d.planId);
    if status.Err? {
      return Some(PollFailed), next, entered;
    }
    if !status.value.Pending? {
      return Some(Finished(d.planId, status.value)), next, entered;
    }
    if rung >= |d.ladder| {
      return Some(LadderExhausted), next, entered;
    }
    if t.checkedAt > enteredAt + d.ladder[rung].slaSeconds * 1_000_000_000 + jitter {
      stop, next, entered := EscalateTurn(svc, d, rung, enteredAt, t);
    } else if t.cancelledAsleep {
      return Some(Cancelled), next, entered;
    }
  }

  /** The overdue half of a turn: others act, then the escalation arrives. */
  method EscalateTurn(svc: MemService, d: Decision, rung: int, enteredAt: int, t: Turn)
    returns (stop: Option<Outcome>, next: int, entered: int)
    requires svc.Valid() && InStep(svc, d, rung) && forall s | s in t.beforeEscalate :: ByOthers(d.planId, s)
    modifies svc
    ensures svc.Valid() && d.planId in svc.plans
    ensures Inv(svc.env, AfterAll(svc.env, old(svc.View()), t.beforeEscalate))
    ensures var met := AfterAll(svc.env, old(svc.View()), t.beforeEscalate);
            && (stop.Some? <==> !PendingIn(met, d.planId))
            && (stop.Some? ==> stop == Some(EscalateFailed(AlreadyDecided)) && !svc.plans[d.planId].status.Pending?)
            && (stop.None? ==> InStep(svc, d, next))
            && (stop.None? ==> Escalates(svc.env, d, met, Head(met, rung, enteredAt), t, Head(svc.View(), next, entered)))
  {
    stop, next, entered := None, rung, enteredAt;
    AfterAllKeeps(svc.env, svc.View(), t.beforeEscalate);
    PerformAll(svc, t.beforeEscalate, d.planId);
    var e := EscalateFrom(svc, d, rung, t.escalatedAt);
    if e.Err? {
      return Some(EscalateFailed(e.error)), next, entered;
    }
    if !e.value.finalRung {
      next, entered := e.value.newRung, t.enteredAt;
    }
  }

  /** From the activity's rung, escalation is refused exactly when the plan is decided,
      and otherwise leaves the activity in step with the service. */
  method EscalateFrom(svc: MemService, d: Decision, rung: int, now: Nanos) returns (e: Reply<Escalation>)
    requires svc.Valid() && InStep(svc, d, rung)
    modifies svc
    ensures svc.Valid() && d.planId in svc.plans
    ensures e.Err? <==> !old(svc.plans[d.planId].status.Pending?)
    ensures e.Err? ==> e.error == AlreadyDecided && svc.plans[d.planId] == old(svc.plans[d.planId])
    ensures e.Ok? ==> InStep(svc, d, if e.value.finalRung then rung else e.value.newRung)
    ensures e.Ok? ==> (e.value.finalRung <==> !svc.plans[d.planId].status.Pending?)
    ensures e.Ok? && !e.value.finalRung ==> e.value.newRung == svc.plans[d.planId].rung
    ensures svc.View() == After(svc.env, old(svc.View()), Escalate(d.planId, rung, "sla_breach", now))
  {
    ElapseInStep(svc.plans[d.planId], rung);
    e := svc.EscalatePlan(d.planId, rung, "sla_breach", now);
  }

  lemma ElapseInStep(ps: PlanState, rung: int)
    requires PlanInv(ps) && (ps.status.Pending? ==> ps.rung == rung)
    ensures ElapseReply(ps, rung, "sla_breach").Err? <==> !ps.status.Pending?
    ensures !ps.status.Pending? ==> Elapse(ps, rung, "sla_breach") == Refuse(AlreadyDecided)
    ensures ps.status.Pending? ==>
              var e := Elapse(ps, rung, "sla_breach");
              && e.Change? && e.next.ladder == ps.ladder && 0 <= e.next.rung < |ps.ladder|
              && ElapseReply(ps, rung, "sla_breach").value.newRung == e.next.rung
              && ElapseReply(ps, rung, "sla_breach").value.finalRung == !e.next.status.Pending?
  {
    ElapseKeeps(ps, rung, "sla_breach");
    if ps.status.Pending? {
      assert !ps.ladder[ps.rung].onTimeout.OtherTimeout?;
    }
  }

  /** The race is real: a rejection that lands after the poll makes the escalation, and
      with it the activity, fail although no call was lost. */
  lemma RacingRejection(ps: PlanState, b: Ballot, now: int)
    requires PlanInv(ps) && ps.status.Pending? && !Lapsed(ps, now)
    requires b.rung == ps.rung && b.actor in Members(ps, ps.rung) && !b.approve && b.reason != ""
    ensures var e := Vote(ps, b, now);
            e.Change? && ElapseReply(e.next, ps.rung, "sla_breach") == Err(AlreadyDecided)
  {
    assert b.actor in On(Marked(ps, b).rejections, b.rung);
  }

  /** One approver, one rung, one hour of patience. */
  function LoneApprover(u: Uuid): Policy
  {
    Policy(u, u, "p", [Rule(AgentDefault, map[], None, [Rung("g", 1, AutoDeny)], 3600)],
           map["g" := Group("g", [u], 1)])
  }

  lemma LoneApproverIsWellFormed(u: Uuid)
    requires u != ZERO_ID
    ensures WellFormed(LoneApprover(u))
  {
    var p := LoneApprover(u);
    assert GroupOk("g", p.groups["g"]);
    assert RuleOk(p.groups, p.rules[0]);
  }

  function Rejection(u: Uuid, id: Uuid): Step { Decide(Ballot(id, u, false, "no", 0), 0) }

  /** One turn: the deadline has passed, and the approver rejects just before the call. */
  function RacedTurn(u: Uuid, id: Uuid): Turn { Turn(false, [], 1_000_000_001, [Rejection(u, id)], 0, 0, false) }

  method LoneService(env: Env, u: Uuid) returns (svc: MemService)
    requires EnvOk(env) && u != ZERO_ID
    ensures fresh(svc) && svc.env == env && svc.Valid() && svc.policies == map[u := LoneApprover(u)]
  {
    var p := LoneApprover(u);
    LoneApproverIsWellFormed(u);
    ValidateIff(p, env.order(p));
    svc := new MemService(env);
    var err := svc.RegisterPolicy(p);
  }

  /** A raced first turn is the last. */
  lemma RacedWalkStops(env: Env, d: Decision, jitter: int, turn: Turn, heads: seq<Head>)
    requires EnvOk(env) && Walked(env, d, jitter, [turn], heads)
    requires Inv(env, heads[0].service) && Raced(env, d, jitter, heads[0], turn)
    ensures LastRaced(env, d, jitter, [turn], heads)
  {
    assert |heads| == 1;
  }

  /** A whole execution that fails although no call is lost. */
  method RacedExecution(env: Env, u: Uuid, newId: Uuid) returns (out: Outcome)
    requires EnvOk(env) && u != ZERO_ID
    ensures out == EscalateFailed(AlreadyDecided)
  {
    var plan := Plan(ZERO_ID, u, u, Agent, []);
    var svc := LoneService(env, u);
    var turn := RacedTurn(u, newId);
    ghost var p, before := LoneApprover(u), svc.View();
    LoneVerdict(env, before, p, plan, newId);
    LoneRace(env, before, p, plan, newId);
    ghost var heads;
    out, heads := Execute(svc, plan, newId, 0, 0, 0, [turn]);
    RacedWalkStops(env, Decision(newId, Pending, 0, p.rules[0].ladder, 3600), 0, turn, heads);
  }

  lemma LoneVerdict(env: Env, s: Service, p: Policy, plan: Plan, newId: Uuid)
    requires EnvOk(env) && Inv(env, s) && p == LoneApprover(p.id) && s.policies == map[p.id := p]
    requires plan == Plan(ZERO_ID, p.id, p.id, Agent, [])
    ensures SubmitError(env, s, plan).None?
    ensures Verdict(env.glob, p, Named(plan, newId)) == Decision(newId, Pending, 0, p.rules[0].ladder, 3600)
  {
    SubmitErrorIff(env, s, plan);
    assert Fires(env.glob, p.rules[0], plan.actions, Agent);
  }

  lemma LonePlan(env: Env, s: Service, p: Policy, plan: Plan, newId: Uuid)
    requires EnvOk(env) && Inv(env, s) && p == LoneApprover(p.id) && s.policies == map[p.id := p]
    requires plan == Plan(ZERO_ID, p.id, p.id, Agent, [])
    ensures var t := After(env, s, Submit(plan, newId, 0));
            && Inv(env, t) && newId in t.plans
            && var ps := t.plans[newId];
            && PlanInv(ps) && ps.status.Pending? && ps.rung == 0 && !Lapsed(ps, 0) && p.id in Members(ps, 0)
  {
    LoneVerdict(env, s, p, plan, newId);
    StepKeeps(env, s, Submit(plan, newId, 0));
    var ps := After(env, s, Submit(plan, newId, 0)).plans[newId];
    assert ps == NewPlan(p, Named(plan, newId), Decision(newId, Pending, 0, p.rules[0].ladder, 3600), 0);
    assert p.id in GroupAt(ps, 0).humans;
  }

  lemma AfterOne(env: Env, s: Service, step: Step)
    requires EnvOk(env) && Inv(env, s)
    ensures AfterAll(env, s, [step]) == After(env, s, step)
  {
    StepKeeps(env, s, step);
    assert [step][1..] == [];
  }

  lemma RejectionDecides(env: Env, s: Service, b: Ballot, now: Nanos)
    requires EnvOk(env) && Inv(env, s) && b.planId in s.plans
    requires var ps := s.plans[b.planId];
             && ps.status.Pending? && !Lapsed(ps, now) && b.rung == ps.rung && b.actor in Members(ps, ps.rung)
    requires !b.approve && b.reason != ""
    ensures !PendingIn(After(env, s, Decide(b, now)), b.planId)
  {
    RacingRejection(s.plans[b.planId], b, now);
  }

  lemma LoneRace(env: Env, s: Service, p: Policy, plan: Plan, newId: Uuid)
    requires EnvOk(env) && Inv(env, s) && p == LoneApprover(p.id) && s.policies == map[p.id := p]
    requires plan == Plan(ZERO_ID, p.id, p.id, Agent, [])
    ensures var t := After(env, s, Submit(plan, newId, 0));
            && Inv(env, t)
            && Raced(env, Decision(newId, Pending, 0, p.rules[0].ladder, 3600), 0, Head(t, 0, 0), RacedTurn(p.id, newId))
  {
    LonePlan(env, s, p, plan, newId);
    var t := After(env, s, Submit(plan, newId, 0));
    RejectionDecides(env, t, Ballot(newId, p.id, false, "no", 0), 0);
    AfterOne(env, t, Rejection(p.id, newId));
    assert AfterAll(env, t, []) == t;
  }
}

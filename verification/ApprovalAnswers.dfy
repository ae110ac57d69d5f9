/** What the approval service answers, stores and writes down, case by case and without the
    transition functions: votes, escalations and submissions. */
module ApprovalAnswers {
  import opened Common
  import opened AuditChain
  import opened ApprovalPolicy
  import opened ApprovalPlan
  import opened ApprovalService

  /** What a vote returns: the counts on its rung, or the reason it was not counted. */
  function VoteReply(ps: PlanState, b: Ballot, now: int): Reply<Tally>
  {
    match Vote(ps, b, now)
    case Refuse(e) => Err(e)
    case Stay => Err(NotFound)
    case Change(next, _, _, _, _) =>
      if next.status.Expired? then Err(PlanExpired)
      else Ok(Tally(next.status, next.status.Approved?, |On(next.approvals, b.rung)|, |On(next.rejections, b.rung)|))
  }

  /** What an escalation returns: where the plan now stands and whether it is over. */
  function ElapseReply(ps: PlanState, fromRung: int, reason: string): Reply<Escalation>
    requires Indexable(ps)
  {
    match Elapse(ps, fromRung, reason)
    case Refuse(e) => Err(e)
    case Stay => Ok(Escalation(0, ps.ladder[ps.rung].onTimeout, false))
    case Change(next, _, _, _, _) =>
      Ok(Escalation(next.rung, ps.ladder[ps.rung].onTimeout, next.status.AutoDenied?))
  }

  // ------------------------------------------------------------ in full

  /** How a ballot on a plan is answered and what it leaves of it. */
  ghost predicate Answers(ps: PlanState, b: Ballot, now: Nanos, r: Reply<Tally>, next: PlanState)
    requires PlanInv(ps)
  {
    if !ps.status.Pending? then r == Err(AlreadyDecided) && next == ps
    else if ps.expiresAt.Some? && now > ps.expiresAt.value then r == Err(PlanExpired) && next == ps.(status := Expired)
    else if b.rung != ps.rung then r == Err(RungOutOfRange) && next == ps
    else if b.actor !in GroupAt(ps, ps.rung).humans || (!b.approve && b.reason == "") then r == Err(Unauthorized) && next == ps
    else
      var yes := if ps.rung in ps.approvals then ps.approvals[ps.rung] else {};
      if !b.approve then
        && r == Ok(Tally(Rejected, false, |yes|, 1))
        && next == ps.(status := Rejected, rejections := map[ps.rung := {b.actor}])
      else
        var passed := |yes + {b.actor}| >= GroupAt(ps, ps.rung).required;
        && r == Ok(Tally(if passed then Approved else Pending, passed, |yes + {b.actor}|, 0))
        && next == ps.(status := if passed then Approved else Pending, approvals := ps.approvals[ps.rung := yes + {b.actor}])
  }

  lemma VoteAnswers(ps: PlanState, b: Ballot, now: Nanos)
    requires PlanInv(ps)
    ensures var e := Vote(ps, b, now); Answers(ps, b, now, VoteReply(ps, b, now), if e.Change? then e.next else ps)
  {
    if ps.status.Pending? && !Lapsed(ps, now) && b.rung == ps.rung {
      var group := ps.policy.groups[ps.ladder[ps.rung].group];
      assert group == GroupAt(ps, ps.rung);
      if b.actor in group.humans && (b.approve || b.reason != "") {
        assert Vote(ps, b, now) == Count(Marked(ps, b), group, b);
        if b.approve {
          ApprovalCounted(ps, b, group);
        } else {
          RejectionCounted(ps, b, group);
        }
      }
    }
  }

  lemma ApprovalCounted(ps: PlanState, b: Ballot, group: Group)
    requires ps.status.Pending? && ps.rejections == map[] && b.approve && b.rung == ps.rung
    ensures var yes := On(ps.approvals, ps.rung) + {b.actor};
            var e := Count(Marked(ps, b), group, b);
            && e.Change? && On(e.next.approvals, b.rung) == yes && On(e.next.rejections, b.rung) == {}
            && e.next == ps.(status := if |yes| >= group.required then Approved else Pending, approvals := ps.approvals[ps.rung := yes])
  {
  }

  lemma RejectionCounted(ps: PlanState, b: Ballot, group: Group)
    requires ps.status.Pending? && ps.rejections == map[] && !b.approve && b.rung == ps.rung
    ensures var e := Count(Marked(ps, b), group, b);
            && e.Change? && On(e.next.rejections, b.rung) == {b.actor}
            && e.next == ps.(status := Rejected, rejections := map[ps.rung := {b.actor}])
  {
    assert On(ps.rejections, b.rung) + {b.actor} == {b.actor};
  }

  /** What a submission is answered, and what is stored for it: the first rule about the plan
      gates it, and no rule means approval. */
  ghost predicate Judges(glob: Glob, pol: Policy, plan: Plan, id: Uuid, now: Nanos, d: Decision, ps: PlanState)
  {
    && d.planId == id && ps.plan == plan.(id := id) && ps.policy == pol
    && ps.status == d.status && ps.rung == 0 && ps.approvals == map[] && ps.rejections == map[] && ps.ladder == d.ladder
    && if Ungated(glob, pol.rules, plan.actions, plan.proposerKind)
       then d.status.AutoApproved? && d.matched == -1 && d.ladder == [] && ps.expiresAt.None?
       else && d.status.Pending? && Gates(glob, pol.rules, plan.actions, plan.proposerKind, d.matched)
            && d.ladder == pol.rules[d.matched].ladder && d.expirySeconds == pol.rules[d.matched].expirySeconds
            && ps.expiresAt == Some(now + d.expirySeconds * 1_000_000_000)
  }

  lemma VerdictJudges(glob: Glob, pol: Policy, plan: Plan, newId: Uuid, now: Nanos)
    requires WellFormed(pol)
    ensures var named := Named(plan, newId);
            var d := Verdict(glob, pol, named);
            Judges(glob, pol, plan, if plan.id == ZERO_ID then newId else plan.id, now, d, NewPlan(pol, named, d, now))
  {
    FirstMatchGates(glob, pol.rules, plan.actions, plan.proposerKind);
    var k := FirstMatch(glob, pol.rules, plan.actions, plan.proposerKind);
    if k >= 0 {
      assert RuleOk(pol.groups, pol.rules[k]);
    }
  }

  // --------------------------------------------------------- escalations

  /** How an escalation of a plan is answered and what it leaves of it. */
  ghost predicate Climbs(ps: PlanState, fromRung: int, r: Reply<Escalation>, next: PlanState)
    requires PlanInv(ps)
  {
    if !ps.status.Pending? then r == Err(AlreadyDecided) && next == ps
    else if fromRung != ps.rung then r == Err(RungOutOfRange) && next == ps
    else
      var how := ps.ladder[ps.rung].onTimeout;
      if how == FallBack then r == Ok(Escalation(ps.rung - 1, how, false)) && next == ps.(rung := ps.rung - 1)
      else if how == NotifyNext && ps.rung + 1 < |ps.ladder| then
        r == Ok(Escalation(ps.rung + 1, how, false)) && next == ps.(rung := ps.rung + 1)
      else r == Ok(Escalation(ps.rung, how, true)) && next == ps.(status := AutoDenied)
  }

  lemma ElapseClimbs(ps: PlanState, fromRung: int, reason: string)
    requires PlanInv(ps)
    ensures var e := Elapse(ps, fromRung, reason); Climbs(ps, fromRung, ElapseReply(ps, fromRung, reason), if e.Change? then e.next else ps)
  {
    if ps.status.Pending? {
      assert !ps.ladder[ps.rung].onTimeout.OtherTimeout?;
    }
  }

  // ------------------------------------------------------------- the trail

  /** What a row says apart from its place in the chain. */
  datatype Note = Note(kind: string, actor: Option<Uuid>, actorKind: string, detail: Detail)

  /** The trail grows by one row, in this policy's chain and numbered after its last one, that
      says this of this plan. */
  ghost predicate Notes(env: Env, before: Chains, after: Chains, policyId: Uuid, planId: Uuid, note: Note, now: Nanos)
  {
    exists row ::
      && after == before[policyId := RowsOf(before, policyId) + [row]] && row.id == |RowsOf(before, policyId)| + 1
      && Says(env, row, policyId, planId, note, now)
  }

  ghost predicate Says(env: Env, row: Row, policyId: Uuid, planId: Uuid, note: Note, now: Nanos)
  {
    && row.policyId == policyId && row.planId == Some(planId) && row.createdAt == now && row.payload == env.pay(note.detail)
    && row.eventKind == note.kind && row.actorId == note.actor && row.actorKind == note.actorKind
  }

  /** What is written down of a ballot: nothing unless it changes the plan. */
  ghost function VoteNote(ps: PlanState, b: Ballot, now: Nanos): Option<Note>
    requires PlanInv(ps)
  {
    if !ps.status.Pending? then None
    else if ps.expiresAt.Some? && now > ps.expiresAt.value then Some(Note("expired", None, "system", Lapse))
    else if b.rung != ps.rung || b.actor !in GroupAt(ps, ps.rung).humans || (!b.approve && b.reason == "") then None
    else if !b.approve then Some(Note("rejected", Some(b.actor), "human", Refusal(ps.rung, b.reason)))
    else
      var yes := |(if ps.rung in ps.approvals then ps.approvals[ps.rung] else {}) + {b.actor}|;
      if yes >= GroupAt(ps, ps.rung).required then Some(Note("approved", Some(b.actor), "human", Quorum(ps.rung, yes)))
      else Some(Note("submitted", Some(b.actor), "human", Partial(ps.rung, yes)))
  }

  ghost function ClimbNote(ps: PlanState, fromRung: int, reason: string): Option<Note>
    requires PlanInv(ps)
  {
    if !ps.status.Pending? || fromRung != ps.rung then None
    else
      var how := ps.ladder[ps.rung].onTimeout;
      if how == FallBack then Some(Note("escalated", None, "system", Fallen(ps.rung, ps.rung - 1)))
      else if how == AutoDeny then Some(Note("auto_denied", None, "system", Denial(ps.rung, reason)))
      else if ps.rung + 1 < |ps.ladder| then Some(Note("escalated", None, "system", Raised(ps.rung, ps.rung + 1)))
      else Some(Note("auto_denied", None, "system", Exhausted(ps.rung)))
  }

  function SubmitNote(plan: Plan, id: Uuid, d: Decision): Note
  {
    Note(if d.status.AutoApproved? then "auto_approved_no_rule" else "submitted", Some(plan.proposerId),
         if plan.proposerKind.Agent? then "agent" else "service", Submission(id, d.matched, plan.proposerKind))
  }

  /** The effect is what the note says. */
  ghost predicate Matches(e: Effect, note: Option<Note>)
  {
    if e.Change? then note == Some(Note(e.kind, e.actor, e.actorKind, e.detail)) else note.None?
  }

  lemma VoteMatches(ps: PlanState, b: Ballot, now: Nanos)
    requires PlanInv(ps)
    ensures Matches(Vote(ps, b, now), VoteNote(ps, b, now))
  {
    if ps.status.Pending? && !Lapsed(ps, now) && b.rung == ps.rung {
      var group := ps.policy.groups[ps.ladder[ps.rung].group];
      assert group == GroupAt(ps, ps.rung);
      if b.actor in group.humans && (b.approve || b.reason != "") {
        assert Vote(ps, b, now) == Count(Marked(ps, b), group, b);
        if b.approve {
          ApprovalCounted(ps, b, group);
        } else {
          RejectionCounted(ps, b, group);
        }
      }
    }
  }

  lemma ClimbMatches(ps: PlanState, fromRung: int, reason: string)
    requires PlanInv(ps)
    ensures Matches(Elapse(ps, fromRung, reason), ClimbNote(ps, fromRung, reason))
  {
    if ps.status.Pending? {
      assert !ps.ladder[ps.rung].onTimeout.OtherTimeout?;
    }
  }

  lemma AppendNotes(env: Env, audit: Chains, policyId: Uuid, planId: Uuid, note: Note, now: Nanos)
    requires EnvOk(env)
    ensures Notes(env, audit,
                  Appended(env, audit, Unstamped(audit, policyId, planId, note.kind, note.actor, note.actorKind, env.pay(note.detail), now)),
                  policyId, planId, note, now)
  {
    var r := Unstamped(audit, policyId, planId, note.kind, note.actor, note.actorKind, env.pay(note.detail), now);
    assert Document(env.c, r.payload).Some?;
    var row := Stamped(env.h, env.c, LastHash(RowsOf(audit, policyId)), r).value;
    assert Says(env, row, policyId, planId, note, now);
  }

  /** A step that changes a plan is written down, and no other step on one. */
  lemma AppliedNotes(env: Env, s: Service, id: Uuid, e: Effect, now: Nanos, note: Option<Note>)
    requires EnvOk(env) && id in s.plans && s.plans[id].plan.id == id && Honest(s.plans[id], e) && Matches(e, note)
    ensures var after := Applied(env, s, id, e, now).audit;
            if note.None? then after == s.audit else Notes(env, s.audit, after, s.plans[id].policy.id, id, note.value, now)
  {
    if e.Change? {
      AppendNotes(env, s.audit, s.plans[id].policy.id, id, note.value, now);
    }
  }

  lemma SubmissionNotes(env: Env, s: Service, pol: Policy, plan: Plan, id: Uuid, d: Decision, now: Nanos)
    requires EnvOk(env) && plan.id == id && !plan.proposerKind.OtherProposer?
    ensures Notes(env, s.audit, Recorded(env, s, pol, plan, d, now).audit, pol.id, id, SubmitNote(plan, id, d), now)
  {
    AppendNotes(env, s.audit, pol.id, id, SubmitNote(plan, id, d), now);
  }
}

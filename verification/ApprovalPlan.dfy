/** One plan under approval: how a vote and an elapsed deadline change it, what every
    reachable plan satisfies, and how a plan nobody votes on ends. */
module ApprovalPlan {
  import opened Common
  import opened AuditChain
  import opened ApprovalPolicy

  datatype Status = Pending | Approved | Rejected | Expired | AutoApproved | AutoDenied

  datatype Plan = Plan(id: Uuid, orgId: Uuid, proposerId: Uuid, proposerKind: ProposerKind, actions: seq<Action>)

  /** Rung to the people who voted on it; a missing rung has no votes. */
  type Votes = map<int, set<Uuid>>

  function On(v: Votes, rung: int): set<Uuid> { if rung in v then v[rung] else {} }

  datatype PlanState = PlanState(
    plan: Plan,
    status: Status,
    rung: int,
    approvals: Votes,
    rejections: Votes,
    ladder: seq<Rung>,
    policy: Policy,
    expiresAt: Option<int>)

  datatype Ballot = Ballot(planId: Uuid, actor: Uuid, approve: bool, reason: string, rung: int)

  datatype Error =
    | NotFound | AlreadyDecided | PlanExpired | RungOutOfRange | Unauthorized
    | BadProposer | PolicyNotFound | InvalidPolicy(code: Code) | AuditFailed

  /** What the payload of an audit row records. */
  datatype Detail =
    | Submission(planId: Uuid, matched: int, proposer: ProposerKind)
    | Lapse
    | Refusal(rung: int, reason: string)
    | Quorum(rung: int, approvals: nat)
    | Partial(rung: int, approvals: nat)
    | Denial(rung: int, reason: string)
    | Exhausted(rung: int)
    | Fallen(fromRung: int, toRung: int)
    | Raised(fromRung: int, toRung: int)

  /** Nothing happens, or the plan changes and one audit row says so. */
  datatype Effect =
    | Refuse(error: Error)
    | Stay
    | Change(next: PlanState, kind: string, actor: Option<Uuid>, actorKind: string, detail: Detail)

  function SystemChange(next: PlanState, kind: string, detail: Detail): Effect
  {
    Change(next, kind, None, "system", detail)
  }

  function HumanChange(next: PlanState, kind: string, actor: Uuid, detail: Detail): Effect
  {
    Change(next, kind, Some(actor), "human", detail)
  }

  // ------------------------------------------------------------ transitions

  predicate Lapsed(ps: PlanState, now: int) { ps.expiresAt.Some? && now > ps.expiresAt.value }

  function Vote(ps: PlanState, b: Ballot, now: int): Effect
  {
    if !ps.status.Pending? then Refuse(AlreadyDecided)
    else if Lapsed(ps, now) then SystemChange(ps.(status := Expired), "expired", Lapse)
    else if !(0 <= b.rung < |ps.ladder|) || b.rung != ps.rung then Refuse(RungOutOfRange)
    else if ps.ladder[ps.rung].group !in ps.policy.groups then Refuse(Unauthorized)
    else
      var group := ps.policy.groups[ps.ladder[ps.rung].group];
      if b.actor !in group.humans then Refuse(Unauthorized)
      else if !b.approve && b.reason == "" then Refuse(Unauthorized)
      else Count(Marked(ps, b), group, b)
  }

  /** The plan with the ballot entered under its rung. */
  function Marked(ps: PlanState, b: Ballot): PlanState
  {
    if b.approve then ps.(approvals := ps.approvals[b.rung := On(ps.approvals, b.rung) + {b.actor}])
    else ps.(rejections := ps.rejections[b.rung := On(ps.rejections, b.rung) + {b.actor}])
  }

  /** One rejection blocks the plan; enough approvals on the rung pass it. */
  function Count(ps: PlanState, group: Group, b: Ballot): Effect
  {
    var approvals, rejections := |On(ps.approvals, b.rung)|, |On(ps.rejections, b.rung)|;
    if rejections > 0 then
      HumanChange(ps.(status := Rejected), "rejected", b.actor, Refusal(b.rung, b.reason))
    else if approvals >= group.required then
      HumanChange(ps.(status := Approved), "approved", b.actor, Quorum(b.rung, approvals))
    else
      HumanChange(ps, "submitted", b.actor, Partial(b.rung, approvals))
  }

  /** The ladder is indexed with the current rung while the plan is pending. */
  predicate Indexable(ps: PlanState) { ps.status.Pending? ==> 0 <= ps.rung < |ps.ladder| }

  function Elapse(ps: PlanState, fromRung: int, reason: string): Effect
    requires Indexable(ps)
  {
    if !ps.status.Pending? then Refuse(AlreadyDecided)
    else if fromRung != ps.rung then Refuse(RungOutOfRange)
    else
      match ps.ladder[ps.rung].onTimeout
      case AutoDeny => SystemChange(ps.(status := AutoDenied), "auto_denied", Denial(ps.rung, reason))
      case FallBack => SystemChange(ps.(rung := ps.rung - 1), "escalated", Fallen(fromRung, ps.rung - 1))
      case NotifyNext =>
        if ps.rung + 1 >= |ps.ladder| then SystemChange(ps.(status := AutoDenied), "auto_denied", Exhausted(ps.rung))
        else SystemChange(ps.(rung := ps.rung + 1), "escalated", Raised(fromRung, ps.rung + 1))
      case OtherTimeout(_) => Stay
  }

  // -------------------------------------------------------- the invariant

  ghost predicate Seated(ps: PlanState) { GroupsOk(ps.policy.groups) && LadderOk(ps.policy.groups, ps.ladder) }

  ghost function GroupAt(ps: PlanState, r: int): (g: Group)
    requires Seated(ps) && 0 <= r < |ps.ladder|
    ensures g.required > 0
  {
    ps.policy.groups[ps.ladder[r].group]
  }

  ghost function Members(ps: PlanState, r: int): set<Uuid>
    requires Seated(ps) && 0 <= r < |ps.ladder|
  {
    set u | u in GroupAt(ps, r).humans
  }

  ghost predicate RungVotesOk(ps: PlanState, r: int)
    requires Seated(ps)
  {
    0 <= r < |ps.ladder| && On(ps.approvals, r) <= Members(ps, r)
  }

  ghost predicate VotersAreMembers(ps: PlanState)
    requires Seated(ps)
  {
    forall r | r in ps.approvals :: RungVotesOk(ps, r)
  }

  /** No rung other than `passed` has its quorum. */
  ghost predicate Short(ps: PlanState, passed: int)
    requires Seated(ps)
  {
    forall r | 0 <= r < |ps.ladder| && r != passed :: |On(ps.approvals, r)| < GroupAt(ps, r).required
  }

  ghost predicate OneRejection(ps: PlanState)
    requires Seated(ps) && 0 <= ps.rung < |ps.ladder|
  {
    exists a | a in Members(ps, ps.rung) :: ps.rejections == map[ps.rung := {a}]
  }

  ghost predicate PlanInv(ps: PlanState)
  {
    && Seated(ps)
    && VotersAreMembers(ps)
    && (!ps.status.AutoApproved? ==> 0 <= ps.rung < |ps.ladder|)
    && Short(ps, if ps.status.Approved? then ps.rung else -1)
    && (if ps.status.Rejected? then OneRejection(ps) else ps.rejections == map[])
    && (ps.status.Approved? ==> |On(ps.approvals, ps.rung)| == GroupAt(ps, ps.rung).required)
    && (ps.status.AutoApproved? ==> ps.ladder == [] && ps.approvals == map[])
  }

  /** The identity of the plan and its policy never change. */
  predicate SamePlan(a: PlanState, b: PlanState)
  {
    a.plan == b.plan && a.policy == b.policy && a.ladder == b.ladder && a.expiresAt == b.expiresAt
  }

  /** The event kind an audit row carries when a plan reaches a terminal status. */
  function KindOf(s: Status): string
  {
    match s
    case Pending => "submitted"
    case Approved => "approved"
    case Rejected => "rejected"
    case Expired => "expired"
    case AutoApproved => "auto_approved_no_rule"
    case AutoDenied => "auto_denied"
  }

  const TERMINAL: set<string> := {"approved", "rejected", "expired", "auto_approved_no_rule", "auto_denied"}

  /** A change starts from a pending plan, and its row says "terminal" exactly when the
      plan leaves pending, naming the status it reaches. */
  ghost predicate Honest(ps: PlanState, e: Effect)
  {
    e.Change? ==>
      && ps.status.Pending? && SamePlan(ps, e.next) && !e.next.status.AutoApproved?
      && e.kind in EVENT_KINDS && e.actorKind in ACTOR_KINDS
      && (if e.next.status.Pending? then e.kind !in TERMINAL else e.kind == KindOf(e.next.status))
  }

  lemma CountHonest(ps: PlanState, group: Group, b: Ballot)
    requires ps.status.Pending?
    ensures Honest(ps, Count(ps, group, b))
  {
  }

  lemma VoteHonest(ps: PlanState, b: Ballot, now: int)
    ensures Honest(ps, Vote(ps, b, now))
  {
    var e := Vote(ps, b, now);
    if e.Change? && !Lapsed(ps, now) {
      var group := ps.policy.groups[ps.ladder[ps.rung].group];
      CountHonest(Marked(ps, b), group, b);
    }
  }

  lemma ElapseHonest(ps: PlanState, fromRung: int, reason: string)
    requires Indexable(ps)
    ensures Honest(ps, Elapse(ps, fromRung, reason))
  {
  }

  lemma ApproveKeeps(ps: PlanState, r: int, a: Uuid, next: PlanState)
    requires PlanInv(ps) && ps.status.Pending? && r == ps.rung && a in Members(ps, r)
    requires next == ps.(approvals := ps.approvals[r := On(ps.approvals, r) + {a}])
    ensures Seated(next) && VotersAreMembers(next) && Short(next, r)
    ensures |On(next.approvals, r)| <= GroupAt(ps, r).required
  {
    assert forall q :: q != r ==> On(next.approvals, q) == On(ps.approvals, q);
    assert r in ps.approvals ==> RungVotesOk(ps, r);
    forall q | q in next.approvals
      ensures RungVotesOk(next, q)
    {
      if q != r {
        assert RungVotesOk(ps, q);
      }
    }
  }

  lemma VoteKeeps(ps: PlanState, b: Ballot, now: int)
    requires PlanInv(ps)
    ensures Vote(ps, b, now).Change? ==> PlanInv(Vote(ps, b, now).next)
  {
    var e := Vote(ps, b, now);
    if e.Change? && !Lapsed(ps, now) {
      if b.approve {
        ApproveKeeps(ps, b.rung, b.actor, ps.(approvals := ps.approvals[b.rung := On(ps.approvals, b.rung) + {b.actor}]));
        SameVotes(ps.(approvals := e.next.approvals), e.next);
      } else {
        assert e.next.rejections == map[b.rung := {b.actor}];
        SameVotes(ps, e.next);
        assert b.actor in Members(e.next, e.next.rung);
      }
    } else if e.Change? {
      SameVotes(ps, e.next);
    }
  }

  lemma SameVotes(a: PlanState, b: PlanState)
    requires SamePlan(a, b) && a.approvals == b.approvals && Seated(a)
    ensures Seated(b)
    ensures VotersAreMembers(a) <==> VotersAreMembers(b)
    ensures forall p :: Short(a, p) <==> Short(b, p)
  {
    assert forall r | 0 <= r < |a.ladder| :: GroupAt(a, r) == GroupAt(b, r);
    assert forall r :: RungVotesOk(a, r) <==> RungVotesOk(b, r);
  }

  lemma ElapseKeeps(ps: PlanState, fromRung: int, reason: string)
    requires PlanInv(ps)
    ensures Elapse(ps, fromRung, reason).Change? ==> PlanInv(Elapse(ps, fromRung, reason).next)
  {
    var e := Elapse(ps, fromRung, reason);
    if e.Change? {
      SameVotes(ps, e.next);
    }
  }

  // ------------------------------------------------- a plan nobody votes on

  /** The current rung's deadline elapses; a decided plan stays as it is. */
  ghost function Next(ps: PlanState): PlanState
  {
    if !Indexable(ps) then ps
    else
      var e := Elapse(ps, ps.rung, "sla_breach");
      if e.Change? then e.next else ps
  }

  ghost function Unattended(ps: PlanState, n: nat): PlanState { Iterate(Next, ps, n) }

  ghost function Iterate<T>(f: T -> T, x: T, n: nat): T { if n == 0 then x else f(Iterate(f, x, n - 1)) }

  /** A sequence of states that starts and moves as the iteration does is the iteration. */
  lemma {:induction false} IterateIs<T>(f: T -> T, x: T, at: nat -> T, n: nat)
    requires at(0) == x && forall i: nat :: f(at(i)) == at(i + 1)
    ensures Iterate(f, x, n) == at(n)
  {
    if n > 0 {
      IterateIs(f, x, at, n - 1);
      assert f(at(n - 1)) == at(n);
    }
  }

  /** The first rung that does not simply notify the next one, or the ladder's length. */
  function FirstStop(ladder: seq<Rung>): (k: nat)
    ensures k <= |ladder|
    ensures forall i | 0 <= i < k :: ladder[i].onTimeout.NotifyNext?
    ensures k < |ladder| ==> !ladder[k].onTimeout.NotifyNext?
  {
    if ladder == [] || !ladder[0].onTimeout.NotifyNext? then 0 else 1 + FirstStop(ladder[1..])
  }

  datatype Standing = Standing(status: Status, rung: int)

  function StandingOf(ps: PlanState): Standing { Standing(ps.status, ps.rung) }

  /** One elapsed deadline, as a move on the ladder. */
  function Moved(ladder: seq<Rung>, at: Standing): Standing
    requires at.status.Pending? ==> 0 <= at.rung < |ladder|
  {
    if !at.status.Pending? then at
    else if ladder[at.rung].onTimeout.FallBack? then Standing(Pending, at.rung - 1)
    else if ladder[at.rung].onTimeout.AutoDeny? || at.rung + 1 == |ladder| then Standing(AutoDenied, at.rung)
    else Standing(Pending, at.rung + 1)
  }

  lemma NextMoves(ps: PlanState)
    requires LadderRuns(ps.ladder) && (ps.status.Pending? ==> 0 <= ps.rung < |ps.ladder|)
    ensures Next(ps) == WithStanding(ps, Moved(ps.ladder, StandingOf(ps)))
  {
  }

  /** Where a fresh plan stands after `n` elapsed deadlines. */
  function Fate(ladder: seq<Rung>, n: nat): Standing
  {
    var k := FirstStop(ladder);
    if k == |ladder| then
      if n < k then Standing(Pending, n) else Standing(AutoDenied, k - 1)
    else if n <= k then Standing(Pending, n)
    else if ladder[k].onTimeout.AutoDeny? then Standing(AutoDenied, k)
    else Standing(Pending, k - (n - k) % 2)
  }

  lemma FateMoves(ladder: seq<Rung>, n: nat)
    requires LadderRuns(ladder)
    ensures Fate(ladder, n).status.Pending? ==> 0 <= Fate(ladder, n).rung < |ladder|
    ensures Fate(ladder, n + 1) == Moved(ladder, Fate(ladder, n))
  {
  }

  /** The plan with another standing, all else equal. */
  function WithStanding(ps: PlanState, at: Standing): PlanState { ps.(status := at.status, rung := at.rung) }

  /** A ladder a plan can be opened on. */
  ghost predicate LadderRuns(ladder: seq<Rung>)
  {
    && ladder != [] && !ladder[0].onTimeout.FallBack?
    && forall i | 0 <= i < |ladder| :: !ladder[i].onTimeout.OtherTimeout?
  }

  lemma PlanLadderRuns(ps: PlanState)
    requires PlanInv(ps) && ps.status.Pending?
    ensures LadderRuns(ps.ladder)
  {
  }

  /** Unattended escalation, in closed form: denied after the first auto_deny rung, or
      at the end of an all-notify ladder, or swinging forever below a fall_back rung.
      Nothing but the status and the rung ever changes. */
  lemma UnattendedIsFate(ps: PlanState, n: nat)
    requires LadderRuns(ps.ladder) && ps.status.Pending? && ps.rung == 0
    ensures Unattended(ps, n) == WithStanding(ps, Fate(ps.ladder, n))
  {
    var at := (i: nat) => WithStanding(ps, Fate(ps.ladder, i));
    FateStarts(ps.ladder);
    forall i: nat
      ensures Next(at(i)) == at(i + 1)
    {
      FateStep(ps, i);
    }
    IterateIs(Next, ps, at, n);
  }

  lemma FateStarts(ladder: seq<Rung>)
    requires LadderRuns(ladder)
    ensures Fate(ladder, 0) == Standing(Pending, 0)
  {
  }

  lemma FateStep(ps: PlanState, n: nat)
    requires LadderRuns(ps.ladder)
    ensures Next(WithStanding(ps, Fate(ps.ladder, n))) == WithStanding(ps, Fate(ps.ladder, n + 1))
  {
    FateMoves(ps.ladder, n);
    NextMoves(WithStanding(ps, Fate(ps.ladder, n)));
  }

  /** Below a fall_back the plan swings for ever. */
  lemma FatePending(ladder: seq<Rung>, n: nat)
    requires var k := FirstStop(ladder); k < |ladder| && ladder[k].onTimeout.FallBack?
    ensures Fate(ladder, n).status.Pending?
  {
  }

  /** Otherwise it is denied once its first stop has elapsed. */
  lemma FateEnds(ladder: seq<Rung>)
    requires LadderRuns(ladder)
    requires var k := FirstStop(ladder); k < |ladder| ==> !ladder[k].onTimeout.FallBack?
    ensures Fate(ladder, FirstStop(ladder) + 1).status.AutoDenied?
  {
  }

  lemma SwingsForever(ps: PlanState, n: nat)
    requires PlanInv(ps) && ps.status.Pending? && ps.rung == 0
    requires var k := FirstStop(ps.ladder); k < |ps.ladder| && ps.ladder[k].onTimeout.FallBack?
    ensures Unattended(ps, n).status.Pending?
  {
    PlanLadderRuns(ps);
    UnattendedIsFate(ps, n);
    FatePending(ps.ladder, n);
  }

  lemma IsDenied(ps: PlanState)
    requires PlanInv(ps) && ps.status.Pending? && ps.rung == 0
    requires var k := FirstStop(ps.ladder); k < |ps.ladder| ==> !ps.ladder[k].onTimeout.FallBack?
    ensures Unattended(ps, FirstStop(ps.ladder) + 1).status.AutoDenied?
  {
    PlanLadderRuns(ps);
    UnattendedIsFate(ps, FirstStop(ps.ladder) + 1);
    FateEnds(ps.ladder);
  }

  /** A plan is left pending for ever exactly when its first stop is a fall_back. */
  lemma PendingForeverIff(ps: PlanState)
    requires PlanInv(ps) && ps.status.Pending? && ps.rung == 0
    ensures var k := FirstStop(ps.ladder);
            (forall n: nat :: Unattended(ps, n).status.Pending?) <==>
            k < |ps.ladder| && ps.ladder[k].onTimeout.FallBack?
  {
    var k := FirstStop(ps.ladder);
    if k < |ps.ladder| && ps.ladder[k].onTimeout.FallBack? {
      forall n: nat
        ensures Unattended(ps, n).status.Pending?
      {
        SwingsForever(ps, n);
      }
    } else {
      IsDenied(ps);
    }
  }
}

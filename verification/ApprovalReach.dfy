/** Whether a plan can still be approved: over every future of votes and elapsed
    deadlines of one plan, and over every run of the service. */
module ApprovalReach {
  import opened Common
  import opened AuditChain
  import opened ApprovalPolicy
  import opened ApprovalPlan
  import opened ApprovalService
  import opened ApprovalQuorum

  /** What can happen to a plan: a ballot at some time, or an escalation from some rung. */
  datatype Event = Cast(ballot: Ballot, at: int) | Elapsed(fromRung: int, reason: string)

  ghost function Then(ps: PlanState, ev: Event): PlanState
  {
    if ev.Elapsed? && !Indexable(ps) then ps
    else
      var e := if ev.Cast? then Vote(ps, ev.ballot, ev.at) else Elapse(ps, ev.fromRung, ev.reason);
      if e.Change? then e.next else ps
  }

  ghost function AfterEvents(ps: PlanState, evs: seq<Event>): PlanState
    decreases |evs|
  {
    if evs == [] then ps else AfterEvents(Then(ps, evs[0]), evs[1..])
  }

  ghost predicate From(evs: seq<Event>, now: int) { forall ev | ev in evs :: ev.Cast? ==> ev.at >= now }

  /** Some future from `now` on, of votes by anyone and escalations, approves the plan. */
  ghost predicate CanBeApproved(ps: PlanState, now: int)
  {
    exists evs: seq<Event> :: From(evs, now) && AfterEvents(ps, evs).status.Approved?
  }

  /** The group on this rung has as many distinct members as it requires. */
  ghost predicate Enough(ps: PlanState, r: int)
    requires Seated(ps)
  {
    0 <= r < |ps.ladder| && GroupAt(ps, r).required <= |Members(ps, r)|
  }

  /** Left alone, the plan comes to wait on this rung. */
  ghost predicate Visits(ps: PlanState, r: int)
  {
    exists k: nat :: WaitsOn(ps, k, r)
  }

  ghost predicate WaitsOn(ps: PlanState, k: nat, r: int)
  {
    Unattended(ps, k).status.Pending? && Unattended(ps, k).rung == r
  }

  // --------------------------------------------------------------- one event

  lemma ThenKeeps(ps: PlanState, ev: Event)
    requires PlanInv(ps)
    ensures PlanInv(Then(ps, ev)) && SamePlan(ps, Then(ps, ev))
    ensures !ps.status.Pending? ==> Then(ps, ev) == ps
  {
    if ev.Cast? {
      VoteKeeps(ps, ev.ballot, ev.at);
      VoteHonest(ps, ev.ballot, ev.at);
    } else {
      ElapseKeeps(ps, ev.fromRung, ev.reason);
      ElapseHonest(ps, ev.fromRung, ev.reason);
    }
  }

  /** A ballot leaves the plan on its rung. */
  lemma CastStands(ps: PlanState, b: Ballot, at: int)
    requires PlanInv(ps)
    ensures Then(ps, Cast(b, at)).rung == ps.rung
  {
    CastStays(ps, b, at, Then(ps, Cast(b, at)));
  }

  /** An escalation moves it as an elapsed deadline does, or not at all. */
  lemma ElapsedStands(ps: PlanState, fromRung: int, reason: string)
    requires PlanInv(ps) && ps.status.Pending?
    ensures var next := Then(ps, Elapsed(fromRung, reason));
            next == ps || StandingOf(next) == Moved(ps.ladder, StandingOf(ps))
  {
    if fromRung == ps.rung {
      PlanLadderRuns(ps);
    }
  }

  /** Where a plan left alone comes to wait, it comes to wait next where this one moves. */
  lemma VisitsNext(ps: PlanState, at: PlanState, k: nat)
    requires PlanInv(ps) && ps.status.Pending? && PlanInv(at) && at.status.Pending? && SamePlan(ps, at) && WaitsOn(ps, k, at.rung)
    ensures var next := Moved(at.ladder, StandingOf(at)); next.status.Pending? ==> WaitsOn(ps, k + 1, next.rung)
  {
    PlanLadderRuns(at);
    UnattendedSame(ps, k);
    NextMoves(Unattended(ps, k));
  }

  lemma {:induction false} UnattendedSame(ps: PlanState, k: nat)
    requires PlanInv(ps)
    ensures PlanInv(Unattended(ps, k)) && SamePlan(ps, Unattended(ps, k))
  {
    if k > 0 {
      UnattendedSame(ps, k - 1);
      NextIsThen(Unattended(ps, k - 1));
      ThenKeeps(Unattended(ps, k - 1), Deadline(Unattended(ps, k - 1)));
    }
  }

  function Deadline(ps: PlanState): Event { Elapsed(ps.rung, "sla_breach") }

  lemma NextIsThen(ps: PlanState)
    ensures Next(ps) == Then(ps, Deadline(ps))
  {
  }

  // -------------------------------------------------------------- necessity

  /** While it waits or once it is approved, the plan is on a rung the ladder leads to. */
  ghost predicate OnVisited(ps: PlanState, at: PlanState)
  {
    PlanInv(at) && SamePlan(ps, at) && (at.status.Pending? || at.status.Approved? ==> Visits(ps, at.rung))
  }

  lemma ThenVisited(ps: PlanState, at: PlanState, ev: Event)
    requires PlanInv(ps) && ps.status.Pending? && OnVisited(ps, at)
    ensures OnVisited(ps, Then(at, ev))
  {
    ThenKeeps(at, ev);
    if at.status.Pending? {
      if ev.Cast? {
        CastStands(at, ev.ballot, ev.at);
      } else {
        ElapsedStands(at, ev.fromRung, ev.reason);
      }
      var k: nat :| WaitsOn(ps, k, at.rung);
      VisitsNext(ps, at, k);
    }
  }

  lemma {:induction false} EventsVisited(ps: PlanState, at: PlanState, evs: seq<Event>)
    requires PlanInv(ps) && ps.status.Pending? && OnVisited(ps, at)
    ensures OnVisited(ps, AfterEvents(at, evs))
    decreases |evs|
  {
    if evs != [] {
      ThenVisited(ps, at, evs[0]);
      EventsVisited(ps, Then(at, evs[0]), evs[1..]);
    }
  }

  lemma ApprovedWasEnough(ps: PlanState, at: PlanState)
    requires PlanInv(ps) && OnVisited(ps, at) && at.status.Approved?
    ensures Visits(ps, at.rung) && Enough(ps, at.rung)
  {
    ApprovalNeedsDistinctMembers(at);
  }

  // ------------------------------------------------------------ sufficiency

  lemma Prepended(ps: PlanState, ev: Event, now: int)
    requires (ev.Cast? ==> ev.at >= now) && CanBeApproved(Then(ps, ev), now)
    ensures CanBeApproved(ps, now)
  {
    var evs: seq<Event> :| From(evs, now) && AfterEvents(Then(ps, ev), evs).status.Approved?;
    var all := [ev] + evs;
    assert all[1..] == evs;
    assert From(all, now);
  }

  /** The ballots of a voting, as events. */
  lemma {:induction false} VotingIsFuture(ps: PlanState, bs: seq<Ballot>, now: int, trace: seq<PlanState>)
    requires IsVoting(ps, bs, now, trace) && trace[|bs|].status.Approved?
    ensures CanBeApproved(ps, now)
    decreases |bs|
  {
    if bs == [] {
      assert From([], now) && AfterEvents(ps, []).status.Approved?;
    } else {
      assert Casts(trace[0], bs[0], now, trace[1]);
      forall i | 0 <= i < |bs| - 1
        ensures Casts(trace[1..][i], bs[1..][i], now, trace[1..][i + 1])
      {
        var n := i + 1;
        assert Casts(trace[n], bs[n], now, trace[n + 1]);
      }
      VotingIsFuture(trace[1], bs[1..], now, trace[1..]);
      Prepended(ps, Cast(bs[0], now), now);
    }
  }

  lemma {:induction false} VisitedThenApproved(ps: PlanState, k: nat, now: int)
    requires PlanInv(ps) && CanBeApproved(Unattended(ps, k), now)
    ensures CanBeApproved(ps, now)
  {
    if k > 0 {
      var before := Unattended(ps, k - 1);
      NextIsThen(before);
      Prepended(before, Deadline(before), now);
      VisitedThenApproved(ps, k - 1, now);
    }
  }

  lemma EnoughThenApproved(ps: PlanState, k: nat, r: int, now: int)
    requires PlanInv(ps) && !Lapsed(ps, now) && WaitsOn(ps, k, r) && Enough(ps, r)
    ensures CanBeApproved(ps, now)
  {
    UnattendedSame(ps, k);
    var at := Unattended(ps, k);
    MembersPass(at, now);
    var bs: seq<Ballot>, trace: seq<PlanState> :| IsVoting(at, bs, now, trace) && trace[|bs|].status.Approved?;
    VotingIsFuture(at, bs, now, trace);
    VisitedThenApproved(ps, k, now);
  }

  // ---------------------------------------------------------------- the results

  /** A pending plan can still be approved exactly when some rung that it waits on, now or
      after missed deadlines, has as many distinct members as it requires. */
  lemma CanBeApprovedIff(ps: PlanState, now: int)
    requires PlanInv(ps) && ps.status.Pending? && !Lapsed(ps, now)
    ensures CanBeApproved(ps, now) <==> exists r: int :: Visits(ps, r) && Enough(ps, r)
  {
    if CanBeApproved(ps, now) {
      var evs: seq<Event> :| From(evs, now) && AfterEvents(ps, evs).status.Approved?;
      assert WaitsOn(ps, 0, ps.rung);
      EventsVisited(ps, ps, evs);
      ApprovedWasEnough(ps, AfterEvents(ps, evs));
    }
    if r: int :| Visits(ps, r) && Enough(ps, r) {
      var k: nat :| WaitsOn(ps, k, r);
      EnoughThenApproved(ps, k, r, now);
    }
  }

  /** A plan on its first rung comes to wait on every rung up to the first that does not
      simply notify the next, and on no other. */
  lemma FreshVisitsIff(ps: PlanState, r: int)
    requires PlanInv(ps) && ps.status.Pending? && ps.rung == 0
    ensures Visits(ps, r) <==> 0 <= r <= FirstStop(ps.ladder) && r < |ps.ladder|
  {
    PlanLadderRuns(ps);
    if Visits(ps, r) {
      var k: nat :| WaitsOn(ps, k, r);
      UnattendedIsFate(ps, k);
      FateMoves(ps.ladder, k);
    }
    if 0 <= r <= FirstStop(ps.ladder) && r < |ps.ladder| {
      UnattendedIsFate(ps, r);
      assert WaitsOn(ps, r, r);
    }
  }

  /** A new plan can be approved exactly when some rung up to there has enough members. */
  lemma FreshCanBeApprovedIff(ps: PlanState, now: int)
    requires PlanInv(ps) && ps.status.Pending? && ps.rung == 0 && !Lapsed(ps, now)
    ensures CanBeApproved(ps, now) <==> exists r: int :: 0 <= r <= FirstStop(ps.ladder) && Enough(ps, r)
  {
    CanBeApprovedIff(ps, now);
    if r: int :| Visits(ps, r) && Enough(ps, r) {
      FreshVisitsIff(ps, r);
    }
    if r: int :| 0 <= r <= FirstStop(ps.ladder) && Enough(ps, r) {
      FreshVisitsIff(ps, r);
    }
  }

  /** In every run of the service, an approved plan had its quorum in distinct people. */
  lemma ApprovedInRun(env: Env, steps: seq<Step>, id: Uuid)
    requires EnvOk(env) && id in Run(env, steps).plans && Run(env, steps).plans[id].status.Approved?
    ensures var ps := Run(env, steps).plans[id]; PlanInv(ps) && Enough(ps, ps.rung)
  {
    RunKeeps(env, steps);
    ApprovalNeedsDistinctMembers(Run(env, steps).plans[id]);
  }

  /** So no run ever approves a plan under the policy that lists one person twice. */
  lemma TwiceListedNeverApproves(env: Env, steps: seq<Step>, id: Uuid, u: Uuid)
    requires EnvOk(env) && id in Run(env, steps).plans && Run(env, steps).plans[id].policy == TwiceListed(u)
    ensures !Run(env, steps).plans[id].status.Approved?
  {
    var ps := Run(env, steps).plans[id];
    if ps.status.Approved? {
      ApprovedInRun(env, steps, id);
      OneMember(ps, u);
    }
  }

  lemma OneMember(ps: PlanState, u: Uuid)
    requires Seated(ps) && 0 <= ps.rung < |ps.ladder| && ps.policy == TwiceListed(u)
    ensures !Enough(ps, ps.rung)
  {
    assert GroupAt(ps, ps.rung) == Group("g", [u, u], 2);
    assert Members(ps, ps.rung) == {u};
  }
}

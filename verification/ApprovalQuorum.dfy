/** When the votes on a rung can pass a plan: the exact condition, and a validated policy
    that does not meet it. */
module ApprovalQuorum {
  import opened Common
  import opened AuditChain
  import opened ApprovalPolicy
  import opened ApprovalPlan

  /** `next` is the plan after one ballot, counted or refused. */
  ghost predicate Casts(ps: PlanState, b: Ballot, now: int, next: PlanState)
  {
    var e := Vote(ps, b, now);
    next == if e.Change? then e.next else ps
  }

  /** `trace` is the plan as the ballots come in one after the other. */
  ghost predicate IsVoting(ps: PlanState, bs: seq<Ballot>, now: int, trace: seq<PlanState>)
  {
    && |trace| == |bs| + 1 && trace[0] == ps
    && forall i | 0 <= i < |bs| :: Casts(trace[i], bs[i], now, trace[i + 1])
  }

  /** Some sequence of ballots, of any kind and by anyone, approves the plan. */
  ghost predicate CanPass(ps: PlanState, now: int)
  {
    exists bs: seq<Ballot>, trace: seq<PlanState> :: IsVoting(ps, bs, now, trace) && trace[|bs|].status.Approved?
  }

  // ------------------------------------------------------------- necessity

  /** Any approved plan had its quorum in distinct people. Validation bounds the
      required count only by the length of the member list, which may repeat. */
  lemma ApprovalNeedsDistinctMembers(ps: PlanState)
    requires PlanInv(ps) && ps.status.Approved?
    ensures GroupAt(ps, ps.rung).required <= |Members(ps, ps.rung)|
  {
    assert ps.rung in ps.approvals;
    assert RungVotesOk(ps, ps.rung);
    SubsetCount(On(ps.approvals, ps.rung), Members(ps, ps.rung));
  }

  lemma SubsetCount<T>(a: set<T>, b: set<T>)
    requires a <= b
    ensures |a| <= |b|
  {
    assert b == a + (b - a);
  }

  lemma CastStays(ps: PlanState, b: Ballot, now: int, next: PlanState)
    requires PlanInv(ps) && Casts(ps, b, now, next)
    ensures PlanInv(next) && SamePlan(ps, next) && ps.rung == next.rung
  {
    VoteKeeps(ps, b, now);
  }

  /** Ballots never move a plan off its rung. */
  lemma {:induction false} VotingStays(ps: PlanState, bs: seq<Ballot>, now: int, trace: seq<PlanState>, n: nat)
    requires PlanInv(ps) && IsVoting(ps, bs, now, trace) && n <= |bs|
    ensures PlanInv(trace[n]) && SamePlan(ps, trace[n]) && ps.rung == trace[n].rung
  {
    if n > 0 {
      VotingStays(ps, bs, now, trace, n - 1);
      CastStays(trace[n - 1], bs[n - 1], now, trace[n]);
    }
  }

  lemma PassNeedsMembers(ps: PlanState, now: int)
    requires PlanInv(ps) && ps.status.Pending? && CanPass(ps, now)
    ensures GroupAt(ps, ps.rung).required <= |Members(ps, ps.rung)|
  {
    var bs: seq<Ballot>, trace: seq<PlanState> :| IsVoting(ps, bs, now, trace) && trace[|bs|].status.Approved?;
    VotingStays(ps, bs, now, trace, |bs|);
    ApprovalNeedsDistinctMembers(trace[|bs|]);
  }

  // ----------------------------------------------------------- sufficiency

  ghost predicate Distinct(us: seq<Uuid>) { forall i, j | 0 <= i < j < |us| :: us[i] != us[j] }

  function Approval(ps: PlanState, u: Uuid): Ballot { Ballot(ps.plan.id, u, true, "", ps.rung) }

  /** One more distinct member approves: the count grows by one, and the plan passes
      exactly when that meets the required count. */
  lemma ApprovalCounts(ps: PlanState, u: Uuid, now: int, next: PlanState)
    requires PlanInv(ps) && ps.status.Pending? && !Lapsed(ps, now) && Casts(ps, Approval(ps, u), now, next)
    requires u in Members(ps, ps.rung) && u !in On(ps.approvals, ps.rung)
    ensures On(next.approvals, ps.rung) == On(ps.approvals, ps.rung) + {u}
    ensures next.status ==
            if |On(ps.approvals, ps.rung)| + 1 == GroupAt(ps, ps.rung).required then Approved else Pending
  {
    var group := ps.policy.groups[ps.ladder[ps.rung].group];
    assert group == GroupAt(ps, ps.rung) && u in group.humans;
    assert |On(ps.approvals, ps.rung) + {u}| == |On(ps.approvals, ps.rung)| + 1;
    assert |On(ps.approvals, ps.rung)| < group.required;
  }

  lemma SameMembers(a: PlanState, b: PlanState)
    requires Seated(a) && SamePlan(a, b) && a.rung == b.rung && 0 <= a.rung < |a.ladder|
    ensures Seated(b) && Members(a, a.rung) == Members(b, b.rung) && GroupAt(a, a.rung) == GroupAt(b, b.rung)
  {
  }

  lemma FirstVote(ps: PlanState, u: Uuid, now: int) returns (next: PlanState)
    requires PlanInv(ps) && ps.status.Pending? && !Lapsed(ps, now)
    requires u in Members(ps, ps.rung) && u !in On(ps.approvals, ps.rung)
    ensures Casts(ps, Approval(ps, u), now, next) && PlanInv(next) && SamePlan(ps, next) && next.rung == ps.rung
    ensures On(next.approvals, ps.rung) == On(ps.approvals, ps.rung) + {u}
    ensures next.status ==
            if |On(ps.approvals, ps.rung)| + 1 == GroupAt(ps, ps.rung).required then Approved else Pending
    ensures Members(next, ps.rung) == Members(ps, ps.rung) && GroupAt(next, ps.rung) == GroupAt(ps, ps.rung)
  {
    var e := Vote(ps, Approval(ps, u), now);
    next := if e.Change? then e.next else ps;
    CastStays(ps, Approval(ps, u), now, next);
    ApprovalCounts(ps, u, now, next);
    SameMembers(ps, next);
  }

  lemma VotingFrom(ps: PlanState, b: Ballot, next: PlanState, bs: seq<Ballot>, now: int, trace: seq<PlanState>)
    requires Casts(ps, b, now, next) && IsVoting(next, bs, now, trace)
    ensures IsVoting(ps, [b] + bs, now, [ps] + trace)
  {
    var cs, t := [b] + bs, [ps] + trace;
    forall i | 0 <= i < |cs|
      ensures Casts(t[i], cs[i], now, t[i + 1])
    {
      if i > 0 {
        assert Casts(trace[i - 1], bs[i - 1], now, trace[i]);
      }
    }
  }

  /** `voters` are distinct members of the rung who have not approved it, and no more
      than it still lacks. */
  ghost predicate Eligible(ps: PlanState, voters: seq<Uuid>)
    requires Seated(ps) && 0 <= ps.rung < |ps.ladder|
  {
    && Distinct(voters)
    && (forall u | u in voters :: u in Members(ps, ps.rung) && u !in On(ps.approvals, ps.rung))
    && |On(ps.approvals, ps.rung)| + |voters| <= GroupAt(ps, ps.rung).required
  }

  /** The rung after all of them have approved it. */
  ghost predicate Counted(ps: PlanState, voters: seq<Uuid>, last: PlanState)
    requires Seated(ps) && 0 <= ps.rung < |ps.ladder|
  {
    && On(last.approvals, ps.rung) == On(ps.approvals, ps.rung) + (set u | u in voters)
    && last.status ==
       if |On(ps.approvals, ps.rung)| + |voters| == GroupAt(ps, ps.rung).required then Approved else Pending
  }

  lemma RestEligible(ps: PlanState, voters: seq<Uuid>, next: PlanState)
    requires Seated(ps) && Seated(next) && 0 <= ps.rung < |ps.ladder| && 0 <= next.rung < |next.ladder|
    requires voters != [] && Eligible(ps, voters) && next.rung == ps.rung
    requires Members(next, next.rung) == Members(ps, ps.rung) && GroupAt(next, next.rung) == GroupAt(ps, ps.rung)
    requires On(next.approvals, next.rung) == On(ps.approvals, ps.rung) + {voters[0]}
    ensures Eligible(next, voters[1..]) && |On(next.approvals, next.rung)| == |On(ps.approvals, ps.rung)| + 1
  {
    var rest := voters[1..];
    assert voters[0] in voters;
    assert forall i | 0 <= i < |rest| :: rest[i] == voters[i + 1];
    assert forall u | u in rest :: u in voters && u != voters[0];
  }

  lemma RestCounted(ps: PlanState, voters: seq<Uuid>, next: PlanState, last: PlanState)
    requires Seated(ps) && Seated(next) && 0 <= ps.rung < |ps.ladder| && 0 <= next.rung < |next.ladder|
    requires voters != [] && next.rung == ps.rung && GroupAt(next, next.rung) == GroupAt(ps, ps.rung)
    requires On(next.approvals, next.rung) == On(ps.approvals, ps.rung) + {voters[0]}
    requires |On(next.approvals, next.rung)| == |On(ps.approvals, ps.rung)| + 1
    requires Counted(next, voters[1..], last)
    ensures Counted(ps, voters, last)
  {
    assert voters == [voters[0]] + voters[1..];
    assert (set u | u in voters) == {voters[0]} + (set u | u in voters[1..]);
  }

  lemma NobodyCounted(ps: PlanState, last: PlanState)
    requires PlanInv(ps) && !ps.status.AutoApproved? && ps == last && ps.status.Pending?
    ensures Counted(ps, [], last)
  {
  }

  lemma LastVoter(ps: PlanState, voters: seq<Uuid>, next: PlanState)
    requires Seated(ps) && Seated(next) && 0 <= ps.rung < |ps.ladder| && 0 <= next.rung < |next.ladder|
    requires voters != [] && Eligible(ps, voters) && next.status.Approved?
    requires next.rung == ps.rung && GroupAt(next, next.rung) == GroupAt(ps, ps.rung)
    requires |On(next.approvals, next.rung)| == |On(ps.approvals, ps.rung)| + 1 == GroupAt(ps, ps.rung).required
    ensures voters[1..] == [] && Counted(next, voters[1..], next)
  {
  }

  /** `next` is one approval, by the first of `voters`, further than `ps`. */
  ghost predicate Follows(ps: PlanState, voters: seq<Uuid>, next: PlanState)
    requires voters != []
  {
    && Seated(ps) && Seated(next) && 0 <= ps.rung < |ps.ladder| && 0 <= next.rung < |next.ladder|
    && next.rung == ps.rung && GroupAt(next, next.rung) == GroupAt(ps, ps.rung)
    && On(next.approvals, next.rung) == On(ps.approvals, ps.rung) + {voters[0]}
    && |On(next.approvals, next.rung)| == |On(ps.approvals, ps.rung)| + 1
  }

  lemma Advance(ps: PlanState, voters: seq<Uuid>, now: int) returns (next: PlanState)
    requires PlanInv(ps) && ps.status.Pending? && !Lapsed(ps, now) && Eligible(ps, voters) && voters != []
    ensures Casts(ps, Approval(ps, voters[0]), now, next) && PlanInv(next) && !Lapsed(next, now)
    ensures Follows(ps, voters, next)
    ensures next.status.Approved? ==> voters[1..] == [] && Counted(next, voters[1..], next)
    ensures !next.status.Approved? ==> next.status.Pending? && Eligible(next, voters[1..])
  {
    assert voters[0] in voters;
    next := FirstVote(ps, voters[0], now);
    RestEligible(ps, voters, next);
    if next.status.Approved? {
      LastVoter(ps, voters, next);
    }
  }

  lemma Join(ps: PlanState, voters: seq<Uuid>, next: PlanState, now: int, cs: seq<Ballot>, t: seq<PlanState>)
    requires voters != [] && Follows(ps, voters, next) && Casts(ps, Approval(ps, voters[0]), now, next)
    requires |cs| == |voters| - 1 && IsVoting(next, cs, now, t) && Counted(next, voters[1..], t[|cs|])
    ensures IsVoting(ps, [Approval(ps, voters[0])] + cs, now, [ps] + t) && Counted(ps, voters, ([ps] + t)[|voters|])
  {
    VotingFrom(ps, Approval(ps, voters[0]), next, cs, now, t);
    RestCounted(ps, voters, next, t[|cs|]);
  }

  /** A pending rung passes after exactly as many further distinct members as it lacks,
      in whatever order they approve. */
  lemma {:induction false} QuorumReached(ps: PlanState, voters: seq<Uuid>, now: int)
    returns (bs: seq<Ballot>, trace: seq<PlanState>)
    requires PlanInv(ps) && ps.status.Pending? && !Lapsed(ps, now) && Eligible(ps, voters)
    ensures |bs| == |voters| && IsVoting(ps, bs, now, trace) && Counted(ps, voters, trace[|bs|])
    decreases |voters|
  {
    if voters == [] {
      bs, trace := [], [ps];
      NobodyCounted(ps, ps);
    } else {
      var next := Advance(ps, voters, now);
      var cs, t := [], [next];
      if !next.status.Approved? {
        cs, t := QuorumReached(next, voters[1..], now);
      }
      Join(ps, voters, next, now, cs, t);
      bs, trace := [Approval(ps, voters[0])] + cs, [ps] + t;
    }
  }

  lemma {:induction false} Enumerate(us: set<Uuid>, n: nat) returns (s: seq<Uuid>)
    requires n <= |us|
    ensures |s| == n && Distinct(s) && forall u | u in s :: u in us
    decreases n
  {
    if n == 0 {
      s := [];
    } else {
      assert us != {};
      var u :| u in us;
      var t := Enumerate(us - {u}, n - 1);
      s := t + [u];
    }
  }

  lemma MembersPass(ps: PlanState, now: int)
    requires PlanInv(ps) && ps.status.Pending? && !Lapsed(ps, now)
    requires GroupAt(ps, ps.rung).required <= |Members(ps, ps.rung)|
    ensures CanPass(ps, now)
  {
    var had, all := On(ps.approvals, ps.rung), Members(ps, ps.rung);
    assert had <= all by {
      assert ps.rung in ps.approvals ==> RungVotesOk(ps, ps.rung);
    }
    assert |all - had| == |all| - |had|;
    var voters := Enumerate(all - had, GroupAt(ps, ps.rung).required - |had|);
    assert Eligible(ps, voters);
    var bs, trace := QuorumReached(ps, voters, now);
    assert trace[|bs|].status.Approved?;
  }

  /** On any pending rung, some sequence of votes approves the plan exactly when the group
      has as many distinct members as it requires. */
  lemma CanPassIff(ps: PlanState, now: int)
    requires PlanInv(ps) && ps.status.Pending? && !Lapsed(ps, now)
    ensures CanPass(ps, now) <==> GroupAt(ps, ps.rung).required <= |Members(ps, ps.rung)|
  {
    if CanPass(ps, now) {
      PassNeedsMembers(ps, now);
    }
    if GroupAt(ps, ps.rung).required <= |Members(ps, ps.rung)| {
      MembersPass(ps, now);
    }
  }

  // ------------------------------------------------- a validated group, stuck

  /** One person listed twice in a group that requires two. */
  function TwiceListed(u: Uuid): Policy
  {
    Policy(u, u, "p", [Rule(AgentDefault, map[], None, [Rung("g", 1, AutoDeny)], 1)],
           map["g" := Group("g", [u, u], 2)])
  }

  /** Validation accepts it, and no sequence of votes ever approves a plan under it. */
  lemma ValidatedButStuck(u: Uuid, plan: Plan, expiresAt: Option<int>, now: int)
    requires u != ZERO_ID && (expiresAt.Some? ==> now <= expiresAt.value)
    ensures var p := TwiceListed(u);
            var ps := PlanState(plan, Pending, 0, map[], map[], p.rules[0].ladder, p, expiresAt);
            && WellFormed(p) && PlanInv(ps) && !CanPass(ps, now)
            && GroupAt(ps, 0).required == 2 && |Members(ps, 0)| == 1
  {
    var p := TwiceListed(u);
    var ps := PlanState(plan, Pending, 0, map[], map[], p.rules[0].ladder, p, expiresAt);
    assert GroupOk("g", p.groups["g"]);
    assert RuleOk(p.groups, p.rules[0]);
    assert Members(ps, 0) == {u};
    CanPassIff(ps, now);
  }
}

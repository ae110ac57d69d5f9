/** Times over whole runs of the outbox, read off the steps alone: when a row was marked
    processed, and why it is gone. */
module OutboxTimes {
  import opened Common
  import opened Outbox

  // ------------------------------------------------------- what the steps say

  /** The rows replica `p` has selected, and neither committed nor given up, before step `n`. */
  function Held(steps: seq<Step>, n: nat, p: Replica): Option<seq<Row>>
    requires n <= |steps|
  {
    if n == 0 then None
    else
      match steps[n - 1]
      case Select(q, _, batch) => if q == p then Some(batch) else Held(steps, n - 1, p)
      case Abort(q) => if q == p then None else Held(steps, n - 1, p)
      case Commit(q, _) => if q == p then None else Held(steps, n - 1, p)
      case _ => Held(steps, n - 1, p)
  }

  /** Step `i` commits a batch that holds the row. */
  ghost predicate Commits(steps: seq<Step>, i: nat, r: Row)
    requires i < |steps|
  {
    steps[i].Commit? && Held(steps, i, steps[i].p).Some? && r in Held(steps, i, steps[i].p).value
  }

  /** Step `k` deletes the row. */
  ghost predicate Deletes(steps: seq<Step>, k: nat, r: Row)
    requires k < |steps|
  {
    steps[k].Expire? && r.id in steps[k].victims
  }

  /** Some step before `n` commits the row, at `time`. */
  ghost predicate CommittedAt(steps: seq<Step>, n: nat, r: Row, time: int)
    requires n <= |steps|
  {
    exists i | 0 <= i < n :: Commits(steps, i, r) && steps[i].now == time
  }

  ghost predicate DeletedBefore(steps: seq<Step>, n: nat, r: Row)
    requires n <= |steps|
  {
    exists k | 0 <= k < n :: Deletes(steps, k, r)
  }

  /** Whenever the row is deleted, it was committed before, more than the TTL ago. */
  ghost predicate DeletedInTime(steps: seq<Step>, n: nat, r: Row)
    requires n <= |steps|
  {
    forall k | 0 <= k < n && Deletes(steps, k, r) ::
      exists time :: CommittedAt(steps, k, r, time) && time < steps[k].now - steps[k].ttl
  }

  // ----------------------------------------------------------------- prefixes

  ghost function At(steps: seq<Step>, n: nat): State
    requires n <= |steps| && Legal(EMPTY, steps[..n])
  {
    Run(EMPTY, steps[..n])
  }

  lemma {:induction false} LegalPrefix(s: State, steps: seq<Step>, n: nat)
    requires Legal(s, steps) && n < |steps|
    ensures Legal(s, steps[..n]) && Legal(s, steps[..n + 1])
    ensures Enabled(Run(s, steps[..n]), steps[n])
    ensures Run(s, steps[..n + 1]) == Apply(Run(s, steps[..n]), steps[n])
    decreases |steps|
  {
    if n == 0 {
      assert steps[..1] == [steps[0]] && steps[..1][1..] == [];
    } else {
      LegalPrefix(Apply(s, steps[0]), steps[1..], n - 1);
      assert steps[..n][1..] == steps[1..][..n - 1] && steps[..n + 1][1..] == steps[1..][..n];
    }
  }

  lemma PrefixLegal(steps: seq<Step>, n: nat)
    requires Legal(EMPTY, steps) && n <= |steps|
    ensures Legal(EMPTY, steps[..n]) && Inv(At(steps, n))
  {
    if n < |steps| {
      LegalPrefix(EMPTY, steps, n);
    } else {
      assert steps[..n] == steps;
    }
    RunKeeps(EMPTY, steps[..n]);
  }

  // ----------------------------------------------------------------- sessions

  /** What the steps say a replica holds is what its session has. */
  ghost predicate HoldsBatch(s: State, held: Option<seq<Row>>, p: Replica)
  {
    if p in s.sessions && s.sessions[p].Draining? then held == Some(s.sessions[p].batch) else held.None?
  }

  lemma HeldNext(s: State, step: Step, steps: seq<Step>, n: nat, p: Replica)
    requires n < |steps| && steps[n] == step && Enabled(s, step) && HoldsBatch(s, Held(steps, n, p), p)
    ensures HoldsBatch(Apply(s, step), Held(steps, n + 1, p), p)
  {
  }

  lemma {:induction false} HeldIsBatch(steps: seq<Step>, n: nat, p: Replica)
    requires Legal(EMPTY, steps) && n <= |steps|
    ensures Legal(EMPTY, steps[..n]) && HoldsBatch(At(steps, n), Held(steps, n, p), p)
  {
    PrefixLegal(steps, n);
    if n == 0 {
      assert steps[..0] == [];
    } else {
      HeldIsBatch(steps, n - 1, p);
      LegalPrefix(EMPTY, steps, n - 1);
      HeldNext(At(steps, n - 1), steps[n - 1], steps, n - 1, p);
    }
  }

  // --------------------------------------------------------------- the history

  /** What the table holds of an inserted row, in terms of the steps so far. */
  ghost predicate Explained(s: State, steps: seq<Step>, n: nat, r: Row)
    requires n <= |steps|
  {
    && (r.id !in s.table <==> DeletedBefore(steps, n, r))
    && (r.id in s.table ==>
          s.table[r.id].row == r && forall time :: s.table[r.id].processedAt == Some(time) <==> CommittedAt(steps, n, r, time))
  }

  ghost predicate History(s: State, steps: seq<Step>, n: nat, r: Row)
    requires n <= |steps|
  {
    r in s.inserted ==> Explained(s, steps, n, r) && DeletedInTime(steps, n, r)
  }

  lemma {:induction false} InsertedGrows(steps: seq<Step>, i: nat, n: nat)
    requires Legal(EMPTY, steps) && i <= n <= |steps|
    ensures Legal(EMPTY, steps[..i]) && Legal(EMPTY, steps[..n]) && At(steps, i).inserted <= At(steps, n).inserted
  {
    PrefixLegal(steps, i);
    PrefixLegal(steps, n);
    if i < n {
      InsertedGrows(steps, i, n - 1);
      LegalPrefix(EMPTY, steps, n - 1);
    }
  }

  /** The steps speak only of rows that were inserted. */
  lemma CommitsAreInserted(steps: seq<Step>, i: nat, n: nat, r: Row)
    requires Legal(EMPTY, steps) && i < n <= |steps| && Commits(steps, i, r)
    ensures Legal(EMPTY, steps[..n]) && r in At(steps, n).inserted
  {
    HeldIsBatch(steps, i, steps[i].p);
    PrefixLegal(steps, i);
    var s := At(steps, i);
    assert r in s.inserted[..s.sessions[steps[i].p].seen];
    InsertedGrows(steps, i, n);
  }

  lemma DeletesAreInserted(steps: seq<Step>, k: nat, n: nat, r: Row) returns (x: Row)
    requires Legal(EMPTY, steps) && k < n <= |steps| && Deletes(steps, k, r)
    ensures Legal(EMPTY, steps[..n]) && x in At(steps, n).inserted && x.id == r.id
  {
    PrefixLegal(steps, k);
    LegalPrefix(EMPTY, steps, k);
    x := At(steps, k).table[r.id].row;
    InsertedGrows(steps, k, n);
  }

  /** Nothing has happened to a row that is only now inserted. */
  lemma NothingYet(steps: seq<Step>, n: nat, r: Row)
    requires Legal(EMPTY, steps) && n < |steps| && steps[n] == Insert(r)
    ensures !DeletedBefore(steps, n, r) && forall time :: !CommittedAt(steps, n, r, time)
  {
    LegalPrefix(EMPTY, steps, n);
    if k :| 0 <= k < n && Deletes(steps, k, r) {
      var x := DeletesAreInserted(steps, k, n, r);
      assert false;
    }
    if i :| 0 <= i < n && Commits(steps, i, r) {
      CommitsAreInserted(steps, i, n, r);
      assert false;
    }
  }

  lemma CommittedNext(steps: seq<Step>, n: nat, r: Row, time: int)
    requires n < |steps|
    ensures CommittedAt(steps, n + 1, r, time) <==> CommittedAt(steps, n, r, time) || (Commits(steps, n, r) && steps[n].now == time)
  {
    var m := n + 1;
    if CommittedAt(steps, m, r, time) {
      var i :| 0 <= i < m && Commits(steps, i, r) && steps[i].now == time;
    }
  }

  lemma DeletedNext(steps: seq<Step>, n: nat, r: Row)
    requires n < |steps|
    ensures DeletedBefore(steps, n + 1, r) <==> DeletedBefore(steps, n, r) || Deletes(steps, n, r)
  {
    var m := n + 1;
    if DeletedBefore(steps, m, r) {
      var k :| 0 <= k < m && Deletes(steps, k, r);
    }
  }

  lemma InTimeNext(steps: seq<Step>, n: nat, r: Row)
    requires n < |steps| && DeletedInTime(steps, n, r)
    requires Deletes(steps, n, r) ==>
               exists time :: CommittedAt(steps, n, r, time) && time < steps[n].now - steps[n].ttl
    ensures DeletedInTime(steps, n + 1, r)
  {
  }

  lemma NextFacts(steps: seq<Step>, n: nat, r: Row)
    requires n < |steps|
    ensures forall time :: CommittedAt(steps, n + 1, r, time) <==> CommittedAt(steps, n, r, time) || (Commits(steps, n, r) && steps[n].now == time)
    ensures DeletedBefore(steps, n + 1, r) <==> DeletedBefore(steps, n, r) || Deletes(steps, n, r)
  {
    var m := n + 1;
    forall time
      ensures CommittedAt(steps, m, r, time) <==> CommittedAt(steps, n, r, time) || (Commits(steps, n, r) && steps[n].now == time)
    {
      CommittedNext(steps, n, r, time);
    }
    DeletedNext(steps, n, r);
  }

  /** An insertion. */
  lemma InsertHistory(s: State, steps: seq<Step>, n: nat, r: Row)
    requires n < |steps| && Inv(s) && Enabled(s, steps[n]) && steps[n].Insert? && History(s, steps, n, r)
    requires steps[n] == Insert(r) ==> !DeletedBefore(steps, n, r) && forall time :: !CommittedAt(steps, n, r, time)
    ensures History(Apply(s, steps[n]), steps, n + 1, r)
  {
    NextFacts(steps, n, r);
    var t, row := Apply(s, steps[n]).table, steps[n].row;
    if row == r {
      assert steps[n] == Insert(r);
      assert DeletedInTime(steps, n, r);
      InTimeNext(steps, n, r);
      assert t[r.id] == Stored(r, None);
      assert !Commits(steps, n, r) && !Deletes(steps, n, r);
      var m := n + 1;
      forall time
        ensures !CommittedAt(steps, m, r, time)
      {
        CommittedNext(steps, n, r, time);
      }
      assert Explained(Apply(s, steps[n]), steps, m, r);
    } else if r in s.inserted {
      InTimeNext(steps, n, r);
      assert r.id != row.id;
      assert r.id in t <==> r.id in s.table;
      assert r.id in t ==> t[r.id] == s.table[r.id];
    }
  }

  /** Steps that leave the table alone. */
  lemma QuietHistory(s: State, steps: seq<Step>, n: nat, r: Row)
    requires n < |steps| && Enabled(s, steps[n]) && History(s, steps, n, r)
    requires !steps[n].Insert? && !steps[n].Commit? && !steps[n].Expire?
    ensures History(Apply(s, steps[n]), steps, n + 1, r)
  {
    NextFacts(steps, n, r);
    if r in s.inserted {
      InTimeNext(steps, n, r);
    }
  }

  /** A commit stamps its time on exactly the rows of its batch. */
  lemma CommitMarks(s: State, p: Replica, now: int, r: Row)
    requires Inv(s) && Enabled(s, Commit(p, now)) && r in s.inserted && r.id in s.table && s.table[r.id].row == r
    ensures var t := Apply(s, Commit(p, now)).table;
            && r.id in t && t[r.id].row == r
            && t[r.id].processedAt == if r in s.sessions[p].batch then Some(now) else s.table[r.id].processedAt
    ensures r in s.sessions[p].batch ==> s.table[r.id].processedAt.None?
  {
    var batch := s.sessions[p].batch;
    if r.id in Ids(batch) {
      var b :| b in batch && b.id == r.id;
      assert Unprocessed(s.table, b);
    }
  }

  lemma CommitHistory(s: State, steps: seq<Step>, n: nat, r: Row)
    requires n < |steps| && Inv(s) && Enabled(s, steps[n]) && steps[n].Commit? && History(s, steps, n, r)
    requires HoldsBatch(s, Held(steps, n, steps[n].p), steps[n].p)
    ensures History(Apply(s, steps[n]), steps, n + 1, r)
  {
    NextFacts(steps, n, r);
    var batch := s.sessions[steps[n].p].batch;
    assert Commits(steps, n, r) <==> r in batch;
    if r in s.inserted {
      InTimeNext(steps, n, r);
      if r.id in s.table {
        CommitMarks(s, steps[n].p, steps[n].now, r);
      } else {
        assert r !in batch;
      }
    }
  }

  lemma ExpireHistory(s: State, steps: seq<Step>, n: nat, r: Row)
    requires n < |steps| && Inv(s) && Enabled(s, steps[n]) && steps[n].Expire? && History(s, steps, n, r)
    ensures History(Apply(s, steps[n]), steps, n + 1, r)
  {
    NextFacts(steps, n, r);
    if r in s.inserted {
      if Deletes(steps, n, r) {
        assert s.table[r.id].row == r;
        assert CommittedAt(steps, n, r, s.table[r.id].processedAt.value);
      }
      InTimeNext(steps, n, r);
    }
  }

  lemma {:induction false} HistoryAt(steps: seq<Step>, n: nat, r: Row)
    requires Legal(EMPTY, steps) && n <= |steps|
    ensures Legal(EMPTY, steps[..n]) && History(At(steps, n), steps, n, r)
  {
    PrefixLegal(steps, n);
    if n == 0 {
      assert steps[..0] == [];
    } else {
      var m := n - 1;
      HistoryAt(steps, m, r);
      PrefixLegal(steps, m);
      LegalPrefix(EMPTY, steps, m);
      match steps[m]
      case Insert(x) =>
        NothingYet(steps, m, x);
        InsertHistory(At(steps, m), steps, m, r);
      case Commit(p, _) =>
        HeldIsBatch(steps, m, p);
        CommitHistory(At(steps, m), steps, m, r);
      case Expire(_, _, _) => ExpireHistory(At(steps, m), steps, m, r);
      case _ => QuietHistory(At(steps, m), steps, m, r);
    }
  }

  // --------------------------------------------------------------- the results

  /** The row has been inserted. */
  ghost predicate Inserts(steps: seq<Step>, r: Row) { exists i | 0 <= i < |steps| :: steps[i] == Insert(r) }

  lemma {:induction false} InsertedIff(s: State, steps: seq<Step>, r: Row)
    requires Legal(s, steps)
    ensures r in Run(s, steps).inserted <==> r in s.inserted || Inserts(steps, r)
    decreases |steps|
  {
    if |steps| > 0 {
      InsertedIff(Apply(s, steps[0]), steps[1..], r);
      assert steps == [steps[0]] + steps[1..];
      if Inserts(steps, r) && steps[0] != Insert(r) {
        var i :| 0 <= i < |steps| && steps[i] == Insert(r);
        assert steps[1..][i - 1] == Insert(r);
      }
      if i :| 0 <= i < |steps[1..]| && steps[1..][i] == Insert(r) {
        var j := i + 1;
        assert steps[j] == Insert(r);
      }
    }
  }

  /** In every run an inserted row is in the table until a step deletes it, and carries a
      processing time exactly when a commit of a batch that holds it had that time. */
  lemma ProcessedWhenCommitted(steps: seq<Step>, r: Row)
    requires Legal(EMPTY, steps) && Inserts(steps, r)
    ensures var t := Run(EMPTY, steps).table;
            && (r.id in t <==> forall k | 0 <= k < |steps| :: !(steps[k].Expire? && r.id in steps[k].victims))
            && (r.id in t ==> t[r.id].row == r)
            && (r.id in t ==> forall time :: t[r.id].processedAt == Some(time) <==> CommittedAt(steps, |steps|, r, time))
  {
    var n := |steps|;
    HistoryAt(steps, n, r);
    InsertedIff(EMPTY, steps, r);
    assert steps[..n] == steps;
    assert forall k | 0 <= k < n :: Deletes(steps, k, r) <==> steps[k].Expire? && r.id in steps[k].victims;
  }

  /** Whatever deletes it comes more than its TTL after that commit. */
  lemma DeletedAfterTtl(steps: seq<Step>, r: Row, k: nat)
    requires Legal(EMPTY, steps) && Inserts(steps, r)
    requires k < |steps| && steps[k].Expire? && r.id in steps[k].victims
    ensures exists i | 0 <= i < k :: Commits(steps, i, r) && steps[i].now < steps[k].now - steps[k].ttl
  {
    var n := |steps|;
    HistoryAt(steps, n, r);
    InsertedIff(EMPTY, steps, r);
    assert steps[..n] == steps;
    assert Deletes(steps, k, r);
    var time :| CommittedAt(steps, k, r, time) && time < steps[k].now - steps[k].ttl;
    var i :| 0 <= i < k && Commits(steps, i, r) && steps[i].now == time;
  }

  /** And any set of rows processed that long ago may be deleted. */
  lemma ExpireIff(s: State, victims: set<int>, now: int, ttl: int)
    ensures Enabled(s, Expire(victims, now, ttl)) <==>
            forall id | id in victims :: id in s.table && s.table[id].processedAt.Some? && s.table[id].processedAt.value < now - ttl
  {
  }

  /** No row is committed twice. */
  lemma CommittedOnce(steps: seq<Step>, r: Row, i: nat, j: nat)
    requires Legal(EMPTY, steps) && i < |steps| && j < |steps| && Commits(steps, i, r) && Commits(steps, j, r)
    ensures i == j
  {
    if i < j {
      NotCommittedAgain(steps, r, i, j);
    } else if j < i {
      NotCommittedAgain(steps, r, j, i);
    }
  }

  lemma NotCommittedAgain(steps: seq<Step>, r: Row, i: nat, j: nat)
    requires Legal(EMPTY, steps) && i < j < |steps| && Commits(steps, i, r)
    ensures !Commits(steps, j, r)
  {
    if Commits(steps, j, r) {
      HeldIsBatch(steps, j, steps[j].p);
      CommitsAreInserted(steps, i, j, r);
      HistoryAt(steps, j, r);
      PrefixLegal(steps, j);
      assert Unprocessed(At(steps, j).table, r);
      assert CommittedAt(steps, j, r, steps[i].now);
      assert false;
    }
  }
}

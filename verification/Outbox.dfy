/** The transactional outbox as a protocol: writers insert rows, any number of
    drain replicas compete for an advisory lock, publish in key order and mark
    rows processed, and an expirer deletes old processed rows.  Publishing may
    fail after any prefix and a replica may crash anywhere before its commit. */
module Outbox {
  import opened Common

  datatype Event = Event(eventId: string, bytes: int)

  datatype Row = Row(id: int, createdAt: int, event: Event)

  datatype Stored = Stored(row: Row, processedAt: Option<int>)

  type Table = map<int, Stored>

  type Replica = nat

  /** `ORDER BY created_at, id`. */
  predicate Before(a: Row, b: Row)
  {
    a.createdAt < b.createdAt || (a.createdAt == b.createdAt && a.id < b.id)
  }

  predicate Unprocessed(t: Table, r: Row)
  {
    r.id in t && t[r.id] == Stored(r, None)
  }

  /** The result of the drain query: the first rows, in key order, among the
      unprocessed ones, at most `limit` of them and fewer only if there are no more. */
  ghost predicate IsBatch(t: Table, limit: nat, batch: seq<Row>)
  {
    && |batch| <= limit
    && (forall i | 0 <= i < |batch| :: Unprocessed(t, batch[i]))
    && (forall i, j | 0 <= i < j < |batch| :: Before(batch[i], batch[j]))
    && (forall id | id in t && t[id].processedAt.None? && t[id].row !in batch ::
          |batch| == limit && forall b | b in batch :: Before(b, t[id].row))
  }

  function MarkProcessed(t: Table, ids: set<int>, now: int): Table
  {
    map id | id in t :: if id in ids then t[id].(processedAt := Some(now)) else t[id]
  }

  predicate Eligible(e: Stored, now: int, ttl: int)
  {
    e.processedAt.Some? && e.processedAt.value < now - ttl
  }

  // ------------------------------------------------------------ protocol

  /** A published row, stamped with how many rows were visible to its SELECT. */
  datatype Message = Message(row: Row, seen: nat)

  /** An open drain transaction. */
  datatype Session = Locked | Draining(batch: seq<Row>, sent: nat, seen: nat)

  /** `inserted` is the history of rows in the order they became visible. */
  datatype State = State(
    table: Table, lock: Option<Replica>, sessions: map<Replica, Session>, topic: seq<Message>, inserted: seq<Row>)

  datatype Step =
    | Insert(row: Row)
    | TryLock(p: Replica)
    | Select(p: Replica, limit: nat, batch: seq<Row>)
    | PublishNext(p: Replica)
    | Abort(p: Replica)
    | Commit(p: Replica, now: int)
    | Expire(victims: set<int>, now: int, ttl: int)

  const EMPTY := State(map[], None, map[], [], [])

  ghost predicate Enabled(s: State, step: Step)
  {
    match step
    case Insert(row) => forall r | r in s.inserted :: r.id != row.id
    case TryLock(p) => p !in s.sessions
    case Select(p, limit, batch) => p in s.sessions && s.sessions[p].Locked? && IsBatch(s.table, limit, batch)
    case PublishNext(p) => p in s.sessions && s.sessions[p].Draining? && s.sessions[p].sent < |s.sessions[p].batch|
    case Abort(p) => p in s.sessions
    case Commit(p, _) => p in s.sessions && s.sessions[p].Draining? && s.sessions[p].sent == |s.sessions[p].batch|
    case Expire(victims, now, ttl) => forall id | id in victims :: id in s.table && Eligible(s.table[id], now, ttl)
  }

  ghost function Ids(batch: seq<Row>): set<int> { set r | r in batch :: r.id }

  ghost function Apply(s: State, step: Step): State
    requires Enabled(s, step)
  {
    match step
    case Insert(row) => s.(table := s.table[row.id := Stored(row, None)], inserted := s.inserted + [row])
    case TryLock(p) =>
      if s.lock.Some? then s else s.(lock := Some(p), sessions := s.sessions[p := Locked])
    case Select(p, _, batch) => s.(sessions := s.sessions[p := Draining(batch, 0, |s.inserted|)])
    case PublishNext(p) =>
      var d := s.sessions[p];
      s.(topic := s.topic + [Message(d.batch[d.sent], d.seen)], sessions := s.sessions[p := d.(sent := d.sent + 1)])
    case Abort(p) => s.(lock := None, sessions := s.sessions - {p})
    case Commit(p, now) =>
      s.(table := MarkProcessed(s.table, Ids(s.sessions[p].batch), now), lock := None, sessions := s.sessions - {p})
    case Expire(victims, _, _) => s.(table := s.table - victims)
  }

  ghost predicate Legal(s: State, steps: seq<Step>)
    decreases |steps|
  {
    |steps| > 0 ==> Enabled(s, steps[0]) && Legal(Apply(s, steps[0]), steps[1..])
  }

  ghost function Run(s: State, steps: seq<Step>): State
    requires Legal(s, steps)
    decreases |steps|
  {
    if |steps| == 0 then s else Run(Apply(s, steps[0]), steps[1..])
  }

  // ----------------------------------------------------------- invariant

  ghost predicate Published(topic: seq<Message>, r: Row)
  {
    exists k | 0 <= k < |topic| :: topic[k].row == r
  }

  /** Rows keep their ids, and the table holds only rows that were inserted. */
  ghost predicate RowsInv(s: State)
  {
    && (forall i, j | 0 <= i < j < |s.inserted| :: s.inserted[i].id != s.inserted[j].id)
    && (forall id | id in s.table :: s.table[id].row.id == id && s.table[id].row in s.inserted)
  }

  /** Only the lock holder has an open session. */
  ghost predicate LockInv(s: State)
  {
    && (forall p | p in s.sessions :: s.lock == Some(p))
    && (s.lock.Some? ==> s.lock.value in s.sessions)
  }

  /** A row that is processed or gone has been published. */
  ghost predicate SafetyInv(s: State)
  {
    forall r | r in s.inserted && !Unprocessed(s.table, r) :: Published(s.topic, r)
  }

  /** A draining session still owns unprocessed rows it saw, its published part
      is a prefix, and nothing it saw that sorts before its rows is missing. */
  ghost predicate SessionInv(s: State)
  {
    forall p | p in s.sessions && s.sessions[p].Draining? ::
      var d := s.sessions[p];
      && d.sent <= |d.batch| && d.seen <= |s.inserted|
      && (forall i, j | 0 <= i < j < |d.batch| :: Before(d.batch[i], d.batch[j]))
      && (forall b | b in d.batch :: b in s.inserted[..d.seen] && Unprocessed(s.table, b))
      && (forall i | 0 <= i < d.sent :: Published(s.topic, d.batch[i]))
      && (forall r, b | r in s.inserted[..d.seen] && b in d.batch && Before(r, b) ::
            r in d.batch || Published(s.topic, r))
      && (forall k | 0 <= k < |s.topic| :: s.topic[k].seen <= d.seen)
  }

  /** Messages carry rows their SELECT saw, stamps never go back, and every row
      a SELECT saw is in the topic before any of its successors. */
  ghost predicate TopicInv(s: State)
  {
    && (forall k | 0 <= k < |s.topic| ::
          s.topic[k].seen <= |s.inserted| && s.topic[k].row in s.inserted[..s.topic[k].seen])
    && (forall j, k | 0 <= j < k < |s.topic| :: s.topic[j].seen <= s.topic[k].seen)
    && (forall k, r | 0 <= k < |s.topic| && r in s.inserted[..s.topic[k].seen] && Before(r, s.topic[k].row) ::
          Published(s.topic[..k], r))
  }

  ghost predicate Inv(s: State)
  {
    RowsInv(s) && LockInv(s) && SafetyInv(s) && SessionInv(s) && TopicInv(s)
  }

  lemma PublishedGrows(topic: seq<Message>, m: Message, r: Row)
    requires Published(topic, r) || r == m.row
    ensures Published(topic + [m], r)
  {
    if Published(topic, r) {
      var k :| 0 <= k < |topic| && topic[k].row == r;
      assert (topic + [m])[k].row == r;
    } else {
      assert (topic + [m])[|topic|].row == r;
    }
  }

  lemma InsertKeeps(s: State, row: Row)
    requires Inv(s) && Enabled(s, Insert(row))
    ensures Inv(Apply(s, Insert(row)))
  {
    InsertKeepsRows(s, row);
    InsertKeepsOrder(s, row);
  }

  lemma InsertKeepsRows(s: State, row: Row)
    requires Inv(s) && Enabled(s, Insert(row))
    ensures var s' := Apply(s, Insert(row)); RowsInv(s') && LockInv(s') && SafetyInv(s')
    ensures var s' := Apply(s, Insert(row)); forall r | r in s.inserted :: Unprocessed(s'.table, r) == Unprocessed(s.table, r)
  {
    var s' := Apply(s, Insert(row));
    assert forall r | r in s'.inserted :: r in s.inserted || r == row;
    assert forall r | r in s.inserted :: r.id != row.id;
  }

  lemma InsertKeepsOrder(s: State, row: Row)
    requires Inv(s) && Enabled(s, Insert(row))
    ensures SessionInv(Apply(s, Insert(row))) && TopicInv(Apply(s, Insert(row)))
  {
    SameView(s.inserted, row);
    InsertKeepsRows(s, row);
    assert forall n, r | 0 <= n <= |s.inserted| && r in s.inserted[..n] :: r in s.inserted;
  }

  lemma SameView(rows: seq<Row>, row: Row)
    ensures forall n | 0 <= n <= |rows| :: (rows + [row])[..n] == rows[..n]
  {
  }

  lemma SelectKeeps(s: State, p: Replica, limit: nat, batch: seq<Row>)
    requires Inv(s) && Enabled(s, Select(p, limit, batch))
    ensures Inv(Apply(s, Select(p, limit, batch)))
  {
    assert s.inserted[..|s.inserted|] == s.inserted;
    forall r, b | r in s.inserted && b in batch && Before(r, b)
      ensures r in batch || Published(s.topic, r)
    {
      if Unprocessed(s.table, r) {
        assert !Before(b, s.table[r.id].row);
      }
    }
  }

  /** Everything the session saw that sorts before its next row is published. */
  lemma PredecessorsPublished(s: State, p: Replica, r: Row)
    requires Inv(s) && Enabled(s, PublishNext(p))
    requires r in s.inserted[..s.sessions[p].seen] && Before(r, s.sessions[p].batch[s.sessions[p].sent])
    ensures Published(s.topic, r)
  {
    var d := s.sessions[p];
    if r in d.batch {
      var i :| 0 <= i < |d.batch| && d.batch[i] == r;
      assert i < d.sent;
    }
  }

  lemma PublishKeepsTopic(s: State, p: Replica)
    requires Inv(s) && Enabled(s, PublishNext(p))
    ensures TopicInv(Apply(s, PublishNext(p)))
  {
    var d := s.sessions[p];
    var m := Message(d.batch[d.sent], d.seen);
    var topic' := s.topic + [m];
    assert m.row in d.batch;
    assert forall k | 0 <= k <= |s.topic| :: topic'[..k] == s.topic[..k];
    assert s.topic[..|s.topic|] == s.topic;
    forall k, r | 0 <= k < |topic'| && r in s.inserted[..topic'[k].seen] && Before(r, topic'[k].row)
      ensures Published(topic'[..k], r)
    {
      if k == |s.topic| {
        PredecessorsPublished(s, p, r);
      }
    }
  }

  lemma PublishKeepsSession(s: State, p: Replica)
    requires Inv(s) && Enabled(s, PublishNext(p))
    ensures SessionInv(Apply(s, PublishNext(p))) && SafetyInv(Apply(s, PublishNext(p)))
  {
    var d := s.sessions[p];
    var m := Message(d.batch[d.sent], d.seen);
    forall r | Published(s.topic, r) || r == m.row
      ensures Published(s.topic + [m], r)
    {
      PublishedGrows(s.topic, m, r);
    }
  }

  lemma PublishKeeps(s: State, p: Replica)
    requires Inv(s) && Enabled(s, PublishNext(p))
    ensures Inv(Apply(s, PublishNext(p)))
  {
    PublishKeepsTopic(s, p);
    PublishKeepsSession(s, p);
  }

  lemma ReleaseKeeps(s: State, step: Step)
    requires Inv(s) && Enabled(s, step) && (step.TryLock? || step.Abort?)
    ensures Inv(Apply(s, step))
  {
  }

  lemma ExpireKeeps(s: State, step: Step)
    requires Inv(s) && Enabled(s, step) && step.Expire?
    ensures Inv(Apply(s, step))
  {
    var s' := Apply(s, step);
    assert forall r | r in s.inserted && Unprocessed(s.table, r) :: Unprocessed(s'.table, r);
  }

  lemma CommitKeeps(s: State, p: Replica, now: int)
    requires Inv(s) && Enabled(s, Commit(p, now))
    ensures Inv(Apply(s, Commit(p, now)))
  {
    var s', d := Apply(s, Commit(p, now)), s.sessions[p];
    forall r | r in s'.inserted && !Unprocessed(s'.table, r)
      ensures Published(s'.topic, r)
    {
      if Unprocessed(s.table, r) {
        var b :| b in d.batch && b.id == r.id;
        assert Unprocessed(s.table, b) && b == r;
        var i :| 0 <= i < |d.batch| && d.batch[i] == b;
      }
    }
  }

  lemma StepKeeps(s: State, step: Step)
    requires Inv(s) && Enabled(s, step)
    ensures Inv(Apply(s, step))
  {
    match step
    case Insert(row) => InsertKeeps(s, row);
    case TryLock(p) => ReleaseKeeps(s, step);
    case Select(p, limit, batch) => SelectKeeps(s, p, limit, batch);
    case PublishNext(p) => PublishKeeps(s, p);
    case Abort(p) => ReleaseKeeps(s, step);
    case Commit(p, now) => CommitKeeps(s, p, now);
    case Expire(victims, now, ttl) => ExpireKeeps(s, step);
  }

  /** The invariant holds after every run, whatever the interleaving. */
  lemma {:induction false} RunKeeps(s: State, steps: seq<Step>)
    requires Inv(s) && Legal(s, steps)
    ensures Inv(Run(s, steps))
    decreases |steps|
  {
    if |steps| > 0 {
      StepKeeps(s, steps[0]);
      RunKeeps(Apply(s, steps[0]), steps[1..]);
    }
  }

  // ---------------------------------------------------------- consequences

  /** Position at which a row became visible. */
  ghost predicate VisibleAt(s: State, r: Row, i: nat)
  {
    i < |s.inserted| && s.inserted[i] == r
  }

  /** In every reachable state a processed or deleted row is in the topic. */
  lemma NothingIsLost(steps: seq<Step>, r: Row)
    requires Legal(EMPTY, steps)
    ensures var s := Run(EMPTY, steps);
            r in s.inserted && (r.id !in s.table || s.table[r.id].processedAt.Some?) ==> Published(s.topic, r)
  {
    RunKeeps(EMPTY, steps);
  }

  /** Exactly when a smaller row precedes a message in the topic: when it was
      visible to the SELECT that message came from. */
  lemma PublishedFirstIff(steps: seq<Step>, k: nat, r: Row, i: nat)
    requires Legal(EMPTY, steps)
    requires var s := Run(EMPTY, steps);
             k < |s.topic| && VisibleAt(s, r, i) &&
             (r.createdAt < s.topic[k].row.createdAt || (r.createdAt == s.topic[k].row.createdAt && r.id < s.topic[k].row.id))
    ensures var s := Run(EMPTY, steps);
            Published(s.topic[..k], r) <==> i < s.topic[k].seen
  {
    var s := Run(EMPTY, steps);
    RunKeeps(EMPTY, steps);
    var seen := s.topic[k].seen;
    if i < seen {
      assert s.inserted[..seen][i] == r;
    }
    if Published(s.topic[..k], r) {
      var j :| 0 <= j < k && s.topic[..k][j].row == r;
      var n := s.topic[j].seen;
      var i' :| 0 <= i' < n && s.inserted[..n][i'] == r;
      assert s.inserted[i'] == r && i' == i;
    }
  }

  /** Rows became visible in key order. */
  ghost predicate InsertedInOrder(s: State)
  {
    forall i, j | 0 <= i < j < |s.inserted| ::
      var a, b := s.inserted[i], s.inserted[j];
      a.createdAt < b.createdAt || (a.createdAt == b.createdAt && a.id < b.id)
  }

  /** If rows become visible in key order, first publications follow that order:
      no row is published before all its predecessors have been. */
  lemma FirstPublicationsInOrder(steps: seq<Step>, k: nat, r: Row)
    requires Legal(EMPTY, steps)
    requires var s := Run(EMPTY, steps);
             InsertedInOrder(s) && k < |s.topic| && r in s.inserted &&
             (r.createdAt < s.topic[k].row.createdAt || (r.createdAt == s.topic[k].row.createdAt && r.id < s.topic[k].row.id))
    ensures Published(Run(EMPTY, steps).topic[..k], r)
  {
    var s := Run(EMPTY, steps);
    RunKeeps(EMPTY, steps);
    var i :| 0 <= i < |s.inserted| && s.inserted[i] == r;
    SeenInOrder(s, k, r, i);
    PublishedFirstIff(steps, k, r, i);
  }

  lemma SeenInOrder(s: State, k: nat, r: Row, i: nat)
    requires TopicInv(s) && InsertedInOrder(s) && k < |s.topic| && VisibleAt(s, r, i)
    requires r.createdAt < s.topic[k].row.createdAt || (r.createdAt == s.topic[k].row.createdAt && r.id < s.topic[k].row.id)
    ensures i < s.topic[k].seen
  {
    var seen := s.topic[k].seen;
    var j :| 0 <= j < seen && s.inserted[..seen][j] == s.topic[k].row;
    assert s.inserted[j] == s.topic[k].row;
    assert i < j;
  }

  /** The published but unprocessed rows are a prefix of the unprocessed ones. */
  lemma PublishedIsAPrefix(steps: seq<Step>, r: Row, x: Row)
    requires Legal(EMPTY, steps)
    requires var s := Run(EMPTY, steps);
             InsertedInOrder(s) && r in s.inserted && Published(s.topic, x) &&
             (r.createdAt < x.createdAt || (r.createdAt == x.createdAt && r.id < x.id))
    ensures Published(Run(EMPTY, steps).topic, r)
  {
    var s := Run(EMPTY, steps);
    var k :| 0 <= k < |s.topic| && s.topic[k].row == x;
    FirstPublicationsInOrder(steps, k, r);
    var j :| 0 <= j < k && s.topic[..k][j].row == r;
    assert s.topic[j].row == r;
  }

  /** An undisturbed cycle over a single unprocessed row. */
  lemma DrainOne(s: State, r: Row) returns (steps: seq<Step>)
    requires s.lock.None? && s.sessions == map[] && Unprocessed(s.table, r)
    requires forall id | id in s.table && id != r.id :: s.table[id].processedAt.Some?
    ensures Legal(s, steps)
    ensures Run(s, steps) == s.(table := MarkProcessed(s.table, {r.id}, 0), topic := s.topic + [Message(r, |s.inserted|)])
  {
    assert Ids([r]) == {r.id};
    assert IsBatch(s.table, 1, [r]);
    var s1 := Apply(s, TryLock(0));
    var s2 := Apply(s1, Select(0, 1, [r]));
    var s3 := Apply(s2, PublishNext(0));
    assert Apply(s3, Commit(0, 0)).sessions == map[];
    steps := Chain(s3, Commit(0, 0), []);
    steps := Chain(s2, PublishNext(0), steps);
    steps := Chain(s1, Select(0, 1, [r]), steps);
    steps := Chain(s, TryLock(0), steps);
  }

  /** The order hypothesis is needed: of any two rows the larger one is published
      first if it is drained before the smaller one becomes visible. */
  lemma LateRowIsOvertaken(r: Row, x: Row) returns (steps: seq<Step>)
    requires Before(r, x) && r.id != x.id
    ensures Legal(EMPTY, steps)
    ensures var topic := Run(EMPTY, steps).topic; |topic| == 2 && topic[0].row == x && topic[1].row == r
  {
    var s1 := Apply(EMPTY, Insert(x));
    var first := DrainOne(s1, x);
    var s2 := Run(s1, first);
    var s3 := Apply(s2, Insert(r));
    var second := DrainOne(s3, r);
    steps := Chain(s2, Insert(r), second);
    Append(s1, first, steps);
    steps := Chain(EMPTY, Insert(x), first + steps);
  }

  lemma {:induction false} Append(s: State, a: seq<Step>, b: seq<Step>)
    requires Legal(s, a) && Legal(Run(s, a), b)
    ensures Legal(s, a + b) && Run(s, a + b) == Run(Run(s, a), b)
    decreases |a|
  {
    if |a| == 0 {
      assert a + b == b;
    } else {
      assert (a + b)[1..] == a[1..] + b;
      Append(Apply(s, a[0]), a[1..], b);
    }
  }

  lemma Chain(s: State, step: Step, rest: seq<Step>) returns (steps: seq<Step>)
    requires Enabled(s, step) && Legal(Apply(s, step), rest)
    ensures Legal(s, steps) && Run(s, steps) == Run(Apply(s, step), rest)
  {
    steps := [step] + rest;
    assert steps[1..] == rest;
  }

  lemma {:induction false} Extend(s: State, steps: seq<Step>, step: Step)
    requires Legal(s, steps) && Enabled(Run(s, steps), step)
    ensures Legal(s, steps + [step]) && Run(s, steps + [step]) == Apply(Run(s, steps), step)
    decreases |steps|
  {
    if |steps| == 0 {
      assert steps + [step] == [step];
    } else {
      assert (steps + [step])[1..] == steps[1..] + [step];
      Extend(Apply(s, steps[0]), steps[1..], step);
    }
  }

  // ------------------------------------------------------------- the code

  datatype DrainResult = Ok(count: nat) | LockMissed | Empty | PublishError | UpdateError

  /** A COMMIT takes effect and says so, takes effect although an error came back, or
      does not take effect. */
  datatype CommitFate = Committed | CommittedUnreported | NotCommitted

  /** What one drain cycle cannot control: whether its transaction opens, its lock query
      and its SELECT answer, the rows the SELECT returns, how many messages the broker
      takes and whether it reports an error, and the fates of the UPDATE and the COMMIT. */
  datatype DrainEnv = DrainEnv(
    beginOk: bool, lockOk: bool, selectOk: bool, batch: seq<Row>,
    accepts: nat, publishErr: bool, updateOk: bool, commit: CommitFate, now: int)

  /** How many rows of the batch reach the topic. */
  function Sent(env: DrainEnv): nat { Min(env.accepts, |env.batch|) }

  /** The whole batch is out and no error was reported.  Publishing reports success only
      then: that is what the producer interface promises its caller. */
  predicate Delivered(env: DrainEnv) { env.accepts >= |env.batch| && !env.publishErr }

  function RowsOf(ms: seq<Message>): seq<Row>
  {
    seq(|ms|, i requires 0 <= i < |ms| => ms[i].row)
  }

  /** The shared database and topic, as one replica's cycle changes them; `view`
      is the protocol state they stand for. */
  class Pipeline {
    var table: Table
    var topic: seq<Row>
    var lock: Option<Replica>
    ghost var view: State

    ghost predicate Valid() reads this
    {
      table == view.table && lock == view.lock && topic == RowsOf(view.topic)
    }

    /** `view` is what legal protocol steps from `start` lead to. */
    ghost predicate Reached(start: State, steps: seq<Step>) reads this
    {
      Valid() && Legal(start, steps) && view == Run(start, steps)
    }

    /** Publishes one row after another; a failure leaves a published prefix, possibly
        the whole batch. */
    method PublishBatch(p: Replica, env: DrainEnv, ghost start: State, ghost done: seq<Step>)
      returns (ok: bool, ghost steps: seq<Step>)
      requires Reached(start, done)
      requires p in view.sessions && view.sessions[p].Draining? && view.sessions[p].batch == env.batch
      requires view.sessions[p].sent == 0
      modifies this
      ensures Reached(start, steps)
      ensures ok <==> Delivered(env)
      ensures table == old(table) && lock == old(lock)
      ensures topic == old(topic) + env.batch[..Sent(env)]
      ensures view.sessions == old(view.sessions)[p := old(view.sessions[p]).(sent := Sent(env))]
    {
      steps := done;
      var batch, i := env.batch, 0;
      while i < |batch| && i < env.accepts
        invariant i <= |batch| && i <= env.accepts
        invariant Reached(start, steps)
        invariant table == old(table) && lock == old(lock) && topic == old(topic) + batch[..i]
        invariant view.sessions == old(view.sessions)[p := old(view.sessions[p]).(sent := i)]
      {
        Extend(start, steps, PublishNext(p));
        steps := steps + [PublishNext(p)];
        view := Apply(view, PublishNext(p));
        topic := topic + [batch[i]];
        i := i + 1;
      }
      ok := env.accepts >= |batch| && !env.publishErr;
    }

    /** One drain cycle.  Which result it reports, what reaches the topic and what is
        marked are given for every way it can go, and it is always a run of the protocol. */
    method DrainBatch(p: Replica, limit: nat, env: DrainEnv) returns (r: DrainResult, ghost steps: seq<Step>)
      requires Valid() && p !in view.sessions
      requires env.beginOk && env.lockOk && lock.None? && env.selectOk ==> IsBatch(table, limit, env.batch)
      modifies this
      ensures Reached(old(view), steps) && lock == old(lock)
      ensures var selects := env.beginOk && env.lockOk && old(lock).None? && env.selectOk;
              var delivered := env.accepts >= |env.batch| && !env.publishErr;
              var marks := selects && env.batch != [] && delivered && env.updateOk && !env.commit.NotCommitted?;
              && (r.LockMissed? <==> env.beginOk && env.lockOk && old(lock).Some?)
              && (r.Empty? <==> selects && env.batch == [])
              && (r.PublishError? <==>
                  if selects then env.batch != [] && !delivered else !(env.beginOk && env.lockOk && old(lock).Some?))
              && (r.Ok? <==> marks && env.commit.Committed?) && (r.Ok? ==> r.count == |env.batch|)
              && topic == old(topic) + (if !selects then [] else if env.accepts < |env.batch| then env.batch[..env.accepts] else env.batch)
              && table.Keys == old(table).Keys
              && (forall row | row in env.batch && marks :: table[row.id] == Stored(row, Some(env.now)))
              && forall id | id in old(table) && (marks ==> forall row | row in env.batch :: row.id != id) :: table[id] == old(table)[id]
    {
      ghost var start := view;
      steps := [];
      if !env.beginOk || !env.lockOk {
        return PublishError, steps;
      }
      Extend(start, steps, TryLock(p));
      steps := steps + [TryLock(p)];
      view := Apply(view, TryLock(p));
      if lock.Some? {
        return LockMissed, steps;
      }
      lock := Some(p);
      if !env.selectOk {
        steps := Rollback(p, start, steps);
        return PublishError, steps;
      }
      r, steps := DrainSelected(p, limit, env, start, steps);
    }

    /** The cycle from its SELECT on. */
    method DrainSelected(p: Replica, limit: nat, env: DrainEnv, ghost start: State, ghost done: seq<Step>)
      returns (r: DrainResult, ghost steps: seq<Step>)
      requires Reached(start, done) && p in view.sessions && view.sessions[p].Locked?
      requires IsBatch(table, limit, env.batch)
      modifies this
      ensures Reached(start, steps) && lock == None
      ensures r.Empty? <==> env.batch == []
      ensures r.PublishError? <==> env.batch != [] && !Delivered(env)
      ensures r.UpdateError? <==> env.batch != [] && Delivered(env) && !(env.updateOk && env.commit.Committed?)
      ensures !r.LockMissed? && (r.Ok? ==> r.count == |env.batch|)
      ensures topic == old(topic) + env.batch[..Sent(env)]
      ensures table == if env.batch != [] && Delivered(env) && env.updateOk && !env.commit.NotCommitted?
                       then MarkProcessed(old(table), Ids(env.batch), env.now) else old(table)
    {
      steps := done;
      Extend(start, steps, Select(p, limit, env.batch));
      steps := steps + [Select(p, limit, env.batch)];
      view := Apply(view, Select(p, limit, env.batch));
      if |env.batch| == 0 {
        steps := Rollback(p, start, steps);
        return Empty, steps;
      }
      var published;
      published, steps := PublishBatch(p, env, start, steps);
      if !published {
        steps := Rollback(p, start, steps);
        return PublishError, steps;
      }
      if !env.updateOk || env.commit.NotCommitted? {
        steps := Rollback(p, start, steps);
        return UpdateError, steps;
      }
      steps := MarkAndCommit(p, env, start, steps);
      r := if env.commit.Committed? then Ok(|env.batch|) else UpdateError;
    }

    /** UPDATE and COMMIT: the ids of the batch are marked and the lock is gone. */
    method MarkAndCommit(p: Replica, env: DrainEnv, ghost start: State, ghost done: seq<Step>)
      returns (ghost steps: seq<Step>)
      requires Reached(start, done) && p in view.sessions && view.sessions[p].Draining?
      requires view.sessions[p].batch == env.batch && view.sessions[p].sent == |env.batch|
      modifies this
      ensures Reached(start, steps) && lock == None && topic == old(topic)
      ensures table == MarkProcessed(old(table), Ids(env.batch), env.now)
    {
      var ids := CollectIds(env.batch);
      Extend(start, done, Commit(p, env.now));
      steps := done + [Commit(p, env.now)];
      view := Apply(view, Commit(p, env.now));
      table := MarkProcessed(table, set i | 0 <= i < |ids| :: ids[i], env.now);
      lock := None;
    }

    method Rollback(p: Replica, ghost start: State, ghost done: seq<Step>) returns (ghost steps: seq<Step>)
      requires Reached(start, done) && p in view.sessions
      modifies this
      ensures Reached(start, steps)
      ensures lock == None && table == old(table) && topic == old(topic)
    {
      Extend(start, done, Abort(p));
      steps := done + [Abort(p)];
      view := Apply(view, Abort(p));
      lock := None;
    }
  }

  method CollectIds(batch: seq<Row>) returns (ids: seq<int>)
    ensures |ids| == |batch| && forall i | 0 <= i < |ids| :: ids[i] == batch[i].id
    ensures (set i | 0 <= i < |ids| :: ids[i]) == Ids(batch)
  {
    ids := [];
    for i := 0 to |batch|
      invariant |ids| == i && forall j | 0 <= j < i :: ids[j] == batch[j].id
    {
      ids := ids + [batch[i].id];
    }
    assert forall r | r in batch :: exists i | 0 <= i < |ids| :: ids[i] == r.id;
    assert forall i | 0 <= i < |ids| :: batch[i] in batch;
  }

  // -------------------------------------------------------------- expirer

  /** The table's id index: ascending, and covering every row. */
  ghost predicate IsIndex(t: Table, index: seq<int>)
  {
    && (forall i, j | 0 <= i < j < |index| :: index[i] < index[j])
    && (forall id | id in t :: id in index)
  }

  function EligibleIds(t: Table, now: int, ttl: int): set<int>
  {
    set id | id in t && Eligible(t[id], now, ttl)
  }

  /** One bounded DELETE: the lowest eligible ids, at most `limit` of them. */
  method ExpireBatch(t: Table, index: seq<int>, now: int, ttl: int, limit: nat) returns (t': Table, victims: set<int>)
    requires IsIndex(t, index)
    ensures t' == t - victims && victims <= t.Keys && |victims| <= limit
    ensures forall v | v in victims :: t[v].processedAt.Some? && t[v].processedAt.value < now - ttl
    ensures forall e | e in t && t[e].processedAt.Some? && t[e].processedAt.value < now - ttl && e !in victims ::
              |victims| == limit && forall v | v in victims :: v < e
  {
    ghost var eligible := EligibleIds(t, now, ttl);
    victims := {};
    var i := 0;
    while i < |index| && |victims| < limit
      invariant i <= |index| && |victims| <= limit && Scanned(index, i, eligible, victims)
    {
      var id := index[i];
      ScannedNext(index, i, eligible, victims);
      if id in t && Eligible(t[id], now, ttl) {
        assert id in eligible;
        victims := victims + {id};
      }
      i := i + 1;
    }
    LowestFirst(t, index, i, eligible, victims);
    t' := t - victims;
  }

  /** The victims are the eligible ones among the first `i` ids. */
  ghost predicate Scanned(index: seq<int>, i: nat, eligible: set<int>, victims: set<int>)
    requires i <= |index|
  {
    && victims <= eligible
    && (forall v | v in victims :: exists j | 0 <= j < i :: index[j] == v)
    && (forall j | 0 <= j < i && index[j] in eligible :: index[j] in victims)
  }

  lemma ScannedNext(index: seq<int>, i: nat, eligible: set<int>, victims: set<int>)
    requires i < |index| && Scanned(index, i, eligible, victims)
    ensures Scanned(index, i + 1, eligible, if index[i] in eligible then victims + {index[i]} else victims)
    ensures |victims + {index[i]}| <= |victims| + 1
  {
    var victims' := if index[i] in eligible then victims + {index[i]} else victims;
    var n := i + 1;
    forall v | v in victims'
      ensures exists j | 0 <= j < n :: index[j] == v
    {
      if v in victims {
        var j :| 0 <= j < i && index[j] == v;
      }
    }
  }

  /** Once the first `i` ids are scanned, what was taken comes before what was not. */
  lemma LowestFirst(t: Table, index: seq<int>, i: nat, eligible: set<int>, victims: set<int>)
    requires IsIndex(t, index) && i <= |index| && eligible <= t.Keys && Scanned(index, i, eligible, victims)
    ensures i == |index| ==> victims == eligible
    ensures forall v, e | v in victims && e in eligible && e !in victims :: v < e
  {
    forall e | e in eligible && e !in victims
      ensures exists j | i <= j < |index| :: index[j] == e
    {
      var j :| 0 <= j < |index| && index[j] == e;
    }
  }

  lemma Removed(t: Table, victims: set<int>)
    requires victims <= t.Keys
    ensures |t - victims| == |t| - |victims|
  {
    var rest := t - victims;
    assert rest.Keys == t.Keys - victims;
    assert t.Keys == victims + rest.Keys;
    assert |victims + rest.Keys| == |victims| + |rest.Keys|;
  }

  /** Deletes batch after batch until one is short.  Only processed rows past
      their TTL go, the count is exact, and on success none is left over. */
  method ExpireAll(t: Table, index: seq<int>, now: nat -> int, ttl: int, limit: nat, failsAt: Option<nat>)
    returns (t': Table, total: nat, ok: bool, ghost batches: nat)
    requires limit > 0 && IsIndex(t, index) && forall i: nat, j: nat | i <= j :: now(i) <= now(j)
    ensures t'.Keys <= t.Keys && (forall id | id in t' :: t'[id] == t[id]) && total == |t| - |t'|
    ensures forall id | id in t && id !in t' :: t[id].processedAt.Some? && t[id].processedAt.value < now(batches) - ttl
    ensures ok ==> forall id | id in t' && t'[id].processedAt.Some? :: t'[id].processedAt.value >= now(batches) - ttl
    ensures !ok ==> failsAt == Some(batches)
  {
    t', total, ok, batches := t, 0, true, 0;
    var round: nat, short := 0, false;
    while !short
      invariant round == (if short then batches + 1 else batches)
      invariant t'.Keys <= t.Keys && (forall id | id in t' :: t'[id] == t[id]) && total == |t| - |t'|
      invariant forall id | id in t && id !in t' :: t[id].processedAt.Some? && t[id].processedAt.value < now(batches) - ttl
      invariant short ==> forall id | id in t' && t'[id].processedAt.Some? :: t'[id].processedAt.value >= now(batches) - ttl
      decreases !short, |t'|
    {
      if failsAt == Some(round) {
        ok := false;
        return;
      }
      var next, victims := ExpireBatch(t', index, now(round), ttl, limit);
      assert now(batches) <= now(batches + 1);
      Removed(t', victims);
      total := total + |victims|;
      t' := next;
      short := |victims| < limit;
      if !short {
        batches := batches + 1;
      }
      round := round + 1;
    }
  }
}

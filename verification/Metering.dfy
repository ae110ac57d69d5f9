/** Metered bytes from the push that records them to the analytics sink: the
    counter writes an outbox row, the outbox publishes it at least once, and the
    sink drops repeated event ids.  Nothing is lost or counted twice. */
module Metering {
  import opened Common
  import opened Outbox

  // ---------------------------------------------------------------- sink

  datatype Sink = Sink(events: seq<Event>, seen: set<string>)

  function Recorded(k: Sink, e: Event): Sink
  {
    if e.eventId != "" && e.eventId in k.seen then k
    else Sink(k.events + [e], if e.eventId != "" then k.seen + {e.eventId} else k.seen)
  }

  class StubSink {
    var events: seq<Event>
    var seen: set<string>

    constructor ()
      ensures events == [] && seen == {}
    {
      events, seen := [], {};
    }

    method Record(e: Event)
      modifies this
      ensures Sink(events, seen) == Recorded(Sink(old(events), old(seen)), e)
    {
      if e.eventId != "" {
        if e.eventId in seen {
          return;
        }
        seen := seen + {e.eventId};
      }
      events := events + [e];
    }
  }

  // ------------------------------------------------------------- counter

  /** Whether the cache answers a read and takes a write, and the fate of the outbox
      transaction. */
  datatype CounterEnv = CounterEnv(getOk: bool, setOk: bool, outbox: CommitFate, id: int, createdAt: int, eventId: string)

  /** `strconv.FormatInt` in base ten. */
  function Shown(n: int): string { if n < 0 then "-" + Decimal(-n) else Decimal(n) }

  /** What a stored counter counts; a missing or unreadable one counts nothing. */
  function CountOf(cache: map<string, string>, key: string): int
  {
    if key in cache && cache[key] != "" && Atoi(cache[key]).Some? then Atoi(cache[key]).value else 0
  }

  /** The cache after one attempt to add `bytes`: read, add, write back. */
  function Enforced(cache: map<string, string>, key: string, agentId: string, bytes: int, hasCache: bool,
                    env: CounterEnv): map<string, string>
  {
    if !hasCache || agentId == "" || !env.setOk then cache
    else cache[key := Shown((if env.getOk then CountOf(cache, key) else 0) + bytes)]
  }

  lemma ShownReads(n: int)
    requires -0x8000_0000_0000_0000 <= n < 0x8000_0000_0000_0000
    ensures Shown(n) != "" && Atoi(Shown(n)) == Some(n) && (IsDigit(Shown(n)[0]) <==> n >= 0)
  {
    var m: nat := if n < 0 then -n else n;
    NaturalOfDecimal(m);
    DecimalIsDigits(m);
    if n < 0 {
      SignReads(Decimal(m));
    } else {
      DigitsRead(Decimal(m));
    }
  }

  lemma DigitsRead(d: string)
    requires d != "" && (forall c | c in d :: IsDigit(c)) && Natural(d) < 0x8000_0000_0000_0000
    ensures Atoi(d) == Some(Natural(d)) && IsDigit(d[0])
  {
    assert d[0] in d;
  }

  lemma SignReads(d: string)
    requires d != "" && (forall c | c in d :: IsDigit(c)) && Natural(d) <= 0x8000_0000_0000_0000
    ensures Atoi("-" + d) == Some(0 - Natural(d)) && !IsDigit(("-" + d)[0])
  {
    assert ("-" + d)[1..] == d;
  }

  /** While the cache answers, the counter adds up exactly what it is given, and a lost
      read restarts it from these bytes alone. */
  lemma CounterAdds(cache: map<string, string>, key: string, agentId: string, bytes: int, env: CounterEnv)
    requires agentId != "" && env.setOk
    requires var n := (if env.getOk then CountOf(cache, key) else 0) + bytes;
             -0x8000_0000_0000_0000 <= n < 0x8000_0000_0000_0000
    ensures CountOf(Enforced(cache, key, agentId, bytes, true, env), key) ==
            (if env.getOk then CountOf(cache, key) else 0) + bytes
  {
    ShownReads((if env.getOk then CountOf(cache, key) else 0) + bytes);
  }

  class TwoTierCounter {
    var cache: map<string, string>
    var rows: seq<Row>

    /** The cache tier never decides the outcome; the outbox tier alone does.  A row may
        land although the caller is told it did not. */
    method Record(key: string, agentId: string, bytes: int, hasCache: bool, env: CounterEnv) returns (ok: bool)
      modifies this
      ensures ok <==> env.outbox.Committed?
      ensures rows == old(rows) + (if env.outbox.NotCommitted? then [] else [Row(env.id, env.createdAt, Event(env.eventId, bytes))])
      ensures cache == Enforced(old(cache), key, agentId, bytes, hasCache, env)
      ensures cache == if !hasCache || agentId == "" || !env.setOk then old(cache)
                       else if env.getOk && key in old(cache) && Atoi(old(cache)[key]).Some?
                       then old(cache)[key := Shown(Atoi(old(cache)[key]).value + bytes)]
                       else old(cache)[key := Shown(bytes)]
    {
      RecordEnforcement(key, agentId, bytes, hasCache, env);
      if env.outbox.NotCommitted? {
        return false;
      }
      rows := rows + [Row(env.id, env.createdAt, Event(env.eventId, bytes))];
      ok := env.outbox.Committed?;
    }

    method RecordEnforcement(key: string, agentId: string, bytes: int, hasCache: bool, env: CounterEnv)
      modifies this`cache
      ensures cache == Enforced(old(cache), key, agentId, bytes, hasCache, env)
      ensures cache == if !hasCache || agentId == "" || !env.setOk then old(cache)
                       else if env.getOk && key in old(cache) && Atoi(old(cache)[key]).Some?
                       then old(cache)[key := Shown(Atoi(old(cache)[key]).value + bytes)]
                       else old(cache)[key := Shown(bytes)]
    {
      if !hasCache || agentId == "" {
        return;
      }
      var prev := 0;
      if env.getOk && key in cache && |cache[key]| > 0 {
        var v := Atoi(cache[key]);
        if v.Some? {
          prev := v.value;
        }
      }
      if env.setOk {
        cache := cache[key := Shown(prev + bytes)];
      }
    }
  }

  // -------------------------------------------------------------- system

  /** The outbox, the sink, and the topic offsets delivered so far. */
  datatype System = System(outbox: State, sink: Sink, delivered: set<nat>)

  /** Recording inserts a row with a fresh event id, whether or not it reports so; a
      recording that does not commit inserts nothing; the topic may be delivered in any
      order and any number of times. */
  datatype Move = Record(row: Row, reported: bool) | RecordFails | Pipe(step: Step) | Deliver(offset: nat)

  const START := System(EMPTY, Sink([], {}), {})

  ghost predicate Possible(s: System, m: Move)
  {
    match m
    case Record(row, _) =>
      && Enabled(s.outbox, Insert(row)) && row.event.eventId != ""
      && forall r | r in s.outbox.inserted :: r.event.eventId != row.event.eventId
    case RecordFails => true
    case Pipe(step) => !step.Insert? && Enabled(s.outbox, step)
    case Deliver(k) => k < |s.outbox.topic|
  }

  ghost function After(s: System, m: Move): System
    requires Possible(s, m)
  {
    match m
    case Record(row, _) => s.(outbox := Apply(s.outbox, Insert(row)))
    case RecordFails => s
    case Pipe(step) => s.(outbox := Apply(s.outbox, step))
    case Deliver(k) => s.(sink := Recorded(s.sink, s.outbox.topic[k].row.event), delivered := s.delivered + {k})
  }

  ghost predicate CanPlay(s: System, moves: seq<Move>)
    decreases |moves|
  {
    |moves| > 0 ==> Possible(s, moves[0]) && CanPlay(After(s, moves[0]), moves[1..])
  }

  ghost function Play(s: System, moves: seq<Move>): System
    requires CanPlay(s, moves)
    decreases |moves|
  {
    if |moves| == 0 then s else Play(After(s, moves[0]), moves[1..])
  }

  // ----------------------------------------------------------- invariant

  ghost predicate DistinctIds(es: seq<Event>)
  {
    forall i, j | 0 <= i < j < |es| :: es[i].eventId != es[j].eventId
  }

  function EventsOf(rows: seq<Row>): (es: seq<Event>)
    ensures |es| == |rows| && forall i | 0 <= i < |es| :: es[i] == rows[i].event
  {
    seq(|rows|, i requires 0 <= i < |rows| => rows[i].event)
  }

  ghost predicate DeliveredEvent(topic: seq<Message>, delivered: set<nat>, e: Event)
  {
    exists k | k in delivered :: k < |topic| && topic[k].row.event == e
  }

  ghost predicate HoldsDelivered(topic: seq<Message>, sink: Sink, delivered: set<nat>)
  {
    forall k | k in delivered :: k < |topic| && topic[k].row.event in sink.events
  }

  ghost predicate OnlyDelivered(topic: seq<Message>, sink: Sink, delivered: set<nat>)
  {
    forall e | e in sink.events :: DeliveredEvent(topic, delivered, e)
  }

  /** The ids seen are those of the events held, one each. */
  ghost predicate Deduplicated(sink: Sink)
  {
    && DistinctIds(sink.events)
    && (forall id | id in sink.seen :: exists e | e in sink.events :: e.eventId == id)
    && (forall e | e in sink.events :: e.eventId in sink.seen)
  }

  /** The sink holds each delivered event once and nothing else. */
  ghost predicate SinkInv(topic: seq<Message>, sink: Sink, delivered: set<nat>)
  {
    HoldsDelivered(topic, sink, delivered) && OnlyDelivered(topic, sink, delivered) && Deduplicated(sink)
  }

  ghost predicate SystemInv(s: System)
  {
    && Inv(s.outbox)
    && DistinctIds(EventsOf(s.outbox.inserted))
    && (forall r | r in s.outbox.inserted :: r.event.eventId != "")
    && SinkInv(s.outbox.topic, s.sink, s.delivered)
  }

  lemma TopicIsInserted(s: State, k: nat)
    requires Inv(s) && k < |s.topic|
    ensures s.topic[k].row in s.inserted
  {
    var n := s.topic[k].seen;
    assert s.topic[k].row in s.inserted[..n];
  }

  /** Rows carry the same event only if they carry the same event id. */
  lemma SameIdSameEvent(rows: seq<Row>, a: Row, b: Row)
    requires DistinctIds(EventsOf(rows)) && a in rows && b in rows && a.event.eventId == b.event.eventId
    ensures a.event == b.event
  {
    var i :| 0 <= i < |rows| && rows[i] == a;
    var j :| 0 <= j < |rows| && rows[j] == b;
    assert EventsOf(rows)[i] == a.event && EventsOf(rows)[j] == b.event;
  }

  /** An event id the sink has seen belongs to the event it already holds. */
  lemma SeenIsHeld(s: System, k: nat)
    requires SystemInv(s) && k < |s.outbox.topic| && s.outbox.topic[k].row.event.eventId in s.sink.seen
    ensures s.outbox.topic[k].row.event in s.sink.events
  {
    var e := s.outbox.topic[k].row.event;
    var e' :| e' in s.sink.events && e'.eventId == e.eventId;
    assert DeliveredEvent(s.outbox.topic, s.delivered, e');
    var j :| j in s.delivered && j < |s.outbox.topic| && s.outbox.topic[j].row.event == e';
    TopicIsInserted(s.outbox, k);
    TopicIsInserted(s.outbox, j);
    SameIdSameEvent(s.outbox.inserted, s.outbox.topic[j].row, s.outbox.topic[k].row);
  }

  lemma MoreDelivered(topic: seq<Message>, delivered: set<nat>, k: nat, e: Event)
    requires DeliveredEvent(topic, delivered, e)
    ensures DeliveredEvent(topic, delivered + {k}, e)
  {
    var j :| j in delivered && j < |topic| && topic[j].row.event == e;
    assert j in delivered + {k};
  }

  lemma RecordedHolds(sink: Sink, e: Event)
    requires e.eventId in sink.seen ==> e in sink.events
    ensures e in Recorded(sink, e).events
    ensures forall f :: f in Recorded(sink, e).events <==> f == e || f in sink.events
  {
    var sink' := Recorded(sink, e);
    if sink' != sink {
      assert sink'.events == sink.events + [e];
    }
  }

  lemma NewHolds(topic: seq<Message>, sink: Sink, delivered: set<nat>, k: nat)
    requires HoldsDelivered(topic, sink, delivered) && k < |topic|
    requires var e := topic[k].row.event; e.eventId in sink.seen ==> e in sink.events
    ensures HoldsDelivered(topic, Recorded(sink, topic[k].row.event), delivered + {k})
  {
    RecordedHolds(sink, topic[k].row.event);
  }

  lemma NewOnly(topic: seq<Message>, sink: Sink, delivered: set<nat>, k: nat)
    requires OnlyDelivered(topic, sink, delivered) && k < |topic|
    requires var e := topic[k].row.event; e.eventId in sink.seen ==> e in sink.events
    ensures OnlyDelivered(topic, Recorded(sink, topic[k].row.event), delivered + {k})
  {
    var e := topic[k].row.event;
    RecordedHolds(sink, e);
    assert k in delivered + {k};
    assert DeliveredEvent(topic, delivered + {k}, e);
    forall f | f in sink.events
      ensures DeliveredEvent(topic, delivered + {k}, f)
    {
      MoreDelivered(topic, delivered, k, f);
    }
  }

  lemma NewDeduplicated(sink: Sink, e: Event)
    requires Deduplicated(sink) && e.eventId != "" && (e.eventId in sink.seen ==> e in sink.events)
    ensures Deduplicated(Recorded(sink, e))
  {
    RecordedHolds(sink, e);
    var sink' := Recorded(sink, e);
    if e.eventId !in sink.seen {
      assert sink'.events == sink.events + [e];
      assert forall i | 0 <= i < |sink.events| :: sink.events[i] in sink.events;
    }
  }

  lemma NewEventKeeps(topic: seq<Message>, sink: Sink, delivered: set<nat>, k: nat)
    requires SinkInv(topic, sink, delivered) && k < |topic|
    requires var e := topic[k].row.event; e.eventId != "" && (e.eventId in sink.seen ==> e in sink.events)
    ensures SinkInv(topic, Recorded(sink, topic[k].row.event), delivered + {k})
  {
    NewHolds(topic, sink, delivered, k);
    NewOnly(topic, sink, delivered, k);
    NewDeduplicated(sink, topic[k].row.event);
  }

  lemma TopicOnlyGrows(s: State, step: Step)
    requires Enabled(s, step)
    ensures s.topic <= Apply(s, step).topic
  {
  }

  lemma StillDelivered(topic: seq<Message>, topic': seq<Message>, delivered: set<nat>, e: Event)
    requires DeliveredEvent(topic, delivered, e) && topic <= topic'
    ensures DeliveredEvent(topic', delivered, e)
  {
    var k :| k in delivered && k < |topic| && topic[k].row.event == e;
    assert topic'[k] == topic[k];
  }

  lemma LongerHolds(topic: seq<Message>, topic': seq<Message>, sink: Sink, delivered: set<nat>)
    requires HoldsDelivered(topic, sink, delivered) && topic <= topic'
    ensures HoldsDelivered(topic', sink, delivered)
  {
    assert forall k | 0 <= k < |topic| :: topic'[k] == topic[k];
  }

  lemma LongerOnly(topic: seq<Message>, topic': seq<Message>, sink: Sink, delivered: set<nat>)
    requires OnlyDelivered(topic, sink, delivered) && topic <= topic'
    ensures OnlyDelivered(topic', sink, delivered)
  {
    forall e | e in sink.events
      ensures DeliveredEvent(topic', delivered, e)
    {
      StillDelivered(topic, topic', delivered, e);
    }
  }

  lemma LongerTopicKeeps(topic: seq<Message>, topic': seq<Message>, sink: Sink, delivered: set<nat>)
    requires SinkInv(topic, sink, delivered) && topic <= topic'
    ensures SinkInv(topic', sink, delivered)
  {
    LongerHolds(topic, topic', sink, delivered);
    LongerOnly(topic, topic', sink, delivered);
  }

  lemma RecordKeepsIds(s: System, row: Row)
    requires SystemInv(s) && Possible(s, Record(row, true))
    ensures DistinctIds(EventsOf(s.outbox.inserted + [row]))
  {
    var es := EventsOf(s.outbox.inserted + [row]);
    assert forall i | 0 <= i < |s.outbox.inserted| :: es[i] == EventsOf(s.outbox.inserted)[i] && s.outbox.inserted[i] in s.outbox.inserted;
  }

  lemma MoveKeeps(s: System, m: Move)
    requires SystemInv(s) && Possible(s, m)
    ensures SystemInv(After(s, m))
  {
    match m
    case Record(row, _) =>
      StepKeeps(s.outbox, Insert(row));
      RecordKeepsIds(s, row);
    case RecordFails =>
    case Pipe(step) =>
      StepKeeps(s.outbox, step);
      TopicOnlyGrows(s.outbox, step);
      LongerTopicKeeps(s.outbox.topic, Apply(s.outbox, step).topic, s.sink, s.delivered);
    case Deliver(k) =>
      TopicIsInserted(s.outbox, k);
      if s.outbox.topic[k].row.event.eventId in s.sink.seen {
        SeenIsHeld(s, k);
      }
      NewEventKeeps(s.outbox.topic, s.sink, s.delivered, k);
  }

  lemma {:induction false} PlayKeeps(s: System, moves: seq<Move>)
    requires SystemInv(s) && CanPlay(s, moves)
    ensures SystemInv(Play(s, moves))
    decreases |moves|
  {
    if |moves| > 0 {
      MoveKeeps(s, moves[0]);
      PlayKeeps(After(s, moves[0]), moves[1..]);
    }
  }

  // -------------------------------------------------------------- totals

  function Total(es: seq<Event>): int
  {
    if es == [] then 0 else Total(es[..|es| - 1]) + es[|es| - 1].bytes
  }

  lemma {:induction false} TotalWithout(es: seq<Event>, i: nat)
    requires i < |es|
    ensures Total(es) == Total(es[..i] + es[i + 1..]) + es[i].bytes
    decreases |es|
  {
    var rest := es[..i] + es[i + 1..];
    if i == |es| - 1 {
      assert rest == es[..|es| - 1];
    } else {
      var init := es[..|es| - 1];
      assert rest[..|rest| - 1] == init[..i] + init[i + 1..];
      TotalWithout(init, i);
    }
  }

  ghost predicate Within(a: seq<Event>, b: seq<Event>) { forall e | e in a :: e in b }

  /** A duplicate-free selection of events sums to at most the whole, and to
      exactly the whole when nothing is left out. */
  lemma {:induction false} SelectionTotal(a: seq<Event>, b: seq<Event>)
    requires DistinctIds(a) && DistinctIds(b) && Within(a, b)
    ensures (forall e | e in b :: e.bytes >= 0) ==> Total(a) <= Total(b)
    ensures Within(b, a) ==> Total(a) == Total(b)
    decreases |b|
  {
    if |b| > 0 {
      var x, init := b[|b| - 1], b[..|b| - 1];
      assert forall e | e in b :: e == x || e in init;
      assert forall e | e in init :: e in b && e != x;
      if x in a {
        var i :| 0 <= i < |a| && a[i] == x;
        TotalWithout(a, i);
        WithoutFacts(a, i);
        SelectionTotal(a[..i] + a[i + 1..], init);
      } else {
        SelectionTotal(a, init);
        assert x in b;
      }
    } else {
      assert forall i | 0 <= i < |a| :: a[i] in a;
    }
  }

  lemma WithoutFacts(a: seq<Event>, i: nat)
    requires i < |a| && DistinctIds(a)
    ensures var rest := a[..i] + a[i + 1..];
            DistinctIds(rest) && forall e :: e in rest <==> e in a && e != a[i]
  {
    var rest := a[..i] + a[i + 1..];
    assert forall j | 0 <= j < |rest| :: rest[j] == (if j < i then a[j] else a[j + 1]);
    forall e | e in a && e != a[i]
      ensures e in rest
    {
      var j :| 0 <= j < |a| && a[j] == e;
      assert rest[if j < i then j else j - 1] == e;
    }
  }

  /** Every recorded row is published, and every published message delivered. */
  ghost predicate Settled(s: System)
  {
    && (forall r | r in s.outbox.inserted :: !Unprocessed(s.outbox.table, r))
    && (forall k: nat | k < |s.outbox.topic| :: k in s.delivered)
  }

  // -- what the callers were told

  /** The events whose recording came back with success, or with an error. */
  function Told(moves: seq<Move>, reported: bool): seq<Event>
  {
    if moves == [] then []
    else
      (if moves[0].Record? && moves[0].reported == reported then [moves[0].row.event] else []) + Told(moves[1..], reported)
  }

  lemma {:induction false} TotalJoins(a: seq<Event>, b: seq<Event>)
    ensures Total(a + b) == Total(a) + Total(b)
    decreases |b|
  {
    if b == [] {
      assert a + b == a;
    } else {
      var init := b[..|b| - 1];
      TotalJoins(a, init);
      assert (a + b)[..|a + b| - 1] == a + init;
    }
  }

  /** What one move adds to the recorded bytes. */
  function Adds(m: Move): int { if m.Record? then m.row.event.bytes else 0 }

  lemma MoveAdds(s: System, m: Move)
    requires Possible(s, m)
    ensures Total(EventsOf(After(s, m).outbox.inserted)) == Total(EventsOf(s.outbox.inserted)) + Adds(m)
  {
    if m.Record? {
      assert EventsOf(s.outbox.inserted + [m.row]) == EventsOf(s.outbox.inserted) + [m.row.event];
      TotalJoins(EventsOf(s.outbox.inserted), [m.row.event]);
      assert Total([m.row.event]) == m.row.event.bytes;
    }
  }

  lemma ToldAdds(moves: seq<Move>)
    requires moves != []
    ensures Total(Told(moves, true)) + Total(Told(moves, false)) ==
            Adds(moves[0]) + Total(Told(moves[1..], true)) + Total(Told(moves[1..], false))
  {
    var m, rest := moves[0], moves[1..];
    assert [] + Told(rest, true) == Told(rest, true) && [] + Told(rest, false) == Told(rest, false);
    if m.Record? {
      TotalJoins([m.row.event], Told(rest, m.reported));
      assert Total([m.row.event]) == m.row.event.bytes;
    }
  }

  /** Recorded is what was reported recorded, and what landed unreported. */
  lemma {:induction false} RecordedIsTold(s: System, moves: seq<Move>)
    requires CanPlay(s, moves)
    ensures Total(EventsOf(Play(s, moves).outbox.inserted)) ==
            Total(EventsOf(s.outbox.inserted)) + Total(Told(moves, true)) + Total(Told(moves, false))
    decreases |moves|
  {
    if |moves| > 0 {
      MoveAdds(s, moves[0]);
      RecordedIsTold(After(s, moves[0]), moves[1..]);
      ToldAdds(moves);
    }
  }

  /** Conservation over every run: the sink holds each delivered event once, its
      total never exceeds what was recorded, reported or not, and matches it once settled. */
  lemma BytesAreConserved(moves: seq<Move>)
    requires CanPlay(START, moves)
    ensures var s := Play(START, moves);
            var recorded := EventsOf(s.outbox.inserted);
            && SinkInv(s.outbox.topic, s.sink, s.delivered)
            && Within(s.sink.events, recorded)
            && Total(recorded) == Total(Told(moves, true)) + Total(Told(moves, false))
            && ((forall e | e in recorded :: e.bytes >= 0) ==> Total(s.sink.events) <= Total(recorded))
            && (Settled(s) ==> Total(s.sink.events) == Total(recorded))
  {
    PlayKeeps(START, moves);
    RecordedIsTold(START, moves);
    var s := Play(START, moves);
    SinkIsRecorded(s);
    if Settled(s) {
      RecordedIsInSink(s);
    }
    SelectionTotal(s.sink.events, EventsOf(s.outbox.inserted));
  }

  lemma SinkIsRecorded(s: System)
    requires SystemInv(s)
    ensures Within(s.sink.events, EventsOf(s.outbox.inserted))
  {
    forall e | e in s.sink.events
      ensures e in EventsOf(s.outbox.inserted)
    {
      assert DeliveredEvent(s.outbox.topic, s.delivered, e);
      var k :| k in s.delivered && k < |s.outbox.topic| && s.outbox.topic[k].row.event == e;
      TopicIsInserted(s.outbox, k);
      EventOfRow(s.outbox.inserted, s.outbox.topic[k].row);
    }
  }

  lemma RecordedIsInSink(s: System)
    requires SystemInv(s) && Settled(s)
    ensures Within(EventsOf(s.outbox.inserted), s.sink.events)
  {
    var recorded := EventsOf(s.outbox.inserted);
    forall e | e in recorded
      ensures e in s.sink.events
    {
      var i :| 0 <= i < |recorded| && recorded[i] == e;
      assert Published(s.outbox.topic, s.outbox.inserted[i]);
    }
  }

  lemma EventOfRow(rows: seq<Row>, r: Row)
    requires r in rows
    ensures r.event in EventsOf(rows)
  {
    var i :| 0 <= i < |rows| && rows[i] == r;
    assert EventsOf(rows)[i] == r.event;
  }
}

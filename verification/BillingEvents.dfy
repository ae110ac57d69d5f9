/** The billing service's three idempotent recordings against its outbox, with retries,
    lost replies, draining and expiry in any order. */
module BillingEvents {
  import opened Common

  /** A UUID, named by its number. */
  type Id = nat

  datatype ArchiveKey = ArchiveKey(year: int, month: int, name: string)

  datatype ArchiveInput = ArchiveInput(key: ArchiveKey, lakeUri: string, rowCount: int, bytesWritten: int)

  datatype DekInput = DekInput(year: int, month: int, name: string, kekHint: string, keyVersion: int)

  datatype CiInput = CiInput(jobId: Id, principalId: Id, orgId: Id, principalKind: string, tier: string,
                             vcpuSeconds: int, memoryMbSeconds: int, egressKb: int)

  datatype Event =
    | PartitionArchived(key: ArchiveKey, id: Id)
    | DekDestroyed(aggregate: Id)
    | CiJobCompleted(aggregate: Id)

  datatype OutboxRow = OutboxRow(event: Event, processedAt: Option<int>)

  /** A transaction commits, commits although its caller sees an error, or rolls back. */
  datatype Fate = Commits | CommitsUnreported | RollsBack

  datatype Reply = Invalid | Failed | Recorded(id: Id, created: bool)

  /** How aggregate ids are derived: UUIDv5 of a natural key. */
  datatype Names = Names(dek: string -> Id, ci: Id -> Id)

  predicate PeriodOk(year: int, month: int) { 2026 <= year <= 2100 && 1 <= month <= 12 }

  predicate ArchiveOk(a: ArchiveInput)
  {
    PeriodOk(a.key.year, a.key.month) && a.key.name != "" && a.lakeUri != "" && a.rowCount >= 0 && a.bytesWritten >= 0
  }

  predicate DekOk(d: DekInput) { PeriodOk(d.year, d.month) && d.name != "" && d.kekHint != "" && d.keyVersion >= 1 }

  predicate CiOk(c: CiInput)
  {
    && c.jobId != 0 && c.principalId != 0 && c.orgId != 0
    && c.principalKind in {"human", "agent", "service"} && c.tier in {"hot", "cold"}
    && c.vcpuSeconds >= 0 && c.memoryMbSeconds >= 0 && c.egressKb >= 0
  }

  // ------------------------------------------------------ the DEK natural key

  function Pad2(n: nat): string { if n < 10 then "0" + Decimal(n) else Decimal(n) }

  function NaturalKey(d: DekInput): string
    requires DekOk(d)
  {
    (Decimal(d.year) + (['-'] + Pad2(d.month))) + (['|'] + (d.name + ['|'] + d.kekHint))
  }

  lemma PeriodText(year: int, month: int)
    requires PeriodOk(year, month)
    ensures |Decimal(year)| == 4 && |Pad2(month)| == 2
  {
    assert |Decimal(year / 1000)| == 1;
    assert |Decimal(year / 100)| == 2;
    assert |Decimal(year / 10)| == 3;
    assert month >= 10 ==> |Decimal(month / 10)| == 1;
  }

  lemma PadInjective(m: nat, n: nat)
    requires 1 <= m <= 12 && 1 <= n <= 12 && Pad2(m) == Pad2(n)
    ensures m == n
  {
    assert m >= 10 ==> Decimal(m) == [DigitChar(1)] + [DigitChar(m - 10)];
    assert n >= 10 ==> Decimal(n) == [DigitChar(1)] + [DigitChar(n - 10)];
    assert Pad2(m)[1] == DigitChar(if m < 10 then m else m - 10);
    assert Pad2(n)[1] == DigitChar(if n < 10 then n else n - 10);
    assert Pad2(m)[0] == DigitChar(if m < 10 then 0 else 1);
    assert Pad2(n)[0] == DigitChar(if n < 10 then 0 else 1);
  }

  /** Natural keys agree exactly on the period and on the joined name and hint. */
  lemma NaturalKeyIff(a: DekInput, b: DekInput)
    requires DekOk(a) && DekOk(b)
    ensures NaturalKey(a) == NaturalKey(b) <==>
            a.year == b.year && a.month == b.month && a.name + ['|'] + a.kekHint == b.name + ['|'] + b.kekHint
  {
    if NaturalKey(a) == NaturalKey(b) {
      PeriodText(a.year, a.month);
      PeriodText(b.year, b.month);
      var x, y := NaturalKey(a), NaturalKey(b);
      assert x[..4] == Decimal(a.year) && y[..4] == Decimal(b.year);
      assert x[5..7] == Pad2(a.month) && y[5..7] == Pad2(b.month);
      assert x[8..] == a.name + ['|'] + a.kekHint && y[8..] == b.name + ['|'] + b.kekHint;
      DecimalInjective(a.year, b.year);
      PadInjective(a.month, b.month);
    }
  }

  /** Hints without a bar, as the export path writes them, keep distinct keys apart. */
  lemma NaturalKeySeparates(a: DekInput, b: DekInput)
    requires DekOk(a) && DekOk(b) && NaturalKey(a) == NaturalKey(b) && '|' !in a.kekHint && '|' !in b.kekHint
    ensures a.year == b.year && a.month == b.month && a.name == b.name && a.kekHint == b.kekHint
  {
    NaturalKeyIff(a, b);
    LastSeparatorUnique(a.name, b.name, a.kekHint, b.kekHint, '|');
  }

  /** With a bar in the hint two different keys share one natural key. */
  lemma NaturalKeyCollides()
    ensures var a, b := DekInput(2026, 1, "p|q", "r", 1), DekInput(2026, 1, "p", "q|r", 1);
            DekOk(a) && DekOk(b) && NaturalKey(a) == NaturalKey(b) && a.name != b.name
  {
    var a, b := DekInput(2026, 1, "p|q", "r", 1), DekInput(2026, 1, "p", "q|r", 1);
    assert a.name + ['|'] + a.kekHint == b.name + ['|'] + b.kekHint;
    NaturalKeyIff(a, b);
    assert a.name[0] == 'p' && |a.name| != |b.name|;
  }

  // ------------------------------------------------------------- the model

  /** Archives and live outbox rows, plus the history: every event written and every
      event whose row has expired. */
  datatype State = State(
    archives: map<ArchiveKey, Id>,
    outbox: seq<OutboxRow>,
    log: seq<Event>,
    expired: seq<Event>)

  datatype Step =
    | Archive(archive: ArchiveInput, candidate: Id, fate: Fate)
    | Dek(dek: DekInput, fate: Fate)
    | Ci(ci: CiInput, fate: Fate)
    | Process(index: nat, at: int)
    | Expire(index: nat, now: int, ttl: int)

  /** Processed longer ago than the TTL. */
  predicate Old(r: OutboxRow, now: int, ttl: int) { r.processedAt.Some? && r.processedAt.value < now - ttl }

  predicate Live(outbox: seq<OutboxRow>, e: Event) { exists i | 0 <= i < |outbox| :: outbox[i].event == e }

  function Written(s: State, e: Event): State
  {
    s.(outbox := s.outbox + [OutboxRow(e, None)], log := s.log + [e])
  }

  /** Writes the event unless a live row already carries it. */
  function Once(s: State, e: Event, fate: Fate): State
  {
    if fate.RollsBack? || Live(s.outbox, e) then s else Written(s, e)
  }

  function After(names: Names, s: State, step: Step): State
  {
    match step
    case Archive(a, candidate, fate) =>
      if !ArchiveOk(a) || fate.RollsBack? || a.key in s.archives then s
      else Written(s, PartitionArchived(a.key, candidate)).(archives := s.archives[a.key := candidate])
    case Dek(d, fate) => if !DekOk(d) then s else Once(s, DekDestroyed(names.dek(NaturalKey(d))), fate)
    case Ci(c, fate) => if !CiOk(c) then s else Once(s, CiJobCompleted(names.ci(c.jobId)), fate)
    case Process(i, at) =>
      if i >= |s.outbox| then s else s.(outbox := s.outbox[i := s.outbox[i].(processedAt := Some(at))])
    case Expire(i, now, ttl) =>
      if i >= |s.outbox| || !Old(s.outbox[i], now, ttl) then s
      else s.(outbox := s.outbox[..i] + s.outbox[i + 1..], expired := s.expired + [s.outbox[i].event])
  }

  const EMPTY: State := State(map[], [], [], [])

  function Run(names: Names, steps: seq<Step>): State
  {
    if steps == [] then EMPTY else After(names, Run(names, steps[..|steps| - 1]), steps[|steps| - 1])
  }

  // ------------------------------------------------------------ invariants

  function Times(log: seq<Event>, e: Event): nat { multiset(log)[e] }

  function LiveEvents(outbox: seq<OutboxRow>): seq<Event> { seq(|outbox|, i requires 0 <= i < |outbox| => outbox[i].event) }

  /** Every event ever written is in a live row or has expired. */
  ghost predicate Conserved(s: State)
  {
    multiset(s.log) == multiset(LiveEvents(s.outbox)) + multiset(s.expired)
  }

  /** One archived event ever per recorded archive, and none for the others. */
  ghost predicate ArchivesOnce(s: State)
  {
    forall k, id :: Times(s.log, PartitionArchived(k, id)) == if k in s.archives && s.archives[k] == id then 1 else 0
  }

  /** At most one live row per DEK or CI aggregate. */
  ghost predicate LiveOnce(s: State)
  {
    forall i, j | 0 <= i < j < |s.outbox| && !s.outbox[i].event.PartitionArchived? ::
      s.outbox[i].event != s.outbox[j].event
  }

  lemma WrittenConserves(s: State, e: Event)
    requires Conserved(s)
    ensures Conserved(Written(s, e))
  {
    assert LiveEvents(Written(s, e).outbox) == LiveEvents(s.outbox) + [e];
  }

  lemma ExpireConserves(s: State, i: nat)
    requires Conserved(s) && i < |s.outbox|
    ensures Conserved(s.(outbox := s.outbox[..i] + s.outbox[i + 1..], expired := s.expired + [s.outbox[i].event]))
  {
    var live := LiveEvents(s.outbox);
    var rest := s.outbox[..i] + s.outbox[i + 1..];
    assert LiveEvents(rest) == live[..i] + live[i + 1..];
    assert live == live[..i] + [live[i]] + live[i + 1..];
  }

  lemma StepConserves(names: Names, s: State, step: Step)
    requires Conserved(s)
    ensures Conserved(After(names, s, step))
  {
    match step
    case Archive(a, candidate, _) => WrittenConserves(s, PartitionArchived(a.key, candidate));
    case Dek(d, _) =>
      if DekOk(d) {
        WrittenConserves(s, DekDestroyed(names.dek(NaturalKey(d))));
      }
    case Ci(c, _) => WrittenConserves(s, CiJobCompleted(names.ci(c.jobId)));
    case Process(i, at) =>
      if i < |s.outbox| {
        assert LiveEvents(s.outbox[i := s.outbox[i].(processedAt := Some(at))]) == LiveEvents(s.outbox);
      }
    case Expire(i, _, _) =>
      if i < |s.outbox| {
        ExpireConserves(s, i);
      }
  }

  lemma StepArchivesOnce(names: Names, s: State, step: Step)
    requires ArchivesOnce(s)
    ensures ArchivesOnce(After(names, s, step))
  {
    var t := After(names, s, step);
    forall k, id
      ensures Times(t.log, PartitionArchived(k, id)) == if k in t.archives && t.archives[k] == id then 1 else 0
    {
      assert Times(s.log, PartitionArchived(k, id)) == if k in s.archives && s.archives[k] == id then 1 else 0;
    }
  }

  lemma StepLiveOnce(names: Names, s: State, step: Step)
    requires LiveOnce(s)
    ensures LiveOnce(After(names, s, step))
  {
  }

  /** Over every run: conservation, exactly one archived event per recorded partition,
      and at most one live row per DEK or CI aggregate. */
  lemma {:induction false} RunKeeps(names: Names, steps: seq<Step>)
    ensures Conserved(Run(names, steps)) && ArchivesOnce(Run(names, steps)) && LiveOnce(Run(names, steps))
  {
    if steps != [] {
      var n := |steps| - 1;
      RunKeeps(names, steps[..n]);
      StepConserves(names, Run(names, steps[..n]), steps[n]);
      StepArchivesOnce(names, Run(names, steps[..n]), steps[n]);
      StepLiveOnce(names, Run(names, steps[..n]), steps[n]);
    }
  }

  lemma LiveLast(outbox: seq<OutboxRow>, e: Event)
    requires outbox != []
    ensures var n := |outbox| - 1;
            Live(outbox, e) <==> Live(outbox[..n], e) || outbox[n].event == e
  {
    var n := |outbox| - 1;
    assert forall i | 0 <= i < n :: outbox[..n][i] == outbox[i];
  }

  lemma {:induction false} AtMostOne(outbox: seq<OutboxRow>, e: Event)
    requires forall i, j | 0 <= i < j < |outbox| && outbox[i].event == e :: outbox[j].event != e
    ensures Times(LiveEvents(outbox), e) == if Live(outbox, e) then 1 else 0
  {
    if outbox != [] {
      var n := |outbox| - 1;
      AtMostOne(outbox[..n], e);
      assert LiveEvents(outbox) == LiveEvents(outbox[..n]) + [outbox[n].event];
      LiveLast(outbox, e);
      if Live(outbox[..n], e) {
        var i :| 0 <= i < n && outbox[..n][i].event == e;
        assert outbox[n].event != e;
      }
    }
  }

  /** A DEK or CI event is written again exactly as often as its row has expired: its
      writes are its expiries plus the live row, if there is one. */
  lemma RepeatsAreExpiries(names: Names, steps: seq<Step>, e: Event)
    requires !e.PartitionArchived?
    ensures var s := Run(names, steps);
            Times(s.log, e) == Times(s.expired, e) + if Live(s.outbox, e) then 1 else 0
  {
    RunKeeps(names, steps);
    AtMostOne(Run(names, steps).outbox, e);
  }

  /** The repeat happens: drain, expire after any TTL, retry writes the same event again. */
  lemma RetryAfterExpiryRepeats(names: Names, d: DekInput, at: int, now: int, ttl: int)
    requires DekOk(d) && at < now - ttl
    ensures var e := DekDestroyed(names.dek(NaturalKey(d)));
            Run(names, [Dek(d, Commits), Process(0, at), Expire(0, now, ttl), Dek(d, Commits)]).log == [e, e]
  {
    var e := DekDestroyed(names.dek(NaturalKey(d)));
    var steps := [Dek(d, Commits), Process(0, at), Expire(0, now, ttl), Dek(d, Commits)];
    assert steps[..3] == [Dek(d, Commits), Process(0, at), Expire(0, now, ttl)];
    assert steps[..3][..2] == [Dek(d, Commits), Process(0, at)];
    assert steps[..3][..2][..1] == [Dek(d, Commits)];
    assert steps[..3][..2][..1][..0] == [];
    assert Run(names, steps[..3][..2][..1]) == State(map[], [OutboxRow(e, None)], [e], []);
    assert Run(names, steps[..3][..2]) == State(map[], [OutboxRow(e, Some(at))], [e], []);
    assert Run(names, steps[..3]) == State(map[], [], [e], [e]);
  }

  // ------------------------------------------------------------- the service

  class PostgresService {
    const names: Names
    var archives: map<ArchiveKey, Id>
    var outbox: seq<OutboxRow>
    ghost var log: seq<Event>
    ghost var expired: seq<Event>

    ghost function View(): State
      reads this
    {
      State(archives, outbox, log, expired)
    }

    constructor (names: Names)
      ensures this.names == names && View() == EMPTY
    {
      this.names := names;
      archives, outbox, log, expired := map[], [], [], [];
    }

    method WriteOutbox(e: Event)
      modifies this`outbox, this`log
      ensures View() == Written(old(View()), e)
    {
      outbox, log := outbox + [OutboxRow(e, None)], log + [e];
    }

    /** Created is reported exactly by the call that wrote, unless its reply was lost. */
    method RecordPartitionArchived(a: ArchiveInput, candidate: Id, fate: Fate) returns (r: Reply)
      modifies this`archives, this`outbox, this`log
      ensures View() == After(names, old(View()), Archive(a, candidate, fate))
      ensures r.Invalid? <==>
                || a.key.year < 2026 || a.key.year > 2100 || a.key.month < 1 || a.key.month > 12
                || a.key.name == "" || a.lakeUri == "" || a.rowCount < 0 || a.bytesWritten < 0
      ensures r == if r.Invalid? then Invalid else if !fate.Commits? then Failed
                   else Recorded(archives[a.key], log != old(log))
      ensures r.Recorded? ==> a.key in archives && (r.created <==> a.key !in old(archives))
      ensures r.Recorded? ==> archives == if r.created then old(archives)[a.key := candidate] else old(archives)
      ensures r.Recorded? && r.created ==> Live(outbox, PartitionArchived(a.key, candidate))
    {
      if !ArchiveOk(a) {
        return Invalid;
      }
      if fate.RollsBack? {
        return Failed;
      }
      var created := a.key !in archives;
      if created {
        archives := archives[a.key := candidate];
        WriteOutbox(PartitionArchived(a.key, candidate));
        assert outbox[|outbox| - 1].event == PartitionArchived(a.key, candidate);
      }
      r := if fate.Commits? then Recorded(archives[a.key], created) else Failed;
    }

    method HasOutboxEvent(e: Event) returns (found: bool)
      ensures found <==> Live(outbox, e)
    {
      for i := 0 to |outbox|
        invariant forall j | 0 <= j < i :: outbox[j].event != e
      {
        if outbox[i].event == e {
          return true;
        }
      }
      found := false;
    }

    method RecordOnce(e: Event, fate: Fate) returns (created: bool)
      modifies this`outbox, this`log
      ensures View() == Once(old(View()), e, fate)
      ensures created <==> log != old(log)
      ensures !fate.RollsBack? ==> Live(outbox, e) && (created <==> !Live(old(outbox), e))
    {
      if fate.RollsBack? {
        return false;
      }
      var exists_ := HasOutboxEvent(e);
      if exists_ {
        return false;
      }
      WriteOutbox(e);
      assert outbox[|outbox| - 1].event == e;
      created := true;
    }

    method RecordCIJobCompleted(c: CiInput, fate: Fate) returns (r: Reply)
      modifies this`outbox, this`log
      ensures View() == After(names, old(View()), Ci(c, fate))
      ensures r.Invalid? <==>
                || c.jobId == 0 || c.principalId == 0 || c.orgId == 0
                || (c.principalKind != "human" && c.principalKind != "agent" && c.principalKind != "service")
                || (c.tier != "hot" && c.tier != "cold") || c.vcpuSeconds < 0 || c.memoryMbSeconds < 0 || c.egressKb < 0
      ensures r == if r.Invalid? then Invalid else if !fate.Commits? then Failed
                   else Recorded(names.ci(c.jobId), log != old(log))
      ensures r.Recorded? ==> Live(outbox, CiJobCompleted(r.id)) && (r.created <==> !Live(old(outbox), CiJobCompleted(r.id)))
    {
      if !CiOk(c) {
        return Invalid;
      }
      var id := names.ci(c.jobId);
      var created := RecordOnce(CiJobCompleted(id), fate);
      r := if fate.Commits? then Recorded(id, created) else Failed;
    }

    method RecordDEKDestroyed(d: DekInput, fate: Fate) returns (r: Reply)
      modifies this`outbox, this`log
      ensures View() == After(names, old(View()), Dek(d, fate))
      ensures r.Invalid? <==>
                || d.year < 2026 || d.year > 2100 || d.month < 1 || d.month > 12
                || d.name == "" || d.kekHint == "" || d.keyVersion < 1
      ensures r == if r.Invalid? then Invalid else if !fate.Commits? then Failed
                   else Recorded(names.dek(NaturalKey(d)), log != old(log))
      ensures r.Recorded? ==> Live(outbox, DekDestroyed(r.id)) && (r.created <==> !Live(old(outbox), DekDestroyed(r.id)))
    {
      if !DekOk(d) {
        return Invalid;
      }
      var id := names.dek(NaturalKey(d));
      var created := RecordOnce(DekDestroyed(id), fate);
      r := if fate.Commits? then Recorded(id, created) else Failed;
    }

    method MarkProcessed(i: nat, at: int)
      modifies this`outbox
      ensures View() == After(names, old(View()), Process(i, at))
    {
      if i < |outbox| {
        outbox := outbox[i := outbox[i].(processedAt := Some(at))];
      }
    }

    method ExpireRow(i: nat, now: int, ttl: int)
      modifies this`outbox, this`expired
      ensures View() == After(names, old(View()), Expire(i, now, ttl))
      ensures var old_ := old(outbox);
              outbox == if i < |old_| && old_[i].processedAt.Some? && old_[i].processedAt.value < now - ttl
                        then old_[..i] + old_[i + 1..] else old_
    {
      if i < |outbox| && outbox[i].processedAt.Some? && outbox[i].processedAt.value < now - ttl {
        expired := expired + [outbox[i].event];
        outbox := outbox[..i] + outbox[i + 1..];
      }
    }
  }
}

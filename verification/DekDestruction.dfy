/** Crypto-shredding archived partitions: an irreversible, cumulative trim of a Vault
    transit key behind two gates, with failures possible at every call. */
module DekDestruction {
  import opened Common

  // ------------------------------------------------------------ the key hint

  /** Start of the last occurrence of "-v", or -1. */
  function LastDashV(s: string): (k: int)
    ensures -1 <= k && (k >= 0 ==> k + 2 <= |s| && s[k] == '-' && s[k + 1] == 'v')
  {
    if |s| < 2 then -1
    else if s[|s| - 2] == '-' && s[|s| - 1] == 'v' then |s| - 2
    else LastDashV(s[..|s| - 1])
  }

  /** The version a hint such as "platform-billing-v7" names. */
  function VersionOf(hint: string): (v: Option<int>)
    ensures v.Some? ==> v.value >= 1
  {
    var k := LastDashV(hint);
    if k < 0 then None
    else
      var v := Atoi(hint[k + 2..]);
      if v.None? || v.value < 1 then None else v
  }

  lemma {:induction false} LastDashVOf(prefix: string, tail: string)
    requires forall c | c in tail :: IsDigit(c)
    ensures LastDashV(prefix + "-v" + tail) == |prefix|
  {
    var s := prefix + "-v" + tail;
    if tail != [] {
      var n := |tail| - 1;
      assert s[|s| - 1] == tail[n] && tail[n] in tail;
      assert s[..|s| - 1] == prefix + "-v" + tail[..n];
      LastDashVOf(prefix, tail[..n]);
    }
  }

  /** Every hint the export path emits reads back as its version. */
  lemma HintRoundTrip(prefix: string, version: int)
    requires 1 <= version < 0x8000_0000_0000_0000
    ensures VersionOf(prefix + "-v" + Decimal(version)) == Some(version)
  {
    var tail := Decimal(version);
    NaturalOfDecimal(version);
    DecimalIsDigits(version);
    assert tail[0] in tail;
    LastDashVOf(prefix, tail);
    assert (prefix + "-v" + tail)[|prefix| + 2..] == tail;
  }

  /** The hint ends in "-v" and a number from one that `strconv.Atoi` reads. */
  ghost predicate Names(hint: string, prefix: string, tail: string, v: int)
  {
    hint == prefix + "-v" + tail && Atoi(tail) == Some(v) && v >= 1
  }

  lemma NumeralHasNoV(tail: string)
    requires Atoi(tail).Some?
    ensures 'v' !in tail
  {
    var signed := tail != [] && (tail[0] == '-' || tail[0] == '+');
    var digits := if signed then tail[1..] else tail;
    assert forall c | c in digits :: IsDigit(c);
    assert 'v' in tail ==> 'v' in digits by {
      assert signed ==> tail == [tail[0]] + digits;
    }
    assert !IsDigit('v');
  }

  lemma {:induction false} LastDashVIs(s: string, k: nat)
    requires k + 2 <= |s| && s[k] == '-' && s[k + 1] == 'v' && 'v' !in s[k + 2..]
    ensures LastDashV(s) == k
    decreases |s|
  {
    var n := |s| - 1;
    if k + 2 < |s| {
      assert s[n] in s[k + 2..];
      assert s[k + 2..] == s[..n][k + 2..] + [s[n]];
      LastDashVIs(s[..n], k);
    }
  }

  /** Exactly these hints name a version, and it is the number at their end. */
  lemma VersionIff(hint: string, v: int)
    ensures VersionOf(hint) == Some(v) <==> exists prefix, tail :: Names(hint, prefix, tail, v)
  {
    var k := LastDashV(hint);
    if VersionOf(hint) == Some(v) {
      NumeralHasNoV(hint[k + 2..]);
      assert hint == hint[..k] + "-v" + hint[k + 2..];
      assert Names(hint, hint[..k], hint[k + 2..], v);
    }
    forall prefix, tail | Names(hint, prefix, tail, v) ensures VersionOf(hint) == Some(v) {
      NumeralHasNoV(tail);
      assert hint[|prefix| + 2..] == tail;
      LastDashVIs(hint, |prefix|);
    }
  }

  // ---------------------------------------------------------------- the key

  /** The transit key's version bounds; versions below `minAvail` no longer exist. */
  datatype Key = Gone | Live(minAvail: int, minDec: int, minEnc: int)

  /** A write is applied and acknowledged, applied though an error came back, or lost. */
  datatype Fate = Landed | LandedUnreported | Lost

  predicate Acknowledged(f: Fate) { f.Landed? }

  /** Vault keeps the available minimum at or below both configured minimums. */
  predicate KeyOk(k: Key) { k.Live? ==> k.minAvail <= k.minDec && k.minAvail <= k.minEnc }

  function Configured(k: Key, v: int, f: Fate): Key
  {
    if k.Gone? || f.Lost? then k else k.(minDec := v + 1, minEnc := v + 1)
  }

  /** Vault refuses a trim above either minimum, or one that would lower the bound. */
  predicate TrimAllowed(k: Key, v: int) { k.Live? && k.minAvail <= v + 1 && v + 1 <= k.minDec && v + 1 <= k.minEnc }

  function Trimmed(k: Key, v: int, f: Fate): Key
  {
    if f.Lost? || !TrimAllowed(k, v) then k else k.(minAvail := v + 1)
  }

  // ------------------------------------------------ one attempt and retries

  /** Whether the read answers, and the fates of the two writes. */
  datatype Try = Try(readable: bool, config: Fate, trim: Fate)

  /** The key after an attempt, and whether the attempt reported success. */
  datatype Tried = Tried(key: Key, ok: bool)

  function Attempt(k: Key, v: int, t: Try): Tried
  {
    if !t.readable then Tried(k, false)
    else if k.Gone? || k.minAvail > v then Tried(k, true)
    else
      var configured := Configured(k, v, t.config);
      if !Acknowledged(t.config) then Tried(configured, false)
      else
        var trimmed := Trimmed(configured, v, t.trim);
        Tried(trimmed, Acknowledged(t.trim) && TrimAllowed(configured, v))
  }

  /** Attempts until one succeeds or they run out. */
  function Retried(k: Key, v: int, ts: seq<Try>): Tried
    decreases ts
  {
    if ts == [] then Tried(k, false)
    else
      var r := Attempt(k, v, ts[0]);
      if r.ok then r else Retried(r.key, v, ts[1..])
  }

  /** The available minimum moves from at or below the target to just above it, or not
      at all, and a reported success means the version is gone. */
  ghost predicate Trims(k: Key, v: int, r: Tried)
  {
    && KeyOk(r.key) && (r.key.Gone? <==> k.Gone?)
    && (k.Live? ==> r.key.minAvail == k.minAvail || (k.minAvail <= v && r.key.minAvail == v + 1))
    && (r.ok ==> Destroyed(r.key, v))
  }

  predicate Destroyed(k: Key, v: int) { k.Gone? || v < k.minAvail }

  lemma AttemptTrims(k: Key, v: int, t: Try)
    requires KeyOk(k)
    ensures Trims(k, v, Attempt(k, v, t))
  {
  }

  lemma {:induction false} RetriedTrims(k: Key, v: int, ts: seq<Try>)
    requires KeyOk(k)
    ensures Trims(k, v, Retried(k, v, ts))
    decreases ts
  {
    if ts != [] {
      AttemptTrims(k, v, ts[0]);
      if !Attempt(k, v, ts[0]).ok {
        RetriedTrims(Attempt(k, v, ts[0]).key, v, ts[1..]);
      }
    }
  }

  /** The attempt's configuration write reaches the key. */
  predicate Configures(t: Try) { t.readable && !t.config.Lost? }

  /** The attempt gets as far as the trim, and the trim reaches the key. */
  predicate Lands(t: Try) { t.readable && t.config.Landed? && !t.trim.Lost? }

  predicate SomeConfigures(ts: seq<Try>) { exists t | t in ts :: Configures(t) }

  predicate SomeLands(ts: seq<Try>) { exists t | t in ts :: Lands(t) }

  /** The key after all retries, from the fates alone: a version still available is
      trimmed as soon as one attempt lands, acknowledged or not. */
  function Outcome(k: Key, v: int, ts: seq<Try>): Key
  {
    if k.Gone? || k.minAvail > v then k
    else
      Live(if SomeLands(ts) then v + 1 else k.minAvail,
           if SomeConfigures(ts) then v + 1 else k.minDec,
           if SomeConfigures(ts) then v + 1 else k.minEnc)
  }

  lemma SomeHead(ts: seq<Try>)
    requires ts != []
    ensures SomeLands(ts) <==> Lands(ts[0]) || SomeLands(ts[1..])
    ensures SomeConfigures(ts) <==> Configures(ts[0]) || SomeConfigures(ts[1..])
  {
    assert ts == [ts[0]] + ts[1..];
  }

  lemma SomeLandsConfigures(ts: seq<Try>)
    ensures SomeLands(ts) ==> SomeConfigures(ts)
  {
    if SomeLands(ts) {
      var t :| t in ts && Lands(t);
      assert Configures(t);
    }
  }

  lemma AttemptIs(k: Key, v: int, t: Try)
    requires KeyOk(k) && k.Live? && k.minAvail <= v
    ensures Attempt(k, v, t).key ==
            Live(if Lands(t) then v + 1 else k.minAvail,
                 if Configures(t) then v + 1 else k.minDec,
                 if Configures(t) then v + 1 else k.minEnc)
    ensures Attempt(k, v, t).ok ==> Lands(t)
  {
  }

  lemma {:induction false} RetriedIs(k: Key, v: int, ts: seq<Try>)
    requires KeyOk(k)
    ensures Retried(k, v, ts).key == Outcome(k, v, ts)
    decreases ts
  {
    if ts != [] {
      SomeHead(ts);
      SomeLandsConfigures(ts[1..]);
      AttemptTrims(k, v, ts[0]);
      if k.Live? && k.minAvail <= v {
        AttemptIs(k, v, ts[0]);
      }
      if !Attempt(k, v, ts[0]).ok {
        RetriedIs(Attempt(k, v, ts[0]).key, v, ts[1..]);
      }
    }
  }

  /** The configured minimums are not monotone: they are set to just above the target,
      which lowers them exactly when they were beyond it and the version was not yet
      trimmed. */
  lemma MinimumsFallIff(k: Key, v: int, ts: seq<Try>)
    requires KeyOk(k) && k.Live?
    ensures var r := Retried(k, v, ts).key;
            && r.Live?
            && (r.minDec < k.minDec <==> k.minAvail <= v && v + 1 < k.minDec && SomeConfigures(ts))
            && (r.minEnc < k.minEnc <==> k.minAvail <= v && v + 1 < k.minEnc && SomeConfigures(ts))
  {
    RetriedIs(k, v, ts);
  }

  /** A trim lost after its configuration leaves lower minimums than before. */
  lemma MinimumsFall()
    ensures Retried(Live(3, 11, 11), 5, [Try(true, Landed, Lost)]).key == Live(3, 6, 6)
  {
    var ts := [Try(true, Landed, Lost)];
    assert ts[1..] == [];
    assert Retried(Live(3, 6, 6), 5, ts[1..]) == Tried(Live(3, 6, 6), false);
  }

  // ---------------------------------------------------------- the workflow

  datatype Partition = Partition(tag: string, kekHint: string)

  datatype Hold = HoldError | Held(reason: string) | Free

  datatype Approval = ApprovalError | Refused(reason: string) | Granted

  /** What the outside world does while one partition is processed. */
  datatype World = World(hold: Hold, approval: Approval, tries: seq<Try>, emit: Fate)

  datatype Cause =
    | MissingKekHint | LegalHoldError | LegalHold(reason: string) | OperatorError
    | Rejected(reason: string) | DestroyError | EmitError

  datatype Skip = Skip(tag: string, cause: Cause)

  /** The key, the run's counters, and the audit events that reached the outbox. */
  datatype Progress = Progress(key: Key, destroyed: nat, skipped: seq<Skip>, emitted: seq<int>)

  predicate Passes(p: Partition, w: World) { p.kekHint != "" && w.hold.Free? && w.approval.Granted? }

  function Processed(s: Progress, p: Partition, w: World): Progress
  {
    if p.kekHint == "" then Skipping(s, p, MissingKekHint)
    else if w.hold.HoldError? then Skipping(s, p, LegalHoldError)
    else if w.hold.Held? then Skipping(s, p, LegalHold(w.hold.reason))
    else if w.approval.ApprovalError? then Skipping(s, p, OperatorError)
    else if w.approval.Refused? then Skipping(s, p, Rejected(w.approval.reason))
    else if VersionOf(p.kekHint).None? then Skipping(s, p, DestroyError)
    else
      var v := VersionOf(p.kekHint).value;
      var r := Retried(s.key, v, w.tries);
      if !r.ok then Skipping(s.(key := r.key), p, DestroyError)
      else
        var done := s.(key := r.key, destroyed := s.destroyed + 1,
                       emitted := if w.emit.Lost? then s.emitted else s.emitted + [v]);
        if Acknowledged(w.emit) then done else Skipping(done, p, EmitError)
  }

  function Skipping(s: Progress, p: Partition, cause: Cause): Progress
  {
    s.(skipped := s.skipped + [Skip(p.tag, cause)])
  }

  function After(s: Progress, ps: seq<Partition>, ws: seq<World>): Progress
    requires |ps| == |ws|
  {
    if ps == [] then s
    else
      var n := |ps| - 1;
      Processed(After(s, ps[..n], ws[..n]), ps[n], ws[n])
  }

  // -- the code

  class TransitKey {
    var state: Key

    method WriteConfig(v: int, f: Fate) returns (ok: bool)
      modifies this
      ensures state == Configured(old(state), v, f) && ok == Acknowledged(f)
    {
      if state.Live? && !f.Lost? {
        state := state.(minDec := v + 1, minEnc := v + 1);
      }
      ok := f.Landed?;
    }

    method WriteTrim(v: int, f: Fate) returns (ok: bool)
      modifies this
      ensures state == Trimmed(old(state), v, f) && ok == (Acknowledged(f) && TrimAllowed(old(state), v))
    {
      var allowed := TrimAllowed(state, v);
      if allowed && !f.Lost? {
        state := state.(minAvail := v + 1);
      }
      ok := f.Landed? && allowed;
    }

    /** One execution of the activity. */
    method Execute(hint: string, t: Try) returns (r: Option<int>)
      modifies this
      ensures VersionOf(hint).None? ==> r.None? && state == old(state)
      ensures VersionOf(hint).Some? ==>
                var a := Attempt(old(state), VersionOf(hint).value, t);
                state == a.key && r == if a.ok then VersionOf(hint) else None
    {
      var version := VersionOf(hint);
      if version.None? || !t.readable {
        return None;
      }
      var v := version.value;
      if state.Gone? || state.minAvail > v {
        return Some(v);
      }
      var ok := WriteConfig(v, t.config);
      if !ok {
        return None;
      }
      ok := WriteTrim(v, t.trim);
      if !ok {
        return None;
      }
      r := Some(v);
    }

    /** The activity under its retry policy. */
    method ExecuteRetried(hint: string, ts: seq<Try>) returns (r: Option<int>)
      modifies this
      ensures VersionOf(hint).None? ==> r.None? && state == old(state)
      ensures VersionOf(hint).Some? ==>
                var a := Retried(old(state), VersionOf(hint).value, ts);
                state == a.key && r == if a.ok then VersionOf(hint) else None
    {
      r := None;
      ghost var v := VersionOf(hint);
      var i := 0;
      while i < |ts| && r.None?
        invariant i <= |ts|
        invariant v.None? ==> r.None? && state == old(state)
        invariant v.Some? && r.None? ==> Retried(old(state), v.value, ts) == Retried(state, v.value, ts[i..])
        invariant v.Some? && r.Some? ==> r == v && Retried(old(state), v.value, ts) == Tried(state, true)
        decreases |ts| - i
      {
        assert ts[i..][1..] == ts[i + 1..];
        r := Execute(hint, ts[i]);
        i := i + 1;
      }
    }
  }

  datatype Report = Failed | Finished(scanned: nat, keysDestroyed: nat, skipped: seq<Skip>)

  /** The workflow. `listed` is the sorted list of eligible partitions, if it came. */
  method DestroyEligible(vault: TransitKey, cutoffSet: bool, listed: Option<seq<Partition>>, ws: seq<World>)
    returns (out: Report, emitted: seq<int>)
    requires listed.Some? ==> |listed.value| == |ws|
    modifies vault
    ensures !cutoffSet || listed.None? ==> out.Failed? && vault.state == old(vault.state) && emitted == []
    ensures cutoffSet && listed.Some? ==>
              var s := After(Progress(old(vault.state), 0, [], []), listed.value, ws);
              && vault.state == s.key && emitted == s.emitted
              && out == Finished(|listed.value|, s.destroyed, s.skipped)
  {
    emitted := [];
    if !cutoffSet || listed.None? {
      return Failed, [];
    }
    var ps := listed.value;
    var destroyed: nat, skipped := 0, [];
    ghost var start := Progress(vault.state, 0, [], []);
    assert ps[..0] == [] && ws[..0] == [];
    for i := 0 to |ps|
      invariant Progress(vault.state, destroyed, skipped, emitted) == After(start, ps[..i], ws[..i])
    {
      assert ps[..i + 1][..i] == ps[..i] && ws[..i + 1][..i] == ws[..i];
      destroyed, skipped, emitted := Handle(vault, ps[i], ws[i], destroyed, skipped, emitted);
    }
    assert ps[..|ps|] == ps && ws[..|ws|] == ws;
    out := Finished(|ps|, destroyed, skipped);
  }

  method Handle(vault: TransitKey, p: Partition, w: World, destroyed0: nat, skipped0: seq<Skip>, emitted0: seq<int>)
    returns (destroyed: nat, skipped: seq<Skip>, emitted: seq<int>)
    modifies vault
    ensures Progress(vault.state, destroyed, skipped, emitted) ==
            Processed(Progress(old(vault.state), destroyed0, skipped0, emitted0), p, w)
    ensures p.kekHint == "" ==> skipped == skipped0 + [Skip(p.tag, MissingKekHint)]
    ensures p.kekHint != "" ==>
              && (w.hold.HoldError? ==> skipped == skipped0 + [Skip(p.tag, LegalHoldError)])
              && (w.hold.Held? ==> skipped == skipped0 + [Skip(p.tag, LegalHold(w.hold.reason))])
              && (w.hold.Free? && w.approval.ApprovalError? ==> skipped == skipped0 + [Skip(p.tag, OperatorError)])
              && (w.hold.Free? && w.approval.Refused? ==> skipped == skipped0 + [Skip(p.tag, Rejected(w.approval.reason))])
    ensures !(p.kekHint != "" && w.hold.Free? && w.approval.Granted?) ==>
              vault.state == old(vault.state) && destroyed == destroyed0 && emitted == emitted0
    ensures p.kekHint != "" && w.hold.Free? && w.approval.Granted? ==>
              if destroyed == destroyed0 then skipped == skipped0 + [Skip(p.tag, DestroyError)] && emitted == emitted0
              else
                && destroyed == destroyed0 + 1 && (exists v :: emitted == if w.emit.Lost? then emitted0 else emitted0 + [v])
                && skipped == if w.emit.Landed? then skipped0 else skipped0 + [Skip(p.tag, EmitError)]
  {
    destroyed, skipped, emitted := destroyed0, skipped0, emitted0;
    if p.kekHint == "" {
      skipped := skipped + [Skip(p.tag, MissingKekHint)];
      return;
    }
    match w.hold {
      case HoldError =>
        skipped := skipped + [Skip(p.tag, LegalHoldError)];
        return;
      case Held(reason) =>
        skipped := skipped + [Skip(p.tag, LegalHold(reason))];
        return;
      case Free =>
    }
    match w.approval {
      case ApprovalError =>
        skipped := skipped + [Skip(p.tag, OperatorError)];
        return;
      case Refused(reason) =>
        skipped := skipped + [Skip(p.tag, Rejected(reason))];
        return;
      case Granted =>
    }
    var version := vault.ExecuteRetried(p.kekHint, w.tries);
    if version.None? {
      skipped := skipped + [Skip(p.tag, DestroyError)];
      return;
    }
    if !w.emit.Lost? {
      emitted := emitted + [version.value];
    }
    if !w.emit.Landed? {
      skipped := skipped + [Skip(p.tag, EmitError)];
    }
    destroyed := destroyed + 1;
  }

  // --------------------------------------------------- what every run keeps

  function EmitErrors(skipped: seq<Skip>): nat
  {
    if skipped == [] then 0
    else EmitErrors(skipped[..|skipped| - 1]) + if skipped[|skipped| - 1].cause.EmitError? then 1 else 0
  }

  ghost predicate AllDestroyed(k: Key, versions: seq<int>) { forall v | v in versions :: Destroyed(k, v) }

  lemma ProcessedSkips(s: Progress, p: Partition, w: World) returns (why: Option<Cause>)
    ensures var t := Processed(s, p, w);
            && t.skipped == (if why.Some? then s.skipped + [Skip(p.tag, why.value)] else s.skipped)
            && t.destroyed == s.destroyed + if why.None? || why.value.EmitError? then 1 else 0
  {
    var t := Processed(s, p, w);
    why := if |t.skipped| == |s.skipped| then None else Some(t.skipped[|t.skipped| - 1].cause);
  }

  lemma EmitErrorsAppend(xs: seq<Skip>, x: Skip)
    ensures EmitErrors(xs + [x]) == EmitErrors(xs) + if x.cause.EmitError? then 1 else 0
  {
    assert (xs + [x])[..|xs|] == xs;
  }

  /** Each partition is counted once: destroyed, skipped, or both after an emit error. */
  lemma ProcessedCounts(s: Progress, p: Partition, w: World)
    ensures var t := Processed(s, p, w);
            t.destroyed + |t.skipped| + EmitErrors(s.skipped) == s.destroyed + |s.skipped| + EmitErrors(t.skipped) + 1
  {
    var why := ProcessedSkips(s, p, w);
    if why.Some? {
      EmitErrorsAppend(s.skipped, Skip(p.tag, why.value));
    }
  }

  /** The bound moves only for a partition past both gates, to just above its version;
      what was gone stays gone, and what is newly reported gone is gone. */
  ghost predicate Advances(s: Progress, p: Partition, w: World, t: Progress)
  {
    && KeyOk(t.key) && (t.key.Gone? <==> s.key.Gone?)
    && (s.key.Live? ==> s.key.minAvail <= t.key.minAvail)
    && (s.key.Live? && t.key.minAvail != s.key.minAvail ==>
          Passes(p, w) && VersionOf(p.kekHint).Some? && t.key.minAvail == VersionOf(p.kekHint).value + 1)
    && (t.emitted == s.emitted || exists v :: t.emitted == s.emitted + [v] && Destroyed(t.key, v))
  }

  lemma ProcessedAdvances(s: Progress, p: Partition, w: World)
    requires KeyOk(s.key)
    ensures Advances(s, p, w, Processed(s, p, w))
  {
    if Passes(p, w) && VersionOf(p.kekHint).Some? {
      var v := VersionOf(p.kekHint).value;
      RetriedTrims(s.key, v, w.tries);
      assert !w.emit.Lost? && Retried(s.key, v, w.tries).ok ==> Processed(s, p, w).emitted == s.emitted + [v];
    }
  }

  /** The state of a run that starts with this key. */
  function From(k: Key): Progress { Progress(k, 0, [], []) }

  function KeyAfter(k: Key, ps: seq<Partition>, ws: seq<World>): Key
    requires |ps| == |ws|
  {
    After(From(k), ps, ws).key
  }

  /** Over the whole run: the bound only grows and stays at or below both minimums, every
      emitted version is destroyed, and the accounting balances. */
  lemma {:induction false} RunKeeps(k: Key, ps: seq<Partition>, ws: seq<World>)
    requires KeyOk(k) && |ps| == |ws|
    ensures var t := After(From(k), ps, ws);
            && KeyOk(t.key) && (t.key.Gone? <==> k.Gone?) && AllDestroyed(t.key, t.emitted)
            && (k.Live? ==> k.minAvail <= t.key.minAvail)
            && t.destroyed + |t.skipped| == |ps| + EmitErrors(t.skipped)
  {
    if ps != [] {
      var n := |ps| - 1;
      var s := After(From(k), ps[..n], ws[..n]);
      RunKeeps(k, ps[..n], ws[..n]);
      ProcessedAdvances(s, ps[n], ws[n]);
      ProcessedCounts(s, ps[n], ws[n]);
    }
  }

  /** The partition passes both gates and one of its trims reaches the key. */
  predicate Shreds(p: Partition, w: World) { Passes(p, w) && VersionOf(p.kekHint).Some? && SomeLands(w.tries) }

  /** No partition whose trim lands carries version `u` or a later one. */
  ghost predicate Spared(ps: seq<Partition>, ws: seq<World>, u: int)
    requires |ps| == |ws|
  {
    forall i | 0 <= i < |ps| && Shreds(ps[i], ws[i]) :: VersionOf(ps[i].kekHint).value < u
  }

  lemma ProcessedBound(s: Progress, p: Partition, w: World)
    requires KeyOk(s.key) && s.key.Live?
    ensures var t := Processed(s, p, w);
            && t.key.Live?
            && t.key.minAvail ==
               if Shreds(p, w) && s.key.minAvail <= VersionOf(p.kekHint).value
               then VersionOf(p.kekHint).value + 1 else s.key.minAvail
  {
    if Passes(p, w) && VersionOf(p.kekHint).Some? {
      RetriedIs(s.key, VersionOf(p.kekHint).value, w.tries);
    }
  }

  /** Exactly which versions outlive a run, read off its inputs: those at or above the old
      bound and above every version whose partition passes both gates and whose trim
      lands. A hold on a version plays no part. */
  lemma {:induction false} SurvivesIff(k: Key, ps: seq<Partition>, ws: seq<World>, u: int)
    requires KeyOk(k) && k.Live? && |ps| == |ws|
    ensures KeyAfter(k, ps, ws).Live?
    ensures KeyAfter(k, ps, ws).minAvail <= u <==> k.minAvail <= u && Spared(ps, ws, u)
  {
    if ps != [] {
      var n := |ps| - 1;
      RunKeeps(k, ps[..n], ws[..n]);
      SurvivesIff(k, ps[..n], ws[..n], u);
      ProcessedBound(After(From(k), ps[..n], ws[..n]), ps[n], ws[n]);
      SparedStep(ps, ws, u);
    }
  }

  lemma SparedStep(ps: seq<Partition>, ws: seq<World>, u: int)
    requires |ps| == |ws| && ps != []
    ensures var n := |ps| - 1;
            Spared(ps, ws, u) <==>
            Spared(ps[..n], ws[..n], u) && (Shreds(ps[n], ws[n]) ==> VersionOf(ps[n].kekHint).value < u)
  {
    var n := |ps| - 1;
    assert forall i | 0 <= i < n :: ps[..n][i] == ps[i] && ws[..n][i] == ws[i];
  }

  /** The bound never passes a limit that the old bound and every version past both gates
      stay below. */
  lemma {:induction false} BoundedByPassing(k: Key, ps: seq<Partition>, ws: seq<World>, limit: int)
    requires KeyOk(k) && k.Live? && |ps| == |ws| && k.minAvail <= limit
    requires forall i | 0 <= i < |ps| && Passes(ps[i], ws[i]) && VersionOf(ps[i].kekHint).Some? ::
               VersionOf(ps[i].kekHint).value < limit
    ensures KeyAfter(k, ps, ws).Live? && KeyAfter(k, ps, ws).minAvail <= limit
  {
    RunKeeps(k, ps, ws);
    if ps != [] {
      var n := |ps| - 1;
      RunKeeps(k, ps[..n], ws[..n]);
      BoundedByPassing(k, ps[..n], ws[..n], limit);
      ProcessedAdvances(After(From(k), ps[..n], ws[..n]), ps[n], ws[n]);
    }
  }

  lemma ProcessedKeepsGone(s: Progress, p: Partition, w: World, u: int)
    requires KeyOk(s.key) && Destroyed(s.key, u)
    ensures Destroyed(Processed(s, p, w).key, u)
  {
    ProcessedAdvances(s, p, w);
  }

  lemma ProcessedDestroys(s: Progress, p: Partition, w: World)
    requires KeyOk(s.key) && Passes(p, w) && VersionOf(p.kekHint).Some?
    requires Retried(s.key, VersionOf(p.kekHint).value, w.tries).ok
    ensures Destroyed(Processed(s, p, w).key, VersionOf(p.kekHint).value)
  {
    RetriedTrims(s.key, VersionOf(p.kekHint).value, w.tries);
  }

  lemma {:induction false} GoneStaysGone(k: Key, ps: seq<Partition>, ws: seq<World>, m: nat, u: int)
    requires KeyOk(k) && |ps| == |ws| && m <= |ps| && Destroyed(KeyAfter(k, ps[..m], ws[..m]), u)
    ensures Destroyed(KeyAfter(k, ps, ws), u)
    decreases |ps| - m
  {
    if m == |ps| {
      assert ps[..m] == ps && ws[..m] == ws;
    } else {
      RunKeeps(k, ps[..m], ws[..m]);
      AfterNext(From(k), ps, ws, m);
      ProcessedKeepsGone(After(From(k), ps[..m], ws[..m]), ps[m], ws[m], u);
      GoneStaysGone(k, ps, ws, m + 1, u);
    }
  }

  /** Whatever reports success leaves every version up to its own destroyed. */
  lemma SuccessDestroysBelow(k: Key, ps: seq<Partition>, ws: seq<World>, i: nat, u: int)
    requires KeyOk(k) && |ps| == |ws| && i < |ps|
    requires Passes(ps[i], ws[i]) && VersionOf(ps[i].kekHint).Some? && u <= VersionOf(ps[i].kekHint).value
    requires Retried(KeyAfter(k, ps[..i], ws[..i]), VersionOf(ps[i].kekHint).value, ws[i].tries).ok
    ensures Destroyed(KeyAfter(k, ps, ws), u)
  {
    RunKeeps(k, ps[..i], ws[..i]);
    ProcessedDestroys(After(From(k), ps[..i], ws[..i]), ps[i], ws[i]);
    AfterNext(From(k), ps, ws, i);
    GoneStaysGone(k, ps, ws, i + 1, u);
  }

  /** A legal hold does not protect: a partition under hold loses its key in every run in
      which the trim of some partition of the same or a later version lands. */
  lemma HoldDoesNotProtect(k: Key, ps: seq<Partition>, ws: seq<World>, held: nat, i: nat)
    requires KeyOk(k) && |ps| == |ws| && held < |ps| && i < |ps|
    requires ws[held].hold.Held? && VersionOf(ps[held].kekHint).Some?
    requires Shreds(ps[i], ws[i]) && VersionOf(ps[held].kekHint).value <= VersionOf(ps[i].kekHint).value
    ensures Destroyed(KeyAfter(k, ps, ws), VersionOf(ps[held].kekHint).value)
  {
    RunKeeps(k, ps, ws);
    if k.Live? {
      SurvivesIff(k, ps, ws, VersionOf(ps[held].kekHint).value);
    }
  }

  lemma AfterNext(s: Progress, ps: seq<Partition>, ws: seq<World>, i: nat)
    requires |ps| == |ws| && i < |ps|
    ensures After(s, ps[..i + 1], ws[..i + 1]) == Processed(After(s, ps[..i], ws[..i]), ps[i], ws[i])
  {
    assert ps[..i + 1][..i] == ps[..i] && ws[..i + 1][..i] == ws[..i];
  }
}

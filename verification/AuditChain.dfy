/** The per-policy hash-chained audit log: what the row hash covers, chain
    verification, and what an accepted chain pins down. */
module AuditChain {
  import opened Common
  import opened CanonicalJson

  // --------------------------------------------------- rows and their hash

  function Zeros(n: nat): (b: Bytes)
    ensures |b| == n
  {
    seq(n, i => 0)
  }

  type Hash = b: Bytes | |b| == 32 witness Zeros(32)

  type Uuid = b: Bytes | |b| == 16 witness Zeros(16)

  /** A creation time as the int64 that `UnixNano` returns. */
  type Nanos = n: int | -0x8000_0000_0000_0000 <= n < 0x8000_0000_0000_0000

  const GENESIS: Hash := Zeros(32)

  const ZERO_ID: Uuid := Zeros(16)

  datatype Row = Row(
    id: int,
    policyId: Uuid,
    planId: Option<Uuid>,
    eventKind: string,
    actorId: Option<Uuid>,
    actorKind: string,
    payload: Bytes,
    prevHash: Hash,
    rowHash: Hash,
    createdAt: Nanos)

  const ACTOR_KINDS: set<string> := {"human", "agent", "service", "system"}

  const EVENT_KINDS: set<string> :=
    {"submitted", "approved", "rejected", "escalated", "expired", "auto_approved_no_rule", "auto_denied"}

  predicate ValidKinds(r: Row) { r.actorKind in ACTOR_KINDS && r.eventKind in EVENT_KINDS }

  /** The document a stored payload stands for; an absent payload reads as null. */
  function Document(c: Codec, payload: Bytes): Option<Json>
  {
    if payload == [] then Some(Null) else c.parse(payload)
  }

  function ActorBytes(r: Row): (b: Uuid)
  {
    if r.actorId.Some? then r.actorId.value else ZERO_ID
  }

  /** The low `width` bytes of `n` in two's complement, most significant first. */
  function LowBytes(n: int, width: nat): (b: Bytes)
    ensures |b| == width
    decreases width
  {
    if width == 0 then [] else LowBytes(n / 256, width - 1) + [n % 256]
  }

  /** `n >> (8 * i)`: the arithmetic shift rounds down. */
  function Shifted(n: int, i: nat): int
    decreases i
  {
    if i == 0 then n else Shifted(n / 256, i - 1)
  }

  lemma {:induction false} ShiftedNext(n: int, i: nat)
    ensures Shifted(n, i + 1) == Shifted(n, i) / 256
    decreases i
  {
    if i > 0 {
      ShiftedNext(n / 256, i - 1);
    }
  }

  lemma {:induction false} LowByteAt(n: int, width: nat, i: nat)
    requires i < width
    ensures LowBytes(n, width)[width - 1 - i] == Shifted(n, i) % 256
    decreases i
  {
    if i > 0 {
      LowByteAt(n / 256, width - 1, i - 1);
    }
  }

  lemma {:induction false} LowBytesInjective(m: int, n: int, width: nat)
    requires LowBytes(m, width) == LowBytes(n, width) && m < n + Pow256(width) && n < m + Pow256(width)
    ensures m == n
    decreases width
  {
    if width > 0 {
      CutEqual(LowBytes(m / 256, width - 1), LowBytes(n / 256, width - 1), [m % 256], [n % 256]);
      assert m % 256 == [m % 256][0] == [n % 256][0];
      LowBytesInjective(m / 256, n / 256, width - 1);
    }
  }

  lemma TimestampInjective(m: Nanos, n: Nanos)
    requires LowBytes(m, 8) == LowBytes(n, 8)
    ensures m == n
  {
    assert Pow256(4) == 0x1_0000_0000;
    assert Pow256(8) == 0x1_0000_0000_0000_0000;
    LowBytesInjective(m, n, 8);
  }

  /** Everything that goes into the hash, in order. */
  ghost function Preimage(c: Codec, prev: Hash, r: Row): Bytes
    requires Document(c, r.payload).Some?
  {
    prev + ((((Canonical(c, Document(c, r.payload).value) + Text(r.actorKind)) + [31] + Text(r.eventKind))
             + [31] + (ActorBytes(r) + LowBytes(r.createdAt, 8))))
  }

  ghost function RowHash(h: Bytes -> Hash, c: Codec, prev: Hash, r: Row): Option<Hash>
  {
    if Document(c, r.payload).None? then None else Some(h(Preimage(c, prev, r)))
  }

  /** Agreement on every field the hash covers; a nil actor and the zero actor are
      the same thing to it, and so are an absent payload and null. */
  ghost predicate SameHashed(c: Codec, a: Row, b: Row)
  {
    && Document(c, a.payload) == Document(c, b.payload)
    && a.actorKind == b.actorKind && a.eventKind == b.eventKind
    && ActorBytes(a) == ActorBytes(b) && a.createdAt == b.createdAt
  }

  lemma ActorKindEnds(k: string, l: string)
    requires k in ACTOR_KINDS && l in ACTOR_KINDS && Text(k)[|k| - 1] == Text(l)[|l| - 1]
    ensures k == l
  {
    var last := map["human" := 110, "agent" := 116, "service" := 101, "system" := 109];
    assert Text("human")[4] == 110 && Text("agent")[4] == 116;
    assert Text("service")[6] == 101 && Text("system")[5] == 109;
    assert Text(k)[|k| - 1] == last[k] && Text(l)[|l| - 1] == last[l];
  }

  predicate Wordy(s: string) { forall i | 0 <= i < |s| :: '_' <= s[i] <= 'z' }

  lemma EventKindsAreWordy(k: string)
    requires k in EVENT_KINDS
    ensures Wordy(k)
  {
  }

  lemma WordyText(k: string)
    requires Wordy(k)
    ensures 31 !in Text(k)
  {
    assert forall i | 0 <= i < |k| :: Text(k)[i] >= 95;
  }

  lemma {:induction false} TextInjective(s: string, t: string)
    requires Wordy(s) && Wordy(t) && Text(s) == Text(t)
    ensures s == t
  {
    assert forall i | 0 <= i < |s| :: s[i] as int == Text(s)[i] == Text(t)[i] == t[i] as int;
  }

  lemma PayloadAndActor(c: Codec, v: Json, w: Json, k: string, l: string)
    requires ScalarLaw(c) && k in ACTOR_KINDS && l in ACTOR_KINDS
    requires Canonical(c, v) + Text(k) == Canonical(c, w) + Text(l)
    ensures v == w && k == l
  {
    var t := Canonical(c, v) + Text(k);
    assert t[|t| - 1] == Text(k)[|k| - 1] == Text(l)[|l| - 1];
    ActorKindEnds(k, l);
    CutEqual(Canonical(c, v), Canonical(c, w), Text(k), Text(l));
    CanonicalInjective(c, v, w);
  }

  /** For rows with kinds of the closed enums, the hashed bytes determine the
      predecessor hash and every hashed field. */
  lemma PreimageInjective(c: Codec, p: Hash, q: Hash, a: Row, b: Row)
    requires ScalarLaw(c) && ValidKinds(a) && ValidKinds(b)
    requires Document(c, a.payload).Some? && Document(c, b.payload).Some?
    requires Preimage(c, p, a) == Preimage(c, q, b)
    ensures p == q && SameHashed(c, a, b)
  {
    var ca, cb := Canonical(c, Document(c, a.payload).value), Canonical(c, Document(c, b.payload).value);
    var ia, ib := ActorBytes(a) + LowBytes(a.createdAt, 8), ActorBytes(b) + LowBytes(b.createdAt, 8);
    var ka, kb := (ca + Text(a.actorKind)) + [31] + Text(a.eventKind), (cb + Text(b.actorKind)) + [31] + Text(b.eventKind);
    CutEqual(p, q, ka + [31] + ia, kb + [31] + ib);
    assert |ka + [31]| == |kb + [31]|;
    CutEqual(ka + [31], kb + [31], ia, ib);
    CutEqual(ActorBytes(a), ActorBytes(b), LowBytes(a.createdAt, 8), LowBytes(b.createdAt, 8));
    TimestampInjective(a.createdAt, b.createdAt);
    CutEqual(ka, kb, [31], [31]);
    EventKindsAreWordy(a.eventKind);
    EventKindsAreWordy(b.eventKind);
    WordyText(a.eventKind);
    WordyText(b.eventKind);
    LastSeparatorUnique(ca + Text(a.actorKind), cb + Text(b.actorKind), Text(a.eventKind), Text(b.eventKind), 31);
    TextInjective(a.eventKind, b.eventKind);
    PayloadAndActor(c, Document(c, a.payload).value, Document(c, b.payload).value, a.actorKind, b.actorKind);
  }

  /** Off the closed enums the bytes are ambiguous: nothing separates a number from
      an actor kind that starts with a digit. */
  lemma OpenKindsAreAmbiguous(c: Codec, p: Hash, a: Row, b: Row, m: int, n: int)
    requires Document(c, a.payload) == Some(Num(m)) && Document(c, b.payload) == Some(Num(n))
    requires c.num(n) == c.num(m) + [50]
    requires a.actorKind == ['2'] + b.actorKind && a.eventKind == b.eventKind
    requires ActorBytes(a) == ActorBytes(b) && a.createdAt == b.createdAt
    ensures Preimage(c, p, a) == Preimage(c, p, b) && !SameHashed(c, a, b)
  {
    var k := Text(b.actorKind);
    assert Text(a.actorKind) == [50] + k;
    assert (c.num(m) + []) + ([50] + k) == (c.num(m) + [50] + []) + k;
  }

  // ------------------------------------------------- computing and stamping

  method LowBytesOf(n: int, width: nat) returns (ts: Bytes)
    ensures ts == LowBytes(n, width)
  {
    var buf := new Byte[width];
    ghost var want := LowBytes(n, width);
    var shifted := n;
    for i := 0 to width
      invariant shifted == Shifted(n, i)
      invariant forall k | width - i <= k < width :: buf[k] == want[k]
    {
      LowByteAt(n, width, i);
      ShiftedNext(n, i);
      buf[width - 1 - i] := shifted % 256;
      shifted := shifted / 256;
    }
    ts := buf[..];
  }

  lemma TimesOut(q: int, p: int)
    ensures q * (256 * p) == 256 * (q * p)
  {
  }

  lemma {:induction false} LowBytesWrite(n: int, width: nat) returns (q: int)
    ensures n == FromBigEndian(LowBytes(n, width)) + q * Pow256(width)
    decreases width
  {
    if width == 0 {
      q := n;
    } else {
      var rest := LowBytes(n / 256, width - 1);
      q := LowBytesWrite(n / 256, width - 1);
      TimesOut(q, Pow256(width - 1));
      assert (rest + [n % 256])[..width - 1] == rest;
      assert FromBigEndian(LowBytes(n, width)) == 256 * FromBigEndian(rest) + n % 256;
    }
  }

  lemma EightBytes()
    ensures Pow256(8) == 0x1_0000_0000_0000_0000
  {
  }

  lemma Multiple(n: int, v: int, q: int)
    requires n == v + q * 0x1_0000_0000_0000_0000
    ensures (n - v) % 0x1_0000_0000_0000_0000 == 0
  {
  }

  /** The eight bytes of a time modulo 2^64, most significant first. */
  ghost predicate TimeBytes(n: int, t: Bytes) { |t| == 8 && (n - FromBigEndian(t)) % 0x1_0000_0000_0000_0000 == 0 }

  lemma TimeWrites(n: int)
    ensures TimeBytes(n, LowBytes(n, 8))
  {
    var q := LowBytesWrite(n, 8);
    EightBytes();
    Multiple(n, FromBigEndian(LowBytes(n, 8)), q);
  }

  lemma Regrouped(a: Bytes, b: Bytes, c: Bytes, d: Bytes, e: Bytes, f: Bytes, g: Bytes)
    ensures a + ((((b + c) + d + e) + d + (f + g))) == a + b + c + d + e + d + f + g
  {
  }

  /** What is hashed: the previous hash, the canonical payload, the two kinds each with a
      separator, the actor's 16 bytes and the time's eight. */
  lemma PreimageIs(c: Codec, prev: Hash, r: Row, canon: Bytes, who: Uuid) returns (t: Bytes)
    requires if r.payload == [] then canon == Text("null")
             else c.parse(r.payload).Some? && canon == Canonical(c, c.parse(r.payload).value)
    requires if r.actorId.None? then who == Zeros(16) else r.actorId == Some(who)
    ensures Document(c, r.payload).Some? && TimeBytes(r.createdAt, t)
    ensures Preimage(c, prev, r) == prev + canon + Text(r.actorKind) + [31] + Text(r.eventKind) + [31] + who + t
  {
    t := LowBytes(r.createdAt, 8);
    TimeWrites(r.createdAt);
    Regrouped(prev, canon, Text(r.actorKind), [31], Text(r.eventKind), who, t);
    assert Canonical(c, Document(c, r.payload).value) == canon && ActorBytes(r) == who;
  }

  method ComputeRowHash(h: Bytes -> Hash, c: Codec, prev: Hash, r: Row) returns (out: Option<Hash>)
    ensures out == RowHash(h, c, prev, r)
    ensures out.None? <==> r.payload != [] && c.parse(r.payload).None?
  {
    var canon;
    if r.payload == [] {
      canon := Text("null");
      assert Text("null") + [] == Text("null");
    } else {
      var v := c.parse(r.payload);
      if v.None? {
        return None;
      }
      canon := Canonicalize(c, v.value);
    }
    var fed := prev + canon + Text(r.actorKind) + [31] + Text(r.eventKind) + [31];
    fed := fed + ActorBytes(r);
    var ts := LowBytesOf(r.createdAt, 8);
    fed := fed + ts;
    assert fed == Preimage(c, prev, r);
    out := Some(h(fed));
  }

  /** The row with both hashes stamped; None when its payload is not JSON. */
  ghost function Stamped(h: Bytes -> Hash, c: Codec, prev: Hash, r: Row): Option<Row>
  {
    match RowHash(h, c, prev, r)
    case None => None
    case Some(x) => Some(r.(prevHash := prev, rowHash := x))
  }

  /** `unset` says that the row came with the zero time; the clock fills it in. */
  method AppendRow(h: Bytes -> Hash, c: Codec, prev: Hash, r: Row, unset: bool, clock: Nanos) returns (out: Option<Row>)
    ensures out == Stamped(h, c, prev, if unset then r.(createdAt := clock) else r)
  {
    var stamped := r.(prevHash := prev);
    if unset {
      stamped := stamped.(createdAt := clock);
    }
    var x := ComputeRowHash(h, c, prev, stamped);
    out := if x.None? then None else Some(stamped.(rowHash := x.value));
  }

  // ------------------------------------------------------------ the chain

  function LastHash(rows: seq<Row>): Hash
  {
    if rows == [] then GENESIS else rows[|rows| - 1].rowHash
  }

  ghost predicate Linked(h: Bytes -> Hash, c: Codec, rows: seq<Row>, i: nat)
    requires i < |rows|
  {
    && rows[i].prevHash == LastHash(rows[..i])
    && RowHash(h, c, rows[i].prevHash, rows[i]) == Some(rows[i].rowHash)
  }

  ghost predicate Accepted(h: Bytes -> Hash, c: Codec, rows: seq<Row>)
  {
    forall i | 0 <= i < |rows| :: Linked(h, c, rows, i)
  }

  /** Returns -1 exactly on an accepted chain, and otherwise the first bad row. */
  method VerifyChain(h: Bytes -> Hash, c: Codec, rows: seq<Row>) returns (broken: int)
    ensures broken == -1 <==> Accepted(h, c, rows)
    ensures broken != -1 ==> 0 <= broken < |rows| && !Linked(h, c, rows, broken)
                             && forall i | 0 <= i < broken :: Linked(h, c, rows, i)
  {
    var prev := GENESIS;
    for i := 0 to |rows|
      invariant prev == LastHash(rows[..i])
      invariant forall j | 0 <= j < i :: Linked(h, c, rows, j)
    {
      if rows[i].prevHash != prev {
        assert !Linked(h, c, rows, i);
        return i;
      }
      var got := ComputeRowHash(h, c, prev, rows[i]);
      if got != Some(rows[i].rowHash) {
        assert !Linked(h, c, rows, i);
        return i;
      }
      prev := got.value;
    }
    broken := -1;
  }

  lemma AcceptedPrefix(h: Bytes -> Hash, c: Codec, rows: seq<Row>, n: nat)
    requires Accepted(h, c, rows) && n <= |rows|
    ensures Accepted(h, c, rows[..n])
  {
    forall i | 0 <= i < n
      ensures Linked(h, c, rows[..n], i)
    {
      assert rows[..n][..i] == rows[..i];
      assert Linked(h, c, rows, i);
    }
  }

  /** Stamping a row with the last hash and appending it keeps a chain accepted. */
  lemma AppendKeepsAccepted(h: Bytes -> Hash, c: Codec, rows: seq<Row>, r: Row)
    requires Accepted(h, c, rows) && Stamped(h, c, LastHash(rows), r).Some?
    ensures Accepted(h, c, rows + [Stamped(h, c, LastHash(rows), r).value])
  {
    var s := Stamped(h, c, LastHash(rows), r).value;
    var all := rows + [s];
    forall i | 0 <= i < |all|
      ensures Linked(h, c, all, i)
    {
      assert all[..i] == rows[..i];
      if i < |rows| {
        assert Linked(h, c, rows, i);
      } else {
        assert rows[..i] == rows;
      }
    }
  }

  ghost predicate AllKindsValid(rows: seq<Row>) { forall r | r in rows :: ValidKinds(r) }

  ghost function PreimageAt(c: Codec, rows: seq<Row>, i: nat): Bytes
    requires i < |rows| && Document(c, rows[i].payload).Some?
  {
    Preimage(c, rows[i].prevHash, rows[i])
  }

  /** Two rows of the chains feed different bytes to the hash and get one digest. */
  ghost predicate Collide(h: Bytes -> Hash, c: Codec, a: seq<Row>, b: seq<Row>)
  {
    exists i, j | 0 <= i < |a| && 0 <= j < |b| :: CollideAt(h, c, a, b, i, j)
  }

  ghost predicate CollideAt(h: Bytes -> Hash, c: Codec, a: seq<Row>, b: seq<Row>, i: nat, j: nat)
    requires i < |a| && j < |b|
  {
    && Document(c, a[i].payload).Some? && Document(c, b[j].payload).Some?
    && PreimageAt(c, a, i) != PreimageAt(c, b, j)
    && h(PreimageAt(c, a, i)) == h(PreimageAt(c, b, j))
  }

  /** Some row hashes to the all-zero genesis value. */
  ghost predicate HitsGenesis(rows: seq<Row>) { exists i | 0 <= i < |rows| :: rows[i].rowHash == GENESIS }

  ghost predicate SameHistory(c: Codec, a: seq<Row>, b: seq<Row>)
  {
    |a| == |b| && forall i | 0 <= i < |a| ::
      a[i].prevHash == b[i].prevHash && a[i].rowHash == b[i].rowHash && SameHashed(c, a[i], b[i])
  }

  lemma CollideExtends(h: Bytes -> Hash, c: Codec, a: seq<Row>, b: seq<Row>, m: nat, n: nat)
    requires m <= |a| && n <= |b| && Collide(h, c, a[..m], b[..n])
    ensures Collide(h, c, a, b)
  {
    var i, j :| 0 <= i < m && 0 <= j < n && CollideAt(h, c, a[..m], b[..n], i, j);
    assert CollideAt(h, c, a, b, i, j);
  }

  lemma LastRowsAgree(h: Bytes -> Hash, c: Codec, a: seq<Row>, b: seq<Row>)
    requires ScalarLaw(c) && a != [] && b != [] && AllKindsValid(a) && AllKindsValid(b)
    requires Accepted(h, c, a) && Accepted(h, c, b) && LastHash(a) == LastHash(b) && !Collide(h, c, a, b)
    ensures var m, n := |a| - 1, |b| - 1;
            a[m].prevHash == b[n].prevHash && a[m].rowHash == b[n].rowHash && SameHashed(c, a[m], b[n])
    ensures LastHash(a[..|a| - 1]) == LastHash(b[..|b| - 1])
  {
    var m, n := |a| - 1, |b| - 1;
    assert Linked(h, c, a, m) && Linked(h, c, b, n);
    assert !CollideAt(h, c, a, b, m, n);
    PreimageInjective(c, a[m].prevHash, b[n].prevHash, a[m], b[n]);
  }

  lemma EndsAtGenesis(rows: seq<Row>)
    requires LastHash(rows) == GENESIS
    ensures rows == [] || HitsGenesis(rows)
  {
    if rows != [] {
      assert rows[|rows| - 1].rowHash == GENESIS;
    }
  }

  /** Tamper evidence. Two accepted chains with the same last hash are the same
      history in every hashed field, unless their rows exhibit a collision or one of
      them hashes to the genesis value. */
  lemma {:induction false} ChainsAgree(h: Bytes -> Hash, c: Codec, a: seq<Row>, b: seq<Row>)
    requires ScalarLaw(c) && AllKindsValid(a) && AllKindsValid(b)
    requires Accepted(h, c, a) && Accepted(h, c, b) && LastHash(a) == LastHash(b)
    requires !Collide(h, c, a, b)
    requires |a| == |b| || (!HitsGenesis(a) && !HitsGenesis(b))
    ensures SameHistory(c, a, b)
    decreases |a|
  {
    if a == [] || b == [] {
      EndsAtGenesis(a);
      EndsAtGenesis(b);
    } else {
      var m, n := |a| - 1, |b| - 1;
      LastRowsAgree(h, c, a, b);
      AcceptedPrefix(h, c, a, m);
      AcceptedPrefix(h, c, b, n);
      if Collide(h, c, a[..m], b[..n]) {
        CollideExtends(h, c, a, b, m, n);
      }
      ChainsAgree(h, c, a[..m], b[..n]);
      assert a == a[..m] + [a[m]] && b == b[..n] + [b[n]];
    }
  }

  /** The row id, the policy and the plan are not covered: rewriting them anywhere
      goes unnoticed. */
  lemma UncoveredFields(h: Bytes -> Hash, c: Codec, a: seq<Row>, b: seq<Row>)
    requires |a| == |b|
    requires forall i | 0 <= i < |a| :: a[i] == b[i].(id := a[i].id, policyId := a[i].policyId, planId := a[i].planId)
    ensures Accepted(h, c, a) <==> Accepted(h, c, b)
  {
    forall i | 0 <= i < |a|
      ensures Linked(h, c, a, i) <==> Linked(h, c, b, i)
    {
      assert LastHash(a[..i]) == LastHash(b[..i]);
      assert RowHash(h, c, a[i].prevHash, a[i]) == RowHash(h, c, b[i].prevHash, b[i]);
    }
  }
}

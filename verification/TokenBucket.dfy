/** The in-memory token-bucket limiter and the GraphQL cost meter on top of it:
    bounds over whole runs of takes, and when the retry advice is sound. */
module TokenBucket {
  import opened Common
  import opened CostAnalyzer

  // -------------------------------------------------------------- bucket

  datatype Bucket = Bucket(tokens: real, lastAt: real)

  /** Tokens a constant refill rate has supplied by time `t`. */
  function Constant(refill: real): real -> real { t => t * refill }

  /** Level of a bucket brought up to date at `now`; a missing bucket starts full. */
  function Level(b: Option<Bucket>, now: real, capacity: real, supply: real -> real): real
  {
    if b.None? then capacity
    else
      var t := b.value.tokens + (supply(now) - supply(b.value.lastAt));
      if t > capacity then capacity else t
  }

  function AfterTake(b: Option<Bucket>, now: real, capacity: real, supply: real -> real, n: real): Bucket
  {
    var level := Level(b, now, capacity, supply);
    Bucket(if level < n then level else level - n, now)
  }

  function Find(m: map<string, Bucket>, key: string): Option<Bucket>
  {
    if key in m then Some(m[key]) else None
  }

  /** Topping up by the elapsed time. */
  lemma Refilled(b: Bucket, now: real, capacity: real, refill: real, tokens: real)
    requires tokens == b.tokens + (now - b.lastAt) * refill
    ensures Level(Some(b), now, capacity, Constant(refill)) == if tokens > capacity then capacity else tokens
    ensures b == Bucket(capacity, now) ==> Level(Some(b), now, capacity, Constant(refill)) == capacity
  {
    assert (now - b.lastAt) * refill == now * refill - b.lastAt * refill;
  }

  class MemoryLimiter {
    var buckets: map<string, Bucket>

    constructor ()
      ensures buckets == map[]
    {
      buckets := map[];
    }

    method Take(key: string, now: real, capacity: real, refill: real, n: real)
      returns (granted: bool, remaining: real)
      modifies this
      ensures buckets == old(buckets)[key := AfterTake(Find(old(buckets), key), now, capacity, Constant(refill), n)]
      ensures granted <==> Level(Find(old(buckets), key), now, capacity, Constant(refill)) >= n
      ensures remaining == buckets[key].tokens
    {
      if key !in buckets {
        buckets := buckets[key := Bucket(capacity, now)];
      }
      var b := buckets[key];
      var elapsed := now - b.lastAt;
      var tokens := b.tokens + elapsed * refill;
      Refilled(b, now, capacity, refill, tokens);
      if tokens > capacity {
        tokens := capacity;
      }
      if tokens < n {
        buckets := buckets[key := Bucket(tokens, now)];
        return false, tokens;
      }
      tokens := tokens - n;
      buckets := buckets[key := Bucket(tokens, now)];
      return true, tokens;
    }
  }

  // ---------------------------------------------------------------- runs

  datatype Request = Request(key: string, at: real, capacity: real, supply: real -> real, n: real)

  function Served(m: map<string, Bucket>, r: Request): map<string, Bucket>
  {
    m[r.key := AfterTake(Find(m, r.key), r.at, r.capacity, r.supply, r.n)]
  }

  /** What a request grants `key`. */
  function Grant(m: map<string, Bucket>, r: Request, key: string): real
  {
    if r.key == key && Level(Find(m, key), r.at, r.capacity, r.supply) >= r.n then r.n else 0.0
  }

  /** Tokens granted to `key` while serving `rs` from `m`. */
  function Granted(m: map<string, Bucket>, rs: seq<Request>, key: string): real
    decreases |rs|
  {
    if |rs| == 0 then 0.0 else Grant(m, rs[0], key) + Granted(Served(m, rs[0]), rs[1..], key)
  }

  function Final(m: map<string, Bucket>, rs: seq<Request>): map<string, Bucket>
    decreases |rs|
  {
    if |rs| == 0 then m else Final(Served(m, rs[0]), rs[1..])
  }

  ghost predicate Monotone(supply: real -> real)
  {
    forall s, t | s <= t :: supply(s) <= supply(t)
  }

  /** A request for `key` has the given shape and does not take less than nothing. */
  ghost predicate Shaped(r: Request, key: string, capacity: real, supply: real -> real)
  {
    r.key == key ==> r.capacity == capacity && r.supply == supply && r.n >= 0.0
  }

  /** Requests in clock order from `t` on, shaped alike for `key`. */
  ghost predicate Orderly(rs: seq<Request>, key: string, capacity: real, supply: real -> real, t: real)
    decreases |rs|
  {
    |rs| > 0 ==> t <= rs[0].at && Shaped(rs[0], key, capacity, supply) && Orderly(rs[1..], key, capacity, supply, rs[0].at)
  }

  /** Time of the last request, or `t` if there is none. */
  function LastAt(rs: seq<Request>, t: real): real
  {
    if |rs| == 0 then t else rs[|rs| - 1].at
  }

  /** The stored bucket of `key` is within bounds and not newer than `t`. */
  ghost predicate Bounded(m: map<string, Bucket>, key: string, capacity: real, t: real)
  {
    key in m ==> 0.0 <= m[key].tokens <= capacity && m[key].lastAt <= t
  }

  lemma TakeStep(m: map<string, Bucket>, r: Request, key: string, capacity: real, supply: real -> real, t: real)
    requires capacity >= 0.0 && Monotone(supply) && t <= r.at
    requires Bounded(m, key, capacity, t) && Shaped(r, key, capacity, supply)
    ensures Bounded(Served(m, r), key, capacity, r.at)
    ensures 0.0 <= Level(Find(Served(m, r), key), r.at, capacity, supply) <= capacity
    ensures Grant(m, r, key) + Level(Find(Served(m, r), key), r.at, capacity, supply)
            <= Level(Find(m, key), t, capacity, supply) + (supply(r.at) - supply(t))
  {
    var b := Find(m, key);
    if b.Some? {
      assert supply(b.value.lastAt) <= supply(t) <= supply(r.at);
    }
  }

  /** After any run the stored level lies in [0, capacity]. */
  lemma {:induction false} TokensStayInRange(m: map<string, Bucket>, rs: seq<Request>, key: string,
                                             capacity: real, supply: real -> real, t: real)
    requires capacity >= 0.0 && Monotone(supply)
    requires Orderly(rs, key, capacity, supply, t) && Bounded(m, key, capacity, t)
    ensures Bounded(Final(m, rs), key, capacity, LastAt(rs, t))
    decreases |rs|
  {
    if |rs| > 0 {
      TakeStep(m, rs[0], key, capacity, supply, t);
      TokensStayInRange(Served(m, rs[0]), rs[1..], key, capacity, supply, rs[0].at);
    }
  }

  /** Grants never exceed what the bucket holds plus what is supplied. */
  lemma {:induction false} GrantsAreFunded(m: map<string, Bucket>, rs: seq<Request>, key: string,
                                           capacity: real, supply: real -> real, t: real)
    requires capacity >= 0.0 && Monotone(supply)
    requires Orderly(rs, key, capacity, supply, t) && Bounded(m, key, capacity, t)
    requires 0.0 <= Level(Find(m, key), t, capacity, supply)
    ensures Granted(m, rs, key) <= Level(Find(m, key), t, capacity, supply) + (supply(LastAt(rs, t)) - supply(t))
    decreases |rs|
  {
    if |rs| > 0 {
      TakeStep(m, rs[0], key, capacity, supply, t);
      GrantsAreFunded(Served(m, rs[0]), rs[1..], key, capacity, supply, rs[0].at);
    }
  }

  lemma {:induction false} OrderlySplit(before: seq<Request>, window: seq<Request>, key: string,
                                        capacity: real, supply: real -> real, t: real)
    requires Orderly(before + window, key, capacity, supply, t)
    ensures Orderly(before, key, capacity, supply, t)
    ensures Orderly(window, key, capacity, supply, LastAt(before, t))
    decreases |before|
  {
    if |before| == 0 {
      assert before + window == window;
    } else {
      assert (before + window)[1..] == before[1..] + window;
      OrderlySplit(before[1..], window, key, capacity, supply, before[0].at);
    }
  }

  /** The guarantee over any window of any run, from a limiter that has not
      seen the key: at most one full bucket plus what is supplied meanwhile. */
  lemma WindowBound(m: map<string, Bucket>, before: seq<Request>, window: seq<Request>, key: string,
                    capacity: real, supply: real -> real, t: real)
    requires capacity >= 0.0 && Monotone(supply) && |window| > 0
    requires key !in m && Orderly(before + window, key, capacity, supply, t)
    ensures Granted(Final(m, before), window, key)
            <= capacity + (supply(window[|window| - 1].at) - supply(window[0].at))
  {
    OrderlySplit(before, window, key, capacity, supply, t);
    TokensStayInRange(m, before, key, capacity, supply, t);
    var reached, start := Final(m, before), window[0].at;
    TakeStep(reached, Request(key, start, capacity, supply, 0.0), key, capacity, supply, LastAt(before, t));
    GrantsAreFunded(reached, window, key, capacity, supply, start);
  }

  lemma ConstantIsMonotone(refill: real)
    requires refill >= 0.0
    ensures Monotone(Constant(refill))
  {
    forall s, t | s <= t
      ensures Constant(refill)(s) <= Constant(refill)(t)
    {
      Mul(t - s, refill);
    }
  }

  lemma Mul(a: real, b: real)
    requires a >= 0.0 && b >= 0.0
    ensures a * b >= 0.0
  {
  }

  /** For a constant refill rate: capacity plus rate times window length. */
  lemma RateWindowBound(m: map<string, Bucket>, before: seq<Request>, window: seq<Request>, key: string,
                        capacity: real, refill: real, t: real, from: real, to: real)
    requires capacity >= 0.0 && refill >= 0.0 && |window| > 0
    requires key !in m && Orderly(before + window, key, capacity, Constant(refill), t)
    requires window[0].at == from && window[|window| - 1].at == to
    ensures Granted(Final(m, before), window, key) <= capacity + (to - from) * refill
  {
    ConstantIsMonotone(refill);
    WindowBound(m, before, window, key, capacity, Constant(refill), t);
    AtConstantRate(Granted(Final(m, before), window, key), capacity, refill, from, to);
  }

  lemma AtConstantRate(granted: real, capacity: real, refill: real, s: real, t: real)
    requires granted <= capacity + (Constant(refill)(t) - Constant(refill)(s))
    ensures granted <= capacity + (t - s) * refill
  {
    assert (t - s) * refill == t * refill - s * refill;
  }

  /** A negative take mints tokens, which is why the bound needs takes of at least zero: any
      bucket ends above its capacity exactly when a granted take puts in more than it has
      room for. */
  lemma NegativeTakeOverfills(b: Option<Bucket>, now: real, capacity: real, supply: real -> real, n: real)
    ensures var level := Level(b, now, capacity, supply);
            AfterTake(b, now, capacity, supply, n).tokens > capacity <==> n <= level && -n > capacity - level
    ensures AfterTake(b, now, capacity, supply, n).tokens > capacity ==> n < 0.0
  {
  }

  // ---------------------------------------------------------- cost meter

  datatype BucketParams = BucketParams(agentCapacity: real, agentRefill: real, humanCapacity: real, humanRefill: real)

  const DEFAULT_BUCKETS := BucketParams(5000.0, 500.0, 1000.0, 100.0)

  function ParamsFor(p: BucketParams, kind: PrincipalKind): (real, real)
  {
    match kind
    case Agent => (p.agentCapacity, p.agentRefill)
    case Human => (p.humanCapacity, p.humanRefill)
    case Unknown => (0.0, 0.0)
  }

  function RetrySeconds(refill: real, tokens: int): int
  {
    if refill <= 0.0 then 1 else Max(Ceil(tokens as real / refill), 1)
  }

  function ParseCost(complexity: int): int
  {
    Max(if complexity >= 0 then complexity / 10 else -((-complexity) / 10), 20)
  }

  function TokensFor(c: Cost, accepted: bool): int
  {
    if accepted then c.complexity else ParseCost(c.complexity)
  }

  datatype Charged = Free | Paid | RateLimited(retrySeconds: int)

  method Charge(limiter: MemoryLimiter, params: BucketParams, key: string, kind: PrincipalKind, now: real, tokens: int)
    returns (r: Charged)
    modifies limiter
    ensures var capacity, refill := (if kind.Agent? then params.agentCapacity else if kind.Human? then params.humanCapacity else 0.0),
                                    (if kind.Agent? then params.agentRefill else if kind.Human? then params.humanRefill else 0.0);
      var n := if tokens < 1 then 1 else tokens;
      var b := Find(old(limiter.buckets), key);
      && (capacity <= 0.0 <==> r.Free?)
      && (r.Free? ==> limiter.buckets == old(limiter.buckets))
      && (!r.Free? ==>
            && limiter.buckets == old(limiter.buckets)[key := AfterTake(b, now, capacity, Constant(refill), n as real)]
            && (r.Paid? <==> Level(b, now, capacity, Constant(refill)) >= n as real)
            && (r.RateLimited? ==> r.retrySeconds == if refill <= 0.0 then 1 else RetrySeconds(refill, n)))
  {
    var (capacity, refill) := ParamsFor(params, kind);
    if capacity <= 0.0 {
      return Free;
    }
    var n := if tokens < 1 then 1 else tokens;
    var granted, remaining := limiter.Take(key, now, capacity, refill, n as real);
    r := if granted then Paid else RateLimited(RetrySeconds(refill, n));
  }

  // -- accepted and rejected queries

  /** An accepted query runs only if the bucket holds its whole complexity, at least one
      token, and then pays exactly that. */
  lemma AcceptedPaysIff(b: Option<Bucket>, now: real, capacity: real, supply: real -> real, c: Cost)
    ensures var level, price := Level(b, now, capacity, supply), (if c.complexity < 1 then 1 else c.complexity) as real;
            level - AfterTake(b, now, capacity, supply, Max(TokensFor(c, true), 1) as real).tokens == if price <= level then price else 0.0
  {
  }

  /** The charge for a rejected query. */
  function RejectedCharge(c: Cost): real { Max(TokensFor(c, false), 1) as real }

  /** A rejected query is charged, but its charge may be denied and the denial is ignored: it
      pays exactly when the bucket holds the whole charge, and otherwise nothing. */
  lemma RejectedPaysIff(b: Option<Bucket>, now: real, capacity: real, supply: real -> real, c: Cost)
    ensures RejectedCharge(c) >= 20.0
    ensures var level := Level(b, now, capacity, supply);
            level - AfterTake(b, now, capacity, supply, RejectedCharge(c)).tokens ==
            if RejectedCharge(c) <= level then RejectedCharge(c) else 0.0
  {
  }

  /** So it is free in every state of the bucket exactly when its charge is above capacity. */
  lemma RejectedIsFreeIff(capacity: real, supply: real -> real, c: Cost)
    ensures (forall b: Option<Bucket>, now: real :: AfterTake(b, now, capacity, supply, RejectedCharge(c)).tokens == Level(b, now, capacity, supply))
            <==> RejectedCharge(c) > capacity
  {
    if RejectedCharge(c) <= capacity {
      RejectedPaysIff(None, 0.0, capacity, supply, c);
      assert AfterTake(None, 0.0, capacity, supply, RejectedCharge(c)).tokens != Level(None, 0.0, capacity, supply);
    }
  }

  /** With the default buckets: from a complexity of 50010 for agents and 10010 for people. */
  lemma RejectedIsFreeByDefault(kind: PrincipalKind, c: Cost)
    requires !kind.Unknown?
    ensures RejectedCharge(c) > ParamsFor(DEFAULT_BUCKETS, kind).0 <==>
            c.complexity >= if kind.Agent? then 50010 else 10010
  {
  }

  lemma CeilAtLeast(x: real)
    ensures x <= Ceil(x) as real < x + 1.0
  {
  }

  lemma AdviceCovers(refill: real, n: int)
    requires refill > 0.0 && n >= 1
    ensures RetrySeconds(refill, n) as real * refill >= n as real
  {
    var q, secs := n as real / refill, RetrySeconds(refill, n) as real;
    CeilAtLeast(q);
    assert secs >= q;
    Mul(secs - q, refill);
    assert q * refill == n as real;
    assert secs * refill == (secs - q) * refill + q * refill;
  }

  /** The advice is the least whole number of seconds, from one, that refills the charge. */
  lemma AdviceIsLeast(refill: real, n: int, secs: int)
    requires refill > 0.0 && n >= 1 && 1 <= secs
    ensures secs as real * refill >= n as real <==> secs >= RetrySeconds(refill, n)
  {
    AdviceCovers(refill, n);
    var q, least := n as real / refill, RetrySeconds(refill, n);
    CeilAtLeast(q);
    assert q * refill == n as real;
    if secs >= least {
      Mul((secs - least) as real, refill);
      assert secs as real * refill == (secs - least) as real * refill + least as real * refill;
    } else {
      assert secs as real < q;
      MulPositive(q - secs as real, refill);
      assert secs as real * refill == q * refill - (q - secs as real) * refill;
    }
  }

  lemma MulPositive(a: real, b: real)
    requires a > 0.0 && b > 0.0
    ensures a * b > 0.0
  {
  }

  /** A denied charge that waits out the advice with no other takes is granted
      exactly when the bucket refills at all and could ever hold the charge. */
  lemma RetryIsGrantedIff(b: Option<Bucket>, now: real, capacity: real, refill: real, n: int)
    requires capacity > 0.0 && n >= 1
    requires b.Some? ==> b.value.tokens >= 0.0 && b.value.lastAt <= now
    requires Level(b, now, capacity, Constant(refill)) < n as real
    ensures var denied := Some(AfterTake(b, now, capacity, Constant(refill), n as real));
            Level(denied, now + RetrySeconds(refill, n) as real, capacity, Constant(refill)) >= n as real
            <==> refill > 0.0 && n as real <= capacity
  {
    var secs := RetrySeconds(refill, n) as real;
    DeniedLevel(b, now, now + secs, capacity, Constant(refill), n as real);
    GainAtConstantRate(refill, now, secs);
    if refill > 0.0 {
      AdviceCovers(refill, n);
      ConstantIsMonotone(refill);
      LevelIsNatural(b, now, capacity, Constant(refill));
    } else {
      assert secs == 1.0;
      assert secs * refill == refill;
    }
  }

  /** A denied take leaves the level where it is, to be topped up until `later`. */
  lemma DeniedLevel(b: Option<Bucket>, now: real, later: real, capacity: real, supply: real -> real, n: real)
    requires Level(b, now, capacity, supply) < n
    ensures var level := Level(b, now, capacity, supply) + (supply(later) - supply(now));
            Level(Some(AfterTake(b, now, capacity, supply, n)), later, capacity, supply) ==
            if level > capacity then capacity else level
  {
  }

  lemma LevelIsNatural(b: Option<Bucket>, now: real, capacity: real, supply: real -> real)
    requires capacity >= 0.0 && Monotone(supply)
    requires b.Some? ==> b.value.tokens >= 0.0 && b.value.lastAt <= now
    ensures Level(b, now, capacity, supply) >= 0.0
  {
    if b.Some? {
      assert supply(b.value.lastAt) <= supply(now);
    }
  }

  lemma GainAtConstantRate(refill: real, now: real, secs: real)
    ensures Constant(refill)(now + secs) - Constant(refill)(now) == secs * refill
  {
    assert (now + secs) * refill == now * refill + secs * refill;
  }

  /** With the default limits and buckets every accepted query fits its bucket. */
  lemma AcceptedFitsBucket(kind: PrincipalKind, c: Cost)
    requires !Over(DEFAULT_LIMITS.maxComplexity, kind, c.complexity)
    ensures var (capacity, refill) := ParamsFor(DEFAULT_BUCKETS, kind);
            capacity > 0.0 ==> Max(TokensFor(c, true), 1) as real <= capacity && refill > 0.0
  {
  }
}

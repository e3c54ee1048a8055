/** The in-memory token bucket of app/core/rate_limit.py.  Time is an explicit
    argument: the reading of the monotonic clock that the program takes itself. */
module RateLimit {
  import opened Prelude

  datatype Bucket = Bucket(tokens: real, lastRefill: real)

  datatype Verdict = Verdict(allowed: bool, retryAfter: int)

  const PASS := Verdict(true, 0)

  /** Tokens on hand at `now`; a missing bucket is a full one. */
  function Available(b: Option<Bucket>, rate: int, now: real): real
    requires rate > 0
  {
    match b
    case None => rate as real
    case Some(k) =>
      MinReal(rate as real, k.tokens + MaxReal(now - k.lastRefill, 0.0) * (rate as real / 60.0))
  }

  function Judge(tokens: real, rate: int): Verdict
    requires rate > 0
  {
    if tokens >= 1.0 then PASS
    else Verdict(false, Max(Ceil((1.0 - tokens) / (rate as real / 60.0)), 1))
  }

  function PeekAt(b: Option<Bucket>, rate: int, now: real): Verdict {
    if rate <= 0 then PASS else Judge(Available(b, rate, now), rate)
  }

  /** The bucket left behind by allow(), which is written even when the call is denied. */
  function BucketAfter(b: Option<Bucket>, rate: int, now: real): Option<Bucket> {
    if rate <= 0 then b
    else
      var tokens := Available(b, rate, now);
      Some(Bucket(if tokens >= 1.0 then tokens - 1.0 else tokens, now))
  }

  class TokenBucketRateLimiter {
    var buckets: map<string, Bucket>

    constructor ()
      ensures buckets == map[]
    {
      buckets := map[];
    }

    method Peek(key: string, ratePerMin: int, now: real) returns (ok: bool, retryAfter: int)
      ensures Verdict(ok, retryAfter) == PeekAt(Get(buckets, key), ratePerMin, now)
    {
      if ratePerMin <= 0 {
        return true, 0;
      }
      var capacity := ratePerMin as real;
      var refillPerSec := capacity / 60.0;
      if key !in buckets {
        return true, 0;
      }
      var bucket := buckets[key];
      var elapsed := MaxReal(now - bucket.lastRefill, 0.0);
      var tokens := MinReal(capacity, bucket.tokens + elapsed * refillPerSec);
      if tokens >= 1.0 {
        return true, 0;
      }
      var needed := 1.0 - tokens;
      retryAfter := Max(Ceil(needed / refillPerSec), 1);
      assert tokens == Available(Some(bucket), ratePerMin, now);
      return false, retryAfter;
    }

    method Allow(key: string, ratePerMin: int, now: real) returns (ok: bool, retryAfter: int)
      modifies this
      ensures buckets == Step(old(buckets), Op.Allow(key, ratePerMin, now))
      ensures Verdict(ok, retryAfter) == Answer(old(buckets), Op.Allow(key, ratePerMin, now))
    {
      if ratePerMin <= 0 {
        return true, 0;
      }
      var capacity := ratePerMin as real;
      var refillPerSec := capacity / 60.0;
      if key !in buckets {
        buckets := buckets[key := Bucket(capacity, now)];
      }
      var bucket := buckets[key];
      var elapsed := MaxReal(now - bucket.lastRefill, 0.0);
      bucket := Bucket(MinReal(capacity, bucket.tokens + elapsed * refillPerSec), now);
      buckets := buckets[key := bucket];
      if bucket.tokens >= 1.0 {
        buckets := buckets[key := Bucket(bucket.tokens - 1.0, now)];
        return true, 0;
      }
      var needed := 1.0 - bucket.tokens;
      return false, Max(Ceil(needed / refillPerSec), 1);
    }
  }

  // ---------------------------------------------------------------- histories

  datatype Op =
    | Allow(key: string, rate: int, now: real)
    | Peek(key: string, rate: int, now: real)

  function Answer(m: map<string, Bucket>, op: Op): Verdict {
    PeekAt(Get(m, op.key), op.rate, op.now)
  }

  function Step(m: map<string, Bucket>, op: Op): map<string, Bucket> {
    if op.Allow? && op.rate > 0 then m[op.key := BucketAfter(Get(m, op.key), op.rate, op.now).value] else m
  }

  function Answers(m: map<string, Bucket>, ops: seq<Op>): (vs: seq<Verdict>)
    ensures |vs| == |ops|
    decreases |ops|
  {
    if ops == [] then [] else [Answer(m, ops[0])] + Answers(Step(m, ops[0]), ops[1..])
  }

  ghost predicate Ordered(ops: seq<Op>) {
    forall i, j :: 0 <= i < j < |ops| ==> ops[i].now <= ops[j].now
  }

  /** No bucket was refilled after the first operation of the history. */
  ghost predicate Earlier(m: map<string, Bucket>, ops: seq<Op>) {
    ops != [] ==> forall k :: k in m ==> m[k].lastRefill <= ops[0].now
  }

  /** Each key is always used with its own fixed rate. */
  ghost predicate FixedRates(ops: seq<Op>, rate: string -> int) {
    forall i :: 0 <= i < |ops| ==> ops[i].rate == rate(ops[i].key)
  }

  lemma TailOk(m: map<string, Bucket>, ops: seq<Op>)
    requires ops != [] && Ordered(ops) && Earlier(m, ops)
    ensures Ordered(ops[1..]) && Earlier(Step(m, ops[0]), ops[1..]) && Earlier(m, ops[1..])
  {
    if |ops| > 1 {
      assert ops[0].now <= ops[1].now;
    }
  }

  // ------------------------------------------------- admissions in a time window

  /** Admitted allow() calls on `key` whose time lies in [s, t]. */
  function Admitted(m: map<string, Bucket>, ops: seq<Op>, key: string, s: real, t: real): nat
    decreases |ops|
  {
    if ops == [] then 0
    else
      (if Counts(m, ops[0], key, s, t) then 1 else 0) + Admitted(Step(m, ops[0]), ops[1..], key, s, t)
  }

  predicate Counts(m: map<string, Bucket>, op: Op, key: string, s: real, t: real) {
    op.Allow? && op.key == key && s <= op.now <= t && Answer(m, op).allowed
  }

  /** Tokens that flow in over `dt` seconds: R*dt/60. */
  function Inflow(rate: int, dt: real): real {
    dt * (rate as real / 60.0)
  }

  lemma InflowSum(rate: int, d0: real, d1: real)
    requires rate > 0 && 0.0 <= d0 && 0.0 <= d1
    ensures Inflow(rate, d0 + d1) == Inflow(rate, d0) + Inflow(rate, d1)
    ensures 0.0 <= Inflow(rate, d0) && 0.0 <= Inflow(rate, d1)
  {
    ScaleSum(d0, d1, rate as real / 60.0);
  }

  lemma CappedGrowth(cap: real, tokens: real, e0: real, e1: real, d: real, perSec: real)
    requires e1 <= e0 + d && 0.0 <= d && 0.0 <= perSec
    ensures MinReal(cap, tokens + e1 * perSec) <= MinReal(cap, tokens + e0 * perSec) + d * perSec
  {
    ScaleMonotone(e1, e0 + d, perSec);
    ScaleSum(e0, d, perSec);
    ScaleMonotone(0.0, d, perSec);
  }

  lemma AvailableGrows(b: Option<Bucket>, rate: int, now: real, later: real)
    requires rate > 0 && now <= later
    ensures Available(b, rate, later) <= Available(b, rate, now) + Inflow(rate, later - now)
  {
    if b.Some? {
      CappedGrowth(rate as real, b.value.tokens, MaxReal(now - b.value.lastRefill, 0.0),
                   MaxReal(later - b.value.lastRefill, 0.0), later - now, rate as real / 60.0);
    } else {
      InflowSum(rate, later - now, 0.0);
    }
  }

  lemma NoneAfterEnd(m: map<string, Bucket>, ops: seq<Op>, key: string, s: real, t: real)
    requires Ordered(ops) && (ops != [] ==> t < ops[0].now)
    ensures Admitted(m, ops, key, s, t) == 0
    decreases |ops|
  {
    if ops != [] {
      assert |ops| > 1 ==> ops[0].now <= ops[1].now;
      NoneAfterEnd(Step(m, ops[0]), ops[1..], key, s, t);
    }
  }

  /** One operation: what it admits is paid for by the tokens on hand. */
  lemma StepSpends(m: map<string, Bucket>, op: Op, key: string, rate: int, s: real, t: real)
    requires rate > 0 && (op.key == key ==> op.rate == rate)
    requires key in m ==> 0.0 <= m[key].tokens && m[key].lastRefill <= op.now
    ensures Available(Get(Step(m, op), key), rate, op.now) + (if Counts(m, op, key, s, t) then 1.0 else 0.0)
            <= Available(Get(m, key), rate, op.now) <= rate as real
    ensures 0.0 <= Available(Get(m, key), rate, op.now)
    ensures key in Step(m, op) ==> 0.0 <= Step(m, op)[key].tokens
  {
    if key in m {
      ScaleMonotone(0.0, op.now - m[key].lastRefill, rate as real / 60.0);
    }
  }

  /** From inside the window: what is on hand plus what flows in bounds what can be admitted. */
  lemma {:induction false} AdmittedFrom(m: map<string, Bucket>, ops: seq<Op>, key: string, rate: string -> int,
                                        s: real, t: real)
    requires ops != [] && Ordered(ops) && Earlier(m, ops) && FixedRates(ops, rate) && rate(key) > 0
    requires ops[0].now <= t && (key in m ==> 0.0 <= m[key].tokens)
    ensures Admitted(m, ops, key, s, t) as real
            <= Available(Get(m, key), rate(key), ops[0].now) + Inflow(rate(key), t - ops[0].now)
    decreases |ops|
  {
    var op, r := ops[0], rate(key);
    var m' := Step(m, op);
    TailOk(m, ops);
    StepSpends(m, op, key, r, s, t);
    if |ops| > 1 && ops[1].now <= t {
      AdmittedFrom(m', ops[1..], key, rate, s, t);
      AvailableGrows(Get(m', key), r, op.now, ops[1].now);
      InflowSum(r, ops[1].now - op.now, t - ops[1].now);
    } else {
      NoneAfterEnd(m', ops[1..], key, s, t);
      InflowSum(r, t - op.now, 0.0);
    }
  }

  /** In every window [s, t] a key with rate R admits at most R + R*(t-s)/60 calls,
      whatever is interleaved on other keys and however often the bucket is peeked at. */
  lemma {:induction false} WindowBound(m: map<string, Bucket>, ops: seq<Op>, key: string, rate: string -> int, s: real,
                                       t: real)
    requires Ordered(ops) && Earlier(m, ops) && FixedRates(ops, rate) && rate(key) > 0
    requires s <= t && (key in m ==> 0.0 <= m[key].tokens)
    ensures Admitted(m, ops, key, s, t) as real <= rate(key) as real + Inflow(rate(key), t - s)
    decreases |ops|
  {
    var r := rate(key);
    InflowSum(r, t - s, 0.0);
    if ops == [] || t < ops[0].now {
      NoneAfterEnd(m, ops, key, s, t);
    } else {
      StepSpends(m, ops[0], key, r, s, t);
      if s <= ops[0].now {
        AdmittedFrom(m, ops, key, rate, s, t);
        InflowSum(r, ops[0].now - s, t - ops[0].now);
      } else {
        TailOk(m, ops);
        WindowBound(Step(m, ops[0]), ops[1..], key, rate, s, t);
      }
    }
  }

  // ---------------------------------------------------- what is not refused

  function Burst(key: string, rate: int, now: real, n: nat): (ops: seq<Op>)
    ensures |ops| == n && forall i :: 0 <= i < n ==> ops[i] == Op.Allow(key, rate, now)
  {
    seq(n, i => Op.Allow(key, rate, now))
  }

  lemma {:induction false} BurstFrom(m: map<string, Bucket>, key: string, rate: int, now: real, n: nat, tokens: nat)
    requires rate > 0 && tokens <= rate && Available(Get(m, key), rate, now) == tokens as real
    ensures Admitted(m, Burst(key, rate, now, n), key, now, now) == Min(n, tokens)
    decreases n
  {
    if n > 0 {
      var op := Op.Allow(key, rate, now);
      assert Burst(key, rate, now, n)[1..] == Burst(key, rate, now, n - 1);
      BurstFrom(Step(m, op), key, rate, now, n - 1, if tokens > 0 then tokens - 1 else 0);
    }
  }

  /** A key not seen before is good for exactly its rate at once. */
  lemma BurstIsTheRate(m: map<string, Bucket>, key: string, rate: int, now: real, n: nat)
    requires rate > 0 && key !in m
    ensures Admitted(m, Burst(key, rate, now, n), key, now, now) == Min(n, rate)
  {
    BurstFrom(m, key, rate, now, n, rate);
  }

  /** An empty bucket admits the next call exactly from the time its share of a minute has passed. */
  lemma EmptyBucketRefills(rate: int, last: real, now: real)
    requires rate > 0 && last <= now
    ensures PeekAt(Some(Bucket(0.0, last)), rate, now).allowed <==> (now - last) * rate as real >= 60.0
  {
    assert (now - last) * (rate as real / 60.0) == (now - last) * rate as real / 60.0;
  }

  // ------------------------------------- peeks and denied calls leave no trace

  /** The two limiters offer the same tokens on every key from `now` on. */
  ghost predicate SameOffer(m: map<string, Bucket>, n: map<string, Bucket>, rate: string -> int, now: real) {
    forall k, t :: now <= t && rate(k) > 0 ==> Available(Get(m, k), rate(k), t) == Available(Get(n, k), rate(k), t)
  }

  lemma DeniedCallKeepsOffer(b: Option<Bucket>, rate: int, now: real, t: real)
    requires rate > 0 && now <= t && (b.Some? ==> b.value.lastRefill <= now)
    requires !PeekAt(b, rate, now).allowed
    ensures Available(BucketAfter(b, rate, now), rate, t) == Available(b, rate, t)
  {
    ScaleSum(now - b.value.lastRefill, t - now, rate as real / 60.0);
  }

  /** Keep the operations marked true. */
  function Keep<T>(xs: seq<T>, mask: seq<bool>): seq<T>
    requires |xs| == |mask|
  {
    if xs == [] then [] else (if mask[0] then [xs[0]] else []) + Keep(xs[1..], mask[1..])
  }

  /** Only peeks and denied allow() calls are dropped by the mask. */
  predicate DropsIdle(m: map<string, Bucket>, ops: seq<Op>, mask: seq<bool>)
    requires |ops| == |mask|
    decreases |ops|
  {
    ops == [] ||
    ((mask[0] || ops[0].Peek? || !Answer(m, ops[0]).allowed) && DropsIdle(Step(m, ops[0]), ops[1..], mask[1..]))
  }

  lemma StepKeepsOffer(m: map<string, Bucket>, n: map<string, Bucket>, op: Op, rate: string -> int, kept: bool)
    requires SameOffer(m, n, rate, op.now) && op.rate == rate(op.key)
    requires forall k :: k in m ==> m[k].lastRefill <= op.now
    requires kept || op.Peek? || !Answer(m, op).allowed
    ensures SameOffer(Step(m, op), if kept then Step(n, op) else n, rate, op.now)
    ensures Answer(m, op) == Answer(n, op)
  {
    var m', n' := Step(m, op), if kept then Step(n, op) else n;
    forall k, t | op.now <= t && rate(k) > 0
      ensures Available(Get(m', k), rate(k), t) == Available(Get(n', k), rate(k), t)
    {
      assert Available(Get(m, k), rate(k), t) == Available(Get(n, k), rate(k), t);
      assert Available(Get(m, k), rate(k), op.now) == Available(Get(n, k), rate(k), op.now);
      if k == op.key && op.Allow? && !kept {
        DeniedCallKeepsOffer(Get(m, k), rate(k), op.now, t);
      }
    }
    if op.rate > 0 {
      assert Available(Get(m, op.key), rate(op.key), op.now) == Available(Get(n, op.key), rate(op.key), op.now);
    }
  }

  lemma SameOfferLater(m: map<string, Bucket>, n: map<string, Bucket>, rate: string -> int, now: real, later: real)
    requires SameOffer(m, n, rate, now) && now <= later
    ensures SameOffer(m, n, rate, later)
  {
  }

  lemma {:induction false} ErasedFrom(m: map<string, Bucket>, n: map<string, Bucket>, ops: seq<Op>,
                                      rate: string -> int, mask: seq<bool>)
    requires |ops| == |mask| && Ordered(ops) && Earlier(m, ops) && FixedRates(ops, rate)
    requires ops != [] ==> SameOffer(m, n, rate, ops[0].now)
    requires DropsIdle(m, ops, mask)
    ensures Answers(n, Keep(ops, mask)) == Keep(Answers(m, ops), mask)
    decreases |ops|
  {
    if ops != [] {
      var op := ops[0];
      var m', n' := Step(m, op), if mask[0] then Step(n, op) else n;
      StepKeepsOffer(m, n, op, rate, mask[0]);
      TailOk(m, ops);
      if |ops| > 1 {
        SameOfferLater(m', n', rate, op.now, ops[1].now);
      }
      ErasedFrom(m', n', ops[1..], rate, mask[1..]);
      assert Answers(m, ops)[1..] == Answers(m', ops[1..]);
      if mask[0] {
        assert Keep(ops, mask)[1..] == Keep(ops[1..], mask[1..]);
      } else {
        assert Keep(ops, mask) == Keep(ops[1..], mask[1..]);
      }
    }
  }

  /** Dropping any set of peeks and denied allow() calls from a history changes no remaining answer. */
  lemma IdleCallsLeaveNoTrace(m: map<string, Bucket>, ops: seq<Op>, rate: string -> int, mask: seq<bool>)
    requires |ops| == |mask| && Ordered(ops) && Earlier(m, ops) && FixedRates(ops, rate)
    requires DropsIdle(m, ops, mask)
    ensures Answers(m, Keep(ops, mask)) == Keep(Answers(m, ops), mask)
  {
    ErasedFrom(m, m, ops, rate, mask);
  }

  // ------------------------------------------------------------- retry_after

  /** A denied call names the least whole wait: waiting `w` whole seconds succeeds exactly from there on,
      whether the denial came from peek() or from allow() (which stores the refilled bucket). */
  lemma RetryAfterIsLeast(b: Option<Bucket>, rate: int, now: real, w: nat)
    requires b.Some? ==> b.value.lastRefill <= now
    requires !PeekAt(b, rate, now).allowed
    ensures PeekAt(b, rate, now).retryAfter >= 1
    ensures PeekAt(b, rate, now + w as real).allowed <==> w >= PeekAt(b, rate, now).retryAfter
    ensures PeekAt(BucketAfter(b, rate, now), rate, now + w as real).allowed <==> w >= PeekAt(b, rate, now).retryAfter
  {
    DeniedCallKeepsOffer(b, rate, now, now + w as real);
    var tokens := Available(b, rate, now);
    ScaleSum(now - b.value.lastRefill, w as real, rate as real / 60.0);
    assert Available(b, rate, now + w as real) == MinReal(rate as real, tokens + Inflow(rate, w as real));
    LeastWait(1.0 - tokens, rate as real / 60.0, w);
  }

  lemma LeastWait(need: real, perSec: real, w: nat)
    requires 0.0 < need && 0.0 < perSec
    ensures Ceil(need / perSec) >= 1
    ensures w as real * perSec >= need <==> w >= Ceil(need / perSec)
  {
    QuotientAtMost(need, perSec, w as real);
    QuotientAtMost(need, perSec, 0.0);
    AtLeastCeil(need / perSec, w);
  }
}

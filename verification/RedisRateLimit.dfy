/** The Redis token bucket of app/core/rate_limit.py: the Lua script, its WATCH/MULTI
    fallback and the 120 second key expiry.  Times are whole milliseconds, as the program sends them. */
module RedisRateLimit {
  import opened Prelude
  import Memory = RateLimit

  type Verdict = Memory.Verdict

  datatype Hash = Hash(tokens: real, last: int)

  datatype Call = Call(rate: int, now: int)

  const EXPIRE_MS := 120_000
  const WATCH_ATTEMPTS := 5

  function Tokens(h: Option<Hash>, rate: int, now: int): real
    requires rate > 0
  {
    match h
    case None => rate as real
    case Some(k) => MinReal(rate as real, k.tokens + Max(now - k.last, 0) as real * (rate as real / 60000.0))
  }

  function VerdictOf(h: Option<Hash>, c: Call): Verdict {
    if c.rate <= 0 then Memory.PASS
    else
      var tokens := Tokens(h, c.rate, c.now);
      if tokens >= 1.0 then Memory.PASS
      else Memory.Verdict(false, Max(Ceil((1.0 - tokens) / (c.rate as real / 60000.0) / 1000.0), 1))
  }

  function HashAfter(h: Option<Hash>, c: Call): Option<Hash> {
    if c.rate <= 0 then h
    else
      var tokens := Tokens(h, c.rate, c.now);
      Some(Hash(if tokens >= 1.0 then tokens - 1.0 else tokens, c.now))
  }

  function Verdicts(h: Option<Hash>, calls: seq<Call>): (vs: seq<Verdict>)
    ensures |vs| == |calls|
    decreases |calls|
  {
    if calls == [] then [] else [VerdictOf(h, calls[0])] + Verdicts(HashAfter(h, calls[0]), calls[1..])
  }

  function After(h: Option<Hash>, calls: seq<Call>): Option<Hash>
    decreases |calls|
  {
    if calls == [] then h else After(HashAfter(h, calls[0]), calls[1..])
  }

  lemma AfterConcat(h: Option<Hash>, xs: seq<Call>, ys: seq<Call>)
    ensures After(h, xs + ys) == After(After(h, xs), ys)
    decreases |xs|
  {
    if xs == [] {
      assert xs + ys == ys;
    } else {
      assert (xs + ys)[1..] == xs[1..] + ys;
      AfterConcat(HashAfter(h, xs[0]), xs[1..], ys);
    }
  }

  function Flatten(batches: seq<seq<Call>>): seq<Call> {
    if batches == [] then [] else Flatten(batches[..|batches| - 1]) + batches[|batches| - 1]
  }

  /** First attempt during which no other client touches the key; |batches| when there is none. */
  function FirstQuiet(batches: seq<seq<Call>>): (i: nat)
    ensures i <= |batches|
    ensures i < |batches| ==> batches[i] == []
    ensures forall j :: 0 <= j < i ==> batches[j] != []
  {
    if batches == [] || batches[0] == [] then 0 else 1 + FirstQuiet(batches[1..])
  }

  class RedisTokenBucketRateLimiter {
    var store: map<string, Hash>

    constructor ()
      ensures store == map[]
    {
      store := map[];
    }

    /** The script path: one atomic EVAL. */
    method Allow(key: string, ratePerMin: int, nowMs: int) returns (v: Verdict)
      modifies this
      ensures v == VerdictOf(Get(old(store), key), Call(ratePerMin, nowMs))
      ensures Get(store, key) == HashAfter(Get(old(store), key), Call(ratePerMin, nowMs))
      ensures store - {key} == old(store) - {key}
    {
      if ratePerMin <= 0 {
        return Memory.PASS;
      }
      var refillPerMs := ratePerMin as real / 60000.0;
      var tokens, last := ratePerMin as real, nowMs;
      if key in store {
        tokens, last := store[key].tokens, store[key].last;
      }
      var elapsed := Max(nowMs - last, 0);
      tokens := MinReal(ratePerMin as real, tokens + elapsed as real * refillPerMs);
      assert tokens == Tokens(Get(store, key), ratePerMin, nowMs);
      if tokens >= 1.0 {
        tokens := tokens - 1.0;
        v := Memory.PASS;
      } else {
        var msNeeded := (1.0 - tokens) / refillPerMs;
        v := Memory.Verdict(false, Max(Ceil(msNeeded / 1000.0), 1));
      }
      store := store[key := Hash(tokens, nowMs)];
    }

    /** The optimistic path.  `others[i]` are the calls of other clients on this key that reach the
        server between WATCH and EXEC of attempt i; None is the 503 raised after five conflicts. */
    method AllowFallback(key: string, rate: int, nowMs: int, others: seq<seq<Call>>) returns (v: Option<Verdict>)
      requires rate > 0 && |others| == WATCH_ATTEMPTS
      requires forall i, j :: 0 <= i < |others| && 0 <= j < |others[i]| ==> others[i][j].rate > 0
      modifies this
      ensures store - {key} == old(store) - {key}
      ensures v.Some? <==> exists i :: 0 <= i < |others| && others[i] == []
      ensures var before := After(Get(old(store), key), Flatten(others[..FirstQuiet(others)]));
              match v
              case Some(verdict) =>
                verdict == VerdictOf(before, Call(rate, nowMs))
                  && Get(store, key) == HashAfter(before, Call(rate, nowMs))
              case None => Get(store, key) == before
    {
      var attempt := 0;
      while attempt < WATCH_ATTEMPTS
        invariant 0 <= attempt <= FirstQuiet(others) && attempt <= WATCH_ATTEMPTS
        invariant store - {key} == old(store) - {key}
        invariant Get(store, key) == After(Get(old(store), key), Flatten(others[..attempt]))
      {
        var seen := Get(store, key);
        var tokens := if seen.Some? then seen.value.tokens else rate as real;
        var last := if seen.Some? then seen.value.last else nowMs;
        var elapsed := Max(nowMs - last, 0);
        var refillPerMs := rate as real / 60000.0;
        tokens := MinReal(rate as real, tokens + elapsed as real * refillPerMs);
        assert tokens == Tokens(seen, rate, nowMs);
        var verdict := Memory.PASS;
        if tokens >= 1.0 {
          tokens := tokens - 1.0;
        } else {
          var msNeeded := (1.0 - tokens) / refillPerMs;
          verdict := Memory.Verdict(false, Max(Ceil(msNeeded / 1000.0), 1));
        }
        if others[attempt] == [] {
          assert others[attempt] == [] && attempt == FirstQuiet(others);
          store := store[key := Hash(tokens, nowMs)];
          return Some(verdict);
        }
        ghost var before := store;
        var landed := After(Get(store, key), others[attempt]);
        AfterWrites(Get(store, key), others[attempt]);
        store := store[key := landed.value];
        assert store - {key} == before - {key};
        assert others[..attempt + 1][..attempt] == others[..attempt];
        AfterConcat(Get(old(store), key), Flatten(others[..attempt]), others[attempt]);
        attempt := attempt + 1;
      }
      return None;
    }
  }

  lemma AfterWrites(h: Option<Hash>, calls: seq<Call>)
    requires calls != [] && forall j :: 0 <= j < |calls| ==> calls[j].rate > 0
    ensures After(h, calls).Some?
    decreases |calls|
  {
    if |calls| > 1 {
      AfterWrites(HashAfter(h, calls[0]), calls[1..]);
    }
  }

  // ------------------------------------------------------------------ expiry

  /** A call takes at most this long from its stamp to the server. */
  const MAX_DELAY_MS := 60_000

  /** The server's clock when each call arrives. */
  ghost predicate InTransit(calls: seq<Call>, arrivals: seq<int>) {
    |arrivals| == |calls| &&
    forall i :: 0 <= i < |calls| ==> calls[i].now <= arrivals[i] <= calls[i].now + MAX_DELAY_MS
  }

  /** The verdicts of a server that has dropped the key by the time call i arrives if `gone[i]`; a call with a
      non-positive rate does not reach the server. */
  function ExpiringVerdicts(h: Option<Hash>, calls: seq<Call>, gone: seq<bool>): (vs: seq<Verdict>)
    requires |calls| == |gone|
    ensures |vs| == |calls|
    decreases |calls|
  {
    if calls == [] then []
    else
      var seen := if gone[0] && calls[0].rate > 0 then None else h;
      [VerdictOf(seen, calls[0])] + ExpiringVerdicts(HashAfter(seen, calls[0]), calls[1..], gone[1..])
  }

  /** The server drops the key only when its own clock is 120 seconds past the write that last set the expiry, which
      reached it at `written`. */
  predicate ExpiresInTime(written: int, calls: seq<Call>, arrivals: seq<int>, gone: seq<bool>)
    requires |calls| == |gone| == |arrivals|
    decreases |calls|
  {
    calls == [] ||
    ((gone[0] && calls[0].rate > 0 ==> written + EXPIRE_MS <= arrivals[0]) &&
     ExpiresInTime(if calls[0].rate > 0 then arrivals[0] else written, calls[1..], arrivals[1..], gone[1..]))
  }

  /** Sixty seconds of refill fill a bucket of any rate. */
  lemma IdleBucketIsFull(k: Hash, rate: int, now: int)
    requires rate > 0 && 0.0 <= k.tokens && k.last + 60_000 <= now
    ensures Tokens(Some(k), rate, now) == rate as real
  {
    ScaleMonotone(60000.0, (now - k.last) as real, rate as real / 60000.0);
  }

  lemma TokensInRange(h: Option<Hash>, rate: int, now: int)
    requires rate > 0 && (h.Some? ==> 0.0 <= h.value.tokens)
    ensures 0.0 <= Tokens(h, rate, now) <= rate as real
  {
    if h.Some? {
      ScaleMonotone(0.0, Max(now - h.value.last, 0) as real, rate as real / 60000.0);
    }
  }

  /** Key expiry cannot be observed, in whatever order the stamps arrive and even when the rate changes from call to
      call. */
  lemma {:induction false} ExpiryIsUnobservable(h: Option<Hash>, written: int, calls: seq<Call>, arrivals: seq<int>,
                                                gone: seq<bool>)
    requires |calls| == |gone| && InTransit(calls, arrivals)
    requires h.Some? ==> 0.0 <= h.value.tokens && h.value.last <= written
    requires ExpiresInTime(written, calls, arrivals, gone)
    ensures ExpiringVerdicts(h, calls, gone) == Verdicts(h, calls)
    decreases |calls|
  {
    if calls != [] {
      var c := calls[0];
      if c.rate > 0 {
        TokensInRange(h, c.rate, c.now);
        if gone[0] && h.Some? {
          IdleBucketIsFull(h.value, c.rate, c.now);
        }
      }
      assert InTransit(calls[1..], arrivals[1..]);
      ExpiryIsUnobservable(HashAfter(h, c), if c.rate > 0 then arrivals[0] else written,
                           calls[1..], arrivals[1..], gone[1..]);
    }
  }

  // ------------------------------------------------------- the in-memory bucket

  function Seconds(ms: int): real {
    ms as real / 1000.0
  }

  /** The same calls put to the in-memory limiter. */
  function InMemory(key: string, calls: seq<Call>): (ops: seq<Memory.Op>)
    ensures |ops| == |calls|
    decreases |calls|
  {
    if calls == [] then []
    else [Memory.Op.Allow(key, calls[0].rate, Seconds(calls[0].now))] + InMemory(key, calls[1..])
  }

  ghost predicate SameBucket(h: Option<Hash>, b: Option<Memory.Bucket>) {
    match (h, b)
    case (None, None) => true
    case (Some(k), Some(c)) => k.tokens == c.tokens && c.lastRefill == Seconds(k.last)
    case _ => false
  }

  lemma SameRefill(ms: int, rate: real)
    ensures ms as real * (rate / 60000.0) == Seconds(ms) * (rate / 60.0)
  {
  }

  lemma SameWait(need: real, rate: real)
    requires 0.0 < rate
    ensures need / (rate / 60000.0) / 1000.0 == need / (rate / 60.0)
  {
    var q := need / (rate / 60.0);
    assert q * (rate / 60.0) == need;
    assert (q * 1000.0) * (rate / 60000.0) == need;
    assert need / (rate / 60000.0) == q * 1000.0 by {
      var p := need / (rate / 60000.0);
      assert p * (rate / 60000.0) == need;
      if p < q * 1000.0 {
        ScaleStrict(p, q * 1000.0, rate / 60000.0);
      } else if q * 1000.0 < p {
        ScaleStrict(q * 1000.0, p, rate / 60000.0);
      }
    }
  }

  lemma SameTokens(h: Option<Hash>, b: Option<Memory.Bucket>, rate: int, now: int)
    requires SameBucket(h, b) && rate > 0
    ensures Tokens(h, rate, now) == Memory.Available(b, rate, Seconds(now))
  {
    if h.Some? {
      var ms := Max(now - h.value.last, 0);
      SameRefill(ms, rate as real);
      assert Seconds(ms) == MaxReal(Seconds(now) - b.value.lastRefill, 0.0);
    }
  }

  /** Over the reals the Redis bucket answers exactly as the in-memory one, call by call. */
  lemma {:induction false} AgreesWithMemory(h: Option<Hash>, m: map<string, Memory.Bucket>, key: string,
                                            calls: seq<Call>)
    requires SameBucket(h, Get(m, key))
    ensures Verdicts(h, calls) == Memory.Answers(m, InMemory(key, calls))
    decreases |calls|
  {
    if calls != [] {
      var c, ops := calls[0], InMemory(key, calls);
      assert ops[1..] == InMemory(key, calls[1..]);
      if c.rate > 0 {
        SameTokens(h, Get(m, key), c.rate, c.now);
        SameWait(1.0 - Tokens(h, c.rate, c.now), c.rate as real);
      }
      AgreesWithMemory(HashAfter(h, c), Memory.Step(m, ops[0]), key, calls[1..]);
    }
  }

  // ------------------------------------------- stamps that arrive out of order

  function Admitted(h: Option<Hash>, calls: seq<Call>): nat
    decreases |calls|
  {
    if calls == [] then 0
    else (if VerdictOf(h, calls[0]).allowed then 1 else 0) + Admitted(HashAfter(h, calls[0]), calls[1..])
  }

  /** One upward step of the stamps, as far as it refills: sixty seconds fill any bucket. */
  function Step(from: int, to: int): nat {
    Min(Max(to - from, 0), 60_000)
  }

  /** Total upward movement of the stamps in arrival order, each step counted as far as it refills. */
  function Rise(stamps: seq<int>): nat
    decreases |stamps|
  {
    if |stamps| <= 1 then 0 else Step(stamps[0], stamps[1]) + Rise(stamps[1..])
  }

  function StampsOf(calls: seq<Call>): (r: seq<int>)
    ensures |r| == |calls|
  {
    seq(|calls|, i requires 0 <= i < |calls| => calls[i].now)
  }

  function Inflow(rate: int, ms: int): real {
    ms as real * (rate as real / 60000.0)
  }

  lemma InflowSum(rate: int, m0: nat, m1: nat)
    requires rate > 0
    ensures Inflow(rate, m0 + m1) == Inflow(rate, m0) + Inflow(rate, m1)
    ensures 0.0 <= Inflow(rate, m0) && 0.0 <= Inflow(rate, m1)
  {
    ScaleSum(m0 as real, m1 as real, rate as real / 60000.0);
  }

  lemma NextTokens(h: Option<Hash>, rate: int, now: int, next: int)
    requires rate > 0 && (h.Some? ==> 0.0 <= h.value.tokens)
    ensures var c := Call(rate, now);
            && Tokens(HashAfter(h, c), rate, next) + (if VerdictOf(h, c).allowed then 1.0 else 0.0)
               <= Tokens(h, rate, now) + Inflow(rate, Step(now, next))
            && 0.0 <= HashAfter(h, c).value.tokens
  {
    TokensInRange(h, rate, now);
    FullMinute(rate);
  }

  lemma FullMinute(rate: int)
    ensures Inflow(rate, 60_000) == rate as real
  {
  }

  /** With stamps in any order, admissions are bounded by the upward movement of the stamps. */
  lemma {:induction false} AdmittedByRise(h: Option<Hash>, calls: seq<Call>, rate: int)
    requires rate > 0 && calls != [] && (h.Some? ==> 0.0 <= h.value.tokens)
    requires forall i :: 0 <= i < |calls| ==> calls[i].rate == rate
    ensures Admitted(h, calls) as real <= Tokens(h, rate, calls[0].now) + Inflow(rate, Rise(StampsOf(calls)))
    ensures Admitted(h, calls) as real <= rate as real + Inflow(rate, Rise(StampsOf(calls)))
    decreases |calls|
  {
    var h' := HashAfter(h, calls[0]);
    TokensInRange(h, rate, calls[0].now);
    InflowSum(rate, Rise(StampsOf(calls)), 0);
    assert StampsOf(calls)[1..] == StampsOf(calls[1..]);
    if |calls| > 1 {
      var step := Step(calls[0].now, calls[1].now);
      NextTokens(h, rate, calls[0].now, calls[1].now);
      AdmittedByRise(h', calls[1..], rate);
      InflowSum(rate, step, Rise(StampsOf(calls[1..])));
    } else {
      assert Admitted(h', calls[1..]) == 0;
    }
  }

  // ------------------------------------------- exactly which stamps keep the bound

  function Latest(stamps: seq<int>): (m: int)
    requires stamps != []
    ensures forall i :: 0 <= i < |stamps| ==> stamps[i] <= m
  {
    if |stamps| == 1 then stamps[0] else Max(stamps[0], Latest(stamps[1..]))
  }

  function Earliest(stamps: seq<int>): (m: int)
    requires stamps != []
    ensures forall i :: 0 <= i < |stamps| ==> m <= stamps[i]
  {
    if |stamps| == 1 then stamps[0] else Min(stamps[0], Earliest(stamps[1..]))
  }

  function Span(stamps: seq<int>): int
    requires stamps != []
  {
    Latest(stamps) - Earliest(stamps)
  }

  function Repeat(c: Call, n: nat): (r: seq<Call>)
    ensures |r| == n && forall i :: 0 <= i < n ==> r[i] == c
  {
    seq(n, i => c)
  }

  /** `counts[i]` calls stamped `stamps[i]`, in arrival order. */
  function CallsAt(rate: int, stamps: seq<int>, counts: seq<nat>): (r: seq<Call>)
    requires |counts| == |stamps|
    ensures forall i :: 0 <= i < |r| ==> r[i].rate == rate
  {
    if stamps == [] then [] else Repeat(Call(rate, stamps[0]), counts[0]) + CallsAt(rate, stamps[1..], counts[1..])
  }

  /** The window bound over the span of the stamps. */
  ghost predicate Bounded(h: Option<Hash>, rate: int, stamps: seq<int>, counts: seq<nat>)
    requires stamps != [] && |counts| == |stamps|
  {
    Admitted(h, CallsAt(rate, stamps, counts)) as real <= rate as real + Inflow(rate, Span(stamps))
  }

  /** The bound is kept for every bucket, every rate and every number of calls at each stamp. */
  ghost predicate AlwaysBounded(stamps: seq<int>)
    requires stamps != []
  {
    forall h, rate, counts :: rate > 0 && |counts| == |stamps| && Sound(h) ==> Bounded(h, rate, stamps, counts)
  }

  predicate Sound(h: Option<Hash>) {
    h.Some? ==> 0.0 <= h.value.tokens
  }

  lemma {:induction false} OrderedRise(stamps: seq<int>)
    requires stamps != [] && forall i, j :: 0 <= i < j < |stamps| ==> stamps[i] <= stamps[j]
    ensures Rise(stamps) <= stamps[|stamps| - 1] - stamps[0] == Span(stamps)
    decreases |stamps|
  {
    if |stamps| > 1 {
      assert stamps[0] <= stamps[1];
      OrderedRise(stamps[1..]);
    }
  }

  /** Leaving out the calls of a stamp does not raise the rise. */
  lemma {:induction false} RiseOfCalls(rate: int, stamps: seq<int>, counts: seq<nat>, from: int)
    requires |counts| == |stamps|
    ensures Rise([from] + StampsOf(CallsAt(rate, stamps, counts))) <= Rise([from] + stamps)
    decreases |stamps|, if stamps == [] then 0 else counts[0]
  {
    var calls := CallsAt(rate, stamps, counts);
    if stamps != [] {
      var rest := CallsAt(rate, stamps[1..], counts[1..]);
      assert ([from] + stamps)[1..] == stamps == [stamps[0]] + stamps[1..];
      if counts[0] == 0 {
        assert calls == rest;
        RiseOfCalls(rate, stamps[1..], counts[1..], from);
        if |stamps| > 1 {
          assert ([from] + stamps[1..])[1..] == stamps[1..] && stamps[1..] == [stamps[1]] + stamps[2..];
        }
      } else {
        var fewer := [counts[0] - 1] + counts[1..];
        RiseOfCalls(rate, stamps, fewer, stamps[0]);
        assert calls == [Call(rate, stamps[0])] + CallsAt(rate, stamps, fewer) by {
          assert fewer[1..] == counts[1..];
        }
        assert StampsOf(calls) == [stamps[0]] + StampsOf(CallsAt(rate, stamps, fewer));
        assert ([from] + StampsOf(calls))[1..] == StampsOf(calls);
        assert ([stamps[0]] + stamps)[1..] == stamps;
      }
    }
  }

  lemma RiseWithinSpanBounds(stamps: seq<int>)
    requires stamps != [] && Rise(stamps) <= Span(stamps)
    ensures AlwaysBounded(stamps)
  {
    forall h, rate, counts: seq<nat> | rate > 0 && |counts| == |stamps| && Sound(h)
      ensures Bounded(h, rate, stamps, counts) {
      var calls := CallsAt(rate, stamps, counts);
      RiseOfCalls(rate, stamps, counts, stamps[0]);
      assert ([stamps[0]] + stamps)[1..] == stamps;
      InflowSum(rate, Rise(stamps), Span(stamps) - Rise(stamps));
      if calls != [] {
        AdmittedByRise(h, calls, rate);
        assert ([stamps[0]] + StampsOf(calls))[1..] == StampsOf(calls);
        InflowSum(rate, Rise(StampsOf(calls)), Rise(stamps) - Rise(StampsOf(calls)));
      }
    }
  }

  /** Calls enough to drain the bucket at each stamp, at a rate of one token a millisecond; at least one, so that the
      stamp is recorded. */
  function Draining(stamps: seq<int>, tokens: nat): (r: seq<nat>)
    ensures |r| == |stamps|
  {
    if stamps == [] then []
    else [Max(tokens, 1)] + Draining(stamps[1..], if |stamps| > 1 then Step(stamps[0], stamps[1]) else 0)
  }

  lemma {:induction false} AdmittedConcat(h: Option<Hash>, xs: seq<Call>, ys: seq<Call>)
    ensures Admitted(h, xs + ys) == Admitted(h, xs) + Admitted(After(h, xs), ys)
    decreases |xs|
  {
    if xs == [] {
      assert xs + ys == ys;
    } else {
      assert (xs + ys)[1..] == xs[1..] + ys;
      AdmittedConcat(HashAfter(h, xs[0]), xs[1..], ys);
    }
  }

  const MILLI_RATE := 60_000

  lemma {:induction false} DrainOne(h: Option<Hash>, now: int, n: nat)
    requires n <= MILLI_RATE && Tokens(h, MILLI_RATE, now) == n as real
    ensures var calls := Repeat(Call(MILLI_RATE, now), Max(n, 1));
            Admitted(h, calls) == n && After(h, calls) == Some(Hash(0.0, now))
    decreases n
  {
    var c := Call(MILLI_RATE, now);
    var calls := Repeat(c, Max(n, 1));
    var h' := HashAfter(h, c);
    if n <= 1 {
      assert calls == [c] && calls[1..] == [];
      assert Admitted(h', []) == 0 && After(h', []) == h';
    } else {
      assert calls[1..] == Repeat(c, n - 1);
      assert h' == Some(Hash(n as real - 1.0, now));
      DrainOne(h', now, n - 1);
    }
  }

  lemma RefillTokens(now: int, next: int)
    ensures Tokens(Some(Hash(0.0, now)), MILLI_RATE, next) == Step(now, next) as real
  {
  }

  lemma {:induction false} DrainAll(h: Option<Hash>, stamps: seq<int>, tokens: nat)
    requires stamps != [] && tokens <= MILLI_RATE && Tokens(h, MILLI_RATE, stamps[0]) == tokens as real
    ensures Admitted(h, CallsAt(MILLI_RATE, stamps, Draining(stamps, tokens))) == tokens + Rise(stamps)
    decreases |stamps|
  {
    var counts := Draining(stamps, tokens);
    var first := Repeat(Call(MILLI_RATE, stamps[0]), counts[0]);
    var rest := CallsAt(MILLI_RATE, stamps[1..], counts[1..]);
    AdmittedConcat(h, first, rest);
    DrainOne(h, stamps[0], tokens);
    if |stamps| > 1 {
      var next := Step(stamps[0], stamps[1]);
      RefillTokens(stamps[0], stamps[1]);
      DrainAll(Some(Hash(0.0, stamps[0])), stamps[1..], next);
      assert counts[1..] == Draining(stamps[1..], next);
    } else {
      assert rest == [];
    }
  }

  /** Stamps that arrive late break the window bound exactly when they rise, step by step, more than they span. */
  lemma WindowBoundIffRiseWithinSpan(stamps: seq<int>)
    requires stamps != []
    ensures AlwaysBounded(stamps) <==> Rise(stamps) <= Span(stamps)
  {
    if Rise(stamps) <= Span(stamps) {
      RiseWithinSpanBounds(stamps);
    }
    if AlwaysBounded(stamps) {
      var counts := Draining(stamps, MILLI_RATE);
      DrainAll(None, stamps, MILLI_RATE);
      assert Sound(None) && Bounded(None, MILLI_RATE, stamps, counts);
      assert Inflow(MILLI_RATE, Span(stamps)) == Span(stamps) as real;
    }
  }

  /** A stamp taken early and delivered late really does admit more than the window allows:
      of four calls at one per minute, all stamped within one minute, three are admitted. */
  lemma LateStampOveradmits()
    ensures var calls := [Call(1, 0), Call(1, 60_000), Call(1, 0), Call(1, 60_000)];
            Admitted(None, calls) == 3 && 3.0 > 1.0 + Inflow(1, 60_000)
  {
    var c0, c1 := Call(1, 0), Call(1, 60_000);
    var h1 := HashAfter(None, c0);
    var h2 := HashAfter(h1, c1);
    var h3 := HashAfter(h2, c0);
    assert h1 == Some(Hash(0.0, 0)) && h2 == Some(Hash(0.0, 60_000)) && h3 == Some(Hash(0.0, 0));
    assert Admitted(HashAfter(h3, c1), []) == 0;
    assert Admitted(h3, [c1]) == 1;
    assert [c0, c1][1..] == [c1];
    assert Admitted(h2, [c0, c1]) == 1;
    assert [c1, c0, c1][1..] == [c0, c1];
    assert Admitted(h1, [c1, c0, c1]) == 2;
    assert [c0, c1, c0, c1][1..] == [c1, c0, c1];
  }
}

/** The per-client gate of app/api/deps.py: concurrency lease, rate limit and daily quota around one request. */
module Governance {
  import opened Prelude
  import C = Concurrency
  import R = RateLimit

  class Client {
    const id: string
    const maxConcurrent: int
    const ratePerMin: int
    const dailyQuota: Option<int>
    var dailyUsage: int
    var quotaResetAt: Option<int>  // day number

    constructor (id: string, maxConcurrent: int, ratePerMin: int, dailyQuota: Option<int>)
      ensures this.id == id && this.maxConcurrent == maxConcurrent && this.ratePerMin == ratePerMin
      ensures this.dailyQuota == dailyQuota && dailyUsage == 0 && quotaResetAt == None
    {
      this.id, this.maxConcurrent, this.ratePerMin, this.dailyQuota := id, maxConcurrent, ratePerMin, dailyQuota;
      dailyUsage, quotaResetAt := 0, None;
    }
  }

  datatype Outcome =
    | Served
    | ConcurrencyLimited
    | RateLimited(retryAfter: int)
    | LimiterUnavailable  // the limiter itself raised, which only the Redis limiter does
    | QuotaExceeded
    | DbUnavailable

  /** What the world does to one request. */
  datatype World = World(now: real, limiterRaises: bool, quotaCheck: bool, today: Option<int>, commitOk: bool)

  /** Usage that the quota test looks at: it starts again from zero on a new day. */
  function UsageToday(usage: int, resetAt: Option<int>, today: int): int {
    if resetAt != Some(today) then 0 else usage
  }

  /** What the quota step decides, `today` being None when the time zone lookup raises. */
  function QuotaVerdict(quota: int, usage: int, resetAt: Option<int>, w: World): Outcome {
    match w.today
    case None => DbUnavailable
    case Some(today) =>
      if UsageToday(usage, resetAt, today) >= quota then QuotaExceeded
      else if resetAt != Some(today) && !w.commitOk then DbUnavailable
      else Served
  }

  /** What other requests do to the leases while this one is served. */
  datatype Other =
    | Take(key: string, maximum: int)
    | GiveBack(n: nat)  // the n-th lease other requests have held, any number of times

  /** Usage and reset day after the quota step: a new day starts again from zero, unless a refusal fails to commit. */
  function QuotaAfter(usage: int, resetAt: Option<int>, outcome: Outcome, w: World): (int, Option<int>) {
    if w.today.Some? && resetAt != w.today && (outcome == QuotaExceeded ==> w.commitOk) then (0, w.today)
    else (usage, resetAt)
  }

  /** The daily quota. */
  method CheckQuota(client: Client, quota: int, w: World) returns (outcome: Outcome)
    modifies client
    ensures outcome == QuotaVerdict(quota, old(client.dailyUsage), old(client.quotaResetAt), w)
    ensures (client.dailyUsage, client.quotaResetAt)
            == QuotaAfter(old(client.dailyUsage), old(client.quotaResetAt), outcome, w)
    ensures outcome == Served ==>
              w.today.Some? && client.quotaResetAt == w.today && client.dailyUsage < quota
              && client.dailyUsage == UsageToday(old(client.dailyUsage), old(client.quotaResetAt), w.today.value)
  {
    if w.today.None? {
      return DbUnavailable;
    }
    var dirty := false;
    var usage, resetAt := client.dailyUsage, client.quotaResetAt;
    if client.quotaResetAt != w.today {
      client.dailyUsage := 0;
      client.quotaResetAt := w.today;
      dirty := true;
    }
    if client.dailyUsage >= quota {
      if dirty && !w.commitOk {
        client.dailyUsage, client.quotaResetAt := usage, resetAt;  // rollback
      }
      return QuotaExceeded;
    }
    return if dirty && !w.commitOk then DbUnavailable else Served;
  }

  /** The outcome of the gate, in the order of its tests. */
  function Gate(full: bool, verdict: R.Verdict, quota: Option<int>, usage: int, resetAt: Option<int>,
                w: World): Outcome {
    if full then ConcurrencyLimited
    else if w.limiterRaises then LimiterUnavailable
    else Checked(verdict, quota, usage, resetAt, w)
  }

  function Checked(verdict: R.Verdict, quota: Option<int>, usage: int, resetAt: Option<int>, w: World): Outcome {
    if !verdict.allowed then RateLimited(verdict.retryAfter)
    else if w.quotaCheck && quota.Some? then QuotaVerdict(quota.value, usage, resetAt, w)
    else Served
  }

  /** Usage and reset day after the gate. */
  function GateAfter(verdict: R.Verdict, quota: Option<int>, usage: int, resetAt: Option<int>, w: World)
    : (int, Option<int>) {
    if verdict.allowed && w.quotaCheck && quota.Some?
    then QuotaAfter(usage, resetAt, QuotaVerdict(quota.value, usage, resetAt, w), w)
    else (usage, resetAt)
  }

  /** Each outcome and when it is given, read off the settings and the world.  `fits` and `books`: the quota has room
      for one more request today, and a new day can be booked. */
  predicate Ruled(outcome: Outcome, full: bool, verdict: R.Verdict, quota: Option<int>, usage: int,
                  resetAt: Option<int>, w: World)
  {
    var passed := !full && !w.limiterRaises && verdict.allowed;
    var limited := passed && w.quotaCheck && quota.Some?;
    var fits := limited && w.today.Some? && (if resetAt == w.today then usage else 0) < quota.value;
    var books := resetAt == w.today || w.commitOk;
    && (outcome == ConcurrencyLimited <==> full)
    && (outcome == LimiterUnavailable <==> !full && w.limiterRaises)
    && (outcome.RateLimited? <==> !full && !w.limiterRaises && !verdict.allowed)
    && (outcome.RateLimited? ==> outcome.retryAfter == verdict.retryAfter)
    && (outcome == QuotaExceeded <==> limited && w.today.Some? && !fits)
    && (outcome == DbUnavailable <==> limited && (w.today.None? || (fits && !books)))
    && (outcome == Served <==> passed && (!limited || (fits && books)))
  }

  /** The usage is that of today once the quota has been looked at, except that a refusal on a new day has to commit. */
  predicate Booked(outcome: Outcome, quota: Option<int>, usage: int, resetAt: Option<int>, w: World,
                   usage': int, resetAt': Option<int>)
  {
    var looked := w.quotaCheck && quota.Some? && w.today.Some? && outcome in {Served, QuotaExceeded, DbUnavailable};
    if looked && resetAt != w.today && (outcome != QuotaExceeded || w.commitOk) then usage' == 0 && resetAt' == w.today
    else usage' == usage && resetAt' == resetAt
  }

  lemma GateRules(full: bool, verdict: R.Verdict, quota: Option<int>, usage: int, resetAt: Option<int>, w: World)
    ensures var outcome := Gate(full, verdict, quota, usage, resetAt, w);
            var (usage', resetAt') := if full || w.limiterRaises then (usage, resetAt)
                                      else GateAfter(verdict, quota, usage, resetAt, w);
            Ruled(outcome, full, verdict, quota, usage, resetAt, w)
            && Booked(outcome, quota, usage, resetAt, w, usage', resetAt')
  {
  }

  function Ask(client: Client, w: World): R.Op {
    R.Op.Allow(client.id, client.ratePerMin, w.now)
  }

  /** The rate limit and the quota. */
  method Check(client: Client, limiter: R.TokenBucketRateLimiter, w: World) returns (outcome: Outcome)
    modifies client, limiter
    ensures var verdict := R.Answer(old(limiter.buckets), Ask(client, w));
            && outcome == Checked(verdict, client.dailyQuota, old(client.dailyUsage), old(client.quotaResetAt), w)
            && (client.dailyUsage, client.quotaResetAt)
               == GateAfter(verdict, client.dailyQuota, old(client.dailyUsage), old(client.quotaResetAt), w)
    ensures limiter.buckets == R.Step(old(limiter.buckets), Ask(client, w))
  {
    var allowed, retryAfter := limiter.Allow(client.id, client.ratePerMin, w.now);
    if !allowed {
      return RateLimited(retryAfter);
    }
    outcome := Served;
    if w.quotaCheck && client.dailyQuota.Some? {
      outcome := CheckQuota(client, client.dailyQuota.value, w);
    }
  }

  /** A lease that came and went changes nothing, whatever came and went meanwhile. */
  lemma Leaves(before: set<C.Lease>, mine: C.Lease, givenBack: set<C.Lease>, taken: set<C.Lease>)
    requires mine !in before && mine !in givenBack && mine !in taken
    ensures before + {mine} - givenBack + taken - {mine} == before - givenBack + taken
    ensures before + {mine} - {mine} == before
    ensures before - givenBack + taken - {mine} == before - givenBack + taken
  {
  }

  lemma AcquireAddsOne(states: map<string, C.State>, key: string, maximum: int)
    requires maximum > 0 && !C.Refuses(states, key, maximum)
    ensures forall k :: C.CurrentOf(C.AfterAcquire(states, key, maximum), k)
                        == C.CurrentOf(states, k) + (if k == key then 1 else 0)
  {
  }

  /** Everything up to the yield; every refusal gives the lease back, but an exception of the limiter does not.  The
      limiter in memory raises none; in Redis mode the lost lease runs out with its TTL. */
  method Admit(client: Client, leases: C.ConcurrencyManager, limiter: R.TokenBucketRateLimiter, w: World)
    returns (outcome: Outcome, lease: C.Lease?)
    requires leases.Valid()
    modifies client, leases, limiter
    ensures leases.Valid()
    ensures var full := client.maxConcurrent > 0
                        && |C.HoldersOf(old(leases.outstanding), client.id)| >= client.maxConcurrent;
            var verdict := R.Answer(old(limiter.buckets), Ask(client, w));
            && Ruled(outcome, full, verdict, client.dailyQuota, old(client.dailyUsage), old(client.quotaResetAt), w)
            && limiter.buckets == (if full || w.limiterRaises then old(limiter.buckets)
                                   else R.Step(old(limiter.buckets), Ask(client, w)))
    ensures Booked(outcome, client.dailyQuota, old(client.dailyUsage), old(client.quotaResetAt), w,
                   client.dailyUsage, client.quotaResetAt)
    ensures lease != null <==> outcome == Served
    ensures lease != null ==>
              && fresh(lease) && lease.Valid() && !lease.released
              && lease.manager == (if client.maxConcurrent > 0 then leases else null)
              && leases.outstanding == old(leases.outstanding) + (if client.maxConcurrent > 0 then {lease} else {})
    ensures outcome != Served && !Leaks(outcome, client) ==> leases.outstanding == old(leases.outstanding)
    ensures Leaks(outcome, client) ==>
              leases.states == C.AfterAcquire(old(leases.states), client.id, client.maxConcurrent)
  {
    ghost var full := C.Refuses(leases.states, client.id, client.maxConcurrent);
    GateRules(full, R.Answer(limiter.buckets, Ask(client, w)), client.dailyQuota, client.dailyUsage,
              client.quotaResetAt, w);
    lease := leases.TryAcquire(client.id, client.maxConcurrent);
    if lease == null {
      return ConcurrencyLimited, null;
    }
    if w.limiterRaises {
      return LimiterUnavailable, null;
    }
    outcome := Check(client, limiter, w);
    if outcome != Served {
      Leaves(old(leases.outstanding), lease, {}, {});
      lease.Release();
      lease := null;
    }
  }

  predicate Leaks(outcome: Outcome, client: Client) {
    outcome == LimiterUnavailable && client.maxConcurrent > 0
  }

  /** The lease of `leases` is counted while it has not been released. */
  ghost predicate Counted(lease: C.Lease, leases: C.ConcurrencyManager)
    reads lease, leases
  {
    lease.manager == leases && (lease in leases.outstanding <==> !lease.released)
  }

  ghost predicate AllCounted(held: seq<C.Lease>, leases: C.ConcurrencyManager)
    reads held, leases
  {
    forall i :: 0 <= i < |held| ==> Counted(held[i], leases)
  }

  /** One step of another request. */
  method Act(leases: C.ConcurrencyManager, held: seq<C.Lease>, other: Other) returns (lease: C.Lease?)
    requires leases.Valid() && AllCounted(held, leases)
    modifies leases, held
    ensures leases.Valid() && AllCounted(held, leases)
    ensures lease != null ==>
              fresh(lease) && Counted(lease, leases) && leases.outstanding == old(leases.outstanding) + {lease}
    ensures lease == null ==>
              leases.outstanding ==
                if other.GiveBack? && other.n < |held| then old(leases.outstanding) - {held[other.n]}
                                    else old(leases.outstanding)
  {
    lease := null;
    if other.Take? {
      var given := leases.TryAcquire(other.key, other.maximum);
      if given != null && other.maximum > 0 {
        lease := given;
      }
    } else if other.n < |held| {
      held[other.n].Release();
    }
  }

  /** The yield: other requests give back leases they held before and take new ones. */
  method Meanwhile(leases: C.ConcurrencyManager, earlier: seq<C.Lease>, others: seq<Other>)
    returns (ghost givenBack: set<C.Lease>, ghost taken: set<C.Lease>)
    requires leases.Valid() && AllCounted(earlier, leases)
    modifies leases, earlier
    ensures leases.Valid() && leases.outstanding == old(leases.outstanding) - givenBack + taken
    ensures (forall h :: h in givenBack ==> h in earlier) && fresh(taken)
    ensures others == [] ==> givenBack == {} && taken == {}
  {
    ghost var before := leases.outstanding;
    var held: seq<C.Lease> := earlier;
    for i := 0 to |others|
      invariant leases.Valid() && AllCounted(held, leases)
      invariant forall j :: 0 <= j < |held| ==> held[j] in earlier || fresh(held[j])
      invariant (forall h :: h in before - leases.outstanding ==> h in earlier) && fresh(leases.outstanding - before)
      invariant i == 0 ==> leases.outstanding == before
    {
      var lease := Act(leases, held, others[i]);
      if lease != null {
        held := held + [lease];
      }
    }
    givenBack, taken := before - leases.outstanding, leases.outstanding - before;
  }

  /** The yield and the finally block. */
  method Serve(leases: C.ConcurrencyManager, lease: C.Lease, earlier: seq<C.Lease>, others: seq<Other>)
    returns (ghost givenBack: set<C.Lease>, ghost taken: set<C.Lease>)
    requires leases.Valid() && AllCounted(earlier, leases) && lease !in earlier && !lease.released
    requires if lease.manager == null then lease !in leases.outstanding else Counted(lease, leases)
    modifies leases, lease, earlier
    ensures leases.Valid() && leases.outstanding == old(leases.outstanding) - givenBack + taken - {lease}
    ensures (forall h :: h in givenBack ==> h in earlier) && fresh(taken)
    ensures others == [] ==> givenBack == {} && taken == {}
  {
    givenBack, taken := Meanwhile(leases, earlier, others);
    lease.Release();
  }

  /** The dependency from its first line to the end of its finally block, with other requests at work in between.
      Every exit gives the client's slot back, leaving exactly what the other requests have made of the leases, except
      the one on which the limiter raises, whose lease nobody releases. */
  method EnforceClientGovernance(client: Client, leases: C.ConcurrencyManager, limiter: R.TokenBucketRateLimiter,
                                 w: World, earlier: seq<C.Lease>, others: seq<Other>)
    returns (outcome: Outcome, ghost givenBack: set<C.Lease>, ghost taken: set<C.Lease>)
    requires leases.Valid() && AllCounted(earlier, leases)
    modifies client, leases, limiter, earlier
    ensures leases.Valid()
    ensures (forall h :: h in givenBack ==> h in earlier) && fresh(taken)
    ensures outcome != Served || others == [] ==> givenBack == {} && taken == {}
    ensures !Leaks(outcome, client) ==> leases.outstanding == old(leases.outstanding) - givenBack + taken
    ensures Leaks(outcome, client) ==>
              forall k :: C.CurrentOf(leases.states, k)
                          == C.CurrentOf(old(leases.states), k) + (if k == client.id then 1 else 0)
    ensures var full := client.maxConcurrent > 0
                        && |C.HoldersOf(old(leases.outstanding), client.id)| >= client.maxConcurrent;
            var verdict := R.Answer(old(limiter.buckets), Ask(client, w));
            Ruled(outcome, full, verdict, client.dailyQuota, old(client.dailyUsage), old(client.quotaResetAt), w)
    ensures Booked(outcome, client.dailyQuota, old(client.dailyUsage), old(client.quotaResetAt), w,
                   client.dailyUsage, client.quotaResetAt)
  {
    givenBack, taken := {}, {};
    var lease;
    outcome, lease := Admit(client, leases, limiter, w);
    if lease != null {
      givenBack, taken := Serve(leases, lease, earlier, others);
      Leaves(old(leases.outstanding), lease, givenBack, taken);
    } else if Leaks(outcome, client) {
      AcquireAddsOne(old(leases.states), client.id, client.maxConcurrent);
    }
  }
}

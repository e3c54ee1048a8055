/** KeyPool.select and score_key of app/core/key_pool.py. */
module Scheduling {
  import opened Prelude
  import opened Keys
  import opened Choice
  import F = FailureMemory

  /** Scheduling settings; log1p is any strictly increasing function that is 0 at 0. */
  datatype Settings = Settings(halfLife: real, unknownBaseline: real, epsilon: real, nearRatio: real,
                               failHalf: real, failUnit: real, log1p: real -> real, pow: F.Pow)

  ghost predicate ValidSettings(s: Settings) {
    && s.log1p(0.0) == 0.0
    && (forall x, y :: 0.0 <= x < y ==> s.log1p(x) < s.log1p(y))
    && F.IsDecay(s.pow)
  }

  // -------------------------------------------------------------------- score

  function CreditWeight(s: Settings, k: ApiKey): real {
    match k.credits
    case None => s.log1p(MaxReal(s.unknownBaseline, 0.0))
    case Some(n) => s.log1p(Max(n, 0) as real)
  }

  function Freshness(s: Settings, k: ApiKey, now: real): real {
    match k.lastCheck
    case None => 0.55
    case Some(t) => Fresh(MaxReal(now - t, 0.0), MaxReal(s.halfLife, 1.0))
  }

  function Fresh(age: real, half: real): real
    requires 0.0 <= age && 0.0 < half
  {
    AgeRatio(age, half);
    1.0 / (1.0 + age / half)
  }

  lemma AgeRatio(age: real, half: real)
    requires 0.0 <= age && 0.0 < half
    ensures 0.0 <= age / half
  {
  }

  /** score_key; None is the ineligible key with no credits left. */
  function Score(s: Settings, k: ApiKey, now: real, fails: real): Option<real> {
    if k.credits.Some? && k.credits.value <= 0 then None
    else
      Some(Product(CreditWeight(s, k), Freshness(s, k, now),
                   F.FailureWeight(MaxReal(fails, 0.0), MaxReal(s.failUnit, 0.0))))
  }

  function Product(a: real, b: real, c: real): real {
    a * b * c
  }

  lemma ProductMonotone(a: real, b: real, c: real, a': real, b': real, c': real)
    requires 0.0 <= a <= a' && 0.0 <= b <= b' && 0.0 <= c <= c'
    ensures 0.0 <= Product(a, b, c) <= Product(a', b', c')
  {
    ScaleMonotone(0.0, a, b);
    ScaleMonotone(a, a', b);
    ScaleMonotone(b, b', a');
    ScaleMonotone(0.0, a * b, c);
    ScaleMonotone(a * b, a' * b', c);
    ScaleMonotone(c, c', a' * b');
  }

  lemma FreshMonotone(age: real, older: real, half: real)
    requires 0.0 <= age <= older && 0.0 < half
    ensures 0.0 < Fresh(older, half) <= Fresh(age, half) <= 1.0
  {
    RatioMonotone(age, older, half);
    F.ReciprocalMonotone(1.0 + age / half, 1.0 + older / half);
    F.ReciprocalMonotone(1.0, 1.0 + age / half);
    ReciprocalPositive(1.0 + older / half);
  }

  lemma RatioMonotone(x: real, y: real, k: real)
    requires 0.0 <= x <= y && 0.0 < k
    ensures 0.0 <= x / k <= y / k
  {
    var q := y / k;
    assert q * k == y;
    QuotientAtMost(x, k, q);
  }

  lemma ReciprocalPositive(x: real)
    requires 0.0 < x
    ensures 0.0 < 1.0 / x
  {
  }

  lemma WeightMonotone(fails: real, more: real, unit: real)
    requires 0.0 <= fails <= more && 0.0 <= unit
    ensures 0.0 < F.FailureWeight(more, unit) <= F.FailureWeight(fails, unit) <= 1.0
  {
    ScaleMonotone(0.0, fails, unit);
    ScaleMonotone(fails, more, unit);
    F.ReciprocalMonotone(1.0 + fails * unit, 1.0 + more * unit);
    F.ReciprocalMonotone(1.0, 1.0 + fails * unit);
    F.ReciprocalMonotone(1.0, 1.0 + more * unit);
    ReciprocalPositive(1.0 + more * unit);
  }

  lemma ProductStrict(a: real, b: real, c: real, a': real, b': real, c': real)
    requires 0.0 < a <= a' && 0.0 < b <= b' && 0.0 < c <= c'
    ensures 0.0 < Product(a, b, c) <= Product(a', b', c')
    ensures a < a' || b < b' || c < c' ==> Product(a, b, c) < Product(a', b', c')
  {
    Stretch(a, b, a', b');
    Stretch(a * b, c, a' * b', c');
  }

  lemma Stretch(a: real, b: real, a': real, b': real)
    requires 0.0 < a <= a' && 0.0 < b <= b'
    ensures 0.0 < a * b <= a' * b' && (a < a' || b < b' ==> a * b < a' * b')
  {
    ScaleStrict(0.0, a, b);
    ScaleMonotone(a, a', b);
    ScaleMonotone(b, b', a');
    if a < a' {
      ScaleStrict(a, a', b);
    } else if b < b' {
      ScaleStrict(b, b', a');
    }
  }

  lemma FreshStrict(age: real, older: real, half: real)
    requires 0.0 <= age < older && 0.0 < half
    ensures Fresh(older, half) < Fresh(age, half)
  {
    RatioMonotone(age, older, half);
    assert age / half != older / half by {
      assert age / half * half == age && older / half * half == older;
    }
    F.ReciprocalStrict(1.0 + age / half, 1.0 + older / half);
  }

  /** More remaining credits, a fresher snapshot and fewer failures never lower the score, and each of them raises it
      unless the snapshots are both from the future or failures do not count. */
  lemma ScoreOrder(s: Settings, k: ApiKey, better: ApiKey, now: real, fails: real, fewer: real)
    requires ValidSettings(s) && 0.0 <= fewer <= fails
    requires k.credits.Some? && better.credits.Some? && 0 < k.credits.value <= better.credits.value
    requires k.lastCheck.Some? && better.lastCheck.Some? && k.lastCheck.value <= better.lastCheck.value
    ensures Score(s, k, now, fails).Some? && Score(s, better, now, fewer).Some?
    ensures 0.0 < Score(s, k, now, fails).value <= Score(s, better, now, fewer).value
    ensures k.credits.value < better.credits.value || (k.lastCheck.value < MinReal(better.lastCheck.value, now))
            || (fewer < fails && 0.0 < s.failUnit) ==>
              Score(s, k, now, fails).value < Score(s, better, now, fewer).value
  {
    assert s.log1p(0.0) < s.log1p(k.credits.value as real);
    var age, older := MaxReal(now - better.lastCheck.value, 0.0), MaxReal(now - k.lastCheck.value, 0.0);
    var half, unit := MaxReal(s.halfLife, 1.0), MaxReal(s.failUnit, 0.0);
    FreshMonotone(age, older, half);
    if age < older {
      FreshStrict(age, older, half);
    }
    WeightMonotone(fewer, fails, unit);
    if fewer < fails && 0.0 < unit {
      F.FailuresLowerTheScore(fewer, fails, unit);
    }
    ProductStrict(CreditWeight(s, k), Freshness(s, k, now), F.FailureWeight(fails, unit),
                  CreditWeight(s, better), Freshness(s, better, now), F.FailureWeight(fewer, unit));
  }

  /** The score in numbers: nothing for a key known to be used up; else log1p of the credits, or of the assumed credits,
      times the half-life's share of half-life and age, or 0.55 without a snapshot, over one more than the counted
      failures in units. */
  lemma ScoreFormula(s: Settings, k: ApiKey, now: real, fails: real)
    requires 0.0 <= fails
    ensures Score(s, k, now, fails).None? <==> k.credits.Some? && k.credits.value <= 0
    ensures var half := if s.halfLife < 1.0 then 1.0 else s.halfLife;
            var age := if k.lastCheck.Some? && k.lastCheck.value < now then now - k.lastCheck.value else 0.0;
            var worth := s.log1p(if k.credits.Some? then k.credits.value as real else MaxReal(s.unknownBaseline, 0.0));
            Score(s, k, now, fails).Some? ==>
              Score(s, k, now, fails).value
              == worth * (if k.lastCheck.None? then 0.55 else half / (half + age))
                 * (if s.failUnit <= 0.0 then 1.0 else 1.0 / (1.0 + fails * s.failUnit))
  {
    if k.lastCheck.Some? {
      ShareOfHalf(MaxReal(now - k.lastCheck.value, 0.0), MaxReal(s.halfLife, 1.0));
    }
  }

  lemma ShareOfHalf(age: real, half: real)
    requires 0.0 <= age && 0.0 < half
    ensures Fresh(age, half) == half / (half + age)
  {
    AgeRatio(age, half);
    var x := 1.0 + age / half;
    assert x * half == half + age;
    assert 1.0 / x * (half + age) == 1.0 / x * x * half == half;
  }

  lemma ScoreNonNegative(s: Settings, k: ApiKey, now: real, fails: real)
    requires ValidSettings(s) && Score(s, k, now, fails).Some?
    ensures 0.0 <= Score(s, k, now, fails).value
  {
    var c, f, w := CreditWeight(s, k), Freshness(s, k, now),
                   F.FailureWeight(MaxReal(fails, 0.0), MaxReal(s.failUnit, 0.0));
    assert 0.0 <= c by {
      var x := if k.credits.Some? then Max(k.credits.value, 0) as real else MaxReal(s.unknownBaseline, 0.0);
      assert s.log1p(0.0) <= s.log1p(x);
    }
    if k.lastCheck.Some? {
      var age := MaxReal(now - k.lastCheck.value, 0.0);
      FreshMonotone(age, age, MaxReal(s.halfLife, 1.0));
    }
    WeightMonotone(MaxReal(fails, 0.0), MaxReal(fails, 0.0), MaxReal(s.failUnit, 0.0));
    ProductMonotone(c, f, w, c, f, w);
  }

  // --------------------------------------------------------------------- scan

  /** One call's view: the query, the clock, the cooldown store and the rate limiter's peek. */
  datatype Look = Look(provider: string, exclude: set<int>, now: real,
                       storeRemaining: int -> Option<int>, peek: (int, int) -> bool)

  datatype Tag = Excluded | Off | OnCooldown | NoCredits | RpmBlocked | Eligible

  function Remaining(k: ApiKey, q: Look): int {
    if !CoolingStatus(k.status) && k.cooldownUntil.None? then 0
    else
      match q.storeRemaining(k.id)
      case None => CooldownRemaining(k, q.now)
      case Some(n) => Max(CooldownRemaining(k, q.now), n)
  }

  predicate RpmAllows(k: ApiKey, q: Look) {
    k.ratePerMin <= 0 || q.peek(k.id, k.ratePerMin)
  }

  /** What it takes to be picked. */
  predicate IsEligible(k: ApiKey, q: Look) {
    && k.id !in q.exclude
    && k.isActive && !Terminal(k.status)
    && Remaining(k, q) <= 0
    && (k.credits.None? || k.credits.value > 0)
    && RpmAllows(k, q)
  }

  /** The first test a key fails. */
  function TagOf(k: ApiKey, q: Look): (t: Tag)
    ensures t == Eligible <==> IsEligible(k, q)
  {
    if k.id in q.exclude then Excluded
    else if IsDisabled(k) then Off
    else if Remaining(k, q) > 0 then OnCooldown
    else if k.credits.Some? && k.credits.value <= 0 then NoCredits
    else if !RpmAllows(k, q) then RpmBlocked
    else Eligible
  }

  /** A cooldown the key or the cooldown store still sees, in whole seconds. */
  predicate Cools(k: ApiKey, q: Look) {
    && (k.status.Cooling? || k.status.Failed? || k.cooldownUntil.Some?)
    && ((k.cooldownUntil.Some? && k.cooldownUntil.value - q.now >= 1.0)
        || (q.storeRemaining(k.id).Some? && q.storeRemaining(k.id).value >= 1))
  }

  /** What each test of the scan looks at, in order. */
  lemma TagMeaning(k: ApiKey, q: Look)
    ensures var off := !k.isActive || k.status in {Disabled, DecryptFailed, Invalid};
            var spent := k.credits.Some? && k.credits.value <= 0;
            TagOf(k, q) == if k.id in q.exclude then Excluded
                           else if off then Off
                           else if Cools(k, q) then OnCooldown
                           else if spent then NoCredits
                           else if k.ratePerMin >= 1 && !q.peek(k.id, k.ratePerMin) then RpmBlocked
                           else Eligible
  {
  }

  /** Number of rows seen, the five counters and the shortest cooldown. */
  datatype Tally = Tally(n: nat, excluded: nat, disabled: nat, cooling: nat, noCredits: nat, rpmBlocked: nat,
                         retryAfter: Option<int>)

  function Counted(t: Tally, tag: Tag, remaining: int): Tally {
    var t := t.(n := t.n + 1);
    match tag
    case Excluded => t.(excluded := t.excluded + 1)
    case Off => t.(disabled := t.disabled + 1)
    case OnCooldown =>
      t.(cooling := t.cooling + 1,
         retryAfter := Some(if t.retryAfter.None? then remaining else Min(t.retryAfter.value, remaining)))
    case NoCredits => t.(noCredits := t.noCredits + 1)
    case RpmBlocked => t.(rpmBlocked := t.rpmBlocked + 1)
    case Eligible => t
  }

  function TallyOf(rows: seq<ApiKey>, q: Look): Tally {
    if rows == [] then Tally(0, 0, 0, 0, 0, 0, None)
    else
      TallyNext(TallyOf(rows[..|rows| - 1], q), rows[|rows| - 1], q)
  }

  function TallyNext(t: Tally, k: ApiKey, q: Look): Tally {
    if k.provider != q.provider then t else Counted(t, TagOf(k, q), Remaining(k, q))
  }

  /** The row as the scan leaves it: a cooldown that is over is cleared. */
  function Settled(k: ApiKey, q: Look): (r: ApiKey)
    ensures r.id == k.id && r.isActive == k.isActive && (Terminal(r.status) <==> Terminal(k.status))
    ensures r != k ==> !IsDisabled(k) && Remaining(k, q) <= 0
  {
    if k.provider != q.provider || TagOf(k, q) in {Excluded, Off, OnCooldown} then k
    else EndCooldown(k)
  }

  /** The scan ends the cooldown of a key exactly when it gets that far with it: the key is the provider's, not
      excluded, enabled and no longer cooling. */
  lemma SettledMeaning(k: ApiKey, q: Look)
    ensures Settled(k, q)
            == if k.provider == q.provider && k.id !in q.exclude && k.isActive && !Terminal(k.status) && !Cools(k, q)
               then k.(cooldownUntil := None, status := Active)
               else k
  {
  }

  /** The reading of the monotonic clock when the key with that id is scored. */
  type Clock = int -> real

  function AsCandidate(k: ApiKey, q: Look, s: Settings, m: F.Memory, clock: Clock): Candidate {
    var score := Score(s, k, q.now, F.Reading(s.pow, m, k.id, s.failHalf, clock(k.id)));
    Candidate(if score.Some? then score.value else 0.0, k.id)
  }

  /** The eligible keys with their scores, in id order. */
  function Candidates(rows: seq<ApiKey>, q: Look, s: Settings, m: F.Memory, clock: Clock): seq<Candidate> {
    if rows == [] then []
    else
      Candidates(rows[..|rows| - 1], q, s, m, clock) + CandidateOf(rows[|rows| - 1], q, s, m, clock)
  }

  function CandidateOf(k: ApiKey, q: Look, s: Settings, m: F.Memory, clock: Clock): seq<Candidate> {
    if k.provider == q.provider && IsEligible(k, q) then [AsCandidate(k, q, s, m, clock)] else []
  }

  /** Some key of the provider carries the tag. */
  ghost predicate AnyTagged(rows: seq<ApiKey>, q: Look, t: Tag) {
    exists k :: k in rows && k.provider == q.provider && TagOf(k, q) == t
  }

  ghost predicate AnyRow(rows: seq<ApiKey>, provider: string) {
    exists k :: k in rows && k.provider == provider
  }

  function CounterOf(t: Tally, tag: Tag): nat {
    match tag
    case Excluded => t.excluded
    case Off => t.disabled
    case OnCooldown => t.cooling
    case NoCredits => t.noCredits
    case RpmBlocked => t.rpmBlocked
    case Eligible => 0
  }

  lemma TaggedLast(rows: seq<ApiKey>, q: Look, tag: Tag)
    requires rows != []
    ensures var init, last := rows[..|rows| - 1], rows[|rows| - 1];
            && (AnyTagged(rows, q, tag) <==>
                AnyTagged(init, q, tag) || (last.provider == q.provider && TagOf(last, q) == tag))
            && (AnyRow(rows, q.provider) <==> AnyRow(init, q.provider) || last.provider == q.provider)
  {
    var init, last := rows[..|rows| - 1], rows[|rows| - 1];
    assert rows == init + [last];
    assert forall k :: k in rows <==> k in init || k == last;
  }

  /** Each counter is positive exactly when some key fails at that test. */
  lemma {:induction false} CounterMeaning(rows: seq<ApiKey>, q: Look, tag: Tag)
    requires tag != Eligible
    ensures CounterOf(TallyOf(rows, q), tag) > 0 <==> AnyTagged(rows, q, tag)
    ensures TallyOf(rows, q).n > 0 <==> AnyRow(rows, q.provider)
  {
    if rows != [] {
      CounterMeaning(rows[..|rows| - 1], q, tag);
      TaggedLast(rows, q, tag);
    }
  }

  /** The five counters and the candidates account for every row of the provider. */
  lemma {:induction false} CountersPartition(rows: seq<ApiKey>, q: Look, s: Settings, m: F.Memory, clock: Clock)
    ensures var t := TallyOf(rows, q);
            t.excluded + t.disabled + t.cooling + t.noCredits + t.rpmBlocked
            + |Candidates(rows, q, s, m, clock)| == t.n
    ensures Candidates(rows, q, s, m, clock) != [] <==> AnyTagged(rows, q, Eligible)
  {
    if rows != [] {
      CountersPartition(rows[..|rows| - 1], q, s, m, clock);
      TaggedLast(rows, q, Eligible);
    }
  }

  ghost predicate LeastCooldown(rows: seq<ApiKey>, q: Look, r: int) {
    && (exists k :: k in rows && k.provider == q.provider && TagOf(k, q) == OnCooldown && Remaining(k, q) == r)
    && (forall k :: k in rows && k.provider == q.provider && TagOf(k, q) == OnCooldown ==> r <= Remaining(k, q))
  }

  /** The retry time carried by the cooling error is the least remaining time over the cooling keys. */
  lemma {:induction false} RetryAfterIsLeastCooldown(rows: seq<ApiKey>, q: Look)
    ensures TallyOf(rows, q).retryAfter.Some? <==> TallyOf(rows, q).cooling > 0
    ensures TallyOf(rows, q).cooling == 0 ==> !AnyTagged(rows, q, OnCooldown)
    ensures TallyOf(rows, q).cooling > 0 ==> LeastCooldown(rows, q, TallyOf(rows, q).retryAfter.value)
  {
    if rows != [] {
      var init, last := rows[..|rows| - 1], rows[|rows| - 1];
      RetryAfterIsLeastCooldown(init, q);
      assert rows == init + [last];
      assert forall k :: k in rows <==> k in init || k == last;
    }
  }

  /** The candidates are exactly the eligible keys of the provider. */
  lemma {:induction false} CandidatesAreEligible(rows: seq<ApiKey>, q: Look, s: Settings, m: F.Memory, clock: Clock)
    requires ValidSettings(s)
    ensures var cs := Candidates(rows, q, s, m, clock);
            && (forall c :: c in cs ==> 0.0 <= c.score && exists k :: IsSource(rows, q, s, m, clock, k, c))
            && (forall k :: k in rows && k.provider == q.provider && IsEligible(k, q) ==>
                AsCandidate(k, q, s, m, clock) in cs)
  {
    var cs := Candidates(rows, q, s, m, clock);
    if rows != [] {
      var init, last := rows[..|rows| - 1], rows[|rows| - 1];
      CandidatesAreEligible(init, q, s, m, clock);
      assert rows == init + [last];
      if IsEligible(last, q) {
        ScoreNonNegative(s, last, q.now, F.Reading(s.pow, m, last.id, s.failHalf, clock(last.id)));
      }
      forall c | c in cs ensures 0.0 <= c.score && exists k :: IsSource(rows, q, s, m, clock, k, c) {
        if c in Candidates(init, q, s, m, clock) {
          var k :| IsSource(init, q, s, m, clock, k, c);
          assert IsSource(rows, q, s, m, clock, k, c);
        } else {
          assert IsSource(rows, q, s, m, clock, last, c);
        }
      }
    }
  }

  /** `c` is eligible key `k` with its score. */
  ghost predicate IsSource(rows: seq<ApiKey>, q: Look, s: Settings, m: F.Memory, clock: Clock, k: ApiKey,
                           c: Candidate) {
    k in rows && k.provider == q.provider && IsEligible(k, q) && c == AsCandidate(k, q, s, m, clock)
  }

  // ------------------------------------------------------------------- select

  datatype Failure =
    | NoKeyConfigured
    | AllKeysDisabled
    | AllKeysNoCredits
    | AllKeysCooling(retryAfter: int)
    | AllKeysRateLimited
    | NoKeyAvailable
    | DbUnavailable

  datatype Selection = Selected(id: int, score: real, explore: bool) | Refusal(failure: Failure)

  /** The monotonic clock during a call and when it is over, the two random numbers, and whether the database answers
      the query and takes the commit. */
  datatype Chance = Chance(clock: Clock, mono: real, roll: real, u: real, queryOk: bool, commitOk: bool)

  /** Keys are scored in id order, before the call is over. */
  ghost predicate Ticks(ch: Chance) {
    forall i, j :: i <= j ==> ch.clock(i) <= ch.clock(j) <= ch.mono
  }

  /** No failure was recorded after the call began. */
  ghost predicate Since(m: F.Memory, ch: Chance) {
    forall i :: F.NotAfter(m, ch.clock(i))
  }

  predicate DbWorks(ch: Chance) {
    ch.queryOk && ch.commitOk
  }

  function Clamp(x: real, lo: real, hi: real): real {
    MinReal(MaxReal(x, lo), hi)
  }

  /** The errors raised when no candidate is left, in the order of the program's tests. */
  function Ladder(t: Tally): Failure {
    if t.disabled + t.excluded >= t.n && t.disabled > 0 && t.noCredits == 0 && t.cooling == 0 && t.rpmBlocked == 0
    then AllKeysDisabled
    else if t.noCredits > 0 && t.noCredits + t.disabled + t.excluded + t.cooling + t.rpmBlocked >= t.n
            && t.cooling == 0 && t.rpmBlocked == 0
    then AllKeysNoCredits
    else if t.cooling > 0 && t.cooling + t.disabled + t.excluded + t.noCredits + t.rpmBlocked >= t.n
    then AllKeysCooling(if t.retryAfter.Some? then t.retryAfter.value else 0)
    else if t.rpmBlocked > 0 && t.rpmBlocked + t.disabled + t.excluded + t.noCredits + t.cooling >= t.n
    then AllKeysRateLimited
    else NoKeyAvailable
  }

  ghost predicate AnyEnabled(rows: seq<ApiKey>, provider: string) {
    exists k :: k in rows && k.provider == provider && !IsDisabled(k)
  }

  /** Soundness and completeness of the answer, in terms of the keys alone. */
  ghost predicate Explained(rows: seq<ApiKey>, q: Look, ch: Chance, result: Selection) {
    if ch.queryOk then ExplainedByKeys(rows, q, ch, result) else result == Refusal(DbUnavailable)
  }

  ghost predicate ExplainedByKeys(rows: seq<ApiKey>, q: Look, ch: Chance, result: Selection) {
    var enabled, eligible := AnyEnabled(rows, q.provider), AnyTagged(rows, q, Eligible);
    && (result == Refusal(NoKeyConfigured) <==> !AnyRow(rows, q.provider))
    && (result.Selected? <==> eligible && ch.commitOk)
    && (result == Refusal(DbUnavailable) <==> eligible && !ch.commitOk)
    && (result == Refusal(AllKeysDisabled) <==>
          && AnyRow(rows, q.provider)
          && (enabled ==> OnlyTags(rows, q, {Excluded, Off}) && AnyTagged(rows, q, Off)))
    && (result == Refusal(NoKeyAvailable) <==> enabled && OnlyTags(rows, q, {Excluded}))
    && (result == Refusal(AllKeysNoCredits) <==>
          enabled && OnlyTags(rows, q, {Excluded, Off, NoCredits}) && AnyTagged(rows, q, NoCredits))
    && (result.Refusal? && result.failure.AllKeysCooling? <==> enabled && !eligible && AnyTagged(rows, q, OnCooldown))
    && (result.Refusal? && result.failure.AllKeysCooling? ==> LeastCooldown(rows, q, result.failure.retryAfter))
    && (result == Refusal(AllKeysRateLimited) <==>
          enabled && !eligible && !AnyTagged(rows, q, OnCooldown) && AnyTagged(rows, q, RpmBlocked))
  }

  ghost predicate OnlyTags(rows: seq<ApiKey>, q: Look, tags: set<Tag>) {
    forall k :: k in rows && k.provider == q.provider ==> TagOf(k, q) in tags
  }

  /** A selected key is eligible; it is the one under the cursor when exploring, else the near-best draw owner. */
  ghost predicate Chosen(rows: seq<ApiKey>, q: Look, s: Settings, m: F.Memory, cursors: map<string, nat>, ch: Chance,
                         result: Selection) {
    result.Selected? ==>
      var cs := Candidates(rows, q, s, m, ch.clock);
      var c := Candidate(result.score, result.id);
      && Prescribed(cs, q.provider, s, cursors, ch, c, result.explore)
      && exists k :: IsSource(rows, q, s, m, ch.clock, k, c)
  }

  function CursorOf(cursors: map<string, nat>, provider: string): nat {
    if provider in cursors then cursors[provider] else 0
  }

  predicate Explores(s: Settings, ch: Chance, m: nat) {
    m > 1 && Clamp(s.epsilon, 0.0, 1.0) > 0.0 && ch.roll < Clamp(s.epsilon, 0.0, 1.0)
  }

  /** Only an explore choice moves a cursor, and only its own provider's. */
  function CursorAfter(cursors: map<string, nat>, provider: string, s: Settings, ch: Chance, m: nat): map<string, nat> {
    if Explores(s, ch, m) then cursors[provider := ExplorePick(CursorOf(cursors, provider), m) + 1] else cursors
  }

  lemma ScanIsExhaustive(rows: seq<ApiKey>, q: Look, s: Settings, m: F.Memory, clock: Clock)
    ensures var t := TallyOf(rows, q);
            && (forall tag :: tag != Eligible ==> (CounterOf(t, tag) > 0 <==> AnyTagged(rows, q, tag)))
            && (t.n > 0 <==> AnyRow(rows, q.provider))
            && t.n == t.excluded + t.disabled + t.cooling + t.noCredits + t.rpmBlocked
                      + |Candidates(rows, q, s, m, clock)|
            && (Candidates(rows, q, s, m, clock) != [] <==> AnyTagged(rows, q, Eligible))
  {
    forall tag: Tag | tag != Eligible ensures CounterOf(TallyOf(rows, q), tag) > 0 <==> AnyTagged(rows, q, tag) {
      CounterMeaning(rows, q, tag);
    }
    CounterMeaning(rows, q, Excluded);
    CountersPartition(rows, q, s, m, clock);
  }

  /** The ladder's answer, read back in terms of the keys. */
  lemma LadderIsExact(rows: seq<ApiKey>, q: Look, ch: Chance, s: Settings, m: F.Memory)
    requires ch.queryOk && AnyEnabled(rows, q.provider) && Candidates(rows, q, s, m, ch.clock) == []
    ensures Explained(rows, q, ch, Refusal(Ladder(TallyOf(rows, q))))
  {
    var t := TallyOf(rows, q);
    ScanIsExhaustive(rows, q, s, m, ch.clock);
    RetryAfterIsLeastCooldown(rows, q);
    OnlyTagsMeaning(rows, q);
    EligibleIsEnabled(rows, q);
    assert CounterOf(t, Excluded) == t.excluded && CounterOf(t, Off) == t.disabled;
    assert CounterOf(t, OnCooldown) == t.cooling && CounterOf(t, NoCredits) == t.noCredits;
    assert CounterOf(t, RpmBlocked) == t.rpmBlocked;
  }

  /** A key that select may return, in its own columns. */
  predicate Usable(k: ApiKey, q: Look) {
    && k.provider == q.provider && k.id !in q.exclude
    && k.isActive && k.status in {Active, Cooling, Failed} && !Cools(k, q)
    && (k.credits.None? || k.credits.value >= 1)
    && (k.ratePerMin <= 0 || q.peek(k.id, k.ratePerMin))
  }

  /** Select returns a key if and only if there is a usable one and the database works, and then a usable one with its
      score by the failures counted when it is scored. */
  lemma SelectsIffUsable(rows: seq<ApiKey>, q: Look, s: Settings, m: F.Memory, cursors: map<string, nat>, ch: Chance,
                         result: Selection)
    requires Explained(rows, q, ch, result) && Chosen(rows, q, s, m, cursors, ch, result)
    ensures result.Selected? <==> ch.queryOk && ch.commitOk && exists k :: k in rows && Usable(k, q)
    ensures result.Selected? ==>
              exists k :: k in rows && k.id == result.id && Usable(k, q)
                && Score(s, k, q.now, F.Reading(s.pow, m, k.id, s.failHalf, ch.clock(k.id))) == Some(result.score)
  {
    forall k | k in rows && k.provider == q.provider ensures TagOf(k, q) == Eligible <==> Usable(k, q) {
      TagMeaning(k, q);
    }
  }

  lemma NoneEnabledExplained(rows: seq<ApiKey>, q: Look, ch: Chance)
    requires ch.queryOk && !AnyEnabled(rows, q.provider)
    ensures Explained(rows, q, ch, Refusal(if AnyRow(rows, q.provider) then AllKeysDisabled else NoKeyConfigured))
  {
    EligibleIsEnabled(rows, q);
  }

  lemma EligibleExplained(rows: seq<ApiKey>, q: Look, ch: Chance, result: Selection)
    requires ch.queryOk && AnyTagged(rows, q, Eligible)
    requires if ch.commitOk then result.Selected? else result == Refusal(DbUnavailable)
    ensures Explained(rows, q, ch, result)
  {
    EligibleIsEnabled(rows, q);
    OnlyTagsMeaning(rows, q);
  }

  lemma EligibleIsEnabled(rows: seq<ApiKey>, q: Look)
    ensures AnyTagged(rows, q, Eligible) ==> AnyEnabled(rows, q.provider)
    ensures AnyEnabled(rows, q.provider) ==> AnyRow(rows, q.provider)
  {
    if AnyTagged(rows, q, Eligible) {
      var k :| k in rows && k.provider == q.provider && TagOf(k, q) == Eligible;
      assert !IsDisabled(k);
    }
  }

  predicate NonNegative(cs: seq<Candidate>) {
    forall c :: c in cs ==> 0.0 <= c.score
  }

  lemma CandidatesNonNegative(rows: seq<ApiKey>, q: Look, s: Settings, m: F.Memory, clock: Clock)
    requires ValidSettings(s)
    ensures NonNegative(Candidates(rows, q, s, m, clock))
    ensures Candidates(rows, q, s, m, clock) != [] <==> AnyTagged(rows, q, Eligible)
  {
    CandidatesAreEligible(rows, q, s, m, clock);
    CountersPartition(rows, q, s, m, clock);
  }

  /** `c` is what the choice rules prescribe among `cs`. */
  ghost predicate Prescribed(cs: seq<Candidate>, provider: string, s: Settings, cursors: map<string, nat>, ch: Chance,
                             c: Candidate, explore: bool)
  {
    && c in cs
    && (explore <==> Explores(s, ch, |cs|))
    && (explore ==> c == cs[ExplorePick(CursorOf(cursors, provider), |cs|)])
    && (!explore ==> Exploited(cs, Clamp(s.nearRatio, 0.5, 1.0), ch.u, c))
  }

  /** With more than one candidate a roll below epsilon explores: the candidate under the provider's cursor, which then
      moves one past it.  Any other roll exploits. */
  lemma ExploreTakesTheCursor(cs: seq<Candidate>, provider: string, s: Settings, cursors: map<string, nat>, ch: Chance,
                              c: Candidate, explore: bool)
    requires Prescribed(cs, provider, s, cursors, ch, c, explore) && 0.0 <= ch.roll < 1.0
    ensures explore <==> |cs| > 1 && ch.roll < s.epsilon
    ensures var at := (if provider in cursors then cursors[provider] else 0) % |cs|;
            && (explore ==> c == cs[at])
            && CursorAfter(cursors, provider, s, ch, |cs|) == if explore then cursors[provider := at + 1] else cursors
  {
  }

  /** Every exploit choice with a random number between `lo` and `hi` is `c`. */
  ghost predicate Owned(cs: seq<Candidate>, provider: string, s: Settings, cursors: map<string, nat>, lo: real,
                        hi: real, c: Candidate)
  {
    forall ch: Chance, chosen, explore ::
      && Prescribed(cs, provider, s, cursors, ch, chosen, explore)
      && (|cs| == 1 || s.epsilon <= ch.roll) && 0.0 <= ch.roll < 1.0 && lo < ch.u <= hi && ch.u < 1.0 ==>
      !explore && chosen == c
  }

  /** Exploiting is a lottery: each candidate whose positive score is at least near_ratio times every other is chosen by
      the random numbers of an interval as long as its share in the scores of such candidates; a near_ratio below a half
      counts as a half, above one as one. */
  lemma EachNearKeyIsChosen(cs: seq<Candidate>, provider: string, s: Settings, cursors: map<string, nat>, c: Candidate)
    requires NonNegative(cs) && c in cs && 0.0 < c.score
    requires Near(cs, if s.nearRatio < 0.5 then 0.5 else if s.nearRatio > 1.0 then 1.0 else s.nearRatio, c)
    ensures var ratio := if s.nearRatio < 0.5 then 0.5 else if s.nearRatio > 1.0 then 1.0 else s.nearRatio;
            var total := NearTotal(cs, cs, ratio);
            && total > 0.0
            && exists lo, hi ::
                 0.0 <= lo < hi <= 1.0 && hi - lo == c.score / total && Owned(cs, provider, s, cursors, lo, hi, c)
  {
    var ratio := Clamp(s.nearRatio, 0.5, 1.0);
    EachNearBestIsChosen(cs, ratio, c);
    var lo, hi :| 0.0 <= lo < hi <= 1.0 && hi - lo == c.score / NearTotal(cs, cs, ratio)
                  && AlwaysChosen(cs, ratio, lo, hi, c);
    assert Owned(cs, provider, s, cursors, lo, hi, c);
  }

  lemma PrescribedIsEligible(rows: seq<ApiKey>, q: Look, s: Settings, m: F.Memory, clock: Clock, c: Candidate)
    requires ValidSettings(s) && c in Candidates(rows, q, s, m, clock)
    ensures exists k :: IsSource(rows, q, s, m, clock, k, c)
  {
    CandidatesAreEligible(rows, q, s, m, clock);
  }

  lemma OnlyTagsMeaning(rows: seq<ApiKey>, q: Look)
    ensures OnlyTags(rows, q, {Excluded}) <==>
              OnlyTags(rows, q, {Excluded, Off}) && !AnyTagged(rows, q, Off)
    ensures OnlyTags(rows, q, {Excluded, Off}) <==>
              OnlyTags(rows, q, {Excluded, Off, NoCredits}) && !AnyTagged(rows, q, NoCredits)
    ensures OnlyTags(rows, q, {Excluded, Off, NoCredits}) <==>
              !AnyTagged(rows, q, OnCooldown) && !AnyTagged(rows, q, RpmBlocked) && !AnyTagged(rows, q, Eligible)
  {
    assert forall k :: k in rows && k.provider == q.provider ==> AnyTagged(rows, q, TagOf(k, q));
  }

  lemma LadderIfEmpty(rows: seq<ApiKey>, q: Look, ch: Chance, s: Settings, m: F.Memory)
    requires ch.queryOk && AnyEnabled(rows, q.provider)
    ensures Candidates(rows, q, s, m, ch.clock) == [] ==>
              Explained(rows, q, ch, Refusal(Ladder(TallyOf(rows, q)))) && Ladder(TallyOf(rows, q)) != DbUnavailable
  {
    if Candidates(rows, q, s, m, ch.clock) == [] {
      LadderIsExact(rows, q, ch, s, m);
    }
  }

  /** The scan writes nothing but the end of a cooldown, and writes that for every key it gets that far with. */
  ghost predicate SettledTo(before: seq<ApiKey>, after: seq<ApiKey>, q: Look, n: nat) {
    && |after| == |before|
    && (forall i :: 0 <= i < n && i < |after| ==> after[i] == Settled(before[i], q))
    && (forall i :: n <= i < |after| ==> after[i] == before[i])
  }

  lemma SettledNext(before: seq<ApiKey>, rows: seq<ApiKey>, q: Look, i: nat)
    requires SettledTo(before, rows, q, i) && i < |rows|
    ensures rows[i] == before[i] && SettledTo(before, rows[i := Settled(rows[i], q)], q, i + 1)
  {
  }

  lemma SettledKeepsOrder(before: seq<ApiKey>, after: seq<ApiKey>, q: Look)
    requires InIdOrder(before) && SettledTo(before, after, q, |before|)
    ensures InIdOrder(after)
  {
  }

  lemma SinceStays(m: F.Memory, ch: Chance)
    requires Ticks(ch) && Since(m, ch)
    ensures F.NotAfter(m, ch.mono)
  {
    assert ch.clock(0) <= ch.clock(0) <= ch.mono && F.NotAfter(m, ch.clock(0));
  }

  /** The clock when the scan gets to row `i`, or is over. */
  function TimeAt(rows: seq<ApiKey>, i: nat, ch: Chance): real {
    if i < |rows| then ch.clock(rows[i].id) else ch.mono
  }

  lemma TimeGoesOn(rows: seq<ApiKey>, i: nat, ch: Chance)
    requires InIdOrder(rows) && Ticks(ch) && i < |rows|
    ensures TimeAt(rows, i, ch) <= TimeAt(rows, i + 1, ch)
  {
    assert ch.clock(rows[i].id) <= ch.mono;
  }

  lemma ScanNext(rows: seq<ApiKey>, i: nat, q: Look, s: Settings, m: F.Memory, ch: Chance)
    requires InIdOrder(rows) && Ticks(ch) && i < |rows|
    ensures TallyOf(rows[..i + 1], q) == TallyNext(TallyOf(rows[..i], q), rows[i], q)
    ensures Candidates(rows[..i + 1], q, s, m, ch.clock)
            == Candidates(rows[..i], q, s, m, ch.clock) + CandidateOf(rows[i], q, s, m, ch.clock)
    ensures TimeAt(rows, i, ch) <= TimeAt(rows, i + 1, ch)
  {
    assert rows[..i + 1][..i] == rows[..i];
    TimeGoesOn(rows, i, ch);
  }

  class KeyPool {
    const settings: Settings
    var rows: seq<ApiKey>  // the api_keys table as this session sees it, in id order
    var failures: F.Memory
    var rrCursor: map<string, nat>

    ghost predicate Valid()
      reads this
    {
      ValidSettings(settings) && InIdOrder(rows)
    }

    constructor (settings: Settings, rows: seq<ApiKey>)
      requires ValidSettings(settings) && InIdOrder(rows)
      ensures Valid() && this.rows == rows && this.settings == settings && failures == map[] && rrCursor == map[]
    {
      this.settings, this.rows, failures, rrCursor := settings, rows, map[], map[];
    }

    method FailureCount(id: int, mono: real) returns (fails: real)
      modifies this`failures
      ensures fails == F.Reading(settings.pow, old(failures), id, settings.failHalf, mono)
      ensures failures == F.AfterReading(settings.pow, old(failures), id, settings.failHalf, mono)
    {
      if id !in failures {
        return 0.0;
      }
      var item := failures[id];
      if item.count <= 0.0 {
        return 0.0;
      }
      var decayed := F.Decayed(settings.pow, item, settings.failHalf, mono);
      if decayed < F.CUTOFF {
        failures := failures - {id};
        return 0.0;
      }
      failures := failures[id := F.Entry(decayed, mono)];
      return decayed;
    }

    /** The tests one key goes through, in order, with their side effects on the row and the failure memory. */
    method Examine(i: nat, q: Look, clock: Clock, ghost memory: F.Memory)
      returns (tag: Tag, remaining: int, score: real)
      requires ValidSettings(settings) && i < |rows| && F.NotAfter(failures, clock(rows[i].id))
               && rows[i].provider == q.provider
      requires F.SameReadings(settings.pow, failures, memory, settings.failHalf, clock(rows[i].id))
      modifies this`rows, this`failures
      ensures F.NotAfter(failures, clock(old(rows)[i].id))
      ensures rows == old(rows)[i := Settled(old(rows)[i], q)]
      ensures F.SameReadings(settings.pow, failures, memory, settings.failHalf, clock(old(rows)[i].id))
      ensures tag == TagOf(old(rows)[i], q)
      ensures tag == OnCooldown ==> remaining == Remaining(old(rows)[i], q)
      ensures tag == Eligible ==>
                Candidate(score, rows[i].id) == AsCandidate(old(rows)[i], q, settings, memory, clock)
    {
      var key := rows[i];
      remaining, score := 0, 0.0;
      if key.id in q.exclude {
        return Excluded, remaining, score;
      }
      if IsDisabled(key) {
        return Off, remaining, score;
      }
      if CoolingStatus(key.status) || key.cooldownUntil.Some? {
        remaining := Remaining(key, q);
        if remaining > 0 {
          return OnCooldown, remaining, score;
        }
        rows := rows[i := EndCooldown(key)];
      }
      if key.credits.Some? && key.credits.value <= 0 {
        return NoCredits, remaining, score;
      }
      if !RpmAllows(key, q) {
        return RpmBlocked, remaining, score;
      }
      F.ReadingIsInvisible(settings.pow, failures, key.id, settings.failHalf, clock(key.id));
      var fails := FailureCount(key.id, clock(key.id));
      score := Score(settings, key, q.now, fails).value;
      return Eligible, remaining, score;
    }

    /** One round of the loop: count the key, or add it to the candidates. */
    method Visit(i: nat, q: Look, clock: Clock, t: Tally, candidates: seq<Candidate>, ghost memory: F.Memory)
      returns (t': Tally, candidates': seq<Candidate>)
      requires ValidSettings(settings) && i < |rows| && F.NotAfter(failures, clock(rows[i].id))
      requires F.SameReadings(settings.pow, failures, memory, settings.failHalf, clock(rows[i].id))
      modifies this`rows, this`failures
      ensures F.NotAfter(failures, clock(old(rows)[i].id))
      ensures rows == old(rows)[i := Settled(old(rows)[i], q)]
      ensures F.SameReadings(settings.pow, failures, memory, settings.failHalf, clock(old(rows)[i].id))
      ensures t' == TallyNext(t, old(rows)[i], q)
      ensures candidates' == candidates + CandidateOf(old(rows)[i], q, settings, memory, clock)
    {
      t', candidates' := t, candidates;
      if rows[i].provider == q.provider {  // the WHERE of the query
        var tag, remaining, score := Examine(i, q, clock, memory);
        t' := Counted(t, tag, remaining);
        if tag == Eligible {
          candidates' := candidates + [Candidate(score, rows[i].id)];
        }
      }
    }

    /** The pass over the provider's keys: five counters, the shortest cooldown and the candidates. */
    method Scan(q: Look, ch: Chance) returns (t: Tally, candidates: seq<Candidate>)
      requires Valid() && Ticks(ch) && Since(failures, ch)
      modifies this`rows, this`failures
      ensures F.NotAfter(failures, ch.mono)
      ensures SettledTo(old(rows), rows, q, |rows|)
      ensures F.SameReadings(settings.pow, failures, old(failures), settings.failHalf, ch.mono)
      ensures t == TallyOf(old(rows), q)
      ensures candidates == Candidates(old(rows), q, settings, old(failures), ch.clock)
    {
      ghost var was, memory := rows, failures;
      t, candidates := Tally(0, 0, 0, 0, 0, 0, None), [];
      var i := 0;
      while i < |rows|
        invariant 0 <= i <= |rows| == |was|
        invariant SettledTo(was, rows, q, i)
        invariant F.NotAfter(failures, TimeAt(was, i, ch))
        invariant F.SameReadings(settings.pow, failures, memory, settings.failHalf, TimeAt(was, i, ch))
        invariant t == TallyOf(was[..i], q)
        invariant candidates == Candidates(was[..i], q, settings, memory, ch.clock)
      {
        SettledNext(was, rows, q, i);
        t, candidates := Visit(i, q, ch.clock, t, candidates, memory);
        ScanNext(was, i, q, settings, memory, ch);
        i := i + 1;
      }
      assert was[..|was|] == was;
    }

    /** The explore or the exploit choice among the candidates. */
    method Choose(candidates: seq<Candidate>, provider: string, ch: Chance) returns (c: Candidate, explore: bool)
      requires candidates != [] && 0.0 <= ch.u < 1.0 && NonNegative(candidates)
      modifies this`rrCursor
      ensures Prescribed(candidates, provider, settings, old(rrCursor), ch, c, explore)
      ensures rrCursor == CursorAfter(old(rrCursor), provider, settings, ch, |candidates|)
    {
      var epsilon := Clamp(settings.epsilon, 0.0, 1.0);
      explore := epsilon > 0.0 && ch.roll < epsilon && |candidates| > 1;
      if explore {
        var cursor := if provider in rrCursor then rrCursor[provider] else 0;
        var at := ExplorePick(cursor, |candidates|);
        rrCursor := rrCursor[provider := at + 1];
        c := candidates[at];
      } else {
        c := Exploit(candidates, Clamp(settings.nearRatio, 0.5, 1.0), ch.u);
      }
    }

    /** The first half of select: the early refusals, the scan and the ladder. */
    method ScanOrRefuse(q: Look, ch: Chance) returns (refusal: Option<Failure>, candidates: seq<Candidate>)
      requires Valid() && Ticks(ch) && Since(failures, ch) && ch.queryOk
      modifies this`rows, this`failures
      ensures Valid() && F.NotAfter(failures, ch.mono)
      ensures refusal.Some? ==> refusal != Some(DbUnavailable) && Explained(old(rows), q, ch, Refusal(refusal.value))
      ensures refusal.None? ==> candidates != []
      ensures refusal.None? ==> candidates == Candidates(old(rows), q, settings, old(failures), ch.clock)
      ensures F.SameReadings(settings.pow, failures, old(failures), settings.failHalf, ch.mono)
      ensures refusal.None? ==> SettledTo(old(rows), rows, q, |rows|)
      ensures refusal.Some? ==> rows == old(rows) || SettledTo(old(rows), rows, q, |rows|)
    {
      var anyRow := exists k :: k in rows && k.provider == q.provider;
      var anyActive := exists k :: k in rows && k.provider == q.provider && !IsDisabled(k);
      SinceStays(failures, ch);
      if !anyRow || !anyActive {
        NoneEnabledExplained(rows, q, ch);
        return Some(if anyRow then AllKeysDisabled else NoKeyConfigured), [];
      }
      LadderIfEmpty(rows, q, ch, settings, failures);
      var t: Tally;
      t, candidates := Scan(q, ch);
      SettledKeepsOrder(old(rows), rows, q);
      refusal := if candidates == [] then Some(Ladder(t)) else None;
    }

    /** select: the scan, the error ladder, then the choice. */
    method Select(q: Look, ch: Chance) returns (result: Selection)
      requires Valid() && Ticks(ch) && Since(failures, ch) && 0.0 <= ch.u < 1.0
      modifies this
      ensures Valid() && F.NotAfter(failures, ch.mono)
      ensures Explained(old(rows), q, ch, result)
      ensures Chosen(old(rows), q, settings, old(failures), old(rrCursor), ch, result)
      ensures ch.queryOk && (result.Selected? || result == Refusal(DbUnavailable)) ==>
                rrCursor == CursorAfter(old(rrCursor), q.provider, settings, ch,
                                        |Candidates(old(rows), q, settings, old(failures), ch.clock)|)
      ensures !ch.queryOk || (result.Refusal? && result != Refusal(DbUnavailable)) ==> rrCursor == old(rrCursor)
      ensures !ch.queryOk ==> rows == old(rows) && failures == old(failures)
      ensures F.SameReadings(settings.pow, failures, old(failures), settings.failHalf, ch.mono)
      ensures result.Selected? ==> SettledTo(old(rows), rows, q, |rows|)
      ensures rows == old(rows) || SettledTo(old(rows), rows, q, |rows|)
    {
      if !ch.queryOk {
        SinceStays(failures, ch);
        return Refusal(DbUnavailable);
      }
      ghost var was, memory := rows, failures;
      var before := rows;
      var refusal, candidates := ScanOrRefuse(q, ch);
      if refusal.Some? {
        return Refusal(refusal.value);
      }
      CandidatesNonNegative(was, q, settings, memory, ch.clock);
      var c, explore := Choose(candidates, q.provider, ch);
      PrescribedIsEligible(was, q, settings, memory, ch.clock, c);
      result := Selected(c.id, c.score, explore);
      if !ch.commitOk {
        rows := before;  // rollback
        result := Refusal(DbUnavailable);
      }
      EligibleExplained(was, q, ch, result);
    }
  }
}

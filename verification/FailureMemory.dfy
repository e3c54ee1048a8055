/** The lazily decayed failure memory of app/core/key_pool.py.  `half ** age` is a parameter: any
    function that turns sums into products and takes values in (0, 1]. */
module FailureMemory {
  import opened Prelude

  datatype Entry = Entry(count: real, last: real)

  type Memory = map<int, Entry>

  type Pow = real -> real

  const CUTOFF := 0.05

  ghost predicate IsDecay(pow: Pow) {
    && pow(0.0) == 1.0
    && (forall x :: 0.0 <= x ==> 0.0 < pow(x) <= 1.0)
    && (forall x, y :: 0.0 <= x && 0.0 <= y ==> Multiplies(pow, x, y))
  }

  predicate Multiplies(pow: Pow, x: real, y: real) {
    pow(x + y) == pow(x) * pow(y)
  }

  function Age(e: Entry, half: real, now: real): real {
    MaxReal(now - e.last, 0.0) / MaxReal(half, 1.0)
  }

  function Decayed(pow: Pow, e: Entry, half: real, now: real): real {
    Share(pow, e.count, Age(e, half, now))
  }

  function Share(pow: Pow, count: real, age: real): real {
    count * pow(age)
  }

  /** The value returned by _failure_count. */
  function Reading(pow: Pow, m: Memory, id: int, half: real, now: real): real {
    if id !in m || m[id].count <= 0.0 || Decayed(pow, m[id], half, now) < CUTOFF then 0.0
    else Decayed(pow, m[id], half, now)
  }

  /** The memory left behind by _failure_count: decayed in place, or forgotten below the cutoff. */
  function AfterReading(pow: Pow, m: Memory, id: int, half: real, now: real): Memory {
    if id !in m || m[id].count <= 0.0 then m
    else if Decayed(pow, m[id], half, now) < CUTOFF then m - {id}
    else m[id := Entry(Decayed(pow, m[id], half, now), now)]
  }

  /** record_failure for a failure attributable to the key: one more, without decaying first. */
  function AfterFailure(m: Memory, id: int, now: real): Memory {
    m[id := Entry((if id in m then m[id].count else 0.0) + 1.0, now)]
  }

  /** record_success */
  function AfterSuccess(m: Memory, id: int): Memory {
    m - {id}
  }

  function FailureWeight(fails: real, unit: real): real {
    if unit <= 0.0 || fails <= 0.0 then 1.0 else 1.0 / (1.0 + fails * unit)
  }

  // ------------------------------------------------- readings leave no trace

  ghost predicate SameReadings(pow: Pow, m: Memory, n: Memory, half: real, now: real) {
    forall id, t :: now <= t ==> Reading(pow, m, id, half, t) == Reading(pow, n, id, half, t)
  }

  ghost predicate NotAfter(m: Memory, now: real) {
    forall id :: id in m ==> m[id].last <= now
  }

  lemma QuotientSum(a: real, b: real, h: real)
    requires h > 0.0
    ensures (a + b) / h == a / h + b / h
  {
  }

  lemma DecayShrinks(pow: Pow, e: Entry, half: real, now: real)
    requires IsDecay(pow) && 0.0 <= e.count
    ensures 0.0 <= Decayed(pow, e, half, now) <= e.count
  {
    AgeNonNegative(e, half, now);
    ShareShrinks(pow, e.count, Age(e, half, now));
  }

  lemma ShareShrinks(pow: Pow, count: real, age: real)
    requires IsDecay(pow) && 0.0 <= count && 0.0 <= age
    ensures 0.0 <= Share(pow, count, age) <= count
  {
    ScaleDown(count, pow(age));
  }

  lemma ScaleDown(c: real, p: real)
    requires 0.0 <= c && 0.0 <= p <= 1.0
    ensures 0.0 <= c * p <= c
  {
    assert 0.0 <= c * (1.0 - p);
  }

  lemma ShareComposes(pow: Pow, count: real, x: real, y: real)
    requires IsDecay(pow) && 0.0 <= x && 0.0 <= y
    ensures Share(pow, Share(pow, count, x), y) == Share(pow, count, x + y)
  {
    assert Multiplies(pow, x, y);
    ProductAssociates(count, pow(x), pow(y));
  }

  lemma AgeNonNegative(e: Entry, half: real, now: real)
    ensures 0.0 <= Age(e, half, now)
  {
  }

  lemma DecayComposes(pow: Pow, e: Entry, half: real, now: real, later: real)
    requires IsDecay(pow) && e.last <= now <= later
    ensures Decayed(pow, Entry(Decayed(pow, e, half, now), now), half, later) == Decayed(pow, e, half, later)
  {
    AgeAdds(e, half, now, later);
    ShareComposes(pow, e.count, Age(e, half, now), (later - now) / MaxReal(half, 1.0));
  }

  lemma AgeAdds(e: Entry, half: real, now: real, later: real)
    requires e.last <= now <= later
    ensures 0.0 <= Age(e, half, now) && 0.0 <= (later - now) / MaxReal(half, 1.0)
    ensures Age(e, half, later) == Age(e, half, now) + (later - now) / MaxReal(half, 1.0)
  {
    QuotientSum(now - e.last, later - now, MaxReal(half, 1.0));
  }

  lemma ProductAssociates(a: real, b: real, c: real)
    ensures a * (b * c) == (a * b) * c
  {
  }

  /** One reading changes no later reading of any key, even when it crosses the cutoff and forgets the entry. */
  lemma ReadingIsInvisible(pow: Pow, m: Memory, id: int, half: real, now: real)
    requires IsDecay(pow) && NotAfter(m, now)
    ensures SameReadings(pow, AfterReading(pow, m, id, half, now), m, half, now)
    ensures NotAfter(AfterReading(pow, m, id, half, now), now)
  {
    var m' := AfterReading(pow, m, id, half, now);
    forall k, t | now <= t ensures Reading(pow, m', k, half, t) == Reading(pow, m, k, half, t) {
      if k == id && id in m && m[id].count > 0.0 {
        DecayComposes(pow, m[id], half, now, t);
        DecayShrinks(pow, m[id], half, now);
        DecayShrinks(pow, Entry(Decayed(pow, m[id], half, now), now), half, t);
      }
    }
  }

  // ---------------------------------------------------------------- histories

  datatype Event =
    | Read(id: int, now: real)
    | Failure(id: int, now: real)
    | Success(id: int, now: real)

  function Next(pow: Pow, m: Memory, half: real, e: Event): Memory {
    match e
    case Read(id, now) => AfterReading(pow, m, id, half, now)
    case Failure(id, now) => AfterFailure(m, id, now)
    case Success(id, _) => AfterSuccess(m, id)
  }

  function Run(pow: Pow, m: Memory, half: real, events: seq<Event>): Memory
    decreases |events|
  {
    if events == [] then m else Run(pow, Next(pow, m, half, events[0]), half, events[1..])
  }

  ghost predicate Ordered(events: seq<Event>) {
    forall i, j :: 0 <= i < j < |events| ==> events[i].now <= events[j].now
  }

  /** Key-attributable failures of `id` since its last success. */
  function FailuresSince(events: seq<Event>, id: int): nat
    decreases |events|
  {
    if events == [] then 0
    else
      var last := events[|events| - 1];
      if last.id == id && last.Success? then 0
      else FailuresSince(events[..|events| - 1], id) + (if last.id == id && last.Failure? then 1 else 0)
  }

  /** Any number of readings between two recorded failures changes no later reading. */
  lemma {:induction false} ReadingsAreInvisible(pow: Pow, m: Memory, half: real, looks: seq<Event>, id: int, now: real)
    requires IsDecay(pow) && Ordered(looks) && (forall i :: 0 <= i < |looks| ==> looks[i].Read? && looks[i].now <= now)
    requires NotAfter(m, if looks == [] then now else looks[0].now)
    ensures Reading(pow, Run(pow, m, half, looks), id, half, now) == Reading(pow, m, id, half, now)
    decreases |looks|
  {
    if looks != [] {
      var m' := Next(pow, m, half, looks[0]);
      ReadingIsInvisible(pow, m, looks[0].id, half, looks[0].now);
      assert |looks| > 1 ==> looks[0].now <= looks[1].now;
      ReadingsAreInvisible(pow, m', half, looks[1..], id, now);
      assert Reading(pow, m', id, half, now) == Reading(pow, m, id, half, now);
    }
  }

  lemma RunSplits(pow: Pow, m: Memory, half: real, events: seq<Event>)
    requires events != []
    ensures Run(pow, m, half, events)
            == Next(pow, Run(pow, m, half, events[..|events| - 1]), half, events[|events| - 1])
    decreases |events|
  {
    if |events| > 1 {
      assert events[1..][..|events| - 2] == events[..|events| - 1][1..];
      RunSplits(pow, Next(pow, m, half, events[0]), half, events[1..]);
    }
  }

  lemma ReadingShrinks(pow: Pow, m: Memory, id: int, half: real, now: real)
    requires IsDecay(pow) && (id in m ==> 0.0 <= m[id].count)
    ensures 0.0 <= Reading(pow, m, id, half, now) <= if id in m then m[id].count else 0.0
  {
    if id in m {
      DecayShrinks(pow, m[id], half, now);
    }
  }

  lemma {:induction false} StoredCountBounded(pow: Pow, half: real, events: seq<Event>, id: int)
    requires IsDecay(pow)
    ensures var m := Run(pow, map[], half, events);
            id in m ==> 0.0 <= m[id].count <= FailuresSince(events, id) as real
    decreases |events|
  {
    if events != [] {
      var before, last := events[..|events| - 1], events[|events| - 1];
      RunSplits(pow, map[], half, events);
      StoredCountBounded(pow, half, before, id);
      if last.Read? {
        ReadingShrinks(pow, Run(pow, map[], half, before), id, half, last.now);
      }
    }
  }

  /** A failure counts one more than the entry held, from the moment it is recorded; from there on the count loses its
      share of the half-life as time goes by, until it falls below the cutoff.  A success forgets it. */
  lemma FailureCountsOne(pow: Pow, m: Memory, id: int, half: real, now: real, later: real)
    requires IsDecay(pow) && now <= later && (id in m ==> 0.0 <= m[id].count)
    ensures var stored := if id in m then m[id].count else 0.0;
            var after := AfterFailure(m, id, now);
            var left := (stored + 1.0) * pow((later - now) / MaxReal(half, 1.0));
            && Reading(pow, after, id, half, now) == stored + 1.0
            && Reading(pow, after, id, half, later) == (if left < 0.05 then 0.0 else left)
            && forall other :: other != id ==>
                 Reading(pow, after, other, half, later) == Reading(pow, m, other, half, later)
    ensures Reading(pow, AfterSuccess(m, id), id, half, later) == 0.0
    ensures forall other :: other != id ==>
              Reading(pow, AfterSuccess(m, id), other, half, later) == Reading(pow, m, other, half, later)
  {
    var e := AfterFailure(m, id, now)[id];
    assert Age(e, half, now) == 0.0;
    assert e.count * pow(0.0) == e.count;
  }

  function Failures(id: int, now: real, k: nat): (events: seq<Event>)
    ensures |events| == k && forall i :: 0 <= i < k ==> events[i] == Failure(id, now)
  {
    seq(k, i => Failure(id, now))
  }

  /** Failures in quick succession are counted in full. */
  lemma {:induction false} BurstCountsInFull(pow: Pow, m: Memory, half: real, id: int, now: real, k: nat)
    requires IsDecay(pow) && k > 0 && (id in m ==> 0.0 <= m[id].count)
    ensures Reading(pow, Run(pow, m, half, Failures(id, now, k)), id, half, now)
            == (if id in m then m[id].count else 0.0) + k as real
    decreases k
  {
    var m' := Next(pow, m, half, Failure(id, now));
    FailureCountsOne(pow, m, id, half, now, now);
    assert Failures(id, now, k)[1..] == Failures(id, now, k - 1);
    if k > 1 {
      BurstCountsInFull(pow, m', half, id, now, k - 1);
    } else {
      assert Run(pow, m', half, []) == m';
    }
  }

  /** Each failure read lowers the score: the factor is one without failures, and strictly less for more of them. */
  lemma FailuresLowerTheScore(fails: real, more: real, unit: real)
    requires 0.0 <= fails < more && 0.0 < unit
    ensures FailureWeight(0.0, unit) == 1.0
    ensures 0.0 < FailureWeight(more, unit) < FailureWeight(fails, unit) <= 1.0
    ensures FailureWeight(more, unit) * (1.0 + more * unit) == 1.0
  {
    var a, b := 1.0 + fails * unit, 1.0 + more * unit;
    assert 1.0 <= a < b by {
      ScaleMonotone(0.0, fails, unit);
      ScaleStrict(fails, more, unit);
    }
    WeightIs(fails, unit, a);
    WeightIs(more, unit, b);
    ReciprocalStrict(a, b);
    ReciprocalMonotone(1.0, a);
  }

  lemma WeightIs(fails: real, unit: real, x: real)
    requires 0.0 <= fails && 0.0 < unit && x == 1.0 + fails * unit && 1.0 <= x
    ensures FailureWeight(fails, unit) == 1.0 / x
  {
  }

  lemma ReciprocalStrict(a: real, b: real)
    requires 0.0 < a < b
    ensures 0.0 < 1.0 / b < 1.0 / a && 1.0 / b * b == 1.0
  {
    var x, y := 1.0 / a, 1.0 / b;
    assert x * a == 1.0 && y * b == 1.0;
    assert 0.0 < y;
    if x <= y {
      ScaleMonotone(x, y, a);
      ScaleStrict(a, b, y);
      assert false;
    }
  }

  predicate InRange(fails: real, k: real, unit: real) {
    && 0.0 <= fails <= k
    && 0.0 < 1.0 + k * unit
    && 1.0 / (1.0 + k * unit) <= FailureWeight(fails, unit) <= 1.0
  }

  /** k failures since the last success: the count read is in [0, k], the score factor in [1/(1 + k*unit), 1]. */
  lemma CountAndWeightBounded(pow: Pow, half: real, events: seq<Event>, id: int, now: real, unit: real)
    requires IsDecay(pow) && unit >= 0.0
    ensures InRange(Reading(pow, Run(pow, map[], half, events), id, half, now), FailuresSince(events, id) as real, unit)
  {
    var m := Run(pow, map[], half, events);
    StoredCountBounded(pow, half, events, id);
    ReadingShrinks(pow, m, id, half, now);
    WeightBounded(Reading(pow, m, id, half, now), FailuresSince(events, id) as real, unit);
  }

  lemma WeightBounded(fails: real, k: real, unit: real)
    requires 0.0 <= fails <= k && 0.0 <= unit
    ensures InRange(fails, k, unit)
  {
    ScaleMonotone(0.0, fails, unit);
    ScaleMonotone(fails, k, unit);
    ReciprocalMonotone(1.0, 1.0 + k * unit);
    ReciprocalMonotone(1.0, 1.0 + fails * unit);
    ReciprocalMonotone(1.0 + fails * unit, 1.0 + k * unit);
  }

  lemma ReciprocalMonotone(a: real, b: real)
    requires 0.0 < a <= b
    ensures 1.0 / b <= 1.0 / a
  {
    assert (1.0 / a) * a == 1.0;
    ScaleMonotone(a, b, 1.0 / a);
    QuotientAtMost(1.0, b, 1.0 / a);
  }

  /** Across a recorded failure a reading does show: the failure adds to the stored count without decaying it,
      so a reading at that moment is harmless exactly when no time has passed since the entry was written. */
  lemma ReadingBeforeFailureShows(pow: Pow, m: Memory, id: int, half: real, now: real)
    requires IsDecay(pow) && (forall x :: x > 0.0 ==> pow(x) < 1.0)
    requires id in m && m[id].count >= CUTOFF && m[id].last <= now
    ensures AfterFailure(AfterReading(pow, m, id, half, now), id, now) == AfterFailure(m, id, now)
            <==> m[id].last == now
  {
    var e := m[id];
    var x := Age(e, half, now);
    assert AfterFailure(m, id, now)[id].count == e.count + 1.0;
    if e.last == now {
      assert x == 0.0;
      assert AfterFailure(AfterReading(pow, m, id, half, now), id, now) == AfterFailure(m, id, now);
    } else {
      QuotientAtMost(now - e.last, MaxReal(half, 1.0), 0.0);
      assert x > 0.0;
      ScaleStrict(pow(x), 1.0, e.count);
      assert AfterFailure(AfterReading(pow, m, id, half, now), id, now)[id].count != e.count + 1.0;
    }
  }
}

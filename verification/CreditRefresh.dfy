/** app/core/credit_refresh.py: when a key is probed next, and one round of the refresh queue. */
module CreditRefresh {
  import opened Prelude
  import opened Keys
  import opened Calendar
  import L = KeyLifecycle
  import S = Scheduling

  /** credit_monitoring.smart_refresh; intervals in minutes. */
  datatype Smart = Smart(enabled: bool, high: int, medium: int, normal: int, low: int,
                         abundantThreshold: int, abundantFloor: int)

  datatype Config = Config(fixedInterval: int, smart: Smart)

  function Minutes(m: int): real {
    m as real * 60.0
  }

  function OrDefault(n: int, default: int): int {
    if n == 0 then default else n
  }

  function Usage(remaining: int, plan: int): real
    requires plan != 0
  {
    1.0 - remaining as real / plan as real
  }

  function TierInterval(smart: Smart, usage: real): int {
    if usage > 0.9 then smart.high
    else if usage > 0.7 then smart.medium
    else if usage > 0.5 then smart.normal
    else smart.low
  }

  function SmartInterval(smart: Smart, remaining: int, plan: int): int
    requires plan != 0
  {
    var minutes := TierInterval(smart, Usage(remaining, plan));
    if remaining >= OrDefault(smart.abundantThreshold, 1000)
    then Max(minutes, OrDefault(smart.abundantFloor, 120))
    else minutes
  }

  /** calculate_next_refresh_time at clock reading `now`. */
  function NextRefresh(k: ApiKey, c: Config, now: DateTime): Option<real>
    requires IsDateTime(now)
  {
    if IsDisabled(k) then None
    else if k.credits.None? || k.planCredits.None? then Some(Instant(now))
    else if k.planCredits.value == 0 then Some(Instant(now) + Minutes(c.fixedInterval))
    else if k.credits.value == 0 then
      NextMonthIsNear(now);
      Some(Instant(FirstOfNextMonth(now)))
    else if !c.smart.enabled then Some(Instant(now) + Minutes(c.fixedInterval))
    else Some(Instant(now) + Minutes(SmartInterval(c.smart, k.credits.value, k.planCredits.value)))
  }

  predicate TiersUp(smart: Smart) {
    smart.high <= smart.medium <= smart.normal <= smart.low
  }

  predicate Positive(c: Config) {
    && c.fixedInterval > 0
    && c.smart.high > 0 && c.smart.medium > 0 && c.smart.normal > 0 && c.smart.low > 0
  }

  lemma UsageFalls(less: int, more: int, plan: int)
    requires plan > 0 && less <= more
    ensures Usage(less, plan) >= Usage(more, plan)
  {
    var p, q := plan as real, more as real / plan as real;
    assert q * p == more as real;
    QuotientAtMost(less as real, p, q);
  }

  lemma UsageAbove(remaining: int, plan: int, u: real)
    requires plan > 0
    ensures Usage(remaining, plan) > u <==> remaining as real < (1.0 - u) * plan as real
  {
    var r, p, q := remaining as real, plan as real, 1.0 - u;
    assert (r / p) * p == r;
    if r / p < q {
      ScaleStrict(r / p, q, p);
    } else {
      ScaleMonotone(q, r / p, p);
    }
  }

  /** The tier in whole credits: below a tenth, three tenths and half of the plan. */
  lemma {:induction false} TierByCredits(smart: Smart, remaining: int, plan: int)
    requires plan > 0
    ensures TierInterval(smart, Usage(remaining, plan))
            == if 10 * remaining < plan then smart.high
               else if 10 * remaining < 3 * plan then smart.medium
               else if 2 * remaining < plan then smart.normal
               else smart.low
  {
    UsageAbove(remaining, plan, 0.9);
    UsageAbove(remaining, plan, 0.7);
    UsageAbove(remaining, plan, 0.5);
  }

  /** For a given plan and tiers that do not go down, a key with more credits left is never probed earlier. */
  lemma {:induction false} MoreCreditsNeverEarlier(k: ApiKey, less: int, more: int, plan: int, c: Config, now: DateTime)
    requires IsDateTime(now) && TiersUp(c.smart) && plan > 0 && 0 < less <= more
    ensures var a := NextRefresh(k.(credits := Some(less), planCredits := Some(plan)), c, now);
            var b := NextRefresh(k.(credits := Some(more), planCredits := Some(plan)), c, now);
            (a.Some? <==> b.Some?) && (a.Some? ==> a.value <= b.value)
  {
    UsageFalls(less, more, plan);
  }

  /** Without ordered tiers that fails: with no abundant floor in reach, the converse holds as well. */
  lemma TiersMustGoUp(k: ApiKey, c: Config, now: DateTime)
    requires IsDateTime(now) && !IsDisabled(k) && c.smart.enabled && OrDefault(c.smart.abundantThreshold, 1000) > 100
    requires forall less, more :: 0 < less <= more <= 100 ==> NotEarlier(k, less, more, c, now)
    ensures TiersUp(c.smart)
  {
    assert NotEarlier(k, 5, 20, c, now) && NotEarlier(k, 20, 40, c, now) && NotEarlier(k, 40, 80, c, now);
    TierByCredits(c.smart, 5, 100);
    TierByCredits(c.smart, 20, 100);
    TierByCredits(c.smart, 40, 100);
    TierByCredits(c.smart, 80, 100);
  }

  ghost predicate NotEarlier(k: ApiKey, less: int, more: int, c: Config, now: DateTime)
    requires IsDateTime(now) && !IsDisabled(k)
  {
    NextRefresh(k.(credits := Some(less), planCredits := Some(100)), c, now).value
    <= NextRefresh(k.(credits := Some(more), planCredits := Some(100)), c, now).value
  }

  /** An enabled key with known credits is put off into the future; a used-up one at most 31 days. */
  lemma NextIsLater(k: ApiKey, c: Config, now: DateTime)
    requires IsDateTime(now) && Positive(c) && k.credits.Some? && k.planCredits.Some?
    ensures NextRefresh(k, c, now).None? <==> IsDisabled(k)
    ensures NextRefresh(k, c, now).Some? ==> NextRefresh(k, c, now).value > Instant(now)
    ensures NextRefresh(k, c, now).Some? && k.credits.value == 0 && k.planCredits.value != 0 ==>
              NextRefresh(k, c, now).value <= Instant(now) + 31.0 * DAY
  {
    NextMonthIsNear(now);
  }

  // -------------------------------------------------------------------- round

  /** The result of a probe, when it was fetched, and the clock when it is applied. */
  datatype Fetched = Fetched(probe: L.Probe, at: real, clock: DateTime)

  /** What other workers may do to the table. */
  datatype Disturbance =
    | Delete(id: int)
    | Write(id: int, action: L.Action)

  /** One round: its clock reading, the back-off in minutes, the settings, what each probe finds, and what happens to
      the table between the query of the due list and the first result, and then between one result and the next: the
      results are committed one by one. */
  datatype Round = Round(now: real, retryMinutes: int, config: Config, probe: int -> Fetched,
                         others: nat -> seq<Disturbance>)

  predicate IsDue(k: ApiKey, now: real) {
    k.isActive && !Terminal(k.status) && (k.nextRefresh.None? || k.nextRefresh.value <= now)
  }

  /** The due list, in id order. */
  function Due(rows: seq<ApiKey>, now: real): seq<int> {
    if rows == [] then []
    else
      var k := rows[|rows| - 1];
      Due(rows[..|rows| - 1], now) + if IsDue(k, now) then [k.id] else []
  }

  /** One result applied to its key. */
  function AppliedTo(k: ApiKey, f: Fetched, r: Round): ApiKey
    requires IsDateTime(f.clock)
  {
    var known := match f.probe
                 case ProbeSuccess(remaining, plan) => k.(credits := Some(remaining), planCredits := Some(plan))
                 case _ => k;
    var applied := L.ApplyProbe(k, f.probe, f.at, NextRefresh(known, r.config, f.clock));
    if f.probe.ProbeDecryptFailed? || f.probe.ProbeInvalid? then applied
    else if IsDisabled(k) then k.(nextRefresh := None)
    else if IsDisabled(applied) then applied.(nextRefresh := None)
    else if f.probe.ProbeSuccess? then applied
    else applied.(nextRefresh := Some(r.now + Minutes(Max(r.retryMinutes, 1))))
  }

  /** A used-up plan is looked at again at the first midnight of the next month. */
  lemma NextRefreshWhenUsedUp(k: ApiKey, c: Config, now: DateTime)
    requires IsDateTime(now) && k.isActive && !Terminal(k.status)
    requires k.credits == Some(0) && k.planCredits.Some? && k.planCredits.value != 0
    ensures var next := NextMonthStart(now.date); NextRefresh(k, c, now) == Some(Instant(next))
  {
    ThirtyTwoDaysOn(now.date);
    assert FirstOfNextMonth(now) == NextMonthStart(now.date);
  }

  function NextMonthStart(d: Date): (t: DateTime)
    requires IsDate(d)
    ensures IsDateTime(t) && t.seconds == 0.0 && t.date.day == 1
    ensures if d.month < 12 then t.date.year == d.year && t.date.month == d.month + 1
            else t.date.year == d.year + 1 && t.date.month == 1
  {
    DateTime(if d.month == 12 then Date(d.year + 1, 1, 1) else Date(d.year, d.month + 1, 1), 0.0)
  }

  /** The interval to the next probe in numbers, for an enabled key with a snapshot: the fixed one when there is no plan
      or no smart refresh; else that of the tier in whole credits, which from the abundant threshold on is no shorter
      than the floor. */
  lemma NextRefreshInMinutes(k: ApiKey, c: Config, now: DateTime, left: int, plan: int)
    requires IsDateTime(now) && k.isActive && !Terminal(k.status)
    requires k.credits == Some(left) && k.planCredits == Some(plan) && (plan == 0 || (plan > 0 && left != 0))
    ensures var m := c.smart;
            var threshold := if m.abundantThreshold == 0 then 1000 else m.abundantThreshold;
            var floor := if m.abundantFloor == 0 then 120 else m.abundantFloor;
            var tier := if 10 * left < plan then m.high
                        else if 10 * left < 3 * plan then m.medium
                        else if 2 * left < plan then m.normal
                        else m.low;
            var minutes := if plan == 0 || !m.enabled then c.fixedInterval
                           else if left >= threshold && tier < floor then floor
                           else tier;
            NextRefresh(k, c, now) == Some(Instant(now) + 60.0 * minutes as real)
  {
    if plan > 0 {
      TierByCredits(c.smart, left, plan);
    }
  }

  /** A key without a snapshot is due at once, a disabled one never. */
  lemma NextRefreshUnknown(k: ApiKey, c: Config, now: DateTime)
    requires IsDateTime(now)
    ensures !k.isActive || Terminal(k.status) <==> NextRefresh(k, c, now) == None
    ensures k.isActive && !Terminal(k.status) && (k.credits.None? || k.planCredits.None?) ==>
              NextRefresh(k, c, now) == Some(Instant(now))
  {
    NextMonthIsNear(now);
  }

  /** What a row holds after a result of the round: an enabled key what the probe found, when, and the next probe that
      follows from that; a key still in use after a failed probe the same credits and the back-off; a key out of use no
      next probe. */
  lemma ResultIsStored(k: ApiKey, f: Fetched, r: Round)
    requires IsDateTime(f.clock)
    ensures var k' := AppliedTo(k, f, r);
            && k'.id == k.id && k'.provider == k.provider
            && k'.credits == (if f.probe.ProbeInvalid? then Some(0)
                              else if f.probe.ProbeSuccess? && !IsDisabled(k) then Some(f.probe.remaining)
                              else k.credits)
            && k'.planCredits == (if f.probe.ProbeSuccess? && !IsDisabled(k) then Some(f.probe.plan) else k.planCredits)
            && k'.lastCheck == (if f.probe.ProbeSuccess? && !IsDisabled(k) then Some(f.at) else k.lastCheck)
            && k'.isActive == (k.isActive && !f.probe.ProbeInvalid? && !f.probe.ProbeDecryptFailed?)
            && (IsDisabled(k') ==> k'.nextRefresh == None)
            && (!IsDisabled(k') && f.probe.ProbeSuccess? ==>
                  k'.nextRefresh == NextRefresh(k', r.config, f.clock)
                  && k'.status == k.status && k'.cooldownUntil == k.cooldownUntil)
            && (!IsDisabled(k') && !f.probe.ProbeSuccess? ==>
                  k'.nextRefresh == Some(r.now + 60.0 * (if r.retryMinutes < 1 then 1 else r.retryMinutes) as real))
            && (!IsDisabled(k) && f.probe.ProbeCooling? ==> k'.status == Cooling && k'.cooldownUntil == Some(f.at))
            && (f.probe.ProbeError? ==> k'.status == k.status && k'.cooldownUntil == k.cooldownUntil)
  {
  }

  ghost predicate Clocked(r: Round) {
    forall id :: IsDateTime(r.probe(id).clock) && Instant(r.probe(id).clock) >= r.now
  }

  function RowAfter(k: ApiKey, id: int, r: Round): ApiKey
    requires IsDateTime(r.probe(id).clock)
  {
    if k.id == id then AppliedTo(k, r.probe(id), r) else k
  }

  function Applied(rows: seq<ApiKey>, id: int, r: Round): (rows': seq<ApiKey>)
    requires IsDateTime(r.probe(id).clock)
    ensures |rows'| == |rows|
  {
    seq(|rows|, i requires 0 <= i < |rows| => RowAfter(rows[i], id, r))
  }

  function OneDisturbed(k: ApiKey, d: Disturbance): (r: seq<ApiKey>)
    ensures |r| <= 1 && (r != [] ==> r[0].id == k.id)
  {
    if k.id != d.id then [k]
    else match d case Delete(_) => [] case Write(_, a) => [L.Act(k, a)]
  }

  function Disturbed(rows: seq<ApiKey>, d: Disturbance): seq<ApiKey> {
    if rows == [] then [] else Disturbed(rows[..|rows| - 1], d) + OneDisturbed(rows[|rows| - 1], d)
  }

  function DisturbedAll(rows: seq<ApiKey>, ds: seq<Disturbance>): seq<ApiKey> {
    if ds == [] then rows else Disturbed(DisturbedAll(rows, ds[..|ds| - 1]), ds[|ds| - 1])
  }

  /** due[i : i + batch_size] for i in range(0, len(due), batch_size) */
  function Batches(due: seq<int>, size: nat): seq<seq<int>>
    requires size >= 1
  {
    if due == [] then []
    else
      var n := Min(size, |due|);
      [due[..n]] + Batches(due[n..], size)
  }

  /** The table after the results of `due` have been applied in turn, other workers acting before each. */
  ghost function RowsAfter(rows: seq<ApiKey>, due: seq<int>, r: Round): seq<ApiKey>
    requires Clocked(r)
  {
    if due == [] then rows
    else
      var n := |due| - 1;
      Applied(DisturbedAll(RowsAfter(rows, due[..n], r), r.others(n)), due[n], r)
  }

  /** The table if there had been no round. */
  function RowsWithout(rows: seq<ApiKey>, n: nat, r: Round): seq<ApiKey> {
    if n == 0 then rows else DisturbedAll(RowsWithout(rows, n - 1, r), r.others(n - 1))
  }

  function Flatten(batches: seq<seq<int>>): seq<int> {
    if batches == [] then [] else Flatten(batches[..|batches| - 1]) + batches[|batches| - 1]
  }

  lemma {:induction false} FlattenJoins(a: seq<seq<int>>, b: seq<seq<int>>)
    ensures Flatten(a + b) == Flatten(a) + Flatten(b)
  {
    if b == [] {
      assert a + b == a;
    } else {
      var n := |b| - 1;
      FlattenJoins(a, b[..n]);
      assert (a + b)[..|a + b| - 1] == a + b[..n] && (a + b)[|a + b| - 1] == b[n];
      assert Flatten(a + b) == Flatten(a + b[..n]) + b[n];
    }
  }

  lemma FlattenOne(batch: seq<int>)
    ensures Flatten([batch]) == batch
  {
    assert [batch][..0] == [];
  }

  /** The batches are non-empty slices no longer than the batch size that concatenate to the due list. */
  lemma {:induction false} BatchesCoverDue(due: seq<int>, size: nat)
    requires size >= 1
    ensures Flatten(Batches(due, size)) == due
    ensures forall b :: b in Batches(due, size) ==> 1 <= |b| <= size
    decreases |due|
  {
    if due != [] {
      var n := Min(size, |due|);
      var first, rest := due[..n], Batches(due[n..], size);
      BatchesCoverDue(due[n..], size);
      FlattenJoins([first], rest);
      FlattenOne(first);
      assert Batches(due, size) == [first] + rest;
      assert first + due[n..] == due;
    }
  }

  /** The first `i` due keys have been probed, in the batches `done`. */
  predicate Progress(due: seq<int>, size: nat, i: nat, done: seq<seq<int>>, probed: seq<int>) {
    size >= 1 && i <= |due| && probed == due[..i] && Batches(due, size) == done + Batches(due[i..], size)
  }

  lemma ProgressNext(due: seq<int>, size: nat, i: nat, done: seq<seq<int>>, probed: seq<int>)
    requires Progress(due, size, i, done, probed) && i < |due|
    ensures var end := Min(i + size, |due|);
            Progress(due, size, end, done + [due[i..end]], probed + due[i..end])
  {
    var end := Min(i + size, |due|);
    assert due[i..][..end - i] == due[i..end];
    assert due[i..][end - i..] == due[end..];
  }

  lemma ProgressEnds(due: seq<int>, size: nat, done: seq<seq<int>>, probed: seq<int>)
    ensures Progress(due, size, |due|, done, probed) ==> probed == due && done == Batches(due, size)
    ensures size >= 1 ==> Progress(due, size, 0, [], [])
  {
    assert due[|due|..] == [];
    assert due[0..] == due;
  }

  lemma RowsAfterNext(rows: seq<ApiKey>, past: seq<int>, batch: seq<int>, i: nat, r: Round)
    requires Clocked(r) && i < |batch|
    ensures RowsAfter(rows, past + batch[..i + 1], r)
            == Applied(DisturbedAll(RowsAfter(rows, past + batch[..i], r), r.others(|past| + i)), batch[i], r)
  {
    var done := past + batch[..i + 1];
    assert done[..|done| - 1] == past + batch[..i] && done[|done| - 1] == batch[i];
  }

  // ----------------------------------------------------------------- due list

  ghost predicate Increasing(ids: seq<int>) {
    forall i, j :: 0 <= i < j < |ids| ==> ids[i] < ids[j]
  }

  lemma {:induction false} DueIncreases(rows: seq<ApiKey>, now: real)
    requires InIdOrder(rows)
    ensures var due := Due(rows, now);
            Increasing(due) && (due != [] ==> rows != [] && due[|due| - 1] <= rows[|rows| - 1].id)
  {
    if rows != [] {
      DueIncreases(rows[..|rows| - 1], now);
    }
  }

  lemma {:induction false} DueMembers(rows: seq<ApiKey>, now: real, id: int)
    ensures id in Due(rows, now) <==> exists k :: k in rows && k.id == id && IsDue(k, now)
  {
    if rows != [] {
      var init, last := rows[..|rows| - 1], rows[|rows| - 1];
      DueMembers(init, now, id);
      assert rows == init + [last];
      assert forall k :: k in rows <==> k in init || k == last;
    }
  }

  /** The list holds the id of each due key once, and nothing else: an inactive key is never in a round. */
  lemma DueIsExact(rows: seq<ApiKey>, now: real, k: ApiKey)
    requires InIdOrder(rows) && k in rows
    ensures k.id in Due(rows, now) <==>
              && k.isActive && k.status in {Active, Cooling, Failed}
              && (k.nextRefresh.Some? ==> k.nextRefresh.value <= now)
    ensures Increasing(Due(rows, now))
  {
    DueIncreases(rows, now);
    DueMembers(rows, now, k.id);
    var i :| 0 <= i < |rows| && rows[i] == k;
    forall other | other in rows && other.id == k.id ensures other == k {
      var j :| 0 <= j < |rows| && rows[j] == other;
    }
  }

  // ------------------------------------------------------------ how keys end

  /** Out of the queue for good if inactive, else due again only after `now`. */
  predicate Queued(k: ApiKey, now: real) {
    if k.isActive then k.nextRefresh.Some? && k.nextRefresh.value > now else k.nextRefresh.None?
  }

  /** Applying a result queues the key, exactly unless the row is a terminal one left active by hand and the probe
      does not deactivate it. */
  lemma AppliedIsQueued(k: ApiKey, id: int, r: Round)
    requires Clocked(r) && Positive(r.config)
    ensures var f := r.probe(id);
            Queued(AppliedTo(k, f, r), r.now) <==>
            Sane(k) || f.probe.ProbeDecryptFailed? || f.probe.ProbeInvalid?
    ensures Sane(k) ==> Sane(AppliedTo(k, r.probe(id), r))
  {
    var f := r.probe(id);
    if f.probe.ProbeSuccess? && !IsDisabled(k) {
      NextIsLater(k.(credits := Some(f.probe.remaining), planCredits := Some(f.probe.plan)), r.config, f.clock);
    }
  }

  /** What the data plane writes: a next refresh it sets lies after the round's clock reading, and it leaves
      the queue's back-off alone. */
  predicate Harmless(a: L.Action, now: real) {
    match a
    case Probe4xx(_, _, next) => next.Some? && next.value > now
    case RefreshApply(_, _, next) => next.Some? && next.value > now
    case SetNextRefresh(_) => false
    case _ => true
  }

  lemma WriteKeepsQueued(k: ApiKey, a: L.Action, now: real)
    requires Sane(k) && Harmless(a, now)
    ensures Sane(L.Act(k, a)) && L.Act(k, a).id == k.id
    ensures Queued(k, now) ==> Queued(L.Act(k, a), now)
  {
  }

  /** Every row is sane, and those of `ids` are queued. */
  ghost predicate QueuedAll(rows: seq<ApiKey>, ids: seq<int>, now: real) {
    forall k :: k in rows ==> Sane(k) && (k.id in ids ==> Queued(k, now))
  }

  ghost predicate HarmlessAll(ds: seq<Disturbance>, now: real) {
    forall d :: d in ds && d.Write? ==> Harmless(d.action, now)
  }

  lemma AppliedQueues(rows: seq<ApiKey>, id: int, ids: seq<int>, r: Round)
    requires Clocked(r) && Positive(r.config) && QueuedAll(rows, ids, r.now)
    ensures QueuedAll(Applied(rows, id, r), ids + [id], r.now)
  {
    var rows' := Applied(rows, id, r);
    forall k | k in rows' ensures Sane(k) && (k.id in ids + [id] ==> Queued(k, r.now)) {
      var i :| 0 <= i < |rows'| && rows'[i] == k;
      assert rows[i] in rows;
      AppliedIsQueued(rows[i], id, r);
    }
  }

  lemma {:induction false} DisturbedQueues(rows: seq<ApiKey>, d: Disturbance, ids: seq<int>, now: real)
    requires QueuedAll(rows, ids, now) && (d.Write? ==> Harmless(d.action, now))
    ensures QueuedAll(Disturbed(rows, d), ids, now)
  {
    if rows != [] {
      var init, last := rows[..|rows| - 1], rows[|rows| - 1];
      DisturbedQueues(init, d, ids, now);
      if d.Write? {
        WriteKeepsQueued(last, d.action, now);
      }
    }
  }

  lemma {:induction false} DisturbedAllQueues(rows: seq<ApiKey>, ds: seq<Disturbance>, ids: seq<int>, now: real)
    requires QueuedAll(rows, ids, now) && HarmlessAll(ds, now)
    ensures QueuedAll(DisturbedAll(rows, ds), ids, now)
  {
    if ds != [] {
      var n := |ds| - 1;
      DisturbedAllQueues(rows, ds[..n], ids, now);
      DisturbedQueues(DisturbedAll(rows, ds[..n]), ds[n], ids, now);
    }
  }

  /** After a round every surviving due key is inactive with no next refresh, or active and due only later,
      whatever other workers did to the table in between. */
  lemma {:induction false} DueKeysEndQueued(rows: seq<ApiKey>, due: seq<int>, r: Round)
    requires Clocked(r) && Positive(r.config) && (forall k :: k in rows ==> Sane(k))
    requires forall n :: 0 <= n < |due| ==> HarmlessAll(r.others(n), r.now)
    ensures QueuedAll(RowsAfter(rows, due, r), due, r.now)
  {
    if due != [] {
      var n := |due| - 1;
      DueKeysEndQueued(rows, due[..n], r);
      var before := RowsAfter(rows, due[..n], r);
      DisturbedAllQueues(before, r.others(n), due[..n], r.now);
      AppliedQueues(DisturbedAll(before, r.others(n)), due[n], due[..n], r);
      assert due[..n] + [due[n]] == due;
    }
  }

  // ------------------------------------------------------- what select sees next

  predicate Spares(ds: seq<Disturbance>, id: int) {
    forall d :: d in ds ==> d.id != id
  }

  lemma {:induction false} DisturbedSpares(rows: seq<ApiKey>, d: Disturbance, k: ApiKey)
    requires k in Disturbed(rows, d) && k.id != d.id
    ensures k in rows
  {
    if k in Disturbed(rows[..|rows| - 1], d) {
      DisturbedSpares(rows[..|rows| - 1], d, k);
    }
  }

  lemma {:induction false} DisturbedAllSpares(rows: seq<ApiKey>, ds: seq<Disturbance>, k: ApiKey)
    requires k in DisturbedAll(rows, ds) && Spares(ds, k.id)
    ensures k in rows
  {
    if ds != [] {
      var n := |ds| - 1;
      assert ds[n] in ds;
      DisturbedSpares(DisturbedAll(rows, ds[..n]), ds[n], k);
      DisturbedAllSpares(rows, ds[..n], k);
    }
  }

  /** What select makes of a key is what its last probe found: with nothing left, or invalid, or undecryptable, it is
      not eligible; with credits left, it is not passed over for want of credits. */
  predicate Reflects(k: ApiKey, p: L.Probe, q: S.Look) {
    match p
    case ProbeSuccess(remaining, _) =>
      if remaining <= 0 then S.TagOf(k, q) != S.Eligible else S.TagOf(k, q) != S.NoCredits
    case ProbeInvalid => S.TagOf(k, q) in {S.Excluded, S.Off}
    case ProbeDecryptFailed => S.TagOf(k, q) in {S.Excluded, S.Off}
    case _ => true
  }

  lemma AppliedReflects(rows: seq<ApiKey>, id: int, r: Round, k: ApiKey, q: S.Look)
    requires Clocked(r) && k in Applied(rows, id, r) && k.id == id
    ensures Reflects(k, r.probe(id).probe, q)
  {
    var after := Applied(rows, id, r);
    var i :| 0 <= i < |after| && after[i] == k;
    ResultIsStored(rows[i], r.probe(id), r);
    S.TagMeaning(k, q);
  }

  lemma AppliedSpares(rows: seq<ApiKey>, id: int, r: Round, k: ApiKey)
    requires Clocked(r) && k in Applied(rows, id, r) && k.id != id
    ensures k in rows
  {
    var after := Applied(rows, id, r);
    var i :| 0 <= i < |after| && after[i] == k;
    ResultIsStored(rows[i], r.probe(id), r);
  }

  /** After a round that holds for every surviving due key that nobody has written to since its result. */
  lemma {:induction false} RoundShowsInSelect(rows: seq<ApiKey>, due: seq<int>, r: Round, n: nat, k: ApiKey, q: S.Look)
    requires Clocked(r) && n < |due| && k in RowsAfter(rows, due, r) && k.id == due[n]
    requires forall j :: n < j < |due| ==> due[j] != due[n] && Spares(r.others(j), due[n])
    ensures Reflects(k, r.probe(due[n]).probe, q)
  {
    var m := |due| - 1;
    var before := DisturbedAll(RowsAfter(rows, due[..m], r), r.others(m));
    if n == m {
      AppliedReflects(before, due[n], r, k, q);
    } else {
      AppliedSpares(before, due[m], r, k);
      DisturbedAllSpares(RowsAfter(rows, due[..m], r), r.others(m), k);
      RoundShowsInSelect(rows, due[..m], r, n, k, q);
    }
  }

  // ---------------------------------------------------------------- other keys

  /** The rows of the other keys. */
  function Outside(rows: seq<ApiKey>, ids: seq<int>): seq<ApiKey> {
    if rows == [] then []
    else
      var k := rows[|rows| - 1];
      Outside(rows[..|rows| - 1], ids) + if k.id in ids then [] else [k]
  }

  lemma {:induction false} OutsideJoins(a: seq<ApiKey>, b: seq<ApiKey>, ids: seq<int>)
    requires |b| <= 1
    ensures Outside(a + b, ids) == Outside(a, ids) + Outside(b, ids)
  {
    if b == [] {
      assert a + b == a;
    } else {
      assert (a + b)[..|a|] == a;
      assert b[..0] == [];
    }
  }

  lemma DisturbedJoins(a: seq<ApiKey>, b: seq<ApiKey>, d: Disturbance)
    requires |b| <= 1
    ensures Disturbed(a + b, d) == Disturbed(a, d) + Disturbed(b, d)
    ensures |Disturbed(b, d)| <= 1
  {
    if b == [] {
      assert a + b == a;
    } else {
      assert (a + b)[..|a|] == a;
      assert b[..0] == [];
    }
  }

  lemma OutsideShort(rows: seq<ApiKey>, id: int, ids: seq<int>)
    requires |rows| <= 1 && (rows != [] ==> rows[0].id == id)
    ensures Outside(rows, ids) == if id in ids then [] else rows
  {
    if rows != [] {
      assert rows[..0] == [];
    }
  }

  lemma DisturbedOne(k: ApiKey, d: Disturbance)
    ensures Disturbed([k], d) == OneDisturbed(k, d)
  {
    assert [k][..0] == [];
  }

  lemma OneDisturbedOutside(k: ApiKey, d: Disturbance, ids: seq<int>)
    ensures Outside(Disturbed([k], d), ids) == Disturbed(Outside([k], ids), d)
  {
    OutsideShort([k], k.id, ids);
    DisturbedOne(k, d);
    OutsideShort(OneDisturbed(k, d), k.id, ids);
  }

  lemma {:induction false} DisturbedOutside(rows: seq<ApiKey>, d: Disturbance, ids: seq<int>)
    ensures Outside(Disturbed(rows, d), ids) == Disturbed(Outside(rows, ids), d)
  {
    if rows != [] {
      var init, last := rows[..|rows| - 1], [rows[|rows| - 1]];
      assert rows == init + last;
      DisturbedOutside(init, d, ids);
      DisturbedJoins(init, last, d);
      OutsideJoins(Disturbed(init, d), Disturbed(last, d), ids);
      OutsideJoins(init, last, ids);
      DisturbedJoins(Outside(init, ids), Outside(last, ids), d);
      OneDisturbedOutside(last[0], d, ids);
    }
  }

  lemma {:induction false} DisturbedAllOutside(rows: seq<ApiKey>, ds: seq<Disturbance>, ids: seq<int>)
    ensures Outside(DisturbedAll(rows, ds), ids) == DisturbedAll(Outside(rows, ids), ds)
  {
    if ds != [] {
      var n := |ds| - 1;
      DisturbedAllOutside(rows, ds[..n], ids);
      DisturbedOutside(DisturbedAll(rows, ds[..n]), ds[n], ids);
    }
  }

  lemma {:induction false} AppliedOutside(rows: seq<ApiKey>, id: int, ids: seq<int>, r: Round)
    requires Clocked(r) && id in ids
    ensures Outside(Applied(rows, id, r), ids) == Outside(rows, ids)
  {
    if rows != [] {
      var n := |rows| - 1;
      AppliedOutside(rows[..n], id, ids, r);
      assert Applied(rows, id, r)[..n] == Applied(rows[..n], id, r);
    }
  }

  /** A round changes nothing but the keys of its due list: the others end as if it had not run. */
  lemma {:induction false} OtherKeysUntouched(rows: seq<ApiKey>, due: seq<int>, ids: seq<int>, r: Round)
    requires Clocked(r) && forall i :: 0 <= i < |due| ==> due[i] in ids
    ensures Outside(RowsAfter(rows, due, r), ids) == Outside(RowsWithout(rows, |due|, r), ids)
  {
    if due != [] {
      var n := |due| - 1;
      OtherKeysUntouched(rows, due[..n], ids, r);
      var before, ds := RowsAfter(rows, due[..n], r), r.others(n);
      assert RowsAfter(rows, due, r) == Applied(DisturbedAll(before, ds), due[n], r);
      OutsideNext(before, RowsWithout(rows, n, r), ds, due[n], ids, r);
    }
  }

  lemma OutsideNext(a: seq<ApiKey>, b: seq<ApiKey>, ds: seq<Disturbance>, id: int, ids: seq<int>, r: Round)
    requires Clocked(r) && id in ids && Outside(a, ids) == Outside(b, ids)
    ensures Outside(Applied(DisturbedAll(a, ds), id, r), ids) == Outside(DisturbedAll(b, ds), ids)
  {
    AppliedOutside(DisturbedAll(a, ds), id, ids, r);
    DisturbedAllOutside(a, ds, ids);
    DisturbedAllOutside(b, ds, ids);
  }

  /** A whole round: every due key that survives is queued, and every other key ends as if the round had not run. */
  lemma RoundOutcome(rows: seq<ApiKey>, r: Round)
    requires Clocked(r) && Positive(r.config) && forall k :: k in rows ==> Sane(k)
    requires forall n :: HarmlessAll(r.others(n), r.now)
    ensures var due := Due(rows, r.now);
            && QueuedAll(RowsAfter(rows, due, r), due, r.now)
            && Outside(RowsAfter(rows, due, r), due) == Outside(RowsWithout(rows, |due|, r), due)
  {
    var due := Due(rows, r.now);
    DueKeysEndQueued(rows, due, r);
    OtherKeysUntouched(rows, due, due, r);
  }

  // ------------------------------------------------------------------- worker

  lemma AppliedKeepsOrder(rows: seq<ApiKey>, id: int, r: Round)
    requires Clocked(r) && InIdOrder(rows)
    ensures InIdOrder(Applied(rows, id, r))
  {
    assert forall i :: 0 <= i < |rows| ==> Applied(rows, id, r)[i].id == rows[i].id;
  }

  lemma OrderNext(rows: seq<ApiKey>, k: ApiKey)
    requires InIdOrder(rows) && forall other :: other in rows ==> other.id < k.id
    ensures InIdOrder(rows + [k])
  {
    assert forall i :: 0 <= i < |rows| ==> rows[i] in rows;
  }

  lemma {:induction false} DisturbedEndsBy(rows: seq<ApiKey>, d: Disturbance, id: int)
    requires forall k :: k in rows ==> k.id <= id
    ensures forall k :: k in Disturbed(rows, d) ==> k.id <= id
  {
    if rows != [] {
      DisturbedEndsBy(rows[..|rows| - 1], d, id);
    }
  }

  lemma OneMore(rows: seq<ApiKey>, more: seq<ApiKey>, id: int)
    requires InIdOrder(rows) && forall k :: k in rows ==> k.id <= id - 1
    requires |more| <= 1 && (more != [] ==> more[0].id == id)
    ensures InIdOrder(rows + more)
  {
    if more == [] {
      assert rows + more == rows;
    } else {
      OrderNext(rows, more[0]);
      assert rows + more == rows + [more[0]];
    }
  }

  lemma {:induction false} DisturbedKeepsOrder(rows: seq<ApiKey>, d: Disturbance)
    requires InIdOrder(rows)
    ensures InIdOrder(Disturbed(rows, d))
  {
    if rows != [] {
      var init, last := rows[..|rows| - 1], rows[|rows| - 1];
      DisturbedKeepsOrder(init, d);
      forall k | k in init ensures k.id <= last.id - 1 {
        var i :| 0 <= i < |init| && init[i] == k;
        assert rows[i] == k;
      }
      DisturbedEndsBy(init, d, last.id - 1);
      OneMore(Disturbed(init, d), OneDisturbed(last, d), last.id);
    }
  }

  lemma {:induction false} DisturbedAllKeepsOrder(rows: seq<ApiKey>, ds: seq<Disturbance>)
    requires InIdOrder(rows)
    ensures InIdOrder(DisturbedAll(rows, ds))
  {
    if ds != [] {
      var n := |ds| - 1;
      DisturbedAllKeepsOrder(rows, ds[..n]);
      DisturbedKeepsOrder(DisturbedAll(rows, ds[..n]), ds[n]);
    }
  }

  class RefreshWorker {
    var rows: seq<ApiKey>  // the api_keys table, in id order

    ghost predicate Valid()
      reads this
    {
      InIdOrder(rows)
    }

    constructor (rows: seq<ApiKey>)
      requires InIdOrder(rows)
      ensures Valid() && this.rows == rows
    {
      this.rows := rows;
    }

    /** The due query. */
    method FindDue(now: real) returns (due: seq<int>)
      ensures due == Due(rows, now)
    {
      due := [];
      var i := 0;
      while i < |rows|
        invariant 0 <= i <= |rows| && due == Due(rows[..i], now)
      {
        assert rows[..i + 1][..i] == rows[..i];
        if IsDue(rows[i], now) {
          due := due + [rows[i].id];
        }
        i := i + 1;
      }
      assert rows[..i] == rows;
    }

    /** One result written to its key, if the key is still there. */
    method ApplyOne(id: int, r: Round)
      requires Valid() && Clocked(r)
      modifies this
      ensures Valid() && rows == Applied(old(rows), id, r)
    {
      AppliedKeepsOrder(rows, id, r);
      var at := 0;
      while at < |rows| && rows[at].id != id
        invariant 0 <= at <= |rows| && forall j :: 0 <= j < at ==> rows[j].id != id
      {
        at := at + 1;
      }
      if at < |rows| {
        rows := rows[at := AppliedTo(rows[at], r.probe(id), r)];
      }
      assert rows == Applied(old(rows), id, r);
    }

    /** _apply_results_serial for the results that follow those of `past`; each is committed on its own. */
    method ApplyResultsSerial(batch: seq<int>, r: Round, ghost was: seq<ApiKey>, past: seq<int>)
      requires Valid() && Clocked(r) && rows == RowsAfter(was, past, r)
      modifies this
      ensures Valid() && rows == RowsAfter(was, past + batch, r)
    {
      var i := 0;
      assert past + batch[..0] == past;
      while i < |batch|
        invariant 0 <= i <= |batch| && Valid() && rows == RowsAfter(was, past + batch[..i], r)
      {
        RowsAfterNext(was, past, batch, i, r);
        DisturbedAllKeepsOrder(rows, r.others(|past| + i));
        rows := DisturbedAll(rows, r.others(|past| + i));  // other workers
        ApplyOne(batch[i], r);
        i := i + 1;
      }
      assert batch[..i] == batch;
    }

    /** _refresh_once; `probed` lists the probes made, in order, and `batches` how they were grouped. */
    method RefreshOnce(r: Round, batchSize: int) returns (probed: seq<int>, batches: seq<seq<int>>)
      requires Valid() && Clocked(r)
      modifies this
      ensures Valid() && probed == Due(old(rows), r.now) && Increasing(probed)
      ensures batches == Batches(probed, Max(batchSize, 1))
      ensures rows == RowsAfter(old(rows), probed, r)
    {
      ghost var was := rows;
      DueIncreases(rows, r.now);
      var due := FindDue(r.now);
      var size := Max(batchSize, 1);
      probed, batches := [], [];
      var i := 0;
      ProgressEnds(due, size, batches, probed);
      while i < |due|
        invariant 0 <= i <= |due| && Progress(due, size, i, batches, probed)
        invariant Valid() && rows == RowsAfter(was, probed, r)
      {
        var end := Min(i + size, |due|);
        var batch := due[i..end];
        ProgressNext(due, size, i, batches, probed);
        ApplyResultsSerial(batch, r, was, probed);
        probed, batches, i := probed + batch, batches + [batch], end;
      }
      ProgressEnds(due, size, batches, probed);
    }
  }
}

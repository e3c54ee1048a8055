/** Forwarder.forward of app/core/forwarder.py: the pool loop with its key switches and the pinned loop. */
module Forwarder {
  import opened Prelude
  import opened Keys
  import opened Failover
  import C = Concurrency
  import F = FailureMemory
  import L = KeyLifecycle
  import S = Scheduling

  class Forwarder {
    const config: Config
    const name: int -> string
    const pool: S.KeyPool
    const leases: C.ConcurrencyManager
    var failureWindow: map<int, (int, real)>

    ghost predicate Valid()
      reads this, pool, leases, leases.outstanding
    {
      pool.Valid() && leases.Valid()
    }

    /** What a call that finds these rows is given. */
    ghost function Given(was: seq<ApiKey>, provider: string, budget: nat, world: nat -> World): Call
      reads leases
    {
      Call(was, provider, budget, world, config, FullKeys(was, leases.outstanding, name))
    }

    constructor (config: Config, name: int -> string, pool: S.KeyPool, leases: C.ConcurrencyManager)
      requires pool.Valid() && leases.Valid()
      ensures Valid() && this.config == config && this.name == name && this.pool == pool && this.leases == leases
      ensures failureWindow == map[]
    {
      this.config, this.name, this.pool, this.leases := config, name, pool, leases;
      failureWindow := map[];
    }

    method Apply(id: int, a: L.Action)
      requires pool.Valid()
      modifies pool`rows
      ensures pool.Valid() && pool.rows == WithAction(old(pool.rows), id, a)
    {
      ActionEvolves(pool.rows, id, a, {});
      EvolvedKeepsOrder(pool.rows, WithAction(pool.rows, id, a), {});
      pool.rows := WithAction(pool.rows, id, a);
    }

    /** _record_failure: count within the window; the key is taken out for a while once the threshold is met. */
    method RecordFailure(id: int, active: bool, now: real)
      requires pool.Valid()
      modifies this`failureWindow, pool`rows
      ensures pool.Valid()
      ensures pool.rows == RowsAfterFailure(old(pool.rows), old(failureWindow), id, active, now, config)
      ensures failureWindow == if active then old(failureWindow)[id := Bumped(old(failureWindow), id, now, config)]
                               else old(failureWindow)
    {
      if !active {
        return;
      }
      var (count, first) := if id in failureWindow then failureWindow[id] else (0, now);
      if now - first > config.failureWindow {
        count, first := 0, now;
      }
      count := count + 1;
      failureWindow := failureWindow[id := (count, first)];
      if count < config.failureThreshold {
        return;
      }
      Apply(id, L.Fail(now + Max(config.failedCooldown, 1) as real));
    }

    /** Decrypt the key and send the request. */
    method Attempt(key: ApiKey, w: World) returns (turn: Turn)
      requires pool.Valid()
      modifies this`failureWindow, pool`rows
      ensures pool.Valid()
      ensures turn == if w.decryptOk then Sent(w.http) else Undecryptable
      ensures pool.rows == RowsAfterTurn(old(pool.rows), old(failureWindow), key.id, Enabled(key), turn, w.now, config)
    {
      if !w.decryptOk {
        Apply(key.id, L.DecryptDisable);
        return Undecryptable;
      }
      turn := Sent(w.http);
      if w.http.Timeout? || w.http.HttpError? {
        RecordFailure(key.id, Enabled(key), w.now);
      }
    }

    /** The stretch from the rate check to the finally block that releases the lease. */
    method TakeTurn(key: ApiKey, w: World) returns (turn: Turn)
      requires Valid()
      modifies this`failureWindow, pool`rows, leases
      ensures Valid() && leases.outstanding == old(leases.outstanding)
      ensures turn == Reached(w, C.Refuses(old(leases.states), name(key.id), key.maxConcurrent))
      ensures pool.rows == RowsAfterTurn(old(pool.rows), old(failureWindow), key.id, Enabled(key), turn, w.now, config)
    {
      if !w.limiter.Allows? {
        return if w.limiter.Raises? then Crashed else Denied;
      }
      if w.leaseRaises {
        return Crashed;
      }
      var lease := leases.TryAcquire(name(key.id), key.maxConcurrent);
      if lease == null {
        return Busy;
      }
      turn := Attempt(key, w);
      lease.Release();
    }

    /** _refresh_credits_on_4xx: the score penalty and the credit probe. */
    method RefreshCredits(id: int, status: int, w: World)
      requires pool.Valid() && F.NotAfter(pool.failures, w.chance.mono)
      modifies pool`rows, pool`failures
      ensures pool.Valid() && F.NotAfter(pool.failures, w.chance.mono)
      ensures pool.failures == Penalised(old(pool.failures), id, status, w.chance.mono)
      ensures pool.rows == RowsAfterProbe(old(pool.rows), id, w)
    {
      if Attributable(status) {
        pool.failures := F.AfterFailure(pool.failures, id, w.chance.mono);
      }
      if w.probed.Some? {
        Apply(id, L.Probe4xx(w.probed.value.probe, w.now, w.probed.value.next));
      }
    }

    /** What an answer that is the key's own fault does to the key. */
    method Punish(id: int, resp: Upstream, status: int, w: World)
      requires pool.Valid() && F.NotAfter(pool.failures, w.chance.mono) && Retryable(resp.outcome)
      modifies pool`rows, pool`failures
      ensures pool.Valid() && F.NotAfter(pool.failures, w.chance.mono)
      ensures pool.failures == Penalised(old(pool.failures), id, status, w.chance.mono)
      ensures pool.rows == WithAction(RowsAfterProbe(old(pool.rows), id, w), id, Verdict(resp, w.now, config))
    {
      RefreshCredits(id, status, w);
      if resp.outcome == RateLimit {
        Apply(id, L.Cool(w.now + Cooldown(resp, config) as real));
      } else if resp.outcome == Credit {
        Apply(id, L.SetCredits(0));
      } else {
        Apply(id, L.Invalidate);
      }
    }

    method Find(id: int) returns (at: nat)
      ensures at <= |pool.rows|
      ensures at < |pool.rows| ==> pool.rows[at].id == id
      ensures at == |pool.rows| ==> forall k :: k in pool.rows ==> k.id != id
    {
      at := 0;
      while at < |pool.rows| && pool.rows[at].id != id
        invariant at <= |pool.rows| && forall j :: 0 <= j < at ==> pool.rows[j].id != id
      {
        at := at + 1;
      }
    }

    /** The local estimate of the cost, charged to the key of a successful request. */
    method Charge(id: int, cost: Option<int>)
      requires pool.Valid()
      modifies pool`rows
      ensures pool.Valid() && pool.rows == Charged(old(pool.rows), id, cost)
    {
      var at := Find(id);
      if at < |pool.rows| && cost.Some? && pool.rows[at].credits.Some? {
        var credits := Some(Max(0, pool.rows[at].credits.value - cost.value));
        pool.rows := pool.rows[at := pool.rows[at].(credits := credits)];
      }
      assert pool.rows == Charged(old(pool.rows), id, cost);
    }

    /** The bookkeeping for an answer that goes straight back to the client. */
    method Settle(id: int, active: bool, resp: Upstream, w: World)
      requires pool.Valid() && F.NotAfter(pool.failures, w.chance.mono)
      modifies this`failureWindow, pool`rows, pool`failures
      ensures pool.Valid() && F.NotAfter(pool.failures, w.chance.mono)
      ensures pool.rows == match resp.outcome
                           case Upstream5xx => RowsAfterFailure(old(pool.rows), old(failureWindow), id, active, w.now,
                                                                config)
                           case Ok => Charged(old(pool.rows), id, w.cost)
                           case _ => old(pool.rows)
      ensures pool.failures == if resp.outcome == Ok then F.AfterSuccess(old(pool.failures), id) else old(pool.failures)
    {
      if resp.outcome == Upstream5xx {
        RecordFailure(id, active, w.now);
      } else if resp.outcome == Ok {
        Charge(id, w.cost);
        pool.failures := F.AfterSuccess(pool.failures, id);
      }
    }

    /** One turn on a key with everything it does to the key. */
    method TurnTo(id: int, w: World, pinned: bool, ghost kept: set<int>) returns (turn: Turn)
      requires Valid() && F.NotAfter(pool.failures, w.chance.mono)
      requires id !in kept && exists k :: k in pool.rows && k.id == id
      modifies this`failureWindow, pool`rows, pool`failures, leases
      ensures Valid() && F.NotAfter(pool.failures, w.chance.mono)
      ensures leases.outstanding == old(leases.outstanding)
      ensures turn == TurnOf(w, id in FullKeys(old(pool.rows), leases.outstanding, name))
      ensures Evolved(old(pool.rows), pool.rows, kept)
      ensures Marked(pool.rows, Visit(id, turn), w.now, config)
      ensures RateLimited(turn) ==> pool.rows == RowsAfterLimit(old(pool.rows), id, turn.resp, w, config)
      ensures pool.failures ==
                if turn.Answered? then ConcludedMemory(old(pool.failures), id, turn.resp, pinned, w.chance.mono)
                else old(pool.failures)
    {
      var at := Find(id);
      var key := pool.rows[at];
      ghost var rows := pool.rows;
      ghost var window := failureWindow;
      FullMeaning(rows, at, leases.outstanding, name);
      turn := TakeTurn(key, w);
      if turn.Answered? && turn.resp.outcome == Ok && w.quotaRaises {
        turn := Crashed;  // and rolled back
      }
      if turn.Answered? {
        Conclude(id, Enabled(key), turn.resp, w, pinned, kept);
      } else {
        TurnKeeps(rows, window, id, Enabled(key), turn, w.now, config, kept);
      }
    }

    /** What an answer does to its key. */
    method Conclude(id: int, active: bool, resp: Upstream, w: World, pinned: bool, ghost kept: set<int>)
      requires pool.Valid() && F.NotAfter(pool.failures, w.chance.mono) && id !in kept
      modifies this`failureWindow, pool`rows, pool`failures
      ensures pool.Valid() && F.NotAfter(pool.failures, w.chance.mono)
      ensures pool.rows == ConcludedRows(old(pool.rows), old(failureWindow), id, active, resp, w, config)
      ensures pool.failures == ConcludedMemory(old(pool.failures), id, resp, pinned, w.chance.mono)
      ensures Evolved(old(pool.rows), pool.rows, kept)
      ensures Marked(pool.rows, Visit(id, Answered(resp)), w.now, config)
    {
      ghost var rows := pool.rows;
      if Retryable(resp.outcome) {
        Punish(id, resp, BlamedStatus(resp, pinned), w);
        ghost var mid := RowsAfterProbe(rows, id, w);
        ProbeEvolves(rows, id, w, kept);
        ActionEvolves(mid, id, Verdict(resp, w.now, config), kept);
        EvolvedTransitive(rows, mid, pool.rows, kept, kept);
        VerdictMarks(mid, Visit(id, Answered(resp)), w.now, config);
      } else {
        FailureEvolves(rows, failureWindow, id, active, w.now, config, kept);
        ChargeEvolves(rows, id, w.cost, kept);
        Settle(id, active, resp, w);
      }
    }

    method SelectNext(look: S.Look, w: World) returns (selected: S.Selection)
      requires Valid() && S.Ticks(w.chance) && S.Since(pool.failures, w.chance) && 0.0 <= w.chance.u < 1.0
      modifies pool
      ensures Valid() && F.NotAfter(pool.failures, w.chance.mono)
      ensures Evolved(old(pool.rows), pool.rows, look.exclude) && Settling(old(pool.rows), pool.rows, {})
      ensures selected.Refusal? ==> S.Explained(pool.rows, look, w.chance, selected)
      ensures selected.Selected? ==>
                Candidate(old(pool.rows), selected.id, look) && exists k :: k in pool.rows && k.id == selected.id
    {
      ghost var before, memory, cursors := pool.rows, pool.failures, pool.rrCursor;
      selected := pool.Select(look, w.chance);
      SelectKeeps(before, pool.rows, look, w.chance, pool.settings, memory, cursors, selected);
    }

    /** Select a key and take a turn on it, unless select refuses. */
    method Round(look: S.Look, w: World) returns (refusal: Option<S.Failure>, v: Visit)
      requires Valid() && S.Ticks(w.chance) && S.Since(pool.failures, w.chance) && 0.0 <= w.chance.u < 1.0
      modifies this`failureWindow, pool, leases
      ensures Valid() && F.NotAfter(pool.failures, w.chance.mono)
      ensures leases.outstanding == old(leases.outstanding)
      ensures Rounded(old(pool.rows), pool.rows, look, w, config, FullKeys(old(pool.rows), leases.outstanding, name),
                      refusal, v)
    {
      ghost var before := pool.rows;
      var selected := SelectNext(look, w);
      if selected.Refusal? {
        return Some(selected.failure), Visit(0, Busy);
      }
      ghost var settled := pool.rows;
      FullStays(before, settled, look.exclude, leases.outstanding, name);
      var turn := TurnTo(selected.id, w, false, Others(settled, selected.id));
      RoundKeeps(before, settled, pool.rows, look, selected.id);
      return None, Visit(selected.id, turn);
    }

    /** The variables after a turn, and the result if it is the last one. */
    method Tally(l: Loop, v: Visit, budget: nat) returns (done: Option<Result>, l': Loop)
      requires l.attempts < budget
      ensures Tallied(l, v, budget, done, l')
    {
      l' := l.(tries := l.tries + 1, lastKey := v.id);
      if v.turn.TimedOut? || v.turn.HttpFailed? || v.turn.Crashed? {
        return Some(Raised(if v.turn.TimedOut? then UpstreamTimeout
                           else if v.turn.HttpFailed? then UpstreamUnavailable
                           else Unhandled)), l';
      }
      if v.turn.Answered? {
        l' := l'.(attempts := l'.attempts + 1);
        if !Retryable(v.turn.resp.outcome) {
          return Some(Returned(v.turn.resp, v.id, l'.retries)), l';
        }
        l' := l'.(lastError := Some(v.turn.resp));
      }
      if v.turn.Undecryptable? {
        l' := l'.(decryptSeen := true);
      }
      l' := l'.(tried := l'.tried + {v.id}, retries := l'.retries + 1);
      if v.turn.Answered? && l'.attempts >= budget {
        return Some(Returned(v.turn.resp, v.id, l'.retries - 1)), l';
      }
      done := None;
    }

    /** One pass of the pool loop: done, or on to the next key. */
    method Iterate(l: Loop, trace: seq<Visit>, provider: string, budget: nat, world: nat -> World, ghost c: Call)
      returns (done: Option<Result>, l': Loop, trace': seq<Visit>)
      requires Valid() && S.Since(pool.failures, world(l.tries).chance)
      requires S.Ticks(world(l.tries).chance) && 0.0 <= world(l.tries).chance.u < 1.0
      requires c == Given(c.was, provider, budget, world) && Evolved(c.was, pool.rows, {})
      requires Head(l, trace, c, pool.rows) && l.tries < MaxTries(budget)
      modifies this`failureWindow, pool, leases
      ensures Valid() && leases.outstanding == old(leases.outstanding) && Evolved(c.was, pool.rows, {})
      ensures F.NotAfter(pool.failures, world(l.tries).chance.mono)
      ensures Passed(done, l, l', trace', c, pool.rows)
    {
      ghost var before := pool.rows;
      var w := world(l.tries);
      FullStays(c.was, before, {}, leases.outstanding, name);
      var refusal, v := Round(S.Look(provider, l.tried, w.now, w.storeRemaining, w.peek), w);
      if refusal.Some? {
        done, l', trace' := Some(AfterRefusal(refusal.value, l)), l, trace;
      } else {
        trace' := trace + [v];
        done, l' := Tally(l, v, budget);
      }
      assert Decided(l, trace, c.budget, refusal, v, done, l', trace');
      assert Rounded(before, pool.rows, LookAt(c, l.tried, l.tries), c.world(l.tries), c.config, c.full, refusal, v);
      RoundPasses(l, trace, c, before, pool.rows, refusal, v, done, l', trace');
    }

    /** The pool loop.  `trace` lists the keys it turned to, in order. */
    method ForwardPool(provider: string, budget: nat, world: nat -> World) returns (result: Result, trace: seq<Visit>)
      requires Valid() && budget >= 1 && Orderly(world) && S.Since(pool.failures, world(0).chance)
      modifies this`failureWindow, pool, leases
      ensures Valid() && leases.outstanding == old(leases.outstanding)
      ensures Evolved(old(pool.rows), pool.rows, {})
      ensures Finished(result, trace, Given(old(pool.rows), provider, budget, world), pool.rows)
    {
      ghost var c := Given(pool.rows, provider, budget, world);
      var l := Loop({}, 0, 0, 0, 0, None, false);
      trace := [];
      while l.attempts < budget && l.tries < MaxTries(budget)
        invariant Valid() && leases.outstanding == old(leases.outstanding) && Evolved(c.was, pool.rows, {})
        invariant S.Since(pool.failures, world(l.tries).chance)
        invariant Head(l, trace, c, pool.rows)
        decreases MaxTries(budget) - l.tries
      {
        TurnTicks(world, l.tries);
        var done, l', trace' := Iterate(l, trace, provider, budget, world, c);
        if done.Some? {
          return done.value, trace';
        }
        TimePasses(pool.failures, world, l.tries);
        l, trace := l', trace';
      }
      LoopFinishes(l, trace, c, pool.rows);
      result := AfterLoop(l);
    }

    /** The pinned loop; None when the key cannot be pinned and the pool loop takes over. */
    method ForwardPinned(id: int, provider: string, budget: nat, world: nat -> World)
      returns (result: Option<Result>, trace: seq<Visit>)
      requires Valid() && budget >= 1 && Orderly(world) && S.Since(pool.failures, world(0).chance)
      modifies this`failureWindow, pool`rows, pool`failures, leases
      ensures Valid() && leases.outstanding == old(leases.outstanding)
      ensures Evolved(old(pool.rows), pool.rows, Others(old(pool.rows), id))
      ensures result.Some? <==> !world(0).lookupOk || Pinnable(old(pool.rows), id, provider)
      ensures !world(0).lookupOk ==> result == Some(Raised(Unhandled)) && trace == [] && pool.rows == old(pool.rows)
      ensures result.Some? && world(0).lookupOk ==>
                PinnedFinished(result.value, trace, id, Given(old(pool.rows), provider, budget, world), pool.rows)
      ensures result.None? ==>
                && pool.rows == old(pool.rows) && pool.failures == old(pool.failures)
                && failureWindow == old(failureWindow) && leases.states == old(leases.states)
    {
      result, trace := None, [];
      ghost var c := Given(pool.rows, provider, budget, world);
      if !world(0).lookupOk {
        return Some(Raised(Unhandled)), [];
      }
      var at := Find(id);
      if at == |pool.rows| || IsDisabled(pool.rows[at]) || pool.rows[at].provider != provider {
        NotPinnable(pool.rows, at, id, provider);
        return;
      }
      assert pool.rows[at] in pool.rows;
      var answer;
      answer, trace := PinnedLoop(id, budget, world, c);
      result := Some(answer);
    }

    /** The turns on the pinned key. */
    method PinnedLoop(id: int, budget: nat, world: nat -> World, ghost c: Call)
      returns (answer: Result, trace: seq<Visit>)
      requires Valid() && budget >= 1 && Orderly(world) && S.Since(pool.failures, world(0).chance)
      requires c == Given(pool.rows, c.provider, budget, world) && exists k :: k in pool.rows && k.id == id
      modifies this`failureWindow, pool`rows, pool`failures, leases
      ensures Valid() && leases.outstanding == old(leases.outstanding)
      ensures Evolved(c.was, pool.rows, Others(c.was, id)) && PinnedFinished(answer, trace, id, c, pool.rows)
    {
      var result: Option<Result> := None;
      trace := [];
      var attempt := 0;
      while result.None? && attempt < budget
        invariant Valid() && leases.outstanding == old(leases.outstanding)
        invariant Evolved(c.was, pool.rows, Others(c.was, id))
        invariant attempt == |trace| && (result.None? ==> S.Since(pool.failures, world(attempt).chance))
        invariant PinnedPassed(result, trace, id, c, pool.rows)
        decreases budget - attempt
      {
        TurnTicks(world, attempt);
        ghost var before := pool.rows;
        PinnedStays(c.was, before, id, leases.outstanding, name);
        S.SinceStays(pool.failures, world(attempt).chance);
        var turn := TurnTo(id, world(attempt), true, Others(c.was, id));
        if !RateLimited(turn) || attempt >= budget - 1 {
          result := Some(PinnedResult(turn, id, attempt));
        }
        PinnedNext(trace, id, c, before, turn, pool.rows, result);
        EvolvedTransitive(c.was, before, pool.rows, Others(c.was, id), Others(c.was, id));
        trace := trace + [Visit(id, turn)];
        TimePasses(pool.failures, world, attempt);
        attempt := attempt + 1;
      }
      answer := result.value;
    }

    /** forward: the pinned key if there is one to use, else the pool; every lease taken on the way is given back. */
    method Forward(pinned: Option<int>, provider: string, clientMax: Option<int>, providerMax: int, world: nat -> World)
      returns (result: Result, trace: seq<Visit>)
      requires Valid() && Orderly(world) && S.Since(pool.failures, world(0).chance)
      modifies this`failureWindow, pool, leases
      ensures Valid() && Evolved(old(pool.rows), pool.rows, {})
      ensures forall k :: C.CurrentOf(leases.states, k) == C.CurrentOf(old(leases.states), k)
      ensures result != Raised(LoopExhausted)
      ensures var retries := if clientMax.Some? then clientMax.value else providerMax;
              var attempts: nat := if retries < 0 then 1 else retries + 1;
              var c := Given(old(pool.rows), provider, attempts, world);
              if pinned.Some? && !world(0).lookupOk
              then result == Raised(Unhandled) && trace == [] && pool.rows == old(pool.rows)
              else if pinned.Some? && Pinnable(old(pool.rows), pinned.value, provider)
              then PinnedPromise(result, trace, pinned.value, attempts, c, pool.rows)
              else PoolPromise(result, trace, attempts, c, pool.rows)
    {
      var budget := RetryBudget(clientMax, providerMax);
      ghost var c := Given(pool.rows, provider, budget, world);
      if pinned.Some? {
        ghost var before := pool.rows;
        var answer: Option<Result>;
        answer, trace := ForwardPinned(pinned.value, provider, budget, world);
        if answer.Some? {
          EvolvedTransitive(before, before, pool.rows, Others(before, pinned.value), {});
          if world(0).lookupOk {
            PinnedMeaning(answer.value, trace, pinned.value, c, pool.rows);
            assert PinnedPromise(answer.value, trace, pinned.value, budget, c, pool.rows);
          }
          return answer.value, trace;
        }
      }
      assert Given(pool.rows, provider, budget, world) == c;
      result, trace := ForwardPool(provider, budget, world);
      FinishedMeaning(result, trace, c, pool.rows);
      assert PoolPromise(result, trace, budget, c, pool.rows);
    }
  }
}

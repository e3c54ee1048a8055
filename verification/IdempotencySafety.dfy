/** The idempotency protocol under interleaving: many workers, one table, one monotone clock,
    every database statement its own atomic step. */
module IdempotencySafety {
  import opened Prelude
  import opened Idempotency

  datatype Request = Request(pair: Pair, hash: string)

  datatype Worker =
    | Cleaning(req: Request, now: real)
    | Inserting(req: Request, now: real)
    | Conflicted(req: Request, now: real)        // the unique constraint fired
    | Deleting(req: Request, id: nat)            // decided to delete row `id` and start again
    | Executing(req: Request, id: nat)
    | Finished(req: Request, outcome: Outcome, id: nat)  // `id`: the row replayed from or completed

  /** History of an insert that was committed: who, when the holder read its clock, when the row was written. */
  datatype Grant = Grant(req: Request, stamp: real, at: real)

  /** `grants` and `given` (the response each holder passed to complete) are history, never read by the protocol. */
  datatype System = System(clock: real, rows: Table, workers: map<nat, Worker>,
                           grants: seq<Grant>, given: map<nat, Response>)

  /** Of an insert that meets no other row: it goes through, it fails, or it is committed and the read that follows it
      fails, which answers 503 and leaves the row in progress. */
  datatype Fate = Fine | Failed | Unread

  datatype Step =
    | Tick(dt: real)
    | Begin(w: nat, req: Request)
    | Cleanup(w: nat, ok: bool)
    | Insert(w: nat, created: real, fate: Fate)
    | Read(w: nat)
    | Delete(w: nat, ok: bool)
    | Complete(w: nat, response: Response, ok: bool)

  predicate Enabled(s: System, step: Step) {
    match step
    case Tick(dt) => dt >= 0.0
    case Begin(w, _) => w !in s.workers
    case Cleanup(w, _) => w in s.workers && s.workers[w].Cleaning?
    case Insert(w, created, _) => w in s.workers && s.workers[w].Inserting? && s.workers[w].now <= created <= s.clock
    case Read(w) => w in s.workers && s.workers[w].Conflicted?
    case Delete(w, _) => w in s.workers && s.workers[w].Deleting?
    case Complete(w, _, _) => w in s.workers && s.workers[w].Executing?
  }

  function AfterRead(c: Config, s: System, req: Request, now: real): Worker {
    if req.pair !in s.rows then Finished(req, Unavailable, 0)
    else
      var row := s.rows[req.pair];
      match Decide(c, row, req.hash, now)
      case DeleteAndRetry => Deleting(req, row.id)
      case HashConflict => Finished(req, KeyConflict, row.id)
      case StillRunning => Finished(req, InProgress, row.id)
      case Replay(stored) =>
        var r := Deserialize(c, stored);
        Finished(req, if r.Some? then Replayed(r.value) else Unavailable, row.id)
  }

  function Do(c: Config, s: System, step: Step): System
    requires Enabled(s, step)
  {
    match step
    case Tick(dt) => s.(clock := s.clock + dt)
    case Begin(w, req) => s.(workers := s.workers[w := Cleaning(req, s.clock)])
    case Cleanup(w, ok) =>
      var a := s.workers[w];
      s.(rows := if ok then Cleaned(s.rows, a.req.pair.client, a.now) else s.rows,
         workers := s.workers[w := Inserting(a.req, a.now)])
    case Insert(w, created, fate) =>
      var a := s.workers[w];
      if a.req.pair in s.rows then s.(workers := s.workers[w := Conflicted(a.req, a.now)])
      else if fate.Failed? then s.(workers := s.workers[w := Finished(a.req, Unavailable, 0)])
      else
        var id := |s.grants|;
        s.(rows := s.rows[a.req.pair := Row(id, a.req.hash, false, None, created, a.now + Ttl(c) as real)],
           workers := s.workers[w := if fate.Fine? then Executing(a.req, id) else Finished(a.req, Unavailable, id)],
           grants := s.grants + [Grant(a.req, a.now, s.clock)])
    case Read(w) =>
      s.(workers := s.workers[w := AfterRead(c, s, s.workers[w].req, s.workers[w].now)])
    case Delete(w, ok) =>
      var a := s.workers[w];
      if !ok then s.(workers := s.workers[w := Finished(a.req, Unavailable, a.id)])
      else s.(rows := Without(s.rows, a.id), workers := s.workers[w := Cleaning(a.req, s.clock)])
    case Complete(w, response, ok) =>
      var a := s.workers[w];
      s.(rows := if ok then CompletedTable(c, s.rows, a.id, response) else s.rows,
         workers := s.workers[w := Finished(a.req, Execute(a.id), a.id)],
         given := s.given[a.id := response])
  }

  ghost predicate CanStep(c: Config, s: System, s': System) {
    exists step :: Enabled(s, step) && s' == Do(c, s, step)
  }

  ghost predicate IsRun(c: Config, run: seq<System>) {
    && run != []
    && run[0] == System(run[0].clock, map[], map[], [], map[])
    && forall i :: 0 <= i < |run| - 1 ==> CanStep(c, run[i], run[i + 1])
  }

  // --------------------------------------------------------------- invariant

  /** Grant `id` no longer protects its key: the window of its holder has passed. */
  predicate Lapsed(c: Config, s: System, id: nat)
    requires id < |s.grants|
  {
    s.clock > s.grants[id].stamp + Window(c) as real
  }

  /** Every row is the row of its grant, complete with what its own holder handed in, or in progress. */
  ghost predicate RowInv(c: Config, s: System, p: Pair)
    requires p in s.rows
  {
    var row := s.rows[p];
    && row.id < |s.grants|
    && s.grants[row.id].req == Request(p, row.hash)
    && s.grants[row.id].stamp <= row.createdAt <= s.grants[row.id].at
    && row.expiresAt == s.grants[row.id].stamp + Ttl(c) as real
    && (if row.completed then row.id in s.given && row.response.Some? && row.response == Serialize(c, s.given[row.id])
        else row.response.None?)
  }

  ghost predicate GrantInv(c: Config, s: System, id: nat)
    requires id < |s.grants|
  {
    var g := s.grants[id];
    && g.stamp <= g.at <= s.clock
    && (Lapsed(c, s, id) || (g.req.pair in s.rows && s.rows[g.req.pair].id == id))
  }

  ghost predicate WorkerInv(c: Config, s: System, w: nat)
    requires w in s.workers
  {
    match s.workers[w]
    case Cleaning(_, now) => now <= s.clock
    case Inserting(_, now) => now <= s.clock
    case Conflicted(_, now) => now <= s.clock
    case Deleting(req, id) => id < |s.grants| && Lapsed(c, s, id) && s.grants[id].req.pair == req.pair
    case Executing(req, id) =>
      && id < |s.grants| && s.grants[id].req == req && id !in s.given
      && (req.pair in s.rows && s.rows[req.pair].id == id ==> !s.rows[req.pair].completed)
    case Finished(req, outcome, id) =>
      outcome.Replayed? ==> id < |s.grants| && s.grants[id].req == req && Some(outcome.response) == Handed(c, s, id)
  }

  /** The response handed in by the holder of `id`, as it reads back from the table. */
  function Handed(c: Config, s: System, id: nat): Option<Response> {
    if id in s.given && Serialize(c, s.given[id]).Some? then Deserialize(c, Serialize(c, s.given[id]).value) else None
  }

  ghost predicate Inv(c: Config, s: System) {
    && (forall p :: p in s.rows ==> RowInv(c, s, p))
    && (forall id: nat :: id < |s.grants| ==> GrantInv(c, s, id))
    && (forall w :: w in s.workers ==> WorkerInv(c, s, w))
    && (forall w, v ::
          w in s.workers && v in s.workers && w != v && s.workers[w].Executing? && s.workers[v].Executing? ==>
          s.workers[w].id != s.workers[v].id)
    && (forall i, j :: 0 <= i < j < |s.grants| && s.grants[i].req.pair == s.grants[j].req.pair ==>
          s.grants[j].at > s.grants[i].stamp + Window(c) as real)
    && (forall id :: id in s.given ==> id < |s.grants|)
  }

  lemma TickKeepsInv(c: Config, s: System, dt: real)
    requires Inv(c, s) && dt >= 0.0
    ensures Inv(c, s.(clock := s.clock + dt))
  {
    var s' := s.(clock := s.clock + dt);
    forall p | p in s'.rows ensures RowInv(c, s', p) {
      assert RowInv(c, s, p);
    }
    forall id: nat | id < |s'.grants| ensures GrantInv(c, s', id) {
      assert GrantInv(c, s, id);
    }
    forall w | w in s'.workers ensures WorkerInv(c, s', w) {
      assert WorkerInv(c, s, w);
    }
  }

  /** Removing a row whose grant has lapsed, and moving one worker. */
  lemma RemovalKeepsInv(c: Config, s: System, rows: Table, w: nat, a: Worker)
    requires Inv(c, s) && !a.Executing?
    requires forall p :: p in rows ==> p in s.rows && rows[p] == s.rows[p]
    requires forall p :: p in s.rows && p !in rows ==> s.rows[p].id < |s.grants| && Lapsed(c, s, s.rows[p].id)
    requires WorkerInv(c, s.(rows := rows, workers := s.workers[w := a]), w)
    ensures Inv(c, s.(rows := rows, workers := s.workers[w := a]))
  {
    var s' := s.(rows := rows, workers := s.workers[w := a]);
    forall p | p in s'.rows ensures RowInv(c, s', p) {
      assert RowInv(c, s, p);
    }
    forall id: nat | id < |s'.grants| ensures GrantInv(c, s', id) {
      assert GrantInv(c, s, id) && Lapsed(c, s', id) == Lapsed(c, s, id);
    }
    forall v | v in s'.workers ensures WorkerInv(c, s', v) {
      if v != w {
        assert WorkerInv(c, s, v);
        assert forall id: nat :: id < |s.grants| ==> Lapsed(c, s', id) == Lapsed(c, s, id);
      }
    }
  }

  /** A row that is deleted because it expired or went stale has lapsed. */
  lemma DoomedRowHasLapsed(c: Config, s: System, p: Pair, now: real)
    requires Inv(c, s) && p in s.rows && now <= s.clock
    requires Expired(s.rows[p], now) || Stale(c, s.rows[p], now)
    ensures s.rows[p].id < |s.grants| && Lapsed(c, s, s.rows[p].id)
  {
    assert RowInv(c, s, p) && GrantInv(c, s, s.rows[p].id);
  }

  lemma CleanupKeepsInv(c: Config, s: System, w: nat, ok: bool)
    requires Inv(c, s) && Enabled(s, Cleanup(w, ok))
    ensures Inv(c, Do(c, s, Cleanup(w, ok)))
  {
    var a := s.workers[w];
    assert WorkerInv(c, s, w);
    var s' := Do(c, s, Cleanup(w, ok));
    forall p | p in s.rows && p !in s'.rows ensures s.rows[p].id < |s.grants| && Lapsed(c, s, s.rows[p].id) {
      DoomedRowHasLapsed(c, s, p, a.now);
    }
    RemovalKeepsInv(c, s, s'.rows, w, Inserting(a.req, a.now));
  }

  lemma ReadKeepsInv(c: Config, s: System, w: nat)
    requires Inv(c, s) && Enabled(s, Read(w))
    ensures Inv(c, Do(c, s, Read(w)))
  {
    var a := s.workers[w];
    assert WorkerInv(c, s, w);
    var s' := Do(c, s, Read(w));
    if a.req.pair in s.rows {
      assert RowInv(c, s, a.req.pair);
      if Decide(c, s.rows[a.req.pair], a.req.hash, a.now) == DeleteAndRetry {
        DoomedRowHasLapsed(c, s, a.req.pair, a.now);
      }
    }
    assert s' == s.(rows := s.rows, workers := s.workers[w := s'.workers[w]]);
    assert WorkerInv(c, s', w);
    RemovalKeepsInv(c, s, s.rows, w, s'.workers[w]);
  }

  lemma DeleteKeepsInv(c: Config, s: System, w: nat, ok: bool)
    requires Inv(c, s) && Enabled(s, Delete(w, ok))
    ensures Inv(c, Do(c, s, Delete(w, ok)))
  {
    var a := s.workers[w];
    assert WorkerInv(c, s, w);
    var s' := Do(c, s, Delete(w, ok));
    assert s' == s.(rows := s'.rows, workers := s.workers[w := s'.workers[w]]);
    RemovalKeepsInv(c, s, s'.rows, w, s'.workers[w]);
  }

  lemma InsertKeepsGrants(c: Config, s: System, w: nat, created: real, fate: Fate, s': System)
    requires Inv(c, s) && Enabled(s, Insert(w, created, fate)) && s.workers[w].req.pair !in s.rows && !fate.Failed?
    requires s' == Do(c, s, Insert(w, created, fate))
    ensures forall id: nat :: id < |s'.grants| ==> GrantInv(c, s', id)
    ensures forall i :: 0 <= i < |s.grants| && s.grants[i].req.pair == s.workers[w].req.pair ==>
              s'.grants[|s.grants|].at > s.grants[i].stamp + Window(c) as real
  {
    var n := |s.grants|;
    assert WorkerInv(c, s, w);
    forall id: nat | id < |s'.grants| ensures GrantInv(c, s', id) {
      if id < n {
        assert GrantInv(c, s, id) && Lapsed(c, s', id) == Lapsed(c, s, id);
      }
    }
    forall i | 0 <= i < n && s.grants[i].req.pair == s.workers[w].req.pair
      ensures s'.grants[n].at > s.grants[i].stamp + Window(c) as real
    {
      assert GrantInv(c, s, i);
    }
  }

  lemma InsertKeepsWorkers(c: Config, s: System, w: nat, created: real, fate: Fate, s': System)
    requires Inv(c, s) && Enabled(s, Insert(w, created, fate)) && s.workers[w].req.pair !in s.rows && !fate.Failed?
    requires s' == Do(c, s, Insert(w, created, fate))
    ensures forall v :: v in s'.workers ==> WorkerInv(c, s', v)
    ensures forall v :: v in s.workers && s.workers[v].Executing? ==> s.workers[v].id < |s.grants|
  {
    assert WorkerInv(c, s, w);
    forall v | v in s'.workers ensures WorkerInv(c, s', v) {
      if v != w {
        assert WorkerInv(c, s, v);
        assert forall id: nat :: id < |s.grants| ==> Lapsed(c, s', id) == Lapsed(c, s, id);
      }
    }
    forall v | v in s.workers && s.workers[v].Executing? ensures s.workers[v].id < |s.grants| {
      assert WorkerInv(c, s, v);
    }
  }

  lemma InsertKeepsInv(c: Config, s: System, w: nat, created: real, fate: Fate, s': System)
    requires Inv(c, s) && Enabled(s, Insert(w, created, fate)) && s.workers[w].req.pair !in s.rows && !fate.Failed?
    requires s' == Do(c, s, Insert(w, created, fate))
    ensures Inv(c, s')
  {
    assert WorkerInv(c, s, w);
    InsertKeepsGrants(c, s, w, created, fate, s');
    InsertKeepsWorkers(c, s, w, created, fate, s');
    forall p | p in s'.rows ensures RowInv(c, s', p) {
      assert p in s.rows ==> RowInv(c, s, p);
    }
  }

  lemma CompleteKeepsWorkers(c: Config, s: System, w: nat, r: Response, ok: bool, s': System)
    requires Inv(c, s) && Enabled(s, Complete(w, r, ok)) && s' == Do(c, s, Complete(w, r, ok))
    ensures forall v :: v in s'.workers ==> WorkerInv(c, s', v)
  {
    assert WorkerInv(c, s, w);
    forall v | v in s'.workers ensures WorkerInv(c, s', v) {
      if v != w {
        assert WorkerInv(c, s, v);
        assert forall id: nat :: id < |s.grants| ==> Lapsed(c, s', id) == Lapsed(c, s, id);
      }
    }
  }

  lemma CompleteKeepsInv(c: Config, s: System, w: nat, r: Response, ok: bool, s': System)
    requires Inv(c, s) && Enabled(s, Complete(w, r, ok)) && s' == Do(c, s, Complete(w, r, ok))
    ensures Inv(c, s')
  {
    assert WorkerInv(c, s, w);
    CompleteKeepsWorkers(c, s, w, r, ok, s');
    CompleteKeepsGrants(c, s, w, r, ok, s');
    forall p | p in s'.rows ensures RowInv(c, s', p) {
      assert RowInv(c, s, p);
    }
  }

  lemma CompleteKeepsGrants(c: Config, s: System, w: nat, r: Response, ok: bool, s': System)
    requires Inv(c, s) && Enabled(s, Complete(w, r, ok)) && s' == Do(c, s, Complete(w, r, ok))
    ensures forall id: nat :: id < |s'.grants| ==> GrantInv(c, s', id)
  {
    assert WorkerInv(c, s, w);
    forall id: nat | id < |s'.grants| ensures GrantInv(c, s', id) {
      assert GrantInv(c, s, id) && Lapsed(c, s', id) == Lapsed(c, s, id);
    }
  }

  lemma StepKeepsInv(c: Config, s: System, step: Step)
    requires Inv(c, s) && Enabled(s, step)
    ensures Inv(c, Do(c, s, step))
  {
    match step
    case Tick(dt) => TickKeepsInv(c, s, dt);
    case Begin(w, req) => RemovalKeepsInv(c, s, s.rows, w, Cleaning(req, s.clock));
    case Cleanup(w, ok) => CleanupKeepsInv(c, s, w, ok);
    case Insert(w, created, fate) =>
      assert WorkerInv(c, s, w);
      var req := s.workers[w].req;
      if req.pair in s.rows {
        RemovalKeepsInv(c, s, s.rows, w, Conflicted(req, s.workers[w].now));
      } else if fate.Failed? {
        RemovalKeepsInv(c, s, s.rows, w, Finished(req, Unavailable, 0));
      } else {
        InsertKeepsInv(c, s, w, created, fate, Do(c, s, step));
      }
    case Read(w) => ReadKeepsInv(c, s, w);
    case Delete(w, ok) => DeleteKeepsInv(c, s, w, ok);
    case Complete(w, r, ok) => CompleteKeepsInv(c, s, w, r, ok, Do(c, s, step));
  }

  lemma {:induction false} RunKeepsInv(c: Config, run: seq<System>, i: nat)
    requires IsRun(c, run) && i < |run|
    ensures Inv(c, run[i])
  {
    if i > 0 {
      RunKeepsInv(c, run, i - 1);
      assert CanStep(c, run[i - 1], run[i - 1 + 1]);
      var step :| Enabled(run[i - 1], step) && run[i] == Do(c, run[i - 1], step);
      StepKeepsInv(c, run[i - 1], step);
    }
  }

  // ---------------------------------------------------------- main results

  /** Exclusion: in every run, a later insert for the same key is written more than
      min(max(ttl, 1), stale_after) seconds after the earlier holder read its clock. */
  lemma SecondExecutionComesLate(c: Config, run: seq<System>, i: nat, first: nat, second: nat)
    requires IsRun(c, run) && i < |run| && first < second < |run[i].grants|
    requires run[i].grants[first].req.pair == run[i].grants[second].req.pair
    ensures run[i].grants[second].at > run[i].grants[first].stamp + Window(c) as real
  {
    RunKeepsInv(c, run, i);
  }

  /** The grant is recorded and its window is still open. */
  predicate InWindow(c: Config, s: System, id: nat) {
    id < |s.grants| && !Lapsed(c, s, id)
  }

  /** While a holder's window is open, every other worker still executing for its key holds an earlier grant whose
      own window has passed. */
  lemma OneExecutionInWindow(c: Config, run: seq<System>, i: nat, w: nat, v: nat)
    requires IsRun(c, run) && i < |run| && w in run[i].workers && v in run[i].workers && w != v
    requires run[i].workers[w].Executing? && run[i].workers[v].Executing?
    requires run[i].workers[w].req.pair == run[i].workers[v].req.pair
    requires InWindow(c, run[i], run[i].workers[w].id)
    ensures run[i].workers[v].id < run[i].workers[w].id && !InWindow(c, run[i], run[i].workers[v].id)
  {
    RunKeepsInv(c, run, i);
    var s := run[i];
    assert WorkerInv(c, s, w) && WorkerInv(c, s, v);
    assert GrantInv(c, s, s.workers[w].id) && GrantInv(c, s, s.workers[v].id);
  }

  /** The record of a pair belongs to the newest grant of that pair. */
  ghost predicate Newest(s: System) {
    forall p, j :: p in s.rows && s.rows[p].id < j < |s.grants| ==> s.grants[j].req.pair != p
  }

  lemma StepKeepsNewest(c: Config, s: System, step: Step)
    requires Inv(c, s) && Newest(s) && Enabled(s, step)
    ensures Newest(Do(c, s, step))
  {
    var s' := Do(c, s, step);
    forall p, j | p in s'.rows && s'.rows[p].id < j < |s'.grants| ensures s'.grants[j].req.pair != p {
      if p in s.rows {
        assert RowInv(c, s, p);
      }
    }
  }

  lemma {:induction false} RunKeepsNewest(c: Config, run: seq<System>, i: nat)
    requires IsRun(c, run) && i < |run|
    ensures Newest(run[i])
  {
    if i > 0 {
      RunKeepsNewest(c, run, i - 1);
      RunKeepsInv(c, run, i - 1);
      assert CanStep(c, run[i - 1], run[i - 1 + 1]);
      var step :| Enabled(run[i - 1], step) && run[i] == Do(c, run[i - 1], step);
      StepKeepsNewest(c, run[i - 1], step);
    }
  }

  /** Fencing: once its key has been granted again, a holder's late complete changes nothing in the table, whatever
      has become of the later grant and its record since. */
  lemma DisplacedCompleteIsHarmless(c: Config, run: seq<System>, i: nat, w: nat, second: nat, r: Response, ok: bool)
    requires IsRun(c, run) && i < |run| && Enabled(run[i], Complete(w, r, ok))
    requires run[i].workers[w].id < second < |run[i].grants|
    requires run[i].grants[second].req.pair == run[i].workers[w].req.pair
    ensures Do(c, run[i], Complete(w, r, ok)).rows == run[i].rows
  {
    RunKeepsInv(c, run, i);
    RunKeepsNewest(c, run, i);
    var s := run[i];
    assert WorkerInv(c, s, w);
    forall p | p in s.rows ensures s.rows[p].id != s.workers[w].id {
      assert RowInv(c, s, p);
    }
  }

  /** In every run the primary key determines the pair: a record found by id is the one of its holder's own key. */
  lemma IdDeterminesPair(c: Config, run: seq<System>, i: nat, p: Pair)
    requires IsRun(c, run) && i < |run| && p in run[i].rows
    ensures UniqueIds(run[i].rows)
    ensures forall w ::
              w in run[i].workers && run[i].workers[w].Executing? && run[i].workers[w].id == run[i].rows[p].id ==>
              run[i].workers[w].req == Request(p, run[i].rows[p].hash)
  {
    RunKeepsInv(c, run, i);
    var s := run[i];
    forall q | q in s.rows ensures RowInv(c, s, q) {}
    forall w | w in s.workers && s.workers[w].Executing? && s.workers[w].id == s.rows[p].id
      ensures s.workers[w].req == Request(p, s.rows[p].hash)
    {
      assert WorkerInv(c, s, w);
    }
  }

  /** A completed record is never rewritten: after any step it is the same record or it is gone. */
  lemma CompletedNeverChanges(c: Config, run: seq<System>, i: nat, step: Step, p: Pair)
    requires IsRun(c, run) && i < |run| && Enabled(run[i], step)
    requires p in run[i].rows && run[i].rows[p].completed
    ensures var rows' := Do(c, run[i], step).rows;
            p in rows' ==> rows'[p] == run[i].rows[p]
  {
    RunKeepsInv(c, run, i);
    if step.Complete? {
      assert WorkerInv(c, run[i], step.w);
    }
  }

  /** A same-hash start that reads an unexpired completed record gets exactly the status, headers and
      body that the record's own holder passed to complete. */
  lemma ReplayIsFaithful(c: Config, run: seq<System>, i: nat, w: nat)
    requires IsRun(c, run) && i < |run| && RoundTrips(c.codec)
    requires Enabled(run[i], Read(w))
    requires var a := run[i].workers[w];
             && a.req.pair in run[i].rows && run[i].rows[a.req.pair].completed
             && run[i].rows[a.req.pair].hash == a.req.hash && !Expired(run[i].rows[a.req.pair], a.now)
    ensures var s, a := run[i], run[i].workers[w];
            var id := s.rows[a.req.pair].id;
            && id in s.given && id < |s.grants| && s.grants[id].req == a.req
            && Do(c, s, Read(w)).workers[w] == Finished(a.req, Replayed(s.given[id]), id)
  {
    RunKeepsInv(c, run, i);
    var row := run[i].rows[run[i].workers[w].req.pair];
    assert RowInv(c, run[i], run[i].workers[w].req.pair);
    StoredResponseRoundTrips(c, run[i].given[row.id]);
  }

  /** Every replay ever answered was the response of the holder of the same key and the same request. */
  lemma EveryReplayWasGiven(c: Config, run: seq<System>, i: nat, w: nat)
    requires IsRun(c, run) && i < |run| && RoundTrips(c.codec) && w in run[i].workers
    requires run[i].workers[w].Finished? && run[i].workers[w].outcome.Replayed?
    ensures var s, a := run[i], run[i].workers[w];
            && a.id in s.given && a.outcome.response == s.given[a.id]
            && a.id < |s.grants| && s.grants[a.id].req == a.req
  {
    RunKeepsInv(c, run, i);
    var s, a := run[i], run[i].workers[w];
    assert WorkerInv(c, s, w);
    StoredResponseRoundTrips(c, s.given[a.id]);
  }

  /** Worker `w` is about to read the record that it then decides on as `a` says: another hash is a conflict, its own
      is in progress up to the grace time, and a record it goes on to delete has expired or is past that time. */
  ghost predicate Meets(c: Config, s: System, w: nat, a: Worker) {
    && w in s.workers && s.workers[w].Conflicted? && s.workers[w].req == a.req && a.req.pair in s.rows
    && (a.Deleting? || a.Finished?) && s.rows[a.req.pair].id == a.id
    && var row, now := s.rows[a.req.pair], s.workers[w].now;
       var grace := if c.ttl < 360 then 30 else if c.ttl >= 1440 then 120 else c.ttl / 12;
       var mine := now <= row.expiresAt && row.hash == a.req.hash;
       if a.Deleting? then now > row.expiresAt || (mine && !row.completed && now - row.createdAt > grace as real)
       else if a.outcome == KeyConflict then now <= row.expiresAt && row.hash != a.req.hash
       else if a.outcome == InProgress then mine && !row.completed && now - row.createdAt <= grace as real
       else mine && row.completed
  }

  predicate Decided(a: Worker) {
    a.Deleting? || (a.Finished? && (a.outcome == KeyConflict || a.outcome == InProgress || a.outcome.Replayed?))
  }

  /** In every run a worker that has been refused, has replayed or is about to take over has met such a record. */
  lemma {:induction false} DecisionsAreGrounded(c: Config, run: seq<System>, j: nat, w: nat)
    requires IsRun(c, run) && j < |run| && w in run[j].workers && Decided(run[j].workers[w])
    ensures exists i :: 0 <= i < j && Meets(c, run[i], w, run[j].workers[w])
  {
    if j > 0 {
      var s, a := run[j - 1], run[j].workers[w];
      assert CanStep(c, s, run[j]);
      var step :| Enabled(s, step) && run[j] == Do(c, s, step);
      if w in s.workers && s.workers[w] == a {
        DecisionsAreGrounded(c, run, j - 1, w);
      } else {
        RunKeepsInv(c, run, j - 1);
        StepGrounds(c, s, step, w);
      }
    }
  }

  lemma StepGrounds(c: Config, s: System, step: Step, w: nat)
    requires Inv(c, s) && Enabled(s, step) && w in Do(c, s, step).workers && Decided(Do(c, s, step).workers[w])
    requires w !in s.workers || s.workers[w] != Do(c, s, step).workers[w]
    ensures Meets(c, s, w, Do(c, s, step).workers[w])
  {
    assert step == Read(w);
    ReadGrounds(c, s, w);
  }

  lemma ReadGrounds(c: Config, s: System, w: nat)
    requires Inv(c, s) && Enabled(s, Read(w)) && Decided(Do(c, s, Read(w)).workers[w])
    ensures Meets(c, s, w, Do(c, s, Read(w)).workers[w])
  {
    var req := s.workers[w].req;
    assert req.pair in s.rows ==> RowInv(c, s, req.pair);
  }

  // ------------------------------------------- how long a completed record stays

  /** Some worker has already decided to delete row `id`. */
  ghost predicate Doomed(s: System, id: nat) {
    exists w :: w in s.workers && s.workers[w].Deleting? && s.workers[w].id == id
  }

  /** An unexpired completed record disappears in a step exactly when the step is the delete of a worker
      that had decided on it earlier, while it was still in progress and stale. */
  lemma CompletedLostIffDoomed(c: Config, run: seq<System>, i: nat, step: Step, p: Pair)
    requires IsRun(c, run) && i < |run| && Enabled(run[i], step)
    requires p in run[i].rows && run[i].rows[p].completed && run[i].rows[p].expiresAt >= run[i].clock
    ensures p !in Do(c, run[i], step).rows <==>
              step.Delete? && step.ok && run[i].workers[step.w].id == run[i].rows[p].id
  {
    RunKeepsInv(c, run, i);
    if step.Cleanup? {
      assert WorkerInv(c, run[i], step.w);
    }
  }

  /** No new deleter can appear for an unexpired completed record. */
  lemma StaysUndoomed(c: Config, s: System, step: Step, p: Pair)
    requires Inv(c, s) && Enabled(s, step)
    requires p in s.rows && s.rows[p].completed && s.rows[p].expiresAt >= s.clock && !Doomed(s, s.rows[p].id)
    ensures !Doomed(Do(c, s, step), s.rows[p].id)
  {
    var s', id := Do(c, s, step), s.rows[p].id;
    forall w | w in s'.workers && s'.workers[w].Deleting? ensures s'.workers[w].id != id {
      if step.Read? && step.w == w {
        assert WorkerInv(c, s, w);
        assert RowInv(c, s, p) && RowInv(c, s, s.workers[w].req.pair);
      } else {
        assert w in s.workers && s.workers[w] == s'.workers[w];
      }
    }
  }

  lemma DurableStep(c: Config, run: seq<System>, i: nat, p: Pair)
    requires IsRun(c, run) && i + 1 < |run|
    requires p in run[i].rows && run[i].rows[p].completed && !Doomed(run[i], run[i].rows[p].id)
    requires run[i].clock <= run[i].rows[p].expiresAt
    ensures p in run[i + 1].rows && run[i + 1].rows[p] == run[i].rows[p] && !Doomed(run[i + 1], run[i].rows[p].id)
  {
    var s := run[i];
    assert CanStep(c, run[i], run[i + 1]);
    var step :| Enabled(s, step) && run[i + 1] == Do(c, s, step);
    RunKeepsInv(c, run, i);
    StaysUndoomed(c, s, step, p);
    CompletedLostIffDoomed(c, run, i, step, p);
    CompletedNeverChanges(c, run, i, step, p);
  }

  lemma {:induction false} ClockMonotone(c: Config, run: seq<System>, i: nat, j: nat)
    requires IsRun(c, run) && i <= j < |run|
    ensures run[i].clock <= run[j].clock
    decreases j
  {
    if i < j {
      ClockMonotone(c, run, i, j - 1);
      assert CanStep(c, run[j - 1], run[j - 1 + 1]);
    }
  }

  /** Completed with no deleter under way, a record stays in the table, unchanged, until it expires. */
  lemma {:induction false} CompletedIsDurable(c: Config, run: seq<System>, i: nat, j: nat, p: Pair)
    requires IsRun(c, run) && i <= j < |run|
    requires p in run[i].rows && run[i].rows[p].completed && !Doomed(run[i], run[i].rows[p].id)
    requires run[j].clock <= run[i].rows[p].expiresAt
    ensures p in run[j].rows && run[j].rows[p] == run[i].rows[p] && !Doomed(run[j], run[j].rows[p].id)
    decreases j
  {
    if i < j {
      ClockMonotone(c, run, j - 1, j);
      CompletedIsDurable(c, run, i, j - 1, p);
      DurableStep(c, run, j - 1, p);
    }
  }

  /** A deleter's row has lapsed, so a record completed while its holder's window was still open has none. */
  lemma CompletedInTimeIsUndoomed(c: Config, run: seq<System>, i: nat, p: Pair)
    requires IsRun(c, run) && i < |run|
    requires p in run[i].rows && InWindow(c, run[i], run[i].rows[p].id)
    ensures !Doomed(run[i], run[i].rows[p].id)
  {
    RunKeepsInv(c, run, i);
    forall w | w in run[i].workers && run[i].workers[w].Deleting? ensures run[i].workers[w].id != run[i].rows[p].id {
      assert WorkerInv(c, run[i], w);
    }
  }

  /** The form a holder can check by its clock: completed within min(max(ttl, 1), stale_after) seconds of its start, a
      record stays in the table unchanged until it expires. */
  lemma CompletedInTimeIsDurable(c: Config, run: seq<System>, i: nat, j: nat, p: Pair)
    requires IsRun(c, run) && i <= j < |run|
    requires p in run[i].rows && run[i].rows[p].completed && InWindow(c, run[i], run[i].rows[p].id)
    requires run[j].clock <= run[i].rows[p].expiresAt
    ensures p in run[j].rows && run[j].rows[p] == run[i].rows[p]
  {
    CompletedInTimeIsUndoomed(c, run, i, p);
    CompletedIsDurable(c, run, i, j, p);
  }

  /** The promise to clients: a request completed in time leaves its response to every later start of the same request
      that reads the record before it expires, and a conflict to any other request under its key. */
  lemma CompletedAnswersUntilExpiry(c: Config, run: seq<System>, i: nat, j: nat, w: nat, v: nat, r: Response)
    requires IsRun(c, run) && i < j < |run| && RoundTrips(c.codec) && |r.body| <= Max(c.maxBytes, 1)
    requires Enabled(run[i], Complete(w, r, true)) && run[i + 1] == Do(c, run[i], Complete(w, r, true))
    requires InWindow(c, run[i], run[i].workers[w].id)
    requires Enabled(run[j], Read(v)) && run[j].workers[v].req.pair == run[i].workers[w].req.pair
    requires run[j].clock <= run[i].grants[run[i].workers[w].id].stamp + Max(c.ttl, 1) as real
    ensures var a, b := run[i].workers[w], run[j].workers[v];
            Do(c, run[j], Read(v)).workers[v]
            == Finished(b.req, if b.req.hash == a.req.hash then Replayed(r) else KeyConflict, a.id)
  {
    var p := run[i].workers[w].req.pair;
    RunKeepsInv(c, run, i);
    RunKeepsInv(c, run, j);
    CompleteInTimeStores(c, run[i], w, r);
    CompletedInTimeIsDurable(c, run, i + 1, j, p);
    assert WorkerInv(c, run[j], v);
    ReadAnswers(c, run[j], v, run[i].rows[p], r);
  }

  lemma CompleteInTimeStores(c: Config, s: System, w: nat, r: Response)
    requires Inv(c, s) && Enabled(s, Complete(w, r, true)) && InWindow(c, s, s.workers[w].id)
    requires |r.body| <= Max(c.maxBytes, 1)
    ensures var a, s' := s.workers[w], Do(c, s, Complete(w, r, true));
            var p := a.req.pair;
            && p in s.rows && s.rows[p].id == a.id && s.rows[p].hash == a.req.hash
            && s.rows[p].expiresAt == s.grants[a.id].stamp + Max(c.ttl, 1) as real
            && p in s'.rows && Holds(c, s'.rows[p], s.rows[p], r) && InWindow(c, s', a.id)
  {
    var a := s.workers[w];
    assert WorkerInv(c, s, w) && GrantInv(c, s, a.id) && RowInv(c, s, a.req.pair);
  }

  lemma ReadAnswers(c: Config, s: System, v: nat, was: Row, r: Response)
    requires RoundTrips(c.codec) && Enabled(s, Read(v))
    requires var b := s.workers[v];
             b.req.pair in s.rows && Holds(c, s.rows[b.req.pair], was, r) && b.now <= was.expiresAt
    ensures var b := s.workers[v];
            Do(c, s, Read(v)).workers[v]
            == Finished(b.req, if b.req.hash == was.hash then Replayed(r) else KeyConflict, was.id)
  {
    assert c.codec.decode(c.codec.encode(r.body)) == Some(r.body);
  }

  ghost predicate Reachable(c: Config, s: System) {
    exists run :: IsRun(c, run) && run[|run| - 1] == s
  }

  lemma ExtendRun(c: Config, run: seq<System>, step: Step)
    requires IsRun(c, run) && Enabled(run[|run| - 1], step)
    ensures IsRun(c, run + [Do(c, run[|run| - 1], step)])
  {
    var s := run[|run| - 1];
    var more := run + [Do(c, s, step)];
    forall i | 0 <= i < |more| - 1 ensures CanStep(c, more[i], more[i + 1]) {
      if i < |run| - 1 {
        assert CanStep(c, run[i], run[i + 1]);
      } else {
        assert more[i] == s && more[i + 1] == Do(c, s, step);
      }
    }
  }

  lemma ReachStep(c: Config, s: System, step: Step, s': System)
    requires Reachable(c, s) && Enabled(s, step) && s' == Do(c, s, step)
    ensures Reachable(c, s')
  {
    var run :| IsRun(c, run) && run[|run| - 1] == s;
    ExtendRun(c, run, step);
    assert (run + [s'])[|run + [s']| - 1] == s';
  }

  /** Whatever has happened to the row it decided on meanwhile, a deleter left alone goes on to execute. */
  lemma DeleterExecutes(c: Config, s: System, w: nat)
    requires Enabled(s, Delete(w, true))
    requires var a := s.workers[w]; a.req.pair in s.rows ==> s.rows[a.req.pair].id == a.id
    ensures Enabled(Do(c, s, Delete(w, true)), Cleanup(w, false))
    ensures Enabled(Do(c, Do(c, s, Delete(w, true)), Cleanup(w, false)), Insert(w, s.clock, Fine))
    ensures var s1 := Do(c, s, Delete(w, true));
            var s2 := Do(c, s1, Cleanup(w, false));
            var s3 := Do(c, s2, Insert(w, s.clock, Fine));
            && s3.workers[w] == Executing(s.workers[w].req, |s.grants|)
            && s3.grants == s.grants + [Grant(s.workers[w].req, s.clock, s.clock)]
  {
  }

  /** A completed record that has not expired is about to be deleted, by a worker that saw it in progress and stale. */
  ghost predicate CompletedAndDoomed(s: System, p: Pair) {
    p in s.rows && s.rows[p].completed && s.clock <= s.rows[p].expiresAt && Doomed(s, s.rows[p].id)
  }

  /** That can happen exactly under configurations in which a record goes stale before it expires. */
  lemma CompletedCanBeDoomed(c: Config)
    ensures (exists s, p :: Reachable(c, s) && CompletedAndDoomed(s, p)) <==> StaleAfter(c) < Ttl(c)
  {
    if StaleAfter(c) < Ttl(c) {
      SlackDooms(c);
    }
    forall s, p | Reachable(c, s) && CompletedAndDoomed(s, p) ensures StaleAfter(c) < Ttl(c) {
      var run :| IsRun(c, run) && run[|run| - 1] == s;
      RunKeepsInv(c, run, |run| - 1);
      assert RowInv(c, s, p);
      var w :| w in s.workers && s.workers[w].Deleting? && s.workers[w].id == s.rows[p].id;
      assert WorkerInv(c, s, w);
    }
  }

  lemma SlackDooms(c: Config)
    requires StaleAfter(c) < Ttl(c)
    ensures exists s, p :: Reachable(c, s) && CompletedAndDoomed(s, p)
  {
    var p := Pair(1, "k");
    var req := Request(p, "h");
    var row := Row(0, "h", false, None, 0.0, Ttl(c) as real);
    var late := StaleAfter(c) as real + 0.5;
    var held, grants := map[][p := row], [Grant(req, 0.0, 0.0)];
    var begun := map[][0 := Cleaning(req, 0.0)];
    var running := begun[0 := Inserting(req, 0.0)][0 := Executing(req, 0)];
    var s0 := System(0.0, map[], map[], [], map[]);
    assert IsRun(c, [s0]) && [s0][|[s0]| - 1] == s0;
    var s1 := System(0.0, map[], begun, [], map[]);
    ReachStep(c, s0, Begin(0, req), s1);
    var s2 := System(0.0, map[], begun[0 := Inserting(req, 0.0)], [], map[]);
    ReachStep(c, s1, Cleanup(0, false), s2);
    var s3 := System(0.0, held, running, grants, map[]);
    ReachStep(c, s2, Insert(0, 0.0, Fine), s3);
    var s4 := System(late, held, running, grants, map[]);
    ReachStep(c, s3, Tick(late), s4);
    DoomFrom(c, s4, p, req, row);
  }

  lemma DoomFrom(c: Config, s: System, p: Pair, req: Request, row: Row)
    requires StaleAfter(c) < Ttl(c) && Reachable(c, s)
    requires req == Request(p, "h") && row == Row(0, "h", false, None, 0.0, Ttl(c) as real)
    requires s.clock == StaleAfter(c) as real + 0.5 && s.rows == map[][p := row]
    requires s.workers.Keys == {0} && s.workers[0] == Executing(req, 0)
    ensures exists s' :: Reachable(c, s') && CompletedAndDoomed(s', p)
  {
    var now := s.clock;
    var s5 := s.(workers := s.workers[1 := Cleaning(req, now)]);
    ReachStep(c, s, Begin(1, req), s5);
    var s6 := s.(workers := s5.workers[1 := Inserting(req, now)]);
    ReachStep(c, s5, Cleanup(1, false), s6);
    var s7 := s.(workers := s6.workers[1 := Conflicted(req, now)]);
    ReachStep(c, s6, Insert(1, now, Fine), s7);
    var s8 := s.(workers := s7.workers[1 := Deleting(req, 0)]);
    assert Decide(c, row, "h", now) == DeleteAndRetry;
    ReachStep(c, s7, Read(1), s8);
    var r := Response(200, map[], []);
    var s9 := Do(c, s8, Complete(0, r, true));
    ReachStep(c, s8, Complete(0, r, true), s9);
    assert s9.workers[1] == Deleting(req, 0);
    assert CompletedAndDoomed(s9, p);
  }

  /** At point `n` of the run the record of `p` is completed, and at its end, before that record would have expired, a
      worker is executing for `p` under the later grant `second`. */
  ghost predicate ExecutedAgain(c: Config, run: seq<System>, n: nat, p: Pair, second: nat) {
    && IsRun(c, run) && n < |run| && CompletedAndDoomed(run[n], p)
    && var end := run[|run| - 1];
       && end.clock <= run[n].rows[p].expiresAt
       && |run[n].grants| <= second < |end.grants| && end.grants[second].req.pair == p
       && exists w :: w in end.workers && end.workers[w].Executing? && end.workers[w].id == second
  }

  /** A request whose completed record has not expired can be executed again exactly under configurations in which a
      record goes stale before it expires. */
  lemma CompletedCanBeExecutedAgain(c: Config)
    ensures (exists run, n, p, second :: ExecutedAgain(c, run, n, p, second)) <==> StaleAfter(c) < Ttl(c)
  {
    CompletedCanBeDoomed(c);
    if StaleAfter(c) < Ttl(c) {
      var s, p :| Reachable(c, s) && CompletedAndDoomed(s, p);
      DoomedIsExecutedAgain(c, s, p);
    }
    forall run, n, p, second | ExecutedAgain(c, run, n, p, second) ensures StaleAfter(c) < Ttl(c) {
      PrefixReachable(c, run, n);
      assert Reachable(c, run[n]) && CompletedAndDoomed(run[n], p);
    }
  }

  lemma PrefixReachable(c: Config, run: seq<System>, n: nat)
    requires IsRun(c, run) && n < |run|
    ensures Reachable(c, run[n])
  {
    var part := run[..n + 1];
    forall i | 0 <= i < |part| - 1 ensures CanStep(c, part[i], part[i + 1]) {
      assert CanStep(c, run[i], run[i + 1]);
    }
    assert IsRun(c, part) && part[|part| - 1] == run[n];
  }

  lemma DoomedIsExecutedAgain(c: Config, s: System, p: Pair)
    requires Reachable(c, s) && CompletedAndDoomed(s, p)
    ensures exists run, n, second :: ExecutedAgain(c, run, n, p, second)
  {
    var run :| IsRun(c, run) && run[|run| - 1] == s;
    RunKeepsInv(c, run, |run| - 1);
    var w :| w in s.workers && s.workers[w].Deleting? && s.workers[w].id == s.rows[p].id;
    assert RowInv(c, s, p) && WorkerInv(c, s, w);
    DeleterExecutes(c, s, w);
    var s1 := Do(c, s, Delete(w, true));
    var s2 := Do(c, s1, Cleanup(w, false));
    var s3 := Do(c, s2, Insert(w, s.clock, Fine));
    var all := run + [s1] + [s2] + [s3];
    DeleterRuns(c, run, w);
    assert all[|run| - 1] == s && all[|all| - 1] == s3;
    assert ExecutedAgain(c, all, |run| - 1, p, |s.grants|);
  }

  lemma DeleterRuns(c: Config, run: seq<System>, w: nat)
    requires IsRun(c, run) && Enabled(run[|run| - 1], Delete(w, true))
    requires var s1 := Do(c, run[|run| - 1], Delete(w, true));
             && Enabled(s1, Cleanup(w, false))
             && Enabled(Do(c, s1, Cleanup(w, false)), Insert(w, run[|run| - 1].clock, Fine))
    ensures var s1 := Do(c, run[|run| - 1], Delete(w, true));
            var s2 := Do(c, s1, Cleanup(w, false));
            IsRun(c, run + [s1] + [s2] + [Do(c, s2, Insert(w, run[|run| - 1].clock, Fine))])
  {
    var s1 := Do(c, run[|run| - 1], Delete(w, true));
    ExtendRun(c, run, Delete(w, true));
    ExtendRun(c, run + [s1], Cleanup(w, false));
    ExtendRun(c, run + [s1] + [Do(c, s1, Cleanup(w, false))], Insert(w, run[|run| - 1].clock, Fine));
  }
}

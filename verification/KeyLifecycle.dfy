/** What the data plane and the background refresh write to a key, and what concurrent database sessions make of it.
    Sessions keep the rows they have loaded (app/db/session.py turns expire_on_commit and autoflush off) and a commit
    writes only the columns a session has changed. */
module KeyLifecycle {
  import opened Prelude
  import opened Keys

  /** The result of a credit probe. */
  datatype Probe =
    | ProbeSuccess(remaining: int, plan: int)
    | ProbeDecryptFailed
    | ProbeInvalid
    | ProbeCooling
    | ProbeError

  function MarkActive(k: ApiKey): ApiKey {
    if !k.isActive || k.status == Disabled then k else k.(status := Active, cooldownUntil := None)
  }

  function MarkCooling(k: ApiKey, until: real): ApiKey {
    if !k.isActive || k.status == Disabled then k else k.(status := Cooling, cooldownUntil := Some(until))
  }

  /** The last part of _record_failure, reached when the failure threshold is met. */
  function MarkFailed(k: ApiKey, until: real): ApiKey {
    if !k.isActive || k.status == Disabled then k else k.(status := Failed, cooldownUntil := Some(until))
  }

  /** _disable_key */
  function Invalidated(k: ApiKey): ApiKey {
    k.(status := Invalid, isActive := false, nextRefresh := None, credits := Some(0))
  }

  /** _disable_key_decrypt_failed */
  function DecryptDisabled(k: ApiKey): ApiKey {
    k.(status := DecryptFailed, isActive := false, nextRefresh := None)
  }

  /** apply_credit_fetch_result; `next` is what calculate_next_refresh_time gives for an enabled key. */
  function ApplyProbe(k: ApiKey, p: Probe, now: real, next: Option<real>): ApiKey {
    match p
    case ProbeDecryptFailed => DecryptDisabled(k)
    case ProbeInvalid => Invalidated(k)
    case ProbeCooling => k.(status := Cooling, cooldownUntil := Some(now))
    case ProbeSuccess(remaining, plan) =>
      k.(credits := Some(remaining), planCredits := Some(plan), lastCheck := Some(now),
         nextRefresh := if IsDisabled(k) then None else next)
    case ProbeError => k
  }

  /** refresh_credits_after_4xx, when it is not skipped for another reason. */
  function RefreshAfter4xx(k: ApiKey, p: Probe, now: real, next: Option<real>): ApiKey {
    if !k.isActive && (k.status == Disabled || k.status == DecryptFailed) then k else ApplyProbe(k, p, now, next)
  }

  datatype Action =
    | Activate
    | Cool(until: real)
    | Fail(until: real)
    | Invalidate
    | DecryptDisable
    | Probe4xx(probe: Probe, now: real, next: Option<real>)
    | RefreshApply(probe: Probe, now: real, next: Option<real>)
    | Reactivate             // the scan of select
    | SetCredits(n: int)     // a credit error, or the local estimate of a request's cost
    | SetNextRefresh(next: Option<real>)

  function Act(k: ApiKey, a: Action): ApiKey {
    match a
    case Activate => MarkActive(k)
    case Cool(until) => MarkCooling(k, until)
    case Fail(until) => MarkFailed(k, until)
    case Invalidate => Invalidated(k)
    case DecryptDisable => DecryptDisabled(k)
    case Probe4xx(p, now, next) => RefreshAfter4xx(k, p, now, next)
    case RefreshApply(p, now, next) => ApplyProbe(k, p, now, next)
    case Reactivate => if IsDisabled(k) then k else EndCooldown(k)
    case SetCredits(n) => k.(credits := Some(n))
    case SetNextRefresh(next) => k.(nextRefresh := next)
  }

  /** The columns a write may change, other than these three, stay. */
  predicate OnlyCredits(k: ApiKey, k': ApiKey) {
    k' == k.(credits := k'.credits, planCredits := k'.planCredits, lastCheck := k'.lastCheck,
             nextRefresh := k'.nextRefresh)
  }

  /** The key `k'` holds what the probe of `k` found. */
  predicate Stores(k: ApiKey, k': ApiKey, p: Probe, now: real, next: Option<real>) {
    match p
    case ProbeSuccess(remaining, plan) =>
      && OnlyCredits(k, k') && k'.lastCheck == Some(now)
      && k'.credits == Some(remaining) && k'.planCredits == Some(plan)
      && k'.nextRefresh == if k.isActive && k.status in {Active, Cooling, Failed} then next else None
    case ProbeInvalid =>
      !k'.isActive && k'.status == Invalid && k'.nextRefresh == None && k'.credits == Some(0)
      && k'.planCredits == k.planCredits && k'.lastCheck == k.lastCheck
    case ProbeDecryptFailed =>
      !k'.isActive && k'.status == DecryptFailed && k'.nextRefresh == None && k'.credits == k.credits
      && k'.planCredits == k.planCredits && k'.lastCheck == k.lastCheck
    case ProbeCooling =>
      k'.isActive == k.isActive && k'.status == Cooling && k'.cooldownUntil == Some(now)
      && OnlyCredits(k.(status := Cooling, cooldownUntil := Some(now)), k') && k'.credits == k.credits
      && k'.planCredits == k.planCredits && k'.lastCheck == k.lastCheck
    case ProbeError => k' == k
  }

  /** What a key holds after the result of a probe: what was found and when, if the probe succeeded; no credits and no
      next refresh if it found the key invalid; else the credits, the plan and the time of the last success as they
      were.  The probe made after a 4xx is dropped for a key disabled by hand or undecryptable. */
  lemma ProbeIsStored(k: ApiKey, p: Probe, now: real, next: Option<real>, a: Action)
    requires a == RefreshApply(p, now, next) || a == Probe4xx(p, now, next)
    ensures if a.Probe4xx? && !k.isActive && k.status in {Disabled, DecryptFailed} then Act(k, a) == k
            else Stores(k, Act(k, a), p, now, next)
  {
  }

  /** What the other writes leave: a success, a cooldown and a failure over the threshold show on an enabled key; a key
      that is invalid or cannot be decrypted goes out of use. */
  lemma WritesShow(k: ApiKey, until: real)
    requires k.isActive && k.status != Disabled
    ensures Act(k, Activate) == k.(status := Active, cooldownUntil := None)
    ensures Act(k, Cool(until)) == k.(status := Cooling, cooldownUntil := Some(until))
    ensures Act(k, Fail(until)) == k.(status := Failed, cooldownUntil := Some(until))
    ensures !Act(k, Invalidate).isActive && !Act(k, DecryptDisable).isActive
    ensures Act(k, Invalidate).credits == Some(0) && Act(k, DecryptDisable).credits == k.credits
  {
  }

  // ----------------------------------------------------------------- sessions

  /** A session's identity map: each row as loaded or last written, and as it stands in memory. */
  datatype Session = Session(base: map<int, ApiKey>, mem: map<int, ApiKey>)

  datatype System = System(db: map<int, ApiKey>, sessions: map<nat, Session>)

  datatype Step =
    | Open(s: nat)
    | Load(s: nat, id: int)
    | Forget(s: nat, id: int)  // an unchanged row that nothing refers to any more leaves the identity map
    | Write(s: nat, id: int, action: Action)
    | Commit(s: nat)
    | Rollback(s: nat)

  predicate Clean(x: Session, id: int) {
    id in x.base && id in x.mem && x.base[id] == x.mem[id]
  }

  predicate Enabled(st: System, step: Step) {
    match step
    case Open(s) => s !in st.sessions
    case Load(s, id) => s in st.sessions && id in st.db
    case Forget(s, id) => s in st.sessions && Clean(st.sessions[s], id)
    case Write(s, id, _) => s in st.sessions && id in st.sessions[s].mem
    case Commit(s) => s in st.sessions
    case Rollback(s) => s in st.sessions
  }

  function Column<T(==)>(base: T, mem: T, stored: T): T {
    if mem == base then stored else mem
  }

  /** UPDATE of the changed columns only. */
  function Flushed(base: ApiKey, mem: ApiKey, row: ApiKey): ApiKey {
    row.(isActive := Column(base.isActive, mem.isActive, row.isActive),
         status := Column(base.status, mem.status, row.status),
         cooldownUntil := Column(base.cooldownUntil, mem.cooldownUntil, row.cooldownUntil),
         credits := Column(base.credits, mem.credits, row.credits),
         planCredits := Column(base.planCredits, mem.planCredits, row.planCredits),
         lastCheck := Column(base.lastCheck, mem.lastCheck, row.lastCheck),
         nextRefresh := Column(base.nextRefresh, mem.nextRefresh, row.nextRefresh))
  }

  function FlushAll(db: map<int, ApiKey>, x: Session): map<int, ApiKey> {
    map id | id in db :: if id in x.base && id in x.mem then Flushed(x.base[id], x.mem[id], db[id]) else db[id]
  }

  function Do(st: System, step: Step): System
    requires Enabled(st, step)
  {
    match step
    case Open(s) => st.(sessions := st.sessions[s := Session(map[], map[])])
    case Load(s, id) =>
      var x := st.sessions[s];
      if id in x.mem then st  // the identity map answers; the row is not read again
      else st.(sessions := st.sessions[s := Session(x.base[id := st.db[id]], x.mem[id := st.db[id]])])
    case Forget(s, id) =>
      var x := st.sessions[s];
      st.(sessions := st.sessions[s := Session(x.base - {id}, x.mem - {id})])
    case Write(s, id, a) =>
      var x := st.sessions[s];
      st.(sessions := st.sessions[s := x.(mem := x.mem[id := Act(x.mem[id], a)])])
    case Commit(s) =>
      var x := st.sessions[s];
      System(FlushAll(st.db, x), st.sessions[s := Session(x.mem, x.mem)])
    case Rollback(s) => st.(sessions := st.sessions[s := Session(map[], map[])])
  }

  ghost predicate CanStep(st: System, st': System) {
    exists step :: Enabled(st, step) && st' == Do(st, step)
  }

  /** A run from any table in which terminal keys are inactive, with no admin action. */
  ghost predicate IsRun(run: seq<System>) {
    && run != [] && run[0].sessions == map[]
    && (forall id :: id in run[0].db ==> Sane(run[0].db[id]))
    && forall i :: 0 <= i < |run| - 1 ==> CanStep(run[i], run[i + 1])
  }

  ghost predicate SessionInv(db: map<int, ApiKey>, x: Session) {
    && x.base.Keys == x.mem.Keys
    && forall id :: id in x.base ==>
         && id in db
         && Sane(x.base[id]) && Sane(x.mem[id])
         && (!x.base[id].isActive ==> !db[id].isActive && !x.mem[id].isActive)
  }

  ghost predicate Inv(st: System) {
    && (forall id :: id in st.db ==> Sane(st.db[id]))
    && (forall s :: s in st.sessions ==> SessionInv(st.db, st.sessions[s]))
  }

  lemma ActionsNeverRevive(k: ApiKey, a: Action)
    ensures Act(k, a).isActive ==> k.isActive
    ensures Sane(k) ==> Sane(Act(k, a))
  {
  }

  lemma FlushNeverRevives(db: map<int, ApiKey>, x: Session, id: int)
    requires SessionInv(db, x) && id in db && Sane(db[id])
    ensures id in FlushAll(db, x) && Sane(FlushAll(db, x)[id])
    ensures !db[id].isActive ==> !FlushAll(db, x)[id].isActive
    ensures id in x.mem && !x.mem[id].isActive ==> !FlushAll(db, x)[id].isActive
  {
  }

  /** A commit writes the columns its session has changed and leaves to every other column what is in the table, so
      that sessions which change different columns of a row do not undo each other. */
  lemma CommitWritesChangedColumns(st: System, s: nat, id: int)
    requires Enabled(st, Commit(s)) && id in st.db
    ensures var x, st' := st.sessions[s], Do(st, Commit(s));
            && st'.db.Keys == st.db.Keys && st'.sessions[s] == Session(x.mem, x.mem)
            && if id in x.base && id in x.mem then Merges(x.base[id], x.mem[id], st.db[id], st'.db[id])
               else st'.db[id] == st.db[id]
  {
  }

  predicate Merges(base: ApiKey, mem: ApiKey, row: ApiKey, row': ApiKey) {
    && row'.isActive == (if mem.isActive != base.isActive then mem.isActive else row.isActive)
    && row'.status == (if mem.status != base.status then mem.status else row.status)
    && row'.cooldownUntil == (if mem.cooldownUntil != base.cooldownUntil then mem.cooldownUntil else row.cooldownUntil)
    && row'.credits == (if mem.credits != base.credits then mem.credits else row.credits)
    && row'.planCredits == (if mem.planCredits != base.planCredits then mem.planCredits else row.planCredits)
    && row'.lastCheck == (if mem.lastCheck != base.lastCheck then mem.lastCheck else row.lastCheck)
    && row'.nextRefresh == (if mem.nextRefresh != base.nextRefresh then mem.nextRefresh else row.nextRefresh)
    && row'.id == row.id && row'.provider == row.provider
    && row'.ratePerMin == row.ratePerMin && row'.maxConcurrent == row.maxConcurrent
  }

  lemma StepKeepsInv(st: System, step: Step)
    requires Inv(st) && Enabled(st, step)
    ensures Inv(Do(st, step))
    ensures forall id :: id in st.db ==>
              id in Do(st, step).db && (!st.db[id].isActive ==> !Do(st, step).db[id].isActive)
  {
    var st' := Do(st, step);
    match step
    case Open(s) =>
    case Load(s, id) =>
    case Forget(s, id) =>
      assert SessionInv(st.db, st.sessions[s]);
    case Rollback(s) =>
    case Write(s, id, a) =>
      ActionsNeverRevive(st.sessions[s].mem[id], a);
      assert SessionInv(st.db, st.sessions[s]);
    case Commit(s) =>
      var x := st.sessions[s];
      forall id | id in st.db
        ensures id in st'.db && Sane(st'.db[id]) && (!st.db[id].isActive ==> !st'.db[id].isActive) {
        FlushNeverRevives(st.db, x, id);
      }
      forall t | t in st'.sessions ensures SessionInv(st'.db, st'.sessions[t]) {
        assert SessionInv(st.db, st.sessions[t]);
        forall id | id in x.mem && !x.mem[id].isActive ensures !st'.db[id].isActive {
          FlushNeverRevives(st.db, x, id);
        }
      }
  }

  lemma {:induction false} RunKeepsInv(run: seq<System>, i: nat)
    requires IsRun(run) && i < |run|
    ensures Inv(run[i])
  {
    if i > 0 {
      RunKeepsInv(run, i - 1);
      assert CanStep(run[i - 1], run[i - 1 + 1]);
      var step :| Enabled(run[i - 1], step) && run[i] == Do(run[i - 1], step);
      StepKeepsInv(run[i - 1], step);
    }
  }

  /** Over every run of data-plane and refresh steps, however sessions interleave and however stale their
      rows are, "terminal implies inactive" holds in the table. */
  lemma TerminalImpliesInactive(run: seq<System>, i: nat, id: int)
    requires IsRun(run) && i < |run| && id in run[i].db
    ensures Terminal(run[i].db[id].status) ==> !run[i].db[id].isActive
  {
    RunKeepsInv(run, i);
    assert Sane(run[i].db[id]);
  }

  /** An inactive key stays inactive. */
  lemma {:induction false} InactiveForever(run: seq<System>, i: nat, j: nat, id: int)
    requires IsRun(run) && i <= j < |run| && id in run[i].db && !run[i].db[id].isActive
    ensures id in run[j].db && !run[j].db[id].isActive
    decreases j
  {
    if i < j {
      InactiveForever(run, i, j - 1, id);
      RunKeepsInv(run, j - 1);
      assert CanStep(run[j - 1], run[j - 1 + 1]);
      var step :| Enabled(run[j - 1], step) && run[j] == Do(run[j - 1], step);
      StepKeepsInv(run[j - 1], step);
    }
  }

  /** What select looks at, and the pinned path before its loop: the session's own copy of the row. */
  predicate CanPick(st: System, s: nat, id: int) {
    s in st.sessions && id in st.sessions[s].mem && !IsDisabled(st.sessions[s].mem[id])
  }

  /** A key that a session cannot pick does not become pickable by anything the session writes. */
  lemma CannotRevive(st: System, s: nat, id: int, a: Action)
    requires Inv(st) && Enabled(st, Write(s, id, a)) && !CanPick(st, s, id)
    ensures !CanPick(Do(st, Write(s, id, a)), s, id)
  {
    var k := st.sessions[s].mem[id];
    assert SessionInv(st.db, st.sessions[s]);
    assert Sane(k) && !k.isActive;
    ActionsNeverRevive(k, a);
  }

  lemma PickStep(st: System, step: Step, s: nat, id: int)
    requires Inv(st) && Enabled(st, step) && id in st.db && !st.db[id].isActive
    requires !CanPick(st, s, id)
    ensures !CanPick(Do(st, step), s, id)
  {
    match step
    case Write(t, i, a) =>
      if t == s && i == id {
        CannotRevive(st, s, id, a);
      }
    case _ =>
  }

  lemma {:induction false} NotPickedLater(run: seq<System>, i: nat, j: nat, s: nat, id: int)
    requires IsRun(run) && i <= j < |run| && id in run[i].db && !run[i].db[id].isActive
    requires !CanPick(run[i], s, id)
    ensures !CanPick(run[j], s, id)
    decreases j
  {
    if i < j {
      NotPickedLater(run, i, j - 1, s, id);
      InactiveForever(run, i, j - 1, id);
      RunKeepsInv(run, j - 1);
      assert CanStep(run[j - 1], run[j - 1 + 1]);
      var step :| Enabled(run[j - 1], step) && run[j] == Do(run[j - 1], step);
      PickStep(run[j - 1], step, s, id);
    }
  }

  /** The actions that disable an enabled key. */
  predicate Deactivates(a: Action) {
    match a
    case Invalidate => true
    case DecryptDisable => true
    case Probe4xx(p, _, _) => p.ProbeInvalid? || p.ProbeDecryptFailed?
    case RefreshApply(p, _, _) => p.ProbeInvalid? || p.ProbeDecryptFailed?
    case _ => false
  }

  lemma DeactivatesMeaning(k: ApiKey, a: Action)
    requires !IsDisabled(k)
    ensures IsDisabled(Act(k, a)) <==> Deactivates(a)
  {
  }

  /** A step by which session `s` gives up its enabled copy of the row. */
  predicate Drops(step: Step, s: nat, id: int) {
    match step
    case Rollback(t) => t == s
    case Forget(t, i) => t == s && i == id
    case Write(t, i, a) => t == s && i == id && Deactivates(a)
    case _ => false
  }

  /** A run together with its steps. */
  ghost predicate IsHistory(run: seq<System>, steps: seq<Step>) {
    && IsRun(run) && |steps| == |run| - 1
    && forall i :: 0 <= i < |steps| ==> Enabled(run[i], steps[i]) && run[i + 1] == Do(run[i], steps[i])
  }

  lemma CopySurvives(st: System, step: Step, s: nat, id: int)
    requires Enabled(st, step) && CanPick(st, s, id)
    ensures CanPick(Do(st, step), s, id) <==> !Drops(step, s, id)
  {
    if step.Write? && step.s == s && step.id == id {
      DeactivatesMeaning(st.sessions[s].mem[id], step.action);
    }
  }

  /** Once a key is inactive in the table, a session can pick it at a later point exactly if it held an enabled copy
      back then and has since neither rolled back, nor forgotten the row, nor disabled the key itself. */
  lemma {:induction false} DisabledIsPickedOnlyFromOldCopy(run: seq<System>, steps: seq<Step>, i: nat, j: nat, s: nat,
                                                           id: int)
    requires IsHistory(run, steps) && i <= j < |run| && id in run[i].db && !run[i].db[id].isActive
    ensures CanPick(run[j], s, id) <==> CanPick(run[i], s, id) && forall n :: i <= n < j ==> !Drops(steps[n], s, id)
    decreases j
  {
    if i < j {
      var n := j - 1;
      DisabledIsPickedOnlyFromOldCopy(run, steps, i, n, s, id);
      InactiveForever(run, i, n, id);
      RunKeepsInv(run, n);
      if CanPick(run[n], s, id) {
        CopySurvives(run[n], steps[n], s, id);
      } else {
        PickStep(run[n], steps[n], s, id);
      }
    }
  }

  /** A session that has not loaded the row by the time the key is disabled never picks it. */
  lemma NeverPickedIfNotLoaded(run: seq<System>, i: nat, j: nat, s: nat, id: int)
    requires IsRun(run) && i <= j < |run| && id in run[i].db && !run[i].db[id].isActive
    requires s !in run[i].sessions || id !in run[i].sessions[s].mem
    ensures !CanPick(run[j], s, id)
  {
    NotPickedLater(run, i, j, s, id);
  }

  /** Such a session exists: one that loaded the key before another session disabled it. */
  lemma OldCopyCanBePicked(k: ApiKey)
    requires !IsDisabled(k)
    ensures exists run: seq<System>, s: nat ::
              IsRun(run) && |run| == 7 && k.id in run[6].db && !run[6].db[k.id].isActive && CanPick(run[6], s, k.id)
  {
    var id := k.id;
    var s0 := System(map[id := k], map[]);
    var steps := [Open(0), Load(0, id), Open(1), Load(1, id), Write(1, id, Invalidate), Commit(1)];
    var s1 := Do(s0, steps[0]);
    var s2 := Do(s1, steps[1]);
    var s3 := Do(s2, steps[2]);
    var s4 := Do(s3, steps[3]);
    var s5 := Do(s4, steps[4]);
    var s6 := Do(s5, steps[5]);
    var run := [s0, s1, s2, s3, s4, s5, s6];
    forall i | 0 <= i < |run| - 1 ensures CanStep(run[i], run[i + 1]) {
      assert Enabled(run[i], steps[i]) && run[i + 1] == Do(run[i], steps[i]);
    }
    assert CanPick(run[6], 0, id);
  }
}

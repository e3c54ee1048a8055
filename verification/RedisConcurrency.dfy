/** The Redis leases of app/core/concurrency.py: a sorted set of tokens scored by expiry time,
    driven by a Lua script or by its WATCH/MULTI fallback.  Times are whole milliseconds. */
module RedisConcurrency {
  import opened Prelude

  type Token = nat

  /** One sorted-set key.  `deadline` is the whole-key EXPIRE; `version` counts modifications (what WATCH observes). */
  datatype ZKey = ZKey(members: map<Token, int>, deadline: int, version: nat)

  const WATCH_ATTEMPTS := 5

  /** EXPIRE argument: max(1, ceil(ttl / 1000)). */
  function ExpireSeconds(ttl: int): int {
    Max(1, Ceil(ttl as real / 1000.0))
  }

  function Unexpired(members: map<Token, int>, stamp: int): map<Token, int> {
    map t | t in members && members[t] > stamp :: members[t]
  }

  /** ZREMRANGEBYSCORE key -inf stamp */
  function Purge(z: ZKey, stamp: int): ZKey {
    var kept := Unexpired(z.members, stamp);
    if kept == z.members then z else z.(members := kept, version := z.version + 1)
  }

  /** ZADD followed by EXPIRE, the server's clock being `serverNow`. */
  function Add(z: ZKey, token: Token, score: int, ttl: int, serverNow: int): ZKey {
    ZKey(z.members[token := score], serverNow + 1000 * ExpireSeconds(ttl), z.version + 1)
  }

  /** ZREM */
  function Remove(z: ZKey, token: Token): ZKey {
    if token in z.members then z.(members := z.members - {token}, version := z.version + 1) else z
  }

  /** _ACQUIRE_LUA */
  function Acquire(z: ZKey, token: Token, stamp: int, ttl: int, maximum: int, serverNow: int): (ZKey, bool) {
    var purged := Purge(z, stamp);
    if |purged.members| >= maximum then (purged, false)
    else (Add(purged, token, stamp + ttl, ttl, serverNow), true)
  }

  /** The tokens whose time has not come at `stamp`. */
  function Live(z: ZKey, stamp: int): set<Token> {
    set t | t in z.members && z.members[t] > stamp
  }

  /** A refusal means the maximum is filled by leases unexpired at the caller's own stamp; a grant adds to these the
      caller's token and nothing else. */
  lemma RefusalMeansFull(z: ZKey, token: Token, stamp: int, ttl: int, maximum: int, serverNow: int)
    ensures var (key, ok) := Acquire(z, token, stamp, ttl, maximum, serverNow);
            && (ok <==> |Live(z, stamp)| < maximum)
            && key.members.Keys == Live(z, stamp) + (if ok then {token} else {})
            && (ok ==> key.members[token] == stamp + ttl)
            && forall t :: t in Live(z, stamp) && !(ok && t == token) ==> key.members[t] == z.members[t]
  {
    assert Unexpired(z.members, stamp).Keys == Live(z, stamp);
  }

  /** The whole-key expiry covers the ttl in whole seconds, no more than need be. */
  lemma ExpiryIsLeast(ttl: int)
    ensures ExpireSeconds(ttl) >= 1 && ttl <= 1000 * ExpireSeconds(ttl)
    ensures forall n: int :: n >= 1 && ttl <= 1000 * n ==> ExpireSeconds(ttl) <= n
  {
    forall n: int | n >= 1 && ttl <= 1000 * n ensures ExpireSeconds(ttl) <= n {
      AtLeastCeil(ttl as real / 1000.0, n);
    }
  }

  // ------------------------------------------------------------- one client

  /** What the other clients of the key can send. */
  datatype Command =
    | AcquireCmd(token: Token, stamp: int, ttl: int, maximum: int, serverNow: int)
    | ReleaseCmd(token: Token)
    | PurgeCmd(stamp: int)

  function Apply(z: ZKey, c: Command): ZKey {
    match c
    case AcquireCmd(token, stamp, ttl, maximum, serverNow) => Acquire(z, token, stamp, ttl, maximum, serverNow).0
    case ReleaseCmd(token) => Remove(z, token)
    case PurgeCmd(stamp) => Purge(z, stamp)
  }

  /** The members a command leaves: a purge takes those whose time has come, a release its own token, and an acquire
      purges and then, if there is room, adds its own token for the length of the ttl. */
  lemma MembersAfter(z: ZKey, c: Command, t: Token)
    ensures var after := Apply(z, c).members;
            match c
            case PurgeCmd(stamp) => t in after <==> t in z.members && z.members[t] > stamp
            case ReleaseCmd(token) => t in after <==> t in z.members && t != token
            case AcquireCmd(token, stamp, ttl, maximum, _) =>
              var granted := Acquire(z, token, stamp, ttl, maximum, c.serverNow).1;
              && (t in after <==> (granted && t == token) || (t in z.members && z.members[t] > stamp))
              && (granted ==> after[token] == stamp + ttl)
    ensures t in Apply(z, c).members && t in z.members && !(c.AcquireCmd? && c.token == t) ==>
              Apply(z, c).members[t] == z.members[t]
  {
  }

  /** What WATCH observes: the version moves exactly when a command writes, that is when it removes a member or adds
      one.  Only an added member moves the deadline of the key, to the server's clock plus the expiry. */
  lemma VersionMovesOnWrite(z: ZKey, c: Command)
    ensures var after := Apply(z, c);
            var granted := c.AcquireCmd? && Acquire(z, c.token, c.stamp, c.ttl, c.maximum, c.serverNow).1;
            && (after.version == z.version <==> !granted && after.members == z.members)
            && after.deadline == if granted then c.serverNow + 1000 * ExpireSeconds(c.ttl) else z.deadline
  {
  }

  function ApplyAll(z: ZKey, cs: seq<Command>): (r: ZKey)
    ensures z.version <= r.version
    ensures z.version == r.version ==> z == r
  {
    if cs == [] then z else Apply(ApplyAll(z, cs[..|cs| - 1]), cs[|cs| - 1])
  }

  /** An attempt is repeated when it finds room after its purge but EXEC fails: the key has been modified since WATCH,
      by another client or by the caller's own purge. */
  predicate Conflicts(z: ZKey, stamp: int, maximum: int, others: seq<Command>) {
    && |Purge(z, stamp).members| < maximum
    && ApplyAll(Purge(z, stamp), others).version != z.version
  }

  /** The key as attempt `n` finds it: each earlier attempt has purged it and then seen other clients' commands. */
  function BeforeAttempt(z: ZKey, stamp: int, others: seq<seq<Command>>, n: nat): ZKey
    requires n <= |others|
  {
    if n == 0 then z else ApplyAll(Purge(BeforeAttempt(z, stamp, others, n - 1), stamp), others[n - 1])
  }

  predicate AllConflict(z: ZKey, stamp: int, maximum: int, others: seq<seq<Command>>, n: nat)
    requires n <= |others|
  {
    n > 0 ==>
      && AllConflict(z, stamp, maximum, others, n - 1)
      && Conflicts(BeforeAttempt(z, stamp, others, n - 1), stamp, maximum, others[n - 1])
  }

  class RedisConcurrencyManager {
    var key: ZKey
    const ttl: int

    constructor (leaseTtlMs: int)
      ensures key == ZKey(map[], 0, 0) && ttl == Max(leaseTtlMs, 1000)
    {
      key := ZKey(map[], 0, 0);
      ttl := Max(leaseTtlMs, 1000);
    }

    method TryAcquire(token: Token, maximum: int, nowMs: int, serverNow: int) returns (ok: bool)
      modifies this
      ensures (key, ok) == if maximum <= 0 then (old(key), true)
                           else Acquire(old(key), token, nowMs, ttl, maximum, serverNow)
    {
      if maximum <= 0 {
        return true;
      }
      key := Purge(key, nowMs);
      var count := |key.members|;
      if count >= maximum {
        return false;
      }
      key := Add(key, token, nowMs + ttl, ttl, serverNow);
      return true;
    }

    /** One attempt, with the commands that land between its WATCH and its EXEC; None is the WatchError. */
    method Attempt(token: Token, maximum: int, nowMs: int, serverNow: int, others: seq<Command>)
      returns (ok: Option<bool>)
      modifies this
      ensures ok.None? <==> Conflicts(old(key), nowMs, maximum, others)
      ensures match ok
              case Some(b) => (key, b) == Acquire(old(key), token, nowMs, ttl, maximum, serverNow)
              case None => key == ApplyAll(Purge(old(key), nowMs), others)
    {
      var watched := key.version;
      key := Purge(key, nowMs);
      var count := |key.members|;
      if count >= maximum {
        return Some(false);
      }
      key := ApplyAll(key, others);
      if key.version != watched {
        return None;
      }
      key := Add(key, token, nowMs + ttl, ttl, serverNow);
      return Some(true);
    }

    /** `others[i]` land between the WATCH and the EXEC of attempt i.  Exactly the conflicting attempts are repeated;
        the first that does not conflict has the outcome of the script run atomically, and five conflicts raise the
        503 (None) and add nothing. */
    method AcquireFallback(token: Token, maximum: int, nowMs: int, serverNow: int, others: seq<seq<Command>>)
      returns (ok: Option<bool>, conflicts: nat)
      requires |others| == WATCH_ATTEMPTS
      modifies this
      ensures conflicts <= WATCH_ATTEMPTS && (ok.None? <==> conflicts == WATCH_ATTEMPTS)
      ensures AllConflict(old(key), nowMs, maximum, others, conflicts)
      ensures ok.None? ==> key == BeforeAttempt(old(key), nowMs, others, conflicts)
      ensures ok.Some? ==>
                var before := BeforeAttempt(old(key), nowMs, others, conflicts);
                && !Conflicts(before, nowMs, maximum, others[conflicts])
                && (key, ok.value) == Acquire(before, token, nowMs, ttl, maximum, serverNow)
    {
      conflicts := 0;
      while conflicts < WATCH_ATTEMPTS
        invariant conflicts <= WATCH_ATTEMPTS
        invariant key == BeforeAttempt(old(key), nowMs, others, conflicts)
        invariant AllConflict(old(key), nowMs, maximum, others, conflicts)
      {
        ok := Attempt(token, maximum, nowMs, serverNow, others[conflicts]);
        if ok.Some? {
          return;
        }
        conflicts := conflicts + 1;
      }
      return None, conflicts;
    }

    method Release(token: Token)
      modifies this
      ensures key == Remove(old(key), token)
      ensures forall t :: t in key.members <==> t in old(key).members && t != token
      ensures forall t :: t in key.members ==> key.members[t] == old(key).members[t]
    {
      if token in key.members {
        key := key.(members := key.members - {token}, version := key.version + 1);
      }
    }

    method Current(nowMs: int) returns (n: nat)
      modifies this
      ensures key == Purge(old(key), nowMs) && n == |Unexpired(old(key).members, nowMs)|
    {
      key := Purge(key, nowMs);
      n := |key.members|;
    }
  }

  // ------------------------------------------------------- many workers, one key

  datatype Worker =
    | Ready(token: Token, stamp: int, tries: nat)  // token drawn and clock read
    | Watched(token: Token, stamp: int, tries: nat, seen: nat)
    | Purged(token: Token, stamp: int, tries: nat, seen: nat)
    | Counted(token: Token, stamp: int, tries: nat, seen: nat)  // saw a count below the maximum
    | Holding(token: Token, expiry: int)
    | Done  // refused, failed or released

  datatype System = System(clock: int, key: ZKey, workers: map<nat, Worker>, used: set<Token>)

  datatype Config = Config(ttl: int, maximum: int)

  predicate ValidConfig(c: Config) {
    c.ttl >= 1000 && c.maximum > 0
  }

  datatype Step =
    | Tick(ms: nat)
    | Begin(w: nat, drawn: Token)
    | Eval(w: nat)
    | Watch(w: nat)
    | PurgeOnce(w: nat)
    | Count(w: nat)
    | Exec(w: nat)
    | GiveUp(w: nat)
    | Release(w: nat)
    | ReleaseLost(w: nat)  // the ZREM failed: the exception is logged and swallowed
    | ReadCurrent(stamp: int)
    | ExpireKey

  predicate Enabled(c: Config, s: System, step: Step) {
    match step
    case Tick(_) => true
    case Begin(w, drawn) => w !in s.workers && drawn !in s.used
    case Eval(w) => w in s.workers && s.workers[w].Ready? && s.workers[w].tries == 0
    case Watch(w) => w in s.workers && s.workers[w].Ready? && s.workers[w].tries < WATCH_ATTEMPTS
    case PurgeOnce(w) => w in s.workers && s.workers[w].Watched?
    case Count(w) => w in s.workers && s.workers[w].Purged?
    case Exec(w) => w in s.workers && s.workers[w].Counted?
    case GiveUp(w) => w in s.workers && s.workers[w].Ready? && s.workers[w].tries >= WATCH_ATTEMPTS
    case Release(w) => w in s.workers && s.workers[w].Holding?
    case ReleaseLost(w) => w in s.workers && s.workers[w].Holding?
    case ReadCurrent(stamp) => stamp <= s.clock
    case ExpireKey => s.key.deadline <= s.clock
  }

  function Do(c: Config, s: System, step: Step): System
    requires Enabled(c, s, step)
  {
    match step
    case Tick(ms) => s.(clock := s.clock + ms)
    case Begin(w, drawn) => s.(workers := s.workers[w := Ready(drawn, s.clock, 0)], used := s.used + {drawn})
    case Eval(w) =>
      var a := s.workers[w];
      var (key, ok) := Acquire(s.key, a.token, a.stamp, c.ttl, c.maximum, s.clock);
      s.(key := key, workers := s.workers[w := if ok then Holding(a.token, a.stamp + c.ttl) else Done])
    case Watch(w) =>
      var a := s.workers[w];
      s.(workers := s.workers[w := Watched(a.token, a.stamp, a.tries, s.key.version)])
    case PurgeOnce(w) =>
      var a := s.workers[w];
      s.(key := Purge(s.key, a.stamp), workers := s.workers[w := Purged(a.token, a.stamp, a.tries, a.seen)])
    case Count(w) =>
      var a := s.workers[w];
      s.(workers := s.workers[w := if |s.key.members| >= c.maximum then Done
                                   else Counted(a.token, a.stamp, a.tries, a.seen)])
    case Exec(w) =>
      var a := s.workers[w];
      if s.key.version == a.seen then
        s.(key := Add(s.key, a.token, a.stamp + c.ttl, c.ttl, s.clock),
           workers := s.workers[w := Holding(a.token, a.stamp + c.ttl)])
      else s.(workers := s.workers[w := Ready(a.token, a.stamp, a.tries + 1)])
    case GiveUp(w) => s.(workers := s.workers[w := Done])
    case Release(w) => s.(key := Remove(s.key, s.workers[w].token), workers := s.workers[w := Done])
    case ReleaseLost(w) => s.(workers := s.workers[w := Done])
    case ReadCurrent(stamp) => s.(key := Purge(s.key, stamp))
    case ExpireKey => s.(key := s.key.(members := map[], version := s.key.version + 1))
  }

  ghost predicate IsRun(c: Config, run: seq<System>) {
    && run != []
    && run[0] == System(run[0].clock, ZKey(map[], 0, 0), map[], {})
    && forall i :: 0 <= i < |run| - 1 ==> CanStep(c, run[i], run[i + 1])
  }

  ghost predicate CanStep(c: Config, s: System, s': System) {
    exists step :: Enabled(c, s, step) && s' == Do(c, s, step)
  }

  /** A worker holding a lease that has neither been released nor run out. */
  predicate IsLive(s: System, w: nat) {
    w in s.workers && s.workers[w].Holding? && s.workers[w].expiry > s.clock
  }

  function LiveHolders(s: System): set<nat> {
    set w | w in s.workers && IsLive(s, w)
  }

  ghost predicate Inv(c: Config, s: System) {
    && |s.key.members| <= c.maximum
    && (forall t :: t in s.key.members ==> s.key.members[t] <= Min(s.key.deadline, s.clock + c.ttl) && t in s.used)
    && (forall w :: w in s.workers ==> WorkerInv(c, s, w))
    && (forall w, v :: w in s.workers && v in s.workers && w != v && !s.workers[w].Done? && !s.workers[v].Done? ==>
          s.workers[w].token != s.workers[v].token)
  }

  ghost predicate WorkerInv(c: Config, s: System, w: nat)
    requires w in s.workers
  {
    var a := s.workers[w];
    && (!a.Done? ==> a.token in s.used)
    && (IsLive(s, w) ==> a.token in s.key.members && s.key.members[a.token] == a.expiry)
    && (a.Holding? && a.token in s.key.members ==> s.key.members[a.token] == a.expiry)
    && (!a.Done? && !a.Holding? ==> a.stamp <= s.clock)
    && (a.Watched? || a.Purged? || a.Counted? ==> a.seen <= s.key.version)
    && (a.Counted? && a.seen == s.key.version ==> |s.key.members| < c.maximum)
  }

  lemma ExpiryCoversTtl(ttl: int)
    ensures 1000 * ExpireSeconds(ttl) >= ttl
  {
  }

  lemma SubsetSize<T>(a: set<T>, b: set<T>)
    requires a <= b
    ensures |a| <= |b|
  {
    assert b == a + (b - a);
  }

  lemma AddSize(m: map<Token, int>, t: Token, score: int)
    ensures |m[t := score]| <= |m| + 1
  {
    assert m[t := score].Keys == m.Keys + {t};
  }

  lemma KeyCommandKeepsInv(c: Config, s: System, s': System)
    requires Inv(c, s) && s' == s.(key := s'.key) && s'.key.deadline == s.key.deadline
    requires s.key.version <= s'.key.version
    requires s'.key.members.Keys <= s.key.members.Keys
    requires forall t :: t in s'.key.members ==> s'.key.members[t] == s.key.members[t]
    requires forall w :: IsLive(s, w) ==> s.workers[w].token in s'.key.members
    ensures Inv(c, s')
  {
    SubsetSize(s'.key.members.Keys, s.key.members.Keys);
    forall w | w in s'.workers ensures WorkerInv(c, s', w) {
      assert WorkerInv(c, s, w) && IsLive(s', w) == IsLive(s, w);
    }
  }

  lemma PurgeKeepsInv(c: Config, s: System, stamp: int)
    requires Inv(c, s) && stamp <= s.clock
    ensures Inv(c, s.(key := Purge(s.key, stamp)))
  {
    forall w | IsLive(s, w) ensures s.workers[w].token in Purge(s.key, stamp).members {
      assert WorkerInv(c, s, w);
    }
    KeyCommandKeepsInv(c, s, s.(key := Purge(s.key, stamp)));
  }

  /** Moving one worker to a phase whose own invariant holds keeps the invariant. */
  lemma WorkerMoveKeepsInv(c: Config, s: System, w: nat, a: Worker)
    requires Inv(c, s) && w in s.workers
    requires a.Done? || (!s.workers[w].Done? && a.token == s.workers[w].token)
    requires WorkerInv(c, s.(workers := s.workers[w := a]), w)
    ensures Inv(c, s.(workers := s.workers[w := a]))
  {
    var s' := s.(workers := s.workers[w := a]);
    forall v | v in s'.workers ensures WorkerInv(c, s', v) {
      if v != w {
        assert WorkerInv(c, s, v) && IsLive(s', v) == IsLive(s, v);
      }
    }
  }

  /** The lease is added and handed out. */
  function Granted(c: Config, s: System, w: nat): System
    requires w in s.workers && !s.workers[w].Done? && !s.workers[w].Holding?
  {
    var a := s.workers[w];
    s.(key := Add(s.key, a.token, a.stamp + c.ttl, c.ttl, s.clock),
       workers := s.workers[w := Holding(a.token, a.stamp + c.ttl)])
  }

  lemma GrantKeepsInv(c: Config, s: System, w: nat)
    requires ValidConfig(c) && Inv(c, s) && w in s.workers
    requires !s.workers[w].Done? && !s.workers[w].Holding?
    requires |s.key.members| < c.maximum
    ensures Inv(c, Granted(c, s, w))
  {
    var a := s.workers[w];
    assert WorkerInv(c, s, w);
    var s' := Granted(c, s, w);
    ExpiryCoversTtl(c.ttl);
    AddSize(s.key.members, a.token, a.stamp + c.ttl);
    forall v | v in s'.workers ensures WorkerInv(c, s', v) {
      if v != w {
        assert WorkerInv(c, s, v) && IsLive(s', v) == IsLive(s, v);
      }
    }
  }

  lemma TickKeepsInv(c: Config, s: System, ms: nat)
    requires Inv(c, s)
    ensures Inv(c, s.(clock := s.clock + ms))
  {
    var s' := s.(clock := s.clock + ms);
    forall w | w in s'.workers ensures WorkerInv(c, s', w) {
      assert WorkerInv(c, s, w);
    }
  }

  lemma BeginKeepsInv(c: Config, s: System, w: nat, drawn: Token)
    requires Inv(c, s) && Enabled(c, s, Begin(w, drawn))
    ensures Inv(c, Do(c, s, Begin(w, drawn)))
  {
    var s' := Do(c, s, Begin(w, drawn));
    forall v | v in s'.workers ensures WorkerInv(c, s', v) {
      if v != w {
        assert WorkerInv(c, s, v) && IsLive(s', v) == IsLive(s, v);
      }
    }
    forall v | v in s.workers && !s.workers[v].Done? ensures s.workers[v].token != drawn {
      assert WorkerInv(c, s, v);
    }
  }

  lemma ReleaseKeepsInv(c: Config, s: System, w: nat)
    requires Inv(c, s) && Enabled(c, s, Release(w))
    ensures Inv(c, Do(c, s, Release(w)))
  {
    var s' := Do(c, s, Release(w));
    WorkerMoveKeepsInv(c, s, w, Done);
    var s1 := s.(workers := s'.workers);
    forall v | IsLive(s1, v) ensures s1.workers[v].token in s'.key.members {
      assert WorkerInv(c, s, v) && IsLive(s, v);
    }
    KeyCommandKeepsInv(c, s1, s');
  }

  lemma NoneLiveAtDeadline(c: Config, s: System)
    requires Inv(c, s) && s.key.deadline <= s.clock
    ensures forall w :: !IsLive(s, w)
  {
    assert forall w :: w in s.workers ==> WorkerInv(c, s, w);
  }

  lemma StepKeepsInv(c: Config, s: System, step: Step)
    requires ValidConfig(c) && Inv(c, s) && Enabled(c, s, step)
    ensures Inv(c, Do(c, s, step))
  {
    match step
    case Tick(ms) => TickKeepsInv(c, s, ms);
    case Begin(w, drawn) => BeginKeepsInv(c, s, w, drawn);
    case Release(w) => ReleaseKeepsInv(c, s, w);
    case ReadCurrent(stamp) => PurgeKeepsInv(c, s, stamp);
    case ExpireKey =>
      NoneLiveAtDeadline(c, s);
      KeyCommandKeepsInv(c, s, Do(c, s, step));
    case Eval(w) => EvalKeepsInv(c, s, w, Do(c, s, step));
    case PurgeOnce(w) => PurgeOnceKeepsInv(c, s, w, Do(c, s, step));
    case Exec(w) =>
      if s.key.version == s.workers[w].seen {
        ExecKeepsInv(c, s, w, Do(c, s, step));
      } else {
        PhaseStepKeepsInv(c, s, w, step);
      }
    case _ => PhaseStepKeepsInv(c, s, step.w, step);
  }

  /** The script as a purge followed by a grant or a refusal. */
  lemma EvalInSteps(c: Config, s: System, w: nat)
    requires Enabled(c, s, Eval(w))
    ensures var a := s.workers[w];
            var s1 := s.(key := Purge(s.key, a.stamp));
            Do(c, s, Eval(w)) ==
            if |s1.key.members| >= c.maximum then s1.(workers := s1.workers[w := Done]) else Granted(c, s1, w)
  {
  }

  lemma EvalKeepsInv(c: Config, s: System, w: nat, s': System)
    requires ValidConfig(c) && Inv(c, s) && Enabled(c, s, Eval(w)) && s' == Do(c, s, Eval(w))
    ensures Inv(c, s')
  {
    var stamp := s.workers[w].stamp;
    assert stamp <= s.clock by {
      assert WorkerInv(c, s, w);
    }
    EvalInSteps(c, s, w);
    PurgeKeepsInv(c, s, stamp);
    PurgedEvalKeepsInv(c, s.(key := Purge(s.key, stamp)), w, s');
  }

  lemma PurgedEvalKeepsInv(c: Config, s: System, w: nat, s': System)
    requires ValidConfig(c) && Inv(c, s) && w in s.workers && s.workers[w].Ready?
    requires s' == if |s.key.members| >= c.maximum then s.(workers := s.workers[w := Done]) else Granted(c, s, w)
    ensures Inv(c, s')
  {
    if |s.key.members| >= c.maximum {
      RefuseKeepsInv(c, s, w);
    } else {
      GrantKeepsInv(c, s, w);
    }
  }

  lemma RefuseKeepsInv(c: Config, s: System, w: nat)
    requires Inv(c, s) && w in s.workers
    ensures Inv(c, s.(workers := s.workers[w := Done]))
  {
    WorkerMoveKeepsInv(c, s, w, Done);
  }

  lemma ExecKeepsInv(c: Config, s: System, w: nat, s': System)
    requires ValidConfig(c) && Inv(c, s) && Enabled(c, s, Exec(w)) && s.key.version == s.workers[w].seen
    requires s' == Do(c, s, Exec(w))
    ensures Inv(c, s')
  {
    assert WorkerInv(c, s, w);
    assert s' == Granted(c, s, w);
    GrantKeepsInv(c, s, w);
  }

  lemma PurgeOnceKeepsInv(c: Config, s: System, w: nat, s': System)
    requires ValidConfig(c) && Inv(c, s) && Enabled(c, s, PurgeOnce(w)) && s' == Do(c, s, PurgeOnce(w))
    ensures Inv(c, s')
  {
    assert WorkerInv(c, s, w);
    PurgeKeepsInv(c, s, s.workers[w].stamp);
    WorkerMoveKeepsInv(c, s.(key := s'.key), w, s'.workers[w]);
  }

  lemma PhaseStepKeepsInv(c: Config, s: System, w: nat, step: Step)
    requires ValidConfig(c) && Inv(c, s) && Enabled(c, s, step)
    requires step in {Watch(w), Count(w), Exec(w), GiveUp(w), ReleaseLost(w)}
    requires step.Exec? ==> s.key.version != s.workers[w].seen
    ensures Inv(c, Do(c, s, step))
  {
    assert WorkerInv(c, s, w);
    WorkerMoveKeepsInv(c, s, w, Do(c, s, step).workers[w]);
  }

  lemma {:induction false} RunKeepsInv(c: Config, run: seq<System>, i: nat)
    requires ValidConfig(c) && IsRun(c, run) && i < |run|
    ensures Inv(c, run[i])
  {
    if i > 0 {
      RunKeepsInv(c, run, i - 1);
      assert CanStep(c, run[i - 1], run[i - 1 + 1]);
      var step :| Enabled(c, run[i - 1], step) && run[i] == Do(c, run[i - 1], step);
      StepKeepsInv(c, run[i - 1], step);
    }
  }

  /** Injective images keep their size: one token per live holder. */
  lemma {:induction false} HoldersAreMembers(c: Config, s: System, ws: set<nat>)
    requires Inv(c, s) && ws <= LiveHolders(s)
    ensures |ws| <= |set w | w in ws :: s.workers[w].token|
    ensures (set w | w in ws :: s.workers[w].token) <= s.key.members.Keys
  {
    var tokens := set w | w in ws :: s.workers[w].token;
    if ws != {} {
      var w :| w in ws;
      assert IsLive(s, w) && WorkerInv(c, s, w);
      HoldersAreMembers(c, s, ws - {w});
      var rest := set v | v in ws - {w} :: s.workers[v].token;
      assert tokens == rest + {s.workers[w].token};
      assert forall v :: v in ws ==> IsLive(s, v);
    }
  }

  /** In every run of competing workers, on either path, live leases never exceed the maximum. */
  lemma LiveLeasesBounded(c: Config, run: seq<System>, i: nat)
    requires ValidConfig(c) && IsRun(c, run) && i < |run|
    ensures |LiveHolders(run[i])| <= c.maximum
  {
    RunKeepsInv(c, run, i);
    var s := run[i];
    HoldersAreMembers(c, s, LiveHolders(s));
    SubsetSize(set w | w in LiveHolders(s) :: s.workers[w].token, s.key.members.Keys);
  }

  /** A release takes away its own token and no other; released after it was purged, it changes nothing on the
      server. */
  lemma ReleaseIsLocal(c: Config, run: seq<System>, i: nat, w: nat)
    requires ValidConfig(c) && IsRun(c, run) && i < |run| && Enabled(c, run[i], Release(w))
    ensures var s, s' := run[i], Do(c, run[i], Release(w));
            && LiveHolders(s') == LiveHolders(s) - {w}
            && (forall t :: t in s'.key.members <==> t in s.key.members && t != s.workers[w].token)
            && (forall v :: v in LiveHolders(s) && v != w ==>
                  s.workers[v].token in s'.key.members && s'.key.members[s.workers[v].token] == s.workers[v].expiry)
            && (s.workers[w].token !in s.key.members ==> s'.key == s.key)
  {
    var s, s' := run[i], Do(c, run[i], Release(w));
    RunKeepsInv(c, run, i);
    StepKeepsInv(c, s, Release(w));
    assert forall v :: IsLive(s', v) <==> IsLive(s, v) && v != w;
    forall v | v in LiveHolders(s) && v != w
      ensures s.workers[v].token in s'.key.members && s'.key.members[s.workers[v].token] == s.workers[v].expiry
    {
      assert WorkerInv(c, s', v);
    }
  }

  /** Mutual exclusion is handed on: when the maximum is filled at a caller's stamp and one holder whose token is among
      the unexpired gives its lease back, an acquire with that stamp, refused before, is granted. */
  lemma ReleaseMakesRoom(c: Config, run: seq<System>, i: nat, w: nat, drawn: Token, stamp: int)
    requires ValidConfig(c) && IsRun(c, run) && i < |run| && Enabled(c, run[i], Release(w))
    requires var s := run[i];
             && s.workers[w].token in s.key.members && s.key.members[s.workers[w].token] > stamp
             && |Live(s.key, stamp)| >= c.maximum
    ensures var s, s' := run[i], Do(c, run[i], Release(w));
            && !Acquire(s.key, drawn, stamp, c.ttl, c.maximum, s.clock).1
            && var (key, ok) := Acquire(s'.key, drawn, stamp, c.ttl, c.maximum, s'.clock);
               ok && drawn in key.members && key.members[drawn] == stamp + c.ttl
  {
    RunKeepsInv(c, run, i);
    var s, token := run[i], run[i].workers[w].token;
    assert |s.key.members| <= c.maximum;
    OneFewer(s.key, token, stamp);
    RefusalMeansFull(s.key, drawn, stamp, c.ttl, c.maximum, s.clock);
    RefusalMeansFull(Remove(s.key, token), drawn, stamp, c.ttl, c.maximum, s.clock);
  }

  lemma OneFewer(z: ZKey, token: Token, stamp: int)
    requires token in z.members && z.members[token] > stamp
    ensures |Live(Remove(z, token), stamp)| == |Live(z, stamp)| - 1
    ensures |Live(z, stamp)| <= |z.members|
  {
    assert Live(z, stamp) == Live(Remove(z, token), stamp) + {token};
    SubsetSize(Live(z, stamp), z.members.Keys);
  }

  /** The whole-key EXPIRE fires only when no lease on the key is live, and so drops none. */
  lemma ExpireDropsNoLiveLease(c: Config, run: seq<System>, i: nat)
    requires ValidConfig(c) && IsRun(c, run) && i < |run| && Enabled(c, run[i], ExpireKey)
    ensures LiveHolders(run[i]) == {}
  {
    RunKeepsInv(c, run, i);
    NoneLiveAtDeadline(c, run[i]);
  }

  /** A run together with its steps. */
  ghost predicate IsHistory(c: Config, run: seq<System>, steps: seq<Step>) {
    && IsRun(c, run) && |steps| == |run| - 1
    && forall n :: 0 <= n < |steps| ==> Enabled(c, run[n], steps[n]) && run[n + 1] == Do(c, run[n], steps[n])
  }

  lemma HolderStays(c: Config, s: System, step: Step, w: nat)
    requires Enabled(c, s, step) && w in s.workers && s.workers[w].Holding? && step != Release(w)
             && step != ReleaseLost(w)
    ensures var s' := Do(c, s, step); w in s'.workers && s'.workers[w] == s.workers[w] && s.clock <= s'.clock
  {
  }

  lemma {:induction false} HolderKeeps(c: Config, run: seq<System>, steps: seq<Step>, i: nat, j: nat, w: nat)
    requires ValidConfig(c) && IsHistory(c, run, steps) && i <= j < |run|
    requires w in run[i].workers && run[i].workers[w].Holding?
    requires forall n :: i <= n < j ==> steps[n] != Release(w) && steps[n] != ReleaseLost(w)
    ensures w in run[j].workers && run[j].workers[w] == run[i].workers[w]
    decreases j
  {
    if i < j {
      HolderKeeps(c, run, steps, i, j - 1, w);
      HolderStays(c, run[j - 1], steps[j - 1], w);
    }
  }

  /** A lease that is never given back, as when the rate limiter raises after it was taken, holds its slot exactly until
      its TTL is over; from then on it is not live, and the next purge takes it away. */
  lemma LostLeaseLastsItsTtl(c: Config, run: seq<System>, steps: seq<Step>, i: nat, j: nat, w: nat)
    requires ValidConfig(c) && IsHistory(c, run, steps) && i <= j < |run|
    requires w in run[i].workers && run[i].workers[w].Holding?
    requires forall n :: i <= n < j ==> steps[n] != Release(w) && steps[n] != ReleaseLost(w)
    ensures var a, s := run[i].workers[w], run[j];
            && (IsLive(s, w) <==> s.clock < a.expiry)
            && (s.clock < a.expiry ==> a.token in s.key.members && s.key.members[a.token] == a.expiry)
            && (s.clock >= a.expiry ==> a.token !in Purge(s.key, s.clock).members)
  {
    HolderKeeps(c, run, steps, i, j, w);
    RunKeepsInv(c, run, j);
    assert WorkerInv(c, run[j], w);
  }
}

/** What Forwarder.forward of app/core/forwarder.py promises: the keys its pool loop and its pinned loop turn to, what
    each turn leaves behind, and the result. */
module Failover {
  import opened Prelude
  import opened Keys
  import C = Concurrency
  import F = FailureMemory
  import L = KeyLifecycle
  import S = Scheduling

  /** classify_upstream_outcome */
  datatype Outcome = Ok | Credit | RateLimit | InvalidKey | Upstream5xx | Passthrough

  datatype Upstream = Upstream(status: int, outcome: Outcome, retryAfter: Option<int>)

  /** `Crash` is an exception the HTTP client does not raise itself. */
  datatype Http = Timeout | HttpError | Crash | Answer(resp: Upstream)

  datatype Probed = Probed(probe: L.Probe, next: Option<real>)

  datatype Gate = Allows | Denies | Raises

  /** Everything one turn of the loop learns from outside.  The limiter, the lease backend, the lookup of a pinned key
      and the quota bookkeeping after a success may raise. */
  datatype World = World(now: real, chance: S.Chance, storeRemaining: int -> Option<int>, peek: (int, int) -> bool,
                         lookupOk: bool, limiter: Gate, leaseRaises: bool, decryptOk: bool, http: Http,
                         probed: Option<Probed>, cost: Option<int>, quotaRaises: bool)

  datatype Config = Config(cooldownSeconds: int, failureWindow: real, failureThreshold: int, failedCooldown: int)

  /** How far the loop got with a key. */
  datatype Turn = Denied | Busy | Undecryptable | TimedOut | HttpFailed | Crashed | Answered(resp: Upstream)

  /** A key the loop turned to. */
  datatype Visit = Visit(id: int, turn: Turn)

  datatype Error =
    | AllKeysBusy
    | KeyDecryptFailed
    | UpstreamTimeout
    | UpstreamUnavailable
    | Unhandled  // an exception of the database, a backend or the request passes through
    | SelectFailed(failure: S.Failure)
    | LoopExhausted  // the raise after the loop

  datatype Result = Returned(resp: Upstream, apiKeyId: int, retryCount: int) | Raised(error: Error)

  /** _client_retry_budget: one attempt more than the retries the client is allowed, or, if it has no setting of its
      own, the provider allows. */
  function RetryBudget(clientMax: Option<int>, providerMax: int): (n: nat)
    ensures n >= 1
    ensures var retries := if clientMax.Some? then clientMax.value else providerMax;
            n - 1 == retries || (n == 1 && retries < 0)
  {
    match clientMax
    case None => Max(providerMax, 0) + 1
    case Some(m) => Max(m, 0) + 1
  }

  predicate Retryable(o: Outcome) {
    o.RateLimit? || o.Credit? || o.InvalidKey?
  }

  /** Only these statuses lower the score of a key. */
  predicate Attributable(status: int) {
    status == 401 || status == 402 || status == 429
  }

  function Sent(h: Http): Turn {
    match h
    case Timeout => TimedOut
    case HttpError => HttpFailed
    case Crash => Crashed
    case Answer(resp) => Answered(resp)
  }

  /** How far a turn gets, `full` telling whether the key's leases are all taken. */
  function Reached(w: World, full: bool): Turn {
    if w.limiter.Raises? then Crashed
    else if w.limiter.Denies? then Denied
    else if w.leaseRaises then Crashed
    else if full then Busy
    else if !w.decryptOk then Undecryptable
    else Sent(w.http)
  }

  /** The turn the outside world makes of it: the quota bookkeeping after a success may still raise. */
  function TurnOf(w: World, full: bool): Turn {
    var turn := Reached(w, full);
    if turn.Answered? && turn.resp.outcome == Ok && w.quotaRaises then Crashed else turn
  }

  /** When each kind of turn comes about. */
  lemma TurnMeaning(w: World, full: bool)
    ensures var turn, passes := TurnOf(w, full), w.limiter.Allows? && !w.leaseRaises;
            var sends := passes && !full && w.decryptOk;
            && (turn == Denied <==> w.limiter.Denies?)
            && (turn == Busy <==> passes && full)
            && (turn == Undecryptable <==> passes && !full && !w.decryptOk)
            && (turn == TimedOut <==> sends && w.http.Timeout?)
            && (turn == HttpFailed <==> sends && w.http.HttpError?)
            && (turn.Answered? <==> sends && w.http.Answer? && (w.http.resp.outcome == Ok ==> !w.quotaRaises))
            && (turn.Answered? ==> turn.resp == w.http.resp)
  {
  }

  /** The keys whose leases are all taken by other calls. */
  ghost function FullKeys(rows: seq<ApiKey>, outstanding: set<C.Lease>, name: int -> string): set<int> {
    set k | k in rows && k.maxConcurrent > 0 && |C.HoldersOf(outstanding, name(k.id))| >= k.maxConcurrent :: k.id
  }

  lemma FullMeaning(rows: seq<ApiKey>, at: nat, outstanding: set<C.Lease>, name: int -> string)
    requires InIdOrder(rows) && at < |rows|
    ensures var k := rows[at];
            k.id in FullKeys(rows, outstanding, name)
            <==> k.maxConcurrent > 0 && |C.HoldersOf(outstanding, name(k.id))| >= k.maxConcurrent
  {
    var k := rows[at];
    if k.id in FullKeys(rows, outstanding, name) {
      var same :| same in rows && same.id == k.id && same.maxConcurrent > 0
                  && |C.HoldersOf(outstanding, name(same.id))| >= same.maxConcurrent;
      var i :| 0 <= i < |rows| && rows[i] == same;
      assert i == at;
    }
  }

  // -------------------------------------------------------------------- rows

  function WithAction(rows: seq<ApiKey>, id: int, a: L.Action): (r: seq<ApiKey>)
    ensures |r| == |rows|
    ensures forall i :: 0 <= i < |rows| ==> r[i] == if rows[i].id == id then L.Act(rows[i], a) else rows[i]
  {
    seq(|rows|, i requires 0 <= i < |rows| => if rows[i].id == id then L.Act(rows[i], a) else rows[i])
  }

  /** The same keys; none has been revived, no terminal key left active, and the rows of `kept` are unchanged. */
  ghost predicate Evolved(before: seq<ApiKey>, after: seq<ApiKey>, kept: set<int>) {
    && |after| == |before|
    && forall i :: 0 <= i < |after| ==> KeyEvolved(before[i], after[i], kept)
  }

  predicate KeyEvolved(k: ApiKey, k': ApiKey, kept: set<int>) {
    && k'.id == k.id && k'.provider == k.provider && k'.maxConcurrent == k.maxConcurrent
    && (k'.isActive ==> k.isActive)
    && (Sane(k) ==> Sane(k'))
    && (k.id in kept ==> k' == k)
  }

  lemma ActionEvolves(rows: seq<ApiKey>, id: int, a: L.Action, kept: set<int>)
    requires id !in kept
    ensures Evolved(rows, WithAction(rows, id, a), kept)
  {
    forall i | 0 <= i < |rows| ensures KeyEvolved(rows[i], WithAction(rows, id, a)[i], kept) {
      L.ActionsNeverRevive(rows[i], a);
    }
  }

  lemma EvolvedTransitive(a: seq<ApiKey>, b: seq<ApiKey>, c: seq<ApiKey>, kept: set<int>, fewer: set<int>)
    requires Evolved(a, b, fewer) && Evolved(b, c, kept) && fewer <= kept
    ensures Evolved(a, c, fewer)
  {
    forall i | 0 <= i < |c| ensures KeyEvolved(a[i], c[i], fewer) {
      assert KeyEvolved(a[i], b[i], fewer) && KeyEvolved(b[i], c[i], kept);
    }
  }

  lemma EvolvedSame(a: seq<ApiKey>, b: seq<ApiKey>, c: seq<ApiKey>, kept: set<int>)
    requires a == b && Evolved(b, c, kept)
    ensures Evolved(a, c, kept)
  {
  }

  lemma EvolvedKeepsOrder(a: seq<ApiKey>, b: seq<ApiKey>, kept: set<int>)
    requires Evolved(a, b, kept) && InIdOrder(a)
    ensures InIdOrder(b)
  {
    assert forall i :: 0 <= i < |b| ==> KeyEvolved(a[i], b[i], kept);
  }

  lemma FullStays(a: seq<ApiKey>, b: seq<ApiKey>, kept: set<int>, outstanding: set<C.Lease>, name: int -> string)
    requires Evolved(a, b, kept)
    ensures FullKeys(a, outstanding, name) == FullKeys(b, outstanding, name)
  {
    forall k | k in a ensures exists k' :: k' in b && k'.id == k.id && k'.maxConcurrent == k.maxConcurrent {
      var i :| 0 <= i < |a| && a[i] == k;
      assert KeyEvolved(a[i], b[i], kept) && b[i] in b;
    }
    forall k' | k' in b ensures exists k :: k in a && k'.id == k.id && k'.maxConcurrent == k.maxConcurrent {
      var i :| 0 <= i < |b| && b[i] == k';
      assert KeyEvolved(a[i], b[i], kept) && a[i] in a;
    }
  }

  /** Outside `but` a row is what it was, or has had its ended cooldown cleared. */
  ghost predicate Settling(before: seq<ApiKey>, after: seq<ApiKey>, but: set<int>) {
    && |after| == |before|
    && forall i :: 0 <= i < |after| ==>
         before[i].id in but || after[i] == before[i] || after[i] == EndCooldown(before[i])
  }

  lemma SettlingGoesOn(a: seq<ApiKey>, b: seq<ApiKey>, c: seq<ApiKey>, but: set<int>, more: set<int>)
    requires Settling(a, b, but) && Settling(b, c, more) && Evolved(a, b, {})
    ensures Settling(a, c, but + more)
  {
    forall i | 0 <= i < |c| && a[i].id !in but + more ensures c[i] == a[i] || c[i] == EndCooldown(a[i]) {
      assert KeyEvolved(a[i], b[i], {});
    }
  }

  lemma SettledEvolves(a: seq<ApiKey>, b: seq<ApiKey>, q: S.Look)
    requires b == a || S.SettledTo(a, b, q, |b|)
    ensures Evolved(a, b, q.exclude) && Settling(a, b, {})
  {
    if b != a {
      forall i | 0 <= i < |b| ensures KeyEvolved(a[i], b[i], q.exclude) {
        assert b[i] == S.Settled(a[i], q);
      }
    }
  }

  /** The scan finds a settled row exactly as it found it before. */
  lemma SettledTag(k: ApiKey, q: S.Look)
    ensures var s := S.Settled(k, q);
            && S.TagOf(s, q) == S.TagOf(k, q) && IsDisabled(s) == IsDisabled(k) && s.provider == k.provider
            && (S.TagOf(k, q) == S.OnCooldown ==> s == k)
  {
  }

  /** Same keys, same tags. */
  ghost predicate SameTags(a: seq<ApiKey>, b: seq<ApiKey>, q: S.Look) {
    forall k :: k in a ==> exists s :: s in b && TagsAlike(k, s, q)
  }

  predicate TagsAlike(k: ApiKey, s: ApiKey, q: S.Look) {
    && s.provider == k.provider && S.TagOf(s, q) == S.TagOf(k, q) && IsDisabled(s) == IsDisabled(k)
    && (S.TagOf(k, q) == S.OnCooldown ==> S.Remaining(s, q) == S.Remaining(k, q))
  }

  lemma SettledTagsForth(a: seq<ApiKey>, b: seq<ApiKey>, q: S.Look)
    requires b == a || S.SettledTo(a, b, q, |b|)
    ensures SameTags(a, b, q)
  {
    forall k | k in a ensures exists s :: s in b && TagsAlike(k, s, q) {
      var i :| 0 <= i < |a| && a[i] == k;
      SettledTag(k, q);
      assert b[i] in b && TagsAlike(k, b[i], q);
    }
  }

  lemma SettledTagsBack(a: seq<ApiKey>, b: seq<ApiKey>, q: S.Look)
    requires b == a || S.SettledTo(a, b, q, |b|)
    ensures SameTags(b, a, q)
  {
    forall s | s in b ensures exists k :: k in a && TagsAlike(s, k, q) {
      var i :| 0 <= i < |b| && b[i] == s;
      SettledTag(a[i], q);
      assert a[i] in a && TagsAlike(s, a[i], q);
    }
  }

  /** What an explanation is made of, apart from the least cooldown. */
  ghost predicate Grounds(a: seq<ApiKey>, b: seq<ApiKey>, q: S.Look) {
    && (S.AnyRow(a, q.provider) ==> S.AnyRow(b, q.provider))
    && (S.AnyEnabled(a, q.provider) ==> S.AnyEnabled(b, q.provider))
    && (forall t :: S.AnyTagged(a, q, t) ==> S.AnyTagged(b, q, t))
    && (S.OnlyTags(b, q, {S.Excluded}) ==> S.OnlyTags(a, q, {S.Excluded}))
    && (S.OnlyTags(b, q, {S.Excluded, S.Off}) ==> S.OnlyTags(a, q, {S.Excluded, S.Off}))
    && (S.OnlyTags(b, q, {S.Excluded, S.Off, S.NoCredits}) ==> S.OnlyTags(a, q, {S.Excluded, S.Off, S.NoCredits}))
  }

  lemma AlikeGrounds(a: seq<ApiKey>, b: seq<ApiKey>, q: S.Look)
    requires SameTags(a, b, q)
    ensures Grounds(a, b, q)
  {
    forall t | S.AnyTagged(a, q, t) ensures S.AnyTagged(b, q, t) {
      var k :| k in a && k.provider == q.provider && S.TagOf(k, q) == t;
      var s :| s in b && TagsAlike(k, s, q);
    }
  }

  lemma GroundsForth(a: seq<ApiKey>, b: seq<ApiKey>, q: S.Look)
    requires b == a || S.SettledTo(a, b, q, |b|)
    ensures Grounds(a, b, q)
  {
    SettledTagsForth(a, b, q);
    AlikeGrounds(a, b, q);
  }

  lemma GroundsBack(a: seq<ApiKey>, b: seq<ApiKey>, q: S.Look)
    requires b == a || S.SettledTo(a, b, q, |b|)
    ensures Grounds(b, a, q)
  {
    SettledTagsBack(a, b, q);
    AlikeGrounds(b, a, q);
  }

  lemma CooldownStays(a: seq<ApiKey>, b: seq<ApiKey>, q: S.Look, r: int)
    requires (b == a || S.SettledTo(a, b, q, |b|)) && S.LeastCooldown(a, q, r)
    ensures S.LeastCooldown(b, q, r)
  {
    CooldownFound(a, b, q, r);
    forall s | s in b && s.provider == q.provider && S.TagOf(s, q) == S.OnCooldown ensures r <= S.Remaining(s, q) {
      var i :| 0 <= i < |b| && b[i] == s;
      SettledTag(a[i], q);
      assert a[i] in a;
    }
  }

  lemma CooldownFound(a: seq<ApiKey>, b: seq<ApiKey>, q: S.Look, r: int)
    requires (b == a || S.SettledTo(a, b, q, |b|)) && S.LeastCooldown(a, q, r)
    ensures exists k :: k in b && k.provider == q.provider && S.TagOf(k, q) == S.OnCooldown && S.Remaining(k, q) == r
  {
    var k :| k in a && k.provider == q.provider && S.TagOf(k, q) == S.OnCooldown && S.Remaining(k, q) == r;
    var i :| 0 <= i < |a| && a[i] == k;
    SettledTag(k, q);
    assert b[i] in b;
  }

  lemma ExplanationCarries(a: seq<ApiKey>, b: seq<ApiKey>, q: S.Look, ch: S.Chance, f: S.Failure)
    requires Grounds(a, b, q) && Grounds(b, a, q) && S.Explained(a, q, ch, S.Refusal(f))
    requires ch.queryOk && f.AllKeysCooling? ==> S.LeastCooldown(b, q, f.retryAfter)
    ensures S.Explained(b, q, ch, S.Refusal(f))
  {
    assert forall t :: S.AnyTagged(a, q, t) <==> S.AnyTagged(b, q, t);
  }

  /** A refusal is explained by the settled rows as well. */
  lemma RefusalStaysExplained(a: seq<ApiKey>, b: seq<ApiKey>, q: S.Look, ch: S.Chance, f: S.Failure)
    requires (b == a || S.SettledTo(a, b, q, |b|)) && S.Explained(a, q, ch, S.Refusal(f))
    ensures S.Explained(b, q, ch, S.Refusal(f))
  {
    GroundsForth(a, b, q);
    GroundsBack(a, b, q);
    if ch.queryOk && f.AllKeysCooling? {
      CooldownStays(a, b, q, f.retryAfter);
    }
    ExplanationCarries(a, b, q, ch, f);
  }

  /** The key passes every test of the scan. */
  ghost predicate Candidate(rows: seq<ApiKey>, id: int, q: S.Look) {
    exists k :: k in rows && k.id == id && k.provider == q.provider && S.IsEligible(k, q)
  }

  /** What the loop needs to know about a call of select. */
  lemma SelectKeeps(before: seq<ApiKey>, after: seq<ApiKey>, q: S.Look, ch: S.Chance, s: S.Settings, m: F.Memory,
                    cursors: map<string, nat>, selected: S.Selection)
    requires S.Explained(before, q, ch, selected) && S.Chosen(before, q, s, m, cursors, ch, selected)
    requires after == before || S.SettledTo(before, after, q, |after|)
    ensures Evolved(before, after, q.exclude) && Settling(before, after, {})
    ensures selected.Refusal? ==> S.Explained(after, q, ch, selected)
    ensures selected.Selected? ==> Candidate(before, selected.id, q) && exists k :: k in after && k.id == selected.id
  {
    SettledEvolves(before, after, q);
    if selected.Selected? {
      IdsEvolve(before, after, q.exclude, q.provider, selected.id);
    } else {
      RefusalStaysExplained(before, after, q, ch, selected.failure);
    }
  }

  function ProviderIds(rows: seq<ApiKey>, provider: string): set<int> {
    set k | k in rows && k.provider == provider :: k.id
  }

  lemma IdsEvolve(a: seq<ApiKey>, b: seq<ApiKey>, kept: set<int>, provider: string, id: int)
    requires Evolved(a, b, kept)
    ensures id in ProviderIds(b, provider) ==> id in ProviderIds(a, provider)
    ensures (exists k :: k in a && k.id == id) ==> exists k :: k in b && k.id == id
  {
    if id in ProviderIds(b, provider) {
      var k :| k in b && k.provider == provider && k.id == id;
      var i :| 0 <= i < |b| && b[i] == k;
      assert KeyEvolved(a[i], b[i], kept) && a[i] in a;
    }
    if k :| k in a && k.id == id {
      var i :| 0 <= i < |a| && a[i] == k;
      assert KeyEvolved(a[i], b[i], kept) && b[i] in b;
    }
  }

  // ------------------------------------------------------------------- trace

  /** The key is left behind and the loop turns to another one. */
  predicate MovesOn(t: Turn) {
    t.Denied? || t.Busy? || t.Undecryptable? || (t.Answered? && Retryable(t.resp.outcome))
  }

  /** retry-after of the answer, or the configured cooldown when it is absent or zero. */
  function Cooldown(resp: Upstream, config: Config): int {
    if resp.retryAfter.Some? && resp.retryAfter.value > 0 then resp.retryAfter.value else config.cooldownSeconds
  }

  /** The mark a turn that is the key's own fault leaves on its row. */
  predicate Mark(k: ApiKey, turn: Turn, now: real, config: Config) {
    match turn
    case Undecryptable => k.status == DecryptFailed && !k.isActive && k.nextRefresh == None
    case Answered(resp) =>
      match resp.outcome {
        case InvalidKey => k.status == Invalid && !k.isActive && k.nextRefresh == None && k.credits == Some(0)
        case Credit => k.credits == Some(0)
        case RateLimit =>
          || !k.isActive || k.status == Disabled
          || (k.status == Cooling && k.cooldownUntil == Some(now + Cooldown(resp, config) as real))
        case _ => true
      }
    case _ => true
  }

  ghost predicate Marked(rows: seq<ApiKey>, v: Visit, now: real, config: Config) {
    forall k :: k in rows && k.id == v.id ==> Mark(k, v.turn, now, config)
  }

  lemma MarkStays(a: seq<ApiKey>, b: seq<ApiKey>, kept: set<int>, v: Visit, now: real, config: Config)
    requires Evolved(a, b, kept) && v.id in kept && Marked(a, v, now, config)
    ensures Marked(b, v, now, config)
  {
    forall k | k in b && k.id == v.id ensures Mark(k, v.turn, now, config) {
      var i :| 0 <= i < |b| && b[i] == k;
      assert KeyEvolved(a[i], b[i], kept) && a[i] in a;
    }
  }

  /** Upstream attempts. */
  function Answers(trace: seq<Visit>): nat {
    if trace == [] then 0
    else Answers(trace[..|trace| - 1]) + (if trace[|trace| - 1].turn.Answered? then 1 else 0)
  }

  function LastAnswer(trace: seq<Visit>): Option<Upstream> {
    if trace == [] then None
    else if trace[|trace| - 1].turn.Answered? then Some(trace[|trace| - 1].turn.resp)
    else LastAnswer(trace[..|trace| - 1])
  }

  function Ids(trace: seq<Visit>): set<int> {
    set v | v in trace :: v.id
  }

  ghost predicate Distinct(trace: seq<Visit>) {
    forall i, j :: 0 <= i < j < |trace| ==> trace[i].id != trace[j].id
  }

  lemma IdsNext(trace: seq<Visit>, v: Visit)
    ensures Ids(trace + [v]) == Ids(trace) + {v.id}
    ensures (trace + [v])[..|trace|] == trace
  {
    assert forall x :: x in trace + [v] <==> x in trace || x == v;
    assert (trace + [v])[..|trace|] == trace;
  }

  lemma {:induction false} DistinctIds(trace: seq<Visit>)
    requires Distinct(trace)
    ensures |Ids(trace)| == |trace|
  {
    if trace != [] {
      var init, v := trace[..|trace| - 1], trace[|trace| - 1];
      assert trace == init + [v];
      DistinctIds(init);
      IdsNext(init, v);
      forall u | u in init ensures u.id != v.id {
        var i :| 0 <= i < |init| && init[i] == u;
        assert trace[i] == u;
      }
    }
  }

  /** What a call of the loop is given: the keys as they were, the provider, the budget, the outside world turn by turn,
      and the keys whose leases other calls have taken. */
  datatype Call = Call(was: seq<ApiKey>, provider: string, budget: nat, world: nat -> World, config: Config,
                       full: set<int>)

  /** max_selection_tries */
  function MaxTries(budget: nat): nat {
    Max(budget * 20, 50)
  }

  function LookAt(c: Call, tried: set<int>, n: nat): S.Look {
    var w := c.world(n);
    S.Look(c.provider, tried, w.now, w.storeRemaining, w.peek)
  }

  /** The key passed every test of select when the loop turned to it; its row may have had an ended cooldown cleared. */
  ghost predicate Selectable(was: seq<ApiKey>, id: int, q: S.Look) {
    exists k :: k in was && k.id == id && k.provider == q.provider
      && (S.IsEligible(k, q) || S.IsEligible(EndCooldown(k), q))
  }

  lemma StillSelectable(was: seq<ApiKey>, rows: seq<ApiKey>, tried: set<int>, id: int, q: S.Look)
    requires Settling(was, rows, tried) && Evolved(was, rows, {}) && id !in tried && Candidate(rows, id, q)
    ensures Selectable(was, id, q)
  {
    var k :| k in rows && k.id == id && k.provider == q.provider && S.IsEligible(k, q);
    var i :| 0 <= i < |rows| && rows[i] == k;
    assert KeyEvolved(was[i], rows[i], {}) && was[i] in was;
  }

  /** Visit `i` is to a key select could pick, goes as the world makes it go, and has left its mark. */
  ghost predicate Genuine(trace: seq<Visit>, i: nat, c: Call, rows: seq<ApiKey>)
    requires i < |trace|
  {
    && Selectable(c.was, trace[i].id, LookAt(c, Ids(trace[..i]), i))
    && trace[i].turn == TurnOf(c.world(i), trace[i].id in c.full)
    && Marked(rows, trace[i], c.world(i).now, c.config)
  }

  /** Pairwise distinct keys, each visit genuine. */
  ghost predicate Traced(trace: seq<Visit>, c: Call, rows: seq<ApiKey>) {
    Distinct(trace) && forall i :: 0 <= i < |trace| ==> Genuine(trace, i, c, rows)
  }

  /** No key is ever tried twice, so the loop makes at most as many turns as the provider has keys. */
  lemma TurnsFitTheKeys(trace: seq<Visit>, c: Call, rows: seq<ApiKey>)
    requires Traced(trace, c, rows)
    ensures |trace| <= |ProviderIds(c.was, c.provider)|
  {
    DistinctIds(trace);
    var ids, all := Ids(trace), ProviderIds(c.was, c.provider);
    forall id | id in ids ensures id in all {
      var v :| v in trace && v.id == id;
      var i :| 0 <= i < |trace| && trace[i] == v;
      assert Genuine(trace, i, c, rows);
    }
    assert ids + (all - ids) == all && ids * (all - ids) == {};
  }

  lemma TracedEvolves(trace: seq<Visit>, c: Call, rows: seq<ApiKey>, rows': seq<ApiKey>)
    requires Traced(trace, c, rows) && Evolved(rows, rows', Ids(trace))
    ensures Traced(trace, c, rows')
  {
    forall i | 0 <= i < |trace| ensures Genuine(trace, i, c, rows') {
      assert Genuine(trace, i, c, rows) && trace[i] in trace;
      MarkStays(rows, rows', Ids(trace), trace[i], c.world(i).now, c.config);
    }
  }

  lemma GenuineInPrefix(trace: seq<Visit>, v: Visit, i: nat, c: Call, rows: seq<ApiKey>)
    requires i < |trace| && Genuine(trace, i, c, rows)
    ensures Genuine(trace + [v], i, c, rows)
  {
    assert (trace + [v])[..i] == trace[..i] && (trace + [v])[i] == trace[i];
  }

  /** What a visit adds: a key not tried yet that select could pick, a turn of the world, a mark. */
  ghost predicate Adds(v: Visit, tried: set<int>, n: nat, c: Call, rows: seq<ApiKey>) {
    && v.id !in tried && Selectable(c.was, v.id, LookAt(c, tried, n))
    && v.turn == TurnOf(c.world(n), v.id in c.full)
    && Marked(rows, v, c.world(n).now, c.config)
  }

  lemma TracedNext(trace: seq<Visit>, c: Call, rows: seq<ApiKey>, v: Visit, rows': seq<ApiKey>)
    requires Traced(trace, c, rows) && Evolved(rows, rows', Ids(trace)) && Adds(v, Ids(trace), |trace|, c, rows')
    ensures Traced(trace + [v], c, rows')
  {
    TracedEvolves(trace, c, rows, rows');
    DistinctNext(trace, v);
    var t := trace + [v];
    forall i | 0 <= i < |t| ensures Genuine(t, i, c, rows') {
      if i < |trace| {
        GenuineInPrefix(trace, v, i, c, rows');
      } else {
        assert t[..i] == trace && t[i] == v;
      }
    }
  }

  lemma DistinctNext(trace: seq<Visit>, v: Visit)
    requires Distinct(trace) && v.id !in Ids(trace)
    ensures Distinct(trace + [v])
  {
    var t := trace + [v];
    forall i, j | 0 <= i < j < |t| ensures t[i].id != t[j].id {
      assert t[i] == trace[i] && trace[i] in trace;
    }
  }

  // -------------------------------------------------------------------- loop

  /** The variables of the pool loop. */
  datatype Loop = Loop(tried: set<int>, attempts: nat, tries: nat, retries: nat, lastKey: int,
                       lastError: Option<Upstream>, decryptSeen: bool)

  predicate AllMoveOn(trace: seq<Visit>) {
    forall i :: 0 <= i < |trace| ==> MovesOn(trace[i].turn)
  }

  ghost predicate SomeUndecryptable(trace: seq<Visit>) {
    exists v :: v in trace && v.turn.Undecryptable?
  }

  function LastId(trace: seq<Visit>): int {
    if trace == [] then 0 else trace[|trace| - 1].id
  }

  /** What holds at every loop head. */
  ghost predicate Head(l: Loop, trace: seq<Visit>, c: Call, rows: seq<ApiKey>) {
    && l.tries == l.retries == |trace| <= MaxTries(c.budget)
    && l.tried == Ids(trace)
    && l.attempts == Answers(trace) < c.budget
    && (l.attempts > 0 <==> l.lastError.Some?) && l.lastError == LastAnswer(trace)
    && (l.decryptSeen <==> SomeUndecryptable(trace))
    && l.lastKey == LastId(trace)
    && Traced(trace, c, rows) && AllMoveOn(trace)
    && Settling(c.was, rows, l.tried)
  }

  /** selection_tries, retry_count and the size of tried_key_ids are one number, the turns taken so far; an upstream
      answer has been seen exactly when there is a last error to show. */
  lemma CountersAgree(l: Loop, trace: seq<Visit>, c: Call, rows: seq<ApiKey>)
    requires Head(l, trace, c, rows)
    ensures l.tries == l.retries == |l.tried| == |trace| <= |ProviderIds(c.was, c.provider)|
    ensures l.attempts > 0 <==> l.lastError.Some?
  {
    DistinctIds(trace);
    TurnsFitTheKeys(trace, c, rows);
  }

  /** The loop variables after leaving key `v.id` behind. */
  function Advance(l: Loop, v: Visit): Loop {
    Loop(l.tried + {v.id}, l.attempts + (if v.turn.Answered? then 1 else 0), l.tries + 1, l.retries + 1, v.id,
         if v.turn.Answered? then Some(v.turn.resp) else l.lastError, l.decryptSeen || v.turn.Undecryptable?)
  }

  lemma HeadNext(l: Loop, trace: seq<Visit>, c: Call, rows: seq<ApiKey>, v: Visit, rows': seq<ApiKey>)
    requires Head(l, trace, c, rows) && Evolved(rows, rows', l.tried) && l.tries < MaxTries(c.budget)
    requires Adds(v, l.tried, l.tries, c, rows') && MovesOn(v.turn) && Settling(c.was, rows', l.tried + {v.id})
    requires v.turn.Answered? ==> l.attempts + 1 < c.budget
    ensures Head(Advance(l, v), trace + [v], c, rows')
  {
    TracedNext(trace, c, rows, v, rows');
    IdsNext(trace, v);
    assert forall x :: x in trace + [v] <==> x in trace || x == v;
  }

  /** The loop would go on after these visits. */
  predicate Open(trace: seq<Visit>, c: Call) {
    AllMoveOn(trace) && Answers(trace) < c.budget && |trace| < MaxTries(c.budget)
  }

  /** Select refuses after these visits, for the reason given. */
  ghost predicate Refused(f: S.Failure, trace: seq<Visit>, c: Call, rows: seq<ApiKey>) {
    S.Explained(rows, LookAt(c, Ids(trace), |trace|), c.world(|trace|).chance, S.Refusal(f))
  }

  /** The refusals that a failed decryption is reported for. */
  predicate Masked(f: S.Failure) {
    f.NoKeyConfigured? || f.AllKeysDisabled? || f.NoKeyAvailable? || f.AllKeysNoCredits?
  }

  /** The last response received, under the key turned to last, with the number of keys left behind. */
  function LastResponse(trace: seq<Visit>): Option<Result> {
    match LastAnswer(trace)
    case None => None
    case Some(resp) => Some(Returned(resp, LastId(trace), |trace| - 1))
  }

  ghost function OnRefusal(f: S.Failure, trace: seq<Visit>): Result {
    if Masked(f) && SomeUndecryptable(trace) then Raised(KeyDecryptFailed)
    else if LastResponse(trace).Some? then LastResponse(trace).value
    else Raised(SelectFailed(f))
  }

  function OnCap(trace: seq<Visit>): Result {
    if LastResponse(trace).Some? then LastResponse(trace).value else Raised(AllKeysBusy)
  }

  function OnTurn(v: Visit, retries: nat): Result {
    match v.turn
    case Answered(resp) => Returned(resp, v.id, retries)
    case TimedOut => Raised(UpstreamTimeout)
    case Crashed => Raised(Unhandled)
    case _ => Raised(UpstreamUnavailable)
  }

  /** The three ways the loop ends, and what each returns: select refuses, the cap on selections is met, or the last
      turn leads to no other because it is final or spends the budget. */
  ghost predicate EndsRefused(result: Result, trace: seq<Visit>, c: Call, rows: seq<ApiKey>) {
    Open(trace, c) && exists f :: Refused(f, trace, c, rows) && result == OnRefusal(f, trace)
  }

  predicate EndsCapped(result: Result, trace: seq<Visit>, c: Call) {
    AllMoveOn(trace) && Answers(trace) < c.budget && |trace| == MaxTries(c.budget) && result == OnCap(trace)
  }

  predicate EndsWithTurn(result: Result, trace: seq<Visit>, c: Call) {
    && trace != [] && Open(trace[..|trace| - 1], c)
    && (!MovesOn(trace[|trace| - 1].turn) || Answers(trace) == c.budget)
    && result == OnTurn(trace[|trace| - 1], |trace| - 1)
  }

  /** What the loop promises on every exit; a key it has not turned to is as it was, apart from an ended cooldown. */
  ghost predicate Finished(result: Result, trace: seq<Visit>, c: Call, rows: seq<ApiKey>) {
    && Traced(trace, c, rows) && Settling(c.was, rows, Ids(trace))
    && (EndsRefused(result, trace, c, rows) || EndsCapped(result, trace, c) || EndsWithTurn(result, trace, c))
  }

  /** Twenty selections an attempt, and fifty at least. */
  function Cap(attempts: nat): nat {
    if attempts <= 2 then 50 else 20 * attempts
  }

  /** The attempts are never exceeded, and an answer that another key might better is returned only when they are used
      up, at the cap, or when select refuses. */
  ghost predicate GivesUpLate(result: Result, trace: seq<Visit>, attempts: nat, c: Call, rows: seq<ApiKey>) {
    && Answers(trace) <= attempts
    && (result.Returned? && result.resp.outcome in {RateLimit, Credit, InvalidKey} ==>
        Answers(trace) == attempts || |trace| == Cap(attempts) || exists f :: Refused(f, trace, c, rows))
  }

  /** Read off: attempts stay within the budget; a response is the last one received, under the last key and with the
      number of keys left behind, and a retryable one is returned only when there was no way to go on; the raise after
      the loop is never reached. */
  lemma FinishedMeaning(result: Result, trace: seq<Visit>, c: Call, rows: seq<ApiKey>)
    requires Finished(result, trace, c, rows)
    ensures Answers(trace) <= c.budget && result != Raised(LoopExhausted) && |trace| <= Cap(c.budget)
    ensures result.Returned? ==>
              && trace != [] && LastAnswer(trace) == Some(result.resp)
              && result.apiKeyId == LastId(trace) && result.retryCount == |trace| - 1
    ensures GivesUpLate(result, trace, c.budget, c, rows)
    ensures result == Raised(AllKeysBusy) ==> Answers(trace) == 0 && |trace| == Cap(c.budget)
    ensures result == Raised(KeyDecryptFailed) <==>
              Open(trace, c) && SomeUndecryptable(trace) && exists f :: Refused(f, trace, c, rows) && Masked(f)
    ensures forall f :: result == Raised(SelectFailed(f)) ==>
              Refused(f, trace, c, rows) && Answers(trace) == 0 && !(Masked(f) && SomeUndecryptable(trace))
  {
    NoAnswers(trace);
    forall f, g | Refused(f, trace, c, rows) && Refused(g, trace, c, rows) ensures Masked(f) == Masked(g) {
      OneReason(trace, c, rows, f, g);
    }
    if trace != [] {
      NoAnswers(trace[..|trace| - 1]);
    }
  }

  /** When a key could not be decrypted, that is reported in place of four of the reasons select has for a refusal; a
      refusal because of cooldowns, of rates or of the database is reported as it is, unless there is an answer. */
  lemma DecryptFailureReported(result: Result, trace: seq<Visit>, c: Call, rows: seq<ApiKey>)
    requires Finished(result, trace, c, rows)
    ensures result == Raised(KeyDecryptFailed) ==>
              exists v, f :: v in trace && v.turn.Undecryptable? && Refused(f, trace, c, rows)
                && f in {S.NoKeyConfigured, S.AllKeysDisabled, S.NoKeyAvailable, S.AllKeysNoCredits}
    ensures result in {Raised(SelectFailed(S.NoKeyConfigured)), Raised(SelectFailed(S.AllKeysDisabled)),
                       Raised(SelectFailed(S.NoKeyAvailable)), Raised(SelectFailed(S.AllKeysNoCredits))} ==>
              forall v :: v in trace ==> !v.turn.Undecryptable?
  {
    FinishedMeaning(result, trace, c, rows);
    if result == Raised(KeyDecryptFailed) {
      var f :| Refused(f, trace, c, rows) && Masked(f);
      var v :| v in trace && v.turn.Undecryptable?;
    }
  }

  /** The errors of the request itself: each is raised exactly when the last turn ended that way, the turn after which
      the loop turns to no other key. */
  lemma ErrorsHaveCauses(result: Result, trace: seq<Visit>, c: Call, rows: seq<ApiKey>)
    requires Finished(result, trace, c, rows)
    ensures result == Raised(UpstreamTimeout) <==> trace != [] && trace[|trace| - 1].turn.TimedOut?
    ensures result == Raised(UpstreamUnavailable) <==> trace != [] && trace[|trace| - 1].turn.HttpFailed?
    ensures result == Raised(Unhandled) <==> trace != [] && trace[|trace| - 1].turn.Crashed?
    ensures forall i :: 0 <= i < |trace| - 1 ==>
              trace[i].turn in {Denied, Busy, Undecryptable}
              || (trace[i].turn.Answered? && trace[i].turn.resp.outcome in {RateLimit, Credit, InvalidKey})
  {
    if trace != [] {
      var init := trace[..|trace| - 1];
      forall i | 0 <= i < |trace| - 1 ensures MovesOn(trace[i].turn) {
        assert init[i] == trace[i];
      }
    }
  }

  lemma {:induction false} NoAnswers(trace: seq<Visit>)
    ensures Answers(trace) > 0 <==> LastAnswer(trace).Some?
  {
    if trace != [] {
      NoAnswers(trace[..|trace| - 1]);
    }
  }

  /** The keys leave select only one reason to refuse. */
  lemma OneReason(trace: seq<Visit>, c: Call, rows: seq<ApiKey>, f: S.Failure, g: S.Failure)
    requires Refused(f, trace, c, rows) && Refused(g, trace, c, rows)
    ensures f == g || (f.AllKeysCooling? && g.AllKeysCooling?)
  {
  }

  /** Visit `i` gave the last answer. */
  ghost predicate Produced(trace: seq<Visit>, i: int) {
    0 <= i < |trace| && trace[i].turn.Answered? && forall j :: i < j < |trace| ==> !trace[j].turn.Answered?
  }

  lemma {:induction false} LastAnswerProduced(trace: seq<Visit>)
    requires LastAnswer(trace).Some?
    ensures exists i :: Produced(trace, i)
    ensures forall i :: Produced(trace, i) ==> LastAnswer(trace) == Some(trace[i].turn.resp)
  {
    var n := |trace| - 1;
    if trace[n].turn.Answered? {
      assert Produced(trace, n);
    } else {
      LastAnswerProduced(trace[..n]);
      var i :| Produced(trace[..n], i);
      assert Produced(trace, i);
      forall j | Produced(trace, j) ensures Produced(trace[..n], j) {}
    }
  }

  /** The key reported with a response is the one that gave it exactly when the last key turned to was answered:
      `api_key_id` is set before the rate and lease checks. */
  lemma ReportedKeyIsProducer(result: Result, trace: seq<Visit>, c: Call, rows: seq<ApiKey>)
    requires Finished(result, trace, c, rows) && result.Returned?
    ensures exists i :: Produced(trace, i)
    ensures forall i :: Produced(trace, i) ==>
              && trace[i].turn.resp == result.resp
              && (result.apiKeyId == trace[i].id <==> trace[|trace| - 1].turn.Answered?)
  {
    FinishedMeaning(result, trace, c, rows);
    LastAnswerProduced(trace);
    forall i | Produced(trace, i) ensures result.apiKeyId == trace[i].id <==> trace[|trace| - 1].turn.Answered? {
      assert i < |trace| - 1 ==> trace[i].id != trace[|trace| - 1].id;
    }
  }

  /** What a refusal by select turns into. */
  function AfterRefusal(f: S.Failure, l: Loop): Result {
    if l.decryptSeen && Masked(f) then Raised(KeyDecryptFailed)
    else if l.lastError.Some? && l.attempts > 0 then Returned(l.lastError.value, l.lastKey, Max(l.retries - 1, 0))
    else Raised(SelectFailed(f))
  }

  lemma RefusalFinishes(l: Loop, trace: seq<Visit>, c: Call, rows: seq<ApiKey>, f: S.Failure, rows': seq<ApiKey>)
    requires Head(l, trace, c, rows) && Evolved(rows, rows', l.tried) && l.tries < MaxTries(c.budget)
    requires S.Explained(rows', LookAt(c, l.tried, l.tries), c.world(l.tries).chance, S.Refusal(f))
    requires Settling(c.was, rows', l.tried)
    ensures Finished(AfterRefusal(f, l), trace, c, rows')
  {
    TracedEvolves(trace, c, rows, rows');
    assert Refused(f, trace, c, rows');
    assert AfterRefusal(f, l) == OnRefusal(f, trace);
    assert EndsRefused(AfterRefusal(f, l), trace, c, rows');
  }

  lemma TurnFinishes(l: Loop, trace: seq<Visit>, c: Call, rows: seq<ApiKey>, v: Visit, rows': seq<ApiKey>)
    requires Head(l, trace, c, rows) && Traced(trace, c, rows') && l.tries < MaxTries(c.budget)
    requires Adds(v, l.tried, l.tries, c, rows') && Settling(c.was, rows', l.tried + {v.id})
    requires !MovesOn(v.turn) || (v.turn.Answered? && l.attempts + 1 == c.budget)
    ensures Finished(OnTurn(v, l.retries), trace + [v], c, rows')
  {
    TracedNext(trace, c, rows', v, rows');
    IdsNext(trace, v);
    var t := trace + [v];
    assert t[|t| - 1] == v && t[..|t| - 1] == trace;
    assert EndsWithTurn(OnTurn(v, l.retries), t, c);
  }

  /** What one turn makes of the variables: either the last one, or on to the next key. */
  predicate Tallied(l: Loop, v: Visit, budget: nat, done: Option<Result>, l': Loop) {
    && (done.Some? <==> !MovesOn(v.turn) || (v.turn.Answered? && l.attempts + 1 == budget))
    && (done.Some? ==> done.value == OnTurn(v, l.retries))
    && (done.None? ==> l' == Advance(l, v))
  }

  /** What one pass of the loop leads to. */
  ghost predicate Passed(done: Option<Result>, l: Loop, l': Loop, trace: seq<Visit>, c: Call, rows: seq<ApiKey>) {
    if done.Some? then Finished(done.value, trace, c, rows) else Head(l', trace, c, rows) && l'.tries == l.tries + 1
  }

  /** What a round of the loop does: select refuses, or a key that passes its tests takes the turn the world gives. */
  ghost predicate Rounded(rows: seq<ApiKey>, rows': seq<ApiKey>, look: S.Look, w: World, config: Config, full: set<int>,
                          refusal: Option<S.Failure>, v: Visit)
  {
    && Evolved(rows, rows', look.exclude) && Settling(rows, rows', if refusal.Some? then {} else {v.id})
    && if refusal.Some? then S.Explained(rows', look, w.chance, S.Refusal(refusal.value))
       else Candidate(rows, v.id, look) && v.turn == TurnOf(w, v.id in full) && Marked(rows', v, w.now, config)
  }

  /** What the program makes of it. */
  predicate Decided(l: Loop, trace: seq<Visit>, budget: nat, refusal: Option<S.Failure>, v: Visit,
                    done: Option<Result>, l': Loop, trace': seq<Visit>)
  {
    if refusal.Some? then done == Some(AfterRefusal(refusal.value, l)) && trace' == trace
    else trace' == trace + [v] && Tallied(l, v, budget, done, l')
  }

  lemma RoundPasses(l: Loop, trace: seq<Visit>, c: Call, rows: seq<ApiKey>, rows': seq<ApiKey>,
                    refusal: Option<S.Failure>, v: Visit, done: Option<Result>, l': Loop, trace': seq<Visit>)
    requires Head(l, trace, c, rows) && l.tries < MaxTries(c.budget) && Evolved(c.was, rows, {})
    requires Rounded(rows, rows', LookAt(c, l.tried, l.tries), c.world(l.tries), c.config, c.full, refusal, v)
    requires Decided(l, trace, c.budget, refusal, v, done, l', trace')
    ensures Passed(done, l, l', trace', c, rows') && Evolved(c.was, rows', {})
  {
    EvolvedTransitive(c.was, rows, rows', l.tried, {});
    if refusal.Some? {
      SettlingGoesOn(c.was, rows, rows', l.tried, {});
      assert l.tried + {} == l.tried;
      RefusalFinishes(l, trace, c, rows, refusal.value, rows');
    } else {
      StillSelectable(c.was, rows, l.tried, v.id, LookAt(c, l.tried, l.tries));
      SettlingGoesOn(c.was, rows, rows', l.tried, {v.id});
      if done.Some? {
        TracedEvolves(trace, c, rows, rows');
        TurnFinishes(l, trace, c, rows, v, rows');
      } else {
        HeadNext(l, trace, c, rows, v, rows');
      }
    }
  }

  /** The world lets the turn through and upstream gives the answer. */
  predicate Replies(w: World, resp: Upstream) {
    w.limiter.Allows? && !w.leaseRaises && w.decryptOk && w.http == Answer(resp) && !w.quotaRaises
  }

  /** The loop does switch: with one retry allowed and two keys that pass select's tests, a rate-limit answer of the key
      turned to first is never what the client gets; it gets the answer of the other key. */
  lemma SecondKeyAnswers(k1: ApiKey, k2: ApiKey, limited: Upstream, fine: Upstream, c: Call, providerMax: int,
                         result: Result, trace: seq<Visit>, rows: seq<ApiKey>)
    requires k1.id != k2.id && k1.provider == k2.provider == c.provider && c.was == [k1, k2] && c.full == {}
    requires c.budget == RetryBudget(Some(1), providerMax)
    requires limited.outcome == RateLimit && Replies(c.world(0), limited)
    requires fine.outcome == Ok && Replies(c.world(1), fine)
    requires S.DbWorks(c.world(0).chance) && S.DbWorks(c.world(1).chance)
    requires S.IsEligible(k1, LookAt(c, {}, 0))
    requires S.IsEligible(k1, LookAt(c, {k2.id}, 1)) && S.IsEligible(k2, LookAt(c, {k1.id}, 1))
    requires Finished(result, trace, c, rows)
    ensures |trace| == 2 && {trace[0].id, trace[1].id} == {k1.id, k2.id}
    ensures trace[1].turn == Answered(fine) && result == Returned(fine, trace[1].id, 1)
  {
    assert Answers([]) == 0 && Ids([]) == {};
    if trace == [] {
      NotRefused(k1, {}, 0, c, rows);
      assert false;
    }
    VisitsOne(trace, 0, limited, k1, k2, c, rows);
    assert trace[..1] == [trace[0]] && [trace[0]][..0] == [] && Ids([trace[0]]) == {trace[0].id};
    if |trace| == 1 {
      assert trace == [trace[0]] && Answers(trace) == 1;
      NotRefused(if trace[0].id == k1.id then k2 else k1, {trace[0].id}, 1, c, rows);
      assert false;
    }
    VisitsOne(trace, 1, fine, k1, k2, c, rows);
    assert !MovesOn(trace[1].turn) && !AllMoveOn(trace);
  }

  /** Select does not refuse while a key not tried yet passes its tests. */
  lemma NotRefused(k: ApiKey, tried: set<int>, n: nat, c: Call, rows: seq<ApiKey>)
    requires k in c.was && k.provider == c.provider && S.DbWorks(c.world(n).chance)
    requires k.id !in tried && S.IsEligible(k, LookAt(c, tried, n)) && Settling(c.was, rows, tried)
    ensures forall f :: !S.Explained(rows, LookAt(c, tried, n), c.world(n).chance, S.Refusal(f))
  {
    var q := LookAt(c, tried, n);
    var i :| 0 <= i < |c.was| && c.was[i] == k;
    assert rows[i] in rows && rows[i].provider == q.provider && S.TagOf(rows[i], q) == S.Eligible;
    assert S.AnyTagged(rows, q, S.Eligible);
  }

  lemma VisitsOne(trace: seq<Visit>, i: nat, resp: Upstream, k1: ApiKey, k2: ApiKey, c: Call, rows: seq<ApiKey>)
    requires Traced(trace, c, rows) && i < |trace| && c.was == [k1, k2] && c.full == {} && Replies(c.world(i), resp)
    ensures trace[i].id in {k1.id, k2.id} && trace[i].turn == Answered(resp)
  {
    assert Genuine(trace, i, c, rows);
  }

  /** A call in which they differ: key 1 gives a rate-limit answer, key 2 is over its own rate, and no key is left. */
  lemma ReportedKeyCanDiffer(k1: ApiKey, k2: ApiKey, limited: Upstream, world: nat -> World, config: Config,
                             budget: nat)
    requires k1.id == 1 && k2.id == 2 && k1.provider == k2.provider && limited.outcome == RateLimit && budget >= 2
    requires Replies(world(0), limited) && world(1).limiter.Denies? && world(2).chance.queryOk
    requires var c := Call([k1, k2], k1.provider, budget, world, config, {});
             S.IsEligible(k1, LookAt(c, {}, 0)) && S.IsEligible(k2, LookAt(c, {1}, 1))
    ensures var c := Call([k1, k2], k1.provider, budget, world, config, {});
            exists trace, rows ::
              && Finished(Returned(limited, 2, 1), trace, c, rows)
              && Produced(trace, 0) && trace[0] == Visit(1, Answered(limited))
  {
    var c := Call([k1, k2], k1.provider, budget, world, config, {});
    var v1, v2 := Visit(1, Answered(limited)), Visit(2, Denied);
    var rows := WithAction([k1, k2], 1, Verdict(limited, world(0).now, config));
    var l1 := Advance(Loop({}, 0, 0, 0, 0, None, false), v1);
    AfterLimitedTurn(k1, k2, limited, c, v1);
    AfterDeniedTurn(k1, k2, limited, c, v1, v2);
    var l2, trace := Advance(l1, v2), [v1, v2];
    BothTried(rows, LookAt(c, l2.tried, l2.tries), world(2).chance, k2);
    RefusalFinishes(l2, trace, c, rows, S.NoKeyAvailable, rows);
    assert Produced(trace, 0);
  }

  lemma BothTried(rows: seq<ApiKey>, q: S.Look, ch: S.Chance, k2: ApiKey)
    requires |rows| == 2 && rows[0].id == 1 && rows[1] == k2 && k2.id == 2 && q.exclude == {1, 2} && ch.queryOk
    requires rows[0].provider == k2.provider == q.provider && !IsDisabled(k2)
    ensures S.Explained(rows, q, ch, S.Refusal(S.NoKeyAvailable))
  {
    forall k | k in rows ensures S.TagOf(k, q) == S.Excluded {
      var i :| 0 <= i < |rows| && rows[i] == k;
    }
    assert rows[1] in rows;
    S.OnlyTagsMeaning(rows, q);
  }

  lemma AfterLimitedTurn(k1: ApiKey, k2: ApiKey, limited: Upstream, c: Call, v1: Visit)
    requires k1.id == 1 && k2.id == 2 && k1.provider == c.provider && limited.outcome == RateLimit
    requires c.was == [k1, k2] && c.budget >= 2 && c.full == {} && v1 == Visit(1, Answered(limited))
    requires Replies(c.world(0), limited) && S.IsEligible(k1, LookAt(c, {}, 0))
    ensures var rows := WithAction([k1, k2], 1, Verdict(limited, c.world(0).now, c.config));
            && Head(Advance(Loop({}, 0, 0, 0, 0, None, false), v1), [v1], c, rows)
            && Evolved(rows, rows, {1}) && Evolved(c.was, rows, {})
  {
    var l0 := Loop({}, 0, 0, 0, 0, None, false);
    var verdict := Verdict(limited, c.world(0).now, c.config);
    var rows := WithAction(c.was, 1, verdict);
    assert k1 in c.was && Ids([]) == {};
    assert Head(l0, [], c, c.was);
    ActionEvolves(c.was, 1, verdict, {});
    VerdictMarks(c.was, v1, c.world(0).now, c.config);
    assert Adds(v1, {}, 0, c, rows) && Settling(c.was, rows, {} + {v1.id});
    HeadNext(l0, [], c, c.was, v1, rows);
    assert [] + [v1] == [v1];
  }

  lemma AfterDeniedTurn(k1: ApiKey, k2: ApiKey, limited: Upstream, c: Call, v1: Visit, v2: Visit)
    requires k1.id == 1 && k2.id == 2 && k1.provider == k2.provider == c.provider && limited.outcome == RateLimit
    requires c.was == [k1, k2] && c.budget >= 2 && c.full == {}
    requires v1 == Visit(1, Answered(limited)) && v2 == Visit(2, Denied)
    requires c.world(1).limiter.Denies? && S.IsEligible(k2, LookAt(c, {1}, 1))
    requires var rows := WithAction([k1, k2], 1, Verdict(limited, c.world(0).now, c.config));
             Head(Advance(Loop({}, 0, 0, 0, 0, None, false), v1), [v1], c, rows) && Evolved(c.was, rows, {})
    ensures var rows := WithAction([k1, k2], 1, Verdict(limited, c.world(0).now, c.config));
            && Head(Advance(Advance(Loop({}, 0, 0, 0, 0, None, false), v1), v2), [v1, v2], c, rows)
            && Evolved(rows, rows, {1, 2})
  {
    var rows := WithAction([k1, k2], 1, Verdict(limited, c.world(0).now, c.config));
    assert c.was[1] == k2 && k2 in c.was;
    assert Adds(v2, {1}, 1, c, rows) && Settling(c.was, rows, {1} + {v2.id});
    HeadNext(Advance(Loop({}, 0, 0, 0, 0, None, false), v1), [v1], c, rows, v2, rows);
    assert [v1] + [v2] == [v1, v2];
  }

  /** Leaving the loop at its condition. */
  function AfterLoop(l: Loop): Result {
    if l.attempts == 0 then Raised(AllKeysBusy)
    else if l.lastError.Some? then Returned(l.lastError.value, l.lastKey, Max(l.retries - 1, 0))
    else Raised(LoopExhausted)
  }

  lemma LoopFinishes(l: Loop, trace: seq<Visit>, c: Call, rows: seq<ApiKey>)
    requires Head(l, trace, c, rows) && l.tries >= MaxTries(c.budget)
    ensures Finished(AfterLoop(l), trace, c, rows)
  {
    assert EndsCapped(AfterLoop(l), trace, c);
  }

  // ------------------------------------------------------------------ pinned

  /** The keys other than `id`. */
  function Others(rows: seq<ApiKey>, id: int): set<int> {
    set k | k in rows && k.id != id :: k.id
  }

  /** Turns on the pinned key leave the key in the table and the leases of others where they are. */
  lemma PinnedStays(was: seq<ApiKey>, rows: seq<ApiKey>, id: int, outstanding: set<C.Lease>, name: int -> string)
    requires Evolved(was, rows, Others(was, id)) && exists k :: k in was && k.id == id
    ensures FullKeys(rows, outstanding, name) == FullKeys(was, outstanding, name)
    ensures exists k :: k in rows && k.id == id
  {
    FullStays(was, rows, Others(was, id), outstanding, name);
    IdsEvolve(was, rows, Others(was, id), "", id);
  }

  /** A pinned key is used only if it exists, belongs to the provider and is not disabled. */
  ghost predicate Pinnable(rows: seq<ApiKey>, id: int, provider: string) {
    exists k :: k in rows && k.id == id && k.provider == provider && !IsDisabled(k)
  }

  /** The rows on which turn `n` of the pinned loop is made. */
  function PinnedRows(trace: seq<Visit>, id: int, c: Call, n: nat): (r: seq<ApiKey>)
    requires n <= |trace|
    ensures |r| == |c.was|
  {
    if n == 0 then c.was
    else
      var rows := PinnedRows(trace, id, c, n - 1);
      if RateLimited(trace[n - 1].turn) then RowsAfterLimit(rows, id, trace[n - 1].turn.resp, c.world(n - 1), c.config)
      else rows
  }

  lemma {:induction false} PinnedRowsOfPrefix(trace: seq<Visit>, more: seq<Visit>, id: int, c: Call, n: nat)
    requires n <= |trace|
    ensures PinnedRows(trace + more, id, c, n) == PinnedRows(trace, id, c, n)
  {
    if n > 0 {
      PinnedRowsOfPrefix(trace, more, id, c, n - 1);
    }
  }

  /** What the pinned loop promises: every turn is on the pinned key and goes as the world makes it go, a turn is
      repeated only after a rate-limit answer and on the rows it has left, and the last turn decides. */
  ghost predicate PinnedFinished(result: Result, trace: seq<Visit>, id: int, c: Call, rows: seq<ApiKey>) {
    && PinnedSoFar(trace, id, c) && 1 <= |trace| <= c.budget
    && Marked(rows, trace[|trace| - 1], c.world(|trace| - 1).now, c.config)
    && Evolved(PinnedRows(trace, id, c, |trace| - 1), rows, Others(c.was, id))
    && AllLimited(trace, |trace| - 1)
    && (RateLimited(trace[|trace| - 1].turn) ==> |trace| == c.budget)
    && result == PinnedResult(trace[|trace| - 1].turn, id, |trace| - 1)
  }

  predicate RateLimited(t: Turn) {
    t.Answered? && t.resp.outcome == RateLimit
  }

  predicate PinnedSoFar(trace: seq<Visit>, id: int, c: Call) {
    forall i :: 0 <= i < |trace| ==> trace[i] == Visit(id, TurnOf(c.world(i), id in c.full))
  }

  predicate AllLimited(trace: seq<Visit>, n: nat)
    requires n <= |trace|
  {
    forall i :: 0 <= i < n ==> RateLimited(trace[i].turn)
  }

  lemma PinnedSoFarNext(trace: seq<Visit>, id: int, c: Call, turn: Turn)
    requires PinnedSoFar(trace, id, c) && AllLimited(trace, |trace|) && turn == TurnOf(c.world(|trace|), id in c.full)
    ensures var t := trace + [Visit(id, turn)];
            && PinnedSoFar(t, id, c) && t[|trace|] == Visit(id, turn) && AllLimited(t, |trace|)
            && (RateLimited(turn) ==> AllLimited(t, |trace| + 1))
  {
  }

  function PinnedResult(t: Turn, id: int, attempt: nat): Result {
    match t
    case Answered(resp) => Returned(resp, id, attempt)
    case TimedOut => Raised(UpstreamTimeout)
    case HttpFailed => Raised(UpstreamUnavailable)
    case Crashed => Raised(Unhandled)
    case Undecryptable => Raised(KeyDecryptFailed)
    case _ => Raised(AllKeysBusy)
  }

  ghost predicate PinnedPassed(done: Option<Result>, trace: seq<Visit>, id: int, c: Call, rows: seq<ApiKey>) {
    if done.Some? then PinnedFinished(done.value, trace, id, c, rows)
    else
      && PinnedSoFar(trace, id, c) && |trace| < c.budget && rows == PinnedRows(trace, id, c, |trace|)
      && AllLimited(trace, |trace|)
  }

  lemma NotPinnable(rows: seq<ApiKey>, at: nat, id: int, provider: string)
    requires InIdOrder(rows) && at <= |rows|
    requires if at == |rows| then forall k :: k in rows ==> k.id != id
             else rows[at].id == id && (IsDisabled(rows[at]) || rows[at].provider != provider)
    ensures !Pinnable(rows, id, provider)
  {
    forall k | k in rows && k.id == id ensures at < |rows| && k == rows[at] {
      var i :| 0 <= i < |rows| && rows[i] == k;
    }
  }

  lemma PinnedRowsNext(trace: seq<Visit>, v: Visit, id: int, c: Call)
    ensures PinnedRows(trace + [v], id, c, |trace|) == PinnedRows(trace, id, c, |trace|)
    ensures PinnedRows(trace + [v], id, c, |trace| + 1)
            == if RateLimited(v.turn)
               then RowsAfterLimit(PinnedRows(trace, id, c, |trace|), id, v.turn.resp, c.world(|trace|), c.config)
               else PinnedRows(trace, id, c, |trace|)
  {
    PinnedRowsOfPrefix(trace, [v], id, c, |trace|);
  }

  lemma PinnedGoesOn(trace: seq<Visit>, id: int, c: Call, rows: seq<ApiKey>, turn: Turn, rows': seq<ApiKey>)
    requires PinnedPassed(None, trace, id, c, rows) && RateLimited(turn) && |trace| < c.budget - 1
    requires rows' == RowsAfterLimit(rows, id, turn.resp, c.world(|trace|), c.config)
    requires turn == TurnOf(c.world(|trace|), id in c.full)
    ensures PinnedPassed(None, trace + [Visit(id, turn)], id, c, rows')
  {
    PinnedSoFarNext(trace, id, c, turn);
    PinnedRowsNext(trace, Visit(id, turn), id, c);
  }

  lemma PinnedStops(trace: seq<Visit>, id: int, c: Call, rows: seq<ApiKey>, turn: Turn, rows': seq<ApiKey>)
    requires PinnedPassed(None, trace, id, c, rows) && Evolved(rows, rows', Others(c.was, id))
    requires Marked(rows', Visit(id, turn), c.world(|trace|).now, c.config)
    requires !RateLimited(turn) || |trace| == c.budget - 1
    requires turn == TurnOf(c.world(|trace|), id in c.full)
    ensures PinnedFinished(PinnedResult(turn, id, |trace|), trace + [Visit(id, turn)], id, c, rows')
  {
    var t := trace + [Visit(id, turn)];
    PinnedSoFarNext(trace, id, c, turn);
    PinnedRowsNext(trace, Visit(id, turn), id, c);
    EvolvedSame(PinnedRows(t, id, c, |t| - 1), rows, rows', Others(c.was, id));
  }

  lemma PinnedNext(trace: seq<Visit>, id: int, c: Call, rows: seq<ApiKey>, turn: Turn, rows': seq<ApiKey>,
                   done: Option<Result>)
    requires PinnedPassed(None, trace, id, c, rows) && Evolved(rows, rows', Others(c.was, id))
    requires Marked(rows', Visit(id, turn), c.world(|trace|).now, c.config)
    requires RateLimited(turn) ==> rows' == RowsAfterLimit(rows, id, turn.resp, c.world(|trace|), c.config)
    requires done == if RateLimited(turn) && |trace| < c.budget - 1 then None else Some(PinnedResult(turn, id, |trace|))
    requires turn == TurnOf(c.world(|trace|), id in c.full)
    ensures PinnedPassed(done, trace + [Visit(id, turn)], id, c, rows')
  {
    if done.Some? {
      PinnedStops(trace, id, c, rows, turn, rows');
    } else {
      PinnedGoesOn(trace, id, c, rows, turn, rows');
    }
  }

  /** The credit probe made after a rate-limit answer finds that the key is not to be used. */
  predicate ProbeDisables(w: World) {
    w.probed.Some? && (w.probed.value.probe.ProbeInvalid? || w.probed.value.probe.ProbeDecryptFailed?)
  }

  /** A rate-limit answer disables an enabled key exactly when its probe does; a key that is inactive stays so. */
  lemma LimitDisables(rows: seq<ApiKey>, i: nat, resp: Upstream, w: World, config: Config)
    requires i < |rows| && resp.outcome == RateLimit
    ensures var k := RowsAfterLimit(rows, rows[i].id, resp, w, config)[i];
            && k.id == rows[i].id
            && (!IsDisabled(rows[i]) ==> (IsDisabled(k) <==> ProbeDisables(w)) && (IsDisabled(k) <==> !k.isActive))
            && (!rows[i].isActive ==> !k.isActive)
  {
    L.ActionsNeverRevive(rows[i], Verdict(resp, w.now, config));
    if w.probed.Some? {
      L.ActionsNeverRevive(rows[i], L.Probe4xx(w.probed.value.probe, w.now, w.probed.value.next));
    }
  }

  /** One of the first `n` probes finds that the key is not to be used. */
  ghost predicate SomeProbeDisables(c: Call, n: nat) {
    exists m :: 0 <= m < n && ProbeDisables(c.world(m))
  }

  lemma OneMoreProbe(c: Call, n: nat)
    ensures SomeProbeDisables(c, n + 1) <==> SomeProbeDisables(c, n) || ProbeDisables(c.world(n))
  {
  }

  /** A key of this id that is disabled by the active flag or not at all. */
  ghost predicate DisabledIff(k: ApiKey, id: int, disabled: bool) {
    k.id == id && (IsDisabled(k) <==> !k.isActive) && (IsDisabled(k) <==> disabled)
  }

  /** The pinned loop looks at the key once, before its first turn.  Turn `n` is made on a key that an earlier turn has
      disabled exactly when the probe of an earlier turn found it invalid or undecryptable. */
  lemma PinnedTurnOnDisabledKey(trace: seq<Visit>, id: int, c: Call, n: nat, i: nat)
    requires n <= |trace| && i < |c.was| && c.was[i].id == id && !IsDisabled(c.was[i])
    requires forall m :: 0 <= m < n ==> RateLimited(trace[m].turn)
    ensures DisabledIff(PinnedRows(trace, id, c, n)[i], id, SomeProbeDisables(c, n))
  {
    var m := 0;
    while m < n
      invariant m <= n
      invariant DisabledIff(PinnedRows(trace, id, c, m)[i], id, SomeProbeDisables(c, m))
    {
      PinnedKeyNext(trace, id, c, m, i);
      m := m + 1;
    }
  }

  lemma PinnedKeyNext(trace: seq<Visit>, id: int, c: Call, n: nat, i: nat)
    requires n < |trace| && i < |c.was| && RateLimited(trace[n].turn)
    requires DisabledIff(PinnedRows(trace, id, c, n)[i], id, SomeProbeDisables(c, n))
    ensures DisabledIff(PinnedRows(trace, id, c, n + 1)[i], id, SomeProbeDisables(c, n + 1))
  {
    var rows, resp, w := PinnedRows(trace, id, c, n), trace[n].turn.resp, c.world(n);
    PinnedRowsAt(trace, id, c, n);
    LimitDisables(rows, i, resp, w, c.config);
    DisabledNext(rows[i], RowsAfterLimit(rows, id, resp, w, c.config)[i], id, c, n);
  }

  lemma PinnedRowsAt(trace: seq<Visit>, id: int, c: Call, n: nat)
    requires n < |trace| && RateLimited(trace[n].turn)
    ensures PinnedRows(trace, id, c, n + 1) ==
              RowsAfterLimit(PinnedRows(trace, id, c, n), id, trace[n].turn.resp, c.world(n), c.config)
  {
  }

  lemma DisabledNext(k: ApiKey, k': ApiKey, id: int, c: Call, n: nat)
    requires DisabledIff(k, id, SomeProbeDisables(c, n)) && k'.id == id && (!k.isActive ==> !k'.isActive)
    requires !IsDisabled(k) ==> (IsDisabled(k') <==> ProbeDisables(c.world(n))) && (IsDisabled(k') <==> !k'.isActive)
    ensures DisabledIff(k', id, SomeProbeDisables(c, n + 1))
  {
    OneMoreProbe(c, n);
  }

  /** The pinned loop repeats a rate-limit answer until the attempts are used up, and nothing else. */
  lemma PinnedMeaning(result: Result, trace: seq<Visit>, id: int, c: Call, rows: seq<ApiKey>)
    requires PinnedFinished(result, trace, id, c, rows)
    ensures Answers(trace) <= |trace| <= c.budget && result != Raised(LoopExhausted)
    ensures result.Returned? ==> trace[|trace| - 1].turn == Answered(result.resp) && result.apiKeyId == id
    ensures result.Returned? && result.resp.outcome == RateLimit ==> Answers(trace) == c.budget
    ensures var last := trace[|trace| - 1].turn;
            && (last.Answered? ==> result == Returned(last.resp, id, |trace| - 1))
            && (last.TimedOut? <==> result == Raised(UpstreamTimeout))
            && (last.HttpFailed? <==> result == Raised(UpstreamUnavailable))
            && (last.Crashed? <==> result == Raised(Unhandled))
            && (last.Undecryptable? <==> result == Raised(KeyDecryptFailed))
            && (last.Denied? || last.Busy? <==> result == Raised(AllKeysBusy))
    ensures forall i :: 0 <= i < |trace| - 1 ==> trace[i].turn.Answered? && trace[i].turn.resp.outcome == RateLimit
  {
    AnswersOfLimited(trace);
  }

  lemma {:induction false} AnswersOfLimited(trace: seq<Visit>)
    requires trace != [] && AllLimited(trace, |trace| - 1)
    ensures Answers(trace) == |trace| - (if trace[|trace| - 1].turn.Answered? then 0 else 1)
  {
    var init := trace[..|trace| - 1];
    if init == [] {
      assert Answers(init) == 0;
    } else {
      assert init[|init| - 1] == trace[|init| - 1];
      AnswersOfLimited(init);
    }
  }

  /** What forward promises on the pinned path, `attempts` being the number the settings allow. */
  ghost predicate PinnedPromise(result: Result, trace: seq<Visit>, id: int, attempts: nat, c: Call, rows: seq<ApiKey>) {
    && PinnedFinished(result, trace, id, c, rows) && Evolved(c.was, rows, Others(c.was, id))
    && Answers(trace) <= attempts
    && (result.Returned? && result.resp.outcome == RateLimit ==> Answers(trace) == attempts)
  }

  /** And over the pool. */
  ghost predicate PoolPromise(result: Result, trace: seq<Visit>, attempts: nat, c: Call, rows: seq<ApiKey>) {
    Finished(result, trace, c, rows) && GivesUpLate(result, trace, attempts, c, rows)
  }

  /** Such a call: a rate-limit answer, a probe that finds the key invalid, and a second turn on the same key. */
  lemma DisabledKeyIsUsedAgain(k: ApiKey, limited: Upstream, fine: Upstream, world: nat -> World, config: Config)
    requires !IsDisabled(k) && limited.outcome == RateLimit && fine.outcome == Passthrough
    requires Replies(world(0), limited) && ProbeDisables(world(0)) && Replies(world(1), fine)
    ensures var trace := [Visit(k.id, Answered(limited)), Visit(k.id, Answered(fine))];
            var c := Call([k], k.provider, 2, world, config, {});
            && PinnedFinished(Returned(fine, k.id, 1), trace, k.id, c, PinnedRows(trace, k.id, c, 1))
            && IsDisabled(PinnedRows(trace, k.id, c, 1)[0])
  {
    var trace := [Visit(k.id, Answered(limited)), Visit(k.id, Answered(fine))];
    var c := Call([k], k.provider, 2, world, config, {});
    assert ProbeDisables(c.world(0));
    PinnedTurnOnDisabledKey(trace, k.id, c, 1, 0);
  }

  /** One clock for all the turns of a call. */
  ghost predicate Orderly(world: nat -> World) {
    forall n :: TurnOrderly(world, n)
  }

  /** The clock of turn `n` goes on, and the turn is over before the next begins. */
  ghost predicate TurnOrderly(world: nat -> World, n: nat) {
    S.Ticks(world(n).chance) && 0.0 <= world(n).chance.u < 1.0 && Over(world(n).chance, world(n + 1).chance)
  }

  ghost predicate Over(a: S.Chance, b: S.Chance) {
    forall k :: a.mono <= b.clock(k)
  }

  lemma TimePasses(m: F.Memory, world: nat -> World, n: nat)
    requires Orderly(world) && F.NotAfter(m, world(n).chance.mono)
    ensures S.Since(m, world(n + 1).chance)
  {
    assert TurnOrderly(world, n);
  }

  lemma TurnTicks(world: nat -> World, n: nat)
    requires Orderly(world)
    ensures S.Ticks(world(n).chance) && 0.0 <= world(n).chance.u < 1.0
  {
    assert TurnOrderly(world, n);
  }

  // ------------------------------------------------------------- bookkeeping

  /** The failures of a key within the window, this one included, and the start of the window. */
  function Bumped(window: map<int, (int, real)>, id: int, now: real, config: Config): (int, real) {
    var (count, first) := if id in window then window[id] else (0, now);
    if now - first > config.failureWindow then (1, now) else (count + 1, first)
  }

  function Enabled(k: ApiKey): bool {
    k.isActive && k.status != Disabled
  }

  /** What _record_failure does to the rows. */
  function RowsAfterFailure(rows: seq<ApiKey>, window: map<int, (int, real)>, id: int, active: bool, now: real,
                            config: Config): seq<ApiKey>
  {
    if active && Bumped(window, id, now, config).0 >= config.failureThreshold
    then WithAction(rows, id, L.Fail(now + Max(config.failedCooldown, 1) as real))
    else rows
  }

  function RowsAfterProbe(rows: seq<ApiKey>, id: int, w: World): seq<ApiKey> {
    match w.probed
    case None => rows
    case Some(p) => WithAction(rows, id, L.Probe4xx(p.probe, w.now, p.next))
  }

  function Penalised(m: F.Memory, id: int, status: int, mono: real): F.Memory {
    if Attributable(status) then F.AfterFailure(m, id, mono) else m
  }

  /** The verdict on a key whose answer is its own fault. */
  function Verdict(resp: Upstream, now: real, config: Config): L.Action {
    match resp.outcome
    case RateLimit => L.Cool(now + Cooldown(resp, config) as real)
    case Credit => L.SetCredits(0)
    case _ => L.Invalidate
  }

  /** The local estimate of what a request cost the key. */
  function Charged(rows: seq<ApiKey>, id: int, cost: Option<int>): (r: seq<ApiKey>)
    ensures |r| == |rows|
  {
    seq(|rows|, i requires 0 <= i < |rows| =>
      if rows[i].id == id && rows[i].credits.Some? && cost.Some?
      then rows[i].(credits := Some(Max(0, rows[i].credits.value - cost.value)))
      else rows[i])
  }

  /** The rows after the stretch that holds the lease. */
  function RowsAfterTurn(rows: seq<ApiKey>, window: map<int, (int, real)>, id: int, active: bool, turn: Turn, now: real,
                         config: Config): seq<ApiKey>
  {
    if turn.Undecryptable? then WithAction(rows, id, L.DecryptDisable)
    else if turn.TimedOut? || turn.HttpFailed? then RowsAfterFailure(rows, window, id, active, now, config)
    else rows
  }

  /** The window after failures at these times. */
  function WindowAfter(window: map<int, (int, real)>, id: int, times: seq<real>, config: Config)
    : map<int, (int, real)> {
    if times == [] then window
    else
      var before := WindowAfter(window, id, times[..|times| - 1], config);
      before[id := Bumped(before, id, times[|times| - 1], config)]
  }

  /** Failures within the window of the first add up; one after it starts the count again. */
  lemma {:induction false} FailuresAddUp(window: map<int, (int, real)>, id: int, times: seq<real>, config: Config)
    requires id !in window && times != []
    requires forall i :: 0 <= i < |times| ==> times[i] - times[0] <= config.failureWindow
    ensures WindowAfter(window, id, times, config) == window[id := (|times|, times[0])]
    ensures forall later :: later - times[0] > config.failureWindow ==>
              Bumped(WindowAfter(window, id, times, config), id, later, config) == (1, later)
  {
    var n := |times| - 1;
    if n > 0 {
      FailuresAddUp(window, id, times[..n], config);
    } else {
      assert WindowAfter(window, id, [], config) == window;
    }
  }

  /** The last of a number of failures within the window sets the key aside exactly if their number meets the threshold:
      an enabled key is then out for the configured time, a second at least; otherwise nothing is written. */
  lemma ThresholdSetsAside(rows: seq<ApiKey>, window: map<int, (int, real)>, id: int, times: seq<real>, config: Config,
                           i: nat)
    requires id !in window && times != [] && i < |rows|
    requires forall j :: 0 <= j < |times| ==> 0.0 <= times[j] - times[0] <= config.failureWindow
    ensures var n := |times| - 1;
            var k := rows[i];
            var rest := if config.failedCooldown < 1 then 1 else config.failedCooldown;
            RowsAfterFailure(rows, WindowAfter(window, id, times[..n], config), id, true, times[n], config)[i]
            == if k.id == id && |times| >= config.failureThreshold && k.isActive && k.status != Disabled
               then k.(status := Failed, cooldownUntil := Some(times[n] + rest as real))
               else k
  {
    var n := |times| - 1;
    FailuresAddUp(window, id, times, config);
    assert WindowAfter(window, id, times, config)[id]
           == Bumped(WindowAfter(window, id, times[..n], config), id, times[n], config);
  }

  /** A success costs its key the estimate, as far as the credits go, and no other key anything. */
  lemma SuccessCosts(rows: seq<ApiKey>, id: int, cost: Option<int>, i: nat)
    requires i < |rows|
    ensures var k, k' := rows[i], Charged(rows, id, cost)[i];
            && k' == k.(credits := k'.credits)
            && (k.id != id || cost.None? || k.credits.None? ==> k' == k)
            && (k.id == id && cost.Some? && k.credits.Some? ==>
                  k'.credits == Some(if cost.value <= k.credits.value then k.credits.value - cost.value else 0))
  {
  }

  /** A key that has given a rate-limit answer rests for as long as the answer asks if it asks for a positive time, else
      for the configured time, and select passes it over until less than a second of that is left. */
  lemma RateLimitedKeyRests(k: ApiKey, resp: Upstream, now: real, config: Config, q: S.Look)
    requires resp.outcome == RateLimit && k.isActive && k.status != Disabled
    requires k.id !in q.exclude && q.storeRemaining(k.id) == None
    ensures var rest := if resp.retryAfter.Some? && resp.retryAfter.value >= 1 then resp.retryAfter.value
                        else config.cooldownSeconds;
            var k' := L.Act(k, Verdict(resp, now, config));
            && k' == k.(status := Cooling, cooldownUntil := Some(now + rest as real))
            && (S.TagOf(k', q) == S.OnCooldown <==> q.now + 1.0 <= now + rest as real)
  {
    S.TagMeaning(L.Act(k, Verdict(resp, now, config)), q);
  }

  /** An answer counts against its key if it is the key's own fault and its status says so: unauthorised, payment
      required or too many requests.  In the pool a rate-limit or credit answer counts as the last of these if its
      status is not that of a client's error, and on the pinned path every rate-limit answer does.  A success wipes the
      slate. */
  lemma OnlyOwnFaultsCount(pow: F.Pow, m: F.Memory, id: int, resp: Upstream, pinned: bool, half: real, mono: real)
    requires F.IsDecay(pow) && (id in m ==> 0.0 <= m[id].count)
    ensures var says := resp.status in {401, 402, 429};
            var counts := match resp.outcome
                          case RateLimit => says || pinned || !(400 <= resp.status < 500)
                          case Credit => says || (!pinned && !(400 <= resp.status < 500))
                          case InvalidKey => says
                          case _ => false;
            F.Reading(pow, ConcludedMemory(m, id, resp, pinned, mono), id, half, mono)
            == if resp.outcome == Ok then 0.0
               else if counts then (if id in m then m[id].count else 0.0) + 1.0
               else F.Reading(pow, m, id, half, mono)
  {
    F.FailureCountsOne(pow, m, id, half, mono, mono);
  }

  lemma TurnKeeps(rows: seq<ApiKey>, window: map<int, (int, real)>, id: int, active: bool, turn: Turn, now: real,
                  config: Config, kept: set<int>)
    requires id !in kept && !turn.Answered?
    ensures Evolved(rows, RowsAfterTurn(rows, window, id, active, turn, now, config), kept)
    ensures Marked(RowsAfterTurn(rows, window, id, active, turn, now, config), Visit(id, turn), now, config)
  {
    FailureEvolves(rows, window, id, active, now, config, kept);
    ActionEvolves(rows, id, L.DecryptDisable, kept);
    DecryptMarks(rows, id, now, config);
  }

  /** The rows after a rate-limit answer. */
  function RowsAfterLimit(rows: seq<ApiKey>, id: int, resp: Upstream, w: World, config: Config): (r: seq<ApiKey>)
    requires resp.outcome == RateLimit
    ensures |r| == |rows|
  {
    WithAction(RowsAfterProbe(rows, id, w), id, Verdict(resp, w.now, config))
  }

  /** The status a punished answer is recorded under. */
  function BlamedStatus(resp: Upstream, pinned: bool): int {
    if pinned && resp.outcome == RateLimit then 429
    else if pinned || resp.outcome == InvalidKey || 400 <= resp.status < 500 then resp.status
    else 429
  }

  /** The rows after an answer has been dealt with. */
  function ConcludedRows(rows: seq<ApiKey>, window: map<int, (int, real)>, id: int, active: bool, resp: Upstream,
                         w: World, config: Config): seq<ApiKey>
  {
    match resp.outcome
    case Ok => Charged(rows, id, w.cost)
    case Upstream5xx => RowsAfterFailure(rows, window, id, active, w.now, config)
    case Passthrough => rows
    case _ => WithAction(RowsAfterProbe(rows, id, w), id, Verdict(resp, w.now, config))
  }

  /** The failure memory after an answer: cleared by a success, raised by a key-attributable status. */
  function ConcludedMemory(m: F.Memory, id: int, resp: Upstream, pinned: bool, mono: real): F.Memory {
    if resp.outcome == Ok then F.AfterSuccess(m, id)
    else if Retryable(resp.outcome) then Penalised(m, id, BlamedStatus(resp, pinned), mono)
    else m
  }

  lemma VerdictMarks(rows: seq<ApiKey>, v: Visit, now: real, config: Config)
    requires v.turn.Answered? && Retryable(v.turn.resp.outcome)
    ensures Marked(WithAction(rows, v.id, Verdict(v.turn.resp, now, config)), v, now, config)
  {
    var r := WithAction(rows, v.id, Verdict(v.turn.resp, now, config));
    forall k | k in r && k.id == v.id ensures Mark(k, v.turn, now, config) {
      var i :| 0 <= i < |r| && r[i] == k;
    }
  }

  lemma DecryptMarks(rows: seq<ApiKey>, id: int, now: real, config: Config)
    ensures Marked(WithAction(rows, id, L.DecryptDisable), Visit(id, Undecryptable), now, config)
  {
    var r := WithAction(rows, id, L.DecryptDisable);
    forall k | k in r && k.id == id ensures Mark(k, Undecryptable, now, config) {
      var i :| 0 <= i < |r| && r[i] == k;
    }
  }

  lemma ProbeEvolves(rows: seq<ApiKey>, id: int, w: World, kept: set<int>)
    requires id !in kept
    ensures Evolved(rows, RowsAfterProbe(rows, id, w), kept)
  {
    if w.probed.Some? {
      ActionEvolves(rows, id, L.Probe4xx(w.probed.value.probe, w.now, w.probed.value.next), kept);
    }
  }

  lemma FailureEvolves(rows: seq<ApiKey>, window: map<int, (int, real)>, id: int, active: bool, now: real,
                       config: Config, kept: set<int>)
    requires id !in kept
    ensures Evolved(rows, RowsAfterFailure(rows, window, id, active, now, config), kept)
  {
    ActionEvolves(rows, id, L.Fail(now + Max(config.failedCooldown, 1) as real), kept);
  }

  lemma ChargeEvolves(rows: seq<ApiKey>, id: int, cost: Option<int>, kept: set<int>)
    requires id !in kept
    ensures Evolved(rows, Charged(rows, id, cost), kept)
  {
  }

  lemma RoundKeeps(before: seq<ApiKey>, settled: seq<ApiKey>, after: seq<ApiKey>, q: S.Look, id: int)
    requires Evolved(before, settled, q.exclude) && Settling(before, settled, {}) && id !in q.exclude
    requires Evolved(settled, after, Others(settled, id))
    ensures Evolved(before, after, q.exclude) && Settling(before, after, {id})
  {
    forall i | 0 <= i < |after|
      ensures KeyEvolved(before[i], after[i], q.exclude) && (before[i].id == id || after[i] == settled[i]) {
      assert KeyEvolved(before[i], settled[i], q.exclude) && settled[i] in settled;
      assert KeyEvolved(settled[i], after[i], Others(settled, id));
    }
  }
}

/** Round-robin exploration over a sequence of select calls (app/core/key_pool.py): exploit choices, refusals and
    other providers' choices come in between. */
module Exploration {
  import opened Prelude
  import opened Keys
  import opened Choice
  import opened Scheduling
  import F = FailureMemory

  /** A call of select that found candidates, and the choice it returned if its commit went through. */
  datatype Pick = Pick(provider: string, candidates: seq<Candidate>, chance: Chance, chosen: Candidate, explore: bool)

  function IdsOf(cs: seq<Candidate>): seq<int> {
    seq(|cs|, i requires 0 <= i < |cs| => cs[i].id)
  }

  function After(cursors: map<string, nat>, s: Settings, p: Pick): map<string, nat> {
    CursorAfter(cursors, p.provider, s, p.chance, |p.candidates|)
  }

  /** The call returns what the cursors prescribe. */
  ghost predicate Follows(cursors: map<string, nat>, s: Settings, p: Pick) {
    && p.candidates != []
    && (p.chance.commitOk ==> Prescribed(p.candidates, p.provider, s, cursors, p.chance, p.chosen, p.explore))
  }

  /** So does each of a sequence of calls, with the cursors the earlier ones have left. */
  ghost predicate AllFollow(cursors: map<string, nat>, s: Settings, picks: seq<Pick>)
    decreases |picks|
  {
    picks == [] || (Follows(cursors, s, picks[0]) && AllFollow(After(cursors, s, picks[0]), s, picks[1..]))
  }

  function AfterAll(cursors: map<string, nat>, s: Settings, picks: seq<Pick>): map<string, nat>
    decreases |picks|
  {
    if picks == [] then cursors else AfterAll(After(cursors, s, picks[0]), s, picks[1..])
  }

  lemma {:induction false} OneMoreFollows(cursors: map<string, nat>, s: Settings, picks: seq<Pick>, p: Pick)
    requires AllFollow(cursors, s, picks) && Follows(AfterAll(cursors, s, picks), s, p)
    ensures AllFollow(cursors, s, picks + [p])
    ensures AfterAll(cursors, s, picks + [p]) == After(AfterAll(cursors, s, picks), s, p)
    decreases |picks|
  {
    var all := picks + [p];
    if picks == [] {
      assert all == [p] && all[1..] == [];
    } else {
      assert all[0] == picks[0] && all[1..] == picks[1..] + [p];
      OneMoreFollows(After(cursors, s, picks[0]), s, picks[1..], p);
    }
  }

  predicate ExploresFor(p: Pick, s: Settings, provider: string) {
    p.provider == provider && Explores(s, p.chance, |p.candidates|)
  }

  /** The keys explored for one provider, in order. */
  function Explored(picks: seq<Pick>, s: Settings, provider: string): seq<int>
    decreases |picks|
  {
    if picks == [] then []
    else (if ExploresFor(picks[0], s, provider) then [picks[0].chosen.id] else []) + Explored(picks[1..], s, provider)
  }

  /** While the calls last, the provider's candidates are the same keys, whatever their scores, and its explore choices
      are committed. */
  ghost predicate SameKeys(picks: seq<Pick>, s: Settings, provider: string, ids: seq<int>) {
    forall i :: 0 <= i < |picks| && ExploresFor(picks[i], s, provider) ==>
      picks[i].chance.commitOk && IdsOf(picks[i].candidates) == ids
  }

  /** Whatever comes in between, the explore choices walk round the keys from the provider's cursor. */
  lemma {:induction false} ExploredWalksRound(cursors: map<string, nat>, s: Settings, picks: seq<Pick>,
                                              provider: string, ids: seq<int>, i: nat)
    requires ids != [] && AllFollow(cursors, s, picks) && SameKeys(picks, s, provider, ids)
    requires i < |Explored(picks, s, provider)|
    ensures var n := |Explored(picks, s, provider)|;
            Explored(picks, s, provider)[i] == ids[ExplorePicks(CursorOf(cursors, provider), |ids|, n)[i]]
    decreases |picks|
  {
    var first := picks[0];
    assert SameKeys(picks[1..], s, provider, ids);
    if ExploresFor(first, s, provider) {
      assert |first.candidates| == |IdsOf(first.candidates)| == |ids|;
      assert first.chosen == first.candidates[ExplorePick(CursorOf(cursors, provider), |ids|)];
      if i > 0 {
        ExploredWalksRound(After(cursors, s, first), s, picks[1..], provider, ids, i - 1);
      }
    } else {
      assert CursorOf(After(cursors, s, first), provider) == CursorOf(cursors, provider);
      ExploredWalksRound(After(cursors, s, first), s, picks[1..], provider, ids, i);
    }
  }

  ghost predicate Differ(ids: seq<int>) {
    forall i, j :: 0 <= i < j < |ids| ==> ids[i] != ids[j]
  }

  /** Once a provider with m candidates has had m explore choices they have visited every key exactly once. */
  lemma ExploreIsFairAcrossCalls(cursors: map<string, nat>, s: Settings, picks: seq<Pick>, provider: string,
                                 ids: seq<int>)
    requires ids != [] && AllFollow(cursors, s, picks) && SameKeys(picks, s, provider, ids)
    requires |Explored(picks, s, provider)| == |ids|
    ensures forall id :: id in ids ==> id in Explored(picks, s, provider)
    ensures Differ(ids) ==> Differ(Explored(picks, s, provider))
  {
    var done, m, cursor := Explored(picks, s, provider), |ids|, CursorOf(cursors, provider);
    var at := ExplorePicks(cursor, m, m);
    forall i | 0 <= i < m ensures done[i] == ids[at[i]] {
      ExploredWalksRound(cursors, s, picks, provider, ids, i);
    }
    WalkCovers(ids, at, done, cursor);
  }

  lemma WalkCovers(ids: seq<int>, at: seq<nat>, done: seq<int>, cursor: nat)
    requires ids != [] && at == ExplorePicks(cursor, |ids|, |ids|) && |done| == |ids|
    requires forall i :: 0 <= i < |done| ==> done[i] == ids[at[i]]
    ensures forall id :: id in ids ==> id in done
    ensures Differ(ids) ==> Differ(done)
  {
    forall id | id in ids ensures id in done {
      var target :| 0 <= target < |ids| && ids[target] == id;
      ExploreIsFair(cursor, |ids|, target);
      var i :| 0 <= i < |ids| && at[i] == target;
      assert done[i] == id;
    }
    if Differ(ids) {
      ExploreIsFair(cursor, |ids|, 0);
      forall i, j | 0 <= i < j < |done| ensures done[i] != done[j] {
        assert at[i] != at[j];
      }
    }
  }

  ghost predicate Ascending(cs: seq<Candidate>) {
    forall i, j :: 0 <= i < j < |cs| ==> cs[i].id < cs[j].id
  }

  /** The candidates of the scan are in id order, so that sorting them by id leaves them as they are. */
  lemma {:induction false} CandidatesInIdOrder(rows: seq<ApiKey>, q: Look, s: Settings, m: F.Memory, clock: Clock)
    requires InIdOrder(rows)
    ensures var cs := Candidates(rows, q, s, m, clock);
            Ascending(cs) && (cs != [] ==> rows != [] && cs[|cs| - 1].id <= rows[|rows| - 1].id)
  {
    if rows == [] {
    } else {
      var init, last := rows[..|rows| - 1], rows[|rows| - 1];
      InitInIdOrder(rows);
      CandidatesInIdOrder(init, q, s, m, clock);
      AppendKeepsOrder(Candidates(init, q, s, m, clock), CandidateOf(last, q, s, m, clock), last.id);
    }
  }

  lemma InitInIdOrder(rows: seq<ApiKey>)
    requires InIdOrder(rows) && rows != []
    ensures var init := rows[..|rows| - 1];
            InIdOrder(init) && (init != [] ==> init[|init| - 1].id < rows[|rows| - 1].id)
  {
  }

  lemma AppendKeepsOrder(cs: seq<Candidate>, more: seq<Candidate>, id: int)
    requires Ascending(cs) && (cs != [] ==> cs[|cs| - 1].id < id)
    requires |more| <= 1 && forall c :: c in more ==> c.id == id
    ensures Ascending(cs + more) && (cs + more != [] ==> (cs + more)[|cs + more| - 1].id <= id)
  {
    forall i, j | 0 <= i < j < |cs + more| ensures (cs + more)[i].id < (cs + more)[j].id {
      if j == |cs| {
        assert (cs + more)[j] == more[0];
      }
    }
  }

  // -------------------------------------------------------------------- calls

  /** One call, and the table other sessions have left when it is made. */
  datatype Ask = Ask(rows: seq<ApiKey>, look: Look, chance: Chance)

  /** One clock for all the calls, and rows in id order. */
  ghost predicate InTurn(asks: seq<Ask>) {
    && (forall i :: 0 <= i < |asks| ==>
        Ticks(asks[i].chance) && 0.0 <= asks[i].chance.u < 1.0 && InIdOrder(asks[i].rows))
    && (forall i :: 0 <= i < |asks| - 1 ==> Over(asks[i].chance, asks[i + 1].chance))
  }

  ghost predicate Over(a: Chance, b: Chance) {
    forall k :: a.mono <= b.clock(k)
  }

  /** The keys of the choices that were committed, in order, and whether each was an explore choice. */
  function Committed(picks: seq<Pick>): seq<(int, bool)> {
    if picks == [] then []
    else
      var last := picks[|picks| - 1];
      Committed(picks[..|picks| - 1]) + (if last.chance.commitOk then [(last.chosen.id, last.explore)] else [])
  }

  /** The keys the calls returned, likewise. */
  function Answers(results: seq<Selection>): seq<(int, bool)> {
    if results == [] then []
    else
      var last := results[|results| - 1];
      Answers(results[..|results| - 1]) + (if last.Selected? then [(last.id, last.explore)] else [])
  }

  lemma AnswersNext(results: seq<Selection>, result: Selection)
    ensures Answers(results + [result])
            == Answers(results) + (if result.Selected? then [(result.id, result.explore)] else [])
  {
    assert (results + [result])[..|results|] == results;
  }

  lemma CommittedNext(picks: seq<Pick>, p: Pick)
    ensures Committed(picks + [p])
            == Committed(picks) + (if p.chance.commitOk then [(p.chosen.id, p.explore)] else [])
  {
    assert (picks + [p])[..|picks|] == picks;
  }

  /** Any sequence of select calls on one pool follows the cursors, and returns the choices that were committed. */
  method SelectAll(pool: KeyPool, asks: seq<Ask>) returns (ghost picks: seq<Pick>, results: seq<Selection>)
    requires pool.Valid() && InTurn(asks) && (asks != [] ==> Since(pool.failures, asks[0].chance))
    modifies pool
    ensures pool.Valid() && |results| == |asks|
    ensures AllFollow(old(pool.rrCursor), pool.settings, picks)
    ensures pool.rrCursor == AfterAll(old(pool.rrCursor), pool.settings, picks)
    ensures Committed(picks) == Answers(results)
  {
    picks, results := [], [];
    for i := 0 to |asks|
      invariant pool.Valid() && |results| == i
      invariant i < |asks| ==> Since(pool.failures, asks[i].chance)
      invariant AllFollow(old(pool.rrCursor), pool.settings, picks)
      invariant pool.rrCursor == AfterAll(old(pool.rrCursor), pool.settings, picks)
      invariant Committed(picks) == Answers(results)
    {
      pool.rows := asks[i].rows;
      var result, pick := SelectOne(pool, asks[i]);
      AnswersNext(results, result);
      if pick.Some? {
        OneMoreFollows(old(pool.rrCursor), pool.settings, picks, pick.value);
        CommittedNext(picks, pick.value);
        picks := picks + [pick.value];
      }
      results := results + [result];
      if i + 1 < |asks| {
        assert Over(asks[i].chance, asks[i + 1].chance);
        Later(pool.failures, asks[i].chance, asks[i + 1].chance);
      }
    }
  }

  lemma Later(m: F.Memory, a: Chance, b: Chance)
    requires F.NotAfter(m, a.mono) && Over(a, b)
    ensures Since(m, b)
  {
  }

  /** One call, which makes a choice or leaves the cursors alone. */
  method SelectOne(pool: KeyPool, ask: Ask) returns (result: Selection, ghost pick: Option<Pick>)
    requires pool.Valid() && pool.rows == ask.rows && Ticks(ask.chance) && 0.0 <= ask.chance.u < 1.0
    requires Since(pool.failures, ask.chance)
    modifies pool
    ensures pool.Valid() && F.NotAfter(pool.failures, ask.chance.mono)
    ensures pick.None? ==> result.Refusal? && pool.rrCursor == old(pool.rrCursor)
    ensures pick.Some? ==>
              && Follows(old(pool.rrCursor), pool.settings, pick.value)
              && pool.rrCursor == After(old(pool.rrCursor), pool.settings, pick.value)
              && pick.value.provider == ask.look.provider && pick.value.chance == ask.chance
              && pick.value.candidates ==
                 Candidates(ask.rows, ask.look, pool.settings, old(pool.failures), ask.chance.clock)
              && (result.Selected? <==> ask.chance.commitOk)
              && (result.Selected? ==>
                  pick.value.chosen == Candidate(result.score, result.id) && pick.value.explore == result.explore)
  {
    ghost var cs := Candidates(ask.rows, ask.look, pool.settings, pool.failures, ask.chance.clock);
    ScanIsExhaustive(ask.rows, ask.look, pool.settings, pool.failures, ask.chance.clock);
    result := pool.Select(ask.look, ask.chance);
    pick := None;
    if ask.chance.queryOk && cs != [] {
      ghost var chosen := if result.Selected? then Candidate(result.score, result.id) else cs[0];
      pick := Some(Pick(ask.look.provider, cs, ask.chance, chosen, result.Selected? && result.explore));
    }
  }
}

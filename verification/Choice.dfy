/** How KeyPool.select (app/core/key_pool.py) picks among the eligible keys: near-best weighted
    choice on the exploit path, round-robin on the explore path. */
module Choice {
  import opened Prelude

  datatype Candidate = Candidate(score: real, id: int)

  // ------------------------------------------------------------------ exploit

  /** The sort key (-score, id). */
  predicate Before(a: Candidate, b: Candidate) {
    a.score > b.score || (a.score == b.score && a.id <= b.id)
  }

  ghost predicate Sorted(s: seq<Candidate>) {
    forall i, j :: 0 <= i < j < |s| ==> Before(s[i], s[j])
  }

  function Inserted(c: Candidate, s: seq<Candidate>): (r: seq<Candidate>)
    ensures forall x :: x in r <==> x == c || x in s
  {
    if s == [] then [c]
    else if Before(c, s[0]) then [c] + s
    else [s[0]] + Inserted(c, s[1..])
  }

  /** The library sort by (-score, id). */
  function ByScore(s: seq<Candidate>): (r: seq<Candidate>)
    ensures forall x :: x in r <==> x in s
  {
    if s == [] then [] else Inserted(s[0], ByScore(s[1..]))
  }

  lemma {:induction false} InsertedIsSorted(c: Candidate, s: seq<Candidate>)
    requires Sorted(s)
    ensures Sorted(Inserted(c, s))
  {
    if s != [] && !Before(c, s[0]) {
      var rest := Inserted(c, s[1..]);
      InsertedIsSorted(c, s[1..]);
      forall j | 0 <= j < |rest| ensures Before(s[0], rest[j]) {
        assert rest[j] in rest;
      }
    }
  }

  lemma {:induction false} ByScoreIsSorted(s: seq<Candidate>)
    ensures Sorted(ByScore(s))
  {
    if s != [] {
      ByScoreIsSorted(s[1..]);
      InsertedIsSorted(s[0], ByScore(s[1..]));
    }
  }

  lemma {:induction false} InsertedAddsOne(c: Candidate, s: seq<Candidate>)
    ensures multiset(Inserted(c, s)) == multiset(s) + multiset{c}
  {
    if s != [] {
      InsertedAddsOne(c, s[1..]);
      assert s == [s[0]] + s[1..];
    }
  }

  lemma {:induction false} ByScorePermutes(s: seq<Candidate>)
    ensures multiset(ByScore(s)) == multiset(s)
  {
    if s != [] {
      ByScorePermutes(s[1..]);
      InsertedAddsOne(s[0], ByScore(s[1..]));
      assert s == [s[0]] + s[1..];
    }
  }

  function AtLeast(s: seq<Candidate>, threshold: real): (r: seq<Candidate>)
    ensures forall c :: c in r <==> c in s && c.score >= threshold
  {
    if s == [] then []
    else if s[0].score >= threshold then [s[0]] + AtLeast(s[1..], threshold)
    else AtLeast(s[1..], threshold)
  }

  /** Candidates within `ratio` of the best, best first. */
  function NearBest(candidates: seq<Candidate>, ratio: real): seq<Candidate>
    requires candidates != []
  {
    AtLeast(ByScore(candidates), Best(candidates).score * ratio)
  }

  function Weight(c: Candidate): real {
    MaxReal(c.score, 0.0)
  }

  /** Total weight of the first `i` candidates. */
  function PrefixWeight(s: seq<Candidate>, i: nat): real
    requires i <= |s|
  {
    if i == 0 then 0.0 else PrefixWeight(s, i - 1) + Weight(s[i - 1])
  }

  /** Candidate `i` owns the draws in (prefix(i), prefix(i + 1)]. */
  predicate Owns(s: seq<Candidate>, i: nat, draw: real) {
    i < |s| && PrefixWeight(s, i) < draw <= PrefixWeight(s, i + 1)
  }

  lemma {:induction false} PrefixMonotone(s: seq<Candidate>, i: nat, j: nat)
    requires i <= j <= |s|
    ensures PrefixWeight(s, i) <= PrefixWeight(s, j)
    decreases j
  {
    if i < j {
      PrefixMonotone(s, i, j - 1);
    }
  }

  method PickWeighted(near: seq<Candidate>, draw: real) returns (i: nat)
    requires near != []
    ensures i < |near|
    ensures 0.0 < draw <= PrefixWeight(near, |near|) ==> Owns(near, i, draw)
    ensures draw <= 0.0 || PrefixWeight(near, |near|) < draw ==> i == 0
  {
    var acc := 0.0;
    var k := 0;
    while k < |near|
      invariant 0 <= k <= |near| && acc == PrefixWeight(near, k)
      invariant k == 0 || acc < draw
    {
      acc := acc + Weight(near[k]);
      if draw <= acc {
        PrefixMonotone(near, 0, k);
        PrefixMonotone(near, k + 1, |near|);
        return k;
      }
      k := k + 1;
    }
    return 0;
  }

  /** The intervals are disjoint, cover (0, total], and each is as long as the candidate's score. */
  lemma DrawsArePartitioned(near: seq<Candidate>, draw: real)
    requires near != [] && (forall c :: c in near ==> 0.0 <= c.score)
    ensures 0.0 < draw <= PrefixWeight(near, |near|) <==> exists i: nat :: Owns(near, i, draw)
    ensures forall i: nat, j: nat :: Owns(near, i, draw) && Owns(near, j, draw) ==> i == j
    ensures forall i :: 0 <= i < |near| ==> PrefixWeight(near, i + 1) - PrefixWeight(near, i) == near[i].score
  {
    forall i: nat, j: nat | Owns(near, i, draw) && Owns(near, j, draw) ensures i == j {
      if i < j {
        PrefixMonotone(near, i + 1, j);
      } else if j < i {
        PrefixMonotone(near, j + 1, i);
      }
    }
    if exists i: nat :: Owns(near, i, draw) {
      var i: nat :| Owns(near, i, draw);
      PrefixMonotone(near, 0, i);
      PrefixMonotone(near, i + 1, |near|);
    }
    if 0.0 < draw <= PrefixWeight(near, |near|) {
      OwnerExists(near, draw, |near|);
    }
  }

  lemma {:induction false} OwnerExists(near: seq<Candidate>, draw: real, n: nat)
    requires n <= |near| && 0.0 < draw <= PrefixWeight(near, n)
    ensures exists i: nat :: Owns(near, i, draw)
  {
    if PrefixWeight(near, n - 1) < draw {
      assert Owns(near, n - 1, draw);
    } else {
      OwnerExists(near, draw, n - 1);
    }
  }

  /** The best candidate: the head of the sorted list. */
  function Best(candidates: seq<Candidate>): (best: Candidate)
    requires candidates != []
    ensures best in candidates
  {
    assert candidates[0] in ByScore(candidates);
    ByScore(candidates)[0]
  }

  lemma BestIsBest(candidates: seq<Candidate>)
    requires candidates != []
    ensures forall d :: d in candidates ==> d.score <= Best(candidates).score
  {
    ByScoreIsSorted(candidates);
    forall d | d in candidates ensures d.score <= Best(candidates).score {
      var j :| 0 <= j < |ByScore(candidates)| && ByScore(candidates)[j] == d;
    }
  }

  lemma {:induction false} AtLeastIsSorted(s: seq<Candidate>, threshold: real)
    requires Sorted(s)
    ensures Sorted(AtLeast(s, threshold))
  {
    if s != [] {
      AtLeastIsSorted(s[1..], threshold);
      forall d | d in AtLeast(s[1..], threshold) ensures Before(s[0], d) {
        assert d in s[1..];
      }
    }
  }

  lemma {:induction false} AtLeastKeeps(s: seq<Candidate>, threshold: real, c: Candidate)
    ensures multiset(AtLeast(s, threshold))[c] == if c.score >= threshold then multiset(s)[c] else 0
  {
    if s != [] {
      AtLeastKeeps(s[1..], threshold, c);
      assert s == [s[0]] + s[1..];
    }
  }

  /** Not below `ratio` times the score of any candidate. */
  ghost predicate Near(all: seq<Candidate>, ratio: real, c: Candidate) {
    forall d :: d in all ==> c.score >= d.score * ratio
  }

  lemma NearIsNearBest(all: seq<Candidate>, ratio: real, c: Candidate)
    requires all != [] && 0.0 <= ratio
    ensures Near(all, ratio, c) <==> c.score >= Best(all).score * ratio
  {
    if c.score >= Best(all).score * ratio {
      AboveIsNear(all, ratio, c);
    }
  }

  lemma AboveIsNear(all: seq<Candidate>, ratio: real, c: Candidate)
    requires all != [] && 0.0 <= ratio && Best(all).score * ratio <= c.score
    ensures Near(all, ratio, c)
  {
    BestIsBest(all);
    forall d | d in all ensures c.score >= d.score * ratio {
      ScaledBelow(d.score, Best(all).score, ratio, c.score);
    }
  }

  lemma ScaledBelow(x: real, y: real, k: real, z: real)
    requires x <= y && 0.0 <= k && y * k <= z
    ensures x * k <= z
  {
    ScaleMonotone(x, y, k);
  }

  /** The near set holds the candidates within the ratio of all others, each as often as it occurs, best first. */
  lemma NearBestMeaning(candidates: seq<Candidate>, ratio: real)
    requires candidates != [] && 0.0 <= ratio
    ensures var near := NearBest(candidates, ratio);
            && Sorted(near)
            && (forall c :: c in near <==> c in candidates && Near(candidates, ratio, c))
            && (forall c :: c in near ==> multiset(near)[c] == multiset(candidates)[c])
  {
    var threshold := Best(candidates).score * ratio;
    ByScoreIsSorted(candidates);
    ByScorePermutes(candidates);
    AtLeastIsSorted(ByScore(candidates), threshold);
    forall c ensures Near(candidates, ratio, c) <==> c.score >= threshold {
      NearIsNearBest(candidates, ratio, c);
    }
    forall c | c in NearBest(candidates, ratio)
      ensures multiset(NearBest(candidates, ratio))[c] == multiset(candidates)[c]
    {
      AtLeastKeeps(ByScore(candidates), threshold, c);
    }
  }

  lemma Discounted(x: real, ratio: real)
    requires 0.0 <= x && ratio <= 1.0
    ensures x * ratio <= x
  {
    ScaleMonotone(ratio, 1.0, x);
  }

  lemma NearBestNonEmpty(candidates: seq<Candidate>, ratio: real)
    requires candidates != [] && 0.0 <= ratio <= 1.0 && 0.0 <= Best(candidates).score
    ensures Best(candidates) in NearBest(candidates, ratio)
  {
    BestIsNear(candidates, ratio);
    NearBestMeaning(candidates, ratio);
  }

  lemma BestIsNear(candidates: seq<Candidate>, ratio: real)
    requires candidates != [] && 0.0 <= ratio <= 1.0 && 0.0 <= Best(candidates).score
    ensures Near(candidates, ratio, Best(candidates))
  {
    Discounted(Best(candidates).score, ratio);
    AboveIsNear(candidates, ratio, Best(candidates));
  }

  /** A candidate whose score is at least `ratio` times the best score there is. */
  ghost predicate IsNearBest(candidates: seq<Candidate>, ratio: real, c: Candidate)
    requires candidates != []
  {
    && c in candidates
    && c.score >= Best(candidates).score * ratio
    && forall d :: d in candidates ==> d.score <= Best(candidates).score
  }

  function Draw(u: real, total: real): real {
    u * total
  }

  /** What the exploit path chooses: a near-best candidate, the owner of the draw among them, or the first of them if no
      draw is in anyone's interval. */
  ghost predicate Exploited(candidates: seq<Candidate>, ratio: real, u: real, chosen: Candidate)
    requires candidates != []
  {
    var near := NearBest(candidates, ratio);
    var total := PrefixWeight(near, |near|);
    && IsNearBest(candidates, ratio, chosen) && near != []
    && (total <= 0.0 || u == 0.0 ==> chosen == near[0])
    && (total > 0.0 && u > 0.0 ==> exists i: nat :: Owns(near, i, Draw(u, total)) && chosen == near[i])
  }

  /** The exploit path, `u` being the random number in [0, 1). */
  method Exploit(candidates: seq<Candidate>, ratio: real, u: real) returns (chosen: Candidate)
    requires candidates != [] && 0.0 <= ratio <= 1.0 && 0.0 <= u < 1.0
    requires forall c :: c in candidates ==> 0.0 <= c.score
    ensures Exploited(candidates, ratio, u, chosen)
  {
    BestIsBest(candidates);
    NearBestNonEmpty(candidates, ratio);
    var near := NearBest(candidates, ratio);
    var i := PickNear(near, u);
    chosen := near[i];
    assert chosen in near;
  }

  method PickNear(near: seq<Candidate>, u: real) returns (i: nat)
    requires near != [] && 0.0 <= u < 1.0
    ensures i < |near|
    ensures PrefixWeight(near, |near|) <= 0.0 || u == 0.0 ==> i == 0
    ensures PrefixWeight(near, |near|) > 0.0 && u > 0.0 ==> Owns(near, i, Draw(u, PrefixWeight(near, |near|)))
  {
    var total := SumOfWeights(near);
    if total > 0.0 {
      DrawInRange(u, total);
    }
    if |near| == 1 {
      assert PrefixWeight(near, 0) == 0.0 && PrefixWeight(near, 0 + 1) == total;
      return 0;
    }
    if total <= 0.0 {
      return 0;
    }
    i := PickWeighted(near, Draw(u, total));
  }

  lemma DrawInRange(u: real, total: real)
    requires 0.0 <= u < 1.0 && 0.0 < total
    ensures Draw(u, total) < total
    ensures u > 0.0 ==> 0.0 < Draw(u, total)
    ensures u == 0.0 ==> Draw(u, total) == 0.0
  {
    DrawBelowTotal(u, total);
    if u > 0.0 {
      DrawPositive(u, total);
    }
  }

  lemma DrawBelowTotal(u: real, total: real)
    requires u < 1.0 && 0.0 < total
    ensures Draw(u, total) < total
  {
    assert (1.0 - u) * total > 0.0;
  }

  lemma DrawPositive(u: real, total: real)
    requires 0.0 < u && 0.0 < total
    ensures 0.0 < Draw(u, total)
  {
    assert u * total > 0.0;
  }

  method SumOfWeights(near: seq<Candidate>) returns (total: real)
    ensures total == PrefixWeight(near, |near|)
  {
    total := 0.0;
    for k := 0 to |near|
      invariant total == PrefixWeight(near, k)
    {
      total := total + Weight(near[k]);
    }
  }

  // ------------------------------------------------- how likely each choice is

  /** The scores of those of `part` that are near the best of `all`, added up. */
  ghost function NearTotal(part: seq<Candidate>, all: seq<Candidate>, ratio: real): real {
    if part == [] then 0.0
    else (if Near(all, ratio, part[0]) then part[0].score else 0.0) + NearTotal(part[1..], all, ratio)
  }

  function Total(s: seq<Candidate>): real {
    if s == [] then 0.0 else s[0].score + Total(s[1..])
  }

  lemma {:induction false} InsertedTotal(c: Candidate, s: seq<Candidate>, threshold: real)
    ensures Total(AtLeast(Inserted(c, s), threshold))
            == (if c.score >= threshold then c.score else 0.0) + Total(AtLeast(s, threshold))
  {
    if s != [] && !Before(c, s[0]) {
      InsertedTotal(c, s[1..], threshold);
    }
  }

  lemma {:induction false} ByScoreTotal(part: seq<Candidate>, all: seq<Candidate>, ratio: real)
    requires all != [] && 0.0 <= ratio
    ensures Total(AtLeast(ByScore(part), Best(all).score * ratio)) == NearTotal(part, all, ratio)
  {
    if part != [] {
      ByScoreTotal(part[1..], all, ratio);
      InsertedTotal(part[0], ByScore(part[1..]), Best(all).score * ratio);
      NearIsNearBest(all, ratio, part[0]);
    }
  }

  lemma {:induction false} PrefixTotal(s: seq<Candidate>, i: nat)
    requires i <= |s| && forall c :: c in s ==> 0.0 <= c.score
    ensures PrefixWeight(s, |s|) == PrefixWeight(s, i) + Total(s[i..])
    decreases |s| - i
  {
    if i < |s| {
      PrefixTotal(s, i + 1);
      assert s[i..][1..] == s[i + 1..] && s[i] in s;
    }
  }

  /** Every random number between `lo` and `hi` makes the exploit path choose `c`. */
  ghost predicate AlwaysChosen(candidates: seq<Candidate>, ratio: real, lo: real, hi: real, c: Candidate)
    requires candidates != []
  {
    forall u, chosen :: lo < u <= hi && u < 1.0 && Exploited(candidates, ratio, u, chosen) ==> chosen == c
  }

  /** Each candidate with a positive score within the ratio of all others is chosen, by the random numbers of an
      interval whose length is the share of its score in the total of such candidates. */
  lemma EachNearBestIsChosen(candidates: seq<Candidate>, ratio: real, c: Candidate)
    requires candidates != [] && 0.0 <= ratio && forall d :: d in candidates ==> 0.0 <= d.score
    requires c in candidates && 0.0 < c.score && Near(candidates, ratio, c)
    ensures var total := NearTotal(candidates, candidates, ratio);
            && total > 0.0
            && exists lo, hi ::
                 0.0 <= lo < hi <= 1.0 && hi - lo == c.score / total && AlwaysChosen(candidates, ratio, lo, hi, c)
  {
    NearBestMeaning(candidates, ratio);
    NearWeights(candidates, ratio);
    var near := NearBest(candidates, ratio);
    var i :| 0 <= i < |near| && near[i] == c;
    var lo, hi := NearInterval(candidates, ratio, i);
  }

  lemma NearInterval(candidates: seq<Candidate>, ratio: real, i: nat) returns (lo: real, hi: real)
    requires candidates != [] && 0.0 <= ratio && forall d :: d in candidates ==> 0.0 <= d.score
    requires var near := NearBest(candidates, ratio); i < |near| && 0.0 < near[i].score
    ensures var near := NearBest(candidates, ratio);
            && PrefixWeight(near, |near|) > 0.0
            && 0.0 <= lo < hi <= 1.0 && hi - lo == near[i].score / PrefixWeight(near, |near|)
            && AlwaysChosen(candidates, ratio, lo, hi, near[i])
  {
    var near := NearBest(candidates, ratio);
    PrefixMonotone(near, 0, i);
    PrefixMonotone(near, i + 1, |near|);
    var a, b, total := PrefixWeight(near, i), PrefixWeight(near, i + 1), PrefixWeight(near, |near|);
    Interval(a, near[i].score, b, total);
    OwnerIsChosen(candidates, ratio, i);
    lo, hi := a / total, b / total;
  }

  lemma NearWeights(candidates: seq<Candidate>, ratio: real)
    requires candidates != [] && 0.0 <= ratio && forall d :: d in candidates ==> 0.0 <= d.score
    ensures var near := NearBest(candidates, ratio);
            PrefixWeight(near, |near|) == NearTotal(candidates, candidates, ratio)
  {
    var near := NearBest(candidates, ratio);
    ByScoreTotal(candidates, candidates, ratio);
    PrefixTotal(near, 0);
    assert near[0..] == near;
  }

  lemma OwnerIsChosen(candidates: seq<Candidate>, ratio: real, i: nat)
    requires candidates != [] && 0.0 <= ratio && forall d :: d in candidates ==> 0.0 <= d.score
    requires var near := NearBest(candidates, ratio);
             i < |near| && 0.0 <= PrefixWeight(near, i) < PrefixWeight(near, i + 1) <= PrefixWeight(near, |near|)
    ensures var near := NearBest(candidates, ratio);
            var total := PrefixWeight(near, |near|);
            AlwaysChosen(candidates, ratio, PrefixWeight(near, i) / total, PrefixWeight(near, i + 1) / total, near[i])
  {
    var near := NearBest(candidates, ratio);
    var a, b, total := PrefixWeight(near, i), PrefixWeight(near, i + 1), PrefixWeight(near, |near|);
    forall u, chosen | a / total < u <= b / total && u < 1.0 && Exploited(candidates, ratio, u, chosen)
      ensures chosen == near[i]
    {
      DrawInInterval(a, b, total, u);
      DrawsArePartitioned(near, Draw(u, total));
      assert Owns(near, i, Draw(u, total));
    }
  }

  lemma Interval(a: real, length: real, b: real, total: real)
    requires 0.0 <= a < b <= total && b - a == length
    ensures 0.0 <= a / total < b / total <= 1.0 && b / total - a / total == length / total
  {
    QuotientAtMost(b, total, 1.0);
    assert a / total * total == a && b / total * total == b;
    assert b / total == a / total + length / total;
    assert length / total > 0.0;
  }

  lemma DrawInInterval(a: real, b: real, total: real, u: real)
    requires 0.0 <= a < b <= total && a / total < u <= b / total
    ensures a < Draw(u, total) <= b && 0.0 < u
  {
    assert a / total * total == a && b / total * total == b;
    ScaleStrict(a / total, u, total);
    ScaleMonotone(u, b / total, total);
    assert 0.0 <= a / total;
  }

  // ------------------------------------------------------------------ explore

  /** Position picked among `m` candidates; the cursor then moves one past it. */
  function ExplorePick(cursor: nat, m: nat): (i: nat)
    requires m > 0
    ensures i < m
  {
    cursor % m
  }

  /** Positions picked by `n` explore choices in a row. */
  function ExplorePicks(cursor: nat, m: nat, n: nat): (r: seq<nat>)
    requires m > 0
    ensures |r| == n && forall i :: 0 <= i < n ==> r[i] < m
    decreases n
  {
    if n == 0 then [] else [ExplorePick(cursor, m)] + ExplorePicks(ExplorePick(cursor, m) + 1, m, n - 1)
  }

  lemma SmallModulus(x: nat, m: nat)
    requires m > 0 && x <= m
    ensures x % m == if x == m then 0 else x
  {
  }

  lemma {:induction false} PickAt(cursor: nat, m: nat, n: nat, i: nat)
    requires m > 0 && i < n && i < m
    ensures var s := ExplorePick(cursor, m);
            ExplorePicks(cursor, m, n)[i] == if s + i < m then s + i else s + i - m
    decreases i
  {
    if i > 0 {
      var s := ExplorePick(cursor, m);
      SmallModulus(s + 1, m);
      PickAt(s + 1, m, n - 1, i - 1);
    }
  }

  /** From any cursor, whatever set sizes produced it, any m explore picks among the same m candidates
      visit every candidate exactly once. */
  lemma ExploreIsFair(cursor: nat, m: nat, target: nat)
    requires target < m
    ensures exists i :: 0 <= i < m && ExplorePicks(cursor, m, m)[i] == target
    ensures forall i, j :: 0 <= i < j < m ==> ExplorePicks(cursor, m, m)[i] != ExplorePicks(cursor, m, m)[j]
  {
    var s := ExplorePick(cursor, m);
    var at := if target >= s then target - s else target + m - s;
    PickAt(cursor, m, m, at);
    forall i, j | 0 <= i < j < m ensures ExplorePicks(cursor, m, m)[i] != ExplorePicks(cursor, m, m)[j] {
      PickAt(cursor, m, m, i);
      PickAt(cursor, m, m, j);
    }
  }
}

/** Ranking the drivers near a pickup point by distance and rating. Distances are the rounded
    metres, ratings and scores exact. */
module Matching {
  import opened Wrappers

  datatype Driver = Driver(id: string, distance: nat, rating: real)

  datatype Match = Match(id: string, score: real, distance: nat, rating: real)

  const DISTANCE_WEIGHT := 0.7
  const RATING_WEIGHT := 0.3

  /** The largest distance, at least 1. */
  function MaxDistance(drivers: seq<Driver>): (m: nat)
    ensures m >= 1
    ensures forall i :: 0 <= i < |drivers| ==> drivers[i].distance <= m
    ensures m == 1 || exists i :: 0 <= i < |drivers| && drivers[i].distance == m
  {
    if drivers == [] then 1
    else
      var m := MaxDistance(drivers[1..]);
      if drivers[0].distance >= m then drivers[0].distance else m
  }

  const MIN_RATING := 1.0
  const MAX_RATING := 5.0

  /** The score as `findBestDriver` computes it. */
  function Score(d: Driver, maxDistance: nat): real
    requires maxDistance >= 1
  {
    var normalizedDistance := d.distance as real / maxDistance as real;
    var normalizedRating := (d.rating - MIN_RATING) / (MAX_RATING - MIN_RATING);
    DISTANCE_WEIGHT * (1.0 - normalizedDistance) + RATING_WEIGHT * normalizedRating
  }

  /** The score as `findRankedDrivers` computes it, in a loop of its own. */
  function RankedScore(d: Driver, maxDistance: nat): real
    requires maxDistance >= 1
  {
    var normalizedDistance := d.distance as real / maxDistance as real;
    var normalizedRating := (d.rating - 1.0) / 4.0;
    DISTANCE_WEIGHT * (1.0 - normalizedDistance) + RATING_WEIGHT * normalizedRating
  }

  /** Seven tenths for the distance, as a part of the largest, and three for the rating, as a part
      of the four points there are: between 0 and 1, and 1 only for five stars on the spot. */
  lemma ScoreExactly(d: Driver, m: nat)
    requires m >= 1
    ensures 40.0 * (m as real * Score(d, m)) ==
              28.0 * (m as real - d.distance as real) + 3.0 * (m as real * (d.rating - 1.0))
    ensures d.distance <= m && 1.0 <= d.rating <= 5.0 ==> 0.0 <= Score(d, m) <= 1.0
    ensures d.distance <= m && 1.0 <= d.rating <= 5.0 ==>
              (Score(d, m) == 1.0 <==> d.distance == 0 && d.rating == 5.0)
  {
    var part, n := d.distance as real / m as real, m as real;
    assert part * n == d.distance as real;
    var score := 0.7 * (1.0 - part) + 0.075 * (d.rating - 1.0);
    assert Score(d, m) == score;
    assert n * score == 0.7 * (n - part * n) + 0.075 * (n * (d.rating - 1.0));
    PartOfOne(d.distance, m, part);
  }

  lemma PartOfOne(k: nat, m: nat, part: real)
    requires m >= 1 && part * m as real == k as real
    ensures part >= 0.0 && (part == 0.0 <==> k == 0) && (k <= m ==> part <= 1.0)
  {
    assert part < 0.0 ==> part * m as real < 0.0;
    assert part > 1.0 ==> part * m as real > m as real;
  }

  function Scored(drivers: seq<Driver>, maxDistance: nat): (s: seq<Match>)
    requires maxDistance >= 1
    ensures |s| == |drivers|
    ensures forall i :: 0 <= i < |s| ==>
      s[i] == Match(drivers[i].id, Score(drivers[i], maxDistance), drivers[i].distance, drivers[i].rating)
  {
    if drivers == [] then []
    else
      var d := drivers[0];
      [Match(d.id, Score(d, maxDistance), d.distance, d.rating)] + Scored(drivers[1..], maxDistance)
  }

  function ScoredForRanking(drivers: seq<Driver>, maxDistance: nat): seq<Match>
    requires maxDistance >= 1
  {
    if drivers == [] then []
    else
      var d := drivers[0];
      [Match(d.id, RankedScore(d, maxDistance), d.distance, d.rating)] + ScoredForRanking(drivers[1..], maxDistance)
  }

  /** The two loops give every driver the same score. */
  lemma {:induction false} LoopsAgree(drivers: seq<Driver>, maxDistance: nat)
    requires maxDistance >= 1
    ensures ScoredForRanking(drivers, maxDistance) == Scored(drivers, maxDistance)
  {
    if drivers != [] { LoopsAgree(drivers[1..], maxDistance); }
  }

  // ---- The stable descending sort

  predicate Descending(s: seq<Match>) {
    forall i, j :: 0 <= i < j < |s| ==> s[i].score >= s[j].score
  }

  function WithScore(s: seq<Match>, v: real): seq<Match> {
    if s == [] then []
    else (if s[0].score == v then [s[0]] else []) + WithScore(s[1..], v)
  }

  function Insert(x: Match, s: seq<Match>): (r: seq<Match>)
    ensures multiset(r) == multiset(s) + multiset{x}
    ensures |r| == |s| + 1
  {
    if s == [] || s[0].score <= x.score then
      [x] + s
    else
      assert s == [s[0]] + s[1..];
      [s[0]] + Insert(x, s[1..])
  }

  /** `sort((a, b) => b.score - a.score)` */
  function SortDescending(s: seq<Match>): (r: seq<Match>)
    ensures multiset(r) == multiset(s) && |r| == |s|
  {
    if s == [] then []
    else
      assert s == [s[0]] + s[1..];
      Insert(s[0], SortDescending(s[1..]))
  }

  lemma WithScoreCons(x: Match, s: seq<Match>, v: real)
    ensures WithScore([x] + s, v) == (if x.score == v then [x] else []) + WithScore(s, v)
  {
    assert ([x] + s)[1..] == s;
  }

  lemma {:induction false} InsertSorts(x: Match, s: seq<Match>)
    requires Descending(s)
    ensures Descending(Insert(x, s))
  {
    if s == [] || s[0].score <= x.score {
      SortedCons(x, s);
    } else {
      var rest := Insert(x, s[1..]);
      InsertSorts(x, s[1..]);
      assert rest[0] in multiset(rest);
      assert rest[0] == x || rest[0] in s[1..];
      SortedCons(s[0], rest);
    }
  }

  lemma {:induction false} InsertKeepsOrder(x: Match, s: seq<Match>, v: real)
    ensures WithScore(Insert(x, s), v) == (if x.score == v then [x] else []) + WithScore(s, v)
  {
    if s == [] || s[0].score <= x.score {
      WithScoreCons(x, s, v);
    } else {
      InsertKeepsOrder(x, s[1..], v);
      WithScoreCons(s[0], Insert(x, s[1..]), v);
    }
  }

  lemma SortedCons(x: Match, s: seq<Match>)
    requires Descending(s) && (s != [] ==> x.score >= s[0].score)
    ensures Descending([x] + s)
  {
  }

  /** The ranking is sorted, and drivers with equal scores keep the order they came in. */
  lemma {:induction false} SortIsStable(s: seq<Match>)
    ensures Descending(SortDescending(s))
    ensures forall v :: WithScore(SortDescending(s), v) == WithScore(s, v)
  {
    if s != [] {
      SortIsStable(s[1..]);
      var sorted := SortDescending(s[1..]);
      InsertSorts(s[0], sorted);
      forall v ensures WithScore(SortDescending(s), v) == WithScore(s, v) {
        InsertKeepsOrder(s[0], sorted, v);
      }
    }
  }

  // ---- The two queries

  function Eligible(drivers: seq<Driver>, exclude: set<string>): (r: seq<Driver>)
    ensures forall d :: d in r <==> d in drivers && d.id !in exclude
  {
    if drivers == [] then []
    else (if drivers[0].id in exclude then [] else [drivers[0]]) + Eligible(drivers[1..], exclude)
  }

  function FindBestDriver(nearby: seq<Driver>, exclude: set<string>): Optional<Match> {
    var eligible := Eligible(nearby, exclude);
    if eligible == [] then None
    else Some(SortDescending(Scored(eligible, MaxDistance(eligible)))[0])
  }

  function FindRankedDrivers(nearby: seq<Driver>, limit: nat): seq<Match> {
    var sorted := SortDescending(ScoredForRanking(nearby, MaxDistance(nearby)));
    if limit <= |sorted| then sorted[..limit] else sorted
  }

  lemma {:induction false} NobodyExcluded(drivers: seq<Driver>)
    ensures Eligible(drivers, {}) == drivers
  {
    if drivers != [] { NobodyExcluded(drivers[1..]); }
  }

  /** With nobody excluded, the best driver heads the ranking. */
  lemma BestHeadsRanking(nearby: seq<Driver>, limit: nat)
    requires limit >= 1
    ensures var ranked := FindRankedDrivers(nearby, limit);
            FindBestDriver(nearby, {}) == if ranked == [] then None else Some(ranked[0])
  {
    NobodyExcluded(nearby);
    LoopsAgree(nearby, MaxDistance(nearby));
  }

  /** The drivers near the pickup point, each with its distance, rating and score. */
  predicate AreMatchesOf(s: seq<Match>, drivers: seq<Driver>) {
    var m := MaxDistance(drivers);
    && |s| == |drivers|
    && forall i :: 0 <= i < |s| ==>
         s[i] == Match(drivers[i].id, RankedScore(drivers[i], m), drivers[i].distance, drivers[i].rating)
  }

  /** Every match is ranked once or left out, they come by descending score, so that nobody left
      out scores more than anybody ranked, and equals keep their order. */
  ghost predicate Ranks(all: seq<Match>, ranked: seq<Match>, rest: seq<Match>) {
    && multiset(ranked) + multiset(rest) == multiset(all)
    && Descending(ranked + rest)
    && forall v :: WithScore(ranked + rest, v) == WithScore(all, v)
  }

  lemma PartsRank(all: seq<Match>, sorted: seq<Match>, ranked: seq<Match>, rest: seq<Match>)
    requires sorted == SortDescending(all) && sorted == ranked + rest
    ensures Ranks(all, ranked, rest)
  {
    hide WithScore, SortDescending, Descending;
    SortIsStable(all);
  }

  lemma PrefixRanks(all: seq<Match>, n: nat)
    requires n <= |all|
    ensures Ranks(all, SortDescending(all)[..n], SortDescending(all)[n..])
  {
    hide *;
    TakeDrop(SortDescending(all), n);
    PartsRank(all, SortDescending(all), SortDescending(all)[..n], SortDescending(all)[n..]);
  }

  lemma TakeDrop(s: seq<Match>, n: nat)
    requires n <= |s|
    ensures s == s[..n] + s[n..]
  {
  }

  lemma MatchesOf(nearby: seq<Driver>)
    ensures AreMatchesOf(ScoredForRanking(nearby, MaxDistance(nearby)), nearby)
  {
    LoopsAgree(nearby, MaxDistance(nearby));
    SameScore(nearby, MaxDistance(nearby));
  }

  lemma RankedIsPrefix(nearby: seq<Driver>, limit: nat)
    ensures var all := ScoredForRanking(nearby, MaxDistance(nearby));
            |all| == |nearby| &&
            FindRankedDrivers(nearby, limit) == SortDescending(all)[..if limit <= |nearby| then limit else |nearby|]
  {
    hide ScoredForRanking, Scored, MaxDistance, SortDescending;
    LoopsAgree(nearby, MaxDistance(nearby));
  }

  /** The ranking is the best `limit` of all the drivers near by. */
  lemma RankedAreTheBest(nearby: seq<Driver>, limit: nat)
    ensures var ranked := FindRankedDrivers(nearby, limit);
            && |ranked| == (if limit <= |nearby| then limit else |nearby|)
            && exists all, rest :: AreMatchesOf(all, nearby) && Ranks(all, ranked, rest)
  {
    hide *;
    MatchesOf(nearby);
    RankedIsPrefix(nearby, limit);
    PrefixRanks(ScoredForRanking(nearby, MaxDistance(nearby)), if limit <= |nearby| then limit else |nearby|);
  }

  lemma SameScore(drivers: seq<Driver>, m: nat)
    requires m >= 1
    ensures forall d: Driver :: Score(d, m) == RankedScore(d, m)
  {
  }

  /** The first of the highest-scoring matches. */
  function FirstBest(s: seq<Match>): Match
    requires s != []
  {
    if |s| == 1 then s[0]
    else
      var r := FirstBest(s[1..]);
      if s[0].score >= r.score then s[0] else r
  }

  lemma {:induction false} SortedHead(s: seq<Match>)
    requires s != []
    ensures SortDescending(s)[0] == FirstBest(s)
  {
    if |s| > 1 { SortedHead(s[1..]); }
  }

  lemma {:induction false} FirstBestIsBest(s: seq<Match>)
    requires s != []
    ensures FirstBest(s) in s
    ensures forall i :: 0 <= i < |s| ==> s[i].score <= FirstBest(s).score
  {
    if |s| > 1 { FirstBestIsBest(s[1..]); }
  }

  lemma CloserScoresMore(a: Driver, b: Driver, maxDistance: nat)
    requires maxDistance >= 1 && a.distance <= b.distance && a.rating >= b.rating
    requires a.distance < b.distance || a.rating > b.rating
    ensures Score(a, maxDistance) > Score(b, maxDistance)
  {
    var m, x, y := maxDistance as real, a.distance as real, b.distance as real;
    assert (y - x) / m == y / m - x / m;
    assert a.distance < b.distance ==> (y - x) / m > 0.0;
  }

  /** Nobody eligible is at least as near and at least as well rated as the winner, and better in
      one of the two. */
  lemma WinnerNotDominated(nearby: seq<Driver>, exclude: set<string>, d: Driver)
    requires d in nearby && d.id !in exclude
    ensures FindBestDriver(nearby, exclude).Some?
    ensures var w := FindBestDriver(nearby, exclude).value;
            !(d.distance <= w.distance && d.rating >= w.rating && (d.distance < w.distance || d.rating > w.rating))
  {
    var eligible := Eligible(nearby, exclude);
    var m := MaxDistance(eligible);
    var s := Scored(eligible, m);
    SortedHead(s);
    FirstBestIsBest(s);
    var w := FirstBest(s);
    assert d in eligible;
    var i :| 0 <= i < |eligible| && eligible[i] == d;
    var j :| 0 <= j < |s| && s[j] == w;
    assert s[i].score <= w.score;
    if d.distance <= w.distance && d.rating >= w.rating && (d.distance < w.distance || d.rating > w.rating) {
      CloserScoresMore(d, eligible[j], m);
    }
  }
}

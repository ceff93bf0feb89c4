/** Ratings and their running mean, which is rounded to two decimals every time it is stored.
    Scores are stars, stored means are hundredths of a star. */
module Ratings {

  datatype TargetType = DRIVER | RIDER | RESTAURANT | DELIVERY

  datatype Target = Target(id: string, kind: TargetType)

  datatype Rating = Rating(raterId: string, target: Target, referenceId: string, score: int)

  /** `counts[k - 1]` is the column of k-star ratings. */
  datatype Aggregate = Aggregate(avg: int, total: nat, counts: seq<nat>)

  datatype CreateResult = Created | AlreadyRated | DuplicateReference

  /** Nearest integer to a quotient, halves upwards. */
  function Round(num: int, den: int): int
    requires den > 0
  {
    (2 * num + den) / (2 * den)
  }

  predicate ValidScore(score: int) { 1 <= score <= 5 }

  predicate ValidAggregate(a: Aggregate) { |a.counts| == 5 }

  function FirstAggregate(score: int): Aggregate
    requires ValidScore(score)
  {
    Aggregate(100 * score, 1, [0, 0, 0, 0, 0][score - 1 := 1])
  }

  function NextAggregate(a: Aggregate, score: int): Aggregate
    requires ValidScore(score) && ValidAggregate(a)
  {
    Aggregate(Round(a.avg * a.total + 100 * score, a.total + 1), a.total + 1,
              a.counts[score - 1 := a.counts[score - 1] + 1])
  }

  class RatingsService {
    var ratings: seq<Rating>
    var aggregates: map<Target, Aggregate>

    constructor ()
      ensures ratings == [] && aggregates == map[] && Valid()
    {
      ratings, aggregates := [], map[];
    }

    /** The stored aggregates are what the rating log gives. */
    ghost predicate Valid()
      reads this
    {
      Matches(ratings, aggregates)
    }

    /** The reference column has a unique index of its own, so a second rater of one reference
        passes the check and is stopped by the insert, which undoes the transaction. */
    method Create(dto: Rating) returns (r: CreateResult)
      requires Valid() && ValidScore(dto.score)
      modifies this
      ensures Valid()
      ensures r.Created? <==> forall x :: x in old(ratings) ==> x.referenceId != dto.referenceId
      ensures r.AlreadyRated? <==>
              exists x :: x in old(ratings) && x.referenceId == dto.referenceId && x.raterId == dto.raterId
      ensures if !r.Created? then ratings == old(ratings) && aggregates == old(aggregates)
              else
                && ratings == old(ratings) + [dto]
                && (dto.target in old(aggregates) ==> ValidAggregate(old(aggregates)[dto.target]))
                && aggregates == old(aggregates)[dto.target :=
                     if dto.target in old(aggregates) then NextAggregate(old(aggregates)[dto.target], dto.score)
                     else FirstAggregate(dto.score)]
    {
      var existing := exists x :: x in ratings && x.referenceId == dto.referenceId && x.raterId == dto.raterId;
      if existing {
        return AlreadyRated;
      }
      if exists x :: x in ratings && x.referenceId == dto.referenceId {
        return DuplicateReference;
      }
      CreateKeepsMatching(ratings, aggregates, dto);
      ratings := ratings + [dto];
      UpdateAggregate(dto.target, dto.score);
      return Created;
    }

    method UpdateAggregate(target: Target, score: int)
      requires ValidScore(score) && (target in aggregates ==> ValidAggregate(aggregates[target]))
      modifies this`aggregates
      ensures aggregates == old(aggregates)[target :=
                if target in old(aggregates) then NextAggregate(old(aggregates)[target], score)
                else FirstAggregate(score)]
    {
      if target !in aggregates {
        var agg := Aggregate(100 * score, 1, [0, 0, 0, 0, 0]);
        agg := agg.(counts := agg.counts[score - 1 := 1]);
        aggregates := aggregates[target := agg];
      } else {
        var agg := aggregates[target];
        var newTotal := agg.total + 1;
        var newSum := agg.avg * agg.total + 100 * score;
        agg := agg.(avg := Round(newSum, newTotal));
        agg := agg.(total := newTotal);
        agg := agg.(counts := agg.counts[score - 1 := agg.counts[score - 1] + 1]);
        aggregates := aggregates[target := agg];
      }
    }
  }

  // ---- Runs, as one target sees them

  /** The aggregate after a target has received these scores, in this order. */
  function AggregateOf(scores: seq<int>): (a: Aggregate)
    requires scores != [] && forall i :: 0 <= i < |scores| ==> ValidScore(scores[i])
    ensures ValidAggregate(a)
  {
    var n := |scores| - 1;
    if n == 0 then FirstAggregate(scores[0])
    else NextAggregate(AggregateOf(scores[..n]), scores[n])
  }

  function Sum(scores: seq<int>): int {
    if scores == [] then 0 else Sum(scores[..|scores| - 1]) + scores[|scores| - 1]
  }

  function CountOf(scores: seq<int>, k: int): nat {
    if scores == [] then 0
    else CountOf(scores[..|scores| - 1], k) + if scores[|scores| - 1] == k then 1 else 0
  }

  predicate AllValid(scores: seq<int>) {
    forall i :: 0 <= i < |scores| ==> ValidScore(scores[i])
  }

  function Abs(x: int): nat { if x < 0 then -x else x }

  /** A run of the service: what is stored for a target is what its own accepted ratings give. */
  function ScoresFor(ratings: seq<Rating>, t: Target): seq<int> {
    if ratings == [] then []
    else
      var r := ratings[|ratings| - 1];
      ScoresFor(ratings[..|ratings| - 1], t) + if r.target == t then [r.score] else []
  }

  lemma {:induction false} ScoresValid(ratings: seq<Rating>, t: Target)
    requires forall i :: 0 <= i < |ratings| ==> ValidScore(ratings[i].score)
    ensures AllValid(ScoresFor(ratings, t))
  {
    if ratings != [] { ScoresValid(ratings[..|ratings| - 1], t); }
  }

  ghost predicate Matches(ratings: seq<Rating>, aggregates: map<Target, Aggregate>) {
    && (forall i :: 0 <= i < |ratings| ==> ValidScore(ratings[i].score))
    && (forall i, j :: 0 <= i < j < |ratings| ==> ratings[i].referenceId != ratings[j].referenceId)
    && forall t ::
         var scores := ScoresFor(ratings, t);
         AllValid(scores) &&
         (t in aggregates <==> scores != []) &&
         (t in aggregates ==> aggregates[t] == AggregateOf(scores))
  }

  /** Every call of `create` keeps the stored aggregates in step with the rating log, and at
      most one rating per reference. */
  lemma CreateKeepsMatching(ratings: seq<Rating>, aggregates: map<Target, Aggregate>, dto: Rating)
    requires Matches(ratings, aggregates) && ValidScore(dto.score)
    requires forall x :: x in ratings ==> x.referenceId != dto.referenceId
    ensures dto.target in aggregates ==> ValidAggregate(aggregates[dto.target])
    ensures Matches(ratings + [dto],
              aggregates[dto.target :=
                if dto.target in aggregates then NextAggregate(aggregates[dto.target], dto.score)
                else FirstAggregate(dto.score)])
  {
    hide FirstAggregate, NextAggregate;
    var longer := ratings + [dto];
    assert longer[..|ratings|] == ratings;
    var before := ScoresFor(ratings, dto.target);
    assert dto.target in aggregates ==> aggregates[dto.target] == AggregateOf(before);
    forall t
      ensures ScoresFor(longer, t) == ScoresFor(ratings, t) + if t == dto.target then [dto.score] else []
    {
    }
    assert (before + [dto.score])[..|before|] == before;
    ScoresValid(longer, dto.target);
    forall t ensures AllValid(ScoresFor(longer, t)) { ScoresValid(longer, t); }
    forall t | t != dto.target ensures ScoresFor(longer, t) == ScoresFor(ratings, t) { }
    forall i | 0 <= i < |ratings| ensures ratings[i].referenceId != dto.referenceId {
      assert ratings[i] in ratings;
    }
  }

  // ---- The counts

  function Total(counts: seq<nat>): nat
    requires |counts| == 5
  {
    counts[0] + counts[1] + counts[2] + counts[3] + counts[4]
  }

  /** The five counts are those of the log and add up to the number of ratings. */
  lemma {:induction false} CountsMatchLog(scores: seq<int>)
    requires scores != [] && AllValid(scores)
    ensures var a := AggregateOf(scores);
            && a.total == |scores| == Total(a.counts)
            && forall k :: 1 <= k <= 5 ==> a.counts[k - 1] == CountOf(scores, k)
  {
    var n := |scores| - 1;
    if n == 0 {
      assert scores[..0] == [];
    } else {
      CountsMatchLog(scores[..n]);
      assert AggregateOf(scores) == NextAggregate(AggregateOf(scores[..n]), scores[n]);
      CountsStep(scores[..n], scores[n], AggregateOf(scores[..n]));
      assert scores == scores[..n] + [scores[n]];
    }
  }

  lemma CountsStep(scores: seq<int>, score: int, a: Aggregate)
    requires ValidScore(score) && ValidAggregate(a)
    requires a.total == |scores| == Total(a.counts)
    requires forall k :: 1 <= k <= 5 ==> a.counts[k - 1] == CountOf(scores, k)
    ensures var a', longer := NextAggregate(a, score), scores + [score];
            && a'.total == |longer| == Total(a'.counts)
            && forall k :: 1 <= k <= 5 ==> a'.counts[k - 1] == CountOf(longer, k)
  {
    hide Round;
    assert (scores + [score])[..|scores|] == scores;
  }

  // ---- The mean

  lemma TimesOrder(a: int, b: int, m: int)
    ensures m > 0 && a < b ==> a * m + m <= b * m
  {
    if m > 0 && a < b {
      var k := b - a;
      assert b * m == a * m + k * m;
      assert (k - 1) * m >= 0;
    }
  }

  lemma DivUnique(x: int, m: int, q: int, r: int)
    requires m > 0 && x == q * m + r && 0 <= r < m
    ensures x / m == q
  {
    assert x == (x / m) * m + x % m;
    TimesOrder(q, x / m, m);
    TimesOrder(x / m, q, m);
  }

  lemma RoundNearest(num: int, den: int)
    requires den > 0
    ensures -den <= 2 * (num - Round(num, den) * den) < den
  {
  }

  lemma RoundUnique(num: int, den: int, q: int)
    requires den > 0 && -den <= 2 * (num - q * den) < den
    ensures Round(num, den) == q
  {
    var r := 2 * num + den - q * (2 * den);
    assert q * (2 * den) == 2 * (q * den);
    DivUnique(2 * num + den, 2 * den, q, r);
  }

  lemma RoundBounds(num: int, den: int, lo: int, hi: int)
    requires den > 0 && lo * den <= num <= hi * den
    ensures lo <= Round(num, den) <= hi
  {
    var q := Round(num, den);
    RoundNearest(num, den);
    TimesOrder(q, lo, den);
    TimesOrder(hi, q, den);
  }

  lemma MeanStep(avg: int, n: nat, s: int)
    requires 100 <= avg <= 500 && ValidScore(s)
    ensures 100 <= Round(avg * n + 100 * s, n + 1) <= 500
  {
    assert 100 * n <= avg * n <= 500 * n;
    RoundBounds(avg * n + 100 * s, n + 1, 100, 500);
  }

  lemma {:induction false} MeanInRange(scores: seq<int>)
    requires scores != [] && AllValid(scores)
    ensures 100 <= AggregateOf(scores).avg <= 500
  {
    hide Round;
    var n := |scores| - 1;
    if n > 0 {
      MeanInRange(scores[..n]);
      CountsMatchLog(scores[..n]);
      MeanStep(AggregateOf(scores[..n]).avg, n, scores[n]);
    }
  }

  /** How far a stored mean, times the number of ratings, is from the exact sum. */
  function Off(avg: int, n: nat, sum: int): int { avg * n - 100 * sum }

  /** Four times as far as n roundings can take it. */
  function Allowance(n: nat): int { n * (n + 1) - 2 }

  lemma DriftStep(avg: int, n: nat, sum: int, s: int)
    requires 4 * Abs(Off(avg, n, sum)) <= Allowance(n)
    ensures 4 * Abs(Off(Round(avg * n + 100 * s, n + 1), n + 1, sum + s)) <= Allowance(n + 1)
  {
    var num := avg * n + 100 * s;
    var stored := Round(num, n + 1) * (n + 1);
    RoundNearest(num, n + 1);
    var before, after := avg * n - 100 * sum, stored - 100 * (sum + s);
    assert 2 * Abs(after - before) <= n + 1;
    assert (n + 1) * (n + 2) == n * (n + 1) + 2 * (n + 1);
  }

  lemma FirstDrift(s: int)
    ensures 4 * Abs(Off(100 * s, 1, s)) <= Allowance(1)
  {
  }

  lemma {:induction false} DriftBound(scores: seq<int>)
    requires scores != [] && AllValid(scores)
    ensures 4 * Abs(Off(AggregateOf(scores).avg, |scores|, Sum(scores))) <= Allowance(|scores|)
  {
    hide Round, Abs, Allowance, Off;
    var n := |scores| - 1;
    if n == 0 {
      assert scores[..0] == [];
      FirstDrift(scores[0]);
    } else {
      DriftBound(scores[..n]);
      CountsMatchLog(scores[..n]);
      DriftStep(AggregateOf(scores[..n]).avg, n, Sum(scores[..n]), scores[n]);
    }
  }

  /** After n ratings the stored mean lies in [1, 5], and is off the true mean by at most
      0.0025 * (n + 1), that is (n + 1) / 4 hundredths. */
  lemma StoredMean(scores: seq<int>)
    requires scores != [] && AllValid(scores)
    ensures 1.0 <= Stars(AggregateOf(scores).avg) <= 5.0
    ensures Near(Stars(AggregateOf(scores).avg), Mean(Sum(scores), |scores|), |scores|)
  {
    hide AggregateOf, Sum, Off, Allowance, Near, Mean, Abs;
    MeanInRange(scores);
    DriftBound(scores);
    InStars(AggregateOf(scores).avg, |scores|, Sum(scores));
  }

  function Stars(avg: int): real { avg as real / 100.0 }

  function Mean(sum: int, n: nat): real
    requires n > 0
  {
    sum as real / n as real
  }

  predicate Near(x: real, y: real, n: nat) {
    -0.0025 * (n + 1) as real <= x - y <= 0.0025 * (n + 1) as real
  }

  lemma InStars(avg: int, n: nat, sum: int)
    requires n > 0 && 4 * Abs(Off(avg, n, sum)) <= Allowance(n)
    ensures Near(Stars(avg), Mean(sum, n), n)
  {
    var x, m, t := avg as real, n as real, sum as real;
    var xm, mm := x * m, m * (m + 1.0);
    RealTimes(avg, n);
    RealTimes(n, n + 1);
    ErrorBound(x, m, t, xm, mm);
  }

  lemma RealTimes(a: int, b: int)
    ensures (a * b) as real == a as real * b as real
  {
  }

  lemma ErrorBound(x: real, m: real, t: real, xm: real, mm: real)
    requires m > 0.0 && xm == x * m && mm == m * (m + 1.0)
    requires -mm <= 4.0 * (xm - 100.0 * t) <= mm
    ensures -0.0025 * (m + 1.0) <= x / 100.0 - t / m <= 0.0025 * (m + 1.0)
  {
    var q := t / m;
    assert q * m == t;
    var error, bound := x / 100.0 - q, 0.0025 * (m + 1.0);
    var em, bm := error * m, bound * m;
    assert em == (x / 100.0) * m - q * m;
    assert 100.0 * ((x / 100.0) * m) == xm;
    assert 400.0 * em == 4.0 * (xm - 100.0 * t);
    assert 400.0 * bm == mm;
    assert -bm <= em <= bm;
    ScaleDown(error, bound, m);
  }

  lemma ScaleDown(error: real, bound: real, n: real)
    requires n > 0.0 && -(bound * n) <= error * n <= bound * n
    ensures -bound <= error <= bound
  {
    assert error > bound ==> error * n > bound * n;
    assert error < -bound ==> error * n < (-bound) * n;
    assert (-bound) * n == -(bound * n);
  }

  /** One more rating: the new mean is the hundredth nearest to (stored mean * n + rating) / (n + 1),
      halves up, and one counter goes up. */
  lemma NextExactly(a: Aggregate, score: int)
    requires ValidAggregate(a) && ValidScore(score)
    ensures var a' := NextAggregate(a, score);
            var n, sum := a.total + 1, a.avg * a.total + 100 * score;
            && a'.total == n
            && -n <= 2 * (sum - a'.avg * n) < n
            && |a'.counts| == 5
            && forall k :: 0 <= k < 5 ==> a'.counts[k] == a.counts[k] + if k + 1 == score then 1 else 0
  {
    RoundNearest(a.avg * a.total + 100 * score, a.total + 1);
  }

  lemma FirstExactly(score: int)
    requires ValidScore(score)
    ensures var a := FirstAggregate(score);
            && a.avg == 100 * score && a.total == 1 && |a.counts| == 5
            && forall k :: 0 <= k < 5 ==> a.counts[k] == if k + 1 == score then 1 else 0
  {
  }

  // ---- When a rating no longer counts

  /** A new rating leaves the stored mean as it is exactly when it is closer to it than half a
      hundredth per rating. */
  lemma AbsorbedExactly(a: Aggregate, score: int)
    requires ValidAggregate(a) && ValidScore(score)
    ensures NextAggregate(a, score).avg == a.avg <==>
            -(a.total + 1) <= 2 * (100 * score - a.avg) < a.total + 1
  {
    var n := a.total;
    var num := a.avg * n + 100 * score;
    RoundNearest(num, n + 1);
    if -(n + 1) <= 2 * (100 * score - a.avg) < n + 1 {
      assert num - a.avg * (n + 1) == 100 * score - a.avg;
      RoundUnique(num, n + 1, a.avg);
    }
  }

  /** After 800 ratings the stored mean never moves again, whatever is rated. */
  lemma {:induction false} MeanFreezes(scores: seq<int>, more: seq<int>)
    requires |scores| >= 800 && AllValid(scores) && AllValid(more)
    ensures AllValid(scores + more)
    ensures AggregateOf(scores + more).avg == AggregateOf(scores).avg
  {
    if more == [] {
      assert scores + more == scores;
    } else {
      var n := |more| - 1;
      var before := scores + more[..n];
      MeanFreezes(scores, more[..n]);
      assert (scores + more)[..|before|] == before;
      MeanInRange(before);
      CountsMatchLog(before);
      AbsorbedExactly(AggregateOf(before), more[n]);
    }
  }

  lemma {:induction false} SumAppend(a: seq<int>, b: seq<int>)
    ensures Sum(a + b) == Sum(a) + Sum(b)
  {
    if b == [] {
      assert a + b == a;
    } else {
      SumAppend(a, b[..|b| - 1]);
      assert (a + b)[..|a + b| - 1] == a + b[..|b| - 1];
    }
  }

  lemma {:induction false} SumOfEqual(scores: seq<int>, s: int)
    requires forall i :: 0 <= i < |scores| ==> scores[i] == s
    ensures Sum(scores) == s * |scores|
  {
    if scores != [] { SumOfEqual(scores[..|scores| - 1], s); }
  }

  lemma {:induction false} EqualScoresStore(scores: seq<int>, s: int)
    requires scores != [] && ValidScore(s) && forall i :: 0 <= i < |scores| ==> scores[i] == s
    ensures AggregateOf(scores).avg == 100 * s
  {
    var n := |scores| - 1;
    if n > 0 {
      EqualScoresStore(scores[..n], s);
      AbsorbedExactly(AggregateOf(scores[..n]), s);
    }
  }

  /** So a stored 5.00 can stand for a true mean as near to 1 as one likes: 800 five-star
      ratings and then any number m of one-star ratings. */
  lemma FiveStarsForever(fives: seq<int>, ones: seq<int>)
    requires |fives| == 800 && forall i :: 0 <= i < |fives| ==> fives[i] == 5
    requires forall i :: 0 <= i < |ones| ==> ones[i] == 1
    ensures AllValid(fives + ones)
    ensures AggregateOf(fives + ones).avg == 500
    ensures Sum(fives + ones) == 4000 + |ones|
  {
    EqualScoresStore(fives, 5);
    MeanFreezes(fives, ones);
    SumAppend(fives, ones);
    SumOfEqual(fives, 5);
    SumOfEqual(ones, 1);
  }
}

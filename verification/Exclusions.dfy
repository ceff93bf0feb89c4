/** What excluding drivers does to the choice of the best one. */
module Exclusions {
  import opened Wrappers
  import opened Matching

  lemma {:induction false} KeptWinner(drivers: seq<Driver>, exclude: set<string>, m: nat)
    requires m >= 1 && drivers != [] && FirstBest(Scored(drivers, m)).id !in exclude
    ensures Eligible(drivers, exclude) != []
    ensures FirstBest(Scored(Eligible(drivers, exclude), m)) == FirstBest(Scored(drivers, m))
  {
    var s := Scored(drivers, m);
    if |drivers| > 1 {
      var rest := drivers[1..];
      var kept := Eligible(rest, exclude);
      assert s[1..] == Scored(rest, m);
      var r := FirstBest(Scored(rest, m));
      if s[0].score >= r.score {
        if kept != [] {
          KeptScoresNoMore(rest, exclude, m);
          FirstBestCons(drivers[0], kept, m);
        }
      } else {
        KeptWinner(rest, exclude, m);
        FirstBestCons(drivers[0], kept, m);
        assert Eligible(drivers, exclude) == kept || Eligible(drivers, exclude) == [drivers[0]] + kept;
      }
    }
  }

  lemma FirstBestCons(d: Driver, drivers: seq<Driver>, m: nat)
    requires m >= 1 && drivers != []
    ensures var head := Match(d.id, Score(d, m), d.distance, d.rating);
            var r := FirstBest(Scored(drivers, m));
            FirstBest(Scored([d] + drivers, m)) == if head.score >= r.score then head else r
  {
    assert Scored([d] + drivers, m)[1..] == Scored(drivers, m);
  }

  lemma KeptScoresNoMore(drivers: seq<Driver>, exclude: set<string>, m: nat)
    requires m >= 1 && Eligible(drivers, exclude) != []
    ensures drivers != []
    ensures FirstBest(Scored(Eligible(drivers, exclude), m)).score <= FirstBest(Scored(drivers, m)).score
  {
    var kept := Eligible(drivers, exclude);
    var s, t := Scored(drivers, m), Scored(kept, m);
    FirstBestIsBest(t);
    var j :| 0 <= j < |t| && t[j] == FirstBest(t);
    assert kept[j] in drivers;
    var i :| 0 <= i < |drivers| && drivers[i] == kept[j];
    FirstBestIsBest(s);
    assert s[i] == t[j];
  }

  /** Excluding any drivers other than the winner leaves the winner in place, as long as the
      largest distance stays the same. */
  lemma ExcludingLosers(nearby: seq<Driver>, exclude: set<string>)
    requires nearby != [] && FindBestDriver(nearby, {}).value.id !in exclude
    requires MaxDistance(Eligible(nearby, exclude)) == MaxDistance(nearby)
    ensures FindBestDriver(nearby, exclude) == FindBestDriver(nearby, {})
  {
    NobodyExcluded(nearby);
    var m := MaxDistance(nearby);
    SortedHead(Scored(nearby, m));
    KeptWinner(nearby, exclude, m);
    SortedHead(Scored(Eligible(nearby, exclude), m));
  }

  // ---- Exactly when the winner stays

  /** The drivers come from a collection with a unique index on the driver id. */
  predicate DistinctIds(drivers: seq<Driver>) {
    forall i, j :: 0 <= i < j < |drivers| ==> drivers[i].id != drivers[j].id
  }

  /** Against w, at this largest distance, d is nearer by more than its rating is worse; a tie
      goes to the driver that comes earlier. */
  predicate Overtakes(d: Driver, w: Driver, maxDistance: nat, earlier: bool) {
    var nearer := 28.0 * (w.distance as real - d.distance as real);
    var worse := 3.0 * (maxDistance as real * (w.rating - d.rating));
    nearer > worse || (earlier && nearer == worse)
  }

  lemma OvertakesByScore(d: Driver, w: Driver, m: nat, earlier: bool)
    requires m >= 1
    ensures Overtakes(d, w, m, earlier) <==>
              Score(d, m) > Score(w, m) || (earlier && Score(d, m) == Score(w, m))
  {
    var x, y, n := d.distance as real, w.distance as real, m as real;
    var u, v := x / n, y / n;
    var gain := Score(d, m) - Score(w, m);
    assert u * n == x && v * n == y;
    assert gain == 0.7 * (v - u) - 0.075 * (w.rating - d.rating);
    assert (v - u) * n == y - x;
    assert 40.0 * gain * n == 28.0 * ((v - u) * n) - 3.0 * (n * (w.rating - d.rating));
    assert gain > 0.0 ==> gain * n > 0.0;
    assert gain < 0.0 ==> gain * n < 0.0;
  }

  /** Nobody who is kept overtakes drivers[k]. */
  ghost predicate NobodyOvertakes(drivers: seq<Driver>, exclude: set<string>, k: nat, m: nat)
    requires k < |drivers|
  {
    forall i :: 0 <= i < |drivers| && drivers[i].id !in exclude ==>
      !Overtakes(drivers[i], drivers[k], m, i < k)
  }

  lemma BestIsKept(drivers: seq<Driver>, exclude: set<string>, m: nat) returns (i: nat)
    requires m >= 1 && Eligible(drivers, exclude) != []
    ensures i < |drivers| && drivers[i].id !in exclude
    ensures FirstBest(Scored(Eligible(drivers, exclude), m)) == Scored(drivers, m)[i]
  {
    var kept := Eligible(drivers, exclude);
    var s := Scored(kept, m);
    FirstBestIsBest(s);
    var j :| 0 <= j < |s| && s[j] == FirstBest(s);
    assert kept[j] in drivers;
    i :| 0 <= i < |drivers| && drivers[i] == kept[j];
  }

  lemma KeptScoresLess(drivers: seq<Driver>, exclude: set<string>, m: nat, i: nat)
    requires m >= 1 && i < |drivers| && drivers[i].id !in exclude
    ensures Eligible(drivers, exclude) != []
    ensures Score(drivers[i], m) <= FirstBest(Scored(Eligible(drivers, exclude), m)).score
  {
    var kept := Eligible(drivers, exclude);
    assert drivers[i] in kept;
    var j :| 0 <= j < |kept| && kept[j] == drivers[i];
    FirstBestIsBest(Scored(kept, m));
  }

  /** The first driver, kept, is the best of those kept exactly when nobody overtakes it. */
  lemma HeadIsBest(drivers: seq<Driver>, exclude: set<string>, m: nat)
    requires m >= 1 && drivers != [] && DistinctIds(drivers) && drivers[0].id !in exclude
    ensures FirstBest(Scored(Eligible(drivers, exclude), m)).id == drivers[0].id <==>
              NobodyOvertakes(drivers, exclude, 0, m)
  {
    hide Score, Overtakes;
    var best := FirstBest(Scored(Eligible(drivers, exclude), m));
    forall i | 0 <= i < |drivers| ensures Overtakes(drivers[i], drivers[0], m, false) <==>
                                          Score(drivers[i], m) > Score(drivers[0], m)
    {
      OvertakesByScore(drivers[i], drivers[0], m, false);
    }
    var b := BestIsKept(drivers, exclude, m);
    if best.id == drivers[0].id {
      forall i | 0 <= i < |drivers| && drivers[i].id !in exclude ensures !Overtakes(drivers[i], drivers[0], m, false) {
        KeptScoresLess(drivers, exclude, m, i);
      }
    } else if NobodyOvertakes(drivers, exclude, 0, m) {
      assert !Overtakes(drivers[b], drivers[0], m, false);
      HeadWinsTies(drivers, exclude, m);
    }
  }

  /** The best of those kept is the first driver, or scores more than it. */
  lemma HeadWinsTies(drivers: seq<Driver>, exclude: set<string>, m: nat)
    requires m >= 1 && drivers != [] && drivers[0].id !in exclude
    ensures var best := FirstBest(Scored(Eligible(drivers, exclude), m));
            best.id == drivers[0].id || best.score > Score(drivers[0], m)
  {
    var rest := Eligible(drivers[1..], exclude);
    if rest != [] { FirstBestCons(drivers[0], rest, m); }
  }

  lemma {:induction false} BestExactly(drivers: seq<Driver>, exclude: set<string>, k: nat, m: nat)
    requires m >= 1 && k < |drivers| && DistinctIds(drivers) && drivers[k].id !in exclude
    ensures Eligible(drivers, exclude) != []
    ensures FirstBest(Scored(Eligible(drivers, exclude), m)).id == drivers[k].id <==>
              NobodyOvertakes(drivers, exclude, k, m)
  {
    hide Scored, FirstBest, Overtakes, NobodyOvertakes;
    assert drivers[k] in Eligible(drivers, exclude);
    if k == 0 {
      HeadIsBest(drivers, exclude, m);
    } else {
      var rest := drivers[1..];
      BestExactly(rest, exclude, k - 1, m);
      TailOvertakers(drivers, exclude, k, m);
      if drivers[0].id !in exclude {
        HeadOrTail(drivers, exclude, k, m);
      } else {
        assert Eligible(drivers, exclude) == Eligible(rest, exclude);
      }
    }
  }

  lemma TailOvertakers(drivers: seq<Driver>, exclude: set<string>, k: nat, m: nat)
    requires 0 < k < |drivers|
    ensures NobodyOvertakes(drivers, exclude, k, m) <==>
              && NobodyOvertakes(drivers[1..], exclude, k - 1, m)
              && (drivers[0].id !in exclude ==> !Overtakes(drivers[0], drivers[k], m, true))
  {
    hide Overtakes;
    var rest := drivers[1..];
    if NobodyOvertakes(drivers, exclude, k, m) {
      forall i | 0 <= i < |rest| && rest[i].id !in exclude ensures !Overtakes(rest[i], rest[k - 1], m, i < k - 1) {
        assert rest[i] == drivers[i + 1];
        assert !Overtakes(drivers[i + 1], drivers[k], m, i + 1 < k);
      }
    } else {
      var i :| 0 <= i < |drivers| && drivers[i].id !in exclude && Overtakes(drivers[i], drivers[k], m, i < k);
      if i > 0 { assert Overtakes(rest[i - 1], rest[k - 1], m, i - 1 < k - 1); }
    }
  }

  lemma HeadOrTail(drivers: seq<Driver>, exclude: set<string>, k: nat, m: nat)
    requires m >= 1 && 0 < k < |drivers| && DistinctIds(drivers)
    requires drivers[0].id !in exclude && drivers[k].id !in exclude
    requires Eligible(drivers[1..], exclude) != []
    ensures FirstBest(Scored(Eligible(drivers, exclude), m)).id == drivers[k].id <==>
              && FirstBest(Scored(Eligible(drivers[1..], exclude), m)).id == drivers[k].id
              && !Overtakes(drivers[0], drivers[k], m, true)
  {
    hide Score, Overtakes;
    var rest := drivers[1..];
    var kept := Eligible(rest, exclude);
    FirstBestCons(drivers[0], kept, m);
    OvertakesByScore(drivers[0], drivers[k], m, true);
    var b := BestIsKept(rest, exclude, m);
    assert rest[b].id == drivers[k].id ==> b + 1 == k;
  }

  /** After any exclusion that spares it, the winner stays if and only if nobody who is kept
      overtakes it at the new largest distance. */
  lemma WinnerStaysExactly(nearby: seq<Driver>, exclude: set<string>, k: nat)
    requires DistinctIds(nearby) && k < |nearby| && nearby[k].id !in exclude
    ensures FindBestDriver(nearby, exclude).Some?
    ensures FindBestDriver(nearby, exclude).value.id == nearby[k].id <==>
              NobodyOvertakes(nearby, exclude, k, MaxDistance(Eligible(nearby, exclude)))
  {
    var m := MaxDistance(Eligible(nearby, exclude));
    BestExactly(nearby, exclude, k, m);
    SortedHead(Scored(Eligible(nearby, exclude), m));
  }

  predicate Wins(nearby: seq<Driver>, k: nat) {
    k < |nearby| && FindBestDriver(nearby, {}) != None && FindBestDriver(nearby, {}).value.id == nearby[k].id
  }

  lemma FewerAreNoFarther(nearby: seq<Driver>, exclude: set<string>)
    ensures MaxDistance(Eligible(nearby, exclude)) <= MaxDistance(nearby)
  {
    var kept := Eligible(nearby, exclude);
    var m := MaxDistance(kept);
    if m > 1 {
      var i :| 0 <= i < |kept| && kept[i].distance == m;
      assert kept[i] in nearby;
    }
  }

  /** Scaled down to a smaller largest distance, only a strictly nearer and worse rated driver
      can overtake one that it did not overtake before. */
  lemma OvertakerIsNearer(d: Driver, w: Driver, m: nat, m': nat, earlier: bool)
    requires 1 <= m' <= m && !Overtakes(d, w, m, earlier) && Overtakes(d, w, m', earlier)
    ensures d.distance < w.distance && d.rating < w.rating
  {
    var worse := w.rating - d.rating;
    if worse <= 0.0 {
      TimesAtMost(m as real, m' as real, worse);
    } else {
      TimesAtMost(m' as real, 1.0, worse);
      var scaled := m' as real * worse;
      assert scaled > 0.0;
      assert 28.0 * (w.distance as real - d.distance as real) >= 3.0 * scaled;
    }
  }

  lemma TimesAtMost(a: real, b: real, x: real)
    requires a >= b
    ensures x <= 0.0 ==> a * x <= b * x
    ensures x >= 0.0 ==> a * x >= b * x
  {
    assert (a - b) * x == a * x - b * x;
    assert x <= 0.0 ==> (a - b) * x <= 0.0;
    assert x >= 0.0 ==> (a - b) * x >= 0.0;
  }

  lemma NewOvertakerIsNearer(nearby: seq<Driver>, exclude: set<string>, k: nat, i: nat)
    requires DistinctIds(nearby) && Wins(nearby, k) && nearby[k].id !in exclude
    requires i < |nearby| && nearby[i].id !in exclude
    requires Overtakes(nearby[i], nearby[k], MaxDistance(Eligible(nearby, exclude)), i < k)
    ensures nearby[i].distance < nearby[k].distance && nearby[i].rating < nearby[k].rating
  {
    NobodyExcluded(nearby);
    WinnerStaysExactly(nearby, {}, k);
    FewerAreNoFarther(nearby, exclude);
    OvertakerIsNearer(nearby[i], nearby[k], MaxDistance(nearby), MaxDistance(Eligible(nearby, exclude)), i < k);
  }

  /** So whoever takes the winner's place after an exclusion is strictly nearer and worse rated. */
  lemma NewWinnerIsNearer(nearby: seq<Driver>, exclude: set<string>, k: nat, i: nat)
    requires DistinctIds(nearby) && k < |nearby| && i < |nearby| && i != k
    requires nearby[k].id !in exclude && nearby[i].id !in exclude
    ensures FindBestDriver(nearby, exclude).Some?
    ensures Wins(nearby, k) && FindBestDriver(nearby, exclude).value.id == nearby[i].id ==>
              nearby[i].distance < nearby[k].distance && nearby[i].rating < nearby[k].rating
  {
    hide Score, Overtakes, FindBestDriver, Wins;
    var m := MaxDistance(Eligible(nearby, exclude));
    WinnerStaysExactly(nearby, exclude, i);
    if Wins(nearby, k) && FindBestDriver(nearby, exclude).value.id == nearby[i].id {
      assert !Overtakes(nearby[k], nearby[i], m, k < i);
      OvertakesByScore(nearby[k], nearby[i], m, k < i);
      OvertakesByScore(nearby[i], nearby[k], m, i < k);
      NewOvertakerIsNearer(nearby, exclude, k, i);
    }
  }

  // ---- Which winners no exclusion can unseat

  ghost predicate AlwaysStays(nearby: seq<Driver>, k: nat)
    requires k < |nearby|
  {
    forall exclude: set<string> :: nearby[k].id !in exclude ==>
      FindBestDriver(nearby, exclude).Some? && FindBestDriver(nearby, exclude).value.id == nearby[k].id
  }

  /** The winner's own distance, at least 1: the smallest that the largest distance can become. */
  function OwnDistance(w: Driver): nat { if w.distance >= 1 then w.distance else 1 }

  lemma OvertakesSooner(d: Driver, w: Driver, low: nat, m': nat, m: nat, earlier: bool)
    requires 1 <= low <= m' <= m && !Overtakes(d, w, m, earlier) && Overtakes(d, w, m', earlier)
    ensures Overtakes(d, w, low, earlier)
  {
    OvertakerIsNearer(d, w, m, m', earlier);
    TimesAtMost(m' as real, low as real, w.rating - d.rating);
  }

  function AllBut(nearby: seq<Driver>, a: string, b: string): set<string> {
    set d | d in nearby && d.id != a && d.id != b :: d.id
  }

  lemma SameId(nearby: seq<Driver>, x: Driver, i: nat)
    requires DistinctIds(nearby) && i < |nearby| && x in nearby && x.id == nearby[i].id
    ensures x == nearby[i]
  {
    var j :| 0 <= j < |nearby| && nearby[j] == x;
    assert nearby[j].id == nearby[i].id;
  }

  lemma FarthestOfTwo(kept: seq<Driver>, d: Driver, w: Driver)
    requires w in kept && d.distance < w.distance && forall x :: x in kept ==> x == d || x == w
    ensures MaxDistance(kept) == OwnDistance(w)
  {
    hide MaxDistance;
    var m := MaxDistance(kept);
    var j :| 0 <= j < |kept| && kept[j] == w;
    if m != 1 {
      var n :| 0 <= n < |kept| && kept[n].distance == m;
      assert kept[n] in kept;
    }
  }

  lemma PairDistance(nearby: seq<Driver>, i: nat, k: nat)
    requires DistinctIds(nearby) && i < |nearby| && k < |nearby| && nearby[i].distance < nearby[k].distance
    ensures MaxDistance(Eligible(nearby, AllBut(nearby, nearby[i].id, nearby[k].id))) == OwnDistance(nearby[k])
  {
    hide MaxDistance, Eligible, DistinctIds;
    var d, w := nearby[i], nearby[k];
    var kept := Eligible(nearby, AllBut(nearby, d.id, w.id));
    assert w in kept;
    forall x | x in kept ensures x == d || x == w {
      assert x in nearby && x.id !in AllBut(nearby, d.id, w.id);
      if x.id == d.id { SameId(nearby, x, i); } else { SameId(nearby, x, k); }
    }
    FarthestOfTwo(kept, d, w);
  }

  /** No exclusion of others can take the win away if and only if no driver overtakes the winner
      at the winner's own distance. */
  lemma AlwaysStaysExactly(nearby: seq<Driver>, k: nat)
    requires DistinctIds(nearby) && Wins(nearby, k)
    ensures AlwaysStays(nearby, k) <==> NobodyOvertakes(nearby, {}, k, OwnDistance(nearby[k]))
  {
    hide Overtakes, Eligible;
    NobodyExcluded(nearby);
    WinnerStaysExactly(nearby, {}, k);
    var w, m := nearby[k], MaxDistance(nearby);
    assert OwnDistance(w) <= m;
    if NobodyOvertakes(nearby, {}, k, OwnDistance(w)) {
      forall exclude: set<string> | w.id !in exclude
        ensures FindBestDriver(nearby, exclude).Some? && FindBestDriver(nearby, exclude).value.id == w.id
      {
        StaysAtOwnDistance(nearby, exclude, k);
      }
    } else {
      var i :| 0 <= i < |nearby| && Overtakes(nearby[i], w, OwnDistance(w), i < k);
      var exclude := AllBut(nearby, nearby[i].id, w.id);
      assert !Overtakes(nearby[i], w, m, i < k);
      OvertakerIsNearer(nearby[i], w, m, OwnDistance(w), i < k);
      PairDistance(nearby, i, k);
      WinnerStaysExactly(nearby, exclude, k);
      assert w.id !in exclude && nearby[i].id !in exclude;
    }
  }

  lemma StaysAtOwnDistance(nearby: seq<Driver>, exclude: set<string>, k: nat)
    requires DistinctIds(nearby) && Wins(nearby, k) && nearby[k].id !in exclude
    requires NobodyOvertakes(nearby, {}, k, OwnDistance(nearby[k]))
    ensures FindBestDriver(nearby, exclude).Some? && FindBestDriver(nearby, exclude).value.id == nearby[k].id
  {
    hide Overtakes;
    NobodyExcluded(nearby);
    WinnerStaysExactly(nearby, {}, k);
    WinnerStaysExactly(nearby, exclude, k);
    FewerAreNoFarther(nearby, exclude);
    var w, kept := nearby[k], Eligible(nearby, exclude);
    var m' := MaxDistance(kept);
    assert w in kept;
    var j :| 0 <= j < |kept| && kept[j] == w;
    assert OwnDistance(w) <= m';
    forall i | 0 <= i < |nearby| && nearby[i].id !in exclude ensures !Overtakes(nearby[i], w, m', i < k) {
      if Overtakes(nearby[i], w, m', i < k) {
        OvertakesSooner(nearby[i], w, OwnDistance(w), m', MaxDistance(nearby), i < k);
      }
    }
  }

  /** An instance: without the far loser, the nearer of the other two overtakes the better rated. */
  lemma FarLoserMatters()
    ensures var a, b, c := Driver("a", 1000, 5.0), Driver("b", 900, 4.5), Driver("c", 3000, 1.0);
            && FindBestDriver([a, b, c], {}).Some? && FindBestDriver([a, b, c], {"c"}).Some?
            && FindBestDriver([a, b, c], {}).value.id == "a"
            && FindBestDriver([a, b, c], {"c"}).value.id == "b"
  {
    var a, b, c := Driver("a", 1000, 5.0), Driver("b", 900, 4.5), Driver("c", 3000, 1.0);
    NobodyExcluded([a, b, c]);
    assert [a, b, c][1..] == [b, c] && [b, c][1..] == [c] && [a, b][1..] == [b];
    assert Eligible([c], {"c"}) == [];
    assert Eligible([b, c], {"c"}) == [b];
    assert Eligible([a, b, c], {"c"}) == [a, b];
    assert MaxDistance([c]) == 3000 && MaxDistance([b, c]) == 3000;
    assert MaxDistance([b]) == 900;
    FarScores();
    ThreeDrivers(a, b, c);
    TwoDrivers(a, b);
    assert FindBestDriver([a, b, c], {}) == Some(SortDescending(Scored([a, b, c], 3000))[0]);
    assert FindBestDriver([a, b, c], {"c"}) == Some(SortDescending(Scored([a, b], 1000))[0]);
  }

  lemma FarScores()
    ensures var a, b, c := Driver("a", 1000, 5.0), Driver("b", 900, 4.5), Driver("c", 3000, 1.0);
            Score(a, 3000) > Score(b, 3000) > Score(c, 3000) && Score(b, 1000) > Score(a, 1000)
  {
  }

  lemma ThreeDrivers(a: Driver, b: Driver, c: Driver)
    requires Score(a, 3000) > Score(b, 3000) > Score(c, 3000)
    ensures SortDescending(Scored([a, b, c], 3000))[0].id == a.id
  {
    var s := Scored([a, b, c], 3000);
    SortedHead(s);
    FirstBestIsBest(s);
    assert s[0].score <= FirstBest(s).score;
  }

  lemma TwoDrivers(a: Driver, b: Driver)
    requires Score(b, 1000) > Score(a, 1000)
    ensures SortDescending(Scored([a, b], 1000))[0].id == b.id
  {
  }
}

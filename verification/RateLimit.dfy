/** The rate-limit guard: one counter per key that the first request of a window starts and
    that expires `windowMs` later. The Lua script is one atomic step. */
module RateLimits {
  import opened Wrappers

  datatype Options = Options(limit: int, windowMs: int)

  datatype Counter = Counter(count: nat, expiresAt: int)

  datatype Decision = Allowed | TooManyRequests(retryAfter: int)

  predicate Live(counters: map<string, Counter>, key: string, now: int) {
    key in counters && now < counters[key].expiresAt
  }

  /** The counter after the script has run. */
  function Hit(o: Options, counters: map<string, Counter>, key: string, now: int): Counter {
    if Live(counters, key, now) then Counter(counters[key].count + 1, counters[key].expiresAt)
    else Counter(1, now + o.windowMs)
  }

  function CeilDiv(a: int, b: int): int
    requires b > 0
  {
    -((-a) / b)
  }

  class RedisRateLimitGuard {
    const o: Options
    var counters: map<string, Counter>

    constructor (options: Options)
      ensures o == options && counters == map[]
    {
      o, counters := options, map[];
    }

    /** INCR, PEXPIRE on the first hit, PTTL; a key given no time to live is gone at once. */
    method Eval(key: string, now: int) returns (current: nat, ttl: int)
      modifies this
      ensures counters == old(counters)[key := Hit(o, old(counters), key, now)]
      ensures current == counters[key].count && ttl == counters[key].expiresAt - now
      ensures if key in old(counters) && now < old(counters)[key].expiresAt
              then current == old(counters)[key].count + 1 && counters[key].expiresAt == old(counters)[key].expiresAt
              else current == 1 && ttl == o.windowMs
    {
      var live := Live(counters, key, now);
      if live {
        counters := counters[key := counters[key].(count := counters[key].count + 1)];
      } else {
        counters := counters[key := Counter(1, 0)];
      }
      current := counters[key].count;
      if !live {
        counters := counters[key := counters[key].(expiresAt := now + o.windowMs)];
      }
      ttl := counters[key].expiresAt - now;
    }

    /** Without options or an actor there is no key, and a request whose script Redis did not run
        is let through. A refused client is told the least whole number of seconds, at least one,
        after which the window is over. */
    method CanActivate(key: Optional<string>, redisUp: bool, now: int) returns (d: Decision)
      modifies this
      ensures key.None? || !redisUp ==> d.Allowed? && counters == old(counters)
      ensures key.Some? && redisUp ==>
        && counters == old(counters)[key.value := Hit(o, old(counters), key.value, now)]
        && (d.Allowed? <==>
              (if key.value in old(counters) && now < old(counters)[key.value].expiresAt
               then old(counters)[key.value].count else 0) < o.limit)
      ensures d.TooManyRequests? ==>
        && key.Some? && 1 <= d.retryAfter
        && !Live(counters, key.value, now + 1000 * d.retryAfter)
        && (d.retryAfter == 1 || Live(counters, key.value, now + 1000 * (d.retryAfter - 1)))
    {
      if key.None? { return Allowed; }
      if !redisUp { return Allowed; }
      var count, ttlMs := Eval(key.value, now);
      if count > o.limit {
        var retryAfterSec := if CeilDiv(ttlMs, 1000) > 1 then CeilDiv(ttlMs, 1000) else 1;
        return TooManyRequests(retryAfterSec);
      }
      return Allowed;
    }
  }

  // ---- Runs: requests for any keys, in time order

  datatype Request = Request(key: string, at: int)

  predicate Ordered(clock: int, reqs: seq<Request>)
    decreases |reqs|
  {
    reqs == [] || (clock <= reqs[0].at && Ordered(reqs[0].at, reqs[1..]))
  }

  function After(o: Options, counters: map<string, Counter>, r: Request): map<string, Counter> {
    counters[r.key := Hit(o, counters, r.key, r.at)]
  }

  predicate Admits(o: Options, counters: map<string, Counter>, r: Request) {
    Hit(o, counters, r.key, r.at).count <= o.limit
  }

  /** How many of the requests of one key with lo <= at < hi are admitted. */
  function Admitted(o: Options, counters: map<string, Counter>, reqs: seq<Request>,
                    key: string, lo: int, hi: int): nat
    decreases |reqs|
  {
    if reqs == [] then 0
    else
      var r := reqs[0];
      (if r.key == key && lo <= r.at < hi && Admits(o, counters, r) then 1 else 0) +
      Admitted(o, After(o, counters, r), reqs[1..], key, lo, hi)
  }

  /** What a window can still admit once its counter stands at `count`. */
  function Left(o: Options, count: nat): nat {
    if count < o.limit then o.limit - count else 0
  }

  lemma {:induction false} PastIntervalAdmitsNone(o: Options, counters: map<string, Counter>, reqs: seq<Request>,
                                                  key: string, lo: int, hi: int)
    requires reqs != [] && Ordered(reqs[0].at, reqs) && hi <= reqs[0].at
    ensures Admitted(o, counters, reqs, key, lo, hi) == 0
    decreases |reqs|
  {
    var rest := reqs[1..];
    if rest != [] {
      assert Ordered(rest[0].at, rest);
      PastIntervalAdmitsNone(o, After(o, counters, reqs[0]), rest, key, lo, hi);
    }
  }

  /** A live window, and at most one window length after it. */
  lemma {:induction false} LiveThenNext(o: Options, counters: map<string, Counter>, clock: int,
                                        reqs: seq<Request>, key: string, lo: int, hi: int)
    requires o.windowMs > 0 && Ordered(clock, reqs)
    requires key in counters && hi <= counters[key].expiresAt + o.windowMs
    ensures Admitted(o, counters, reqs, key, lo, hi) <=
            Left(o, counters[key].count) + if hi <= counters[key].expiresAt then 0 else Left(o, 0)
    decreases |reqs|
  {
    if reqs != [] {
      var r, next := reqs[0], After(o, counters, reqs[0]);
      if r.at >= hi {
        PastIntervalAdmitsNone(o, counters, reqs, key, lo, hi);
      } else {
        LiveThenNext(o, next, r.at, reqs[1..], key, lo, hi);
      }
    }
  }

  /** No live window, and an interval no longer than one window. */
  lemma {:induction false} DeadThenOne(o: Options, counters: map<string, Counter>, clock: int,
                                       reqs: seq<Request>, key: string, lo: int, hi: int)
    requires o.windowMs > 0 && Ordered(clock, reqs)
    requires !Live(counters, key, clock) && hi <= clock + o.windowMs + 1
    ensures Admitted(o, counters, reqs, key, lo, hi) <=
            if hi <= clock + o.windowMs then Left(o, 0) else 2 * Left(o, 0)
    decreases |reqs|
  {
    if reqs != [] {
      var r, next := reqs[0], After(o, counters, reqs[0]);
      if r.key == key {
        LiveThenNext(o, next, r.at, reqs[1..], key, lo, hi);
      } else {
        DeadThenOne(o, next, r.at, reqs[1..], key, lo, hi);
      }
    }
  }

  ghost predicate Counting(counters: map<string, Counter>) {
    forall k :: k in counters ==> counters[k].count >= 1
  }

  /** From any moment on: the interval [lo, hi) and what came before it. */
  lemma {:induction false} IntervalBound(o: Options, counters: map<string, Counter>, clock: int,
                                         reqs: seq<Request>, key: string, lo: int, hi: int)
    requires o.windowMs > 0 && o.limit > 0 && Ordered(clock, reqs) && Counting(counters)
    requires hi <= lo + o.windowMs + 1
    ensures Admitted(o, counters, reqs, key, lo, hi) <=
            if hi <= lo + o.windowMs then 2 * o.limit - 1 else 2 * o.limit
    decreases |reqs|
  {
    if reqs != [] {
      var r := reqs[0];
      if r.at < lo {
        IntervalBound(o, After(o, counters, r), r.at, reqs[1..], key, lo, hi);
      } else if Live(counters, key, r.at) {
        LiveThenNext(o, counters, r.at, reqs, key, lo, hi);
      } else {
        DeadThenOne(o, counters, r.at, reqs, key, lo, hi);
      }
    }
  }

  /** The guard's guarantee. For every arrival sequence of every key, fewer than twice the limit
      get through in any half-open interval of one window length, and at most twice the limit
      when both ends are included. */
  lemma AtMostTwiceTheLimit(o: Options, clock: int, reqs: seq<Request>, key: string, t: int)
    requires o.windowMs > 0 && o.limit > 0 && Ordered(clock, reqs)
    ensures Admitted(o, map[], reqs, key, t, t + o.windowMs) <= 2 * o.limit - 1
    ensures Admitted(o, map[], reqs, key, t, t + o.windowMs + 1) <= 2 * o.limit
  {
    IntervalBound(o, map[], clock, reqs, key, t, t + o.windowMs);
    IntervalBound(o, map[], clock, reqs, key, t, t + o.windowMs + 1);
  }

  // ---- The bound is reached

  function Burst(key: string, at: int, n: nat): seq<Request> {
    if n == 0 then [] else [Request(key, at)] + Burst(key, at, n - 1)
  }

  lemma {:induction false} BurstAdmitted(o: Options, counters: map<string, Counter>, key: string, at: int,
                                         n: nat, rest: seq<Request>, lo: int, hi: int)
    requires Live(counters, key, at) && counters[key].count + n <= o.limit && lo <= at < hi
    ensures Admitted(o, counters, Burst(key, at, n) + rest, key, lo, hi) ==
            n + Admitted(o, counters[key := counters[key].(count := counters[key].count + n)], rest, key, lo, hi)
    decreases n
  {
    if n == 0 {
      assert counters == counters[key := counters[key].(count := counters[key].count + 0)];
      assert Burst(key, at, n) + rest == rest;
    } else {
      var r := Request(key, at);
      var next := After(o, counters, r);
      BurstAdmitted(o, next, key, at, n - 1, rest, lo, hi);
      var tail := Burst(key, at, n - 1) + rest;
      assert Burst(key, at, n) + rest == [r] + tail;
      assert ([r] + tail)[1..] == tail;
      assert next[key := next[key].(count := next[key].count + (n - 1))] ==
             counters[key := counters[key].(count := counters[key].count + n)];
    }
  }

  lemma {:induction false} BurstOrdered(clock: int, key: string, at: int, n: nat, rest: seq<Request>)
    requires clock <= at && Ordered(at, rest)
    ensures Ordered(clock, Burst(key, at, n) + rest)
    decreases n
  {
    if n == 0 {
      assert Burst(key, at, n) + rest == rest;
    } else {
      BurstOrdered(at, key, at, n - 1, rest);
      var tail := Burst(key, at, n - 1) + rest;
      assert Burst(key, at, n) + rest == [Request(key, at)] + tail;
    }
  }

  function SecondWindow(o: Options, key: string): seq<Request>
    requires o.limit > 0
  {
    [Request(key, o.windowMs)] + Burst(key, o.windowMs, o.limit - 1)
  }

  /** One request, the rest of the limit at the window's last millisecond, and a whole limit
      right after it. */
  function TwoWindows(o: Options, key: string): seq<Request>
    requires o.limit > 0
  {
    [Request(key, 0)] + (Burst(key, o.windowMs - 1, o.limit - 1) + SecondWindow(o, key))
  }

  lemma TwoWindowsOrdered(o: Options, key: string)
    requires o.windowMs > 0 && o.limit > 0
    ensures Ordered(0, TwoWindows(o, key))
  {
    var w, n := o.windowMs, o.limit - 1;
    var b := Burst(key, w, n);
    assert b + [] == b;
    BurstOrdered(w, key, w, n, []);
    assert SecondWindow(o, key)[1..] == b;
    BurstOrdered(0, key, w - 1, n, SecondWindow(o, key));
    assert TwoWindows(o, key)[1..] == Burst(key, w - 1, n) + SecondWindow(o, key);
  }

  lemma SecondWindowAdmitted(o: Options, key: string)
    requires o.windowMs > 0 && o.limit > 0
    ensures Admitted(o, map[key := Counter(o.limit, o.windowMs)], SecondWindow(o, key), key, 0, o.windowMs + 1)
            == o.limit
  {
    var w, n := o.windowMs, o.limit - 1;
    var b := Burst(key, w, n);
    assert b + [] == b;
    assert SecondWindow(o, key)[1..] == b;
    var c2, c3 := map[key := Counter(o.limit, w)], map[key := Counter(1, w + w)];
    assert After(o, c2, Request(key, w)) == c3;
    BurstAdmitted(o, c3, key, w, n, [], 0, w + 1);
  }

  /** Twice the limit does get through in one window length. */
  lemma BoundAttained(o: Options, key: string)
    requires o.windowMs > 0 && o.limit > 0
    ensures Ordered(0, TwoWindows(o, key))
    ensures Admitted(o, map[], TwoWindows(o, key), key, 0, o.windowMs + 1) == 2 * o.limit
  {
    var w, n := o.windowMs, o.limit - 1;
    TwoWindowsOrdered(o, key);
    var rest := Burst(key, w - 1, n) + SecondWindow(o, key);
    assert TwoWindows(o, key)[1..] == rest;
    var c1 := map[key := Counter(1, w)];
    assert After(o, map[], Request(key, 0)) == c1;
    BurstAdmitted(o, c1, key, w - 1, n, SecondWindow(o, key), 0, w + 1);
    assert c1[key := c1[key].(count := 1 + n)] == map[key := Counter(o.limit, w)];
    SecondWindowAdmitted(o, key);
  }

  // ---- Windows

  /** The arrival times of one key. */
  function Arrivals(reqs: seq<Request>, key: string): seq<int> {
    if reqs == [] then []
    else
      var r := reqs[|reqs| - 1];
      Arrivals(reqs[..|reqs| - 1], key) + if r.key == key then [r.at] else []
  }

  /** When the window of the last arrival began: with that arrival, unless it falls into the
      window of the one before. */
  function WindowStart(w: int, times: seq<int>): int
    requires times != []
  {
    var n := |times| - 1;
    if n > 0 && times[n] < WindowStart(w, times[..n]) + w then WindowStart(w, times[..n]) else times[n]
  }

  /** The last arrival's place in its window, counting from one. */
  function Place(w: int, times: seq<int>): nat
    requires times != []
  {
    var n := |times| - 1;
    if n > 0 && times[n] < WindowStart(w, times[..n]) + w then Place(w, times[..n]) + 1 else 1
  }

  function Counters(o: Options, reqs: seq<Request>): map<string, Counter> {
    if reqs == [] then map[]
    else After(o, Counters(o, reqs[..|reqs| - 1]), reqs[|reqs| - 1])
  }

  /** Each window of each key admits exactly its first `limit` requests, and other keys make no
      difference. */
  lemma {:induction false} WindowsAdmitTheirFirst(o: Options, reqs: seq<Request>, key: string)
    ensures var times := Arrivals(reqs, key);
            && (times == [] <==> key !in Counters(o, reqs))
            && (times != [] ==>
                  Counters(o, reqs)[key] ==
                  Counter(Place(o.windowMs, times), WindowStart(o.windowMs, times) + o.windowMs))
    ensures reqs != [] && reqs[|reqs| - 1].key == key ==>
            (Admits(o, Counters(o, reqs[..|reqs| - 1]), reqs[|reqs| - 1]) <==>
             Place(o.windowMs, Arrivals(reqs, key)) <= o.limit)
  {
    if reqs != [] {
      var n := |reqs| - 1;
      WindowsAdmitTheirFirst(o, reqs[..n], key);
      var times := Arrivals(reqs[..n], key);
      assert (times + [reqs[n].at])[..|times|] == times;
      assert times + [] == times;
    }
  }
}

/** The shared circuit breaker: a rolling window of completed calls, a trip rule, a cooldown
    and a half-open probe. `execute` is asynchronous, so it is split where it waits: a call
    begins in one step, completes in a later one, and a failed call that awaits its fallback
    reaches its `finally` in a third. */
module CircuitBreakers {

  datatype CircuitState = CLOSED | OPEN | HALF_OPEN

  datatype CallRecord = CallRecord(timestamp: int, success: bool)

  datatype Options = Options(halfOpenAfterMs: int, errorThresholdPct: int,
                             volumeThreshold: int, rollingWindowMs: int)

  datatype Stats = Stats(state: CircuitState, total: nat, failures: nat, successes: nat, failureRate: real)

  datatype Breaker = Breaker(state: CircuitState, nextAttemptAt: int,
                             records: seq<CallRecord>, halfOpenInFlight: bool)

  const INITIAL := Breaker(CLOSED, 0, [], false)

  function Failures(records: seq<CallRecord>): (n: nat)
    ensures n <= |records|
  {
    if records == [] then 0
    else (if records[0].success then 0 else 1) + Failures(records[1..])
  }

  /** The indices of the failed calls among the first n. */
  ghost function FailedAt(records: seq<CallRecord>, n: nat): set<int>
    requires n <= |records|
  {
    set i | 0 <= i < n && !records[i].success
  }

  lemma {:induction false} FailuresUpTo(records: seq<CallRecord>, n: nat)
    requires n <= |records|
    ensures |FailedAt(records, n)| + Failures(records[n..]) == Failures(records)
  {
    if n == 0 {
      assert FailedAt(records, 0) == {};
      assert records[0..] == records;
    } else {
      FailuresUpTo(records, n - 1);
      assert records[n - 1..][1..] == records[n..];
      assert FailedAt(records, n) ==
             FailedAt(records, n - 1) + if records[n - 1].success then {} else {n - 1};
    }
  }

  /** `filter((r) => !r.success).length` counts the records that are not successes. */
  lemma FailuresAreCounted(records: seq<CallRecord>)
    ensures Failures(records) == |set i | 0 <= i < |records| && !records[i].success|
  {
    FailuresUpTo(records, |records|);
    assert FailedAt(records, |records|) == set i | 0 <= i < |records| && !records[i].success;
  }

  /** What is left after shifting expired records off the front. */
  function DropExpired(records: seq<CallRecord>, cutoff: int): seq<CallRecord> {
    if records != [] && records[0].timestamp < cutoff then DropExpired(records[1..], cutoff)
    else records
  }

  /** Only records older than the cutoff have been shifted off, and all of them up to the first
      that is not. */
  ghost predicate Shifted(records: seq<CallRecord>, kept: seq<CallRecord>, cutoff: int) {
    && |kept| <= |records|
    && var k := |records| - |kept|;
       && kept == records[k..]
       && (forall i :: 0 <= i < k ==> records[i].timestamp < cutoff)
       && (kept != [] ==> kept[0].timestamp >= cutoff)
  }

  lemma {:induction false} DropShifts(records: seq<CallRecord>, cutoff: int)
    ensures Shifted(records, DropExpired(records, cutoff), cutoff)
  {
    if records != [] && records[0].timestamp < cutoff {
      DropShifts(records[1..], cutoff);
      var kept := DropExpired(records, cutoff);
      var k := |records[1..]| - |kept|;
      assert records[1..][k..] == records[k + 1..];
      forall i | 0 <= i < k + 1 ensures records[i].timestamp < cutoff {
        if i > 0 { assert records[i] == records[1..][i - 1]; }
      }
    }
  }

  /** The trip rule on a window of records; a rate over no records is not a number, and
      compares false. */
  predicate Trips(o: Options, window: seq<CallRecord>) {
    && |window| >= o.volumeThreshold
    && |window| > 0
    && Failures(window) * 100 >= o.errorThresholdPct * |window|
  }

  /** The failures in percent, 0 when there are no calls. */
  function FailureRate(failures: nat, total: nat): (rate: real)
    requires failures <= total
    ensures rate * total as real == 100.0 * failures as real
    ensures total == 0 ==> rate == 0.0
  {
    if total == 0 then 0.0
    else
      var q := failures as real / total as real;
      assert q * total as real == failures as real;
      q * 100.0
  }

  function Evict(o: Options, b: Breaker, now: int): Breaker {
    b.(records := DropExpired(b.records, now - o.rollingWindowMs))
  }

  function Record(o: Options, b: Breaker, now: int, success: bool): Breaker {
    Evict(o, b.(records := b.records + [CallRecord(now, success)]), now)
  }

  function Transitioned(o: Options, b: Breaker, next: CircuitState, now: int): Breaker {
    if b.state == next then b
    else if next == OPEN then b.(state := OPEN, nextAttemptAt := now + o.halfOpenAfterMs)
    else b.(state := next)
  }

  datatype Begun = Begun(b: Breaker, admitted: bool)

  function BeginCall(o: Options, b: Breaker, now: int): Begun {
    if b.state == OPEN && now < b.nextAttemptAt then Begun(b, false)
    else
      var b' := if b.state == OPEN then Transitioned(o, b, HALF_OPEN, now) else b;
      if b'.state == HALF_OPEN && b'.halfOpenInFlight then Begun(b', false)
      else if b'.state == HALF_OPEN then Begun(b'.(halfOpenInFlight := true), true)
      else Begun(b', true)
  }

  function OnSuccess(o: Options, b: Breaker, now: int): Breaker {
    var b' := Record(o, b, now, true);
    if b'.state == HALF_OPEN then Transitioned(o, b', CLOSED, now).(records := []) else b'
  }

  function OnFailure(o: Options, b: Breaker, now: int): Breaker {
    var b' := Record(o, b, now, false);
    if b'.state == HALF_OPEN then Transitioned(o, b', OPEN, now)
    else
      var e := Evict(o, b', now);
      if Trips(o, e.records) then Transitioned(o, e, OPEN, now) else e
  }

  function Finally(b: Breaker): Breaker { b.(halfOpenInFlight := false) }

  class CircuitBreaker {
    const o: Options
    var state: CircuitState
    var nextAttemptAt: int
    var records: seq<CallRecord>
    var halfOpenInFlight: bool

    constructor (options: Options)
      ensures o == options && Value() == INITIAL
      ensures state == CLOSED && records == [] && !halfOpenInFlight
    {
      o := options;
      state, nextAttemptAt, records, halfOpenInFlight := CLOSED, 0, [], false;
    }

    function Value(): Breaker
      reads this
    {
      Breaker(state, nextAttemptAt, records, halfOpenInFlight)
    }

    method EvictExpired(now: int)
      modifies this`records
      ensures Value() == Evict(o, old(Value()), now)
      ensures Shifted(old(records), records, now - o.rollingWindowMs)
    {
      DropShifts(records, now - o.rollingWindowMs);
      var cutoff := now - o.rollingWindowMs;
      while |records| > 0 && records[0].timestamp < cutoff
        invariant DropExpired(records, cutoff) == DropExpired(old(records), cutoff)
        decreases |records|
      {
        records := records[1..];
      }
    }

    method RecordCall(now: int, success: bool)
      modifies this`records
      ensures Value() == Record(o, old(Value()), now, success)
      ensures Shifted(old(records) + [CallRecord(now, success)], records, now - o.rollingWindowMs)
    {
      records := records + [CallRecord(now, success)];
      EvictExpired(now);
    }

    method TransitionTo(next: CircuitState, now: int)
      modifies this`state, this`nextAttemptAt
      ensures Value() == Transitioned(o, old(Value()), next, now)
      ensures state == next
      ensures nextAttemptAt == if next == OPEN && old(state) != OPEN then now + o.halfOpenAfterMs else old(nextAttemptAt)
    {
      if state == next { return; }
      state := next;
      if next == OPEN {
        nextAttemptAt := now + o.halfOpenAfterMs;
      }
    }

    method ShouldTrip(now: int) returns (trip: bool)
      modifies this`records
      ensures Value() == Evict(o, old(Value()), now)
      ensures trip <==> Trips(o, records)
      ensures var failed := |set i | 0 <= i < |records| && !records[i].success|;
              trip <==> |records| > 0 && |records| >= o.volumeThreshold
                        && 100 * failed >= o.errorThresholdPct * |records|
    {
      EvictExpired(now);
      FailuresAreCounted(records);
      var total := |records|;
      if total < o.volumeThreshold || total == 0 { return false; }
      var failures := Failures(records);
      var rate := failures as real / total as real * 100.0;
      trip := rate >= o.errorThresholdPct as real;
      RateAsProduct(failures, total, o.errorThresholdPct);
    }

    method GetStats(now: int) returns (s: Stats)
      modifies this`records
      ensures Value() == Evict(o, old(Value()), now)
      ensures s.state == state && s.total == |records|
      ensures s.failures == |set i | 0 <= i < |records| && !records[i].success|
      ensures s.successes + s.failures == s.total
      ensures s.failureRate * s.total as real == 100.0 * s.failures as real
      ensures s.total == 0 ==> s.failureRate == 0.0
    {
      hide FailureRate, Failures, DropExpired, Shifted, Trips;
      EvictExpired(now);
      FailuresAreCounted(records);
      var total := |records|;
      var failures := Failures(records);
      var failureRate := FailureRate(failures, total);
      s := Stats(state, total, failures, total - failures, failureRate);
    }

    /** `execute` up to the point where it waits for the wrapped function. */
    method Begin(now: int) returns (admitted: bool)
      modifies this
      ensures Begun(Value(), admitted) == BeginCall(o, old(Value()), now)
      ensures admitted <==> old(state) == CLOSED ||
                            (!old(halfOpenInFlight) && (old(state) == HALF_OPEN || now >= old(nextAttemptAt)))
      ensures state == if old(state) == OPEN && now >= old(nextAttemptAt) then HALF_OPEN else old(state)
      ensures halfOpenInFlight <==> old(halfOpenInFlight) || (admitted && old(state) != CLOSED)
      ensures nextAttemptAt == old(nextAttemptAt) && records == old(records)
    {
      if state == OPEN {
        if now >= nextAttemptAt {
          TransitionTo(HALF_OPEN, now);
        } else {
          return false;
        }
      }
      if state == HALF_OPEN && halfOpenInFlight {
        return false;
      }
      if state == HALF_OPEN {
        halfOpenInFlight := true;
      }
      return true;
    }

    /** The wrapped function resolved. */
    method Succeed(now: int)
      modifies this
      ensures Value() == Finally(OnSuccess(o, old(Value()), now))
      ensures state == if old(state) == HALF_OPEN then CLOSED else old(state)
      ensures nextAttemptAt == old(nextAttemptAt) && !halfOpenInFlight
      ensures if old(state) == HALF_OPEN then records == []
              else Shifted(old(records) + [CallRecord(now, true)], records, now - o.rollingWindowMs)
    {
      RecordCall(now, true);
      if state == HALF_OPEN {
        TransitionTo(CLOSED, now);
        records := [];
      }
      halfOpenInFlight := false;
    }

    /** The wrapped function rejected or timed out. The call goes on to await its fallback, and
        its `finally` is still to come, exactly when it has one and the breaker is open. */
    method Fail(now: int, suspendingFallback: bool) returns (awaits: bool)
      modifies this
      ensures var b := OnFailure(o, old(Value()), now);
              && (awaits <==> suspendingFallback && b.state == OPEN)
              && Value() == if awaits then b else Finally(b)
      ensures Shifted(old(records) + [CallRecord(now, false)], records, now - o.rollingWindowMs)
      ensures var failed := |set i | 0 <= i < |records| && !records[i].success|;
              var trips := |records| > 0 && |records| >= o.volumeThreshold
                           && 100 * failed >= o.errorThresholdPct * |records|;
              && state == (if old(state) == HALF_OPEN || trips then OPEN else old(state))
              && nextAttemptAt == if old(state) != OPEN && state == OPEN then now + o.halfOpenAfterMs
                                  else old(nextAttemptAt)
      ensures awaits <==> suspendingFallback && state == OPEN
      ensures halfOpenInFlight <==> awaits && old(halfOpenInFlight)
    {
      RecordCall(now, false);
      ghost var pushed := records;
      if state == HALF_OPEN {
        TransitionTo(OPEN, now);
      } else {
        var trip := ShouldTrip(now);
        if trip {
          TransitionTo(OPEN, now);
        }
      }
      assert records == pushed;
      awaits := suspendingFallback && state == OPEN;
      if !awaits {
        halfOpenInFlight := false;
      }
    }

    /** The `finally` of a call whose fallback has settled. */
    method EndFallback()
      modifies this`halfOpenInFlight
      ensures Value() == Finally(old(Value()))
    {
      halfOpenInFlight := false;
    }

    method Reset(now: int)
      modifies this
      ensures Value() == Breaker(CLOSED, old(nextAttemptAt), [], false)
    {
      records := [];
      halfOpenInFlight := false;
      TransitionTo(CLOSED, now);
    }
  }

  lemma RateAsProduct(failures: nat, total: nat, pct: int)
    requires total > 0
    ensures failures as real / total as real * 100.0 >= pct as real <==> failures * 100 >= pct * total
  {
    var r := failures as real / total as real;
    assert r * total as real == failures as real;
    assert (r * 100.0) * total as real == (failures * 100) as real;
    assert pct as real * total as real == (pct * total) as real;
    var x, y, t := r * 100.0, pct as real, total as real;
    assert x >= y ==> x * t >= y * t;
    assert x < y ==> x * t < y * t;
  }
}

/** Runs of the shared circuit breaker: any number of calls, begun and completed in any order
    under a clock that never goes back. */
module CircuitRuns {
  import opened CircuitBreakers
  import opened Timelines

  datatype Fallback = NoFallback | Immediate | Suspending

  datatype Event =
    | Begin(id: nat, fallback: Fallback)
    | Succeed(id: nat)
    | Fail(id: nat)
    | EndFallback(id: nat)
    | Stats
    | Reset

  datatype Call = Running(fallback: Fallback, probe: bool) | AwaitingFallback

  /** The breaker and what an observer knows: the unfinished calls, every completion since the
      window was last cleared, and the calls admitted since the breaker last became half open. */
  datatype World = World(b: Breaker, calls: map<nat, Call>, clock: int,
                         log: seq<CallRecord>, evictedAt: int, probes: nat)

  function Start(clock: int): World {
    World(INITIAL, map[], clock, [], clock, 0)
  }

  predicate Possible(w: World, e: Timed<Event>) {
    && w.clock <= e.at
    && match e.event
       case Begin(id, _) => id !in w.calls
       case Succeed(id) => id in w.calls && w.calls[id].Running?
       case Fail(id) => id in w.calls && w.calls[id].Running?
       case EndFallback(id) => id in w.calls && w.calls[id].AwaitingFallback?
       case Stats => true
       case Reset => true
  }

  function Step(o: Options, w: World, e: Timed<Event>): World
    requires Possible(w, e)
  {
    var now := e.at;
    match e.event
    case Begin(id, fallback) =>
      var r := BeginCall(o, w.b, now);
      var probing := r.b.state == HALF_OPEN;
      World(r.b,
            if r.admitted then w.calls[id := Running(fallback, probing)] else w.calls,
            now, w.log, w.evictedAt,
            (if w.b.state == OPEN then 0 else w.probes) + if r.admitted && probing then 1 else 0)
    case Succeed(id) =>
      World(Finally(OnSuccess(o, w.b, now)), w.calls - {id}, now,
            if w.b.state == HALF_OPEN then [] else w.log + [CallRecord(now, true)], now, w.probes)
    case Fail(id) =>
      var b := OnFailure(o, w.b, now);
      var awaits := w.calls[id].fallback == Suspending && b.state == OPEN;
      World(if awaits then b else Finally(b),
            if awaits then w.calls[id := AwaitingFallback] else w.calls - {id}, now,
            w.log + [CallRecord(now, false)], now, w.probes)
    case EndFallback(id) =>
      w.(b := Finally(w.b), calls := w.calls - {id}, clock := now)
    case Stats =>
      w.(b := Evict(o, w.b, now), clock := now, evictedAt := now)
    case Reset =>
      w.(b := Breaker(CLOSED, w.b.nextAttemptAt, [], false), clock := now, log := [])
  }

  predicate ValidRun(o: Options, w: World, run: seq<Timed<Event>>)
    decreases |run|
  {
    run == [] || (Possible(w, run[0]) && ValidRun(o, Step(o, w, run[0]), run[1..]))
  }

  function Run(o: Options, w: World, run: seq<Timed<Event>>): World
    requires ValidRun(o, w, run)
    decreases |run|
  {
    if run == [] then w else Run(o, Step(o, w, run[0]), run[1..])
  }

  // ---- The half-open probe

  /** The probe flag is up exactly in HALF_OPEN, where exactly one call has been admitted. */
  predicate OneProbe(w: World) {
    && (w.b.halfOpenInFlight <==> w.b.state == HALF_OPEN)
    && (w.b.state == HALF_OPEN ==> w.probes == 1)
  }

  /** A `finally` kept waiting by a fallback: the half-open call fails and awaits one, or a call
      that was awaiting one reaches its `finally` while the breaker is half open. */
  predicate LateFinally(w: World, e: Timed<Event>) {
    w.b.state == HALF_OPEN &&
    match e.event
    case Fail(id) => id in w.calls && w.calls[id].Running? && w.calls[id].fallback == Suspending
    case EndFallback(_) => true
    case _ => false
  }

  /** Step by step, the probe discipline is lost exactly by a late `finally`. */
  lemma StepKeepsOneProbe(o: Options, w: World, e: Timed<Event>)
    requires OneProbe(w) && Possible(w, e)
    ensures OneProbe(Step(o, w, e)) <==> !LateFinally(w, e)
  {
  }

  predicate AlwaysOneProbe(o: Options, w: World, run: seq<Timed<Event>>)
    requires ValidRun(o, w, run)
    decreases |run|
  {
    OneProbe(w) && (run != [] ==> AlwaysOneProbe(o, Step(o, w, run[0]), run[1..]))
  }

  predicate NoLateFinally(o: Options, w: World, run: seq<Timed<Event>>)
    requires ValidRun(o, w, run)
    decreases |run|
  {
    run != [] ==> !LateFinally(w, run[0]) && NoLateFinally(o, Step(o, w, run[0]), run[1..])
  }

  /** A run keeps one probe per half-open episode throughout if and only if no `finally` in it
      is late, however many calls admitted earlier complete in between. */
  lemma {:induction false} OneProbeExactly(o: Options, w: World, run: seq<Timed<Event>>)
    requires OneProbe(w) && ValidRun(o, w, run)
    ensures AlwaysOneProbe(o, w, run) <==> NoLateFinally(o, w, run)
    decreases |run|
  {
    if run != [] {
      StepKeepsOneProbe(o, w, run[0]);
      if OneProbe(Step(o, w, run[0])) {
        OneProbeExactly(o, Step(o, w, run[0]), run[1..]);
      } else {
        assert !AlwaysOneProbe(o, Step(o, w, run[0]), run[1..]);
      }
    }
  }

  ghost predicate NothingSuspends(w: World) {
    forall id :: id in w.calls ==> w.calls[id].Running? && w.calls[id].fallback != Suspending
  }

  /** With fallbacks that do not suspend, every half-open episode of every run admits exactly
      one call. */
  lemma {:induction false} OneProbeWithoutSuspension(o: Options, w: World, run: seq<Timed<Event>>)
    requires OneProbe(w) && NothingSuspends(w) && ValidRun(o, w, run)
    requires forall e :: e in run && e.event.Begin? ==> e.event.fallback != Suspending
    ensures AlwaysOneProbe(o, w, run)
    decreases |run|
  {
    if run != [] {
      var e, w' := run[0], Step(o, w, run[0]);
      assert e in run;
      assert forall x :: x in run[1..] ==> x in run;
      StepKeepsOneProbe(o, w, e);
      forall id | id in w'.calls ensures w'.calls[id].Running? && w'.calls[id].fallback != Suspending {
        if id in w.calls { assert w.calls[id].fallback != Suspending; }
      }
      OneProbeWithoutSuspension(o, w', run[1..]);
    }
  }

  /** With one that does, two probes can be in flight at once. Call 0 trips the breaker and
      awaits its fallback; call 1 is the half-open probe; the fallback of call 0 settles and
      lowers the flag; call 2 is admitted as a second probe. */
  lemma TwoProbesInFlight()
    ensures var o := Options(10, 50, 1, 1000);
            var run := [Timed(0, Begin(0, Suspending)), Timed(1, Fail(0)),
                        Timed(11, Begin(1, NoFallback)), Timed(12, EndFallback(0)),
                        Timed(13, Begin(2, NoFallback))];
            && ValidRun(o, Start(0), run)
            && var w := Run(o, Start(0), run);
               && w.b.state == HALF_OPEN
               && 1 in w.calls && 2 in w.calls
               && w.calls[1] == w.calls[2] == Running(NoFallback, true)
  {
    var o := Options(10, 50, 1, 1000);
    var w0 := Start(0);
    var e0, e1, e2 := Timed(0, Begin(0, Suspending)), Timed(1, Fail(0)), Timed(11, Begin(1, NoFallback));
    var e3, e4 := Timed(12, EndFallback(0)), Timed(13, Begin(2, NoFallback));
    var w1 := Step(o, w0, e0);
    var window := [CallRecord(1, false)];
    assert DropExpired(window, 1 - 1000) == window;
    assert Failures(window) == 1;
    assert OnFailure(o, w1.b, 1) == Breaker(OPEN, 11, window, false);
    var w2 := Step(o, w1, e1);
    var w3 := Step(o, w2, e2);
    var w4 := Step(o, w3, e3);
    var w5 := Step(o, w4, e4);
    RunCons(o, w4, e4, []);
    RunCons(o, w3, e3, [e4]);
    RunCons(o, w2, e2, [e3, e4]);
    RunCons(o, w1, e1, [e2, e3, e4]);
    RunCons(o, w0, e0, [e1, e2, e3, e4]);
  }

  lemma RunCons(o: Options, w: World, e: Timed<Event>, rest: seq<Timed<Event>>)
    requires Possible(w, e) && ValidRun(o, Step(o, w, e), rest)
    ensures ValidRun(o, w, [e] + rest) && Run(o, w, [e] + rest) == Run(o, Step(o, w, e), rest)
  {
    assert ([e] + rest)[1..] == rest;
  }

  /** The other way a late `finally` hurts: when the probe's own fallback never settles, the
      next half-open episode refuses every call for as long as none of the other calls that were
      in flight completes. */
  lemma HungFallbackBlocks(o: Options, w: World, id: nat, failed: int, next: Timed<Event>, run: seq<Timed<Event>>)
    requires w.b.state == HALF_OPEN && w.b.halfOpenInFlight && w.clock <= failed
    requires id in w.calls && w.calls[id] == Running(Suspending, true)
    requires next.event.Begin? && next.at >= failed + o.halfOpenAfterMs
    requires var w1 := Step(o, w, Timed(failed, Fail(id)));
             Possible(w1, next) && ValidRun(o, Step(o, w1, next), run)
    requires forall e :: e in run ==> !Unblocks(w.calls, id, e.event)
    ensures var end := Run(o, Step(o, Step(o, w, Timed(failed, Fail(id))), next), run);
            end.b.state == HALF_OPEN && end.calls == w.calls[id := AwaitingFallback]
  {
    var w1 := Step(o, w, Timed(failed, Fail(id)));
    assert w1.b.state == OPEN && w1.b.halfOpenInFlight;
    BlockedEpisode(o, Step(o, w1, next), id, run);
  }

  /** A fallback settles, the breaker is reset, or another call in flight completes. */
  predicate Unblocks(calls: map<nat, Call>, id: nat, e: Event) {
    match e
    case EndFallback(_) => true
    case Reset => true
    case Succeed(x) => x != id && x in calls
    case Fail(x) => x != id && x in calls
    case _ => false
  }

  lemma {:induction false} BlockedEpisode(o: Options, w: World, id: nat, run: seq<Timed<Event>>)
    requires w.b.state == HALF_OPEN && w.b.halfOpenInFlight && ValidRun(o, w, run)
    requires id in w.calls && w.calls[id].AwaitingFallback?
    requires forall e :: e in run ==> !Unblocks(w.calls, id, e.event)
    ensures var end := Run(o, w, run);
            end.b.state == HALF_OPEN && end.b.halfOpenInFlight && end.calls == w.calls
    decreases |run|
  {
    if run != [] {
      assert run[0] in run;
      assert forall x :: x in run[1..] ==> x in run;
      BlockedEpisode(o, Step(o, w, run[0]), id, run[1..]);
    }
  }

  // ---- The rolling window

  /** The plain reading of a rolling window: the records not older than the cutoff. */
  function Within(log: seq<CallRecord>, cutoff: int): seq<CallRecord> {
    if log == [] then []
    else (if log[0].timestamp >= cutoff then [log[0]] else []) + Within(log[1..], cutoff)
  }

  predicate Ordered(log: seq<CallRecord>) {
    forall i, j :: 0 <= i < j < |log| ==> log[i].timestamp <= log[j].timestamp
  }

  lemma {:induction false} WithinAppend(log: seq<CallRecord>, more: seq<CallRecord>, cutoff: int)
    ensures Within(log + more, cutoff) == Within(log, cutoff) + Within(more, cutoff)
  {
    if log == [] {
      assert log + more == more;
    } else {
      var all, rest := log + more, log[1..] + more;
      assert all[0] == log[0] && all[1..] == rest;
      WithinAppend(log[1..], more, cutoff);
      var head := if log[0].timestamp >= cutoff then [log[0]] else [];
      assert Within(all, cutoff) == head + Within(rest, cutoff);
    }
  }

  lemma {:induction false} WithinAll(log: seq<CallRecord>, cutoff: int)
    requires forall i :: 0 <= i < |log| ==> log[i].timestamp >= cutoff
    ensures Within(log, cutoff) == log
  {
    if log != [] { WithinAll(log[1..], cutoff); }
  }

  lemma {:induction false} WithinTwice(log: seq<CallRecord>, c: int, c': int)
    requires c <= c'
    ensures Within(Within(log, c), c') == Within(log, c')
  {
    if log != [] {
      WithinTwice(log[1..], c, c');
      WithinAppend(if log[0].timestamp >= c then [log[0]] else [], Within(log[1..], c), c');
    }
  }

  predicate Between(log: seq<CallRecord>, first: int, last: int) {
    forall i :: 0 <= i < |log| ==> first <= log[i].timestamp <= last
  }

  lemma {:induction false} WithinBetween(log: seq<CallRecord>, c: int, first: int, last: int)
    requires Between(log, first, last)
    ensures Between(Within(log, c), first, last)
  {
    if log != [] {
      WithinBetween(log[1..], c, first, last);
      assert first <= log[0].timestamp <= last;
    }
  }

  lemma {:induction false} WithinOrdered(log: seq<CallRecord>, c: int)
    requires Ordered(log)
    ensures Ordered(Within(log, c))
  {
    if log != [] {
      var last := log[|log| - 1].timestamp;
      WithinOrdered(log[1..], c);
      WithinBetween(log[1..], c, log[0].timestamp, last);
    }
  }

  lemma OrderedPush(log: seq<CallRecord>, r: CallRecord)
    requires Ordered(log) && forall i :: 0 <= i < |log| ==> log[i].timestamp <= r.timestamp
    ensures Ordered(log + [r])
  {
  }

  /** On records in time order, evicting a prefix is filtering. */
  lemma {:induction false} DropIsFilter(records: seq<CallRecord>, cutoff: int)
    requires Ordered(records)
    ensures DropExpired(records, cutoff) == Within(records, cutoff)
  {
    if records != [] {
      if records[0].timestamp < cutoff {
        DropIsFilter(records[1..], cutoff);
      } else {
        WithinAll(records, cutoff);
      }
    }
  }

  predicate UpTo(log: seq<CallRecord>, last: int) {
    forall i :: 0 <= i < |log| ==> log[i].timestamp <= last
  }

  ghost predicate WindowInv(o: Options, w: World) {
    && Ordered(w.log)
    && UpTo(w.log, w.clock)
    && w.evictedAt <= w.clock
    && w.b.records == Within(w.log, w.evictedAt - o.rollingWindowMs)
  }

  lemma {:induction false} WithinUpTo(log: seq<CallRecord>, c: int, last: int)
    requires UpTo(log, last)
    ensures UpTo(Within(log, c), last)
  {
    if log != [] {
      WithinUpTo(log[1..], c, last);
      assert log[0].timestamp <= last;
    }
  }

  /** Evicting again, later. */
  lemma EvictedAgain(log: seq<CallRecord>, c: int, c': int)
    requires Ordered(log) && c <= c'
    ensures DropExpired(Within(log, c), c') == Within(log, c')
  {
    WithinOrdered(log, c);
    DropIsFilter(Within(log, c), c');
    WithinTwice(log, c, c');
  }

  /** Pushing a record and evicting. */
  lemma PushedAndEvicted(log: seq<CallRecord>, r: CallRecord, c: int, c': int)
    requires Ordered(log) && UpTo(log, r.timestamp) && c <= c'
    ensures Ordered(log + [r]) && UpTo(log + [r], r.timestamp)
    ensures DropExpired(Within(log, c) + [r], c') == Within(log + [r], c')
  {
    WithinOrdered(log, c);
    WithinUpTo(log, c, r.timestamp);
    OrderedPush(log, r);
    OrderedPush(Within(log, c), r);
    DropIsFilter(Within(log, c) + [r], c');
    WithinAppend(Within(log, c), [r], c');
    WithinTwice(log, c, c');
    WithinAppend(log, [r], c');
  }

  lemma Recorded(o: Options, w: World, now: int, success: bool)
    requires WindowInv(o, w) && w.clock <= now
    ensures var log := w.log + [CallRecord(now, success)];
            && Ordered(log) && UpTo(log, now)
            && Record(o, w.b, now, success) == w.b.(records := Within(log, now - o.rollingWindowMs))
  {
    assert UpTo(w.log, now) by {
      forall i | 0 <= i < |w.log| ensures w.log[i].timestamp <= now { assert w.log[i].timestamp <= w.clock; }
    }
    PushedAndEvicted(w.log, CallRecord(now, success),
                     w.evictedAt - o.rollingWindowMs, now - o.rollingWindowMs);
  }

  /** A failure, read off the naive window. */
  lemma FailureOutcome(o: Options, w: World, now: int)
    requires WindowInv(o, w) && w.clock <= now
    ensures var window := Within(w.log + [CallRecord(now, false)], now - o.rollingWindowMs);
            var b := w.b.(records := window);
            OnFailure(o, w.b, now) ==
              if b.state == HALF_OPEN || Trips(o, window) then Transitioned(o, b, OPEN, now) else b
    ensures OnFailure(o, w.b, now).records == Within(w.log + [CallRecord(now, false)], now - o.rollingWindowMs)
  {
    hide Within, DropExpired, Ordered, UpTo, Failures;
    var log, c := w.log + [CallRecord(now, false)], now - o.rollingWindowMs;
    Recorded(o, w, now, false);
    EvictedAgain(log, c, c);
  }

  lemma LaterUpTo(log: seq<CallRecord>, clock: int, now: int)
    requires UpTo(log, clock) && clock <= now
    ensures UpTo(log, now)
  {
  }

  lemma StepKeepsWindow(o: Options, w: World, e: Timed<Event>)
    requires WindowInv(o, w) && Possible(w, e)
    ensures WindowInv(o, Step(o, w, e))
  {
    hide Within, DropExpired, Ordered, UpTo, OnSuccess, OnFailure, BeginCall;
    BeginKeepsRecords(o, w.b, e.at);
    match e.event
    case Succeed(_) => SuccessKeepsWindow(o, w, e);
    case Fail(_) => FailureKeepsWindow(o, w, e);
    case Stats =>
      LaterUpTo(w.log, w.clock, e.at);
      EvictedAgain(w.log, w.evictedAt - o.rollingWindowMs, e.at - o.rollingWindowMs);
    case _ =>
      LaterUpTo(w.log, w.clock, e.at);
      EmptyWindow(e.at, w.evictedAt - o.rollingWindowMs);
  }

  lemma BeginKeepsRecords(o: Options, b: Breaker, now: int)
    ensures BeginCall(o, b, now).b.records == b.records
  {
  }

  lemma SuccessKeepsWindow(o: Options, w: World, e: Timed<Event>)
    requires WindowInv(o, w) && Possible(w, e) && e.event.Succeed?
    ensures WindowInv(o, Step(o, w, e))
  {
    hide Within, DropExpired, Record, Ordered, UpTo, OnFailure, BeginCall;
    Recorded(o, w, e.at, true);
    EmptyWindow(e.at, e.at - o.rollingWindowMs);
  }

  lemma EmptyWindow(now: int, c: int)
    ensures Within([], c) == [] && Ordered([]) && UpTo([], now)
  {
  }

  lemma FailureKeepsWindow(o: Options, w: World, e: Timed<Event>)
    requires WindowInv(o, w) && Possible(w, e) && e.event.Fail?
    ensures WindowInv(o, Step(o, w, e))
  {
    hide Within, DropExpired, OnFailure, OnSuccess, BeginCall, Record, Ordered, UpTo;
    Recorded(o, w, e.at, false);
    FailureOutcome(o, w, e.at);
  }

  lemma {:induction false} WindowRefinement(o: Options, w: World, run: seq<Timed<Event>>)
    requires WindowInv(o, w) && ValidRun(o, w, run)
    ensures WindowInv(o, Run(o, w, run))
    decreases |run|
  {
    if run != [] {
      StepKeepsWindow(o, w, run[0]);
      WindowRefinement(o, Step(o, w, run[0]), run[1..]);
    }
  }

  // ---- Tripping and cooling down

  /** Every way the state can change, and with it the end of the cooldown. */
  lemma Transitions(o: Options, w: World, e: Timed<Event>)
    requires WindowInv(o, w) && Possible(w, e)
    ensures var b, b', now := w.b, Step(o, w, e).b, e.at;
            var log := w.log + [CallRecord(now, false)];
            && (b.state == CLOSED ==>
                  (b'.state == OPEN <==> e.event.Fail? && Trips(o, Within(log, now - o.rollingWindowMs))) &&
                  b'.state != HALF_OPEN)
            && (b.state == OPEN ==>
                  (b'.state == HALF_OPEN <==> e.event.Begin? && now >= b.nextAttemptAt) &&
                  (b'.state == CLOSED <==> e.event.Reset?))
            && (b.state == HALF_OPEN ==>
                  (b'.state == OPEN <==> e.event.Fail?) &&
                  (b'.state == CLOSED <==> e.event.Succeed? || e.event.Reset?))
            && b'.nextAttemptAt ==
                 if b.state != OPEN && b'.state == OPEN then now + o.halfOpenAfterMs else b.nextAttemptAt
  {
    hide WindowInv, Within, OnFailure, DropExpired, Trips;
    if e.event.Fail? { FailureOutcome(o, w, e.at); }
  }

  lemma StartWindow(o: Options, clock: int)
    ensures WindowInv(o, Start(clock))
  {
  }

  ghost function RecentAt(log: seq<CallRecord>, cutoff: int): set<int> {
    set i | 0 <= i < |log| && log[i].timestamp >= cutoff
  }

  ghost function RecentFailuresAt(log: seq<CallRecord>, cutoff: int): set<int> {
    set i | 0 <= i < |log| && log[i].timestamp >= cutoff && !log[i].success
  }

  lemma {:induction false} FailuresAppend(a: seq<CallRecord>, b: seq<CallRecord>)
    ensures Failures(a + b) == Failures(a) + Failures(b)
  {
    if a == [] {
      assert a + b == b;
    } else {
      FailuresAppend(a[1..], b);
      assert (a + b)[1..] == a[1..] + b;
    }
  }

  /** One more record is one more index, when it counts. */
  lemma RecentPush(rest: seq<CallRecord>, last: CallRecord, cutoff: int)
    ensures |RecentAt(rest + [last], cutoff)| == |RecentAt(rest, cutoff)| + if last.timestamp >= cutoff then 1 else 0
    ensures |RecentFailuresAt(rest + [last], cutoff)| ==
            |RecentFailuresAt(rest, cutoff)| + if last.timestamp >= cutoff && !last.success then 1 else 0
  {
    var log, n := rest + [last], |rest|;
    assert forall i :: 0 <= i < n ==> log[i] == rest[i];
    assert RecentAt(log, cutoff) == RecentAt(rest, cutoff) + if last.timestamp >= cutoff then {n} else {};
    assert RecentFailuresAt(log, cutoff) ==
           RecentFailuresAt(rest, cutoff) + if last.timestamp >= cutoff && !last.success then {n} else {};
  }

  lemma WithinPush(rest: seq<CallRecord>, last: CallRecord, cutoff: int)
    ensures |Within(rest + [last], cutoff)| == |Within(rest, cutoff)| + if last.timestamp >= cutoff then 1 else 0
    ensures Failures(Within(rest + [last], cutoff)) ==
            Failures(Within(rest, cutoff)) + if last.timestamp >= cutoff && !last.success then 1 else 0
  {
    WithinAppend(rest, [last], cutoff);
    assert Within([last], cutoff) == if last.timestamp >= cutoff then [last] else [];
    FailuresAppend(Within(rest, cutoff), Within([last], cutoff));
    assert Failures([last]) == if last.success then 0 else 1;
  }

  /** The window has as many records, and as many failures, as there are in the log. */
  lemma {:induction false} WithinCounts(log: seq<CallRecord>, cutoff: int)
    ensures |Within(log, cutoff)| == |RecentAt(log, cutoff)|
    ensures Failures(Within(log, cutoff)) == |RecentFailuresAt(log, cutoff)|
    decreases |log|, 1
  {
    if log == [] {
      assert RecentAt(log, cutoff) == {} && RecentFailuresAt(log, cutoff) == {};
    } else {
      NextWithinCounts(log[..|log| - 1], log[|log| - 1], cutoff);
      assert log == log[..|log| - 1] + [log[|log| - 1]];
    }
  }

  lemma {:induction false} NextWithinCounts(rest: seq<CallRecord>, last: CallRecord, cutoff: int)
    ensures |Within(rest + [last], cutoff)| == |RecentAt(rest + [last], cutoff)|
    ensures Failures(Within(rest + [last], cutoff)) == |RecentFailuresAt(rest + [last], cutoff)|
    decreases |rest| + 1, 0
  {
    hide *;
    WithinCounts(rest, cutoff);
    RecentPush(rest, last, cutoff);
    WithinPush(rest, last, cutoff);
  }

  /** Whatever the run, evicting now leaves exactly the completions since the last clear that
      are no older than the window, so `getStats` counts them. */
  lemma StatsAreNaive(o: Options, clock: int, run: seq<Timed<Event>>, now: int)
    requires ValidRun(o, Start(clock), run) && Run(o, Start(clock), run).clock <= now
    ensures var w := Run(o, Start(clock), run);
            var records, cutoff := Evict(o, w.b, now).records, now - o.rollingWindowMs;
            && records == Within(w.log, cutoff)
            && |records| == |set i | 0 <= i < |w.log| && w.log[i].timestamp >= cutoff|
            && |set i | 0 <= i < |records| && !records[i].success| ==
                 |set i | 0 <= i < |w.log| && w.log[i].timestamp >= cutoff && !w.log[i].success|
  {
    hide Run, ValidRun, DropExpired, Within, Failures;
    StartWindow(o, clock);
    WindowRefinement(o, Start(clock), run);
    var w := Run(o, Start(clock), run);
    EvictedAgain(w.log, w.evictedAt - o.rollingWindowMs, now - o.rollingWindowMs);
    var cutoff := now - o.rollingWindowMs;
    WithinCounts(w.log, cutoff);
    FailuresAreCounted(Within(w.log, cutoff));
    assert RecentAt(w.log, cutoff) == set i | 0 <= i < |w.log| && w.log[i].timestamp >= cutoff;
    assert RecentFailuresAt(w.log, cutoff) ==
           set i | 0 <= i < |w.log| && w.log[i].timestamp >= cutoff && !w.log[i].success;
  }

  /** CLOSED opens exactly at a failed completion when, among all completions logged since the
      last clear, those no older than the window are enough in number and the failures among
      them enough in percent. */
  lemma TripsExactly(o: Options, clock: int, run: seq<Timed<Event>>, e: Timed<Event>)
    requires ValidRun(o, Start(clock), run)
    requires var w := Run(o, Start(clock), run); w.b.state == CLOSED && Possible(w, e)
    ensures var w := Run(o, Start(clock), run);
            var log, cutoff := w.log + [CallRecord(e.at, false)], e.at - o.rollingWindowMs;
            var recent := |set i | 0 <= i < |log| && log[i].timestamp >= cutoff|;
            var failed := |set i | 0 <= i < |log| && log[i].timestamp >= cutoff && !log[i].success|;
            Step(o, w, e).b.state == OPEN <==>
              && e.event.Fail?
              && recent > 0 && recent >= o.volumeThreshold
              && 100 * failed >= o.errorThresholdPct * recent
  {
    hide Within, Failures;
    StartWindow(o, clock);
    WindowRefinement(o, Start(clock), run);
    var w := Run(o, Start(clock), run);
    var log, cutoff := w.log + [CallRecord(e.at, false)], e.at - o.rollingWindowMs;
    Transitions(o, w, e);
    WithinCounts(log, cutoff);
    assert RecentAt(log, cutoff) == set i | 0 <= i < |log| && log[i].timestamp >= cutoff;
    assert RecentFailuresAt(log, cutoff) ==
           set i | 0 <= i < |log| && log[i].timestamp >= cutoff && !log[i].success;
  }

  /** Until the cooldown is over, an open breaker stays open, keeps its deadline and admits
      nobody, whatever late completions arrive. */
  lemma {:induction false} CooldownHolds(o: Options, w: World, run: seq<Timed<Event>>)
    requires w.b.state == OPEN && ValidRun(o, w, run)
    requires forall e :: e in run ==> e.at < w.b.nextAttemptAt && !e.event.Reset?
    ensures var end := Run(o, w, run);
            && end.b.state == OPEN && end.b.nextAttemptAt == w.b.nextAttemptAt
            && end.calls.Keys <= w.calls.Keys
    decreases |run|
  {
    if run != [] {
      assert run[0] in run;
      assert forall x :: x in run[1..] ==> x in run;
      CooldownHolds(o, Step(o, w, run[0]), run[1..]);
    }
  }

  /** From the moment a breaker opens, no call is admitted for `halfOpenAfterMs` unless it is
      reset, whatever the fallbacks do. The next call is admitted exactly when that time is over
      and the probe flag is down. */
  lemma CooldownIsExact(o: Options, w: World, opening: Timed<Event>, run: seq<Timed<Event>>, e: Timed<Event>)
    requires Possible(w, opening) && w.b.state != OPEN && Step(o, w, opening).b.state == OPEN
    requires ValidRun(o, Step(o, w, opening), run)
    requires forall x :: x in run ==> x.at < opening.at + o.halfOpenAfterMs && !x.event.Reset?
    requires Possible(Run(o, Step(o, w, opening), run), e) && e.event.Begin?
    ensures var w' := Run(o, Step(o, w, opening), run);
            && w'.calls.Keys <= w.calls.Keys
            && (e.event.id in Step(o, w', e).calls <==>
                  e.at >= opening.at + o.halfOpenAfterMs && !w'.b.halfOpenInFlight)
  {
    var w0 := Step(o, w, opening);
    assert w0.b.nextAttemptAt == opening.at + o.halfOpenAfterMs;
    CooldownHolds(o, w0, run);
  }

  /** With fallbacks that do not suspend the flag is down by then, so the time alone decides. */
  lemma CooldownWithoutSuspension(o: Options, w: World, opening: Timed<Event>, run: seq<Timed<Event>>, e: Timed<Event>)
    requires Possible(w, opening) && w.b.state != OPEN && Step(o, w, opening).b.state == OPEN
    requires OneProbe(w) && NothingSuspends(w)
    requires ValidRun(o, Step(o, w, opening), run)
    requires forall x :: x in run ==> x.at < opening.at + o.halfOpenAfterMs && !x.event.Reset?
    requires forall x :: x in run && x.event.Begin? ==> x.event.fallback != Suspending
    requires Possible(Run(o, Step(o, w, opening), run), e) && e.event.Begin?
    ensures e.event.id in Step(o, Run(o, Step(o, w, opening), run), e).calls <==>
              e.at >= opening.at + o.halfOpenAfterMs
  {
    var w0 := Step(o, w, opening);
    CooldownIsExact(o, w, opening, run, e);
    StepKeepsOneProbe(o, w, opening);
    CooldownHolds(o, w0, run);
    OneProbeWithoutSuspension(o, w0, run);
    AlwaysHoldsAtEnd(o, w0, run);
  }

  lemma {:induction false} AlwaysHoldsAtEnd(o: Options, w: World, run: seq<Timed<Event>>)
    requires ValidRun(o, w, run) && AlwaysOneProbe(o, w, run)
    ensures OneProbe(Run(o, w, run))
    decreases |run|
  {
    if run != [] { AlwaysHoldsAtEnd(o, Step(o, w, run[0]), run[1..]); }
  }
}

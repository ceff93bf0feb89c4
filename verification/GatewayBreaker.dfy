/** The gateway's circuit breaker: it counts consecutive failures, and in HALF_OPEN counts
    successes. There is no limit on the calls let through while it is half open. */
module GatewayBreakers {
  import opened Timelines

  datatype CircuitState = CLOSED | OPEN | HALF_OPEN

  datatype Options = Options(failureThreshold: int, successThreshold: int, timeout: int)

  datatype Breaker = Breaker(state: CircuitState, failures: nat, successes: nat, nextAttempt: int)

  const INITIAL := Breaker(CLOSED, 0, 0, 0)

  function AfterSuccess(o: Options, b: Breaker): Breaker {
    if b.state == HALF_OPEN then
      var successes := b.successes + 1;
      Breaker(if successes >= o.successThreshold then CLOSED else HALF_OPEN, 0, successes, b.nextAttempt)
    else b.(failures := 0)
  }

  function AfterFailure(o: Options, b: Breaker, now: int): Breaker {
    var failures := b.failures + 1;
    if b.state == HALF_OPEN || failures >= o.failureThreshold then
      Breaker(OPEN, failures, b.successes, now + o.timeout)
    else b.(failures := failures)
  }

  datatype Begun = Begun(b: Breaker, admitted: bool)

  function BeginCall(b: Breaker, now: int): Begun {
    if b.state == OPEN then
      if now < b.nextAttempt then Begun(b, false)
      else Begun(b.(state := HALF_OPEN, successes := 0), true)
    else Begun(b, true)
  }

  class CircuitBreaker {
    const o: Options
    var state: CircuitState
    var failures: nat
    var successes: nat
    var nextAttempt: int

    constructor (options: Options)
      ensures o == options && Value() == INITIAL
      ensures state == CLOSED && failures == 0
    {
      o := options;
      state, failures, successes, nextAttempt := CLOSED, 0, 0, 0;
    }

    function Value(): Breaker
      reads this
    {
      Breaker(state, failures, successes, nextAttempt)
    }

    /** `execute` up to the point where it waits for the request. */
    method Begin(now: int) returns (admitted: bool)
      modifies this`state, this`successes
      ensures Begun(Value(), admitted) == BeginCall(old(Value()), now)
      ensures admitted <==> old(state) != OPEN || now >= nextAttempt
      ensures state == if old(state) == OPEN && admitted then HALF_OPEN else old(state)
      ensures successes == if old(state) == OPEN && admitted then 0 else old(successes)
    {
      if state == OPEN {
        if now < nextAttempt {
          return false;
        }
        state := HALF_OPEN;
        successes := 0;
      }
      return true;
    }

    method OnSuccess()
      modifies this
      ensures Value() == AfterSuccess(o, old(Value()))
      ensures failures == 0 && nextAttempt == old(nextAttempt)
      ensures successes == old(successes) + if old(state) == HALF_OPEN then 1 else 0
      ensures state == if old(state) == HALF_OPEN && successes >= o.successThreshold then CLOSED else old(state)
    {
      failures := 0;
      if state == HALF_OPEN {
        successes := successes + 1;
        if successes >= o.successThreshold {
          state := CLOSED;
        }
      }
    }

    method OnFailure(now: int)
      modifies this
      ensures Value() == AfterFailure(o, old(Value()), now)
      ensures failures == old(failures) + 1 && successes == old(successes)
      ensures var opens := old(state) == HALF_OPEN || failures >= o.failureThreshold;
              && state == (if opens then OPEN else old(state))
              && nextAttempt == if opens then now + o.timeout else old(nextAttempt)
    {
      failures := failures + 1;
      if state == HALF_OPEN || failures >= o.failureThreshold {
        state := OPEN;
        nextAttempt := now + o.timeout;
      }
    }
  }

  // ---- Runs: calls begin and complete in any order

  datatype Event = Begin(id: nat) | Succeed(id: nat) | Fail(id: nat)

  /** `log` holds every completion (true for a success), `entered` its length when the breaker
      last became half open. */
  datatype World = World(b: Breaker, inFlight: set<nat>, clock: int, log: seq<bool>, entered: nat)

  function Start(clock: int): World { World(INITIAL, {}, clock, [], 0) }

  predicate Possible(w: World, e: Timed<Event>) {
    w.clock <= e.at &&
    match e.event
    case Begin(id) => id !in w.inFlight
    case Succeed(id) => id in w.inFlight
    case Fail(id) => id in w.inFlight
  }

  function Step(o: Options, w: World, e: Timed<Event>): World
    requires Possible(w, e)
  {
    match e.event
    case Begin(id) =>
      var r := BeginCall(w.b, e.at);
      World(r.b, if r.admitted then w.inFlight + {id} else w.inFlight, e.at, w.log,
            if w.b.state != r.b.state then |w.log| else w.entered)
    case Succeed(id) =>
      World(AfterSuccess(o, w.b), w.inFlight - {id}, e.at, w.log + [true], w.entered)
    case Fail(id) =>
      World(AfterFailure(o, w.b, e.at), w.inFlight - {id}, e.at, w.log + [false], w.entered)
  }

  predicate ValidRun(o: Options, w: World, run: seq<Timed<Event>>)
    decreases |run|
  {
    run == [] || (Possible(w, run[0]) && ValidRun(o, Step(o, w, run[0]), run[1..]))
  }

  function Run(o: Options, w: World, run: seq<Timed<Event>>): World
    requires ValidRun(o, w, run)
    decreases |run|
  {
    if run == [] then w else Run(o, Step(o, w, run[0]), run[1..])
  }

  /** The number of failures since the last success. */
  function FailingSuffix(log: seq<bool>): nat {
    if log == [] || log[|log| - 1] then 0 else 1 + FailingSuffix(log[..|log| - 1])
  }

  predicate AllSuccesses(log: seq<bool>) {
    forall i :: 0 <= i < |log| ==> log[i]
  }

  predicate Inv(o: Options, w: World) {
    && w.b.failures == FailingSuffix(w.log)
    && (w.b.state == OPEN ==> w.b.nextAttempt <= w.clock + o.timeout)
    && (w.b.state == CLOSED ==> FailingSuffix(w.log) < o.failureThreshold)
    && w.entered <= |w.log|
    && (w.b.state == HALF_OPEN ==>
          && AllSuccesses(w.log[w.entered..])
          && w.b.successes == |w.log| - w.entered
          && (w.b.successes == 0 || w.b.successes < o.successThreshold))
  }

  lemma LogPush(log: seq<bool>, entered: nat, success: bool)
    requires entered <= |log|
    ensures FailingSuffix(log + [success]) == if success then 0 else FailingSuffix(log) + 1
    ensures AllSuccesses((log + [success])[entered..]) <==> AllSuccesses(log[entered..]) && success
  {
    var longer := log + [success];
    assert longer[..|log|] == log;
    assert longer[entered..] == log[entered..] + [success];
    assert forall i :: 0 <= i < |log| - entered ==> longer[entered..][i] == log[entered..][i];
    assert longer[entered..][|log| - entered] == success;
  }

  lemma StepKeepsInv(o: Options, w: World, e: Timed<Event>)
    requires Inv(o, w) && Possible(w, e) && o.failureThreshold > 0
    ensures Inv(o, Step(o, w, e))
  {
    hide FailingSuffix, AllSuccesses;
    match e.event
    case Begin(_) => NothingYet(w.log);
    case Succeed(_) => LogPush(w.log, w.entered, true);
    case Fail(_) => LogPush(w.log, w.entered, false);
  }

  lemma NothingYet(log: seq<bool>)
    ensures AllSuccesses(log[|log|..])
  {
  }

  lemma {:induction false} RunKeepsInv(o: Options, w: World, run: seq<Timed<Event>>)
    requires Inv(o, w) && ValidRun(o, w, run) && o.failureThreshold > 0
    ensures Inv(o, Run(o, w, run))
    decreases |run|
  {
    if run != [] {
      StepKeepsInv(o, w, run[0]);
      RunKeepsInv(o, Step(o, w, run[0]), run[1..]);
    }
  }

  /** In every interleaving, `failures` is the failing suffix of the completion log, a closed
      breaker's is below the threshold, and a half-open one has seen only successes since it
      became half open, as many as it has counted and too few to close. */
  lemma LogInvariant(o: Options, clock: int, run: seq<Timed<Event>>)
    requires ValidRun(o, Start(clock), run) && o.failureThreshold > 0
    ensures var w := Run(o, Start(clock), run);
            && w.b.failures == FailingSuffix(w.log)
            && (w.b.state == CLOSED ==> FailingSuffix(w.log) < o.failureThreshold)
            && w.entered <= |w.log|
            && (w.b.state == HALF_OPEN ==>
                  && AllSuccesses(w.log[w.entered..])
                  && w.b.successes == |w.log[w.entered..]|
                  && (w.b.successes > 0 ==> w.b.successes < o.successThreshold))
  {
    RunKeepsInv(o, Start(clock), run);
  }

  lemma StartInv(o: Options, clock: int)
    ensures Inv(o, Start(clock)) <==> o.failureThreshold > 0
  {
  }

  /** When the state changes, told by the completion log alone. Opening sets the deadline a timeout
      ahead, and a late failure in OPEN pushes it back exactly when the failing suffix has reached
      the threshold. */
  lemma Transitions(o: Options, clock: int, run: seq<Timed<Event>>, e: Timed<Event>)
    requires o.failureThreshold > 0
    requires ValidRun(o, Start(clock), run) && Possible(Run(o, Start(clock), run), e)
    ensures var w := Run(o, Start(clock), run);
            var w' := Step(o, w, e);
            && w.entered <= |w.log|
            && (w.b.state == CLOSED ==>
                  (w'.b.state == OPEN <==> e.event.Fail? && FailingSuffix(w.log + [false]) >= o.failureThreshold)
                  && w'.b.state != HALF_OPEN)
            && (w.b.state == HALF_OPEN ==>
                  (w'.b.state == CLOSED <==>
                     e.event.Succeed? && AllSuccesses(w.log[w.entered..])
                     && |w.log[w.entered..] + [true]| >= o.successThreshold)
                  && (w'.b.state == OPEN <==> e.event.Fail?))
            && (w.b.state != OPEN ==>
                  w'.b.nextAttempt == if w'.b.state == OPEN then e.at + o.timeout else w.b.nextAttempt)
            && (w.b.state == OPEN ==>
                  w'.b.state != CLOSED
                  && (w'.b.state == HALF_OPEN <==> e.event.Begin? && e.at >= w.b.nextAttempt)
                  && w'.b.nextAttempt ==
                       if e.event.Fail? && FailingSuffix(w.log + [false]) >= o.failureThreshold
                       then e.at + o.timeout else w.b.nextAttempt)
  {
    RunKeepsInv(o, Start(clock), run);
    var w := Run(o, Start(clock), run);
    assert (w.log + [false])[..|w.log|] == w.log;
  }

  /** An open breaker admits nobody before its deadline, and late completions can only move the
      deadline later. */
  lemma {:induction false} CooldownHolds(o: Options, w: World, run: seq<Timed<Event>>)
    requires w.b.state == OPEN && w.b.nextAttempt <= w.clock + o.timeout && ValidRun(o, w, run)
    requires forall e :: e in run ==> e.at < w.b.nextAttempt
    ensures var end := Run(o, w, run);
            end.b.state == OPEN && end.b.nextAttempt >= w.b.nextAttempt && end.inFlight <= w.inFlight
    decreases |run|
  {
    if run != [] {
      assert run[0] in run;
      assert forall x :: x in run[1..] ==> x in run;
      CooldownHolds(o, Step(o, w, run[0]), run[1..]);
    }
  }
}

/** Account lockout: `login` with its lock check and its failure counter. */
module LoginLocks {
  import opened Timelines
  import opened Wrappers

  const MAX_FAILED_ATTEMPTS := 5
  const LOCK_MS := 30 * 60000

  datatype User = User(suspended: bool, failedLoginCount: nat, lockedUntil: Optional<int>)

  datatype LoginResult = Locked(minutes: int) | InvalidCredentials | Suspended | LoggedIn

  predicate IsLocked(u: User, now: int) {
    u.lockedUntil.Some? && u.lockedUntil.value > now
  }

  function AfterFailure(u: User, now: int): User {
    var count := u.failedLoginCount + 1;
    u.(failedLoginCount := count,
       lockedUntil := if count >= MAX_FAILED_ATTEMPTS then Some(now + LOCK_MS) else u.lockedUntil)
  }

  /** The account after one login attempt; `valid` stands for the password comparison. */
  function AfterLogin(u: User, valid: bool, now: int): User {
    if IsLocked(u, now) || u.suspended then u
    else if valid then u.(failedLoginCount := 0)
    else AfterFailure(u, now)
  }

  class AuthService {
    var users: map<string, User>

    constructor ()
      ensures users == map[]
    {
      users := map[];
    }

    /** A locked account compares nothing. An update
        to `undefined` leaves the column as it is, so a success does not clear `lockedUntil`. */
    method Login(email: string, valid: bool, now: int) returns (r: LoginResult)
      modifies this
      ensures users.Keys == old(users).Keys
      ensures forall e :: e in users && e != email ==> users[e] == old(users)[e]
      ensures email !in users ==> r == InvalidCredentials
      ensures email in users ==>
        var u := old(users)[email];
        && (r.Locked? <==> u.lockedUntil.Some? && now < u.lockedUntil.value)
        && (r.Locked? ==> 60000 * (r.minutes - 1) < u.lockedUntil.value - now <= 60000 * r.minutes)
        && (r.Suspended? <==> !r.Locked? && u.suspended)
        && (r.LoggedIn? <==> !r.Locked? && !u.suspended && valid)
        && users[email] == AfterLogin(u, valid, now)
        && users[email].failedLoginCount ==
             (if r.LoggedIn? then 0 else if r.InvalidCredentials? then u.failedLoginCount + 1 else u.failedLoginCount)
        && users[email].lockedUntil ==
             (if r.InvalidCredentials? && u.failedLoginCount >= 4 then Some(now + 1800000) else u.lockedUntil)
        && users[email].suspended == u.suspended
    {
      var minutes := CheckAccountLock(email, now);
      if minutes > 0 {
        return Locked(minutes);
      }
      if email !in users {
        return InvalidCredentials;
      }
      var user := users[email];
      if user.suspended {
        return Suspended;
      }
      if !valid {
        HandleFailedLogin(email, now);
        return InvalidCredentials;
      }
      if user.failedLoginCount > 0 {
        users := users[email := user.(failedLoginCount := 0)];
      }
      return LoggedIn;
    }

    /** The minutes still to wait, rounded up; 0 when the account is not locked. */
    method CheckAccountLock(email: string, now: int) returns (minutes: nat)
      ensures minutes > 0 <==>
                email in users && users[email].lockedUntil.Some? && now < users[email].lockedUntil.value
      ensures minutes > 0 ==> 60000 * (minutes - 1) < users[email].lockedUntil.value - now <= 60000 * minutes
    {
      if email in users && users[email].lockedUntil.Some? && users[email].lockedUntil.value > now {
        var left := users[email].lockedUntil.value - now;
        return -((-left) / 60000);
      }
      return 0;
    }

    method HandleFailedLogin(email: string, now: int)
      requires email in users
      modifies this
      ensures users == old(users)[email := AfterFailure(old(users)[email], now)]
      ensures users[email].failedLoginCount == old(users)[email].failedLoginCount + 1
      ensures users[email].lockedUntil == if users[email].failedLoginCount >= 5 then Some(now + 1800000)
                                          else old(users)[email].lockedUntil
    {
      var user := users[email];
      var newCount := user.failedLoginCount + 1;
      var updated := user.(failedLoginCount := newCount);
      if newCount >= MAX_FAILED_ATTEMPTS {
        updated := updated.(lockedUntil := Some(now + LOCK_MS));
      }
      users := users[email := updated];
    }
  }

  // ---- Runs of one account

  datatype Event = Login(valid: bool) | SetSuspended(suspended: bool)

  /** `fails` holds the times of the failed comparisons since the last success. */
  datatype World = World(u: User, clock: int, fails: seq<int>)

  /** An account nobody has tried yet, suspended or not. */
  function Start(suspended: bool, clock: int): World {
    World(User(suspended, 0, None), clock, [])
  }

  function Step(w: World, e: Timed<Event>): World {
    match e.event
    case SetSuspended(b) => World(w.u.(suspended := b), e.at, w.fails)
    case Login(valid) =>
      World(AfterLogin(w.u, valid, e.at), e.at,
            if IsLocked(w.u, e.at) || w.u.suspended then w.fails
            else if valid then [] else w.fails + [e.at])
  }

  function Run(w: World, run: seq<Timed<Event>>): World
    decreases |run|
  {
    if run == [] then w else Run(Step(w, run[0]), run[1..])
  }

  predicate Spaced(fails: seq<int>) {
    forall i :: 0 <= i < |fails| - 1 ==>
      fails[i] + (if i >= MAX_FAILED_ATTEMPTS - 1 then LOCK_MS else 0) <= fails[i + 1]
  }

  predicate Inv(w: World) {
    var n := |w.fails|;
    && w.u.failedLoginCount == n
    && Spaced(w.fails)
    && (n > 0 ==> w.fails[n - 1] <= w.clock)
    && (n >= MAX_FAILED_ATTEMPTS ==> w.u.lockedUntil == Some(w.fails[n - 1] + LOCK_MS))
    && (n < MAX_FAILED_ATTEMPTS ==> !IsLocked(w.u, w.clock))
  }

  lemma {:induction false} RunKeepsInv(w: World, run: seq<Timed<Event>>)
    requires Inv(w) && ValidRun(w.clock, run)
    ensures Inv(Run(w, run))
    decreases |run|
  {
    if run != [] { RunKeepsInv(Step(w, run[0]), run[1..]); }
  }

  lemma {:induction false} SpacedSpan(fails: seq<int>)
    requires fails != [] && Spaced(fails)
    ensures fails[0] <= fails[|fails| - 1]
    ensures (|fails| - MAX_FAILED_ATTEMPTS) * LOCK_MS <= fails[|fails| - 1] - fails[0]
  {
    if |fails| > 1 { SpacedSpan(fails[..|fails| - 1]); }
  }

  /** In every run, the counter is the number of failed comparisons since the last success; from
      the fifth on they are half an hour apart; so in time T after the first there are at most
      5 + T / 30 min. */
  lemma LockoutSpacing(suspended: bool, clock: int, run: seq<Timed<Event>>)
    requires ValidRun(clock, run)
    ensures var w := Run(Start(suspended, clock), run);
            var n := |w.fails|;
            && w.u.failedLoginCount == n
            && (forall i :: 4 <= i < n - 1 ==> w.fails[i] + 1800000 <= w.fails[i + 1])
            && (n > 0 ==> n <= 5 + (w.fails[n - 1] - w.fails[0]) / 1800000)
  {
    RunKeepsInv(Start(suspended, clock), run);
    var w := Run(Start(suspended, clock), run);
    if w.fails != [] { SpacedSpan(w.fails); }
  }

  /** A stretch with no success keeps all its failures, so the bound is one on guessing. */
  lemma {:induction false} FailuresAccumulate(w: World, run: seq<Timed<Event>>)
    requires forall e :: e in run && e.event.Login? ==> !e.event.valid
    ensures var fails := Run(w, run).fails;
            |fails| >= |w.fails| && fails[..|w.fails|] == w.fails
    decreases |run|
  {
    if run != [] {
      assert run[0] in run;
      assert forall x :: x in run[1..] ==> x in run;
      FailuresAccumulate(Step(w, run[0]), run[1..]);
      var mid, end := Step(w, run[0]).fails, Run(w, run).fails;
      assert end[..|w.fails|] == end[..|mid|][..|w.fails|];
    }
  }

  /** While the lock lasts, even the right password is refused and nothing changes. */
  lemma {:induction false} LockHolds(w: World, run: seq<Timed<Event>>)
    requires w.u.lockedUntil.Some? && ValidRun(w.clock, run)
    requires forall e :: e in run ==> e.at < w.u.lockedUntil.value && e.event.Login?
    ensures Run(w, run).u == w.u && Run(w, run).fails == w.fails
    decreases |run|
  {
    if run != [] {
      assert run[0] in run;
      assert forall x :: x in run[1..] ==> x in run;
      LockHolds(Step(w, run[0]), run[1..]);
    }
  }
}

/** The session store: a key per session, a set of session ids per user, and a time to live on
    each. Redis pipelines are atomic; times are in seconds. */
module Sessions {
  import opened Timelines

  const SESSION_TTL := 15 * 60

  datatype Session = Session(userId: string, expiresAt: int)

  datatype Index = Index(ids: set<string>, expiresAt: int)

  datatype Store = Store(sessions: map<string, Session>, indexes: map<string, Index>)

  predicate LiveSession(s: Store, sid: string, now: int) {
    sid in s.sessions && now < s.sessions[sid].expiresAt
  }

  /** SMEMBERS: a key that has expired or is not there is the empty set. */
  function Members(s: Store, userId: string, now: int): set<string> {
    if userId in s.indexes && now < s.indexes[userId].expiresAt then s.indexes[userId].ids else {}
  }

  function Created(s: Store, sid: string, userId: string, now: int): Store {
    Store(s.sessions[sid := Session(userId, now + SESSION_TTL)],
          s.indexes[userId := Index(Members(s, userId, now) + {sid}, now + 2 * SESSION_TTL)])
  }

  /** SREM: removing the last member removes the key. */
  function Removed(s: Store, userId: string, sid: string, now: int): map<string, Index> {
    var left := Members(s, userId, now) - {sid};
    if left == {} then s.indexes - {userId}
    else s.indexes[userId := Index(left, s.indexes[userId].expiresAt)]
  }

  function Deleted(s: Store, sid: string, now: int): Store {
    Store(s.sessions - {sid},
          if LiveSession(s, sid, now) then Removed(s, s.sessions[sid].userId, sid, now) else s.indexes)
  }

  function AllDeleted(s: Store, userId: string, now: int): Store {
    var ids := Members(s, userId, now);
    if ids == {} then s else Store(s.sessions - ids, s.indexes - {userId})
  }

  /** The user's index is live and has the session id. */
  predicate Indexes(s: Store, userId: string, sid: string, now: int) {
    userId in s.indexes && now < s.indexes[userId].expiresAt && sid in s.indexes[userId].ids
  }

  /** What deleting one session leaves: the session is gone for good, and, when it was live, so is
      its entry in its user's index; every other session and every other entry stays. */
  ghost predicate IsDeleted(s: Store, sid: string, now: int, s': Store) {
    && (forall t :: !LiveSession(s', sid, t))
    && (forall x :: x != sid ==>
          (x in s'.sessions <==> x in s.sessions) && (x in s.sessions ==> s'.sessions[x] == s.sessions[x]))
    && (LiveSession(s, sid, now) ==> forall t :: t >= now ==> !Indexes(s', s.sessions[sid].userId, sid, t))
    && (forall u, x, t :: t >= now && !(x == sid && LiveSession(s, sid, now) && u == s.sessions[sid].userId) ==>
          (Indexes(s', u, x, t) <==> Indexes(s, u, x, t)))
  }

  lemma DeletedLeaves(s: Store, sid: string, now: int)
    ensures IsDeleted(s, sid, now, Deleted(s, sid, now))
  {
    var s' := Deleted(s, sid, now);
    forall u, x, t | t >= now
      ensures Indexes(s', u, x, t) <==>
                Indexes(s, u, x, t) && !(x == sid && LiveSession(s, sid, now) && u == s.sessions[sid].userId)
    {
      if LiveSession(s, sid, now) { RemovedLeaves(s, s.sessions[sid].userId, sid, now, u, x, t); }
    }
  }

  lemma RemovedLeaves(s: Store, userId: string, sid: string, now: int, u: string, x: string, t: int)
    requires t >= now
    ensures Indexes(s.(indexes := Removed(s, userId, sid, now)), u, x, t) <==>
              Indexes(s, u, x, t) && !(x == sid && u == userId)
  {
    var left := Members(s, userId, now) - {sid};
    if u == userId && x != sid && Indexes(s, u, x, t) { assert x in left; }
  }

  class SessionService {
    var sessions: map<string, Session>
    var indexes: map<string, Index>

    constructor ()
      ensures Value() == Store(map[], map[])
    {
      sessions, indexes := map[], map[];
    }

    function Value(): Store
      reads this
    {
      Store(sessions, indexes)
    }

    method CreateSession(sid: string, userId: string, now: int)
      modifies this
      ensures Value() == Created(old(Value()), sid, userId, now)
      ensures sessions == old(sessions)[sid := Session(userId, now + 900)]
      ensures userId in indexes && indexes[userId].expiresAt == now + 1800
      ensures indexes[userId].ids ==
                (if userId in old(indexes) && now < old(indexes)[userId].expiresAt
                 then old(indexes)[userId].ids else {}) + {sid}
      ensures indexes == old(indexes)[userId := indexes[userId]]
    {
      sessions := sessions[sid := Session(userId, now + SESSION_TTL)];
      var ids := Members(Value(), userId, now);
      indexes := indexes[userId := Index(ids + {sid}, now + SESSION_TTL * 2)];
    }

    method GetSession(sid: string, now: int) returns (found: bool, userId: string)
      ensures found <==> LiveSession(Value(), sid, now)
      ensures found ==> userId == sessions[sid].userId
    {
      found := sid in sessions && now < sessions[sid].expiresAt;
      userId := if found then sessions[sid].userId else "";
    }

    method DeleteSession(sid: string, now: int)
      modifies this
      ensures Value() == Deleted(old(Value()), sid, now)
      ensures IsDeleted(old(Value()), sid, now, Value())
    {
      DeletedLeaves(Value(), sid, now);
      var found, userId := GetSession(sid, now);
      sessions := sessions - {sid};
      if found {
        indexes := Removed(Value(), userId, sid, now);
      }
    }

    method DeleteAllUserSessions(userId: string, now: int)
      modifies this
      ensures Value() == AllDeleted(old(Value()), userId, now)
      ensures forall sid :: sid in sessions <==> sid in old(sessions) && !Indexes(old(Value()), userId, sid, now)
      ensures forall sid :: sid in sessions ==> sessions[sid] == old(sessions)[sid]
      ensures forall sid, t :: t >= now ==> !Indexes(Value(), userId, sid, t)
      ensures forall v :: v != userId ==>
                (v in indexes <==> v in old(indexes)) && (v in indexes ==> indexes[v] == old(indexes)[v])
    {
      var ids := Members(Value(), userId, now);
      if ids == {} { return; }
      var left := ids;
      while left != {}
        invariant left <= ids
        invariant sessions == old(sessions) - (ids - left)
        invariant indexes == old(indexes)
        decreases left
      {
        var sid :| sid in left;
        sessions := sessions - {sid};
        left := left - {sid};
      }
      indexes := indexes - {userId};
    }
  }

  // ---- Runs

  datatype Event =
    | Create(sid: string, userId: string)
    | Delete(sid: string)
    | DeleteAll(userId: string)

  function Step(s: Store, e: Timed<Event>): Store {
    match e.event
    case Create(sid, userId) => Created(s, sid, userId, e.at)
    case Delete(sid) => Deleted(s, sid, e.at)
    case DeleteAll(userId) => AllDeleted(s, userId, e.at)
  }

  function Run(s: Store, run: seq<Timed<Event>>): Store
    decreases |run|
  {
    if run == [] then s else Run(Step(s, run[0]), run[1..])
  }

  ghost predicate IndexedAt(s: Store, sid: string, now: int) {
    LiveSession(s, sid, now) ==>
      var u := s.sessions[sid].userId;
      && sid in Members(s, u, now)
      && s.sessions[sid].expiresAt <= s.indexes[u].expiresAt
      && s.sessions[sid].expiresAt <= now + SESSION_TTL
  }

  /** Every live session is in its user's live index, and the index outlives it. */
  ghost predicate Indexed(s: Store, now: int) {
    forall sid :: IndexedAt(s, sid, now)
  }

  lemma CreateKeepsIndexed(s: Store, clock: int, sid: string, userId: string, now: int)
    requires Indexed(s, clock) && clock <= now
    ensures Indexed(Created(s, sid, userId, now), now)
  {
    forall x ensures IndexedAt(Created(s, sid, userId, now), x, now) { assert IndexedAt(s, x, clock); }
  }

  lemma DeleteKeepsIndexed(s: Store, clock: int, sid: string, now: int)
    requires Indexed(s, clock) && clock <= now
    ensures Indexed(Deleted(s, sid, now), now)
  {
    forall x ensures IndexedAt(Deleted(s, sid, now), x, now) { assert IndexedAt(s, x, clock); }
  }

  lemma DeleteAllKeepsIndexed(s: Store, clock: int, userId: string, now: int)
    requires Indexed(s, clock) && clock <= now
    ensures Indexed(AllDeleted(s, userId, now), now)
  {
    forall x ensures IndexedAt(AllDeleted(s, userId, now), x, now) { assert IndexedAt(s, x, clock); }
  }

  lemma StepKeepsIndexed(s: Store, clock: int, e: Timed<Event>)
    requires Indexed(s, clock) && clock <= e.at
    ensures Indexed(Step(s, e), e.at)
  {
    match e.event
    case Create(sid, userId) => CreateKeepsIndexed(s, clock, sid, userId, e.at);
    case Delete(sid) => DeleteKeepsIndexed(s, clock, sid, e.at);
    case DeleteAll(userId) => DeleteAllKeepsIndexed(s, clock, userId, e.at);
  }

  lemma {:induction false} IndexAgreement(s: Store, clock: int, run: seq<Timed<Event>>)
    requires Indexed(s, clock) && ValidRun(clock, run)
    ensures Indexed(Run(s, run), EndOf(clock, run)) && clock <= EndOf(clock, run)
    decreases |run|
  {
    if run != [] {
      StepKeepsIndexed(s, clock, run[0]);
      IndexAgreement(Step(s, run[0]), run[0].at, run[1..]);
    }
  }

  /** After `deleteAllUserSessions(u)`, at the end of any run, no live session of u remains. */
  lemma NoSessionSurvives(run: seq<Timed<Event>>, clock: int, userId: string, now: int, sid: string)
    requires ValidRun(clock, run) && EndOf(clock, run) <= now
    ensures var s := AllDeleted(Run(Store(map[], map[]), run), userId, now);
            LiveSession(s, sid, now) ==> s.sessions[sid].userId != userId
  {
    var s := Run(Store(map[], map[]), run);
    IndexAgreement(Store(map[], map[]), clock, run);
    assert IndexedAt(s, sid, EndOf(clock, run));
  }

  /** After `deleteSession(sid)`, at the end of any run, the session is live at no time, no live
      index has it, and every other session and index entry is as before. */
  lemma DeletedIsGone(run: seq<Timed<Event>>, clock: int, sid: string, now: int)
    requires ValidRun(clock, run) && EndOf(clock, run) <= now
    ensures var s := Run(Store(map[], map[]), run);
            var s' := Run(Store(map[], map[]), run + [Timed(now, Delete(sid))]);
            && (forall t :: !LiveSession(s', sid, t))
            && (LiveSession(s, sid, now) ==>
                  var u := s.sessions[sid].userId;
                  Indexes(s, u, sid, now) && forall t :: t >= now ==> !Indexes(s', u, sid, t))
            && (forall x :: x != sid ==>
                  (x in s'.sessions <==> x in s.sessions) && (x in s.sessions ==> s'.sessions[x] == s.sessions[x]))
            && (forall u, x, t :: x != sid && t >= now ==> (Indexes(s', u, x, t) <==> Indexes(s, u, x, t)))
  {
    var none, e := Store(map[], map[]), Timed(now, Delete(sid));
    RunPush(none, run, e);
    IndexAgreement(none, clock, run);
    var s := Run(none, run);
    assert IndexedAt(s, sid, EndOf(clock, run));
    DeletedLeaves(s, sid, now);
  }

  lemma {:induction false} RunPush(s: Store, run: seq<Timed<Event>>, e: Timed<Event>)
    ensures Run(s, run + [e]) == Step(Run(s, run), e)
    decreases |run|
  {
    if run == [] {
      assert (run + [e])[1..] == [];
    } else {
      RunPush(Step(s, run[0]), run[1..], e);
      assert (run + [e])[1..] == run[1..] + [e];
    }
  }

  // ---- Other users' sessions

  ghost predicate OwnersFixed(owner: string -> string, s: Store) {
    && (forall sid :: sid in s.sessions ==> s.sessions[sid].userId == owner(sid))
    && (forall u, sid :: u in s.indexes && sid in s.indexes[u].ids ==> u == owner(sid))
  }

  lemma {:induction false} RunKeepsOwners(owner: string -> string, s: Store, run: seq<Timed<Event>>)
    requires OwnersFixed(owner, s)
    requires forall e :: e in run && e.event.Create? ==> e.event.userId == owner(e.event.sid)
    ensures OwnersFixed(owner, Run(s, run))
    decreases |run|
  {
    if run != [] {
      assert run[0] in run;
      assert forall x :: x in run[1..] ==> x in run;
      RunKeepsOwners(owner, Step(s, run[0]), run[1..]);
    }
  }

  /** When a session id is never given to a second user, deleting all of one user's sessions
      deletes exactly those. */
  lemma OthersSurvive(owner: string -> string, run: seq<Timed<Event>>, clock: int, userId: string, now: int, sid: string)
    requires ValidRun(clock, run) && EndOf(clock, run) <= now
    requires forall e :: e in run && e.event.Create? ==> e.event.userId == owner(e.event.sid)
    ensures var s := Run(Store(map[], map[]), run);
            LiveSession(s, sid, now) ==>
              (LiveSession(AllDeleted(s, userId, now), sid, now) <==> s.sessions[sid].userId != userId)
  {
    var s := Run(Store(map[], map[]), run);
    RunKeepsOwners(owner, Store(map[], map[]), run);
    NoSessionSurvives(run, clock, userId, now, sid);
  }

  /** Otherwise not: an id created for u and then for v still stands in u's index. */
  lemma ReusedIdIsDeleted(s: Store, sid: string, u: string, v: string, t: int, t': int, now: int)
    requires u != v && t <= t' <= now < t' + SESSION_TTL && now < t + 2 * SESSION_TTL
    ensures var s' := Created(Created(s, sid, u, t), sid, v, t');
            && LiveSession(s', sid, now) && s'.sessions[sid].userId == v
            && !LiveSession(AllDeleted(s', u, now), sid, now)
  {
    var s' := Created(Created(s, sid, u, t), sid, v, t');
    assert sid in Members(s', u, now);
  }

  // ---- Exactly when other users keep their sessions

  /** The run creates sessions only with these pairs of session id and user. */
  ghost predicate CreatesOnly(pairs: iset<(string, string)>, run: seq<Timed<Event>>) {
    forall e :: e in run && e.event.Create? ==> (e.event.sid, e.event.userId) in pairs
  }

  ghost predicate OtherKept(s: Store, userId: string, now: int, sid: string) {
    LiveSession(s, sid, now) && s.sessions[sid].userId != userId ==>
      LiveSession(AllDeleted(s, userId, now), sid, now)
  }

  /** After any such run, deleting one user's sessions leaves every other live session. */
  ghost predicate OthersAlwaysKept(pairs: iset<(string, string)>) {
    forall run, clock, userId, now, sid ::
      ValidRun(clock, run) && EndOf(clock, run) <= now && CreatesOnly(pairs, run) ==>
        OtherKept(Run(Store(map[], map[]), run), userId, now, sid)
  }

  ghost predicate OneOwnerEach(pairs: iset<(string, string)>) {
    forall sid, u, v :: (sid, u) in pairs && (sid, v) in pairs ==> u == v
  }

  ghost function OwnerIn(pairs: iset<(string, string)>, sid: string): string {
    if exists u :: (sid, u) in pairs then
      var u :| (sid, u) in pairs;
      u
    else ""
  }

  lemma TwoOwnersLose(pairs: iset<(string, string)>, sid: string, u: string, v: string)
    requires (sid, u) in pairs && (sid, v) in pairs && u != v
    ensures !OthersAlwaysKept(pairs)
  {
    var none := Store(map[], map[]);
    var first, second := Timed(0, Create(sid, u)), Timed(0, Create(sid, v));
    var run := [first, second];
    var once := Created(none, sid, u, 0);
    assert run[1..] == [second] && [second][1..] == [];
    assert Run(once, [second]) == Created(once, sid, v, 0);
    assert Run(none, run) == Run(once, [second]);
    ReusedIdIsDeleted(none, sid, u, v, 0, 0, 0);
    assert !OtherKept(Run(none, run), u, 0, sid);
    assert ValidRun(0, [second]);
    assert ValidRun(0, run) && run[1] == second;
    assert CreatesOnly(pairs, run);
  }

  /** Deleting one user's sessions never takes another's, whatever the run, if and only if no
      session id is ever used for two users. */
  lemma OthersKeptExactly(pairs: iset<(string, string)>)
    ensures OthersAlwaysKept(pairs) <==> OneOwnerEach(pairs)
  {
    if OneOwnerEach(pairs) {
      forall run, clock, userId, now, sid
        | ValidRun(clock, run) && EndOf(clock, run) <= now && CreatesOnly(pairs, run)
        ensures OtherKept(Run(Store(map[], map[]), run), userId, now, sid)
      {
        OthersSurvive(x => OwnerIn(pairs, x), run, clock, userId, now, sid);
      }
    } else {
      var sid, u, v :| (sid, u) in pairs && (sid, v) in pairs && u != v;
      TwoOwnersLose(pairs, sid, u, v);
    }
  }
}

/** One-time passwords: a cooldown between codes, an expiry, and a cap on attempts. */
module Otps {
  import opened Timelines

  datatype Purpose = PHONE_VERIFY | LOGIN | PASSWORD_RESET

  datatype Key = Key(phone: string, purpose: Purpose)

  datatype Otp = Otp(key: Key, code: string, attempts: nat, verified: bool, createdAt: int, expiresAt: int)

  const COOLDOWN_MS := 60 * 1000
  const EXPIRY_MS := 5 * 60 * 1000
  const RETENTION_MS := 60 * 60 * 1000
  const MAX_ATTEMPTS := 5

  datatype Found = Found(index: nat) | Missing

  datatype VerifyResult = NotFound | TooManyAttempts | Invalid(remaining: int) | Accepted

  predicate Recent(o: Otp, key: Key, now: int) {
    o.key == key && o.createdAt > now - COOLDOWN_MS
  }

  predicate Usable(o: Otp, key: Key, now: int) {
    o.key == key && !o.verified && o.expiresAt > now
  }

  /** `findOne` ordered by `createdAt` descending, over a table in creation order. */
  function FindNewest(rows: seq<Otp>, p: Otp -> bool): (r: Found)
    ensures r.Found? ==> r.index < |rows| && p(rows[r.index])
                         && forall j :: r.index < j < |rows| ==> !p(rows[j])
    ensures r.Missing? ==> forall j :: 0 <= j < |rows| ==> !p(rows[j])
  {
    if rows == [] then Missing
    else
      var n := |rows| - 1;
      if p(rows[n]) then Found(n) else FindNewest(rows[..n], p)
  }

  function FindRecent(rows: seq<Otp>, key: Key, now: int): Found {
    FindNewest(rows, (o: Otp) => Recent(o, key, now))
  }

  function FindUsable(rows: seq<Otp>, key: Key, now: int): Found {
    FindNewest(rows, (o: Otp) => Usable(o, key, now))
  }

  function NewOtp(key: Key, code: string, now: int): Otp {
    Otp(key, code, 0, false, now, now + EXPIRY_MS)
  }

  /** The outcome of checking a code, and the table afterwards. */
  datatype Verification = Verification(rows: seq<Otp>, result: VerifyResult)

  function Verified(rows: seq<Otp>, key: Key, code: string, now: int): Verification {
    match FindUsable(rows, key, now)
    case Missing => Verification(rows, NotFound)
    case Found(i) =>
      var o := rows[i];
      if o.attempts >= MAX_ATTEMPTS then Verification(rows, TooManyAttempts)
      else
        var counted := o.(attempts := o.attempts + 1);
        if o.code != code then
          Verification(rows[i := counted], Invalid(MAX_ATTEMPTS - counted.attempts))
        else Verification(rows[i := counted.(verified := true)], Accepted)
  }

  function Cleaned(rows: seq<Otp>, now: int): (kept: seq<Otp>)
    ensures forall o :: o in kept <==> o in rows && o.expiresAt >= now - RETENTION_MS
  {
    if rows == [] then []
    else
      var n := |rows| - 1;
      assert rows == rows[..n] + [rows[n]];
      Cleaned(rows[..n], now) + if rows[n].expiresAt < now - RETENTION_MS then [] else [rows[n]]
  }

  /** The latest row of the key that is neither verified nor expired. */
  predicate IsLatestUsable(rows: seq<Otp>, key: Key, now: int, i: nat) {
    && i < |rows|
    && rows[i].key == key && !rows[i].verified && rows[i].expiresAt > now
    && forall j :: i < j < |rows| ==> rows[j].key != key || rows[j].verified || rows[j].expiresAt <= now
  }

  class OtpService {
    var rows: seq<Otp>

    constructor ()
      ensures rows == []
    {
      rows := [];
    }

    /** `code` stands for the random code. */
    method Generate(key: Key, code: string, now: int) returns (ok: bool)
      modifies this
      ensures ok <==> forall o :: o in old(rows) && o.key == key ==> o.createdAt <= now - 60000
      ensures ok <==> FindRecent(old(rows), key, now).Missing?
      ensures rows == if ok then old(rows) + [Otp(key, code, 0, false, now, now + 300000)] else old(rows)
    {
      var recent := FindRecent(rows, key, now);
      if recent.Found? {
        return false;
      }
      var expiresAt := now + EXPIRY_MS;
      rows := rows + [Otp(key, code, 0, false, now, expiresAt)];
      return true;
    }

    /** `i` is the latest row of this phone and purpose that is neither verified nor expired. */
    method Verify(key: Key, code: string, now: int) returns (r: VerifyResult, ghost i: nat)
      modifies this
      ensures Verification(rows, r) == Verified(old(rows), key, code, now)
      ensures r.NotFound? <==>
                forall o :: o in old(rows) ==> o.key != key || o.verified || o.expiresAt <= now
      ensures !r.NotFound? ==> IsLatestUsable(old(rows), key, now, i)
      ensures !r.NotFound? ==>
        var o := old(rows)[i];
        && (r.TooManyAttempts? <==> o.attempts >= 5)
        && (r.Accepted? <==> o.attempts < 5 && o.code == code)
        && (r.Invalid? <==> o.attempts < 5 && o.code != code)
        && (r.Invalid? ==> r.remaining == 4 - o.attempts)
        && rows == if r.TooManyAttempts? then old(rows)
                   else old(rows)[i := Otp(o.key, o.code, o.attempts + 1, r.Accepted?, o.createdAt, o.expiresAt)]
      ensures r.NotFound? ==> rows == old(rows)
    {
      var found := FindUsable(rows, key, now);
      if found.Missing? {
        return NotFound, 0;
      }
      i := found.index;
      var otp := rows[found.index];
      if otp.attempts >= MAX_ATTEMPTS {
        return TooManyAttempts, i;
      }
      otp := otp.(attempts := otp.attempts + 1);
      if otp.code != code {
        rows := rows[found.index := otp];
        return Invalid(MAX_ATTEMPTS - otp.attempts), i;
      }
      otp := otp.(verified := true);
      rows := rows[found.index := otp];
      return Accepted, i;
    }

    method Cleanup(now: int)
      modifies this
      ensures rows == Cleaned(old(rows), now)
      ensures forall o :: o in rows <==> o in old(rows) && o.expiresAt >= now - 3600000
    {
      rows := Cleaned(rows, now);
    }
  }

  // ---- Runs, with what happened to one phone and purpose

  datatype Event = Generate(key: Key, code: string) | Verify(key: Key, code: string) | Cleanup

  /** `issued` holds the creation times of the key's codes, `compared` counts the comparisons
      made with them, `accepted` those that succeeded. */
  datatype World = World(rows: seq<Otp>, clock: int, issued: seq<int>, compared: nat, accepted: nat)

  function Start(clock: int): World { World([], clock, [], 0, 0) }

  function Step(k: Key, w: World, e: Timed<Event>): World {
    match e.event
    case Generate(key, code) =>
      if FindRecent(w.rows, key, e.at).Found? then w.(clock := e.at)
      else World(w.rows + [NewOtp(key, code, e.at)], e.at,
                 if key == k then w.issued + [e.at] else w.issued, w.compared, w.accepted)
    case Verify(key, code) =>
      var v := Verified(w.rows, key, code, e.at);
      World(v.rows, e.at, w.issued,
            w.compared + if key == k && (v.result.Invalid? || v.result.Accepted?) then 1 else 0,
            w.accepted + if key == k && v.result.Accepted? then 1 else 0)
    case Cleanup => w.(rows := Cleaned(w.rows, e.at), clock := e.at)
  }

  function Run(k: Key, w: World, run: seq<Timed<Event>>): World
    decreases |run|
  {
    if run == [] then w else Run(k, Step(k, w, run[0]), run[1..])
  }

  /** Attempts not yet used on the key's codes. */
  function AttemptsLeft(rows: seq<Otp>, k: Key): nat {
    if rows == [] then 0
    else
      var n := |rows| - 1;
      AttemptsLeft(rows[..n], k) +
      if rows[n].key == k && rows[n].attempts <= MAX_ATTEMPTS then MAX_ATTEMPTS - rows[n].attempts else 0
  }

  function Unverified(rows: seq<Otp>, k: Key): nat {
    if rows == [] then 0
    else
      var n := |rows| - 1;
      Unverified(rows[..n], k) + if rows[n].key == k && !rows[n].verified then 1 else 0
  }

  /** The key's codes that can still be accepted at a given moment, as far as time goes. */
  function Unexpired(rows: seq<Otp>, k: Key, now: int): nat {
    if rows == [] then 0
    else
      var n := |rows| - 1;
      Unexpired(rows[..n], k, now) + if rows[n].key == k && rows[n].expiresAt > now then 1 else 0
  }

  ghost predicate SpacedRows(rows: seq<Otp>, k: Key) {
    forall i, j :: 0 <= i < j < |rows| && rows[i].key == k && rows[j].key == k ==>
      rows[i].createdAt + COOLDOWN_MS <= rows[j].createdAt
  }

  predicate SpacedTimes(times: seq<int>) {
    forall i :: 0 <= i < |times| - 1 ==> times[i] + COOLDOWN_MS <= times[i + 1]
  }

  predicate RowOk(o: Otp, clock: int) {
    o.attempts <= MAX_ATTEMPTS && o.createdAt <= clock && o.expiresAt == o.createdAt + EXPIRY_MS
  }

  ghost predicate RowsInv(rows: seq<Otp>, k: Key, clock: int) {
    && (forall i :: 0 <= i < |rows| ==> RowOk(rows[i], clock))
    && SpacedRows(rows, k)
  }

  ghost predicate HasRow(rows: seq<Otp>, k: Key, createdAt: int) {
    exists i :: 0 <= i < |rows| && rows[i].key == k && rows[i].createdAt == createdAt
  }

  /** The newest code is still in the table while it matters for the cooldown. */
  ghost predicate IssuedInv(rows: seq<Otp>, issued: seq<int>, k: Key, clock: int) {
    && SpacedTimes(issued)
    && (issued != [] ==>
          var last := issued[|issued| - 1];
          last <= clock && (last <= clock - COOLDOWN_MS || HasRow(rows, k, last)))
  }

  predicate CountInv(k: Key, w: World) {
    && w.compared + AttemptsLeft(w.rows, k) <= 5 * |w.issued|
    && w.accepted + Unverified(w.rows, k) <= |w.issued|
  }

  ghost predicate Inv(k: Key, w: World) {
    && RowsInv(w.rows, k, w.clock)
    && IssuedInv(w.rows, w.issued, k, w.clock)
    && CountInv(k, w)
  }

  lemma LaterClock(rows: seq<Otp>, issued: seq<int>, k: Key, clock: int, at: int)
    requires RowsInv(rows, k, clock) && IssuedInv(rows, issued, k, clock) && clock <= at
    ensures RowsInv(rows, k, at) && IssuedInv(rows, issued, k, at)
  {
  }

  /** A new code of a key whose codes are all past the cooldown. */
  lemma NewRow(rows: seq<Otp>, issued: seq<int>, k: Key, key: Key, code: string, at: int)
    requires RowsInv(rows, k, at) && IssuedInv(rows, issued, k, at)
    requires forall i :: 0 <= i < |rows| ==> !Recent(rows[i], key, at)
    ensures var rows' := rows + [NewOtp(key, code, at)];
            var issued' := if key == k then issued + [at] else issued;
            RowsInv(rows', k, at) && IssuedInv(rows', issued', k, at)
  {
    var n := |rows|;
    var rows' := rows + [NewOtp(key, code, at)];
    forall i | 0 <= i < |rows'| ensures RowOk(rows'[i], at) {
      if i < n { assert RowOk(rows[i], at); }
    }
    if key == k {
      assert rows'[n].key == k && rows'[n].createdAt == at;
    } else if issued != [] {
      var last := issued[|issued| - 1];
      if HasRow(rows, k, last) {
        var i :| 0 <= i < n && rows[i].key == k && rows[i].createdAt == last;
        assert rows'[i] == rows[i];
      }
    }
  }

  lemma GenerateKeepsInv(k: Key, w: World, e: Timed<Event>)
    requires Inv(k, w) && w.clock <= e.at && e.event.Generate?
    ensures Inv(k, Step(k, w, e))
  {
    LaterClock(w.rows, w.issued, k, w.clock, e.at);
    if FindRecent(w.rows, e.event.key, e.at).Missing? {
      NewRow(w.rows, w.issued, k, e.event.key, e.event.code, e.at);
      NewRowCounts(k, w, e);
    }
  }

  lemma NewRowCounts(k: Key, w: World, e: Timed<Event>)
    requires CountInv(k, w) && e.event.Generate? && FindRecent(w.rows, e.event.key, e.at).Missing?
    ensures CountInv(k, Step(k, w, e))
  {
    hide AttemptsLeft, Unverified;
    CountsAppend(w.rows, NewOtp(e.event.key, e.event.code, e.at), k);
  }

  lemma {:induction false} CountsUpdate(rows: seq<Otp>, i: nat, o: Otp, k: Key)
    requires i < |rows| && o.key == rows[i].key && !rows[i].verified
    requires o.attempts == rows[i].attempts + 1 <= MAX_ATTEMPTS
    ensures AttemptsLeft(rows[i := o], k) == AttemptsLeft(rows, k) - if o.key == k then 1 else 0
    ensures Unverified(rows[i := o], k) == Unverified(rows, k) - if o.key == k && o.verified then 1 else 0
  {
    var n := |rows| - 1;
    if i == n {
      assert rows[i := o][..n] == rows[..n];
    } else {
      CountsUpdate(rows[..n], i, o, k);
      assert rows[i := o][..n] == rows[..n][i := o];
    }
  }

  lemma UpdatedRow(rows: seq<Otp>, issued: seq<int>, i: nat, o: Otp, k: Key, at: int)
    requires RowsInv(rows, k, at) && IssuedInv(rows, issued, k, at) && i < |rows|
    requires o.key == rows[i].key && o.createdAt == rows[i].createdAt
    requires o.expiresAt == rows[i].expiresAt && o.attempts <= MAX_ATTEMPTS
    ensures RowsInv(rows[i := o], k, at) && IssuedInv(rows[i := o], issued, k, at)
  {
    var rows' := rows[i := o];
    forall j | 0 <= j < |rows'| ensures RowOk(rows'[j], at) { assert RowOk(rows[j], at); }
    if issued != [] && HasRow(rows, k, issued[|issued| - 1]) {
      var last := issued[|issued| - 1];
      var j :| 0 <= j < |rows| && rows[j].key == k && rows[j].createdAt == last;
      assert rows'[j].key == k && rows'[j].createdAt == last;
    }
  }

  lemma VerifyKeepsInv(k: Key, w: World, e: Timed<Event>)
    requires Inv(k, w) && w.clock <= e.at && e.event.Verify?
    ensures Inv(k, Step(k, w, e))
  {
    LaterClock(w.rows, w.issued, k, w.clock, e.at);
    var found := FindUsable(w.rows, e.event.key, e.at);
    if found.Found? && w.rows[found.index].attempts < MAX_ATTEMPTS {
      var i := found.index;
      var o := w.rows[i];
      var o' := o.(attempts := o.attempts + 1, verified := o.code == e.event.code);
      assert Verified(w.rows, e.event.key, e.event.code, e.at).rows == w.rows[i := o'];
      CountsUpdate(w.rows, i, o', k);
      UpdatedRow(w.rows, w.issued, i, o', k, e.at);
    }
  }

  lemma CountsAppend(rows: seq<Otp>, o: Otp, k: Key)
    ensures AttemptsLeft(rows + [o], k) == AttemptsLeft(rows, k) +
            if o.key == k && o.attempts <= MAX_ATTEMPTS then MAX_ATTEMPTS - o.attempts else 0
    ensures Unverified(rows + [o], k) == Unverified(rows, k) + if o.key == k && !o.verified then 1 else 0
  {
    assert (rows + [o])[..|rows|] == rows;
  }

  lemma {:induction false} CleanedCounts(rows: seq<Otp>, k: Key, now: int)
    ensures AttemptsLeft(Cleaned(rows, now), k) <= AttemptsLeft(rows, k)
    ensures Unverified(Cleaned(rows, now), k) <= Unverified(rows, k)
  {
    hide AttemptsLeft, Unverified;
    if rows != [] {
      var n := |rows| - 1;
      var kept := Cleaned(rows[..n], now);
      CleanedCounts(rows[..n], k, now);
      CountsAppend(kept, rows[n], k);
      CountsAppend(rows[..n], rows[n], k);
      assert rows == rows[..n] + [rows[n]];
      assert kept + [] == kept;
    }
  }

  lemma {:induction false} CleanedSpaced(rows: seq<Otp>, k: Key, now: int)
    requires SpacedRows(rows, k)
    ensures SpacedRows(Cleaned(rows, now), k)
  {
    if rows != [] {
      var n := |rows| - 1;
      var kept := Cleaned(rows[..n], now);
      CleanedSpaced(rows[..n], k, now);
      forall i | 0 <= i < |kept| && kept[i].key == k && rows[n].key == k
        ensures kept[i].createdAt + COOLDOWN_MS <= rows[n].createdAt
      {
        assert kept[i] in kept;
        var j :| 0 <= j < n && rows[j] == kept[i];
      }
    }
  }

  lemma CleanedRows(rows: seq<Otp>, issued: seq<int>, k: Key, at: int)
    requires RowsInv(rows, k, at) && IssuedInv(rows, issued, k, at)
    ensures RowsInv(Cleaned(rows, at), k, at) && IssuedInv(Cleaned(rows, at), issued, k, at)
  {
    CleanedSpaced(rows, k, at);
    var kept := Cleaned(rows, at);
    forall i | 0 <= i < |kept| ensures RowOk(kept[i], at) {
      assert kept[i] in kept;
      var j :| 0 <= j < |rows| && rows[j] == kept[i];
      assert RowOk(rows[j], at);
    }
    if issued != [] && issued[|issued| - 1] > at - COOLDOWN_MS {
      var last := issued[|issued| - 1];
      var j :| 0 <= j < |rows| && rows[j].key == k && rows[j].createdAt == last;
      assert RowOk(rows[j], at);
      assert rows[j] in kept;
      var i :| 0 <= i < |kept| && kept[i] == rows[j];
      assert HasRow(kept, k, last);
    }
  }

  lemma StepKeepsInv(k: Key, w: World, e: Timed<Event>)
    requires Inv(k, w) && w.clock <= e.at
    ensures Inv(k, Step(k, w, e)) && Step(k, w, e).clock == e.at
  {
    match e.event
    case Generate(_, _) => GenerateKeepsInv(k, w, e);
    case Verify(_, _) => VerifyKeepsInv(k, w, e);
    case Cleanup =>
      LaterClock(w.rows, w.issued, k, w.clock, e.at);
      CleanedRows(w.rows, w.issued, k, e.at);
      CleanedCounts(w.rows, k, e.at);
  }

  lemma {:induction false} RunKeepsInv(k: Key, w: World, run: seq<Timed<Event>>)
    requires Inv(k, w) && ValidRun(w.clock, run)
    ensures Inv(k, Run(k, w, run)) && w.clock <= Run(k, w, run).clock
    decreases |run|
  {
    if run != [] {
      StepKeepsInv(k, w, run[0]);
      RunKeepsInv(k, Step(k, w, run[0]), run[1..]);
    }
  }

  // ---- Packing

  /** Codes a minute apart: how many fit between two moments. */
  lemma {:induction false} UnexpiredPacking(rows: seq<Otp>, k: Key, now: int, latest: int)
    requires SpacedRows(rows, k)
    requires forall i :: 0 <= i < |rows| ==> rows[i].expiresAt == rows[i].createdAt + EXPIRY_MS
    requires forall i :: 0 <= i < |rows| && rows[i].key == k ==> rows[i].createdAt <= latest
    ensures Unexpired(rows, k, now) > 0 ==>
            (Unexpired(rows, k, now) - 1) * 60000 < latest - (now - EXPIRY_MS)
  {
    if rows != [] {
      var n := |rows| - 1;
      if rows[n].key == k && rows[n].expiresAt > now {
        UnexpiredPacking(rows[..n], k, now, rows[n].createdAt - COOLDOWN_MS);
      } else {
        UnexpiredPacking(rows[..n], k, now, latest);
      }
    }
  }

  lemma {:induction false} SpacedSpan(times: seq<int>)
    requires times != [] && SpacedTimes(times)
    ensures times[0] + (|times| - 1) * 60000 <= times[|times| - 1]
  {
    if |times| > 1 { SpacedSpan(times[..|times| - 1]); }
  }

  lemma {:induction false} IssuedAfter(k: Key, w: World, run: seq<Timed<Event>>, t: int)
    requires ValidRun(w.clock, run) && t <= w.clock && forall i :: i in w.issued ==> t <= i
    ensures forall i :: i in Run(k, w, run).issued ==> t <= i
    decreases |run|
  {
    if run != [] { IssuedAfter(k, Step(k, w, run[0]), run[1..], t); }
  }

  /** At no moment of any run are there more than five unexpired codes for one phone and
      purpose. */
  lemma AtMostFiveUnexpired(k: Key, clock: int, run: seq<Timed<Event>>, now: int)
    requires ValidRun(clock, run) && Run(k, Start(clock), run).clock <= now
    ensures Unexpired(Run(k, Start(clock), run).rows, k, now) <= 5
  {
    RunKeepsInv(k, Start(clock), run);
    var rows := Run(k, Start(clock), run).rows;
    assert forall i :: 0 <= i < |rows| ==> RowOk(rows[i], Run(k, Start(clock), run).clock);
    UnexpiredPacking(rows, k, now, now);
  }

  /** Codes are at least a minute apart, each is compared at most five times and accepted at
      most once; so guessing is limited by elapsed time, whatever the requests. */
  lemma GuessingBound(k: Key, clock: int, run: seq<Timed<Event>>)
    requires ValidRun(clock, run)
    ensures var w := Run(k, Start(clock), run);
            && (forall i :: 0 <= i < |w.issued| - 1 ==> w.issued[i] + 60000 <= w.issued[i + 1])
            && w.compared <= 5 * |w.issued|
            && w.accepted <= |w.issued|
            && |w.issued| <= 1 + (w.clock - clock) / 60000
            && w.compared <= 5 * (1 + (w.clock - clock) / 60000)
  {
    RunKeepsInv(k, Start(clock), run);
    IssuedAfter(k, Start(clock), run, clock);
    var w := Run(k, Start(clock), run);
    if w.issued != [] {
      SpacedSpan(w.issued);
      assert w.issued[0] in w.issued;
      PerMinute(|w.issued|, w.compared, w.clock - clock);
    }
  }

  lemma PerMinute(codes: nat, compared: nat, elapsed: int)
    requires codes > 0 && (codes - 1) * 60000 <= elapsed && compared <= 5 * codes
    ensures codes <= 1 + elapsed / COOLDOWN_MS && compared <= 5 * (1 + elapsed / COOLDOWN_MS)
  {
  }

  /** The code that is compared is the newest one that can still be used. */
  lemma NewestIsCompared(k: Key, clock: int, run: seq<Timed<Event>>, now: int, j: nat)
    requires ValidRun(clock, run)
    requires var rows := Run(k, Start(clock), run).rows; j < |rows| && Usable(rows[j], k, now)
    ensures var rows := Run(k, Start(clock), run).rows;
            var found := FindUsable(rows, k, now);
            found.Found? && rows[j].createdAt <= rows[found.index].createdAt
  {
    RunKeepsInv(k, Start(clock), run);
  }

  /** Every row keeps to its own cap. */
  lemma AttemptsCapped(k: Key, clock: int, run: seq<Timed<Event>>)
    requires ValidRun(clock, run)
    ensures forall o :: o in Run(k, Start(clock), run).rows ==> o.attempts <= 5
  {
    RunKeepsInv(k, Start(clock), run);
    var w := Run(k, Start(clock), run);
    forall o | o in w.rows ensures o.attempts <= MAX_ATTEMPTS {
      var i :| 0 <= i < |w.rows| && w.rows[i] == o;
      assert RowOk(w.rows[i], w.clock);
    }
  }

  // ---- Which codes are accepted

  /** Every row in the table was generated by an event of the past. */
  ghost predicate Generated(rows: seq<Otp>, past: seq<Timed<Event>>) {
    forall o :: o in rows ==>
      o.expiresAt == o.createdAt + 300000 && Timed(o.createdAt, Event.Generate(o.key, o.code)) in past
  }

  lemma {:induction false} RunGenerated(k: Key, w: World, past: seq<Timed<Event>>, run: seq<Timed<Event>>)
    requires Generated(w.rows, past)
    ensures Generated(Run(k, w, run).rows, past + run)
    decreases |run|
  {
    if run == [] {
      assert past + run == past;
    } else {
      StepGenerated(k, w, past, run[0]);
      RunGenerated(k, Step(k, w, run[0]), past + [run[0]], run[1..]);
      assert past + [run[0]] + run[1..] == past + run;
    }
  }

  lemma StepGenerated(k: Key, w: World, past: seq<Timed<Event>>, e: Timed<Event>)
    requires Generated(w.rows, past)
    ensures Generated(Step(k, w, e).rows, past + [e])
  {
    var rows' := Step(k, w, e).rows;
    forall o | o in rows'
      ensures o.expiresAt == o.createdAt + 300000
      ensures Timed(o.createdAt, Event.Generate(o.key, o.code)) in past + [e]
    {
      match e.event
      case Generate(key, code) => assert o in w.rows || o == NewOtp(key, code, e.at);
      case Verify(key, code) =>
        var found := FindUsable(w.rows, key, e.at);
        if o !in w.rows {
          assert o == rows'[found.index];
          assert w.rows[found.index] in w.rows;
        }
      case Cleanup =>
    }
  }

  /** Only a code that was generated for this phone and purpose, less than five minutes before,
      is ever accepted. */
  lemma AcceptedWasGenerated(k: Key, clock: int, run: seq<Timed<Event>>, code: string, now: int)
    ensures var w := Run(k, Start(clock), run);
            Step(k, w, Timed(now, Event.Verify(k, code))).accepted == w.accepted + 1 ==>
              exists t :: t > now - 300000 && Timed(t, Event.Generate(k, code)) in run
  {
    RunGenerated(k, Start(clock), [], run);
    assert [] + run == run;
    var w := Run(k, Start(clock), run);
    var found := FindUsable(w.rows, k, now);
    if found.Found? {
      var o := w.rows[found.index];
      assert o in w.rows;
      assert Timed(o.createdAt, Event.Generate(o.key, o.code)) in run;
    }
  }

  /** The row is the last one of its key. */
  ghost predicate IsLast(rows: seq<Otp>, o: Otp) {
    exists i :: 0 <= i < |rows| && rows[i] == o && NoneAfter(rows, i, o.key)
  }

  ghost predicate NoneAfter(rows: seq<Otp>, i: int, key: Key) {
    forall j :: i < j < |rows| && 0 <= j ==> rows[j].key != key
  }

  /** The key's last code is still in the table, unverified, with at most this many attempts. */
  ghost predicate Pending(rows: seq<Otp>, key: Key, code: string, t: int, attempts: nat) {
    exists o :: IsLast(rows, o) && o.key == key && o.code == code && !o.verified
                && o.createdAt == t && o.expiresAt == t + 300000 && o.attempts <= attempts
  }

  /** How often the key was tried. */
  function Tries(run: seq<Timed<Event>>, k: Key): nat
    decreases |run|
  {
    if run == [] then 0
    else (if run[0].event.Verify? && run[0].event.key == k then 1 else 0) + Tries(run[1..], k)
  }

  lemma {:induction false} CleanedKeepsLast(rows: seq<Otp>, o: Otp, now: int)
    requires IsLast(rows, o) && o.expiresAt >= now - RETENTION_MS
    ensures IsLast(Cleaned(rows, now), o)
  {
    var i :| 0 <= i < |rows| && rows[i] == o && NoneAfter(rows, i, o.key);
    var n := |rows| - 1;
    var kept := Cleaned(rows[..n], now);
    if i == n {
      assert Cleaned(rows, now) == kept + [o];
      assert (kept + [o])[|kept|] == o && NoneAfter(kept + [o], |kept|, o.key);
    } else {
      assert rows[..n][i] == o && NoneAfter(rows[..n], i, o.key);
      CleanedKeepsLast(rows[..n], o, now);
      assert Cleaned(rows, now) == kept || Cleaned(rows, now) == kept + [rows[n]];
      LastPush(kept, o, rows[n]);
    }
  }

  lemma LastPush(rows: seq<Otp>, o: Otp, next: Otp)
    requires IsLast(rows, o) && next.key != o.key
    ensures IsLast(rows + [next], o)
  {
    var i :| 0 <= i < |rows| && rows[i] == o && NoneAfter(rows, i, o.key);
    assert (rows + [next])[i] == o && NoneAfter(rows + [next], i, o.key);
  }

  /** What a try does to a pending code. */
  lemma TryPending(rows: seq<Otp>, key: Key, code: string, t: int, attempts: nat, tried: string, now: int)
    requires Pending(rows, key, code, t, attempts) && attempts < 5 && now < t + 300000
    ensures var v := Verified(rows, key, tried, now);
            && (v.result == Accepted <==> tried == code)
            && (tried != code ==> Pending(v.rows, key, code, t, attempts + 1))
  {
    var o :| IsLast(rows, o) && o.key == key && o.code == code && !o.verified
             && o.createdAt == t && o.expiresAt == t + 300000 && o.attempts <= attempts;
    var i :| 0 <= i < |rows| && rows[i] == o && NoneAfter(rows, i, o.key);
    var found := FindUsable(rows, key, now);
    assert found == Found(i);
    var o' := o.(attempts := o.attempts + 1);
    var rows' := rows[i := o'];
    assert rows'[i] == o' && NoneAfter(rows', i, key);
    assert IsLast(rows', o');
  }

  /** A try of another key leaves it pending. */
  lemma OtherTryPending(rows: seq<Otp>, key: Key, code: string, t: int, attempts: nat,
                        other: Key, tried: string, now: int)
    requires Pending(rows, key, code, t, attempts) && other != key
    ensures Pending(Verified(rows, other, tried, now).rows, key, code, t, attempts)
  {
    var o :| IsLast(rows, o) && o.key == key && o.code == code && !o.verified
             && o.createdAt == t && o.expiresAt == t + 300000 && o.attempts <= attempts;
    var i :| 0 <= i < |rows| && rows[i] == o && NoneAfter(rows, i, o.key);
    var rows' := Verified(rows, other, tried, now).rows;
    assert rows'[i] == o && NoneAfter(rows', i, key);
    assert IsLast(rows', o);
  }

  /** So does anything else that happens, unless a new code is generated for the key. */
  lemma StepPending(k: Key, w: World, e: Timed<Event>, code: string, t: int, attempts: nat)
    requires Pending(w.rows, k, code, t, attempts) && e.at < t + 300000
    requires !(e.event.Generate? && e.event.key == k)
    requires e.event.Verify? && e.event.key == k ==> attempts < 5 && e.event.code != code
    ensures Pending(Step(k, w, e).rows, k, code, t,
                    attempts + if e.event.Verify? && e.event.key == k then 1 else 0)
  {
    match e.event
    case Verify(key, tried) =>
      if key == k { TryPending(w.rows, k, code, t, attempts, tried, e.at); }
      else { OtherTryPending(w.rows, k, code, t, attempts, key, tried, e.at); }
    case Generate(key, other) => OtherGeneratePending(w.rows, k, code, t, attempts, NewOtp(key, other, e.at));
    case Cleanup => CleanupPending(w.rows, k, code, t, attempts, e.at);
  }

  lemma OtherGeneratePending(rows: seq<Otp>, key: Key, code: string, t: int, attempts: nat, next: Otp)
    requires Pending(rows, key, code, t, attempts) && next.key != key
    ensures Pending(rows + [next], key, code, t, attempts)
  {
    var o :| IsLast(rows, o) && o.key == key && o.code == code && !o.verified
             && o.createdAt == t && o.expiresAt == t + 300000 && o.attempts <= attempts;
    LastPush(rows, o, next);
  }

  lemma CleanupPending(rows: seq<Otp>, key: Key, code: string, t: int, attempts: nat, now: int)
    requires Pending(rows, key, code, t, attempts) && now < t + 300000
    ensures Pending(Cleaned(rows, now), key, code, t, attempts)
  {
    var o :| IsLast(rows, o) && o.key == key && o.code == code && !o.verified
             && o.createdAt == t && o.expiresAt == t + 300000 && o.attempts <= attempts;
    CleanedKeepsLast(rows, o, now);
  }

  lemma {:induction false} RunPending(k: Key, w: World, run: seq<Timed<Event>>, code: string, t: int, attempts: nat)
    requires Pending(w.rows, k, code, t, attempts) && attempts + Tries(run, k) < 5
    requires forall e :: e in run ==>
      && e.at < t + 300000
      && !(e.event.Generate? && e.event.key == k)
      && (e.event.Verify? && e.event.key == k ==> e.event.code != code)
    ensures Pending(Run(k, w, run).rows, k, code, t, attempts + Tries(run, k))
    decreases |run|
  {
    if run != [] {
      var e := run[0];
      assert e in run;
      assert forall x :: x in run[1..] ==> x in run;
      StepPending(k, w, e, code, t, attempts);
      RunPending(k, Step(k, w, e), run[1..], code, t,
                 attempts + if e.event.Verify? && e.event.key == k then 1 else 0);
    }
  }

  /** A code that is issued is accepted when it is presented within five minutes, after at most
      four wrong tries, with no new code requested in between, whatever else happens; and a wrong
      one is not. */
  lemma IssuedIsAccepted(k: Key, w: World, code: string, t: int, run: seq<Timed<Event>>, tried: string, now: int)
    requires var w1 := Step(k, w, Timed(t, Event.Generate(k, code))); |w1.issued| == |w.issued| + 1
    requires Tries(run, k) < 5 && now < t + 300000
    requires forall e :: e in run ==>
      && e.at < t + 300000
      && !(e.event.Generate? && e.event.key == k)
      && (e.event.Verify? && e.event.key == k ==> e.event.code != code)
    ensures var end := Run(k, Step(k, w, Timed(t, Event.Generate(k, code))), run);
            Step(k, end, Timed(now, Event.Verify(k, tried))).accepted ==
              end.accepted + if tried == code then 1 else 0
  {
    var w1 := Step(k, w, Timed(t, Event.Generate(k, code)));
    var o := NewOtp(k, code, t);
    assert w1.rows == w.rows + [o];
    assert w1.rows[|w.rows|] == o && NoneAfter(w1.rows, |w.rows|, k);
    assert IsLast(w1.rows, o);
    RunPending(k, w1, run, code, t, 0);
    TryPending(Run(k, w1, run).rows, k, code, t, Tries(run, k), tried, now);
  }
}

/** The race to insert a wallet row: exactly when an operation can end otherwise than it would
    in the serial run. */
module WalletRaces {
  import opened Wallets
  import opened WalletProtocol

  /** Every operation, without exception, ended as it does when run alone at its place. */
  ghost predicate AllSerial(db: Db, history: seq<Event>) {
    forall k :: 0 <= k < |history| ==>
      Apply(history[k].op, history[k].at, SerialDb(db, history[..k])).outcome == history[k].outcome
  }

  predicate LosesRace(history: seq<Event>) {
    exists k :: 0 <= k < |history| && history[k].outcome == Rejected(DuplicateRow)
  }

  /** What can go wrong is losing the race, and nothing else. */
  lemma NotSerialExactly(s: Sys, schedule: seq<nat>)
    requires IsStart(s) && ValidRun(s, schedule)
    ensures var h := Run(s, schedule).history;
            AllSerial(s.db, h) <==> !LosesRace(h)
  {
    SerialEquivalence(s, schedule);
    var h := Run(s, schedule).history;
    if k :| 0 <= k < |h| && h[k].outcome == Rejected(DuplicateRow) {
      NeverDuplicate(h[k].op, h[k].at, SerialDb(s.db, h[..k]));
    }
  }

  lemma NeverDuplicate(op: Op, at: int, db: Db)
    ensures Apply(op, at, db).outcome != Rejected(DuplicateRow)
  {
  }

  // ---- No race between existing wallets

  ghost predicate WalletsExist(s: Sys) {
    forall i, u :: 0 <= i < |s.txns| && u in LockOrder(s.txns[i].op) ==> u in s.db.wallets
  }

  ghost predicate NoInsertions(s: Sys) {
    && WalletsExist(s)
    && (forall i :: 0 <= i < |s.txns| ==> !s.txns[i].phase.Inserting?)
    && (forall k :: 0 <= k < |s.history| ==> s.history[k].outcome != Rejected(DuplicateRow))
  }

  lemma StepInsertsNothing(s: Sys, i: nat)
    requires NoInsertions(s) && Enabled(s, i)
    ensures NoInsertions(Step(s, i))
  {
    StepShape(s, i);
    StepDoesNotInsert(s, i);
  }

  lemma StepDoesNotInsert(s: Sys, i: nat)
    requires NoInsertions(s) && Enabled(s, i)
    ensures var s' := Step(s, i);
            && !s'.txns[i].phase.Inserting?
            && (forall k :: 0 <= k < |s'.history| ==> s'.history[k].outcome != Rejected(DuplicateRow))
  {
    var tx := s.txns[i];
    if tx.phase.Locking? {
      assert LockOrder(tx.op)[tx.phase.next] in LockOrder(tx.op);
    }
    if tx.phase.Checking? && SaveRows(tx.op, tx.rows).Refused? {
      assert SaveRows(tx.op, tx.rows).error != DuplicateRow;
    }
  }

  lemma {:induction false} RunInsertsNothing(s: Sys, schedule: seq<nat>)
    requires NoInsertions(s) && ValidRun(s, schedule)
    ensures NoInsertions(Run(s, schedule))
    decreases |schedule|
  {
    if schedule != [] {
      StepInsertsNothing(s, schedule[0]);
      RunInsertsNothing(Step(s, schedule[0]), schedule[1..]);
    }
  }

  /** When every user involved already has a wallet, every operation, without exception, ends
      as in the serial run. */
  lemma SerialEquivalenceWithWallets(s: Sys, schedule: seq<nat>)
    requires IsStart(s) && WalletsExist(s) && ValidRun(s, schedule)
    ensures var end := Run(s, schedule);
            end.db == SerialDb(s.db, end.history) && AllSerial(s.db, end.history)
  {
    SerialEquivalence(s, schedule);
    RunInsertsNothing(s, schedule);
    NotSerialExactly(s, schedule);
  }

  // ---- How a race is lost

  /** The operation goes through on a wallet that has just been inserted. */
  predicate CommitsOnNew(op: Op) {
    match op
    case TopUp(_, _) => true
    case Credit(_, _, _) => true
    case Deduct(_, a) => a <= 0
    case Withdraw(_, a) => a <= 0
    case _ => false
  }

  /** The operation inserts the wallet of its one user when it finds none. */
  predicate Inserts(op: Op, u: UserId) {
    !op.Transfer? && !op.SetFrozen? && op.user == u
  }

  /** Two operations on one user without a wallet, one of which will insert it for good. */
  predicate Race(db: Db, ops: seq<Op>, i: nat, j: nat) {
    && i < |ops| && j < |ops| && i != j
    && CommitsOnNew(ops[i]) && Inserts(ops[i], ops[i].user) && Inserts(ops[j], ops[i].user)
    && ops[i].user !in db.wallets
  }

  function OpsOf(txns: seq<Txn>): (ops: seq<Op>)
    ensures |ops| == |txns| && forall i :: 0 <= i < |ops| ==> ops[i] == txns[i].op
  {
    seq(|txns|, i requires 0 <= i < |txns| => txns[i].op)
  }

  lemma {:induction false} RunAppend(s: Sys, a: seq<nat>, b: seq<nat>)
    requires ValidRun(s, a) && ValidRun(Run(s, a), b)
    ensures ValidRun(s, a + b) && Run(s, a + b) == Run(Run(s, a), b)
    decreases |a|
  {
    if a == [] {
      assert a + b == b;
    } else {
      RunAppend(Step(s, a[0]), a[1..], b);
      assert (a + b)[1..] == a[1..] + b;
    }
  }

  lemma OneStep(s: Sys, i: nat)
    requires Enabled(s, i)
    ensures ValidRun(s, [i]) && Run(s, [i]) == Step(s, i)
  {
    assert [i][1..] == [];
  }

  lemma TwoSteps(s: Sys, i: nat)
    requires Enabled(s, i) && Enabled(Step(s, i), i)
    ensures ValidRun(s, [i, i]) && Run(s, [i, i]) == Step(Step(s, i), i)
  {
    OneStep(s, i);
    OneStep(Step(s, i), i);
    RunAppend(s, [i], [i]);
    assert [i] + [i] == [i, i];
  }

  /** An operation looks for its row, finds none, and is about to insert it. */
  lemma LooksFirst(s: Sys, i: nat, u: UserId)
    requires i < |s.txns| && s.txns[i].phase == Starting
    requires Inserts(s.txns[i].op, u) && u !in s.db.wallets
    ensures ValidRun(s, [i, i])
    ensures Run(s, [i, i]) == s.(txns := s.txns[i := s.txns[i].(phase := Inserting(0))])
  {
    var locking := s.(txns := s.txns[i := s.txns[i].(phase := Locking(0))]);
    assert Step(s, i) == locking;
    TwoSteps(s, i);
  }

  lemma InsertsRow(s: Sys, i: nat, u: UserId)
    requires i < |s.txns| && s.txns[i].phase == Inserting(0) && s.txns[i].rows == map[]
    requires Inserts(s.txns[i].op, u) && CommitsOnNew(s.txns[i].op)
    requires u !in s.db.wallets && u !in s.locks
    ensures ValidRun(s, [i, i])
    ensures var end := Run(s, [i, i]);
            && end.db == s.db && end.history == s.history
            && |end.txns| == |s.txns| && end.txns == s.txns[i := end.txns[i]]
            && end.txns[i].phase == SavingLedger && end.txns[i].op == s.txns[i].op && u in end.txns[i].rows
  {
    var op := s.txns[i].op;
    assert LockOrder(op) == [u];
    var s1 := Step(s, i);
    assert s1.txns[i].rows == map[u := NEW_WALLET] && s1.txns[i].phase == Checking;
    assert SaveRows(op, map[u := NEW_WALLET]).Saved?;
    TwoSteps(s, i);
  }

  lemma Commits(s: Sys, i: nat, u: UserId)
    requires i < |s.txns| && s.txns[i].phase == SavingLedger && Inserts(s.txns[i].op, u)
    requires u in s.txns[i].rows
    ensures ValidRun(s, [i, i])
    ensures var end := Run(s, [i, i]);
            && u in end.db.wallets && |end.txns| == |s.txns| && end.txns == s.txns[i := end.txns[i]]
  {
    TwoSteps(s, i);
  }

  lemma Loses(s: Sys, j: nat, u: UserId)
    requires j < |s.txns| && s.txns[j].phase == Inserting(0) && Inserts(s.txns[j].op, u)
    requires u in s.db.wallets
    ensures ValidRun(s, [j]) && LosesRace(Run(s, [j]).history)
  {
    OneStep(s, j);
    var h := Step(s, j).history;
    assert h[|h| - 1].outcome == Rejected(DuplicateRow);
  }

  function LosingSchedule(i: nat, j: nat): seq<nat> {
    [i, i] + ([j, j] + ([i, i] + ([i, i] + [j])))
  }

  /** Both look for the row before either inserts it; i commits, and j is refused. */
  lemma RaceIsLost(s: Sys, i: nat, j: nat)
    requires IsStart(s) && Race(s.db, OpsOf(s.txns), i, j)
    ensures ValidRun(s, LosingSchedule(i, j)) && LosesRace(Run(s, LosingSchedule(i, j)).history)
  {
    hide ValidRun, Run, Step, LosesRace;
    var u := s.txns[i].op.user;
    LooksFirst(s, i, u);
    var s1 := Run(s, [i, i]);
    LooksFirst(s1, j, u);
    var s2 := Run(s1, [j, j]);
    InsertsRow(s2, i, u);
    var s3 := Run(s2, [i, i]);
    Commits(s3, i, u);
    var s4 := Run(s3, [i, i]);
    Loses(s4, j, u);
    RunAppend(s3, [i, i], [j]);
    RunAppend(s2, [i, i], [i, i] + [j]);
    RunAppend(s1, [j, j], [i, i] + ([i, i] + [j]));
    RunAppend(s, [i, i], [j, j] + ([i, i] + ([i, i] + [j])));
  }

  // ---- Nothing else loses a race

  /** The operation has inserted u's wallet and committed. */
  predicate Inserted(tx: Txn, u: UserId) {
    tx.phase.Finished? && Inserts(tx.op, u) && CommitsOnNew(tx.op)
  }

  /** No transfer inserts a wallet. */
  predicate TransfersExist(db: Db, ops: seq<Op>) {
    forall i :: 0 <= i < |ops| && ops[i].Transfer? && ops[i].from != ops[i].to ==>
      ops[i].from in db.wallets && ops[i].to in db.wallets
  }

  predicate InsertsOnlyNew(db: Db, tx: Txn) {
    tx.phase.Inserting? && tx.phase.next < |LockOrder(tx.op)| ==>
      LockOrder(tx.op)[tx.phase.next] !in db.wallets
  }

  ghost predicate RaceInv(db0: Db, ops: seq<Op>, s: Sys) {
    && OpsOf(s.txns) == ops
    && db0.wallets.Keys <= s.db.wallets.Keys
    && (forall i :: 0 <= i < |s.txns| ==> InsertsOnlyNew(db0, s.txns[i]))
    && (forall u :: u in s.db.wallets && u !in db0.wallets ==> SomebodyInserted(s, u))
    && (LosesRace(s.history) ==> SomebodyRaces(db0, ops))
  }

  predicate SomebodyInserted(s: Sys, u: UserId) {
    exists i :: 0 <= i < |s.txns| && Inserted(s.txns[i], u)
  }

  ghost predicate SomebodyRaces(db: Db, ops: seq<Op>) {
    exists i: nat, j: nat :: Race(db, ops, i, j)
  }

  lemma CommitInserts(db0: Db, ops: seq<Op>, s: Sys, i: nat, u: UserId)
    requires LockingInv(s) && RaceInv(db0, ops, s) && TransfersExist(db0, ops) && i < |s.txns|
    requires s.txns[i].phase.Committing? && u in s.txns[i].rows && u !in s.db.wallets
    ensures Inserts(s.txns[i].op, u) && CommitsOnNew(s.txns[i].op)
  {
    var tx := s.txns[i];
    assert TxnInv(s.db, s.locks, i, tx);
    assert u in LockOrder(tx.op);
    assert ops[i] == tx.op;
  }

  lemma LoserRaces(db0: Db, ops: seq<Op>, s: Sys, j: nat)
    requires LockingInv(s) && RaceInv(db0, ops, s) && TransfersExist(db0, ops) && j < |s.txns|
    requires s.txns[j].phase.Inserting? && s.txns[j].phase.next < |LockOrder(s.txns[j].op)|
    requires LockOrder(s.txns[j].op)[s.txns[j].phase.next] in s.db.wallets
    ensures SomebodyRaces(db0, ops)
  {
    var tx := s.txns[j];
    var u := LockOrder(tx.op)[tx.phase.next];
    assert TxnInv(s.db, s.locks, j, tx);
    assert u in LockOrder(tx.op) && InsertsOnlyNew(db0, tx) && ops[j] == tx.op;
    assert SomebodyInserted(s, u);
    var i :| 0 <= i < |s.txns| && Inserted(s.txns[i], u);
    assert ops[i] == s.txns[i].op;
    assert Race(db0, ops, i, j);
  }

  /** A wallet appears only by a commit. */
  lemma NewWalletCommitted(s: Sys, i: nat, u: UserId)
    requires Enabled(s, i) && u in Step(s, i).db.wallets && u !in s.db.wallets
    ensures s.txns[i].phase.Committing? && u in s.txns[i].rows && Step(s, i).txns[i].phase.Finished?
  {
    hide SaveRows, LedgerRows, LockOrder;
  }

  lemma StepLosesRace(s: Sys, i: nat)
    requires Enabled(s, i) && LosesRace(Step(s, i).history) && !LosesRace(s.history)
    ensures var tx := s.txns[i];
            && tx.phase.Inserting? && tx.phase.next < |LockOrder(tx.op)|
            && LockOrder(tx.op)[tx.phase.next] in s.db.wallets
  {
    hide LedgerRows, LockOrder;
    var h, h' := s.history, Step(s, i).history;
    assert forall k :: 0 <= k < |h| ==> h'[k] == h[k];
  }

  lemma StepInsertsOnlyNew(db0: Db, s: Sys, i: nat)
    requires i < |s.txns| && Enabled(s, i) && InsertsOnlyNew(db0, s.txns[i]) && db0.wallets.Keys <= s.db.wallets.Keys
    ensures InsertsOnlyNew(db0, Step(s, i).txns[i])
  {
    hide SaveRows, LedgerRows, LockOrder;
  }

  lemma StepKeepsRaceInv(db0: Db, ops: seq<Op>, s: Sys, i: nat)
    requires LockingInv(s) && RaceInv(db0, ops, s) && TransfersExist(db0, ops) && Enabled(s, i)
    ensures RaceInv(db0, ops, Step(s, i))
  {
    hide Step, LosesRace, LockingInv, TransfersExist, InsertsOnlyNew, LockOrder;
    var s' := Step(s, i);
    StepShape(s, i);
    StepInsertsOnlyNew(db0, s, i);
    assert OpsOf(s'.txns) == ops;
    forall u | u in s'.db.wallets && u !in db0.wallets ensures SomebodyInserted(s', u) {
      if u in s.db.wallets {
        StillInserted(s, i, u);
      } else {
        NewWalletCommitted(s, i, u);
        CommitInserts(db0, ops, s, i, u);
        assert Inserted(s'.txns[i], u);
      }
    }
    if LosesRace(s'.history) && !LosesRace(s.history) {
      StepLosesRace(s, i);
      LoserRaces(db0, ops, s, i);
    }
  }

  lemma StillInserted(s: Sys, i: nat, u: UserId)
    requires Enabled(s, i) && SomebodyInserted(s, u)
    ensures SomebodyInserted(Step(s, i), u)
  {
    hide Step, LockOrder;
    StepShape(s, i);
    var j :| 0 <= j < |s.txns| && Inserted(s.txns[j], u);
    assert Inserted(Step(s, i).txns[j], u);
  }

  lemma {:induction false} RunKeepsRaceInv(db0: Db, ops: seq<Op>, s: Sys, schedule: seq<nat>)
    requires Inv(db0, s) && RaceInv(db0, ops, s) && TransfersExist(db0, ops) && ValidRun(s, schedule)
    ensures RaceInv(db0, ops, Run(s, schedule))
    decreases |schedule|
  {
    if schedule != [] {
      StepKeepsInv(db0, s, schedule[0]);
      StepKeepsRaceInv(db0, ops, s, schedule[0]);
      RunKeepsRaceInv(db0, ops, Step(s, schedule[0]), schedule[1..]);
    }
  }

  /** Some schedule of these operations ends one of them otherwise than the serial run does. */
  ghost predicate CanLoseRace(s: Sys) {
    exists schedule :: ValidRun(s, schedule) && !AllSerial(s.db, Run(s, schedule).history)
  }

  /** Read off the operations: they can end otherwise than in the serial run exactly when two of
      them insert one user's wallet and one of the two commits on a new wallet. Transfers may be
      among them, between wallets that exist. */
  lemma RaceExactly(s: Sys)
    requires IsStart(s) && TransfersExist(s.db, OpsOf(s.txns))
    ensures CanLoseRace(s) <==> exists i: nat, j: nat :: Race(s.db, OpsOf(s.txns), i, j)
  {
    var ops := OpsOf(s.txns);
    if i: nat, j: nat :| Race(s.db, ops, i, j) {
      RaceIsLost(s, i, j);
      NotSerialExactly(s, LosingSchedule(i, j));
    }
    if schedule :| ValidRun(s, schedule) && !AllSerial(s.db, Run(s, schedule).history) {
      StartInv(s);
      RunKeepsRaceInv(s.db, ops, s, schedule);
      NotSerialExactly(s, schedule);
      assert SomebodyRaces(s.db, ops);
    }
  }

  // ---- Which databases are safe

  ghost predicate LocksOnly(s: Sys, users: set<UserId>) {
    forall i, u :: 0 <= i < |s.txns| && u in LockOrder(s.txns[i].op) ==> u in users
  }

  /** Whatever these users' operations, and however they interleave, all end as in the serial
      run. */
  ghost predicate AlwaysSerial(db: Db, users: set<UserId>) {
    forall s, schedule ::
      IsStart(s) && s.db == db && LocksOnly(s, users) && ValidRun(s, schedule) ==>
        AllSerial(db, Run(s, schedule).history)
  }

  /** Two first top-ups of one user. */
  function TwoTopUps(db: Db, u: UserId): Sys {
    var top := Txn(TopUp(u, 10000), 0, Starting, map[]);
    Sys(db, map[], [top, top], [])
  }

  /** The second of two first top-ups can be refused, though run one after the other both go
      through. */
  lemma FirstTopUpCanBeLost(db: Db, u: UserId)
    requires u !in db.wallets
    ensures CanLoseRace(TwoTopUps(db, u))
    ensures var once := Apply(TopUp(u, 10000), 0, db);
            once.outcome == Committed && Apply(TopUp(u, 10000), 0, once.db).outcome == Committed
  {
    var s := TwoTopUps(db, u);
    assert Race(db, OpsOf(s.txns), 0, 1);
    RaceExactly(s);
    assert LockOrder(TopUp(u, 10000)) == [u];
  }

  /** Serial equivalence holds for all outcomes of all runs on these users' wallets if and only
      if every one of them has a wallet beforehand. */
  lemma AlwaysSerialExactly(db: Db, users: set<UserId>)
    ensures AlwaysSerial(db, users) <==> users <= db.wallets.Keys
  {
    hide AllSerial, ValidRun, Run, Race;
    if users <= db.wallets.Keys {
      forall s, schedule | IsStart(s) && s.db == db && LocksOnly(s, users) && ValidRun(s, schedule)
        ensures AllSerial(db, Run(s, schedule).history)
      {
        SerialEquivalenceWithWallets(s, schedule);
      }
    }
    if u :| u in users && u !in db.wallets {
      FirstTopUpCanBeLost(db, u);
      var s := TwoTopUps(db, u);
      var schedule :| ValidRun(s, schedule) && !AllSerial(s.db, Run(s, schedule).history);
      assert LocksOnly(s, users);
    }
  }
}

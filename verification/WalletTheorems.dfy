/** What holds of every interleaved run of wallet operations. */
module WalletTheorems {
  import opened Ordering
  import opened Wallets
  import opened Wrappers
  import opened Ledger
  import opened Conservation
  import opened WalletProtocol

  // ---- Deadlock freedom

  predicate Unfinished(s: Sys, i: nat) {
    i < |s.txns| && !s.txns[i].phase.Finished?
  }

  /** The operation waits for a lock that somebody has. */
  predicate Waits(s: Sys, i: nat) {
    && i < |s.txns|
    && var tx := s.txns[i];
       (tx.phase.Locking? || tx.phase.Inserting?) &&
       tx.phase.next < |LockOrder(tx.op)| &&
       LockOrder(tx.op)[tx.phase.next] in s.locks
  }

  function Wanted(s: Sys, i: nat): UserId
    requires Waits(s, i)
  {
    LockOrder(s.txns[i].op)[s.txns[i].phase.next]
  }

  ghost function LockedAfter(s: Sys, u: UserId): set<UserId> {
    set v | v in s.locks && Before(u, v)
  }

  lemma BlockedWaits(s: Sys, i: nat)
    requires LockingInv(s) && Unfinished(s, i) && !Enabled(s, i)
    ensures Waits(s, i)
  {
  }

  /** Whoever holds a lock and waits for another waits for one with a greater user id. */
  lemma WaitsUpwards(s: Sys, i: nat, u: UserId)
    requires LockingInv(s) && Waits(s, i) && Owns(s.locks, i, u)
    ensures Before(u, Wanted(s, i))
  {
    var tx := s.txns[i];
    assert TxnInv(s.db, s.locks, i, tx);
    assert u in tx.rows;
    assert u in LockOrder(tx.op)[..tx.phase.next];
  }

  /** Following the owners of wanted locks leads to an operation that can move. */
  lemma {:induction false} FindEnabled(s: Sys, i: nat) returns (j: nat)
    requires LockingInv(s) && Unfinished(s, i)
    ensures Enabled(s, j)
    decreases Waits(s, i), if Waits(s, i) then |LockedAfter(s, Wanted(s, i))| else 0
  {
    if Enabled(s, i) {
      j := i;
    } else {
      BlockedWaits(s, i);
      var u := Wanted(s, i);
      var owner := s.locks[u];
      assert Owns(s.locks, owner, u);
      assert TxnInv(s.db, s.locks, owner, s.txns[owner]);
      if Enabled(s, owner) {
        j := owner;
      } else {
        BlockedWaits(s, owner);
        WaitsUpwards(s, owner, u);
        var v := Wanted(s, owner);
        LockedAfterShrinks(s, u, v);
        j := FindEnabled(s, owner);
      }
    }
  }

  lemma LockedAfterShrinks(s: Sys, u: UserId, v: UserId)
    requires v in s.locks && Before(u, v)
    ensures |LockedAfter(s, v)| < |LockedAfter(s, u)|
  {
    forall w | w in LockedAfter(s, v) ensures w in LockedAfter(s, u) { BeforeTransitive(u, v, w); }
    BeforeIrreflexive(v);
    assert v in LockedAfter(s, u) - LockedAfter(s, v);
    SmallerSubset(LockedAfter(s, v), LockedAfter(s, u));
  }

  lemma SmallerSubset(a: set<UserId>, b: set<UserId>)
    requires a < b
    ensures |a| < |b|
  {
    assert |b - a| + |a| == |b| by { assert (b - a) + a == b; }
    assert b - a != {};
  }

  /** No deadlock: while some operation is unfinished, some operation can move. */
  lemma DeadlockFreedom(s: Sys, schedule: seq<nat>)
    requires IsStart(s) && ValidRun(s, schedule)
    ensures var end := Run(s, schedule);
            (exists i :: Unfinished(end, i)) <==> (exists j :: Enabled(end, j))
  {
    hide Run, ValidRun, SerialDb, SerialOutcomes, HistoryInv, LockingInv, IsStart;
    StartInv(s);
    RunKeepsInv(s.db, s, schedule);
    var end := Run(s, schedule);
    if i :| Unfinished(end, i) {
      var j := FindEnabled(end, i);
    }
    if j :| Enabled(end, j) {
      assert Unfinished(end, j);
    }
  }

  // ---- Termination

  /** The most steps an operation can still take; no operation locks more than two rows. */
  function Remaining(tx: Txn): nat {
    match tx.phase
    case Starting => 8
    case Locking(k) => if k == 0 then 7 else 5
    case Inserting(k) => if k == 0 then 6 else 4
    case Checking => 3
    case SavingLedger => 2
    case Committing(_) => 1
    case Finished(_) => 0
  }

  function Work(txns: seq<Txn>): nat {
    if txns == [] then 0 else Remaining(txns[0]) + Work(txns[1..])
  }

  lemma {:induction false} WorkUpdate(txns: seq<Txn>, i: nat, tx: Txn)
    requires i < |txns|
    ensures Work(txns[i := tx]) == Work(txns) - Remaining(txns[i]) + Remaining(tx)
  {
    var txns' := txns[i := tx];
    if i == 0 {
      assert txns'[1..] == txns[1..];
    } else {
      WorkUpdate(txns[1..], i - 1, tx);
      assert txns'[1..] == txns[1..][i - 1 := tx];
    }
  }

  lemma StepLeavesLess(s: Sys, i: nat)
    requires Enabled(s, i)
    ensures Remaining(Step(s, i).txns[i]) < Remaining(s.txns[i])
  {
  }

  lemma StepWorks(s: Sys, i: nat)
    requires Enabled(s, i)
    ensures Work(Step(s, i).txns) < Work(s.txns)
  {
    StepShape(s, i);
    StepLeavesLess(s, i);
    WorkUpdate(s.txns, i, Step(s, i).txns[i]);
  }

  lemma {:induction false} RunWorks(s: Sys, schedule: seq<nat>)
    requires ValidRun(s, schedule)
    ensures |schedule| + Work(Run(s, schedule).txns) <= Work(s.txns)
    decreases |schedule|
  {
    if schedule != [] {
      StepWorks(s, schedule[0]);
      RunWorks(Step(s, schedule[0]), schedule[1..]);
    }
  }

  lemma {:induction false} StartingWork(txns: seq<Txn>)
    ensures Work(txns) <= 8 * |txns|
  {
    if txns != [] { StartingWork(txns[1..]); }
  }

  /** Every run is finite, and one that cannot be continued has finished every operation. */
  lemma EveryRunFinishes(s: Sys, schedule: seq<nat>)
    requires IsStart(s) && ValidRun(s, schedule)
    ensures |schedule| <= 8 * |s.txns|
    ensures var end := Run(s, schedule);
            (forall j :: !Enabled(end, j)) ==>
              forall i :: 0 <= i < |end.txns| ==> end.txns[i].phase.Finished?
  {
    RunWorks(s, schedule);
    StartingWork(s.txns);
    DeadlockFreedom(s, schedule);
    var end := Run(s, schedule);
    if forall j :: !Enabled(end, j) {
      forall i | 0 <= i < |end.txns| ensures end.txns[i].phase.Finished? {
        assert !Unfinished(end, i);
      }
    }
  }

  // ---- What every committed state satisfies

  lemma {:induction false} RunKeepsOps(s: Sys, schedule: seq<nat>)
    requires ValidRun(s, schedule)
    ensures var end := Run(s, schedule);
            |end.txns| == |s.txns| &&
            forall i :: 0 <= i < |s.txns| ==> end.txns[i].op == s.txns[i].op
    decreases |schedule|
  {
    hide Step;
    if schedule != [] {
      StepShape(s, schedule[0]);
      RunKeepsOps(Step(s, schedule[0]), schedule[1..]);
    }
  }

  lemma {:induction false} SerialReconciles(db: Db, history: seq<Event>)
    requires Reconciles(db)
    ensures Reconciles(SerialDb(db, history))
  {
    if history != [] {
      var n := |history| - 1;
      SerialReconciles(db, history[..n]);
      ApplyReconciles(history[n].op, history[n].at, SerialDb(db, history[..n]));
    }
  }

  /** In every committed state of every run, the ledger accounts for every wallet: balances,
      pending amounts, running balances, and both readings of `getSummary`. */
  lemma LedgerReconciliation(s: Sys, schedule: seq<nat>, u: UserId, summary: Summary)
    requires IsStart(s) && Reconciles(s.db) && ValidRun(s, schedule)
    ensures var db := Run(s, schedule).db;
            && Reconciles(db)
            && (IsSummary(summary, Select(db.ledger, u, None, None)) ==>
                  summary.totalIn - summary.totalOut == RowOf(db, u).balance ==
                    TotalByType(summary, ALL_TYPES))
  {
    SerialEquivalence(s, schedule);
    var end := Run(s, schedule);
    SerialReconciles(s.db, end.history);
    if IsSummary(summary, Select(end.db.ledger, u, None, None)) {
      SummaryAgreesWithWallet(end.db, u, summary);
    }
  }

  lemma EmptyDatabaseReconciles()
    ensures Reconciles(Db(map[], []))
  {
  }

  function NetInflow(history: seq<Event>): int {
    if history == [] then 0
    else
      var e := history[|history| - 1];
      NetInflow(history[..|history| - 1]) + if e.outcome == Committed then Inflow(e.op) else 0
  }

  lemma {:induction false} SerialConserves(db: Db, history: seq<Event>)
    requires SerialOutcomes(db, history)
    ensures Total(SerialDb(db, history).wallets) == Total(db.wallets) + NetInflow(history)
  {
    if history != [] {
      var n := |history| - 1;
      var e, rest := history[n], history[..n];
      forall k | 0 <= k < |rest| && rest[k].outcome != Rejected(DuplicateRow)
        ensures Apply(rest[k].op, rest[k].at, SerialDb(db, rest[..k])).outcome == rest[k].outcome
      {
        assert rest[..k] == history[..k] && rest[k] == history[k];
      }
      SerialConserves(db, rest);
      ApplyConserves(e.op, e.at, SerialDb(db, rest));
    }
  }

  /** Conservation over every run: what the wallets hold changes by the committed top-ups and
      credits less the committed payments, and by nothing else. */
  lemma MoneyConserved(s: Sys, schedule: seq<nat>)
    requires IsStart(s) && ValidRun(s, schedule)
    ensures var end := Run(s, schedule);
            Total(end.db.wallets) == Total(s.db.wallets) + NetInflow(end.history)
  {
    SerialEquivalence(s, schedule);
    SerialConserves(s.db, Run(s, schedule).history);
  }

  lemma {:induction false} SerialNoDebt(db: Db, history: seq<Event>)
    requires NoDebt(db) && forall k :: 0 <= k < |history| ==> Amounts(history[k].op)
    ensures NoDebt(SerialDb(db, history))
  {
    if history != [] {
      var n := |history| - 1;
      SerialNoDebt(db, history[..n]);
      ApplyKeepsNoDebt(history[n].op, history[n].at, SerialDb(db, history[..n]));
    }
  }

  /** No interleaving ever commits a negative balance or pending amount. */
  lemma NeverOverdrawn(s: Sys, schedule: seq<nat>)
    requires IsStart(s) && NoDebt(s.db) && ValidRun(s, schedule)
    requires forall i :: 0 <= i < |s.txns| ==> Amounts(s.txns[i].op)
    ensures NoDebt(Run(s, schedule).db)
  {
    SerialEquivalence(s, schedule);
    RunKeepsOps(s, schedule);
    var end := Run(s, schedule);
    forall k | 0 <= k < |end.history| ensures Amounts(end.history[k].op) {
      assert IsEventOf(end.txns, end.history[k]);
    }
    SerialNoDebt(s.db, end.history);
  }
}

/** Wallet operations running concurrently, one statement at a time.

    Each operation looks its rows up in lock order, waiting for the row lock; a row that is
    not there is inserted, which takes its lock too, waits for a concurrent insert of the
    same row, and fails if that insert commits first. Rows and ledger entries stay private
    to the transaction until it commits, and the locks are held until then. */
module WalletProtocol {
  import opened Ordering
  import opened Wallets

  datatype Phase =
    | Starting
    | Locking(next: nat)
    | Inserting(next: nat)
    | Checking
    | SavingLedger
    | Committing(entries: seq<Entry>)
    | Finished(outcome: Outcome)

  /** A running operation and the wallet entities it has in memory. */
  datatype Txn = Txn(op: Op, at: int, phase: Phase, rows: map<UserId, Wallet>)

  datatype Event = Event(id: nat, op: Op, at: int, outcome: Outcome)

  /** `db` is what has been committed; `history` lists the operations in the order in which
      they finished. */
  datatype Sys = Sys(db: Db, locks: map<UserId, nat>, txns: seq<Txn>, history: seq<Event>)

  ghost predicate IsStart(s: Sys) {
    && s.locks == map[]
    && s.history == []
    && forall i :: 0 <= i < |s.txns| ==> s.txns[i].phase == Starting && s.txns[i].rows == map[]
  }

  predicate HasRows(tx: Txn) {
    forall u :: u in LockOrder(tx.op) ==> u in tx.rows
  }

  /** Whether operation i can take its next step now. */
  predicate Enabled(s: Sys, i: nat) {
    && i < |s.txns|
    && var tx := s.txns[i];
       match tx.phase
       case Starting => true
       case Locking(k) =>
         k < |LockOrder(tx.op)| &&
         var u := LockOrder(tx.op)[k];
         u in s.db.wallets ==> u !in s.locks
       case Inserting(k) =>
         k < |LockOrder(tx.op)| &&
         var u := LockOrder(tx.op)[k];
         u !in s.db.wallets ==> u !in s.locks
       case Checking => HasRows(tx)
       case SavingLedger => HasRows(tx)
       case Committing(_) => true
       case Finished(_) => false
  }

  function Advance(s: Sys, i: nat, tx: Txn): Sys
    requires i < |s.txns|
  {
    s.(txns := s.txns[i := tx])
  }

  function Acquire(s: Sys, i: nat, k: nat, row: Wallet): Sys
    requires i < |s.txns| && k < |LockOrder(s.txns[i].op)|
  {
    var tx := s.txns[i];
    var u := LockOrder(tx.op)[k];
    var phase := if k + 1 < |LockOrder(tx.op)| then Locking(k + 1) else Checking;
    Advance(s, i, tx.(rows := tx.rows[u := row], phase := phase)).(locks := s.locks[u := i])
  }

  /** Ends the transaction: its private rows go and its locks are released. */
  function Finish(s: Sys, i: nat, outcome: Outcome): Sys
    requires i < |s.txns|
  {
    var tx := s.txns[i];
    Sys(s.db,
        map u | u in s.locks && s.locks[u] != i :: s.locks[u],
        s.txns[i := tx.(phase := Finished(outcome), rows := map[])],
        s.history + [Event(i, tx.op, tx.at, outcome)])
  }

  function Step(s: Sys, i: nat): Sys
    requires Enabled(s, i)
  {
    var tx := s.txns[i];
    match tx.phase
    case Starting =>
      if IsSelfTransfer(tx.op) then Finish(s, i, Rejected(SelfTransfer))
      else Advance(s, i, tx.(phase := Locking(0)))
    case Locking(k) =>
      var u := LockOrder(tx.op)[k];
      if u in s.db.wallets then Acquire(s, i, k, s.db.wallets[u])
      else if tx.op.SetFrozen? then Finish(s, i, Committed)
      else Advance(s, i, tx.(phase := Inserting(k)))
    case Inserting(k) =>
      var u := LockOrder(tx.op)[k];
      if u in s.db.wallets then Finish(s, i, Rejected(DuplicateRow))
      else Acquire(s, i, k, NEW_WALLET)
    case Checking =>
      (match SaveRows(tx.op, tx.rows)
       case Refused(e) => Finish(s, i, Rejected(e))
       case Saved(rows) => Advance(s, i, tx.(phase := SavingLedger, rows := rows)))
    case SavingLedger =>
      Advance(s, i, tx.(phase := Committing(LedgerRows(tx.op, tx.at, tx.rows))))
    case Committing(entries) =>
      Finish(s.(db := Db(s.db.wallets + tx.rows, s.db.ledger + entries)), i, Committed)
  }

  /** A step moves one operation and takes no wallet away. */
  lemma StepShape(s: Sys, i: nat)
    requires Enabled(s, i)
    ensures var s' := Step(s, i);
            && s'.txns == s.txns[i := s'.txns[i]]
            && s'.txns[i].op == s.txns[i].op && s'.txns[i].at == s.txns[i].at
            && (forall u :: u in s.db.wallets ==> u in s'.db.wallets)
  {
  }

  /** A schedule names the operation that moves at each step. */
  predicate ValidRun(s: Sys, schedule: seq<nat>)
    decreases |schedule|
  {
    schedule == [] || (Enabled(s, schedule[0]) && ValidRun(Step(s, schedule[0]), schedule[1..]))
  }

  function Run(s: Sys, schedule: seq<nat>): Sys
    requires ValidRun(s, schedule)
    decreases |schedule|
  {
    if schedule == [] then s else Run(Step(s, schedule[0]), schedule[1..])
  }

  // ---- The serial execution the protocol is compared with

  /** The committed operations, run one at a time in the order they committed. */
  function SerialDb(db: Db, history: seq<Event>): Db {
    if history == [] then db
    else
      var before := SerialDb(db, history[..|history| - 1]);
      var e := history[|history| - 1];
      if e.outcome == Committed then Apply(e.op, e.at, before).db else before
  }

  /** Every operation ended as it does when run alone at its place in the order. The one
      outcome with no serial counterpart is losing the race to insert a wallet. */
  ghost predicate SerialOutcomes(db: Db, history: seq<Event>) {
    forall k :: 0 <= k < |history| && history[k].outcome != Rejected(DuplicateRow) ==>
      Apply(history[k].op, history[k].at, SerialDb(db, history[..k])).outcome == history[k].outcome
  }

  ghost predicate HistoryInv(s: Sys) {
    && (forall k :: 0 <= k < |s.history| ==> IsEventOf(s.txns, s.history[k]))
    && (forall j, k :: 0 <= j < k < |s.history| ==> s.history[j].id != s.history[k].id)
    && (forall i :: 0 <= i < |s.txns| && s.txns[i].phase.Finished? ==>
          exists k :: 0 <= k < |s.history| && s.history[k].id == i)
  }

  predicate IsEventOf(txns: seq<Txn>, e: Event) {
    e.id < |txns| && txns[e.id].op == e.op && txns[e.id].at == e.at &&
    txns[e.id].phase == Finished(e.outcome)
  }

  // ---- The locking invariant

  predicate Owns(locks: map<UserId, nat>, i: nat, u: UserId) {
    u in locks && locks[u] == i
  }

  ghost predicate Held(locks: map<UserId, nat>, i: nat, tx: Txn) {
    forall u :: u in tx.rows <==> Owns(locks, i, u)
  }

  /** Nobody has committed over the rows since they were read. */
  ghost predicate Fresh(db: Db, tx: Txn) {
    forall u :: u in tx.rows ==> tx.rows[u] == RowOf(db, u)
  }

  ghost predicate HoldsFirst(tx: Txn, k: nat) {
    k <= |LockOrder(tx.op)| &&
    forall u :: u in tx.rows <==> u in LockOrder(tx.op)[..k]
  }

  ghost predicate FreezesRow(db: Db, op: Op) {
    op.SetFrozen? ==> op.user in db.wallets
  }

  ghost predicate TxnInv(db: Db, locks: map<UserId, nat>, i: nat, tx: Txn) {
    && Held(locks, i, tx)
    && (!tx.phase.Starting? && !tx.phase.Finished? ==> !IsSelfTransfer(tx.op))
    && match tx.phase
       case Starting => tx.rows == map[]
       case Finished(_) => tx.rows == map[]
       case Locking(k) => k < |LockOrder(tx.op)| && HoldsFirst(tx, k) && Fresh(db, tx)
       case Inserting(k) =>
         k < |LockOrder(tx.op)| && HoldsFirst(tx, k) && Fresh(db, tx) && !tx.op.SetFrozen?
       case Checking => HoldsFirst(tx, |LockOrder(tx.op)|) && Fresh(db, tx) && FreezesRow(db, tx.op)
       case SavingLedger => Decided(db, tx)
       case Committing(entries) =>
         Decided(db, tx) && entries == LedgerRows(tx.op, tx.at, tx.rows)
  }

  /** The rows in memory are the ones the operation computes from what is committed now. */
  ghost predicate Decided(db: Db, tx: Txn) {
    && HoldsFirst(tx, |LockOrder(tx.op)|)
    && HasRows(tx)
    && FreezesRow(db, tx.op)
    && SaveRows(tx.op, Fetch(db, LockOrder(tx.op))) == Saved(tx.rows)
  }

  ghost predicate LockingInv(s: Sys) {
    && (forall u :: u in s.locks ==> s.locks[u] < |s.txns|)
    && (forall i :: 0 <= i < |s.txns| ==> TxnInv(s.db, s.locks, i, s.txns[i]))
  }

  ghost predicate Inv(db0: Db, s: Sys) {
    && LockingInv(s)
    && HistoryInv(s)
    && s.db == SerialDb(db0, s.history)
    && SerialOutcomes(db0, s.history)
  }

  lemma AllRowsFetched(db: Db, tx: Txn)
    requires HoldsFirst(tx, |LockOrder(tx.op)|)
    ensures HasRows(tx)
    ensures Fresh(db, tx) ==> tx.rows == Fetch(db, LockOrder(tx.op))
  {
  }

  /** A transaction does not notice changes to rows and locks that are not its own. */
  lemma TxnFrame(db: Db, locks: map<UserId, nat>, db': Db, locks': map<UserId, nat>, i: nat, tx: Txn)
    requires TxnInv(db, locks, i, tx)
    requires forall u :: u in tx.rows ==>
      RowOf(db', u) == RowOf(db, u) && (u in db.wallets ==> u in db'.wallets)
    requires forall u :: Owns(locks, i, u) <==> Owns(locks', i, u)
    ensures TxnInv(db', locks', i, tx)
  {
    if tx.phase.Checking? || tx.phase.SavingLedger? || tx.phase.Committing? {
      AllRowsFetched(db, tx);
      assert LockOrder(tx.op)[0] in tx.rows;
      assert Fetch(db', LockOrder(tx.op)) == Fetch(db, LockOrder(tx.op));
    }
  }

  lemma OthersKeepInv(s: Sys, i: nat, s': Sys)
    requires LockingInv(s) && i < |s.txns| == |s'.txns|
    requires forall j :: 0 <= j < |s.txns| && j != i ==> s'.txns[j] == s.txns[j]
    requires forall u :: u in s'.locks ==> s'.locks[u] < |s.txns|
    requires forall u, j :: 0 <= j < |s.txns| && j != i ==>
      (Owns(s.locks, j, u) <==> Owns(s'.locks, j, u))
    requires forall u :: !Owns(s.locks, i, u) ==>
      RowOf(s'.db, u) == RowOf(s.db, u) && (u in s.db.wallets ==> u in s'.db.wallets)
    requires TxnInv(s'.db, s'.locks, i, s'.txns[i])
    ensures LockingInv(s')
  {
    forall j | 0 <= j < |s'.txns|
      ensures TxnInv(s'.db, s'.locks, j, s'.txns[j])
    {
      if j != i { TxnFrame(s.db, s.locks, s'.db, s'.locks, j, s.txns[j]); }
    }
  }

  lemma AcquiredTxn(s: Sys, i: nat, k: nat, row: Wallet)
    requires i < |s.txns| && TxnInv(s.db, s.locks, i, s.txns[i])
    requires var tx := s.txns[i];
             && (tx.phase == Locking(k) || tx.phase == Inserting(k))
             && k < |LockOrder(tx.op)|
             && LockOrder(tx.op)[k] !in s.locks && row == RowOf(s.db, LockOrder(tx.op)[k])
             && (tx.op.SetFrozen? ==> LockOrder(tx.op)[k] in s.db.wallets)
    ensures var s' := Acquire(s, i, k, row); TxnInv(s'.db, s'.locks, i, s'.txns[i])
  {
    var tx, s' := s.txns[i], Acquire(s, i, k, row);
    var users, tx' := LockOrder(tx.op), s'.txns[i];
    var u := users[k];
    assert tx'.rows == tx.rows[u := row] && s'.locks == s.locks[u := i];
    HoldsOneMore(tx, k, u, tx');
    assert Fresh(s.db, tx') by {
      assert forall v :: v in tx'.rows && v != u ==> v in tx.rows && tx'.rows[v] == tx.rows[v];
    }
    assert Held(s'.locks, i, tx') by {
      assert forall v :: v != u ==> (Owns(s'.locks, i, v) <==> Owns(s.locks, i, v));
    }
  }

  lemma HoldsOneMore(tx: Txn, k: nat, u: UserId, tx': Txn)
    requires k < |LockOrder(tx.op)| && u == LockOrder(tx.op)[k] && HoldsFirst(tx, k)
    requires tx'.op == tx.op && tx'.rows.Keys == tx.rows.Keys + {u}
    ensures HoldsFirst(tx', k + 1)
  {
  }

  lemma AcquireKeepsInv(s: Sys, i: nat, k: nat, row: Wallet)
    requires LockingInv(s) && i < |s.txns|
    requires var tx := s.txns[i];
             && (tx.phase == Locking(k) || tx.phase == Inserting(k))
             && k < |LockOrder(tx.op)|
             && LockOrder(tx.op)[k] !in s.locks && row == RowOf(s.db, LockOrder(tx.op)[k])
             && (tx.op.SetFrozen? ==> LockOrder(tx.op)[k] in s.db.wallets)
    ensures LockingInv(Acquire(s, i, k, row))
  {
    var tx, s' := s.txns[i], Acquire(s, i, k, row);
    AcquiredTxn(s, i, k, row);
    OthersKeepInv(s, i, s');
  }

  lemma FinishKeepsInv(s: Sys, i: nat, db: Db, outcome: Outcome)
    requires LockingInv(s) && i < |s.txns|
    requires forall u :: !Owns(s.locks, i, u) ==>
      RowOf(db, u) == RowOf(s.db, u) && (u in s.db.wallets ==> u in db.wallets)
    ensures LockingInv(Finish(s.(db := db), i, outcome))
  {
    OthersKeepInv(s, i, Finish(s.(db := db), i, outcome));
  }

  lemma FinishKeepsHistory(s: Sys, i: nat, outcome: Outcome)
    requires HistoryInv(s) && i < |s.txns| && !s.txns[i].phase.Finished?
    ensures HistoryInv(Finish(s, i, outcome))
  {
    var s' := Finish(s, i, outcome);
    var n := |s.history|;
    forall k | 0 <= k < |s'.history| ensures IsEventOf(s'.txns, s'.history[k]) {
      if k < n { assert IsEventOf(s.txns, s.history[k]); }
    }
    forall j | 0 <= j < |s'.txns| && s'.txns[j].phase.Finished?
      ensures exists k :: 0 <= k < |s'.history| && s'.history[k].id == j
    {
      if j == i {
        assert s'.history[n].id == j;
      } else {
        var k :| 0 <= k < n && s.history[k].id == j;
        assert s'.history[k].id == j;
      }
    }
  }

  /** A step that finishes no operation and commits nothing. */
  lemma QuietStep(db0: Db, s: Sys, i: nat)
    requires Inv(db0, s) && Enabled(s, i) && LockingInv(Step(s, i))
    requires Step(s, i).history == s.history
    ensures Inv(db0, Step(s, i))
  {
    var s' := Step(s, i);
    assert s'.db == s.db;
    forall k | 0 <= k < |s'.history| ensures IsEventOf(s'.txns, s'.history[k]) {
      assert IsEventOf(s.txns, s.history[k]);
    }
  }

  /** A step that finishes an operation the way it finishes when run alone. */
  lemma FinalStep(db0: Db, s: Sys, i: nat, db: Db, outcome: Outcome)
    requires Inv(db0, s) && i < |s.txns| && !s.txns[i].phase.Finished?
    requires LockingInv(Finish(s.(db := db), i, outcome))
    requires if outcome == Rejected(DuplicateRow) then db == s.db
             else Apply(s.txns[i].op, s.txns[i].at, s.db) == Applied(db, outcome)
    ensures Inv(db0, Finish(s.(db := db), i, outcome))
  {
    var s' := Finish(s.(db := db), i, outcome);
    FinishKeepsHistory(s.(db := db), i, outcome);
    var h, h' := s.history, s'.history;
    assert h'[..|h|] == h;
    if outcome != Committed && outcome != Rejected(DuplicateRow) {
      RejectedChangesNothing(s.txns[i].op, s.txns[i].at, s.db);
    }
    forall k | 0 <= k < |h'| && h'[k].outcome != Rejected(DuplicateRow)
      ensures Apply(h'[k].op, h'[k].at, SerialDb(db0, h'[..k])).outcome == h'[k].outcome
    {
      assert h'[..k] == h[..k];
      if k < |h| { assert h'[k] == h[k]; } else { assert h[..k] == h; }
    }
  }

  lemma SavedKeys(op: Op, rows: map<UserId, Wallet>)
    requires forall u :: u in LockOrder(op) ==> u in rows
    ensures var r := SaveRows(op, rows); r.Saved? ==> r.rows.Keys == rows.Keys
  {
  }

  lemma CheckingStep(db0: Db, s: Sys, i: nat)
    requires Inv(db0, s) && Enabled(s, i) && s.txns[i].phase.Checking?
    ensures Inv(db0, Step(s, i))
  {
    hide HistoryInv, SerialDb, SerialOutcomes, LedgerRows;
    var tx := s.txns[i];
    AllRowsFetched(s.db, tx);
    match SaveRows(tx.op, tx.rows)
    case Refused(e) =>
      FinishKeepsInv(s, i, s.db, Rejected(e));
      FinalStep(db0, s, i, s.db, Rejected(e));
    case Saved(rows) =>
      SavedKeys(tx.op, tx.rows);
      assert TxnInv(s.db, s.locks, i, Step(s, i).txns[i]);
      OthersKeepInv(s, i, Step(s, i));
      QuietStep(db0, s, i);
  }

  lemma CommitStep(db0: Db, s: Sys, i: nat)
    requires Inv(db0, s) && Enabled(s, i) && s.txns[i].phase.Committing?
    ensures Inv(db0, Step(s, i))
  {
    var tx := s.txns[i];
    var db := Db(s.db.wallets + tx.rows, s.db.ledger + tx.phase.entries);
    FinishKeepsInv(s, i, db, Committed);
    FinalStep(db0, s, i, db, Committed);
  }

  lemma LockingStep(db0: Db, s: Sys, i: nat)
    requires Inv(db0, s) && Enabled(s, i) && s.txns[i].phase.Locking?
    ensures Inv(db0, Step(s, i))
  {
    var tx := s.txns[i];
    var u := LockOrder(tx.op)[tx.phase.next];
    if u in s.db.wallets {
      AcquireKeepsInv(s, i, tx.phase.next, s.db.wallets[u]);
      QuietStep(db0, s, i);
    } else if tx.op.SetFrozen? {
      assert u == tx.op.user;
      FinishKeepsInv(s, i, s.db, Committed);
      FinalStep(db0, s, i, s.db, Committed);
    } else {
      OthersKeepInv(s, i, Step(s, i));
      QuietStep(db0, s, i);
    }
  }

  lemma InsertingStep(db0: Db, s: Sys, i: nat)
    requires Inv(db0, s) && Enabled(s, i) && s.txns[i].phase.Inserting?
    ensures Inv(db0, Step(s, i))
  {
    var tx := s.txns[i];
    var u := LockOrder(tx.op)[tx.phase.next];
    if u in s.db.wallets {
      FinishKeepsInv(s, i, s.db, Rejected(DuplicateRow));
      FinalStep(db0, s, i, s.db, Rejected(DuplicateRow));
    } else {
      AcquireKeepsInv(s, i, tx.phase.next, NEW_WALLET);
      QuietStep(db0, s, i);
    }
  }

  /** Every step of every operation keeps the whole invariant. */
  lemma StepKeepsInv(db0: Db, s: Sys, i: nat)
    requires Inv(db0, s) && Enabled(s, i)
    ensures Inv(db0, Step(s, i))
  {
    match s.txns[i].phase
    case Starting =>
      if IsSelfTransfer(s.txns[i].op) {
        FinishKeepsInv(s, i, s.db, Rejected(SelfTransfer));
        FinalStep(db0, s, i, s.db, Rejected(SelfTransfer));
      } else {
        OthersKeepInv(s, i, Step(s, i));
        QuietStep(db0, s, i);
      }
    case Locking(_) => LockingStep(db0, s, i);
    case Inserting(_) => InsertingStep(db0, s, i);
    case Checking => CheckingStep(db0, s, i);
    case SavingLedger =>
      OthersKeepInv(s, i, Step(s, i));
      QuietStep(db0, s, i);
    case Committing(_) => CommitStep(db0, s, i);
  }

  lemma {:induction false} RunKeepsInv(db0: Db, s: Sys, schedule: seq<nat>)
    requires Inv(db0, s) && ValidRun(s, schedule)
    ensures Inv(db0, Run(s, schedule))
    decreases |schedule|
  {
    if schedule != [] {
      StepKeepsInv(db0, s, schedule[0]);
      RunKeepsInv(db0, Step(s, schedule[0]), schedule[1..]);
    }
  }

  lemma StartInv(s: Sys)
    requires IsStart(s)
    ensures Inv(s.db, s)
  {
  }

  /** Strict two-phase locking: whatever the interleaving, the committed wallets and ledger
      are those of the committed operations run one at a time in commit order, and every
      operation got the answer it gets in that serial run. */
  lemma SerialEquivalence(s: Sys, schedule: seq<nat>)
    requires IsStart(s) && ValidRun(s, schedule)
    ensures var end := Run(s, schedule);
            && end.db == SerialDb(s.db, end.history)
            && SerialOutcomes(s.db, end.history)
            && HistoryInv(end)
  {
    StartInv(s);
    RunKeepsInv(s.db, s, schedule);
  }
}

/** Wallet rows, ledger rows and the wallet operations, each as the effect it has when
    nothing else runs. Amounts are whole numbers of the smallest currency unit. */
module Wallets {
  import opened Ordering

  type UserId = string

  datatype TxType =
    | TOP_UP | WITHDRAW | PAYMENT | REFUND | TRANSFER_IN | TRANSFER_OUT
    | COMMISSION | PAYOUT | CREDIT | PROMO

  datatype TxStatus = PENDING | COMPLETED | FAILED | REFUNDED | CANCELLED

  datatype Entry = Entry(userId: UserId, kind: TxType, amount: int, status: TxStatus,
                         balanceAfter: int, createdAt: int)

  datatype Wallet = Wallet(balance: int, pending: int, frozen: bool)

  const NEW_WALLET := Wallet(0, 0, false)

  datatype Db = Db(wallets: map<UserId, Wallet>, ledger: seq<Entry>)

  datatype Op =
    | TopUp(user: UserId, amount: int)
    | Deduct(user: UserId, amount: int)
    | Credit(user: UserId, amount: int, kind: TxType)
    | Withdraw(user: UserId, amount: int)
    | Transfer(from: UserId, to: UserId, amount: int)
    | SetFrozen(user: UserId, frozen: bool)

  datatype Error = SelfTransfer | WalletFrozen | InsufficientBalance | DuplicateRow

  datatype Outcome = Committed | Rejected(error: Error)

  datatype SaveResult = Saved(rows: map<UserId, Wallet>) | Refused(error: Error)

  /** The users whose rows an operation locks, in the order it locks them. */
  function LockOrder(op: Op): (users: seq<UserId>)
    ensures 1 <= |users| <= 2
    ensures |users| == 2 <==> op.Transfer?
    ensures op.Transfer? && op.from != op.to ==> Before(users[0], users[1])
    ensures op.Transfer? ==> op.from in users && op.to in users
    ensures forall u :: u in users ==> if op.Transfer? then u == op.from || u == op.to else u == op.user
  {
    if op.Transfer? then
      var users := SortPair(op.from, op.to);
      assert op.from in multiset(users) && op.to in multiset(users);
      assert forall u :: u in users ==> u in multiset(users);
      users
    else [op.user]
  }

  predicate IsSelfTransfer(op: Op) {
    op.Transfer? && op.from == op.to
  }

  /** The checks and the wallet updates, on the rows the operation has fetched. */
  function SaveRows(op: Op, rows: map<UserId, Wallet>): SaveResult
    requires forall u :: u in LockOrder(op) ==> u in rows
  {
    match op
    case TopUp(u, a) =>
      if rows[u].frozen then Refused(WalletFrozen)
      else Saved(rows[u := rows[u].(balance := rows[u].balance + a)])
    case Deduct(u, a) =>
      if rows[u].frozen then Refused(WalletFrozen)
      else if rows[u].balance < a then Refused(InsufficientBalance)
      else Saved(rows[u := rows[u].(balance := rows[u].balance - a)])
    case Credit(u, a, _) =>
      Saved(rows[u := rows[u].(balance := rows[u].balance + a)])
    case Withdraw(u, a) =>
      if rows[u].frozen then Refused(WalletFrozen)
      else if rows[u].balance < a then Refused(InsufficientBalance)
      else Saved(rows[u := rows[u].(balance := rows[u].balance - a, pending := rows[u].pending + a)])
    case Transfer(f, t, a) =>
      if rows[f].frozen || rows[t].frozen then Refused(WalletFrozen)
      else if rows[f].balance < a then Refused(InsufficientBalance)
      else Saved(rows[f := rows[f].(balance := rows[f].balance - a)]
                     [t := rows[t].(balance := rows[t].balance + a)])
    case SetFrozen(u, b) =>
      Saved(rows[u := rows[u].(frozen := b)])
  }

  /** The ledger rows inserted after the wallet rows have been saved. */
  function LedgerRows(op: Op, at: int, rows: map<UserId, Wallet>): seq<Entry>
    requires forall u :: u in LockOrder(op) ==> u in rows
  {
    match op
    case TopUp(u, a) => [Entry(u, TOP_UP, a, COMPLETED, rows[u].balance, at)]
    case Deduct(u, a) => [Entry(u, PAYMENT, -a, COMPLETED, rows[u].balance, at)]
    case Credit(u, a, k) => [Entry(u, k, a, COMPLETED, rows[u].balance, at)]
    case Withdraw(u, a) => [Entry(u, WITHDRAW, -a, PENDING, rows[u].balance, at)]
    case Transfer(f, t, a) =>
      [Entry(f, TRANSFER_OUT, -a, COMPLETED, rows[f].balance, at),
       Entry(t, TRANSFER_IN, a, COMPLETED, rows[t].balance, at)]
    case SetFrozen(_, _) => []
  }

  function RowOf(db: Db, u: UserId): Wallet {
    if u in db.wallets then db.wallets[u] else NEW_WALLET
  }

  function Fetch(db: Db, users: seq<UserId>): map<UserId, Wallet> {
    map u | u in users :: RowOf(db, u)
  }

  datatype Applied = Applied(db: Db, outcome: Outcome)

  /** One operation run alone, from its first statement to its commit or rollback. */
  function Apply(op: Op, at: int, db: Db): Applied {
    if IsSelfTransfer(op) then Applied(db, Rejected(SelfTransfer))
    else if op.SetFrozen? && op.user !in db.wallets then Applied(db, Committed)
    else
      match SaveRows(op, Fetch(db, LockOrder(op)))
      case Refused(e) => Applied(db, Rejected(e))
      case Saved(rows) =>
        Applied(Db(db.wallets + rows, db.ledger + LedgerRows(op, at, rows)), Committed)
  }

  /** A transfer between two users, row by row. */
  lemma AppliedTransfer(f: UserId, t: UserId, amount: int, at: int, db: Db)
    requires f != t
    ensures var wf, wt := RowOf(db, f), RowOf(db, t);
            var wf', wt' := wf.(balance := wf.balance - amount), wt.(balance := wt.balance + amount);
            Apply(Transfer(f, t, amount), at, db) ==
              if wf.frozen || wt.frozen then Applied(db, Rejected(WalletFrozen))
              else if wf.balance < amount then Applied(db, Rejected(InsufficientBalance))
              else Applied(
                Db(db.wallets[f := wf'][t := wt'],
                   db.ledger + [Entry(f, TRANSFER_OUT, -amount, COMPLETED, wf'.balance, at),
                                Entry(t, TRANSFER_IN, amount, COMPLETED, wt'.balance, at)]),
                Committed)
  {
    var op := Transfer(f, t, amount);
    var fetched := Fetch(db, LockOrder(op));
    assert fetched.Keys == {f, t};
    assert fetched[f] == RowOf(db, f) && fetched[t] == RowOf(db, t);
    if SaveRows(op, fetched).Saved? {
      var saved := SaveRows(op, fetched).rows;
      assert db.wallets + saved == db.wallets[f := saved[f]][t := saved[t]];
    }
  }

  /** A top-up run alone: refused exactly when the wallet is frozen. */
  lemma AppliedTopUp(u: UserId, amount: int, at: int, db: Db)
    ensures var w := RowOf(db, u);
            var w' := w.(balance := w.balance + amount);
            Apply(TopUp(u, amount), at, db) ==
              if w.frozen then Applied(db, Rejected(WalletFrozen))
              else Applied(Db(db.wallets[u := w'],
                              db.ledger + [Entry(u, TOP_UP, amount, COMPLETED, w'.balance, at)]), Committed)
  {
    OneRow(TopUp(u, amount), db);
  }

  /** A payment run alone: the frozen check comes first, then the balance. */
  lemma AppliedDeduct(u: UserId, amount: int, at: int, db: Db)
    ensures var w := RowOf(db, u);
            var w' := w.(balance := w.balance - amount);
            Apply(Deduct(u, amount), at, db) ==
              if w.frozen then Applied(db, Rejected(WalletFrozen))
              else if w.balance < amount then Applied(db, Rejected(InsufficientBalance))
              else Applied(Db(db.wallets[u := w'],
                              db.ledger + [Entry(u, PAYMENT, -amount, COMPLETED, w'.balance, at)]), Committed)
  {
    OneRow(Deduct(u, amount), db);
  }

  /** A credit run alone: never refused, not even on a frozen wallet. */
  lemma AppliedCredit(u: UserId, amount: int, kind: TxType, at: int, db: Db)
    ensures var w := RowOf(db, u);
            var w' := w.(balance := w.balance + amount);
            Apply(Credit(u, amount, kind), at, db) ==
              Applied(Db(db.wallets[u := w'],
                         db.ledger + [Entry(u, kind, amount, COMPLETED, w'.balance, at)]), Committed)
  {
    OneRow(Credit(u, amount, kind), db);
  }

  /** A withdrawal run alone: the amount moves from the balance to the pending one. */
  lemma AppliedWithdraw(u: UserId, amount: int, at: int, db: Db)
    ensures var w := RowOf(db, u);
            var w' := w.(balance := w.balance - amount, pending := w.pending + amount);
            Apply(Withdraw(u, amount), at, db) ==
              if w.frozen then Applied(db, Rejected(WalletFrozen))
              else if w.balance < amount then Applied(db, Rejected(InsufficientBalance))
              else Applied(Db(db.wallets[u := w'],
                              db.ledger + [Entry(u, WITHDRAW, -amount, PENDING, w'.balance, at)]), Committed)
  {
    OneRow(Withdraw(u, amount), db);
  }

  /** A freeze or unfreeze run alone: it sets the flag of a row that exists. */
  lemma AppliedSetFrozen(u: UserId, frozen: bool, at: int, db: Db)
    ensures Apply(SetFrozen(u, frozen), at, db) ==
              Applied(if u in db.wallets then db.(wallets := db.wallets[u := db.wallets[u].(frozen := frozen)]) else db,
                      Committed)
  {
    OneRow(SetFrozen(u, frozen), db);
    assert db.ledger + [] == db.ledger;
  }

  lemma AppliedSelfTransfer(u: UserId, amount: int, at: int, db: Db)
    ensures Apply(Transfer(u, u, amount), at, db) == Applied(db, Rejected(SelfTransfer))
  {
  }

  /** An operation on one user fetches and saves one row. */
  lemma OneRow(op: Op, db: Db)
    requires !op.Transfer?
    ensures Fetch(db, LockOrder(op)) == map[op.user := RowOf(db, op.user)]
    ensures forall row: Wallet :: db.wallets + map[op.user := row] == db.wallets[op.user := row]
    ensures forall row: Wallet :: map[op.user := RowOf(db, op.user)][op.user := row] == map[op.user := row]
  {
  }

  /** Any other operation that goes through writes its user's row, or finds none to freeze. */
  lemma AppliedSingle(op: Op, at: int, db: Db)
    requires !op.Transfer? && Apply(op, at, db).outcome == Committed
    ensures if op.SetFrozen? && op.user !in db.wallets then Apply(op, at, db).db == db
            else
              var saved := SaveRows(op, map[op.user := RowOf(db, op.user)]);
              && saved.Saved?
              && Apply(op, at, db).db.wallets == db.wallets[op.user := saved.rows[op.user]]
  {
  }

  lemma RejectedChangesNothing(op: Op, at: int, db: Db)
    requires Apply(op, at, db).outcome != Committed
    ensures Apply(op, at, db).db == db
  {
  }
}

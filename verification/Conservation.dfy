/** Where money can come from and go to: the sum of all wallets under one operation. */
module Conservation {
  import opened Wallets

  function Worth(w: Wallet): int { w.balance + w.pending }

  /** Everything held in all wallets, available or pending. */
  ghost function Total(wallets: map<UserId, Wallet>): int
    decreases |wallets|
  {
    if wallets == map[] then 0
    else
      var u :| u in wallets;
      Worth(wallets[u]) + Total(wallets - {u})
  }

  lemma {:induction false} TotalWithout(wallets: map<UserId, Wallet>, u: UserId)
    requires u in wallets
    ensures Total(wallets) == Worth(wallets[u]) + Total(wallets - {u})
    decreases |wallets|
  {
    var v :| v in wallets && Total(wallets) == Worth(wallets[v]) + Total(wallets - {v});
    if u != v {
      TotalWithout(wallets - {v}, u);
      TotalWithout(wallets - {u}, v);
      assert wallets - {v} - {u} == wallets - {u} - {v};
    }
  }

  /** The total goes by the row that changes. */
  lemma TotalUpdate(wallets: map<UserId, Wallet>, u: UserId, w: Wallet)
    ensures Total(wallets[u := w]) ==
            Total(wallets) + (w.balance + w.pending)
            - if u in wallets then wallets[u].balance + wallets[u].pending else 0
  {
    var rest := wallets - {u};
    TotalWithout(wallets[u := w], u);
    assert wallets[u := w] - {u} == rest;
    if u in wallets { TotalWithout(wallets, u); } else { assert rest == wallets; }
  }

  /** What one committed operation brings into the system. */
  function Inflow(op: Op): int {
    match op
    case TopUp(_, a) => a
    case Credit(_, a, _) => a
    case Deduct(_, a) => -a
    case _ => 0
  }

  /** Only top-ups, credits and payments change the total; transfers, withdrawals,
      freezes and rejected operations do not. */
  lemma ApplyConserves(op: Op, at: int, db: Db)
    ensures var r := Apply(op, at, db);
            Total(r.db.wallets) == Total(db.wallets) +
              if r.outcome != Committed then 0
              else if op.TopUp? || op.Credit? then op.amount
              else if op.Deduct? then -op.amount
              else 0
  {
    var r := Apply(op, at, db);
    if r.outcome != Committed {
      RejectedChangesNothing(op, at, db);
    } else if op.Transfer? {
      AppliedTransfer(op.from, op.to, op.amount, at, db);
      var mid := db.wallets[op.from := r.db.wallets[op.from]];
      TotalUpdate(db.wallets, op.from, r.db.wallets[op.from]);
      TotalUpdate(mid, op.to, r.db.wallets[op.to]);
    } else {
      AppliedSingle(op, at, db);
      if !(op.SetFrozen? && op.user !in db.wallets) {
        TotalUpdate(db.wallets, op.user, r.db.wallets[op.user]);
      }
    }
  }

  ghost predicate NoDebt(db: Db) {
    forall u :: u in db.wallets ==> db.wallets[u].balance >= 0 && db.wallets[u].pending >= 0
  }

  /** No negative amounts: less than what the request validators ask, and what the callers of
      `credit` must promise. `deduct` may be given any amount. */
  predicate Amounts(op: Op) {
    match op
    case TopUp(_, a) => a >= 0
    case Withdraw(_, a) => a >= 0
    case Transfer(_, _, a) => a >= 0
    case Credit(_, a, _) => a >= 0
    case _ => true
  }

  lemma ApplyKeepsNoDebt(op: Op, at: int, db: Db)
    requires NoDebt(db) && Amounts(op)
    ensures NoDebt(Apply(op, at, db).db)
  {
    if Apply(op, at, db).outcome != Committed {
      RejectedChangesNothing(op, at, db);
    } else if op.Transfer? {
      TransferKeepsNoDebt(op, at, db);
    } else {
      AppliedSingle(op, at, db);
    }
  }

  lemma TransferKeepsNoDebt(op: Op, at: int, db: Db)
    requires NoDebt(db) && Amounts(op)
    requires op.Transfer? && op.from != op.to && Apply(op, at, db).outcome == Committed
    ensures NoDebt(Apply(op, at, db).db)
  {
    hide Apply;
    AppliedTransfer(op.from, op.to, op.amount, at, db);
  }

  /** `credit` checks nothing, so its callers must: it leaves a debt exactly when the
      amount takes the balance below zero. */
  lemma CreditNeedsItsPrecondition(u: UserId, amount: int, kind: TxType, at: int, db: Db)
    requires NoDebt(db)
    ensures NoDebt(Apply(Credit(u, amount, kind), at, db).db) <==> RowOf(db, u).balance + amount >= 0
  {
  }
}

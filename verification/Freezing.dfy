/** What freezing a wallet guarantees over interleaved runs. */
module Freezing {
  import opened Wallets
  import opened WalletProtocol

  ghost predicate Frozen(db: Db, u: UserId) {
    u in db.wallets && db.wallets[u].frozen
  }

  /** What one operation brings a frozen wallet. */
  function CreditTo(e: Event, u: UserId): int {
    if e.outcome == Committed && e.op.Credit? && e.op.user == u then e.op.amount else 0
  }

  function CreditsTo(history: seq<Event>, u: UserId): int {
    if history == [] then 0
    else CreditsTo(history[..|history| - 1], u) + CreditTo(history[|history| - 1], u)
  }

  /** While a wallet is frozen, an operation changes nothing of it except that a credit adds its
      amount, and that a freeze or unfreeze sets the flag. */
  lemma FrozenApply(op: Op, at: int, db: Db, u: UserId)
    requires Frozen(db, u)
    ensures var r, w := Apply(op, at, db), db.wallets[u];
            && u in r.db.wallets
            && r.db.wallets[u] ==
                 if op.Credit? && op.user == u then w.(balance := w.balance + op.amount)
                 else if op.SetFrozen? && op.user == u then w.(frozen := op.frozen)
                 else w
  {
    hide Apply;
    match op
    case TopUp(v, a) => AppliedTopUp(v, a, at, db);
    case Deduct(v, a) => AppliedDeduct(v, a, at, db);
    case Credit(v, a, k) => AppliedCredit(v, a, k, at, db);
    case Withdraw(v, a) => AppliedWithdraw(v, a, at, db);
    case SetFrozen(v, b) => AppliedSetFrozen(v, b, at, db);
    case Transfer(f, t, a) =>
      if f == t { AppliedSelfTransfer(f, a, at, db); } else { AppliedTransfer(f, t, a, at, db); }
  }

  /** And nothing but a committed unfreeze ends it; payments, withdrawals, top-ups and transfers
      from or to it are refused. */
  lemma FrozenRefuses(op: Op, at: int, db: Db, u: UserId)
    requires Frozen(db, u)
    ensures op.TopUp? || op.Deduct? || op.Withdraw? ==>
              (op.user == u ==> Apply(op, at, db).outcome == Rejected(WalletFrozen))
    ensures op.Transfer? && op.from != op.to && (op.from == u || op.to == u) ==>
              Apply(op, at, db).outcome == Rejected(WalletFrozen)
  {
    hide Apply;
    match op
    case TopUp(v, a) => AppliedTopUp(v, a, at, db);
    case Deduct(v, a) => AppliedDeduct(v, a, at, db);
    case Withdraw(v, a) => AppliedWithdraw(v, a, at, db);
    case Transfer(f, t, a) => if f != t { AppliedTransfer(f, t, a, at, db); }
    case _ =>
  }

  /** The committed states between the j-th and the k-th finished operation. */
  ghost predicate FrozenThroughout(db: Db, history: seq<Event>, j: nat, k: nat, u: UserId)
    requires j <= k <= |history|
  {
    forall i :: j <= i < k ==> Frozen(SerialDb(db, history[..i]), u)
  }

  lemma {:induction false} SerialFrozen(db: Db, history: seq<Event>, j: nat, k: nat, u: UserId)
    requires j <= k <= |history| && Frozen(SerialDb(db, history[..j]), u)
    requires FrozenThroughout(db, history, j, k, u)
    ensures var before, after := SerialDb(db, history[..j]), SerialDb(db, history[..k]);
            && u in after.wallets
            && after.wallets[u].balance == before.wallets[u].balance + CreditsTo(history[j..k], u)
            && after.wallets[u].pending == before.wallets[u].pending
  {
    hide SerialDb, CreditsTo;
    if j == k {
      assert history[j..k] == [] && CreditsTo([], u) == 0 by { NoCredits(u); }
    } else {
      SerialFrozen(db, history, j, k - 1, u);
      assert Frozen(SerialDb(db, history[..k - 1]), u);
      NextFrozen(db, history, k, u);
      CreditsPush(history, j, k, u);
    }
  }

  lemma NoCredits(u: UserId)
    ensures CreditsTo([], u) == 0
  {
  }

  lemma CreditsPush(history: seq<Event>, j: nat, k: nat, u: UserId)
    requires j < k <= |history|
    ensures CreditsTo(history[j..k], u) == CreditsTo(history[j..k - 1], u) + CreditTo(history[k - 1], u)
  {
    assert history[j..k][..k - 1 - j] == history[j..k - 1];
  }

  /** One more finished operation on a frozen wallet. */
  lemma NextFrozen(db: Db, history: seq<Event>, k: nat, u: UserId)
    requires 0 < k <= |history| && Frozen(SerialDb(db, history[..k - 1]), u)
    ensures var before, after := SerialDb(db, history[..k - 1]), SerialDb(db, history[..k]);
            && u in after.wallets
            && after.wallets[u].balance == before.wallets[u].balance + CreditTo(history[k - 1], u)
            && after.wallets[u].pending == before.wallets[u].pending
  {
    hide Apply;
    var e := history[k - 1];
    assert history[..k][..k - 1] == history[..k - 1];
    FrozenApply(e.op, e.at, SerialDb(db, history[..k - 1]), u);
    if e.outcome == Committed { assert SerialDb(db, history[..k]) == Apply(e.op, e.at, SerialDb(db, history[..k - 1])).db; }
  }

  /** In every interleaved run, from one committed state to a later one between which a wallet
      stays frozen, its balance grows by exactly the credits committed to it and its pending
      amount does not change. */
  lemma FrozenMovesOnlyByCredit(s: Sys, schedule: seq<nat>, j: nat, k: nat, u: UserId)
    requires IsStart(s) && ValidRun(s, schedule)
    requires j <= k <= |Run(s, schedule).history|
    requires Frozen(SerialDb(s.db, Run(s, schedule).history[..j]), u)
    requires FrozenThroughout(s.db, Run(s, schedule).history, j, k, u)
    ensures var h := Run(s, schedule).history;
            var before, after := SerialDb(s.db, h[..j]), SerialDb(s.db, h[..k]);
            && Run(s, schedule).db == SerialDb(s.db, h)
            && u in after.wallets
            && after.wallets[u].balance == before.wallets[u].balance + CreditsTo(h[j..k], u)
            && after.wallets[u].pending == before.wallets[u].pending
  {
    SerialEquivalence(s, schedule);
    SerialFrozen(s.db, Run(s, schedule).history, j, k, u);
  }

  /** No unfreeze of u commits between the two states. */
  predicate NoUnfreeze(history: seq<Event>, u: UserId) {
    forall i :: 0 <= i < |history| ==>
      !(history[i].op == SetFrozen(u, false) && history[i].outcome == Committed)
  }

  lemma {:induction false} SerialStaysFrozen(db: Db, history: seq<Event>, u: UserId)
    requires Frozen(db, u) && NoUnfreeze(history, u)
    ensures Frozen(SerialDb(db, history), u)
  {
    if history != [] {
      var n := |history| - 1;
      SerialStaysFrozen(db, history[..n], u);
      FrozenApply(history[n].op, history[n].at, SerialDb(db, history[..n]), u);
    }
  }

  /** A wallet that is frozen stays so until an unfreeze of it commits; so from a start with a
      frozen wallet, a run without one leaves its balance higher by its credits alone. */
  lemma FrozenUntilUnfrozen(s: Sys, schedule: seq<nat>, u: UserId)
    requires IsStart(s) && ValidRun(s, schedule) && Frozen(s.db, u)
    requires NoUnfreeze(Run(s, schedule).history, u)
    ensures var end := Run(s, schedule);
            && Frozen(end.db, u)
            && end.db.wallets[u].balance == s.db.wallets[u].balance + CreditsTo(end.history, u)
            && end.db.wallets[u].pending == s.db.wallets[u].pending
  {
    SerialEquivalence(s, schedule);
    var h := Run(s, schedule).history;
    forall i | 0 <= i <= |h| ensures Frozen(SerialDb(s.db, h[..i]), u) {
      SerialStaysFrozen(s.db, h[..i], u);
    }
    assert h[..0] == [] && h[..|h|] == h && h[0..|h|] == h;
    FrozenMovesOnlyByCredit(s, schedule, 0, |h|, u);
  }
}

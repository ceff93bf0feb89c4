/** The wallet service's methods, statement by statement, each inside one database
    transaction that rolls back when an exception leaves it. */
module WalletServices {
  import opened Ordering
  import opened Wallets

  datatype TxResult = Success(tx: Entry) | Failure(error: Error)

  class WalletService {
    var wallets: map<UserId, Wallet>
    var ledger: seq<Entry>

    constructor ()
      ensures Contents() == Db(map[], [])
    {
      wallets, ledger := map[], [];
    }

    function Contents(): Db
      reads this
    {
      Db(wallets, ledger)
    }

    /** What every operation promises: the new contents and the result are those of the
        operation run alone. */
    ghost predicate Did(op: Op, now: int, before: Db, r: TxResult)
      reads this
    {
      var a := Apply(op, now, before);
      && Contents() == a.db
      && (r.Success? <==> a.outcome == Committed)
      && (r.Failure? ==> a.outcome == Rejected(r.error))
      && (r.Success? ==> |before.ledger| < |ledger| && r.tx == ledger[|before.ledger|])
    }

    /** Reads the row under its lock, inserting a fresh one when there is none. */
    method GetOrCreateForUpdate(userId: UserId) returns (wallet: Wallet)
      modifies this`wallets
      ensures wallet == RowOf(old(Contents()), userId)
      ensures wallets == old(wallets)[userId := wallet]
    {
      if userId !in wallets {
        wallets := wallets[userId := NEW_WALLET];
      }
      wallet := wallets[userId];
    }

    method TopUp(userId: UserId, amount: int, now: int) returns (r: TxResult)
      modifies this
      ensures Did(Op.TopUp(userId, amount), now, old(Contents()), r)
    {
      var snapshot := wallets;
      var wallet := GetOrCreateForUpdate(userId);
      if wallet.frozen {
        wallets := snapshot;
        return Failure(WalletFrozen);
      }
      wallet := wallet.(balance := wallet.balance + amount);
      wallets := wallets[userId := wallet];
      var tx := Entry(userId, TOP_UP, amount, COMPLETED, wallet.balance, now);
      ledger := ledger + [tx];
      return Success(tx);
    }

    method Deduct(userId: UserId, amount: int, now: int) returns (r: TxResult)
      modifies this
      ensures Did(Op.Deduct(userId, amount), now, old(Contents()), r)
    {
      var snapshot := wallets;
      var wallet := GetOrCreateForUpdate(userId);
      if wallet.frozen {
        wallets := snapshot;
        return Failure(WalletFrozen);
      }
      if wallet.balance < amount {
        wallets := snapshot;
        return Failure(InsufficientBalance);
      }
      wallet := wallet.(balance := wallet.balance - amount);
      wallets := wallets[userId := wallet];
      var tx := Entry(userId, PAYMENT, -amount, COMPLETED, wallet.balance, now);
      ledger := ledger + [tx];
      return Success(tx);
    }

    method Credit(userId: UserId, amount: int, kind: TxType, now: int) returns (r: TxResult)
      modifies this
      ensures Did(Op.Credit(userId, amount, kind), now, old(Contents()), r)
    {
      var wallet := GetOrCreateForUpdate(userId);
      wallet := wallet.(balance := wallet.balance + amount);
      wallets := wallets[userId := wallet];
      var tx := Entry(userId, kind, amount, COMPLETED, wallet.balance, now);
      ledger := ledger + [tx];
      return Success(tx);
    }

    method Withdraw(userId: UserId, amount: int, now: int) returns (r: TxResult)
      modifies this
      ensures Did(Op.Withdraw(userId, amount), now, old(Contents()), r)
    {
      var snapshot := wallets;
      var wallet := GetOrCreateForUpdate(userId);
      if wallet.frozen {
        wallets := snapshot;
        return Failure(WalletFrozen);
      }
      if wallet.balance < amount {
        wallets := snapshot;
        return Failure(InsufficientBalance);
      }
      wallet := wallet.(balance := wallet.balance - amount);
      wallet := wallet.(pending := wallet.pending + amount);
      wallets := wallets[userId := wallet];
      var tx := Entry(userId, WITHDRAW, -amount, PENDING, wallet.balance, now);
      ledger := ledger + [tx];
      return Success(tx);
    }

    /** Locks two rows, the one with the smaller id first. */
    method LockBoth(fromUserId: UserId, toUserId: UserId) returns (fromWallet: Wallet, toWallet: Wallet)
      requires fromUserId != toUserId
      modifies this`wallets
      ensures fromWallet == RowOf(old(Contents()), fromUserId)
      ensures toWallet == RowOf(old(Contents()), toUserId)
      ensures wallets == old(wallets)[fromUserId := fromWallet][toUserId := toWallet]
    {
      var ids := SortPair(fromUserId, toUserId);
      assert ids == [fromUserId, toUserId] || ids == [toUserId, fromUserId];
      var firstWallet := GetOrCreateForUpdate(ids[0]);
      var secondWallet := GetOrCreateForUpdate(ids[1]);
      fromWallet := if ids[0] == fromUserId then firstWallet else secondWallet;
      toWallet := if ids[0] == fromUserId then secondWallet else firstWallet;
    }

    method Transfer(fromUserId: UserId, toUserId: UserId, amount: int, now: int) returns (r: TxResult)
      modifies this
      ensures Did(Op.Transfer(fromUserId, toUserId, amount), now, old(Contents()), r)
    {
      hide SaveRows, LedgerRows, Fetch, LockOrder;
      if fromUserId == toUserId {
        return Failure(SelfTransfer);
      }
      AppliedTransfer(fromUserId, toUserId, amount, now, Contents());
      r := TransferLocked(fromUserId, toUserId, amount, now);
    }

    /** The body of the transaction `transfer` opens. */
    method TransferLocked(fromUserId: UserId, toUserId: UserId, amount: int, now: int) returns (r: TxResult)
      requires fromUserId != toUserId
      modifies this
      ensures r.Failure? ==> Contents() == old(Contents())
      ensures var f, t := RowOf(old(Contents()), fromUserId), RowOf(old(Contents()), toUserId);
              if f.frozen || t.frozen then r == Failure(WalletFrozen)
              else if f.balance < amount then r == Failure(InsufficientBalance)
              else
                var f', t' := f.(balance := f.balance - amount), t.(balance := t.balance + amount);
                var fromTx := Entry(fromUserId, TRANSFER_OUT, -amount, COMPLETED, f'.balance, now);
                var toTx := Entry(toUserId, TRANSFER_IN, amount, COMPLETED, t'.balance, now);
                && r == Success(fromTx)
                && wallets == old(wallets)[fromUserId := f'][toUserId := t']
                && ledger == old(ledger) + [fromTx, toTx]
    {
      var snapshot := wallets;
      var fromWallet, toWallet := LockBoth(fromUserId, toUserId);
      if fromWallet.frozen || toWallet.frozen {
        wallets := snapshot;
        return Failure(WalletFrozen);
      }
      if fromWallet.balance < amount {
        wallets := snapshot;
        return Failure(InsufficientBalance);
      }
      fromWallet := fromWallet.(balance := fromWallet.balance - amount);
      toWallet := toWallet.(balance := toWallet.balance + amount);
      wallets := wallets[fromUserId := fromWallet][toUserId := toWallet];
      var fromTx := Entry(fromUserId, TRANSFER_OUT, -amount, COMPLETED, fromWallet.balance, now);
      var toTx := Entry(toUserId, TRANSFER_IN, amount, COMPLETED, toWallet.balance, now);
      ledger := ledger + [fromTx, toTx];
      return Success(fromTx);
    }

    /** The update of `freeze` and `unfreeze`: when it finds no row it changes nothing. */
    method SetFrozen(userId: UserId, frozen: bool)
      modifies this`wallets
      ensures Contents() == Apply(Op.SetFrozen(userId, frozen), 0, old(Contents())).db
      ensures wallets == if userId in old(wallets)
                         then old(wallets)[userId := old(wallets)[userId].(frozen := frozen)] else old(wallets)
    {
      if userId in wallets {
        wallets := wallets[userId := wallets[userId].(frozen := frozen)];
      }
    }

    /** The balance read, which inserts an empty wallet when there is none. */
    method GetBalance(userId: UserId) returns (wallet: Wallet)
      modifies this`wallets
      ensures wallet == RowOf(old(Contents()), userId)
      ensures wallets == old(wallets)[userId := wallet]
    {
      if userId !in wallets {
        wallets := wallets[userId := NEW_WALLET];
      }
      wallet := wallets[userId];
    }

    /** `freeze` and `unfreeze`: freezing a user who has no wallet yet leaves one that is not
        frozen. */
    method Freeze(userId: UserId, frozen: bool) returns (wallet: Wallet)
      modifies this`wallets
      ensures wallet == if userId in old(wallets) then old(wallets)[userId].(frozen := frozen) else NEW_WALLET
      ensures wallets == old(wallets)[userId := wallet]
      ensures wallet.frozen == frozen <==> userId in old(wallets) || !frozen
    {
      SetFrozen(userId, frozen);
      wallet := GetBalance(userId);
    }
  }
}

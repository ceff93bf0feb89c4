/** The transaction ledger: what `getSummary` computes from it, and how it accounts for
    every wallet row. */
module Ledger {
  import opened Wallets
  import opened Wrappers

  datatype Tally = Tally(count: nat, amount: int)

  datatype Summary = Summary(totalIn: int, totalOut: int, count: nat, byType: map<TxType, Tally>)

  const ALL_TYPES: seq<TxType> :=
    [TOP_UP, WITHDRAW, PAYMENT, REFUND, TRANSFER_IN, TRANSFER_OUT, COMMISSION, PAYOUT, CREDIT, PROMO]

  // ---- Sums over ledger rows

  function Abs(x: int): nat { if x < 0 then -x else x }

  function Sum(txs: seq<Entry>): int {
    if txs == [] then 0 else Sum(txs[..|txs| - 1]) + txs[|txs| - 1].amount
  }

  function SumAbs(txs: seq<Entry>): nat {
    if txs == [] then 0 else SumAbs(txs[..|txs| - 1]) + Abs(txs[|txs| - 1].amount)
  }

  /** Number and signed total of the rows of one type. */
  function TallyOf(txs: seq<Entry>, kind: TxType): Tally {
    if txs == [] then Tally(0, 0)
    else
      var t := TallyOf(txs[..|txs| - 1], kind);
      var tx := txs[|txs| - 1];
      if tx.kind == kind then Tally(t.count + 1, t.amount + tx.amount) else t
  }

  predicate InRange(at: int, from: Optional<int>, to: Optional<int>) {
    from.Some? && to.Some? ==> from.value <= at <= to.value
  }

  predicate Wanted(tx: Entry, user: UserId, from: Optional<int>, to: Optional<int>) {
    tx.userId == user && InRange(tx.createdAt, from, to)
  }

  /** The rows the query returns; a range with one end missing is no range. */
  function Select(ledger: seq<Entry>, user: UserId, from: Optional<int>, to: Optional<int>): seq<Entry> {
    if ledger == [] then []
    else
      var tx := ledger[|ledger| - 1];
      Select(ledger[..|ledger| - 1], user, from, to) +
      if Wanted(tx, user, from, to) then [tx] else []
  }

  /** The query selects exactly the user's rows created between the two dates, both included, or all
      of the user's rows when a date is missing. */
  lemma {:induction false} SelectedExactly(ledger: seq<Entry>, user: UserId, from: Optional<int>, to: Optional<int>)
    ensures forall tx: Entry ::
              multiset(Select(ledger, user, from, to))[tx] ==
                if tx.userId == user
                   && (from.None? || to.None? || (from.value <= tx.createdAt && tx.createdAt <= to.value))
                then multiset(ledger)[tx] else 0
  {
    if ledger != [] {
      var n := |ledger| - 1;
      SelectedExactly(ledger[..n], user, from, to);
      assert ledger == ledger[..n] + [ledger[n]];
      var rest, added := Select(ledger[..n], user, from, to), if Wanted(ledger[n], user, from, to) then [ledger[n]] else [];
      assert Select(ledger, user, from, to) == rest + added;
      assert multiset(rest + added) == multiset(rest) + multiset(added);
    }
  }

  /** The sums are sums: over parts of a list they add up, and one row counts its amount. */
  lemma {:induction false} SumsSplit(a: seq<Entry>, b: seq<Entry>)
    ensures Sum(a + b) == Sum(a) + Sum(b) && SumAbs(a + b) == SumAbs(a) + SumAbs(b)
    ensures forall tx: Entry :: Sum([tx]) == tx.amount && SumAbs([tx]) == if tx.amount < 0 then -tx.amount else tx.amount
  {
    if b == [] {
      assert a + b == a;
    } else {
      var n := |b| - 1;
      SumsSplit(a, b[..n]);
      assert (a + b)[..|a + b| - 1] == a + b[..n];
    }
  }

  lemma {:induction false} TalliesSplit(a: seq<Entry>, b: seq<Entry>, kind: TxType)
    ensures var x, y := TallyOf(a, kind), TallyOf(b, kind);
            TallyOf(a + b, kind) == Tally(x.count + y.count, x.amount + y.amount)
    ensures forall tx: Entry :: TallyOf([tx], kind) == if tx.kind == kind then Tally(1, tx.amount) else Tally(0, 0)
  {
    if b == [] {
      assert a + b == a;
    } else {
      var n := |b| - 1;
      TalliesSplit(a, b[..n], kind);
      assert (a + b)[..|a + b| - 1] == a + b[..n];
    }
  }

  ghost predicate IsSummary(s: Summary, txs: seq<Entry>) {
    && s.count == |txs|
    && 0 <= s.totalIn && 0 <= s.totalOut
    && s.totalIn - s.totalOut == Sum(txs)
    && s.totalIn + s.totalOut == SumAbs(txs)
    && (forall k :: k in s.byType <==> exists i :: 0 <= i < |txs| && txs[i].kind == k)
    && (forall k :: k in s.byType ==> s.byType[k] == TallyOf(txs, k))
  }

  method GetSummary(ledger: seq<Entry>, user: UserId, from: Optional<int>, to: Optional<int>)
    returns (s: Summary)
    ensures IsSummary(s, Select(ledger, user, from, to))
  {
    hide IsSummary, Select, Sum, SumAbs, TallyOf;
    var txs := Select(ledger, user, from, to);
    s := Summary(0, 0, |txs|, map[]);
    var i := 0;
    EmptySummary();
    while i < |txs|
      invariant 0 <= i <= |txs|
      invariant s.count == |txs|
      invariant IsSummary(s.(count := i), txs[..i])
    {
      var tx := txs[i];
      ghost var before := s.(count := i);
      if tx.amount > 0 {
        s := s.(totalIn := s.totalIn + tx.amount);
      } else {
        s := s.(totalOut := s.totalOut + Abs(tx.amount));
      }
      if tx.kind !in s.byType {
        s := s.(byType := s.byType[tx.kind := Tally(0, 0)]);
      }
      var t := s.byType[tx.kind];
      s := s.(byType := s.byType[tx.kind := Tally(t.count + 1, t.amount + tx.amount)]);
      SummaryExtends(before, txs[..i], tx, s.(count := i + 1));
      assert txs[..i + 1] == txs[..i] + [tx];
      i := i + 1;
    }
    assert txs[..i] == txs;
  }

  lemma EmptySummary()
    ensures IsSummary(Summary(0, 0, 0, map[]), [])
  {
  }

  lemma SummaryExtends(s: Summary, txs: seq<Entry>, tx: Entry, s': Summary)
    requires IsSummary(s, txs)
    requires s'.count == s.count + 1
    requires s'.totalIn == s.totalIn + if tx.amount > 0 then tx.amount else 0
    requires s'.totalOut == s.totalOut + if tx.amount > 0 then 0 else Abs(tx.amount)
    requires var t := if tx.kind in s.byType then s.byType[tx.kind] else Tally(0, 0);
             s'.byType == s.byType[tx.kind := Tally(t.count + 1, t.amount + tx.amount)]
    ensures IsSummary(s', txs + [tx])
  {
    var longer := txs + [tx];
    assert longer[..|txs|] == txs;
    TallyOfAbsent(txs, tx.kind);
    forall k
      ensures k in s'.byType <==> exists i :: 0 <= i < |longer| && longer[i].kind == k
    {
      KindAppended(txs, tx, k);
    }
    forall k | k in s'.byType ensures s'.byType[k] == TallyOf(longer, k) { }
  }

  lemma KindAppended(txs: seq<Entry>, tx: Entry, k: TxType)
    ensures var longer := txs + [tx];
            (exists i :: 0 <= i < |longer| && longer[i].kind == k) <==>
            tx.kind == k || exists i :: 0 <= i < |txs| && txs[i].kind == k
  {
    var longer := txs + [tx];
    assert longer[|txs|] == tx;
    assert forall i :: 0 <= i < |txs| ==> longer[i] == txs[i];
  }

  lemma {:induction false} TallyOfAbsent(txs: seq<Entry>, kind: TxType)
    ensures (forall i :: 0 <= i < |txs| ==> txs[i].kind != kind) ==> TallyOf(txs, kind) == Tally(0, 0)
  {
    if txs != [] { TallyOfAbsent(txs[..|txs| - 1], kind); }
  }

  // ---- The per-type amounts add up

  function TotalByType(s: Summary, kinds: seq<TxType>): int {
    if kinds == [] then 0
    else (if kinds[0] in s.byType then s.byType[kinds[0]].amount else 0) + TotalByType(s, kinds[1..])
  }

  function TallyTotal(txs: seq<Entry>, kinds: seq<TxType>): int {
    if kinds == [] then 0 else TallyOf(txs, kinds[0]).amount + TallyTotal(txs, kinds[1..])
  }

  predicate Distinct(kinds: seq<TxType>) {
    forall i, j :: 0 <= i < j < |kinds| ==> kinds[i] != kinds[j]
  }

  lemma {:induction false} TallyTotalStep(txs: seq<Entry>, kinds: seq<TxType>)
    requires txs != [] && Distinct(kinds)
    ensures var n := |txs| - 1;
            TallyTotal(txs, kinds) ==
              TallyTotal(txs[..n], kinds) + if txs[n].kind in kinds then txs[n].amount else 0
  {
    if kinds != [] {
      TallyTotalStep(txs, kinds[1..]);
      assert kinds == [kinds[0]] + kinds[1..];
    }
  }

  lemma {:induction false} TallyTotalEmpty(kinds: seq<TxType>)
    ensures TallyTotal([], kinds) == 0
  {
    if kinds != [] { TallyTotalEmpty(kinds[1..]); }
  }

  lemma EveryTypeListed(k: TxType)
    ensures k in ALL_TYPES && Distinct(ALL_TYPES)
  {
  }

  lemma {:induction false} TallyTotalIsSum(txs: seq<Entry>)
    ensures TallyTotal(txs, ALL_TYPES) == Sum(txs)
  {
    if txs == [] {
      TallyTotalEmpty(ALL_TYPES);
    } else {
      EveryTypeListed(txs[|txs| - 1].kind);
      TallyTotalStep(txs, ALL_TYPES);
      TallyTotalIsSum(txs[..|txs| - 1]);
    }
  }

  lemma {:induction false} TotalByTypeIsTally(s: Summary, txs: seq<Entry>, kinds: seq<TxType>)
    requires IsSummary(s, txs)
    ensures TotalByType(s, kinds) == TallyTotal(txs, kinds)
  {
    if kinds != [] {
      TallyOfAbsent(txs, kinds[0]);
      TotalByTypeIsTally(s, txs, kinds[1..]);
    }
  }

  // ---- Reconciliation

  /** A user's balance as the ledger tells it. */
  function BalanceFrom(ledger: seq<Entry>, u: UserId): int {
    if ledger == [] then 0
    else
      var tx := ledger[|ledger| - 1];
      BalanceFrom(ledger[..|ledger| - 1], u) + if tx.userId == u then tx.amount else 0
  }

  /** The total of a user's withdrawals that are still pending. */
  function PendingFrom(ledger: seq<Entry>, u: UserId): int {
    if ledger == [] then 0
    else
      var tx := ledger[|ledger| - 1];
      PendingFrom(ledger[..|ledger| - 1], u) +
      if tx.userId == u && tx.kind == WITHDRAW && tx.status == PENDING then -tx.amount else 0
  }

  ghost predicate RowsReconcile(db: Db) {
    forall u: UserId :: RowOf(db, u).balance == BalanceFrom(db.ledger, u)
                     && RowOf(db, u).pending == PendingFrom(db.ledger, u)
  }

  ghost predicate EntriesReconcile(ledger: seq<Entry>) {
    forall i :: 0 <= i < |ledger| ==>
      ledger[i].balanceAfter == BalanceFrom(ledger[..i + 1], ledger[i].userId)
  }

  ghost predicate Reconciles(db: Db) {
    RowsReconcile(db) && EntriesReconcile(db.ledger)
  }

  lemma AppendOne(ledger: seq<Entry>, tx: Entry, u: UserId)
    ensures BalanceFrom(ledger + [tx], u) ==
            BalanceFrom(ledger, u) + if tx.userId == u then tx.amount else 0
    ensures PendingFrom(ledger + [tx], u) == PendingFrom(ledger, u) +
            if tx.userId == u && tx.kind == WITHDRAW && tx.status == PENDING then -tx.amount else 0
  {
    assert (ledger + [tx])[..|ledger|] == ledger;
  }

  lemma EntryAppended(ledger: seq<Entry>, tx: Entry)
    requires EntriesReconcile(ledger)
    requires tx.balanceAfter == BalanceFrom(ledger, tx.userId) + tx.amount
    ensures EntriesReconcile(ledger + [tx])
  {
    var longer := ledger + [tx];
    forall i | 0 <= i < |longer|
      ensures longer[i].balanceAfter == BalanceFrom(longer[..i + 1], longer[i].userId)
    {
      if i < |ledger| {
        assert longer[..i + 1] == ledger[..i + 1];
      } else {
        assert longer[..i + 1] == longer;
        AppendOne(ledger, tx, tx.userId);
      }
    }
  }

  /** One ledger row and one wallet row, written together. */
  lemma OneRowReconciles(db: Db, tx: Entry, row: Wallet, db': Db)
    requires Reconciles(db)
    requires db' == Db(db.wallets[tx.userId := row], db.ledger + [tx])
    requires row.balance == RowOf(db, tx.userId).balance + tx.amount == tx.balanceAfter
    requires row.pending == RowOf(db, tx.userId).pending +
               if tx.kind == WITHDRAW && tx.status == PENDING then -tx.amount else 0
    ensures Reconciles(db')
  {
    EntryAppended(db.ledger, tx);
    forall u: UserId
      ensures RowOf(db', u).balance == BalanceFrom(db'.ledger, u)
      ensures RowOf(db', u).pending == PendingFrom(db'.ledger, u)
    {
      AppendOne(db.ledger, tx, u);
      assert RowOf(db, u).balance == BalanceFrom(db.ledger, u);
    }
  }

  lemma TransferReconciles(op: Op, at: int, db: Db)
    requires Reconciles(db) && op.Transfer? && op.from != op.to
    requires Apply(op, at, db).outcome == Committed
    ensures Reconciles(Apply(op, at, db).db)
  {
    hide *;
    AppliedTransfer(op.from, op.to, op.amount, at, db);
    BothRowsReconcile(db, op.from, op.to, op.amount, at, Apply(op, at, db).db);
  }

  lemma BothRowsReconcile(db: Db, from: UserId, to: UserId, amount: int, at: int, db': Db)
    requires Reconciles(db) && from != to
    requires var f, t := RowOf(db, from), RowOf(db, to);
             var f', t' := f.(balance := f.balance - amount), t.(balance := t.balance + amount);
             db' == Db(db.wallets[from := f'][to := t'],
                       db.ledger + [Entry(from, TRANSFER_OUT, -amount, COMPLETED, f'.balance, at),
                                    Entry(to, TRANSFER_IN, amount, COMPLETED, t'.balance, at)])
    ensures Reconciles(db')
  {
    hide Reconciles;
    var f', t' := db'.wallets[from], db'.wallets[to];
    var sent := Entry(from, TRANSFER_OUT, -amount, COMPLETED, f'.balance, at);
    var received := Entry(to, TRANSFER_IN, amount, COMPLETED, t'.balance, at);
    var mid := Db(db.wallets[from := f'], db.ledger + [sent]);
    OneRowReconciles(db, sent, f', mid);
    assert RowOf(mid, to) == RowOf(db, to);
    assert db'.ledger == mid.ledger + [received];
    OneRowReconciles(mid, received, t', db');
  }

  lemma FreezeReconciles(op: Op, at: int, db: Db)
    requires Reconciles(db) && op.SetFrozen? && op.user in db.wallets
    ensures Reconciles(Apply(op, at, db).db)
  {
    var db' := Apply(op, at, db).db;
    assert db'.ledger == db.ledger;
    forall u: UserId
      ensures RowOf(db', u).balance == BalanceFrom(db'.ledger, u)
      ensures RowOf(db', u).pending == PendingFrom(db'.ledger, u)
    {
      assert RowOf(db, u).balance == BalanceFrom(db.ledger, u);
    }
  }

  /** Every operation keeps the ledger and the wallets in agreement. */
  lemma ApplyReconciles(op: Op, at: int, db: Db)
    requires Reconciles(db)
    ensures Reconciles(Apply(op, at, db).db)
  {
    if IsSelfTransfer(op) || SaveRows(op, Fetch(db, LockOrder(op))).Refused? {
    } else if op.Transfer? {
      TransferReconciles(op, at, db);
    } else if op.SetFrozen? {
      if op.user in db.wallets { FreezeReconciles(op, at, db); }
    } else {
      var saved := SaveRows(op, Fetch(db, LockOrder(op))).rows;
      var entries := LedgerRows(op, at, saved);
      var db' := Db(db.wallets[op.user := saved[op.user]], db.ledger + entries);
      assert db.wallets + saved == db'.wallets;
      OneRowReconciles(db, entries[0], saved[op.user], db');
    }
  }

  lemma {:induction false} SelectedSum(ledger: seq<Entry>, u: UserId)
    ensures Sum(Select(ledger, u, None, None)) == BalanceFrom(ledger, u)
  {
    if ledger != [] {
      var n := |ledger| - 1;
      SelectedSum(ledger[..n], u);
      var rest := Select(ledger[..n], u, None, None);
      assert (rest + [ledger[n]])[..|rest|] == rest;
      assert rest + [] == rest;
    }
  }

  /** In a database that reconciles, `getSummary` agrees with the stored balance, by
      direction and by type. */
  lemma SummaryAgreesWithWallet(db: Db, u: UserId, s: Summary)
    requires Reconciles(db)
    requires IsSummary(s, Select(db.ledger, u, None, None))
    ensures s.totalIn - s.totalOut == RowOf(db, u).balance
    ensures TotalByType(s, ALL_TYPES) == RowOf(db, u).balance
  {
    var txs := Select(db.ledger, u, None, None);
    SelectedSum(db.ledger, u);
    TotalByTypeIsTally(s, txs, ALL_TYPES);
    TallyTotalIsSum(txs);
    assert RowOf(db, u).balance == BalanceFrom(db.ledger, u);
  }
}

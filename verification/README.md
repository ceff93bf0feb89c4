# Verification of the Crab backend's stateful services

Dafny models of the parts of the Crab ride, food and wallet backend whose behaviour depends on
state, time or interleaving, with proofs of what holds after every run. `dafny verify
dfyconfig.toml` checks everything.

Each imperative service is a class whose methods follow the source statement by statement and are
proved equal to functions on values; runs of those functions (schedules of steps, or sequences of
timed events under a clock that never goes back) are what the theorems are about.

| file | models |
|---|---|
| `Wrappers.dfy`, `Timelines.dfy` | a value or nothing; events in time order |
| `Ordering.dfy` | string order and the two-element `sort` that fixes the lock order |
| `Wallets.dfy`, `WalletService.dfy` | wallet and ledger rows, and the operations run alone |
| `Ledger.dfy`, `Conservation.dfy` | `getSummary`, reconciliation, conservation |
| `WalletProtocol.dfy`, `WalletTheorems.dfy` | the same operations interleaved under row locks |
| `Freezing.dfy` | what freezing a wallet guarantees over interleaved runs |
| `WalletRaces.dfy` | when an interleaved operation can end otherwise than in the serial run |
| `CircuitBreaker.dfy`, `CircuitRuns.dfy` | the shared circuit breaker and its interleaved runs |
| `GatewayBreaker.dfy` | the gateway's circuit breaker |
| `RateLimit.dfy` | the Redis rate-limit guard |
| `Otp.dfy`, `Sessions.dfy`, `LoginLock.dfy` | one-time passwords, sessions, account lockout |
| `Ratings.dfy` | the rounded running mean of ratings |
| `Orders.dfy` | orders: placing, counters, life cycle |
| `Promos.dfy`, `PromoPrices.dfy` | promo codes and their limits; what a customer pays |
| `Matching.dfy`, `Exclusions.dfy` | driver ranking; what excluding drivers does to it |

## What the proofs found

- **The half-open probe can be doubled or lost.** The shared breaker clears its probe flag in a
  `finally` that waits for the fallback (`circuit-breaker.ts:111-119`). A run keeps one probe per
  half-open episode if and only if no such `finally` is late (`OneProbeExactly`).
  `TwoProbesInFlight` is a run with two probes at once, and `HungFallbackBlocks` shows that after a
  probe whose fallback never settles, the next half-open episode refuses every call until one
  admitted earlier completes or the breaker is reset. With fallbacks that do not suspend, one probe
  per episode always holds (`OneProbeWithoutSuspension`).
- **A first top-up can be refused.** Two first operations of one user race to insert the wallet
  row; the loser fails although no serial order refuses it (`FirstTopUpCanBeLost`). All operations
  on a set of users end as in the serial run, in every run, if and only if each of those users has
  a wallet beforehand (`AlwaysSerialExactly`); for given operations, if and only if no two of them
  insert the same wallet with one of the two committing (`RaceExactly`). Failing is the milder
  case: `manager.save` looks the row up by primary key before it writes, so a loser whose lookup
  comes after the other's commit overwrites the balance with 0 instead. The model has the insert
  without that lookup, and so only the refusal.
- **The stored rating mean freezes.** It is rounded to two decimals at each step, so it is off by up
  to 0.0025 per rating (`StoredMean`), a rating is absorbed exactly when it is closer to the mean
  than half a hundredth per rating (`AbsorbedExactly`), and after 800 ratings it never changes again
  (`MeanFreezes`, `FiveStarsForever`).
- **Promo amounts need whole orders.** For whole orders, discount and final amount add up exactly
  when the percentage does not exceed the order by half a unit, and a larger order never costs
  less. Over all orders the amounts add up exactly for percentages of at most fifty and discounts
  that cannot reach one half (`AlwaysAddsUpExactly`), and a larger order never costs less exactly
  when the discount cannot reach one half (`MonotoneFromZero`); `MonotoneExactly` says the same of
  orders from any minimum on. At 5 percent, 10.4 costs less than 9.9 (`FractionalOrderCostsLess`).
- **`credit` is the one wallet operation that can leave a debt,** exactly when its amount takes the
  balance below zero (`CreditNeedsItsPrecondition`).
- **A session id used for two users** is deleted with the first user's sessions
  (`ReusedIdIsDeleted`). Deleting one user's sessions never takes another's, in every run, if and
  only if no session id is ever used for two users (`OthersKeptExactly`).
- **A far-away losing driver matters:** excluding losers keeps the winner if and only if nobody
  who is kept overtakes it at the new largest distance (`WinnerStaysExactly`), which only a
  strictly nearer and worse rated driver can do (`NewWinnerIsNearer`) and which cannot happen while
  the largest distance stays (`ExcludingLosers`). No exclusion whatever unseats the winner if and
  only if nobody overtakes it at its own distance (`AlwaysStaysExactly`).
- **Freezing a user without a wallet freezes nothing:** the balance read that follows creates one
  that is not frozen (`Freeze`).
- **The rate limiter's true bound** in a half-open interval of one window is twice the limit less
  one; twice the limit is reached when both ends count (`AtMostTwiceTheLimit`, `BoundAttained`).

## Conventions

- Money is a whole number of the smallest unit, except in `Promos.dfy` and `PromoPrices.dfy`, where order
  values are exact reals because the rounding of a discount is the point.
- A Redis key with time to live t set at time s exists at times before s + t.
- A database clock and the application clock are the same clock.
- A decimal column reaches the service as a string, so a stored `maxDiscount` of zero is a cap of
  zero; `totalUsageLimit` is an integer column, where zero means no limit.
- An update that sets a column to `undefined` leaves the column alone, so a successful login does
  not clear `lockedUntil`, which is over by then anyway.
- Ledger order is the order of commits.

## Model

| member | source | states |
|---|---|---|
| Ordering.SortPair | apps/backend/payment-service/src/wallet/wallet.service.ts:139 | the two ids, the smaller first; distinct ids come out in strict order |
| Ordering.BeforeExactly | apps/backend/payment-service/src/wallet/wallet.service.ts:139 | the order of `sort`: the first place where two ids differ decides, a proper prefix first |
| Wallets.AppliedTopUp | apps/backend/payment-service/src/wallet/wallet.service.ts:49-72 | a top-up run alone: refused exactly when frozen, else the new balance and the ledger row |
| Wallets.AppliedDeduct | apps/backend/payment-service/src/wallet/wallet.service.ts:74-104 | a payment run alone: the frozen check, then the balance check, else the new balance and the ledger row |
| Wallets.AppliedCredit | apps/backend/payment-service/src/wallet/wallet.service.ts:106-130 | a credit run alone: never refused, the new balance and the ledger row of the given type |
| Wallets.AppliedWithdraw | apps/backend/payment-service/src/wallet/wallet.service.ts:181-203 | a withdrawal run alone: both checks, else the balance, the pending amount and the PENDING row |
| Wallets.AppliedSetFrozen | apps/backend/payment-service/src/wallet/wallet.service.ts:205-213 | a freeze run alone: the flag of an existing row |
| Wallets.AppliedTransfer | apps/backend/payment-service/src/wallet/wallet.service.ts:132-179 | a transfer run alone: which check fails first, or both rows and both ledger rows it leaves |
| Wallets.RejectedChangesNothing | apps/backend/payment-service/src/wallet/wallet.service.ts:49-203 | an operation that throws leaves wallets and ledger as they were |
| WalletServices.WalletService.GetOrCreateForUpdate | apps/backend/payment-service/src/wallet/wallet.service.ts:215-228 | returns the user's row, inserting an empty one if there is none, and touches no other row |
| WalletServices.WalletService.TopUp | apps/backend/payment-service/src/wallet/wallet.service.ts:49-72 | the statements leave the contents and give the result of a top-up run alone, rolling back when frozen |
| WalletServices.WalletService.Deduct | apps/backend/payment-service/src/wallet/wallet.service.ts:74-104 | the same for a payment, with the frozen and balance checks in order |
| WalletServices.WalletService.Credit | apps/backend/payment-service/src/wallet/wallet.service.ts:106-130 | the same for a credit, which checks nothing |
| WalletServices.WalletService.Withdraw | apps/backend/payment-service/src/wallet/wallet.service.ts:181-203 | the same for a withdrawal, which moves the amount to pending and writes a PENDING row |
| WalletServices.WalletService.Transfer | apps/backend/payment-service/src/wallet/wallet.service.ts:132-179 | the same for a transfer, refused to oneself |
| WalletServices.WalletService.LockBoth | apps/backend/payment-service/src/wallet/wallet.service.ts:137-143 | whichever id is locked first, each wallet ends up under its own name |
| WalletServices.WalletService.SetFrozen | apps/backend/payment-service/src/wallet/wallet.service.ts:206 | the update sets the flag on an existing row and changes nothing else |
| WalletServices.WalletService.GetBalance | apps/backend/payment-service/src/wallet/wallet.service.ts:29-47 | returns the user's row, inserting an empty one if there is none |
| WalletServices.WalletService.Freeze | apps/backend/payment-service/src/wallet/wallet.service.ts:205-213 | the wallet returned has the flag asked for exactly if it existed or the flag asked for is off; an absent one is created, not frozen |
| Ledger.SelectedExactly | apps/backend/payment-service/src/transactions/transactions.service.ts:78-80 | the rows selected, each as often as it occurs: the user's, created between two dates with both included, or all of them when a date is missing |
| Ledger.SumsSplit | apps/backend/payment-service/src/transactions/transactions.service.ts:87-90 | the sums add up over parts of the ledger, and one row counts its amount |
| Ledger.TalliesSplit | apps/backend/payment-service/src/transactions/transactions.service.ts:91-94 | so do the tallies by type |
| Ledger.GetSummary | apps/backend/payment-service/src/transactions/transactions.service.ts:77-97 | the loop's totals: in less out is the signed sum, in plus out the sum of magnitudes, and each type that occurs has its exact count and amount |
| Ledger.TallyTotalIsSum | apps/backend/payment-service/src/transactions/transactions.service.ts:91-94 | the amounts of the ten types add up to the sum over all rows |
| Ledger.ApplyReconciles | apps/backend/payment-service/src/wallet/wallet.service.ts:49-203 | every operation keeps balances, pending amounts and running balances in agreement with the ledger |
| Ledger.SummaryAgreesWithWallet | apps/backend/payment-service/src/transactions/transactions.service.ts:77-97 | in a reconciled database, in less out and the total by type both equal the stored balance |
| Conservation.ApplyConserves | apps/backend/payment-service/src/wallet/wallet.service.ts:49-203 | the sum of all wallets changes only by committed top-ups, credits and payments |
| Conservation.ApplyKeepsNoDebt | apps/backend/payment-service/src/wallet/wallet.service.ts:49-203 | with non-negative amounts, and payments of any amount, no balance or pending amount goes below zero |
| Conservation.CreditNeedsItsPrecondition | apps/backend/payment-service/src/wallet/wallet.service.ts:106-115 | a credit keeps every balance non-negative exactly when the resulting balance is |
| WalletProtocol.StepKeepsInv | apps/backend/payment-service/src/wallet/wallet.service.ts:49-228 | each statement of each operation keeps the lock, freshness and serial-history invariant |
| WalletProtocol.SerialEquivalence | apps/backend/payment-service/src/wallet/wallet.service.ts:49-228 | for every schedule, wallets and ledger are those of the committed operations run one at a time in commit order, each operation answers as in that run unless it lost the race to insert a wallet, and each finishes at most once |
| WalletTheorems.WaitsUpwards | apps/backend/payment-service/src/wallet/wallet.service.ts:137-141 | an operation that holds a lock and waits for another waits for a greater user id |
| WalletTheorems.DeadlockFreedom | apps/backend/payment-service/src/wallet/wallet.service.ts:132-179 | in every reachable state some operation is unfinished if and only if some operation can move |
| WalletTheorems.EveryRunFinishes | apps/backend/payment-service/src/wallet/wallet.service.ts:132-179 | a run has at most eight steps per operation, and one that cannot go on has finished them all |
| WalletTheorems.LedgerReconciliation | apps/backend/payment-service/src/transactions/transactions.service.ts:77-97 | in every committed state of every interleaved run the ledger accounts for every wallet and `getSummary` agrees with the balance |
| WalletTheorems.MoneyConserved | apps/backend/payment-service/src/wallet/wallet.service.ts:49-203 | over every interleaved run the total changes exactly by the net committed inflow |
| WalletTheorems.NeverOverdrawn | apps/backend/payment-service/src/wallet/wallet.service.ts:80-86 | no interleaving of operations with non-negative amounts, and payments of any amount, commits a negative balance |
| Freezing.FrozenApply | apps/backend/payment-service/src/wallet/wallet.service.ts:80-115 | on a frozen wallet every operation changes nothing but what a credit adds, or the flag |
| Freezing.FrozenRefuses | apps/backend/payment-service/src/wallet/wallet.service.ts:52-148 | top-ups, payments, withdrawals and transfers of a frozen wallet are refused as frozen, before their balance is looked at |
| Freezing.FrozenMovesOnlyByCredit | apps/backend/payment-service/src/wallet/wallet.service.ts:49-213 | in every interleaved run, between two committed states through which a wallet stays frozen, its balance grows by exactly the committed credits and its pending amount does not change |
| Freezing.FrozenUntilUnfrozen | apps/backend/payment-service/src/wallet/wallet.service.ts:205-213 | a frozen wallet stays frozen until an unfreeze commits |
| WalletRaces.NotSerialExactly | apps/backend/payment-service/src/wallet/wallet.service.ts:49-228 | in every run, all operations answer as in the serial run exactly when none lost a race to insert |
| WalletRaces.SerialEquivalenceWithWallets | apps/backend/payment-service/src/wallet/wallet.service.ts:215-228 | when the wallets exist beforehand, every operation without exception ends as in the serial run |
| WalletRaces.AlwaysSerialExactly | apps/backend/payment-service/src/wallet/wallet.service.ts:215-228 | operations on a set of users end as in the serial run, in every run, if and only if all of them have wallets beforehand |
| WalletRaces.RaceExactly | apps/backend/payment-service/src/wallet/wallet.service.ts:219-226 | for given operations, with transfers only between existing wallets: some schedule makes one end otherwise if and only if two of them insert one user's wallet and one of the two commits on a new wallet |
| WalletRaces.RaceIsLost | apps/backend/payment-service/src/wallet/wallet.service.ts:219-226 | any two such operations, whatever else runs, have a schedule in which one is refused |
| WalletRaces.FirstTopUpCanBeLost | apps/backend/payment-service/src/wallet/wallet.service.ts:219-226 | on any database, the second of two first top-ups can be refused though serially both commit |
| CircuitBreakers.CircuitBreaker.EvictExpired | apps/backend/shared/src/resilience/circuit-breaker.ts:188-193 | the shifting loop takes off records older than the cutoff, up to the first that is not |
| CircuitBreakers.CircuitBreaker.ShouldTrip | apps/backend/shared/src/resilience/circuit-breaker.ts:174-181 | true exactly when the evicted window has records, at least as many as the volume, and enough failures among them in percent, counted one by one |
| CircuitBreakers.CircuitBreaker.GetStats | apps/backend/shared/src/resilience/circuit-breaker.ts:72-85 | calls, failures and successes of the window after eviction, counted one by one, and the rate, 0 for an empty window |
| CircuitBreakers.CircuitBreaker.Begin | apps/backend/shared/src/resilience/circuit-breaker.ts:90-105 | who is admitted, the move to HALF_OPEN and the probe flag |
| CircuitBreakers.CircuitBreaker.Succeed | apps/backend/shared/src/resilience/circuit-breaker.ts:150-156 | records a success, or closes and clears when half open; lowers the flag |
| CircuitBreakers.CircuitBreaker.Fail | apps/backend/shared/src/resilience/circuit-breaker.ts:111-119 | records a failure; opens when half open or when the window meets both thresholds, setting the deadline; whether the `finally` is still to come |
| CircuitBreakers.CircuitBreaker.Reset | apps/backend/shared/src/resilience/circuit-breaker.ts:206-210 | closed, no records, flag down, deadline untouched |
| CircuitRuns.OneProbeExactly | apps/backend/shared/src/resilience/circuit-breaker.ts:90-120 | in every interleaving, flag up exactly in HALF_OPEN and one call per episode, throughout, if and only if no `finally` is late |
| CircuitRuns.OneProbeWithoutSuspension | apps/backend/shared/src/resilience/circuit-breaker.ts:90-120 | with fallbacks that do not suspend, every run has that property |
| CircuitRuns.TwoProbesInFlight | apps/backend/shared/src/resilience/circuit-breaker.ts:111-119 | a run with a suspending fallback that has two half-open probes in flight |
| CircuitRuns.HungFallbackBlocks | apps/backend/shared/src/resilience/circuit-breaker.ts:99-119 | while a failed probe's fallback hangs, the next half-open episode admits nobody until a call in flight completes, a fallback settles or the breaker is reset |
| CircuitRuns.DropIsFilter | apps/backend/shared/src/resilience/circuit-breaker.ts:188-193 | on records in time order, evicting a prefix is filtering by age |
| CircuitRuns.WindowRefinement | apps/backend/shared/src/resilience/circuit-breaker.ts:150-193 | in every run `records` is the completion log since the last clear filtered at the last eviction |
| CircuitRuns.StatsAreNaive | apps/backend/shared/src/resilience/circuit-breaker.ts:72-85 | after any run an eviction leaves as many completions, and as many failures, as the log has in the last window length |
| CircuitRuns.FailureOutcome | apps/backend/shared/src/resilience/circuit-breaker.ts:158-181 | what a failed completion does, read off the filtered log |
| CircuitRuns.TripsExactly | apps/backend/shared/src/resilience/circuit-breaker.ts:158-181 | in every run CLOSED becomes OPEN exactly at a failed completion when the log entries no older than the window are at least the volume, and at least one, and the failures among them at least the percentage |
| CircuitRuns.Transitions | apps/backend/shared/src/resilience/circuit-breaker.ts:90-210 | every state change if and only if its cause; the deadline is set on opening and by nothing else |
| CircuitRuns.CooldownHolds | apps/backend/shared/src/resilience/circuit-breaker.ts:90-105 | before its deadline an open breaker stays open with the same deadline and admits nobody, whatever completes late |
| CircuitRuns.CooldownIsExact | apps/backend/shared/src/resilience/circuit-breaker.ts:90-105 | after opening, whatever the fallbacks do, nobody is admitted during the cooldown, and the next call exactly when it has passed and the probe flag is down |
| CircuitRuns.CooldownWithoutSuspension | apps/backend/shared/src/resilience/circuit-breaker.ts:90-105 | with fallbacks that do not suspend, exactly when it has passed |
| GatewayBreakers.CircuitBreaker.Begin | apps/backend/gateway/src/common/circuit-breaker/circuit-breaker.ts:33-41 | refused exactly while open before the deadline; otherwise half opens with no successes |
| GatewayBreakers.CircuitBreaker.OnSuccess | apps/backend/gateway/src/common/circuit-breaker/circuit-breaker.ts:62-71 | clears the failures and, half open, counts towards closing |
| GatewayBreakers.CircuitBreaker.OnFailure | apps/backend/gateway/src/common/circuit-breaker/circuit-breaker.ts:73-85 | counts the failure and opens when half open or at the threshold |
| GatewayBreakers.LogInvariant | apps/backend/gateway/src/common/circuit-breaker/circuit-breaker.ts:33-85 | in every interleaving `failures` is the failing suffix of the log, below the threshold when CLOSED, and HALF_OPEN has seen only its counted successes |
| GatewayBreakers.Transitions | apps/backend/gateway/src/common/circuit-breaker/circuit-breaker.ts:33-85 | every state change, and every move of the deadline, on opening or by a late failure, if and only if its cause in the log |
| GatewayBreakers.CooldownHolds | apps/backend/gateway/src/common/circuit-breaker/circuit-breaker.ts:34-37 | before its deadline an open breaker admits nobody, and the deadline never moves earlier |
| RateLimits.RedisRateLimitGuard.Eval | apps/backend/shared/src/resilience/redis-rate-limit.guard.ts:56-63 | the script's count and remaining time, and the key it leaves |
| RateLimits.RedisRateLimitGuard.CanActivate | apps/backend/shared/src/resilience/redis-rate-limit.guard.ts:86-120 | allowed exactly up to the limit, and always without a key or without Redis; a refusal names the least whole number of seconds after which the window is over |
| RateLimits.WindowsAdmitTheirFirst | apps/backend/shared/src/resilience/redis-rate-limit.guard.ts:56-63 | for every arrival sequence each window of each key admits exactly its first `limit` requests |
| RateLimits.IntervalBound | apps/backend/shared/src/resilience/redis-rate-limit.guard.ts:86-120 | the interval bound from any reachable set of counters |
| RateLimits.AtMostTwiceTheLimit | apps/backend/shared/src/resilience/redis-rate-limit.guard.ts:86-120 | any interval of one window length admits at most 2 * limit requests of a key, and 2 * limit - 1 when one end is excluded |
| RateLimits.BoundAttained | apps/backend/shared/src/resilience/redis-rate-limit.guard.ts:56-63 | an arrival sequence that gets 2 * limit requests through, for every limit and window |
| Otps.FindNewest | apps/backend/auth-service/src/auth/services/otp.service.ts:61-69 | the last matching row, or that there is none |
| Otps.OtpService.Generate | apps/backend/auth-service/src/auth/services/otp.service.ts:19-58 | issues a code, good for five minutes, exactly when the phone and purpose have none younger than a minute |
| Otps.OtpService.Verify | apps/backend/auth-service/src/auth/services/otp.service.ts:60-92 | each of the four outcomes if and only if its cause on the latest usable row, and that row's new columns |
| Otps.OtpService.Cleanup | apps/backend/auth-service/src/auth/services/otp.service.ts:94-101 | keeps exactly the rows that expired no more than an hour ago |
| Otps.AcceptedWasGenerated | apps/backend/auth-service/src/auth/services/otp.service.ts:60-92 | in every run only a code generated for this phone and purpose less than five minutes before is accepted |
| Otps.IssuedIsAccepted | apps/backend/auth-service/src/auth/services/otp.service.ts:60-92 | an issued code is accepted within five minutes and after at most four wrong tries, unless a new one is requested, whatever else happens; another code is not |
| Otps.StepKeepsInv | apps/backend/auth-service/src/auth/services/otp.service.ts:19-101 | each call keeps codes a minute apart and the budget of unused attempts |
| Otps.AtMostFiveUnexpired | apps/backend/auth-service/src/auth/services/otp.service.ts:6-8 | at no moment of any run does a phone and purpose have more than five unexpired codes |
| Otps.GuessingBound | apps/backend/auth-service/src/auth/services/otp.service.ts:60-92 | over every run at most five comparisons and one acceptance per code, and at most five comparisons per elapsed minute, plus five |
| Otps.AttemptsCapped | apps/backend/auth-service/src/auth/services/otp.service.ts:75-79 | no row is ever compared more than five times |
| Otps.NewestIsCompared | apps/backend/auth-service/src/auth/services/otp.service.ts:61-69 | the row that is checked is the latest created of the usable ones |
| Sessions.SessionService.CreateSession | apps/backend/auth-service/src/auth/services/session.service.ts:37-45 | the session key, the index entry and both times to live |
| Sessions.SessionService.DeleteSession | apps/backend/auth-service/src/auth/services/session.service.ts:54-68 | the session is live at no time, no live index of its user has it if it was live, and everything else stays |
| Sessions.DeletedIsGone | apps/backend/auth-service/src/auth/services/session.service.ts:54-68 | the same at the end of every run, where a live session is always in its user's index before |
| Sessions.SessionService.DeleteAllUserSessions | apps/backend/auth-service/src/auth/services/session.service.ts:70-80 | the loop deletes exactly the indexed ids, then the index |
| Sessions.IndexAgreement | apps/backend/auth-service/src/auth/services/session.service.ts:37-80 | in every run each live session is in its user's live index, which outlives it |
| Sessions.NoSessionSurvives | apps/backend/auth-service/src/auth/services/session.service.ts:70-80 | after any run and `deleteAllUserSessions(u)` no live session of u remains |
| Sessions.OthersSurvive | apps/backend/auth-service/src/auth/services/session.service.ts:70-80 | with ids that keep their user, exactly u's sessions are deleted |
| Sessions.ReusedIdIsDeleted | apps/backend/auth-service/src/auth/services/session.service.ts:70-80 | a session id given to a second user is deleted with the first user's sessions |
| Sessions.OthersKeptExactly | apps/backend/auth-service/src/auth/services/session.service.ts:37-80 | every run that creates only given pairs of id and user leaves other users' sessions alone, if and only if no id is paired with two users |
| LoginLocks.AuthService.Login | apps/backend/auth-service/src/auth/auth.service.ts:84-116 | each outcome if and only if its cause, in order, and the counter and lock it leaves: half an hour from the fifth failure on |
| LoginLocks.AuthService.CheckAccountLock | apps/backend/auth-service/src/auth/auth.service.ts:235-245 | positive exactly when locked, and then the minutes left rounded up |
| LoginLocks.AuthService.HandleFailedLogin | apps/backend/auth-service/src/auth/auth.service.ts:247-262 | one more failure, and a lock from the fifth on |
| LoginLocks.LockoutSpacing | apps/backend/auth-service/src/auth/auth.service.ts:84-116 | in every run the counter is the failures since the last success, which are half an hour apart from the fifth on, hence at most 5 + T / 30 min of them |
| LoginLocks.FailuresAccumulate | apps/backend/auth-service/src/auth/auth.service.ts:247-262 | without a success no failure is forgotten |
| LoginLocks.LockHolds | apps/backend/auth-service/src/auth/auth.service.ts:235-245 | while the lock lasts even the right password changes nothing |
| Ratings.RatingsService.Create | apps/backend/rating-service/src/ratings/ratings.service.ts:20-55 | the three outcomes, the new log and aggregate, and that aggregates stay those of the log |
| Ratings.CreateKeepsMatching | apps/backend/rating-service/src/ratings/ratings.service.ts:26-54 | adding a rating keeps every target's aggregate that of its own scores, one rating per reference |
| Ratings.NextExactly | apps/backend/rating-service/src/ratings/ratings.service.ts:40-49 | the new mean is the nearest hundredth, halves up, and one counter goes up |
| Ratings.CountsMatchLog | apps/backend/rating-service/src/ratings/ratings.service.ts:40-49 | the five counts match the log and sum to `totalRatings` |
| Ratings.StoredMean | apps/backend/rating-service/src/ratings/ratings.service.ts:44-47 | the stored mean is in [1, 5] and within 0.0025 * (n + 1) of the true mean |
| Ratings.AbsorbedExactly | apps/backend/rating-service/src/ratings/ratings.service.ts:45-46 | exactly when a rating leaves the stored mean unchanged |
| Ratings.MeanFreezes | apps/backend/rating-service/src/ratings/ratings.service.ts:45-46 | from 800 ratings on no rating changes the stored mean |
| Ratings.FiveStarsForever | apps/backend/rating-service/src/ratings/ratings.service.ts:45-46 | 800 fives and any number of ones are stored as 5.00 |
| Orders.OrdersService.Create | apps/backend/food-service/src/orders/orders.service.ts:27-98 | each refusal and its cause, or the order with its prices, sums and counters, the menu otherwise unchanged; all counters stay those of the orders |
| Orders.OrdersService.PriceItems | apps/backend/food-service/src/orders/orders.service.ts:39-58 | the loop prices every line at the discounted price if there is one, adds up exactly, or stops at the first bad line |
| Orders.OrdersService.CountSold | apps/backend/food-service/src/orders/orders.service.ts:90-92 | each item's counter grows by the quantities ordered of it, repeated lines included |
| Orders.OrdersService.UpdateStatus | apps/backend/food-service/src/orders/orders.service.ts:187-222 | changes the order exactly when the status may follow, and which column gets the time; paid only when delivered, stamps as the stages reached and in order |
| Orders.TransitionTable | apps/backend/food-service/src/orders/orders.service.ts:177-185 | one stage further along, or cancelled before it is picked up |
| Orders.LinesTotalSplits | apps/backend/food-service/src/orders/orders.service.ts:39-58 | the subtotal adds up over parts of an order, and one line counts price times quantity |
| Orders.OrderLife | apps/backend/food-service/src/orders/orders.service.ts:177-222 | whatever is requested, at most five changes are accepted, none twice, and every stamp is that of its accepted change |
| Promos.PromoService.Validate | apps/backend/payment-service/src/promo/promo.service.ts:59-109 | applies if and only if all seven checks pass, each refusal if and only if its check is the first to fail, and the discount of each kind to the nearest whole amount |
| Promos.PromoService.Amounts | apps/backend/payment-service/src/promo/promo.service.ts:92-108 | the discount of each kind of promo, rounded, and the rest of the order |
| Promos.PromoService.Apply | apps/backend/payment-service/src/promo/promo.service.ts:111-127 | answers likewise and records one more use; always, the counter counts the rows, neither limit is exceeded, and every row was made in its promo's period |
| Promos.PromoService.Deactivate | apps/backend/payment-service/src/promo/promo.service.ts:129-132 | sets the flag and changes nothing else; an inactive code is refused |
| Promos.UsesByCounted | apps/backend/payment-service/src/promo/promo.service.ts:82-84 | the user's uses are the number of rows of that user and code |
| PromoPrices.AddsUpExactly | apps/backend/payment-service/src/promo/promo.service.ts:104-108 | the two amounts add up to the order exactly when the rounded discount does not exceed it |
| PromoPrices.WholeOrdersAddUp | apps/backend/payment-service/src/promo/promo.service.ts:92-108 | for whole orders exactly when a percentage stays below the order plus a half |
| PromoPrices.HonestPromosAddUp | apps/backend/payment-service/src/promo/promo.service.ts:92-108 | hence always for percentages up to a hundred |
| PromoPrices.FinalAmountMonotone | apps/backend/payment-service/src/promo/promo.service.ts:92-108 | a larger whole order never has a smaller final amount, capped or not |
| PromoPrices.AlwaysAddsUpExactly | apps/backend/payment-service/src/promo/promo.service.ts:92-108 | which promos add up for all orders, fractions included |
| PromoPrices.FractionalOrderDoesNotAddUp | apps/backend/payment-service/src/promo/promo.service.ts:104-108 | a fractional order whose amounts do not add up |
| PromoPrices.MonotoneExactly | apps/backend/payment-service/src/promo/promo.service.ts:92-108 | from any minimum order on, no larger order costs less if and only if the first jump of the rounded discount is out of reach or already covered |
| PromoPrices.MonotoneFromZero | apps/backend/payment-service/src/promo/promo.service.ts:92-108 | over all orders, if and only if the discount can never reach one half |
| PromoPrices.FractionalOrderCostsLess | apps/backend/payment-service/src/promo/promo.service.ts:104-108 | two fractional orders of which the larger costs less |
| Matching.SortIsStable | apps/backend/ride-service/src/matching/matching.service.ts:121 | the sort orders by score and keeps equal scores in place |
| Matching.ScoreExactly | apps/backend/ride-service/src/matching/matching.service.ts:61-66 | the score in exact arithmetic; between 0 and 1, and 1 only for five stars on the spot |
| Matching.RankedAreTheBest | apps/backend/ride-service/src/matching/matching.service.ts:80-123 | the ranking has `limit` drivers or all, by descending score, ties in place, and nobody left out scores more |
| Matching.BestHeadsRanking | apps/backend/ride-service/src/matching/matching.service.ts:29-123 | with nobody excluded the best driver is the head of the ranking |
| Matching.WinnerNotDominated | apps/backend/ride-service/src/matching/matching.service.ts:61-78 | no eligible driver is as near and as well rated as the winner and better in one |
| Matching.LoopsAgree | apps/backend/ride-service/src/matching/matching.service.ts:57-74 | the scoring loop of the one query and that of the other (lines 104-119) give the same scores |
| Exclusions.ExcludingLosers | apps/backend/ride-service/src/matching/matching.service.ts:40-78 | excluding losers keeps the winner if the largest distance stays |
| Exclusions.OvertakesByScore | apps/backend/ride-service/src/matching/matching.service.ts:57-66 | one driver outscores another exactly when it is nearer by more than its rating is worse, at the weights and the largest distance |
| Exclusions.WinnerStaysExactly | apps/backend/ride-service/src/matching/matching.service.ts:40-78 | after any exclusion that spares it, a driver is the best one if and only if nobody kept overtakes it at the new largest distance, ties to the earlier |
| Exclusions.NewWinnerIsNearer | apps/backend/ride-service/src/matching/matching.service.ts:40-78 | whoever takes the old winner's place after an exclusion is strictly nearer and worse rated |
| Exclusions.AlwaysStaysExactly | apps/backend/ride-service/src/matching/matching.service.ts:40-78 | no exclusion of others unseats the winner if and only if nobody overtakes it at the winner's own distance |
| Exclusions.FarLoserMatters | apps/backend/ride-service/src/matching/matching.service.ts:57-66 | an instance: excluding a far loser changes the winner |

## Left out

- Balance reads among the interleaved operations: `getOrCreate` inserts without a lock, and is modelled only alone, as is the read that follows a freeze.
- The ORM's habit of looking a row up again before saving it: an insert of a row that exists by then is modelled as failing on the primary key.
- RaceExactly: transfers that would insert a wallet; whether such a transfer commits depends on the balance that the other operations leave its sender.
- Column precision, and binary floating point: amounts are exact; `toFixed(2)` and `Math.round` round exact values.
- Ledger timestamps as an order: `createdAt` is given to each operation and only used to filter.
- LogInvariant: assumes a positive `failureThreshold`; with one of zero or less the initial state already breaks the claim about CLOSED.
- Timers: a call that times out is a failed completion; that the wrapped function may go on running is not modelled.
- The values and errors that the wrapped functions and fallbacks return.
- Rate limiter: deriving the actor and the bucket, and a script that counts but whose reply is lost.
- AtMostTwiceTheLimit: assumes a positive limit and a positive window; with a limit of zero or less nothing is ever admitted.
- One-time passwords: the random choice of the code (a parameter) and its delivery.
- Sessions: the token blacklist and the login-attempt counters kept in Redis.
- Login: the audit rows, tokens and `lastLoginAt`; password reset and change, which also write the failure counter.
- Interleavings inside one `verify`, `login`, `apply`, `updateStatus`, rating `create`, order `create` or session deletion: these hold no row lock between reading and writing, so each is one atomic step here.
- Ratings: listing, flagging and hiding.
- Orders: drivers, notes, addresses, statistics, and edits of the menu between orders.
- Promos: creating and listing codes, and editing them but for deactivation; `firstRideOnly`, which `validate` does not look at either.
- Matching: the distance computation and the search radius; distances arrive rounded.
- Ride life cycle, device cap, chat, notifications, fares, proxying and observability: plumbing, or no invariant that every step keeps.

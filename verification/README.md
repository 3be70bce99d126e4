# Verification of the auction system's money path and its infrastructure

A model in Dafny 4.11 of the parts of the auction system in which something can go
wrong half-way: the payment saga, the wallets, the bidding flow, and the small
protocols around them. Each module has the operations as methods of a class, proved
equal to functions; lemmas that say, for any state whatever, when an operation
succeeds and what it changes (`...Exactly`, `...ExactlyWhen`); and theorems about all
runs of those functions.

| file | models |
|---|---|
| Sagas.dfy | the saga orchestrator, over any type of world |
| Tables.dfy, Sums.dfy, Optional.dfy | the payment tables with their constraints; sums over sets of keys; options |
| Settlement.dfy | the settlement saga: charge, credit, release of the losers' holds, events, and the compensations |
| SettlementOutcomes.dfy | each step of that saga on any tables, and what a run that succeeds has done |
| SettlementLedger.dfy | what the audit ledger says about a run of that saga |
| SettlementExamples.dfy | tables on which that saga does not do what its documentation says |
| Wallets.dfy | the wallet service, with the idempotency check a separate earlier step than the transaction |
| AuctionSettle.dfy | SettleAuction of the payment service |
| Bidding.dfy | bids, scheduler, ended event and user wallets of one auction |
| Redactor.dfy | redaction of secrets in log messages |
| RateLimiter.dfy | the in-memory sliding-window limiter against the two-counter formula of the Redis limiter |
| CircuitBreaker.dfy | the circuit breaker with calls in flight |
| FencingLock.dfy | the Redis lock with fencing tokens |
| Migrations.dfy | the migration runner, over any type of schema |
| KeyRotation.dfy | both signing-key managers |
| Outbox.dfy | the outbox publisher |

Money is an integer number of cents, time an integer, identifiers are integers. A
database transaction, a Redis command or script, and a section under a mutex are one
step each. Whether a call to another system succeeds is a parameter, so every theorem
holds for every pattern of failures unless it names one. Clocks and random values are
parameters too.

## Where the code and its documentation differ

The promises are those of `.kiro/specs/production-readiness/design.md`; the model
follows the code, and each lemma below says exactly how far the promise holds.

- Property 2 (redaction leaves no secret substring) fails when a secret shares four
  characters with the placeholder or straddles its end: `Redactor.RedactionIsCompleteExactlyWhen`,
  `Redactor.PlaceholderLeaks`, `Redactor.StraddlingSecretLeaks`; for a secret of four characters
  `Redactor.ShortSecretLeaksExactlyWhen` says of every message whether it leaks.
- Property 3 (tokens rise with each acquisition) fails for overlapping attempts:
  `FencingLock.OvertakenExactlyWhen`, `FencingLock.OverlapCanLowerTokens`.
- Property 5 (one probe at a time; open until the timeout) fails after a straggling call reopens
  the breaker: a second probe can run (`CircuitBreaker.ProbesAreBounded`,
  `CircuitBreaker.OrphanAllowsSecondProbe`), and the probe left over can close the open breaker
  before its reset timeout (`CircuitBreaker.StaysOpenExactlyWhen`, `CircuitBreaker.LeftOverProbeClosesEarly`).
- Property 11 (the previous window is weighted by what remains of it) fails for a key that
  stayed away for more than a window: an older window is counted in its place, so that the
  in-memory limiter may refuse more: `RateLimiter.StoredCounts`, `RateLimiter.StaleCountRefuses`.
- Property 18 (a hold and its bid persist together) holds for an attempt if and only if the bid can
  be saved just in case the hold can be taken: `Bidding.HoldAndBidTogetherExactlyWhen`. Both ways
  to fail occur: `Bidding.HoldWithoutBid` and, with every call succeeding, `Bidding.BidWithoutHold`.
- Property 19 (compensation restores the previous state) fails for a release_loser_holds that
  fails half-way: `Settlement.RestoredUnlessHalfReleased`, and for any amounts
  `SettlementExamples.HalfReleasedIsNotRestored`. It also takes back holds that had been released
  before the run: `Settlement.RestoredExactlyWhen`.
- Property 20 (an audit entry for every balance change) does not hold for compensations, which
  write none (`Settlement.CompensationsAreUndocumented`): the ledger tells the truth about a run of
  the saga if and only if no compensation was committed
  (`SettlementLedger.LedgerTellsTheTruthExactlyWhen`). Nor does it hold for an entry whose key is
  already there (`Wallets.CommitKeepsReplayIff`).
- Property 21 (one balance change per key) fails for overlapping requests
  (`Wallets.OverlappingDepositsBothCount`) and for a repeated request whose key look-up fails
  (`Wallets.FailedLookupCountsTwice`). `Wallets.SharedKeyExactlyWhen` says when two commits share a
  key, and `Wallets.RepeatChangesExactlyWhen` when a repeated request changes anything. A repeated
  request is refused rather than answered with the first result: `Wallets.ServedOnce`.
- Conservation of money in the settlement saga fails when the reversal of the credit is clamped at
  zero: in some run if and only if the tables are not `SellerSafe`
  (`Settlement.MoneyIsConservedExactlyWhen`). How much money appears is in
  `Settlement.ClampCreatesMoney`; `SettlementExamples.ClampAddsWhatWasSpent` gives tables for it.

## Model

| member | source | states |
|---|---|---|
| `Sagas.Orchestrator.Execute` | services/payment-service/internal/saga/orchestrator.go:43-161 | Returns the report, final world, calls and step records of the reference run; nothing runs when the saga or a step record cannot be created |
| `Sagas.Orchestrator.RunSteps` | services/payment-service/internal/saga/orchestrator.go:86-156 | Runs steps in order up to the first failing one; records say completed, failed or pending accordingly |
| `Sagas.Orchestrator.Compensate` | services/payment-service/internal/saga/orchestrator.go:187-243 | Compensates the steps before the failed one downwards, goes on after a failing compensation, and records each outcome |
| `Sagas.CallsOfARun` | services/payment-service/internal/saga/orchestrator.go:86-243 | For every definition and outcome: each step once in order up to the first failure, then exactly the completed steps that have a compensation, once each, in reverse |
| `Sagas.UpdatedAt` | services/payment-service/internal/saga/orchestrator.go:195-235 | What the record of any step says after the compensations, in terms of the world its compensation met |
| `Sagas.ReportExactlyWhen` | services/payment-service/internal/saga/orchestrator.go:86-243 | For every definition: success is reported if and only if every step succeeds in the world the one before left; a failed step n, and a failed compensation, if and only if n is the first step to fail and some compensation before it fails in the world it meets; otherwise a failed step n alone |
| `Sagas.ForwardExactly` | services/payment-service/internal/saga/orchestrator.go:86-123 | How many steps succeed, and the world they leave |
| `Sagas.UndoneInTurn` | services/payment-service/internal/saga/orchestrator.go:201-240 | Each compensation meets the world that the one of the next step left, failing or not, and the last leaves the final world |
| `Sagas.SagaRule` | services/payment-service/internal/saga/orchestrator.go:43-243 | Step-wise invariants, one while doing and one while undoing, carry over to the end of the whole run |
| `Sagas.AllOrNothing` | services/payment-service/internal/saga/orchestrator.go:43-243 | If each compensation inverts its step, a saga ends in the full fold of its steps or where it started |
| `Settlement.SettlementSteps.ChargeWinner` | services/payment-service/internal/saga/settlement.go:134-206 | New tables and result are those of the charge: winner's held balance and hold status change, with an audit entry, or nothing does |
| `Settlement.SettlementSteps.ReverseCharge` | services/payment-service/internal/saga/settlement.go:209-262 | Adds the amount back to the winner's held balance and makes the hold active, or changes nothing |
| `Settlement.SettlementSteps.CreditSeller` | services/payment-service/internal/saga/settlement.go:265-324 | Adds the amount to the seller's available balance with an audit entry, or changes nothing |
| `Settlement.SettlementSteps.ReverseCredit` | services/payment-service/internal/saga/settlement.go:327-374 | Takes the amount back from the seller, clamped at zero, or changes nothing |
| `Settlement.SettlementSteps.ReleaseLoserHolds` | services/payment-service/internal/saga/settlement.go:377-396 | Releases hold after hold and stops at the first failure, keeping the earlier releases |
| `Settlement.SettlementSteps.ReleaseOneHold` | services/payment-service/internal/saga/settlement.go:398-467 | Moves one active hold from held to available; a hold that is not active counts as done |
| `Settlement.SettlementSteps.ReverseRelease` | services/payment-service/internal/saga/settlement.go:470-493 | Tries to take back every loser hold and reports success in any case |
| `Settlement.SettlementSteps.ReHold` | services/payment-service/internal/saga/settlement.go:495-548 | Moves one released hold back from available to held, and nothing when it is not released or not covered |
| `Settlement.SettlementSteps.PublishSettlementEvents` | services/payment-service/internal/saga/settlement.go:551-612 | Puts both events into the outbox, each at most once per auction, in one transaction |
| `SettlementOutcomes.ChargesExactlyWhen` | services/payment-service/internal/saga/settlement.go:134-206 | On any tables: the charge succeeds if and only if nothing fails, the winner has a wallet, and its held balance covers the price; then only that balance, the hold and one audit entry change, otherwise nothing |
| `SettlementOutcomes.ChargeIsReversedExactlyWhen` | services/payment-service/internal/saga/settlement.go:209-262 | The same for the reversal of the charge, which adds no entry |
| `SettlementOutcomes.CreditsExactlyWhen` | services/payment-service/internal/saga/settlement.go:265-324 | On any tables: the credit succeeds if and only if nothing fails and the seller has a wallet; then only its available balance and one audit entry change, otherwise nothing |
| `SettlementOutcomes.CreditIsReversedExactlyWhen` | services/payment-service/internal/saga/settlement.go:327-374 | The same for the reversal of the credit: the amount, or what is left of it, is taken |
| `SettlementOutcomes.ReleasesExactlyWhen` | services/payment-service/internal/saga/settlement.go:398-467 | On any tables: a release succeeds if and only if nothing fails, the hold exists, and it is not active or its wallet covers it; only in the last case anything changes |
| `SettlementOutcomes.StopsAtFirstFailure` | services/payment-service/internal/saga/settlement.go:377-396 | The releases go on, each on what the one before left, up to the first that fails |
| `SettlementOutcomes.TakenBackExactlyWhen` | services/payment-service/internal/saga/settlement.go:495-548 | On any tables: a hold is taken back if and only if nothing fails, it is released, and its money is available; otherwise nothing changes |
| `SettlementOutcomes.TriesThemAll` | services/payment-service/internal/saga/settlement.go:470-493 | Every loser hold is tried in turn, whatever became of those before |
| `SettlementOutcomes.PublishesExactlyWhen` | services/payment-service/internal/saga/settlement.go:551-612 | Publishing succeeds unless the transaction fails, and adds exactly those of the two events whose key is not out yet |
| `SettlementOutcomes.SuccessMovesThePrice` | services/payment-service/internal/saga/settlement.go:32-62 | On any tables, consistent or not: a run that reports success has taken the price from the held balance of the winner and given it to the seller, released exactly the active loser holds, charged the winner's, and put both events out |
| `SettlementOutcomes.FailedCreditIsReversed` | services/payment-service/internal/saga/settlement.go:209-324 | A run whose seller cannot be paid reports step 1 as failed and leaves the wallets as they were |
| `Settlement.Settle` | services/payment-service/internal/saga/settlement.go:32-62 | The saga run by the orchestrator on SellerSafe tables: its report, and what the tables are afterwards, for every combination of faults |
| `Settlement.MovedIsCovered` | services/payment-service/internal/saga/settlement.go:152-170 | Winner's charge and any set of loser holds together fit into the held balances, also when users share wallets |
| `Settlement.ReverseCreditTracks` | services/payment-service/internal/saga/settlement.go:345-355 | While the credited amount is still available, its reversal takes back exactly that amount and keeps all balances explained |
| `Settlement.CreditCovered` | services/payment-service/internal/saga/settlement.go:345-355 | For SellerSafe tables the credited amount is still available at any point of an isolated run after the credit, so that the clamp never fires |
| `Settlement.StepIsGood` | services/payment-service/internal/saga/settlement.go:134-612 | Each forward step, failing or not, keeps all balances and holds explained by what the run has committed, and every snapshot safe |
| `Settlement.UndoIsGood` | services/payment-service/internal/saga/settlement.go:209-548 | So does each compensation, failing or not, of SellerSafe tables |
| `Settlement.MoneyIsConserved` | services/payment-service/internal/saga/settlement.go:134-612 | For SellerSafe tables, after every committed transaction, forward, compensating or inside the loser loops: the wallets plus the money in flight equal the start and no balance is negative |
| `Settlement.MoneyIsConservedExactlyWhen` | services/payment-service/internal/saga/settlement.go:345-355 | For any settleable tables that is so in every run if and only if the tables are SellerSafe: no set of loser holds, kept released, leaves the seller short of the credit by at most its amount |
| `Settlement.ClampCreatesMoney` | services/payment-service/internal/saga/settlement.go:345-355 | Otherwise, for each such set, the run in which just the publication and the re-holds of that set fail ends with exactly the missing amount more than there was |
| `SettlementExamples.ClampAddsWhatWasSpent` | services/payment-service/internal/saga/settlement.go:345-355 | Tables for it, for any price: a seller who spent the money of an earlier released loser hold; only the publication fails, and what was spent is there once more |
| `Settlement.AllOrRestored` | services/payment-service/internal/saga/settlement.go:134-612 | For SellerSafe tables the report is exactly the one the faults determine (which step failed, and whether a reversal failed too). A run completes exactly when no step fails, with price moved, losers released and events out; otherwise no event is out, charge and credit are undone unless their own reversal fails, and, if the money of earlier releases is unspent, the failing releases and re-holds determine which loser holds stay released |
| `Settlement.RestoredExactlyWhen` | services/payment-service/internal/saga/orchestrator.go:187-243 | A failed run whose charge and credit are reversed has restored wallets and holds if and only if the loser holds released in the end, as the failing releases and re-holds determine them, are those released before |
| `Settlement.RestoredUnlessHalfReleased` | services/payment-service/internal/saga/orchestrator.go:201 | With no loser hold released before the run: restored if and only if release_loser_holds did not fail after its first hold |
| `SettlementExamples.HalfReleasedIsNotRestored` | services/payment-service/internal/saga/settlement.go:377-396 | Tables with two losers, for any amounts: the second release fails, every compensation succeeds, and the first hold stays released |
| `Settlement.MoneyAfterARun` | services/payment-service/internal/saga/settlement.go:209-374 | Exactly which failed reversal makes the total differ after a run, and by how much |
| `Settlement.ForwardIsDocumented` | services/payment-service/internal/saga/settlement.go:134-467 | Charge, credit and each release change one wallet and carry an entry with its balance before and after under a key of the auction, which is written if and only if its key is new |
| `Settlement.CompensationsAreUndocumented` | services/payment-service/internal/saga/settlement.go:209-548 | No compensation writes an entry, though each changes a balance (the reversed credit exactly when there is something to take) |
| `SettlementLedger.LedgerTellsTheTruthExactlyWhen` | services/payment-service/internal/saga/settlement.go:134-548 | From a ledger without the saga's keys, for every settleable table and all faults: the entries a run adds replay to its final wallets if and only if no compensating transaction was committed |
| `Settlement.EventsAreOut` | services/payment-service/internal/saga/settlement.go:551-612 | The outbox gains exactly those of the two events of the auction that it did not have |
| `Wallets.Service.CheckIdempotencyKey` | services/payment-service/internal/wallet/pg_repository.go:76-84 | Says whether the ledger has an entry with the key |
| `Wallets.Service.HoldFunds` | services/payment-service/internal/wallet/wallet.go:97-213 | Database and reply are those of the key check followed by the hold transaction, with every error branch |
| `Wallets.Service.ReleaseFunds` | services/payment-service/internal/wallet/wallet.go:231-322 | The same for releasing an active hold |
| `Wallets.Service.ChargeFunds` | services/payment-service/internal/wallet/wallet.go:341-431 | The same for charging an active hold |
| `Wallets.Service.CreditFunds` | services/payment-service/internal/wallet/wallet.go:450-528 | The same for a credit |
| `Wallets.Service.DepositFunds` | services/payment-service/internal/wallet/wallet.go:546-618 | The same for a deposit |
| `Wallets.ApplyHasEffect` | services/payment-service/internal/wallet/wallet.go:97-618 | Each committed operation changes exactly one wallet by its operation's effect, documents the balance before and after, and takes a hold out of active only if it was active, all as requested |
| `Wallets.ApplyKeepsConsistent` | services/payment-service/internal/wallet/wallet.go:97-618 | Each operation keeps: balances non-negative, held balance = sum of the wallet's active holds |
| `Wallets.ConstraintsNeverFire` | services/payment-service/migrations/001_init.sql:10-38 | From a consistent state no CHECK or UNIQUE constraint stops an operation with a non-negative amount |
| `Wallets.CommitsExactlyWhen` | services/payment-service/internal/wallet/wallet.go:97-618 | On consistent tables a request is granted if and only if its hold is active, or its user has a wallet that covers it and the hold id is new; and which reason a rejection has |
| `Wallets.RepliesExactly` | services/payment-service/internal/wallet/wallet.go:97-618 | When a request is granted, refused as duplicate, or denied, with the balance before and after in a grant; a denied one changes nothing |
| `Wallets.Interleavings` | services/payment-service/internal/wallet/wallet.go:97-618 | In every interleaving of checks and transactions, with any keys and faults: tables consistent, each hold leaves active at most once, wallets = initial ones replayed with the committed operations, each entry documenting before and after |
| `Wallets.MoneyOfAWallet` | services/payment-service/internal/wallet/wallet.go:97-618 | In every interleaving a wallet's money is the initial money plus committed deposits and credits less committed charges |
| `Wallets.LedgerReplay` | services/payment-service/internal/wallet/pg_repository.go:87-105 | When equal keys do not overlap and no look-up fails: whatever the ledger had, the entries added to it replay, in commit order, to every balance, each documenting before and after, and keys stay different |
| `Wallets.KeysStayUnique` | services/payment-service/internal/wallet/pg_repository.go:87-105 | In every interleaving no key is in the ledger twice |
| `Wallets.CommitKeepsReplayIff` | services/payment-service/internal/wallet/pg_repository.go:87-105 | A commit keeps ledger and wallets in step if and only if its key is new to the ledger or no money moves |
| `Wallets.OverlappingDepositsBothCount` | services/payment-service/internal/wallet/wallet.go:546-618 | Two overlapping deposits with one key both change the balance, and one is missing in the ledger, for every such pair |
| `Wallets.SharedKeyExactlyWhen` | services/payment-service/internal/wallet/wallet.go:97-618 | In every run: when a request comes to its transaction, another commit has used its key if and only if its look-up failed to see that, or the commit came after the look-up |
| `Wallets.ServeIsCheckThenTransact` | services/payment-service/internal/wallet/wallet.go:97-618 | A request served alone is its check followed at once by its transaction |
| `Wallets.ServedOnce` | services/payment-service/internal/wallet/wallet.go:97-618 | Serving a granted request again with its key, and a look-up that succeeds, changes nothing and is refused as duplicate |
| `Wallets.RepeatChangesExactlyWhen` | services/payment-service/internal/wallet/wallet.go:97-618 | Serving it again changes something if and only if the look-up fails, the transaction does not, and it is a credit or deposit of some money or a hold that is covered once more; never a release or charge |
| `Wallets.FailedLookupCountsTwice` | services/payment-service/internal/wallet/wallet.go:546-618 | Two deposits with one key, one after the other, both count when the second look-up fails, and one is missing in the ledger |
| `AuctionSettle.WalletService.SettleAuction` | services/payment-service/internal/service/wallet_service.go:271-301 | Result and new state are those of handling the listed holds in turn, for any failing look-ups and transactions |
| `AuctionSettle.WalletService.Release` | services/payment-service/internal/service/wallet_service.go:190-268 | Refund of one hold under its key: skipped when the key is found, made when the look-up fails, an error when the hold is not active |
| `AuctionSettle.WalletService.Charge` | services/payment-service/internal/service/wallet_service.go:303-353 | Charge of one hold, trusting the row read before |
| `AuctionSettle.TurnIsMade` | services/payment-service/internal/service/wallet_service.go:190-353 | From consistent tables no constraint stops a refund or a charge; what each turn of the loop does to hold, wallet and refund keys, also when the key look-up fails |
| `AuctionSettle.SettlementIsAccounted` | services/payment-service/internal/service/wallet_service.go:271-353 | Whatever fails, look-ups or transactions: tables stay consistent, other rows unchanged, each available balance grows by the holds released, total money falls by exactly the holds charged, and the outbox announces exactly these holds, once each |
| `AuctionSettle.EveryHoldEndsAsStated` | services/payment-service/internal/service/wallet_service.go:271-301 | Success is reported exactly when no charge fails; then the status of every hold, and which refund keys are used, as a function of the start |
| `AuctionSettle.TransactionsAreBooked` | services/payment-service/internal/service/wallet_service.go:190-353 | At the end of any settlement, whatever fails: old rows of the transactions table are kept, and exactly the keys of the holds charged or released are new, each with wallet, kind, amount and id of the first such hold |
| `AuctionSettle.RefundsExactlyWhen` | services/payment-service/internal/service/wallet_service.go:190-268 | On any tables: when a refund is made, and all it changes |
| `AuctionSettle.ChargesExactlyWhen` | services/payment-service/internal/service/wallet_service.go:303-353 | On any tables: when a charge is made, and all it changes |
| `AuctionSettle.ClosesExactlyWhen` | services/payment-service/internal/service/wallet_service.go:271-301 | No hold of the auction stays active if and only if no transaction failed and each loser row has a failing look-up, or is the first of its bidder and has an unused refund key |
| `AuctionSettle.ClosesInAnyOrderExactlyWhen` | services/payment-service/internal/service/wallet_service.go:271-301 | With look-ups that succeed, whatever the order of the rows: if and only if no transaction failed, each loser had one active hold and its refund key was unused |
| `AuctionSettle.ChangesNothingExactlyWhen` | services/payment-service/internal/service/wallet_service.go:271-301 | A call succeeds and changes nothing if and only if every hold left is a loser's whose transaction fails, or whose refund key is used and seen to be |
| `AuctionSettle.SecondCallChangesNothingExactlyWhen` | services/payment-service/internal/service/wallet_service.go:271-301 | After a call without failing transactions a second call changes nothing if and only if no hold left over has a failing look-up and a transaction that succeeds |
| `Bidding.AuctionHouse.Place` | services/bid-service/internal/service/bid_service.go:79-226 | New state and outcome of one bid attempt, for every combination of failing calls |
| `Bidding.RefusesExactlyWhen` | services/bid-service/internal/service/bid_service.go:79-155 | Which check refuses a bid, and when it is accepted, in terms of auction, cache, largest bid and failing calls |
| `Bidding.LeavesExactly` | services/bid-service/internal/service/bid_service.go:133-168 | An accepted bid is appended, becomes the cached highest bid if and only if the cache is written, and the price if and only if the price is; nothing else of the auction changes, and a refused one changes nothing |
| `Bidding.HoldsAndReleases` | services/bid-service/internal/service/bid_service.go:123-207 | A bid that is let through has its amount held; once it is saved, the amount known as the highest goes back to the bidder of the largest bid; both as far as calls and balances allow, and both recorded |
| `Bidding.AuctionHouse.Adjust` | services/user-service/internal/repository/wallet_repository.go:111-136 | Balance of an existing wallet changed by delta unless it would become negative |
| `Bidding.AuctionHouse.End` | services/auction-service/internal/scheduler/scheduler.go:101-146 | State after the scheduler's choice of a winner, and the event, if any |
| `Bidding.AuctionHouse.HandleAuctionEnded` | services/user-service/internal/consumer/auction_consumer.go:83-124 | Balances after settling the winner and crediting the seller |
| `Bidding.HandlesExactly` | services/user-service/internal/consumer/auction_consumer.go:83-124 | The winner's hold is settled by a recorded move of nothing, then the seller credited; no winner, no move |
| `Bidding.GuardedExactly` | services/bid-service/internal/service/bid_service.go:97-121 | Every acceptable bid beats the leading one if and only if the price or the cache knows it or the cache is empty |
| `Bidding.StepKeepsGuardExactly` | services/bid-service/internal/service/bid_service.go:157-168 | The guard is lost exactly by a bid that neither the cache nor the price learns of while an older bid is cached |
| `Bidding.BidsIncrease` | services/bid-service/internal/service/bid_service.go:97-168 | Over every run, with any cache expiry and read errors, bids strictly increase as long as each accepted bid gets into cache or price |
| `Bidding.StepKeepsAccountsExactly` | services/bid-service/internal/service/bid_service.go:123-207 | For every pattern of failing calls, a step keeps only the leader's money out if and only if a bid saved was paid for and the bidder before got back exactly its bid, and a bid not saved took no money |
| `Bidding.HoldAndBidTogetherExactlyWhen` | services/bid-service/internal/service/bid_service.go:123-155 | For every attempt that passes the floor, hold taken and bid saved agree if and only if the save succeeds just when the hold call does and the balance covers the amount; any other attempt changes nothing |
| `Bidding.HoldWithoutBid` | services/bid-service/internal/service/bid_service.go:123-155 | An attempt that takes the money and leaves no bid |
| `Bidding.BidWithoutHold` | services/bid-service/internal/service/bid_service.go:123-133 | An attempt, with every call succeeding, that leaves a bid and takes no money |
| `Bidding.RunIsExplained` | services/user-service/internal/repository/wallet_repository.go:111-136 | Over every run, whatever fails, the recorded transactions lead step by step from the first balances to the last, each with the balance before and after |
| `Bidding.OnlyLeaderPaysAlways` | services/bid-service/internal/service/bid_service.go:123-207 | Over every run in which that is so, and each bidder has a wallet, each user's balance is the initial one, less the leading bid for the leader |
| `Bidding.WinnerIsHighest` | services/auction-service/internal/scheduler/scheduler.go:101-146 | A winner exactly when the leading bid meets the reserve and can be read; it is a highest bid, named by auction and event; when it cannot be written the auction stays as it is |
| `Bidding.EndConservesMoneyExactlyWhen` | services/user-service/internal/consumer/auction_consumer.go:83-124 | For every outcome of the scheduler's queries, of settle and of credit: after the ended event the total is back at the start if and only if there were no bids, or the reserve was met and the winner read, written and credited; then the seller has what the winner lost |
| `Bidding.AuctionConservesMoney` | services/auction-service/internal/scheduler/scheduler.go:101-146 | From a new auction to its end: balances plus leading bid constant throughout the bidding, and the end as above, for every outcome of the calls at the end |
| `Redactor.RedactSecret` | pkg/logger/logger.go:343-355 | Output is the input with all substrings of four or more characters of the secret replaced in turn, longest first |
| `Redactor.Redact` | pkg/logger/logger.go:326-340 | The same for all secrets, short ones skipped |
| `Redactor.ReplacedPieceByPiece` | pkg/logger/logger.go:350-351 | For patterns of any length: the message is cut at the occurrences of the pattern, from left to right, and put together with the placeholder in their place |
| `Redactor.PiecesAreUnique` | pkg/logger/logger.go:350-351 | There is just one way to cut it so |
| `Redactor.RestIsKept` | pkg/logger/logger.go:326-355 | A message with one secret in it, and no piece of a secret elsewhere, is logged with the placeholder in place of the secret and all the rest kept, for secrets clear of the placeholder |
| `Redactor.RedactionIsComplete` | pkg/logger/logger.go:326-355 | If no four-character piece of a secret occurs in, or straddles an end of, the placeholder, the output has no substring of four or more characters of any secret |
| `Redactor.NeverRecreated` | pkg/logger/logger.go:350-351 | A replacement never recreates a piece that is not there |
| `Redactor.CleanInputIsKept` | pkg/logger/logger.go:350-351 | Messages without such substrings are unchanged, for all secrets |
| `Redactor.RedactionIsIdempotent` | pkg/logger/logger.go:326-355 | Redacting twice is redacting once, for those secrets |
| `Redactor.RedactionIsCompleteExactlyWhen` | pkg/logger/logger.go:326-355 | For secrets that straddle no end of the placeholder: the output is clean if and only if the input was or no secret shares four characters with the placeholder |
| `Redactor.BracketFreeStraddlesNothing` | pkg/logger/logger.go:351 | Secrets without brackets are such secrets |
| `Redactor.BracketFreeRedactionExactlyWhen` | pkg/logger/logger.go:326-355 | For secrets without brackets: clean output if and only if the input was clean or no secret shares four characters with REDACTED |
| `Redactor.StraddlingSecretLeaks` | pkg/logger/logger.go:351 | A secret and a message for which redaction itself puts the secret together again |
| `Redactor.ShortSecretLeaksExactlyWhen` | pkg/logger/logger.go:343-355 | For every secret of four characters, straddling or not, and every message: the output is clean if and only if no placeholder contains the secret or completes it with the text before or after it |
| `RateLimiter.InMemoryLimiter.Allow` | pkg/ratelimit/memory.go:69-118 | Keeps the invariant; admits only what the Redis formula admits on the same admission log, and exactly that when the previous count is not stale; retry-after ends with the window |
| `RateLimiter.AllowsExactlyWhen` | pkg/ratelimit/memory.go:69-132 | On any maps: a request is admitted if and only if c W + p (W - e) < limit W for the stored counts; how the entries of its key move, and that no other entry changes |
| `RateLimiter.InMemoryLimiter.RotateWindows` | pkg/ratelimit/memory.go:121-132 | A window that has passed becomes the previous one |
| `RateLimiter.InMemoryLimiter.Cleanup` | pkg/ratelimit/memory.go:232-269 | Removes exactly the entries older than two windows, at any moment, and keeps the invariant |
| `RateLimiter.KeepsExactlyRecent` | pkg/ratelimit/memory.go:255-266 | An entry is kept, unchanged, if and only if it is not older than two windows |
| `RateLimiter.StoredCounts` | pkg/ratelimit/memory.go:80-89 | Current count exact; previous count at least the true one, with equality if and only if it is not stale |
| `RateLimiter.StaleCountRefuses` | pkg/ratelimit/memory.go:80-97 | With limit 1, a request at the start of a window two or more windows after an admitted one is refused although the Redis formula admits it |
| `RateLimiter.AllowIsSound` | pkg/ratelimit/memory.go:69-118 | One Allow refines the Redis check on the admission log |
| `RateLimiter.EffectiveBelow` | pkg/ratelimit/sliding_window.go:84-92 | The weighted count is below the limit if and only if c W + p (W - e) < limit W |
| `RateLimiter.AdmissionBound` | pkg/ratelimit/memory.go:91-97 | (c - 1) W + p (W - e) < limit W at every admission of every run |
| `RateLimiter.AlignedWindowBound` | pkg/ratelimit/memory.go:91-118 | No aligned window ever admits more than the limit |
| `RateLimiter.SpanBound` | pkg/ratelimit/memory.go:91-118 | Any span of one window's length ending with an admission has fewer than limit + 1 + p e / W admissions, and at most twice the limit |
| `RateLimiter.SpanCanExceedLimit` | pkg/ratelimit/memory.go:91-118 | A log with three admissions within one window's length at limit 2 |
| `CircuitBreaker.CircuitBreaker.Start` | pkg/circuitbreaker/circuitbreaker.go:249-296 | State and verdict of Execute's first lock section |
| `CircuitBreaker.CircuitBreaker.FinishClosed` | pkg/circuitbreaker/circuitbreaker.go:299-326 | State after a call admitted while closed ends |
| `CircuitBreaker.CircuitBreaker.FinishProbe` | pkg/circuitbreaker/circuitbreaker.go:329-363 | State after a probe ends |
| `CircuitBreaker.CircuitBreaker.ChangeState` | pkg/circuitbreaker/circuitbreaker.go:366-392 | Transitions, with the resets on opening |
| `CircuitBreaker.CircuitBreaker.GetState` | pkg/circuitbreaker/circuitbreaker.go:462-472 | The state, after a due change to half-open |
| `CircuitBreaker.BeginsExactly` | pkg/circuitbreaker/circuitbreaker.go:249-296 | For any state: when a call is run as a normal one or as a probe, when it is rejected and why, and what changes |
| `CircuitBreaker.ClosedEndsExactly` | pkg/circuitbreaker/circuitbreaker.go:299-326 | For any state: what the end of a call admitted while closed changes, and when it opens the breaker |
| `CircuitBreaker.ProbeEndsExactly` | pkg/circuitbreaker/circuitbreaker.go:329-363 | For any state: what the end of a probe changes, when it opens and when it closes the breaker |
| `CircuitBreaker.PollsExactly` | pkg/circuitbreaker/circuitbreaker.go:462-472 | Asking for the state makes a due change to half-open and nothing else |
| `CircuitBreaker.StepKeepsInvariant` | pkg/circuitbreaker/circuitbreaker.go:249-472 | Each step keeps: closed implies fails below threshold, successes below threshold, probeInFlight implies half-open and a running probe; unaccounted probes change exactly as the step says |
| `CircuitBreaker.ProbesAreBounded` | pkg/circuitbreaker/circuitbreaker.go:249-472 | Over every interleaving: running probes <= (probeInFlight ? 1 : 0) + reopenings by stragglers; with none of those, exactly probeInFlight |
| `CircuitBreaker.TotalsAreExact` | pkg/circuitbreaker/circuitbreaker.go:249-363 | Over every run the totals count every request and every failed call |
| `CircuitBreaker.OrphanAllowsSecondProbe` | pkg/circuitbreaker/circuitbreaker.go:312-379 | Whenever a straggler reopens the half-open breaker over a probe, a second probe can run one timeout later |
| `CircuitBreaker.StaysOpenExactlyWhen` | pkg/circuitbreaker/circuitbreaker.go:259-363 | Until the reset timeout an open breaker stays open, and admits nothing, if and only if the probes left over do not bring successThreshold successes in a row; stragglers have no influence |
| `CircuitBreaker.LeftOverProbeClosesEarly` | pkg/circuitbreaker/circuitbreaker.go:337-363 | A run from a new breaker in which a left-over probe closes the open breaker one tick after it opened |
| `CircuitBreaker.StaysClosedExactlyWhen` | pkg/circuitbreaker/circuitbreaker.go:305-363 | In every run a closed breaker stays closed if and only if no left-over probe fails and failureThreshold failures in a row do not come about |
| `CircuitBreaker.OpensExactlyAfterStreak` | pkg/circuitbreaker/circuitbreaker.go:305-325 | In every run of a new breaker: it stays closed if and only if no failureThreshold ends of its calls fail in a row |
| `CircuitBreaker.StaysHalfOpenExactlyWhen` | pkg/circuitbreaker/circuitbreaker.go:299-363 | In every run a half-open breaker stays so if and only if no probe fails, fewer than successThreshold succeed, and the stragglers do not fail failureThreshold times in a row |
| `CircuitBreaker.LeavesHalfOpen` | pkg/circuitbreaker/circuitbreaker.go:299-392 | A failure opens it, with timeout and successes starting again; only the last of successThreshold successful probes closes it |
| `CircuitBreaker.ClosesExactlyAfterProbes` | pkg/circuitbreaker/circuitbreaker.go:349-358 | In every run that has stayed half-open, the next step closes the breaker if and only if it ends the successThreshold-th successful probe |
| `CircuitBreaker.FailedProbeReopens` | pkg/circuitbreaker/circuitbreaker.go:337-347 | In every run one failed probe, after any number of successes and whatever stragglers do, restarts timeout and success count; then nothing is admitted until the timeout, and a probe after it |
| `FencingLock.RedisLockManager.DrawToken` | pkg/lock/lock.go:149-155 | The token is the next value of the counter |
| `FencingLock.RedisLockManager.TrySet` | pkg/lock/lock.go:157-185 | Grants the lock exactly when no entry is live |
| `FencingLock.RedisLockManager.ReleaseLock` | pkg/lock/lock.go:189-235 | Deletes the entry exactly for the matching owner and token; otherwise mismatch or not held, and no change |
| `FencingLock.RedisLockManager.ExtendLock` | pkg/lock/lock.go:239-296 | Restarts the time to live exactly for the matching owner and token |
| `FencingLock.SetsExactly` | pkg/lock/lock.go:157-185 | The key is taken if and only if nobody has it, for the owner and token of the attempt, and expires exactly its time to live later |
| `FencingLock.RepliesExactly` | pkg/lock/lock.go:189-296 | Which of the three replies a release or an extension gets |
| `FencingLock.ReleasesAndExtendsExactly` | pkg/lock/lock.go:189-296 | Answered with success, a release frees the key and an extension makes it last exactly the time to live from now; otherwise nothing changes |
| `FencingLock.StepKeepsInvariant` | pkg/lock/lock.go:149-296 | Each step of any client keeps: a held lock is backed by the live entry for at least its lease, and all tokens are different |
| `FencingLock.MutualExclusion` | pkg/lock/lock.go:149-296 | In every run no two locks are at the same time unreleased and within AcquiredAt + TTL |
| `FencingLock.TokensAreUnique` | pkg/lock/lock.go:149-185 | In every run no two granted locks share a token |
| `FencingLock.LaterDrawsAreLarger` | pkg/lock/lock.go:149-185 | An attempt whose INCR follows a grant gets a larger token, whatever happens in between |
| `FencingLock.OvertakenExactlyWhen` | pkg/lock/lock.go:149-185 | A lock granted while an attempt is under way has the larger token if and only if its own attempt drew later |
| `FencingLock.OverlapCanLowerTokens` | pkg/lock/lock.go:149-185 | From any state without a live entry two overlapping attempts can be granted in decreasing token order |
| `FencingLock.StaysUntil` | pkg/lock/lock.go:149-296 | A lock stays in the store for its time to live, whatever other clients do, unless its holder releases it |
| `FencingLock.ExtensionHolds` | pkg/lock/lock.go:239-296 | After an extension that means the full time to live from then on |
| `FencingLock.LostForGood` | pkg/lock/lock.go:189-296 | A lock once lost never again has an entry it could delete or extend |
| `Migrations.SortSorts` | pkg/migrate/migrate.go:90-95 | The runner's list is the given one in ascending order of versions |
| `Migrations.Runner.MigrateUp` | pkg/migrate/migrate.go:122-221 | Result, schema and tracking table are those of the reference run |
| `Migrations.Runner.RollbackApplied` | pkg/migrate/migrate.go:361-415 | Undoes this run's migrations last first, skipping what cannot be undone |
| `Migrations.Runner.MigrateDown` | pkg/migrate/migrate.go:224-316 | Rolls back the given number of versions, largest first, stopping at the first error |
| `Migrations.UpStopsExactly` | pkg/migrate/migrate.go:122-221 | For any migrations: Up applies the pending ones up to the first that does not go through, says why, and leaves exactly the schema and records of that point, rolled back or not |
| `Migrations.RollsBackExactly` | pkg/migrate/migrate.go:361-415 | For any migrations: which versions a rollback undoes, in the schema each meets, and which records it removes |
| `Migrations.DownStopsExactly` | pkg/migrate/migrate.go:224-316 | For any migrations: how far Down gets, why it stops, and the schema and records it leaves |
| `Migrations.FindsExactly` | pkg/migrate/migrate.go:361-415 | The migration found for a version is the last one with it, if there is one |
| `Migrations.RollbackRestores` | pkg/migrate/migrate.go:361-415 | Rolling back what succeeded restores the schema and removes exactly those records |
| `Migrations.UpIsAtomicExactlyWhen` | pkg/migrate/migrate.go:122-221 | Stopped by a failing migration or the deadline, Up leaves the schema as it was; clean versions are as before if and only if it rolled back or had applied nothing |
| `Migrations.SecondUpAppliesNothing` | pkg/migrate/migrate.go:150-217 | A finished Up has applied exactly the pending versions in order; another Up changes nothing, under any deadline |
| `Migrations.DownUndoesUpExactlyWhen` | pkg/migrate/migrate.go:224-316 | Up and then Down by as many steps restores the clean versions if and only if the new versions exceed all applied before; then the schema too |
| `KeyRotation.KeyManager.RotateKey` | pkg/serviceauth/serviceauth.go:111-128 | The current key becomes the previous one |
| `KeyRotation.KeyManager.ValidationKeys` | pkg/serviceauth/serviceauth.go:139-153 | The current key, and the previous one within the overlap |
| `KeyRotation.KeyManager.IssueToken` | pkg/serviceauth/serviceauth.go:184-210 | A token of the current key with whole-second dates |
| `KeyRotation.SignsExactly` | pkg/serviceauth/serviceauth.go:184-210 | A token parses with its own key only, from the whole second it was asked for in until the one its lifetime ends in |
| `KeyRotation.KeyManager.ValidateToken` | pkg/serviceauth/serviceauth.go:264-289 | Valid exactly when one of the validation keys parses the token |
| `KeyRotation.RotationScheduler.OnTick` | pkg/serviceauth/rotation.go:125-176 | Rotates exactly when the next rotation is due, and schedules the one after |
| `KeyRotation.NoGapWhenSpaced` | pkg/serviceauth/serviceauth.go:111-153 | With rotations at least a gap apart, and tokens living no longer than gap and overlap, every token validates until it expires |
| `KeyRotation.NoGapExactlyWhen` | pkg/serviceauth/rotation.go:125-176 | No run of the scheduler leaves a gap if and only if the token lifetime is covered by the overlap and by the rotation interval |
| `KeyRotation.RetiredForGood` | pkg/serviceauth/serviceauth.go:111-153 | A key two rotations old, or rotated out longer ago than the overlap, never validates again in any run |
| `KeyRotation.ValidatesExactlyUnretired` | pkg/serviceauth/serviceauth.go:139-153 | An unexpired token of a used key validates if and only if the key is not retired |
| `KeyRotation.KeyRotationManager.Rotate` | pkg/auth/key_rotation.go:171-193 | New current key, old one kept as previous, time of rotation |
| `KeyRotation.KeyRotationManager.VerifyToken` | pkg/auth/key_rotation.go:219-256 | Verdict by current key, then previous key within the grace period, with the two kinds of error |
| `KeyRotation.VerifiesExactly` | pkg/auth/key_rotation.go:219-256 | Each of the four verdicts, by which key parses the token and when the last rotation was |
| `KeyRotation.GraceIsOverlap` | pkg/auth/key_rotation.go:171-256 | Accepts exactly what the key manager validates with the grace period as overlap; grace-period-expired exactly for the previous key after it |
| `Outbox.Publisher.GetUnpublishedEvents` | services/payment-service/internal/outbox/repository.go:56-84 | The first events, in order of creation, that are unpublished and have retries left |
| `Outbox.Publisher.PollAndPublish` | services/payment-service/internal/outbox/publisher.go:95-187 | State after one poll, for every outcome of publishing and of the writes that follow, and the counts of events published and failed |
| `Outbox.HandlesExactly` | services/payment-service/internal/outbox/publisher.go:120-187 | What each outcome of publishing and of the write that follows does to log and rows |
| `Outbox.HandlesInTurn` | services/payment-service/internal/outbox/publisher.go:95-165 | A batch is handled event after event, whatever becomes of each, up to its end or a cancellation |
| `Outbox.FetchesExactly` | services/payment-service/internal/outbox/repository.go:56-84 | A batch has eligible events only, in order, and leaves one out for the limit alone, after all it has |
| `Outbox.EveryRunKeepsInvariant` | services/payment-service/internal/outbox/publisher.go:95-187 | In every interleaving of any number of pollers: marked as published implies in the log; retries <= cap + pollers - 1 |
| `Outbox.SinglePollerRespectsCap` | services/payment-service/internal/outbox/publisher.go:95-187 | With one poller retries never exceed the cap |
| `Outbox.SecondPollerExceedsCap` | services/payment-service/internal/outbox/repository.go:56-84 | With two pollers they can |
| `Outbox.PollingDrains` | services/payment-service/internal/outbox/publisher.go:95-187 | When the writes to the rows succeed, as many polls as retries are left bring every event to published or exhausted, whatever Kafka does |
| `Outbox.PublishesInOrder` | services/payment-service/internal/outbox/publisher.go:95-165 | Without failures, for any batch sizes: log plus what is left is always the same list, and in the end the log is the unpublished events in order of creation, each once |

## Left out

- Bidding.AuctionConservesMoney: assumes that the bids are saved and paid for, and that no stale highest bid is read, because otherwise the total does change, as StepKeepsAccountsExactly says.
- Settlement.MoneyIsConserved: is about a run that no other transaction on the same wallets comes between; the code takes no lock across the transactions of a saga.
- Settlement.AllOrRestored: leaves out tables that are not SellerSafe, of which ClampCreatesMoney and LedgerTellsTheTruthExactlyWhen speak.
- Settlement.RestoredExactlyWhen: assumes that the money of earlier releases is unspent, because otherwise which re-holds are refused depends on their order.
- Redactor.RedactionIsCompleteExactlyWhen: assumes secrets that do not straddle an end of the placeholder; ShortSecretLeaksExactlyWhen does without for secrets of four characters, for longer ones completeness also depends on the order in which their pieces are replaced.
- Migrations.UpIsAtomicExactlyWhen: assumes migrations that fail cleanly, have an inverse Down, and tracking rows that can be removed during a rollback; what happens without is in the functions, not in this lemma.
- Outbox.PublishesInOrder: is about one poller and takes the order of creation to be total; between events of the same instant the database may choose.
- Step timeouts of the saga: a step whose goroutine commits after its timeout was reported, and the loss of writes to the saga's own tables in the middle of a run.
- Running the settlement saga twice for one auction, and settlement data that cannot be parsed.
- Rounding of floating-point amounts and weights; wrap-around of machine integers.
- The text of the compensation error, the dead-letter queue, metrics, logs, traces and caches of responses.
- HoldBalance and Deposit of the older payment service, and Deposit and the transaction history of the user wallets: only easier members.
- The race of two requests on the counters of the Redis limiter, whose check and increment are separate commands; blocking of addresses after violations.
- Classification of errors by the circuit breaker: whether a call counts as failed is a parameter.
- The retry loop of lock acquisition (each retry is another attempt in the model), rounding of lock lifetimes to milliseconds, and clocks that differ between machines.
- The lock around a bid outliving its five seconds, wallet integration switched off, delivery of the ended event twice, and ties between equal bids, of which the earliest is taken.
- Suppression of repeated log entries.
- Availability of the authentication subsystem and lists of allowed services; loading of a persisted key state that is not as it was stored.
- Creation of the tracking table, and failures of the query for applied versions, after which nothing was changed.

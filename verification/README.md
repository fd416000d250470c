# Token settlement platform: ledger, settlement and messaging model

This project models the money-moving core of a tokenised-deposit settlement platform and proves properties of it in
Dafny 4.11. `dafny verify dfyconfig.toml` checks everything.

The platform keeps one append-only double-entry journal and one table of escrow holds. Balances are never stored: they
are sums over the journal. Four services spend against it: token issuance and redemption, RTGS settlement with an
approve/sign workflow and background workers, conditional payments with escrow contracts and a background checker, and FX
payment-versus-payment. Around them run a transactional outbox with publishers, a Kafka consume loop with a dead-letter
queue, a sliding-window rate limiter, a capped velocity tracker and a ledger integrity script.

| file | content |
|---|---|
| `Ledger.dfy` | journal rows, `get_balance`, holds, `get_available_balance`, bootstrap rows, balance sheet |
| `Interleaving.dfy` | database transactions of all spending services, interleaved statement by statement under advisory locks |
| `Books.dfy` | the same movements as serialized commands: conservation, full backing, hold safety |
| `PaymentEngine.dfy` | conditional payments, escrow endpoints, the checker cycle |
| `Rtgs.dfy`, `RtgsSystem.dfy`, `RtgsService.dfy`, `Dequeue.dfy` | settlement rows, many workers with crashes, the worker's session, the priority queue |
| `Rounding.dfy`, `FxPricing.dfy`, `FxRates.dfy`, `FxSettlement.dfy` | half-even rounding, spread and inversion arithmetic, the rate book, PvP |
| `Refinement.dfy` | the RTGS and FX worker sessions as runs of the serialized books |
| `TokenIssuance.dfy`, `Idempotency.dfy` | issue and redeem, idempotency keys of five endpoints |
| `Outbox.dfy`, `Consumer.dfy`, `Windows.dfy` | outbox publishers, consume loop and deduplication, rate limiter and velocity tracker |
| `LedgerIntegrity.dfy` | checks 9 and 12 of the integrity script |

## Conventions

- Journal and hold amounts are integers in units of 10^-18 (NUMERIC(38,18)). The amount of a command is the one the
  endpoint has after its own quantize. The `transactions` row keeps 8 decimals; `Books.StoredAmount` is that rounding, and
  its CHECK constraints are part of the acceptance condition of a command.
- Prices are integers in units of 10^-8, spreads in units of 10^-4 basis points. Every decimal operation goes through the
  28-digit context rounding explicitly.
- A request or worker cycle whose database transaction fails leaves the committed state as it was; the journal id of a
  pair is modelled as a fresh number, and account, row and transaction ids as positions or natural numbers.
- Clocks, broker answers, handler answers, query orders left open by the SQL, failures and crashes are parameters or free
  choices of the run, so each theorem covers all of them.

## Where the code and its documentation differ

The model follows the code. Each point has a theorem that says exactly what the code guarantees, and where possible a
witness for what it does not.

- README.md:168 promises that both FX legs roll back together. A refused buy leg is caught after the sell leg was flushed
  and the worker commits: `FxSettlement.PvpAtomicIff`, `FxSettlement.HalfSettledExists`. For a handler that discards its
  writes the promise holds: `FxSettlement.AtomicHandler`.
- README.md:881 says FX rounding is in the bank's favour. The amount is rounded down while the product fits in 28 digits
  (`FxPricing.BuyRoundsDown`), but the spread itself favours the customer on a round trip
  (`FxPricing.RoundTripFavoursCustomer`), and beyond 28 digits the context rounding can pay one unit too much
  (`FxPricing.OverpaysIff`).
- A quote says its rate is locked for thirty seconds (services/fx-settlement/main.py:548). Nothing stores it, and a rate
  update in between reprices the settlement: `FxRates.UpdateReprices`, `FxRates.QuoteIsNotLocked`.
- RTGS and FX look at the raw balance, so they can spend money that an escrow holds: `Books.RunHoldSafe` gives the exact
  condition, `Books.RtgsSpendsHeldFunds` a run. `get_available_balance` is three statements, and hold rows that commit
  between them make a lock-protected redemption overdraw: `Interleaving.HeldFigure`, `Interleaving.HoldRaceOverdraws`.
- The dequeue is meant to serve urgent settlements first. The column is a string and sorts alphabetically, which puts
  urgent last: `Dequeue.ColumnRankIsAlphabetical`, `Dequeue.UrgentWaitsBehindOthers`.
- The checker and the workers run a whole batch in one transaction. One payment that raises stops every cycle, and one
  refused settlement at the head stops the queue: `PaymentEngine.PassCommitsIff`, `RtgsService.PoisonedHeadStops`.
- The RTGS worker moves rows along edges that are not in the transition table: `Rtgs.WorkerLeavesTable`.
- Releasing an expired escrow answers that it has been refunded, but the exception rolls the refund back:
  `PaymentEngine.Service.ReleaseEscrow`.
- Escrow creation looks up an idempotency key that it never stores: `Idempotency.EscrowIsNotIdempotent`.
- Check 9 of the integrity script reports the six one-sided bootstrap journals on every seeded database, and nothing else:
  `LedgerIntegrity.OnlyBootstrapImbalanced`.
- The consume loop never seeks back after a failure. Its retry and dead-letter promise needs redelivery of the lowest
  uncommitted offset (`Consumer.NothingLost`); if the client just moves on, failed messages are lost
  (`Consumer.MovingOnNeverBuries`, `Consumer.MovingOnLoses`).

## Model

| member | source | states |
|---|---|---|
| `Ledger.BalanceAfterPair` | shared/journal.py:21-106 | Posting a pair moves the derived balance of every account, code and currency by exactly its signed effect (debit-normal for the four asset codes, credit-normal otherwise) and no other balance |
| `Ledger.MovedByPair` | shared/journal.py:21-67 | One more pair extends the list of pairs that accounts for the difference between two journals, over all balances at once |
| `Ledger.BalancePermutation` | shared/journal.py:99-106 | A balance does not depend on the order of the rows |
| `Ledger.BalanceSheet` | shared/journal.py:70-106 | Summed over any complete duplicate-free list of accounts and codes, asset balances minus the other balances equal the net debit of the raw rows |
| `Ledger.PostConserves` | shared/journal.py:42-66 | No sequence of pairs changes the net debit of any currency |
| `Ledger.AvailableMatchesView` | init/postgres/02_migrations.sql:278-290 | `get_available_balance` equals the available-balance view if and only if the hold rows that are neither reserve nor release sum to zero, in particular when there are none |
| `Ledger.BootstrapBalances` | init/postgres/02_migrations.sql:408-423 | The bootstrap rows give no customer a balance and leave a net debit of 1.5 billion in USD, EUR and GBP, none elsewhere |
| `Interleaving.NoDoubleSpend` | shared/journal.py:140-156 | In every interleaving of any number of locking sessions, escrow deliveries included, with aborts and any (even colliding) lock-key function, the committed pairs in commit order form a serial history in which each customer debit but a delivery passes its balance check, and no balance is negative at any point of it if and only if each delivery found its money there; provided no session relies on a negative hold figure |
| `Interleaving.OverdrawnIff` | services/payment-engine/main.py:129-163 | The unchecked deliveries are the only way such a history can overdraw: it does if and only if one of them is not covered |
| `Interleaving.PureCredits` | shared/journal.py:140-156 | A session's pending writes can lower only balances whose lock it holds |
| `Interleaving.CommitKeepsSession` | shared/database.py:23-28 | Another session's commit leaves every check and every read of a session valid, because under READ COMMITTED it can only add credits there |
| `Interleaving.HoldsAreContracts` | services/payment-engine/main.py:165-212 | In every reachable state the committed holds of an account are its ACTIVE contracts, hence not negative |
| `Interleaving.ScheduleKeepsHoldInv` | services/payment-engine/main.py:165-212 | Every step of every interleaving keeps one reserve row per contract, one release row per closed one, and each session's first hold read equal to the contracts that existed then |
| `Interleaving.DeliveredOnce` | services/payment-engine/main.py:704-734 | Over every interleaving a contract is closed if and only if exactly one delivery of it was committed or it was refunded or expired once, never both and never twice, and each committed delivery moves the terms of an existing contract |
| `Interleaving.DeliveriesSpendContracts` | services/payment-engine/main.py:165-187 | Per account and currency, what committed deliveries took plus what refunds and expiries freed is the money of the closed contracts |
| `Interleaving.CommitTakesHold` | services/payment-engine/main.py:165-174 | A commit takes exactly the amounts the session delivered out of the active holds |
| `Interleaving.HistoryIsCommits` | shared/database.py:47-57 | The committed history, read off the steps alone, is what the committing sessions wrote, in commit order; an aborted session leaves nothing |
| `Interleaving.HeldFigure` | shared/journal.py:113-137 | The hold figure of the two separate reads is exactly the contracts that lasted through both minus those that were opened and closed in between, and is negative if and only if the latter outweigh the former |
| `Interleaving.LastingReadsAreSound` | shared/journal.py:113-137 | If that is never so at a second hold read, no session of the run relies on a negative figure |
| `Interleaving.NoDoubleSpendOnLastingReads` | shared/journal.py:109-156 | Hence under this condition on the contracts every interleaving is serial and overdraws only by an uncovered delivery |
| `Interleaving.HoldRaceOverdraws` | shared/journal.py:113-137 | The condition is needed for every account, balance and amount: with a contract that comes and goes between the reads, a redemption goes through, lock held throughout, if and only if it is within balance plus that contract, and leaves balance minus amount |
| `Interleaving.ConcurrentConservation` | services/token-issuance/main.py:186-200 | After any interleaving the net debit of each currency is unchanged and customer liabilities moved by exactly what committed pairs issued, redeemed, sold and bought |
| `Books.Conservation` | init/postgres/02_migrations.sql:408-423 | After any run over all four services, per currency, assets minus liabilities equal the bootstrap funding, and total customer balances equal issued - redeemed - sold + bought |
| `Books.FullBacking` | services/token-issuance/main.py:186-200 | After any run the omnibus reserve of a currency is its bootstrap funding plus issued minus redeemed, its nostro account its funding minus sold plus bought, and no other account has a balance under a code other than the customers' |
| `Books.CustomerEffect` | services/payment-engine/main.py:152-163 | Each accepted command moves exactly the customer balances it names by exactly its amount, a delivery those of its contract |
| `Books.AcceptedChanges` | services/token-issuance/main.py:159-200 | The books change if and only if a command is accepted |
| `Books.TransfersAccepted` | services/rtgs/main.py:91-126 | Issue, redeem, settle and pay are accepted if and only if the debited reserve, balance or available balance suffices, the accounts meet the service's checks and the tables can store the movement |
| `Books.LegsAccepted` | services/fx-settlement/main.py:155-186 | An FX leg is accepted if and only if its currency has a nostro code, the debited side covers it and the tables can store it |
| `Books.ContractsAccepted` | services/payment-engine/main.py:635-716 | Opening needs active parties and available funds, delivery and refund an ACTIVE contract not past expiry, expiry one at or past it |
| `Books.IssuedOnlyToCleared` | services/token-issuance/main.py:159-185 | Over every run an issue changes the books only for an active, verified and cleared account, out of a sufficient reserve |
| `Books.EscrowStories` | services/payment-engine/main.py:384-432 | Over every run a contract has the terms of the command that opened it, and its status names the one accepted command that closed it, at a time on the right side of its expiry |
| `Books.RunLiabilities` | services/fx-settlement/main.py:155-199 | The same over raw rows from any starting books: RTGS, conditional and escrow moves conserve customer liabilities |
| `Books.StepHoldSafe` | services/payment-engine/main.py:119-212 | One accepted or rejected command keeps holds equal to ACTIVE escrows and every available balance non-negative if and only if it is not an RTGS transfer or FX sell leg above the available balance |
| `Books.RunHoldSafe` | services/rtgs/main.py:93-98 | A whole run is hold-safe at every prefix if and only if no RTGS transfer or FX sell leg of it exceeds the available balance |
| `Books.EscrowRunsStayCovered` | services/payment-engine/main.py:694-821 | In runs of issue, redeem, pay and escrow operations, at every point, balance >= sum of ACTIVE escrows = active holds >= 0 for every account |
| `Books.DeliveryIsCovered` | services/payment-engine/main.py:131-135 | The balance check that escrow release skips would pass in hold-safe books |
| `Books.RtgsSpendsHeldFunds` | services/rtgs/main.py:93-111 | A four-command run in which RTGS spends escrowed money and the release then overdraws the depositor to minus one token |
| `PaymentEngine.MultiSigMeaning` | services/payment-engine/main.py:95-102 | Without a threshold every required signer is needed; only required signers count; further signatures never unmake a satisfied condition |
| `PaymentEngine.EvaluateMeaning` | services/payment-engine/main.py:74-114 | A time lock is met if and only if its release time has come, an oracle by key and value, a multi-signature by enough required signers among the signatures, a delivery by its reference and confirmation, KYC by its flag; it raises exactly for a missing release time |
| `PaymentEngine.PassOutcome` | services/payment-engine/main.py:265-292 | A pass that does not raise fails exactly the expired payments, completes exactly the due ones with a transaction, leaves all others, and moves the ledger by exactly one pair per executed payment |
| `PaymentEngine.PassOnFields` | services/payment-engine/main.py:272-292 | After a committed pass a payment past its own expiry is failed; otherwise a time lock is completed if and only if its release time has come by the clock, a KYC payment if and only if its payee is verified and cleared, and everything else is as it was |
| `PaymentEngine.ExecutedBalances` | services/payment-engine/main.py:316-346 | An executed payment moves its amount from payer to payee within the available balance, and its transaction id leads to those two rows |
| `PaymentEngine.CycleIsComplete` | services/payment-engine/main.py:251-313 | After a committed cycle no pending time lock or KYC payment is expired, released or cleared as of its start, on the payment's own fields, and no ACTIVE escrow is at or past expiry |
| `PaymentEngine.ExpiryOutcome` | services/payment-engine/main.py:294-303 | The expiry pass expires exactly the overdue contracts and leaves journal and accounts alone |
| `PaymentEngine.ExpiryFreesHolds` | services/payment-engine/main.py:384-432 | The expiry pass keeps active holds equal to the sum of ACTIVE escrows |
| `PaymentEngine.PassCommitsIff` | services/payment-engine/main.py:272-308 | A cycle's pass commits if and only if each payment is expired, or evaluates and, if due, its payment is accepted by the books after the due ones before it; one malformed or one due but unaffordable payment rolls the whole cycle back |
| `PaymentEngine.CycleIsRun` | services/payment-engine/main.py:251-313 | A committed cycle is exactly a run of pay and expire commands of the books, and keeps hold-safe books hold-safe |
| `PaymentEngine.MalformedTimeLockBlocks` | services/payment-engine/main.py:82-84 | One unexpired time lock without a release time makes every cycle roll back, in any row order |
| `PaymentEngine.Service.LockedTransfer` | services/payment-engine/main.py:119-187 | Succeeds exactly when the available balance suffices or a reserve is released, and the row is storable; posts the one pair and the release hold |
| `PaymentEngine.Service.ExecutePayment` | services/payment-engine/main.py:316-381 | Completes the payment with its transaction and posts its pair exactly when the payment command is accepted |
| `PaymentEngine.Service.CreateEscrow` | services/payment-engine/main.py:610-691 | A key that matches an existing contract changes nothing; otherwise answers 201 exactly for active parties and an amount within the available balance, and then adds the contract with its terms, the hold and the event |
| `PaymentEngine.Service.ReleaseEscrow` | services/payment-engine/main.py:694-821 | A delivery moves the amount from depositor to beneficiary and frees the hold, a refund only frees it, each announced exactly when accepted; answers 410 exactly past the expiry of an ACTIVE contract, and then changes nothing |
| `PaymentEngine.Service.TriggerPayment` | services/payment-engine/main.py:541-583 | Executes exactly the pending, affordable payments whose condition is met in terms of its own parameters; an unmet one is only announced; otherwise leaves state and outbox alone |
| `PaymentEngine.Service.VisitOne` | services/payment-engine/main.py:272-292 | The loop body computes the one-payment step of the specification and its notices, or raises exactly where it says |
| `PaymentEngine.Service.CheckCycle` | services/payment-engine/main.py:251-313 | The mutating loops commit the whole cycle function with one notice per executed payment and expired escrow, or nothing |
| `Rtgs.ApproveOk` | services/rtgs/main.py:467-508 | Approval only from PENDING, recording its actor, keeping the row invariant and the payment terms |
| `Rtgs.SignOk` | services/rtgs/main.py:511-557 | Signature only from APPROVED by an actor other than the recorded approver, recording its actor and keeping the rest |
| `Rtgs.AttemptOk` | services/rtgs/main.py:129-242 | An attempt ends SETTLED if and only if paid, FAILED if and only if funds lack or it is the third error, SIGNED for an earlier error; terms and actors stay, and the status trail is the only one possible |
| `Rtgs.AttemptsBounded` | services/rtgs/main.py:205-242 | A settlement is processed at most three times over its life, with the exact number for SETTLED and FAILED rows |
| `Rtgs.WorkerLeavesTable` | shared/state_machine.py:11-48 | The trail of a SETTLED row is never a path of the transition table; that of a FAILED row is one if and only if its first attempt failed it |
| `RtgsSystem.EventKeepsInv` | services/rtgs/main.py:245-281 | Every step of any worker or request keeps the invariant that ties rows, ledger, transaction references, claimed batches and drafts together |
| `RtgsSystem.ExactlyOnce` | services/rtgs/main.py:129-281 | In every run with any number of skip-locked workers, crashes and rollbacks a settlement has at most one pair, SETTLED ones have exactly their own, one pair if and only if one transaction, and SETTLED means approved then signed by someone else; "one pair if and only if SETTLED" holds of a row if and only if no ValueError struck it after its transfer in a committed batch |
| `RtgsSystem.NoneLate` | services/rtgs/main.py:151-203 | A run without such errors has no such row |
| `RtgsSystem.RowsAreSubmitted` | services/rtgs/main.py:374-386 | The table holds exactly the submitted settlements, and no run changes the terms of one |
| `RtgsSystem.WorkflowRecorded` | services/rtgs/main.py:467-557 | Over every run the approvals and signatures of a row are exactly what its status and recorded actors say: none, one approval, or one approval and one later signature by someone else |
| `RtgsSystem.ApprovedThenSigned` | shared/rbac.py:72-80 | For each signed, settled or failed row the run contains an approval by its recorded approver and after it a signature by its recorded signer, who differs |
| `RtgsSystem.FinalRows` | services/rtgs/main.py:253-263 | SETTLED and FAILED rows never change again in any run |
| `RtgsSystem.LateFailureLeavesPair` | services/rtgs/main.py:151-217 | A ValueError after the transfer puts a paid settlement back to SIGNED with its pair in the ledger |
| `RtgsSystem.QueueDrains` | services/rtgs/main.py:205-272 | Without new signatures the committed batches of any run process at most the sum of remaining attempts, and once that many were processed no SIGNED row is left |
| `RtgsService.BatchCommitsIff` | init/postgres/01_schema.sql:96-111 | A fault-free batch commits if and only if no row of it is funded at its turn and refused by the transactions table (it pays itself or its reference is taken), both computed from the state before the batch |
| `RtgsService.FaultFreeOutcome` | services/rtgs/main.py:205-242 | In a committed fault-free batch a row is SETTLED if its sender owns the amount at its turn, and otherwise FAILED by that one attempt |
| `RtgsService.SelfPaymentBlocks` | services/rtgs/main.py:338-386 | A funded payment to oneself, which submit accepts, rolls back every fault-free batch that takes it before another debit of the account |
| `RtgsService.PoisonedHeadStops` | services/rtgs/main.py:245-281 | Once the head of the queue holds such a row, no number of fault-free worker cycles changes anything |
| `RtgsService.BatchRefinesSystem` | services/rtgs/main.py:129-281 | From any many-worker system with the session's rows and references, the claim, one attempt per row as the session decides it, and the commit are a possible run that ends in the session's rows and references with the posted pairs added, and every balance moves by exactly those pairs |
| `RtgsService.BatchNeverOverdraws` | services/rtgs/main.py:91-111 | No batch overdraws an account or changes the terms of a settlement, whatever faults occur |
| `RtgsService.Session.TransferBalances` | services/rtgs/main.py:77-126 | Outcome for each case; a recorded transfer moves the amount from sender to receiver and takes the reference |
| `RtgsService.Session.ProcessOne` | services/rtgs/main.py:129-242 | The status mutations amount to the one-row step of the specification, or an exception escapes exactly where it says |
| `RtgsService.Session.RunBatch` | services/rtgs/main.py:245-281 | The loop commits the batch function or leaves the state unchanged |
| `RtgsService.Session.ApproveOne` | services/rtgs/main.py:467-508 | Approves exactly an existing PENDING row and records the actor as approver; 404 and 409 change nothing |
| `RtgsService.Session.SignOne` | services/rtgs/main.py:511-557 | Signs exactly an existing APPROVED row whose recorded approver is not the actor, absent ids compared as values, and records the actor as signer |
| `RtgsService.Session.Submit` | services/rtgs/main.py:338-386 | 404 for an inactive account, the existing row for a taken key, else one PENDING row with the request's own fields, with its key recorded |
| `Dequeue.TakenIffFewAhead` | services/rtgs/main.py:253-263 | For any priority rank a dequeued row has fewer than ten eligible rows ahead, and a row with fewer than ten ahead or tied is dequeued; without ties this is an if and only if |
| `Dequeue.PositionIsRank` | services/rtgs/main.py:256-261 | Without ties the row at position k of the batch is the one with exactly k eligible rows ahead |
| `Dequeue.BatchIsDetermined` | services/rtgs/main.py:253-263 | Without ties the query has exactly one answer |
| `Dequeue.FifoWithinPriority` | services/rtgs/main.py:256-260 | Within one priority no row is taken ahead of an earlier eligible one |
| `Dequeue.FifoOverRuns` | services/rtgs/main.py:248-272 | Over whole single-worker runs, once a row is queued no later row of its priority is served before it was, whatever else is submitted or signed meanwhile |
| `Dequeue.ColumnRankIsAlphabetical` | services/rtgs/main.py:258 | The order the query uses is the lexicographic order of the priority strings |
| `Dequeue.UrgentWaitsBehindOthers` | services/rtgs/main.py:256-260 | With it no urgent row is dequeued while ten others wait |
| `Dequeue.UrgentFirstAsDeclared` | services/rtgs/main.py:71 | With the declared ranks an urgent row is always dequeued while at most ten urgent rows wait |
| `Rounding.DoubleRounding` | services/fx-settlement/main.py:563-565 | Rounding half-even to an even finer grid and then to units equals rounding once, when the grid is finer than the denominator |
| `FxPricing.SpreadIsExact` | services/fx-settlement/main.py:98-111 | For every rate and spread the columns can hold no intermediate result exceeds 28 digits, and the applied rate is the 10^-8 value nearest to the exact spread rate, ties to even |
| `FxPricing.SellRateZero` | services/fx-settlement/main.py:106-111 | The bid that the inverse divides by is zero if and only if the stored mid rate is |
| `FxPricing.InverseIsNearest` | services/fx-settlement/main.py:563-565 | The 28-digit division followed by the quantize is the correctly rounded inverse, and the quotient does have 28 digits |
| `FxPricing.BuyRoundsDown` | services/fx-settlement/main.py:572-573 | Below 10^12 the customer gets the exact product rounded down to 10^-8 |
| `FxPricing.OverpaysIff` | services/fx-settlement/main.py:572-573 | Above 28 digits, for every product the code can quantize, ROUND_DOWN pays more than the product if and only if the context rounding carries into the next unit (last eight digits within half a grid step of it), and never more than one unit |
| `FxPricing.ConversionRaisesIff` | services/fx-settlement/main.py:572-573 | The quantize runs out of 28 digits if and only if the product is at least 10^20 minus half a unit of 10^-8 |
| `FxPricing.OverpaymentExists` | services/fx-settlement/main.py:572-573 | A concrete amount and rate that is overpaid |
| `FxPricing.RoundTripError` | services/fx-settlement/main.py:98-111 | The product of direct and inverse applied rates is within an explicit rounding bound of (mid + half) / (mid - half) |
| `FxPricing.RoundTripFavoursCustomer` | services/fx-settlement/main.py:563-573 | With a non-negative spread bid <= mid <= ask, a round trip never loses more than rounding, and strictly gains once ask and bid are far enough apart |
| `FxPricing.RoundTripAtPar` | services/fx-settlement/main.py:105-111 | At par with the default spread a round trip gains more than a tenth of a percent |
| `FxRates.LiveIsLatest` | services/fx-settlement/main.py:84-95 | The lookup finds a row if and only if the pair has an active one, and none is more recent |
| `FxRates.PricesAreSound` | services/fx-settlement/main.py:545-573 | On positive rates within the columns no lookup divides by zero, below 10^12 the amount is the product rounded down, and the decimal error needs a product of 10^20 |
| `FxRates.AppliedOnColumns` | services/fx-settlement/main.py:98-111 | On the columns of the book: the applied rate is nearest to mid plus half the stored spread of the most recent active row (ten basis points if absent or zero), or to the inverse of the bid of the opposite row; no rate if and only if neither direction has an active row; undefined only for a mid rate of zero |
| `FxRates.UpdateReprices` | services/fx-settlement/main.py:420-455 | After a rate update every pair is priced at an explicit rate (the new ask, the inverse of the new bid for the opposite pair without a direct rate, else the old rate), and a settlement keeps its quoted price if and only if that is the rate the quote applied |
| `FxRates.QuoteIsNotLocked` | services/fx-settlement/main.py:545-550 | A quote and the settlement after a rate update differ |
| `FxRates.RateBook.Update` | services/fx-settlement/main.py:420-455 | Switches off exactly the active rows of the pair and adds the new one, which is then live whatever the timestamps |
| `FxRates.RateBook.LookUp` | services/fx-settlement/main.py:555-569 | The direct-then-inverse lookup finds the specified rate, which is the one the columns of the book give |
| `FxRates.RateBook.Quote` | services/fx-settlement/main.py:545-584 | 400 exactly for equal currencies, 404 exactly without an active row in either direction, else a price at the rate the columns of the book give |
| `FxRates.RateBook.Settle` | services/fx-settlement/main.py:587-658 | A taken key returns its row; a row is queued exactly for active accounts and a storable price, and carries the figures of a quote on the same book, at the rate the columns give |
| `FxSettlement.LegsIndependent` | services/fx-settlement/main.py:212-382 | The sell leg does not change whether the buy leg is covered |
| `FxSettlement.PvpAtomicIff` | services/fx-settlement/main.py:212-382 | A processed settlement is all-or-nothing if and only if the sell leg is refused or not reached, or the buy leg is covered too and no error follows the sell leg; otherwise exactly the sell pair stays, or both pairs when the error comes after both; SETTLED means both pairs |
| `FxSettlement.SettledBalances` | services/fx-settlement/main.py:228-277 | A settled trade takes the sold amount from the sender, gives the bought amount to the receiver, and moves the two nostro accounts by the same amounts |
| `FxSettlement.AtomicHandler` | README.md:168 | A handler that discards its writes is always all-or-nothing, and agrees with the code exactly under that condition |
| `FxSettlement.CurrenciesWithoutNostro` | services/fx-settlement/main.py:75-79 | Buying a currency without a nostro code always fails after the sell leg is paid; selling one is never recorded |
| `FxSettlement.HalfSettledExists` | services/fx-settlement/main.py:360-382 | A customer loses the sold dollars and receives no euros |
| `FxSettlement.LedgerMatchesRows` | services/fx-settlement/main.py:385-415 | Over every run of requests and batches the ledger moved by exactly the legs the rows record, two for SETTLED, none for QUEUED |
| `FxSettlement.Session.ExecuteLeg` | services/fx-settlement/main.py:137-209 | Refuses, raises or posts the pair according to the balance of the debited side and the chart |
| `FxSettlement.Session.ProcessOne` | services/fx-settlement/main.py:212-382 | The row mutations amount to the one-settlement step of the specification |
| `FxSettlement.Session.RunBatch` | services/fx-settlement/main.py:385-415 | The loop commits the batch function or nothing |
| `Refinement.RtgsBatchIsRun` | services/rtgs/main.py:129-281 | A committed RTGS batch, with any faults in it, derives the same balances as a run of accepted settle commands of the books, one per recorded transfer |
| `Refinement.FxBatchIsRun` | services/fx-settlement/main.py:212-415 | A committed FX batch, half-settled rows included, derives the same balances as a run of accepted sell and buy commands, one per recorded leg |
| `Refinement.BatchKeepsHolds` | services/payment-engine/main.py:119-187 | A batch of either worker leaves the escrows covered and every available balance non-negative when its transfers stay within what is available at their turn |
| `Refinement.BatchConserves` | services/fx-settlement/main.py:155-199 | A batch moves the sum of customer balances by exactly what it sold and bought |
| `Refinement.RtgsBatchConserves` | services/rtgs/main.py:100-111 | The RTGS worker leaves the sum of customer balances of every currency unchanged |
| `TokenIssuance.NormalizeIsNearest` | services/token-issuance/main.py:74-75 | Normalizing moves an amount at most half a unit, is idempotent, and keeps exact amounts |
| `TokenIssuance.RecordDrift` | services/token-issuance/main.py:159-200 | The 8-decimal issuance row equals the 18-decimal journal amount if and only if the amount has no more than 8 decimals, and else differs by at most half a unit of 10^-8 |
| `TokenIssuance.Service.IssueTokens` | services/token-issuance/main.py:118-282 | A taken key changes nothing; done exactly for an active, verified, cleared account and a sufficient reserve; then balance and omnibus reserve both rise by the amount, and the row and true balances are recorded |
| `TokenIssuance.Service.RedeemTokens` | services/token-issuance/main.py:285-439 | The same for redemption within the available balance: balance and reserve both fall by the amount |
| `Idempotency.RowsOfRun` | services/token-issuance/main.py:129-157 | After any run a key is taken if and only if it was before or a request with it was carried out |
| `Idempotency.KeySpaces` | services/token-issuance/main.py:295-300 | Requests compete for a key exactly within one endpoint, and between issue and redeem |
| `Idempotency.RequestOutcome` | services/token-issuance/main.py:186-200 | A request that is carried out moves the receiver's or sender's balance by its amount, or no money, and adds one record and its events; one that is not changes nothing |
| `Idempotency.AdmitsIff` | services/payment-engine/main.py:488-495 | RTGS, FX and conditional requests are admitted exactly for active accounts, an amount that does not round to zero and, for FX, a price to pay |
| `Idempotency.EventsSent` | services/rtgs/main.py:388-401 | The exact events of each kind of request, with the balance or price they report |
| `Idempotency.ReplayIsIdempotent` | services/rtgs/main.py:353-385 | For any sequence of requests to five endpoints and FX rate updates, dropping every request that repeats a carried-out key leaves books, rate book, records with their prices and outbox events with their balances unchanged |
| `Idempotency.EscrowIsNotIdempotent` | services/payment-engine/main.py:617-659 | A repeated escrow request reserves the money again if and only if the depositor can still afford it |
| `Outbox.ActionKeepsInv` | services/outbox-publisher/main.py:53-87 | Every business, publisher and crash action keeps the invariant on copies, claims and marks |
| `Outbox.Delivery` | services/outbox-publisher/main.py:37-107 | In every run published rows are in the log, the log holds only committed rows, no two live publishers hold the same row, copies are at most one plus lost batches, and exactly one without losses |
| `Outbox.RowsAreCommitted` | shared/outbox.py:35-60 | The outbox holds exactly the events of committed transactions, one row each, in commit order; aborted ones leave none, and publishers change none |
| `Outbox.Progress` | services/outbox-publisher/main.py:82-87 | A committed batch takes exactly its size off the unpublished rows; no other action but a business commit changes their number |
| `Outbox.Fetch` | services/outbox-publisher/main.py:37-44 | The batch is the first unpublished, unlocked rows in order, up to the limit, with nothing skipped |
| `Outbox.Session.PublishBatch` | services/outbox-publisher/main.py:53-87 | Marks exactly the fetched batch if every send succeeds; else marks nothing while the sent prefix stays sent |
| `Consumer.NothingLost` | shared/kafka_client.py:138-202 | With redelivery, every offset below the committed one was handled or buried with the maximal retry count, none fails more often, and no committed offset is tracked |
| `Consumer.StopsIff` | shared/kafka_client.py:159-167 | A running loop stops exactly at the maximal number of broker errors since the last message, or when a message fails for the last time and cannot be buried |
| `Consumer.MovingOnRuns` | shared/kafka_client.py:138-202 | If poll moves on, over every run exactly the messages whose handler succeeded are handled, the committed offset is one past the last committing message, and who is buried is decided message by message |
| `Consumer.MovingOnNeverBuries` | shared/kafka_client.py:175-199 | Then every retry count stays at one, and the dead-letter queue stays empty unless one failure is enough for it |
| `Consumer.MovingOnLoses` | shared/kafka_client.py:156-199 | Then over every run an offset below the committed one is lost if and only if its handler failed and more than one attempt is configured |
| `Consumer.ConsumerLoop.HandleMessage` | shared/kafka_client.py:175-199 | The try block computes the delivery step, including failing commits and dead-letter sends |
| `Consumer.ConsumerLoop.TakeTurn` | shared/kafka_client.py:156-199 | One loop turn for each poll result, with the error counter |
| `Consumer.ConsumerLoop.ConsumeLoop` | shared/kafka_client.py:138-202 | The loop equals the fold of turns and stops when an exception leaves it |
| `Dedup.ScreenedOnce` | services/compliance-monitor/main.py:239-254 | An event is screened once for all its checked deliveries together and once more for each delivery whose database access failed |
| `RateLimiter.WindowBound` | services/api-gateway/main.py:61-77 | Any window of the configured length, wherever it starts, holds at most the limit of accepted calls of a key |
| `RateLimiter.CallAgrees` | services/api-gateway/main.py:68-77 | On a bucket that equals the windowed history, a call decides as the full history does and leaves the windowed history |
| `RateLimiter.CallKeepsAgreement` | services/api-gateway/main.py:68-77 | A call keeps this agreement for all keys at once |
| `RateLimiter.SimpleRateLimiter.IsAllowed` | services/api-gateway/main.py:68-77 | Accepts exactly when fewer than the limit of accepted calls lie in the window, adds exactly the accepted calls to the history of their key, and stores exactly the history in the window |
| `Velocity.CapIsHarmless` | services/compliance-monitor/main.py:97-111 | Keeping the last 100 timestamps gives the same flag as the uncapped history, and the stored list is always the tail of the in-window history |
| `Velocity.VelocityTracker.CheckVelocity` | services/compliance-monitor/main.py:97-111 | Flags exactly when more than twenty calls of the account fall in the hour ending now, for every account and run |
| `LedgerIntegrity.Replay` | scripts/ledger_integrity.py:365-377 | Replaying the rows in any order derives for every account and currency the balance of `get_balance`, with keys exactly for accounts that have customer rows |
| `LedgerIntegrity.OnlyBootstrapImbalanced` | scripts/ledger_integrity.py:278-297 | Whatever the services post, the per-journal check reports exactly the six bootstrap journals |

## Left out

- Interleaving.NoDoubleSpend: the premise on hold figures is sufficient, and needed for the runs of HoldRaceOverdraws; a
  negative figure can also be harmless. Whether a delivery is covered is decided by the books, see Books.RunHoldSafe.
- RtgsSystem.ExactlyOnce: an error after the transfer is modelled as striking before the SETTLED history row is written.
- FxSettlement.PvpAtomicIff: an error inside `_execute_leg` after its pair counts as one after the leg, with the
  transaction id set.
- RtgsService.PoisonedHeadStops: the head of the queue is taken to be free of ties, and no request or other worker intervenes.
- RateLimiter.SimpleRateLimiter.IsAllowed: assumes a positive window and a clock that does not run backwards per key.
- Velocity.VelocityTracker.CheckVelocity: assumes that the wall clock does not run backwards per account.
- Concurrency of escrow closing: a refund or expiry is one atomic step on a contract that is ACTIVE and not being
  delivered. The checker reads contracts without a lock, so in the code it could close one twice.
- Concurrency of conditional-payment triggers: they take no lock on the payment row and are modelled as serialized steps.
- The availability check of `_reserve_funds` in interleavings: there a contract of any amount may open.
- A `txn_ref` that collides with the reference of another service's transaction: an RTGS reference counts as taken only by
  its own settlement.
- The HTTP answer of a replayed issue or redeem request, and all other response bodies.
- Column overflow of NUMERIC types, the `custom_bps` argument that no caller passes, and `valid_until` of rates, which
  the lookup ignores.
- Order of rows that share a `created_at`, in the outbox and in the status history.
- The consumer's retry counters after a process restart, and several partitions at once.
- The comparison with the legacy `token_balances` and `ledger_entries` tables in the integrity script: nothing else
  maintains those balances.
- AML thresholds, sanctions lists, signing gateway, MPC nodes, simulated chain receipts, roles and routes, metrics and
  deployment: they would only add easy members.

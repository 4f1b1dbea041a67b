# CipherDEX script models

Dafny models of the calculating and bookkeeping scripts of the repository, with proofs of what they are for.
`dafny verify dfyconfig.toml` checks everything.

**LP fee accounting.** `FeeGrowth` is the two-limb arithmetic, tied to one scaled number. `LpLedger` is the ledger of
transferable LP shares as a value: holders with checkpoint, carry and claim on two sides, allowances, locks, and a
step that rolls a failed operation back. `LpInvariant` and `LpRecycling` state what every ledger keeps, above all that
each fractional unit ever accrued is owed to somebody, waiting in the remainder or paid out. `LpEager` is a second,
independent ledger that credits everybody at every growth step and has no checkpoints, carries or settlement;
`LpRefinement` and `LpOperations` show that the lazy ledger gives the same replies over every run, and `LpGuarantees`
draws the consequences. `LpExactness` and `LpEffects` say in terms of requests, replies and what can be read from the
ledger when each operation succeeds and exactly what it moves: locks, shares, allowances, money and everybody's
credit, in every reachable state. `LpModel` is the mutable class with snapshot and restore, proved to be the ledger's
step. 2^128 is a symbol for the solver, of which the proofs need little more than that it is at least 4.

**Constant-product arithmetic.** `ConstantProduct` (rounding, search for an exact quote, laws of swap sequences),
`PriceObservation` (buckets, and what an observer can infer from one), `ReserveModel` (the replayed fee-collection
pool).

**Crash-safe funded transactions.** `RecoveryJournal` is the journal as a value with its transitions and the reload
check, `JournalLives` when each record is accepted and what an entry goes through, `JournalModel` the mutable class
that writes every change durably. `FundedProtocol` is a transition system over the durable journal, what the network
was handed, what the chain mined, the private allowances and the program's position, with a crash possible between any
two steps, a catch handler that may go on after a failure, and a chain that answers as it likes except that what it
reports as confirmed is mined with that outcome. `FundedSafety` has the invariant of all its runs, `FundedCoverage`
says exactly which runs keep private allowances covered by active obligations, `FundedGuarantees` draws the
consequences. `FundedExecution` is the program itself, step by step over the mutable journal; a ghost history shows
each of its methods to be a run of the protocol.

**Serialisation and packing.** `CanonicalJson` writes the text that evidence is signed over and has a reader for it,
`CanonicalText` says what the text is unit by unit, `CanonicalIdentity` what it identifies. `Packing` and
`PackingTransitions` are packed words and the model with two interfaces; `Slippage` the bounds of the liquidity calls.
`Outcomes`, `Division` and `MapSums` are shared.

## Where the code does not do what one would expect

- A holder may be the empty account name, which the code takes for "no beneficiary" when the last shares are burnt
  (`scripts/lp-fee-accounting-model.ts:576`). `FullExitStrandsNothing` says exactly when a full exit strands a unit,
  `NamelessExitStrandsAUnit` gives a run that does. The audit passes there too.
- The guard on recycled growth (`scripts/lp-fee-accounting-model.ts:604-606`) is reachable by ordinary transfers, so an
  unlocked balance cannot always be moved whole: `RecycledGrowthGuardIsReachable`, and exactly when:
  `TransferSucceedsExactly`, `BurnSucceedsExactly`.
- `recordTransaction` accepts negative block numbers, reopening a terminal entry and unmining a creation, all of which
  the reload refuses; `markRun` accepts an evidence status without a plan. `OutcomeReadableExactly` and
  `MarkRunReadableExactly` say exactly when the journal can be opened again.
- `markAllowanceCleared` looks neither at the allowance nor at open transactions. The runners reconcile first and throw
  when something stays open. The ones that then stop, like `scripts/testnet-harness.ts`, keep allowances covered
  (`UnhandledRunsAreCovered`). Three do not stop: the catch handlers of `scripts/testnet-position-read.ts:931-953`,
  `scripts/testnet-private-lp-accounting-probe.ts:1533-1556` and `scripts/testnet-launchpad.ts:1878-1906` (through
  `recoverLaunchpadResources`, line 418) exempt an unknown broadcast but not the failed gate
  (lines 553-557, 834-836 and 814-818), and recover allowances with the transactions still open. A grant that is mined
  after such a recovery is a positive allowance without an active obligation, and evidence can be prepared over it:
  `HandledRecoveryUncovers`. `AllowancesCoveredExactly` has the exact condition for all runs, `AllowancesAreCovered` the
  check that would be enough before each clearing: no open entry of the journal grants the allowance.
- `scripts/testnet-launchpad.ts:175-195` does not record a transaction that was mined with a failure; the entry stays
  open until the next reconciliation (event `Overlook`).
- `reserveOutForExactQuote` has no exact answer for a zero target against an empty input reserve, or a negative target.
- Request ids are valid in either case, that of the prefix included, but compared letter by letter, so one 32-byte value
  can succeed once per spelling. `NoReplayExactly` says when it cannot: exactly when callers use at most one spelling of
  each value, for instance the lower-case one (`NormalFormsAreNeverReplayed`).

## Model

| member | source | states |
|---|---|---|
| `FeeGrowth.AdvanceIsExact` | scripts/lp-fee-accounting-model.ts:127-170 | An accrual succeeds exactly when whole growth stays within lifetime fees and both fit; then T·ΔG + remainder' = lpFee·SCALE + remainder with remainder' < T, on the single scaled number |
| `FeeGrowth.AdvanceIntermediates` | scripts/lp-fee-accounting-model.ts:146-156 | The fractional product fits in 256 bits, the combined fraction is below 2·SCALE (the normalization guard never fires), and whole and fraction are the quotient and remainder of the scaled growth |
| `FeeGrowth.AdvanceGuards` | scripts/lp-fee-accounting-model.ts:132-170 | Which guards of an accrual are left, and the failure each of them reports: overflow first, growth above lifetime fees second |
| `FeeGrowth.AccrualsCompose` | scripts/lp-fee-accounting-model.ts:127-170 | At a fixed supply two successful accruals give the same growth and remainder as one accrual of their sum |
| `FeeGrowth.BeforeIsScaledOrder` | scripts/lp-fee-accounting-model.ts:118-121 | The two-limb comparison is the order of the scaled numbers |
| `FeeGrowth.SettleIntermediates` | scripts/lp-fee-accounting-model.ts:177-205 | Borrow, product and sum of a settlement in terms of the scaled difference |
| `FeeGrowth.SettleIsExact` | scripts/lp-fee-accounting-model.ts:172-215 | A settlement returns the floor of (balance·ΔG + carry)/SCALE and keeps the rest as carry; it refuses exactly a growth that moved backwards or a claim that does not fit |
| `LpInvariant.SettlePositionExact` | scripts/lp-fee-accounting-model.ts:535-550 | Settling a position splits its whole entitlement into claim and carry without changing it |
| `LpInvariant.HolderBounds` | scripts/lp-fee-accounting-model.ts:535-550 | No holder is owed more than was accrued: the bound behind every range check of settlement |
| `LpInvariant.SettleEffect` | scripts/lp-fee-accounting-model.ts:535-550 | Settlement is total on sound ledgers: no range, borrow or overflow check fires, no balance and nobody's worth changes |
| `LpRecycling.RecycleSharedEffect` | scripts/lp-fee-accounting-model.ts:552-607 | A recycled carry goes to the remaining shares to the last fractional unit, and the books stay sound |
| `LpRecycling.RedistributeExact` | scripts/lp-fee-accounting-model.ts:571-607 | Handing out a remainder to existing shares fails only on the growth guard |
| `LpRecycling.WholeAtZeroSupply` | scripts/lp-fee-accounting-model.ts:552-586 | With no shares left, carry and remainder together are zero or exactly one whole unit |
| `LpRecycling.RecycleLastExact` | scripts/lp-fee-accounting-model.ts:571-586 | The last leaver gets the whole unit as a claim unless it is the nameless account |
| `LpRefinement.SettleStep` | scripts/lp-fee-accounting-model.ts:535-550 | Settlement is invisible to the eager ledger, which credits balance·ΔG to everyone at once |
| `LpRefinement.RecycleStep` | scripts/lp-fee-accounting-model.ts:552-607 | Recycling agrees with the eager ledger, failures included |
| `LpOperations.MintStep` | scripts/lp-fee-accounting-model.ts:287-298 | Minting keeps the invariant and agrees with the eager ledger on success, failure and result |
| `LpOperations.BurnStep` | scripts/lp-fee-accounting-model.ts:300-311 | Burning keeps the invariant and agrees with the eager ledger, the generation at full exit included |
| `LpOperations.MoveStep` | scripts/lp-fee-accounting-model.ts:609-622 | A move settles both parties first and recycles an emptied sender; it keeps the invariant and agrees with the eager ledger |
| `LpOperations.TransferFromStep` | scripts/lp-fee-accounting-model.ts:317-325 | A delegated move agrees with the eager ledger; the allowance changes only together with the shares |
| `LpOperations.LockStep` | scripts/lp-fee-accounting-model.ts:327-344 | Locking needs unlocked shares and a new id, keeps locks covered by balances and agrees with the eager ledger |
| `LpOperations.UnlockStep` | scripts/lp-fee-accounting-model.ts:346-356 | Unlocking needs a known, temporary, matured lock, keeps the invariant and agrees with the eager ledger |
| `LpOperations.PrincipalStep` | scripts/lp-fee-accounting-model.ts:358-368 | Principal credits keep custody equal to reserve, protocol fees and liability, and agree with the eager ledger |
| `LpOperations.SwapFeesStep` | scripts/lp-fee-accounting-model.ts:370-405 | Swap fees keep the invariant and agree with the eager ledger, which owes the LP fee from then on to the last fractional unit |
| `LpOperations.ClaimStep` | scripts/lp-fee-accounting-model.ts:407-421 | A claim pays the whole part of the eager credit out of the liability, whose guard never fires |
| `LpOperations.ReadStep` | scripts/lp-fee-accounting-model.ts:249-265 | Reads settle the account and answer floor and remainder of its eager credit |
| `LpOperations.AuditStep` | scripts/lp-fee-accounting-model.ts:423-460 | An audit of a sound ledger passes every check, and its figures are exactly those of the eager ledger: outstanding is the sum over all holders of the whole part of their credit, the owners' carry the sum of the fractional parts |
| `LpOperations.AttemptAgrees` | scripts/lp-fee-accounting-model.ts:287-421 | Every operation, in every state of a run: the invariant is kept and the eager ledger agrees |
| `LpOperations.RunRefinesEager` | scripts/lp-fee-accounting-model.ts:221-666 | Over every run, failures included, the lazy ledger keeps the invariant, refines the eager one and gives the same replies |
| `LpGuarantees.ClaimsNeverShrink` | scripts/lp-fee-accounting-model.ts:249-254 | Nothing anybody does lowers what an account is told it can claim on a side, but its own consumption there |
| `LpGuarantees.ConsumeReturnsReported` | scripts/lp-fee-accounting-model.ts:407-421 | A consumption pays exactly what was reported before it and leaves zero; its liability guard never fires |
| `LpGuarantees.AuditsAlwaysPass` | scripts/lp-fee-accounting-model.ts:423-460 | In every state of every run the audit succeeds; liability = accrued − paid, carries + remainder = (liability − outstanding)·SCALE, custody = reserve + protocol fees + liability |
| `LpGuarantees.ReadsAreInvisible` | scripts/lp-fee-accounting-model.ts:249-265 | Leaving out all reads and audits of a run, which settle as they go, changes no other reply |
| `LpGuarantees.AuditIgnoresReads` | scripts/lp-fee-accounting-model.ts:423-460 | The figures of an audit are the same whether or not the run before it read and audited, and are those of the eager ledger |
| `LpGuarantees.NothingFractionalAtZeroSupply` | scripts/lp-fee-accounting-model.ts:300-311 | At zero supply no carry is left, and the remainder is zero or one whole unit |
| `LpGuarantees.FullExitStrandsNothing` | scripts/lp-fee-accounting-model.ts:552-586 | A burn that empties the pool leaves no remainder if and only if its account has a name or nothing fractional was there to hand back |
| `LpGuarantees.NamedExitsLeaveNothing` | scripts/lp-fee-accounting-model.ts:552-586 | In every run in which the nameless account never burns, zero supply means zero remainders |
| `LpGuarantees.NamelessExitStrandsAUnit` | scripts/lp-fee-accounting-model.ts:575-586 | The exception is real: three nameless shares, one unit of fee and a full burn strand that unit |
| `LpGuarantees.MintFromEmptyMovesNothing` | scripts/lp-fee-accounting-model.ts:287-298 | In such runs the redistribution of a mint from empty touches neither side |
| `LpGuarantees.RecycledGrowthGuardIsReachable` | scripts/lp-fee-accounting-model.ts:604-606 | One unit of fee and four full transfers between fresh accounts make the fifth fail on the recycled-growth guard |
| `LpGuarantees.TransferSucceedsExactly` | scripts/lp-fee-accounting-model.ts:609-618 | A transfer succeeds if and only if the shares are spendable, the parties differ and, if the sender empties, its recycled carry keeps growth within lifetime fees |
| `LpGuarantees.BurnSucceedsExactly` | scripts/lp-fee-accounting-model.ts:300-311 | A burn succeeds if and only if the shares are spendable and, if it empties its account but not the pool, the recycled carry keeps growth within lifetime fees |
| `LpGuarantees.PermanentLockStays` | scripts/lp-fee-accounting-model.ts:346-356 | No operation changes a permanent lock |
| `LpGuarantees.LockIsCovered` | scripts/lp-fee-accounting-model.ts:239-247 | An active lock never exceeds its owner's balance nor the supply |
| `LpGuarantees.PermanentLockPinsSupply` | scripts/lp-fee-accounting-model.ts:327-356 | Once a permanent lock exists the supply never drops below its amount again, so the pool is never emptied |
| `LpExactness.PoolOnly` | scripts/lp-fee-accounting-model.ts:624-626 | What needs the pool's authority is refused to everybody else, and changes nothing |
| `LpExactness.OpenToAll` | scripts/lp-fee-accounting-model.ts:249-325 | Transfers, approvals, reads and audits are refused to nobody for want of authority, in any reachable state |
| `LpExactness.NothingLockedAtFirst` | scripts/lp-fee-accounting-model.ts:239-247 | An account of the empty ledger has nothing locked |
| `LpExactness.LockExactly` | scripts/lp-fee-accounting-model.ts:327-344 | In every reachable state: a lock is granted exactly to the pool, in range, under a new id and for unlocked shares; its owner then has its amount more locked and nobody else |
| `LpExactness.UnlockExactly` | scripts/lp-fee-accounting-model.ts:346-356 | In every reachable state: an unlock is granted exactly to the pool, for an active, temporary, matured lock; its owner has exactly its amount less locked and nobody else |
| `LpExactness.OthersKeepLocks` | scripts/lp-fee-accounting-model.ts:239-356 | No other operation, and none that fails, changes what anybody has locked |
| `LpExactness.LockedIsHeldBack` | scripts/lp-fee-accounting-model.ts:239-247 | In every run the locked shares of an account are those that its granted lock requests hold back and no granted unlock has freed, computed from requests and replies alone |
| `LpExactness.LockThenUnlock` | scripts/lp-fee-accounting-model.ts:327-356 | After a lock and its matured unlock exactly the transfers and burns succeed that did before the lock; in between its owner has exactly its amount more locked |
| `LpEffects.SharesMove` | scripts/lp-fee-accounting-model.ts:287-325 | In every reachable state shares move by the amount of the operation, between its parties only; a full exit starts a generation |
| `LpEffects.AllowancesMove` | scripts/lp-fee-accounting-model.ts:271-325 | An approval sets its own allowance, a delegated transfer takes its amount off, and nothing else touches any |
| `LpEffects.ApproveExactly` | scripts/lp-fee-accounting-model.ts:271-281 | An approval is granted exactly for amounts of 256 bits |
| `LpEffects.TransferFromExactly` | scripts/lp-fee-accounting-model.ts:317-325 | A delegated transfer succeeds exactly within its allowance where the owner's own transfer would |
| `LpEffects.MoneyMoves` | scripts/lp-fee-accounting-model.ts:358-421 | Principal, swap fees and claims move reserve, fees, liability and custody of their side by exactly their amounts; nothing else does |
| `LpEffects.PrincipalExactly` | scripts/lp-fee-accounting-model.ts:358-368 | Principal is taken exactly from the pool, within the reserve cap and 256 bits of custody |
| `LpEffects.SwapFeesExactly` | scripts/lp-fee-accounting-model.ts:370-405 | Swap fees are taken exactly from the pool, within the caps, with shares for an LP fee and growth within lifetime fees |
| `LpEffects.ClaimExactly` | scripts/lp-fee-accounting-model.ts:407-421 | A claim succeeds exactly for the pool, pays the whole units owed and leaves the fraction |
| `LpEffects.MintExactly` | scripts/lp-fee-accounting-model.ts:287-298 | A mint succeeds exactly for the pool within the share cap, where from empty the leftovers dealt to the new shares keep growth within lifetime fees |
| `LpEffects.CreditsMove` | scripts/lp-fee-accounting-model.ts:370-607 | In every reachable state and to the last fraction: an LP fee and a recycled carry add their part per share to what an account is owed, a claim takes the whole units, and nothing else changes it |
| `LpModel.FungibleLpFeeModel.Mint` | scripts/lp-fee-accounting-model.ts:287-298 | The mutable mint is the transactional step of the ledger, rolled back when it fails |
| `LpModel.FungibleLpFeeModel.Burn` | scripts/lp-fee-accounting-model.ts:300-311 | The mutable burn is the transactional step of the ledger, rolled back when it fails |
| `LpModel.FungibleLpFeeModel.Transfer` | scripts/lp-fee-accounting-model.ts:313-315 | The mutable transfer is the transactional step, rolled back when it fails |
| `LpModel.FungibleLpFeeModel.TransferFrom` | scripts/lp-fee-accounting-model.ts:317-325 | The mutable delegated transfer is the transactional step; allowance and shares change together or not at all |
| `LpModel.FungibleLpFeeModel.Approve` | scripts/lp-fee-accounting-model.ts:271-281 | The mutable approval is the transactional step |
| `LpModel.FungibleLpFeeModel.Lock` | scripts/lp-fee-accounting-model.ts:327-344 | The mutable lock is the transactional step |
| `LpModel.FungibleLpFeeModel.Unlock` | scripts/lp-fee-accounting-model.ts:346-356 | The mutable unlock is the transactional step |
| `LpModel.FungibleLpFeeModel.CreditPrincipal` | scripts/lp-fee-accounting-model.ts:358-368 | The mutable principal credit is the transactional step, though it writes the reserve before custody can overflow |
| `LpModel.FungibleLpFeeModel.RecordSwapFees` | scripts/lp-fee-accounting-model.ts:370-405 | The mutable swap accounting is the transactional step, though it writes reserve and fees before the accrual can fail |
| `LpModel.FungibleLpFeeModel.ConsumeClaim` | scripts/lp-fee-accounting-model.ts:407-421 | The mutable claim is the transactional step and returns the claim |
| `LpModel.FungibleLpFeeModel.Read` | scripts/lp-fee-accounting-model.ts:249-265 | The settling reads are the transactional step and answer the settled claim or carry |
| `LpModel.FungibleLpFeeModel.Audit` | scripts/lp-fee-accounting-model.ts:423-460 | The mutable audit settles every holder, loops over them for the totals, and is the transactional step |
| `LpModel.FungibleLpFeeModel.Restore` | scripts/lp-fee-accounting-model.ts:658-665 | Restoring a snapshot gives back the whole earlier state |
| `ConstantProduct.NetIsFloor` | scripts/testnet-best-execution.ts:203-209 | The input after the fee is the whole part of amountIn·(10000 − feeBps)/10000 |
| `ConstantProduct.QuoteIsFloor` | scripts/testnet-best-execution.ts:203-215 | For the whole part `net` of the input after the fee: the quote succeeds exactly where it is positive, and is floor(reserveOut·net/(reserveIn + net)) |
| `ConstantProduct.QuoteStep` | scripts/testnet-best-execution.ts:203-215 | One more unit of reserve moves the output by 0 or 1 |
| `ConstantProduct.ReserveOutForExactQuote` | scripts/testnet-best-execution.ts:240-264 | Doubling and binary search return the least reserve of at least 1 whose output for the input after the fee is the target; for a positive target, or a zero one against a positive input reserve, it always succeeds |
| `ConstantProduct.PostSwapProductGrows` | scripts/testnet-best-execution.ts:217-238 | For the net input within the fee: exactly when the post-swap reserves exist; with the LP fee kept they never have a smaller product, and exactly the protocol fee leaves the input |
| `ConstantProduct.ProtocolFeeIsSixth` | scripts/testnet-best-execution.ts:235-238 | The protocol takes the whole part of a sixth of the fee |
| `ConstantProduct.SwapIsTight` | scripts/observable-price-model.ts:86-110 | For the net input within the fee: exactly when a swap succeeds; the input side gains the net input, the output side keeps the least reserve whose product is not below the old one, and both stay positive |
| `ConstantProduct.ProductNeverDecreases` | scripts/observable-price-model.ts:86-110 | Over any sequence of swaps in either direction the product never decreases and reserves stay positive |
| `ConstantProduct.NoFreeLunch` | scripts/observable-price-model.ts:86-110 | No sequence of swaps takes out of one reserve without leaving the other higher |
| `ConstantProduct.RoundTripNeverGains` | scripts/observable-price-model.ts:86-110 | Swapping an output straight back never returns more than the first input net of its fee |
| `ConstantProduct.SplittingNeverGains` | scripts/observable-price-model.ts:86-110 | Splitting a swap into any number of parts never yields more output than the single swap |
| `PriceObservation.NormalizedPriceIsFloor` | scripts/observable-price-model.ts:17-35 | The price is the whole part of token 1 over token 0 in 18 decimals, and exists exactly for positive reserves and decimals in 0 to 18 |
| `PriceObservation.ObservationIsCoarse` | scripts/observable-price-model.ts:37-84 | An observed bucket is the multiple of its quantum within one quantum below the price, or below half or twice the reference where the price lies outside; the quantum is the exact share of the reference |
| `PriceObservation.PowersOfTen` | scripts/observable-price-model.ts:17-35 | The scale of decimals is the power of ten, with 10^(18−n)·10^n = 10^18 |
| `PriceObservation.CandidateExactly` | scripts/observable-price-model.ts:131-165 | An input matches an observation exactly when its swap succeeds and the price it leaves, in whole quanta and clamped to half and twice the reference, is the observed one; written out in reserves and net input |
| `PriceObservation.SwapMonotone` | scripts/observable-price-model.ts:86-110 | A larger input succeeds where a smaller one does and moves both reserves at least as far |
| `PriceObservation.BucketMono` | scripts/observable-price-model.ts:17-84 | A higher price never has a lower bucket |
| `PriceObservation.CandidatesAreContiguous` | scripts/observable-price-model.ts:131-165 | Between two inputs that match an observation every input matches |
| `PriceObservation.InferAggregateInputRange` | scripts/observable-price-model.ts:131-165 | The scan returns the least and greatest matching input and how many match, which is maximum − minimum + 1, or nothing when none matches |
| `ReserveModel.SwapPoolConserves` | scripts/testnet-fee-collection.ts:156-188 | One modeled swap: custody changes by what is sent and what is paid, and the product never falls |
| `ReserveModel.SwapPoolExactly` | scripts/testnet-fee-collection.ts:156-188 | For the net input at 1% fee: exactly when a modeled swap succeeds, what it pays, the protocol's sixth of the fee, and the whole pool after it |
| `ReserveModel.ReplayConserves` | scripts/testnet-fee-collection.ts:190-210 | Over a whole replay custody is liquidity plus what came in minus what was paid, and the product never falls |
| `ReserveModel.RoundsSend` | scripts/testnet-fee-collection.ts:190-210 | The reconstructed rounds send each side its own count of swaps |
| `ReserveModel.RoundsAlternate` | scripts/testnet-fee-collection.ts:204-208 | Where each swap of either side stands in the replay: token 0 first in every round in which it is due, and nothing else is sent |
| `ReserveModel.EffectiveReserveModel.ApplyModeledSwap` | scripts/testnet-fee-collection.ts:156-188 | The in-place swap is the pool's swap, or refuses, a diverging quote included, and leaves the model as it was |
| `ReserveModel.ReconstructModel` | scripts/testnet-fee-collection.ts:190-210 | The reconstruction is the replay of those rounds |
| `RecoveryJournal.OutcomeReadableExactly` | scripts/funded-recovery-journal.ts:987-1010 | recordTransaction checks no transition: what it leaves can be reopened if and only if the block is not negative, a reopened entry still has its payload and no creation is unmined |
| `RecoveryJournal.OpenOutcomesFit` | scripts/funded-recovery-journal.ts:987-1010 | An outcome of an open transaction with a real block number always leaves a journal that can be reopened |
| `RecoveryJournal.MarkRunReadableExactly` | scripts/funded-recovery-journal.ts:1149-1152 | markRun checks nothing: the journal stays readable if and only if an evidence status comes with a plan |
| `RecoveryJournal.PreparedKeepsInv` | scripts/funded-recovery-journal.ts:899-941 | A prepared payload keeps the journal readable, its hashes and labels unique |
| `RecoveryJournal.BroadcastKeepsInv` | scripts/funded-recovery-journal.ts:943-959 | Recording a broadcast keeps the journal readable, its hashes and labels unique |
| `RecoveryJournal.ObservedKeepsInv` | scripts/funded-recovery-journal.ts:961-985 | An observed mined transaction keeps the journal readable, its hashes and labels unique |
| `RecoveryJournal.ResourceKeepsInv` | scripts/funded-recovery-journal.ts:1012-1047 | Recording a resource keeps the journal readable: every resource rests on a successful creation |
| `RecoveryJournal.RecoveredKeepsInv` | scripts/funded-recovery-journal.ts:1107-1128 | Recovering a resource keeps the journal readable: every recovered resource has evidence |
| `RecoveryJournal.MetadataKeepsInv` | scripts/funded-recovery-journal.ts:1130-1147 | A metadata update keeps the journal readable |
| `RecoveryJournal.ObligationKeepsInv` | scripts/funded-recovery-journal.ts:1049-1085 | Opening or reopening an obligation keeps the journal readable |
| `RecoveryJournal.ClearedKeepsInv` | scripts/funded-recovery-journal.ts:1087-1105 | Clearing an obligation keeps the journal readable |
| `RecoveryJournal.EvidenceKeepsInv` | scripts/funded-recovery-journal.ts:880-897 | Preparing evidence keeps the journal readable: the evidence status comes with its plan |
| `RecoveryJournal.ReconciledFits` | scripts/funded-recovery-journal.ts:1154-1185 | Whatever the chain answers, what reconciliation makes of a transaction keeps the journal readable: an open entry keeps its payload, a terminal one stays |
| `RecoveryJournal.IdentityIsExact` | scripts/funded-recovery-journal.ts:299-329 | A stored payload identifies its transaction exactly by hash, the journal's chain and signer, and a nonce |
| `RecoveryJournal.ReconciledIsAsAnswered` | scripts/funded-recovery-journal.ts:1154-1185 | What each answer makes of an entry, in statuses: absent or unidentified becomes outcome-unknown, pending and unconfirmed stay, confirmed gets outcome and block and loses the payload |
| `RecoveryJournal.AbsentIsResent` | scripts/funded-recovery-journal.ts:1169-1220 | An identified entry reconciled as absent is eligible for the identical rebroadcast, whatever else was reconciled: its own bytes are sent |
| `RecoveryJournal.DistinctInOrder` | scripts/funded-recovery-journal.ts:1103 | Evidence is kept once each, and what is added later never moves what stood before it |
| `RecoveryJournal.RebroadcastKeepsInv` | scripts/funded-recovery-journal.ts:1187-1220 | A rebroadcast keeps the journal readable, whatever chain and network answer |
| `RecoveryJournal.RebroadcastIsIdentical` | scripts/funded-recovery-journal.ts:1187-1220 | A rebroadcast sends only the recorded bytes of an open transaction the chain does not know, and records a broadcast only on that transaction's own hash |
| `JournalLives.PreparedExactly` | scripts/funded-recovery-journal.ts:899-941 | In every journal a payload is recorded exactly when the run is not over, and it is the same submission again or label and payload are new; the journal then has it under its label and is as before elsewhere |
| `JournalLives.BroadcastExactly` | scripts/funded-recovery-journal.ts:943-959 | In every journal exactly a prepared entry of that label and hash becomes broadcast, and nothing else changes |
| `JournalLives.ObservedExactly` | scripts/funded-recovery-journal.ts:961-985 | In every journal a mined transaction is recorded exactly when label and hash are new, or it is recorded so already; the entry has status, block and no payload |
| `JournalLives.OutcomeExactly` | scripts/funded-recovery-journal.ts:987-1010 | In every journal any outcome is recorded of exactly the journaled hashes: status, block if given, payload dropped once mined |
| `JournalLives.EvidenceExactly` | scripts/funded-recovery-journal.ts:880-897 | Evidence can be prepared exactly when everything is recovered, cleared and mined, and the plan is valid and no other one |
| `JournalLives.BrokenIsRefused` | scripts/funded-recovery-journal.ts:584-676 | A stored journal with a nameless, negative, payload-less or unsupported entry, or an evidence status without a plan, is refused |
| `JournalLives.RebroadcastExactly` | scripts/funded-recovery-journal.ts:1187-1220 | In every journal: which entries can be rebroadcast, what is sent, and what is recorded for each answer and response |
| `JournalLives.LabelIsSpent` | scripts/funded-recovery-journal.ts:928-932 | A journaled label never takes another payload |
| `JournalLives.PayloadIsBound` | scripts/funded-recovery-journal.ts:915-927 | A journaled payload is refused under any other label |
| `JournalLives.LifeOfATransaction` | scripts/funded-recovery-journal.ts:943-1010 | A prepared entry of any journal is broadcast once, under its own label only, and mined once; each transition changes that entry only; the mined payload is refused under every label |
| `JournalLives.OpenedExactly` | scripts/funded-recovery-journal.ts:1049-1085 | In every journal an obligation is opened exactly when it is well formed and its id is new or names the same allowance; it is then active, without evidence unless it was active before, and nothing else changed |
| `JournalLives.ClearedExactly` | scripts/funded-recovery-journal.ts:1087-1105 | In every journal a known obligation is cleared exactly on mined evidence, which it then has once each |
| `JournalLives.LifeOfAnObligation` | scripts/funded-recovery-journal.ts:1049-1105 | Once open, every other identity is refused; clearing needs mined evidence and keeps it once each; reopening takes it away |
| `JournalLives.ResourceExactly` | scripts/funded-recovery-journal.ts:1012-1047 | In every journal a resource is recorded exactly when it is well formed, its creation is mined, and its id is new or names the same resource |
| `JournalLives.LifeOfAResource` | scripts/funded-recovery-journal.ts:1012-1147 | A known resource refuses every other kind, address and creation, is recovered exactly on evidence that is not empty and mined, and merges metadata |
| `JournalModel.FundedRecoveryJournal.Open` | scripts/funded-recovery-journal.ts:759-822 | Accepts exactly a well formed identity with no stored journal, or a readable one of that identity, and holds it; it is valid exactly when labels and hashes are unique and open entries have their payload |
| `JournalModel.FundedRecoveryJournal.Create` | scripts/funded-recovery-journal.ts:759-822 | A new journal is empty and active |
| `JournalModel.FundedRecoveryJournal.PrepareEvidence` | scripts/funded-recovery-journal.ts:880-897 | Durably sets plan and status, or refuses in the source's order and changes nothing |
| `JournalModel.FundedRecoveryJournal.RecordPreparedTransaction` | scripts/funded-recovery-journal.ts:899-941 | Durably appends the signed payload, accepts its exact repetition, refuses everything else |
| `JournalModel.FundedRecoveryJournal.RecordBroadcastTransaction` | scripts/funded-recovery-journal.ts:943-959 | Durably turns a prepared entry of that label and hash into a broadcast one, or refuses |
| `JournalModel.FundedRecoveryJournal.RecordObservedMinedTransaction` | scripts/funded-recovery-journal.ts:961-985 | Durably appends a mined transaction, accepts its exact repetition, refuses a conflict |
| `JournalModel.FundedRecoveryJournal.RecordOutcome` | scripts/funded-recovery-journal.ts:987-1010 | Durably records any outcome of a journaled hash and drops the payload of a mined one; the journal stays valid if and only if the outcome fits |
| `JournalModel.FundedRecoveryJournal.RecordResource` | scripts/funded-recovery-journal.ts:1012-1047 | Durably appends a resource or accepts its repetition |
| `JournalModel.FundedRecoveryJournal.RecordAllowanceObligation` | scripts/funded-recovery-journal.ts:1049-1085 | Durably opens or reopens an obligation, or refuses another identity |
| `JournalModel.FundedRecoveryJournal.MarkAllowanceCleared` | scripts/funded-recovery-journal.ts:1087-1105 | The loop over the evidence accepts exactly mined hashes; the obligation is then durably cleared |
| `JournalModel.FundedRecoveryJournal.MarkRecovered` | scripts/funded-recovery-journal.ts:1107-1128 | The loop over the evidence accepts exactly mined hashes; the resource is then durably recovered |
| `JournalModel.FundedRecoveryJournal.UpdateResourceMetadata` | scripts/funded-recovery-journal.ts:1130-1147 | Durably merges metadata |
| `JournalModel.FundedRecoveryJournal.MarkRun` | scripts/funded-recovery-journal.ts:1149-1152 | Durably sets any run status; the journal stays valid if and only if an evidence status comes with a plan |
| `JournalModel.FundedRecoveryJournal.ReconcileOne` | scripts/funded-recovery-journal.ts:1155-1183 | One transaction asked about and recorded as answered, status by status; says whether it stays open |
| `JournalModel.FundedRecoveryJournal.ReconcileTransactions` | scripts/funded-recovery-journal.ts:1154-1185 | Every entry is afterwards as the chain answered, status by status; what it answered absent is sent by the next rebroadcast under that answer; the result lists exactly the hashes that stay open, in order |
| `JournalModel.FundedRecoveryJournal.RebroadcastIdenticalTransaction` | scripts/funded-recovery-journal.ts:1187-1220 | Sends and records what the pure rebroadcast says |
| `FundedSafety.StepKeepsInv` | scripts/funded-transaction-wallet.ts:231-289 | Every step of the process, the chain, every crash and every catch handler keeps the protocol's invariant |
| `FundedSafety.RunKeepsInv` | scripts/funded-transaction-wallet.ts:231-289 | Over every run, with any crashes and any handlers, the invariant holds from every state that satisfies it |
| `FundedSafety.ObligingCovers` | scripts/funded-recovery-journal.ts:1049-1085 | Recording an obligation covers its allowance, and changes the coverage of no other |
| `FundedSafety.ClearingUncovers` | scripts/funded-recovery-journal.ts:1087-1105 | Clearing uncovers that allowance and no other |
| `FundedSafety.CoveredExactly` | scripts/funded-recovery-journal.ts:1049-1105 | An allowance is covered if and only if the obligation of its own id exists and is active |
| `FundedSafety.IdNamesKey` | scripts/funded-private-allowance.ts:26-28 | An obligation id determines owner, token and spender |
| `FundedSafety.UnminedIsOpen` | scripts/funded-transaction-wallet.ts:258-279 | Whatever was sent and is not mined is an open entry of the journal |
| `FundedCoverage.StepProtects` | scripts/funded-private-allowance.ts:48-94 | Every step but a clearing that does not fit keeps allowances and open grants covered |
| `FundedCoverage.GuardedClearFits` | scripts/funded-private-allowance.ts:88-92 | A clearing fits when the journal has no open entry that grants the allowance: what was read as zero still is, and nothing can raise it |
| `FundedCoverage.UnfitClearUncovers` | scripts/funded-recovery-journal.ts:1087-1105 | After every clearing that does not fit, some run without further clearings leaves the allowance positive and uncovered |
| `FundedCoverage.CoveredExactlyWhenClearsFit` | scripts/funded-private-allowance.ts:48-122 | From every sound state, a run keeps allowances covered, whatever happens before the next clearing, if and only if all its clearings fit |
| `FundedCoverage.UnhandledRunIsGuarded` | scripts/testnet-harness.ts:313-318 | Without a catch handler nothing is open at a clearing |
| `FundedGuarantees.SentIsJournaled` | scripts/funded-transaction-wallet.ts:256-272 | At every point of every run, handlers included, everything sent is journaled under its label with its hash, and no label has two payloads |
| `FundedGuarantees.WrittenBeforeSent` | scripts/funded-transaction-wallet.ts:256-272 | Whatever a step of any run newly sends, first sends and rebroadcasts alike, was in the durable journal before that step with these very bytes |
| `FundedGuarantees.EntriesStay` | scripts/funded-recovery-journal.ts:899-1010 | Over any continuation a label keeps its hash and a settled transaction stays as it is |
| `FundedGuarantees.EveryReloadSucceeds` | scripts/funded-recovery-journal.ts:584-676 | Every journal that any run leaves behind is accepted when it is opened again |
| `FundedGuarantees.AllowancesAreCovered` | scripts/funded-private-allowance.ts:48-94 | In every run whose clearings fit, and so in every run that clears only with no open entry granting the allowance, no private allowance is positive without an active obligation in the durable journal |
| `FundedGuarantees.AllowancesCoveredExactly` | scripts/funded-private-allowance.ts:48-122 | From the start: allowances stay covered, whatever happens before the next clearing, if and only if every clearing finds the allowance zero and no open entry that can raise it |
| `FundedGuarantees.UnhandledRunsAreCovered` | scripts/testnet-harness.ts:305-318 | Runs without a catch handler, as of the runners that stop at the gate, keep allowances covered with crashes anywhere |
| `FundedGuarantees.HandledRecoveryUncovers` | scripts/testnet-position-read.ts:931-953 | From every initial state and for every allowance, a failed gate and a handler that recovers all the same lead to a recovery that completes with a grant in flight, to the allowance positive without an active obligation, and to prepared evidence with the allowance open |
| `FundedGuarantees.EvidenceMeansMined` | scripts/funded-recovery-journal.ts:880-897 | In every run evidence can be prepared only once everything sent is mined; all allowances are zero then if and only if they are covered, as they are when the clearings fit |
| `FundedGuarantees.RecoveryLeavesNothing` | scripts/funded-private-allowance.ts:96-122 | A recovery that completes leaves no active obligation in any run; no allowance if the clearings fit; and nothing in flight outside a handler |
| `FundedGuarantees.ReadyMeansSettled` | scripts/testnet-harness.ts:313-326 | Past the reconciliation gate, whenever no handler is at work and nothing is being sent, everything ever sent is mined |
| `FundedGuarantees.ClearingIsSafeExactly` | scripts/funded-recovery-journal.ts:1087-1105 | markAllowanceCleared looks at neither; clearing keeps every allowance covered, now and after whatever the chain does next, if and only if the allowance is zero and no grant for it is in flight |
| `FundedGuarantees.ClearingIsSafeUntilTheNext` | scripts/funded-recovery-journal.ts:1087-1105 | And it keeps them covered whatever happens before the next clearing, rebroadcasts included, if and only if no open entry can raise the allowance either |
| `FundedExecution.FundedRun.SendPreparedFundedTransaction` | scripts/funded-transaction-wallet.ts:231-289 | Journal, nonce, network and broadcast record in this order; a success means the payload was sent and recorded; nothing else is sent; what was sent and not noted is recorded as unknown; all of it is a run of the protocol |
| `FundedExecution.FundedRun.RecordUnknownBroadcastOutcome` | scripts/funded-transaction-wallet.ts:208-229 | The entry of that label and hash becomes outcome-unknown, nothing else changes, and the run ends |
| `FundedExecution.FundedRun.Submit` | scripts/testnet-harness.ts:69-103 | A submission goes on only when its own payload was mined successfully, which the journal then has with its block; a failed or unanswered one is recorded as that |
| `FundedExecution.FundedRun.SetRecoverablePrivateAllowance` | scripts/funded-private-allowance.ts:48-94 | Obligation, reset, grant, read and clearing in this order, in a handler or not; success means the allowance is the amount, the hashes are those of the mined reset and grant that were due, none exactly if the allowance was right, and a cleared obligation has them as evidence; nothing but these approvals is sent |
| `FundedExecution.FundedRun.RecoverPrivateAllowanceObligations` | scripts/funded-private-allowance.ts:96-122 | The loop over active obligations, in a handler or not: success leaves none active; no allowance if the clearings fit; nothing in flight outside a handler; all it sends are resets of active obligations |
| `FundedExecution.FundedRun.CatchFailure` | scripts/testnet-position-read.ts:941-961 | The catch handler recovers allowances with whatever is open and marks the run failed, or its recovery |
| `FundedExecution.FundedRun.Start` | scripts/testnet-harness.ts:305-318 | The program goes on if and only if reconciliation leaves nothing open, and then everything sent is mined; else it throws |
| `CanonicalIdentity.CanonicalIdentifies` | scripts/funded-run-evidence.ts:479-486 | Two values without duplicate keys have the same text if and only if they are the same JSON value, whatever the order of keys |
| `CanonicalIdentity.CanonicalReadsBack` | scripts/funded-run-evidence.ts:479-486 | A JSON reader recovers from the text exactly the value with its keys in order |
| `CanonicalIdentity.NormalIsAscending` | scripts/funded-run-evidence.ts:483 | The keys of every object are written in ascending order of code units, each with its own value |
| `CanonicalIdentity.StringReadsBack` | scripts/funded-run-evidence.ts:480 | Escaped strings, lone surrogates included, read back as they were |
| `CanonicalText.OrdinaryIsItself` | scripts/funded-run-evidence.ts:480-485 | A text without controls, quotation marks, backslashes and surrogates is written as it is, the solidus included |
| `CanonicalText.PairIsItself` | scripts/funded-run-evidence.ts:480-485 | A pair of surrogates is written as it is |
| `CanonicalText.EscapeJoins` | scripts/funded-run-evidence.ts:480-485 | Strings are written piece by piece wherever no pair of surrogates is split |
| `CanonicalText.ShortEscapes` | scripts/funded-run-evidence.ts:480-485 | The seven escapes of two units, each written out |
| `CanonicalText.OthersByNumber` | scripts/funded-run-evidence.ts:480-485 | Every other control and every lone surrogate is written as a backslash, u and its four lower-case hexadecimal digits |
| `CanonicalText.NumbersArePlain` | scripts/funded-run-evidence.ts:480 | A number is written in decimal without leading zeros, behind a minus sign exactly when negative |
| `CanonicalText.TextsOfScalars` | scripts/funded-run-evidence.ts:479-486 | The words, the quotation marks around strings, and empty arrays and objects, written out |
| `CanonicalText.TextOfItems` | scripts/funded-run-evidence.ts:481 | Items stand in order between brackets, with one comma between two of them and nothing else |
| `CanonicalText.TextOfMember` | scripts/funded-run-evidence.ts:483-485 | A member is its key as a string, a colon and its value |
| `CanonicalText.TextOfMembers` | scripts/funded-run-evidence.ts:483-485 | The member with the first key stands in front of the text of all others, with one comma between |
| `CanonicalText.LessAtFirstDifference` | scripts/funded-run-evidence.ts:483 | The order of keys: the lesser code unit where they first differ, or the shorter where one begins the other |
| `Packing.PackThenUnpack` | scripts/phase2d-it-packing.ts:28-40 | Packing refuses exactly fields that do not fit, and unpacking gives the pair back |
| `Packing.UnpackThenPack` | scripts/phase2d-it-packing.ts:28-40 | A word is 2^128 times its high field plus its low one, both below 2^128, and the packing of these |
| `Packing.BoundsAreExact` | scripts/phase2d-it-packing.ts:60-79 | The price bounds lie exactly floor(price·deviation/10000) around the price, the upper one capped at 256 bits, and no intermediate leaves 256 bits |
| `PackingTransitions.PackedHistoryIsSeparate` | scripts/phase2d-it-packing.ts:109-135 | On every history packing the calls changes no reply, no failure and no state |
| `PackingTransitions.UnpackedHistoryIsPacked` | scripts/phase2d-it-packing.ts:109-135 | Conversely every packed history is the separate one of its fields |
| `PackingTransitions.SuccessesAreConsumed` | scripts/phase2d-it-packing.ts:102-185 | The consumed ids are exactly those of successful calls, none succeeds twice, and the counter is their number |
| `PackingTransitions.CallsCountRequests` | scripts/phase2d-it-packing.ts:102-107 | From the start the success counter is the number of consumed ids |
| `PackingTransitions.NoTransitionOverflows` | scripts/phase2d-it-packing.ts:137-165 | The overflow guards never fire |
| `PackingTransitions.ReplayIsRefusedExactly` | scripts/phase2d-it-packing.ts:167-173 | A call whose id writes the value of a used one, and whose fields pass, succeeds if and only if its own spelling is not used; in normal form it is always refused |
| `PackingTransitions.NoReplayExactly` | scripts/phase2d-it-packing.ts:167-173 | On every history over a set of ids no 32-byte value succeeds twice, if and only if the set has at most one valid spelling of each value |
| `PackingTransitions.NormalFormsAreNeverReplayed` | scripts/phase2d-it-packing.ts:167-173 | On every history whose ids are in lower case, prefix included, no 32-byte value succeeds twice |
| `PackingTransitions.SpellingsBothSucceed` | scripts/phase2d-it-packing.ts:167-173 | Any two spellings of one value both succeed, one after the other |
| `PackingTransitions.SpellingsAreDistinct` | scripts/phase2d-it-packing.ts:167-173 | There is a value with two valid spellings |
| `PackingTransitions.SwapExactly` | scripts/phase2d-it-packing.ts:137-153 | A swap succeeds exactly under a valid unused id, within its deadline, with fields of 128 bits, a positive input and a minimum of at most twice it; it pays twice the input; every refusal in its order |
| `PackingTransitions.LiquidityExactly` | scripts/phase2d-it-packing.ts:155-165 | A liquidity call succeeds exactly under a valid unused id with two positive fields of 128 bits, and pays their sum; every refusal in its order |
| `PackingTransitions.IdsExactly` | scripts/phase2d-it-packing.ts:167-173 | A valid id is 0x, in either case, before 64 hexadecimal digits in either case that are not all zero |
| `PackingTransitions.PackingTransitionModel.Consume` | scripts/phase2d-it-packing.ts:167-173 | Marks a valid unused id, or says which of the two it is not |
| `PackingTransitions.PackingTransitionModel.SwapSeparate` | scripts/phase2d-it-packing.ts:109-117 | The mutable call is the transition, rolled back when it fails |
| `PackingTransitions.PackingTransitionModel.SwapPacked` | scripts/phase2d-it-packing.ts:119-124 | The mutable packed call is the transition on the unpacked fields, rolled back when it fails; a word that does not fit changes nothing |
| `PackingTransitions.PackingTransitionModel.LiquiditySeparate` | scripts/phase2d-it-packing.ts:126-128 | The mutable liquidity call is the transition, rolled back when it fails |
| `PackingTransitions.PackingTransitionModel.LiquidityPacked` | scripts/phase2d-it-packing.ts:130-135 | The mutable packed liquidity call is the transition on the unpacked fields, rolled back when it fails |
| `Slippage.MinimumIsTight` | scripts/testnet-slippage.ts:20-33 | The minimum is value·(1 − slippage) rounded up, never below 1 nor above the value; refused exactly outside the ranges |
| `Slippage.BoundsEncloseThePrice` | scripts/testnet-slippage.ts:50-72 | The exact price lies between the returned bounds, the maximum fits in 256 bits, and the initial shares lie in 1 to the lesser amount |
| `Slippage.BoundsAreTight` | scripts/testnet-slippage.ts:56-72 | The maximum is the least integer that leaves the slippage above the rounded-up price, the minimum the least that leaves it below the rounded-down one, the shares likewise or 1 once initialized |
| `Slippage.BoundsExistExactly` | scripts/testnet-slippage.ts:52-68 | Bounds are returned if and only if the price is at least one quantum, everything fits and the slippage is allowed |
| `Slippage.AmountsAreEnclosed` | scripts/testnet-slippage.ts:35-73 | For amounts in their own decimals: whenever bounds are returned they enclose the price of the normalized amounts, and the shares lie in their range |
| `Slippage.NormalizedExactly` | scripts/testnet-slippage.ts:54-55 | A normalized amount is the amount times 10^18 over its own scale, exactly |

## Left out

- Solidity contracts, SDK sources, deployment, preflight and gas scripts, wallets, environment parsing and console output are not part of this model.
- Encryption, HMAC, signatures, ABI coding and Keccak: a hash is a symbol for its payload, so it is free of collisions; a signed transaction is its signer, chain, nonce and call.
- Addresses, hashes and the keys made from them are taken in one normal form, so the case conversions around their comparisons are not modeled; an address is checked for its shape only.
- The append log behind the journal is one atomic durable write that succeeds unless the process crashes; a failing write that the process survives, the journal's encryption envelope and its directory checks are not modeled.
- The nonce coordinator is an answer that may refuse; that two payloads never share a nonce is not claimed.
- Chain reorganisations: what the chain reports as confirmed, or a receipt shows, stays mined.
- Liveness of recovery: a repeated recovery label is refused, so only what holds when a recovery completes is claimed.
- Timestamps, source commits, deployment bindings and the other provenance fields of the journal, and the inner checks of evidence plans beyond their lists being filled; metadata values are strings.
- The safe-integer test on block numbers, which the model has as unbounded integers.
- `inspect` and the other plain getters of the fee model, the insertion order of its holders, and the messages of its errors beyond their kind.
- `shouldPublishObservation`, `deriveInitialShares`, the three named wrappers of `packUint128Pair` and the environment default of the slippage: each is settled by reading its body.
- `bigint` type tests of the packing functions: the model's numbers are integers by type.
- Canonical text of numbers other than safe integers, of `undefined` and of values with a `toJSON`: the model has null, booleans, safe integers, strings, arrays and objects.
- The rest of `funded-run-evidence.ts`, `deployment-transaction-provenance.ts` and the on-chain verification of resources: conjunctions of field checks.
- LpLedger.SettleAll: when several holders of an unsound ledger could not be settled, the model does not fix whose failure is reported; on every reachable ledger none fails.
- FundedGuarantees.AllowancesAreCovered: speaks of allowances raised through the modeled call; an approval the owner sends outside the journal is not modeled.
- ReserveModel.SwapPoolConserves: reserves are not negative, as in every pool the runners build.
- ConstantProduct.ReserveOutForExactQuote: the input reserve is not negative, as in every call of the runners.

# DIA Cardano oracle: verified core

A Dafny 4.11 model of the logic behind the DIA oracle's off-chain tooling on Cardano, with proofs of what that logic
promises. `dafny verify dfyconfig.toml` checks all of it.

The system keeps price pairs as NFT-bearing UTxOs. Every client prepays into a *Receiver*; an oracle update moves a
protocol fee from the Receiver's balance to its accrued fees; a *settle* moves accrued fees of several clients into the
shared *PaymentHook*; admins withdraw from there and can decommission everything. Around this ledger stand a planner
that shapes wallets into many small UTxOs, a repair command for duplicate pairs, loops that wait for and retry an
unreliable chain provider, and the datum codecs.

## How the files are organised

| file | what it models |
|---|---|
| `Prelude.dfy` | options, results, folds over sequences and maps |
| `WalletShape.dfy` | the planner: two minting loops, the split decision, what a stopped wallet looks like |
| `WalletDynamics.dfy` | split and funding as state changes: termination, conservation, when the planner rests |
| `WalletTransactions.dfy` | the two commands as they run: pinning, the output loop, two wallets |
| `FeeLedger.dfy` | all script-locked lovelace as one ledger with one step per command |
| `LedgerInvariant.dfy` | conservation, backing and per-client accounting over every run |
| `Charges.dfy` | what commands charge, sweep and set, in the fields of Config, deposits and datums; when each command runs |
| `Isolation.dfy` | what belongs to one client changes only through commands that concern it |
| `Validators.dfy` | the Aiken transitions as an independent reference for the steps |
| `PairRepair.dfy` | units with several pair UTxOs, and the repair command's burns on the ledger |
| `Teardown.dfy` | the decommissioning sequence: when it is enabled, what it recovers, why its order matters |
| `Deployment.dfy` | a deployment as a class whose methods are the commands; the class invariant is reachability |
| `Freshness.dfy` | the published values over whole runs: what moves back, when an intent is accepted twice, when a unit gets a second UTxO |
| `Deposits.dfy` | side deposits: selection, cap, repeated merges |
| `HexCodec.dfy`, `BatchOrder.dfy` | hex against bytes, batch checks, the canonical order |
| `PairDedup.dfy` | grouping, choice of the survivor, burn loops with outages |
| `WalletWait.dfy`, `UnitWait.dfy`, `TxConfirmation.dfy` | waiting for a provider that answers anything |
| `ProviderRetry.dfy`, `TxBuild.dfy` | retrying calls, rebuilding transactions |
| `LogScan.dfy` | chunked log scans against one whole-range scan |
| `SettleManifest.dfy` | the manifest against the loaded clients |
| `Decimals.dfy`, `Datums.dfy` | decimal texts and Plutus Data encodings |
| `DatumLayout.dfy` | the contracts' records as an independent reference for encoders and decoders |

Code that updates variables is a method with loops or a class with fields, tied by its `ensures` to a function or a
declarative condition; code made of expressions is functions and lemmas. A provider is a function from the poll index to
a reply, so every statement about a loop holds for every reply sequence. Thrown errors are `Result` or `Option` values.

## Where the code and its comments differ

The model follows the code; each difference is a lemma, and where a promise fails the exact condition is proved.

- A freshly funded pool "needs no second split": true for an empty pool; for every pool at rest and every amount it holds
  exactly for profiles whose lanes can give up a collateral piece (`FundingIsFinalExactlyWhenRoomy`).
- The documented pool target lands exactly the profile if and only if the fee buffer is at most one collateral piece
  (`TargetFundingIsExact`).
- The nonce stored at creation is called the anti-replay anchor. It is for updates (`ReplayIsRefused`), not for creates:
  those only mean that a local file is missing, and one for a live pair is built and accepted, word for word twice in a
  row (`DoubleCreateLands`, `DuplicatesAreReachable`). A published intent is accepted again exactly as a create within
  the drift and in time (`ReplayedExactlyAsCreate`); a unit gets a second UTxO exactly through such a create
  (`DuplicatesAppearExactly`) and is then blocked (`DuplicatesBlock`) until repaired (`RepairRestoresSingletons`).
- The repair is said to keep the most recent value and keeps the highest nonce, which a create need not give to the latest
  timestamp (`RepairCanMoveBack`, `BurnKeepsValueExactly`).
- An expiry of 0 is said to mean "not enforced"; such an intent passes the check and can never land
  (`ZeroExpiryNeverLands`, `PassesButCannotLandExactly`).
- The teardown expects one UTxO for every pair; with a duplicated unit it stops (`TearDownRecoversEverything`), after a
  repair it always runs to the end (`EveryLedgerCanBeTornDown`).
- A teardown pays out everything except deposits that were never merged (`NothingIsLeftExactlyWhenSwept`,
  `PendingDepositSurvives`): burning a Receiver strands them for good (`ReceiverBurnStrandsDeposits`). Burning the
  Config has no guard although it freezes all lovelace that is left (`ConfigBurnFreezes`).
- The batch duplicate test compares units as text, so two spellings of one token name pass it and no order of that
  batch is strictly ascending (`CaseTwinsPassTheDuplicateCheck`, `SortedBatchIsStrictExactly`).
- Deposits that carry a datum are said to be skipped; the filter does not look at datums (`DatumIsNotChecked`,
  `DatumsStayExactlyWhenNotReached`).
- A wait is said never to be without an input to wait for; inputs outside the snapshot it was given are not waited for, and
  the burns of one repair run share a snapshot (`WaitCoversExactlyTheSnapshot`, `SharedSnapshotSpendsTwice`).
- Only two confident "not found" answers are said to abandon a wait; a 2xx body that is no list counts as one
  (`ConfidentExactlyForLists`, `EmptyObjectAbandons`).
- `waitForUnitUtxoReplacement` runs its fallback even when the transaction hash is given
  (`PickIsOwnOutputExactlyWhenListed`, `FallbackReturnsForeignOutput`).
- The Koios stage reports three "consecutive" server errors, but empty answers in between do not reset the count
  (`GivesUpWithoutConsecutiveErrors`, `ConsecutiveExactlyWhenNoneEmpty`).
- Quota errors are said never to be retried; one whose text also has a transient marker is (`QuotaErrorCanBeRetried`,
  `RetriedExactlyWhenMarked`), and an error counted as rate limiting need not be (`RateLimitTextIsNotRetried`). Any message
  that ends in `402` counts as a quota error (`HashEndingIn402LooksLikeQuota`, `HashCountsByItsEnding`).

## Model

| member | source | states |
|---|---|---|
| WalletShape.PlanShapeOutputs | offchain/cli/src/wallet/split-plan.ts:70-115 | lanes, then collateral once the lanes are full, then the absorbed remainder: the loops give the list that `PiecesInClosedForm` spells out |
| WalletShape.CountsArePositions | offchain/cli/src/wallet/split-plan.ts:76-81 | lanes and collateral are the positions of UTxOs that hold only ADA and have the size |
| WalletShape.PiecesInClosedForm | offchain/cli/src/wallet/split-plan.ts:70-115 | every list of pieces in closed form from those positions: how many lanes, collateral pieces and whether a remainder |
| WalletShape.TokensDoNotMatter | offchain/cli/src/wallet/split-plan.ts:76-76 | a token-bearing UTxO, anywhere in the listing and of any size, changes neither the pieces nor any plan |
| WalletShape.MintLanes | offchain/cli/src/wallet/split-plan.ts:88-94 | the loop over the lanes pushes as many pieces as `Minted` counts and leaves `Unminted` |
| WalletShape.MintCollateral | offchain/cli/src/wallet/split-plan.ts:96-109 | the loop over the collateral, behind the lanes, does the same |
| WalletShape.MintedClosedForm | offchain/cli/src/wallet/split-plan.ts:88-109 | a loop mints as many pieces as are missing or as the amount above the buffer holds, whichever is less |
| WalletShape.MintedStops | offchain/cli/src/wallet/split-plan.ts:88-109 | a loop stops only when nothing is missing or one more piece would eat into the buffer |
| WalletShape.PieceBounds | offchain/cli/src/wallet/split-plan.ts:80-114 | working first: collateral only once the lanes are full; pieces and remainder add up to the available amount |
| WalletShape.PlanWalletSplit | offchain/cli/src/wallet/split-plan.ts:127-142 | the decision is the one for some largest pure-ADA UTxO, and `already_shaped` without any; with `TokensDoNotMatter`, that of the wallet's pure-ADA part |
| WalletShape.PlanIgnoresTies | offchain/cli/src/wallet/split-plan.ts:128-131 | which of several largest UTxOs the sort puts first changes neither the pieces nor the reason |
| WalletShape.ActsExactlyWhen | offchain/cli/src/wallet/split-plan.ts:133-141 | a split is planned if and only if the largest UTxO can give up a piece that the rest of the wallet lacks |
| WalletShape.StoppedShape | offchain/cli/src/wallet/split-plan.ts:117-140 | a stopped wallet: when it says `already_shaped`, that nothing big is left, and when collateral is complete |
| WalletDynamics.PlanExecutes | offchain/cli/src/transactions/split-wallet.ts:58-107 | a plan made from a live wallet can be carried out with every fee below the buffer |
| WalletDynamics.SplitConserves | offchain/cli/src/transactions/split-wallet.ts:84-107 | a split lowers the pure-ADA total by exactly the fee and leaves token-bearing UTxOs alone |
| WalletDynamics.SplitLowersSquares | offchain/cli/src/wallet/split-plan.ts:117-126 | the sum of squared sizes strictly falls with every split |
| WalletDynamics.SplitKeepsShape | offchain/cli/src/wallet/split-plan.ts:127-142 | no split costs a lane or a collateral UTxO that the profile still counts on |
| WalletDynamics.SplitAddsPiece | offchain/cli/src/wallet/split-plan.ts:88-109 | every split leaves at least one more UTxO of the smallest size a split can create |
| WalletDynamics.RunIsShort | offchain/cli/src/wallet/split-plan.ts:117-126 | repeated splitting stops: splits times the smallest new piece is at most the total lovelace |
| WalletDynamics.FundingLandsWhole | offchain/cli/src/wallet/split-plan.ts:64-68 | funding with at least the buffer pays out exactly the amount, in positive pieces |
| WalletDynamics.FundingKeepsRest | offchain/cli/src/wallet/split-plan.ts:13-16 | funding a wallet at rest leaves it at rest, for roomy profiles or a pool without pure ADA |
| WalletDynamics.FundingIsFinalExactlyWhenRoomy | offchain/cli/src/wallet/split-plan.ts:13-16 | "no second split" holds for every pool at rest and every amount if and only if the profile is roomy |
| WalletDynamics.CrampedProfileSplitsAgain | offchain/cli/src/wallet/split-plan.ts:96-109 | the failing family: every other profile has a pool at rest that is split right after funding |
| WalletDynamics.TargetFundingIsExact | offchain/cli/src/__tests__/run-tests.ts:1173-1178 | funding the documented target lands exactly the profile if and only if buffer ≤ collateral |
| WalletTransactions.Wallet.SplitWallet | offchain/cli/src/transactions/split-wallet.ts:64-115 | guards, pin, output loop and release leave exactly the wallet of `ExecuteSplit`: the inputs are gone, output k carries piece k, all other UTxOs stay, and the fee is all that is lost; a refusal changes no UTxO, and only a failed build leaves the pin set |
| WalletTransactions.FundPoolWallet | offchain/cli/src/transactions/fund-pool-wallet.ts:65-111 | the pool gains exactly the pieces, both wallets together lose exactly the fee, unreserved inputs stay; when it is refused, and when that leaves the pin set |
| WalletTransactions.FundEmptyPool | offchain/cli/src/wallet/split-plan.ts:13-16 | plan, pay, plan again: the empty pool holds the whole amount and the planner does not act |
| LedgerInvariant.StepKeepsInv | offchain/cli/src/transactions/receiver-top-up.ts:64-130 | every command keeps backing, client balances, fee accounting and conservation |
| LedgerInvariant.RunKeepsInv | offchain/cli/src/emulator/protocol-flow.ts:239-783 | so does every sequence of commands, over any number of clients |
| LedgerInvariant.BootstrapKeepsInv | offchain/cli/src/emulator/protocol-flow.ts:261-269 | a new Receiver starts at zero and is fully paid for |
| LedgerInvariant.TopUpKeepsInv | offchain/cli/src/transactions/receiver-top-up.ts:64-130 | a top-up credits one client with exactly what the wallet paid |
| LedgerInvariant.WithdrawKeepsInv | offchain/cli/src/transactions/receiver-withdraw.ts:79-170 | a withdrawal debits one client with exactly what is paid out |
| LedgerInvariant.ReceiverMinKeepsInv | offchain/cli/src/transactions/receiver-update-min-utxo.ts:51-160 | changing the minimum moves only the difference between wallet and script |
| LedgerInvariant.BurnReceiverKeepsInv | offchain/cli/src/transactions/receiver-burn.ts:127-142 | burning a drained Receiver returns its lovelace and loses no client money or fee |
| LedgerInvariant.FundDepositKeepsInv | offchain/cli/src/transactions/deposit.ts:138-193 | a side deposit is locked until it is swept |
| LedgerInvariant.MergeKeepsInv | offchain/cli/src/transactions/deposit.ts:239-265 | a merge moves the swept deposits into the balance, however they are listed |
| LedgerInvariant.UpdateEffect | offchain/cli/src/lib/transactions/build-batch-oracle-update.ts:154-178 | an update moves one base fee and one fee per entry to accrued fees, moves the swept deposits to the balance, and locks the new pairs' minimum |
| LedgerInvariant.UpdateKeepsInv | offchain/cli/src/emulator/protocol-flow.ts:408-455 | and keeps the invariant |
| LedgerInvariant.SettleMovesTheSum | offchain/cli/src/lib/transactions/build-settle.ts:108-156 | a settle of any number of clients moves exactly the sum into the hook and touches no balance |
| LedgerInvariant.SettleKeepsInv | offchain/cli/src/__tests__/run-tests.ts:2084-2129 | and keeps the invariant |
| LedgerInvariant.DrainedTotals | offchain/cli/src/lib/transactions/build-settle.ts:108-139 | draining distinct Receivers lowers accrued fees and lovelace by the same sum |
| LedgerInvariant.PairStepsKeepInv | offchain/cli/src/transactions/pair-burn.ts:40-110 | pair burns, repair burns and minimum changes keep the invariant |
| LedgerInvariant.ReferenceStepsKeepInv | offchain/cli/src/transactions/reclaim-reference-script.ts:29-140 | publishing and reclaiming reference scripts keep the invariant |
| LedgerInvariant.HookStepsKeepInv | offchain/cli/src/transactions/payment-hook-update.ts:106-162 | hook withdrawals, updates and burns keep the invariant |
| LedgerInvariant.FeesAreAccountedFor | offchain/cli/src/transactions/payment-hook-withdraw.ts:136-149 | in every reachable state: fees charged = accrued in Receivers + collected; collected = held + withdrawn |
| LedgerInvariant.EveryUtxoIsBacked | offchain/cli/src/transactions/receiver-withdraw.ts:103-170 | in every reachable state: Receiver = min + balance + accrued, hook = min + accrued, no negative part |
| LedgerInvariant.ClientsCannotOverdraw | offchain/cli/src/transactions/receiver-withdraw.ts:98-118 | in every reachable state: balance = credits − withdrawals − fees, so withdrawals never reach fees or minimum |
| LedgerInvariant.LovelaceIsConserved | offchain/cli/src/emulator/protocol-flow.ts:894-902 | in every reachable state: locked = paid in − paid out |
| LedgerInvariant.ConfigStepsKeepInv | offchain/cli/src/transactions/config-update.ts:99-155 | config updates and the config burn keep the invariant |
| LedgerInvariant.PayPairsTotals | offchain/cli/src/lib/transactions/build-batch-oracle-update.ts:280-326 | an update spends exactly the updated pair UTxOs, pays one new output per entry, and adds one minimum per create, also beside a live UTxO of the unit |
| Charges.UpdateCharges | offchain/cli/src/core/state.ts:59-64 | an accepted update raises the accrued fees by baseFee + N·perPairFee and lowers the balance by that less what left the deposit address; other clients and the Config stay |
| Charges.OneMorePairCosts | contracts/aiken/lib/dia_cardano_oracle/config_logic.ak:114-115 | one more entry costs exactly the fee per pair |
| Charges.SplittingCostsOneBaseFee | contracts/aiken/lib/dia_cardano_oracle/config_logic.ak:114-115 | a batch split in two costs exactly one more base fee |
| Charges.ClientsPaidTheFees | offchain/cli/src/lib/transactions/build-batch-oracle-update.ts:154-178 | in every reachable state the fees ever charged are the sum of what each client was charged |
| Charges.NewFeesApplyAtOnce | offchain/cli/src/transactions/config-update.ts:99-155 | after a config update, the next oracle update charges the new fees and creates pairs with the new minimum |
| Charges.MergeSweeps | offchain/cli/src/transactions/deposit.ts:239-265 | a merge takes only token-free deposits at or above the floor, up to its cap; every other deposit keeps its multiplicity at the address |
| Charges.UpdateSweepsClean | offchain/cli/src/lib/transactions/build-batch-oracle-update.ts:154-178 | so does the fold of an oracle update, with its own cap |
| Charges.HookUpdateCanBeUndone | offchain/cli/src/transactions/payment-hook-update.ts:230-242 | a missing input field keeps its value, a given one replaces it, and a second update with the old values restores the hook |
| Charges.PairMinEffect | offchain/cli/src/transactions/pair-update-min-utxo.ts:89-128 | a new minimum replaces the lovelace of the unit's only UTxO and leaves its value and every other pair alone |
| Charges.CommandRunsExactly | offchain/cli/src/emulator/protocol-flow.ts:239-783 | for every ledger and command but an oracle update: it runs iff what it needs is there, said in the fields of the ledger |
| Charges.ReclaimUndoesPublish | offchain/cli/src/transactions/reclaim-reference-script.ts:29-140 | a published script holds what was paid for it; reclaiming gives exactly that back and restores the ledger |
| Charges.BurnUndoesBootstrap | offchain/cli/src/transactions/receiver-burn.ts:120-142 | a new Receiver is zero beside its minimum, which its burn returns; the unit cannot be set up again |
| Charges.WithdrawUndoesTopUp | offchain/cli/src/transactions/receiver-withdraw.ts:79-170 | withdrawing what was topped up restores everything but the account, which shows both |
| Charges.ConfigUpdateCanBeUndone | offchain/cli/src/transactions/config-update.ts:99-155 | every parameter holds after an update and nothing else changes; the old ones can be set again at no net cost |
| Charges.ReceiverMinCanBeUndone | offchain/cli/src/transactions/receiver-update-min-utxo.ts:51-160 | a new minimum changes the lovelace by exactly the difference, and the old one can be set again |
| Charges.FundedDepositsWait | offchain/cli/src/transactions/deposit.ts:138-193 | a deposit joins those at its own address unchanged, and nothing else moves |
| Isolation.StepLeavesOthersAlone | contracts/aiken/README.md:28-30 | a command that does not concern a client leaves its Receiver, deposits, pairs and account as they were |
| Isolation.RunLeavesOthersAlone | contracts/aiken/README.md:28-30 | so does every run of such commands, config updates, settlements of others and teardown steps included |
| Freshness.UpdateAdvances | offchain/cli/src/lib/transactions/build-batch-oracle-update.ts:107-148 | an update leaves other units alone; an update entry replaces the only UTxO of its unit by one newer in timestamp and nonce with the same lovelace; a create adds one UTxO to whatever carries its unit |
| Freshness.QuotesOnlyAdvance | offchain/cli/src/preflight/oracle-update.ts:25-49 | over every run without a burn of the pair or a repair, each live value keeps a live successor that is the same or newer in both numbers |
| Freshness.HighestNonceStays | offchain/cli/src/transactions/pair-dedup.ts:160-187 | over every run without a burn of the pair, repairs included, the highest nonce of a unit never falls |
| Freshness.BurnKeepsValueExactly | offchain/cli/src/transactions/pair-dedup.ts:160-187 | a repair burn keeps a successor of the burned value iff another UTxO of the unit is one |
| Freshness.RepairCanMoveBack | offchain/cli/src/transactions/pair-dedup.ts:1-4 | for every ledger: two creates of a pair, the second with the higher nonce and the earlier timestamp, both land, and the repair burns the later value |
| Freshness.LandsInTimeExactly | offchain/cli/src/lib/transactions/build-batch-oracle-update.ts:254-262 | expiry check, end of the validity range and the chain's test of the range pass together iff every intent has more than a minute left |
| Freshness.PassesButCannotLandExactly | offchain/cli/src/core/dia-intent.ts:105-121 | the expiry check passes an intent that cannot land iff its expiry is 0 or it is in its last minute (or the second after) |
| Freshness.ZeroExpiryNeverLands | offchain/cli/src/core/dia-intent.ts:105-114 | an intent with expiry 0 passes the check, and every update with it is refused |
| Freshness.AcceptedExactly | offchain/cli/src/transactions/update-batch.ts:137-245 | an update of one pair is accepted iff the deployment is live, the fee can be paid, the intent is in time, and: a create is within the drift, an update has one UTxO with an earlier timestamp and a lower nonce |
| Freshness.BatchAcceptedExactly | offchain/cli/src/lib/transactions/build-batch-oracle-update.ts:85-178 | the same for every batch: distinct pairs of the client, each entry in time and either newer than its unit's only UTxO or a create within the drift, and the fee of all of them covered |
| Freshness.RangeEndsAsLateAsAllowed | offchain/cli/src/lib/transactions/build-batch-oracle-update.ts:254-262 | the validity range ends half an hour from now or a minute before the first expiry, whichever is earlier |
| Freshness.ReplayIsRefused | contracts/aiken/validators/pair_state.ak:94-105 | no update that spends the pair takes a published intent, or one with a lower nonce, again, in any batch and after any run without the pair's burn |
| Freshness.ReplayedExactlyAsCreate | contracts/aiken/validators/update_coordinator.ak:310-335 | after any run: a published intent is accepted again iff it is a create entry, within the drift, not expired, and funded, whether the pair is live, duplicated or burned |
| Freshness.TwoCreatesLand | contracts/aiken/validators/update_coordinator.ak:488-504 | two creates of one unit that could each land do land one after the other and leave two new UTxOs beside whatever was live |
| Freshness.DoubleCreateLands | contracts/aiken/validators/update_coordinator.ak:488-504 | the failing input, for every ledger: an accepted create is accepted again at once and leaves two UTxOs of one value, which no command resolves |
| Freshness.DuplicatesAreReachable | docs/audit/20260515-audit-report.md:155-175 | a run from genesis that ends with two UTxOs of one unit |
| Freshness.DuplicatesAppearExactly | offchain/cli/src/transactions/update-batch.ts:141-157 | from a ledger with one UTxO per unit, a command leaves a duplicate iff it is an update with a create of a live unit |
| Freshness.DuplicatesBlock | offchain/cli/src/core/chain-helpers.ts:117-143 | a unit without exactly one UTxO can be neither updated nor burned nor given another minimum |
| PairRepair.BurnsRun | offchain/cli/src/transactions/pair-dedup.ts:199-224 | burns that leave each burned UTxO an equally recent rival are accepted in any order and change nothing else |
| PairRepair.CanRepair | offchain/cli/src/transactions/pair-dedup.ts:10-14 | from every ledger with a live Config some repair burns end with one UTxO per unit |
| PairRepair.RepairRestoresSingletons | offchain/cli/src/transactions/pair-dedup.ts:133-230 | the burns that the command chooses from its own listing are accepted one by one; every unit of the client then has one UTxO with the highest nonce it had; other clients' pairs stay |
| Validators.WithdrawMatchesValidator | contracts/aiken/lib/dia_cardano_oracle/receiver_logic.ak:112-124 | the withdraw command is enabled exactly when the validator accepts some output, and builds the only one it accepts |
| Validators.TopUpMatchesValidator | contracts/aiken/lib/dia_cardano_oracle/receiver_logic.ak:43-59 | the outputs accepted as a top-up are exactly those some top-up command builds |
| Validators.ReceiverMinMatchesValidator | contracts/aiken/lib/dia_cardano_oracle/receiver_logic.ak:129-140 | the same for the minimum change |
| Validators.MergeIsAccepted | contracts/aiken/lib/dia_cardano_oracle/deposit_logic.ak:34-78 | a merge passes the Receiver's top-up rule and the deposit rule |
| Validators.UpdateMatchesValidator | contracts/aiken/lib/dia_cardano_oracle/receiver_logic.ak:73-92 | an update is refused for lack of funds exactly when no output with that fee and gain could pass |
| Validators.UpdateMatchesCoordinator | contracts/aiken/validators/update_coordinator.ak:488-560 | an update that names its pairs properly and is in time is refused as superseded or too old iff the coordinator rejects one of its witnesses under its validity range |
| Validators.EarliestIsLeast | offchain/cli/src/lib/transactions/build-batch-oracle-update.ts:254-257 | the reduction yields the expiry of some entry that no other entry undercuts |
| Validators.SettleIsAccepted | contracts/aiken/lib/dia_cardano_oracle/payment_hook_logic.ak:58-71 | every Receiver of a settle passes, and the hook passes with the sum as its delta |
| Validators.HookWithdrawMatchesValidator | contracts/aiken/lib/dia_cardano_oracle/payment_hook_logic.ak:73-87 | the hook withdrawal is enabled exactly when acceptable and builds the only acceptable output |
| Validators.HookUpdateMatchesValidator | contracts/aiken/lib/dia_cardano_oracle/payment_hook_logic.ak:41-50 | the hook outputs accepted as an admin update are exactly those some update command builds |
| Teardown.BurnPairsPhase | offchain/cli/src/transactions/pair-burn.ts:228-234 | a list of units is burned to the end iff it repeats none and each has exactly one UTxO |
| Teardown.ClientPhase | offchain/cli/src/emulator/protocol-flow.ts:916-1012 | withdraw all, burn the pairs, burn the Receiver: possible iff nothing is accrued and every listed pair has one UTxO |
| Teardown.ClientsPhase | offchain/cli/src/emulator/protocol-flow.ts:1014-1015 | client after client until no Receiver and no pair is left, possible iff no unit is duplicated |
| Teardown.SettlePhase | offchain/cli/src/emulator/protocol-flow.ts:868-870 | settling exactly those that owe something is enabled and leaves nobody owing |
| Teardown.HookPhase | offchain/cli/src/emulator/protocol-flow.ts:1017-1062 | draining and burning the hook is enabled exactly while Config and hook are live |
| Teardown.ReclaimPhase | offchain/cli/src/emulator/protocol-flow.ts:1064-1119 | reclaiming every reference script is enabled while the Config is live |
| Teardown.TearDownRecoversEverything | offchain/cli/src/emulator/protocol-flow.ts:868-1144 | from every reachable state and complete listing: runs to the end iff Config and hook are live and no unit is duplicated; pays out all but pending deposits; all fees collected |
| Teardown.EveryLedgerCanBeTornDown | offchain/cli/src/emulator/protocol-flow.ts:868-882 | from every reachable state with live Config and hook, duplicates or not, some repair and some teardown succeed and pay out all but pending deposits |
| Teardown.NothingIsLeftExactlyWhenSwept | offchain/cli/src/emulator/protocol-flow.ts:868-1144 | a completed teardown leaves nothing locked if and only if no deposit was pending |
| Teardown.PendingDepositSurvives | offchain/cli/src/transactions/receiver-burn.ts:127-142 | a reachable state whose teardown leaves lovelace locked |
| Teardown.ConfigBurnFreezes | offchain/cli/src/emulator/protocol-flow.ts:1064-1072 | after the Config burn no command ever pays lovelace out again |
| Teardown.HookBurnStrandsFees | offchain/cli/src/transactions/payment-hook-burn.ts:123-137 | with the hook gone, accrued fees in a Receiver can never be settled and keep it alive |
| Teardown.ReceiverBurnStrandsDeposits | contracts/aiken/validators/receiver.ak:46-66 | deposits pending when their Receiver is burned stay in every run, because a unit can be bootstrapped only once |
| Deployments.Deployment.TopUpReceiver | offchain/cli/src/transactions/receiver-top-up.ts:64-130 | the command, guard by guard, performs exactly the ledger step, keeps the state reachable and builds an output the validator accepts |
| Deployments.Deployment.WithdrawBalance | offchain/cli/src/transactions/receiver-withdraw.ts:79-170 | the same for a client withdrawal, refused exactly when no output could pass |
| Deployments.Deployment.ChangeReceiverMin | offchain/cli/src/transactions/receiver-update-min-utxo.ts:51-160 | the same for the minimum of a Receiver |
| Deployments.Deployment.MergeDepositsOf | offchain/cli/src/transactions/deposit.ts:196-380 | the same for a merge, which takes only token-free deposits at or above the floor, all of them if the cap allows, and credits exactly those |
| Deployments.Deployment.OracleUpdate | offchain/cli/src/lib/transactions/build-batch-oracle-update.ts:85-340 | the same for an update, with the loops over its pairs; it charges one base fee and one fee per pair and sweeps only clean deposits; the coordinator accepts the witness of every entry, creates of live pairs included |
| Deployments.Deployment.WithdrawFees | offchain/cli/src/transactions/payment-hook-withdraw.ts:108-149 | the same for a hook withdrawal, refused exactly when no output could pass |
| Deployments.Deployment.UpdateHook | offchain/cli/src/transactions/payment-hook-update.ts:82-162 | the same for a hook update; missing input fields keep their value |
| Deployments.Deployment.DestroyReceiver | offchain/cli/src/transactions/receiver-burn.ts:120-142 | the same for a Receiver burn: possible iff only the minimum is left, which comes back; nobody else's Receiver or account changes |
| Deployments.Deployment.DestroyHook | offchain/cli/src/transactions/payment-hook-burn.ts:123-137 | the same for the hook burn: possible iff all that was ever collected is withdrawn; the minimum comes back |
| Deployments.Deployment.DrainReceivers | offchain/cli/src/lib/transactions/build-settle.ts:108-139 | the summing loop succeeds iff every Receiver owes something, and yields the drained Receivers and the sum |
| Deployments.Deployment.SettleAccruedFees | offchain/cli/src/transactions/settle.ts:76-254 | all guards and both loops perform exactly the settle step, report the sum, and give the hook an output accepted with that sum as its delta |
| Deployments.Deployment.RefuseUpdate | offchain/cli/src/lib/transactions/build-batch-oracle-update.ts:85-126 | the guards and passes of an update, of the command, the builder and the chain, give the refusal of the ledger step |
| Deployments.Deployment.RefuseSettle | offchain/cli/src/transactions/settle.ts:76-186 | the guards of a settlement, likewise |
| Deployments.Deployment.Decommission | offchain/cli/src/emulator/protocol-flow.ts:868-1144 | the teardown with live reads and a complete listing: refused iff Config or hook is gone or a unit is duplicated, else only pending deposits stay locked; explained by a run even if stopped half way |
| Deployments.Deployment.RepairPairs | offchain/cli/src/transactions/pair-dedup.ts:199-224 | the burn loop of a repair performs the run of its burns |
| Deployments.SetOfDistinct | offchain/cli/src/transactions/settle.ts:91-94 | the duplicate test by set size rejects only lists with a repetition |
| Deployments.DistinctOfSet | offchain/cli/src/transactions/settle.ts:91-94 | and lets no repetition through |
| Deposits.MergeIsExact | offchain/cli/src/transactions/deposit.ts:239-265 | a merge credits exactly what it spends, takes only token-free deposits at or above the floor and leaves everything else |
| Deposits.SweepsOnlyClean | offchain/cli/src/transactions/deposit.ts:386-391 | stated in tokens and lovelace alone: what is taken, that dust and token-bearing deposits keep their multiplicity, and that a cap as long as the listing takes every clean one |
| Deposits.FilterPermutes | offchain/cli/src/transactions/deposit.ts:240-243 | which deposits are clean, and their total, does not depend on the provider's order |
| Deposits.NeverBlockedExactlyWhenCapped | offchain/cli/src/transactions/deposit.ts:239-250 | dust and tokens never block a sweep if and only if the cap is at least one |
| Deposits.DatumIsNotChecked | offchain/cli/src/transactions/deposit.ts:386-391 | a clean deposit with a datum is swept like any other |
| Deposits.DatumsStayExactlyWhenNotReached | offchain/cli/src/transactions/deposit.ts:237-242 | for every listing: no datum-bearing deposit is swept iff each is dust, carries tokens or lies beyond the cap |
| Deposits.DatumsAlwaysStayExactlyForZeroCap | offchain/cli/src/transactions/deposit.ts:237-242 | only a cap of zero keeps them out of every listing's sweep |
| Deposits.RunProgress | offchain/cli/src/transactions/deposit.ts:239-265 | after n merges: what is left clean, what was credited, and the junk untouched |
| Deposits.DrainTakesCeiling | offchain/cli/src/transactions/deposit.ts:239-265 | draining k clean deposits takes exactly ⌈k/c⌉ merges in any order, and credits exactly their sum |
| HexCodec.NormalFormsAreFixed | offchain/cli/src/core/primitives.ts:17-26 | normal forms are exactly the even-length lower-case hex strings |
| HexCodec.NormalizeHexExactly | offchain/cli/src/core/primitives.ts:17-26 | a text normalizes to h iff, between blanks, it is h in letters of either case, with or without `0x`, and h is whole bytes of lower-case hex |
| HexCodec.EncodedDigits | offchain/cli/src/core/primitives.ts:44-46 | every byte is two lower-case digits, the higher one first |
| HexCodec.DecodeEncode | offchain/cli/src/transactions/update-batch.ts:514-522 | decoding undoes encoding |
| HexCodec.EncodeDecode | offchain/cli/src/transactions/update-batch.ts:514-522 | encoding undoes decoding |
| HexCodec.StringOrderIsByteOrder | offchain/cli/src/transactions/update-batch.ts:534-542 | string order on normalized hex is byte order on the decoded bytes, both ways, for any lengths |
| HexCodec.StringOrderIsStrict | offchain/cli/src/transactions/update-batch.ts:538-542 | the order is strict and total |
| HexCodec.StringLessTransitive | offchain/cli/src/transactions/update-batch.ts:538-542 | and transitive |
| BatchOrder.EnsureCompatibleBatch | offchain/cli/src/transactions/update-batch.ts:544-576 | accepts exactly the non-empty batches of one client and validator without a repeated pair; what each of the four refusals means |
| BatchOrder.SortOrders | offchain/cli/src/transactions/update-batch.ts:523-532 | the sort returns an ordered permutation |
| BatchOrder.SortIsStable | offchain/cli/src/transactions/update-batch.ts:530-530 | and keeps equal keys in order |
| BatchOrder.SortedOrderIsUnique | offchain/cli/src/transactions/update-batch.ts:530-530 | order, content and stability leave only one result, whatever the algorithm |
| BatchOrder.StrictExactlyWhenDistinct | offchain/cli/src/transactions/update-batch.ts:514-532 | the sorted batch is strictly ascending for the coordinator if and only if the normalized names differ |
| BatchOrder.SortsExactlyWhenHex | offchain/cli/src/transactions/update-batch.ts:526-529 | a batch can be sorted iff every token name is hex |
| BatchOrder.SortedBatchIsStrictExactly | offchain/cli/src/transactions/update-batch.ts:514-532 | every batch that can be sorted becomes a permutation of itself, strictly ascending for the coordinator iff no two normalized names are equal |
| BatchOrder.AcceptedBatchIsCanonical | offchain/cli/src/transactions/update-batch.ts:449-454 | so an accepted batch does if its units are policy ++ name and its names are in normal form, as new artifacts have them |
| BatchOrder.CaseTwinsPassTheDuplicateCheck | offchain/cli/src/transactions/update-batch.ts:565-568 | two spellings of one name are accepted and cannot be put in strict order |
| PairDedup.GroupByUnit | offchain/cli/src/transactions/pair-dedup.ts:133-140 | a UTxO is in the group of a unit iff that is the first of its units that starts with the policy; groups keep the listing's order |
| PairDedup.PairUnitExactly | offchain/cli/src/transactions/pair-dedup.ts:128-137 | the unit that counts is the first that starts with the policy, and there is none iff no unit does |
| PairDedup.KeeperSurvives | offchain/cli/src/transactions/pair-dedup.ts:171-187 | the survivor is the first in the listing of the highest nonce among the UTxOs of its unit; an unreadable datum counts as nonce 0 |
| PairDedup.BurnedInOrder | offchain/cli/src/transactions/pair-dedup.ts:182-187 | the others follow from the highest nonce down |
| PairDedup.SortedGroup | offchain/cli/src/transactions/pair-dedup.ts:171-187 | sorting a group puts its survivor first and the stale ones after it |
| PairDedup.BurnStale | offchain/cli/src/transactions/pair-dedup.ts:199-224 | the inner loop burns exactly the stale UTxOs, whatever happens to the burns |
| PairDedup.PairDedup | offchain/cli/src/transactions/pair-dedup.ts:68-236 | at every exit, outages included, a UTxO without a unit of the policy is still there and whatever is gone is outranked by a UTxO of its unit that stays; the report counts the listing's pair UTxOs, has an entry exactly for each shared unit, and names the survivor and all others |
| PairDedup.ExcessCount | offchain/cli/src/transactions/pair-dedup.ts:164-220 | burned = scanned − distinct units |
| PairDedup.DedupRestoresSingletons | offchain/cli/src/transactions/pair-dedup.ts:171-230 | every unit keeps exactly one UTxO, with its highest nonce; other UTxOs stay; also in terms of units and nonces alone |
| PairDedup.DedupIsIdempotent | offchain/cli/src/transactions/pair-dedup.ts:61-67 | a second run finds nothing to burn |
| WalletWait.ComputeSpentWalletOutRefs | offchain/cli/src/core/chain-helpers.ts:524-537 | the loop collects the inputs the wallet held, in input order |
| WalletWait.SpentIsIntersection | offchain/cli/src/core/chain-helpers.ts:518-523 | that is exactly the intersection of inputs and previous wallet |
| WalletWait.WaitForWalletSettlement | offchain/cli/src/core/chain-helpers.ts:469-507 | returns the first listing disjoint from that intersection, fails exactly when no allowed poll has one, counts the sleeps |
| WalletWait.WaitCoversExactlyTheSnapshot | offchain/cli/src/core/chain-helpers.ts:454-459 | the end of a wait means that all wallet inputs are gone iff all of them were in the snapshot it was given |
| WalletWait.NothingCoveredNothingAwaited | offchain/cli/src/core/chain-helpers.ts:458-460 | inputs outside the snapshot are not waited for: the wait set can be empty and the first answer ends it |
| WalletWait.RunCommands | offchain/cli/src/core/chain-helpers.ts:443-468 | commands one after another, each with its own snapshot or all with the first, wait out what their snapshot covers |
| WalletWait.RunNeverSpendsTwice | offchain/cli/src/core/chain-helpers.ts:443-468 | with covering snapshots and a provider that never re-lists a dropped output, no wallet output is spent by two commands of a run |
| WalletWait.NeverSpendsTwiceExactlyWithoutRelisting | offchain/cli/src/core/chain-helpers.ts:460-463 | with covering snapshots, no run spends an output twice iff the provider never re-lists one |
| WalletWait.SharedSnapshotSpendsTwice | offchain/cli/src/transactions/pair-dedup.ts:201-216 | burns that share one snapshot can spend the change of an earlier burn twice, although nothing is ever re-listed |
| UnitWait.DroppedExactlyWhenBothSayAbsent | offchain/cli/src/core/tx-onchain-check.ts:63-175 | "dropped" exactly for a 404 beside a readable 2xx body without length: an empty list, an empty text, or another value |
| UnitWait.ConfidentExactlyForLists | offchain/cli/src/core/tx-onchain-check.ts:15-17 | "only confident, agreeing answers" holds for a pair of answers iff that body is not one of the last two |
| UnitWait.VerdictsAgree | offchain/cli/src/core/tx-onchain-check.ts:119-146 | the throwing and the boolean check never contradict each other, and differ exactly when an answer is missing |
| UnitWait.OnChainExactly | offchain/cli/src/core/tx-onchain-check.ts:132-146 | "on chain" exactly for a readable 2xx body with a length from one provider or any 2xx answer from the other |
| UnitWait.PickIsSound | offchain/cli/src/core/chain-helpers.ts:190-215 | what one poll accepts, if and only if; an empty hash is no hash; never the previous UTxO when its transaction differs |
| UnitWait.PickIsOwnOutputExactlyWhenListed | offchain/cli/src/core/chain-helpers.ts:145-157 | with the hash given, the result is the transaction's own output exactly when one is listed |
| UnitWait.FallbackReturnsForeignOutput | offchain/cli/src/core/chain-helpers.ts:204-215 | otherwise the sole foreign output is returned |
| UnitWait.WaitForUnitUtxoReplacement | offchain/cli/src/core/chain-helpers.ts:175-240 | for every reply sequence: which poll decides and how |
| UnitWait.OutcomeIsDetermined | offchain/cli/src/core/chain-helpers.ts:175-240 | that description allows one outcome only |
| UnitWait.RollbackIsNoticed | offchain/cli/src/core/chain-helpers.ts:220-226 | once both providers stay absent, the wait ends at the next multiple of 60 polls at the latest |
| UnitWait.UnknownAnswersNeverAbandon | offchain/cli/src/core/tx-onchain-check.ts:102-106 | no answer that counts as unknown, alone or repeated, abandons a wait |
| UnitWait.AbandonedForConfidentAnswersExactly | offchain/cli/src/core/tx-onchain-check.ts:15-17 | an abandoned wait rests on an empty list and a 404 iff the deciding 2xx body was a list |
| UnitWait.UnclearAnswersNeverAbandon | offchain/cli/src/core/tx-onchain-check.ts:15-17 | so where 2xx answers carry lists, unclear answers never abandon a wait |
| UnitWait.EmptyObjectAbandons | offchain/cli/src/core/tx-onchain-check.ts:173-174 | and where one carries `{}`, a wait is abandoned at its first check |
| TxConfirmation.RacePrimary | offchain/cli/src/core/tx-confirmation.ts:58-83 | the first of answer, rejection and timeout decides |
| TxConfirmation.PollKoios | offchain/cli/src/core/tx-confirmation.ts:102-141 | calls end at the first sighting or give-up, within the budget, with one sleep between calls |
| TxConfirmation.PollRest | offchain/cli/src/core/tx-confirmation.ts:162-183 | the same for the REST stage |
| TxConfirmation.GivesUpAtThirdServerError | offchain/cli/src/core/tx-confirmation.ts:117-136 | the stage gives up exactly at the third 5xx since the last other error |
| TxConfirmation.GivesUpWithoutConsecutiveErrors | offchain/cli/src/core/tx-confirmation.ts:124-129 | a sequence that ends the stage without two adjacent 5xx |
| TxConfirmation.ConsecutiveExactlyWhenNoneEmpty | offchain/cli/src/core/tx-confirmation.ts:124-129 | when the stage gives up, its last three replies are 5xx iff neither of the two before the last was an empty answer |
| TxConfirmation.AwaitTxConfirmation | offchain/cli/src/core/tx-confirmation.ts:33-187 | true exactly when some stage saw the transaction; which stages run and how many calls and sleeps each takes |
| TxConfirmation.KoiosSightingCounts | offchain/cli/src/core/tx-confirmation.ts:102-116 | a Koios sighting within the budget counts unless the stage gave up before it |
| ProviderRetry.WithRetry | offchain/cli/src/core/provider-retry.ts:169-195 | one event per call, only transient errors are retried, the last result is handed on, the pauses double up to the cap |
| ProviderRetry.TotalBackoff | offchain/cli/src/core/provider-retry.ts:183-191 | n uncapped pauses take d·(2ⁿ − 1); capped ones no more than that or n·cap |
| ProviderRetry.ClassifiedExactly | offchain/cli/src/core/provider-retry.ts:70-107 | the outcome of a failed call, from the texts that the error or its cause mentions; quota goes before rate limiting |
| ProviderRetry.QuotaErrorCanBeRetried | offchain/cli/src/core/provider-retry.ts:62-79 | an error that is both a quota error and retried |
| ProviderRetry.RetriedExactlyWhenMarked | offchain/cli/src/core/provider-retry.ts:173-183 | every error, quota errors included, is retried iff its lower-case text or its cause's mentions one of the fifteen markers |
| ProviderRetry.RateLimitTextIsNotRetried | offchain/cli/src/core/provider-retry.ts:86-94 | a rate-limit error that is not retried |
| ProviderRetry.HashEndingIn402LooksLikeQuota | offchain/cli/src/core/provider-retry.ts:49-79 | every message that ends in 402 is counted as a quota error |
| ProviderRetry.HashCountsByItsEnding | offchain/cli/src/core/provider-retry.ts:49-94 | a message that is nothing but a hash is counted as a quota error iff it ends in 402, and as rate limiting iff it ends in 429 |
| TxBuild.DetachedCoversArrayBuffer | offchain/cli/src/core/tx-build.ts:53-61 | the first of the three signatures never decides |
| TxBuild.CompleteWithRetry | offchain/cli/src/core/tx-build.ts:82-121 | a fresh builder per attempt, each completed once, so a built transaction has every output once; when it stops |
| TxBuild.RecompletingDuplicates | offchain/cli/src/core/tx-build.ts:17-22 | completing one builder twice yields every output twice |
| LogScan.ParseFlag | offchain/feeder/scripts/scan-dia-intents.ts:110-117 | only positive numbers replace the fallback, so a chunk is never empty |
| LogScan.ScanInChunks | offchain/feeder/scripts/scan-dia-intents.ts:161-183 | the ranges tile the blocks and their logs are those of one whole-range scan, in ⌈blocks/chunk⌉ calls |
| LogScan.GroupBySymbol | offchain/feeder/scripts/scan-dia-intents.ts:199-216 | count, sample, first and last block per symbol |
| LogScan.GroupsAreDetermined | offchain/feeder/scripts/scan-dia-intents.ts:199-216 | that description allows one grouping only |
| LogScan.BuildSourceReadings | offchain/feeder/scripts/sanity-check-feeds.ts:116-141 | scanning in chunks keeps, per symbol, the first log with the greatest timestamp of the whole range |
| LogScan.NewestReadingsAreDetermined | offchain/feeder/scripts/sanity-check-feeds.ts:130-139 | that description allows one map only |
| LogScan.ChunkSizeDoesNotMatter | offchain/feeder/scripts/scan-dia-intents.ts:163-216 | every two values of the chunk flag give the same groups and readings |
| SettleManifest.AssertNonEmptyAndUnique | offchain/cli/src/preflight/settle-manifest.ts:9-23 | accepts exactly non-empty lists with distinct keys |
| SettleManifest.AssertManifestMatchesClients | offchain/cli/src/preflight/settle.ts:35-70 | accepts exactly when all five checks hold |
| SettleManifest.AcceptedIsBijection | offchain/cli/src/preflight/settle.ts:22-34 | which is: the two key lists are rearrangements of each other without repetition |
| SettleManifest.AcceptedSumsAgree | offchain/cli/src/preflight/settle.ts:22-34 | so no client is loaded twice and every per-receiver sum agrees on both sides |
| SettleManifest.KeyIsInjective | offchain/cli/src/preflight/settle-manifest.ts:17-17 | the key tells any two Receivers apart |
| Decimals.ParseToDecimal | offchain/cli/src/core/datum-decoders.ts:21-25 | writing an integer and reading it back gives the integer |
| Decimals.BigIntForms | offchain/cli/src/core/chain-helpers.ts:648-682 | which texts are integers: blanks around them do not count; nothing, decimals with a sign or without, and digits of base 16, 8 and 2 behind their prefix |
| Decimals.DecimalByPlace | offchain/cli/src/core/chain-helpers.ts:648-682 | a decimal is read place by place, the last digit counting once; a minus negates it |
| Decimals.PrefixedByPlace | offchain/cli/src/core/chain-helpers.ts:648-682 | so are the digits behind a prefix, in its base and in either case |
| Decimals.CanonicalForms | offchain/cli/src/core/datum-decoders.ts:21-25 | canonical decimals are fixed points and agree exactly when the values do |
| Datums.FieldRoundTrip | offchain/cli/src/core/chain-helpers.ts:648-682 | one field: it can be written iff it has a canonical text, which is what comes back and is written alike |
| Datums.AllRoundTrip | offchain/cli/src/core/chain-helpers.ts:648-682 | the same for any list of fields |
| Datums.AllInjective | offchain/cli/src/core/chain-helpers.ts:648-682 | two lists encode alike exactly when their canonical texts agree |
| Datums.ReceiverRoundTrip | offchain/cli/src/core/datum-decoders.ts:17-26 | decode after build gives the canonical Receiver, which builds the same datum |
| Datums.HookRoundTrip | offchain/cli/src/core/datum-decoders.ts:33-48 | the same for the PaymentHook, with the address supplied by the caller |
| Datums.HookEncodingInjective | offchain/cli/src/core/chain-helpers.ts:648-658 | canonical hook states have one datum only if they are equal, the address included |
| Datums.AddressDataInjective | offchain/cli/src/core/chain-helpers.ts:584-606 | different addresses are encoded differently |
| Datums.PairRoundTrip | offchain/cli/src/core/datum-decoders.ts:71-85 | every Pair that can be built reads back canonical, and the canonical Pair builds the same datum; which field is where is `DatumLayout.PairLayout` |
| Datums.PairIdCaseIsLost | offchain/cli/src/core/chain-helpers.ts:670-682 | pair ids that differ in letter case only give one datum |
| Datums.ConfigEncodingInjective | offchain/cli/src/core/chain-helpers.ts:608-646 | the nine fields tell any two canonical configs apart, up to the deposit parameters they do not carry |
| Datums.CanonicalFieldwise | offchain/cli/src/core/chain-helpers.ts:648-682 | texts are canonical one by one iff their list is its own canonical form |
| Datums.WrittenHookBuilds | offchain/cli/src/core/chain-helpers.ts:648-658 | every hook state of numbers and an address with a payment part is canonical once written and can be built |
| Datums.WrittenConfigIsCanonical | offchain/cli/src/core/chain-helpers.ts:608-646 | every config of keys, numbers and a domain is canonical once written |
| Datums.FeesAreReadBack | offchain/cli/src/core/datum-decoders.ts:57-68 | the fee decoder returns the encoded fees of every config that can be built |
| DatumLayout.PairLayout | contracts/aiken/lib/dia_cardano_oracle/oracle_logic.ak:27-37 | a pair builds iff its seven texts can be read, and the datum is the contract's record: pair id, price, timestamp, nonce, intent hash, signer, minimum |
| DatumLayout.PairOnChainRoundTrip | offchain/cli/src/core/datum-decoders.ts:71-85 | every record on the chain is decoded field by field, and building the result gives the record again |
| DatumLayout.ReceiverLayout | contracts/aiken/lib/dia_cardano_oracle/receiver_logic.ak:6-12 | the same as PairLayout for balance, accrued fees and minimum |
| DatumLayout.ReceiverOnChainRoundTrip | offchain/cli/src/core/datum-decoders.ts:17-26 | every Receiver record is decoded field by field and built again |
| DatumLayout.HookLayout | contracts/aiken/lib/dia_cardano_oracle/payment_hook_logic.ak:6-14 | the same for the PaymentHook; a validator reads its own address back out of field 0 |
| DatumLayout.HookOnChainRoundTrip | offchain/cli/src/core/datum-decoders.ts:33-48 | every PaymentHook record is decoded field by field, beside the address the caller supplies |
| DatumLayout.ConfigLayout | contracts/aiken/lib/dia_cardano_oracle/config_logic.ak:23-45 | a config builds iff its texts can be read, and its nine fields are the contract's record of them |
| DatumLayout.FeesAreReadOnChain | offchain/cli/src/core/datum-decoders.ts:57-68 | the fee decoder reads the contract's two fee fields of every config on the chain |

## Left out

- Lucid transaction building, signing, submission, coin selection and CBOR bytes: a foreign library; a transaction is the
  inputs it consumes, the outputs it pays and its fee.
- Transactions that are built only, or submitted without an observed confirmation: a command takes effect or is refused.
- Local state files and their drift behind the chain: every command reads the live ledger.
- EIP-712 hashing, signature recovery and blake2b: cryptographic library calls.
- Intent hashes, signers and signatures of pairs, and who signs a create: every intent is authentic and every create is
  signed by an admin.
- HTTP servers, configuration, prompts, file I/O, command dispatch and reports: plumbing.
- Wall-clock time and slots: a poll is an index into a reply sequence, a pause is a count, and the chain's clock and the
  start of the validity range are parameters of an update, which lands at the time it is built or not at all.
- `findSingleUtxoAtUnit`, `waitForOutRefAvailable`, `waitForOutRefGone`: the same loop with easier exits.
- `pickLatestIntentPerSymbol` and the symbol lookup behind it: one more map over the readings.
- Missing deposit parameters in the Config, and fractional or non-numeric environment values for attempts and delays.
- WalletTransactions.FundPoolWallet: the balancer always leaves a change output; a payment that uses up its inputs exactly
  is not modelled, nor is the chain's own minimum size of an output.
- WalletShape.PlanWalletSplit: the sort whose comparator never answers "equal" is modelled as "some largest first".
- ProviderRetry.HashEndingIn402LooksLikeQuota: lower-casing covers the letters A to Z only.
- Datums.PairRoundTrip: the codec is taken to read hex of either case and to refuse any other text; it is a foreign library.
  The coercion of list-valued fields to numbers is not modelled.
- Datums.ConfigEncodingInjective: domain names are their UTF-8 bytes; the conversion of text to UTF-8 is not part of this
  model.
- Deployments.Deployment.Decommission: after a refusal half way it states only that a run of commands led to the ledger,
  not which one. Besides the flow's own steps, a teardown starts by burning pairs whose Receiver is already gone; the
  flow has none, and a ledger in general does. A repair of duplicated pairs is a command of its own before it.

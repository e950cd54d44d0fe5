# Wallet verification

A Dafny model of the decision-making parts of the wallet library: how coins are selected, what a
spending policy can contribute and asks for, which inputs a replacement transaction spends, how a
transaction is assembled from these, how change sets and locked outpoints survive persistence, how two
snapshots become events, and how MWEB coins are picked. `dafny verify dfyconfig.toml` checks all of it.

| file | contents |
|---|---|
| Sequences, SearchTree | sums, permutations, the exchange argument; the include/exclude tree numbered in preorder |
| Coins | fee arithmetic with its rounding, sufficiency, change and dust |
| GreedySelection, BranchAndBound, CoinSelection | the four selection algorithms |
| Enumeration | the work lists behind `combinations` and `mix` |
| Conditions, Satisfactions, Policies, PolicyPaths | timelock algebra, partial satisfactions, policy trees, paths |
| ReplaceParams, ReplaceByFee | the replacement input set and the replace-by-fee call |
| Locktimes, CreateTx | nLockTime, nSequence and transaction assembly |
| Persistence, Events, MwebSelection | staged changes and tables, wallet events, MWEB coins |

Sets and maps that the library iterates in hash order are iterated here in an arbitrary order, so every
result holds for all orders. The unstable sort is a method that promises a sorted permutation and leaves
ties open; the shuffle and the other random draws are arbitrary.

## What the model found

- A branch-and-bound call whose required coins hit the target exactly reports that the tries are used
  up, and the fallback then always succeeds (`CoinSelection.BranchAndBoundSelect`).
- The fallback sees the coins that branch and bound filtered out. It can refuse although the useful coins
  suffice (`CoinSelection.FallbackMayRefuseExample`); some drawing order makes a greedy selector fail if
  and only if neither the required coins nor all coins together suffice (`GreedySelection.SomeOrderFailsIff`).
  When the whole call can refuse is `CoinSelection.RandomDrawRefusesIff`.
- A drain script without a dust threshold can get a zero-value change output whose weight nobody pays for
  (`Coins.UnpaidChangeExample`); the excess is conserved if and only if that threshold is positive or the
  remainder pays the change fee (`Coins.ExcessConservedIff`).
- `replace` looks for ancestors among the supplied transactions alone. It keeps exactly those without a
  supplied parent if and only if no coinbase is supplied (`ReplaceParams.SanitizedIsRootsIff`); these are the
  ones without any supplied ancestor if and only if, besides, no supplied transaction descends from another
  through unsupplied ones alone (`ReplaceParams.SanitizedIsUnrelatedIff`). Without a coinbase, where one
  does and only there, the inputs to spend again include an output of a replaced transaction's descendant
  (`ReplaceParams.UnsuppliedLinkExample`, `ReplaceParams.SelfConflictIffLinkedOutside`), and the replacement
  cannot succeed (`ReplaceByFee.ReplacementNeedsUnrelated`).
- With a coinbase supplied to `replace`, what is kept may depend on iteration order
  (`ReplaceParams.CoinbaseOrderExample`); it does not if and only if every supplied transaction with a
  supplied parent also descends, through supplied ones, from a supplied root that is no coinbase
  (`ReplaceParams.OrderIndependentIff`).
- The nSequence check compares whole numbers, so a stray bit 16 passes it without satisfying the script
  (`Locktimes.StrayBitExample`). A requested sequence is safe against every requirement if and only if it
  has no relative lock, no stray bit, or all lock bits set (`Locktimes.PassedCheckSatisfiesIff`).
- The growth of the input and output count prefixes is not charged, so the fee can fall short of the rate on
  the whole weight (`CreateTx.PrefixShortfallExample`); by how much at most, and when not at all, is
  `CreateTx.WholeWeightIsPaid`.
- Equal sub-policies share an id and a path entry, so a recorded contribution may belong to no exact path
  (`PolicyPaths.SharedIdExample`); with distinct ids there are none (`PolicyPaths.ContributionsArePaths`).
- A requested sequence of 0xFFFF_FFFF is accepted next to an absolute timelock, whose script it defeats; it
  is the only one that does (`CreateTx.CltvEnforcedIff`).
- The MWEB coin sum is not saturating; an optimized build wraps (`MwebSelection.WrapAroundExample`). The
  refusals are right for every need if and only if the sum does not wrap, or wraps onto the largest amount
  (`MwebSelection.DecidesRightlyIff`); every success pays amount plus fee, and every overflowing request is
  refused, if and only if the wrapped sum is not the largest amount (`MwebSelection.PaysSpendIff`).

## Named assumptions

- `FeeRate * Weight` rounds up to whole satoshis, as the test at src/wallet/coin_selection.rs:1005-1036 shows.
- The library code for script dust thresholds, weights, canonicalization and ancestor walks is not part of
  this model: a script carries its length and dust threshold, an unspent output the height at which it
  matures, and ancestors are computed from the inputs (`ReplaceParams.HasAncestorIn`).
- Transaction ids commit to inputs, so spending is acyclic (`ReplaceParams.IsRanked`) and a txid names one
  transaction; a coinbase spends no known transaction (`ReplaceParams.CoinbasesAreRoots`).
- The wallet's unspent list and the manually selected coins have distinct outpoints (preconditions of
  `CreateTx.CreateTx`).
- The replacement selector keeps every must-spend input and adds only candidates, none twice
  (`ReplaceByFee.SelectCoins`). Which sequences a planned input rejects, and which fees are known, are inputs.
- Where a result speaks of scripts passing, the relative timelocks of a policy enable relative locking
  (`CreateTx.CltvEnforcedIff`) or are plain lock sequences (`CreateTx.DefaultSequenceSatisfies`).
- Policy ids are arbitrary numbers; equal ids share a path entry, as equal checksums do.

## Model

| member | source | states |
|---|---|---|
| Coins.FeeOfParts | src/wallet/coin_selection.rs:348 | fees of two weights paid apart cover the fee of their sum and exceed it by at most one satoshi |
| Coins.RoundingBound | src/wallet/coin_selection.rs:378-397 | per-input fees sum to at least the fee of the total weight and to at most n - 1 satoshis more |
| Coins.SufficientIff | src/wallet/coin_selection.rs:348-355 | coins pay target and fee exactly when their unrounded effective values, in thousandths, reach the target |
| Coins.EffectiveSuffices | src/wallet/coin_selection.rs:482-498 | enough per-input-rounded effective value is enough money for the accumulated weight |
| Coins.DecideChange | src/wallet/coin_selection.rs:300-320 | change is made exactly when the remainder covers change fee plus dust threshold or there is no threshold; it is never dust; without change less than fee plus threshold is given away |
| Coins.ExcessConservedIff | src/wallet/coin_selection.rs:300-320 | the excess accounts for the whole remainder exactly when the script has a dust threshold or the change fee is covered |
| Coins.UnpaidChangeExample | src/wallet/coin_selection.rs:300-320 | a script without a dust threshold gets a change output from a remainder of zero |
| GreedySelection.SelectSortedUtxos | src/wallet/coin_selection.rs:322-366 | takes coins up to the first optional one reached with the running fee covered, then settles exactly those |
| GreedySelection.SelectInOrder | src/wallet/coin_selection.rs:322-366 | all required coins and the shortest sufficient prefix of the optional order, or all of it |
| GreedySelection.LargestFirst | src/wallet/coin_selection.rs:233-255 | the optional order is a permutation from largest to smallest value |
| GreedySelection.OldestFirst | src/wallet/coin_selection.rs:265-292 | the optional order is a permutation with local coins by age and foreign coins last |
| GreedySelection.SingleRandomDraw | src/wallet/coin_selection.rs:681-703 | the optional order is some permutation |
| GreedySelection.ShuffleSlice | src/wallet/utils.rs:125-135 | the in-place shuffle keeps the elements whatever is drawn |
| GreedySelection.GreedyOutcomeIsSound | src/wallet/coin_selection.rs:348-366 | a success conserves value and charges the fee of its weight, it happens exactly when some prefix suffices, and a refusal reports what all coins are worth and would need |
| GreedySelection.LargestFirstTakesLargest | src/wallet/coin_selection.rs:233-255 | a success takes as few coins as suffice, and no coin left is worth more than one taken |
| GreedySelection.OldestFirstTakesOldest | src/wallet/coin_selection.rs:265-292 | a success takes as few coins as suffice, and if a wallet coin is left, every coin taken is a wallet coin at least as old |
| GreedySelection.GreedySelect | src/wallet/coin_selection.rs:214-292 | each algorithm scans in its own order |
| GreedySelection.SomeOrderFailsIff | src/wallet/coin_selection.rs:681-703 | some order makes a greedy selector fail if and only if neither the required coins nor all coins suffice |
| GreedySelection.LargestFirstIsFewest | src/wallet/coin_selection.rs:245-255 | with equal satisfaction weights largest-first succeeds if any choice suffices and takes no more coins than it |
| SearchTree.CutOff | src/wallet/coin_selection.rs:589-612 | each of the three backtracking conditions justifies skipping the whole subtree |
| SearchTree.SubtreesDisjoint | src/wallet/coin_selection.rs:583-647 | different nodes of one depth cover disjoint leaves |
| SearchTree.CoveredTree | src/wallet/coin_selection.rs:621-628 | once the whole tree is explored the best value is least among all in-range leaves, or there is none |
| BranchAndBound.Backtrack | src/wallet/coin_selection.rs:615-637 | walks to the node that follows the current subtree in preorder, with both running sums still those of the stack |
| BranchAndBound.Explore | src/wallet/coin_selection.rs:583-653 | the search visits no node twice and in preorder, answers exactly unless cut off, is cut off only when the tries are used up and not within 2^(n+1) - 1 of them, never indexes past the end, and reports what it does when started on or above the target |
| BranchAndBound.FifteenCoinsFit | src/wallet/coin_selection.rs:440 | for up to 15 coins the whole tree fits under the cap on tries |
| BranchAndBound.Bnb | src/wallet/coin_selection.rs:557-674 | over all sub-collections of the offered groups: a complete match is least in the band, no exact match means the band is empty, the cut-off comes after exactly 100 000 tries, and 15 coins never run out of them |
| CoinSelection.PositiveCount | src/wallet/coin_selection.rs:460-464 | each offered coin is kept, as often as offered, exactly when it brings more than it costs |
| CoinSelection.InReachIff | src/wallet/coin_selection.rs:485-487 | the refusal test compares with the best that any choice of offered coins can bring |
| CoinSelection.EffectiveResultIsSound | src/wallet/coin_selection.rs:706-724 | a result computed from effective values conserves value and charges the input fees |
| CoinSelection.BranchAndBoundSelect | src/wallet/coin_selection.rs:443-550 | every path gives a sound result; when each path is taken and what it returns, a refusal exactly when no choice of coins reaches the target, a fallback its greedy outcome; a match is least and makes no change; it errs exactly when the effective values miss the target, if no coin costs more than it brings |
| CoinSelection.RandomDrawRefusesIff | src/wallet/coin_selection.rs:443-550 | with the random draw as fallback and at most 15 useful coins, the call can refuse exactly when no choice of coins has the effective value, or the required coins are below it, no choice is changeless and neither the required coins nor all coins suffice |
| CoinSelection.FallbackMayRefuseExample | src/wallet/coin_selection.rs:541-548 | a coin that costs more than it brings sends the call past branch and bound, since no choice is changeless, and makes largest-first refuse although another coin suffices alone |
| Enumeration.Combinations | src/descriptor/policy.rs:180-205 | every increasing selection of the wanted size appears exactly once, n choose k in all, and the work list empties |
| Enumeration.Mix | src/descriptor/policy.rs:207-236 | every element of the Cartesian product appears exactly once; the empty list of lists gives nothing |
| Enumeration.CombinationsCount | src/descriptor/policy.rs:180-205 | the number of combinations is the binomial coefficient |
| Conditions.MergeIsJoin | src/descriptor/policy.rs:465-501 | merging gives the least upper bound and fails exactly when units are mixed, that is, when no bound exists |
| Conditions.FoldIsJoin | src/descriptor/policy.rs:396-402 | folding gives the least condition that bounds all, or the unit error when there is none |
| Conditions.FoldIgnoresOrder | src/descriptor/policy.rs:396-402 | order and repetition change neither the folded value nor the error |
| Satisfactions.SatisfactionBuilder.Add | src/descriptor/policy.rs:316-352 | the error of each wrong call, and otherwise the item with all conditions that complete it |
| Satisfactions.SatisfactionBuilder.Finalize | src/descriptor/policy.rs:354-423 | a key is recorded exactly when it is an m-combination with a compatible choice, and under it exactly the merges of the compatible choices |
| Satisfactions.CompatibleMerges | src/descriptor/policy.rs:379-412 | the merges of exactly the compatible choices of one combination |
| Policies.MakeThresh | src/descriptor/policy.rs:576-602 | nothing for threshold zero; otherwise never fails, and both satisfactions are the completed gathering of the children |
| Policies.MakeAnd | src/descriptor/policy.rs:560-566 | a missing side is dropped, two sides make a 2-of-2 node |
| Policies.MakeOr | src/descriptor/policy.rs:568-574 | a missing side is dropped, two sides make a 1-of-2 node |
| Policies.MakeMulti | src/descriptor/policy.rs:604-653 | both satisfactions are the completed gathering of the available keys |
| Policies.FinalizedConditions | src/descriptor/policy.rs:354-423 | the conditions of a node are exactly the merges of one condition from each of m chosen children |
| Policies.ContributionDenotes | src/descriptor/policy.rs:560-653 | for every built tree the recorded conditions are exactly those under which the tree can be satisfied |
| Policies.AndMeaning | src/descriptor/policy.rs:560-566 | a conjunction is satisfied under the merge of one condition of each side |
| Policies.OrMeaning | src/descriptor/policy.rs:568-574 | a disjunction is satisfied as either side is |
| PolicyPaths.GetConditionIsLeast | src/descriptor/policy.rs:667-741 | the condition of a path is the least one meeting every timelock it leads to and each lock is one of theirs; a unit error means no condition meets them all |
| PolicyPaths.GetConditionSucceedsIff | src/descriptor/policy.rs:667-741 | a condition is computed exactly when the path selects enough in range wherever it matters and some condition meets all active timelocks |
| PolicyPaths.EntrySelects | src/descriptor/policy.rs:672-682 | with an entry the path leads to exactly the children it lists |
| PolicyPaths.NoEntrySelects | src/descriptor/policy.rs:672-682 | without one it leads to all children of an n-of-n threshold and to none of any other |
| PolicyPaths.AllChildrenMerge | src/descriptor/policy.rs:717-722 | an n-of-n threshold without an entry asks for the merge of what its children ask for |
| PolicyPaths.ThresholdRefuses | src/descriptor/policy.rs:684-715 | if a child asks for something, an index out of range is refused first, then a selection that is too small, and a missing one unless all children are needed |
| PolicyPaths.MultisigCounts | src/descriptor/policy.rs:723-731 | the distinct listed indexes are counted, or all keys without an entry; then the range is checked |
| PolicyPaths.RequiresPathIff | src/descriptor/policy.rs:661-663 | a threshold needs a path exactly when a child asks for something and not all children are needed, or all are but cannot be met together |
| PolicyPaths.ExactIsAvailable | src/descriptor/policy.rs:667-741 | a path that selects exactly the thresholds among contributing children is one with enough of them |
| PolicyPaths.PathIsCovered | src/descriptor/policy.rs:667-741 | along any path on which the wallet can contribute enough, however much more is selected, some recorded contribution asks for no more than the path does |
| PolicyPaths.PathIsRecorded | src/descriptor/policy.rs:667-741 | the condition of a path that selects exactly the thresholds, among children the wallet can contribute to, is recorded |
| PolicyPaths.ContributionsArePaths | src/descriptor/policy.rs:667-741 | in a tree with distinct ids the recorded conditions are exactly those of such paths |
| PolicyPaths.SharedIdExample | src/descriptor/policy.rs:667-741 | a conjunction of the same choice between two timelocks with itself records both locks, which no such path asks for |
| ReplaceParams.PsbtParams.AddUtxos | src/psbt/params.rs:128-135 | new outpoints are appended once each, and the set stays the duplicate-free outpoints of the list |
| ReplaceParams.WithUtxosInOrder | src/psbt/params.rs:128-135 | outpoints not listed yet are appended in the order given |
| ReplaceParams.WithUtxosAppend | src/psbt/params.rs:128-135 | listing in two steps is listing at once, and what is listed already changes nothing |
| ReplaceParams.PsbtParams.AddPlannedInput | src/psbt/params.rs:183-188 | a planned input is appended unless its outpoint is listed |
| ReplaceParams.PsbtParams.RemoveUtxo | src/psbt/params.rs:258-264 | exactly the entry at the outpoint leaves set and list |
| ReplaceParams.RetainedAppend | src/psbt/params.rs:258-264 | the entries that stay keep their order |
| ReplaceParams.GraphOf | src/psbt/params.rs:596-604 | the graph holds exactly the supplied transactions, each under its own txid |
| ReplaceParams.SanitizeRbfSet | src/psbt/params.rs:596-621 | the loop over the supplied transactions yields what visiting them in its order leaves, and the inputs of those kept |
| ReplaceParams.PsbtParams.Replace | src/psbt/params.rs:580-645 | for some visiting order the new list is the planned inputs that stay valid, then the inputs of the kept transactions; the set agrees and nothing listed comes from a replaced transaction |
| ReplaceParams.KeptInputsInOrder | src/psbt/params.rs:619 | the inputs of a kept transaction stand together, before those of one visited later |
| ReplaceParams.AncestryIsChain | src/psbt/params.rs:611-613 | for any graph the walk runs over, having an ancestor in a set means that a chain of spends by transactions of the graph leads back into it |
| ReplaceParams.SanitizedIsRootsIff | src/psbt/params.rs:606-621 | for every iteration order exactly the transactions without a supplied parent are left, if and only if no coinbase is supplied |
| ReplaceParams.SanitizedIsUnrelatedIff | src/psbt/params.rs:606-621 | in a graph that knows more transactions, exactly those without any supplied ancestor are left, if and only if no coinbase is supplied and none descends from another through unsupplied ones alone |
| ReplaceParams.SelfConflictIff | src/psbt/params.rs:606-621 | an input to spend again is an output of a kept transaction or of a descendant exactly when some kept one descends from another |
| ReplaceParams.SelfConflictIffLinkedOutside | src/psbt/params.rs:606-621 | without a coinbase that happens exactly when a supplied transaction descends from another through unsupplied ones alone |
| ReplaceParams.UnsuppliedLinkExample | src/psbt/params.rs:606-621 | with a grandparent and grandchild supplied both are left in every order and an output of a descendant is to be spent |
| ReplaceParams.SanitizedIsAntichain | src/psbt/params.rs:606-621 | no transaction that is left descends, through supplied ones, from one that is left, coinbase or not |
| ReplaceParams.OrderIndependentIff | src/psbt/params.rs:606-621 | all iteration orders agree exactly when every transaction with a supplied parent descends, through supplied ones, from a root that is no coinbase; then those roots are left |
| ReplaceParams.CoinbaseOrderExample | src/psbt/params.rs:606-621 | a coinbase and its child leave different sets in different orders |
| ReplaceParams.ReplaceIsSafe | src/psbt/params.rs:623-645 | no entry spends an output of a replaced transaction, all inputs of replaced transactions are listed, other planned inputs survive |
| ReplaceByFee.BuildMustSpendInputs | src/wallet/mod.rs:3648-3677 | one input per entry in order, its sequence the override, else what the plan requires, else the fallback; it fails exactly when some wallet entry is unknown, cannot be planned or rejects its sequence, and the first such entry decides the error |
| ReplaceByFee.CheckOriginals | src/wallet/mod.rs:3469-3503 | passes exactly when no named transaction is confirmed and each known one has an input among the chosen |
| ReplaceByFee.BuildFloor | src/wallet/mod.rs:3576-3609 | the floor lists every named transaction once with its own weight and fee, steps by 250, and its fees sum to those of all replaced transactions whose fee is known, each once; a named one without a fee is the error |
| ReplaceByFee.GatherInputs | src/wallet/mod.rs:3528-3575 | the candidates are exactly the confirmed, mature, unspent, unlocked, wanted, plannable outputs that are not listed and come from no replaced transaction; none if only listed inputs may be spent |
| ReplaceByFee.ReplaceByFeeWithRng | src/wallet/mod.rs:3439-3638 | a success spends an input of every named transaction and no output of any of them or of a descendant, none twice, each with the sequence due to it, adds only candidates, and hands the selector exactly the candidates and the fee floor; each error applies |
| ReplaceByFee.ReplacementNeedsUnrelated | src/wallet/mod.rs:3530-3537 | what replace leaves can be replaced only if no kept transaction descends from another in the wallet's graph |
| Locktimes.ChooseLockTime | src/wallet/mod.rs:1364-1403 | the lock time meets the requirement; a request is honoured exactly when it does; otherwise the later of requirement and height |
| Locktimes.ChooseSequence | src/wallet/mod.rs:1408-1419 | a request is refused exactly when the sequence check fails; the default is the required sequence, or 0xFFFF_FFFD, which signals replacement, keeps the lock time in force and has no relative lock |
| Locktimes.EncodedLocks | src/wallet/utils.rs:58-76 | 16-bit counts of blocks and of 512 seconds are plain lock sequences without and with the type flag |
| Locktimes.CheckIsCsv | src/wallet/utils.rs:58-76 | between plain lock sequences the check is the comparison of BIP 112 |
| Locktimes.PassedCheckSatisfiesIff | src/wallet/utils.rs:58-76 | against every plain requirement a passing sequence satisfies the script, if and only if it has no relative lock, or is a plain lock sequence, or has all 16 lock bits set |
| Locktimes.StrayBitExample | src/wallet/utils.rs:58-76 | bit 16 alone passes the check against 5000 without satisfying the script |
| CreateTx.RequirementsErr | src/wallet/mod.rs:1302-1343 | a missing path is an error exactly for a keychain that may be spent from and whose tree needs one, the external one first; then the errors of the trees, then mixed units |
| CreateTx.RequirementsAreLeast | src/wallet/mod.rs:1302-1343 | whatever meets every active timelock of both keychains meets the requirements |
| CreateTx.RequirementsMeetLocks | src/wallet/mod.rs:1302-1343 | the merged requirements meet every timelock that the paths of both keychains lead to |
| CreateTx.DefaultSequenceSatisfies | src/wallet/mod.rs:1408-1419 | the default sequence satisfies the script of every active relative timelock |
| CreateTx.CltvEnforcedIff | src/wallet/mod.rs:1364-1419 | the script of every active absolute timelock passes exactly when the caller did not request the final sequence |
| CreateTx.CheckRecipients | src/wallet/mod.rs:1465-1486 | the total of the recipients, or the first recipient that is empty or dust |
| CreateTx.OfferedElements | src/wallet/mod.rs:2157-2223 | the offer lists exactly the unlocked, mature, version-compatible, wanted outputs, each once |
| CreateTx.OfferIsDisjoint | src/wallet/mod.rs:2198-2201 | no manually selected coin is offered again |
| CreateTx.OfferIsExact | src/wallet/mod.rs:2157-2223 | offered are exactly the wallet's unspent outputs that are unlocked, mature, spendable, of the wanted keychain, version-compatible, not chosen already, and confirmed when bumping |
| CreateTx.ChangeIsPaid | src/wallet/mod.rs:1488-1593 | inputs cover outputs; the fee is at least the rate on the charged weight and exceeds it by rounding, given-up change and the fee of a change output worth nothing alone; an absolute fee is met exactly when there is change |
| CreateTx.WholeWeightIsPaid | src/wallet/mod.rs:1488-1593 | what is not charged is the growth of the two count prefixes and a change output worth nothing; exactly when there is none the charged weight is the whole one, and the fee falls short by at most the fee of the rest |
| CreateTx.PrefixShortfallExample | src/wallet/mod.rs:1488-1593 | 253 inputs that pay the charged weight exactly fall eight satoshis short of the whole weight at one satoshi per weight unit |
| CreateTx.ChooseFee | src/wallet/mod.rs:1421-1447 | a bump is refused exactly when it pays less than the previous absolute fee or raises the rate by less than 250 |
| CreateTx.ChooseTerms | src/wallet/mod.rs:1302-1462 | succeeds exactly when requirements, version, lock time, sequence, fee and manual selection agree, with the requested terms or the defaults and a relative lock forcing version 2 or above; otherwise the first check that fails decides the error |
| CreateTx.CreateTx | src/wallet/mod.rs:1279-1609 | inputs distinct, allowed and as the caller's selector returned them, outputs as requested plus the selector's change, to the drain recipient if there is one and else to the wallet, a sweep to that recipient alone, fee floor and ceiling, lock time and sequence meeting every active timelock of both keychains unless the requested sequence opts out of the lock time; each error applies; the call cannot fail with acceptable parameters, payable recipients and sufficient effective values |
| Persistence.StagedChanges.Merge | src/wallet/changeset.rs:155-190 | merging in place gives first-write-wins constants and last-write-wins locks |
| Persistence.MergeIsMonoid | src/wallet/changeset.rs:155-190 | merging is associative with the empty change set as identity |
| Persistence.Database.PersistToSqlite | src/wallet/changeset.rs:307-372 | the write-once row and the lock table after persisting |
| Persistence.Database.FromSqlite | src/wallet/changeset.rs:253-297 | the change set read back has the row and every table entry as a lock |
| Persistence.PersistMerge | src/wallet/changeset.rs:307-372 | persisting two change sets in turn gives the tables of persisting their merge |
| Persistence.PersistRun | src/wallet/changeset.rs:307-372 | persisting any list of change sets gives the tables of persisting their merge |
| Persistence.FirstWriteWins | src/wallet/changeset.rs:314-345 | over any run of change sets each constant takes the first value given and keeps it |
| Persistence.LastWriteWins | src/wallet/changeset.rs:356-369 | an outpoint is in the lock table as the last change set that mentions it says |
| Persistence.LoadAfterPersist | src/wallet/changeset.rs:253-297 | fresh tables give back the constants and exactly the locks that were set |
| Persistence.Wallet.LoadWithParams | src/wallet/mod.rs:592-598 | only outpoints recorded as locked are loaded, with nothing staged |
| Persistence.Wallet.LockOutpoint | src/wallet/mod.rs:2578-2585 | memory and stage step as the run model says; a second lock stages nothing |
| Persistence.Wallet.UnlockOutpoint | src/wallet/mod.rs:2590-2597 | memory and stage step as the run model says; unlocking a free outpoint stages nothing |
| Persistence.Wallet.TakeStaged | src/wallet/mod.rs:2535-2537 | hands out what is staged, if anything, and leaves nothing staged |
| Persistence.Wallet.Persist | src/wallet/persisted.rs:193-202 | a flush steps the tables and clears the stage as the run model says; if the persister fails nothing changes |
| Persistence.RunAgrees | src/wallet/mod.rs:2535-2597 | over every run the tables with the stage applied hold exactly the locks in memory |
| Persistence.LocksSurvive | src/wallet/mod.rs:2535-2597 | from a fresh wallet, after flush and reload an outpoint is locked as the last operation on it says |
| Persistence.OnlyFlushesGo | src/wallet/mod.rs:2535-2537 | the run without flushes has every other operation as often as before |
| Persistence.ReloadAfterFlush | src/wallet/mod.rs:592-598 | after any run, flushing and reloading finds the locks that were in memory |
| Persistence.FlushTimingIsIrrelevant | src/wallet/mod.rs:2535-2537 | however a run is cut into stages, memory and the finally flushed tables are the same |
| Events.WalletEvents | src/wallet/event.rs:87-186 | replaying the events turns the first snapshot into the second, each changed transaction has exactly one event, of the kind its change calls for, with its own body, old block and conflicts, and the tip has one, the first, exactly when it changed |
| Events.QuietIff | src/wallet/event.rs:107-183 | no transaction event exactly when no status changed |
| Events.ReplayRun | src/wallet/mod.rs:2853-2876 | over a run of updates, replaying all events in order follows the wallet |
| Events.TrackedWallet.EventsHelper | src/wallet/mod.rs:2853-2876 | the returned events lead from the view before the update to the view after it and report exactly its changes |
| MwebSelection.SelectMwebCoins | src/wallet/mweb.rs:412-447 | fails exactly on no coins or a too small sum; otherwise the smallest single covering coin, or the fewest coins that cover |
| MwebSelection.LargestFirstPrefix | src/wallet/mweb.rs:434-446 | the first covering largest-first prefix has the fewest coins of any covering choice |
| MwebSelection.DecidesRightlyIff | src/wallet/mweb.rs:419-425 | the wrapped sum decides every need as the true sum does, if and only if it did not wrap or is the largest amount |
| MwebSelection.DecidesSpendRightlyIff | src/wallet/mweb.rs:117-123 | with the saturated need every spend is decided rightly if and only if, besides, the true sum is not the largest amount itself |
| MwebSelection.PaysSpendIff | src/wallet/mweb.rs:117-123 | every success pays amount plus fee, and every overflowing request is refused, if and only if the wrapped sum is not the largest amount; if it is, no possible selection pays the largest amount and fee |
| MwebSelection.SupplyBoundSuffices | src/wallet/mweb.rs:117-123 | below the 64-bit bound the wrapped sum and the saturated need decide as the true ones, and success covers amount plus fee |
| MwebSelection.WrapAroundExample | src/wallet/mweb.rs:419-425 | two coins whose sum wraps to zero are refused |

## Left out

- Overflow panics of 64-bit amounts and weights: amounts are unbounded naturals everywhere but in MwebSelection.
- Signing, key derivation, descriptor and miniscript parsing, templates and mnemonics: foreign or macro code.
- A custom coin selection algorithm, and branch and bound as the fallback of branch and bound.
- The in-place update of the sorted lists inside the selectors: sorting is modelled on values, so aliasing is not captured.
- Policy fragments that extract to nothing (true, false, raw key hashes) and the adjustment of the threshold around them.
- The index carried by the out-of-range error: which of several bad indexes is reported depends on hash order.
- ReplaceByFee.ReplaceByFeeWithRng: what the foreign selector does with the fee floor, the outputs it makes, their ordering, and revealing the change address once it is among them are not modelled.
- ReplaceByFee.BuildMustSpendInputs: when a plan rejects a sequence is decided in foreign code, so the rejected pairs are an input.
- CreateTx.ChangeIsPaid: the growth of the count prefixes, of the outputs by change (the TODO at src/wallet/mod.rs:1589-1591 admits it) and of the inputs from 253 on, is not charged.
- CreateTx.CreateTx: input and output order after sorting, PSBT completion and marking the change address used are not modelled.
- Chain, transaction graph and indexer parts of change sets: only the constants and the locks are modelled.
- SQLite itself, file stores, migration and serialization: tables are values and statements are updates of them.
- MWEB synchronisation, the coin database and balances.

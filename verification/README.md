# Verified model of the chain5j state application

This project models the state half of a chain5j node and proves properties of it:
the per-account transaction list, the gas and balance transition of an EVM message,
the block loop that runs transactions through their interpreters, the domain-based
permission scheme with account recovery, the memoised ancestor-hash lookup, and
transaction gossip.

| file | what it models |
|---|---|
| `Models.dfy`, `Ledger.dfy` | transactions, accounts, receipts, `uint64` wrap-around, balances and their total, the state database |
| `Sorting.dfy` | the contract under which `sort.Sort` is used |
| `NonceHeap.dfy` | `nonceHeap` with sift-up, sift-down, push, pop, remove-at-index and heapify |
| `TxSequences.dfy` | the reference: a sequence in strictly increasing nonce order and the list operations on it |
| `SortedMap.dfy`, `TxList.dfy` | `txSortedMap` and `txList`, proved to perform those operations |
| `NonceQueue.dfy` | the per-account queues and the nonce gate of `ValidateTx` |
| `GasTransition.dfy`, `Evm.dfy` | intrinsic gas, buying gas, the VM call, refund and fee; the EVM interpreter |
| `Base.dfy`, `Accounts.dfy`, `Lost.dfy`, `Domains.dfy` | the transfer, account and recovery interpreters, and the domain order |
| `WorldRuns.dfy` | what runs of all interpreters together keep |
| `Block.dfy` | `Prepare` and `Commit` |
| `AncestorHash.dfy` | the closure of `GetHashFn` |
| `GossipPeer.dfy`, `PeerSet.dfy` | known sets, bounded queues and the methods of `peerSet` |
| `Gossip.dfy` | broadcasts and sending loops as interleaved steps |
| `GossipDelivery.dfy` | what such interleavings deliver |

Objects whose methods update fields are classes, and each of their methods is proved
equal to a reference function on values. The lemmas are about those functions, and for
each of them some say what it does without its own parts: on every transaction, account
or peer by itself.

## What is assumed of code outside the repository

- `container/heap` is modelled in full, `sort.Sort` as any sort that is correct for a strict weak order.
- The virtual machine is an arbitrary function that returns no more gas than it was given, keeps the total
  balance, and leaves balances unchanged when it reports `ErrInsufficientBalance` (`GasTransitions.Conforming`).
- `GasPool.SubGas` fails exactly when too little is left. The gas price constants are parameters, assumed positive.
- The state database is a map update per call. Accounts are stored under `CN@Domain`; `SetLost(nil)` removes the
  record; `SetAddress` replaces the addresses; `Partner()` is the stored partner's name.
- `AuthorizedRegisterUser` and `AuthorizedRegisterDomain` hold when the permissions exist and carry the flag.
- Decoding, name normalisation and signature recovery are given with the transaction; clocks and headers are inputs.
- `GetHeader` returns a header of the height it was asked for, and no block sits at the largest `uint64` height.

## Where the code and its comments part

The model follows the code.

- `lostFoundInterval` is called two days but is `60 * 3600 * 24 * 2`; the deadline is added in `uint64` and wraps
  for header times near the top (`LostInterpreter.DeadlineExact`).
- The replacement threshold of `txList.Add` wraps. It means what it says exactly when the product of price and
  percentage fits in `uint64`, no bump is asked for, or no higher price exists (`TxLists.BumpRuleExact`);
  `TxLists.BumpRuleWraps` shows a price for which it does not.
- In `Prepare` the second error block after `ApplyTransaction` is never reached: a failed transaction is not
  reverted and stays out of both result lists (`Blocks.AcceptedInOrder`, `Blocks.RefusedInOrder`). An EVM
  transaction that fails after buying its gas keeps the price debited (`Blocks.PrepareLeaks`,
  `EvmInterpreter.LateFailureBurns`), and a base transfer
  with a wrong nonce is charged without a receipt, which `Commit` then takes out of the next receipt's figure
  (`Blocks.PrepareThenCommit` for exactly when, `Blocks.MismatchShows` for a block of two transfers).
- The nonce gate compares with the last cached nonce, not its successor, so the nonce just admitted is the only one
  admitted again (`NonceQueues.GateAfterAdmission`).
- A queue stays ordered under `push` exactly if the queue is empty, the transaction is dropped, or its nonce is not
  below the back (`NonceQueues.PushKeepsOrder`, `NonceQueues.RunKeepsOrder`, `NonceQueues.OutOfOrderPushBreaks`).
- No registration looks at the recovery record its store brings along. A recovery is preceded by a partner's request
  exactly when no registration planted the record and the account did not start with one
  (`WorldRuns.FoundIsAuthorised`); `WorldRuns.PlantedRecordIsHonoured`
  shows a run in which one did.
- The comparison of permissions leaves out the right to register domains, so an administrator without it can hand it
  on. Where nobody has it, such an update is exactly how somebody gets it (`WorldRuns.DomainRightAppears`,
  `WorldRuns.DomainRightFromNobody`).
- A recovery may hand out an address that another account already has (`WorldRuns.RecoveryShares`;
  `WorldRuns.RunKeepsDisjoint` for exactly when accounts stay apart over a run).
- Overlapping broadcasts of the same transaction can queue its hash to a peer twice
  (`GossipProtocol.OverlappingScansRepeat`). A batch is queued first and marked as known afterwards, so this happens
  even when the first broadcast has nothing left to scan or to queue (`GossipProtocol.MarkingCounts`).
  `GossipProtocol.BeginIsSafeExactly` says exactly which broadcasts may begin; those that share no hash with what another
  one has still to scan, to queue or to mark always may (`GossipProtocol.ApartRunsAreClashFree`).
- A domain registration does not ask whether the administrator's account exists, and registering a user adds no domain,
  so registering a domain can re-create an account in it: unfrozen, with other addresses, without balance and with
  nonce zero (`WorldRuns.RecreationResets`). This is the only other way a frozen mark changes
  (`WorldRuns.FreezeChangesExactly`), and the way a nonce can be applied twice (`WorldRuns.RepeatedNonceWasRewound`).
- Receipts of several Prepares on one context are committed together, although each Prepare counts its gas from zero
  (`Blocks.PreparesThenCommit` for exactly when that shows, `Blocks.SecondPrepareShows`).

## Model

| member | source | states |
|---|---|---|
| `Sorting.SortBySorts` | app/nonce.go:120 | for any strict weak order the sort keeps the elements and puts them in order |
| `SortedMaps.LessIsStrictWeak` | transaction_state.go:168-177 | `Less` is an ordering a sort may be given |
| `Heaps.RootIsMinimum` | app/nonce.go:25-39 | the root of the slice heap is a minimum of all slots |
| `Heaps.SinkStep` | app/nonce.go:25-39 | one exchange with the smaller child moves the only possible violation one level down and leaves the slots beyond n alone |
| `Heaps.SinkDone` | app/nonce.go:25-39 | when no child is smaller, every edge below the start slot is in order |
| `Heaps.RiseStep` | app/nonce.go:25-39 | one exchange with the parent moves the only possible violation one level up |
| `Heaps.RemovalHole` | app/nonce.go:147 | moving the last slot into a removed one disturbs only the edges there |
| `Heaps.NonceHeap.Up` | app/nonce.go:63 | sift-up restores heap order on the first n slots and keeps the elements |
| `Heaps.NonceHeap.Down` | app/nonce.go:74 | sift-down restores order below a slot, says whether it moved, keeps elements and tail |
| `Heaps.NonceHeap.Init` | app/nonce.go:104 | heapify turns any slice into a heap of the same elements |
| `Heaps.NonceHeap.Push` | app/nonce.go:63 | the heap gains exactly the pushed nonce |
| `Heaps.NonceHeap.Pop` | app/nonce.go:74 | the root comes out and exactly it leaves the heap |
| `Heaps.NonceHeap.RemoveAt` | app/nonce.go:147 | the element at the index comes out, exactly it leaves, and heap order holds again |
| `TxSequences.BelowSplits` | app/nonce.go:69-83 | the leading transactions under a threshold are all of them |
| `TxSequences.LookupFinds` | app/nonce.go:55-57 | looking a nonce up finds the transaction of that nonce exactly when one is held, wherever it stands |
| `TxSequences.PutOrdered` | app/nonce.go:60-66 | inserting or replacing keeps the order and holds the new transaction and the others of different nonce |
| `TxSequences.WithoutOrdered` | app/nonce.go:138-156 | removing keeps the order and removes exactly the one nonce |
| `TxSequences.FilterPartitions` | app/nonce.go:86-110 | what a filter picks and what it leaves are together the old contents |
| `TxSequences.FilterKeepsOrder` | app/nonce.go:86-110 | both parts keep the nonce order |
| `TxSequences.RunLengthMaximal` | app/nonce.go:169 | the run counted by Ready is consecutive and cannot be extended |
| `TxSequences.ListingUnique` | app/nonce.go:41-45 | the nonce-ordered sequence of a map's values is unique |
| `SortedMaps.RootIsFirst` | app/nonce.go:73 | the heap's root is the nonce of the first transaction in order |
| `SortedMaps.NoWrappedMatch` | app/nonce.go:169 | Ready's counter wraps only past the largest nonce, where no entry matches it |
| `SortedMaps.CapStep` | app/nonce.go:122-125 | each turn of Cap's loop takes the highest nonce left |
| `SortedMaps.SortedListing` | app/nonce.go:184-191 | sorting all values of the map by Less lists the map in strictly increasing nonces |
| `SortedMaps.SiftDone` | app/nonce.go:91-96 | whatever the map order, the filter loop removes exactly the selected transactions |
| `SortedMaps.TxSortedMap.Get` | app/nonce.go:55-57 | looks the nonce up in the ordered sequence |
| `SortedMaps.TxSortedMap.Put` | app/nonce.go:60-66 | heap, map and cache stay in agreement and perform the sequence insertion |
| `SortedMaps.TxSortedMap.Forward` | app/nonce.go:69-83 | returns exactly the nonces below the threshold in ascending order; a cache is trimmed, not rebuilt, and stays right |
| `SortedMaps.TxSortedMap.Filter` | app/nonce.go:86-110 | removes exactly the selected transactions, as a multiset, and re-indexes |
| `SortedMaps.TxSortedMap.Cap` | app/nonce.go:113-135 | keeps the lowest nonces, returns the rest in descending order, trims the cache at its back |
| `SortedMaps.TxSortedMap.Remove` | app/nonce.go:138-156 | deletes exactly one entry from heap and map, or reports that there is none |
| `SortedMaps.TxSortedMap.Ready` | app/nonce.go:162-177 | takes the maximal consecutive run from the smallest nonce, or nothing if that is above start |
| `SortedMaps.TxSortedMap.Len` | app/nonce.go:179-181 | the number of transactions held |
| `SortedMaps.TxSortedMap.Flatten` | app/nonce.go:184-196 | all transactions in nonce order, in a newly allocated slice, with the cache filled |
| `TxLists.BumpThresholdAtMost` | app/nonce.go:233 | the wrapped threshold never exceeds the true one and equals it exactly when the product fits in uint64 |
| `TxLists.BumpRuleExact` | app/nonce.go:233-237 | the wrapping rule is the intended one at every new price exactly when the product does not overflow, the bump is zero, or the old price is the largest |
| `TxLists.BumpRuleWraps` | app/nonce.go:233-237 | a price at which the bump wraps and one unit more is accepted |
| `TxLists.ShortcutSound` | app/nonce.go:262-264 | when the caps are within the limits a full scan would remove nothing |
| `TxLists.FullScanPartitions` | app/nonce.go:271-299 | removed, invalid and kept partition the contents; the removed are exactly the too dear ones |
| `TxLists.FullScanExactly` | app/nonce.go:271-299 | x is kept iff it is held, within both limits and, in a strict list only, no held transaction below it is outside them; removed are those outside; a list that is not strict invalidates nothing |
| `TxLists.StrictFilterCuts` | app/nonce.go:277-297 | a strict filter keeps exactly the nonces below the lowest removed one |
| `TxLists.ApplyKeepsWellFormed` | app/nonce.go:224-334 | every operation keeps the nonce order and the caps' cover |
| `TxLists.ApplyConserves` | app/nonce.go:224-334 | what was held plus what entered is what is held plus what left |
| `TxLists.RunKeepsWellFormed` | app/nonce.go:224-334 | order and cover hold after any sequence of operations |
| `TxLists.RunConserves` | app/nonce.go:224-334 | transactions are conserved over any sequence of operations |
| `TxLists.FilterIsFullScan` | app/nonce.go:260-300 | after any run, Filter equals a scan of everything held |
| `TxLists.FilterExactly` | app/nonce.go:260-300 | for every list that is in order and covered: Filter keeps exactly the transactions described above, the others leave, and the caps become the limits unless they were within them |
| `TxLists.AddFresh` | app/nonce.go:224-250 | under a nonce that is not held Add always succeeds, holds everything it held, and raises the caps to the maximum |
| `TxLists.AddReplaces` | app/nonce.go:230-250 | under a held nonce it succeeds exactly if the new price is above the old and not below the wrapped threshold; then exactly the old one leaves, and otherwise nothing changes |
| `TxLists.RemoveExactly` | app/nonce.go:308-329 | Remove takes exactly that nonce and, from a strict list that holds it, all above; caps stay |
| `TxLists.StrictLeavesSlice` | app/nonce.go:253-334 | in strict mode every operation but Add leaves a slice of the list |
| `TxLists.StrictKeepsContiguous` | app/nonce.go:253-334 | so a contiguous interval of nonces stays one |
| `TxLists.AddKeepsContiguous` | app/nonce.go:224-250 | an accepted Add keeps the interval exactly when its nonce is inside or next to it |
| `TxLists.ReadyTakesMaximalRun` | app/nonce.go:332-334 | Ready takes the maximal run off the front, or nothing, and leaves the rest and the caps |
| `TxLists.ForwardExactly` | app/nonce.go:253-255 | Forward splits the list at the threshold, nothing else changes |
| `TxLists.CapExactly` | app/nonce.go:303-305 | Cap keeps exactly that many of the lowest nonces and returns the others in descending order |
| `TxLists.TxList.Overlaps` | app/nonce.go:215-221 | true exactly when some transaction held has that nonce |
| `TxLists.TxList.Add` | app/nonce.go:224-250 | accepts exactly unless a held transaction of that nonce is not outbid, reports the one it replaced, and raises the caps |
| `TxLists.TxList.Forward` | app/nonce.go:253-255 | performs the reference Forward and returns what left |
| `TxLists.TxList.Filter` | app/nonce.go:260-300 | early exit or not: what is held, removed and invalid partitions the old contents, held is exactly what survives the limits, removed exactly what is outside them, and only a strict list invalidates |
| `TxLists.TxList.LowestNonce` | app/nonce.go:279-288 | finds the lowest removed nonce whatever order the map was walked in |
| `TxLists.TxList.Cap` | app/nonce.go:303-305 | performs the reference Cap and returns what left |
| `TxLists.TxList.Remove` | app/nonce.go:308-329 | true exactly when the nonce was held; removes it and, in strict mode, everything above, which it reports |
| `TxLists.TxList.Ready` | app/nonce.go:332-334 | performs the reference Ready and returns what left |
| `TxLists.TxList.Flatten` | app/nonce.go:344-346 | the contents in nonce order in a newly allocated slice, nothing held changed |
| `NonceQueues.DropTopKeepsExactly` | app/nonce.go:410-424 | DeleteErrTx keeps exactly the entries at or below the nonce |
| `NonceQueues.DropBottomKeepsBack` | app/nonce.go:436-452 | DeleteOkTx drops only lower nonces from the front and never changes the reported nonce |
| `NonceQueues.PushKeepsOrder` | app/nonce.go:483-517 | a push keeps the order exactly when the queue is empty, the transaction is dropped, or its nonce is not below the back |
| `NonceQueues.PushExactly` | app/nonce.go:483-517 | a push appends, unless the queue has entries and all of them are above the nonce |
| `NonceQueues.OutOfOrderPushBreaks` | app/nonce.go:483-517 | three pushes after which DeleteErrTx misses a higher nonce |
| `NonceQueues.GateAfterAdmission` | app/app.go:173-189 | after an admission the gate accepts exactly that nonce until the stored one passes it, then exactly the stored one |
| `NonceQueues.GateExactly` | app/app.go:173-189 | the nonce let through is the largest of the stored one and those queued, the stored one if nothing is queued; the error is too-low exactly below the stored one |
| `NonceQueues.StepExactly` | app/nonce.go:368-519 | an event changes its sender's queue only: an admission or push appends, a deletion cuts off lower nonces in front or exactly the higher ones at the back |
| `NonceQueues.RunKeepsOrder` | app/nonce.go:368-519 | over any run of admissions, pushes and deletions every queue is in order at every moment exactly when each push by Prepare fits |
| `NonceQueues.BackIsMaximum` | app/nonce.go:465-480 | then the back, which the gate reads, is the largest nonce of the queue |
| `NonceQueues.NonceCache.DeleteErrTx` | app/nonce.go:368-408 | only the sender's queue changes, by the drop from the back |
| `NonceQueues.NonceCache.DeleteOkTx` | app/nonce.go:385-434 | only the sender's queue changes, by the drop from the front |
| `NonceQueues.NonceCache.GetNonceCache` | app/nonce.go:465-480 | reports the back, or zero, and creates a missing queue |
| `NonceQueues.NonceCache.Push` | app/nonce.go:483-519 | appends unless the nonce is below the front |
| `NonceQueues.NonceCache.ValidateNonce` | app/app.go:170-201 | admits exactly by the gate and the interpreter's verdict, and only then pushes |
| `GasTransitions.DivisionGuard` | interpreter/evmInterpreter/state_transition.go:73 | the division test refuses exactly the counts whose price does not fit |
| `GasTransitions.TwoGuards` | interpreter/evmInterpreter/state_transition.go:73-83 | the two guards together refuse exactly the data whose price, counted or byte by byte, does not fit in uint64 |
| `GasTransitions.IntrinsicByByte` | interpreter/evmInterpreter/state_transition.go:55-85 | no data costs the base price of a call or a creation, and each byte adds the price of a zero or a non-zero byte |
| `GasTransitions.IntrinsicGas` | interpreter/evmInterpreter/state_transition.go:55-85 | returns the true price of the data exactly when it fits in uint64 and an error exactly when it does not |
| `GasTransitions.SettleDoesNotWrap` | interpreter/evmInterpreter/state_transition.go:226-247 | no sum or difference wraps, and at least half of the gas used, rounded up, stays used |
| `GasTransitions.SettlePaysBack` | interpreter/evmInterpreter/state_transition.go:219-242 | the returned remainder and the coinbase's fee add up to what was paid, also when sender and coinbase coincide |
| `GasTransitions.TransitionConserves` | interpreter/evmInterpreter/state_transition.go:176-224 | without error the total balance is unchanged and the pool falls by exactly the reported gas |
| `GasTransitions.TransitionErrors` | interpreter/evmInterpreter/state_transition.go:176-218 | an early error changes nothing; a later one leaves exactly gasLimit*gasPrice debited and the limit out of the pool |
| `GasTransitions.TransitionVerdict` | interpreter/evmInterpreter/state_transition.go:132-214 | which error comes out, check by check, on nonce, balance, pool, intrinsic gas and the VM's answer to the one call with the limit paid, the nonce stepped exactly for a call, and the intrinsic gas taken off |
| `GasTransitions.TransitionExactly` | interpreter/evmInterpreter/state_transition.go:176-247 | without error that call was made, the gas used is the limit less what the VM left, less the smaller of half of it and the refund counter, at least half the intrinsic gas; the rest of the limit went back to the sender, the charge to the coinbase, and every other balance is the VM's |
| `GasTransitions.StateTransition.UseGas` | interpreter/evmInterpreter/state_transition.go:122-130 | deducts the amount or fails and changes nothing |
| `GasTransitions.StateTransition.BuyGas` | interpreter/evmInterpreter/state_transition.go:132-154 | balance and pool are checked before either is touched, then both are debited |
| `GasTransitions.StateTransition.PreCheckAndBuy` | interpreter/evmInterpreter/state_transition.go:156-171 | a nonce below the stored one is refused before any gas is bought |
| `GasTransitions.StateTransition.RefundGas` | interpreter/evmInterpreter/state_transition.go:226-242 | capped refund, remainder to the sender, gas back to the pool |
| `GasTransitions.StateTransition.TransitionDb` | interpreter/evmInterpreter/state_transition.go:176-224 | the object's steps come to the transition described by the two lemmas above |
| `EvmInterpreter.ApplyTransaction` | interpreter/evmInterpreter/state_processor.go:51-93 | gas used and receipt of the transition, no receipt on error |
| `EvmInterpreter.VerifyExactly` | interpreter/evmInterpreter/evminterpreter.go:28-63 | admitted exactly when an address of the unfrozen sender signed it and the recipient, if named, exists |
| `EvmInterpreter.NoRequest` | interpreter/evmInterpreter/state_processor.go:20-46 | a transaction without signer, or to no contract, is refused and changes nothing |
| `EvmInterpreter.RequestRuns` | interpreter/evmInterpreter/state_processor.go:20-68 | any other is the gas transition of one message: from the signer, to the contract's CN or none, with the transaction's value, data, limit, price and nonce |
| `EvmInterpreter.AppliedExactly` | interpreter/evmInterpreter/state_processor.go:51-84 | without error the VM has run that message, success is what the VM says, and the gas is settled between signer and coinbase |
| `EvmInterpreter.PoolAccounted` | interpreter/evmInterpreter/state_processor.go:51-68 | the pool falls by the reported gas, or by the whole limit exactly when the gas was bought and then the limit is under the intrinsic gas or the VM finds the transfer unpayable |
| `EvmInterpreter.ValueAccounted` | interpreter/evmInterpreter/state_processor.go:51-68 | the total balance falls by gasLimit*gasPrice exactly in that case, and otherwise not at all |
| `EvmInterpreter.LateFailureBurns` | interpreter/evmInterpreter/state_transition.go:180-193 | a transaction whose limit is under the intrinsic gas leaves its sender, who could just pay for the limit, with nothing |
| `Ledgers.CreditAddsToTotal` | interpreter/evmInterpreter/evm.go:69-72 | a credit moves the total balance by its amount |
| `BaseInterpreter.VerifiedCoversValue` | interpreter/baseInterpreter/baseInterpreter.go:56-59 | the wrapping gas product in Cost never lets the value exceed the balance |
| `BaseInterpreter.StepExactly` | interpreter/baseInterpreter/baseInterpreter.go:28-104 | a transfer takes effect exactly when the unfrozen sender signed it with its next nonce, can pay the cost, and the recipient exists; then each balance changes by what the account receives less what it sends |
| `BaseInterpreter.RunBalances` | interpreter/baseInterpreter/baseInterpreter.go:88-104 | over any run each account has what it began with, plus what it was sent, less what it sent |
| `BaseInterpreter.StepKeepsNonNegative` | interpreter/baseInterpreter/baseInterpreter.go:88-104 | a verified transfer leaves no negative balance |
| `BaseInterpreter.StepConserves` | interpreter/baseInterpreter/baseInterpreter.go:97-102 | the total is kept exactly unless value goes to the empty name |
| `BaseInterpreter.RunConserves` | interpreter/baseInterpreter/baseInterpreter.go:28-104 | over any run of transfers balances stay non-negative and the total is constant |
| `BaseInterpreter.AppliedConsecutive` | interpreter/baseInterpreter/baseInterpreter.go:91-96 | over any run a sender's applied nonces count up one by one from its initial nonce, and none is applied twice within 2^64 of its transfers |
| `BaseInterpreter.ApplyTransaction` | interpreter/baseInterpreter/baseInterpreter.go:65-86 | gas is charged even when the state is not written; if it is, balances and nonce change as the transfer says |
| `BaseInterpreter.WriteState` | interpreter/baseInterpreter/baseInterpreter.go:88-104 | with the sender's nonce: the value leaves the sender and reaches the recipient, nobody else's balance changes, the nonce steps; otherwise nothing changes |
| `Domains.SubDomainStrictOrder` | interpreter/accountInterpreter/domain.go:8-10 | isSubDomain is irreflexive, asymmetric and transitive |
| `Domains.SubDomainIsDotted` | interpreter/accountInterpreter/domain.go:8-10 | below a domain is exactly what ends in it after a dot: `a.org` is below `org`, `aorg` is not |
| `Domains.AncestorsFormChain` | interpreter/accountInterpreter/domain.go:8-10 | any two ancestors of a domain are equal or one is below the other |
| `Domains.NamesInjective` | interpreter/accountInterpreter/permission.go:46 | a stored CN@Domain name splits in only one way |
| `AccountInterpreter.ApplyTransaction` | interpreter/accountInterpreter/accountInterpreter.go:108-165 | verifies, performs the operation, moves the sender's nonce and charges gas, or changes nothing |
| `AccountInterpreter.FormatExactly` | interpreter/accountInterpreter/register.go:174-208 | a name is accepted exactly with 3 to 64 letters, digits and underscores, and with a domain of as many letters, digits and dots, or none where the registrar has none |
| `AccountInterpreter.RegisterAccepted` | interpreter/accountInterpreter/register.go:64-131 | a registration is accepted exactly if signed by an unfrozen holder of the right, for a free name and free addresses, a plain user in or below its domain or an administrator below with no right it lacks |
| `AccountInterpreter.RegisterDomainAccepted` | interpreter/accountInterpreter/register.go:31-61 | a domain is registered exactly once, by an unfrozen holder of that right |
| `AccountInterpreter.FreezeAccepted` | interpreter/accountInterpreter/frozen.go:17-47 | exactly an unfrozen administrator freezes, in its own domain users only, otherwise by the domain named |
| `AccountInterpreter.UpdateAccepted` | interpreter/accountInterpreter/permission.go:33-61 | permissions are set exactly by an unfrozen administrator for one below, within what it has itself |
| `AccountInterpreter.SetPartnerAccepted` | interpreter/accountInterpreter/update.go:12-27 | a partner is accepted exactly from the own domain or one above, or when it is taken back |
| `AccountInterpreter.StepExactly` | interpreter/accountInterpreter/accountInterpreter.go:118-149 | an accepted operation writes the one account named, field by field, steps the sender's nonce, starts a registered account at zero, and enters a new domain |
| `AccountInterpreter.StepTotal` | interpreter/accountInterpreter/register.go:134-161 | an account operation changes the total balance only by what a registration overwrites under the new name |
| `WorldRuns.FormatHasNoAt` | interpreter/accountInterpreter/register.go:174-208 | an accepted name contains no '@' |
| `WorldRuns.PassedOn` | interpreter/accountInterpreter/permission.go:13-31 | what a governing administrator may pass on is rooted wherever its own rights are |
| `WorldRuns.ChangedAccountKeeps` | interpreter/accountInterpreter/accountInterpreter.go:118-149 | the one account an operation writes stays sound and rooted |
| `WorldRuns.RunDelegation` | interpreter/accountInterpreter/register.go:64-161 | over any run of all interpreters, administrators are exactly the accounts with permissions and every delegable right is rooted |
| `WorldRuns.DelegationOrigin` | interpreter/accountInterpreter/register.go:92-122 | without new domains, a right's holder is in or below the domain of an initial holder of the same right |
| `WorldRuns.DomainRightAppears` | interpreter/accountInterpreter/permission.go:13-61 | where nobody may register domains, a step lets somebody exactly when it is an accepted update whose permissions carry that right |
| `WorldRuns.NoDomainsUnlessHandedOut` | interpreter/accountInterpreter/permission.go:13-61 | over any run nobody ever may exactly when no accepted update hands the right out, and then no domain is registered |
| `WorldRuns.DelegationWithoutHandouts` | interpreter/accountInterpreter/register.go:92-122 | so every right then has an initial holder in the same domain or above |
| `WorldRuns.DomainRightFromNobody` | interpreter/accountInterpreter/permission.go:13-31 | an administrator without the right to register domains hands it to the administrator below |
| `WorldRuns.NoNilPermissions` | interpreter/accountInterpreter/permission.go:56 | in no reachable world does the permission comparison meet an administrator without permissions |
| `WorldRuns.AccountStepKeepsDisjoint` | interpreter/accountInterpreter/register.go:164-172 | no two accounts come to share an address, and registering a user never replaces an account |
| `WorldRuns.FoundKeepsDisjointExactly` | interpreter/lostInterpreter/lostinterpreter.go:195-211 | a recovery keeps addresses apart exactly when no other account has the recovery address |
| `WorldRuns.RunKeepsDisjoint` | interpreter/lostInterpreter/lostinterpreter.go:195-211 | over any run no two accounts ever share an address exactly when every accepted recovery hands out an address nobody else has then |
| `WorldRuns.RecoveryShares` | interpreter/lostInterpreter/lostinterpreter.go:195-211 | a request and a recovery after which one address signs for two accounts |
| `WorldRuns.RepeatedNonceWasRewound` | interpreter/baseInterpreter/baseInterpreter.go:91-96 | over any run of all interpreters a sender's nonce is applied by two transfers within 2^64 steps only across a registration under the sender's name, or a VM transaction that touched its nonce |
| `WorldRuns.FreezeChangesExactly` | interpreter/accountInterpreter/frozen.go:17-47 | a step changes a frozen mark exactly when it is a freeze that says otherwise, by an unfrozen administrator of the same domain for non-administrators or of one above, or a domain registration that re-creates a frozen account |
| `WorldRuns.RecreationResets` | interpreter/accountInterpreter/register.go:31-61 | registering the domain of an existing account unfreezes it, replaces its addresses and sets its balance and nonce to zero |
| `WorldRuns.FreezeOrigin` | interpreter/accountInterpreter/frozen.go:17-65 | over any run a changed frozen mark has such a step behind it, or a domain registration that re-created the account |
| `LostInterpreter.DeadlineExact` | interpreter/lostInterpreter/lostinterpreter.go:161 | the deadline is header time plus interval exactly when the sum does not wrap |
| `LostInterpreter.ApplyTransaction` | interpreter/lostInterpreter/lostinterpreter.go:94-138 | verifies with the clock, performs the operation, moves the nonce and charges gas, or changes nothing |
| `LostInterpreter.LostRequestAccepted` | interpreter/lostInterpreter/lostinterpreter.go:38-153 | a report is accepted exactly from the existing account's partner, unfrozen, under the signature of one of the partner's addresses |
| `LostInterpreter.LostResetAccepted` | interpreter/lostInterpreter/lostinterpreter.go:82-85 | a withdrawal is accepted exactly from the unfrozen account under one of its addresses |
| `LostInterpreter.FoundRequestAccepted` | interpreter/lostInterpreter/lostinterpreter.go:168-193 | a recovery is accepted exactly for an unfrozen account, under the address on record, from the deadline on |
| `LostInterpreter.NothingElseAccepted` | interpreter/lostInterpreter/lostinterpreter.go:87-89 | no other operation is accepted |
| `LostInterpreter.StepExactly` | interpreter/lostInterpreter/lostinterpreter.go:94-138 | an accepted operation writes one account's record and, on a recovery, its addresses; of the ledger only the sender's nonce moves |
| `LostInterpreter.CommitLostRequest` | interpreter/lostInterpreter/lostinterpreter.go:155-166 | stores recovery address and deadline on the lost account |
| `LostInterpreter.CommitFoundRequest` | interpreter/lostInterpreter/lostinterpreter.go:195-211 | the recovery address takes the account over and the record is gone |
| `WorldRuns.RecordOrigin` | interpreter/lostInterpreter/lostinterpreter.go:155-217 | a record present was left by the last step to touch the account, a request or a registration that brought it, or was there from the start |
| `WorldRuns.FoundIsAuthorised` | interpreter/lostInterpreter/lostinterpreter.go:140-217 | every accepted recovery follows a request by its then unfrozen partner, signed with one of that partner's addresses at that moment, naming the signer, deadline passed, nothing in between, exactly when no registration planted the record and the account did not start with it; a planted record names the signer |
| `WorldRuns.PlantedRecordIsHonoured` | interpreter/accountInterpreter/register.go:64-131 | a registration whose store carries a record, redeemed at once without any request |
| `WorldRuns.FoundAfterPlainRegistrations` | interpreter/lostInterpreter/lostinterpreter.go:140-217 | where the account starts without a record and its accepted registrations bring none, every recovery is authorised by such a request |
| `WorldRuns.FoundIsHonoured` | interpreter/lostInterpreter/lostinterpreter.go:168-193 | such a request, left alone, is honoured exactly when the account is not frozen and the deadline has passed |
| `WorldRuns.RunChangesAreSigned` | interpreter/accountInterpreter/accountInterpreter.go:31-50 | over any run no step of the account, recovery and transfer interpreters changes the world unless signed at that moment with an address of its unfrozen sender or, for a recovery, with the address on record |
| `WorldRuns.BalanceFallOrigin` | interpreter/baseInterpreter/baseInterpreter.go:97-102 | where a balance fell over a run, some step was a transfer so signed by the account, a registration under its name, or a VM transaction |
| `WorldRuns.AddressOrigin` | interpreter/lostInterpreter/lostinterpreter.go:195-211 | where an account's addresses changed over a run, some step was a recovery under the address on record, or a registration under its name |
| `Blocks.PrepareBalances` | app/app.go:244-290 | pool left plus EVM gas used plus gas limits burned by late failures is the block's gas; usedGas exceeds it by at most the last charge |
| `Blocks.ExecuteBalances` | app/app.go:264-285 | one transaction keeps that ledger balanced |
| `Blocks.AcceptedInOrder` | app/app.go:244-290 | okTxs are exactly the accepted elements of the block, in block order |
| `Blocks.RefusedInOrder` | app/app.go:244-290 | errTxs are exactly the refused elements in block order; what failed after verification is in neither list |
| `Blocks.ExecutedIsSigned` | app/app.go:244-290 | whatever a block executes, with or without success, is signed at its turn with an address of its unfrozen sender or, for a recovery, with the address on record |
| `Blocks.TransferFate` | app/app.go:250-285 | a transfer is refused unless signed so, payable and to an existing account, then accepted with the sender's next nonce and failed with any other |
| `Blocks.OtherFates` | app/app.go:250-285 | account operations are accepted or refused, recoveries too unless the clock goes back, EVM transactions are refused exactly when not signed so or to no account |
| `Blocks.AcceptedExactly` | app/app.go:264-290 | an accepted element acts through its interpreter, joins its sender's nonce queue, and has a receipt whose gas, 21000 unless the VM ran, is what usedGas goes up by |
| `Blocks.AcceptedEvm` | app/app.go:264-290 | an accepted EVM transaction is settled as the VM's answer to its message says, in receipt, pool and ledger |
| `Blocks.OthersExactly` | app/app.go:250-285 | any other element joins no queue and has no receipt; only a failed transfer is charged, only a failed EVM transaction may change the world |
| `Blocks.PrepareRecords` | app/app.go:286-294 | the receipts are those of okTxs one by one in order, and the nonce queues are the old ones with exactly okTxs pushed |
| `Blocks.FullBlockStops` | app/app.go:250-269 | once one element is not reached none after it is |
| `Blocks.StopsExactly` | app/app.go:250-269 | the loop stops early exactly when at some element's turn more than the block's gas has been used, or an EVM transaction that passes every other check asks for more than the pool has left |
| `Blocks.PrepareLeaks` | app/app.go:244-290 | over a block the total balance falls by exactly the gas paid by EVM transactions that failed after buying it, the value sent to the empty name, and the balances overwritten by registrations |
| `Blocks.BlocksAreRuns` | app/app.go:244-290 | a run of blocks is a run of executed transactions, so all run theorems apply to it |
| `Blocks.BaseBlocksConserve` | app/app.go:244-290 | over any run of blocks of transfers balances stay non-negative and the total is constant |
| `Blocks.BaseBlocksBalances` | app/app.go:244-290 | over any run of blocks of transfers each account has what it began with, plus what it was sent, less what it sent |
| `Blocks.BaseBlocksNonces` | app/app.go:244-290 | over any run of blocks of transfers each sender's nonces are applied consecutively and none twice |
| `Blocks.BlocksKeepDelegation` | app/app.go:244-290 | any run of blocks keeps accounts sound and every delegable right rooted |
| `Blocks.RewrittenPrefix` | app/app.go:320-328 | after Commit each cumulative figure is the prefix sum of gas used modulo 2^64 |
| `Blocks.RewrittenExactly` | app/app.go:320-328 | Commit keeps the first receipt's gas and the later cumulative figures, sets the other figure so that the prefix sums come out, and nothing else |
| `Blocks.CommitIdempotent` | app/app.go:320-328 | committing twice is committing once |
| `Blocks.CommitLeavesConsistent` | app/app.go:320-328 | Commit changes nothing exactly when the figures were prefix sums already |
| `Blocks.ReceiptsConsistent` | app/app.go:264-294 | a block's receipts are prefix sums modulo 2^64 exactly when the gas charged without a receipt before each is a multiple of 2^64 |
| `Blocks.PrepareThenCommit` | app/app.go:264-328 | for one Prepare, Commit changes nothing exactly when before every accepted element the gas of the transfers executed with a nonce other than their sender's is a multiple of 2^64 |
| `Blocks.ShortBlockThenCommit` | app/app.go:264-328 | in a block where that gas fits in uint64: exactly when no such transfer precedes an accepted element |
| `Blocks.MismatchShows` | app/app.go:264-328 | a block of two transfers, the first with a wrong nonce, whose receipt Commit rewrites |
| `Blocks.PreparesThenCommit` | app/app.go:294-328 | for several Prepares on one context, Commit changes nothing exactly when before every accepted element of a block the gas of its transfers with a wrong nonce is, modulo 2^64, the gas of all receipts of the blocks before |
| `Blocks.SecondPrepareShows` | app/app.go:294-328 | two blocks of one good transfer each, prepared on one context, whose second receipt is committed with no gas used |
| `Blocks.ApplyTransaction` | app/app.go:264 | dispatch to the interpreter the transaction names |
| `Blocks.Prepare` | app/app.go:221-303 | the loop computes the reference fold: state, nonce queues, gas, lists and receipts |
| `Blocks.Commit` | app/app.go:320-328 | the in-place loop computes the rewritten receipts |
| `AncestorHashes.WalkFindsAncestor` | interpreter/evmInterpreter/evm.go:51-56 | the uncached walk answers with the block the parent links lead to at that height |
| `AncestorHashes.WalkIsAncestor` | interpreter/evmInterpreter/evm.go:51-57 | a non-zero answer is such an ancestor |
| `AncestorHashes.LeadsDown` | interpreter/evmInterpreter/evm.go:51 | each link goes exactly one height down |
| `AncestorHashes.HashFn.GetHash` | interpreter/evmInterpreter/evm.go:36-59 | for any sequence of queries the closure answers as the uncached walk does and all its entries agree with that walk |
| `GossipPeers.UnknownIs` | txpool/tx_manager.go:199-222 | a peer's batch is exactly what it does not know |
| `GossipPeers.UnknownPicks` | txpool/tx_manager.go:245-256 | and its hashes stand in the order of the broadcast, each where it stood there |
| `GossipPeers.UniqueSum` | txpool/tx_manager.go:84-94 | queueing a batch keeps hashes unique exactly when it repeats nothing |
| `GossipPeers.DrainKeepsGood` | txpool/tx_manager.go:57-113 | sending keeps order and adds nothing to the known set |
| `GossipPeers.BroadcastKeepsGood` | txpool/tx_manager.go:238-260 | a broadcast keeps a peer good; a full queue leaves the batch unknown |
| `GossipPeers.BroadcastServes` | txpool/tx_manager.go:238-260 | the source of a broadcast that is not forced learns it all; of the others, whoever knows it all or has a full queue is left alone, and any other has exactly what it does not know queued as one batch and known |
| `GossipPeers.KnownIsQueued` | txpool/tx_manager.go:84-94 | so whoever is not the source comes to know only what waits in its queue |
| `GossipProtocol.EveryRunGood` | txpool/tx_manager.go:57-113 | the invariant holds in every interleaving of overlapping broadcasts, looks at single peers, channel sends, markings of single hashes and the steps of the sending loops, in which no broadcast begins with a claim another one has |
| `GossipProtocol.BeginIsSafeExactly` | txpool/tx_manager.go:84-94 | in a state reached so, a broadcast may begin without any hash ever being queued twice, whatever steps follow, exactly when for no peer it would collect a hash that another broadcast is going to queue there, or has queued and not yet marked as known |
| `GossipProtocol.EnqueuedAtMostOnce` | txpool/tx_manager.go:238-260 | in all of these each hash is queued to a peer at most once and is in its known set or just being marked; what was sent is a prefix of what was queued, and the queue keeps its bound |
| `GossipProtocol.ApartRunsAreClashFree` | txpool/tx_manager.go:238-260 | runs in which no broadcast begins with a hash that another one has still to scan, to queue or to mark are among these |
| `GossipProtocol.SourceIsSkipped` | txpool/tx_manager.go:205-208 | over any interleaving a non-forced broadcast never collects anything for its source |
| `GossipProtocol.SharedHashRepeats` | txpool/tx_manager.go:245-259 | a broadcast that begins with a claim another one has can be carried on without a third, through the rest of both scans and whatever draining is needed, until the hash is queued to that peer twice |
| `GossipProtocol.OverlappingScansRepeat` | txpool/tx_manager.go:245-259 | from an empty peer set a run of two overlapping broadcasts that queues a hash twice |
| `GossipProtocol.MarkingCounts` | txpool/tx_manager.go:84-94 | a run in which the first broadcast has scanned and queued everything, and only not marked it yet, when the second queues the hash again |
| `GossipDelivery.BroadcastReaches` | txpool/tx_manager.go:238-260 | in any interleaving, once a broadcast is over every peer that was there when it began knows each of its hashes, unless its queue was full when it was offered its batch |
| `GossipDelivery.KnownIsQueuedOrSourced` | txpool/tx_manager.go:57-113 | in any interleaving, clashing or not, a peer is taken to know only what was queued to it or what an unforced broadcast brought from it, and what was queued has been sent, is being sent, or waits, in order |
| `GossipDelivery.BroadcastDelivers` | txpool/tx_manager.go:238-260 | together: a broadcast that is over has had each hash queued to each such peer, by itself or another, except where the hash came from the peer |
| `PeerSets.PeerSet.AsyncSendTransactions` | txpool/tx_manager.go:84-94 | with room the batch is the newest in the queue and known, with 128 waiting it is dropped whole and nothing is marked |
| `PeerSets.PeerSet.SendNext` | txpool/tx_manager.go:57-113 | takes the oldest batch and sends it |
| `PeerSets.PeerSet.PeersWithoutTx` | txpool/tx_manager.go:199-222 | lists exactly the peers lacking the hash and marks the source of a non-forced broadcast |
| `PeerSets.PeerSet.BroadcastTxs` | txpool/tx_manager.go:238-260 | every peer is served as `GossipPeers.BroadcastServes` says: its own batch queued, or left alone |

## Left out

- SortedMaps.TxSortedMap.Forward: the cache is a value here, so sharing of the backing array between the cache and its trimmed slices is not captured.
- SortedMaps.TxSortedMap.Cap: a negative threshold, for which the Go code panics, is excluded.
- SortedMaps.TxSortedMap.Filter: the order of the removed transactions is not stated, because map iteration order is arbitrary.
- NonceQueues.NonceCache.Push: the queues are values in a map rather than shared queue objects; locking is not modelled.
- GossipProtocol.EnqueuedAtMostOnce: eviction by `MarkTransaction`, deregistration of peers and send errors are not part of the runs, and a broadcast carries each hash once.
- WorldRuns.RunDelegation: the domain-registration flag, which the permission comparison does not look at, is not among the rooted rights; WorldRuns.DomainRightAppears says how it spreads instead.
- Type assertions that a `models.Transaction` is a state transaction inside the list and the nonce cache; the block loop does model the failing case.
- Unicode letter tables and byte lengths of non-ASCII names: every rune outside ASCII counts as a letter and as one unit.
- The Ethereum, CA and permission interpreters, the unused pool and list under `txpool/`, RPC and configuration.
- EVM execution, contract creation addresses, logs, blooms, state roots, receipt storage, signatures, hashing and codecs.
- The mapping from account names to EVM addresses: balances of names and of addresses are entries of one ledger, and a name is never taken to be an address.

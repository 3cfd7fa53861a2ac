# Verified model of the benzene node

This project models the core of the node, in five parts, and proves what they keep.

* **Transaction pool** (`core/tx_pool.go`, `core/tx_list.go`, `core/tx_noncer.go`). `TxLists` gives the
  per-account lists as values, `NonceHeaps`, `TxSortedMaps` and `TxListObjects` the heap-indexed objects that
  carry them out, `TxPriced` the lookup and the lazily cleaned price heap, `TxNoncers` the virtual nonces.
  `PoolViews`, `PoolPromotion`, `PoolDemotion`, `PoolTruncation`, `PoolIntervals` and `PoolMendings` hold the
  invariants, `TxPools.TxPool` the pool itself and `PoolLosses` two runs of it. Over any sequence of operations the
  pool keeps three things: every pooled transaction is at its own nonce in exactly one of its sender's two lists and
  nothing else is listed; the price heap covers the pooled transactions with at most `stales` entries to spare; and
  every pooled transaction is local or pays the minimum price. All operations but a reset also keep the pending
  nonces of every account exactly the interval from its state nonce to its virtual nonce. For a reset, to any state
  and with any transactions reinjected, `PoolMendings.AllMend` says when they are that afterwards.
* **Reset and promotion requests** (`scheduleReorgLoop`). `ReorgLoops` is a state machine of the loop, the runs
  it starts and the callers, with theorems about every interleaving of their steps.
* **Contract ABI codec** (`accounts/abi`). `AbiWords`, `AbiTypes`, `AbiLayout`, `AbiEncoding`, `AbiDecoding` and
  `AbiRoundTrip` follow the section "Formal Specification of the Encoding" of the Solidity Contract ABI
  Specification, with the packing and unpacking loops proved against it.
* **Canonical chain and transaction index** (`core/headerchain.go`, `core/blockchain.go`,
  `core/rawdb/chain_iterator.go`). `Chains` relates the number index to the tree of parent hashes;
  `HeaderChains`, `BlockBranches`, `BlockSwitches` and `BlockChains` keep the two in step through
  reorganisations; `TxIndexers` and `TxUnindexers` treat the background indexers.
* **Quorum bookkeeping** (`consensus/quorum` and the guard of `onCommitted`). `Quorums` has the ballot boxes and
  the aggregation, `Commits` the bitmap count, the commit payload and the intersection of two quorums.

Where the source changes state in place the model is a class with the same fields; where it computes a value the
model is a function; loops are loops with invariants. `Wrappers` has `Option` and `Result`. Time is a parameter
`now`, the coin toss of `WriteHeader` a parameter `heads`, the iteration order of a Go map a nondeterministic
choice or a parameter, and BLS verification a function parameter.

Three places where the code and its comments differ; the model follows the code. `Transaction.Cost` is the amount
alone, not amount plus gas price times gas limit. `Ready` returns the run from the least stored nonce, provided
that is not above `start`; it does not return everything below `start`. `truncateQueue` takes accounts from the
end of the list sorted by heartbeat, so the most recently active account loses its transactions first.

Four properties do not hold of the code as it stands, and the model says exactly when they do.

* The pending nonces of every account are an interval after `TxPools.TxPool.RunReorg` with a reset if every account
  mends, whatever they were before, and only if, unless more are pooled than may be pending (then cutting pending
  lists may repair them). An account mends if no nonce is missing below one that stays, and, when none stays, none is
  promoted and its virtual nonce is its state nonce; all of that is told from the pool after the reinjections. When
  the chain moves forward every account mends. When the new state cannot be read, the intervals stay if and only if
  the first pending transaction of every account is payable. `PoolLosses.FallingNonceBreaksInterval` and
  `PoolLosses.FailedLoadBreaksInterval` are runs that lose them.
* `BlockChains.BlockChain.WriteKnownBlock` leaves the number index equal to the new head's ancestor path if and only if
  the new head is at least as high as the old one or its parent is not canonical. `BlockChains.StaleNumbersLeft` is a
  run with neither.
* `TxIndexers.IndexTransactions` makes every transaction of a fully delivered range readable if and only if block zero
  is outside the range or empty, because its number is stored as an empty value. `TxIndexers.BlockZeroUnreadable` is a
  run where it is neither. The block that core/genesis.go:244 builds has no transactions.
* `HeaderChains.HeaderChain.GetAncestor`, given a hash with a number that is not its own, reports a block that is not
  its ancestor if and only if the ancestor asked for, other than the parent, lies before the genesis block but under a
  number that is canonical, and the walk finds every header down to the genesis block in the cache, within the allowed
  steps, and is then still above the head, where it takes the zero hash for a canonical one.
  `HeaderChains.WrongNumberMistaken` and `HeaderChains.ZeroHashMistaken` are runs that do.

## Model

| member | source | states |
|---|---|---|
| `AbiEncoding.Pack` | accounts/abi/type.go:272-351 | packing yields exactly the specification's encoding of an accepted value and an error otherwise |
| `AbiEncoding.PackList` | accounts/abi/type.go:280-308 | the element loop, with heads and tails accumulated, lays out all elements as a tuple of them, after the length if one is due |
| `AbiEncoding.PackTuple` | accounts/abi/type.go:309-345 | the field loop produces the head/tail layout of the tuple |
| `AbiEncoding.HeadTotal` | accounts/abi/argument.go:238-241 | the offset of the first tail is the sum of the head sizes |
| `AbiEncoding.PackArguments` | accounts/abi/argument.go:227-267 | the arguments pack as a tuple of their types, with an error exactly for a wrong count or an unaccepted value |
| `AbiEncoding.StaticLength` | accounts/abi/type.go:386-401 | a static value encodes to exactly the size of its type |
| `AbiEncoding.HeadsLength` | accounts/abi/type.go:386-401 | the heads of a list of components are as long as their sizes add up to |
| `AbiTypes.SizeInWords` | accounts/abi/type.go:386-401 | every size is a positive multiple of a word |
| `AbiLayout.HeadLocated` | accounts/abi/type.go:310-345 | each component's head stands at the sum of the head sizes before it |
| `AbiLayout.TailLocated` | accounts/abi/type.go:310-345 | each dynamic head holds the offset at which its own tail stands |
| `AbiDecoding.ToGoType` | accounts/abi/unpack.go:193-254 | for every byte string and well-formed type decoding ends, by descent on the type, with the specified value or an error, and slices only inside its input |
| `AbiDecoding.ForEachUnpack` | accounts/abi/unpack.go:122-159 | the element loop decodes each element at its own index, or fails |
| `AbiDecoding.ForTupleUnpack` | accounts/abi/unpack.go:161-189 | the field loop, skipping the extra words of static arrays and tuples, decodes each field at the end of the heads before it |
| `AbiDecoding.UnpackValues` | accounts/abi/argument.go:189-218 | only the non-indexed arguments are decoded, in order; empty data is an error unless there are none |
| `AbiDecoding.LengthPrefixPointsTo` | accounts/abi/unpack.go:257-286 | a start and length it returns lie inside the data |
| `AbiDecoding.TuplePointsTo` | accounts/abi/unpack.go:289-300 | an offset it returns lies inside the data |
| `AbiRoundTrip.WordRoundTrip` | accounts/abi/unpack.go:36-119 | a single-word value reads back from its packed word |
| `AbiRoundTrip.PlacedRoundTrip` | accounts/abi/unpack.go:193-254 | a value placed anywhere in the data, head and tail, decodes to itself |
| `AbiRoundTrip.TupleRoundTrip` | accounts/abi/unpack.go:161-189 | all fields of an encoded tuple decode to themselves |
| `AbiRoundTrip.ListRoundTrip` | accounts/abi/unpack.go:122-159 | all elements of an encoded list decode to themselves |
| `AbiRoundTrip.DecodeSound` | accounts/abi/unpack.go:193-254 | whatever decodes is a value of the type |
| `AbiRoundTrip.RoundTrip` | accounts/abi/argument.go:189-267 | for all well-formed types nested to any depth, accepted arguments come back from pack and unpack if and only if they are values of their types |
| `AbiRoundTrip.EncodingInjective` | accounts/abi/argument.go:227-267 | different values of the types have different encodings |
| `AbiRoundTrip.PackUnpack` | accounts/abi/argument.go:189-267 | the loops themselves: packing values of the non-indexed types and unpacking the bytes returns those values |
| `TxLists.RunMeaning` | core/tx_list.go:194-209 | the run is the maximal stretch of consecutive stored nonces |
| `TxLists.CapMap` | core/tx_list.go:143-164 | the cap keeps the lowest nonces, as many as allowed, and nothing else |
| `TxLists.FilterMeaning` | core/tx_list.go:322-351 | with caps that bound every stored cost and gas, the early exit changes nothing: what stays is what is within the limits and, in a strict list, below every removed nonce; the caps stay bounds |
| `TxLists.FilterPrefix` | core/tx_list.go:322-351 | filtering a strict consecutive list leaves a consecutive prefix |
| `TxLists.RemovePrefix` | core/tx_list.go:362-373 | so does removing |
| `TxLists.CapPrefix` | core/tx_list.go:355-357 | so does capping |
| `NonceHeaps.Push` | core/tx_list.go:38-40 | a heap stays a heap with one element more |
| `NonceHeaps.Pop` | core/tx_list.go:42-48 | the least element comes out and a heap stays |
| `NonceHeaps.Remove` | core/tx_list.go:175-180 | the element at the index comes out, whether the last one then moves down or up |
| `NonceHeaps.Init` | core/tx_list.go:114-121 | any sequence becomes a heap of the same elements |
| `TxSortedMaps.SortedMembers` | core/tx_list.go:216-226 | the nonce order has exactly the stored transactions |
| `TxSortedMaps.SortedIncreasing` | core/tx_list.go:216-226 | it is strictly increasing in the nonce |
| `TxSortedMaps.TxSortedMap.constructor` | core/tx_list.go:59-64 | an empty map with a matching index |
| `TxSortedMaps.TxSortedMap.Put` | core/tx_list.go:73-79 | stores under the nonce; the heap still holds every nonce once and no stale order stays cached |
| `TxSortedMaps.TxSortedMap.Forward` | core/tx_list.go:84-98 | drops exactly the lower nonces, in order, and the cache cut at the front is still the order of the rest |
| `TxSortedMaps.TxSortedMap.FilterItems` | core/tx_list.go:125-139 | drops exactly what the predicate selects, each once, leaving the heap for later |
| `TxSortedMaps.TxSortedMap.Reheap` | core/tx_list.go:114-121 | rebuilds an index of the stored nonces |
| `TxSortedMaps.TxSortedMap.Filter` | core/tx_list.go:105-112 | filters and restores the whole invariant |
| `TxSortedMaps.TxSortedMap.Cap` | core/tx_list.go:143-164 | keeps the lowest nonces; the drops are the rest from the top, and the cache cut at the back is still the order |
| `TxSortedMaps.TxSortedMap.Remove` | core/tx_list.go:168-185 | removes the nonce from map and heap and says whether it was there |
| `TxSortedMaps.TxSortedMap.Ready` | core/tx_list.go:194-209 | takes out exactly the run from the least nonce if that is not above start |
| `TxSortedMaps.TxSortedMap.Flatten` | core/tx_list.go:231-237 | the transactions in nonce order, from the cache or not |
| `TxSortedMaps.TxSortedMap.LastElement` | core/tx_list.go:241-244 | the transaction with the highest nonce |
| `TxListObjects.TxListObject.Add` | core/tx_list.go:279-304 | accepts a new nonce or a dearer replacement past the price bump, reports what it replaced and raises the caps |
| `TxListObjects.TxListObject.Forward` | core/tx_list.go:309-311 | as on values, with the removed transactions in order |
| `TxListObjects.TxListObject.Filter` | core/tx_list.go:322-351 | the two passes leave the list that one filter on values gives; removed are exactly the transactions over a limit, and removed and invalid ones together exactly what is gone |
| `TxListObjects.TxListObject.Cap` | core/tx_list.go:355-357 | as on values |
| `TxListObjects.TxListObject.Remove` | core/tx_list.go:362-373 | as on values; in a strict list the invalid ones are exactly those above |
| `TxListObjects.TxListObject.Ready` | core/tx_list.go:382-384 | as on values |
| `TxPriced.TxLookup.Add` | core/tx_pool.go:1582-1590 | the slot counter stays the sum of the slots of the pooled transactions |
| `TxPriced.TxLookup.Remove` | core/tx_pool.go:1593-1601 | likewise for a known transaction; for an unknown one the source would dereference nil |
| `TxPriced.StalesNonNegative` | core/tx_list.go:465-480 | under the heap invariant the count of stale entries is never negative |
| `TxPriced.TxPricedList.Removed` | core/tx_list.go:465-480 | counts stale entries and rebuilds the heap exactly past a quarter, keeping the invariant |
| `TxPriced.TxPricedList.Cap` | core/tx_list.go:484-511 | gives up exactly the non-local pooled transactions below the threshold |
| `TxPriced.TxPricedList.Underpriced` | core/tx_list.go:515-537 | for a non-local transaction and a non-empty pool, true if and only if no pooled one is cheaper; exactly the stale entries before the first pooled one leave the heap |
| `TxPriced.TxPricedList.Discard` | core/tx_list.go:541-585 | pops entries cheapest first and gives up the non-local pooled ones, none dearer than a non-local one it keeps, up to the one that reaches the goal or until none is left; the goal is the slots asked for, but with local accounts at most the number of non-local entries, and a transaction that is in the heap twice counts twice |
| `TxPriced.DiscardsFrees` | core/tx_list.go:541-585 | what was popped reaches the goal, or no non-local transaction is left |
| `TxNoncers.TxNoncer.Get` | core/tx_noncer.go:45-55 | the noted nonce or that of the state, and noting it changes no answer |
| `TxNoncers.TxNoncer.Set` | core/tx_noncer.go:59-64 | sets one account's nonce |
| `TxNoncers.TxNoncer.SetIfLower` | core/tx_noncer.go:68-79 | the answer becomes the lower of the two, for that account alone |
| `PoolViews.PendingShrinks` | core/tx_pool.go:1387-1435 | taking transactions out of a pending list, some of them to free places in the queue, keeps the partition |
| `PoolViews.QueueShrinks` | core/tx_pool.go:1189-1250 | the same from the queue to the pending lists |
| `PoolViews.RemoveKeepsPartition` | core/tx_pool.go:883-928 | removing a transaction and postponing those behind it keeps the partition |
| `PoolViews.ReplaceKeepsPartition` | core/tx_pool.go:601-622 | replacing a pending transaction keeps the partition |
| `PoolViews.EnqueueKeepsPartition` | core/tx_pool.go:650-680 | enqueuing, with or without a replacement, keeps the partition |
| `PoolViews.ReplaceKeepsFloor` | core/tx_pool.go:601-622 | a local-flagged replacement of a pending transaction keeps the price floor although its sender is not made local |
| `PoolPromotion.ReadyMeaning` | core/tx_pool.go:1200-1225 | what is promoted is the longest run of consecutive payable nonces from the account's least current one, or nothing if that is above start |
| `PoolPromotion.RestDrained` | core/tx_pool.go:1200-1245 | what stays queued is above the next executable nonce, and the account is within its limit |
| `PoolPromotion.PromotionFacts` | core/tx_pool.go:1189-1250 | no promoted transaction collides with a pending one |
| `PoolDemotion.DemotionFacts` | core/tx_pool.go:1387-1435 | what leaves a pending list falls into disjoint parts, and no demoted transaction collides with a queued one |
| `PoolDemotion.StaysPayable` | core/tx_pool.go:1387-1435 | what stays pending starts at the state nonce and is payable |
| `PoolDemotion.StaysMeaning` | core/tx_pool.go:1387-1435 | nonce by nonce, what stays pending: the state nonce is listed, and nothing from there up to it is unpayable |
| `PoolTruncation.TruncatedBound` | core/tx_pool.go:1255-1337 | when all offenders are down to their slots, every non-local account is |
| `PoolIntervals.RemoveKeepsExecutable` | core/tx_pool.go:899-916 | removing keeps every account's pending nonces an exact interval |
| `PoolIntervals.SankNext` | core/tx_pool.go:899-916 | removing several, in any order, lowers the virtual nonce of each account to the least pending nonce removed |
| `PoolIntervals.PromoteKeepsExecutable` | core/tx_pool.go:1189-1250 | so does promoting |
| `PoolIntervals.PromoteAffordable` | core/tx_pool.go:1189-1250 | promoting leaves nothing pending that is over its balance or the gas limit |
| `PoolMendings.PromoteMends` | core/tx_pool.go:1189-1250 | a round of promotion changes for no account whether it mends |
| `PoolMendings.DemoteMends` | core/tx_pool.go:1387-1435 | demotion leaves an account without gaps from its state nonce on if and only if it mends |
| `PoolMendings.ForwardMends` | core/tx_pool.go:1167-1173 | after a reset forward every account mends |
| `PoolMendings.FailedLoadMends` | core/tx_pool.go:1167-1171 | if the state cannot be read all accounts mend if and only if the first pending transaction of each is payable |
| `PoolIntervals.OrphanLeft` | core/tx_pool.go:1167-1171 | otherwise demotion leaves an account with nothing pending and a virtual nonce above its state nonce |
| `PoolIntervals.OrphanBreaks` | core/tx_pool.go:1075-1078 | which setting the virtual nonces does not mend |
| `PoolIntervals.TrimsSettled` | core/tx_pool.go:1255-1337 | trimming from the top keeps accounts consecutive |
| `PoolIntervals.SettledExecutable` | core/tx_pool.go:1075-1078 | setting the virtual nonces from the last pending transactions completes the intervals |
| `PoolIntervals.CompletedSettled` | core/tx_pool.go:1075-1078 | and it does so only if no account has a gap before it |
| `PoolIntervals.TrimsPayable` | core/tx_pool.go:1255-1337 | trimming leaves the state nonce in place and only payable transactions |
| `PoolTruncation.TotalHeld` | core/tx_pool.go:1255-1262 | no more transactions are pending than pooled |
| `TxPools.TxPool.constructor` | core/tx_pool.go:258-310 | an empty pool satisfies all invariants |
| `TxPools.TxPool.EnqueueTx` | core/tx_pool.go:650-680 | refused exactly when a better transaction has the place; otherwise list, lookup, heap and heartbeat change as stated |
| `TxPools.TxPool.RemoveTx` | core/tx_pool.go:883-928 | exactly this transaction leaves the pool, those behind it go to the queue, the virtual nonce is lowered to it; all invariants and the intervals stay |
| `TxPools.TxPool.RemoveEachTx` | core/tx_pool.go:594-599 | whatever the order, exactly these leave; of an account what was pending below all of them stays pending, and its virtual nonce is lowered to the least of them that was pending |
| `TxPools.TxPool.SetGasPrice` | core/tx_pool.go:420-429 | exactly the non-local transactions below the new price leave the pool, and what was pending behind one of them is postponed |
| `TxPools.TxPool.MakeRoom` | core/tx_pool.go:586-600 | refused exactly if a non-local transaction is no dearer than everything pooled; otherwise exactly what Discard pops for the slots over the limit goes, the heap changing as it says, what was pending behind it is postponed, and virtual nonces are lowered to it |
| `TxPools.TxPool.Place` | core/tx_pool.go:601-645 | a known pending nonce is replaced or refused, anything else enqueued; only an enqueued local transaction makes its sender local |
| `TxPools.TxPool.Add` | core/tx_pool.go:571-645 | the error is the first check that fails, and then nothing but stale heap entries changes; otherwise the transaction is placed or refused a place in what making room left of a full pool; lists, lookup, price heap and virtual nonces as stated; local accounts lose nothing but the transaction replaced; invariants and intervals stay |
| `TxPools.TxPool.AddTxsLocked` | core/tx_pool.go:833-845 | one add after the other, with its verdict each; the dirty accounts are exactly those of transactions accepted without replacing one |
| `TxPools.TxPool.PromoteTx` | core/tx_pool.go:698-733 | inserted exactly when nothing better is pending; the loser leaves the pool, and the virtual nonce moves past it |
| `TxPools.TxPool.PromoteAccount` | core/tx_pool.go:1189-1250 | what is old, unpayable or over the limit leaves, the executable run becomes pending, the rest stays queued |
| `TxPools.TxPool.PromoteExecutables` | core/tx_pool.go:1189-1250 | for every given account nothing executable is left queued and the limit holds |
| `TxPools.TxPool.DemoteAccount` | core/tx_pool.go:1387-1435 | what is old or unpayable leaves the pool, what stood behind it or behind a gap is queued, the rest stays |
| `TxPools.TxPool.DemoteUnexecutables` | core/tx_pool.go:1387-1435 | every pending list starts at the state nonce and is payable |
| `TxPools.TxPool.CutDown` | core/tx_pool.go:1285-1308 | rounds over equal offenders end at the limit or the threshold, the counter always being the real total |
| `TxPools.TxPool.TruncatePending` | core/tx_pool.go:1255-1337 | ends within the global limit or with every non-local account at its slots; never touches locals or small accounts, never goes below the slots, always cuts from the top, and overshoots by less than a round |
| `TxPools.TxPool.TruncateQueue` | core/tx_pool.go:1340-1382 | drops exactly the excess, or all non-local transactions; locals are untouched, the most recently active accounts go first, the last one loses its highest nonces |
| `TxPools.TxPool.Evict` | core/tx_pool.go:358-374 | exactly the non-local accounts silent for longer than the lifetime lose their queue |
| `TxPools.TxPool.ResetTo` | core/tx_pool.go:1164-1184 | the state and the virtual nonces start anew and the reinjected transactions are added in turn, lowering virtual nonces exactly to the pending transactions they take out of a full pool; a failed load changes nothing |
| `TxPools.LeadsAlike` | core/tx_pool.go:1172-1180 | the calls of add in a reset decide whether all accounts mend |
| `TxPools.TxPool.UpdateNonces` | core/tx_pool.go:1075-1078 | no pending list is empty, and each virtual nonce is one past the last pending nonce |
| `TxPools.TxPool.Mend` | core/tx_pool.go:1046-1069 | promoting all queued accounts and demoting all pending ones leaves every account without gaps if and only if every account mends, and everything pending payable |
| `TxPools.TxPool.RunReorg` | core/tx_pool.go:1033-1096 | both limits hold at the end; after a reset all pending transactions are payable, and the intervals hold if all accounts mend, and only if when no more are pooled than may be pending; a forward reset keeps the intervals, and one whose state cannot be read if and only if the first pending transaction of every account is payable |
| `TxPools.TxPool.Perform` | core/tx_pool.go:571-1435 | every operation but a reset keeps the intervals, and a reset leaves them if all accounts mend |
| `TxPools.TxPool.Run` | core/tx_pool.go:571-1435 | any sequence of operations keeps partition, slot count, heap and price floor; also the intervals if the chain only moves forward and every state is read, or nothing over its balance or the gas limit is or becomes pending |
| `PoolLosses.FailedLoadBreaksInterval` | core/tx_pool.go:1167-1171 | a run in which a state that cannot be read costs an account its interval |
| `PoolLosses.FallingNonceBreaksInterval` | core/tx_pool.go:1172-1184 | a run in which a falling nonce and a reinjected transaction leave a gap |
| `ReorgLoops.GatherReset` | core/tx_pool.go:989-997 | pending resets are merged under the first old head and the last new head |
| `ReorgLoops.GatherDirty` | core/tx_pool.go:999-1007 | the accounts collected are exactly those asked for |
| `ReorgLoops.GatherEvents` | core/tx_pool.go:1009-1017 | of the events queued, the last one for each sender and nonce is kept |
| `ReorgLoops.RunsKept` | core/tx_pool.go:963-1030 | every step keeps one run at a time and each channel open or closed once |
| `ReorgLoops.BatchesKept` | core/tx_pool.go:975-986 | every step keeps each run working on exactly what was asked for its channel |
| `ReorgLoops.ClientsKept` | core/tx_pool.go:932-950 | a caller always receives the channel under which its own request was noted |
| `ReorgLoops.OneRunOneClose` | core/tx_pool.go:963-1030 | in every interleaving at most one run is active and no channel is closed twice |
| `ReorgLoops.ClosedMeansServed` | core/tx_pool.go:932-1062 | a caller's channel is closed only at shutdown or by a run that covers its request |
| `ReorgLoops.StoppedClosesAll` | core/tx_pool.go:1022-1028 | when the loop has ended every channel handed out is closed, once |
| `ReorgLoops.NoRequestIsLost` | core/tx_pool.go:963-1030 | from every reachable state some continuation closes the caller's channel: the loop cannot get stuck |
| `Chains.CanonAncestor` | core/headerchain.go:333-365 | an index entry that many numbers lower is the ancestor that many parent pointers up |
| `Chains.IndexUnique` | core/headerchain.go:117-201 | a head has one index |
| `HeaderChains.RewrittenIsTarget` | core/headerchain.go:159-184 | the batch built from the old index makes it the new head's index |
| `HeaderChains.HeaderChain.StaleAbove` | core/headerchain.go:159-167 | the deletion loop ends and finds exactly the numbers above the new head |
| `HeaderChains.HeaderChain.StaleBelow` | core/headerchain.go:169-181 | the rewrite loop ends at the fork, without leaving the stored headers, although it reads the old index |
| `HeaderChains.HeaderChain.WriteHeader` | core/headerchain.go:117-201 | whether it extends, shortens or switches branch, the index stays defined exactly up to the head, each entry the parent of the next |
| `HeaderChains.HeaderChain.GetAncestor` | core/headerchain.go:333-365 | for any hash and number: an ancestor found at or above the genesis block is the one by parent pointers; with its own number it is found if and only if the branch meets the canonical chain within the allowed steps, which the counter goes down by; an unknown hash has only itself; with another number the result is told by the cache, and wrong exactly as stated above |
| `HeaderChains.HeaderChain.LostStep` | core/headerchain.go:345-364 | a walk under a wrong number matches no canonical hash before it leaves the stored headers |
| `HeaderChains.HeaderChain.WrongExactly` | core/headerchain.go:333-365 | and when its result is not the ancestor |
| `HeaderChains.WrongNumberMistaken` | core/headerchain.go:345-352 | an input on which the genesis block under number 3 is given an ancestor |
| `HeaderChains.ZeroHashMistaken` | core/headerchain.go:345-352 | an input on which the zero hash is given an ancestor |
| `BlockBranches.WalkDown` | core/blockchain.go:1595-1607 | reducing the longer chain collects its blocks and transactions down to the height, or reports a missing block |
| `BlockBranches.Branches` | core/blockchain.go:1584-1639 | the common ancestor is the first canonical block on the new branch; the walk fails if and only if there is none |
| `BlockSwitches.TargetIndexes` | core/blockchain.go:1654-1660 | the old index up to the fork and the new branch above it are the new head's index |
| `BlockSwitches.SwitchLookup` | core/blockchain.go:1654-1666 | entering the new branch and deleting what only the old one has leaves every entry right and, from the tail on, none missing |
| `BlockSwitches.LookupExact` | core/rawdb/accessors_indexes.go:56-61 | with no transaction twice in a chain, an entry is the number of its block |
| `BlockChains.TxDifference` | core/types/transaction.go:296-311 | exactly what is in the first list and not in the second |
| `BlockChains.BlockChain.WriteHeadBlock` | core/blockchain.go:697-724 | index, lookup, current block and, for a block not yet canonical, the other heads |
| `BlockChains.BlockChain.InsertNew` | core/blockchain.go:1654-1660 | the new branch below its head is written over the index and entered in the lookup |
| `BlockChains.BlockChain.DeleteAbove` | core/blockchain.go:1667-1675 | the numbers above the current block go |
| `BlockChains.BlockChain.Reorg` | core/blockchain.go:1584-1689 | fails, changing nothing, exactly when the branches do not meet; otherwise only the new head is left to write |
| `BlockChains.BlockChain.WriteKnownBlock` | core/blockchain.go:968-980 | fails, changing nothing, exactly when the block's stored branch does not meet the canonical chain; otherwise the lookup fits the new head's path, and the index is that path if and only if the new head is no lower or its parent was not canonical |
| `BlockChains.NarrowSwitch` | core/blockchain.go:1667-1675 | with at most one new block the index comes out right if and only if the old head is no higher |
| `BlockChains.WideSwitch` | core/blockchain.go:1654-1660 | with two or more it always does |
| `BlockChains.UncleanSwitch` | core/blockchain.go:1667-1675 | a stored chain and a lower block for which it does not |
| `BlockChains.StaleNumbersLeft` | core/blockchain.go:968-980 | a run that leaves stale numbers in the index |
| `TxIndexers.Lookups` | core/rawdb/chain_iterator.go:108-128 | in either direction, also down to block zero, the reader feeds every number of the range once and in order, or a prefix if interrupted |
| `TxIndexers.EntriesMeaning` | core/rawdb/accessors_indexes.go:47-52 | the entries of a range name blocks that have the transaction, and none is missing |
| `TxIndexers.Indexer.Run` | core/rawdb/chain_iterator.go:192-253 | the loop over deliveries in any order; what is left unwritten at the end has no transactions outside block zero |
| `TxIndexers.IndexTransactions` | core/rawdb/chain_iterator.go:192-253 | for any deliveries in any order each batch written leaves a tail t and exactly the blocks from t on entered; if all are delivered, all read back if and only if block zero is outside or empty |
| `TxIndexers.WrittenIsSafe` | core/rawdb/chain_iterator.go:229-253 | after each batch, every transaction from the stored tail on is entered under its block's number |
| `TxIndexers.AllDelivered` | core/rawdb/chain_iterator.go:192-253 | as many distinct deliveries as blocks are all of them |
| `TxIndexers.BlockZeroUnreadable` | core/rawdb/chain_iterator.go:192-253 | a run after which the transaction of block zero cannot be read |
| `TxUnindexers.UnindexTransactions` | core/rawdb/chain_iterator.go:283-344 | each batch written leaves a tail t and exactly the entries below t removed; if all are delivered the range is gone |
| `TxUnindexers.CutIsSafe` | core/rawdb/chain_iterator.go:319-344 | no tail is written with an entry of a block at or above it removed, or one below it left |
| `TxUnindexers.UnindexUndoesIndex` | core/rawdb/chain_iterator.go:283-344 | unindexing an indexed range leaves the other entries as they were before |
| `Quorums.BallotsPartition` | consensus/quorum/quorum.go:282-322 | the ballots of a box partition its keys |
| `Quorums.CastKeepsBox` | consensus/quorum/quorum.go:303-320 | a ballot of new, distinct keys keeps that and adds as many signers |
| `Quorums.Identities.SubmitVote` | consensus/quorum/quorum.go:282-322 | taken exactly when the keys are distinct and new to the phase, and for a known phase or no key at all; a refused vote changes nothing, a taken one only its own phase |
| `Quorums.Identities.Reset` | consensus/quorum/quorum.go:324-335 | exactly the named phases are emptied |
| `Quorums.Identities.ReadAllBallots` | consensus/quorum/quorum.go:360-375 | one ballot per key, in the order the map is read |
| `Quorums.Identities.AggregateVotes` | consensus/quorum/quorum.go:171-203 | for every order the signatures of the distinct ballots are taken once each, and their keys are exactly the counted signers |
| `Quorums.Identities.IsQuorumAchieved` | consensus/quorum/one-node-one-vote.go:42-47 | true if and only if more than two thirds of the participants are counted |
| `Quorums.Identities.IsAllSigsCollected` | consensus/quorum/one-node-one-vote.go:72-74 | with votes from distinct members only, true if and only if every member has voted |
| `Commits.CountOneBits` | internal/utils/bytes.go:34-46 | the nibble table counts exactly the bits set |
| `Commits.IsQuorumAchievedByMask` | consensus/quorum/one-node-one-vote.go:50-64 | true if and only if there is a mask and it enables more than two thirds of the members |
| `Commits.PayloadInjective` | consensus/signature/signature.go:17-29 | equal commit payloads are of the same hash, number and kind of epoch |
| `Commits.OnCommitted` | consensus/validator.go:234-293 | the guard accepts exactly the messages that are recent enough, readable, of quorum, for a known block and validly signed |
| `Commits.AccountableIntersection` | consensus/validator.go:264-293 | if messages for two different blocks pass the guard under one committee, more than a third of its members signed two different payloads |

## Left out

- Object identity of lists inside the pool: `TxPools.TxPool` keeps list values in its maps; `TxListObjects` shows the objects apart from it, so aliasing between lists is not modelled.
- Locks, metrics, logging, the journal, event feeds and the announcement of promoted transactions at the end of `runReorg`.
- The part of `reset` that walks two branches of blocks to find the transactions to reinject: they are a parameter of `TxPools.TxPool.ResetTo`.
- `sanitize` of the pool's configuration: the limits and the price bump are positive, as it leaves them.
- `currentMaxGas` is an arbitrary constant, since nothing assigns it.
- 64-bit overflow of nonces, gas and slot counts in the pool; `TxSortedMaps` bounds nonces to 64 bits, and the chain and indexer modules model the wrap-around of number arithmetic.
- A transaction is identified with its hash, and its sender is a field.
- The memory layout of the price heap: it is a bag from which a least element is taken, so which of two entries of equal price and nonce goes first is open; `NonceHeaps` verifies the array form for nonces. `sort` and the priority queues pick a greatest element.
- `Discard`'s slice capacity hint.
- TxPools.TxPool.RunReorg: with more transactions pooled than may be pending, an account that does not mend is not shown to lose its interval, because cutting its list may close the gap.
- AbiTypes.WellFormed: arrays of size zero and empty tuples are excluded, as the decoder refuses a component with no word left; so are sizes of bytesN outside 1 to 32.
- Event topics and indexed arguments, method selectors, reflection into Go structs and the text syntax of ABI types.
- Reading a lookup entry for block zero of a switched chain: `BlockSwitches` speaks of stored entries, and `TxIndexers.ReadTxLookupEntry` says how they read.
- Block bodies, receipts, state tries, freezer, future and bad blocks, and the insertion of side chains in `insertChain`; `writeBlockWithState` refuses a block whose parent is not the head.
- Stored chains that are not chains: `BlockChains` takes it that a stored block's number is one above its stored parent's and that no transaction occurs twice on one branch, and `HeaderChains` that a header is written after its parent.
- The old lookup formats of database versions before 6.
- Worker goroutines of the indexer: their deliveries are any sequence of distinct blocks of the range.
- Committee membership of vote senders, view change, and everything of `onCommitted` after its guard; agreement is not claimed.
- The mask type of the BLS library: a mask is a bitmap with no bit beyond the committee.
- BLS arithmetic: an aggregate that verifies is taken to mean that every enabled key signed.
- Peer-to-peer networking, RPC, key store, command line and node set-up.

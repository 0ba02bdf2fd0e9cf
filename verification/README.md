# Pinkcoin: a verified model

Pinkcoin is a proof-of-work and proof-of-stake currency in the line of Bitcoin, PPCoin and NovaCoin. Its node keeps
several structures that depend on each other in ways the code never states. This project models them in Dafny and
proves what they are meant to guarantee, for all inputs and over all runs.

| files | subject |
|---|---|
| `Ledger`, `Supply`, `Rewards`, `BlockTree`, `Connect`, `Blocks`, `Replay`, `Freshness`, `BestChain`, `BrokenOff`, `StrayCoinstake` | the chain state machine: the index of spent outputs, connecting and disconnecting blocks, reorganisation, the money supply |
| `SyncCheckpoint` | synchronised checkpoints as a step system over the chain state |
| `AddrTable`, `AddrMan`, `AddrCheck`, `AddrStore`, `AddrLoad` | the address manager: its invariant, its operations, its own check, saving and loading |
| `Mempool`, `Scheduler`, `Assembly`, `Miner`, `AssembledBlock` | the memory pool and block assembly |
| `Frames`, `Transport` | the send queue and the incremental message parser, as the two ends of a byte stream |
| `Merkle`, `Locator` | Merkle trees and block locators |
| `Script`, `ScriptNumber`, `StakeModifier`, `BigNum`, `Compact`, `Retarget`, `Difficulty`, `Base58`, `PageLocks`, `Pbkdf2` | codecs and arithmetic |
| `Wrappers`, `Arith`, `Bytes`, `Digits` | shared vocabulary |

How things are represented:

* A transaction carries its hash as a field about which nothing is assumed; hash functions are arbitrary functions, injective
  only where a lemma says so. A position on disk is modelled as the block and the transaction found there, and the
  transaction index as a map from txid to position and spent flags.
* Objects whose methods change them in the source are classes here, with the source's field names, and their methods are
  specified by functions of the old state. Loops of the source are loops here. Draws of random numbers and results of
  `send` are arbitrary values within their range.
* The checks whose bodies lie outside (signatures, scripts, proof of work, coin age, standardness) are arbitrary
  functions in a `Rules` or `Policy` value. Trust may be any number for each block.
* Two assumptions are made about txids, and only where said: no two different transactions share one (`Freshness.NoCollisions`),
  and every coinbase above genesis starts with its height, which accepting a block checks and every run keeps. From these it is
  proved that an accepted branch repeats no txid, so the failing case of `Replay.UnwindExactly` needs colliding txids.
* The service flags of an address are the set of bits that are set; the group of an address is an arbitrary function of it.
* The database is a map with a batch of writes that is committed or dropped as a whole.

The main results are `Ledger.Undo`, `Freshness.Fresh`, `Blocks.ConnectBlock`, `BestChain.ChainState.Reorganize` and `SetBestChain`,
`BestChain.ChainState.MoneySupply`, `SyncCheckpoint.SyncState.Run`, the invariant that all methods of `AddrMan.CAddrMan` keep
together with `AddrCheck.OkIsChecked`, `AddrLoad.RoundTrip`, `Mempool.CTxMemPool.Remove`, `Miner.CreateNewBlock` with
`AssembledBlock.AssembledConnects`, `Transport.EndToEnd`, `Merkle.OnlyBranch`, `Locator.FindsCommonAncestor` and
`Script.CleanExactly`.

Where the code does less than might be expected of it, the model follows the code, a member gives an input or a run, and another
says exactly when the property holds:

* `SetBestChain` makes the new block the best one even if a postponed block was refused. The state is consistent
  afterwards exactly if all new blocks of the branch pass the checks on the replay below them, which can be told before the
  call; it succeeds exactly if those up to the turn do. `BrokenOff.EndsInconsistent` is a run that ends inconsistent.
* A proof-of-work block may hold a coinstake from its third transaction on, whose reward is compared with nothing
  (`StrayCoinstake.MintsMore`); `StrayCoinstake.MintsWithinExactly` says when a block stays within its subsidy.
* Loading a file with another number of new buckets puts every entry into its own bucket without a limit: `AddrLoad.RebuiltOk`
  says when the table is consistent, `AddrLoad.Overfull` is a file for which it is not.
* `SelectTried` returns the position of the entry tried least recently only if that entry was drawn in its place
  (`AddrMan.CAddrMan.SelectTried`); `AddrMan.EvictsTheYounger` is an input for which it does not.
* After a postponed block was refused, `FindBlockByHeight` can meet a null pointer on its way up; `BestChain.ChainState.ReachesExactly`
  says when, and the run of `BrokenOff.EndsInconsistent` ends in a state where the search for height 2 does.
* `FindAndDelete` can leave an occurrence of the pattern at an instruction boundary (`Script.MeetAgain`); it never does for exactly
  the patterns described in `Script.CleanExactly`, which include those the interpreter uses.
* A target so small that the adjusted value rounds to zero is replaced by the limit, so the adjustment is neither monotone nor
  bounded by the double there (`Retarget.SmallestTargetVanishes`, `Retarget.Monotone`, `Retarget.LessThanDouble`).
* The factor `16 / 10` in the stake reward is the integer 1. The supply limit of 500 million coins that the
  repository's README names does not follow from the checks made; the bound proved is the one the formulas give.
* With an iteration count of 0 the key derivation behaves as with 1, where the standard excludes 0.

`dafny verify dfyconfig.toml` checks the whole project.

## Model

| member | source | states |
|---|---|---|
| `Ledger.Kinds` | src/main.h:528-537 | A coinbase spends the null outpoint alone and has an output; a coinstake spends another one first and its first of at least two outputs is empty; nothing is both; the money range ends at 500 million coins |
| `Ledger.DisconnectConnect` | src/main.cpp:1385-1418 | Disconnecting the transaction connected last restores every spent flag it set and erases its entry, even after unrelated entries were erased |
| `Ledger.UndoAll` | src/main.cpp:1635-1638 | Disconnecting the transactions of an accepted block last to first, after some dead txids were erased, succeeds if and only if the block spends from none of those, and leaves the index before the block less all these txids; with nothing erased it always succeeds |
| `Ledger.Undo` | src/main.cpp:1633-1655 | Undo: disconnecting an accepted block succeeds and restores exactly the set of unspent outputs; the index itself is restored if and only if the block's txids were fresh |
| `Ledger.DeadStays` | src/main.cpp:1704-1709 | A txid without unspent outputs that the block does not define stays without unspent outputs while the block is connected, which is what the duplicate-txid rule relies on |
| `Supply.TotalConnectTx` | src/main.cpp:1575-1608 | Connecting one transaction changes the sum of all unspent outputs by its outputs less its inputs |
| `Supply.Conservation` | src/main.cpp:1735-1775 | Conservation: connecting an accepted block changes the sum of all unspent output values by exactly the value it creates less the value it spends |
| `Rewards.SubsidyAtMostMax` | src/main.cpp:996-1051 | Neither reward formula exceeds the larger of the two at its height, flash hours and the change of the rules included |
| `Rewards.StakeSubsidy` | src/main.cpp:1013-1050 | The stake reward, in numbers: nothing below height 16240, then 150 coins in the flash hours, 100 outside, or a third of that once work is over; half of it after every 846,800 blocks, at every height |
| `Rewards.WorkSubsidy` | src/main.cpp:996-1010 | The work reward, in numbers: 364,800,000 coins at height 1, 50 from height 17000 on, half of it after every 846,800 blocks, nothing otherwise |
| `Rewards.SupplyCap` | src/main.cpp:996-1051 | The subsidies of all heights below 64 eras add up to at most the premine plus two full eras of 150 coins |
| `BlockTree.Tree.ChainAt` | src/main.h:1130-1146 | Following pprev from a block meets one ancestor at every height, and its own ancestors are a prefix of the block's |
| `BlockTree.Tree.AncestorAt` | src/main.h:1130-1146 | A block is an ancestor exactly if it is the block at its height on the branch |
| `Connect.TxDb.TxnBegin` | src/txdb-leveldb.cpp:135-140 | Writes are collected in a batch; what is committed stays |
| `Connect.TxDb.TxnCommit` | src/txdb-leveldb.cpp:142-153 | The batch becomes what is committed, all at once |
| `Connect.TxDb.TxnAbort` | src/txdb-leveldb.h:168-173 | The batch is dropped, what is committed stays |
| `Connect.FetchOne` | src/main.cpp:1435-1470 | Pending changes first (for blocks and the miner), then the database, then the pool, exactly as the specification says |
| `Connect.FetchInputs` | src/main.cpp:1421-1490 | Fails without blame when an input is unknown, and as invalid exactly when an output index is out of range; otherwise returns the fetched entry of every input |
| `Connect.RecentlyMined` | src/main.cpp:1556-1560 | Finds exactly whether the block is among the last `maturity` ancestors |
| `Connect.CheckInputs` | src/main.cpp:1546-1571 | Passes if and only if every input is mature, not newer than the spender and in money range, with in-range running sum; returns that sum |
| `Connect.SpendInputs` | src/main.cpp:1575-1608 | Passes if and only if no input was spent before, not even by an earlier input, and all are signed; the pending changes then mark exactly the inputs |
| `Connect.ConnectInputs` | src/main.cpp:1535-1631 | Accepts if and only if all input checks and the fee checks hold, and then marks exactly the inputs, in the given position; every input is signed for the transaction it spends, except in a block connected below the last hardened checkpoint |
| `Blocks.CheckTransaction` | src/main.cpp:499-553 | Accepts if and only if inputs and outputs exist, outputs and their running sums are in range, empty outputs occur only in coinbase and coinstake, no outpoint is repeated or null, a coinbase script has 2 to 200 bytes, and the limits on time and size, one arbitrary check here, hold |
| `Blocks.CheckBlock` | src/main.cpp:2192-2291 | Accepts if and only if the coinbase is first and alone, a stake block has exactly one coinstake and an empty coinbase, every transaction passes, txids differ and the legacy signature operations are within the limit |
| `Blocks.ConnectTransactions` | src/main.cpp:1682-1749 | The loop over the transactions passes exactly when each of them connects on the view left by those before it; it keeps the pending changes equal to that view and the running sums exact |
| `Blocks.ConnectBlock` | src/main.cpp:1657-1804 | Accepts a block if and only if its own checks and those of its transactions hold, every input is signed for the transaction it spends unless signatures are skipped, and it mints what is due: a stake block adds at most the stake reward of its height, hours and time to the supply, a work block at most the work reward, coinstakes aside. The database then equals the old one with all transactions connected, and the supply changes by what the block creates; a refused block leaves the database unchanged |
| `Blocks.DisconnectInputs` | src/main.cpp:1385-1418 | Clears exactly the flags of the inputs and erases the entry, or fails when an input's entry is missing |
| `Blocks.DisconnectBlock` | src/main.cpp:1633-1655 | Disconnects all transactions, last first, or fails as the specification does |
| `Blocks.ConnectsImpliesSpends` | src/main.cpp:1688-1749 | Every block that is accepted satisfies what undo and conservation need, in-block spend chains included |
| `Blocks.CreatedSplits` | src/main.cpp:1735-1745 | The change in supply is the coinbase plus what coinstakes mint, less the fees |
| `Blocks.TallyIsCreated` | src/main.cpp:1735-1775 | The running sums of value in and out give exactly the change in supply |
| `Blocks.AcceptedExactly` | src/main.cpp:1751-1771 | A block that passes all else is accepted if and only if it is a stake block of good coin age that adds at most the stake reward, or a work block that, coinstakes aside, adds at most the work reward |
| `Blocks.ConnectsExactly` | src/main.cpp:1657-1771 | All checks of a block hold if and only if those do that depend on its place alone, its inputs are signed unless signatures are skipped, and it mints what is due |
| `Blocks.MintWithinDue` | src/main.cpp:1751-1771 | What an accepted block adds to the supply: a stake block at most the stake reward of its height and hours, a work block without coinstake at most the work reward |
| `Blocks.MintAtMostSubsidy` | src/main.cpp:1751-1771 | An accepted stake block, and an accepted work block without coinstake, adds at most the subsidy of its height |
| `StrayCoinstake.MintsMore` | src/main.cpp:1751-1771 | Counterexample: on a chain of two accepted blocks, with a minimum fee and a maturity, a work block of height 2 with a coinstake as its third transaction passes all checks and mints 999 coins less a fee where no subsidy is due |
| `StrayCoinstake.MintsWithinExactly` | src/main.cpp:1735-1771 | An accepted block adds at most the subsidy of its height if and only if the checks account for its coinstakes or these mint no more than subsidy and fees less the coinbase |
| `Replay.ReplayConnect` | src/main.cpp:1856-1873 | Connecting the next block of a branch on the replay of the branch so far gives the longer replay |
| `Replay.ReplayDisconnect` | src/main.cpp:1838-1847 | Disconnecting the last block of a branch with fresh txids gives the shorter replay, exactly |
| `Replay.UnwindExactly` | src/main.cpp:1838-1847 | The blocks of a branch can be disconnected down to a height if and only if none of them spends from a txid that a later one defines again; the set of unspent outputs is then restored, and the whole index if and only if none of the txids was defined before |
| `Freshness.Unrepeated` | src/main.cpp:1385-1418 | Along an accepted branch whose coinbases carry their heights, no transaction has the txid of one in a block below, unless two different transactions share a txid: it would spend an output that is spent already |
| `Freshness.Fresh` | src/main.cpp:1704-1709 | So the exemption for fully spent txids is never used along such a branch: its blocks define disjoint txids |
| `Freshness.CanUnwind` | src/main.cpp:1838-1847 | Such a branch can be disconnected down to any height, and the index of that height is restored exactly |
| `ScriptNumber.OneHeight` | src/main.cpp:2362-2366 | A coinbase script starts with the serialized height of one height only |
| `ScriptNumber.HeightIsRead` | src/main.cpp:2361-2366 | The first instruction of a coinbase script accepted for a height means that height |
| `Replay.SupplyAlongChain` | src/main.cpp:1773-1775 | The sum of unspent outputs after a branch is the sum of what its blocks created |
| `Replay.SupplyBounded` | src/main.cpp:996-1051 | A branch of accounted blocks holds at most the premine and two full eras of 150 coins |
| `BestChain.ChainState.FindFork` | src/main.cpp:1810-1822 | The fork search ends at the lowest common ancestor of the two branches |
| `BestChain.ChainState.BranchAbove` | src/main.cpp:1824-1833 | Collects exactly the blocks between the fork and a tip, top first |
| `BestChain.ChainState.DisconnectBranch` | src/main.cpp:1838-1854 | Succeeds exactly as disconnecting block by block does; on a branch in step with the database it always does and leaves the replay of the chain up to the fork |
| `BestChain.ChainState.ConnectBranch` | src/main.cpp:1856-1873 | Succeeds if and only if every block above the fork passes all checks on the replay of the blocks below it; then the database is the replay of the whole new chain, with the supply recorded at each block |
| `BestChain.ChainState.Reorganize` | src/main.cpp:1806-1904 | From a consistent state it succeeds if and only if every block of the new branch that is not on the old one passes all checks on the replay below it; then the database is the replay of the new branch from genesis and pnext links exactly the new chain; on failure links and committed data are as before |
| `BestChain.ChainState.SetBestChainInner` | src/main.cpp:1908-1930 | Connects one block on its parent if and only if it passes all checks there, commits, and links the parent to it; a refused block leaves no trace |
| `BestChain.ChainState.Postpone` | src/main.cpp:1953-1965 | Splits the new branch at the turn: the parent of every postponed block outweighs the best block, that of the split block does not |
| `BestChain.TurnFrom` | src/main.cpp:1961-1965 | The turn of a branch: from there upwards every parent outweighs the best block, the parent below does not |
| `BestChain.NewAboveTurn` | src/main.cpp:1959-1965 | No block above the turn is on the best chain, since trust never falls along a branch |
| `BestChain.FitsAboveFork` | src/main.cpp:1810-1833 | The blocks of a branch that are not on the best chain are those above the fork |
| `BestChain.FitsExactly` | src/main.cpp:1589-1596 | A block passes all checks of ConnectBlock on the replay below it if and only if it passes those that depend on nothing but that replay, its inputs are signed if the best chain has reached the last hardened checkpoint, and it mints what is due by the time of the best block |
| `BestChain.SignaturesUnread` | src/main.cpp:1589-1596 | Below the last hardened checkpoint whether a branch can be connected depends on no signature |
| `BestChain.NewOnes` | src/main.cpp:1589-1596 | The blocks connected in a switch are signed, if that is due, and mint no more than is due |
| `BestChain.ChainState.ConnectSecondary` | src/main.cpp:1979-1994 | Connects the postponed blocks in order up to the first that does not pass all checks on the replay below it, and no further |
| `BestChain.ChainState.SetBestChain` | src/main.cpp:1932-2050 | From a consistent state it succeeds if and only if the new blocks up to the turn pass all checks on the replay below them: signatures exactly if the best block has reached the height of the last hardened checkpoint, and rewards by the rule for its time. The database is then the replay up to the first postponed block that fails them, and every block connected is signed, if that was due, and mints no more than its reward. The state is consistent again if and only if all new blocks pass, which is if and only if the parent of the new tip has a forward link; after failure everything is as before |
| `BestChain.ChainState.AddToBlockIndex` | src/main.cpp:2121-2187 | A new block is entered with its parent's height and trust added; it becomes the best if and only if its branch carries more trust and its new blocks up to the turn pass all checks; the state is consistent then if and only if all its new blocks do; known blocks are refused |
| `BestChain.ChainState.NearestKnown` | src/main.cpp:949-956 | The starting pointer is always on the main chain: the end nearer by height, or the cached one if that is nearer still |
| `BestChain.ChainState.FindBlockByHeight` | src/main.cpp:947-962 | Returns the main-chain block at the height from whatever main-chain pointer was cached, if and only if the walk up meets no null forward link |
| `BestChain.ChainState.ReachesExactly` | src/main.cpp:954-959 | With n linked blocks the walk succeeds if and only if it starts at or above the height or the height is below n; on a consistent chain that is every height up to the tip |
| `BestChain.BranchFresh` | src/main.cpp:1838-1847 | The old branch of a reorganisation repeats no txid |
| `BestChain.ChainState.MoneySupply` | src/main.cpp:1773-1775 | At every consistent tip the recorded supply equals the sum of all unspent outputs, and is at most 364,800,000 + 2 * 846,800 * 150 coins when every block is accounted for |
| `BrokenOff.EndsInconsistent` | src/main.cpp:1978-2009 | A run from genesis that ends inconsistent: after a switch to a lighter branch, as a checkpoint message makes it, a block arrives on a heavier one; a postponed block is refused, and the new one becomes the best nevertheless, with the database and the forward links ending far below it, and with a null link on the search for height 2 |
| `BrokenOff.MinedConnects` | src/main.cpp:1751-1759 | The blocks of that run pass all checks if and only if their coinbase claims no more than the subsidy |
| `SyncCheckpoint.SyncState.constructor` | src/checkpoints.cpp:106-112 | The checkpoint starts at genesis, which is on the best chain |
| `SyncCheckpoint.SyncState.TraceBack` | src/checkpoints.cpp:136-144 | Following pprev down to a height gives the ancestor at that height |
| `SyncCheckpoint.SyncState.ValidateSyncCheckpoint` | src/checkpoints.cpp:126-166 | Accepts a checkpoint if and only if it is a strict descendant of the current one; marks as invalid exactly those on another branch |
| `SyncCheckpoint.SyncState.CheckSync` | src/checkpoints.cpp:239-264 | Decides exactly: above the checkpoint only descendants of it, at its height only itself, below it only known blocks |
| `SyncCheckpoint.SyncState.BringToMainChain` | src/checkpoints.cpp:196-208 | A validated checkpoint is on the best chain afterwards, or nothing has changed; from a consistent chain it succeeds if and only if it is there already or its new blocks up to the turn pass all checks |
| `SyncCheckpoint.SyncState.AcceptPendingSyncCheckpoint` | src/checkpoints.cpp:184-225 | Waits while the block of the pending checkpoint is unknown, drops it if it is not a strict descendant of the current one, and otherwise obeys or keeps it; from a consistent chain it obeys if and only if the checkpoint is on the best chain or can become its tip; the checkpoint only ever moves to a strict descendant, and is on the best chain afterwards if it was before |
| `SyncCheckpoint.SyncState.ProcessSyncCheckpoint` | src/checkpoints.cpp:418-466 | Without a good signature nothing happens; an unknown block becomes pending; of the known ones only a strict descendant is obeyed, on the best chain always, and from a consistent chain if and only if it is there or can become its tip; the whole new state is stated for every case, and the checkpoint stays on the best chain |
| `SyncCheckpoint.SyncState.ResetSyncCheckpoint` | src/checkpoints.cpp:279-319 | Falls back to the highest hardened checkpoint on the main chain, after switching to the last one if it is known but aside; fails only if that switch does or no hardened checkpoint is on the main chain; the last one becomes pending exactly if it is unknown |
| `SyncCheckpoint.SyncState.EnterBlock` | src/main.cpp:2174-2176 | Adding a descendant of the checkpoint never moves the best chain off the checkpoint; from a consistent chain a heavier block is refused if and only if its new blocks up to the turn do not pass all checks |
| `SyncCheckpoint.SyncState.AcceptBlock` | src/main.cpp:2293-2392 | A new block enters the tree if and only if its parent is known, the other checks hold, its coinbase starts with its height and, under the strict policy, the checkpoint rule holds; nothing else changes otherwise. It becomes the best block exactly if it weighs more and its new blocks up to the turn pass, and is refused if they do not; unless it is, the pending checkpoint is tried then. Under the strict policy on the main net the checkpoint stays on the best chain, and every block entered descends from it |
| `SyncCheckpoint.SyncState.Step` | src/checkpoints.cpp:184-225 | Each kind of event keeps safety and leads to a state that its rule allows; only a reset may move the checkpoint back |
| `SyncCheckpoint.SyncState.Run` | src/checkpoints.cpp:126-466 | Safety over every sequence of block arrivals, checkpoint messages and resets: the checkpoint is always an ancestor of the best block, without resets the successive checkpoints form one line of descent, all of it on the best chain, and every coinbase in the tree keeps carrying its height. The run is a sequence of states each of which follows from the one before by the rule for its event; while only blocks arrive a pending checkpoint stays pending until its block is accepted |
| `SyncCheckpoint.SyncState.StaysPending` | src/checkpoints.cpp:184-225 | Over any number of block arrivals the pending checkpoint and the current one stay as they are while the pending block is unknown |
| `SyncCheckpoint.SyncState.ObeyedOnArrival` | src/main.cpp:2373-2389 | The arrival of the pending block on a consistent chain: a checkpoint off the line of the current one is dropped, one that became the best block is obeyed, one on a side branch is obeyed if and only if that branch can be switched to, and is kept otherwise; a heavier block that cannot be connected changes nothing |
| `SyncCheckpoint.SyncState.PendingInRun` | src/checkpoints.cpp:184-225 | The same over a whole run of block arrivals: a checkpoint pending at the start is obeyed when its block arrives at last, if and only if it became the best block or its branch can be switched to, and is dropped if it is off the line |
| `SyncCheckpoint.SyncState.FollowsExactly` | src/checkpoints.cpp:193-208 | On a consistent chain a checkpoint has a forward link or is the tip if and only if it is an ancestor of the tip, and then it can be switched to |
| `AddrTable.Limits` | src/addrman.h:122-144 | The numbers: 256 new and 64 tried buckets of at most 64 entries, between one and four references to an entry that is not tried |
| `AddrTable.FewTriedBuckets` | src/addrman.h:112-114 | Addresses of one range fall into at most four of the tried buckets |
| `AddrTable.FewNewBuckets` | src/addrman.h:105-108 | What sources of one range announce falls into at most 32 of the new buckets, addresses of one range among it into a single one |
| `AddrTable.GroupBound` | src/addrman.h:111-114 | However many addresses of one range are good, at most 256 of them are in the tried table |
| `AddrTable.CreatedOk` | src/addrman.cpp:93-103 | Creating an entry keeps the whole structure, up to that entry being in no bucket yet |
| `AddrTable.SwappedOk` | src/addrman.cpp:105-123 | Exchanging two positions of vRandom keeps the whole structure |
| `AddrTable.DroppedOk` | src/addrman.cpp:161-169 | Taking an entry out of a new bucket, deleting it with its last reference, keeps the whole structure |
| `AddrTable.UnlistedOk` | src/addrman.cpp:207-215 | Taking an entry out of all new buckets brings its reference count to exactly zero |
| `AddrTable.PromotedOk` | src/addrman.cpp:217-228 | Entering the tried bucket that its hash names keeps the whole structure |
| `AddrTable.DemotedOk` | src/addrman.cpp:233-258 | A tried entry that goes back to a new bucket with room keeps the whole structure |
| `AddrMan.CAddrMan.Find` | src/addrman.cpp:80-91 | Finds the entry of an address exactly if there is one |
| `AddrMan.CAddrMan.Create` | src/addrman.cpp:93-103 | Appends the entry under a fresh id to all indexes |
| `AddrMan.CAddrMan.SwapRandom` | src/addrman.cpp:105-123 | Exchanges the two entries and their recorded positions; its assertions hold |
| `AddrMan.CAddrMan.SelectTried` | src/addrman.cpp:125-147 | The bucket is reordered by exchanging the entries drawn and nothing else changes; the position returned is the one drawn for the first entry tried least recently among those inspected, and it holds that entry if and only if the entry was drawn in its place |
| `AddrMan.EvictsTheYounger` | src/addrman.cpp:133-144 | Counterexample: with two entries and both draws 1, the second tried less recently, the position returned holds the other one |
| `AddrMan.CAddrMan.ShrinkNew` | src/addrman.cpp:149-201 | Removes exactly one entry of the bucket: the first one not tried within a minute that is undated, older than 30 days, dated ahead or has failed too often, or else the oldest of the four drawn; it is deleted if and only if this was its last reference; its assertions hold |
| `AddrMan.TerribleExactly` | src/addrman.cpp:37-55 | Which entries may be deleted first and are never offered: those not tried within the last minute that were not seen within 30 days, are dated more than ten minutes ahead, had three attempts without any success, or ten without one for a week |
| `AddrMan.CAddrMan.TerribleOf` | src/addrman.cpp:154-172 | Finds the terrible entry with the least id, exactly if there is one |
| `AddrMan.CAddrMan.OldestOf` | src/addrman.cpp:174-187 | Finds an entry at a drawn position none of the drawn ones is older than |
| `AddrMan.CAddrMan.MakeTried` | src/addrman.cpp:203-259 | The entry ends in exactly its tried bucket; if that was full, exactly one of its entries returns to its own new bucket, or to the one the new entry came from; nobody is lost, the counters are exact, the assertions hold |
| `AddrMan.CAddrMan.BucketOf` | src/addrman.cpp:288-300 | The search from a random start finds a bucket that holds the entry whenever there is one |
| `AddrMan.CAddrMan.Good_` | src/addrman.cpp:261-310 | Updates the statistics of exactly the entry with this address and port and moves it to the tried side; no address is lost and the bucket search always succeeds |
| `AddrMan.CAddrMan.Place` | src/addrman.cpp:358-366 | The entry gains one reference in the bucket; at most one other entry loses one there, and only from a full bucket, terrible ones first |
| `AddrMan.CAddrMan.Refresh` | src/addrman.cpp:323-330 | A known address gets the announced time, less the penalty, if its own is unknown or too old by one hour for an online node, by a day otherwise, and the announced services in addition to its own |
| `AddrMan.CAddrMan.Add_` | src/addrman.cpp:312-368 | Reports a new address exactly when it is routable and unknown, and then it is listed in its bucket with one reference; a known one is refreshed by the stated rule, and gains a reference in its bucket if and only if the news is newer, it is not tried, has a reference to spare, passes the random test and is not in the bucket yet; at most one other new entry is lost, never a tried one |
| `AddrMan.CAddrMan.Attempt_` | src/addrman.cpp:370-387 | Changes the attempt statistics of exactly the matching entry; the invariant stays for a clock that is not negative |
| `AddrMan.CAddrMan.Connected_` | src/addrman.cpp:514-532 | Moves the time of exactly the matching entry forward, after 20 minutes |
| `AddrMan.CAddrMan.GetAddr_` | src/addrman.cpp:492-512 | Returns distinct entries, at most 23 percent and 2500, each of them tried within the last minute or seen within 30 days and without too many failures; fewer than that only if every such entry is returned; only positions in vRandom change |
| `AddrCheck.Check_` | src/addrman.cpp:433-489 | The consistency check returns 0 if and only if all the conditions it is meant to test hold, stated outright, and otherwise the code of the test that failed, in their order |
| `AddrCheck.OkIsChecked` | src/addrman.cpp:433-489 | Every state that satisfies the invariant all operations keep passes the check |
| `AddrStore.NumberNew` | src/addrman.h:282-292 | New entries are numbered in ascending order and written, all of them, whatever the early end of the loop |
| `AddrStore.WriteBucket` | src/addrman.h:302-310 | Each member of a bucket is written once, by its number, in ascending order |
| `AddrStore.Serialize` | src/addrman.h:270-311 | Writes every new entry, every tried entry and every bucket, each member once, all in ascending order of ids |
| `AddrLoad.Unserialize` | src/addrman.h:313-376 | Loads a file within the limits without losing an entry. Of any complete file the new entries are restored in order, with the first four of the references listed for each, or in their own buckets if the number of buckets has changed; each tried bucket keeps what belongs in it up to its limit, and no tried entry is lost if and only if no bucket is due more |
| `AddrLoad.LoadedOk` | src/addrman.h:313-376 | A loaded table satisfies the whole invariant |
| `AddrLoad.RebuiltOk` | src/addrman.h:334-342 | With another number of buckets the loaded table satisfies the invariant if and only if no bucket is due more entries than it can hold |
| `AddrLoad.Overfull` | src/addrman.h:334-342 | Counterexample: 65 entries whose own bucket is the same one are all loaded into it |
| `AddrLoad.WrittenIsSound` | src/addrman.h:270-376 | What was saved can be loaded without loss: every tried entry finds room in its bucket |
| `AddrLoad.RoundTrip` | src/addrman.h:270-376 | Loading what was saved gives the same table up to renumbering: the same addresses, statistics, counts and membership of every bucket |
| `AddrLoad.SaveAndLoad` | src/addrman.h:270-376 | The round trip for the two operations in sequence, on every reachable state |
| `Mempool.DescendsLess` | src/main.cpp:752-774 | Removing a set closed under spending cuts no path between transactions that stay |
| `Mempool.UnderAll` | src/main.cpp:760-766 | What hangs off all outputs of a transaction is what descends from it, itself excepted |
| `Mempool.CTxMemPool.Accept` | src/main.cpp:585-731 | Admits a transaction exactly if it is unknown, spends nothing a pooled one spends and passes the other checks; the index stays the exact inverse |
| `Mempool.CTxMemPool.AddUnchecked` | src/main.cpp:738-749 | Adds the transaction and the index entries of its inputs |
| `Mempool.CTxMemPool.Remove` | src/main.cpp:752-774 | The recursive removal ends and removes exactly the transaction and its transitive spenders in the pool, each counted once as an update; mapNextTx stays the exact inverse of the inputs |
| `Mempool.CTxMemPool.RemoveSpenders` | src/main.cpp:761-765 | The loop over the outputs removes exactly what hangs off them |
| `Mempool.CTxMemPool.RemoveConflicts` | src/main.cpp:776-789 | Afterwards no other pooled transaction spends an input of this one, and exactly the conflicting ones and what descends from them are gone |
| `Scheduler.ScanInputs` | src/miner.cpp:190-231 | A transaction waits for exactly the pool transactions it spends and is listed under each of them; its total input value is the true one, and its priority sums value times age over the inputs on disk |
| `Scheduler.BuildQueue` | src/miner.cpp:177-250 | Every candidate is queued once if it need not wait, and has one orphan record otherwise, each with its due priority and fee |
| `Scheduler.Release` | src/miner.cpp:337-353 | Crossing off a parent queues each child whose last parent this was exactly once, even if it spends several outputs of that parent |
| `Scheduler.ReleaseOk` | src/miner.cpp:337-353 | Afterwards exactly the candidates whose parents are all in the block are queued or were considered |
| `Scheduler.PricedOn` | src/miner.cpp:337-353 | Transactions that join the queue later bring their due priority and fee along |
| `Scheduler.Popped` | src/miner.cpp:262-270 | Taking the best entry off keeps the queue free of repetitions |
| `Assembly.CollectedSpends` | src/miner.cpp:303-322 | A transaction that fetches and connects on the pending changes spends only outputs that are live in the block under construction |
| `Assembly.CollectedOk` | src/miner.cpp:319-322 | The pending changes keep the flags the database would have after connecting the collected transactions |
| `Assembly.SumInIsTrue` | src/miner.cpp:311-313 | The fees are computed from the real values of the outputs spent |
| `Miner.TryAdd` | src/miner.cpp:272-329 | A transaction is added if and only if it keeps the limits on size, signature operations and time, is not skipped as too cheap, pays the minimum fee, and fetches and connects on the pending changes; the order changes to that by fee exactly by the stated rule |
| `Miner.Collect` | src/miner.cpp:303-322 | The second half of that decision: fetching, fees, signature operations of inputs, connecting |
| `Miner.TakeBest` | src/miner.cpp:262-270 | Takes a transaction that none comes before of all that are free to be taken: by priority and then fee, or by fee and then priority, as the order in force says |
| `Miner.TopOfAll` | src/miner.cpp:81-100 | The top of the queue is one that no transaction free to be taken comes before, with the order written out on true priority and fee |
| `Miner.Sizes` | src/miner.cpp:141-155 | The block size stays between 1000 and 999,000 bytes, and the sizes reserved for priority and free transactions within it |
| `Miner.CreateNewBlock` | src/miner.cpp:102-378 | Collects each pool transaction at most once; size, signature operations and fees equal the true sums and stay under their limits; exactly the candidates whose in-pool parents are all in the block were considered, each once, and each was collected if and only if the block, as it stood at its turn, had a place for it by all the rules. At every turn the transaction considered was one that none came before of those free to be taken: by priority, value times age over size, and then fee per 1000 bytes, or the other way round once the order is by fee |
| `Miner.ParentsFirst` | src/miner.cpp:337-353 | Every in-pool parent comes earlier in the block |
| `Miner.SpentOnce` | src/miner.cpp:319-322 | No outpoint is spent twice in the block |
| `Miner.BlockCanConnect` | src/miner.cpp:319-329 | With a coinbase in front the assembled block passes the spend checks that connecting it makes |
| `Assembly.FitsSound` | src/miner.cpp:305-320 | What the miner checks of a transaction holds whatever else is in the block |
| `AssembledBlock.EachConnects` | src/miner.cpp:319-329 | Each collected transaction passes the input checks on the view that the coinbase and the transactions before it leave |
| `AssembledBlock.SumsAgree` | src/miner.cpp:324-329 | The signature operations and fees the miner counted are those ConnectBlock counts |
| `AssembledBlock.AssembledConnects` | src/miner.cpp:262-354 | The assembled block passes all checks of ConnectBlock on the next height, if its coinbase claims no more than subsidy and fees and needs no more than the 100 signature operations set aside, the pool holds checked transactions, and header and proof are good |
| `Frames.FrameFields` | src/protocol.h:27-66 | Magic, command, size, checksum and payload stand where the header layout says |
| `Frames.CommandReadsBack` | src/protocol.cpp:30-44 | A command is read back from its header if and only if it has at most twelve bytes and no zero; a longer one is cut |
| `Frames.SplitFramed` | src/net.cpp:655-716 | There is only one way to cut a byte stream into messages |
| `Frames.PrefixFramed` | src/net.cpp:655-727 | Any prefix of the sent frames splits into the first of them, in order, and at most one incomplete |
| `Transport.SendQueue.SocketSendData` | src/net.cpp:738-781 | Whatever the partial sends, bytes sent and queued together are always the frames in order; nSendSize and nSendOffset match the queue; the assertions hold |
| `Transport.SendQueue.BeginMessage` | src/net.h:438-445 | Starts with a header of the right layout and no size yet |
| `Transport.SendQueue.EndMessage` | src/net.h:457-493 | Completes size and checksum and appends exactly that frame, or drops the message |
| `Transport.CNetMessage.Kind` | src/net.h:161-166 | A message is complete exactly when its bytes are one whole frame |
| `Transport.CNetMessage.ReadHeader` | src/net.cpp:686-716 | Absorbs at least one byte and no more than the header lacks; fails only on a size beyond MAX_SIZE |
| `Transport.CNetMessage.ReadData` | src/net.cpp:718-727 | Absorbs at least one byte and no more than the payload lacks |
| `Transport.Receiver.Absorb` | src/net.cpp:657-681 | Each step of the loop makes progress and loses no byte |
| `Transport.Receiver.ReceiveMsgBytes` | src/net.cpp:654-684 | What has been parsed is a function of the bytes received so far, however they were cut into chunks; it fails exactly when they announce a message beyond the limit |
| `Transport.EndToEnd` | src/net.cpp:655-781 | For any partial sends and any chunks the payloads received are those of the first messages sent, in order, with commands and checksums, and at most one incomplete message |
| `Merkle.MerkleBlock.BuildMerkleTree` | src/main.h:982-999 | The flat vector holds all levels, leaves first, an odd last entry being paired with itself; the root is its last entry, 0 for no leaves |
| `Merkle.MerkleBlock.GetMerkleBranch` | src/main.h:1001-1015 | The branch holds the other side at every level |
| `Merkle.CheckMerkleBranch` | src/main.h:1017-1030 | Folds the branch according to the bits of the index, negative ones included; -1 gives 0 |
| `Merkle.BranchLeadsToRoot` | src/main.h:982-1030 | For every leaf the fold over its branch gives the root |
| `Merkle.OnlyBranch` | src/main.h:1017-1030 | With an injective hash, any branch of the right depth that reaches the root at an index has that leaf and is exactly that branch |
| `Merkle.RootDetermines` | src/main.h:982-999 | With an injective hash the root and the number of leaves determine all leaves |
| `Locator.CBlockLocator.Set` | src/main.h:1504-1519 | The hashes are those of the ancestors at the exponentially growing distances, then genesis |
| `Locator.CBlockLocator.GetBlockIndex` | src/main.h:1542-1556 | Returns the first entry on the main chain, or genesis |
| `Locator.CBlockLocator.GetDistanceBack` | src/main.h:1521-1540 | Retraces the distance at which that entry was written |
| `Locator.LocatorSize` | src/main.h:1504-1519 | A locator for height h has at most 12 hashes, or 12 + log2(h - 9) |
| `Locator.FindsCommonAncestor` | src/main.h:1521-1556 | Against any other main chain the block found is a common ancestor at most twice as far from the tip as the fork; the retraced distance is right if and only if the hit is not the appended genesis hash |
| `Script.GetOp2` | src/script.h:424-475 | Reads the instruction at the position, and fails exactly when it is incomplete |
| `Script.PushReadsBack` | src/script.h:361-386 | A push of any length below 2^32 is read back as the same bytes, at all four length encodings, and the encoding is the shortest of the four |
| `Script.BuildParses` | src/script.h:361-475 | A script built of pushes and opcodes parses back to the same ones |
| `Script.FindAndDelete` | src/script.h:493-510 | Ends with the pattern deleted wherever an instruction starts, and counts the deletions |
| `Script.SizeKept` | src/script.h:493-510 | The final size plus the deleted copies is the original size |
| `Script.CleanIsFixed` | src/script.h:493-510 | Deleting finds nothing exactly when no instruction starts where the pattern occurs |
| `Script.WithoutClean` | src/script.h:493-510 | For a pattern that is again a start of itself without its first instruction, no occurrence is left at an instruction boundary |
| `Script.CleanExactly` | src/script.h:493-510 | For all scripts no occurrence is left, and deleting is idempotent, if and only if the pattern has that form; single pushes and opcodes have it |
| `Script.SingleFollows` | src/script.h:493-510 | Patterns of one instruction, the only ones the interpreter deletes, have that form |
| `Script.MeetAgain` | src/script.h:493-510 | Counterexample: two different opcodes deleted from between themselves meet again, so an occurrence is left |
| `ScriptNumber.NumberReadsBack` | src/script.h:247-259 | Every 64-bit number pushed is read back as the same number, by opcode or by its bytes |
| `StakeModifier.GetStakeModifierSelectionInterval` | src/kernel.cpp:41-55 | The interval is the sum of all 64 sections |
| `StakeModifier.SectionIs` | src/kernel.cpp:41-46 | Each of the 64 sections is the largest number of seconds k with k * (315 - 4n) at most 18,900, from 60 to 300 |
| `StakeModifier.Candidates` | src/kernel.cpp:148-157 | The recent blocks, each once, sorted by time and then hash |
| `StakeModifier.SelectBlockFromCandidates` | src/kernel.cpp:60-100 | Chooses, of the candidates not selected yet, the first with the least selection hash among those up to the stop time, or the earliest if there is none up to it; fails exactly when all are selected |
| `StakeModifier.SelectAll` | src/kernel.cpp:159-176 | All min(64, n) rounds succeed with pairwise distinct blocks, and bit r of the modifier is the entropy bit of round r |
| `StakeModifier.ComputeNextStakeModifier` | src/kernel.cpp:115-208 | Keeps the old modifier while its interval lasts; otherwise the new one consists of the entropy bits of the blocks selected as above; fails only if no block ever generated one |
| `StakeModifier.GetLastStakeModifier` | src/kernel.cpp:28-39 | Finds the last block that generated a modifier |
| `StakeModifier.GetKernelStakeModifier` | src/kernel.cpp:212-244 | Finds the first later block that generated a modifier a selection interval after the given one, and fails exactly when the chain has none |
| `StakeModifier.BitOfSum` | src/kernel.cpp:170-171 | Each bit can be read from the finished modifier |
| `BigNum.MpiReadsBack` | src/bignum.h:301-326 | The sign-and-magnitude bytes of every number mean that number |
| `BigNum.VchReadsBack` | src/bignum.h:301-326 | setvch undoes getvch for every number |
| `BigNum.SetInt64` | src/bignum.h:172-213 | The bytes built for any 64-bit number, the smallest included, are its canonical form |
| `Compact.CompactReadsBack` | src/bignum.h:328-351 | Reading back a compact form clears all but the three leading bytes |
| `Compact.TruncError` | src/bignum.h:328-351 | The loss is below 2^-15 of the number, and a positive number stays positive |
| `Compact.TruncFixed` | src/bignum.h:328-351 | The number read back has the same compact form and is a fixed point |
| `Compact.TruncMonotone` | src/bignum.h:328-351 | Compacting keeps the order of numbers |
| `Difficulty.GetLastBlockIndex` | src/main.cpp:1102-1107 | Finds the last block of the kind, or genesis if there is none |
| `Difficulty.GetLastBlockIndex2` | src/main.cpp:1109-1125 | From height 771000 on finds the last stake block of the hours; before, the last stake block up to the last block of the hours |
| `Difficulty.FlashHours` | src/main.cpp:1317-1346 | The flash hours are those from one, six, fifteen and twenty o'clock, UTC |
| `Difficulty.NextBitsBy` | src/main.cpp:1160-1223 | What the next bits are computed with, in numbers: the multiplier, the divisor and the limit for work, for stake and for the flash hours, before and after the change of spacing |
| `Difficulty.RemSmall` | src/main.cpp:1255-1259 | The remainder of a spacing keeps its sign, is less than an hour and whole hours away from it |
| `Difficulty.GetNextTargetRequiredV1` | src/main.cpp:1138-1224 | The limit without two earlier blocks of the kind; otherwise the bits follow from the last block of the kind and the spacing of the last two, a negative one counting as the target spacing before block 315065; after a change of hours, from the last block of the new hours with spacing 0 |
| `Difficulty.GetNextTargetRequiredV2` | src/main.cpp:1226-1293 | The bits follow from the last two stake blocks of the same hours, with their spacing modulo one hour and its sign kept, or from the last two work blocks |
| `Difficulty.GetNextTargetRequired` | src/main.cpp:1128-1136 | Before block 817990 the bits of the first version, from then on those of the second; whatever the branch holds, they mean a positive target within the limit of their kind; in version 2 a stake target outside the flash hours stays below its double unless the quotient vanishes |
| `Retarget.Adjust` | src/main.cpp:1275-1293 | Multiplies and divides as stated, and puts the limit in place of results that are not positive or beyond it |
| `Retarget.Numbers` | src/main.cpp:1209-1219 | Multiplier, divisor and limit of each kind of block, in numbers |
| `Retarget.LimitIs` | src/main.cpp:40-42 | The limits are 236 and 246 bits, all set |
| `Retarget.TargetByFloor` | src/main.cpp:1218-1223 | The target is multiplied and divided, and replaced by the limit if it is not positive or beyond it; rounding down instead of toward zero would make no difference |
| `Retarget.InLimit` | src/main.cpp:1286-1292 | The next target is always positive and within the limit |
| `Retarget.OnTarget` | src/main.cpp:1286-1292 | On-target spacing keeps canonical bits within the limit unchanged |
| `Retarget.Monotone` | src/main.cpp:1286-1292 | A longer spacing gives no smaller target, if and only if the shorter one does not make the quotient vanish or the longer one makes it vanish as well or reach the compact limit |
| `Retarget.FillsExactly` | src/main.cpp:1286-1292 | The next target is that of the limit if and only if the quotient vanishes or reaches the compact limit |
| `Retarget.LessThanDouble` | src/main.cpp:1241-1292 | Outside the flash hours a stake target stays below its double, if and only if the quotient does not vanish (or the limit is below the double) |
| `Retarget.SmallestTargetVanishes` | src/main.cpp:1286-1290 | Counterexample: for target 1 and spacing 0 the numerator is positive, yet the quotient is 0 and the limit takes its place, far above the double and above the target for a longer spacing |
| `Base58.Alphabet` | src/base58.h:26-26 | The 58 characters are the digits and letters but for 0, O, I and l, in ascending order |
| `Base58.Spaces` | src/base58.h:84-93 | The characters skipped around a string are those of isspace |
| `Base58.EncodeBase58` | src/base58.h:29-67 | The string is the same number as the bytes with as many leading ones as zero bytes |
| `Base58.DecodeBase58` | src/base58.h:77-121 | Succeeds exactly on strings over the alphabet with white space around, and returns the bytes that are the same number with the same leading zeros |
| `Base58.CodedUnique` | src/base58.h:29-121 | The correspondence of byte strings and base58 strings is one to one |
| `Base58.BytesRoundTrip` | src/base58.h:29-121 | Decoding an encoded byte string gives it back, leading zeros and high bits included |
| `Base58.StringRoundTrip` | src/base58.h:29-121 | Encoding a decoded string gives it back, without the white space |
| `Base58.EncodeBase58Check` | src/base58.h:134-141 | Encodes the bytes followed by their checksum |
| `Base58.DecodeBase58Check` | src/base58.h:145-162 | Succeeds on exactly the strings that encode something with its checksum, and returns it |
| `Base58.CBase58Data.SetString` | src/base58.h:206-222 | Sets version and data to what the string encodes, and fails exactly when it encodes nothing with a version |
| `Base58.CBase58Data.ToString` | src/base58.h:229-234 | Encodes version and data with their checksum |
| `Base58.DataRoundTrip` | src/base58.h:206-234 | A versioned string is read back as the same version and data |
| `PageLocks.LockedPageManager.LockRange` | src/allocators.h:57-77 | Afterwards every counter is the number of live ranges with a byte in its page, the new one included; the loop ends |
| `PageLocks.LockedPageManager.UnlockRange` | src/allocators.h:80-100 | Undoes one lock of the same range: the counters stay exact, pages are unlocked with the last range, and the assertion holds |
| `PageLocks.LockedPageManager.LockedWhileNeeded` | src/allocators.h:57-100 | A page is locked exactly while some live range has a byte in it |
| `PageLocks.OverlapsBetween` | src/allocators.h:61-64 | The pages from the first to the last address are exactly those with a byte of the range |
| `Pbkdf2.HmacInit` | src/pbkdf2.cpp:29-62 | The two hash states have absorbed the padded key combined with the inner and outer pad, a long key being hashed first, as in section 2 of RFC 2104 |
| `Pbkdf2.HmacFinal` | src/pbkdf2.cpp:74-90 | The digest is the outer hash of the inner hash |
| `Pbkdf2.Extends` | src/pbkdf2.cpp:65-71 | Continuing a keyed state gives the HMAC of the whole text |
| `Pbkdf2.Block` | src/pbkdf2.cpp:116-136 | One block is the exclusive or of all U values of section 5.2 of RFC 8018, though the first continues a shared state |
| `Pbkdf2.PBKDF2_SHA256` | src/pbkdf2.cpp:98-147 | The buffer receives exactly the derived key of section 5.2 of RFC 8018, its last block cut to length; an iteration count of 0 counts as 1 |

## Left out

- Crash recovery, disk errors and failing database writes: blocks and the index are maps, and a batch is committed or dropped as a whole.
- The step that connects the genesis block: it is the starting state of `ChainState`.
- `fJustCheck` in `ConnectBlock`, and the effects of a new best block on wallet, memory pool, user interface and alerts.
- BestChain.ChainState.Reorganize: two different transactions that share a txid are not considered; for those Replay.UnwindExactly says when disconnecting succeeds and what it restores.
- BestChain.ChainState.AddToBlockIndex: trust is any natural number per block, not computed from targets.
- Ledger.Undo: the entry of a fully spent transaction that a block overwrote is not brought back, as in the code; unspent outputs are.
- Blocks.CheckBlock: proof of work, timestamps, size, the Merkle root, the block signature and the difficulty bits are one arbitrary check.
- Blocks.CheckTransaction: the limits on time and size are one arbitrary check; of scripts of inputs only that of a coinbase is part of the model.
- Connect.ConnectInputs: the arbitrary checks in `Rules` depend on the block or the transaction alone, while the code also reads the clock, the time of the best block and, for the coin age, the database; a run in which their answers change is not modelled.
- SyncCheckpoint.SyncState.Step: under the advisory and permissive policies and on the test network nothing is claimed about safety; sending and signing checkpoints, writing them to disk and requesting blocks from peers are not modelled.
- AddrMan.CAddrMan.Good_: the clock is assumed positive, since a last success at time 0 means none and the consistency check refuses it.
- AddrLoad.Unserialize: files that end early, name entries they do not hold, or list more than 256 new buckets, where the code indexes past the last one, are not modelled; for fewer buckets the sizes of the new buckets are not limited, which AddrLoad.RebuiltOk makes precise.
- `Select_` and `GetChance` of the address manager: floating-point chances and termination with probability one.
- Mempool.CTxMemPool.Accept: the checks of the transaction and its inputs are one arbitrary check; replacement of transactions, which the code disables, and the rate limit for free transactions are not modelled. That no transaction spends its own descendants is assumed as a depth for every txid.
- Miner.CreateNewBlock: the pool is assumed to resolve, every input being on disk or in the pool and no pool transaction on disk; the case the code calls an error is not modelled. Priorities are exact numbers, the heap is any choice of a greatest entry, and the header fields other than the reward are left out.
- Transport.EndToEnd: sockets, threads, and the handling of received messages are left out; payloads beyond MAX_SIZE are not sent.
- Script.FindAndDelete: the interpreter that calls it, and signature hashing, are not modelled.
- Difficulty.GetNextTargetRequiredV2: a branch without an earlier block of the kind above genesis, where the code would follow a null pointer, is excluded.
- StakeModifier.ComputeNextStakeModifier: the block index is the chain up to the previous block; the kernel hash and its target are left out.
- PageLocks.LockedPageManager.LockRange: a non-empty range that reaches into the last page of the address space, where the loop would not end, is excluded; failures of the system call are ignored, as in the code.
- Pbkdf2.PBKDF2_SHA256: SHA-256 is any function to 32 octets; clearing of memory is left out.
- Orphan transactions and orphan blocks, median times, page-level wallet code, RPC, networking threads, time synchronisation and start-up: they would add easy members or are input and output.
- Fixed-width overflow of amounts, sizes and heights: integers are unbounded except where bytes or pages are the subject.

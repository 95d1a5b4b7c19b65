# Bitcoin Private node: a verified model of its hard core

This project models, in Dafny 4.11, the parts of the Bitcoin Private full node whose correctness is least obvious, and
proves what the node relies on. It is a model: the original program is not executed. `dafny verify dfyconfig.toml`
verifies the whole project.

## What is modelled

**Chain state** (`Primitives`, `ChainSpec`, `Values`, `MerkleRoot`, `UndoProofs`, `Conservation`, `Supply`, `CacheLayer`,
`CoinsViews`, `BlockProcessing`, `ChainState`, `History`, `ChainRules`, `ChainLaws`). `ChainSpec` tells connecting and disconnecting a block as functions on one flat ledger: unspent outputs per
transaction, spent nullifiers and the best anchor. `CoinsViews` holds the database and the write-back caches as classes;
`BlockProcessing` and `ChainState` run UpdateCoins, ConnectBlock, DisconnectBlock, ConnectTip, DisconnectTip and
FlushStateToDisk on a stack of them. Main results:

- undoing a connected block restores the ledger exactly, outside the fork range for all blocks whose ids do not
  collide, inside it if and only if no id repeats on a transaction with spendable outputs (with a concrete fork block
  that connects and cannot be undone);
- a stack of caches of any depth answers like one flat map, through any run of reads, edits and flushes;
- after any run of successful and failed connections, disconnections and flushes the tip shows exactly the replay from
  genesis of the active chain;
- a chain replays if and only if its blocks obey rules that speak of the blocks alone, and then the ledger shows which
  outputs are open, who made them and when, and which nullifiers are out;
- in every chain that replays, each input was made by one earlier transaction and is spent in keeping with its age and
  kind, nothing is spent twice, no nullifier is revealed in two places, and no transaction but a coinbase pays out more
  than it takes in, joinsplits included;
- a block adds at most its subsidy to transparent and shielded value together, or in the fork range what its coinbases
  pay out; the subsidies of any number of blocks stay within 21 million coins, and so does the value of every chain but
  for what its fork blocks paid out;
- a Merkle root that passes the test for a repeated end stands for one list of transactions only, and a shorter list has
  the same root if and only if some level of more than two hashes ends in a pair of equal ones.

**Address manager** (`AddrTables`, `AddrMoves`, `AddrMan`, `AddrCodec`, `AddrStore`, `AddrLoad`, `AddrCheck`). The five redundant
indexes, the public operations but Select as methods of a class, saving and loading. Main results: every run of operations keeps
the indexes consistent; on arbitrary indexes the manager's own check reports nothing if and only if all it asks for
holds, which together with the facts it does not look at is consistency itself; each operation's effect on every other entry
is stated; entries worth keeping, in terms of their times and attempts, are never lost to a new address and are the ones
GetAddr returns; the time an entry was last heard of never moves back; a manager that is saved and loaded shows the same entries, tables and counts; and an arbitrary accepted stream
gives a consistent manager if and only if no entry that stays shares its address with another one that was read.

**Check queue** (`CheckQueue`, `CheckProgress`). The protocol between the master and any number of workers, one step per critical section,
under any schedule with spurious wake-ups. Main results: Wait returns the conjunction of all checks added, the counters
are exact, no wake-up is lost, every step inside Wait but an idle wake-up lowers one measure, so that any schedule ends
it within a stated number of steps, and the queue is idle between users.

**Partial Merkle trees** (`Hashing`, `MerkleTree`, `MerkleSize`, `MerkleBytes`, `MerkleAgree`, `PartialMerkle`). Encoder and decoder over an arbitrary hash of two
digests. Main results: soundness of the decoder for arbitrary input, completeness on everything the encoder makes, refusal of a proof
with a hash or a flag byte left over, the two bounds
on the number of hashes, exactly when the documented bounds on the flag bits and on the size in bytes hold, and that the
root it is checked against is the one BuildMerkleTree puts into a header.

**Block tree** (`BlockTree`, `ActiveChain`, `MostWork`, `Linking`, `Candidates`, `ChainMoves`, `IndexState`,
`CountSignal`, `CountSignalFails`, `BlockIndex`). Skip lists, the active chain vector, blocks that arrive in any order, are pruned and come back, failed
blocks, and the choice of the best chain. Main results: the skip list finds what the parent walk finds; a
locator lists exactly the heights of its steps, and for every ancestor names one at or below it at most twice as far away; through any run
of headers, arrivals, prunings, failures and moves of the tip, counts are totals over processed chains, what waits has to,
and no chain that can be used is missing from the candidates, so that a chain dropped for want of a block is a candidate
again when the block is back; FindMostWorkChain returns the greatest of all counted chains without a failed or missing block,
not just of the candidates; on the way to it the candidate set is complete and holds the target at every tip; while
nothing has failed or been pruned, all three are exactly what the arrivals demand; and counts signal processed chains, as
CheckBlockIndex asserts, in every state of a run exactly under two guards.

**Arithmetic and codecs** (`Limbs`, `LimbShifts`, `ArithUint256`, `CompactTarget`, `Digits`, `BufferRoom`, `Base58`,
`Base58Codec`, `Amounts`, `VarInts`, `CoinsCodec`, `CoinsStore`; `Sets` and `Powers` are shared). Limb arithmetic against
the integers modulo 2^256, the compact target format as a rounding, base-58 text with its fixed buffers, and the stored form of unspent
outputs, with a script as one item of the stream. Main results: each limb operation is exact, except `x *= x`; a target is rounded down by at most one part in 2^15
and rounding is monotone and idempotent; a compact word survives unpacking and packing if and only if it is
canonical; no base-58 buffer is ever too short and both round trips hold for all inputs;
a stored record is read back, unchanged if and only if it is clean, with non-negative height and version and scripts
within the limit.

## Where code and documentation differ

- The documentation of CPartialMerkleTree bounds the flag bits by twice the hashes less one. That fails for a match below
  a node without a right child; `MerkleSize.FlagBits` states exactly when it holds and by how much it can fail. The
  guaranteed size of 10 + ceil(32.25 * N) bytes fails with it, first by one byte for 1012 transactions all selected
  (`MerkleBytes.SizeExceeds`); `MerkleBytes.SizeGuarantee` states exactly when it holds.
- `x *= x` on a 256-bit number clears the factor before reading it, so the product is zero; `ArithUint256.Uint256.Multiply`
  says so, and `ArithUint256.SelfMultiplyExact` states exactly when that is the right product.
- DisconnectBlock in the fork range takes every transaction for a coinbase and allows repeated ids; the claim that the
  undo restores the previous state then fails, and `UndoProofs.ForkDisconnectExact` states exactly when it holds.
- CheckBlockIndex asserts that a block has a count exactly if it and all its ancestors have been processed. Two calls can
  lose that: PruneOneBlockFile for a block that is stored and uncounted (`CountSignalFails.PrunedUncounted`), and
  ReceivedBlockTransactions for a block whose parent is uncounted and failed (`CountSignalFails.BehindFailed`). A run
  from the empty index that avoids both keeps the assertion in every state (`BlockIndex.BlockIndex.Run`); each of the
  two calls keeps a tidy index tidy if and only if its guard is met; and from an index that is not tidy some allowed
  arrivals break the assertion (`CountSignal.TidyExactly`).
- Unserialize accepts streams that list an address twice and then builds an inconsistent manager
  (`AddrLoad.TwiceListed`); `AddrLoad.LoadedExactly` states exactly when the result is consistent.

## Model

| member | source | states |
|---|---|---|
| Primitives.Cleanup | src/coins.h:113-119 | the result is the prefix that ends with the last unspent output; everything dropped is spent |
| Primitives.CleanupUnique | src/coins.h:113-119 | that prefix is the only one: any clean prefix with a spent remainder is what Cleanup returns |
| Primitives.CleanupVout | src/coins.h:114-119 | the loop computes Cleanup |
| Primitives.CleanPruned | src/coins.h:252-257 | a cleaned-up record is pruned exactly when its vector is empty |
| Primitives.NullUnspendable | src/coins.h:121-125 | unspendable outputs become null, all others stay in place |
| Primitives.ClearUnspendableVout | src/coins.h:121-127 | the in-place pass and the clean-up compute ClearUnspendable |
| ChainSpec.Spend | src/coins.cpp:38-45 | exactly the given output stops being available; every other output keeps its value |
| ChainSpec.SpendInput | src/main.cpp:1618-1633 | one outpoint stops being available, no other does, and no value changes |
| ChainSpec.SpendInputs | src/main.cpp:1616-1634 | the outpoints spent are exactly the inputs; one undo entry per input |
| ChainSpec.BlockSubsidy | src/main.cpp:1419-1454 | the subsidy never exceeds 12.5 coins, through slow start and halvings |
| Values.SumOutIs | src/primitives/transaction.cpp:187-195 | the running total of the outputs is the sum of their values |
| Values.SumOldIs | src/primitives/transaction.cpp:197-204 | the running total of what joinsplits take is the sum of their vpub_old, one by one |
| Values.SumNewIs | src/primitives/transaction.cpp:208-221 | the running total of what joinsplits give is the sum of their vpub_new, one by one |
| Values.NullifiersAre | src/main.cpp:1636-1641 | the nullifiers of a transaction are those its joinsplits list, each one and no other |
| Values.CheckTxExactly | src/main.cpp:867-1005 | the checks with their running totals pass if and only if values are in range, sums are not too large, no outpoint and no nullifier repeats, and the null and coinbase rules hold |
| History.Fresh | src/coins.h:90-96 | a record has the outputs that are not provably unspendable, with their values, and the kind, height and version of its transaction |
| History.ApplyReflects | src/main.cpp:1613-1645 | applying a transaction takes a ledger that shows a history to one that shows the longer history: open outputs with maker and height, and nullifiers |
| ChainRules.AcceptsExactly | src/main.cpp:1669-1744 | a transaction passes if and only if it spends open outputs that may be spent by the height and kind of their makers, reveals new nullifiers and pays no more than it takes in; the fee is the difference |
| ChainRules.TxsExactly | src/main.cpp:2246-2287 | the transactions of a block connect if and only if each obeys the rules after its own history; the fees add up |
| ChainRules.BlockExactly | src/main.cpp:2162-2328 | a block connects if and only if it has the right shape, takes over no id with open outputs, its transactions obey the rules and its coinbase stays within subsidy and fees |
| ChainRules.NotesAre | src/main.cpp:2289-2295 | the commitments appended for a block are those of its joinsplits in order |
| ChainRules.ReplaysExactly | src/main.cpp:2162-2345 | a chain replays if and only if every block obeys the rules; the ledger then shows its history and the root of its commitments |
| ChainLaws.InputLaw | src/main.cpp:1685-1712 | in every chain that replays, each input was made by an earlier transaction and not touched since; a coinbase output is spent only after the maturity, and if protected outside the fork range to no output; after the burn height nothing from before the end of the fork range is spent |
| ChainLaws.SpentOnce | src/main.cpp:1673-1674 | in every chain that replays, an outpoint is spent again only if a transaction with its id came between |
| ChainLaws.RevealedOnce | src/coins.cpp:405-417 | in every chain that replays, a nullifier is revealed by one input of one joinsplit of one transaction only |
| ChainLaws.PaysItsWay | src/main.cpp:1724-1732 | in every chain that replays, outputs and vpub_old of a transaction come to no more than its inputs and vpub_new |
| UndoProofs.RestoreSpent | src/main.cpp:1891-1915 | putting a spent output back gives the record it was taken from, even when later slots had been dropped |
| UndoProofs.UndoSpend | src/main.cpp:1891-1915 | undoing the spending of one input is clean and restores the coin map |
| UndoProofs.UndoSpends | src/main.cpp:1981-1986 | undoing the inputs of a transaction last to first restores the coin map |
| UndoProofs.FromTxStable | src/coins.h:90-96 | the outputs of the record a checked transaction creates are clean and unchanged by a second clearing pass |
| UndoProofs.OutputsRecognised | src/main.cpp:1944-1962 | the outputs just added pass the comparison of DisconnectBlock, and removing them restores the map |
| UndoProofs.UndoApply | src/main.cpp:1613-1645 | undoing one transaction restores the ledger before it |
| UndoProofs.RecordOrigin | src/main.cpp:2203-2210 | a record present during a block was there before or comes from an earlier transaction of the block with spendable outputs |
| UndoProofs.UndoConnectTxs | src/main.cpp:1936-1988 | undoing a connected list of transactions last to first restores the ledger |
| UndoProofs.NotConnectedTwice | src/main.cpp:2246-2287 | no transaction connects twice in one block: its inputs or nullifiers are gone |
| UndoProofs.ConnectedIdsDistinct | src/main.cpp:2203-2287 | a block that connects has distinct ids, if ids do not collide |
| UndoProofs.DisconnectInvertsConnect | src/main.cpp:1917-2002 | outside the fork range, disconnecting a connected block restores every coin, nullifier and the anchor, and is clean |
| UndoProofs.ForkDisconnectExact | src/main.cpp:1972-1976 | in the fork range the undo is clean and exact if and only if no id repeats on a transaction with spendable outputs; otherwise it is refused |
| UndoProofs.ForkRepeatNotUndone | src/main.cpp:1972-1976 | a concrete fork block that passes every modelled check, connects and cannot be disconnected: the same coinbase twice, then another |
| MerkleRoot.BuildLevel | src/primitives/block.cpp:63-72 | one level is appended, and a pair of equal hashes at its end is noted |
| MerkleRoot.BuildMerkleTree | src/primitives/block.cpp:55-78 | the loops compute the root and the flag of the recursive definition; the leaves come first and the root last |
| MerkleRoot.RootBinds | src/primitives/block.cpp:48-53 | lists that cannot be shortened are told apart by their roots, if the hash is injective and no id is an inner hash |
| MerkleRoot.UnflaggedUnique | src/primitives/block.cpp:48-53 | two lists that pass the test have the same root exactly if they are the same list |
| MerkleRoot.MalleableFlagged | src/primitives/block.cpp:66-69 | every list that can be shortened under its root is flagged |
| MerkleRoot.Shorten | src/primitives/block.cpp:25-38 | a list with a level of more than two hashes that ends in a pair of equal ones has a proper prefix with its root |
| MerkleRoot.ShorterExactly | src/primitives/block.cpp:25-38 | a shorter list with the same root exists if and only if there is such a level |
| MerkleRoot.TwinsFlagged | src/primitives/block.cpp:66-69 | the test also flags lists that cannot be shortened: a pair of equal ids |
| MerkleRoot.DistinctUnflagged | src/primitives/block.cpp:61-69 | a list of different ids is never flagged |
| Conservation.TxConserves | src/main.cpp:1669-1744 | a coinbase adds what it pays out; any other transaction loses at least its fee, counting the shielded pool joinsplit by joinsplit |
| Conservation.BlockConserves | src/main.cpp:2315-2326 | a block adds at most its subsidy to transparent and shielded value, or in the fork range what its coinbases pay out |
| Conservation.ChainConserves | src/main.cpp:1419-1454 | over a whole chain, value held never exceeds the subsidies and what the fork blocks paid out |
| Supply.SlowStartIssues | src/main.cpp:1423-1435 | the slow start issues no more than its second half would at the full subsidy |
| Supply.ToComeStep | src/main.cpp:1437-1454 | after every height the subsidy is covered by the drop in what is still to come, also where the fork shortens the periods |
| Supply.IssuedBound | src/main.cpp:1419-1454 | all subsidies issued and still to come are at most two periods at the full subsidy |
| Supply.SupplyInRange | src/test/main_tests.cpp:51-80 | the subsidies of any number of blocks stay in the range of money, for every period of at most 840000 blocks |
| Supply.ChainInRange | src/amount.h:22-29 | all value of a chain stays within the range of money but for what its fork blocks paid out, which is nothing without fork blocks |
| CacheLayer.MissingAboveIsFresh | src/coins.cpp:281-292 | the assertion of BatchWrite: an entry the receiving cache does not hold is FRESH, and nothing below has it |
| CacheLayer.WriteDown | src/coins.cpp:278-311 | writing a child layer down keeps the view the child showed, and the flags of the receiving layer stay right |
| CacheLayer.NullifiersWriteDown | src/coins.cpp:346-364 | the same for nullifiers |
| CacheLayer.FetchKeeps | src/coins.cpp:91-107 | caching what the view below answered changes no view and keeps the flags right |
| CacheLayer.FinishedView | src/coins.cpp:487-499 | ending a modification shows the cleaned record, also when the entry is dropped |
| CoinsViews.CoinsViewDB.constructor | src/txdb.cpp:111-123 | an empty database shows the empty ledger, no block and the empty root |
| CoinsViews.CoinsViewDB.GetCoins | src/txdb.cpp:103-105 | reads the stored record, found exactly if one is stored |
| CoinsViews.CoinsViewDB.BatchWriteCoins | src/txdb.cpp:59-64 | a pruned record is erased, any other stored |
| CoinsViews.CoinsViewDB.WriteCoins | src/txdb.cpp:133-141 | only DIRTY entries are written, and the database then shows what the layer showed |
| CoinsViews.CoinsViewDB.WriteNullifiers | src/txdb.cpp:152-159 | the same for nullifiers |
| CoinsViews.CoinsViewDB.BatchWrite | src/txdb.cpp:125-168 | coins, nullifiers and the non-null pointers become those of the layer |
| CoinsViews.CoinsViewCache.constructor | src/coins.cpp:77 | a new cache shows what its base shows |
| CoinsViews.CoinsViewCache.GetCoins | src/coins.cpp:207-214 | reading through any number of layers returns the record of the flat view and changes no view |
| CoinsViews.CoinsViewCache.HaveCoins | src/coins.cpp:246-253 | true exactly for transactions with unspent outputs in the flat view |
| CoinsViews.CoinsViewCache.GetNullifier | src/coins.cpp:133-145 | true exactly for nullifiers spent in the flat view |
| CoinsViews.CoinsViewCache.GetBestBlock | src/coins.cpp:255-259 | the pointer of the view, cached on the way |
| CoinsViews.CoinsViewCache.GetBestAnchor | src/coins.cpp:262-266 | the pointer of the view, cached on the way |
| CoinsViews.CoinsViewCache.SetNullifier | src/coins.cpp:201-205 | only that nullifier changes in the view |
| CoinsViews.CoinsViewCache.SetBestBlock | src/coins.cpp:268-270 | only the best block changes in the view; the null hash uncovers that of the base |
| CoinsViews.CoinsViewCache.SetBestAnchor | src/coins.cpp:147-199 | only the best anchor changes in the view |
| CoinsViews.CoinsViewCache.BeginModify | src/coins.cpp:216-235 | hands out the record of the flat view without changing any view |
| CoinsViews.CoinsViewCache.EndModify | src/coins.cpp:487-499 | the view then holds exactly the edited, cleaned-up record for that transaction |
| CoinsViews.CoinsViewCache.WriteCoinsEntry | src/coins.cpp:279-308 | one entry is merged, erased or ignored by its flags and those of the receiving cache |
| CoinsViews.CoinsViewCache.WriteCoins | src/coins.cpp:278-311 | the coin loop, in any order of entries, merges every entry; its assertion holds |
| CoinsViews.CoinsViewCache.WriteNullifiers | src/coins.cpp:346-364 | the nullifier loop merges every dirty entry |
| CoinsViews.CoinsViewCache.BatchWrite | src/coins.cpp:272-369 | the view becomes what the child layer showed |
| CoinsViews.CoinsViewCache.Flush | src/coins.cpp:371-378 | pushing a layer into its base empties it and changes no coin or nullifier shown; the base then shows what the layer showed |
| CoinsViews.RunOp | src/coins.cpp:201-253 | one operation on a cache of any depth answers and changes the view as on the flat ledger |
| CoinsViews.Run | src/coins.cpp:272-378 | any run of operations and flushes on a stack of caches is a run on one flat ledger, answer by answer |
| BlockProcessing.SpendOutput | src/coins.cpp:38-45 | succeeds exactly on an available output and then spends only it |
| BlockProcessing.SpendInView | src/main.cpp:1619-1633 | spends one input on the view as on the flat map and builds its undo entry; the assertion is unreachable |
| BlockProcessing.SpendInputsInView | src/main.cpp:1616-1634 | all inputs of a transaction, as on the flat map |
| BlockProcessing.MarkNullifiers | src/main.cpp:1636-1641 | afterwards every nullifier that a joinsplit lists is marked as asked, and no other has changed |
| BlockProcessing.UpdateCoins | src/main.cpp:1613-1645 | the view and the undo record become those of the flat ledger; every nullifier of every joinsplit is marked and no other |
| BlockProcessing.ApplyTxInUndo | src/main.cpp:1891-1915 | clean exactly when the flat undo succeeds, and then with the same map |
| BlockProcessing.RemoveOutputs | src/main.cpp:1944-1963 | clean exactly when the stored record is the one the transaction creates; the record is removed |
| BlockProcessing.UndoTxInView | src/main.cpp:1937-1988 | one transaction of the undo loop agrees with the flat undo, refusals included |
| BlockProcessing.UndoTxsInView | src/main.cpp:1936-1988 | the undo loop agrees with the flat undo |
| BlockProcessing.DisconnectBlockInView | src/main.cpp:1917-2002 | succeeds exactly when the flat undo is clean, with the same ledger and pointers; the base view is untouched |
| BlockProcessing.HaveInputsInView | src/coins.cpp:439-451 | true exactly if every input is available |
| BlockProcessing.NullifiersUnspent | src/coins.cpp:405-437 | true exactly if no nullifier of any joinsplit is spent |
| BlockProcessing.CheckInputValues | src/main.cpp:1680-1722 | accepts exactly spendable inputs in range and returns their sum |
| BlockProcessing.CheckTxInView | src/main.cpp:1669-1744 | accepts exactly the transactions of the flat rules and returns the fee |
| BlockProcessing.ConnectTxInView | src/main.cpp:2246-2299 | one transaction connects exactly when the flat one does, with the same ledger, undo record and fee |
| BlockProcessing.ConnectTxsInView | src/main.cpp:2246-2299 | the same for the whole transaction loop |
| BlockProcessing.NoOverwriteInView | src/main.cpp:2203-2210 | true exactly if no transaction of the block overwrites an unspent one |
| BlockProcessing.ConnectBlockInView | src/main.cpp:2162-2374 | succeeds exactly when every modelled and external check passes, with the ledger and undo record of the flat function; the base view is untouched |
| ChainState.ConnectKeeps | src/main.cpp:2162-2374 | a connected block leaves records the next block can rely on and an undo record that can be replayed |
| ChainState.UndoExact | src/main.cpp:1917-2002 | the exact result of undoing a connected block, fork range included |
| ChainState.ApplyBlock | src/main.cpp:2636-2649 | connects in a child view and flushes; on failure the tip shows what it showed |
| ChainState.ApplyGenesis | src/main.cpp:2187-2199 | the genesis block only sets the best-block pointer |
| ChainState.UndoBlock | src/main.cpp:2567-2572 | disconnects in a child view and flushes; on failure the tip shows what it showed |
| ChainState.ChainState.ConnectTip | src/main.cpp:2618-2682 | succeeds exactly when all checks pass and then appends the block; on failure nothing shown changes |
| ChainState.ChainState.ConnectGenesis | src/main.cpp:2187-2199 | the chain becomes the genesis block alone |
| ChainState.ChainState.DisconnectTip | src/main.cpp:2556-2606 | succeeds exactly on an undoable tip and then shows the chain without it; otherwise nothing shown changes |
| ChainState.ChainState.FlushStateToDisk | src/main.cpp:2461-2473 | the database catches up with the tip, which shows what it showed |
| ChainState.ChainState.Run | src/main.cpp:2556-2682 | after any run of events the active chain is the one the events lead to, and the tip shows its replay from genesis |
| AddrTables.TerribleExactly | src/addrman.cpp:32-50 | an entry is terrible if and only if it was not tried within a minute and is out of the window of thirty days and ten minutes, or failed three times without success, or ten times and not succeeded for a week |
| AddrTables.SizeIsSum | src/addrman.cpp:402-403 | the vector length is the sum of the two counts |
| AddrTables.SwapKeeps | src/addrman.cpp:99-117 | swapping two places of the random order keeps every index consistent |
| AddrTables.DeleteKeeps | src/addrman.cpp:119-131 | deleting an unreferenced new entry keeps every index consistent |
| AddrTables.UnslotKeeps | src/addrman.cpp:133-146 | the assertion of ClearNew holds: an occupant has a positive reference count; taking it out keeps consistency |
| AddrTables.CreateKeeps | src/addrman.cpp:87-97 | a new entry keeps every index consistent |
| AddrTables.UntryKeeps | src/addrman.cpp:167-176 | taking an entry out of its tried slot keeps consistency |
| AddrTables.TryKeeps | src/addrman.cpp:189-193 | entering an entry into its own empty tried slot keeps consistency |
| AddrMoves.ClearEffect | src/addrman.cpp:133-146 | clearing a slot touches only its occupant, which loses a reference or goes |
| AddrMoves.InsertKeeps | src/addrman.cpp:285-309 | the tail of Add_ keeps the invariant |
| AddrMoves.InsertEffect | src/addrman.cpp:285-309 | the entry survives exactly if it was placed already or may take the slot, which is free or held by an entry not worth keeping or with other slots; at most one other new entry goes; tried is untouched |
| AddrMoves.InsertSpares | src/addrman.cpp:295-309 | no other entry worth keeping is lost, and one with a single slot keeps it |
| AddrMoves.EvictKeeps | src/addrman.cpp:166-188 | moving a tried entry back to new keeps consistency |
| AddrMoves.MakeTriedEffect | src/addrman.cpp:148-194 | the entry becomes tried with its history; just the previous owner of its slot goes back to new; at most one new entry is lost |
| AddrMan.GoodEffect | src/addrman.cpp:196-243 | after Good_ the entry is tried with its success recorded, no attempts counted, and worth keeping for a minute at least and, while recent, for a week; every tried entry of another slot stays tried; at most one new entry is lost |
| AddrMan.GoodTimes | src/addrman.cpp:196-243 | Good_ keeps the time stamps the check asks for if and only if it finds no entry or is given a positive time |
| AddrMan.AddKnownEffect | src/addrman.cpp:254-277 | adding a known address keeps its entry with the merged history, disturbs at most one other new entry and none worth keeping |
| AddrMan.AddNewEffect | src/addrman.cpp:278-309 | an unknown address is stored if and only if its slot is free or held by an entry not worth keeping or with other slots; no entry worth keeping is lost |
| AddrMan.AnnouncedAdvances | src/addrman.cpp:255-262 | an announcement moves the time forward only, by more than an hour or a day, adds services and leaves our experience alone |
| AddrMan.OldNews | src/addrman.cpp:255-266 | an announcement no newer than what is known adds at most services |
| AddrMan.SlotOdds | src/addrman.cpp:264-282 | old news, a tried entry and one with eight slots get no other slot; else one roll in 2^slots gives one |
| AddrMan.ExperienceAdvances | src/addrman.cpp:313-330 | an attempt counts one more and notes its time; a connection moves the time forward only, by more than twenty minutes |
| AddrMan.AddrMan.Find | src/addrman.cpp:74-85 | found exactly if the address has an entry, with its id |
| AddrMan.AddrMan.Create | src/addrman.cpp:87-97 | the new entry is added to every index under the next id |
| AddrMan.AddrMan.SwapRandom | src/addrman.cpp:99-117 | two places are exchanged, with their recorded positions |
| AddrMan.AddrMan.Delete | src/addrman.cpp:119-131 | the entry leaves every index; the last one takes its place |
| AddrMan.AddrMan.ClearNew | src/addrman.cpp:133-146 | the slot is emptied and its occupant dropped with its last slot; the assertions hold |
| AddrMan.AddrMan.WithdrawFromNew | src/addrman.cpp:150-160 | the entry is taken out of every new bucket and its count reaches zero, as asserted |
| AddrMan.AddrMan.EvictTried | src/addrman.cpp:166-188 | the occupant of a tried slot is moved back to the new table |
| AddrMan.AddrMan.EnterTried | src/addrman.cpp:162-194 | the entry takes its tried slot, evicting the occupant |
| AddrMan.AddrMan.MakeTried | src/addrman.cpp:148-194 | the new state is that of the value model; all assertions hold |
| AddrMan.AddrMan.constructor | src/addrman.h:442-460 | an empty manager is consistent |
| AddrMan.AddrMan.FindBucket | src/addrman.cpp:222-237 | some bucket always holds a new entry, so the search from a random start succeeds |
| AddrMan.AddrMan.Good | src/addrman.cpp:196-243 | the new state is that of the value model, and consistent |
| AddrMan.AddrMan.InsertNew | src/addrman.cpp:285-309 | the tail of Add_, as in the value model |
| AddrMan.AddrMan.Factor | src/addrman.cpp:274-277 | 2 to the number of slots |
| AddrMan.AddrMan.Refresh | src/addrman.cpp:254-279 | the merged history, and another slot exactly on news, below the limit and with the right odds |
| AddrMan.AddrMan.Add | src/addrman.cpp:245-311 | the exact new state; a known address keeps its entry, an unknown one is stored exactly if its slot is open |
| AddrMan.AddrMan.Attempt | src/addrman.cpp:313-330 | only the statistics of the matching entry change |
| AddrMan.AddrMan.Connected | src/addrman.cpp:495-513 | only the time of the matching entry changes, and only after twenty minutes |
| AddrMan.AddrMan.GetAddr | src/addrman.cpp:474-493 | distinct entries worth keeping, at most 23 percent and 2500 of them, and all such entries if fewer are found; only the order changes |
| AddrMan.Share | src/addrman.cpp:476-478 | the most that is within 23 percent and 2500 |
| AddrMan.AddrMan.Step | src/addrman.h:491-581 | one public operation keeps the manager consistent, the time stamps in order, and every address and time from moving back |
| AddrMan.AddrMan.Run | src/addrman.h:491-581 | any run of the public operations keeps the manager consistent, and with sensible times also the time stamps; an entry keeps its address and its time never moves back |
| AddrCodec.RenumberedSame | src/addrman.h:281-329 | renumbering the entries keeps the invariant and the visible content |
| AddrCodec.WithinLimits | src/addrman.h:352-358 | a consistent manager never exceeds the limits checked on loading |
| AddrCodec.WriteNumbered | src/addrman.h:295-314 | the order of writing numbers the entries, new ones first |
| AddrCodec.GatheredBack | src/addrman.h:331-417 | reading what was written rebuilds the manager renumbered: no entry and no slot is lost |
| AddrStore.WriteList | src/addrman.h:295-314 | one list of entries in id order; the announced count is never exceeded, as asserted |
| AddrStore.WriteRow | src/addrman.h:315-328 | the indexes of the occupied slots of a bucket |
| AddrStore.Serialize | src/addrman.h:281-329 | writes the encoding of the state |
| AddrStore.LoadNew | src/addrman.h:361-377 | one new entry, with a slot from its source if the bucket data is unusable |
| AddrStore.LoadTried | src/addrman.h:382-398 | one tried entry, lost if its slot is taken |
| AddrStore.LoadRow | src/addrman.h:402-417 | the indexes of one bucket, each ignored unless it fits |
| AddrStore.Prune | src/addrman.h:419-429 | exactly the entries in no slot are deleted |
| AddrStore.Unserialize | src/addrman.h:331-435 | refused exactly on a bad key size, an excessive count or a short stream; else the gathered and pruned state |
| AddrStore.RoundTrip | src/addrman.h:281-435 | loading the saved form of a consistent manager is accepted, prunes nothing, and gives a consistent manager with the same content |
| AddrStore.Reload | src/addrman.h:281-435 | saving a manager and loading it into a fresh one gives the same entries, tables and counts |
| AddrLoad.GatheredHalf | src/addrman.h:361-417 | whatever the stream holds, tables, reference counts and sizes come out consistent, and every address leads to an entry that has it |
| AddrLoad.LoadedExactly | src/addrman.h:331-435 | any accepted stream gives a consistent manager if and only if no entry that stays shares its address with another one that was read |
| AddrLoad.LoadChecked | src/addrman.h:331-435 | the same of the loading method |
| AddrLoad.TwiceListed | src/addrman.h:361-429 | a stream with one entry twice is accepted and gives an inconsistent manager |
| AddrCheck.CheckEntries | src/addrman.cpp:405-429 | on any indexes, zero exactly if every entry has what is asked of it; then the tried ids and the reference counts are collected |
| AddrCheck.CheckTriedTable | src/addrman.cpp:436-448 | zero exactly if every tried entry, and nothing else, sits in the tried table, once and at its own slot |
| AddrCheck.CheckNewTable | src/addrman.cpp:450-461 | zero exactly if every slot of the new table is a proper one of its entry and each entry counts its slots |
| AddrCheck.Check | src/addrman.cpp:397-471 | on any indexes, zero exactly if everything asked for holds and there is a key, and the code for a missing key exactly if only the key is missing |
| AddrCheck.OrderFollows | src/addrman.cpp:402-424 | that all places in the random order are taken by their entries follows from the sizes |
| AddrCheck.CheckExactly | src/addrman.cpp:397-471 | the manager is consistent if and only if the check passes and no address leads to another entry, entry 0 is indexed and ids are below the counter |
| CheckQueue.WorkerTakes | src/checkqueue.h:105-119 | taking a batch keeps the invariant |
| CheckQueue.WorkerWaits | src/checkqueue.h:91-102 | going to sleep on an empty queue keeps the invariant, wake-ups included |
| CheckQueue.WorkerFinishes | src/checkqueue.h:80-85 | the clean-up after a batch keeps the invariant; the last worker notifies the master |
| CheckQueue.WorkerWakes | src/checkqueue.h:102-104 | a wake-up, spurious or not, keeps the invariant |
| CheckQueue.MasterTakes | src/checkqueue.h:105-119 | the same for the master |
| CheckQueue.MasterWaits | src/checkqueue.h:91-102 | the master sleeps only while something is left to do |
| CheckQueue.MasterFinishes | src/checkqueue.h:80-85 | the clean-up of the master |
| CheckQueue.MasterReturns | src/checkqueue.h:92-99 | what Wait returns is the conjunction of all checks added; the queue is ready for the next user |
| CheckQueue.NothingLeft | src/checkqueue.h:92-99 | with nothing to do, no thread holds a check and the recorded outcome is final |
| CheckQueue.MasterAdds | src/checkqueue.h:146-158 | adding checks and notifying keeps the invariant |
| CheckQueue.MasterNeverStuck | src/checkqueue.h:91-104 | while the master sleeps without a wake-up coming, some worker is at work |
| CheckQueue.IdleMeans | src/checkqueue.h:164-168 | the three counters say idle exactly if every thread sleeps, nothing is queued or held and nothing added has failed; so it is with no controller alive |
| CheckQueue.CheckQueue.constructor | src/checkqueue.h:130-131 | a new queue satisfies the invariant |
| CheckQueue.BatchLength | src/checkqueue.h:105-110 | the largest number of checks that all threads could take at once and that fits a batch, but at least one |
| CheckQueue.CheckQueue.TakeBatch | src/checkqueue.h:105-117 | the batch is the share of the queue, at least one and at most a full batch, taken from the back |
| CheckQueue.CheckQueue.Execute | src/checkqueue.h:121-125 | the outcome of the batch, nothing evaluated after a failure |
| CheckQueue.CheckQueue.WorkerProceeds | src/checkqueue.h:91-119 | the rest of a worker section, as the value model tells it |
| CheckQueue.CheckQueue.MasterProceeds | src/checkqueue.h:91-119 | the rest of the master section; a result is the truth about everything added |
| CheckQueue.CheckQueue.WorkerReturns | src/checkqueue.h:76-120 | a worker back from its batch |
| CheckQueue.CheckQueue.Add | src/checkqueue.h:146-158 | the checks join the queue and sleepers are notified |
| CheckQueue.CheckQueue.IsIdle | src/checkqueue.h:164-168 | true exactly if every thread sleeps, nothing is queued or held and nothing added has failed; always true with no controller alive |
| CheckQueue.CheckQueue.Open | src/checkqueue.h:184-191 | the assertion of a new controller holds |
| CheckQueue.CheckQueue.Wait | src/checkqueue.h:140-143 | the first section of Wait |
| CheckQueue.CheckQueue.MasterReturnsFromBatch | src/checkqueue.h:76-120 | the master back from its batch |
| CheckQueue.CheckQueue.MasterWakesUp | src/checkqueue.h:102-119 | the master after a wake-up, spurious or not |
| CheckQueue.CheckQueue.WorkerWakesUp | src/checkqueue.h:102-119 | a worker after a wake-up, spurious or not |
| CheckQueue.CheckQueue.WorkerEnters | src/checkqueue.h:86-119 | a worker thread entering the loop |
| CheckQueue.CheckQueue.Finish | src/checkqueue.h:140-143 | from every reachable state inside Wait, running the threads that can run ends Wait with the right result |
| CheckQueue.CheckQueue.Run | src/checkqueue.h:69-127 | under any schedule every state keeps the invariant and every Wait reports the truth |
| CheckProgress.AfterKeeps | src/checkqueue.h:69-127 | every step of a thread, as a function of the state, keeps the invariant |
| CheckProgress.IdleWakeIsNothing | src/checkqueue.h:101-104 | a wake-up without a reason that finds an empty queue changes nothing |
| CheckProgress.Descends | src/checkqueue.h:76-127 | every other step ends Wait or lowers the measure: checks to do, checks to hand out and wake-ups to deliver |
| CheckProgress.SomeoneMoves | src/checkqueue.h:91-104 | while Wait goes on, some thread has such a step |
| CheckProgress.WaitIsBounded | src/checkqueue.h:140-143 | however the threads are scheduled, Wait is over after as many such steps as the measure says |
| MerkleTree.WidthIff | src/merkleblock.h:65-68 | a node exists exactly if its first leaf does |
| MerkleTree.Split | src/merkleblock.cpp:92-94 | the children of a node split its leaves, and the second exists exactly if it has leaves |
| MerkleTree.SiblingsDiffer | src/merkleblock.cpp:121-125 | siblings of a tree with distinct leaves never hash alike, so the test for equal branches rejects no honest proof |
| MerkleTree.ExtractSound | src/merkleblock.cpp:98-132 | a traversal of arbitrary data that yields the true hash of a node reports only true leaves |
| MerkleTree.ExtractComplete | src/merkleblock.cpp:98-132 | reading an encoded node yields its hash, exactly its selected leaves, and consumes just its bits and hashes |
| MerkleTree.DecodeSound | src/merkleblock.cpp:150-181 | for arbitrary input: a proof that yields the root of a block matches only its transactions, each at its own place and in order |
| MerkleTree.DecodeComplete | src/merkleblock.cpp:150-181 | the encoding of any selection decodes to the root and exactly the selected transactions |
| MerkleTree.NothingLeftOver | src/merkleblock.cpp:150-181 | of all proofs that go on from an accepted one exactly those with no further hash and no further flag byte are accepted, and they prove the same; the limits hold |
| MerkleTree.EncodingSize | src/merkleblock.h:31-49 | at most one hash per transaction, and at most one plus one per match and level |
| MerkleSize.BitsAndHashes | src/merkleblock.cpp:80-96 | the flag bits are twice the hashes less one, plus one for each node with a match below and only one child |
| MerkleSize.FlagBits | src/merkleblock.h:42-48 | the documented bound of twice the hashes less one flag bits holds if and only if no selected leaf lies below a node without a right child; it is exceeded by at most the height |
| MerkleSize.FlagBitsExceed | src/merkleblock.h:42-48 | the smallest proof that breaks the documented bound: the last of three transactions |
| MerkleBytes.SizeGuarantee | src/merkleblock.h:34-50 | within the limit on transactions the size guarantee holds if and only if the flag bytes number less than 253 or the bits for nodes without a right child fit into the last byte |
| MerkleBytes.SizeExceeds | src/merkleblock.h:34-50 | 1012 transactions all selected take 1012 hashes, 2025 flag bits and 32648 bytes, one more than guaranteed |
| MerkleAgree.RootsAgree | src/primitives/block.cpp:55-78 | CalcHash from the top and the levels of BuildMerkleTree give the same root |
| MerkleAgree.HeaderSound | src/merkleblock.cpp:150-181 | a partial tree that yields the root of a header matches only transactions of its block, each at its place |
| PartialMerkle.PackBits | src/merkleblock.h:99-103 | the flag bits in bytes, least significant first, padded with zeros |
| PartialMerkle.UnpackBits | src/merkleblock.h:95-97 | the bits of the bytes |
| PartialMerkle.PartialMerkleTree.constructor | src/merkleblock.cpp:134-146 | the proof built is the encoding of the selection |
| PartialMerkle.PartialMerkleTree.TraverseAndBuild | src/merkleblock.cpp:80-96 | appends exactly the encoding of the node |
| PartialMerkle.PartialMerkleTree.TraverseAndExtract | src/merkleblock.cpp:98-132 | agrees with the decoder function on arbitrary data |
| PartialMerkle.PartialMerkleTree.ExtractMatches | src/merkleblock.cpp:150-181 | agrees with the decoder function, all rejections included |
| PartialMerkle.RoundTrip | src/merkleblock.cpp:134-181 | building, packing, unpacking and extracting returns the root and the selected transactions |
| BlockTree.LowestOneCleared | src/chain.cpp:61-62 | exactly the lowest one bit is taken away |
| BlockTree.SkipHeight | src/chain.cpp:64-73 | strictly below every height above zero |
| BlockTree.AncestorOf | src/chain.cpp:75-98 | the ancestor of an ancestor is an ancestor |
| BlockTree.GetAncestor | src/chain.cpp:75-98 | jumping along skip pointers finds what the walk along parents finds, and nothing out of range |
| BlockTree.GrownOk | src/chain.cpp:105-109 | a new entry whose skip pointer was found by GetAncestor keeps the tree well formed |
| ActiveChain.Chain.SetTip | src/chain.cpp:13-23 | the vector becomes the path to the new tip, although the loop stops at the first slot that is right already |
| ActiveChain.Chain.FindFork | src/chain.cpp:53-59 | the highest block of the chain that is the given block or an ancestor of it |
| ActiveChain.Chain.GetLocator | src/chain.cpp:25-51 | entry i is the ancestor i below the start up to the tenth, entry 10 + k the one 9 + 2^k below, and the last is the root |
| ActiveChain.LocatorFinds | src/chain.cpp:25-51 | for every ancestor of the start some entry is it or an ancestor of it, at most twice as far below the start |
| ActiveChain.LocatorLength | src/chain.cpp:25-51 | both bounds on the number of entries |
| Linking.CountIsTotal | src/main.cpp:4259-4260 | a count is the number of transactions in the chain of a block, all of which have been processed |
| Linking.ArrivedIsCounted | src/main.cpp:3006-3012 | a block whose chain is all stored and has no failure has its count |
| Linking.WaitingMisses | src/main.cpp:4304-4305 | a block in the waiting map is stored and stands on a missing or failed one |
| Linking.CountExactly | src/main.cpp:4249-4252 | without failures and pruning the count is the number of transactions in the chain if all of it has arrived, else zero |
| Linking.UnlinkedExactly | src/main.cpp:3026-3030 | without failures and pruning the waiting map holds exactly the stored blocks above a missing one, each with its parent |
| Linking.CountedIffProcessed | src/main.cpp:4260 | counts signal processed chains in a state if and only if no processed block without a count stands under a counted parent, pruned or on a failure |
| Linking.LinkStep | src/main.cpp:3007-3025 | one round of the work queue keeps counts, waiting map and queue in order, also for blocks that are back after pruning |
| Linking.ArrivedReady | src/main.cpp:3001-3005 | a block whose parent is counted may start the queue |
| Linking.ArrivedEarly | src/main.cpp:3026-3030 | a block whose parent is not counted waits for it, unless the parent failed |
| MostWork.WorseIsOrder | src/main.cpp:133-152 | the comparator is a strict total order |
| MostWork.WorseMeans | src/main.cpp:133-152 | what an entry is worse than has more work, or as much and was counted no later |
| MostWork.MarkedUsable | src/main.cpp:2719-2721 | marking unusable blocks changes the usability of none |
| MostWork.DropPairsExactly | src/main.cpp:2722-2725 | the pairs inserted are exactly the blocks passed, each behind its parent |
| MostWork.Greatest | src/main.cpp:2692-2698 | the greatest candidate under the comparator |
| MostWork.MarkedTrue | src/main.cpp:2711-2731 | only blocks above a failed one are marked |
| Candidates.OffersLink | src/main.cpp:3013-3017 | a block that gets its count joins the candidates just when it is as good as the tip, and then none is missing |
| Candidates.UsableOffered | src/main.cpp:4273-4281 | every counted block without a failed or missing one below that is as good as the tip is a candidate |
| Candidates.BestOfAll | src/main.cpp:2684-2687 | the best usable candidate beats every counted and usable block there is |
| Candidates.CandidatesExactly | src/main.cpp:3015-3017 | without failures and pruning the candidates are exactly the complete chains as good as the tip |
| ChainMoves.PruneOffers | src/main.cpp:3618-3647 | after a block is pruned, every chain that could compete is still a candidate or waits |
| ChainMoves.RemovedOffers | src/main.cpp:2713-2734 | what leaves the candidates is marked now or waits for the missing block |
| ChainMoves.FailedKeeps | src/main.cpp:1605-1609 | marking a block failed and taking it out keeps the invariants |
| ChainMoves.NewTipKeeps | src/main.cpp:2497-2499 | no block of the path to a usable candidate is waited for, and its data is at hand |
| ChainMoves.NewTipOffers | src/main.cpp:2743-2752 | after the tip has moved to the best candidate and the worse ones are gone, none is missing and the set is not empty |
| IndexState.CountsMean | src/main.cpp:4246-4260 | in every state counts are totals over processed chains, a complete chain that has not failed is counted, and an uncounted block has no sequence number |
| IndexState.WaitingMeans | src/main.cpp:4300-4321 | in every state what waits is stored and stands on a missing or failed block; what is stored but uncounted waits, and so does what could compete but is no candidate |
| IndexState.Complete | src/main.cpp:4273-4281 | in every state no counted and usable block as good as the tip is missing from the candidates |
| IndexState.ExactlyArrived | src/main.cpp:2990-3033 | while nothing has failed or been pruned, counts, waiting map and candidates are exactly what the arrivals demand |
| IndexState.BestCandidate | src/main.cpp:2684-2687 | in every state the best usable candidate beats every counted and usable block |
| IndexState.LinkedSound | src/main.cpp:3007-3025 | one round of the work queue keeps all invariants |
| IndexState.StoredSound | src/main.cpp:2990-3030 | an arrival, new or after pruning, keeps all invariants up to the queue |
| IndexState.NewTipSound | src/main.cpp:2743-2752 | moving the tip to the best candidate keeps all invariants |
| IndexState.DrainedCounts | src/main.cpp:3006-3025 | the queue changes nothing but counts and sequence numbers, takes no count away, and counts all it holds |
| IndexState.StaysOnTheWay | src/main.cpp:2788-2809 | at every tip between fork and target the target is a candidate, the old tip is unless it is worse, and no usable block as good as both tips is missing |
| CountSignal.TidySignals | src/main.cpp:4260 | if every processed block without a count waits for an uncounted parent, counts signal processed chains |
| CountSignal.TidyReceived | src/main.cpp:2990-3030 | an arrival keeps a tidy index tidy if and only if the parent is not both uncounted and failed |
| CountSignal.TidyPruned | src/main.cpp:3618-3643 | pruning a block keeps a tidy index tidy if and only if the block is not both stored and uncounted |
| CountSignal.UntidyLoses | src/main.cpp:4260 | from an index that is not tidy some arrivals, each possible and within its guard, end with the assertion broken |
| CountSignal.TidyExactly | src/main.cpp:4260 | the assertion holds now and after all such arrivals if and only if the index is tidy |
| CountSignalFails.PrunedUncounted | src/main.cpp:3618-3643 | a concrete index of 294 entries in which pruning one waiting block and then receiving its parent breaks the assertion |
| CountSignalFails.BehindFailed | src/main.cpp:3026-3030 | a concrete index of four entries in which two arrivals break the assertion, with nothing pruned |
| BlockIndex.BlockIndex.AddToBlockIndex | src/main.cpp:2955-2987 | a known header changes nothing; a new one gets its parent, height, skip pointer and work, and may become the best header |
| BlockIndex.BlockIndex.ReleaseChildren | src/main.cpp:3018-3024 | exactly the children waiting for the block leave the waiting map, in the order they came |
| BlockIndex.BlockIndex.Offer | src/main.cpp:3015-3017 | the block joins the candidates exactly if it is as good as the tip |
| BlockIndex.BlockIndex.LinkFirst | src/main.cpp:3007-3025 | one round of the queue on the fields: count, sequence number, candidate, children |
| BlockIndex.BlockIndex.LinkAll | src/main.cpp:3003-3025 | the work queue runs dry, in the state the value model gives |
| BlockIndex.BlockIndex.ReceivedBlockTransactions | src/main.cpp:2990-3033 | the state becomes that of the value model; for a new block and one back after pruning all invariants hold again, every chain that can be used now and is as good as the tip is a candidate, and a tidy index stays tidy exactly under the guard |
| BlockIndex.BlockIndex.PruneOneBlockFile | src/main.cpp:3618-3647 | exactly the blocks of the file lose their data and wait for nothing; all invariants hold; a tidy index stays tidy exactly if none of them was stored and uncounted |
| BlockIndex.BlockIndex.InvalidBlockFound | src/main.cpp:1605-1609 | the block is marked, is no candidate, and may become the best invalid one |
| BlockIndex.BlockIndex.RemoveChain | src/main.cpp:2717-2731 | exactly the blocks passed are dropped; above a failed block they are marked, above a missing one they wait again |
| BlockIndex.BlockIndex.TryCandidate | src/main.cpp:2700-2738 | usable exactly if no failed or missing block lies below; otherwise the chain down to the first such block is dropped |
| BlockIndex.BlockIndex.FindMostWorkChain | src/main.cpp:2688-2740 | the greatest of all counted usable blocks, so one of most work and among those the earliest counted; null only if no candidate is usable; only unusable ones are dropped, each then marked, without data or waiting, and only blocks above a failure are marked |
| BlockIndex.BlockIndex.PruneBlockIndexCandidates | src/main.cpp:2743-2750 | exactly the candidates worse than the tip go |
| BlockIndex.BlockIndex.ActivateBestChain | src/main.cpp:2758-2811 | cut back to the fork and connected block by block, with the candidates pruned at each tip, the chain becomes the path to the target, which is the candidate left; all invariants hold |
| BlockIndex.BlockIndex.Run | src/main.cpp:4273-4321 | headers, arrivals, prunings, failures and moves of the tip in any order: counts are totals, what waits has to, the candidates are sound and complete, and counts signal processed chains if every event met its guard |
| ArithUint256.Uint256.constructor | src/arith_uint256.h:51-57 | the value of a 64-bit number |
| ArithUint256.Uint256.Copy | src/arith_uint256.h:38-42 | the same value in limbs of its own |
| ArithUint256.Uint256.Add | src/arith_uint256.h:135-145 | exact modulo 2^256, without 64-bit overflow, also for x += x |
| ArithUint256.Uint256.Increment | src/arith_uint256.h:173-180 | exact modulo 2^256 |
| ArithUint256.Uint256.Negated | src/arith_uint256.h:77-84 | the negative modulo 2^256 |
| ArithUint256.Uint256.Subtract | src/arith_uint256.h:147-151 | exact modulo 2^256 |
| ArithUint256.Uint256.MultiplySmall | src/arith_uint256.cpp:56-65 | exact modulo 2^256, without 64-bit overflow |
| ArithUint256.Uint256.MultiplyRow | src/arith_uint256.cpp:72-78 | one row of the schoolbook product, up to a multiple of 2^256 |
| ArithUint256.Uint256.Multiply | src/arith_uint256.cpp:68-81 | exact modulo 2^256 for a factor that is another object; zero if it is the same object |
| ArithUint256.SelfMultiplyExact | src/arith_uint256.cpp:68-81 | what `x *= x` leaves is the square modulo 2^256 if and only if x is a multiple of 2^128 |
| ArithUint256.SquareOfOne | src/arith_uint256.cpp:70-71 | a concrete failure: a number of value one, multiplied by itself in place, is zero, which is not one times one |
| ArithUint256.Uint256.CompareTo | src/arith_uint256.cpp:110-119 | the order of the values |
| ArithUint256.Uint256.Bits | src/arith_uint256.cpp:172-184 | the bit length |
| ArithUint256.Uint256.Set | src/arith_uint256.h:88-95 | the value of a 64-bit number |
| ArithUint256.Uint256.GetLow64 | src/arith_uint256.h:245-249 | the value modulo 2^64 |
| ArithUint256.Uint256.ShiftLeft | src/arith_uint256.cpp:22-36 | multiplication by a power of two modulo 2^256, for any shift |
| ArithUint256.Uint256.ShiftRight | src/arith_uint256.cpp:39-53 | the floor of division by a power of two, for any shift |
| ArithUint256.Uint256.DivideStep | src/arith_uint256.cpp:97-105 | one round keeps quotient times divisor plus remainder |
| ArithUint256.Uint256.Divide | src/arith_uint256.cpp:84-107 | the floor quotient; refused exactly for divisor zero |
| CompactTarget.RoundedClose | src/arith_uint256.cpp:224-245 | rounding down loses at most one part in 2^15 |
| CompactTarget.RoundedMonotone | src/arith_uint256.cpp:224-245 | a larger target is never rounded to a smaller one |
| CompactTarget.RoundedIdempotent | src/arith_uint256.cpp:204-245 | rounding twice is rounding once |
| CompactTarget.PartsRound | src/arith_uint256.cpp:224-245 | the mantissa fits 23 bits, is normalized, and with its size stands for the rounded number |
| CompactTarget.OverflowExact | src/arith_uint256.cpp:217-220 | the overflow test fires exactly when the number does not fit 256 bits |
| CompactTarget.SetCompact | src/arith_uint256.cpp:204-222 | the value modulo 2^256, an exact overflow flag, and the sign of a non-zero word |
| CompactTarget.GetCompact | src/arith_uint256.cpp:224-245 | the word is canonical and stands for the number rounded down; both assertions hold |
| CompactTarget.CanonicalUnique | src/arith_uint256.cpp:204-245 | a number and a sign have one canonical word only |
| CompactTarget.Unpack | src/arith_uint256.cpp:204-245 | unpacking and packing a word gives it back if and only if it is canonical: zero, or a full mantissa without overflow and without bytes that a small size drops |
| CompactTarget.Repack | src/arith_uint256.cpp:204-245 | packing and unpacking rounds down by at most one part in 2^15 and never overflows |
| Digits.MulAdd | src/base58.cpp:45-49 | multiplies a digit vector and adds a digit in place; value and carry together are exact |
| Digits.StripIsDigits | src/base58.cpp:92-95 | without leading zeros a vector is the digits of its value |
| BufferRoom.RoomToEncode | src/base58.cpp:79 | length * 138 / 100 + 1 base-58 digits hold any number of length bytes |
| BufferRoom.RoomToDecode | src/base58.cpp:36 | length * 733 / 1000 + 1 bytes hold any number of length base-58 digits |
| Base58.ConvertBack | src/base58.cpp:24-103 | converting a digit vector to another base and back returns it, leading zeros included |
| Base58.DigitOfChar | src/base58.cpp:22 | every digit has its own character and none is white space |
| Base58.RoundTrip | src/base58.cpp:24-103 | decoding the text of any byte vector, with any white space around it, returns the vector |
| Base58.Reencode | src/base58.cpp:24-103 | every text that decodes is the text of its bytes between white space |
| Base58Codec.Apply | src/base58.cpp:43-50 | the carry assertion holds whenever the number fits the buffer |
| Base58Codec.DigitsOfBytes | src/base58.cpp:78-91 | the buffer holds the number of the bytes; no carry is ever left over |
| Base58Codec.SkipZeros | src/base58.cpp:92-95 | skips exactly the leading zeros |
| Base58Codec.Translate | src/base58.cpp:96-102 | one character per leading zero and per digit |
| Base58Codec.EncodeBase58 | src/base58.cpp:70-103 | the text of the bytes |
| Base58Codec.BytesOfToken | src/base58.cpp:35-52 | the buffer holds the number of the characters up to white space; stops exactly at a character outside the alphabet |
| Base58Codec.DecodeBase58 | src/base58.cpp:24-68 | the bytes of the text, refused exactly on a bad character or white space inside |
| Amounts.DecompressCompressed | src/compressor.cpp:133-185 | decompressing a compressed amount returns it, for every natural number |
| Amounts.CompressDecompressed | src/compressor.cpp:133-185 | compressing a decompressed number returns it: the two are inverse bijections |
| Amounts.CompressedSize | src/compressor.cpp:142-159 | a compressed amount is at most nine times the amount |
| Amounts.CompressAmount | src/compressor.cpp:142-159 | the compressed amount in 64-bit arithmetic, without wrap-around below 2^64 / 9 |
| Amounts.DecompressAmount | src/compressor.cpp:161-185 | the decompressed number in 64-bit arithmetic |
| VarInts.ReadBack | src/serialize.h:346-375 | reading a written number returns it and leaves what follows; a negative number comes back as its low seven bits |
| VarInts.WrittenAs | src/serialize.h:346-375 | every number has one form only |
| VarInts.WriteVarInt | src/serialize.h:346-361 | writes the form of the number; the scratch array is never overrun, for any width |
| VarInts.ReadVarInt | src/serialize.h:363-375 | reads one number, refused at the end of the bytes |
| VarInts.ReadVarIntInto | src/serialize.h:363-375 | reading into an unsigned type of any width gives the number modulo the range of the type, and the number itself if it fits |
| CoinsCodec.SomethingLive | src/coins.h:185 | the assertion of Serialize holds exactly for records that are not pruned |
| CoinsCodec.ReadMaskBack | src/coins.h:220-230 | counting non-zero bytes, the reader finds the end of the mask and every flag |
| CoinsCodec.MaskCodeBack | src/coins.h:186 | the header code gives back the coinbase flag, the first two flags and the number of non-zero mask bytes |
| CoinsCodec.RoundTrip | src/coins.h:179-240 | every record that is not pruned is read back, cleaned up, and what follows it in the stream is left |
| CoinsCodec.RestoredExactly | src/coins.h:179-240 | it comes back unchanged if and only if it is clean, height and version are not negative and no live script exceeds the limit |
| CoinsCodec.NegativeVersionChanges | src/main.cpp:1949-1953 | a record with a negative version is stored and comes back with another version |
| CoinsCodec.FreshRecord | src/coins.h:90-96 | the record a transaction with amounts in range creates is one of these |
| CoinsStore.MakeMaskByte | src/coins.h:192-197 | one byte of the mask, bit by bit |
| CoinsStore.CalcMaskSize | src/coins.cpp:20-36 | the bytes up to the last one in use, and how many are not zero |
| CoinsStore.Serialize | src/coins.h:179-206 | writes the stored form |
| CoinsStore.ReadMaskBytes | src/coins.h:220-230 | reads mask bytes until so many non-zero ones have been seen |
| CoinsStore.ReadAllOuts | src/coins.h:231-236 | one output per flag that is set, null outputs elsewhere |
| CoinsStore.Unserialize | src/coins.h:208-240 | reads a record as the reader function does, refusals included |

## Left out

- BlockProcessing.ConnectBlockInView: scripts, signatures, zero-knowledge proofs, sizes and signature-operation counts are inputs, one boolean per transaction and one per block.
- BlockProcessing.NullifiersUnspent: the part of HaveJoinSplitRequirements about anchors is left out.
- CoinsViews.CoinsViewCache.SetBestAnchor: only the best-anchor pointer is modelled; the commitment trees are one function from a root and commitments to the next root, and the cache of past trees is left out.
- CoinsViews.CoinsViewCache.BatchWrite: the anchor loop is left out.
- CoinsViews.CoinsViewCache.Flush: the anchors of the layer are left out.
- CoinsViews.CoinsViewDB.BatchWrite: the anchor loop is left out.
- BlockProcessing.CheckTxInView: that the anchor of every joinsplit is known is not asked for.
- Block, undo and index files, the mempool, wallets, notifications and the transaction index.
- InvalidateBlock and ReconsiderBlock.
- Amounts, heights, work and counters are unbounded integers except where a width is modelled; overflow of fee totals, of nStep in GetLocator and of nSequenceId is not.
- ChainState.ChainState.FlushStateToDisk: flushes whenever it is called; when it is called is part of a run, and a failing disk is not modelled.
- UndoProofs.DisconnectInvertsConnect: assumes that ids of different transactions of one block differ, which the code takes for granted of its hash.
- BlockIndex.BlockIndex.ReceivedBlockTransactions: BLOCK_FAILED_VALID and BLOCK_FAILED_CHILD are one mark, and marks are never taken back. The order inside the candidate set when a sequence number changes is not modelled; a set of entries stands for it.
- BlockIndex.BlockIndex.ActivateBestChain: goes on to the target; returning early to release the lock, and a block that fails to connect or disconnect midway, are left out.
- BlockIndex.BlockIndex.AddToBlockIndex: the work of a block is positive, as CheckProofOfWork has made sure of its target.
- BlockIndex.BlockIndex.PruneOneBlockFile: which files are pruned is an input; undo data and file positions are left out.
- Values.CheckTxExactly: the serialized size, the length of a coinbase script and the proofs of joinsplits are left out.
- ChainRules.ReplaysExactly: the rules are those modelled; what ConnectBlockInView takes as an input is not among them.
- ChainRules.BlockExactly: as ReplaysExactly; the root of the commitment trees is an arbitrary function.
- ChainSpec.CheckBlock: the header with its Merkle root, sizes and signature-operation counts are left out.
- MerkleRoot.RootBinds: assumes that the hash of two nodes is injective and that no transaction id is the hash of two nodes.
- AddrCheck.Check: the entry that looking up a missing address inserts into the index is left out.
- MostWork.WorseIsOrder: an entry's hash stands for its address, also in the tie-break by pointer.
- Address manager: Select_ and GetChance; bucket hashes are arbitrary functions of the key, random numbers and the clock are arguments, the position nRandomPos is kept in a map beside the entry.
- AddrStore.Unserialize: works on the fields of the stream, not its bytes; counts in the stream are not negative, a stream shorter than announced is refused as a whole, and the 32-bit truncation of times is not modelled.
- CheckQueue.CheckQueue.Run: checks are represented by their outcomes; shutdown through fQuit and thread interruption are left out.
- MerkleTree.DecodeSound: assumes that the hash of two digests is injective; 32-bit overflow of positions cannot occur within the transaction limit and is not modelled.
- The bitwise operators, decrement, hexadecimal and floating-point conversions of 256-bit numbers.
- Base58Codec.DecodeBase58: the text is a C string without its terminator; an embedded null character is not modelled, and neither are the checksummed and address forms.
- CoinsCodec.RoundTrip: a script is one item of the stream; its bytes and short forms are left out.
- CoinsStore.ReadAllOuts: a script is one item of the stream.
- VarInts.ReadVarInt: reads without a limit; the wrap-around of an unsigned type is stated by VarInts.ReadVarIntInto, and overflow of a signed type is left out.
- CoinsStore.Serialize: a script is one item of the stream; the special short forms of scripts are left out. Version, height and header code fit their 32-bit types.
- CoinsStore.Unserialize: 32-bit wrap-around of a version, header code or height read from damaged bytes is not modelled.
- Amounts.CompressAmount: negative amounts other than the null marker are not modelled.

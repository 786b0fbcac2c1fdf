# Verified models of the dcrdata back end

Dafny models of the stateful components of the Decred explorer back end, with proofs of what
they are for. `dafny verify dfyconfig.toml` checks everything. Operations that change state in
place are classes and methods, each proved against a specification function or predicate; the
laws over whole runs are proved on top of those.

**Ticket pool journal and stake database.** `PoolDiffs` is the theory of In/Out diffs: replay,
inversion, well-formedness. `BigEndian`, `DiffCodec` and `DiffStore` are the on-disk form: height
keys, the binary diff, the loader and the rewrite. `TicketPools` is the log with a movable cursor,
its materialised set and its disk copy. `StakeChain` says what the stake node, the diff log and
the live tickets are as functions of the connected chain, and `StakeDB` is the database that
connects and disconnects blocks; `Canonical()` says that all of its state is that function of
its chain. `Recovery` is start-up, rollback and restart; `Reorg` is every run of connects and
disconnects, and `switchToSideChain`; `StakeFaults` shows how a connect takes the wrong tickets. The stake node is an abstract deterministic function of
what was connected (`Rules`); dropping the last input is its inverse.

**API block cache.** `BlockHeap` is the index-tracking bounded priority queue, `TopK` shows that
under `LessByHeight` it keeps exactly the largest heights ever offered, and `ApiCache` keeps the
hash map, the height index and the queue consistent.

**Exchanges.** `DexBook` replicates a sequence-numbered server log into an order map and per-rate
buckets; `ChartCache` is the versioned chart cache under interleaving.

**Chain walking and prefetch.** `ChainWalk` has `CommonAncestor`, `SideChainFull` and
`OrphanedTipLength`; `Prefetch` is the two-slot cache that hands its lock to a goroutine, as a
state machine over its atomic steps together with the client class that carries the steps out.

**Subsidy and mempool.** `Subsidy` is the closed-form subsidy total with its memo table (the
subsidy split changes of DCP0010 and DCP0012); `Mempool` proves the incremental and the batch
inventory equal.

`Types`, `Arith`, `Sums` and `Keys` hold shared helpers.

## What the code does not do

Properties that one would expect and that the code does not have, each with an input on which it
fails and the exact condition under which it holds:

- The size checks of `advance` and `retreat` do not make a diff reversible: `SizeCheckIsNotEnough`
  gives a diff that passes both and does not come back; `BackwardUndoesForwardIff` is the exact
  condition.
- After a failed store the disk is a copy of the log in memory exactly when a stale entry of that
  height already holds the lost diff (`FailedStore`). Otherwise the next append leaves a gap that
  the loader panics on, or, over a stale entry, a store that silently loads a log that was never
  in memory: `FailedThenStored` says exactly which, `StaleEntryMisleads` is one such run, and
  `WriteLoadableIff` says which writes keep a store loadable.
- A failed `ConnectBlock` at or below the tip leaves its block in the block cache, where a later
  connect takes its tickets for the maturing ones (`PollutedConnect` for every database,
  `PollutedCache` at one input). `StakeDatabase.ConnectOld` says exactly when the database stays
  canonical. A refused connect above the tip is always safe, whatever its block (`ConnectRefused`).
- A maturing block that is not cached is looked up by height on the node's main chain, which may
  be another one (`UncachedTakesWrong`); `MaturingRightIff` is the exact condition.
- A disconnect loses live tickets whose values cannot be looked up (`LookupLosesTicket`):
  `DisconnectTip` says exactly when the database stays canonical, and `UndoRestoresIff` when an
  undone diff restores the map.
- The default comparator of the API cache is not transitive, and an order exactly when its bin is
  one nanosecond (`BinnedIsNotTransitive`, `BinnedIsOrderIff`), which a bin in milliseconds never
  is (`DefaultComparatorIsNoOrder`). Heap order is claimed for strict weak orders.
- The height range of the queue does not follow evictions (`RangeGoesStale`); `TightIff` says
  exactly when it is that of the queued heights, and `TightByHeightIff` under `LessByHeight`.
- Booking an order of quantity zero opens an empty bucket, and an update that grows an order loses
  its whole bucket (`BucketsGoWrong`): `BookedOkIff`, `UpdatedOkIff`.
- `UltimateSubsidy` returns a wrong total for some activation heights (`WrongTotal` at one input).
  `AlwaysRightIff` is the exact condition on the heights: for admissible ones the total is right
  on every schedule, and for any others `WrongOtherwise` gives a schedule that obeys the laws and
  on which it is wrong. Activations within an interval of the largest int64 are not considered.
- The prefetch client increments `hits` without the lock after a hit on the next slot, so that hits
  can be lost, even those counted under the lock (`HitCanBeLost`, `LockedHitCanBeLost`);
  `CountsExactIff` says exactly when hits and misses add up.
- The prefetch client sends on a bounded channel while it holds the lock that the receiver needs.
  Twelve misses in a row can deadlock it (`DeadlockReachable`); `ServesIff` says exactly when it
  can still serve a request.
- The batch and the incremental mempool paths differ on treasury spends, treasurybases, votes for
  future blocks or without vote information, and transactions older than the last block
  (`PathsDisagree` on one of them): `PathsAgreeIff`.

`Trim` retreats the cursor to one below the new tip, not to the new tip, and leaves the trimmed
diff on disk; restart recovery copes with the stale entries (`Restart`).

## Model

| member | source | states |
|---|---|---|
| `PoolDiffs.BackwardUndoesForwardIff` | stakedb/ticketpool.go:780-844 | applying a diff in reverse restores the pool iff no incoming ticket was there and every outgoing one was |
| `PoolDiffs.SizeCheckIsNotEnough` | stakedb/ticketpool.go:732-796 | a diff that passes the size checks of advance and retreat and still does not come back |
| `PoolDiffs.ForwardSize` | stakedb/ticketpool.go:732-750 | a well-formed diff changes the pool size by exactly in minus out, so the size check passes |
| `PoolDiffs.AdvanceStep` | stakedb/ticketpool.go:732-750 | one advance over a well-formed log is the replay of one more diff, of the expected size |
| `PoolDiffs.RetreatStep` | stakedb/ticketpool.go:780-796 | one retreat over a well-formed log is the replay of one diff less, of the expected size |
| `PoolDiffs.GoodPrefixIs` | stakedb/ticketpool.go:732-750 | how far a replay of any log gets: the diffs before pass their size checks and the next one does not |
| `PoolDiffs.GoodPrefixAll` | stakedb/ticketpool.go:732-750 | a replay gets through a well-formed log |
| `BigEndian.U64RoundTrip` | stakedb/ticketpool.go:557-561 | a 64-bit integer is recovered from its eight bytes |
| `BigEndian.U64Get` | stakedb/ticketpool.go:557-561 | every eight bytes are the encoding of the integer they decode to |
| `BigEndian.LexIsNumeric` | stakedb/ticketpool.go:396-428 | on keys of one length the store's byte order is the numeric order of heights |
| `BigEndian.LexHeads` | stakedb/ticketpool.go:396-428 | in byte order a smaller key never has a greater head, whatever the lengths |
| `DiffCodec.Encode` | stakedb/ticketpool.go:564-583 | the buffer is the encoding of the diff and has the promised length |
| `DiffCodec.EncodeInjective` | stakedb/ticketpool.go:564-583 | no two diffs share an encoding |
| `DiffCodec.PutHashes` | stakedb/ticketpool.go:564-583 | appends exactly the bytes of the hashes, in order |
| `DiffCodec.ReadHashes` | stakedb/ticketpool.go:456-479 | succeeds iff enough bytes are left, and reads exactly the hashes that those bytes encode |
| `DiffCodec.DecodeBody` | stakedb/ticketpool.go:451-484 | accepts iff nothing is missing or left over, and returns the one diff with that encoding |
| `DiffCodec.Decode` | stakedb/ticketpool.go:429-484 | accepts a byte string iff it is the encoding of some diff, and returns that diff; wrap-around of the length arithmetic included |
| `DiffStore.ReadsUnique` | stakedb/ticketpool.go:396-504 | the contents of a store determine what the loader reads from it |
| `DiffStore.ReadsIsHolds` | stakedb/ticketpool.go:396-504 | with keys of eight bytes, what is read is what is held under the heights |
| `DiffStore.WriteLoadableIff` | stakedb/ticketpool.go:643-658 | a write keeps a store loadable iff it is not past the next height |
| `DiffStore.HoldsWrite` | stakedb/ticketpool.go:586-599 | storing a height up to one past the end overwrites or extends, and nothing else |
| `DiffStore.NextHeight` | stakedb/ticketpool.go:410-492 | in key order the next entry of a store that reads as 1..m is the next height |
| `DiffStore.ReadEntry` | stakedb/ticketpool.go:416-491 | returns a diff iff the first eight bytes of the key are the next height and the value encodes that diff; panics on a shorter key |
| `DiffStore.LoadAll` | stakedb/ticketpool.go:396-504 | for keys of any length the loader succeeds iff the entries read as exactly the heights 1..n, each once, and then returns those diffs in order |
| `DiffStore.RewriteDB` | stakedb/ticketpool.go:603-641 | wherever transactions are split the same contents are stored, the version entry with them; it succeeds iff the drop, the version entry, every write and every commit do |
| `DiffStore.RewriteHolds` | stakedb/ticketpool.go:603-641 | a rewritten store holds exactly the diffs of heights 1..n |
| `TicketPools.WriteKeeps` | stakedb/ticketpool.go:643-658 | storing the next diff keeps the disk a copy of the log, over stale entries or not |
| `TicketPools.CutKeeps` | stakedb/ticketpool.go:532-547 | cutting the last diff off leaves a well-formed log and every replay below the cut |
| `TicketPools.TicketPool.constructor` | stakedb/ticketpool.go:224-325 | a loaded pool starts at cursor 0 with the empty set, persisted |
| `TicketPools.TicketPool.ApplyDiff` | stakedb/ticketpool.go:823-844 | the set gains the incoming and then loses the outgoing tickets |
| `TicketPools.TicketPool.MaxCursor` | stakedb/ticketpool.go:800-805 | an index into the log and the last one, which no advance may pass; 0 for the empty log |
| `TicketPools.TicketPool.StepForward` | stakedb/ticketpool.go:738-749 | one diff applied, the cursor one up, WrongSize iff the size is not the expected one |
| `TicketPools.TicketPool.StepBack` | stakedb/ticketpool.go:785-795 | one diff undone, the cursor one down, WrongSize iff the size is not the expected one |
| `TicketPools.TicketPool.Advance` | stakedb/ticketpool.go:732-750 | error at the tip without a change; else one diff applied, WrongSize iff the size is not the expected one; tracking kept, and the replay kept over ill-formed logs |
| `TicketPools.TicketPool.AdvanceTo` | stakedb/ticketpool.go:755-765 | error beyond the tip; else the cursor reaches the height, or stops just past the first diff that fails its size check |
| `TicketPools.TicketPool.AdvanceToTip` | stakedb/ticketpool.go:770-775 | on success the cursor is at the tip; always succeeds on well-formed logs |
| `TicketPools.TicketPool.Retreat` | stakedb/ticketpool.go:780-796 | error at genesis without a change; else one diff undone, WrongSize iff the size is not the expected one; tracking kept |
| `TicketPools.TicketPool.RetreatTo` | stakedb/ticketpool.go:810-820 | error outside 0..tip; else the cursor comes down to the height, and the pool is the replay |
| `TicketPools.TicketPool.Trim` | stakedb/ticketpool.go:532-547 | the last diff is dropped and returned, the cursor comes down to one below the new tip, the disk keeps its copy |
| `TicketPools.TicketPool.Append` | stakedb/ticketpool.go:643-658 | only the next height is accepted; the log grows and the entry of that height is written; exactly when the disk stays a copy after a failed write |
| `TicketPools.TicketPool.AppendAndAdvancePool` | stakedb/ticketpool.go:662-673 | append and one step of the cursor |
| `TicketPools.TicketPool.Pool` | stakedb/ticketpool.go:707-727 | for every height up to the tip exactly the replay of that many diffs, wherever the cursor was |
| `TicketPools.NewTicketPool` | stakedb/ticketpool.go:224-325 | opens iff the store reads as the heights 1..n, with those diffs and nothing replayed; persisted when the keys are eight bytes long |
| `TicketPools.Perform` | stakedb/ticketpool.go:526-844 | one operation, its store failing or not: the new log and the pool asked for, and the disk copy kept unless the store fails |
| `TicketPools.PerformAll` | stakedb/ticketpool.go:526-844 | over every interleaving, failed stores included, the log and all Pool answers are those of a specification without a cursor; while no store fails the disk holds 1..M with M at least the tip |
| `TicketPools.RunSnoc` | stakedb/ticketpool.go:526-844 | log and answers of a longer run follow those of the run before |
| `TicketPools.TrimAppendRestores` | stakedb/ticketpool.go:526-547 | trimming and appending the returned diff is invisible to every later run |
| `TicketPools.FailedStore` | stakedb/ticketpool.go:643-658 | after a failed store the disk is still a copy of the log iff a stale entry of that height holds the lost diff |
| `TicketPools.FailedThenStored` | stakedb/ticketpool.go:643-658 | after one more successful store: loadable iff there was a stale entry, then what is loaded has it in the place of the lost diff, and is the log iff the two are equal |
| `TicketPools.StaleEntryMisleads` | stakedb/ticketpool.go:532-547 | a run after which a restart loads a log that was never in memory |
| `StakeChain.InputsSnoc` | stakedb/stakedb.go:586-626 | one more block adds one node input and one diff: maturing tickets in, winners and expired out |
| `StakeChain.LogPrefix` | stakedb/stakedb.go:586-626 | the log of a shorter chain is a prefix of the log |
| `StakeChain.CacheStoreIff` | stakedb/stakedb.go:532-575 | caching a block keeps the cache right iff it is above the tip or the chain's own block |
| `StakeChain.CacheGrow` | stakedb/stakedb.go:549-553 | caching and connecting the next block keeps the cache right |
| `StakeChain.CacheShrink` | stakedb/stakedb.go:723-780 | disconnecting keeps the cache right, though blocks above the new tip stay cached |
| `StakeDB.GrownIsLive` | stakedb/stakedb.go:652-675 | with right prices, adding tickets to the map of a pool gives the map of the larger pool |
| `StakeDB.UndoRestoresIff` | stakedb/stakedb.go:652-696 | undoing a well-formed diff restores the exact map iff every ticket that left is looked up with its right value |
| `StakeDB.LookupLosesTicket` | stakedb/stakedb.go:652-696 | a live ticket whose value cannot be looked up is lost by an undo |
| `StakeDB.ParentFetched` | stakedb/stakedb.go:1105-1117 | what an honest node answers for the tip's parent |
| `StakeDB.LiveDropsIff` | stakedb/stakedb.go:691-696 | undoing the last diff in the map of a log gives the map of the shorter log iff its lookups are right |
| `StakeDB.CanonicalDrops` | stakedb/stakedb.go:723-780 | log of a chain one block down, and when its live tickets are those of the shorter chain |
| `StakeDB.MaturingRightIff` | stakedb/stakedb.go:480-549 | the tickets taken are those of the chain's block iff it is cached or the node's block at that height has them |
| `StakeDB.MaturingRight` | stakedb/stakedb.go:532-549 | the maturing tickets come from the block TicketMaturity below on the chain being extended, cached or fetched, whatever chain the node is on while it is cached |
| `StakeDB.ReachesIff` | stakedb/stakedb.go:532-584 | a valid next block gets past the stake node iff the node accepts it with the maturing tickets of the chain |
| `StakeDB.CanonicalGrows` | stakedb/stakedb.go:532-626 | what connecting the next block makes of node, cache, log and live tickets |
| `StakeDB.LastDiff` | stakedb/stakedb.go:586-594 | the diff of one more block: bought tickets in, winners of the node before and expired tickets of the node after out |
| `StakeDB.EffectOfDiff` | stakedb/stakedb.go:586-604 | what such a diff does to the live tickets and to their value |
| `StakeDB.EffectHolds` | stakedb/stakedb.go:532-626 | the step from the state of a chain to that of one more block, in terms of bought, winning and expired tickets |
| `StakeDB.ValueAdds` | stakedb/stakedb.go:652-687 | an empty map is worth nothing and one more ticket adds its value |
| `StakeDB.ValueMoves` | stakedb/stakedb.go:652-687 | a well-formed diff moves the value of the pool by what came in less what went out |
| `StakeDB.StakeDatabase.AddTickets` | stakedb/stakedb.go:652-675 | known tickets and tickets without a price are skipped; the pool value moves with the sum of the map |
| `StakeDB.StakeDatabase.RemoveTickets` | stakedb/stakedb.go:676-687 | the tickets leave the map; the pool value moves with the sum of the map |
| `StakeDB.StakeDatabase.ApplyDiff` | stakedb/stakedb.go:652-687 | known and unpriced tickets are skipped; the pool value moves by what the sum of the map moves, whatever the diff |
| `StakeDB.StakeDatabase.UndoDiff` | stakedb/stakedb.go:691-696 | the same for the reversed diff, all prices looked up |
| `StakeDB.StakeDatabase.ApplyAndUndo` | stakedb/stakedb.go:652-696 | applying and undoing a well-formed diff restores the prior map iff the lookups are right, and then the prior pool value |
| `StakeDB.StakeDatabase.UndoAll` | stakedb/stakedb.go:745-750 | all dropped diffs are undone, newest first |
| `StakeDB.StakeDatabase.TrimTo` | stakedb/stakedb.go:733-743 | the ticket pool is cut to the height and the dropped diffs are collected |
| `StakeDB.StakeDatabase.PrevBlock` | stakedb/stakedb.go:1105-1117 | the parent of the tip, iff both can be fetched |
| `StakeDB.StakeDatabase.DropTip` | stakedb/stakedb.go:723-780 | whole new state of pool, node, chain and recorded tip: nothing changes without a fitting parent, and a failing stake node or store leaves what was done before it |
| `StakeDB.StakeDatabase.DisconnectBlock` | stakedb/stakedb.go:715-780 | the same with the dropped diffs undone in the live tickets, also when the stake node or store fails afterwards |
| `StakeDB.StakeDatabase.DropCanonical` | stakedb/stakedb.go:715-780 | the state after a disconnect of a canonical database, whatever the lookups |
| `StakeDB.StakeDatabase.DisconnectTip` | stakedb/stakedb.go:715-780 | disconnects iff the parent can be fetched; the result is the canonical database of the shorter chain iff the tickets that left with the dropped diff are looked up right |
| `StakeDB.StakeDatabase.DisconnectMore` | stakedb/stakedb.go:783-794 | one turn of the loop, on what is left of the chain |
| `StakeDB.StakeDatabase.DisconnectBlocks` | stakedb/stakedb.go:783-794 | exactly count blocks on success, a prefix of the chain in any case, canonical throughout |
| `StakeDB.StakeDatabase.TakeMaturing` | stakedb/stakedb.go:496-549 | maturing tickets from the cache or the node; the cached block is forgotten |
| `StakeDB.StakeDatabase.ConnectBlock` | stakedb/stakedb.go:532-649 | for any block and any answers of the stores: whole new state, and when only the cache changes |
| `StakeDB.StakeDatabase.Take` | stakedb/stakedb.go:579-649 | an accepted block moves node, stake store, live tickets and log in this order, up to the first failing store; the diff has the maturing tickets in, and the winners before and the expired after out |
| `StakeDB.StakeDatabase.ConnectBlockHash` | stakedb/stakedb.go:518-526 | for any hash: an error without a change if the block cannot be fetched, else ConnectBlock of it |
| `StakeDB.StakeDatabase.ConnectOld` | stakedb/stakedb.go:532-577 | a connect at or below the tip is refused unless it is of the tip, and leaves the database canonical iff its block is the chain's own |
| `StakeDB.StakeDatabase.ConnectNext` | stakedb/stakedb.go:532-649 | any block above the tip: the canonical database of the longer chain if it gets past the stake node, which asks it to be a valid next block only then, and otherwise nothing changes but cached blocks above the tip |
| `StakeDB.StakeDatabase.ConnectRefused` | stakedb/stakedb.go:532-584 | a refused block above the tip, whatever its parent, leaves the database canonical and only caches the block |
| `StakeDB.StakeDatabase.ConnectAccepted` | stakedb/stakedb.go:532-649 | an accepted valid next block gives the canonical database of the longer chain: tickets bought TicketMaturity blocks below come in, winners and expired tickets go out of log and live tickets, and the pool value moves by what they are worth |
| `StakeDB.StakeDatabase.ConnectCanonical` | stakedb/stakedb.go:532-649 | the same in terms of the canonical state |
| `Recovery.Rewind` | stakedb/stakedb.go:392-407 | the two heights stay equal and it stops at the target; the live tickets are undone to it unless the cache is neglected |
| `Recovery.RewindOne` | stakedb/stakedb.go:394-406 | one disconnect and the comparison of the heights |
| `Recovery.Equalize` | stakedb/stakedb.go:187-215 | both stores end at the lower of the two heights, each a prefix of itself |
| `Recovery.TrimDown` | stakedb/stakedb.go:202-209 | the pool is trimmed to the height of the stake store |
| `Recovery.RollDown` | stakedb/stakedb.go:217-232 | both stores go down together to the requested height |
| `Recovery.RollBack` | stakedb/stakedb.go:175-232 | terminates with both heights equal, at most the requested height and each starting height, and equal to one of them (or to 0) |
| `Recovery.PopulateLiveTicketCache` | stakedb/stakedb.go:343-387 | the map holds every live ticket whose value is found, and the pool value is its sum even when lookups fail |
| `Recovery.Recover` | stakedb/stakedb.go:139-247 | after recovery stake height equals pool tip, the common height with the pool replayed to the tip, or just below the first diff that fails its size check |
| `Recovery.ReplayOrRewind` | stakedb/stakedb.go:235-244 | the replay gets to the tip, or both stores are rewound to just below the diff it stops at |
| `Recovery.BringUp` | stakedb/stakedb.go:294-331 | start-up cuts, replays and populates; the exact state when the stake height is not above the diff store |
| `Recovery.NewStakeDatabase` | stakedb/stakedb.go:254-333 | the same from the raw contents of both stores |
| `Recovery.FoundIsLive` | stakedb/stakedb.go:343-387 | the populated map is the live ticket map of the chain |
| `Recovery.Restart` | stakedb/stakedb.go:254-333 | from what a canonical database has on disk, stale entries included, start-up reproduces it |
| `Recovery.FreshStart` | stakedb/stakedb.go:254-333 | start-up on empty stores gives the canonical database of the empty chain |
| `Reorg.Perform` | stakedb/stakedb.go:532-794 | one connect of any block or one disconnect keeps the database canonical and persisted, and changes chain and block cache as stated |
| `Reorg.PerformConnect` | stakedb/stakedb.go:532-649 | a connect above, at or below the tip, refused, redundant or accepted |
| `Reorg.PerformAll` | stakedb/stakedb.go:532-794 | over every run, with refused connects of any block above the tip and the node on any chain while the maturing block is cached, the live ticket keys are the replay of the log, the pool value is their sum, blocks cached up to the tip are the chain's, and the maturing blocks were those of the chain |
| `Reorg.RunSnoc` | stakedb/stakedb.go:532-794 | chain and cache of a longer run follow those of the run before |
| `Reorg.SameChainSameState` | stakedb/chainmonitor.go:93-173 | two canonical databases on one chain have the same node, log, live tickets and pool value |
| `Reorg.TargetStep` | stakedb/chainmonitor.go:142-164 | the next block of a served chain can be connected onto the ones below it |
| `Reorg.ConnectServed` | stakedb/stakedb.go:518-526 | for the next block of a served chain: connects iff the block can be fetched and the stake node accepts it |
| `Reorg.ConnectAt` | stakedb/chainmonitor.go:119-164 | one turn of either connecting loop |
| `Reorg.CatchUp` | stakedb/chainmonitor.go:109-127 | main chain blocks are connected up to the ancestor |
| `Reorg.ConnectAll` | stakedb/chainmonitor.go:142-164 | the new chain is connected onto the ancestor |
| `Reorg.ConnectNew` | stakedb/chainmonitor.go:142-164 | the second half of the switch ends at the new chain |
| `Reorg.ToAncestor` | stakedb/chainmonitor.go:109-134 | the database comes to the common ancestor from above or below |
| `Reorg.SwitchToSideChain` | stakedb/chainmonitor.go:93-173 | success leaves exactly the database of common chain plus new chain, whether the tip was above, at or below the ancestor; failure leaves a canonical prefix |
| `Reorg.BuildFromScratch` | stakedb/stakedb.go:532-649 | a database started on empty stores connects a whole served chain |
| `Reorg.FromScratch` | stakedb/chainmonitor.go:93-173 | after a reorganization node, tip, diff log, live tickets and pool value equal those of a database built from scratch on the same chain |
| `StakeFaults.PollutedConnect` | stakedb/stakedb.go:532-577 | a failed connect of a foreign block at the maturing height makes the next connect take its tickets |
| `StakeFaults.PollutedCache` | stakedb/stakedb.go:532-577 | a failed connect of another chain's block at the height of the tip, after which a ticket is live that was never bought on the chain |
| `StakeFaults.UncachedTakesWrong` | stakedb/stakedb.go:480-549 | connect, disconnect and connect again after the node has moved to another chain: the same wrong ticket without a failed connect |
| `StakeFaults.ServedTakesRight` | stakedb/stakedb.go:480-549 | the same run without the move, from a new database, is right |
| `BlockHeap.LessByHeightIsStrictWeak` | api/types/apicache.go:531-533 | LessByHeight is a strict weak order |
| `BlockHeap.BinnedIsNotTransitive` | api/types/apicache.go:561-572 | three blocks on which the binned comparator is not transitive |
| `BlockHeap.BinnedIsOrderIff` | api/types/apicache.go:561-572 | the binned comparator is a strict weak order iff the bin is one nanosecond |
| `BlockHeap.DefaultComparatorIsNoOrder` | api/types/apicache.go:561-572 | with a bin in milliseconds it never is |
| `BlockHeap.SwapKeeps` | api/types/apicache.go:511-515 | a swap rearranges the queued blocks |
| `BlockHeap.UpStep` | api/types/apicache.go:575-589 | one sift-up step moves the one place where order may fail to the parent |
| `BlockHeap.DownStep` | api/types/apicache.go:629-635 | one sift-down step moves the place where order may fail to the smaller child, with heap order known from any index on |
| `BlockHeap.DownTurn` | api/types/apicache.go:629-635 | one turn of sift-down is done, or one level down |
| `BlockHeap.RootIsLeast` | api/types/apicache.go:644-680 | nothing in a heap has lower priority than the block that Insert compares with |
| `BlockHeap.FixCases` | api/types/apicache.go:724-745 | an order that fails only around one index fails only below it or only above it |
| `BlockHeap.BlockPriorityQueue.Up` | api/types/apicache.go:575-589 | restores heap order, keeps heap indexes and contents |
| `BlockHeap.BlockPriorityQueue.Down` | api/types/apicache.go:629-635 | restores heap order from an index on, keeps heap indexes and contents |
| `BlockHeap.BlockPriorityQueue.Fix` | api/types/apicache.go:724-745 | repairs a heap in which one block was replaced, at any index |
| `BlockHeap.BlockPriorityQueue.Reheap` | api/types/apicache.go:629-635 | any arrangement of the queue becomes a heap of the same blocks, indexes and range kept |
| `BlockHeap.BlockPriorityQueue.UpdateMinMax` | api/types/apicache.go:839-846 | the height range grows by exactly the height |
| `BlockHeap.BlockPriorityQueue.RescanMinMax` | api/types/apicache.go:831-835 | the least widening of the range that brackets every queued height |
| `BlockHeap.BlockPriorityQueue.RescanMinMaxForUpdate` | api/types/apicache.go:793-802 | the range grows by exactly the added height, whatever was removed |
| `BlockHeap.BlockPriorityQueue.Push` | api/types/apicache.go:575-589 | one more block, heap order, indexes and range kept |
| `BlockHeap.BlockPriorityQueue.ReplaceTop` | api/types/apicache.go:724-745 | the top's data is replaced, heap order, indexes and range kept |
| `BlockHeap.BlockPriorityQueue.Insert` | api/types/apicache.go:644-694 | when a block is admitted or the call panics, what is removed, what is queued afterwards, and when the height range is that of the queue |
| `BlockHeap.TightIff` | api/types/apicache.go:776-846 | after an admitted block the range is tight iff each end is reached by the new height or by a block that stays |
| `BlockHeap.TightByHeightIff` | api/types/apicache.go:776-846 | under LessByHeight, iff another block is as low as the evicted one |
| `BlockHeap.RangeGoesStale` | api/types/apicache.go:776-846 | a queue of one block of height 7 whose range is 5 to 7 |
| `TopK.TopInsert` | api/types/apicache.go:644-694 | one Insert keeps the capacity largest of all heights offered |
| `TopK.InsertOne` | api/types/apicache.go:644-694 | the same for the method, with heap order kept |
| `TopK.ReheapOne` | api/types/apicache.go:39-50 | a Reheap of the watcher leaves the heights kept alone |
| `TopK.InsertAll` | api/types/apicache.go:644-694 | after any run of Insert, refused ones included, and Reheap the queue holds exactly the capacity largest heights ever offered, as a multiset |
| `ApiCache.CacheSize` | api/types/apicache.go:117-163 | as many blocks are cached as are queued, under the same hashes |
| `ApiCache.PushedMatches` | api/types/apicache.go:117-163 | map and queue still match after a push |
| `ApiCache.ReplacedMatches` | api/types/apicache.go:117-163 | map and queue still match after an eviction |
| `ApiCache.APICache.constructor` | api/types/apicache.go:66-77 | an empty, consistent, disabled cache |
| `ApiCache.APICache.StoreNew` | api/types/apicache.go:137-163 | whole new map and height index, also when evicted and new block share a height |
| `ApiCache.APICache.StoreBlockSummary` | api/types/apicache.go:117-163 | consistency and capacity kept; a cached block gets its summary if it has none; a new one is cached iff admitted, with this summary, indexed under its height |
| `ApiCache.APICache.StoreStakeInfo` | api/types/apicache.go:176-221 | the same for stake info |
| `ApiCache.APICache.ReheapQueue` | api/types/apicache.go:39-50 | a Reheap of the watcher keeps map and queue matching |
| `ApiCache.APICache.GetCachedBlockByHash` | api/types/apicache.go:376-404 | hits iff cached, with summary, stake info, height and hash as stored; only accesses and access time of that block change; one hit or one miss is counted |
| `ApiCache.APICache.GetCachedBlockByHeight` | api/types/apicache.go:336-344 | an indexed height always hits, with a block of that height and its parts as stored |
| `ApiCache.Perform` | api/types/apicache.go:117-404 | every store and lookup keeps map, index and queue consistent and the parts of cached blocks, and lookups return what is cached |
| `ApiCache.KeepsParts` | api/types/apicache.go:117-404 | over any run, while a block stays cached a stored summary or stake info is the one later lookups return |
| `ApiCache.PerformAll` | api/types/apicache.go:117-404 | over any run of stores, lookups and Reheaps the cached hashes are the queued ones, at most capacity, and indexed heights name cached blocks of that height |
| `DexBook.BookedOkIff` | exchanges/exchanges.go:5553-5561 | booking keeps buckets right iff the quantity is positive or the bucket exists |
| `DexBook.UnbookedOk` | exchanges/exchanges.go:5565-5587 | after an unbook the buckets are the per-rate totals |
| `DexBook.UpdatedOk` | exchanges/exchanges.go:5591-5615 | after a partial fill the buckets are the per-rate totals |
| `DexBook.UpdatedOkIff` | exchanges/exchanges.go:5591-5615 | an update keeps buckets right iff the order does not grow, because the unsigned difference wraps |
| `DexBook.UpdateMovesTotal` | exchanges/exchanges.go:5591-5615 | an update moves the total of its own rate by exactly the difference and no other |
| `DexBook.BucketsGoWrong` | exchanges/exchanges.go:5553-5615 | an empty bucket after booking nothing, and a lost one after growing an order by an atom |
| `DexBook.DecredDEX.CheckSeq` | exchanges/exchanges.go:5490-5497 | accepts only the next number, otherwise marks failure and keeps the number |
| `DexBook.DecredDEX.AddToSide` | exchanges/exchanges.go:5519-5561 | the order enters the book and its bucket |
| `DexBook.DecredDEX.Unbook` | exchanges/exchanges.go:5565-5587 | the order leaves the book; buckets stay right; unknown orders mark failure |
| `DexBook.DecredDEX.Update` | exchanges/exchanges.go:5591-5615 | the remaining quantity changes; buckets stay right iff the order does not grow; unknown orders mark failure |
| `DexBook.DecredDEX.HandleNote` | exchanges/exchanges.go:5304-5349 | out of sequence notes change nothing but the failure mark; in sequence a booked order is there, an unbooked one gone, an updated one has what remains and moves the total of its rate by the difference, every other order is unchanged |
| `DexBook.DecredDEX.SetOrderBook` | exchanges/exchanges.go:5516-5549 | a snapshot replaces book, buckets and sequence number; a missing order marks failure |
| `DexBook.BookOfHas` | exchanges/exchanges.go:5516-5549 | the book of a snapshot has every order of it and no other |
| `DexBook.DeliverOne` | exchanges/exchanges.go:5304-5349 | one delivery keeps the replica, and moves on exactly when the note comes in turn |
| `DexBook.Deliver` | exchanges/exchanges.go:5304-5615 | under any loss, repetition or reordering the local book is the server's after exactly seq notes, and every bucket is its rate's positive total |
| `DexBook.ReachedInOrder` | exchanges/exchanges.go:5490-5497 | notes that come in order are all taken |
| `DexBook.Converge` | exchanges/exchanges.go:5304-5615 | after all notes in order, whatever comes late or twice, the local book is the server's book of today |
| `DexBook.Subscribe` | exchanges/exchanges.go:5516-5549 | a snapshot starts a replica whatever the book was before |
| `DexBook.SortedKeys` | exchanges/exchanges.go:1074-1092 | every bucket key once, strictly ascending |
| `DexBook.ReadPoints` | exchanges/exchanges.go:1093-1108 | one point for each key, in order |
| `DexBook.DepthMatches` | exchanges/exchanges.go:1084-1114 | points are the positive totals, and no rate with something left is missing |
| `DexBook.DepthSnapshot` | exchanges/exchanges.go:1084-1114 | asks strictly ascending, bids strictly descending, one point for each rate with something left |
| `DexBook.KeyOrderIsPriceOrder` | exchanges/exchanges.go:5553-5561 | below 2^63 the order of int64 keys is the order of rates, and keys never collide |
| `ChartCache.CacheIDInjective` | exchanges/bot.go:433-435 | the id of a token and bin without dashes is nobody else's |
| `ChartCache.BumpedUp` | exchanges/bot.go:1087-1102 | no version goes down and every incremented one goes up |
| `ChartCache.ExchangeBot.IncrementChart` | exchanges/bot.go:1087-1094 | a new chart gets version 0, a known one the next version |
| `ChartCache.ExchangeBot.BumpBins` | exchanges/bot.go:1218-1222 | one increment for each bin |
| `ChartCache.ExchangeBot.BumpDepth` | exchanges/bot.go:1223-1227 | one increment for each of the three depth charts |
| `ChartCache.ExchangeBot.BumpAll` | exchanges/bot.go:1218-1227 | one increment for each bin and for the depth charts |
| `ChartCache.ExchangeBot.DropExpired` | exchanges/bot.go:1143-1172 | expired states go, and no cached chart with a current version becomes stale |
| `ChartCache.ExchangeBot.StoreUpdate` | exchanges/bot.go:1215-1242 | state, versions and latest candlesticks move together, and no cached chart with a current version is stale |
| `ChartCache.ExchangeBot.UpdateExchange` | exchanges/bot.go:1215-1310 | the same with new versions for the depth charts and the expired DCR states deleted after a DCR update |
| `ChartCache.ExchangeBot.FetchFromCache` | exchanges/bot.go:1507-1517 | a hit is the most recently received candlesticks of that token and bin |
| `ChartCache.ExchangeBot.EncodeAndStore` | exchanges/bot.go:1581-1618 | encodes the current sticks under the version read earlier, and the cache stays sound |
| `ChartCache.Perform` | exchanges/bot.go:1571-1619 | one critical section of any thread keeps the invariant and answers freshly; it answers iff the version is current, or the sticks are there and encode |
| `ChartCache.MissThenHit` | exchanges/bot.go:1571-1619 | a miss is encoded and the next request hits with the same candlesticks |
| `ChartCache.Run` | exchanges/bot.go:1571-1619 | in every interleaving with updates every answer is the latest candlesticks at its moment |
| `ChainWalk.WalkHeight` | rpcutils/rpcclient.go:374-443 | k steps down are k heights down, and below genesis there is nothing |
| `ChainWalk.CommonHeights` | rpcutils/rpcclient.go:374-443 | a common ancestor is at one height from both tips |
| `ChainWalk.StepA` | rpcutils/rpcclient.go:400-409 | lowering the higher pointer passes no common proper ancestor |
| `ChainWalk.StepB` | rpcutils/rpcclient.go:410-415 | the same for the other pointer |
| `ChainWalk.StepBoth` | rpcutils/rpcclient.go:416-442 | from one height both pointers meet, pass genesis with nothing in common, or go on |
| `ChainWalk.CommonAncestor` | rpcutils/rpcclient.go:374-443 | the highest common proper ancestor and both exact paths; genesis error, with both whole chains, only when there is none; length error only when it is too far and a chain is that long; fetch error only for a block that cannot be fetched; terminates |
| `ChainWalk.ChainsDisjoint` | rpcutils/rpcclient.go:374-443 | the two chains share no block unless one tip lies on the other's chain |
| `ChainWalk.ReverseSlice` | rpcutils/rpcclient.go:357-363 | the array is reversed in place |
| `ChainWalk.TrailIsReversedDescent` | rpcutils/rpcclient.go:323-363 | the reversed walk is the path, lowest block first |
| `ChainWalk.SideChainFull` | rpcutils/rpcclient.go:323-355 | exactly the blocks above the main chain up to the tip; NotSideChain iff the tip is main chain; an error only for a block below which cannot be fetched |
| `ChainWalk.OrphanedTipLength` | rpcutils/rpcclient.go:457-495 | the distance to the highest height where database and node agree, found iff there is one; 0 iff cancelled before |
| `Subsidy.FirstInterval` | txhelpers/subsidy.go:102-115 | block one and the two pieces of interval 0 are its block-by-block sum |
| `Subsidy.ChangeInterval` | txhelpers/subsidy.go:117-132 | the two pieces of an interval with a change are its block-by-block sum |
| `Subsidy.ChangeSubsidy` | txhelpers/subsidy.go:117-132 | adds exactly the blocks of an interval with a change |
| `Subsidy.PlainInterval` | txhelpers/subsidy.go:134-147 | one product is the block-by-block sum of a plain interval |
| `Subsidy.IntervalSubsidy` | txhelpers/subsidy.go:117-147 | ends iff the interval has no change and no subsidy, else adds exactly its blocks |
| `Subsidy.Compute` | txhelpers/subsidy.go:96-152 | terminates with the sum over all heights |
| `Subsidy.SubsidyTotals.UltimateSubsidy` | txhelpers/subsidy.go:28-154 | memoised or computed, the total is the block-by-block sum, and memoised totals never change |
| `Subsidy.SameTotal` | txhelpers/subsidy.go:28-39 | the total does not depend on which end height is known |
| `Subsidy.AgreeWhenAdmissible` | txhelpers/subsidy.go:70-142 | for admissible activations every block is counted under the variant in force |
| `Subsidy.MissOtherwise` | txhelpers/subsidy.go:70-142 | for all others some interval is never counted under a variant in force in it |
| `Subsidy.TotalIsActiveSum` | txhelpers/subsidy.go:49-154 | for admissible activations the total is the sum of the subsidy in force at every height |
| `Subsidy.WrongOtherwise` | txhelpers/subsidy.go:49-154 | for activations that are not admissible there is a schedule obeying the laws on which the total is too small |
| `Subsidy.AlwaysRightIff` | txhelpers/subsidy.go:49-154 | the total is right on every schedule with the interval iff the activations are admissible |
| `Subsidy.WrongTotal` | txhelpers/subsidy.go:49-154 | one input on which the result is 5 and should be 6 |
| `Prefetch.RequestKeeps` | rpcutils/prefetcher.go:108-153 | a request keeps the invariant: its block is returned iff a slot held it or the node had it, consistent slots, one release to come or done |
| `Prefetch.UnlockKeeps` | rpcutils/prefetcher.go:119-124 | the deferred unlock releases the lock, once |
| `Prefetch.RetargetKeeps` | rpcutils/prefetcher.go:111-114 | the goroutine releases its request's lock, once |
| `Prefetch.FetcherKeeps` | rpcutils/prefetcher.go:220-248 | the fetcher keeps the slots hash-consistent and distinct |
| `Prefetch.StepKeeps` | rpcutils/prefetcher.go:108-302 | every step of every interleaving keeps the invariant, both increments of hits read and written separately |
| `Prefetch.Transparent` | rpcutils/prefetcher.go:108-302 | over every interleaving each nonzero hash is answered with its block iff a slot held it or the node had it, and each lock is released once; hits and misses never exceed requests |
| `Prefetch.CountsAreExact` | rpcutils/prefetcher.go:119-138 | hits plus misses equal requests when hits are counted before their lock is released |
| `Prefetch.CountsExactIff` | rpcutils/prefetcher.go:127-138 | they add up iff nothing is counted between the read and the write of another count; once lost, always lost |
| `Prefetch.HitCanBeLost` | rpcutils/prefetcher.go:127-135 | a run with two hits of which one is lost |
| `Prefetch.LockedHitCanBeLost` | rpcutils/prefetcher.go:117-135 | the same where the torn increment is under the lock |
| `Prefetch.DeadlockStays` | rpcutils/prefetcher.go:220-302 | when the holder of the lock waits to send and the fetcher waits for the lock, nothing but counting is left to do |
| `Prefetch.ServesIff` | rpcutils/prefetcher.go:108-302 | another request, for any block, can be answered with that block iff the client is not deadlocked |
| `Prefetch.FromStart` | rpcutils/prefetcher.go:64-302 | over every run from a new client: right answers, when the counts add up, and when it can still serve |
| `Prefetch.DeadlockReachable` | rpcutils/prefetcher.go:108-302 | twelve misses deadlock the client when the fetcher does not get the lock |
| `Prefetch.BlockPrefetchClient.GetBlockData` | rpcutils/prefetcher.go:108-153 | the client's new state is that of the request step; a nonzero hash is answered iff a slot holds it or the node has it |
| `Prefetch.BlockPrefetchClient.Ask` | rpcutils/prefetcher.go:108-153 | a nonzero hash is answered with its block and header iff a slot holds it or the node has it, and with an error otherwise |
| `Prefetch.BlockPrefetchClient.RetargetTo` | rpcutils/prefetcher.go:282-302 | sends the hash iff it is nonempty and in neither slot |
| `Prefetch.BlockPrefetchClient.UnlockOnReturn` | rpcutils/prefetcher.go:119-124 | gives the lock back after a counted hit on the current slot |
| `Prefetch.BlockPrefetchClient.RetargetAndUnlock` | rpcutils/prefetcher.go:111-114 | retargets and gives the lock back |
| `Prefetch.BlockPrefetchClient.StoreNext` | rpcutils/prefetcher.go:193-201 | next becomes current and the block becomes next |
| `Prefetch.BlockPrefetchClient.RetrieveAndStoreNext` | rpcutils/prefetcher.go:220-240 | a fetched block that neither slot holds becomes next and next becomes current, else the slots stay |
| `Prefetch.BlockPrefetchClient.Do` | rpcutils/prefetcher.go:108-302 | every step of the client is the step of the state machine and keeps its invariant |
| `Prefetch.BlockPrefetchClient.CountOrReceive` | rpcutils/prefetcher.go:117-248 | counting a hit in two halves and receiving a hash, as the state machine does |
| `Prefetch.BlockPrefetchClient.DoAll` | rpcutils/prefetcher.go:108-302 | after any interleaving the client is in the state of the state machine and all answers are right |
| `Mempool.ParseOne` | mempool/collector.go:371-462 | one turn of the batch loop is the batch step, which leaves known transactions alone |
| `Mempool.ParseTxns` | mempool/collector.go:321-465 | the inventory is the fold of the batch step, and describes any distinct transactions without a trace of their order |
| `Mempool.BatchDescribes` | mempool/collector.go:371-462 | for distinct transactions of any kind and age, sets, counts, totals, tally and likely count of a batch are theirs |
| `Mempool.PathsAgreeIff` | mempool/monitor.go:143-357 | batch and incremental step agree on a new transaction iff it is of a supported kind, decodable, not for a future block and not older than the last block |
| `Mempool.PathsDisagree` | mempool/monitor.go:318-322 | a treasury spend on which the two paths differ |
| `Mempool.StepDescribes` | mempool/monitor.go:143-357 | the batch path, given one more transaction, describes one more, each ticket's vote tallied once; the incremental one does the same iff it treats the transaction alike |
| `Mempool.TotalSame` | mempool/monitor.go:256-351 | counts and totals do not depend on the order of arrival |
| `Mempool.CollectSame` | mempool/monitor.go:143-307 | hash sets and voted tickets do not depend on the order of arrival |
| `Mempool.DescribesSame` | mempool/monitor.go:143-357 | nor does what an inventory describes |
| `Mempool.DescribesUnique` | mempool/collector.go:421-465 | a description leaves no freedom: two inventories that describe the same transactions are equal |
| `Mempool.OneTransaction` | mempool/collector.go:371-462 | what an inventory says of one transaction, field by field |
| `Mempool.MempoolMonitor.TxHandler` | mempool/monitor.go:124-357 | the new inventory is the incremental step of the old one, unchanged for old, known, future and undecodable transactions; panics iff a new vote has no vote information |
| `Mempool.MempoolMonitor.Refresh` | mempool/monitor.go:377-416 | the inventory starts over from a batch on a new last block, and describes whatever distinct transactions were collected |
| `Mempool.HandledDescribes` | mempool/monitor.go:124-357 | on top of any described inventory, handling more transactions in any order describes all of them |
| `Mempool.HandleAll` | mempool/monitor.go:124-357 | transactions handled one at a time fold the incremental step |
| `Mempool.BothPaths` | mempool/monitor.go:124-416 | a monitor refreshed with transactions of any kind and age that then handles arrivals has the inventory of one batch of everything, for any order of arrival and any order of the batch |

## Left out

- RPC clients, HTTP exchange refreshers, gRPC, websockets, logging, configuration and file savers: input and output only. What the node answers is a parameter (`Rpc`, `Store`, `Reply`), as are clock readings and the answers of the key-value store.
- ffldb, badger and stake.Node internals, script decoding and hashing: maps and abstract functions with stated laws. The stake node is a function of what was connected to it, and its store fails or not as a parameter says.
- Crashes in the middle of ConnectBlock, between the stake write and the pool append: only restarts between operations are covered.
- The version 0 gob format of the diff store and its upgrade copy: foreign encoding.
- Locks inside single operations: operations are atomic, except in `ChartCache` and `Prefetch`, which interleave critical sections.
- Floating point: quantities, prices and totals are integer atoms. The order book's drop threshold of 1e-8 is one atom.
- Integer widths: heights, totals and pool values are unbounded; the length arithmetic of the diff reader, the height check of the loader, the rate key and the remaining-quantity difference wrap as in the source. Append requires a tip below 2^63 - 1.
- Recovery.Rewind: recovery, the runs of `Reorg` and the reorganization are stated for stake stores that work; what a failing one leaves behind is stated for single connects and disconnects.
- The order of the tickets that Pool returns: the pool is a set.
- PoolInfoCache, WaitForHeight and the pool info calculation: small next to the rest.
- Well-formedness of the diffs (no repeats, new tickets in, present tickets out) is what the stake node promises; it is a precondition of the laws about replay, not of the operations.
- Removal of cached blocks, ResetHeap and the access-time comparators as heap orders: map and queue hold distinct objects, and the default comparator is not an order.
- Poloniex sequence handling, DEX candles and the suspension route: they change state outside the in-sequence rule.
- Multichain chart ids, depth charts and the Price field of cached charts: their versions are not tied to exchange updates. Of index updates only the cleanup of DCR states is modelled.
- ChartCache.ExchangeBot.UpdateExchange: tokens and bins without a dash, as all exchange tokens and bins are.
- Prefetch.BlockPrefetchClient.GetBlockData: the node returns the block it is asked for; a zero hash finds the empty slot, as in the source.
- Subsidy.SubsidyTotals.UltimateSubsidy: the dcrd subsidy functions are abstract, with the laws that the subsidy is constant within an interval and ends for good; the memo key holds the network, not the other parameters, so a network has one set of parameters.
- Mempool.ParseTxns: votes, tickets and other lists, ticket indexes, latest transactions, per-type totals and the counts of treasury transactions are not part of the inventory; the two paths treat those differently or by order of arrival.

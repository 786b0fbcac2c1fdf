/** Whole runs of connects and disconnects, and the reorganization of ChainMonitor
    (stakedb/chainmonitor.go). */
module Reorg {
  import opened Types
  import opened Sums
  import opened PoolDiffs
  import opened DiffCodec
  import opened StakeChain
  import opened StakeDB
  import opened Recovery
  import opened DiffStore
  import TP = TicketPools

  // ---- Every run of connects and disconnects ----

  /** A connect of any block, or a disconnect of the tip. */
  datatype Op = Connect(block: Block, rpc: Rpc) | Disconnect(rpc: Rpc)

  /** The stake node of `chain` takes the block. */
  predicate Accepted(rules: Rules, chain: seq<Block>, cache: map<int, Block>, b: Block, rpc: Rpc) {
    rules.maturity >= 1 && ReachesNode(rules, Inputs(rules, chain), cache, b, rpc)
  }

  function ChainAfter(rules: Rules, chain: seq<Block>, cache: map<int, Block>, op: Op): seq<Block> {
    match op
    case Connect(b, rpc) => if Accepted(rules, chain, cache, b, rpc) then chain + [b] else chain
    case Disconnect(rpc) => if ParentKnown(rules, chain, rpc) then chain[..|chain| - 1] else chain
  }

  /** The block cache after the operation. */
  function CacheOf(rules: Rules, cache: map<int, Block>, op: Op): map<int, Block> {
    match op
    case Connect(b, rpc) => CacheThen(rules, cache, b, rpc)
    case Disconnect(_) => cache
  }

  /** Any block may be offered above the tip, and must be a valid next block, its maturing
      tickets cached or served, only if the stake node takes it; at or below the tip it is the
      chain's own, unless the connect panics. A client asked for a parent is honest about the
      blocks of the chain and knows the tickets that left with the dropped diff; it may have
      moved to another chain. */
  ghost predicate OpOk(rules: Rules, chain: seq<Block>, cache: map<int, Block>, op: Op) {
    && rules.maturity >= 1 && |chain| + 1 < TP.MAX_HEIGHT
    && match op
       case Connect(b, rpc) =>
         && (Accepted(rules, chain, cache, b, rpc) ==>
               NextOk(rules, chain, cache, b, rpc) && Fits(Log(rules, chain + [b])[|chain|]))
         && (b.height <= |chain| ==>
               b == BlockAt(rules, chain, b.height) || MaturingTickets(rules, cache, rpc, b.height).None?)
       case Disconnect(rpc) =>
         Honest(rules, chain, rpc) && (ParentKnown(rules, chain, rpc) ==> LastPriced(rules, Log(rules, chain), rpc.values))
  }

  function ChainAfterAll(rules: Rules, chain: seq<Block>, cache: map<int, Block>, ops: seq<Op>): seq<Block>
    decreases |ops|
  {
    if ops == [] then chain
    else ChainAfterAll(rules, ChainAfter(rules, chain, cache, ops[0]), CacheOf(rules, cache, ops[0]), ops[1..])
  }

  ghost predicate RunOk(rules: Rules, chain: seq<Block>, cache: map<int, Block>, ops: seq<Op>)
    decreases |ops|
  {
    ops == [] ||
    (OpOk(rules, chain, cache, ops[0])
     && RunOk(rules, ChainAfter(rules, chain, cache, ops[0]), CacheOf(rules, cache, ops[0]), ops[1..]))
  }

  method PerformDisconnect(db: StakeDatabase, rpc: Rpc)
    requires db.Canonical() && db.PoolDB.Persisted() && Honest(db.rules, db.chain, rpc)
    requires ParentKnown(db.rules, db.chain, rpc) ==> LastPriced(db.rules, db.PoolDB.diffs, rpc.values)
    modifies db`node, db`tipHash, db`chain, db`liveTickets, db`poolValue
    modifies db.PoolDB`tip, db.PoolDB`cursor, db.PoolDB`pool, db.PoolDB`diffs
    ensures db.Canonical() && db.PoolDB.Persisted()
    ensures db.chain == if ParentKnown(db.rules, old(db.chain), rpc) then old(db.chain)[..|old(db.chain)| - 1] else old(db.chain)
  {
    var _ := db.DisconnectTip(rpc);
  }

  method PerformConnect(db: StakeDatabase, b: Block, rpc: Rpc)
    requires db.Canonical() && db.PoolDB.Persisted() && OpOk(db.rules, db.chain, db.blockCache, Connect(b, rpc))
    modifies db, db.PoolDB
    ensures db.Canonical() && db.PoolDB.Persisted()
    ensures db.chain == ChainAfter(db.rules, old(db.chain), old(db.blockCache), Connect(b, rpc))
    ensures db.chain == if ReachesNode(db.rules, old(db.node), old(db.blockCache), b, rpc) then old(db.chain) + [b] else old(db.chain)
    ensures db.blockCache == CacheThen(db.rules, old(db.blockCache), b, rpc)
  {
    if b.height > |db.node| {
      var _ := db.ConnectNext(b, rpc);
    } else {
      var _ := db.ConnectOld(b, rpc);
    }
  }

  method Perform(db: StakeDatabase, op: Op)
    requires db.Canonical() && db.PoolDB.Persisted() && OpOk(db.rules, db.chain, db.blockCache, op)
    modifies db, db.PoolDB
    ensures db.Canonical() && db.PoolDB.Persisted()
    ensures db.chain == ChainAfter(db.rules, old(db.chain), old(db.blockCache), op)
    ensures db.blockCache == CacheOf(db.rules, old(db.blockCache), op)
    ensures op.Connect? ==>
              db.chain == if ReachesNode(db.rules, old(db.node), old(db.blockCache), op.block, op.rpc) then old(db.chain) + [op.block] else old(db.chain)
    ensures op.Disconnect? ==>
              db.chain == if ParentKnown(db.rules, old(db.chain), op.rpc) then old(db.chain)[..|old(db.chain)| - 1] else old(db.chain)
  {
    match op {
      case Connect(b, rpc) => PerformConnect(db, b, rpc);
      case Disconnect(rpc) => PerformDisconnect(db, rpc);
    }
  }

  /** The cache after a run. */
  function CacheAfterAll(rules: Rules, cache: map<int, Block>, ops: seq<Op>): map<int, Block>
    decreases |ops|
  {
    if ops == [] then cache else CacheAfterAll(rules, CacheOf(rules, cache, ops[0]), ops[1..])
  }

  /** A run of one more operation: its chain and cache follow those of the run before. */
  lemma {:induction false} RunSnoc(rules: Rules, chain: seq<Block>, cache: map<int, Block>, ops: seq<Op>, op: Op)
    ensures ChainAfterAll(rules, chain, cache, []) == chain && CacheAfterAll(rules, cache, []) == cache
    ensures ChainAfterAll(rules, chain, cache, ops + [op]) ==
              ChainAfter(rules, ChainAfterAll(rules, chain, cache, ops), CacheAfterAll(rules, cache, ops), op)
    ensures CacheAfterAll(rules, cache, ops + [op]) == CacheOf(rules, CacheAfterAll(rules, cache, ops), op)
    decreases |ops|
  {
    if ops == [] {
      assert [] + [op] == [op] && [op][1..] == [];
    } else {
      assert (ops + [op])[0] == ops[0] && (ops + [op])[1..] == ops[1..] + [op];
      RunSnoc(rules, ChainAfter(rules, chain, cache, ops[0]), CacheOf(rules, cache, ops[0]), ops[1..], op);
    }
  }

  /** Over every run, with failed connects of any block above the tip and redundant ones, the
      database stays the one that belongs to the connected chain: the keys of the live ticket
      map are the replay of the log to the tip, the pool value is its sum, every block was
      connected with the maturing tickets of the chain it extends, every block cached at or
      below the tip is the chain's, and the disk keeps a copy of the log to restart from. */
  method PerformAll(db: StakeDatabase, ops: seq<Op>)
    requires db.Canonical() && db.PoolDB.Persisted() && RunOk(db.rules, db.chain, db.blockCache, ops)
    modifies db, db.PoolDB
    ensures db.Canonical() && db.PoolDB.Persisted()
    ensures db.chain == ChainAfterAll(db.rules, old(db.chain), old(db.blockCache), ops)
    ensures db.liveTickets.Keys == Replay(db.PoolDB.diffs) == Replay(Log(db.rules, db.chain))
    ensures db.poolValue == Sum(db.liveTickets, TicketValue)
    ensures CacheOk(db.rules, db.chain, db.blockCache)
    ensures db.blockCache == CacheAfterAll(db.rules, old(db.blockCache), ops)
    decreases |ops|
  {
    if ops != [] {
      Perform(db, ops[0]);
      PerformAll(db, ops[1..]);
    }
  }

  /** Path independence: two canonical databases on the same chain agree on everything but
      cached blocks and the height of the ticket pool's own set. */
  lemma SameChainSameState(a: StakeDatabase, b: StakeDatabase)
    requires a.Canonical() && b.Canonical() && a.rules == b.rules && a.chain == b.chain
    ensures a.node == b.node && a.tipHash == b.tipHash && a.PoolDB.diffs == b.PoolDB.diffs
    ensures a.liveTickets == b.liveTickets && a.poolValue == b.poolValue
    ensures a.PoolDB.cursor == b.PoolDB.cursor ==> a.PoolDB.pool == b.PoolDB.pool
  {
  }

  // ---- switchToSideChain ----

  /** What the client knows of a chain it has made its main chain. */
  ghost predicate MainIs(rules: Rules, target: seq<Block>, rpc: Rpc) {
    && rules.maturity >= 1
    && (forall h :: 0 <= h <= |target| && h in rpc.main ==> rpc.main[h] == BlockAt(rules, target, h).hash)
    && (forall h :: 0 <= h <= |target| - rules.maturity ==> h in rpc.main && rpc.main[h] in rpc.blocks)
  }

  /** `target` is a valid chain that the client serves. */
  ghost predicate Served(rules: Rules, target: seq<Block>, rpc: Rpc) {
    && |target| < TP.MAX_HEIGHT
    && MainIs(rules, target, rpc) && Honest(rules, target, rpc)
    && Linked(rules, target) && LogOk(Log(rules, target))
  }

  /** The chains agree as far as both go, up to the common ancestor at height `a`. */
  predicate AgreeUpTo(chain: seq<Block>, target: seq<Block>, a: nat) {
    var k := if |chain| < a then |chain| else a;
    k <= |target| && chain[..k] == target[..k]
  }

  /** Nothing stands in the way of connecting all of `target`: the client has every block
      and main chain hash, and the stake node accepts every block. */
  ghost predicate Reachable(rules: Rules, target: seq<Block>, rpc: Rpc) {
    && AllKnown(rules, target, rpc)
    && (forall n :: 0 <= n < |target| ==> AcceptedAt(rules, target, n))
    && (forall h :: 0 <= h <= |target| ==> h in rpc.main)
  }

  predicate AcceptedAt(rules: Rules, target: seq<Block>, n: nat)
    requires n < |target|
  {
    AcceptsNext(rules, target[..n], target[n])
  }

  /** The hashes of `target` from height `a` + 1 on. */
  predicate TailHashes(newChain: seq<Hash>, target: seq<Block>, a: nat) {
    a + |newChain| == |target| && forall i :: 0 <= i < |newChain| ==> newChain[i] == target[a + i].hash
  }

  /** The next block of a served chain can be connected on top of the ones below it. */
  lemma TargetStep(rules: Rules, target: seq<Block>, n: nat, rpc: Rpc)
    requires Served(rules, target, rpc) && n < |target|
    ensures target[..n] + [target[n]] == target[..n + 1]
    ensures Extends(rules, target[..n], target[n]) && MaturingServed(rules, target[..n], rpc)
    ensures LogOk(Log(rules, target[..n + 1]))
    ensures target[n].hash in rpc.blocks ==> rpc.blocks[target[n].hash] == target[n]
  {
    assert target[..n] + [target[n]] == target[..n + 1];
    assert Linked(rules, target[..n]) by { LinkedPrefix(rules, target, n); }
    assert Linked(rules, target[..n + 1]) by { LinkedPrefix(rules, target, n + 1); }
    LogPrefix(rules, target, n + 1);
    LogOkPrefix(Log(rules, target), n + 1);
    TargetMaturing(rules, target, n, rpc);
    assert BlockAt(rules, target, n + 1) == target[n];
  }

  lemma TargetMaturing(rules: Rules, target: seq<Block>, n: nat, rpc: Rpc)
    requires MainIs(rules, target, rpc) && Honest(rules, target, rpc) && n < |target|
    ensures MaturingServed(rules, target[..n], rpc)
  {
    var h := n + 1 - rules.maturity;
    if h >= 0 {
      assert BlockAt(rules, target[..n], h) == BlockAt(rules, target, h);
    }
  }

  /** ConnectBlockHash for the next block of a served chain. */
  method ConnectServed(db: StakeDatabase, hash: Hash, rpc: Rpc, ghost target: seq<Block>) returns (r: Result)
    requires db.Canonical() && Served(db.rules, target, rpc)
    requires |db.chain| < |target| && db.chain == target[..|db.chain|] && hash == target[|db.chain|].hash
    modifies db, db.PoolDB
    ensures db.Canonical() && r != Panicked
    ensures r == Done <==> hash in rpc.blocks && AcceptsNext(db.rules, old(db.chain), target[|old(db.chain)|])
    ensures db.chain == if r == Done then target[..|old(db.chain)| + 1] else old(db.chain)
    ensures Reachable(db.rules, target, rpc) ==> r == Done
  {
    if Reachable(db.rules, target, rpc) {
      assert AcceptedAt(db.rules, target, |db.chain|);
      assert BlockAt(db.rules, target, |db.chain| + 1) == target[|db.chain|];
    }
    TargetStep(db.rules, target, |db.chain|, rpc);
    if hash !in rpc.blocks {
      return Failed;
    }
    ReachesIff(db.rules, db.chain, db.blockCache, rpc.blocks[hash], rpc);
    r := db.ConnectNext(rpc.blocks[hash], rpc);
  }

  /** The database has connected exactly the first `n` blocks of `target`. */
  ghost predicate At(db: StakeDatabase, target: seq<Block>, n: int)
    reads db, db.PoolDB
  {
    db.Canonical() && 0 <= n <= |target| && db.chain == target[..n]
  }

  /** One turn of either loop: the block at height `n` + 1. */
  method ConnectAt(db: StakeDatabase, hash: Hash, rpc: Rpc, ghost target: seq<Block>, ghost n: nat) returns (r: Result)
    requires At(db, target, n) && Served(db.rules, target, rpc) && n < |target| && hash == target[n].hash
    modifies db, db.PoolDB
    ensures r != Panicked && At(db, target, if r == Done then n + 1 else n)
    ensures Reachable(db.rules, target, rpc) ==> r == Done
  {
    r := ConnectServed(db, hash, rpc, target);
  }

  /** The catch-up loop: main chain blocks up to the common ancestor at height `a`. */
  method CatchUp(db: StakeDatabase, a: nat, rpc: Rpc, ghost target: seq<Block>) returns (r: Result, ghost n: nat)
    requires At(db, target, |db.chain|) && |db.chain| <= a <= |target| && Served(db.rules, target, rpc)
    modifies db, db.PoolDB
    ensures r != Panicked && At(db, target, n) && |old(db.chain)| <= n <= a
    ensures r == Done ==> n == a
    ensures Reachable(db.rules, target, rpc) ==> r == Done
  {
    r := Done;
    var h := |db.node| + 1;
    n := |db.chain|;
    while h <= a
      invariant |old(db.chain)| <= n == h - 1 <= a && At(db, target, n) && r == Done
    {
      if h !in rpc.main {
        return Failed, n;
      }
      assert BlockAt(db.rules, target, h) == target[h - 1];
      r := ConnectAt(db, rpc.main[h], rpc, target, n);
      if r != Done {
        return;
      }
      h, n := h + 1, n + 1;
    }
  }

  /** The last loop: the blocks of the new chain, onto the common ancestor. */
  method ConnectAll(db: StakeDatabase, newChain: seq<Hash>, rpc: Rpc, ghost target: seq<Block>) returns (r: Result, ghost n: nat)
    requires At(db, target, |db.chain|) && TailHashes(newChain, target, |db.chain|) && Served(db.rules, target, rpc)
    modifies db, db.PoolDB
    ensures r != Panicked && At(db, target, n) && |old(db.chain)| <= n
    ensures r == Done ==> n == |target|
    ensures Reachable(db.rules, target, rpc) ==> r == Done
  {
    r, n := Done, |db.chain|;
    ghost var a := n;
    for i := 0 to |newChain|
      invariant n == a + i && At(db, target, n) && r == Done
    {
      r := ConnectAt(db, newChain[i], rpc, target, n);
      if r != Done {
        return;
      }
      n := n + 1;
    }
  }

  /** The first half of switchToSideChain: from above or below, to the common ancestor at
      height `a`. */
  method ToAncestor(db: StakeDatabase, a: nat, rpc: Rpc, ghost target: seq<Block>) returns (r: Result)
    requires db.Canonical() && Served(db.rules, target, rpc) && a <= |target| && AgreeUpTo(db.chain, target, a)
    requires Honest(db.rules, db.chain, rpc) && LookupsOk(db.rules, db.PoolDB.diffs, a, rpc.values)
    modifies db, db.PoolDB
    ensures db.Canonical() && r != Panicked
    ensures r == Done ==> db.chain == target[..a]
    ensures db.chain <= old(db.chain) || db.chain <= target
    ensures AllKnown(db.rules, old(db.chain), rpc) && Reachable(db.rules, target, rpc) ==> r == Done
  {
    var mainTip := |db.node|;
    if mainTip < a {
      assert db.chain[..mainTip] == db.chain;
      ghost var n;
      r, n := CatchUp(db, a, rpc, target);
    } else {
      r := db.DisconnectBlocks(mainTip - a, rpc);
    }
  }

  /** switchToSideChain: wherever the database's tip was on a chain through the common
      ancestor, above, at or below it, success leaves exactly the database of the common
      chain followed by the new chain. On failure it is still canonical, on a prefix of the
      old chain or of the new one. */
  method SwitchToSideChain(db: StakeDatabase, newChain: seq<Hash>, newChainHeight: int, rpc: Rpc, ghost target: seq<Block>)
    returns (height: int, r: Result)
    requires db.Canonical()
    requires newChain != [] ==>
               && Served(db.rules, target, rpc)
               && |newChain| <= newChainHeight && TailHashes(newChain, target, newChainHeight - |newChain|)
               && AgreeUpTo(db.chain, target, newChainHeight - |newChain|)
               && Honest(db.rules, db.chain, rpc)
               && LookupsOk(db.rules, db.PoolDB.diffs, newChainHeight - |newChain|, rpc.values)
    modifies db, db.PoolDB
    ensures db.Canonical() && r != Panicked
    ensures newChain == [] ==> r == Failed && unchanged(db) && unchanged(db.PoolDB)
    ensures r == Done ==> db.chain == target && height == newChainHeight
    ensures db.chain <= old(db.chain) || db.chain <= target
    ensures newChain != [] && AllKnown(db.rules, old(db.chain), rpc) && Reachable(db.rules, target, rpc) ==> r == Done
  {
    if newChain == [] {
      return 0, Failed;
    }
    var a := newChainHeight - |newChain|;
    r := ToAncestor(db, a, rpc, target);
    if r != Done {
      return 0, r;
    }
    if |db.node| != a {
      return 0, Failed;
    }
    r := ConnectNew(db, newChain, rpc, target);
    height := |db.node|;
  }

  /** The second half of switchToSideChain: from the common ancestor to the end of the new chain. */
  method ConnectNew(db: StakeDatabase, newChain: seq<Hash>, rpc: Rpc, ghost target: seq<Block>) returns (r: Result)
    requires At(db, target, |db.chain|) && TailHashes(newChain, target, |db.chain|) && Served(db.rules, target, rpc)
    modifies db, db.PoolDB
    ensures db.Canonical() && r != Panicked && db.chain <= target
    ensures r == Done ==> db.chain == target
    ensures Reachable(db.rules, target, rpc) ==> r == Done
  {
    ghost var n;
    r, n := ConnectAll(db, newChain, rpc, target);
    assert n == |target| ==> target[..n] == target;
  }

  /** Path independence against a database built from scratch. One database reorganizes to the
      common chain followed by the new chain; another is started on empty stores and connects
      the same chain block by block. When both succeed, and they do when nothing stands in the
      way, they have the same node, tip, diff log, live tickets and pool value. */
  method FromScratch(db: StakeDatabase, newChain: seq<Hash>, newChainHeight: int, rpc: Rpc, target: seq<Block>,
                     items: seq<(seq<byte>, Item)>, disk: Store)
    returns (other: StakeDatabase, r: Result, s: Result)
    requires db.Canonical() && newChain != [] && Served(db.rules, target, rpc)
    requires |newChain| <= newChainHeight && TailHashes(newChain, target, newChainHeight - |newChain|)
    requires AgreeUpTo(db.chain, target, newChainHeight - |newChain|)
    requires Honest(db.rules, db.chain, rpc) && LookupsOk(db.rules, db.PoolDB.diffs, newChainHeight - |newChain|, rpc.values)
    requires db.rules.live([]) == [] && Iterates(items, disk) && |items| < TWO_64 - 1 && Holds(disk, [])
    modifies db, db.PoolDB
    ensures fresh(other) && other.rules == db.rules
    ensures r == Done && s == Done ==>
              && db.chain == target == other.chain
              && db.node == other.node && db.tipHash == other.tipHash && db.PoolDB.diffs == other.PoolDB.diffs
              && db.liveTickets == other.liveTickets && db.poolValue == other.poolValue
    ensures AllKnown(db.rules, old(db.chain), rpc) && Reachable(db.rules, target, rpc) ==> r == Done && s == Done
  {
    var _, switched := SwitchToSideChain(db, newChain, newChainHeight, rpc, target);
    r := switched;
    other, s := BuildFromScratch(db.rules, rpc, target, items, disk);
    if r == Done && s == Done {
      SameChainSameState(db, other);
    }
  }

  /** A database started on empty stores, with the blocks of `target` connected one by one. */
  method BuildFromScratch(rules: Rules, rpc: Rpc, target: seq<Block>, items: seq<(seq<byte>, Item)>, disk: Store)
    returns (db: StakeDatabase, r: Result)
    requires Served(rules, target, rpc) && rules.live([]) == []
    requires Iterates(items, disk) && |items| < TWO_64 - 1 && Holds(disk, [])
    ensures fresh(db) && fresh(db.PoolDB) && db.rules == rules && db.Canonical()
    ensures r == Done ==> db.chain == target
    ensures Reachable(rules, target, rpc) ==> r == Done
  {
    db := StartOn(rules, rpc, target, items, disk);
    var hashes := seq(|target|, i requires 0 <= i < |target| => target[i].hash);
    r := ConnectNew(db, hashes, rpc, target);
  }

  method StartOn(rules: Rules, rpc: Rpc, ghost target: seq<Block>, items: seq<(seq<byte>, Item)>, disk: Store)
    returns (db: StakeDatabase)
    requires Served(rules, target, rpc) && rules.live([]) == []
    requires Iterates(items, disk) && |items| < TWO_64 - 1 && Holds(disk, [])
    ensures fresh(db) && fresh(db.PoolDB) && db.rules == rules && db.chain == [] && db.Canonical()
  {
    LinkedPrefix(rules, target, 0);
    assert target[..0] == [];
    db := FreshStart(rules, items, disk, rpc);
  }
}

/** Start-up and recovery: two stores found at different heights are rolled back to a common
    one (stakedb/stakedb.go). */
module Recovery {
  import opened Types
  import opened Sums
  import opened PoolDiffs
  import opened DiffStore
  import opened StakeChain
  import opened StakeDB
  import TP = TicketPools

  /** The live tickets after the diffs above the tip are undone, or as they were. */
  ghost predicate LiveIs(live: map<Hash, int>, live0: map<Hash, int>, log0: seq<PoolDiff>, tip: int, neglectCache: bool, values: map<Hash, int>) {
    0 <= tip <= |log0| &&
    live == if neglectCache then live0 else Undone(live0, Dropped(log0, tip), values, |log0| - tip)
  }

  lemma LiveNext(live: map<Hash, int>, live0: map<Hash, int>, log0: seq<PoolDiff>, tip: int, neglectCache: bool, values: map<Hash, int>)
    requires LiveIs(live, live0, log0, tip, neglectCache, values) && tip > 0
    ensures LiveIs(if neglectCache then live else Undone(live, Dropped(log0[..tip], tip - 1), values, 1), live0, log0, tip - 1, neglectCache, values)
  {
    UndoneNext(live0, log0, values, tip);
  }

  lemma LiveFirst(live0: map<Hash, int>, log0: seq<PoolDiff>, neglectCache: bool, values: map<Hash, int>)
    ensures LiveIs(live0, live0, log0, |log0|, neglectCache, values)
  {
  }

  /** One turn of Rewind: a disconnect and the comparison of the heights. */
  method RewindOne(db: StakeDatabase, neglectCache: bool, rpc: Rpc) returns (r: Result)
    requires db.PoolDB.Valid() && |db.chain| == |db.node|
    modifies db`node, db`tipHash, db`chain, db`liveTickets, db`poolValue
    modifies db.PoolDB`tip, db.PoolDB`cursor, db.PoolDB`pool, db.PoolDB`diffs
    ensures db.PoolDB.Valid() && |db.chain| == |db.node| <= |old(db.node)|
    ensures db.node <= old(db.node) && db.PoolDB.diffs <= old(db.PoolDB.diffs)
    ensures r == Done ==> |db.node| == |old(db.node)| - 1 == db.PoolDB.tip
    ensures old(|db.node| == db.PoolDB.tip) ==> |db.node| == db.PoolDB.tip
    ensures r == Done && old(|db.node| == db.PoolDB.tip) && old(db.PoolDB.tip) > 0 ==>
              db.liveTickets == if neglectCache then old(db.liveTickets)
                                else Undone(old(db.liveTickets), Dropped(old(db.PoolDB.diffs), old(db.PoolDB.tip) - 1), rpc.values, 1)
    ensures db.poolValue - Sum(db.liveTickets, TicketValue) == old(db.poolValue - Sum(db.liveTickets, TicketValue))
  {
    r := db.DisconnectBlock(neglectCache, rpc, WORKING);
    if r == Done && db.PoolDB.tip != |db.node| {
      r := Failed;
    }
  }

  /** Rewind: while the two heights start equal they stay equal, and it stops at `to`. The live
      tickets follow unless the cache is neglected. */
  method Rewind(db: StakeDatabase, to: int, neglectCache: bool, rpc: Rpc) returns (r: Result)
    requires db.PoolDB.Valid() && |db.chain| == |db.node|
    modifies db`node, db`tipHash, db`chain, db`liveTickets, db`poolValue
    modifies db.PoolDB`tip, db.PoolDB`cursor, db.PoolDB`pool, db.PoolDB`diffs
    ensures db.PoolDB.Valid() && |db.chain| == |db.node| <= |old(db.node)|
    ensures db.node <= old(db.node) && db.PoolDB.diffs <= old(db.PoolDB.diffs)
    ensures old(|db.node| == db.PoolDB.tip) ==> |db.node| == db.PoolDB.tip
    ensures r == Done ==> |db.node| == if to < |old(db.node)| then to else |old(db.node)|
    ensures r == Done && to < |old(db.node)| ==> |db.node| == db.PoolDB.tip
    ensures r == Done && old(|db.node| == db.PoolDB.tip) ==>
              LiveIs(db.liveTickets, old(db.liveTickets), old(db.PoolDB.diffs), db.PoolDB.tip, neglectCache, rpc.values)
    ensures db.poolValue - Sum(db.liveTickets, TicketValue) == old(db.poolValue - Sum(db.liveTickets, TicketValue))
  {
    var heightStakeDB := |db.node|;
    ghost var level := |db.node| == db.PoolDB.tip;
    LiveFirst(db.liveTickets, db.PoolDB.diffs, neglectCache, rpc.values);
    while to < heightStakeDB
      invariant db.PoolDB.Valid() && |db.chain| == |db.node| == heightStakeDB <= |old(db.node)|
      invariant db.node <= old(db.node) && db.PoolDB.diffs <= old(db.PoolDB.diffs)
      invariant to <= heightStakeDB || heightStakeDB == |old(db.node)|
      invariant heightStakeDB < |old(db.node)| || level ==> heightStakeDB == db.PoolDB.tip
      invariant level ==> LiveIs(db.liveTickets, old(db.liveTickets), old(db.PoolDB.diffs), db.PoolDB.tip, neglectCache, rpc.values)
      invariant db.poolValue - Sum(db.liveTickets, TicketValue) == old(db.poolValue - Sum(db.liveTickets, TicketValue))
      decreases heightStakeDB
    {
      if level && heightStakeDB > 0 {
        LiveNext(db.liveTickets, old(db.liveTickets), old(db.PoolDB.diffs), db.PoolDB.tip, neglectCache, rpc.values);
        assert old(db.PoolDB.diffs)[..db.PoolDB.tip] == db.PoolDB.diffs;
      }
      r := RewindOne(db, neglectCache, rpc);
      if r != Done {
        return;
      }
      heightStakeDB := |db.node|;
    }
    r := Done;
  }

  function Min(a: int, b: int): (r: int)
    ensures r <= a && r <= b && (r == a || r == b)
  {
    if a < b then a else b
  }

  /** The stores after rolling both back to `n`: what is left of each is its own prefix. */
  ghost predicate RolledBack(db: StakeDatabase, n: int, node0: seq<NodeInput>, chain0: seq<Block>, log0: seq<PoolDiff>)
    reads db, db.PoolDB
  {
    && 0 <= n <= |node0| == |chain0| && n <= |log0|
    && |db.node| == n == db.PoolDB.tip
    && db.node == node0[..n] && db.chain == chain0[..n] && db.PoolDB.diffs == log0[..n]
  }

  /** The loop that trims the pool down to the height of the stake store. */
  method TrimDown(tp: TP.TicketPool, heightStakeDB: nat) returns (heightTicketPool: int)
    requires tp.Valid() && tp.cursor == 0 && heightStakeDB <= tp.tip
    modifies tp`tip, tp`cursor, tp`pool, tp`diffs
    ensures tp.Valid() && tp.cursor == 0 && tp.pool == old(tp.pool)
    ensures heightTicketPool == tp.tip == heightStakeDB && tp.diffs == old(tp.diffs)[..heightStakeDB]
  {
    heightTicketPool := tp.tip;
    while heightTicketPool > heightStakeDB
      invariant tp.Valid() && tp.tip == heightTicketPool >= heightStakeDB
      invariant tp.diffs == old(tp.diffs)[..heightTicketPool]
      invariant tp.cursor == 0 && tp.pool == old(tp.pool)
      decreases heightTicketPool
    {
      var newTip, _ := tp.Trim();
      heightTicketPool := newTip;
    }
  }

  /** The stake store is rolled back to the pool's height, then the pool to the stake
      store's: the first two loops of LoadAndRecover and of NewStakeDatabase. */
  method Equalize(db: StakeDatabase, rpc: Rpc) returns (r: Result)
    requires db.PoolDB.Valid() && |db.chain| == |db.node| && db.PoolDB.cursor == 0
    modifies db`node, db`tipHash, db`chain, db`liveTickets, db`poolValue
    modifies db.PoolDB`tip, db.PoolDB`cursor, db.PoolDB`pool, db.PoolDB`diffs
    ensures db.PoolDB.Valid() && |db.chain| == |db.node|
    ensures db.PoolDB.cursor == 0 && db.PoolDB.pool == old(db.PoolDB.pool)
    ensures r == Done ==>
              RolledBack(db, Min(|old(db.node)|, old(db.PoolDB.tip)), old(db.node), old(db.chain), old(db.PoolDB.diffs))
    ensures |old(db.node)| <= old(db.PoolDB.tip) ==> r == Done && unchanged(db)
    ensures old(db.NodeOk()) && Honest(db.rules, old(db.chain), rpc) ==>
              db.NodeOk() && (AllKnown(db.rules, old(db.chain), rpc) ==> r == Done)
  {
    ghost var ok := db.NodeOk() && Honest(db.rules, db.chain, rpc);
    var heightStakeDB, heightTicketPool := |db.node|, db.PoolDB.tip;
    while heightStakeDB > heightTicketPool
      invariant db.PoolDB.Valid() && |db.chain| == |db.node| == heightStakeDB <= |old(db.node)|
      invariant db.PoolDB.tip == heightTicketPool && db.PoolDB.diffs == old(db.PoolDB.diffs)
      invariant heightStakeDB >= heightTicketPool || heightStakeDB == |old(db.node)|
      invariant |old(db.node)| <= old(db.PoolDB.tip) ==> unchanged(db)
      invariant db.node == old(db.node)[..heightStakeDB] && db.chain == old(db.chain)[..heightStakeDB]
      invariant db.PoolDB.cursor == 0 && db.PoolDB.pool == old(db.PoolDB.pool)
      invariant ok ==> db.NodeOk()
      decreases heightStakeDB
    {
      if ok {
        HonestPrefix(db.rules, old(db.chain), heightStakeDB, rpc);
      }
      r := db.DisconnectBlock(true, rpc, WORKING);
      if r != Done {
        return;
      }
      heightStakeDB, heightTicketPool := |db.node|, db.PoolDB.tip;
    }
    heightTicketPool := TrimDown(db.PoolDB, heightStakeDB);
    r := if heightTicketPool != heightStakeDB then Failed else Done;
  }

  /** The third loop of LoadAndRecover: both stores at one height go down to `to` together. */
  method RollDown(db: StakeDatabase, to: nat, rpc: Rpc) returns (r: Result)
    requires db.PoolDB.Valid() && to <= |db.chain| == |db.node| == db.PoolDB.tip && db.PoolDB.cursor == 0
    modifies db`node, db`tipHash, db`chain, db`liveTickets, db`poolValue
    modifies db.PoolDB`tip, db.PoolDB`cursor, db.PoolDB`pool, db.PoolDB`diffs
    ensures db.PoolDB.Valid() && |db.chain| == |db.node|
    ensures db.PoolDB.cursor == 0 && db.PoolDB.pool == old(db.PoolDB.pool)
    ensures r == Done ==> RolledBack(db, to, old(db.node), old(db.chain), old(db.PoolDB.diffs))
    ensures old(db.NodeOk()) && Honest(db.rules, old(db.chain), rpc) ==>
              db.NodeOk() && (AllKnown(db.rules, old(db.chain), rpc) ==> r == Done)
  {
    ghost var ok := db.NodeOk() && Honest(db.rules, db.chain, rpc);
    r := Done;
    var heightStakeDB := |db.node|;
    while to < heightStakeDB
      invariant to <= heightStakeDB && db.PoolDB.Valid() && |db.chain| == |db.node| == heightStakeDB
      invariant RolledBack(db, heightStakeDB, old(db.node), old(db.chain), old(db.PoolDB.diffs))
      invariant db.PoolDB.cursor == 0 && db.PoolDB.pool == old(db.PoolDB.pool) && r == Done
      invariant ok ==> db.NodeOk()
      decreases heightStakeDB
    {
      if ok {
        HonestPrefix(db.rules, old(db.chain), heightStakeDB, rpc);
      }
      r := db.DisconnectBlock(true, rpc, WORKING);
      if r != Done {
        return;
      }
      heightStakeDB := |db.node|;
    }
  }

  /** The rollback part of LoadAndRecover: it terminates, and without a failed disconnect both
      stores end at the least of the requested height (at least 0) and the two heights found. */
  method RollBack(db: StakeDatabase, toHeight: int, rpc: Rpc) returns (r: Result)
    requires db.PoolDB.Valid() && |db.chain| == |db.node| && db.PoolDB.cursor == 0
    modifies db`node, db`tipHash, db`chain, db`liveTickets, db`poolValue
    modifies db.PoolDB`tip, db.PoolDB`cursor, db.PoolDB`pool, db.PoolDB`diffs
    ensures db.PoolDB.Valid() && |db.chain| == |db.node|
    ensures db.PoolDB.cursor == 0 && db.PoolDB.pool == old(db.PoolDB.pool)
    ensures r == Done ==>
              && RolledBack(db, |db.node|, old(db.node), old(db.chain), old(db.PoolDB.diffs))
              && |db.node| == db.PoolDB.tip
              && |db.node| <= |old(db.node)| && |db.node| <= old(db.PoolDB.tip)
              && (if toHeight >= 0 then |db.node| <= toHeight else |db.node| == 0)
              && (|db.node| == |old(db.node)| || |db.node| == old(db.PoolDB.tip) || |db.node| == toHeight || |db.node| == 0 > toHeight)
    ensures old(db.NodeOk()) && Honest(db.rules, old(db.chain), rpc) ==>
              db.NodeOk() && (AllKnown(db.rules, old(db.chain), rpc) ==> r == Done)
  {
    var to := toHeight;
    if to < 0 {
      to := 0;
    }
    if to > |db.node| {
      to := |db.node|;
    }
    if to > db.PoolDB.tip {
      to := db.PoolDB.tip;
    }
    r := Equalize(db, rpc);
    if r != Done {
      return;
    }
    if Honest(db.rules, old(db.chain), rpc) {
      HonestPrefix(db.rules, old(db.chain), |db.chain|, rpc);
    }
    r := RollDown(db, to, rpc);
  }

  /** The tickets of `live` whose value is known, with that value. */
  function Found(live: seq<Hash>, values: map<Hash, int>): map<Hash, int> {
    map h | h in live && h in values :: values[h]
  }

  predicate AllFound(live: seq<Hash>, values: map<Hash, int>) {
    forall h :: h in live ==> h in values
  }

  lemma FoundSnoc(live: seq<Hash>, h: Hash, values: map<Hash, int>)
    ensures Found(live + [h], values) == if h in values then Found(live, values)[h := values[h]] else Found(live, values)
    ensures AllFound(live + [h], values) <==> AllFound(live, values) && h in values
  {
    assert forall x :: x in live + [h] <==> x in live || x == h;
  }

  /** PopulateLiveTicketCache: the pool value is the sum of the map even when lookups fail. */
  method PopulateLiveTicketCache(db: StakeDatabase, rpc: Rpc) returns (r: Result)
    requires NoRepeats(db.rules.live(db.node))
    modifies db`liveTickets, db`poolValue
    ensures db.poolValue == Sum(db.liveTickets, TicketValue)
    ensures db.liveTickets == Found(db.rules.live(db.node), rpc.values)
    ensures r != Panicked && (r == Done <==> AllFound(db.rules.live(db.node), rpc.values))
  {
    r := Done;
    db.poolValue, db.liveTickets := 0, map[];
    var live := db.rules.live(db.node);
    for i := 0 to |live|
      invariant db.poolValue == Sum(db.liveTickets, TicketValue)
      invariant db.liveTickets == Found(live[..i], rpc.values)
      invariant r != Panicked && (r == Done <==> AllFound(live[..i], rpc.values))
    {
      assert live[..i + 1] == live[..i] + [live[i]];
      FoundSnoc(live[..i], live[i], rpc.values);
      if live[i] !in rpc.values {
        r := Failed;
        continue;
      }
      var value := rpc.values[live[i]];
      assert live[i] !in live[..i];
      SumInsert(db.liveTickets, TicketValue, live[i], value);
      db.poolValue := db.poolValue + value;
      db.liveTickets := db.liveTickets[live[i] := value];
    }
    assert live[..|live|] == live;
  }

  /** The stake node's own live tickets are those of the replayed log, and the client knows
      their values. */
  ghost predicate NodeAgrees(rules: Rules, chain: seq<Block>, rpc: Rpc) {
    && rules.maturity >= 1
    && NoRepeats(rules.live(Inputs(rules, chain)))
    && Elems(rules.live(Inputs(rules, chain))) == Replay(Log(rules, chain))
    && forall h :: h in rules.live(Inputs(rules, chain)) ==> h in rpc.values && rpc.values[h] == rules.value(h)
  }

  /** The height that the two stores have in common, and that was asked for. */
  ghost predicate IsCommon(n: int, toHeight: int, stake: nat, pool: nat) {
    && 0 <= n <= stake && n <= pool
    && (if toHeight >= 0 then n <= toHeight else n == 0)
    && (n == stake || n == pool || n == toHeight || n == 0 > toHeight)
  }

  /** There is one such height. */
  lemma OneCommon(n: int, toHeight: int, stake: nat, pool: nat)
    requires IsCommon(n, toHeight, stake, pool)
    ensures forall m :: IsCommon(m, toHeight, stake, pool) ==> m == n
  {
  }

  /** LoadAndRecover after both stores are opened. It ends at the common height, or, when a diff
      below it fails its size check, just below the first one that does. In the first case the
      pool is replayed to the tip; over a well-formed log that is the only case. */
  method Recover(db: StakeDatabase, toHeight: int, rpc: Rpc) returns (r: Result)
    requires db.PoolDB.Valid() && |db.chain| == |db.node|
    requires db.PoolDB.cursor == 0 && db.PoolDB.pool == {}
    requires forall n :: 0 <= n <= |db.node| ==> NoRepeats(db.rules.live(db.node[..n]))
    modifies db, db.PoolDB
    ensures db.PoolDB.Valid() && |db.chain| == |db.node|
    ensures r == Done ==>
              && db.poolValue == Sum(db.liveTickets, TicketValue)
              && |db.node| == db.PoolDB.tip <= old(db.PoolDB.tip) && |db.node| <= |old(db.node)|
              && (if toHeight >= 0 then |db.node| <= toHeight else |db.node| == 0)
              && (|| |db.node| == |old(db.node)| || |db.node| == old(db.PoolDB.tip) || |db.node| == toHeight || |db.node| == 0 > toHeight
                  || |db.node| == GoodPrefix(old(db.PoolDB.diffs)))
              && db.node == old(db.node)[..|db.node|] && db.PoolDB.diffs == old(db.PoolDB.diffs)[..|db.node|]
              && |db.node| <= GoodPrefix(old(db.PoolDB.diffs))
    ensures r == Done && IsCommon(|db.node|, toHeight, |old(db.node)|, old(db.PoolDB.tip)) ==>
              && db.PoolDB.Replaying() && db.PoolDB.cursor == db.PoolDB.tip
              && (LogOk(db.PoolDB.diffs) ==> db.PoolDB.Tracking())
    ensures r == Done && !IsCommon(|db.node|, toHeight, |old(db.node)|, old(db.PoolDB.tip)) ==>
              |db.node| == GoodPrefix(old(db.PoolDB.diffs)) < old(db.PoolDB.tip)
  {
    r := RollAndReplay(db, toHeight, rpc);
    if r == Done {
      assert db.node == old(db.node)[..|db.node|];
      r := PopulateLiveTicketCache(db, rpc);
    }
  }

  /** LoadAndRecover but for the live tickets. */
  method RollAndReplay(db: StakeDatabase, toHeight: int, rpc: Rpc) returns (r: Result)
    requires db.PoolDB.Valid() && |db.chain| == |db.node|
    requires db.PoolDB.cursor == 0 && db.PoolDB.pool == {}
    modifies db`node, db`tipHash, db`chain, db`liveTickets, db`poolValue
    modifies db.PoolDB`tip, db.PoolDB`cursor, db.PoolDB`pool, db.PoolDB`diffs
    ensures db.PoolDB.Valid() && |db.chain| == |db.node|
    ensures r == Done ==>
              && |db.node| == db.PoolDB.tip <= old(db.PoolDB.tip) && |db.node| <= |old(db.node)|
              && (if toHeight >= 0 then |db.node| <= toHeight else |db.node| == 0)
              && db.node == old(db.node)[..|db.node|] && db.PoolDB.diffs == old(db.PoolDB.diffs)[..|db.node|]
              && |db.node| <= GoodPrefix(old(db.PoolDB.diffs))
              && (if IsCommon(|db.node|, toHeight, |old(db.node)|, old(db.PoolDB.tip))
                  then db.PoolDB.Replaying() && db.PoolDB.cursor == db.PoolDB.tip
                  else |db.node| == GoodPrefix(old(db.PoolDB.diffs)) < old(db.PoolDB.tip))
  {
    r := RollBack(db, toHeight, rpc);
    if r != Done {
      return;
    }
    GoodPrefixCut(old(db.PoolDB.diffs), |db.node|);
    OneCommon(|db.node|, toHeight, |old(db.node)|, old(db.PoolDB.tip));
    r := ReplayOrRewind(db, rpc);
  }

  /** The replay of LoadAndRecover, and the rewind when it stops: both stores end at the tip,
      with the pool replayed, or just below the first diff that fails its size check. */
  method ReplayOrRewind(db: StakeDatabase, rpc: Rpc) returns (r: Result)
    requires db.PoolDB.Valid() && |db.chain| == |db.node| == db.PoolDB.tip
    requires db.PoolDB.cursor == 0 && db.PoolDB.pool == {}
    modifies db`node, db`tipHash, db`chain, db`liveTickets, db`poolValue
    modifies db.PoolDB`tip, db.PoolDB`cursor, db.PoolDB`pool, db.PoolDB`diffs
    ensures db.PoolDB.Valid() && |db.chain| == |db.node|
    ensures r == Done ==>
              && |db.node| == db.PoolDB.tip == GoodPrefix(old(db.PoolDB.diffs)) <= |old(db.node)|
              && db.node == old(db.node)[..|db.node|] && db.PoolDB.diffs == old(db.PoolDB.diffs)[..|db.node|]
              && (|db.node| == |old(db.node)| ==> db.PoolDB.Replaying() && db.PoolDB.cursor == db.PoolDB.tip)
  {
    assert db.PoolDB.diffs[..0] == [];
    var stopHeight, advanced := db.PoolDB.AdvanceToTip();
    StopsWhere(db.PoolDB.diffs, stopHeight, advanced == TP.Ok);
    r := Done;
    if advanced != TP.Ok {
      r := Rewind(db, stopHeight - 1, true, rpc);
    }
  }

  lemma StopsWhere(log: seq<PoolDiff>, at: int, ok: bool)
    requires if ok then at == |log| && TP.SizesBetween(log, 0, at) else TP.StoppedAt(log, 0, at)
    ensures GoodPrefix(log) == if ok then |log| else at - 1
    ensures !ok ==> 0 < at <= |log|
  {
    GoodPrefixUnique(log, if ok then |log| else at - 1);
  }

  /** What NewStakeDatabase does once the diffs are loaded: cut, replay, populate. */
  method BringUp(db: StakeDatabase, rpc: Rpc) returns (r: Result)
    requires db.PoolDB.Valid() && |db.chain| == |db.node|
    requires db.PoolDB.cursor == 0 && db.PoolDB.pool == {}
    requires forall n :: 0 <= n <= |db.node| ==> NoRepeats(db.rules.live(db.node[..n]))
    modifies db`node, db`tipHash, db`chain, db`liveTickets, db`poolValue
    modifies db.PoolDB`tip, db.PoolDB`cursor, db.PoolDB`pool, db.PoolDB`diffs
    ensures db.PoolDB.Valid()
    ensures r == Done ==>
              && RolledBack(db, Min(|old(db.node)|, old(db.PoolDB.tip)), old(db.node), old(db.chain), old(db.PoolDB.diffs))
              && db.PoolDB.cursor == db.PoolDB.tip
              && db.poolValue == Sum(db.liveTickets, TicketValue)
    ensures |old(db.node)| <= old(db.PoolDB.tip) && LogOk(old(db.PoolDB.diffs)[..|old(db.node)|]) ==>
              && db.node == old(db.node) && db.tipHash == old(db.tipHash) && db.chain == old(db.chain)
              && db.PoolDB.diffs == old(db.PoolDB.diffs)[..|db.node|]
              && db.PoolDB.Tracking() && db.PoolDB.cursor == |db.node|
              && db.liveTickets == Found(db.rules.live(db.node), rpc.values)
              && db.poolValue == Sum(db.liveTickets, TicketValue)
              && (r == Done <==> AllFound(db.rules.live(db.node), rpc.values))
  {
    r := Equalize(db, rpc);
    if r != Done {
      return;
    }
    assert db.PoolDB.diffs[..0] == [];
    var _, advanced := db.PoolDB.AdvanceToTip();
    if advanced != TP.Ok {
      return Failed;
    }
    assert db.node == old(db.node)[..|db.node|];
    r := PopulateLiveTicketCache(db, rpc);
  }

  /** NewStakeDatabase on what the two stores hold: the stake store a node with its tip, the
      diff store `disk`. */
  method NewStakeDatabase(rules: Rules, node: seq<NodeInput>, tipHash: Hash, items: seq<(seq<byte>, Item)>,
                          disk: Store, rpc: Rpc, ghost chain: seq<Block>, ghost full: seq<PoolDiff>)
    returns (db: StakeDatabase?, r: Result)
    requires |chain| == |node| && Iterates(items, disk) && |items| < TWO_64 - 1
    requires forall n :: 0 <= n <= |node| ==> NoRepeats(rules.live(node[..n]))
    ensures r == Done ==> db != null
    ensures db != null ==> fresh(db) && fresh(db.PoolDB) && db.rules == rules && db.blockCache == map[] && db.PoolDB.Valid()
    ensures db != null && r == Done ==>
              |db.node| == db.PoolDB.tip == db.PoolDB.cursor && db.poolValue == Sum(db.liveTickets, TicketValue)
    ensures Holds(disk, full) && |node| <= |full| && LogOk(full[..|node|]) ==>
              && db != null && db.node == node && db.tipHash == tipHash && db.chain == chain
              && db.PoolDB.diffs == full[..|node|] && db.PoolDB.Tracking() && db.PoolDB.cursor == |node|
              && db.PoolDB.stored == full && db.PoolDB.diffDB == disk
              && db.liveTickets == Found(rules.live(node), rpc.values)
              && db.poolValue == Sum(db.liveTickets, TicketValue)
              && (r == Done <==> AllFound(rules.live(node), rpc.values))
  {
    ReadsIsHolds(disk, full);
    var tp := TP.NewTicketPool(items, disk);
    if tp == null {
      return null, Failed;
    }
    db := new StakeDatabase(rules, tp, node, tipHash, chain);
    r := BringUp(db, rpc);
  }

  /** Restart between operations: from what a canonical database has on disk, stale diff
      entries above the tip included, start-up reproduces the same database, with an empty
      block cache and the pool replayed to the tip. */
  method Restart(was: StakeDatabase, items: seq<(seq<byte>, Item)>, rpc: Rpc) returns (db: StakeDatabase?, r: Result)
    requires was.Canonical() && was.PoolDB.Persisted() && NodeAgrees(was.rules, was.chain, rpc)
    requires Iterates(items, was.PoolDB.diffDB) && |items| < TWO_64 - 1
    requires forall n :: 0 <= n <= |was.node| ==> NoRepeats(was.rules.live(was.node[..n]))
    ensures r == Done && db != null && db.Canonical() && db.PoolDB.Persisted() && db.rules == was.rules
    ensures db.chain == was.chain && db.node == was.node && db.PoolDB.diffs == was.PoolDB.diffs
    ensures db.liveTickets == was.liveTickets && db.poolValue == was.poolValue
    ensures db.PoolDB.cursor == db.PoolDB.tip && db.blockCache == map[]
  {
    var disk := was.PoolDB.diffDB;
    assert was.PoolDB.diffs == was.PoolDB.stored[..|was.node|];
    FoundIsLive(was.rules, was.chain, rpc);
    db, r := NewStakeDatabase(was.rules, was.node, was.tipHash, items, disk, rpc, was.chain, was.PoolDB.stored);
    assert CacheOk(db.rules, db.chain, map[]);
  }

  /** A new installation: an empty diff store and a stake store at genesis, where no ticket is
      live. Start-up gives the canonical database of the empty chain. */
  method FreshStart(rules: Rules, items: seq<(seq<byte>, Item)>, disk: Store, rpc: Rpc) returns (db: StakeDatabase)
    requires rules.maturity >= 1 && Linked(rules, []) && rules.live([]) == []
    requires Iterates(items, disk) && |items| < TWO_64 - 1 && Holds(disk, [])
    ensures fresh(db) && fresh(db.PoolDB) && db.rules == rules && db.chain == [] && db.blockCache == map[]
    ensures db.Canonical() && db.PoolDB.Persisted()
  {
    var started, r := NewStakeDatabase(rules, [], rules.genesis.hash, items, disk, rpc, [], []);
    db := started;
    assert db.liveTickets == map[];
    assert db.NodeOk() && db.LogOfChain();
  }

  lemma FoundIsLive(rules: Rules, chain: seq<Block>, rpc: Rpc)
    requires NodeAgrees(rules, chain, rpc)
    ensures AllFound(rules.live(Inputs(rules, chain)), rpc.values)
    ensures Found(rules.live(Inputs(rules, chain)), rpc.values) == LiveMap(rules, Replay(Log(rules, chain)))
  {
    var live := rules.live(Inputs(rules, chain));
    assert forall h :: h in live <==> h in Elems(live);
  }
}

/** How a connect can take the wrong tickets for maturing: a block cache polluted by a failed
    connect, and a node that has moved to another chain while the block is not cached
    (stakedb/stakedb.go). */
module StakeFaults {
  import opened Types
  import opened PoolDiffs
  import opened DiffCodec
  import opened DiffStore
  import opened StakeChain
  import opened StakeDB
  import opened Recovery
  import Reorg
  import TP = TicketPools

  /** A failed connect of a foreign block, at the height whose tickets mature next, makes the
      next connect take the foreign block's tickets. */
  method PollutedConnect(db: StakeDatabase, foreign: Block, next: Block, rpc: Rpc) returns (first: Result)
    requires db.Canonical() && |db.chain| + 1 < TP.MAX_HEIGHT
    requires foreign.height == |db.chain| + 1 - db.rules.maturity && next.height == |db.chain| + 1
    requires foreign.hash != TipHash(db.rules, db.chain)
    requires MaturingTickets(db.rules, db.blockCache, rpc, foreign.height).Some?
    modifies db, db.PoolDB
    ensures first == Failed && db.chain == old(db.chain) && db.node == old(db.node)
    ensures db.liveTickets == old(db.liveTickets) && db.poolValue == old(db.poolValue) && unchanged(db.PoolDB)
    ensures MaturingTickets(db.rules, db.blockCache, rpc, next.height) == Some(foreign.tickets)
    ensures InputFor(db.rules, db.blockCache, next, rpc).maturing == TicketHashes(foreign.tickets)
    ensures TicketHashes(foreign.tickets) != MaturingAt(db.rules, db.chain, |db.chain| + 1) ==> !db.Canonical()
  {
    first := db.ConnectOld(foreign, rpc);
    if foreign == BlockAt(db.rules, db.chain, foreign.height) {
      assert TicketHashes(foreign.tickets) == MaturingAt(db.rules, db.chain, |db.chain| + 1);
    }
  }

  // ---- One ticket that never matured ----

  const GENESIS := Block(1, ZERO_HASH, 0, [])

  /** Two blocks of one chain, without tickets. */
  const A1 := Block(2, 1, 1, [])
  const A2 := Block(3, 2, 2, [])

  /** The first block of another chain, with one ticket. */
  const B1 := Block(9, 1, 1, [Ticket(7, 100)])

  /** Tickets mature in one block, nobody wins, nothing expires, every block is accepted. */
  const RULES := Rules((n: seq<NodeInput>) => [], (n: seq<NodeInput>) => [], (n: seq<NodeInput>, i: NodeInput) => true,
                       (n: seq<NodeInput>) => [], (h: Hash) => 100, 1, GENESIS)

  /** A node on the chain of A2, and the same node after it has moved to the chain of B1. */
  const HOME := Rpc(map[1 := GENESIS, 2 := A1, 3 := A2], map[0 := 1, 1 := 2, 2 := 3], map[])
  const MOVED := Rpc(map[1 := GENESIS, 2 := A1, 3 := A2, 9 := B1], map[0 := 1, 1 := 9], map[])

  const VERSION_ONLY: Store := map[VERSION_KEY := VERSION_ITEM]

  method NewDatabase() returns (db: StakeDatabase)
    ensures fresh(db) && fresh(db.PoolDB) && db.rules == RULES && db.chain == [] && db.blockCache == map[]
    ensures db.Canonical() && db.PoolDB.Persisted()
  {
    EmptyHolds();
    var items := [(VERSION_KEY, VERSION_ITEM)];
    assert items[0].0 == VERSION_KEY;
    db := FreshStart(RULES, items, VERSION_ONLY, HOME);
  }

  /** A block on top of a chain without tickets adds a node input without maturing tickets and
      an empty diff. */
  lemma EmptyNext(chain: seq<Block>, b: Block)
    requires Replay(Log(RULES, chain)) == {} && LogOk(Log(RULES, chain)) && BlockAt(RULES, chain, |chain|).tickets == []
    ensures MaturingAt(RULES, chain, |chain| + 1) == []
    ensures Log(RULES, chain + [b]) == Log(RULES, chain) + [EMPTY_DIFF]
    ensures Replay(Log(RULES, chain + [b])) == {} && LogOk(Log(RULES, chain + [b]))
  {
    InputsSnoc(RULES, chain, b);
    var input := NodeInput(b, []);
    assert TicketHashes([]) == [];
    assert RULES.winners(Inputs(RULES, chain)) + RULES.expired(Inputs(RULES, chain) + [input]) == [];
    assert DiffOf(RULES, Inputs(RULES, chain), input) == EMPTY_DIFF;
    ReplaySnoc(Log(RULES, chain), EMPTY_DIFF);
  }

  /** Neither chain has a live ticket. */
  lemma NothingLive()
    ensures Log(RULES, [A1]) == [EMPTY_DIFF] && Log(RULES, [A1, A2]) == [EMPTY_DIFF, EMPTY_DIFF]
    ensures Replay(Log(RULES, [A1])) == {} && LogOk(Log(RULES, [A1]))
    ensures Replay(Log(RULES, [A1, A2])) == {} && LogOk(Log(RULES, [A1, A2]))
    ensures MaturingAt(RULES, [], 1) == [] && MaturingAt(RULES, [A1], 2) == []
  {
    assert Log(RULES, []) == [];
    EmptyNext([], A1);
    assert [] + [A1] == [A1];
    EmptyNext([A1], A2);
    assert [A1] + [A2] == [A1, A2];
  }

  lemma ChainsLinked()
    ensures Linked(RULES, []) && Linked(RULES, [A1]) && Linked(RULES, [A1, A2])
  {
    assert LinkAt(RULES, [A1], 0);
    assert LinkAt(RULES, [A1, A2], 0) && LinkAt(RULES, [A1, A2], 1);
  }

  /** The caches after A1 is connected, and after A2 is: the maturing block is forgotten. */
  lemma CachesAfter()
    ensures CacheThen(RULES, map[], A1, HOME) == map[1 := A1]
    ensures CacheThen(RULES, map[1 := A1], A2, HOME) == map[2 := A2]
  {
  }

  /** A1 can be connected to a new database. */
  lemma FirstOk()
    ensures Reorg.OpOk(RULES, [], map[], Reorg.Connect(A1, HOME))
    ensures Reorg.ChainAfter(RULES, [], map[], Reorg.Connect(A1, HOME)) == [A1]
  {
    NothingLive();
    ChainsLinked();
    assert [] + [A1] == [A1];
  }

  /** A2 can be connected on top of it, */
  lemma SecondOk()
    ensures Reorg.OpOk(RULES, [A1], map[1 := A1], Reorg.Connect(A2, HOME))
    ensures Reorg.ChainAfter(RULES, [A1], map[1 := A1], Reorg.Connect(A2, HOME)) == [A1, A2]
  {
    NothingLive();
    ChainsLinked();
    assert [A1] + [A2] == [A1, A2];
  }

  /** and be disconnected again. */
  lemma ThirdOk()
    ensures Reorg.OpOk(RULES, [A1, A2], map[2 := A2], Reorg.Disconnect(HOME))
    ensures Reorg.ChainAfter(RULES, [A1, A2], map[2 := A2], Reorg.Disconnect(HOME)) == [A1]
  {
    NothingLive();
    assert [A1, A2][..1] == [A1];
  }

  /** The live tickets after the diff that the tickets of B1 make. */
  lemma WrongTicket(values: map<Hash, int>)
    ensures TicketHashes(B1.tickets) == [7] && |TicketValues(B1.tickets)| == 1
    ensures Grown(map[], [7], Some(TicketValues(B1.tickets)), values, 1) - Elems([]) == map[7 := 100]
  {
    var vals := TicketValues(B1.tickets);
    assert Grown(map[], [7], Some(vals), values, 0) == map[];
    assert Grown(map[], [7], Some(vals), values, 1) == map[7 := 100];
  }

  /** What a connect of A2 on top of A1 does when it takes the tickets of B1. */
  method ConnectSecond(db: StakeDatabase, rpc: Rpc) returns (r: Result)
    requires db.rules == RULES && db.chain == [A1] && |db.node| == 1 && db.liveTickets == map[] && db.PoolDB.tip == 1 && db.PoolDB.Valid()
    requires MaturingTickets(RULES, db.blockCache, rpc, 2) == Some(B1.tickets)
    modifies db, db.PoolDB
    ensures r == Done && db.chain == [A1, A2] && db.liveTickets.Keys == {7}
  {
    WrongTicket(rpc.values);
    var input := InputFor(RULES, db.blockCache, A2, rpc);
    var d := DiffOf(RULES, db.node, input);
    assert d.ins == [7] && d.outs == [];
    r := db.ConnectBlock(A2, rpc, WORKING);
  }

  /** A live ticket where the chain has none. */
  lemma NotCanonical(db: StakeDatabase)
    requires db.rules == RULES && db.chain == [A1, A2] && db.liveTickets.Keys == {7}
    ensures Replay(Log(RULES, db.chain)) == {} && !db.Canonical()
  {
    NothingLive();
    assert LiveMap(RULES, {}) == map[];
    assert 7 in db.liveTickets;
  }

  /** A database with A1 connected, and A1 cached. */
  method WithFirst() returns (db: StakeDatabase)
    ensures fresh(db) && fresh(db.PoolDB) && db.rules == RULES && db.chain == [A1] && db.blockCache == map[1 := A1]
    ensures db.Canonical() && db.PoolDB.Persisted()
  {
    db := NewDatabase();
    FirstOk();
    CachesAfter();
    Reorg.Perform(db, Reorg.Connect(A1, HOME));
  }

  /** A failed connect of B1 at the height of A1, then a successful one of A2: a ticket is live
      that was never bought on this chain. */
  method PollutedCache() returns (db: StakeDatabase, first: Result, second: Result)
    ensures first == Failed && second == Done && db.chain == [A1, A2]
    ensures db.liveTickets.Keys == {7} && Replay(Log(RULES, db.chain)) == {} && !db.Canonical()
  {
    db := WithFirst();
    NothingLive();
    first := PollutedConnect(db, B1, A2, HOME);
    second := ConnectSecond(db, HOME);
    NotCanonical(db);
  }

  /** A2 is connected, which forgets A1, and disconnected again; then the node moves to the
      chain of B1 and A2 is connected once more. The lookup by height takes B1: the same
      ticket, without any failed connect. */
  method UncachedTakesWrong() returns (db: StakeDatabase, r: Result)
    ensures r == Done && db.chain == [A1, A2]
    ensures db.liveTickets.Keys == {7} && Replay(Log(RULES, db.chain)) == {} && !db.Canonical()
  {
    db := Forgetful();
    NothingLive();
    NotServed();
    r := ConnectSecond(db, MOVED);
    NotCanonical(db);
  }

  lemma NotServed()
    ensures !MaturingFound(RULES, [A1], map[2 := A2], MOVED)
    ensures MaturingTickets(RULES, map[2 := A2], MOVED, 2) == Some(B1.tickets)
  {
    assert BlockAt(RULES, [A1], 1).tickets == [];
  }

  /** A1 connected, and no longer cached. */
  method Forgetful() returns (db: StakeDatabase)
    ensures fresh(db) && fresh(db.PoolDB) && db.rules == RULES && db.chain == [A1] && db.blockCache == map[2 := A2]
    ensures db.Canonical() && db.PoolDB.Persisted()
  {
    db := WithFirst();
    SecondOk();
    ThirdOk();
    CachesAfter();
    Reorg.Perform(db, Reorg.Connect(A2, HOME));
    Reorg.Perform(db, Reorg.Disconnect(HOME));
  }

  /** The same run without the move is right. */
  method ServedTakesRight() returns (db: StakeDatabase)
    ensures db.Canonical() && db.chain == [A1, A2] && db.liveTickets.Keys == {}
  {
    db := NewDatabase();
    var ops := [Reorg.Connect(A1, HOME), Reorg.Connect(A2, HOME), Reorg.Disconnect(HOME), Reorg.Connect(A2, HOME)];
    HomeRunOk(ops);
    NothingLive();
    Reorg.PerformAll(db, ops);
  }

  lemma HomeRunOk(ops: seq<Reorg.Op>)
    requires ops == [Reorg.Connect(A1, HOME), Reorg.Connect(A2, HOME), Reorg.Disconnect(HOME), Reorg.Connect(A2, HOME)]
    ensures Reorg.RunOk(RULES, [], map[], ops)
    ensures Reorg.ChainAfterAll(RULES, [], map[], ops) == [A1, A2]
  {
    FirstOk();
    SecondOk();
    ThirdOk();
    CachesAfter();
    NothingLive();
    ChainsLinked();
    var op := Reorg.Connect(A2, HOME);
    assert MaturingServed(RULES, [A1], HOME);
    assert [A1] + [A2] == [A1, A2];
    assert Reorg.OpOk(RULES, [A1], map[2 := A2], op);
    assert Reorg.ChainAfter(RULES, [A1], map[2 := A2], op) == [A1, A2];
    assert ops[3..] == [op] && [op][1..] == [];
    assert Reorg.RunOk(RULES, [A1], map[2 := A2], [op]) && Reorg.ChainAfterAll(RULES, [A1], map[2 := A2], [op]) == [A1, A2];
    assert ops[2..] == [ops[2]] + [op] && ops[2..][1..] == [op];
    assert Reorg.RunOk(RULES, [A1, A2], map[2 := A2], ops[2..]) && Reorg.ChainAfterAll(RULES, [A1, A2], map[2 := A2], ops[2..]) == [A1, A2];
    assert ops[1..][1..] == ops[2..];
    assert Reorg.RunOk(RULES, [A1], map[1 := A1], ops[1..]) && Reorg.ChainAfterAll(RULES, [A1], map[1 := A1], ops[1..]) == [A1, A2];
  }
}

/** The stake node and the ticket pool as functions of the connected chain. */
module StakeChain {
  import opened Types
  import opened PoolDiffs

  datatype Ticket = Ticket(hash: Hash, value: int)

  /** A block: its identity, its place in the chain and the tickets it buys. */
  datatype Block = Block(hash: Hash, prev: Hash, height: nat, tickets: seq<Ticket>)

  /** What ConnectNode is given for one block; spent and revoked tickets come from the block. */
  datatype NodeInput = NodeInput(block: Block, maturing: seq<Hash>)

  /** The stake node, a deterministic function of everything connected to it so far. */
  datatype Rules = Rules(
    winners: seq<NodeInput> -> seq<Hash>,
    expired: seq<NodeInput> -> seq<Hash>,
    accepts: (seq<NodeInput>, NodeInput) -> bool,
    live: seq<NodeInput> -> seq<Hash>,
    value: Hash -> int,
    maturity: nat,
    genesis: Block)

  function TicketHashes(ts: seq<Ticket>): (r: seq<Hash>)
    ensures |r| == |ts| && forall i :: 0 <= i < |r| ==> r[i] == ts[i].hash
  {
    seq(|ts|, i requires 0 <= i < |ts| => ts[i].hash)
  }

  /** The diff of a connected block: maturing tickets in, winners and expired tickets out. */
  function DiffOf(rules: Rules, node: seq<NodeInput>, input: NodeInput): PoolDiff {
    PoolDiff(input.maturing, rules.winners(node) + rules.expired(node + [input]))
  }

  function DiffsOf(rules: Rules, node: seq<NodeInput>): (r: seq<PoolDiff>)
    ensures |r| == |node|
  {
    if node == [] then []
    else DiffsOf(rules, node[..|node| - 1]) + [DiffOf(rules, node[..|node| - 1], node[|node| - 1])]
  }

  /** The block of `chain` at a height; genesis is at height 0 and not part of `chain`. */
  function BlockAt(rules: Rules, chain: seq<Block>, h: nat): Block
    requires h <= |chain|
  {
    if h == 0 then rules.genesis else chain[h - 1]
  }

  /** Block `i` of the chain sits on the one before it, and its ticket values are right. */
  predicate LinkAt(rules: Rules, chain: seq<Block>, i: nat)
    requires i < |chain|
  {
    && chain[i].height == i + 1
    && chain[i].prev == BlockAt(rules, chain, i).hash
    && forall t :: t in chain[i].tickets ==> t.value == rules.value(t.hash)
  }

  /** Parent links, heights, and ticket values that agree with the transactions. */
  predicate Linked(rules: Rules, chain: seq<Block>) {
    && rules.genesis.height == 0
    && rules.genesis.prev == ZERO_HASH
    && (forall t :: t in rules.genesis.tickets ==> t.value == rules.value(t.hash))
    && forall i {:trigger LinkAt(rules, chain, i)} :: 0 <= i < |chain| ==> LinkAt(rules, chain, i)
  }

  /** The tickets that mature in the block at height `h` on top of `chain`. */
  function MaturingAt(rules: Rules, chain: seq<Block>, h: nat): seq<Hash>
    requires rules.maturity >= 1 && h <= |chain| + 1
  {
    if h < rules.maturity then []
    else TicketHashes(BlockAt(rules, chain, h - rules.maturity).tickets)
  }

  /** What the stake node has been given once exactly the blocks of `chain` are connected,
      each with the maturing tickets of the block `maturity` below it on this chain. */
  function Inputs(rules: Rules, chain: seq<Block>): (r: seq<NodeInput>)
    requires rules.maturity >= 1
    ensures |r| == |chain|
  {
    if chain == [] then []
    else
      var p, b := chain[..|chain| - 1], chain[|chain| - 1];
      Inputs(rules, p) + [NodeInput(b, MaturingAt(rules, p, |chain|))]
  }

  function Log(rules: Rules, chain: seq<Block>): (r: seq<PoolDiff>)
    requires rules.maturity >= 1
    ensures |r| == |chain|
  {
    DiffsOf(rules, Inputs(rules, chain))
  }

  /** The live tickets of a pool with their values. */
  function LiveMap(rules: Rules, pool: set<Hash>): map<Hash, int> {
    map h | h in pool :: rules.value(h)
  }

  lemma InputsSnoc(rules: Rules, chain: seq<Block>, b: Block)
    requires rules.maturity >= 1
    ensures var input := NodeInput(b, MaturingAt(rules, chain, |chain| + 1));
            && Inputs(rules, chain + [b]) == Inputs(rules, chain) + [input]
            && Log(rules, chain + [b]) == Log(rules, chain) + [DiffOf(rules, Inputs(rules, chain), input)]
  {
    assert (chain + [b])[..|chain|] == chain;
    var node, input := Inputs(rules, chain), NodeInput(b, MaturingAt(rules, chain, |chain| + 1));
    assert (node + [input])[..|node|] == node;
  }

  lemma InputsDrop(rules: Rules, chain: seq<Block>)
    requires rules.maturity >= 1 && chain != []
    ensures var p := chain[..|chain| - 1];
            && Inputs(rules, chain)[..|p|] == Inputs(rules, p)
            && Log(rules, chain)[..|p|] == Log(rules, p)
  {
    var p := chain[..|chain| - 1];
    assert chain == p + [chain[|p|]];
    InputsSnoc(rules, p, chain[|p|]);
  }

  lemma {:induction false} LogPrefix(rules: Rules, chain: seq<Block>, n: nat)
    requires rules.maturity >= 1 && n <= |chain|
    ensures Log(rules, chain[..n]) == Log(rules, chain)[..n]
    decreases |chain| - n
  {
    if n == |chain| {
      assert chain[..n] == chain;
    } else {
      LogPrefix(rules, chain, n + 1);
      InputsDrop(rules, chain[..n + 1]);
      assert chain[..n + 1][..n] == chain[..n];
    }
  }

  lemma LinkedPrefix(rules: Rules, chain: seq<Block>, n: nat)
    requires Linked(rules, chain) && n <= |chain|
    ensures Linked(rules, chain[..n])
  {
    forall i | 0 <= i < n ensures LinkAt(rules, chain[..n], i) {
      assert LinkAt(rules, chain, i);
      assert BlockAt(rules, chain[..n], i) == BlockAt(rules, chain, i);
    }
  }

  /** The cached blocks that matter, those up to the tip, are blocks of the chain. */
  predicate CacheOk(rules: Rules, chain: seq<Block>, cache: map<int, Block>) {
    forall h :: h in cache && 0 <= h <= |chain| ==> cache[h] == BlockAt(rules, chain, h)
  }

  /** Caching a block keeps the cache right exactly when the block is above the tip or is
      the chain's own block at that height. A failed connect at or below the tip caches its
      block all the same. */
  lemma CacheStoreIff(rules: Rules, chain: seq<Block>, cache: map<int, Block>, b: Block)
    requires CacheOk(rules, chain, cache)
    ensures CacheOk(rules, chain, cache[b.height := b])
       <==> b.height > |chain| || b == BlockAt(rules, chain, b.height)
  {
    var cache' := cache[b.height as int := b];
    assert cache'[b.height as int] == b;
  }

  lemma CacheGrow(rules: Rules, chain: seq<Block>, cache: map<int, Block>, b: Block)
    requires CacheOk(rules, chain, cache) && b.height == |chain| + 1
    ensures CacheOk(rules, chain + [b], cache[b.height := b])
  {
    var cache' := cache[b.height as int := b];
    forall h | h in cache' && 0 <= h <= |chain| + 1
      ensures cache'[h] == BlockAt(rules, chain + [b], h)
    {
      if h <= |chain| {
        assert cache[h] == BlockAt(rules, chain, h);
      }
    }
  }

  lemma CacheShrink(rules: Rules, chain: seq<Block>, cache: map<int, Block>)
    requires CacheOk(rules, chain, cache) && chain != []
    ensures CacheOk(rules, chain[..|chain| - 1], cache)
  {
    forall h | h in cache && 0 <= h <= |chain| - 1
      ensures cache[h] == BlockAt(rules, chain[..|chain| - 1], h)
    {
      assert cache[h] == BlockAt(rules, chain, h);
    }
  }
}

/** StakeDatabase: the stake node, its block cache, the live ticket map with the pool value,
    and the ticket pool log, kept in step by connect and disconnect (stakedb/stakedb.go). */
module StakeDB {
  import opened Types
  import opened Sums
  import opened PoolDiffs
  import opened DiffCodec
  import opened StakeChain
  import TP = TicketPools

  /** What the node's RPC client answers: blocks by hash, main chain hashes by height, and
      ticket values by transaction hash. A missing key is an error. */
  datatype Rpc = Rpc(blocks: map<Hash, Block>, main: map<int, Hash>, values: map<Hash, int>)

  datatype Result = Done | Failed | Panicked

  /** What the stores answer in one call: whether the stake node can be taken back, whether the
      stake store accepts the new best node, and whether the diff store accepts the new diff. */
  datatype Stores = Stores(disconnectOk: bool, writeOk: bool, diffOk: bool)

  const WORKING := Stores(true, true, true)

  function TicketValue(h: Hash, v: int): int { v }

  /** What a map of tickets is worth: nothing when empty, and one more ticket adds its value. */
  lemma ValueAdds(m: map<Hash, int>, h: Hash, v: int)
    requires h !in m
    ensures Sum(map[], TicketValue) == 0
    ensures Sum(m[h := v], TicketValue) == Sum(m, TicketValue) + v
  {
    SumInsert(m, TicketValue, h, v);
  }

  /** What the tickets of a set are worth. */
  ghost function ValueOf(rules: Rules, s: set<Hash>): int {
    Sum(LiveMap(rules, s), TicketValue)
  }

  lemma {:induction false} ValueSplit(rules: Rules, s: set<Hash>, part: set<Hash>)
    requires part <= s
    ensures ValueOf(rules, s) == ValueOf(rules, s - part) + ValueOf(rules, part)
    decreases part
  {
    if part == {} {
      assert s - part == s && LiveMap(rules, part) == map[];
    } else {
      var h :| h in part;
      ValueSplit(rules, s, part - {h});
      SumRemove(LiveMap(rules, part), TicketValue, h);
      SumRemove(LiveMap(rules, s - (part - {h})), TicketValue, h);
      assert LiveMap(rules, part) - {h} == LiveMap(rules, part - {h});
      assert s - (part - {h}) - {h} == s - part;
      assert LiveMap(rules, s - (part - {h})) - {h} == LiveMap(rules, s - part);
    }
  }

  /** A well-formed diff moves the value of the pool by what came in and what went out. */
  lemma ValueMoves(rules: Rules, pool: set<Hash>, d: PoolDiff)
    requires WellFormed(pool, d)
    ensures ValueOf(rules, Forward(pool, d)) ==
              ValueOf(rules, pool) + ValueOf(rules, Elems(d.ins)) - ValueOf(rules, Elems(d.outs))
  {
    var grown := pool + Elems(d.ins);
    ValueSplit(rules, grown, Elems(d.ins));
    assert grown - Elems(d.ins) == pool;
    ValueSplit(rules, grown, Elems(d.outs));
  }

  /** The price of `ins[i]`: given with the diff, or looked up. */
  function PriceOf(ins: seq<Hash>, inVals: Option<seq<int>>, values: map<Hash, int>, i: nat): Option<int>
    requires i < |ins| && (inVals.Some? ==> |inVals.value| == |ins|)
  {
    if inVals.Some? then Some(inVals.value[i])
    else if ins[i] in values then Some(values[ins[i]]) else None
  }

  /** The live ticket map after the first `n` incoming tickets: known tickets and tickets
      without a price are skipped. */
  function Grown(m: map<Hash, int>, ins: seq<Hash>, inVals: Option<seq<int>>, values: map<Hash, int>, n: nat): map<Hash, int>
    requires n <= |ins| && (inVals.Some? ==> |inVals.value| == |ins|)
  {
    if n == 0 then m else
      var g, p := Grown(m, ins, inVals, values, n - 1), PriceOf(ins, inVals, values, n - 1);
      if ins[n - 1] in g || p.None? then g else g[ins[n - 1] := p.value]
  }

  /** Every incoming ticket has its right price. */
  ghost predicate Priced(rules: Rules, ins: seq<Hash>, inVals: Option<seq<int>>, values: map<Hash, int>) {
    && (inVals.Some? ==> |inVals.value| == |ins|)
    && forall i :: 0 <= i < |ins| ==> PriceOf(ins, inVals, values, i) == Some(rules.value(ins[i]))
  }

  /** With right prices, adding tickets to the map of a pool gives the map of the larger pool. */
  lemma {:induction false} GrownIsLive(rules: Rules, pool: set<Hash>, ins: seq<Hash>,
                                       inVals: Option<seq<int>>, values: map<Hash, int>, n: nat)
    requires n <= |ins| && Priced(rules, ins, inVals, values)
    ensures Grown(LiveMap(rules, pool), ins, inVals, values, n) == LiveMap(rules, pool + Elems(ins[..n]))
  {
    if n == 0 {
      assert pool + Elems(ins[..0]) == pool;
    } else {
      GrownIsLive(rules, pool, ins, inVals, values, n - 1);
      assert PriceOf(ins, inVals, values, n - 1) == Some(rules.value(ins[n - 1]));
      LiveMapNext(rules, pool + Elems(ins[..n - 1]), ins[n - 1]);
      ElemsNext(pool, ins, n);
    }
  }

  /** One more ticket in the map of a pool. */
  lemma LiveMapNext(rules: Rules, pool: set<Hash>, h: Hash)
    ensures (if h in LiveMap(rules, pool) then LiveMap(rules, pool) else LiveMap(rules, pool)[h := rules.value(h)])
         == LiveMap(rules, pool + {h})
  {
  }

  lemma ElemsNext(pool: set<Hash>, ins: seq<Hash>, n: nat)
    requires 0 < n <= |ins|
    ensures pool + Elems(ins[..n]) == pool + Elems(ins[..n - 1]) + {ins[n - 1]}
  {
    ElemsSnoc(ins[..n - 1], ins[n - 1]);
    assert ins[..n] == ins[..n - 1] + [ins[n - 1]];
  }

  /** The value of every ticket that left, and had not come in with the same diff, is looked up
      and right. */
  predicate OutsPriced(rules: Rules, d: PoolDiff, values: map<Hash, int>) {
    forall h :: h in d.outs && h !in d.ins ==> h in values && values[h] == rules.value(h)
  }

  /** What looked-up tickets add to a map. */
  lemma {:induction false} GrownLookup(m: map<Hash, int>, outs: seq<Hash>, values: map<Hash, int>, n: nat, h: Hash)
    requires n <= |outs|
    ensures h in Grown(m, outs, None, values, n) <==> h in m || (h in outs[..n] && h in values)
    ensures h in Grown(m, outs, None, values, n) ==>
              Grown(m, outs, None, values, n)[h] == if h in m then m[h] else values[h]
  {
    if n > 0 {
      GrownLookup(m, outs, values, n - 1, h);
      assert outs[..n] == outs[..n - 1] + [outs[n - 1]];
    }
  }

  /** Undoing a well-formed diff restores the map of the pool exactly when the lookups of the
      tickets that left succeed with their right values. A failed lookup loses a live ticket. */
  lemma UndoRestoresIff(rules: Rules, pool: set<Hash>, d: PoolDiff, values: map<Hash, int>)
    requires WellFormed(pool, d)
    ensures Grown(LiveMap(rules, Forward(pool, d)), d.outs, None, values, |d.outs|) - Elems(d.ins) == LiveMap(rules, pool)
       <==> OutsPriced(rules, d, values)
  {
    var m := LiveMap(rules, Forward(pool, d));
    var undone := Grown(m, d.outs, None, values, |d.outs|) - Elems(d.ins);
    BackwardUndoesForwardIff(pool, d);
    assert d.outs[..|d.outs|] == d.outs;
    forall h
      ensures h in undone <==> h !in d.ins && (h in m || (h in d.outs && h in values))
      ensures h in undone ==> undone[h] == if h in m then m[h] else values[h]
    {
      GrownLookup(m, d.outs, values, |d.outs|, h);
    }
    if undone == LiveMap(rules, pool) {
      forall h | h in d.outs && h !in d.ins ensures h in values && values[h] == rules.value(h) {
        assert h in pool && h !in m;
        assert h in undone;
      }
    } else if OutsPriced(rules, d, values) {
      forall h ensures h in undone <==> h in LiveMap(rules, pool) {
      }
    }
  }

  /** One ticket that left and cannot be looked up: it was live, and is not after the undo. */
  lemma LookupLosesTicket(rules: Rules, t: Hash)
    ensures var d := PoolDiff([], [t]);
            && WellFormed({t}, d) && Forward({t}, d) == {} && t in LiveMap(rules, {t})
            && t !in Grown(LiveMap(rules, {}), d.outs, None, map[], 1) - Elems(d.ins)
  {
    assert Elems([t]) == {t} && Elems<Hash>([]) == {};
    GrownLookup(LiveMap(rules, {}), [t], map[], 1, t);
  }

  lemma LiveApplied(rules: Rules, pool: set<Hash>, ins: seq<Hash>, inVals: Option<seq<int>>,
                    outs: seq<Hash>, values: map<Hash, int>)
    requires Priced(rules, ins, inVals, values)
    ensures Grown(LiveMap(rules, pool), ins, inVals, values, |ins|) - Elems(outs)
         == LiveMap(rules, Applied(pool, ins, outs))
  {
    GrownIsLive(rules, pool, ins, inVals, values, |ins|);
    assert ins[..|ins|] == ins;
  }

  function TipHash(rules: Rules, chain: seq<Block>): Hash {
    BlockAt(rules, chain, |chain|).hash
  }

  /** The client never answers with another block than those of this chain for their hashes. */
  ghost predicate Honest(rules: Rules, chain: seq<Block>, rpc: Rpc) {
    && ZERO_HASH !in rpc.blocks
    && forall h :: 0 <= h <= |chain| && BlockAt(rules, chain, h).hash in rpc.blocks ==>
         rpc.blocks[BlockAt(rules, chain, h).hash] == BlockAt(rules, chain, h)
  }

  /** The tip's header and its parent can be fetched. */
  predicate ParentKnown(rules: Rules, chain: seq<Block>, rpc: Rpc) {
    |chain| > 0 && TipHash(rules, chain) in rpc.blocks && BlockAt(rules, chain, |chain| - 1).hash in rpc.blocks
  }

  /** `block` is a valid next block on top of `chain`. */
  ghost predicate Extends(rules: Rules, chain: seq<Block>, block: Block) {
    Linked(rules, chain) && Linked(rules, chain + [block])
  }

  /** What the node's main chain has at the height whose tickets mature next are the tickets of
      the block of `chain`. */
  predicate MaturingServed(rules: Rules, chain: seq<Block>, rpc: Rpc) {
    var h := |chain| + 1 - rules.maturity;
    0 <= h <= |chain| ==>
      h in rpc.main && rpc.main[h] in rpc.blocks && rpc.blocks[rpc.main[h]].tickets == BlockAt(rules, chain, h).tickets
  }

  /** The block whose tickets mature next is cached, or the node has its tickets. */
  predicate MaturingFound(rules: Rules, chain: seq<Block>, cache: map<int, Block>, rpc: Rpc) {
    |chain| + 1 - rules.maturity in cache || MaturingServed(rules, chain, rpc)
  }

  /** Node, tip and block cache are what connecting `chain` produces. */
  ghost predicate NodeIs(rules: Rules, node: seq<NodeInput>, tipHash: Hash, cache: map<int, Block>, chain: seq<Block>) {
    && rules.maturity >= 1
    && Linked(rules, chain)
    && node == Inputs(rules, chain)
    && tipHash == TipHash(rules, chain)
    && CacheOk(rules, chain, cache)
  }

  /** What the node is after its last block is gone. */
  lemma NodeDrops(rules: Rules, node: seq<NodeInput>, tipHash: Hash, cache: map<int, Block>, chain: seq<Block>)
    requires NodeIs(rules, node, tipHash, cache, chain) && chain != []
    ensures NodeIs(rules, node[..|node| - 1], BlockAt(rules, chain, |chain| - 1).hash, cache, chain[..|chain| - 1])
  {
    var n := |chain| - 1;
    InputsDrop(rules, chain);
    LinkedPrefix(rules, chain, n);
    CacheShrink(rules, chain, cache);
    assert BlockAt(rules, chain[..n], n) == BlockAt(rules, chain, n);
  }

  /** What an honest client answers for the tip's parent. */
  lemma ParentFetched(rules: Rules, chain: seq<Block>, rpc: Rpc)
    requires Linked(rules, chain) && Honest(rules, chain, rpc)
    ensures var t := TipHash(rules, chain);
            && (ParentKnown(rules, chain, rpc) <==> t in rpc.blocks && rpc.blocks[t].prev in rpc.blocks)
            && (ParentKnown(rules, chain, rpc) ==>
                  rpc.blocks[rpc.blocks[t].prev] == BlockAt(rules, chain, |chain| - 1)
                  && BlockAt(rules, chain, |chain| - 1).height == |chain| - 1)
  {
    var n := |chain|;
    assert BlockAt(rules, chain, n).hash == TipHash(rules, chain);
    if n > 0 {
      assert LinkAt(rules, chain, n - 1);
      if n > 1 { assert LinkAt(rules, chain, n - 2); }
    }
  }

  /** What the client gives for the parent of the block named `tipHash`. */
  function FetchedParent(tipHash: Hash, rpc: Rpc): Option<Block> {
    if tipHash !in rpc.blocks || rpc.blocks[tipHash].prev !in rpc.blocks then None
    else Some(rpc.blocks[rpc.blocks[tipHash].prev])
  }

  /** The parent can be fetched, and is one below a node of height `height`. */
  predicate ParentFits(tipHash: Hash, height: nat, rpc: Rpc) {
    FetchedParent(tipHash, rpc).Some? && FetchedParent(tipHash, rpc).value.height == height - 1
  }

  /** Node and chain lose their last block if `dropped`, and are left alone otherwise. */
  predicate DropsLast(node: seq<NodeInput>, node': seq<NodeInput>, chain: seq<Block>, chain': seq<Block>, dropped: bool) {
    if dropped then |chain| == |node| > 0 && node' == node[..|node| - 1] && chain' == chain[..|node| - 1]
    else node' == node && chain' == chain
  }

  /** Where the pool's tip is once it is trimmed below a node of height `height`. */
  function CutTip(tip: int, height: nat): int {
    if tip < height - 1 then tip else height - 1
  }

  /** The live ticket map after undoing the first `n` of the dropped diffs. */
  function Undone(m: map<Hash, int>, ds: seq<PoolDiff>, values: map<Hash, int>, n: nat): map<Hash, int>
    requires n <= |ds|
  {
    if n == 0 then m else
      Grown(Undone(m, ds, values, n - 1), ds[n - 1].outs, None, values, |ds[n - 1].outs|) - Elems(ds[n - 1].ins)
  }

  /** The diffs cut off when a log is trimmed to its first `n`, newest first. */
  function Dropped(log: seq<PoolDiff>, n: nat): (r: seq<PoolDiff>)
    requires n <= |log|
    ensures |r| == |log| - n
  {
    seq(|log| - n, i requires 0 <= i < |log| - n => log[|log| - 1 - i])
  }

  lemma DroppedSnoc(log: seq<PoolDiff>, n: nat)
    requires 0 < n <= |log|
    ensures Dropped(log, n) + [log[n - 1]] == Dropped(log, n - 1)
  {
  }

  lemma {:induction false} UndonePrefix(m: map<Hash, int>, ds: seq<PoolDiff>, es: seq<PoolDiff>, values: map<Hash, int>, n: nat)
    requires n <= |ds| && n <= |es| && ds[..n] == es[..n]
    ensures Undone(m, ds, values, n) == Undone(m, es, values, n)
  {
    if n > 0 {
      assert ds[..n - 1] == ds[..n][..n - 1] && es[..n - 1] == es[..n][..n - 1];
      assert ds[n - 1] == ds[..n][n - 1] && es[n - 1] == es[..n][n - 1];
      UndonePrefix(m, ds, es, values, n - 1);
    }
  }

  /** Undoing one more diff after those above height `n`. */
  lemma UndoneNext(m: map<Hash, int>, log: seq<PoolDiff>, values: map<Hash, int>, n: nat)
    requires 0 < n <= |log|
    ensures Undone(m, Dropped(log, n - 1), values, |log| - n + 1) ==
              Undone(Undone(m, Dropped(log, n), values, |log| - n), Dropped(log[..n], n - 1), values, 1)
  {
    var ds, es := Dropped(log, n), Dropped(log, n - 1);
    assert ds[..|log| - n] == es[..|log| - n];
    UndonePrefix(m, ds, es, values, |log| - n);
    UndoneOne(Undone(m, ds, values, |log| - n), Dropped(log[..n], n - 1), values);
    assert es[|log| - n] == log[n - 1] == Dropped(log[..n], n - 1)[0];
  }

  lemma UndoneOne(m: map<Hash, int>, ds: seq<PoolDiff>, values: map<Hash, int>)
    requires |ds| == 1
    ensures Undone(m, ds, values, 1) == Grown(m, ds[0].outs, None, values, |ds[0].outs|) - Elems(ds[0].ins)
  {
    assert Undone(m, ds, values, 0) == m;
  }

  /** The client knows the values of the tickets that left with the diffs from `n` on. */
  ghost predicate LookupsOk(rules: Rules, log: seq<PoolDiff>, n: int, values: map<Hash, int>) {
    forall i {:trigger OutsPriced(rules, log[i], values)} :: 0 <= i < |log| && n <= i ==> OutsPriced(rules, log[i], values)
  }

  /** The tickets that left with the last diff are looked up right. */
  predicate LastPriced(rules: Rules, log: seq<PoolDiff>, values: map<Hash, int>) {
    log != [] ==> OutsPriced(rules, log[|log| - 1], values)
  }

  lemma LookupsAt(rules: Rules, log: seq<PoolDiff>, from: int, values: map<Hash, int>, n: nat)
    requires LookupsOk(rules, log, from, values) && from < n && 0 < n <= |log|
    ensures LastPriced(rules, log[..n], values)
  {
    assert OutsPriced(rules, log[n - 1], values);
  }

  /** Undoing the last diff in the map of a log gives the map of the shorter log exactly when
      its lookups are right. */
  lemma LiveDropsIff(rules: Rules, log: seq<PoolDiff>, values: map<Hash, int>)
    requires LogOk(log) && log != []
    ensures Grown(LiveMap(rules, Replay(log)), log[|log| - 1].outs, None, values, |log[|log| - 1].outs|)
              - Elems(log[|log| - 1].ins)
            == LiveMap(rules, Replay(log[..|log| - 1]))
       <==> OutsPriced(rules, log[|log| - 1], values)
  {
    UndoRestoresIff(rules, Replay(log[..|log| - 1]), log[|log| - 1], values);
  }

  /** The log and the live ticket map of a chain, one block down. */
  lemma CanonicalDrops(rules: Rules, chain: seq<Block>, values: map<Hash, int>)
    requires rules.maturity >= 1 && chain != [] && LogOk(Log(rules, chain))
    ensures var log, p := Log(rules, chain), chain[..|chain| - 1];
            && log[..|log| - 1] == Log(rules, p)
            && (LastPriced(rules, log, values) <==>
                  Undone(LiveMap(rules, Replay(log)), Dropped(log, |log| - 1), values, 1) == LiveMap(rules, Replay(Log(rules, p))))
  {
    var log := Log(rules, chain);
    UndoneOne(LiveMap(rules, Replay(log)), Dropped(log, |log| - 1), values);
    LiveDropsIff(rules, log, values);
    LogPrefix(rules, chain, |chain| - 1);
  }

  lemma CutAgain<T>(s: seq<T>, n: nat)
    requires 0 < n <= |s|
    ensures s[..n][..n - 1] == s[..n - 1]
  {
  }

  /** Every block of the chain can be fetched. */
  ghost predicate AllKnown(rules: Rules, chain: seq<Block>, rpc: Rpc) {
    forall h :: 0 <= h <= |chain| ==> BlockAt(rules, chain, h).hash in rpc.blocks
  }

  lemma HonestPrefix(rules: Rules, chain: seq<Block>, n: nat, rpc: Rpc)
    requires Honest(rules, chain, rpc) && n <= |chain|
    ensures Honest(rules, chain[..n], rpc)
    ensures AllKnown(rules, chain, rpc) ==>
              AllKnown(rules, chain[..n], rpc) && (n > 0 ==> ParentKnown(rules, chain[..n], rpc))
  {
    forall h | 0 <= h <= n ensures BlockAt(rules, chain[..n], h) == BlockAt(rules, chain, h) {
    }
  }

  function TicketValues(ts: seq<Ticket>): (r: seq<int>)
    ensures |r| == |ts| && forall i :: 0 <= i < |r| ==> r[i] == ts[i].value
  {
    seq(|ts|, i requires 0 <= i < |ts| => ts[i].value)
  }

  /** The tickets ConnectBlock takes for maturing: those of the cached block, or else of the
      main chain block the client names for that height. None when there is no such block. */
  function MaturingTickets(rules: Rules, cache: map<int, Block>, rpc: Rpc, height: nat): Option<seq<Ticket>> {
    if height < rules.maturity then Some([])
    else
      var mh := height - rules.maturity;
      if mh in cache then Some(cache[mh].tickets)
      else if mh in rpc.main && rpc.main[mh] in rpc.blocks then Some(rpc.blocks[rpc.main[mh]].tickets)
      else None
  }

  function Forgotten(rules: Rules, cache: map<int, Block>, height: nat): map<int, Block> {
    if height >= rules.maturity then cache - {height - rules.maturity} else cache
  }

  /** The block cache after a connect: the maturing block is forgotten, the new one kept. */
  function CacheAfter(rules: Rules, cache: map<int, Block>, block: Block): map<int, Block> {
    Forgotten(rules, cache, block.height)[block.height := block]
  }

  /** The block cache after a connect, which leaves it alone only when it panics. */
  function CacheThen(rules: Rules, cache: map<int, Block>, block: Block, rpc: Rpc): map<int, Block> {
    if MaturingTickets(rules, cache, rpc, block.height).None? then cache else CacheAfter(rules, cache, block)
  }

  function InputFor(rules: Rules, cache: map<int, Block>, block: Block, rpc: Rpc): NodeInput
    requires MaturingTickets(rules, cache, rpc, block.height).Some?
  {
    NodeInput(block, TicketHashes(MaturingTickets(rules, cache, rpc, block.height).value))
  }

  function ValuesFor(rules: Rules, cache: map<int, Block>, block: Block, rpc: Rpc): (r: seq<int>)
    requires MaturingTickets(rules, cache, rpc, block.height).Some?
    ensures |r| == |InputFor(rules, cache, block, rpc).maturing|
  {
    TicketValues(MaturingTickets(rules, cache, rpc, block.height).value)
  }

  /** The block gets as far as the stake node, and the node accepts it. */
  predicate ReachesNode(rules: Rules, node: seq<NodeInput>, cache: map<int, Block>, block: Block, rpc: Rpc) {
    && MaturingTickets(rules, cache, rpc, block.height).Some?
    && block.height > |node|
    && rules.accepts(node, InputFor(rules, cache, block, rpc))
  }

  predicate AcceptsNext(rules: Rules, chain: seq<Block>, block: Block) {
    rules.maturity >= 1 &&
    rules.accepts(Inputs(rules, chain), NodeInput(block, MaturingAt(rules, chain, |chain| + 1)))
  }

  /** The tickets of the block `maturity` below height `h`, on `chain`. */
  function TicketsMaturingAt(rules: Rules, chain: seq<Block>, h: nat): seq<Ticket>
    requires rules.maturity >= 1 && h <= |chain| + 1
  {
    if h < rules.maturity then [] else BlockAt(rules, chain, h - rules.maturity).tickets
  }

  /** The tickets taken for maturing are those of the chain being extended exactly when their
      block is cached or the node has its tickets. */
  lemma MaturingRightIff(rules: Rules, chain: seq<Block>, cache: map<int, Block>, rpc: Rpc)
    requires rules.maturity >= 1 && CacheOk(rules, chain, cache)
    ensures MaturingTickets(rules, cache, rpc, |chain| + 1) == Some(TicketsMaturingAt(rules, chain, |chain| + 1))
       <==> MaturingFound(rules, chain, cache, rpc)
  {
    var h := |chain| + 1 - rules.maturity;
    if h < 0 {
      assert MaturingServed(rules, chain, rpc);
    } else if h in cache {
      assert cache[h] == BlockAt(rules, chain, h);
    }
  }

  /** In a run of connects at tip + 1 and disconnects, the maturing tickets always come from
      the block `maturity` below on the chain being extended, cached or fetched. */
  lemma MaturingRight(rules: Rules, chain: seq<Block>, cache: map<int, Block>, block: Block, rpc: Rpc)
    requires rules.maturity >= 1 && CacheOk(rules, chain, cache) && Extends(rules, chain, block)
    requires MaturingFound(rules, chain, cache, rpc)
    ensures MaturingTickets(rules, cache, rpc, block.height).Some?
    ensures InputFor(rules, cache, block, rpc) == NodeInput(block, MaturingAt(rules, chain, |chain| + 1))
    ensures Priced(rules, InputFor(rules, cache, block, rpc).maturing, Some(ValuesFor(rules, cache, block, rpc)), rpc.values)
  {
    assert LinkAt(rules, chain + [block], |chain|);
    assert block.height == |chain| + 1;
    MaturingRightIff(rules, chain, cache, rpc);
    var h := |chain| + 1 - rules.maturity;
    if h >= 0 {
      var b := BlockAt(rules, chain, h);
      if h > 0 { assert LinkAt(rules, chain, h - 1); }
      assert forall t :: t in b.tickets ==> t.value == rules.value(t.hash);
    }
  }

  /** `block` is a valid next block whose maturing tickets are cached or served. */
  ghost predicate NextOk(rules: Rules, chain: seq<Block>, cache: map<int, Block>, block: Block, rpc: Rpc) {
    && rules.maturity >= 1 && Extends(rules, chain, block) && MaturingFound(rules, chain, cache, rpc)
    && LogOk(Log(rules, chain + [block]))
  }

  /** A valid next block gets past the stake node exactly when the node accepts it. */
  lemma ReachesIff(rules: Rules, chain: seq<Block>, cache: map<int, Block>, block: Block, rpc: Rpc)
    requires CacheOk(rules, chain, cache) && NextOk(rules, chain, cache, block, rpc)
    ensures MaturingTickets(rules, cache, rpc, block.height).Some? && block.height == |chain| + 1
    ensures ReachesNode(rules, Inputs(rules, chain), cache, block, rpc) <==> AcceptsNext(rules, chain, block)
  {
    MaturingRight(rules, chain, cache, block, rpc);
    assert LinkAt(rules, chain + [block], |chain|);
  }

  /** The hashes of the tickets bought in the block of `chain` at height `h`, none below genesis. */
  function Bought(rules: Rules, chain: seq<Block>, h: int): seq<Hash>
    requires h <= |chain|
  {
    if h < 0 then [] else TicketHashes((if h == 0 then rules.genesis else chain[h - 1]).tickets)
  }

  lemma ElemsJoin(a: seq<Hash>, b: seq<Hash>)
    ensures Elems(a + b) == Elems(a) + Elems(b)
  {
    assert forall x :: x in a + b <==> x in a || x in b;
  }

  /** The last diff of a longer chain's log. */
  lemma LastDiff(rules: Rules, chain: seq<Block>, block: Block)
    requires rules.maturity >= 1
    ensures Inputs(rules, chain + [block])[..|chain|] == Inputs(rules, chain)
    ensures Log(rules, chain + [block]) == Log(rules, chain)
              + [PoolDiff(Bought(rules, chain, |chain| + 1 - rules.maturity),
                          rules.winners(Inputs(rules, chain)) + rules.expired(Inputs(rules, chain + [block])))]
  {
    InputsSnoc(rules, chain, block);
  }

  /** What a diff of bought, winning and expired tickets does to pool and value. */
  lemma EffectOfDiff(rules: Rules, log: seq<PoolDiff>, bought: seq<Hash>, won: seq<Hash>, expired: seq<Hash>)
    requires LogOk(log + [PoolDiff(bought, won + expired)])
    ensures var after := Replay(log + [PoolDiff(bought, won + expired)]);
            && after == Replay(log) + Elems(bought) - Elems(won) - Elems(expired)
            && ValueOf(rules, after) == ValueOf(rules, Replay(log)) + ValueOf(rules, Elems(bought)) - ValueOf(rules, Elems(won + expired))
  {
    var d := PoolDiff(bought, won + expired);
    ReplaySnoc(log, d);
    ElemsJoin(won, expired);
    ValueMoves(rules, Replay(log), d);
  }

  /** What an accepted block does, in the terms of the chain and the stake node: the tickets
      bought `maturity` blocks below come in, the winners of the node before and the tickets
      that expire by this block go out, and the pool value moves by what they are worth. */
  ghost predicate EffectIs(rules: Rules, chain: seq<Block>, node: seq<NodeInput>, node': seq<NodeInput>,
                           log: seq<PoolDiff>, log': seq<PoolDiff>, live: map<Hash, int>, live': map<Hash, int>,
                           value: int, value': int) {
    rules.maturity >= 1 &&
    var bought := Bought(rules, chain, |chain| + 1 - rules.maturity);
    var won, expired := rules.winners(node), rules.expired(node');
    && log' == log + [PoolDiff(bought, won + expired)]
    && live'.Keys == live.Keys + Elems(bought) - Elems(won) - Elems(expired)
    && (forall h :: h in live' ==> live'[h] == rules.value(h))
    && value' == value + ValueOf(rules, Elems(bought)) - ValueOf(rules, Elems(won + expired))
  }

  /** The step from the canonical state of a chain to that of one more block. */
  lemma EffectHolds(rules: Rules, chain: seq<Block>, block: Block)
    requires rules.maturity >= 1 && LogOk(Log(rules, chain + [block]))
    ensures var log, log' := Log(rules, chain), Log(rules, chain + [block]);
            EffectIs(rules, chain, Inputs(rules, chain), Inputs(rules, chain + [block]), log, log',
                     LiveMap(rules, Replay(log)), LiveMap(rules, Replay(log')),
                     Sum(LiveMap(rules, Replay(log)), TicketValue), Sum(LiveMap(rules, Replay(log')), TicketValue))
  {
    LastDiff(rules, chain, block);
    EffectOfDiff(rules, Log(rules, chain), Bought(rules, chain, |chain| + 1 - rules.maturity),
                 rules.winners(Inputs(rules, chain)), rules.expired(Inputs(rules, chain + [block])));
  }

  /** What connecting the next block makes of node, cache, log and live ticket map. */
  lemma CanonicalGrows(rules: Rules, chain: seq<Block>, cache: map<int, Block>, block: Block, rpc: Rpc)
    requires rules.maturity >= 1 && CacheOk(rules, chain, cache) && Extends(rules, chain, block)
    requires LogOk(Log(rules, chain + [block]))
    requires MaturingTickets(rules, cache, rpc, block.height).Some?
    requires InputFor(rules, cache, block, rpc) == NodeInput(block, MaturingAt(rules, chain, |chain| + 1))
    requires Priced(rules, InputFor(rules, cache, block, rpc).maturing, Some(ValuesFor(rules, cache, block, rpc)), rpc.values)
    ensures var input := InputFor(rules, cache, block, rpc);
            var d := DiffOf(rules, Inputs(rules, chain), input);
            var log := Log(rules, chain);
            && Inputs(rules, chain + [block]) == Inputs(rules, chain) + [input]
            && Log(rules, chain + [block]) == log + [d]
            && WellFormed(Replay(log), d)
            && Grown(LiveMap(rules, Replay(log)), d.ins, Some(ValuesFor(rules, cache, block, rpc)), rpc.values, |d.ins|)
               - Elems(d.outs) == LiveMap(rules, Replay(log + [d]))
    ensures block.height == |chain| + 1 && TipHash(rules, chain + [block]) == block.hash
    ensures CacheOk(rules, chain, CacheAfter(rules, cache, block))
    ensures CacheOk(rules, chain + [block], CacheAfter(rules, cache, block))
  {
    var input := InputFor(rules, cache, block, rpc);
    var d, log := DiffOf(rules, Inputs(rules, chain), input), Log(rules, chain);
    InputsSnoc(rules, chain, block);
    ReplaySnoc(log, d);
    LiveApplied(rules, Replay(log), d.ins, Some(ValuesFor(rules, cache, block, rpc)), d.outs, rpc.values);
    assert LinkAt(rules, chain + [block], |chain|);
    var forgot := Forgotten(rules, cache, block.height);
    assert CacheOk(rules, chain, forgot);
    CacheStoreIff(rules, chain, forgot, block);
    CacheGrow(rules, chain, forgot, block);
  }

  class StakeDatabase {
    const rules: Rules
    const PoolDB: TP.TicketPool
    var node: seq<NodeInput>
    var tipHash: Hash
    var blockCache: map<int, Block>
    var liveTickets: map<Hash, int>
    var poolValue: int
    /** The connected blocks, genesis excluded. */
    ghost var chain: seq<Block>

    constructor (rules: Rules, poolDB: TP.TicketPool, node: seq<NodeInput>, tipHash: Hash, ghost chain: seq<Block>)
      ensures this.rules == rules && PoolDB == poolDB && this.node == node && this.tipHash == tipHash
      ensures blockCache == map[] && liveTickets == map[] && poolValue == 0 && this.chain == chain
    {
      this.rules, PoolDB, this.node, this.tipHash := rules, poolDB, node, tipHash;
      blockCache, liveTickets, poolValue := map[], map[], 0;
      this.chain := chain;
    }

    /** Node, tip and block cache are what connecting `chain` produces. */
    ghost predicate NodeOk()
      reads this`node, this`tipHash, this`blockCache, this`chain
    {
      NodeIs(rules, node, tipHash, blockCache, chain)
    }

    /** The pool log is the chain's, whatever height its own pool is at. */
    ghost predicate LogOfChain()
      reads this`chain, PoolDB`tip, PoolDB`cursor, PoolDB`diffs, PoolDB`pool
    {
      rules.maturity >= 1 && PoolDB.Valid() && PoolDB.Tracking() && PoolDB.diffs == Log(rules, chain)
    }

    /** The live ticket map is the replay of the whole log, and the pool value its sum. */
    ghost predicate LiveOk()
      reads this`liveTickets, this`poolValue, PoolDB`diffs
    {
      liveTickets == LiveMap(rules, Replay(PoolDB.diffs)) && poolValue == Sum(liveTickets, TicketValue)
    }

    /** Everything is a function of the connected chain. */
    ghost predicate Canonical()
      reads this, PoolDB
    {
      NodeOk() && LogOfChain() && LiveOk()
    }

    /** The first loop of applyDiff: known tickets and tickets without a price are skipped. */
    method AddTickets(ins: seq<Hash>, inVals: Option<seq<int>>, values: map<Hash, int>)
      requires inVals.Some? ==> |inVals.value| == |ins|
      modifies this`liveTickets, this`poolValue
      ensures liveTickets == Grown(old(liveTickets), ins, inVals, values, |ins|)
      ensures poolValue - Sum(liveTickets, TicketValue) == old(poolValue - Sum(liveTickets, TicketValue))
    {
      for i := 0 to |ins|
        invariant liveTickets == Grown(old(liveTickets), ins, inVals, values, i)
        invariant poolValue - Sum(liveTickets, TicketValue) == old(poolValue - Sum(liveTickets, TicketValue))
      {
        var hash := ins[i];
        if hash in liveTickets {
          continue;
        }
        var val;
        if inVals.None? {
          if hash !in values {
            continue;
          }
          val := values[hash];
        } else {
          val := inVals.value[i];
        }
        SumInsert(liveTickets, TicketValue, hash, val);
        liveTickets := liveTickets[hash := val];
        poolValue := poolValue + val;
      }
    }

    /** The second loop of applyDiff: unknown tickets are skipped. */
    method RemoveTickets(outs: seq<Hash>)
      modifies this`liveTickets, this`poolValue
      ensures liveTickets == old(liveTickets) - Elems(outs)
      ensures poolValue - Sum(liveTickets, TicketValue) == old(poolValue - Sum(liveTickets, TicketValue))
    {
      for i := 0 to |outs|
        invariant liveTickets == old(liveTickets) - Elems(outs[..i])
        invariant poolValue - Sum(liveTickets, TicketValue) == old(poolValue - Sum(liveTickets, TicketValue))
      {
        var h := outs[i];
        ElemsSnoc(outs[..i], h);
        assert outs[..i + 1] == outs[..i] + [h];
        if h !in liveTickets {
          assert old(liveTickets) - Elems(outs[..i + 1]) == old(liveTickets) - Elems(outs[..i]);
          continue;
        }
        SumRemove(liveTickets, TicketValue, h);
        poolValue := poolValue - liveTickets[h];
        liveTickets := liveTickets - {h};
      }
      assert outs[..|outs|] == outs;
    }

    /** applyDiff: whatever the diff and whichever lookups fail, the pool value moves by as
        much as the sum of the map does. */
    method ApplyDiff(d: PoolDiff, inVals: Option<seq<int>>, values: map<Hash, int>)
      requires inVals.Some? ==> |inVals.value| == |d.ins|
      modifies this`liveTickets, this`poolValue
      ensures liveTickets == Grown(old(liveTickets), d.ins, inVals, values, |d.ins|) - Elems(d.outs)
      ensures poolValue - Sum(liveTickets, TicketValue) == old(poolValue - Sum(liveTickets, TicketValue))
    {
      AddTickets(d.ins, inVals, values);
      RemoveTickets(d.outs);
    }

    method UndoDiff(d: PoolDiff, values: map<Hash, int>)
      modifies this`liveTickets, this`poolValue
      ensures liveTickets == Grown(old(liveTickets), d.outs, None, values, |d.outs|) - Elems(d.ins)
      ensures poolValue - Sum(liveTickets, TicketValue) == old(poolValue - Sum(liveTickets, TicketValue))
    {
      ApplyDiff(PoolDiff(d.outs, d.ins), None, values);
    }

    /** Applying a well-formed diff to the map of a pool and undoing it: the prior map and the
        prior pool value come back exactly when the lookups of the undo are right. */
    method ApplyAndUndo(d: PoolDiff, inVals: Option<seq<int>>, values: map<Hash, int>, ghost pool: set<Hash>)
      requires liveTickets == LiveMap(rules, pool) && WellFormed(pool, d) && Priced(rules, d.ins, inVals, values)
      modifies this`liveTickets, this`poolValue
      ensures liveTickets == old(liveTickets) <==> OutsPriced(rules, d, values)
      ensures OutsPriced(rules, d, values) ==> poolValue == old(poolValue)
    {
      LiveApplied(rules, pool, d.ins, inVals, d.outs, values);
      UndoRestoresIff(rules, pool, d, values);
      ApplyDiff(d, inVals, values);
      UndoDiff(d, values);
    }

    /** The undo loop of disconnectBlock. */
    method UndoAll(undoDiffs: seq<PoolDiff>, values: map<Hash, int>)
      modifies this`liveTickets, this`poolValue
      ensures liveTickets == Undone(old(liveTickets), undoDiffs, values, |undoDiffs|)
      ensures poolValue - Sum(liveTickets, TicketValue) == old(poolValue - Sum(liveTickets, TicketValue))
    {
      for i := 0 to |undoDiffs|
        invariant liveTickets == Undone(old(liveTickets), undoDiffs, values, i)
        invariant poolValue - Sum(liveTickets, TicketValue) == old(poolValue - Sum(liveTickets, TicketValue))
      {
        UndoDiff(undoDiffs[i], values);
      }
    }

    /** The trimming loop of disconnectBlock: the ticket pool is cut down to `height`, and
        the dropped diffs are collected. */
    method TrimTo(height: int) returns (undoDiffs: seq<PoolDiff>)
      requires PoolDB.Valid() && 0 <= height
      modifies PoolDB`tip, PoolDB`cursor, PoolDB`pool, PoolDB`diffs
      ensures PoolDB.Valid()
      ensures PoolDB.tip == if old(PoolDB.tip) < height then old(PoolDB.tip) else height
      ensures PoolDB.diffs == old(PoolDB.diffs)[..PoolDB.tip]
      ensures undoDiffs == Dropped(old(PoolDB.diffs), PoolDB.tip)
      ensures old(PoolDB.Tracking()) ==> PoolDB.Tracking()
      ensures old(PoolDB.cursor) == 0 ==> PoolDB.cursor == 0 && PoolDB.pool == old(PoolDB.pool)
    {
      undoDiffs := [];
      var poolTip := PoolDB.tip;
      while poolTip > height
        invariant PoolDB.Valid() && PoolDB.tip == poolTip <= old(PoolDB.tip)
        invariant poolTip >= height || poolTip == old(PoolDB.tip)
        invariant PoolDB.diffs == old(PoolDB.diffs)[..poolTip]
        invariant undoDiffs == Dropped(old(PoolDB.diffs), poolTip)
        invariant old(PoolDB.Tracking()) ==> PoolDB.Tracking()
        invariant old(PoolDB.cursor) == 0 ==> PoolDB.cursor == 0 && PoolDB.pool == old(PoolDB.pool)
        decreases poolTip
      {
        DroppedSnoc(old(PoolDB.diffs), poolTip);
        var newTip, undo := PoolDB.Trim();
        undoDiffs := undoDiffs + [undo];
        poolTip := newTip;
      }
    }

    /** dbPrevBlock: the parent of the block the stake store names as its tip. */
    method PrevBlock(rpc: Rpc) returns (parent: Option<Block>)
      ensures parent == FetchedParent(tipHash, rpc)
      ensures NodeOk() && Honest(rules, chain, rpc) ==>
                && (parent.Some? <==> ParentKnown(rules, chain, rpc))
                && (parent.Some? ==> parent.value == BlockAt(rules, chain, |chain| - 1)
                                     && parent.value.height == |chain| - 1)
    {
      if NodeOk() && Honest(rules, chain, rpc) {
        ParentFetched(rules, chain, rpc);
      }
      if tipHash !in rpc.blocks || rpc.blocks[tipHash].prev !in rpc.blocks {
        return None;
      }
      parent := Some(rpc.blocks[rpc.blocks[tipHash].prev]);
    }

    /** disconnectBlock without the undo of the live ticket map: the ticket pool is trimmed down
        to the parent's height, then the node drops its last block and the stake store records
        the parent. A failure of the stores leaves what was done before it. */
    method DropTip(rpc: Rpc, stores: Stores) returns (r: Result, undoDiffs: seq<PoolDiff>)
      requires PoolDB.Valid() && |chain| == |node|
      modifies this`node, this`tipHash, this`chain
      modifies PoolDB`tip, PoolDB`cursor, PoolDB`pool, PoolDB`diffs
      ensures PoolDB.Valid() && |chain| == |node|
      ensures !ParentFits(old(tipHash), |old(node)|, rpc) ==>
                && r == (if FetchedParent(old(tipHash), rpc).None? then Failed else Panicked)
                && undoDiffs == [] && unchanged(this) && unchanged(PoolDB)
      ensures ParentFits(old(tipHash), |old(node)|, rpc) ==>
                && r == (if stores.disconnectOk && stores.writeOk then Done else Failed)
                && DropsLast(old(node), node, old(chain), chain, stores.disconnectOk)
                && tipHash == (if r == Done then FetchedParent(old(tipHash), rpc).value.hash else old(tipHash))
                && PoolDB.tip == CutTip(old(PoolDB.tip), |old(node)|)
                && PoolDB.diffs == old(PoolDB.diffs)[..PoolDB.tip]
                && undoDiffs == Dropped(old(PoolDB.diffs), PoolDB.tip)
      ensures old(PoolDB.Tracking()) ==> PoolDB.Tracking()
      ensures old(PoolDB.cursor) == 0 ==> PoolDB.cursor == 0 && PoolDB.pool == old(PoolDB.pool)
      ensures old(NodeOk()) && Honest(rules, old(chain), rpc) ==>
                && r != Panicked && (ParentFits(old(tipHash), |old(node)|, rpc) <==> ParentKnown(rules, old(chain), rpc))
                && ((stores.disconnectOk ==> stores.writeOk) ==> NodeOk())
    {
      var childHeight := |node|;
      var parent := PrevBlock(rpc);
      if parent.None? {
        return Failed, [];
      }
      var parentHeight: nat := parent.value.height;
      if parentHeight != childHeight - 1 {
        return Panicked, [];
      }
      ghost var ok := NodeOk() && Honest(rules, chain, rpc);
      if ok {
        NodeDrops(rules, node, tipHash, blockCache, chain);
      }
      undoDiffs := TrimTo(parentHeight);
      if !stores.disconnectOk {
        return Failed, undoDiffs;
      }
      node, chain := node[..parentHeight], chain[..parentHeight];
      if !stores.writeOk {
        return Failed, undoDiffs;
      }
      tipHash := parent.value.hash;
      assert ok ==> NodeIs(rules, node, tipHash, blockCache, chain);
      r := Done;
    }

    /** disconnectBlock: afterwards the node is one block shorter, the pool log is no longer
        than the node, and unless `neglectCache` the dropped diffs are undone in the map. When
        the stores fail, the pool has been trimmed and the map undone all the same. */
    method DisconnectBlock(neglectCache: bool, rpc: Rpc, stores: Stores) returns (r: Result)
      requires PoolDB.Valid() && |chain| == |node|
      modifies this`node, this`tipHash, this`chain, this`liveTickets, this`poolValue
      modifies PoolDB`tip, PoolDB`cursor, PoolDB`pool, PoolDB`diffs
      ensures PoolDB.Valid() && |chain| == |node|
      ensures !ParentFits(old(tipHash), |old(node)|, rpc) ==>
                && r == (if FetchedParent(old(tipHash), rpc).None? then Failed else Panicked)
                && unchanged(this) && unchanged(PoolDB)
      ensures ParentFits(old(tipHash), |old(node)|, rpc) ==>
                && r == (if stores.disconnectOk && stores.writeOk then Done else Failed)
                && DropsLast(old(node), node, old(chain), chain, stores.disconnectOk)
                && tipHash == (if r == Done then FetchedParent(old(tipHash), rpc).value.hash else old(tipHash))
                && PoolDB.tip == CutTip(old(PoolDB.tip), |old(node)|)
                && PoolDB.diffs == old(PoolDB.diffs)[..PoolDB.tip]
                && liveTickets == (if neglectCache then old(liveTickets)
                                   else Undone(old(liveTickets), Dropped(old(PoolDB.diffs), PoolDB.tip), rpc.values,
                                               old(PoolDB.tip) - PoolDB.tip))
      ensures poolValue - Sum(liveTickets, TicketValue) == old(poolValue - Sum(liveTickets, TicketValue))
      ensures old(PoolDB.Tracking()) ==> PoolDB.Tracking()
      ensures old(PoolDB.cursor) == 0 ==> PoolDB.cursor == 0 && PoolDB.pool == old(PoolDB.pool)
      ensures old(NodeOk()) && Honest(rules, old(chain), rpc) ==>
                && r != Panicked && (ParentFits(old(tipHash), |old(node)|, rpc) <==> ParentKnown(rules, old(chain), rpc))
                && ((stores.disconnectOk ==> stores.writeOk) ==> NodeOk())
    {
      var undoDiffs;
      r, undoDiffs := DropTip(rpc, stores);
      if !neglectCache {
        UndoAll(undoDiffs, rpc.values);
      }
    }

    /** What disconnecting the tip of a canonical database does before anything is known of the
        lookups. */
    method DropCanonical(rpc: Rpc) returns (r: Result)
      requires Canonical() && Honest(rules, chain, rpc)
      modifies this`node, this`tipHash, this`chain, this`liveTickets, this`poolValue
      modifies PoolDB`tip, PoolDB`cursor, PoolDB`pool, PoolDB`diffs
      ensures r != Panicked && NodeOk() && PoolDB.Valid() && PoolDB.Tracking() && poolValue == Sum(liveTickets, TicketValue)
      ensures r == Done <==> ParentKnown(rules, old(chain), rpc)
      ensures r == Done ==>
                && |old(chain)| > 0 && chain == old(chain)[..|old(chain)| - 1]
                && PoolDB.diffs == old(PoolDB.diffs)[..|old(chain)| - 1]
                && liveTickets == Undone(old(liveTickets), Dropped(old(PoolDB.diffs), |old(chain)| - 1), rpc.values, 1)
      ensures r != Done ==> chain == old(chain) && PoolDB.diffs == old(PoolDB.diffs) && liveTickets == old(liveTickets)
    {
      r := DisconnectBlock(false, rpc, WORKING);
    }

    /** Disconnecting the tip of a canonical database gives node and log of the shorter chain,
        or changes nothing. It gives the canonical database of the shorter chain exactly when
        the tickets that left with the dropped diff are looked up right. */
    method DisconnectTip(rpc: Rpc) returns (r: Result)
      requires Canonical() && Honest(rules, chain, rpc)
      modifies this`node, this`tipHash, this`chain, this`liveTickets, this`poolValue
      modifies PoolDB`tip, PoolDB`cursor, PoolDB`pool, PoolDB`diffs
      ensures r != Panicked && NodeOk() && LogOfChain() && poolValue == Sum(liveTickets, TicketValue)
      ensures r == Done <==> ParentKnown(rules, old(chain), rpc)
      ensures Canonical() <==> (r == Done ==> LastPriced(rules, old(PoolDB.diffs), rpc.values))
      ensures chain == if r == Done then old(chain)[..|old(chain)| - 1] else old(chain)
      ensures PoolDB.diffs == if r == Done then old(PoolDB.diffs)[..|old(chain)| - 1] else old(PoolDB.diffs)
    {
      if chain != [] {
        CanonicalDrops(rules, chain, rpc.values);
      }
      r := DropCanonical(rpc);
    }

    /** `chain` and its log are what is left of `chain0` and `log0`. */
    ghost predicate LeftOf(chain0: seq<Block>, log0: seq<PoolDiff>)
      reads this, PoolDB
    {
      |chain| <= |chain0| == |log0| && chain == chain0[..|chain|] && PoolDB.diffs == log0[..|chain|]
    }

    /** One turn of DisconnectBlocks, on what is left of `chain0`. */
    method DisconnectMore(rpc: Rpc, ghost chain0: seq<Block>, ghost log0: seq<PoolDiff>, ghost from: int) returns (r: Result)
      requires Canonical() && LeftOf(chain0, log0) && Honest(rules, chain0, rpc)
      requires LookupsOk(rules, log0, from, rpc.values) && from < |chain|
      modifies this`node, this`tipHash, this`chain, this`liveTickets, this`poolValue
      modifies PoolDB`tip, PoolDB`cursor, PoolDB`pool, PoolDB`diffs
      ensures Canonical() && LeftOf(chain0, log0) && r != Panicked
      ensures |chain| == |old(chain)| - if r == Done then 1 else 0
      ensures AllKnown(rules, chain0, rpc) && old(chain) != [] ==> r == Done
    {
      HonestPrefix(rules, chain0, |chain|, rpc);
      if chain != [] {
        LookupsAt(rules, log0, from, rpc.values, |chain|);
        CutAgain(chain0, |chain|);
        CutAgain(log0, |chain|);
      }
      r := DisconnectTip(rpc);
    }

    /** DisconnectBlocks: exactly `count` blocks, or fewer when one cannot be disconnected. */
    method DisconnectBlocks(count: int, rpc: Rpc) returns (r: Result)
      requires Canonical() && Honest(rules, chain, rpc)
      requires LookupsOk(rules, PoolDB.diffs, |chain| - count, rpc.values)
      modifies this`node, this`tipHash, this`chain, this`liveTickets, this`poolValue
      modifies PoolDB`tip, PoolDB`cursor, PoolDB`pool, PoolDB`diffs
      ensures Canonical() && r != Panicked && LeftOf(old(chain), old(PoolDB.diffs))
      ensures r == Done ==> |chain| == |old(chain)| - (if count < 0 then 0 else count)
      ensures 0 <= count <= |old(chain)| && AllKnown(rules, old(chain), rpc) ==> r == Done
    {
      r := Done;
      var i := 0;
      while i < count
        invariant 0 <= i <= (if count < 0 then 0 else count)
        invariant Canonical() && r == Done && |chain| == |old(chain)| - i && LeftOf(old(chain), old(PoolDB.diffs))
      {
        r := DisconnectMore(rpc, old(chain), old(PoolDB.diffs), |old(chain)| - count);
        if r != Done {
          return;
        }
        i := i + 1;
      }
    }

    /** The first part of ConnectBlock: the maturing block is looked up and, if it was
        cached, forgotten. */
    method TakeMaturing(height: nat, rpc: Rpc) returns (tickets: Option<seq<Ticket>>)
      modifies this`blockCache
      ensures tickets == MaturingTickets(rules, old(blockCache), rpc, height)
      ensures blockCache == Forgotten(rules, old(blockCache), height)
    {
      tickets := Some([]);
      if height >= rules.maturity {
        var mh := height - rules.maturity;
        if mh in blockCache {
          tickets := Some(blockCache[mh].tickets);
          blockCache := blockCache - {mh};
        } else if mh in rpc.main && rpc.main[mh] in rpc.blocks {
          tickets := Some(rpc.blocks[rpc.main[mh]].tickets);
        } else {
          tickets := None;
        }
      }
    }

    /** What ConnectBlock does with a block that does not get past the stake node: nothing but
        the cache changes, and only the tip block itself is tolerated. */
    twostate predicate ConnectIgnored(block: Block, r: Result)
      reads this, PoolDB
    {
      && node == old(node) && tipHash == old(tipHash) && chain == old(chain)
      && liveTickets == old(liveTickets) && poolValue == old(poolValue) && unchanged(PoolDB)
      && (r == Done <==> r != Panicked && block.height == |node| && block.hash == tipHash)
    }

    /** What ConnectBlock does with a block that the stake node accepts. When the stake store
        fails the node has moved on and nothing else; when the diff store fails everything has
        moved on but the disk. */
    twostate predicate ConnectTaken(input: NodeInput, vals: seq<int>, rpc: Rpc, stores: Stores, r: Result)
      requires |vals| == |input.maturing|
      reads this, PoolDB
    {
      var d := PoolDiff(input.maturing, rules.winners(old(node)) + rules.expired(old(node) + [input]));
      && node == old(node) + [input] && chain == old(chain) + [input.block]
      && tipHash == (if stores.writeOk then input.block.hash else old(tipHash))
      && liveTickets == (if stores.writeOk then Grown(old(liveTickets), d.ins, Some(vals), rpc.values, |d.ins|) - Elems(d.outs)
                         else old(liveTickets))
      && (r == Done <==> stores.writeOk && stores.diffOk && old(PoolDB.tip) == |old(node)|)
      && PoolDB.diffs == (if stores.writeOk && old(PoolDB.tip) == |old(node)| then old(PoolDB.diffs) + [d] else old(PoolDB.diffs))
      && (old(PoolDB.Tracking()) && WellFormed(Replay(old(PoolDB.diffs)), d) ==> PoolDB.Tracking())
      && (old(PoolDB.Persisted()) && Fits(d) && (stores.writeOk ==> stores.diffOk) ==> PoolDB.Persisted())
    }

    /** Everything ConnectBlock does, whatever block it is given. */
    twostate predicate Connects(block: Block, rpc: Rpc, stores: Stores, r: Result)
      reads this, PoolDB
    {
      && (r == Panicked <==> MaturingTickets(rules, old(blockCache), rpc, block.height).None?)
      && blockCache == CacheThen(rules, old(blockCache), block, rpc)
      && (if ReachesNode(rules, old(node), old(blockCache), block, rpc)
          then ConnectTaken(InputFor(rules, old(blockCache), block, rpc), ValuesFor(rules, old(blockCache), block, rpc), rpc, stores, r)
          else ConnectIgnored(block, r))
      && poolValue - Sum(liveTickets, TicketValue) == old(poolValue - Sum(liveTickets, TicketValue))
    }

    /** connectBlock and what follows it: the node, the stake store, the live ticket map and the
        diff log, in this order. */
    method Take(input: NodeInput, vals: seq<int>, rpc: Rpc, stores: Stores) returns (r: Result)
      requires PoolDB.Valid() && |chain| == |node| && PoolDB.tip < TP.MAX_HEIGHT && |vals| == |input.maturing|
      modifies this`node, this`tipHash, this`chain, this`liveTickets, this`poolValue
      modifies PoolDB`tip, PoolDB`diffs, PoolDB`diffDB, PoolDB`stored
      ensures PoolDB.Valid() && |chain| == |node| && r != Panicked
      ensures ConnectTaken(input, vals, rpc, stores, r)
      ensures poolValue - Sum(liveTickets, TicketValue) == old(poolValue - Sum(liveTickets, TicketValue))
    {
      var winners, best := rules.winners(node), |node|;
      node, chain := node + [input], chain + [input.block];
      if !stores.writeOk {
        return Failed;
      }
      tipHash := input.block.hash;
      var d := PoolDiff(input.maturing, winners + rules.expired(node));
      ApplyDiff(d, Some(vals), rpc.values);
      var appended := PoolDB.Append(d, best + 1, stores.diffOk);
      r := if appended == TP.Ok then Done else Failed;
    }

    /** ConnectBlock. */
    method ConnectBlock(block: Block, rpc: Rpc, stores: Stores) returns (r: Result)
      requires PoolDB.Valid() && |chain| == |node| && PoolDB.tip < TP.MAX_HEIGHT
      modifies this`node, this`tipHash, this`chain, this`liveTickets, this`poolValue, this`blockCache
      modifies PoolDB`tip, PoolDB`diffs, PoolDB`diffDB, PoolDB`stored
      ensures PoolDB.Valid() && |chain| == |node|
      ensures Connects(block, rpc, stores, r)
    {
      var height := block.height;
      var taken := TakeMaturing(height, rpc);
      if taken.None? {
        return Panicked;
      }
      blockCache := blockCache[height := block];
      if height <= |node| {
        return if height == |node| && tipHash == block.hash then Done else Failed;
      }
      var input := NodeInput(block, TicketHashes(taken.value));
      if !rules.accepts(node, input) {
        return Failed;
      }
      r := Take(input, TicketValues(taken.value), rpc, stores);
    }

    /** ConnectBlockHash, whatever hash it is given. */
    method ConnectBlockHash(hash: Hash, rpc: Rpc, stores: Stores) returns (r: Result)
      requires PoolDB.Valid() && |chain| == |node| && PoolDB.tip < TP.MAX_HEIGHT
      modifies this`node, this`tipHash, this`chain, this`liveTickets, this`poolValue, this`blockCache
      modifies PoolDB`tip, PoolDB`diffs, PoolDB`diffDB, PoolDB`stored
      ensures PoolDB.Valid() && |chain| == |node|
      ensures hash !in rpc.blocks ==> r == Failed && unchanged(this) && unchanged(PoolDB)
      ensures hash in rpc.blocks ==> Connects(rpc.blocks[hash], rpc, stores, r)
    {
      if hash !in rpc.blocks {
        return Failed;
      }
      r := ConnectBlock(rpc.blocks[hash], rpc, stores);
    }

    /** A block above the tip that does not get past the stake node, whatever its parent:
        nothing changes but cached blocks above the tip. */
    method ConnectRefused(block: Block, rpc: Rpc) returns (r: Result)
      requires Canonical() && |chain| + 1 < TP.MAX_HEIGHT && block.height > |chain|
      requires !ReachesNode(rules, node, blockCache, block, rpc)
      modifies this`node, this`tipHash, this`chain, this`liveTickets, this`poolValue, this`blockCache
      modifies PoolDB`tip, PoolDB`diffs, PoolDB`diffDB, PoolDB`stored
      ensures Canonical() && ConnectIgnored(block, r) && r != Done
      ensures r == Panicked <==> MaturingTickets(rules, old(blockCache), rpc, block.height).None?
      ensures blockCache == CacheThen(rules, old(blockCache), block, rpc)
    {
      CacheStoreIff(rules, chain, Forgotten(rules, blockCache, block.height), block);
      r := ConnectBlock(block, rpc, WORKING);
      assert LogOfChain() && LiveOk();
    }

    /** A valid next block that the stake node accepts gives the canonical database of the
        longer chain. */
    method ConnectCanonical(block: Block, rpc: Rpc) returns (r: Result)
      requires Canonical() && |chain| + 1 < TP.MAX_HEIGHT
      requires ReachesNode(rules, node, blockCache, block, rpc) && NextOk(rules, chain, blockCache, block, rpc)
      modifies this`node, this`tipHash, this`chain, this`liveTickets, this`poolValue, this`blockCache
      modifies PoolDB`tip, PoolDB`diffs, PoolDB`diffDB, PoolDB`stored
      ensures Canonical() && r == Done && chain == old(chain) + [block]
      ensures blockCache == CacheThen(rules, old(blockCache), block, rpc)
      ensures old(PoolDB.Persisted()) && Fits(Log(rules, old(chain) + [block])[|old(chain)|]) ==> PoolDB.Persisted()
    {
      MaturingRight(rules, chain, blockCache, block, rpc);
      CanonicalGrows(rules, chain, blockCache, block, rpc);
      r := ConnectBlock(block, rpc, WORKING);
    }

    /** What an accepted block did. */
    twostate predicate Effect()
      reads this, PoolDB
    {
      EffectIs(rules, old(chain), old(node), node, old(PoolDB.diffs), PoolDB.diffs,
               old(liveTickets), liveTickets, old(poolValue), poolValue)
    }

    /** ConnectBlock of a valid next block that the stake node accepts. */
    method ConnectAccepted(block: Block, rpc: Rpc) returns (r: Result)
      requires Canonical() && |chain| + 1 < TP.MAX_HEIGHT
      requires ReachesNode(rules, node, blockCache, block, rpc) && NextOk(rules, chain, blockCache, block, rpc)
      modifies this`node, this`tipHash, this`chain, this`liveTickets, this`poolValue, this`blockCache
      modifies PoolDB`tip, PoolDB`diffs, PoolDB`diffDB, PoolDB`stored
      ensures Canonical() && r == Done && chain == old(chain) + [block] && Effect()
      ensures blockCache == CacheThen(rules, old(blockCache), block, rpc)
      ensures old(PoolDB.Persisted()) && Fits(Log(rules, old(chain) + [block])[|old(chain)|]) ==> PoolDB.Persisted()
    {
      EffectHolds(rules, chain, block);
      r := ConnectCanonical(block, rpc);
    }

    /** Connecting any block above the tip of a canonical database, which must be a valid next
        block only if it gets past the stake node: the canonical database of the longer chain
        if it does, and otherwise nothing changes but cached blocks above the tip. */
    method ConnectNext(block: Block, rpc: Rpc) returns (r: Result)
      requires Canonical() && |chain| + 1 < TP.MAX_HEIGHT && block.height > |chain|
      requires ReachesNode(rules, node, blockCache, block, rpc) ==> NextOk(rules, chain, blockCache, block, rpc)
      modifies this`node, this`tipHash, this`chain, this`liveTickets, this`poolValue, this`blockCache
      modifies PoolDB`tip, PoolDB`diffs, PoolDB`diffDB, PoolDB`stored
      ensures Canonical()
      ensures r == Panicked <==> MaturingTickets(rules, old(blockCache), rpc, block.height).None?
      ensures r == Done <==> ReachesNode(rules, old(node), old(blockCache), block, rpc)
      ensures chain == if r == Done then old(chain) + [block] else old(chain)
      ensures r == Done ==> Effect()
      ensures blockCache == CacheThen(rules, old(blockCache), block, rpc)
      ensures old(PoolDB.Persisted()) && (r == Done ==> Fits(Log(rules, old(chain) + [block])[|old(chain)|])) ==> PoolDB.Persisted()
    {
      if ReachesNode(rules, node, blockCache, block, rpc) {
        r := ConnectAccepted(block, rpc);
      } else {
        r := ConnectRefused(block, rpc);
      }
    }

    /** A connect at or below the tip of a canonical database fails unless it is of the tip
        itself. It always caches its block, and so leaves the database canonical exactly when
        the block is the chain's own. */
    method ConnectOld(block: Block, rpc: Rpc) returns (r: Result)
      requires Canonical() && |chain| + 1 < TP.MAX_HEIGHT && block.height <= |chain|
      modifies this`node, this`tipHash, this`chain, this`liveTickets, this`poolValue, this`blockCache
      modifies PoolDB`tip, PoolDB`diffs, PoolDB`diffDB, PoolDB`stored
      ensures chain == old(chain) && ConnectIgnored(block, r)
      ensures r == Panicked <==> MaturingTickets(rules, old(blockCache), rpc, block.height).None?
      ensures blockCache == CacheThen(rules, old(blockCache), block, rpc)
      ensures Canonical() <==> r == Panicked || block == BlockAt(rules, chain, block.height)
      ensures old(PoolDB.Persisted()) ==> PoolDB.Persisted()
    {
      CacheStoreIff(rules, chain, Forgotten(rules, blockCache, block.height), block);
      r := ConnectBlock(block, rpc, WORKING);
      assert LogOfChain() && LiveOk();
    }
  }
}

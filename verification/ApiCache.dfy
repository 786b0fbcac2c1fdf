/** APICache: a map of cached blocks, a height index and the expire queue (api/types/apicache.go). */
module ApiCache {
  import opened Types
  import opened BlockHeap

  predicate HashQueued(bh: seq<Slot>, hash: Hash) {
    exists i :: 0 <= i < |bh| && bh[i].block.hash == hash
  }

  /** No two queued blocks have the same hash. */
  predicate HashesDistinct(bh: seq<Slot>) {
    forall i, j :: 0 <= i < j < |bh| ==> bh[i].block.hash != bh[j].block.hash
  }

  /** The cached blocks are the queued ones, at the same heights. */
  ghost predicate CacheMatches(bh: seq<Slot>, cache: map<Hash, CachedBlock>) {
    && HashesDistinct(bh)
    && (forall i :: 0 <= i < |bh| ==> bh[i].block.hash in cache && cache[bh[i].block.hash].height == bh[i].block.height)
    && (forall h :: h in cache ==> HashQueued(bh, h))
  }

  /** Every indexed height names a cached block of that height. */
  predicate IndexOk(index: map<int, Hash>, cache: map<Hash, CachedBlock>) {
    forall h :: h in index ==> index[h] in cache && cache[index[h]].height == h
  }

  function HashSeq(bh: seq<Slot>): (r: seq<Hash>)
    ensures |r| == |bh| && forall i :: 0 <= i < |r| ==> r[i] == bh[i].block.hash
  {
    seq(|bh|, i requires 0 <= i < |bh| => bh[i].block.hash)
  }

  /** As many blocks are cached as are queued. */
  lemma CacheSize(bh: seq<Slot>, cache: map<Hash, CachedBlock>)
    requires CacheMatches(bh, cache)
    ensures |cache| == |bh| && cache.Keys == Elems(HashSeq(bh))
  {
    NoRepeatsSize(HashSeq(bh));
    assert cache.Keys == Elems(HashSeq(bh));
  }

  /** Membership, heights and distinctness of hashes survive any rearrangement. */
  lemma Rearranged(a: seq<Slot>, b: seq<Slot>, cache: map<Hash, CachedBlock>)
    requires multiset(Blocks(a)) == multiset(Blocks(b)) && CacheMatches(a, cache)
    ensures CacheMatches(b, cache)
  {
    forall i | 0 <= i < |b| ensures b[i].block in Blocks(a) && HashQueued(a, b[i].block.hash) {
      assert Blocks(b)[i] in multiset(Blocks(a));
      var j :| 0 <= j < |a| && Blocks(a)[j] == b[i].block;
      assert a[j].block.hash == b[i].block.hash;
    }
    forall i | 0 <= i < |b| ensures b[i].block.hash in cache && cache[b[i].block.hash].height == b[i].block.height {
      var j :| 0 <= j < |a| && Blocks(a)[j] == b[i].block;
      assert a[j].block == b[i].block;
    }
    forall h | h in cache ensures HashQueued(b, h) {
      var j :| 0 <= j < |a| && a[j].block.hash == h;
      assert Blocks(a)[j] in multiset(Blocks(b));
      var i :| 0 <= i < |b| && Blocks(b)[i] == a[j].block;
      assert b[i].block.hash == h;
    }
    DistinctSame(a, b);
  }

  lemma DistinctSame(a: seq<Slot>, b: seq<Slot>)
    requires multiset(Blocks(a)) == multiset(Blocks(b)) && HashesDistinct(a)
    ensures HashesDistinct(b)
  {
    var s, t := Blocks(a), Blocks(b);
    assert |a| == |multiset(s)| == |multiset(t)| == |b|;
    assert Elems(HashSeq(b)) == Elems(HashSeq(a)) by {
      forall h ensures h in HashSeq(b) <==> h in HashSeq(a) {
        if h in HashSeq(b) {
          var i :| 0 <= i < |b| && HashSeq(b)[i] == h;
          assert t[i] in multiset(s);
          var j :| 0 <= j < |a| && s[j] == t[i];
          assert HashSeq(a)[j] == h;
        }
        if h in HashSeq(a) {
          var i :| 0 <= i < |a| && HashSeq(a)[i] == h;
          assert s[i] in multiset(t);
          var j :| 0 <= j < |b| && t[j] == s[i];
          assert HashSeq(b)[j] == h;
        }
      }
    }
    assert NoRepeats(HashSeq(a));
    NoRepeatsSize(HashSeq(a));
    NoRepeatsSize(HashSeq(b));
    forall i, j | 0 <= i < j < |b| ensures b[i].block.hash != b[j].block.hash {
      assert HashSeq(b)[i] != HashSeq(b)[j];
    }
  }

  /** A new block is pushed and cached. */
  lemma PushedMatches(before: seq<Slot>, after: seq<Slot>, cache: map<Hash, CachedBlock>, b: CachedBlock)
    requires CacheMatches(before, cache) && b.hash !in cache
    requires multiset(Blocks(after)) == multiset(Blocks(before)) + multiset{b}
    ensures CacheMatches(after, cache[b.hash := b])
  {
    var pushed := before + [Slot(b, |before|)];
    assert Blocks(pushed) == Blocks(before) + [b];
    forall h | h in cache[b.hash := b] ensures HashQueued(pushed, h) {
      if h == b.hash {
        assert pushed[|before|].block.hash == h;
      } else {
        var i :| 0 <= i < |before| && before[i].block.hash == h;
        assert pushed[i].block.hash == h;
      }
    }
    Rearranged(pushed, after, cache[b.hash := b]);
  }

  /** The block at the top is evicted and a new block takes its place. */
  lemma ReplacedMatches(before: seq<Slot>, after: seq<Slot>, cache: map<Hash, CachedBlock>, b: CachedBlock)
    requires CacheMatches(before, cache) && b.hash !in cache && before != []
    requires multiset(Blocks(after)) == multiset(Blocks(before)) - multiset{before[0].block} + multiset{b}
    ensures CacheMatches(after, (cache - {before[0].block.hash})[b.hash := b])
  {
    var cache' := (cache - {before[0].block.hash})[b.hash := b];
    var replaced := before[0 := Slot(b, 0)];
    assert Blocks(replaced) == Blocks(before)[0 := b];
    forall h | h in cache' ensures HashQueued(replaced, h) {
      if h == b.hash {
        assert replaced[0].block.hash == h;
      } else {
        var i :| 0 <= i < |before| && before[i].block.hash == h;
        assert replaced[i].block.hash == h;
      }
    }
    Rearranged(replaced, after, cache');
  }

  function Evict(cache: map<Hash, CachedBlock>, top: Option<CachedBlock>): map<Hash, CachedBlock> {
    if top.None? then cache else cache - {top.value.hash}
  }

  function EvictHeight(index: map<int, Hash>, top: Option<CachedBlock>): map<int, Hash> {
    if top.None? then index else index - {top.value.height as int}
  }

  /** What a cached block says of its block is not changed while it stays cached: its height and
      hash stay, and a summary or stake info it has is the one it keeps. */
  ghost predicate PartsKept(before: map<Hash, CachedBlock>, after: map<Hash, CachedBlock>) {
    forall h :: h in before && h in after ==> BlockKept(before[h], after[h])
  }

  class APICache {
    const capacity: nat
    const expireQueue: BlockPriorityQueue
    var isEnabled: bool
    var blockCache: map<Hash, CachedBlock>
    var MainchainBlocks: map<int, Hash>
    var hits: nat
    var misses: nat

    ghost predicate Valid()
      reads this, expireQueue
    {
      && expireQueue.Valid() && expireQueue.capacity == capacity
      && CacheMatches(expireQueue.bh, blockCache)
      && IndexOk(MainchainBlocks, blockCache)
    }

    constructor (capacity: nat, lessFn: LessFn)
      ensures Valid() && fresh(expireQueue) && this.capacity == capacity && expireQueue.lessFn == lessFn
      ensures blockCache == map[] && MainchainBlocks == map[] && hits == 0 && misses == 0 && !isEnabled
    {
      this.capacity := capacity;
      expireQueue := new BlockPriorityQueue(capacity, lessFn);
      isEnabled, blockCache, MainchainBlocks, hits, misses := false, map[], map[], 0, 0;
    }

    method Enable()
      modifies this`isEnabled
      ensures isEnabled
    {
      isEnabled := true;
    }

    /** Whether a new block would be admitted to the queue. */
    ghost predicate Admitted(summary: Option<Part>, stakeInfo: Option<Part>, now: int)
      reads this, expireQueue
    {
      Admits(expireQueue.lessFn, expireQueue.capacity, expireQueue.bh, summary, stakeInfo, now)
    }

    /** The Reheap of the queue's watcher: the queue is rearranged, and still matches the map. */
    method ReheapQueue()
      requires Valid()
      modifies expireQueue`bh
      ensures Valid() && multiset(Blocks(expireQueue.bh)) == multiset(Blocks(old(expireQueue.bh)))
    {
      ghost var before := expireQueue.bh;
      expireQueue.Reheap();
      Rearranged(before, expireQueue.bh, blockCache);
    }

    /** The common tail of StoreBlockSummary and StoreStakeInfo for a block not yet cached:
        queue it, drop what the queue evicted, then cache and index it if it was queued. Any
        comparator may be used, so the evicted block may have the height of the new one. */
    method StoreNew(summary: Option<Part>, stakeInfo: Option<Part>, now: int)
      requires Valid() && (summary.Some? || stakeInfo.Some?) && !Mismatch(summary, stakeInfo)
      requires PartOf(summary, stakeInfo).hash !in blockCache
      modifies this`blockCache, this`MainchainBlocks
      modifies expireQueue`bh, expireQueue`minHeight, expireQueue`maxHeight
      ensures Valid()
      ensures !old(Admitted(summary, stakeInfo, now)) ==>
                blockCache == old(blockCache) && MainchainBlocks == old(MainchainBlocks)
      ensures old(Admitted(summary, stakeInfo, now)) ==>
                var b := Accessed(summary, stakeInfo, now);
                var top := if old(|expireQueue.bh|) < capacity then None else Some(old(expireQueue.bh[0].block));
                && blockCache == Evict(old(blockCache), top)[b.hash := b]
                && MainchainBlocks == EvictHeight(old(MainchainBlocks), top)[b.height := b.hash]
                && (top.Some? && top.value.height != b.height ==> top.value.height !in MainchainBlocks)
    {
      var block := Accessed(summary, stakeInfo, now);
      ghost var before := expireQueue.bh;
      var added, removed, removedHeight, _ := expireQueue.Insert(summary, stakeInfo, now);
      if added && |before| < capacity {
        PushedMatches(before, expireQueue.bh, blockCache, block);
      } else if added {
        ReplacedMatches(before, expireQueue.bh, blockCache, block);
      }
      if removed.Some? {
        blockCache := blockCache - {removed.value};
        MainchainBlocks := MainchainBlocks - {removedHeight};
      }
      if added {
        blockCache := blockCache[block.hash := block];
        MainchainBlocks := MainchainBlocks[block.height := block.hash];
      }
    }

    /** StoreBlockSummary. */
    method StoreBlockSummary(part: Part, now: int)
      requires Valid()
      modifies this`blockCache, this`MainchainBlocks
      modifies expireQueue`bh, expireQueue`minHeight, expireQueue`maxHeight
      ensures Valid() && |blockCache| <= capacity
      ensures !isEnabled ==> blockCache == old(blockCache) && MainchainBlocks == old(MainchainBlocks)
      ensures isEnabled && part.hash in old(blockCache) ==>
                && MainchainBlocks == old(MainchainBlocks) && expireQueue.bh == old(expireQueue.bh)
                && blockCache == old(blockCache)[part.hash := WithSummary(old(blockCache)[part.hash], part)]
      ensures isEnabled && part.hash !in old(blockCache) ==>
                (part.hash in blockCache <==> old(Admitted(Some(part), None, now)))
      ensures isEnabled && part.hash !in old(blockCache) && part.hash in blockCache ==>
                && blockCache[part.hash] == CachedBlock(part.height, part.hash, Some(part), None, 1, now)
                && part.height in MainchainBlocks && MainchainBlocks[part.height] == part.hash
      ensures isEnabled && part.hash in old(blockCache) ==>
                && blockCache[part.hash].summary == (if old(blockCache)[part.hash].summary.None? then Some(part) else old(blockCache)[part.hash].summary)
                && blockCache[part.hash].stakeInfo == old(blockCache)[part.hash].stakeInfo
      ensures PartsKept(old(blockCache), blockCache)
    {
      CacheSize(expireQueue.bh, blockCache);
      if !isEnabled {
        return;
      }
      if part.hash in blockCache {
        var b := blockCache[part.hash];
        if b.summary.None? {
          blockCache := blockCache[part.hash := b.(summary := Some(part))];
        }
        assert expireQueue.bh == old(expireQueue.bh);
        CacheSize(expireQueue.bh, blockCache);
        return;
      }
      StoreNew(Some(part), None, now);
      CacheSize(expireQueue.bh, blockCache);
    }

    /** StoreStakeInfo. */
    method StoreStakeInfo(part: Part, now: int)
      requires Valid()
      modifies this`blockCache, this`MainchainBlocks
      modifies expireQueue`bh, expireQueue`minHeight, expireQueue`maxHeight
      ensures Valid() && |blockCache| <= capacity
      ensures !isEnabled ==> blockCache == old(blockCache) && MainchainBlocks == old(MainchainBlocks)
      ensures isEnabled && part.hash in old(blockCache) ==>
                && MainchainBlocks == old(MainchainBlocks) && expireQueue.bh == old(expireQueue.bh)
                && blockCache == old(blockCache)[part.hash := WithStakeInfo(old(blockCache)[part.hash], part)]
      ensures isEnabled && part.hash !in old(blockCache) ==>
                (part.hash in blockCache <==> old(Admitted(None, Some(part), now)))
      ensures isEnabled && part.hash !in old(blockCache) && part.hash in blockCache ==>
                && blockCache[part.hash] == CachedBlock(part.height, part.hash, None, Some(part), 1, now)
                && part.height in MainchainBlocks && MainchainBlocks[part.height] == part.hash
      ensures isEnabled && part.hash in old(blockCache) ==>
                && blockCache[part.hash].stakeInfo == (if old(blockCache)[part.hash].stakeInfo.None? then Some(part) else old(blockCache)[part.hash].stakeInfo)
                && blockCache[part.hash].summary == old(blockCache)[part.hash].summary
      ensures PartsKept(old(blockCache), blockCache)
    {
      CacheSize(expireQueue.bh, blockCache);
      if !isEnabled {
        return;
      }
      if part.hash in blockCache {
        var b := blockCache[part.hash];
        if b.stakeInfo.None? {
          blockCache := blockCache[part.hash := b.(stakeInfo := Some(part))];
        }
        assert expireQueue.bh == old(expireQueue.bh);
        CacheSize(expireQueue.bh, blockCache);
        return;
      }
      StoreNew(None, Some(part), now);
      CacheSize(expireQueue.bh, blockCache);
    }

    /** getCachedBlockByHash: a hit counts one access of the cached block. */
    method GetCachedBlockByHash(hash: Hash, now: int) returns (r: Option<CachedBlock>)
      requires Valid()
      modifies this`blockCache, this`hits, this`misses
      ensures Valid() && blockCache.Keys == old(blockCache).Keys && hits + misses == old(hits + misses) + 1
      ensures r.Some? <==> hash in old(blockCache)
      ensures r.Some? ==>
                && r.value == WithAccess(old(blockCache)[hash], now) && hits == old(hits) + 1
                && blockCache == old(blockCache)[hash := r.value]
      ensures r.None? ==> blockCache == old(blockCache)
      ensures r.Some? ==>
                && r.value.summary == old(blockCache)[hash].summary && r.value.stakeInfo == old(blockCache)[hash].stakeInfo
                && r.value.height == old(blockCache)[hash].height && r.value.hash == old(blockCache)[hash].hash
                && r.value.accesses == old(blockCache)[hash].accesses + 1 && r.value.accessTime == now
      ensures PartsKept(old(blockCache), blockCache)
    {
      if hash in blockCache {
        var b := blockCache[hash];
        b := WithAccess(b, now);
        blockCache := blockCache[hash := b];
        hits := hits + 1;
        return Some(b);
      }
      misses := misses + 1;
      r := None;
    }

    /** GetCachedBlockByHeight: an indexed height always hits, and with a block of that height. */
    method GetCachedBlockByHeight(height: int, now: int) returns (r: Option<CachedBlock>)
      requires Valid()
      modifies this`blockCache, this`hits, this`misses
      ensures Valid() && blockCache.Keys == old(blockCache).Keys && misses == old(misses)
      ensures r.Some? <==> height in MainchainBlocks
      ensures r.Some? ==> r.value.height == height
      ensures r.Some? ==>
                var hash := MainchainBlocks[height];
                && hash in blockCache && r.value == blockCache[hash]
                && r.value.summary == old(blockCache)[hash].summary && r.value.stakeInfo == old(blockCache)[hash].stakeInfo
                && r.value.hash == old(blockCache)[hash].hash && r.value.accessTime == now
      ensures PartsKept(old(blockCache), blockCache)
    {
      if height !in MainchainBlocks {
        return None;
      }
      r := GetCachedBlockByHash(MainchainBlocks[height], now);
    }
  }

  /** A block after one Access. */
  function WithAccess(b: CachedBlock, now: int): (r: CachedBlock)
    ensures r.height == b.height && r.hash == b.hash && r.accesses == b.accesses + 1
  {
    b.(accesses := b.accesses + 1, accessTime := now)
  }

  function WithSummary(b: CachedBlock, part: Part): CachedBlock {
    if b.summary.None? then b.(summary := Some(part)) else b
  }

  function WithStakeInfo(b: CachedBlock, part: Part): CachedBlock {
    if b.stakeInfo.None? then b.(stakeInfo := Some(part)) else b
  }

  // ---- Every run of stores and lookups ----

  datatype Op =
    | EnableOp
    | SummaryOp(part: Part)
    | StakeInfoOp(part: Part)
    | ByHashOp(hash: Hash)
    | ByHeightOp(height: int)
    | ReheapOp

  method Perform(cache: APICache, op: Op, now: int) returns (r: Option<CachedBlock>)
    requires cache.Valid()
    modifies cache, cache.expireQueue
    ensures cache.Valid() && PartsKept(old(cache.blockCache), cache.blockCache)
    ensures op.ByHashOp? ==> (r.Some? <==> op.hash in cache.blockCache) && (r.Some? ==> r.value == cache.blockCache[op.hash])
    ensures op.ByHeightOp? ==>
              && (r.Some? <==> op.height in cache.MainchainBlocks)
              && (r.Some? ==> r.value.height == op.height && cache.MainchainBlocks[op.height] in cache.blockCache
                              && r.value == cache.blockCache[cache.MainchainBlocks[op.height]])
    ensures op.SummaryOp? && cache.isEnabled && op.part.hash in cache.blockCache ==> cache.blockCache[op.part.hash].summary.Some?
    ensures op.StakeInfoOp? && cache.isEnabled && op.part.hash in cache.blockCache ==> cache.blockCache[op.part.hash].stakeInfo.Some?
    ensures op.EnableOp? ==> cache.isEnabled
  {
    r := None;
    match op {
      case EnableOp => cache.Enable();
      case SummaryOp(part) => cache.StoreBlockSummary(part, now);
      case StakeInfoOp(part) => cache.StoreStakeInfo(part, now);
      case ByHashOp(hash) => r := cache.GetCachedBlockByHash(hash, now);
      case ByHeightOp(height) => r := cache.GetCachedBlockByHeight(height, now);
      case ReheapOp => cache.ReheapQueue();
    }
  }

  /** While a block stays cached, whatever is stored and looked up, what was stored of it is what
      later lookups return. `stayed` says that it was cached after every operation. */
  method KeepsParts(cache: APICache, ops: seq<Op>, times: seq<int>, hash: Hash, now: int)
    returns (stayed: bool, r: Option<CachedBlock>)
    requires cache.Valid() && |times| == |ops| && hash in cache.blockCache
    modifies cache, cache.expireQueue
    ensures cache.Valid()
    ensures stayed ==>
              && r.Some? && r.value.hash == old(cache.blockCache)[hash].hash && r.value.height == old(cache.blockCache)[hash].height
              && (old(cache.blockCache)[hash].summary.Some? ==> r.value.summary == old(cache.blockCache)[hash].summary)
              && (old(cache.blockCache)[hash].stakeInfo.Some? ==> r.value.stakeInfo == old(cache.blockCache)[hash].stakeInfo)
  {
    stayed, r := true, None;
    ghost var was := cache.blockCache[hash];
    for i := 0 to |ops|
      invariant cache.Valid() && stayed && hash in cache.blockCache && BlockKept(was, cache.blockCache[hash])
    {
      var _ := Perform(cache, ops[i], times[i]);
      if hash !in cache.blockCache {
        return false, None;
      }
    }
    r := cache.GetCachedBlockByHash(hash, now);
  }

  predicate BlockKept(before: CachedBlock, after: CachedBlock) {
    && after.height == before.height && after.hash == before.hash
    && (before.summary.Some? ==> after.summary == before.summary)
    && (before.stakeInfo.Some? ==> after.stakeInfo == before.stakeInfo)
  }

  /** Any run of stores, lookups and Reheaps, under any comparator: the cached hashes are the queued
      ones, no more than the capacity, and every indexed height names a cached block of that
      height. `times` are the clock readings. */
  method PerformAll(cache: APICache, ops: seq<Op>, times: seq<int>)
    requires cache.Valid() && |times| == |ops|
    modifies cache, cache.expireQueue
    ensures cache.Valid() && |cache.blockCache| <= cache.capacity
    ensures cache.blockCache.Keys == Elems(HashSeq(cache.expireQueue.bh))
    ensures IndexOk(cache.MainchainBlocks, cache.blockCache)
  {
    for i := 0 to |ops|
      invariant cache.Valid()
    {
      var _ := Perform(cache, ops[i], times[i]);
    }
    CacheSize(cache.expireQueue.bh, cache.blockCache);
  }
}

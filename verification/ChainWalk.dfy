/** Walks over a parent-linked block store: common ancestors, side chains and orphaned tips
    (rpcutils/rpcclient.go). */
module ChainWalk {
  import opened Types

  /** What a header tells: its parent, its height, and whether the block is main chain. */
  datatype Header = Header(prev: Hash, height: nat, mainChain: bool)

  type Store = map<Hash, Header>

  const MAX_ANCESTOR_CHAIN_LENGTH: nat := 8192

  function Prev(store: Store, h: Hash): Hash {
    if h in store then store[h].prev else ZERO_HASH
  }

  /** The block `k` steps below `h`, or the zero hash below genesis. */
  function Walk(store: Store, h: Hash, k: nat): Hash {
    if k == 0 then h else Prev(store, Walk(store, h, k - 1))
  }

  /** The `n` blocks from the tip down, lowest first. */
  function Trail(store: Store, tip: Hash, n: nat): (r: seq<Hash>)
    ensures |r| == n
  {
    if n == 0 then [] else [Walk(store, tip, n - 1)] + Trail(store, tip, n - 1)
  }

  /** The block sits one above its parent, or is genesis at height 0 and has none. */
  predicate HeaderOk(store: Store, h: Hash)
    requires h in store
  {
    if store[h].height == 0 then store[h].prev == ZERO_HASH
    else store[h].prev in store && store[store[h].prev].height == store[h].height - 1
  }

  ghost predicate StoreOk(store: Store) {
    && ZERO_HASH !in store
    && forall h {:trigger HeaderOk(store, h)} :: h in store ==> HeaderOk(store, h)
  }

  lemma {:induction false} WalkHeight(store: Store, h: Hash, k: nat)
    requires StoreOk(store) && h in store
    ensures k <= store[h].height ==> Walk(store, h, k) in store && store[Walk(store, h, k)].height == store[h].height - k
    ensures k > store[h].height ==> Walk(store, h, k) == ZERO_HASH
  {
    if k > 0 {
      WalkHeight(store, h, k - 1);
      if k - 1 <= store[h].height {
        assert HeaderOk(store, Walk(store, h, k - 1));
      }
    }
  }

  lemma {:induction false} WalkUnknown(store: Store, h: Hash, k: nat)
    requires StoreOk(store) && h !in store && k > 0
    ensures Walk(store, h, k) == ZERO_HASH
  {
    if k > 1 {
      WalkUnknown(store, h, k - 1);
    }
  }

  lemma {:induction false} TrailAt(store: Store, tip: Hash, n: nat, i: nat)
    requires i < n
    ensures Trail(store, tip, n)[i] == Walk(store, tip, n - 1 - i)
  {
    if i > 0 {
      TrailAt(store, tip, n - 1, i - 1);
    }
  }

  /** A common proper ancestor, `i` below one tip and `j` below the other. */
  predicate Common(store: Store, a: Hash, b: Hash, i: nat, j: nat) {
    i >= 1 && j >= 1 && Walk(store, a, i) == Walk(store, b, j) && Walk(store, a, i) != ZERO_HASH
  }

  /** Every common proper ancestor lies more than `n` below one tip and `m` below the other. */
  ghost predicate AllBelow(store: Store, a: Hash, b: Hash, n: nat, m: nat) {
    forall i: nat, j: nat {:trigger Common(store, a, b, i, j)} :: Common(store, a, b, i, j) ==> i > n && j > m
  }

  /** Common ancestors are seen at the same height from both tips. */
  lemma CommonHeights(store: Store, a: Hash, b: Hash, i: nat, j: nat)
    requires StoreOk(store) && Common(store, a, b, i, j)
    ensures a in store && b in store && store[a].height - i == store[b].height - j >= 0
  {
    if a !in store { WalkUnknown(store, a, i); }
    if b !in store { WalkUnknown(store, b, j); }
    if a in store && b in store {
      WalkHeight(store, a, i);
      WalkHeight(store, b, j);
    }
  }

  lemma BelowStepA(store: Store, a: Hash, b: Hash, n: nat, m: nat)
    requires StoreOk(store) && AllBelow(store, a, b, n, m) && a in store && b in store
    requires store[a].height - n > store[b].height - m
    ensures AllBelow(store, a, b, n + 1, m)
  {
    forall i: nat, j: nat | Common(store, a, b, i, j) ensures i > n + 1 && j > m {
      CommonHeights(store, a, b, i, j);
    }
  }

  lemma BelowStepB(store: Store, a: Hash, b: Hash, n: nat, m: nat)
    requires StoreOk(store) && AllBelow(store, a, b, n, m) && a in store && b in store
    requires store[a].height - n < store[b].height - m
    ensures AllBelow(store, a, b, n, m + 1)
  {
    forall i: nat, j: nat | Common(store, a, b, i, j) ensures i > n && j > m + 1 {
      CommonHeights(store, a, b, i, j);
    }
  }

  lemma BelowStepBoth(store: Store, a: Hash, b: Hash, n: nat, m: nat)
    requires StoreOk(store) && AllBelow(store, a, b, n, m) && a in store && b in store
    requires store[a].height - n == store[b].height - m
    requires Walk(store, a, n + 1) != Walk(store, b, m + 1)
    ensures AllBelow(store, a, b, n + 1, m + 1)
  {
    forall i: nat, j: nat | Common(store, a, b, i, j) ensures i > n + 1 && j > m + 1 {
      CommonHeights(store, a, b, i, j);
    }
  }

  /** Past genesis there is nothing left to have in common. */
  lemma NothingBelowGenesis(store: Store, a: Hash, b: Hash, n: nat, m: nat)
    requires StoreOk(store) && AllBelow(store, a, b, n, m) && a in store && Walk(store, a, n + 1) == ZERO_HASH
    ensures forall i: nat, j: nat :: !Common(store, a, b, i, j)
  {
    forall i: nat, j: nat ensures !Common(store, a, b, i, j) {
      if Common(store, a, b, i, j) {
        WalkHeight(store, a, n + 1);
        WalkHeight(store, a, i);
      }
    }
  }

  /** Where the two-pointer walk is after `n` steps below one tip and `m` below the other: the
      pointer that went further is not the lower one, and every common proper ancestor is
      still ahead of both. */
  ghost predicate Walking(store: Store, a: Hash, b: Hash, n: nat, m: nat) {
    && AllBelow(store, a, b, n, m)
    && (n > 0 || m > 0 ==> a in store && b in store)
    && (a in store ==> n <= store[a].height)
    && (b in store ==> m <= store[b].height)
    && (a in store && b in store && n > m ==> store[a].height - n >= store[b].height - m)
    && (a in store && b in store && m > n ==> store[b].height - m >= store[a].height - n)
  }

  /** The pointers are blocks of the store exactly when the tips are, at known heights. */
  lemma Pointers(store: Store, a: Hash, b: Hash, n: nat, m: nat)
    requires StoreOk(store) && Walking(store, a, b, n, m)
    ensures Walk(store, a, n) in store <==> a in store
    ensures Walk(store, b, m) in store <==> b in store
    ensures a in store ==> store[Walk(store, a, n)].height == store[a].height - n
    ensures b in store ==> store[Walk(store, b, m)].height == store[b].height - m
  {
    if a in store { WalkHeight(store, a, n); }
    if b in store { WalkHeight(store, b, m); }
  }

  lemma StepA(store: Store, a: Hash, b: Hash, n: nat, m: nat)
    requires StoreOk(store) && Walking(store, a, b, n, m) && a in store && b in store
    requires store[a].height - n > store[b].height - m
    ensures n >= m && Walking(store, a, b, n + 1, m)
  {
    BelowStepA(store, a, b, n, m);
  }

  lemma StepB(store: Store, a: Hash, b: Hash, n: nat, m: nat)
    requires StoreOk(store) && Walking(store, a, b, n, m) && a in store && b in store
    requires store[a].height - n < store[b].height - m
    ensures m >= n && Walking(store, a, b, n, m + 1)
  {
    BelowStepB(store, a, b, n, m);
  }

  /** Both pointers go down one from the same height: they meet, they pass genesis, or the
      walk goes on. */
  lemma StepBoth(store: Store, a: Hash, b: Hash, n: nat, m: nat)
    requires StoreOk(store) && Walking(store, a, b, n, m) && a in store && b in store
    requires store[a].height - n == store[b].height - m
    ensures var p, q := Walk(store, a, n + 1), Walk(store, b, m + 1);
            && (p == ZERO_HASH ==> q == ZERO_HASH && forall i: nat, j: nat :: !Common(store, a, b, i, j))
            && (p != ZERO_HASH && p == q ==> Common(store, a, b, n + 1, m + 1))
            && (p != ZERO_HASH && p != q ==> Walking(store, a, b, n + 1, m + 1))
  {
    WalkHeight(store, a, n + 1);
    WalkHeight(store, b, m + 1);
    if Walk(store, a, n + 1) == ZERO_HASH {
      NothingBelowGenesis(store, a, b, n, m);
    } else if Walk(store, a, n + 1) != Walk(store, b, m + 1) {
      BelowStepBoth(store, a, b, n, m);
    }
  }

  datatype Ancestry =
    | Found(ancestor: Hash, chainA: seq<Hash>, chainB: seq<Hash>)
    | AtGenesis(chainA: seq<Hash>, chainB: seq<Hash>)
    | MaxChainLength
    | FetchFailed

  function Max(a: int, b: int): int { if a < b then b else a }

  /** Both chains are the paths from the tips down to, and without, the highest block that is
      a proper ancestor of both. */
  ghost predicate IsAncestry(store: Store, a: Hash, b: Hash, r: Ancestry)
    requires r.Found?
  {
    var n, m := |r.chainA|, |r.chainB|;
    && Common(store, a, b, n, m) && r.ancestor == Walk(store, a, n)
    && r.chainA == Trail(store, a, n) && r.chainB == Trail(store, b, m)
    && (forall i: nat, j: nat {:trigger Common(store, a, b, i, j)} :: Common(store, a, b, i, j) ==> i >= n && j >= m)
  }

  /** `chain` is the path from the tip down to, and without, the block `hash`. */
  predicate OnTrail(store: Store, tip: Hash, chain: seq<Hash>, hash: Hash) {
    chain == Trail(store, tip, |chain|) && hash == Walk(store, tip, |chain|)
  }

  lemma TrailGrows(store: Store, tip: Hash, chain: seq<Hash>, hash: Hash)
    requires OnTrail(store, tip, chain, hash) && hash in store
    ensures OnTrail(store, tip, [hash] + chain, store[hash].prev)
  {
  }

  /** Where the pointers meet is the highest common proper ancestor. */
  lemma MetAt(store: Store, a: Hash, b: Hash, chainA: seq<Hash>, chainB: seq<Hash>, hash: Hash, n: nat, m: nat)
    requires AllBelow(store, a, b, n, m) && |chainA| == n + 1 && |chainB| == m + 1
    requires OnTrail(store, a, chainA, hash) && OnTrail(store, b, chainB, hash) && hash != ZERO_HASH
    ensures IsAncestry(store, a, b, Found(hash, chainA, chainB))
  {
  }

  /** The block `k` below the tip is on its chain and cannot be fetched. */
  predicate Unfetchable(store: Store, fails: set<Hash>, tip: Hash, k: nat) {
    if tip in store then k <= store[tip].height && Walk(store, tip, k) in fails else k == 0
  }

  /** CommonAncestor. The store is what the chain is; `fails` are the blocks that cannot be
      fetched. It finds the highest common proper ancestor, reports genesis only when there
      is none, and the length bound only when the ancestor is further away than that. */
  method CommonAncestor(store: Store, fails: set<Hash>, a: Hash, b: Hash) returns (r: Ancestry)
    requires StoreOk(store)
    ensures r.Found? ==> IsAncestry(store, a, b, r)
    ensures r.AtGenesis? ==> forall i: nat, j: nat :: !Common(store, a, b, i, j)
    ensures r.AtGenesis? ==> OnTrail(store, a, r.chainA, ZERO_HASH) && OnTrail(store, b, r.chainB, ZERO_HASH)
    ensures r.MaxChainLength? ==>
              a in store && b in store && (store[a].height >= MAX_ANCESTOR_CHAIN_LENGTH || store[b].height >= MAX_ANCESTOR_CHAIN_LENGTH)
    ensures r.FetchFailed? ==> exists k: nat :: Unfetchable(store, fails, a, k) || Unfetchable(store, fails, b, k)
    ensures r.MaxChainLength? ==> forall i: nat, j: nat {:trigger Common(store, a, b, i, j)} :: Common(store, a, b, i, j) ==>
              Max(i, j) > MAX_ANCESTOR_CHAIN_LENGTH
    ensures fails == {} && a in store && b in store ==> !r.FetchFailed?
  {
    var length, hashA, hashB := 0, a, b;
    var chainA: seq<Hash>, chainB: seq<Hash> := [], [];
    while true
      invariant length == Max(|chainA|, |chainB|) <= MAX_ANCESTOR_CHAIN_LENGTH
      invariant OnTrail(store, a, chainA, hashA) && OnTrail(store, b, chainB, hashB)
      invariant Walking(store, a, b, |chainA|, |chainB|)
      decreases MAX_ANCESTOR_CHAIN_LENGTH - length
    {
      if length >= MAX_ANCESTOR_CHAIN_LENGTH {
        return MaxChainLength;
      }
      var n, m := |chainA|, |chainB|;
      Pointers(store, a, b, n, m);
      if hashA !in store || hashA in fails || hashB !in store || hashB in fails {
        assert Unfetchable(store, fails, a, n) || Unfetchable(store, fails, b, m);
        return FetchFailed;
      }
      var headerA, headerB := store[hashA], store[hashB];
      if headerA.height > headerB.height {
        StepA(store, a, b, n, m);
        TrailGrows(store, a, chainA, hashA);
        chainA, length, hashA := [hashA] + chainA, length + 1, headerA.prev;
        continue;
      }
      if headerB.height > headerA.height {
        StepB(store, a, b, n, m);
        TrailGrows(store, b, chainB, hashB);
        chainB, length, hashB := [hashB] + chainB, length + 1, headerB.prev;
        continue;
      }
      StepBoth(store, a, b, n, m);
      TrailGrows(store, a, chainA, hashA);
      TrailGrows(store, b, chainB, hashB);
      chainA, chainB, length := [hashA] + chainA, [hashB] + chainB, length + 1;
      if headerA.prev == ZERO_HASH {
        return AtGenesis(chainA, chainB);
      }
      hashA, hashB := headerA.prev, headerB.prev;
      if hashA == hashB {
        MetAt(store, a, b, chainA, chainB, hashA, n, m);
        r := Found(hashA, chainA, chainB);
        return;
      }
    }
  }

  /** The two chains share no block, unless one tip lies on the other tip's chain. */
  lemma ChainsDisjoint(store: Store, a: Hash, b: Hash, r: Ancestry, y: Hash)
    requires StoreOk(store) && r.Found? && IsAncestry(store, a, b, r)
    requires y in r.chainA && y in r.chainB
    ensures y == a || y == b
  {
    var n, m := |r.chainA|, |r.chainB|;
    var i :| 0 <= i < n && r.chainA[i] == y;
    var j :| 0 <= j < m && r.chainB[j] == y;
    TrailAt(store, a, n, i);
    TrailAt(store, b, m, j);
    CommonHeights(store, a, b, n, m);
    WalkHeight(store, a, n - 1 - i);
    assert !Common(store, a, b, n - 1 - i, m - 1 - j);
  }

  // ---- Side chains ----

  function Reversed(s: seq<Hash>): (r: seq<Hash>)
    ensures |r| == |s| && forall i :: 0 <= i < |s| ==> r[i] == s[|s| - 1 - i]
  {
    seq(|s|, i requires 0 <= i < |s| => s[|s| - 1 - i])
  }

  /** reverseStringSlice. */
  method ReverseSlice(s: array<Hash>)
    modifies s
    ensures s[..] == Reversed(old(s[..]))
  {
    var n := s.Length;
    var i := 0;
    while i <= n / 2 - 1
      invariant 0 <= i <= n / 2
      invariant forall k :: 0 <= k < i ==> s[k] == old(s[n - 1 - k]) && s[n - 1 - k] == old(s[k])
      invariant forall k :: i <= k < n - i ==> s[k] == old(s[k])
    {
      var j := n - 1 - i;
      s[i], s[j] := s[j], s[i];
      i := i + 1;
    }
  }

  datatype SideChain = Chain(blocks: seq<Hash>) | NotSideChain | NoHeader

  /** The blocks from the tip down, tip first. */
  function Descent(store: Store, tip: Hash, n: nat): (r: seq<Hash>)
    ensures |r| == n && forall i :: 0 <= i < n ==> r[i] == Walk(store, tip, i)
  {
    seq(n, i requires 0 <= i < n => Walk(store, tip, i))
  }

  lemma TrailIsReversedDescent(store: Store, tip: Hash, n: nat)
    ensures Trail(store, tip, n) == Reversed(Descent(store, tip, n))
  {
    forall i | 0 <= i < n ensures Trail(store, tip, n)[i] == Walk(store, tip, n - 1 - i) {
      TrailAt(store, tip, n, i);
    }
  }

  predicate IsMain(store: Store, h: Hash) {
    h in store && store[h].mainChain
  }

  /** SideChainFull: all side chain blocks from the one on top of the main chain up to the
      tip, lowest first. */
  method SideChainFull(store: Store, fails: set<Hash>, tip: Hash) returns (r: SideChain)
    requires StoreOk(store)
    ensures r.Chain? ==>
              && |r.blocks| >= 1 && r.blocks == Trail(store, tip, |r.blocks|)
              && IsMain(store, Walk(store, tip, |r.blocks|))
              && forall i :: 0 <= i < |r.blocks| ==> r.blocks[i] in store && !IsMain(store, r.blocks[i])
    ensures r.NotSideChain? <==> IsMain(store, tip) && tip !in fails
    ensures r.NoHeader? ==> exists k: nat :: (Walk(store, tip, k) !in store || Walk(store, tip, k) in fails)
                                             && forall i: nat :: i < k ==> !IsMain(store, Walk(store, tip, i))
    ensures fails == {} && tip in store && (forall h :: h in store && store[h].height == 0 ==> store[h].mainChain) ==> !r.NoHeader?
  {
    var sideChain: seq<Hash> := [];
    var hash := tip;
    while true
      invariant sideChain == Descent(store, tip, |sideChain|) && hash == Walk(store, tip, |sideChain|)
      invariant forall i :: 0 <= i < |sideChain| ==> sideChain[i] in store && !IsMain(store, sideChain[i])
      invariant sideChain != [] ==> tip in store && !IsMain(store, tip) && |sideChain| <= store[tip].height + 1
      invariant tip in store && (forall h :: h in store && store[h].height == 0 ==> store[h].mainChain) ==> hash in store
      decreases if hash in store then store[hash].height + 1 else 0
    {
      if hash !in store || hash in fails {
        return NoHeader;
      }
      var n := |sideChain|;
      WalkHeight(store, tip, n);
      if store[hash].mainChain {
        if n == 0 {
          return NotSideChain;
        }
        break;
      }
      assert HeaderOk(store, hash);
      sideChain := sideChain + [hash];
      hash := store[hash].prev;
    }
    var s := new Hash[|sideChain|](i requires 0 <= i < |sideChain| => sideChain[i]);
    assert s[..] == sideChain;
    ReverseSlice(s);
    TrailIsReversedDescent(store, tip, |sideChain|);
    r := Chain(s[..]);
  }

  // ---- Orphaned tips ----

  datatype Orphaned = Length(n: int) | Failed

  /** Whether database and node name the same block at a height. */
  predicate Agree(dbHashes: map<int, Hash>, nodeHashes: map<int, Hash>, h: int) {
    h in dbHashes && h in nodeHashes && dbHashes[h] == nodeHashes[h]
  }

  /** The distance to the highest height at or below the tip where both agree. */
  ghost predicate IsOrphaned(dbHashes: map<int, Hash>, nodeHashes: map<int, Hash>, tipHeight: int, n: int) {
    0 <= n && Agree(dbHashes, nodeHashes, tipHeight - n)
    && forall h :: tipHeight - n < h <= tipHeight ==> !Agree(dbHashes, nodeHashes, h)
  }

  /** The context is found done at a height that is reached before any agreement. */
  ghost predicate Cancelled(dbHashes: map<int, Hash>, nodeHashes: map<int, Hash>, tipHeight: int, done: set<int>) {
    exists h :: h in done && h <= tipHeight && forall g :: h < g <= tipHeight ==> !Agree(dbHashes, nodeHashes, g)
  }

  /** OrphanedTipLength. `done` are the heights at which the context is found done: the search
      then ends with the length 0. Otherwise it finds the distance to the highest height where
      database and node agree. */
  method OrphanedTipLength(dbHashes: map<int, Hash>, nodeHashes: map<int, Hash>, tipHeight: int, done: set<int>)
    returns (r: Orphaned)
    ensures r.Length? ==>
              if Cancelled(dbHashes, nodeHashes, tipHeight, done) then r.n == 0
              else IsOrphaned(dbHashes, nodeHashes, tipHeight, r.n)
    ensures tipHeight >= 0 && (forall h :: 0 <= h <= tipHeight ==> h in dbHashes && h in nodeHashes) && (forall h :: h in done ==> h >= 0) ==>
              (r.Length? <==> Cancelled(dbHashes, nodeHashes, tipHeight, done)
                              || exists h :: 0 <= h <= tipHeight && Agree(dbHashes, nodeHashes, h))
  {
    var commonHeight := tipHeight;
    while true
      invariant commonHeight == tipHeight || 0 <= commonHeight < tipHeight
      invariant forall h :: commonHeight < h <= tipHeight ==> !Agree(dbHashes, nodeHashes, h) && h !in done
      decreases if commonHeight < 0 then 0 else commonHeight
    {
      if commonHeight in done {
        return Length(0);
      }
      if commonHeight !in dbHashes || commonHeight !in nodeHashes {
        return Failed;
      }
      if dbHashes[commonHeight] == nodeHashes[commonHeight] {
        break;
      }
      commonHeight := commonHeight - 1;
      if commonHeight < 0 {
        return Failed;
      }
    }
    assert Agree(dbHashes, nodeHashes, commonHeight);
    r := Length(tipHeight - commonHeight);
  }
}

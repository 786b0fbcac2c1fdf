/** The bounded, index-tracking priority queue of the API cache (api/types/apicache.go). The
    heap operations are those of Go's container/heap. */
module BlockHeap {
  import opened Types

  /** A block summary or a stake info: what identifies the block it belongs to. */
  datatype Part = Part(height: nat, hash: Hash)

  datatype CachedBlock = CachedBlock(height: nat, hash: Hash, summary: Option<Part>, stakeInfo: Option<Part>,
                                     accesses: int, accessTime: int)

  /** A queued block with its heapIdx field. */
  datatype Slot = Slot(block: CachedBlock, heapIdx: int)

  type LessFn = (CachedBlock, CachedBlock) -> bool

  predicate LessByHeight(a: CachedBlock, b: CachedBlock) {
    a.height < b.height
  }

  predicate LessByAccessCount(a: CachedBlock, b: CachedBlock) {
    a.accesses < b.accesses
  }

  function Magnitude(x: int): int {
    if x < 0 then -x else x
  }

  /** The comparison of MakeLessByAccessTimeThenCount with a threshold in nanoseconds. Go's
      division truncates, so the quotient is zero exactly when the times are less than the
      threshold apart. */
  predicate BinnedLess(threshold: int, a: CachedBlock, b: CachedBlock) {
    var diff := a.accessTime - b.accessTime;
    if Magnitude(diff) < Magnitude(threshold) then LessByAccessCount(a, b) else diff < 0
  }

  function LessByAccessTimeThenCount(threshold: int): LessFn {
    (a: CachedBlock, b: CachedBlock) => BinnedLess(threshold, a, b)
  }

  ghost predicate StrictWeak(less: LessFn) {
    && (forall a, b :: less(a, b) ==> !less(b, a))
    && (forall a, b, c :: !less(a, b) && !less(b, c) ==> !less(a, c))
  }

  lemma LessByHeightIsStrictWeak()
    ensures StrictWeak(LessByHeight)
  {
  }

  /** The binned comparator is not transitive when a bin is longer than the clock's tick. */
  lemma BinnedIsNotTransitive(threshold: int, x: CachedBlock)
    requires Magnitude(threshold) > 1
    ensures var a := x.(accesses := 1, accessTime := 0);
            var b := x.(accesses := 2, accessTime := -1);
            var c := x.(accesses := 3, accessTime := -Magnitude(threshold));
            && BinnedLess(threshold, a, b) && BinnedLess(threshold, b, c)
            && !BinnedLess(threshold, a, c) && BinnedLess(threshold, c, a)
  {
  }

  /** It is an order exactly when a bin is one tick of the clock. */
  lemma BinnedIsOrderIff(threshold: int)
    requires threshold != 0
    ensures StrictWeak(LessByAccessTimeThenCount(threshold)) <==> Magnitude(threshold) == 1
  {
    if Magnitude(threshold) > 1 {
      var less, x := LessByAccessTimeThenCount(threshold), CachedBlock(0, 0, None, None, 0, 0);
      BinnedIsNotTransitive(threshold, x);
      var a := x.(accesses := 1, accessTime := 0);
      var b := x.(accesses := 2, accessTime := -1);
      var c := x.(accesses := 3, accessTime := -Magnitude(threshold));
      assert !less(c, b) && !less(b, a) && less(c, a);
    }
  }

  const MILLISECOND: int := 1_000_000

  /** The threshold is given in milliseconds, so it never is. */
  lemma DefaultComparatorIsNoOrder(millisecondsBinned: int)
    requires millisecondsBinned != 0
    ensures !StrictWeak(LessByAccessTimeThenCount(millisecondsBinned * MILLISECOND))
  {
    BinnedIsOrderIff(millisecondsBinned * MILLISECOND);
  }

  function Parent(k: nat): nat
    requires k > 0
  {
    (k - 1) / 2
  }

  /** The queued block at `k` is not of lower priority than its parent. */
  predicate OrderAt(less: LessFn, bh: seq<Slot>, k: nat)
    requires k < |bh|
  {
    k == 0 || !less(bh[k].block, bh[Parent(k)].block)
  }

  /** The queued block at `k` is not of lower priority than its grandparent. */
  predicate GrandAt(less: LessFn, bh: seq<Slot>, k: nat)
    requires k < |bh|
  {
    k == 0 || Parent(k) == 0 || !less(bh[k].block, bh[Parent(Parent(k))].block)
  }

  ghost predicate Ordered(less: LessFn, bh: seq<Slot>) {
    forall k {:trigger OrderAt(less, bh, k)} :: 0 <= k < |bh| ==> OrderAt(less, bh, k)
  }

  /** Heap order everywhere but between `j` and its parent. */
  ghost predicate OrderedButAt(less: LessFn, bh: seq<Slot>, j: nat) {
    && (forall k {:trigger OrderAt(less, bh, k)} :: 0 <= k < |bh| && k != j ==> OrderAt(less, bh, k))
    && (forall k {:trigger GrandAt(less, bh, k)} :: 0 < k < |bh| && Parent(k) == j ==> GrandAt(less, bh, k))
  }

  /** Heap order between every index from `lo` on and its children. */
  ghost predicate OrderedFrom(less: LessFn, bh: seq<Slot>, lo: nat) {
    forall k {:trigger OrderAt(less, bh, k)} :: 0 < k < |bh| && Parent(k) >= lo ==> OrderAt(less, bh, k)
  }

  /** The same, but for `i` and its children. */
  ghost predicate OrderedButBelow(less: LessFn, bh: seq<Slot>, lo: nat, i: nat) {
    && (forall k {:trigger OrderAt(less, bh, k)} :: 0 < k < |bh| && Parent(k) >= lo && Parent(k) != i ==> OrderAt(less, bh, k))
    && (i > 0 && Parent(i) >= lo ==>
          forall k {:trigger GrandAt(less, bh, k)} :: 0 < k < |bh| && Parent(k) == i ==> GrandAt(less, bh, k))
  }

  /** Heap order everywhere but between `i` and its parent and children. */
  ghost predicate OrderedExcept(less: LessFn, bh: seq<Slot>, i: nat) {
    && (forall k {:trigger OrderAt(less, bh, k)} :: 0 <= k < |bh| && k != i && (k == 0 || Parent(k) != i) ==> OrderAt(less, bh, k))
    && (forall k {:trigger GrandAt(less, bh, k)} :: 0 < k < |bh| && Parent(k) == i ==> GrandAt(less, bh, k))
  }

  /** No child of `i` has lower priority. */
  ghost predicate NoChildLess(less: LessFn, bh: seq<Slot>, i: nat)
    requires i < |bh|
  {
    forall k :: 0 < k < |bh| && Parent(k) == i ==> !less(bh[k].block, bh[i].block)
  }

  ghost predicate Indexed(bh: seq<Slot>) {
    forall i :: 0 <= i < |bh| ==> bh[i].heapIdx == i
  }

  function Blocks(bh: seq<Slot>): (r: seq<CachedBlock>)
    ensures |r| == |bh| && forall i :: 0 <= i < |r| ==> r[i] == bh[i].block
  {
    seq(|bh|, i requires 0 <= i < |bh| => bh[i].block)
  }

  function Swapped(bh: seq<Slot>, i: nat, j: nat): (r: seq<Slot>)
    requires i < |bh| && j < |bh|
    ensures |r| == |bh|
    ensures r[i].block == bh[j].block && r[j].block == bh[i].block
    ensures forall k :: 0 <= k < |bh| && k != i && k != j ==> r[k] == bh[k]
    ensures Indexed(bh) ==> Indexed(r)
  {
    bh[i := Slot(bh[j].block, i)][j := Slot(bh[i].block, j)]
  }

  lemma SwapKeeps(bh: seq<Slot>, i: nat, j: nat)
    requires i < |bh| && j < |bh|
    ensures multiset(Blocks(Swapped(bh, i, j))) == multiset(Blocks(bh))
  {
    var b := Blocks(bh);
    assert Blocks(Swapped(bh, i, j)) == b[i := b[j]][j := b[i]];
  }

  /** One step of `up`: swapping with the parent moves the one place where order may fail. */
  lemma UpStep(less: LessFn, bh: seq<Slot>, j: nat)
    requires StrictWeak(less) && 0 < j < |bh| && OrderedButAt(less, bh, j)
    requires less(bh[j].block, bh[Parent(j)].block)
    ensures OrderedButAt(less, Swapped(bh, Parent(j), j), Parent(j))
  {
    var i, s := Parent(j), Swapped(bh, Parent(j), j);
    forall k | 0 <= k < |s| && k != i ensures OrderAt(less, s, k) {
      if k > 0 {
        assert k != j ==> OrderAt(less, bh, k);
        if Parent(k) == j { assert GrandAt(less, bh, k); }
      }
    }
    forall k | 0 < k < |s| && Parent(k) == i ensures GrandAt(less, s, k) {
      if i > 0 {
        assert OrderAt(less, bh, i);
        if k != j { assert OrderAt(less, bh, k); }
      }
    }
  }

  lemma UpDone(less: LessFn, bh: seq<Slot>, j: nat)
    requires j < |bh| && OrderedButAt(less, bh, j) && OrderAt(less, bh, j)
    ensures Ordered(less, bh)
  {
  }

  /** One step of `down`: swapping with the smaller child moves the place one level down. */
  lemma DownStep(less: LessFn, bh: seq<Slot>, lo: nat, i: nat, j: nat)
    requires StrictWeak(less) && lo <= i && 0 < j < |bh| && Parent(j) == i && OrderedButBelow(less, bh, lo, i)
    requires less(bh[j].block, bh[i].block)
    requires forall k :: 0 < k < |bh| && Parent(k) == i ==> !less(bh[k].block, bh[j].block)
    ensures OrderedButBelow(less, Swapped(bh, i, j), lo, j)
  {
    var s := Swapped(bh, i, j);
    forall k | 0 < k < |s| && Parent(k) >= lo && Parent(k) != j ensures OrderAt(less, s, k) {
      if Parent(k) != i {
        assert OrderAt(less, bh, k);
        if k == i { assert GrandAt(less, bh, j); }
      }
    }
    forall k | 0 < k < |s| && Parent(k) == j ensures GrandAt(less, s, k) {
      assert OrderAt(less, bh, k);
    }
  }

  lemma DownDone(less: LessFn, bh: seq<Slot>, lo: nat, i: nat)
    requires i < |bh| && OrderedButBelow(less, bh, lo, i) && NoChildLess(less, bh, i)
    ensures OrderedFrom(less, bh, lo)
  {
    forall k | 0 < k < |bh| && Parent(k) >= lo ensures OrderAt(less, bh, k) {
    }
  }

  lemma OrderedFromZero(less: LessFn, bh: seq<Slot>)
    ensures OrderedFrom(less, bh, 0) <==> Ordered(less, bh)
  {
    if OrderedFrom(less, bh, 0) {
      forall k | 0 <= k < |bh| ensures OrderAt(less, bh, k) {
      }
    }
  }

  /** An order that fails only around `i` fails only below it or only above it. */
  lemma FixCases(less: LessFn, bh: seq<Slot>, i: nat)
    requires StrictWeak(less) && i < |bh| && OrderedExcept(less, bh, i)
    ensures OrderAt(less, bh, i) ==> OrderedButBelow(less, bh, 0, i)
    ensures !OrderAt(less, bh, i) ==> NoChildLess(less, bh, i) && OrderedButAt(less, bh, i)
  {
    if !OrderAt(less, bh, i) {
      forall k | 0 < k < |bh| && Parent(k) == i ensures !less(bh[k].block, bh[i].block) {
        assert GrandAt(less, bh, k);
      }
      forall k | 0 <= k < |bh| && k != i ensures OrderAt(less, bh, k) {
      }
    }
  }

  lemma OrderedIsButAt(less: LessFn, bh: seq<Slot>, i: nat)
    requires StrictWeak(less) && i < |bh| && Ordered(less, bh)
    ensures OrderedButAt(less, bh, i)
  {
    forall k | 0 < k < |bh| && Parent(k) == i ensures GrandAt(less, bh, k) {
      assert OrderAt(less, bh, k) && OrderAt(less, bh, i);
    }
  }

  /** In a heap nothing has lower priority than the root. */
  lemma {:induction false} RootIsLeast(less: LessFn, bh: seq<Slot>, k: nat)
    requires StrictWeak(less) && Ordered(less, bh) && k < |bh|
    ensures !less(bh[k].block, bh[0].block)
    decreases k
  {
    if k > 0 {
      assert OrderAt(less, bh, k);
      RootIsLeast(less, bh, Parent(k));
    }
  }

  /** Whether both parts are given and do not belong to the same block. */
  predicate Mismatch(summary: Option<Part>, stakeInfo: Option<Part>) {
    summary.Some? && stakeInfo.Some? && summary.value != stakeInfo.value
  }

  function PartOf(summary: Option<Part>, stakeInfo: Option<Part>): Part
    requires summary.Some? || stakeInfo.Some?
  {
    if summary.Some? then summary.value else stakeInfo.value
  }

  /** newCachedBlock followed by one Access. */
  function Accessed(summary: Option<Part>, stakeInfo: Option<Part>, now: int): CachedBlock
    requires summary.Some? || stakeInfo.Some?
  {
    CachedBlock(PartOf(summary, stakeInfo).height, PartOf(summary, stakeInfo).hash, summary, stakeInfo, 1, now)
  }

  function Min(a: int, b: int): int { if b < a then b else a }

  function Max(a: int, b: int): int { if b > a then b else a }

  /** Every queued height lies in the range. */
  ghost predicate Bracketed(bh: seq<Slot>, lo: int, hi: int) {
    forall i :: 0 <= i < |bh| ==> lo <= bh[i].block.height <= hi
  }

  class BlockPriorityQueue {
    const capacity: nat
    const lessFn: LessFn
    var bh: seq<Slot>
    var minHeight: int
    var maxHeight: int

    ghost predicate Valid()
      reads this
    {
      && |bh| <= capacity
      && Indexed(bh)
      && Bracketed(bh, minHeight, maxHeight)
    }

    constructor (capacity: nat, lessFn: LessFn)
      ensures this.capacity == capacity && this.lessFn == lessFn && bh == [] && Valid()
      ensures minHeight == 0xFFFF_FFFF && maxHeight == -1
    {
      this.capacity, this.lessFn := capacity, lessFn;
      bh, minHeight, maxHeight := [], 0xFFFF_FFFF, -1;
    }

    method Up(j0: nat)
      requires j0 < |bh| && Indexed(bh)
      modifies this`bh
      ensures |bh| == |old(bh)| && Indexed(bh) && multiset(Blocks(bh)) == multiset(Blocks(old(bh)))
      ensures StrictWeak(lessFn) && OrderedButAt(lessFn, old(bh), j0) ==> Ordered(lessFn, bh)
    {
      var j := j0;
      ghost var sound := StrictWeak(lessFn) && OrderedButAt(lessFn, bh, j);
      while j > 0
        invariant 0 <= j < |bh| == |old(bh)| && Indexed(bh) && multiset(Blocks(bh)) == multiset(Blocks(old(bh)))
        invariant sound ==> OrderedButAt(lessFn, bh, j)
      {
        var i := (j - 1) / 2;
        if !lessFn(bh[j].block, bh[i].block) {
          break;
        }
        SwapKeeps(bh, i, j);
        if sound { UpStep(lessFn, bh, j); }
        bh := Swapped(bh, i, j);
        j := i;
      }
      if sound { UpDone(lessFn, bh, j); }
    }

    /** heap.down. What it is told of the order above `lo` is left alone. */
    method Down(i0: nat, ghost lo: nat) returns (moved: bool)
      requires lo <= i0 < |bh| && Indexed(bh)
      modifies this`bh
      ensures |bh| == |old(bh)| && Indexed(bh) && multiset(Blocks(bh)) == multiset(Blocks(old(bh)))
      ensures !moved ==> bh == old(bh)
      ensures NoChildLess(lessFn, old(bh), i0) ==> !moved
      ensures StrictWeak(lessFn) && OrderedButBelow(lessFn, old(bh), lo, i0) ==> OrderedFrom(lessFn, bh, lo)
    {
      var i := i0;
      ghost var sound := StrictWeak(lessFn) && OrderedButBelow(lessFn, bh, lo, i);
      while 2 * i + 1 < |bh|
        invariant i0 <= i < |bh| == |old(bh)| && Indexed(bh) && multiset(Blocks(bh)) == multiset(Blocks(old(bh)))
        invariant i == i0 ==> bh == old(bh)
        invariant NoChildLess(lessFn, old(bh), i0) ==> i == i0
        invariant sound ==> OrderedButBelow(lessFn, bh, lo, i)
        decreases |bh| - i
      {
        var j := 2 * i + 1;
        if j + 1 < |bh| && lessFn(bh[j + 1].block, bh[j].block) {
          j := j + 1;
        }
        ChildIsLess(lessFn, bh, i, j);
        if sound { DownTurn(lessFn, bh, lo, i, j); }
        if !lessFn(bh[j].block, bh[i].block) {
          return i > i0;
        }
        SwapKeeps(bh, i, j);
        bh := Swapped(bh, i, j);
        i := j;
      }
      if sound { DownEnd(lessFn, bh, lo, i); }
      moved := i > i0;
    }

    /** Reheap, which is heap.Init: any arrangement becomes a heap of the same blocks. */
    method Reheap()
      requires Valid()
      modifies this`bh
      ensures Valid() && multiset(Blocks(bh)) == multiset(Blocks(old(bh)))
      ensures StrictWeak(lessFn) ==> Ordered(lessFn, bh)
    {
      var i := |bh| / 2 - 1;
      while i >= 0
        invariant -1 <= i < |bh| == |old(bh)| && Indexed(bh) && multiset(Blocks(bh)) == multiset(Blocks(old(bh)))
        invariant StrictWeak(lessFn) ==> OrderedFrom(lessFn, bh, i + 1)
      {
        var _ := Down(i, i);
        i := i - 1;
      }
      OrderedFromZero(lessFn, bh);
      SameHeights(old(bh), bh, minHeight, maxHeight);
    }

    /** heap.Fix, at any index. */
    method Fix(i: nat)
      requires i < |bh| && Indexed(bh)
      modifies this`bh
      ensures |bh| == |old(bh)| && Indexed(bh) && multiset(Blocks(bh)) == multiset(Blocks(old(bh)))
      ensures StrictWeak(lessFn) && OrderedExcept(lessFn, old(bh), i) ==> Ordered(lessFn, bh)
    {
      ghost var sound := StrictWeak(lessFn) && OrderedExcept(lessFn, bh, i);
      if sound { FixCases(lessFn, bh, i); }
      var moved := Down(i, 0);
      OrderedFromZero(lessFn, bh);
      if !moved {
        if sound && Ordered(lessFn, bh) { OrderedIsButAt(lessFn, bh, i); }
        Up(i);
      }
    }

    method UpdateMinMax(h: int)
      modifies this`minHeight, this`maxHeight
      ensures minHeight == Min(old(minHeight), h) && maxHeight == Max(old(maxHeight), h)
    {
      if h > maxHeight {
        maxHeight := h;
      }
      if h < minHeight {
        minHeight := h;
      }
    }

    /** RescanMinMax only ever widens the range, and no further than the queued heights: it
        does not reset it first. */
    method RescanMinMax()
      modifies this`minHeight, this`maxHeight
      ensures minHeight <= old(minHeight) && old(maxHeight) <= maxHeight
      ensures Bracketed(bh, minHeight, maxHeight)
      ensures forall lo, hi :: Bracketed(bh, lo, hi) && lo <= old(minHeight) && old(maxHeight) <= hi ==>
                lo <= minHeight && maxHeight <= hi
    {
      for k := 0 to |bh|
        invariant minHeight <= old(minHeight) && old(maxHeight) <= maxHeight
        invariant forall i :: 0 <= i < k ==> minHeight <= bh[i].block.height <= maxHeight
        invariant forall lo, hi :: Bracketed(bh, lo, hi) && lo <= old(minHeight) && old(maxHeight) <= hi ==>
                    lo <= minHeight && maxHeight <= hi
      {
        UpdateMinMax(bh[k].block.height);
      }
    }

    /** RescanMinMaxForUpdate: with the removed block gone and the added one queued, the range
        grows by exactly the added height. The range never narrows when an extreme leaves. */
    method RescanMinMaxForUpdate(heightAdd: int, heightRemove: int)
      requires Bracketed(bh, Min(minHeight, heightAdd), Max(maxHeight, heightAdd))
      modifies this`minHeight, this`maxHeight
      ensures minHeight == Min(old(minHeight), heightAdd) && maxHeight == Max(old(maxHeight), heightAdd)
    {
      if (heightRemove == minHeight && heightAdd >= heightRemove) || (heightRemove == maxHeight && heightAdd <= heightRemove) {
        RescanMinMax();
      }
      UpdateMinMax(heightAdd);
    }

    /** heap.Push of new block data. */
    method Push(block: CachedBlock)
      requires Valid() && |bh| < capacity
      modifies this`bh, this`minHeight, this`maxHeight
      ensures Valid() && |bh| == |old(bh)| + 1
      ensures minHeight == Min(old(minHeight), block.height) && maxHeight == Max(old(maxHeight), block.height)
      ensures multiset(Blocks(bh)) == multiset(Blocks(old(bh))) + multiset{block}
      ensures StrictWeak(lessFn) && Ordered(lessFn, old(bh)) ==> Ordered(lessFn, bh)
    {
      UpdateMinMax(block.height);
      var pushed := bh + [Slot(block, |bh|)];
      assert Blocks(pushed) == Blocks(bh) + [block];
      if Ordered(lessFn, bh) { PushedOrder(lessFn, bh, Slot(block, |bh|)); }
      bh := pushed;
      Up(|bh| - 1);
      SameHeights(pushed, bh, minHeight, maxHeight);
    }

    /** UpdateBlock of the top: its data is replaced and the heap order repaired. */
    method ReplaceTop(block: CachedBlock)
      requires Valid() && bh != []
      modifies this`bh, this`minHeight, this`maxHeight
      ensures Valid() && |bh| == |old(bh)|
      ensures minHeight == Min(old(minHeight), block.height) && maxHeight == Max(old(maxHeight), block.height)
      ensures multiset(Blocks(bh)) == multiset(Blocks(old(bh))) - multiset{old(bh)[0].block} + multiset{block}
      ensures StrictWeak(lessFn) && Ordered(lessFn, old(bh)) && lessFn(old(bh)[0].block, block) ==> Ordered(lessFn, bh)
    {
      var heightRemoved := bh[0].block.height;
      var replaced := bh[0 := Slot(block, bh[0].heapIdx)];
      assert Blocks(replaced) == Blocks(bh)[0 := block];
      if Ordered(lessFn, bh) { ReplacedOrder(lessFn, bh, Slot(block, bh[0].heapIdx)); }
      bh := replaced;
      Fix(bh[0].heapIdx);
      SameHeights(replaced, bh, Min(minHeight, block.height), Max(maxHeight, block.height));
      RescanMinMaxForUpdate(block.height, heightRemoved);
    }

    /** Insert: at capacity the new block replaces the top if the top has lower priority, and
        is refused otherwise; with room to grow it is pushed. Parts of two different blocks are
        refused while there is room, and at capacity the source panics on them. */
    method Insert(summary: Option<Part>, stakeInfo: Option<Part>, now: int)
      returns (added: bool, removed: Option<Hash>, removedHeight: int, panicked: bool)
      requires Valid()
      modifies this`bh, this`minHeight, this`maxHeight
      ensures Valid()
      ensures panicked <==> 0 < capacity <= |old(bh)| && Mismatch(summary, stakeInfo)
      ensures !added ==> unchanged(this) && removed == None && removedHeight == -1
      ensures added <==> Admits(lessFn, capacity, old(bh), summary, stakeInfo, now)
      ensures added ==>
                && minHeight == Min(old(minHeight), PartOf(summary, stakeInfo).height)
                && maxHeight == Max(old(maxHeight), PartOf(summary, stakeInfo).height)
                && (Tight(bh, minHeight, maxHeight) <==>
                      StaysTight(Kept(old(bh), capacity), old(minHeight), old(maxHeight), PartOf(summary, stakeInfo).height))
      ensures added && |old(bh)| < capacity ==>
                && removed == None && removedHeight == -1
                && multiset(Blocks(bh)) == multiset(Blocks(old(bh))) + multiset{Accessed(summary, stakeInfo, now)}
      ensures added && |old(bh)| == capacity ==>
                && removed == Some(old(bh)[0].block.hash) && removedHeight == old(bh)[0].block.height
                && multiset(Blocks(bh)) == multiset(Blocks(old(bh))) - multiset{old(bh)[0].block}
                                           + multiset{Accessed(summary, stakeInfo, now)}
      ensures StrictWeak(lessFn) && Ordered(lessFn, old(bh)) ==> Ordered(lessFn, bh)
    {
      added, removed, removedHeight, panicked := false, None, -1, false;
      if capacity == 0 || (summary.None? && stakeInfo.None?) {
        return;
      }
      var block := Accessed(summary, stakeInfo, now);
      if capacity <= |bh| {
        if Mismatch(summary, stakeInfo) {
          panicked := true;
          return;
        }
        if lessFn(bh[0].block, block) {
          removed, removedHeight := Some(bh[0].block.hash), bh[0].block.height;
          ReplaceTop(block);
          added := true;
          TightIff(old(bh), bh, capacity, old(minHeight), old(maxHeight), block);
        }
        return;
      }
      if Mismatch(summary, stakeInfo) {
        return;
      }
      Push(block);
      added := true;
      TightIff(old(bh), bh, capacity, old(minHeight), old(maxHeight), block);
    }
  }

  // ---- When the height range is tight ----

  predicate HeightIn(s: seq<CachedBlock>, h: int) {
    exists i :: 0 <= i < |s| && s[i].height == h
  }

  /** The range is that of the queued heights: both ends are reached. */
  ghost predicate Tight(bh: seq<Slot>, lo: int, hi: int) {
    Bracketed(bh, lo, hi) && HeightIn(Blocks(bh), lo) && HeightIn(Blocks(bh), hi)
  }

  /** The blocks that stay when one is added to the queue. */
  function Kept(bh: seq<Slot>, capacity: nat): seq<CachedBlock> {
    if |bh| < capacity || bh == [] then Blocks(bh) else Blocks(bh)[1..]
  }

  /** Each end of the range is reached by the new height or by a block that stays. */
  predicate StaysTight(kept: seq<CachedBlock>, lo: int, hi: int, h: int) {
    (h <= lo || HeightIn(kept, lo)) && (h >= hi || HeightIn(kept, hi))
  }

  lemma HeightAdded(after: seq<CachedBlock>, kept: seq<CachedBlock>, b: CachedBlock, h: int)
    requires multiset(after) == multiset(kept) + multiset{b}
    ensures HeightIn(after, h) <==> HeightIn(kept, h) || b.height == h
  {
    if HeightIn(after, h) {
      var i :| 0 <= i < |after| && after[i].height == h;
      assert after[i] in multiset(after);
      assert after[i] in multiset(kept) || after[i] == b;
    }
    if HeightIn(kept, h) {
      var i :| 0 <= i < |kept| && kept[i].height == h;
      assert kept[i] in multiset(after);
    }
    assert b in multiset(after);
  }

  /** After a block is admitted the range is tight exactly when the evicted block was not the
      only one at an end that the new height does not reach. It does not matter whether the
      range was tight before. */
  lemma TightIff(before: seq<Slot>, after: seq<Slot>, capacity: nat, lo: int, hi: int, b: CachedBlock)
    requires 0 < capacity && |before| <= capacity && Bracketed(before, lo, hi)
    requires multiset(Blocks(after)) == multiset(Blocks(before))
               - (if |before| < capacity then multiset{} else multiset{before[0].block}) + multiset{b}
    requires Bracketed(after, Min(lo, b.height), Max(hi, b.height))
    ensures Tight(after, Min(lo, b.height), Max(hi, b.height)) <==> StaysTight(Kept(before, capacity), lo, hi, b.height)
  {
    var kept := Kept(before, capacity);
    if |before| == capacity {
      assert Blocks(before) == [before[0].block] + kept;
    }
    assert multiset(Blocks(after)) == multiset(kept) + multiset{b};
    HeightAdded(Blocks(after), kept, b, Min(lo, b.height));
    HeightAdded(Blocks(after), kept, b, Max(hi, b.height));
  }

  /** Under LessByHeight a full queue with a tight range keeps it tight exactly when another
      block is as low as the evicted one. */
  lemma TightByHeightIff(before: seq<Slot>, lo: int, hi: int, h: nat)
    requires before != [] && Ordered(LessByHeight, before) && Tight(before, lo, hi) && before[0].block.height < h
    ensures StaysTight(Kept(before, |before|), lo, hi, h) <==> HeightIn(Blocks(before)[1..], before[0].block.height)
  {
    LessByHeightIsStrictWeak();
    var s := Blocks(before);
    var i :| 0 <= i < |s| && s[i].height == lo;
    RootIsLeast(LessByHeight, before, i);
    var j :| 0 <= j < |s| && s[j].height == hi;
    if j > 0 { assert s[1..][j - 1].height == hi; }
  }

  /** The range does not follow the queue: one place, height 5 and then height 7. */
  method RangeGoesStale(now: int) returns (pq: BlockPriorityQueue)
    ensures fresh(pq) && |pq.bh| == 1 && pq.bh[0].block.height == 7
    ensures pq.minHeight == 5 && pq.maxHeight == 7 && !Tight(pq.bh, pq.minHeight, pq.maxHeight)
  {
    pq := new BlockPriorityQueue(1, LessByHeight);
    var first, second := Part(5, 1), Part(7, 2);
    var _, _, _, _ := pq.Insert(Some(first), None, now);
    assert Blocks(pq.bh)[0] in multiset(Blocks(pq.bh));
    var _, _, _, _ := pq.Insert(Some(second), None, now);
    assert Blocks(pq.bh)[0] in multiset(Blocks(pq.bh));
  }

  /** When Insert admits a block. */
  predicate Admits(less: LessFn, capacity: nat, bh: seq<Slot>, summary: Option<Part>, stakeInfo: Option<Part>, now: int) {
    && capacity > 0
    && (summary.Some? || stakeInfo.Some?)
    && !Mismatch(summary, stakeInfo)
    && (|bh| >= capacity ==> less(bh[0].block, Accessed(summary, stakeInfo, now)))
  }

  lemma PushedOrder(less: LessFn, bh: seq<Slot>, s: Slot)
    requires Ordered(less, bh)
    ensures OrderedButAt(less, bh + [s], |bh|)
  {
    var t := bh + [s];
    forall k | 0 <= k < |t| && k != |bh| ensures OrderAt(less, t, k) {
      assert OrderAt(less, bh, k);
    }
  }

  lemma ReplacedOrder(less: LessFn, bh: seq<Slot>, s: Slot)
    requires Ordered(less, bh) && bh != []
    ensures OrderedExcept(less, bh[0 := s], 0)
  {
    var t := bh[0 := s];
    forall k | 0 <= k < |t| && (k == 0 || Parent(k) != 0) ensures OrderAt(less, t, k) {
      assert OrderAt(less, bh, k);
    }
  }

  /** A range that brackets every height of one arrangement brackets those of another. */
  lemma SameHeights(a: seq<Slot>, b: seq<Slot>, lo: int, hi: int)
    requires multiset(Blocks(a)) == multiset(Blocks(b)) && Bracketed(a, lo, hi)
    ensures Bracketed(b, lo, hi)
  {
    forall i | 0 <= i < |b| ensures lo <= b[i].block.height <= hi {
      assert Blocks(b)[i] in multiset(Blocks(a));
      assert Blocks(b)[i] in Blocks(a);
    }
  }

  lemma ChildrenOf(i: nat)
    ensures forall k {:trigger Parent(k)} :: k > 0 ==> (Parent(k) == i <==> k == 2 * i + 1 || k == 2 * i + 2)
  {
  }

  /** `j` is the child of `i` that `down` compares with: the right one if it is less. */
  predicate Chosen(less: LessFn, bh: seq<Slot>, i: nat, j: nat) {
    && j < |bh|
    && (j == 2 * i + 1 || j == 2 * i + 2)
    && (j == 2 * i + 1 && j + 1 < |bh| ==> !less(bh[j + 1].block, bh[j].block))
    && (j == 2 * i + 2 ==> less(bh[j].block, bh[j - 1].block))
  }

  lemma ChildIsLess(less: LessFn, bh: seq<Slot>, i: nat, j: nat)
    requires Chosen(less, bh, i, j)
    ensures less(bh[j].block, bh[i].block) ==> !NoChildLess(less, bh, i)
  {
    assert Parent(j) == i;
  }

  /** One turn of `down`: it is done, or one level down. */
  lemma DownTurn(less: LessFn, bh: seq<Slot>, lo: nat, i: nat, j: nat)
    requires StrictWeak(less) && lo <= i && Chosen(less, bh, i, j) && OrderedButBelow(less, bh, lo, i)
    ensures !less(bh[j].block, bh[i].block) ==> OrderedFrom(less, bh, lo)
    ensures less(bh[j].block, bh[i].block) ==> OrderedButBelow(less, Swapped(bh, i, j), lo, j)
  {
    ChildrenOf(i);
    SmallerChild(less, bh, i, j);
    if less(bh[j].block, bh[i].block) {
      DownStep(less, bh, lo, i, j);
    } else {
      DownDone(less, bh, lo, i);
    }
  }

  /** `down` has reached an index without children. */
  lemma DownEnd(less: LessFn, bh: seq<Slot>, lo: nat, i: nat)
    requires i < |bh| <= 2 * i + 1 && OrderedButBelow(less, bh, lo, i)
    ensures OrderedFrom(less, bh, lo)
  {
    ChildrenOf(i);
    DownDone(less, bh, lo, i);
  }

  lemma SmallerChild(less: LessFn, bh: seq<Slot>, i: nat, j: nat)
    requires StrictWeak(less) && 0 < j < |bh| && Parent(j) == i
    requires j == 2 * i + 1 ==> j + 1 < |bh| ==> !less(bh[j + 1].block, bh[j].block)
    requires j == 2 * i + 2 ==> less(bh[j].block, bh[j - 1].block)
    ensures forall k :: 0 < k < |bh| && Parent(k) == i ==> !less(bh[k].block, bh[j].block)
    ensures !less(bh[j].block, bh[i].block) ==> NoChildLess(less, bh, i)
  {
    ChildrenOf(i);
  }
}

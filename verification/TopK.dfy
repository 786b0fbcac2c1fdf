/** A bounded queue under LessByHeight keeps the largest heights ever offered to it. */
module TopK {
  import opened Types
  import opened BlockHeap

  /** `kept` is made of the `k` largest elements of `all`, counted with repetition. */
  ghost predicate IsTop(kept: multiset<int>, all: multiset<int>, k: nat) {
    && kept <= all
    && |kept| == (if |all| < k then |all| else k)
    && forall x, y :: x in kept && y in all - kept ==> y <= x
  }

  /** Room left: the new height is kept. */
  lemma TopPush(kept: multiset<int>, all: multiset<int>, k: nat, h: int)
    requires IsTop(kept, all, k) && |kept| < k
    ensures IsTop(kept + multiset{h}, all + multiset{h}, k)
  {
    assert |all - kept| == 0;
    assert all == kept + (all - kept);
  }

  /** Full: a height above the least kept one takes its place. */
  lemma TopReplace(kept: multiset<int>, all: multiset<int>, k: nat, least: int, h: int)
    requires IsTop(kept, all, k) && |kept| == k && least in kept
    requires (forall x :: x in kept ==> least <= x) && least < h
    ensures IsTop(kept - multiset{least} + multiset{h}, all + multiset{h}, k)
  {
    var kept', all' := kept - multiset{least} + multiset{h}, all + multiset{h};
    assert all' - kept' == all - kept + multiset{least};
    forall x, y | x in kept' && y in all' - kept' ensures y <= x {
      assert x in kept || x == h;
      assert y in all - kept || y == least;
      assert least in kept;
    }
  }

  /** Full: a height not above the least kept one changes nothing. */
  lemma TopRefuse(kept: multiset<int>, all: multiset<int>, k: nat, least: int, h: int)
    requires IsTop(kept, all, k) && |kept| == k
    requires (forall x :: x in kept ==> least <= x) && h <= least
    ensures IsTop(kept, all + multiset{h}, k)
  {
    var all' := all + multiset{h};
    forall x, y | x in kept && y in all' - kept ensures y <= x {
      assert y in all - kept || y == h;
    }
  }

  function HeightSeq(s: seq<CachedBlock>): (r: seq<int>)
    ensures |r| == |s| && forall i :: 0 <= i < |s| ==> r[i] == s[i].height
  {
    seq(|s|, i requires 0 <= i < |s| => s[i].height as int)
  }

  function Heights(s: seq<CachedBlock>): multiset<int> {
    multiset(HeightSeq(s))
  }

  lemma HeightsConcat(a: seq<CachedBlock>, b: seq<CachedBlock>)
    ensures Heights(a + b) == Heights(a) + Heights(b)
  {
    assert HeightSeq(a + b) == HeightSeq(a) + HeightSeq(b);
  }

  lemma HeightsOne(b: CachedBlock)
    ensures Heights([b]) == multiset{b.height as int}
  {
    assert HeightSeq([b]) == [b.height as int];
  }

  /** Taking one block out of an arrangement. */
  lemma TakeOut(s: seq<CachedBlock>, x: CachedBlock) returns (rest: seq<CachedBlock>)
    requires x in multiset(s)
    ensures |rest| == |s| - 1
    ensures multiset(rest) == multiset(s) - multiset{x}
    ensures Heights(s) == Heights(rest) + multiset{x.height as int}
  {
    assert x in s;
    var i :| 0 <= i < |s| && s[i] == x;
    var l, r := s[..i], s[i + 1..];
    rest := l + r;
    assert s == l + [x] + r;
    HeightsConcat(l + [x], r);
    HeightsConcat(l, [x]);
    HeightsConcat(l, r);
    HeightsOne(x);
  }

  /** Heights do not depend on the arrangement. */
  lemma {:induction false} HeightsSame(a: seq<CachedBlock>, b: seq<CachedBlock>)
    requires multiset(a) == multiset(b)
    ensures Heights(a) == Heights(b)
    decreases |a|
  {
    assert |a| == |multiset(a)| == |multiset(b)| == |b|;
    if a == [] {
      assert HeightSeq(a) == [] == HeightSeq(b);
    } else {
      assert a[0] in multiset(a);
      var resta := TakeOut(a, a[0]);
      var restb := TakeOut(b, a[0]);
      HeightsSame(resta, restb);
    }
  }

  lemma HeightsAfterPush(after: seq<CachedBlock>, s: seq<CachedBlock>, b: CachedBlock)
    requires multiset(after) == multiset(s) + multiset{b}
    ensures Heights(after) == Heights(s) + multiset{b.height as int}
  {
    HeightsSame(after, s + [b]);
    HeightsConcat(s, [b]);
    HeightsOne(b);
  }

  lemma HeightsAfterReplace(after: seq<CachedBlock>, s: seq<CachedBlock>, b: CachedBlock)
    requires s != [] && multiset(after) == multiset(s) - multiset{s[0]} + multiset{b}
    ensures Heights(after) == Heights(s) - multiset{s[0].height as int} + multiset{b.height as int}
  {
    assert s == [s[0]] + s[1..];
    HeightsConcat([s[0]], s[1..]);
    HeightsOne(s[0]);
    HeightsAfterPush(after, s[1..], b);
  }

  /** The root of a heap by height is the least of the kept heights. */
  lemma LeastHeight(bh: seq<Slot>, x: int)
    requires bh != [] && Ordered(LessByHeight, bh) && x in Heights(Blocks(bh))
    ensures bh[0].block.height <= x
  {
    var hs := HeightSeq(Blocks(bh));
    var i :| 0 <= i < |hs| && hs[i] == x;
    LessByHeightIsStrictWeak();
    RootIsLeast(LessByHeight, bh, i);
  }

  /** What one Insert does to the heights kept: all the cases of a bounded queue. */
  lemma TopInsert(before: seq<Slot>, after: seq<Slot>, all: multiset<int>, k: nat, b: CachedBlock)
    requires k > 0 && |before| <= k && Ordered(LessByHeight, before) && IsTop(Heights(Blocks(before)), all, k)
    requires |before| < k ==> multiset(Blocks(after)) == multiset(Blocks(before)) + multiset{b}
    requires |before| == k && before[0].block.height < b.height ==>
               multiset(Blocks(after)) == multiset(Blocks(before)) - multiset{before[0].block} + multiset{b}
    requires |before| == k && before[0].block.height >= b.height ==> after == before
    ensures IsTop(Heights(Blocks(after)), all + multiset{b.height as int}, k)
  {
    var s, h := Blocks(before), b.height as int;
    if |before| < k {
      HeightsAfterPush(Blocks(after), s, b);
      TopPush(Heights(s), all, k, h);
    } else {
      var least := before[0].block.height as int;
      forall x | x in Heights(s) ensures least <= x {
        LeastHeight(before, x);
      }
      if least < h {
        HeightsAfterReplace(Blocks(after), s, b);
        assert HeightSeq(s)[0] == least;
        TopReplace(Heights(s), all, k, least, h);
      } else {
        TopRefuse(Heights(s), all, k, least, h);
      }
    }
  }

  /** Block data offered to the queue: one part, or two that agree. */
  predicate Offer(summary: Option<Part>, stakeInfo: Option<Part>) {
    (summary.Some? || stakeInfo.Some?) && !Mismatch(summary, stakeInfo)
  }

  /** What happens to a queue: an Insert of some parts at some time, or a Reheap by the watcher. */
  datatype Event = Insertion(summary: Option<Part>, stakeInfo: Option<Part>, now: int) | Reheaping

  /** The height an event offers, if its parts are those of one block. */
  function OfferedBy(e: Event): multiset<int> {
    if e.Reheaping? || !Offer(e.summary, e.stakeInfo) then multiset{}
    else if e.summary.Some? then multiset{e.summary.value.height as int}
    else multiset{e.stakeInfo.value.height as int}
  }

  /** All heights ever offered. */
  function Offered(events: seq<Event>): multiset<int> {
    if events == [] then multiset{} else Offered(events[..|events| - 1]) + OfferedBy(events[|events| - 1])
  }

  /** One Insert under LessByHeight keeps the largest heights of all that were offered. */
  method InsertOne(pq: BlockPriorityQueue, e: Event, ghost all: multiset<int>)
    requires pq.Valid() && pq.lessFn == LessByHeight && Ordered(LessByHeight, pq.bh) && e.Insertion?
    requires IsTop(Heights(Blocks(pq.bh)), all, pq.capacity)
    modifies pq`bh, pq`minHeight, pq`maxHeight
    ensures pq.Valid() && Ordered(LessByHeight, pq.bh)
    ensures IsTop(Heights(Blocks(pq.bh)), all + OfferedBy(e), pq.capacity)
  {
    LessByHeightIsStrictWeak();
    ghost var before := pq.bh;
    var _, _, _, _ := pq.Insert(e.summary, e.stakeInfo, e.now);
    if !Offer(e.summary, e.stakeInfo) {
      assert pq.bh == before && all + OfferedBy(e) == all;
    } else if pq.capacity > 0 {
      TopInsert(before, pq.bh, all, pq.capacity, Accessed(e.summary, e.stakeInfo, e.now));
    } else {
      assert HeightSeq(Blocks(pq.bh)) == [];
    }
  }

  /** One Reheap leaves the heights kept alone. */
  method ReheapOne(pq: BlockPriorityQueue, ghost all: multiset<int>)
    requires pq.Valid() && pq.lessFn == LessByHeight && IsTop(Heights(Blocks(pq.bh)), all, pq.capacity)
    modifies pq`bh
    ensures pq.Valid() && Ordered(LessByHeight, pq.bh)
    ensures IsTop(Heights(Blocks(pq.bh)), all, pq.capacity)
  {
    LessByHeightIsStrictWeak();
    ghost var before := Blocks(pq.bh);
    pq.Reheap();
    HeightsSame(before, Blocks(pq.bh));
  }

  /** Any run of Insert and Reheap on a new queue: heap order, heap indexes and the height range
      are kept, and what is queued is exactly the `capacity` largest heights ever offered. */
  method InsertAll(capacity: nat, events: seq<Event>) returns (pq: BlockPriorityQueue)
    ensures fresh(pq) && pq.capacity == capacity && pq.Valid() && Ordered(LessByHeight, pq.bh)
    ensures IsTop(Heights(Blocks(pq.bh)), Offered(events), capacity)
  {
    pq := new BlockPriorityQueue(capacity, LessByHeight);
    assert HeightSeq(Blocks(pq.bh)) == [];
    for i := 0 to |events|
      invariant pq.Valid() && Ordered(LessByHeight, pq.bh)
      invariant IsTop(Heights(Blocks(pq.bh)), Offered(events[..i]), capacity)
    {
      OfferedSnoc(events, i);
      if events[i].Insertion? {
        InsertOne(pq, events[i], Offered(events[..i]));
      } else {
        ReheapOne(pq, Offered(events[..i]));
      }
    }
    assert events[..|events|] == events;
  }

  lemma OfferedSnoc(events: seq<Event>, i: nat)
    requires i < |events|
    ensures Offered(events[..i + 1]) == Offered(events[..i]) + OfferedBy(events[i])
    ensures events[i].Reheaping? ==> Offered(events[..i + 1]) == Offered(events[..i])
  {
    assert events[..i + 1][..i] == events[..i];
  }
}

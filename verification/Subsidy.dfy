/** UltimateSubsidy: the total subsidy by whole reduction intervals, with the two subsidy split
    changes of DCP0010 and DCP0012 (txhelpers/subsidy.go). */
module Subsidy {
  import opened Arith

  datatype Variant = Original | Dcp0010 | Dcp0012

  /** A network. `subsidy` is the sum of the work, vote and treasury subsidies of a block at a
      height under a split variant, with all votes present. */
  datatype Params = Params(net: nat, blockOne: int, stakeValidation: nat, interval: nat, subsidy: (nat, Variant) -> int)

  const MAX_INT64: int := 0x7FFF_FFFF_FFFF_FFFF

  /** A change of the split in the middle of an interval. */
  datatype Change = Change(activation: int, before: Variant, after: Variant)

  /** Go's division, which truncates toward zero. */
  function TruncDiv(a: int, b: int): int
    requires b > 0
  {
    if a >= 0 then a / b else -((-a) / b)
  }

  /** subsidySplitChanges; with both heights in one interval the second entry wins. */
  function Changes(p: Params, d10: int, d12: int): map<int, Change>
    requires p.interval > 0
  {
    map[TruncDiv(d10, p.interval) := Change(d10, Original, Dcp0010)]
       [TruncDiv(d12, p.interval) := Change(d12, Dcp0010, Dcp0012)]
  }

  /** An activation height, with -1 read as never. */
  function Height(d: int): int {
    if d == -1 then MAX_INT64 else d
  }

  /** The variant the code takes for an interval without a change, from its first height. */
  function StartVariant(d10: int, d12: int, start: int): Variant {
    if start >= Height(d12) then Dcp0012
    else if start >= Height(d10) then Dcp0010
    else Original
  }

  /** The variant that the code counts the block at height `h` under. */
  function CodeVariant(p: Params, d10: int, d12: int, h: nat): Variant
    requires p.interval > 0
  {
    var i := h / p.interval;
    if i == 0 then Original
    else if i in Changes(p, d10, d12) then
      var c := Changes(p, d10, d12)[i];
      if h < c.activation then c.before else c.after
    else StartVariant(d10, d12, h - h % p.interval)
  }

  /** The variant in force at height `h`. */
  function ActiveVariant(d10: int, d12: int, h: nat): Variant {
    if d12 != -1 && h >= d12 then Dcp0012
    else if d10 != -1 && h >= d10 then Dcp0010
    else Original
  }

  /** The subsidy of one block under the variant that `v` names for it: none for genesis, the
      initial distribution for block one. */
  function BlockSubsidy(p: Params, v: nat -> Variant, h: nat): int {
    if h == 0 then 0 else if h == 1 then p.blockOne else p.subsidy(h, v(h))
  }

  /** The block-by-block sum over all heights below `n`. */
  function SumTo(p: Params, v: nat -> Variant, n: nat): int {
    if n == 0 then 0 else SumTo(p, v, n - 1) + BlockSubsidy(p, v, n - 1)
  }

  function CodeVariants(p: Params, d10: int, d12: int): nat -> Variant
    requires p.interval > 0
  {
    (h: nat) => CodeVariant(p, d10, d12, h)
  }

  function ActiveVariants(d10: int, d12: int): nat -> Variant {
    (h: nat) => ActiveVariant(d10, d12, h)
  }

  /** Blocks of one subsidy in a row add up to a product. */
  lemma {:induction false} SumConstant(p: Params, v: nat -> Variant, from: nat, count: nat, s: int)
    requires forall h :: from <= h < from + count ==> BlockSubsidy(p, v, h) == s
    ensures SumTo(p, v, from + count) == SumTo(p, v, from) + s * count
  {
    if count > 0 {
      SumConstant(p, v, from, count - 1, s);
      assert s * count == s * (count - 1) + s;
    } else {
      assert s * count == 0;
    }
  }

  lemma {:induction false} SumSame(p: Params, v: nat -> Variant, w: nat -> Variant, n: nat)
    requires forall h :: 2 <= h < n ==> v(h) == w(h)
    ensures SumTo(p, v, n) == SumTo(p, w, n)
  {
    if n > 0 {
      SumSame(p, v, w, n - 1);
    }
  }

  // ---- The laws of the subsidy cache ----

  /** The per-block subsidy does not change within a reduction interval, except in the first
      one when voting begins. */
  ghost predicate Constant(p: Params) {
    && 2 <= p.stakeValidation <= p.interval && 2 < p.interval
    && (forall h: nat, v :: 2 <= h < p.stakeValidation ==> p.subsidy(h, v) == p.subsidy(2, v))
    && (forall h: nat, v :: p.stakeValidation <= h < p.interval ==> p.subsidy(h, v) == p.subsidy(p.stakeValidation, v))
    && (forall h: nat, v :: h >= p.interval ==> p.subsidy(h, v) == p.subsidy(h - h % p.interval, v))
  }

  /** From height `end` on there is no subsidy under any variant; and once an interval without a
      change has none, no later block has any. */
  ghost predicate Ends(p: Params, d10: int, d12: int, end: nat)
    requires p.interval > 0
  {
    && p.interval <= end < MAX_INT64
    && (forall h: nat, v :: h >= end ==> p.subsidy(h, v) == 0)
    && (forall g: nat, h: nat :: DriedUp(p, d10, d12, g) && g <= h ==> p.subsidy(h, CodeVariant(p, d10, d12, h)) == 0)
  }

  /** An interval without a change begins at `g`, and has no subsidy. */
  predicate DriedUp(p: Params, d10: int, d12: int, g: nat)
    requires p.interval > 0
  {
    && p.interval <= g && g % p.interval == 0 && g / p.interval !in Changes(p, d10, d12)
    && p.subsidy(g, CodeVariant(p, d10, d12, g)) == 0
  }

  // ---- Arithmetic of intervals ----

  lemma InInterval(h: nat, start: nat, r: nat)
    requires r > 0 && start % r == 0 && start <= h < start + r
    ensures h / r == start / r && h - h % r == start
  {
    var q := start / r;
    assert start == q * r;
    assert (q + 1) * r == q * r + r;
    QuotientIs(h, r, q);
  }

  lemma NextInterval(start: nat, r: nat)
    requires r > 0 && start % r == 0
    ensures (start + r) % r == 0 && (start + r) / r == start / r + 1
  {
    var q := start / r;
    assert start == q * r;
    assert (q + 1) * r == q * r + r && (q + 2) * r == q * r + r + r;
    QuotientIs(start + r, r, q + 1);
  }

  // ---- One interval ----

  /** The first interval: block one, then the blocks before and after voting begins. */
  lemma FirstInterval(p: Params, d10: int, d12: int)
    requires Constant(p)
    ensures SumTo(p, CodeVariants(p, d10, d12), p.interval) ==
              p.blockOne + p.subsidy(2, Original) * (p.stakeValidation - 2)
              + p.subsidy(p.stakeValidation, Original) * (p.interval - p.stakeValidation)
  {
    var v := CodeVariants(p, d10, d12);
    assert SumTo(p, v, 1) == 0;
    assert SumTo(p, v, 2) == p.blockOne;
    forall h: nat | h < p.interval ensures v(h) == Original {
      InInterval(h, 0, p.interval);
    }
    SumConstant(p, v, 2, p.stakeValidation - 2, p.subsidy(2, Original));
    SumConstant(p, v, p.stakeValidation, p.interval - p.stakeValidation, p.subsidy(p.stakeValidation, Original));
  }

  lemma AllInInterval(p: Params, d10: int, d12: int, start: nat)
    requires Constant(p) && start >= p.interval && start % p.interval == 0
    ensures start / p.interval > 0
    ensures forall h: nat {:trigger CodeVariant(p, d10, d12, h)} :: start <= h < start + p.interval ==>
              && (start / p.interval !in Changes(p, d10, d12) ==> CodeVariant(p, d10, d12, h) == StartVariant(d10, d12, start))
              && (start / p.interval in Changes(p, d10, d12) ==>
                    var c := Changes(p, d10, d12)[start / p.interval];
                    CodeVariant(p, d10, d12, h) == if h < c.activation then c.before else c.after)
    ensures forall h: nat, v {:trigger p.subsidy(h, v)} :: start <= h < start + p.interval ==> p.subsidy(h, v) == p.subsidy(start, v)
  {
    assert start == start / p.interval * p.interval;
    forall h: nat, v: Variant | start <= h < start + p.interval
      ensures h / p.interval == start / p.interval && h - h % p.interval == start
      ensures p.subsidy(h, v) == p.subsidy(start, v)
    {
      InInterval(h, start, p.interval);
    }
    forall h: nat | start <= h < start + p.interval
      ensures h / p.interval == start / p.interval && h - h % p.interval == start
    {
      InInterval(h, start, p.interval);
    }
  }

  /** An interval without a change. */
  lemma PlainInterval(p: Params, d10: int, d12: int, start: nat)
    requires Constant(p) && start >= p.interval && start % p.interval == 0
    requires start / p.interval !in Changes(p, d10, d12)
    ensures CodeVariant(p, d10, d12, start) == StartVariant(d10, d12, start)
    ensures SumTo(p, CodeVariants(p, d10, d12), start + p.interval) ==
              SumTo(p, CodeVariants(p, d10, d12), start) + p.subsidy(start, StartVariant(d10, d12, start)) * p.interval
  {
    AllInInterval(p, d10, d12, start);
    var v, s := CodeVariants(p, d10, d12), p.subsidy(start, StartVariant(d10, d12, start));
    forall h: nat | start <= h < start + p.interval ensures BlockSubsidy(p, v, h) == s {
      assert v(h) == CodeVariant(p, d10, d12, h);
    }
    SumConstant(p, v, start, p.interval, s);
  }

  lemma TwoPieces(p: Params, v: nat -> Variant, start: nat, pre: nat, post: nat, s: int, t: int)
    requires forall h: nat :: start <= h < start + pre ==> BlockSubsidy(p, v, h) == s
    requires forall h: nat :: start + pre <= h < start + pre + post ==> BlockSubsidy(p, v, h) == t
    ensures SumTo(p, v, start + pre + post) == SumTo(p, v, start) + s * pre + t * post
  {
    SumConstant(p, v, start, pre, s);
    SumConstant(p, v, start + pre, post, t);
  }

  lemma ChangePieces(p: Params, d10: int, d12: int, start: nat, c: Change)
    requires Constant(p) && start >= p.interval && start % p.interval == 0
    requires start / p.interval in Changes(p, d10, d12) && c == Changes(p, d10, d12)[start / p.interval]
    requires start <= c.activation < start + p.interval
    ensures forall h: nat :: start <= h < c.activation ==>
              BlockSubsidy(p, CodeVariants(p, d10, d12), h) == p.subsidy(start, c.before)
    ensures forall h: nat :: c.activation <= h < start + p.interval ==>
              BlockSubsidy(p, CodeVariants(p, d10, d12), h) == p.subsidy(c.activation, c.after)
  {
    AllInInterval(p, d10, d12, start);
    var v := CodeVariants(p, d10, d12);
    forall h: nat | start <= h < start + p.interval ensures v(h) == if h < c.activation then c.before else c.after {
      assert v(h) == CodeVariant(p, d10, d12, h);
    }
  }

  /** The subsidy of an interval with a change, as the code adds it up. */
  function Pieces(p: Params, start: nat, c: Change): int
    requires c.activation >= 0
  {
    p.subsidy(start, c.before) * (c.activation - start) + p.subsidy(c.activation, c.after) * (p.interval - (c.activation - start))
  }

  lemma PiecesSum(p: Params, v: nat -> Variant, start: nat, c: Change)
    requires start <= c.activation <= start + p.interval
    requires forall h: nat :: start <= h < c.activation ==> BlockSubsidy(p, v, h) == p.subsidy(start, c.before)
    requires forall h: nat :: c.activation <= h < start + p.interval ==> BlockSubsidy(p, v, h) == p.subsidy(c.activation, c.after)
    ensures SumTo(p, v, start + p.interval) == SumTo(p, v, start) + Pieces(p, start, c)
  {
    TwoPieces(p, v, start, c.activation - start, p.interval - (c.activation - start),
              p.subsidy(start, c.before), p.subsidy(c.activation, c.after));
  }

  /** An interval in which the split changes. */
  lemma ChangeInterval(p: Params, d10: int, d12: int, start: nat)
    requires Constant(p) && start >= p.interval && start % p.interval == 0
    requires start / p.interval in Changes(p, d10, d12)
    ensures var c := Changes(p, d10, d12)[start / p.interval];
            && start <= c.activation < start + p.interval
            && SumTo(p, CodeVariants(p, d10, d12), start + p.interval) ==
                 SumTo(p, CodeVariants(p, d10, d12), start) + Pieces(p, start, c)
  {
    var c := Changes(p, d10, d12)[start / p.interval];
    ActivationInside(c.activation, start, p.interval);
    ChangePieces(p, d10, d12, start, c);
    PiecesSum(p, CodeVariants(p, d10, d12), start, c);
  }

  lemma ActivationInside(d: int, start: nat, r: nat)
    requires r > 0 && start % r == 0 && start >= r && TruncDiv(d, r) == start / r
    ensures start <= d < start + r
  {
    var q := start / r;
    assert start == q * r && q > 0;
    assert d == d / r * r + d % r;
  }

  // ---- The method and its memo table ----

  /** The total over the whole distribution period, counted block by block. */
  ghost predicate IsTotal(p: Params, v: nat -> Variant, end: nat, total: int) {
    forall n: nat :: n >= end ==> SumTo(p, v, n) == total
  }

  lemma NoMore(p: Params, v: nat -> Variant, from: nat)
    requires from >= 2 && forall h: nat :: h >= from ==> p.subsidy(h, v(h)) == 0
    ensures IsTotal(p, v, from, SumTo(p, v, from))
  {
    forall n: nat | n >= from ensures SumTo(p, v, n) == SumTo(p, v, from) {
      SumConstant(p, v, from, n - from, 0);
    }
  }

  class SubsidyTotals {
    /** The parameters of each network; only the network is part of the memo key. */
    const params: nat -> Params
    var memo: map<(nat, int, int), int>

    /** Every memoised total is the block-by-block sum. */
    ghost predicate Valid()
      reads this
    {
      forall k :: k in memo ==> EntryOk(k.0, k.1, k.2, memo[k])
    }

    ghost predicate EntryOk(net: nat, d10: int, d12: int, total: int)
    {
      var p := params(net);
      Constant(p) && forall end: nat :: Ends(p, d10, d12, end) ==> IsTotal(p, CodeVariants(p, d10, d12), end, total)
    }

    constructor (params: nat -> Params)
      ensures Valid() && this.params == params
    {
      this.params, memo := params, map[];
    }

    /** UltimateSubsidy: memoised or computed, the result is the sum over all heights of the
        subsidy under the variant the code counts that height under. */
    method UltimateSubsidy(net: nat, d10: int, d12: int, ghost end: nat) returns (total: int)
      requires Valid() && Constant(params(net)) && params(net).net == net
      requires -1 <= d10 && -1 <= d12 && Ends(params(net), d10, d12, end)
      modifies this`memo
      ensures Valid()
      ensures IsTotal(params(net), CodeVariants(params(net), d10, d12), end, total)
      ensures (net, d10, d12) in memo && memo[(net, d10, d12)] == total
      ensures forall k :: k in old(memo) ==> k in memo && memo[k] == old(memo)[k]
    {
      if (net, d10, d12) in memo {
        return memo[(net, d10, d12)];
      }
      var p := params(net);
      total := Compute(p, d10, d12, end);
      forall e: nat | Ends(p, d10, d12, e) ensures IsTotal(p, CodeVariants(p, d10, d12), e, total) {
        SameTotal(p, d10, d12, end, e, total);
      }
      memo := memo[(net, d10, d12) := total];
    }
  }

  /** The total does not depend on which end height is known. */
  lemma SameTotal(p: Params, d10: int, d12: int, end: nat, e: nat, total: int)
    requires Constant(p) && Ends(p, d10, d12, end) && Ends(p, d10, d12, e)
    requires IsTotal(p, CodeVariants(p, d10, d12), end, total)
    ensures IsTotal(p, CodeVariants(p, d10, d12), e, total)
  {
    var v := CodeVariants(p, d10, d12);
    NoMore(p, v, e);
    var n := if e < end then end else e;
    assert SumTo(p, v, n) == total == SumTo(p, v, e);
  }

  /** `start` is the first height of interval `i`. */
  predicate Begins(p: Params, i: nat, start: nat) {
    p.interval > 0 && i > 0 && start >= p.interval && start % p.interval == 0 && start / p.interval == i
  }

  lemma BeginsFirst(p: Params)
    requires p.interval > 0
    ensures Begins(p, 1, p.interval)
  {
    NextInterval(0, p.interval);
  }

  lemma BeginsNext(p: Params, i: nat, start: nat)
    requires Begins(p, i, start)
    ensures Begins(p, i + 1, start + p.interval)
  {
    NextInterval(start, p.interval);
  }

  /** The two pieces of an interval with a change. */
  method ChangeSubsidy(p: Params, d10: int, d12: int, c: Change, start: nat) returns (sum: int)
    requires Constant(p) && start >= p.interval && start % p.interval == 0
    requires start / p.interval in Changes(p, d10, d12) && c == Changes(p, d10, d12)[start / p.interval]
    ensures SumTo(p, CodeVariants(p, d10, d12), start + p.interval) == SumTo(p, CodeVariants(p, d10, d12), start) + sum
  {
    ChangeInterval(p, d10, d12, start);
    var preChangeBlocks := c.activation - start;
    sum := p.subsidy(start, c.before) * preChangeBlocks;
    sum := sum + p.subsidy(c.activation, c.after) * (p.interval - preChangeBlocks);
  }

  /** One turn of the loop: the subsidy of interval `i`, or the end. */
  method IntervalSubsidy(p: Params, d10: int, d12: int, i: nat, start: nat) returns (done: bool, sum: int)
    requires Constant(p) && -1 <= d10 && -1 <= d12 && Begins(p, i, start)
    ensures done <==> DriedUp(p, d10, d12, start)
    ensures !done ==> SumTo(p, CodeVariants(p, d10, d12), start + p.interval) == SumTo(p, CodeVariants(p, d10, d12), start) + sum
  {
    var changes := Changes(p, d10, d12);
    if i in changes {
      sum := ChangeSubsidy(p, d10, d12, changes[i], start);
      return false, sum;
    }
    PlainInterval(p, d10, d12, start);
    var perBlock := p.subsidy(start, StartVariant(d10, d12, start));
    return perBlock == 0, perBlock * p.interval;
  }

  /** Past every change and the end of the subsidy, an interval is dry. */
  lemma DriesUp(p: Params, d10: int, d12: int, end: nat, i: nat, start: nat)
    requires Constant(p) && Ends(p, d10, d12, end) && Begins(p, i, start) && start >= end && start > d10 && start > d12
    ensures DriedUp(p, d10, d12, start) || i in Changes(p, d10, d12)
  {
  }

  /** No interval that starts past both activations has a change. */
  lemma NoLateChange(p: Params, d10: int, d12: int, i: nat, start: nat)
    requires Begins(p, i, start) && start > d10 && start > d12
    ensures i !in Changes(p, d10, d12)
  {
    if i in Changes(p, d10, d12) {
      if TruncDiv(d12, p.interval) == i { ActivationInside(d12, start, p.interval); }
      else { ActivationInside(d10, start, p.interval); }
    }
  }

  /** The computation behind the memo table: it terminates, interval by interval. */
  method Compute(p: Params, d10: int, d12: int, ghost end: nat) returns (total: int)
    requires Constant(p) && -1 <= d10 && -1 <= d12 && Ends(p, d10, d12, end)
    ensures IsTotal(p, CodeVariants(p, d10, d12), end, total)
  {
    ghost var v := CodeVariants(p, d10, d12);
    // Interval 0: block one, then the blocks before and after voting begins.
    total := p.blockOne;
    total := total + p.subsidy(2, Original) * (p.stakeValidation - 2);
    total := total + p.subsidy(p.stakeValidation, Original) * (p.interval - p.stakeValidation);
    FirstInterval(p, d10, d12);
    BeginsFirst(p);
    var i: nat, start: nat := 1, p.interval;
    ghost var last := end + (d10 + 1) + (d12 + 1);
    while true
      invariant Begins(p, i, start) && total == SumTo(p, v, start)
      decreases last + p.interval - start
    {
      var done, sum := IntervalSubsidy(p, d10, d12, i, start);
      if done {
        break;
      }
      assert start < last by {
        if start >= last {
          NoLateChange(p, d10, d12, i, start);
          DriesUp(p, d10, d12, end, i, start);
        }
      }
      total := total + sum;
      BeginsNext(p, i, start);
      i, start := i + 1, start + p.interval;
    }
    Finished(p, d10, d12, end, start);
  }

  lemma Finished(p: Params, d10: int, d12: int, end: nat, start: nat)
    requires Constant(p) && Ends(p, d10, d12, end) && DriedUp(p, d10, d12, start)
    ensures IsTotal(p, CodeVariants(p, d10, d12), end, SumTo(p, CodeVariants(p, d10, d12), start))
  {
    var v := CodeVariants(p, d10, d12);
    forall h: nat | h >= start ensures p.subsidy(h, v(h)) == 0 {
      assert v(h) == CodeVariant(p, d10, d12, h);
    }
    NoMore(p, v, start);
    NoMore(p, v, end);
    var n := if start < end then end else start;
    assert SumTo(p, v, n) == SumTo(p, v, start) && SumTo(p, v, n) == SumTo(p, v, end);
  }

  // ---- When the code counts every block under the variant in force ----

  function Min(a: int, b: int): int { if a < b then a else b }

  /** Activations past the first interval of `r` blocks; the second one unknown, in a later
      interval than the first, or such that no block of its interval comes before the earlier
      of them. */
  predicate Admissible(r: nat, d10: int, d12: int)
    requires r > 0
  {
    && (d10 == -1 || d10 >= r)
    && (d12 == -1 || d12 >= r)
    && (|| d12 == -1
        || (d10 == -1 && d12 % r == 0)
        || (d10 != -1 && d10 / r < d12 / r)
        || (d10 != -1 && d10 / r == d12 / r && Min(d10, d12) % r == 0))
  }

  /** The first height of the interval of `h`. */
  function StartOf(h: nat, r: nat): nat
    requires r > 0
  {
    h - h % r
  }

  lemma StartIs(h: nat, r: nat)
    requires r > 0
    ensures StartOf(h, r) == h / r * r && StartOf(h, r) <= h < StartOf(h, r) + r
  {
  }

  lemma IntervalBefore(d: nat, h: nat, r: nat)
    requires r > 0 && d / r < h / r
    ensures d < StartOf(h, r)
  {
    StartIs(d, r);
    StartIs(h, r);
    var x, y := d / r, h / r;
    MulMonotone(x + 1, y, r);
    assert (x + 1) * r == x * r + r;
  }

  lemma IntervalAfter(d: nat, h: nat, r: nat)
    requires r > 0 && d / r > h / r
    ensures d >= StartOf(h, r) + r
  {
    StartIs(d, r);
    StartIs(h, r);
    var x, y := d / r, h / r;
    MulMonotone(y + 1, x, r);
    assert (y + 1) * r == y * r + r;
  }

  /** Where an activation lies relative to the interval of a height. */
  lemma Position(d: nat, h: nat, r: nat)
    requires r > 0
    ensures d / r < h / r ==> d < StartOf(h, r)
    ensures d / r == h / r ==> StartOf(h, r) <= d < StartOf(h, r) + r
    ensures d / r > h / r ==> d >= StartOf(h, r) + r
  {
    if d / r < h / r {
      IntervalBefore(d, h, r);
    } else if d / r > h / r {
      IntervalAfter(d, h, r);
    } else {
      StartIs(d, r);
      StartIs(h, r);
    }
  }

  lemma AlignedMin(a: nat, b: nat, h: nat, r: nat)
    requires r > 0 && a / r == h / r && a <= b && a % r == 0
    ensures a == StartOf(h, r)
  {
    StartIs(a, r);
    StartIs(h, r);
  }

  lemma FirstIntervalIs(h: nat, r: nat)
    requires r > 0
    ensures h / r == 0 <==> h < r
    ensures TruncDiv(-1, r) <= 0
  {
  }

  /** For admissible activations every block is counted under the variant in force. */
  lemma AgreeWhenAdmissible(p: Params, d10: int, d12: int, h: nat)
    requires Constant(p) && -1 <= d10 && -1 <= d12 && Admissible(p.interval, d10, d12) && h < MAX_INT64
    ensures CodeVariant(p, d10, d12, h) == ActiveVariant(d10, d12, h)
  {
    var r := p.interval;
    if d10 != -1 { Position(d10, h, r); }
    if d12 != -1 { Position(d12, h, r); }
    if d10 != -1 && d12 != -1 && d10 / r == d12 / r == h / r {
      if d10 <= d12 { AlignedMin(d10, d12, h, r); } else { AlignedMin(d12, d10, h, r); }
    }
    if d10 == -1 && d12 != -1 && d12 / r == h / r { AlignedMin(d12, d12, h, r); }
    FirstIntervalIs(h, r);
  }

  /** With admissible activations, UltimateSubsidy is the sum over all heights of the subsidy
      under the variant in force there. */
  lemma TotalIsActiveSum(p: Params, d10: int, d12: int, end: nat, total: int, n: nat)
    requires Constant(p) && -1 <= d10 && -1 <= d12 && Ends(p, d10, d12, end) && Admissible(p.interval, d10, d12)
    requires IsTotal(p, CodeVariants(p, d10, d12), end, total) && end <= n <= MAX_INT64
    ensures SumTo(p, ActiveVariants(d10, d12), n) == total
  {
    var v, w := CodeVariants(p, d10, d12), ActiveVariants(d10, d12);
    forall h: nat | h < n ensures v(h) == w(h) {
      AgreeWhenAdmissible(p, d10, d12, h);
    }
    SumSame(p, v, w, n);
  }

  // ---- For any other activations the total is wrong ----

  /** Within the interval of height `h`, the code never counts the variant in force at `h`. */
  ghost predicate NeverCounted(p: Params, d10: int, d12: int, h: nat)
    requires p.interval > 0
  {
    forall g: nat {:trigger CodeVariant(p, d10, d12, g)} ::
      g / p.interval == h / p.interval ==> CodeVariant(p, d10, d12, g) != ActiveVariant(d10, d12, h)
  }

  /** An activation within the first interval, which is counted under the original split. */
  lemma MissEarly(p: Params, d10: int, d12: int, d: nat) returns (h: nat)
    requires Constant(p) && (d == d10 || d == d12) && d < p.interval
    ensures 2 <= h < p.interval && NeverCounted(p, d10, d12, h)
  {
    h := if d < 2 then 2 else d;
    FirstIntervalIs(h, p.interval);
  }

  lemma IntervalStart(d: nat, r: nat) returns (h: nat)
    requires r > 2 && d >= r
    ensures h == StartOf(d, r) && h >= r && h / r == d / r && h / r > 0 && (d % r != 0 ==> h < d)
  {
    h := StartOf(d, r);
    StartIs(d, r);
    assert (d / r + 1) * r == d / r * r + r;
    QuotientIs(h, r, d / r);
    FirstIntervalIs(d, r);
    FirstIntervalIs(h, r);
  }

  /** No first activation, and the second one after the start of its interval: that start is
      still under the original split, and the interval is counted under the later two. */
  lemma MissAlone(p: Params, d12: nat) returns (h: nat)
    requires Constant(p) && d12 >= p.interval && d12 % p.interval != 0
    ensures p.interval <= h <= d12 && NeverCounted(p, -1, d12, h)
  {
    h := IntervalStart(d12, p.interval);
  }

  /** Both in one interval, and neither at its start: the same. */
  lemma MissTogether(p: Params, d10: nat, d12: nat) returns (h: nat)
    requires Constant(p) && d12 >= p.interval && d10 / p.interval == d12 / p.interval && Min(d10, d12) % p.interval != 0
    ensures p.interval <= h <= d12 && NeverCounted(p, d10, d12, h)
  {
    h := IntervalStart(d12, p.interval);
    Position(d10, h, p.interval);
    Position(d12, h, p.interval);
    MinNotStart(d10, d12, h, p.interval);
  }

  lemma MinNotStart(a: nat, b: nat, start: nat, r: nat)
    requires r > 0 && start <= a && start <= b && start % r == 0 && Min(a, b) % r != 0
    ensures start < a && start < b
  {
  }

  /** The second activation in an earlier interval: at the height of the first the last split
      is in force, and the interval is counted under the first two. */
  lemma MissReversed(p: Params, d10: nat, d12: nat) returns (h: nat)
    requires Constant(p) && d12 >= p.interval && d12 / p.interval < d10 / p.interval
    ensures h == d10 >= p.interval && NeverCounted(p, d10, d12, h)
  {
    h := d10;
    Position(d12, d10, p.interval);
    FirstIntervalIs(h, p.interval);
    FirstIntervalIs(d12, p.interval);
  }

  /** For activations that are not admissible, some interval is never counted under a variant
      that is in force in it. */
  lemma MissOtherwise(p: Params, d10: int, d12: int) returns (h: nat)
    requires Constant(p) && -1 <= d10 && -1 <= d12 && !Admissible(p.interval, d10, d12)
    ensures h >= 2 && NeverCounted(p, d10, d12, h)
    ensures h < p.interval || h <= d10 || h <= d12
  {
    var r := p.interval;
    if 0 <= d10 < r {
      h := MissEarly(p, d10, d12, d10);
    } else if 0 <= d12 < r {
      h := MissEarly(p, d10, d12, d12);
    } else if d10 == -1 {
      h := MissAlone(p, d12);
    } else if d10 / r == d12 / r {
      h := MissTogether(p, d10, d12);
    } else {
      h := MissReversed(p, d10, d12);
    }
  }

  /** One coin for every block below `end`, and a second one for blocks of interval `i` under
      variant `v`: a schedule that obeys the laws. */
  function Coins(r: nat, end: nat, i: nat, v: Variant): (nat, Variant) -> int
    requires r > 0
  {
    (h: nat, w: Variant) => if h >= end then 0 else if h / r == i && w == v then 2 else 1
  }

  function CoinParams(r: nat, validation: nat, end: nat, i: nat, v: Variant): Params
    requires r > 0
  {
    Params(0, 0, validation, r, Coins(r, end, i, v))
  }

  lemma CoinsAreConstant(r: nat, validation: nat, end: nat, i: nat, v: Variant)
    requires 2 <= validation <= r && 2 < r && end >= r && end % r == 0
    ensures Constant(CoinParams(r, validation, end, i, v))
  {
    var p := CoinParams(r, validation, end, i, v);
    forall h: nat, w: Variant | h < r ensures p.subsidy(h, w) == (if 0 == i && w == v then 2 else 1) {
      FirstIntervalIs(h, r);
    }
    forall h: nat, w: Variant | h >= r ensures p.subsidy(h, w) == p.subsidy(h - h % r, w) {
      StartIs(h, r);
      assert (h / r + 1) * r == h / r * r + r;
      QuotientIs(StartOf(h, r), r, h / r);
      SameSideOfEnd(h, end, r);
    }
  }

  /** A height and the start of its interval lie on the same side of an interval boundary. */
  lemma SameSideOfEnd(h: nat, end: nat, r: nat)
    requires r > 0 && end % r == 0
    ensures h >= end <==> StartOf(h, r) >= end
  {
    StartIs(h, r);
    StartIs(end, r);
    var x, y := h / r, end / r;
    assert (x + 1) * r == x * r + r;
    if y <= x { MulMonotone(y, x, r); } else { MulMonotone(x + 1, y, r); }
  }

  lemma CoinsEnd(r: nat, validation: nat, end: nat, i: nat, v: Variant, d10: int, d12: int)
    requires r > 0 && r <= end < MAX_INT64
    ensures Ends(CoinParams(r, validation, end, i, v), d10, d12, end)
  {
  }

  /** A sum that is nowhere larger and somewhere smaller is smaller. */
  lemma {:induction false} SumLess(p: Params, v: nat -> Variant, w: nat -> Variant, n: nat, h: nat)
    requires forall g: nat :: g < n ==> BlockSubsidy(p, v, g) <= BlockSubsidy(p, w, g)
    ensures SumTo(p, v, n) <= SumTo(p, w, n)
    ensures h < n && BlockSubsidy(p, v, h) < BlockSubsidy(p, w, h) ==> SumTo(p, v, n) < SumTo(p, w, n)
  {
    if n > 0 {
      SumLess(p, v, w, n - 1, h);
    }
  }

  /** Whatever the interval and the start of voting: for activations that are not admissible
      there is a schedule that obeys all the laws on which the code's total is too small, and
      stays too small. */
  lemma WrongOtherwise(r: nat, validation: nat, d10: int, d12: int) returns (p: Params, end: nat)
    requires 2 <= validation <= r && 2 < r && -1 <= d10 && -1 <= d12 && !Admissible(r, d10, d12)
    requires 2 * r < MAX_INT64 && d10 + r < MAX_INT64 && d12 + r < MAX_INT64
    ensures p.interval == r && p.stakeValidation == validation && Constant(p) && Ends(p, d10, d12, end)
    ensures SumTo(p, CodeVariants(p, d10, d12), end) < SumTo(p, ActiveVariants(d10, d12), end)
  {
    CoinsAreConstant(r, validation, r, 0, Original);
    var q := CoinParams(r, validation, r, 0, Original);
    var h := MissOtherwise(q, d10, d12);
    var v := ActiveVariant(d10, d12, h);
    end := StartOf(h, r) + r;
    StartIs(h, r);
    assert h / r * r % r == 0 by { QuotientIs(h / r * r, r, h / r); }
    NextInterval(StartOf(h, r), r);
    p := CoinParams(r, validation, end, h / r, v);
    CoinsAreConstant(r, validation, end, h / r, v);
    CoinsEnd(r, validation, end, h / r, v, d10, d12);
    MissKept(q, p, d10, d12, h);
    CoinsDiffer(p, r, validation, end, h, v, d10, d12);
  }

  /** Which variants are counted depends on the interval alone. */
  lemma MissKept(q: Params, p: Params, d10: int, d12: int, h: nat)
    requires q.interval == p.interval > 0 && NeverCounted(q, d10, d12, h)
    ensures NeverCounted(p, d10, d12, h)
  {
    forall g: nat ensures CodeVariant(p, d10, d12, g) == CodeVariant(q, d10, d12, g) {
    }
  }

  lemma CoinsDiffer(p: Params, r: nat, validation: nat, end: nat, h: nat, v: Variant, d10: int, d12: int)
    requires 2 < r && 2 <= h < end && v == ActiveVariant(d10, d12, h)
    requires p == CoinParams(r, validation, end, h / r, v) && NeverCounted(p, d10, d12, h)
    ensures SumTo(p, CodeVariants(p, d10, d12), end) < SumTo(p, ActiveVariants(d10, d12), end)
  {
    var c, w := CodeVariants(p, d10, d12), ActiveVariants(d10, d12);
    forall g: nat | g < end ensures BlockSubsidy(p, c, g) <= BlockSubsidy(p, w, g) {
      assert c(g) == CodeVariant(p, d10, d12, g);
    }
    assert c(h) == CodeVariant(p, d10, d12, h) && w(h) == v;
    SumLess(p, c, w, end, h);
  }

  /** The code's total is the sum of the subsidies in force, for every schedule with this
      interval that obeys the laws. */
  ghost predicate AlwaysRight(r: nat, d10: int, d12: int)
    requires r > 0
  {
    forall p: Params, end: nat {:trigger Ends(p, d10, d12, end)} ::
      p.interval == r && Constant(p) && Ends(p, d10, d12, end) ==>
        SumTo(p, CodeVariants(p, d10, d12), end) == SumTo(p, ActiveVariants(d10, d12), end)
  }

  /** Exactly when UltimateSubsidy is right: a condition on the activation heights. */
  lemma AlwaysRightIff(r: nat, d10: int, d12: int)
    requires 2 < r && -1 <= d10 && -1 <= d12
    requires 2 * r < MAX_INT64 && d10 + r < MAX_INT64 && d12 + r < MAX_INT64
    ensures AlwaysRight(r, d10, d12) <==> Admissible(r, d10, d12)
  {
    if Admissible(r, d10, d12) {
      forall p: Params, end: nat | p.interval == r && Constant(p) && Ends(p, d10, d12, end)
        ensures SumTo(p, CodeVariants(p, d10, d12), end) == SumTo(p, ActiveVariants(d10, d12), end)
      {
        NoMore(p, CodeVariants(p, d10, d12), end);
        TotalIsActiveSum(p, d10, d12, end, SumTo(p, CodeVariants(p, d10, d12), end), end);
      }
    } else {
      var p, end := WrongOtherwise(r, 2, d10, d12);
    }
  }

  /** Two coins under the original split and one after, for the heights 2 to 5. */
  const SMALL: Params := Params(0, 0, 2, 3, (h: nat, v: Variant) => if h >= 6 then 0 else if v == Original then 2 else 1)

  /** Both splits change in the second interval of three blocks, at heights 4 and 5: the
      result is 5 where the subsidies in force add up to 6. */
  method WrongTotal() returns (total: int)
    ensures total == 5 && SumTo(SMALL, ActiveVariants(4, 5), 6) == 6
  {
    var c, w := CodeVariants(SMALL, 4, 5), ActiveVariants(4, 5);
    SmallObeys();
    total := Compute(SMALL, 4, 5, 6);
    assert SumTo(SMALL, c, 6) == total;
    assert SumTo(SMALL, c, 2) == 0 && SumTo(SMALL, w, 2) == 0;
    assert c(2) == Original && c(3) == Dcp0010 && c(4) == Dcp0010 && c(5) == Dcp0012;
    assert SumTo(SMALL, c, 4) == 3;
    assert w(2) == Original && w(3) == Original && w(4) == Dcp0010 && w(5) == Dcp0012;
    assert SumTo(SMALL, w, 4) == 4;
  }

  lemma SmallObeys()
    ensures Constant(SMALL) && Ends(SMALL, 4, 5, 6)
  {
    forall h: nat, v: Variant | h >= 3 ensures SMALL.subsidy(h, v) == SMALL.subsidy(h - h % 3, v) {
    }
    forall g: nat ensures !DriedUp(SMALL, 4, 5, g) || g >= 6 {
    }
  }
}

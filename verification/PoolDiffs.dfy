/** The pure theory of ticket pool diffs: replay, inversion and well-formedness. */
module PoolDiffs {
  import opened Types

  /** Tickets entering and leaving the live pool from one height to the next. */
  datatype PoolDiff = PoolDiff(ins: seq<Hash>, outs: seq<Hash>)

  const EMPTY_DIFF := PoolDiff([], [])

  /** The map after adding every ticket of `ins` and then deleting every ticket of `outs`. */
  function Applied(pool: set<Hash>, ins: seq<Hash>, outs: seq<Hash>): set<Hash> {
    pool + Elems(ins) - Elems(outs)
  }

  function Forward(pool: set<Hash>, d: PoolDiff): set<Hash> {
    Applied(pool, d.ins, d.outs)
  }

  function Backward(pool: set<Hash>, d: PoolDiff): set<Hash> {
    Applied(pool, d.outs, d.ins)
  }

  /** The live pool after the diffs of `log`, starting from the empty pool at genesis. */
  function Replay(log: seq<PoolDiff>): set<Hash> {
    if log == [] then {} else Forward(Replay(log[..|log| - 1]), log[|log| - 1])
  }

  predicate WellFormed(pool: set<Hash>, d: PoolDiff) {
    && NoRepeats(d.ins)
    && NoRepeats(d.outs)
    && Elems(d.ins) !! pool
    && Elems(d.outs) <= pool + Elems(d.ins)
  }

  /** Every diff is well-formed over the pool it is applied to. */
  predicate LogOk(log: seq<PoolDiff>) {
    log == [] ||
    (LogOk(log[..|log| - 1]) && WellFormed(Replay(log[..|log| - 1]), log[|log| - 1]))
  }

  /** Applying a diff in reverse undoes it exactly when no incoming ticket was already
      there and every outgoing ticket was there to leave. */
  lemma BackwardUndoesForwardIff(pool: set<Hash>, d: PoolDiff)
    ensures Backward(Forward(pool, d), d) == pool
       <==> Elems(d.ins) !! pool && Elems(d.outs) <= pool + Elems(d.ins)
  {
    var I, O := Elems(d.ins), Elems(d.outs);
    assert Backward(Forward(pool, d), d) == pool + O - I;
    if pool + O - I == pool {
      forall x | x in O ensures x in pool + I {
        if x !in I { assert x in pool + O - I; }
      }
    }
  }

  /** The size check of `advance` is not enough: this diff passes it in both directions and
      still does not come back to the pool it started from. */
  lemma SizeCheckIsNotEnough(a: Hash, b: Hash)
    requires a != b
    ensures var pool, d := {a}, PoolDiff([a], [b]);
            && |Forward(pool, d)| == |pool| + |d.ins| - |d.outs|
            && |Backward(Forward(pool, d), d)| == |Forward(pool, d)| - |d.ins| + |d.outs|
            && Backward(Forward(pool, d), d) != pool
  {
    var pool, d := {a}, PoolDiff([a], [b]);
    assert Elems(d.ins) == {a} && Elems(d.outs) == {b};
    assert Forward(pool, d) == {a};
    assert Backward({a}, d) == {b};
    assert b !in pool;
  }

  /** A well-formed diff changes the size of the pool by |in| - |out|. */
  lemma ForwardSize(pool: set<Hash>, d: PoolDiff)
    requires WellFormed(pool, d)
    ensures |Forward(pool, d)| == |pool| + |d.ins| - |d.outs|
  {
    NoRepeatsSize(d.ins);
    NoRepeatsSize(d.outs);
    var grown := pool + Elems(d.ins);
    assert |grown| == |pool| + |d.ins|;
    assert |grown - Elems(d.outs)| == |grown| - |Elems(d.outs)|;
  }

  lemma LogOkPrefix(log: seq<PoolDiff>, n: nat)
    requires LogOk(log) && n <= |log|
    ensures LogOk(log[..n])
    decreases |log|
  {
    if n == |log| {
      assert log[..n] == log;
    } else {
      LogOkPrefix(log[..|log| - 1], n);
      assert log[..|log| - 1][..n] == log[..n];
    }
  }

  /** Every diff of a well-formed log is well-formed over the replay of the diffs before it. */
  lemma WellFormedAt(log: seq<PoolDiff>, n: nat)
    requires LogOk(log) && n < |log|
    ensures WellFormed(Replay(log[..n]), log[n])
  {
    LogOkPrefix(log, n + 1);
    assert log[..n + 1][..n] == log[..n];
  }

  lemma ReplayNext(log: seq<PoolDiff>, n: nat)
    requires n < |log|
    ensures Replay(log[..n + 1]) == Forward(Replay(log[..n]), log[n])
  {
    assert log[..n + 1][..n] == log[..n];
  }

  /** Advancing over a well-formed log replays one more diff and keeps the expected size. */
  lemma AdvanceStep(log: seq<PoolDiff>, n: nat, pool: set<Hash>)
    requires LogOk(log) && n < |log| && pool == Replay(log[..n])
    ensures Forward(pool, log[n]) == Replay(log[..n + 1])
    ensures |Forward(pool, log[n])| == |pool| + |log[n].ins| - |log[n].outs|
  {
    ReplayNext(log, n);
    WellFormedAt(log, n);
    ForwardSize(pool, log[n]);
  }

  /** Retreating over a well-formed log gives the previous pool and keeps the expected size. */
  lemma RetreatStep(log: seq<PoolDiff>, n: nat, pool: set<Hash>)
    requires LogOk(log) && 0 < n <= |log| && pool == Replay(log[..n])
    ensures Backward(pool, log[n - 1]) == Replay(log[..n - 1])
    ensures |Backward(pool, log[n - 1])| == |pool| - |log[n - 1].ins| + |log[n - 1].outs|
  {
    var before := Replay(log[..n - 1]);
    ReplayNext(log, n - 1);
    WellFormedAt(log, n - 1);
    BackwardUndoesForwardIff(before, log[n - 1]);
    ForwardSize(before, log[n - 1]);
  }

  /** Replaying one more diff: holds for every log, well-formed or not. */
  lemma ReplaySnoc(log: seq<PoolDiff>, d: PoolDiff)
    ensures Replay(log + [d]) == Forward(Replay(log), d)
    ensures LogOk(log + [d]) <==> LogOk(log) && WellFormed(Replay(log), d)
  {
    assert (log + [d])[..|log|] == log;
  }

  /** Growing a log leaves the replay of its earlier prefixes alone. */
  lemma GrowLog(log: seq<PoolDiff>, d: PoolDiff, n: nat)
    requires n <= |log|
    ensures (log + [d])[..n] == log[..n]
    ensures LogOk(log) && WellFormed(Replay(log), d) ==> LogOk(log + [d])
  {
    ReplaySnoc(log, d);
  }

  /** The replay of diff `k` passes the size check of `advance`. */
  ghost predicate SizeOkAt(log: seq<PoolDiff>, k: nat)
    requires k < |log|
  {
    |Replay(log[..k + 1])| == |Replay(log[..k])| + |log[k].ins| - |log[k].outs|
  }

  /** One more diff of any log, well-formed or not. */
  lemma ReplayStep(log: seq<PoolDiff>, n: nat, pool: set<Hash>)
    requires n < |log| && pool == Replay(log[..n])
    ensures Forward(pool, log[n]) == Replay(log[..n + 1])
    ensures SizeOkAt(log, n) <==> |Forward(pool, log[n])| == |pool| + |log[n].ins| - |log[n].outs|
    ensures LogOk(log) ==> SizeOkAt(log, n)
  {
    ReplayNext(log, n);
    if LogOk(log) {
      AdvanceStep(log, n, pool);
    }
  }

  /** The first `n` diffs do. */
  ghost predicate SizesOk(log: seq<PoolDiff>, n: nat)
    requires n <= |log|
  {
    forall k {:trigger SizeOkAt(log, k)} :: 0 <= k < n ==> SizeOkAt(log, k)
  }

  lemma SizeOkPrefix(log: seq<PoolDiff>, n: nat, k: nat)
    requires k < n <= |log|
    ensures SizeOkAt(log[..n], k) <==> SizeOkAt(log, k)
  {
    assert log[..n][..k] == log[..k] && log[..n][..k + 1] == log[..k + 1];
  }

  lemma SizesOkPrefix(log: seq<PoolDiff>, n: nat, m: nat)
    requires m <= n <= |log|
    ensures SizesOk(log[..n], m) <==> SizesOk(log, m)
  {
    forall k | 0 <= k < m ensures SizeOkAt(log[..n], k) <==> SizeOkAt(log, k) {
      SizeOkPrefix(log, n, k);
    }
    if SizesOk(log[..n], m) {
      forall k | 0 <= k < m ensures SizeOkAt(log, k) {
        assert SizeOkAt(log[..n], k);
      }
    }
  }

  /** A well-formed log passes every size check. The converse does not hold. */
  lemma LogOkSizes(log: seq<PoolDiff>)
    requires LogOk(log)
    ensures SizesOk(log, |log|)
  {
    forall k | 0 <= k < |log| ensures SizeOkAt(log, k) {
      AdvanceStep(log, k, Replay(log[..k]));
    }
  }

  /** How many diffs a replay gets through before one fails its size check. */
  ghost function GoodPrefix(log: seq<PoolDiff>): (n: nat)
    ensures n <= |log|
  {
    if log == [] then 0 else
      var init := log[..|log| - 1];
      if GoodPrefix(init) < |init| || !SizeOkAt(log, |log| - 1) then GoodPrefix(init) else |log|
  }

  /** They pass, and the next one, if there is one, does not. */
  lemma {:induction false} GoodPrefixIs(log: seq<PoolDiff>)
    ensures SizesOk(log, GoodPrefix(log))
    ensures GoodPrefix(log) < |log| ==> !SizeOkAt(log, GoodPrefix(log))
  {
    if log != [] {
      var n := |log| - 1;
      GoodPrefixIs(log[..n]);
      SizesOkPrefix(log, n, GoodPrefix(log[..n]));
      if GoodPrefix(log[..n]) < n { SizeOkPrefix(log, n, GoodPrefix(log[..n])); }
    }
  }

  lemma GoodPrefixUnique(log: seq<PoolDiff>, m: nat)
    requires m <= |log| && SizesOk(log, m) && (m < |log| ==> !SizeOkAt(log, m))
    ensures m == GoodPrefix(log)
  {
    GoodPrefixIs(log);
  }

  lemma GoodPrefixCut(log: seq<PoolDiff>, n: nat)
    requires n <= |log|
    ensures GoodPrefix(log[..n]) == if GoodPrefix(log) < n then GoodPrefix(log) else n
  {
    var m := if GoodPrefix(log) < n then GoodPrefix(log) else n;
    GoodPrefixIs(log);
    SizesOkPrefix(log, n, m);
    if m < n { SizeOkPrefix(log, n, m); }
    GoodPrefixUnique(log[..n], m);
  }

  /** A replay gets through a well-formed log. */
  lemma GoodPrefixAll(log: seq<PoolDiff>)
    requires LogOk(log)
    ensures GoodPrefix(log) == |log|
  {
    LogOkSizes(log);
    GoodPrefixUnique(log, |log|);
  }
}

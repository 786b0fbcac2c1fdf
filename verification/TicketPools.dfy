/** TicketPool: a log of diffs with a movable cursor, the pool at the cursor, and an on-disk
    copy of the log (stakedb/ticketpool.go). */
module TicketPools {
  import opened Types
  import opened PoolDiffs
  import opened DiffCodec
  import opened DiffStore
  import opened BigEndian

  datatype Fault = NotNext | StoreFailed | AtTip | AtGenesis | WrongSize | BeyondTip | BadCursor

  datatype Outcome = Ok | Failed(fault: Fault)

  /** Heights are signed 64-bit integers. */
  const MAX_HEIGHT: int := 0x7FFF_FFFF_FFFF_FFFF

  /** Where the cursor is after the end diff was trimmed off, leaving `n` diffs. */
  function TrimmedCursor(cursor: int, n: int): int {
    var max := if n == 0 then 0 else n - 1;
    if cursor > max then max else cursor
  }

  /** Storing the next diff keeps the disk a copy of the log, over stale entries or not. */
  lemma WriteKeeps(db: Store, stored: seq<PoolDiff>, log: seq<PoolDiff>, d: PoolDiff)
    requires Holds(db, stored) && log <= stored && |log| < MAX_HEIGHT && Fits(d)
    ensures Holds(db[U64(|log| + 1) := Item(EncodeDiff(d), 0)], Overwritten(stored, |log| + 1, d))
    ensures log + [d] <= Overwritten(stored, |log| + 1, d)
  {
    HoldsWrite(db, stored, |log| + 1, d);
  }

  /** The diffs from `from` to `to` pass the size check. */
  ghost predicate SizesBetween(log: seq<PoolDiff>, from: int, to: int) {
    forall k {:trigger SizeOkAt(log, k)} :: 0 <= from <= k < to <= |log| ==> SizeOkAt(log, k)
  }

  /** The diff just before `at` is the first one from `from` on that does not. */
  ghost predicate StoppedAt(log: seq<PoolDiff>, from: int, at: int) {
    0 <= from < at <= |log| && SizesBetween(log, from, at - 1) && !SizeOkAt(log, at - 1)
  }

  lemma SizesNext(log: seq<PoolDiff>, from: int, c: int)
    requires 0 <= from <= c < |log| && SizesBetween(log, from, c)
    ensures SizeOkAt(log, c) ==> SizesBetween(log, from, c + 1)
    ensures !SizeOkAt(log, c) ==> StoppedAt(log, from, c + 1)
  {
  }

  lemma NeverStopped(log: seq<PoolDiff>)
    requires LogOk(log)
    ensures forall from, at :: !StoppedAt(log, from, at)
  {
    LogOkSizes(log);
  }

  /** A stale entry for index `n` is on disk and happens to hold `d`. */
  predicate AlreadyStored(stored: seq<PoolDiff>, n: nat, d: PoolDiff) {
    n < |stored| && stored[n] == d
  }

  lemma GrownPrefixIff(log: seq<PoolDiff>, d: PoolDiff, stored: seq<PoolDiff>)
    requires log <= stored
    ensures log + [d] <= stored <==> AlreadyStored(stored, |log|, d)
  {
    if AlreadyStored(stored, |log|, d) {
      assert stored[..|log| + 1] == log + [d];
    }
  }

  /** Cutting the last diff off leaves a well-formed log and the replay below the cut. */
  lemma CutKeeps(log: seq<PoolDiff>, cursor: int)
    requires log != [] && 0 <= cursor <= |log| - 1
    ensures LogOk(log) ==> LogOk(log[..|log| - 1])
    ensures log[..|log| - 1][..cursor] == log[..cursor]
  {
    if LogOk(log) {
      LogOkPrefix(log, |log| - 1);
    }
  }

  class TicketPool {
    var cursor: int
    var tip: int
    var diffs: seq<PoolDiff>
    var pool: set<Hash>
    var diffDB: Store
    /** The diffs on disk; trimming leaves stale ones above the tip. */
    ghost var stored: seq<PoolDiff>

    /** No diff index derived from cursor or tip is out of range. */
    ghost predicate Valid()
      reads this`tip, this`diffs, this`cursor
    {
      tip == |diffs| && 0 <= cursor <= tip
    }

    /** The pool is the replay of the first `cursor` diffs, of a log that may be ill-formed. */
    ghost predicate Replaying()
      reads this`cursor, this`diffs, this`pool
    {
      0 <= cursor <= |diffs| && pool == Replay(diffs[..cursor])
    }

    /** The pool is the replay of the first `cursor` diffs of a well-formed log. */
    ghost predicate Tracking()
      reads this`cursor, this`diffs, this`pool
    {
      0 <= cursor <= |diffs| && LogOk(diffs) && pool == Replay(diffs[..cursor])
    }

    /** On disk are exactly the heights 1..M for some M >= tip, and 1..tip are the log. */
    ghost predicate Persisted()
      reads this`diffDB, this`stored, this`diffs
    {
      Holds(diffDB, stored) && diffs <= stored
    }

    /** The state a freshly loaded TicketPool starts from. */
    constructor (loaded: seq<PoolDiff>, db: Store)
      ensures Valid() && (Holds(db, loaded) ==> Persisted())
      ensures diffs == loaded && stored == loaded && diffDB == db && cursor == 0 && pool == {}
      ensures LogOk(loaded) ==> Tracking()
    {
      cursor, tip, diffs, pool := 0, |loaded|, loaded, {};
      diffDB, stored := db, loaded;
    }

    method ApplyDiff(ins: seq<Hash>, outs: seq<Hash>)
      modifies this`pool
      ensures pool == Applied(old(pool), ins, outs)
    {
      for i := 0 to |ins|
        invariant pool == old(pool) + Elems(ins[..i])
      {
        ElemsSnoc(ins[..i], ins[i]);
        assert ins[..i + 1] == ins[..i] + [ins[i]];
        pool := pool + {ins[i]};
      }
      assert ins[..|ins|] == ins;
      for i := 0 to |outs|
        invariant pool == old(pool) + Elems(ins) - Elems(outs[..i])
      {
        ElemsSnoc(outs[..i], outs[i]);
        assert outs[..i + 1] == outs[..i] + [outs[i]];
        pool := pool - {outs[i]};
      }
      assert outs[..|outs|] == outs;
    }

    /** maxCursor: an index into a log of `tip` diffs, and the last one; 0 for the empty log. */
    method MaxCursor() returns (max: int)
      ensures tip == 0 ==> max == 0
      ensures tip > 0 ==> 0 <= max < tip && !(max + 1 < tip)
    {
      max := if tip == 0 then 0 else tip - 1;
    }

    /** The body of advance past its guard. */
    method StepForward() returns (r: Outcome)
      requires 0 <= cursor < |diffs|
      modifies this`cursor, this`pool
      ensures cursor == old(cursor) + 1 && pool == Forward(old(pool), diffs[old(cursor)])
      ensures r == if |pool| == |old(pool)| + |diffs[old(cursor)].ins| - |diffs[old(cursor)].outs| then Ok else Failed(WrongSize)
    {
      var d := diffs[cursor];
      var expected := |pool| + |d.ins| - |d.outs|;
      ApplyDiff(d.ins, d.outs);
      cursor := cursor + 1;
      r := if |pool| != expected then Failed(WrongSize) else Ok;
    }

    /** advance: callers guard against the empty log, which would be indexed out of range. */
    method Advance() returns (r: Outcome)
      requires Valid() && diffs != []
      modifies this`cursor, this`pool
      ensures Valid()
      ensures old(cursor) == tip ==> r == Failed(AtTip) && cursor == old(cursor) && pool == old(pool)
      ensures old(cursor) < tip ==>
                && cursor == old(cursor) + 1
                && pool == Forward(old(pool), diffs[old(cursor)])
                && r in {Ok, Failed(WrongSize)}
                && (r == Ok <==> |pool| == |old(pool)| + |diffs[old(cursor)].ins| - |diffs[old(cursor)].outs|)
      ensures old(Tracking()) ==> Tracking() && (old(cursor) < tip ==> r == Ok)
      ensures old(Replaying()) ==> Replaying() && (old(cursor) < tip ==> (r == Ok <==> SizeOkAt(diffs, old(cursor))))
    {
      var max := MaxCursor();
      if cursor > max {
        return Failed(AtTip);
      }
      if Replaying() {
        ReplayStep(diffs, cursor, pool);
      }
      r := StepForward();
    }

    /** The body of retreat past its guard. */
    method StepBack() returns (r: Outcome)
      requires 0 < cursor <= |diffs|
      modifies this`cursor, this`pool
      ensures cursor == old(cursor) - 1 && pool == Backward(old(pool), diffs[cursor])
      ensures r == if |pool| == |old(pool)| - |diffs[cursor].ins| + |diffs[cursor].outs| then Ok else Failed(WrongSize)
    {
      var d := diffs[cursor - 1];
      var expected := |pool| - |d.ins| + |d.outs|;
      ApplyDiff(d.outs, d.ins);
      cursor := cursor - 1;
      r := if |pool| != expected then Failed(WrongSize) else Ok;
    }

    /** retreat: also used while the tip has already been lowered but the log not yet cut. */
    method Retreat() returns (r: Outcome)
      requires 0 <= cursor <= |diffs|
      modifies this`cursor, this`pool
      ensures old(cursor) == 0 ==> r == Failed(AtGenesis) && cursor == 0 && pool == old(pool)
      ensures old(cursor) > 0 ==>
                && cursor == old(cursor) - 1
                && pool == Backward(old(pool), diffs[cursor])
                && r in {Ok, Failed(WrongSize)}
                && (r == Ok <==> |pool| == |old(pool)| - |diffs[cursor].ins| + |diffs[cursor].outs|)
      ensures old(Tracking()) ==> Tracking() && (old(cursor) > 0 ==> r == Ok)
    {
      if cursor == 0 {
        return Failed(AtGenesis);
      }
      if Tracking() {
        RetreatStep(diffs, cursor, pool);
      }
      r := StepBack();
    }

    method RetreatTo(height: int) returns (r: Outcome)
      requires 0 <= cursor <= |diffs|
      modifies this`cursor, this`pool
      ensures 0 <= cursor <= old(cursor)
      ensures 0 <= height <= tip && height < old(cursor) ==> cursor < old(cursor)
      ensures (height < 0 || height > tip) ==> r == Failed(BadCursor) && cursor == old(cursor)
      ensures old(Tracking()) ==> Tracking()
      ensures old(Tracking()) && 0 <= height <= tip ==>
                r == Ok && cursor == if height < old(cursor) then height else old(cursor)
    {
      if height < 0 || height > tip {
        return Failed(BadCursor);
      }
      while cursor > height
        invariant 0 <= cursor <= old(cursor)
        invariant height <= cursor || cursor == old(cursor)
        invariant old(Tracking()) ==> Tracking()
        decreases cursor
      {
        r := Retreat();
        if r != Ok {
          return;
        }
      }
      r := Ok;
    }

    method AdvanceTo(height: int) returns (r: Outcome)
      requires Valid()
      modifies this`cursor, this`pool
      ensures Valid() && old(cursor) <= cursor
      ensures height > tip ==> r == Failed(BeyondTip) && cursor == old(cursor) && pool == old(pool)
      ensures r == Ok ==> cursor == if height > old(cursor) then height else old(cursor)
      ensures old(Replaying()) ==> Replaying()
      ensures old(Replaying()) && height <= tip ==>
                (if r == Ok then SizesBetween(diffs, old(cursor), cursor) else StoppedAt(diffs, old(cursor), cursor))
      ensures old(Tracking()) ==> Tracking() && (height <= tip ==> r == Ok)
    {
      if height > tip {
        return Failed(BeyondTip);
      }
      ghost var sound := Replaying();
      if Tracking() { NeverStopped(diffs); }
      while height > cursor
        invariant Valid() && old(cursor) <= cursor
        invariant cursor <= height || cursor == old(cursor)
        invariant sound ==> Replaying() && SizesBetween(diffs, old(cursor), cursor)
        decreases height - cursor
      {
        ghost var c := cursor;
        r := Advance();
        if sound { SizesNext(diffs, old(cursor), c); }
        if r != Ok {
          return;
        }
      }
      r := Ok;
    }

    method AdvanceToTip() returns (at: int, r: Outcome)
      requires Valid()
      modifies this`cursor, this`pool
      ensures Valid() && at == cursor
      ensures r == Ok ==> cursor == tip
      ensures old(Tracking()) ==> Tracking() && r == Ok
      ensures old(Replaying()) ==>
                Replaying() && (if r == Ok then SizesBetween(diffs, old(cursor), cursor) else StoppedAt(diffs, old(cursor), cursor))
    {
      r := AdvanceTo(tip);
      at := cursor;
    }

    /** Trim drops the end diff. The disk is left alone, and the cursor retreats to one
        below the new tip, not to the new tip itself. */
    method Trim() returns (newTip: int, undo: PoolDiff)
      requires Valid()
      modifies this`tip, this`cursor, this`pool, this`diffs
      ensures Valid() && newTip == tip
      ensures old(diffs) == [] ==>
                undo == EMPTY_DIFF && diffs == [] && cursor == old(cursor) && pool == old(pool)
      ensures old(diffs) != [] ==>
                diffs == old(diffs)[..|old(diffs)| - 1] && undo == old(diffs)[|old(diffs)| - 1]
      ensures old(Tracking()) ==> Tracking() && cursor == TrimmedCursor(old(cursor), |diffs|)
      ensures old(Tracking()) && |diffs| > 0 && old(cursor) >= |diffs| ==> cursor == |diffs| - 1
      ensures old(cursor) <= TrimmedCursor(old(cursor), |diffs|) ==> cursor == old(cursor) && pool == old(pool)
      ensures old(Persisted()) ==> Persisted()
    {
      if tip == 0 || |diffs| == 0 {
        return tip, EMPTY_DIFF;
      }
      tip := tip - 1;
      var max := MaxCursor();
      if cursor > max {
        var _ := RetreatTo(max);
      }
      undo := diffs[|diffs| - 1];
      CutKeeps(diffs, cursor);
      diffs := diffs[..|diffs| - 1];
      newTip := tip;
      assert diffDB == old(diffDB) && stored == old(stored);
      assert old(diffs) <= stored ==> diffs <= stored;
    }

    /** Append checks that the diff builds on the tip, grows the log and writes the entry of
        that height; `storeOk` is the store's answer to the write. */
    method Append(diff: PoolDiff, height: int, storeOk: bool) returns (r: Outcome)
      requires Valid() && tip < MAX_HEIGHT
      modifies this`tip, this`diffs, this`diffDB, this`stored
      ensures Valid()
      ensures height != old(tip) + 1 ==>
                r == Failed(NotNext) && diffs == old(diffs) && diffDB == old(diffDB) && stored == old(stored)
      ensures height == old(tip) + 1 ==>
                && r == (if storeOk then Ok else Failed(StoreFailed))
                && diffs == old(diffs) + [diff]
                && diffDB == if storeOk then old(diffDB)[U64(height) := Item(EncodeDiff(diff), 0)] else old(diffDB)
      ensures old(Tracking()) && (height == old(tip) + 1 ==> WellFormed(Replay(old(diffs)), diff)) ==> Tracking()
      ensures old(Persisted()) && Fits(diff) && r != Failed(StoreFailed) ==> Persisted()
      ensures old(Persisted()) && Fits(diff) && r == Ok ==> stored == Overwritten(old(stored), height, diff)
      ensures r == Failed(StoreFailed) ==> stored == old(stored)
      ensures old(Persisted()) && r == Failed(StoreFailed) ==> (Persisted() <==> AlreadyStored(stored, |old(diffs)|, diff))
    {
      if height != tip + 1 {
        return Failed(NotNext);
      }
      GrowLog(diffs, diff, cursor);
      tip := tip + 1;
      diffs := diffs + [diff];
      if !storeOk {
        if old(Persisted()) { GrownPrefixIff(old(diffs), diff, stored); }
        return Failed(StoreFailed);
      }
      var value := Encode(diff);
      if old(Persisted()) && Fits(diff) {
        WriteKeeps(diffDB, stored, old(diffs), diff);
        stored := Overwritten(stored, height, diff);
      }
      diffDB := diffDB[U64(height) := Item(value, 0)];
      r := Ok;
    }

    /** AppendAndAdvancePool: one step of the cursor follows a successful write. */
    method AppendAndAdvancePool(diff: PoolDiff, height: int, storeOk: bool) returns (r: Outcome)
      requires Valid() && tip < MAX_HEIGHT
      modifies this
      ensures Valid()
      ensures diffs == if height == old(tip) + 1 then old(diffs) + [diff] else old(diffs)
      ensures cursor == if height == old(tip) + 1 && storeOk then old(cursor) + 1 else old(cursor)
      ensures old(Tracking()) && (height == old(tip) + 1 ==> WellFormed(Replay(old(diffs)), diff)) ==>
                Tracking() && (height == old(tip) + 1 && storeOk ==> r == Ok)
      ensures storeOk ==> r != Failed(StoreFailed)
      ensures height != old(tip) + 1 ==> r == Failed(NotNext)
      ensures old(Persisted()) && Fits(diff) && r != Failed(StoreFailed) ==> Persisted()
    {
      r := Append(diff, height, storeOk);
      if r == Ok {
        r := Advance();
      }
    }

    /** Pool: the live tickets at any connected height, wherever the cursor was. */
    method Pool(height: int) returns (r: Outcome, live: set<Hash>)
      requires Valid()
      modifies this`cursor, this`pool
      ensures Valid()
      ensures height > tip ==> r == Failed(BeyondTip) && cursor == old(cursor) && pool == old(pool)
      ensures height < 0 ==> r != Ok
      ensures old(Tracking()) ==> Tracking()
      ensures old(Tracking()) && 0 <= height <= tip ==>
                r == Ok && cursor == height && live == Replay(diffs[..height])
    {
      live := {};
      if height > tip {
        return Failed(BeyondTip), {};
      }
      while height > cursor
        invariant Valid() && (cursor <= height || cursor == old(cursor))
        invariant old(Tracking()) ==> Tracking()
        decreases height - cursor
      {
        r := Advance();
        if r != Ok {
          return;
        }
      }
      while cursor > height
        invariant Valid() && cursor >= height
        invariant old(Tracking()) ==> Tracking()
        decreases cursor
      {
        r := Retreat();
        if r != Ok {
          return;
        }
      }
      r, live := Ok, pool;
    }
  }

  /** NewTicketPool on a version 1 store: the loaded diffs, nothing replayed yet. */
  method NewTicketPool(items: seq<(seq<byte>, Item)>, db: Store) returns (tp: TicketPool?)
    requires Iterates(items, db)
    requires |items| < TWO_64 - 1
    ensures tp != null ==>
              && fresh(tp) && tp.Valid() && Reads(db, tp.diffs) && (ShortKeys(db) ==> tp.Persisted())
              && tp.stored == tp.diffs && tp.cursor == 0 && tp.pool == {} && tp.diffDB == db
    ensures forall full :: Reads(db, full) ==> tp != null && tp.diffs == full
  {
    var r := LoadAll(items, db);
    if r.Loaded? {
      ReadsIsHolds(db, r.diffs);
      tp := new TicketPool(r.diffs, db);
    } else {
      tp := null;
    }
  }

  // ---- Every interleaving of the operations, against a specification without a cursor ----

  datatype Op =
    | AppendOp(diff: PoolDiff, height: int, storeOk: bool)
    | AppendAdvanceOp(diff: PoolDiff, height: int, storeOk: bool)
    | TrimOp
    | ToTipOp
    | AskOp(height: int)

  function LogAfter(log: seq<PoolDiff>, op: Op): seq<PoolDiff> {
    match op
    case AppendOp(d, h, _) => if h == |log| + 1 then log + [d] else log
    case AppendAdvanceOp(d, h, _) => if h == |log| + 1 then log + [d] else log
    case TrimOp => if log == [] then [] else log[..|log| - 1]
    case ToTipOp => log
    case AskOp(_) => log
  }

  function LogAfterAll(log: seq<PoolDiff>, ops: seq<Op>): seq<PoolDiff>
    decreases |ops|
  {
    if ops == [] then log else LogAfterAll(LogAfter(log, ops[0]), ops[1..])
  }

  /** What the operation answers: a pool for an Ask within the log, and nothing otherwise. */
  function Answer(log: seq<PoolDiff>, op: Op): Option<set<Hash>> {
    if op.AskOp? && 0 <= op.height <= |log| then Some(Replay(log[..op.height])) else None
  }

  /** The diffs appended in the run are well-formed where they are appended. */
  predicate OpOk(log: seq<PoolDiff>, op: Op) {
    op.AppendOp? || op.AppendAdvanceOp? ==>
      |log| < MAX_HEIGHT && Fits(op.diff) && (op.height == |log| + 1 ==> WellFormed(Replay(log), op.diff))
  }

  predicate RunOk(log: seq<PoolDiff>, ops: seq<Op>)
    decreases |ops|
  {
    ops == [] || (OpOk(log, ops[0]) && RunOk(LogAfter(log, ops[0]), ops[1..]))
  }

  /** The operation does not fail to write to the store. */
  predicate StoreOk(log: seq<PoolDiff>, op: Op) {
    (op.AppendOp? || op.AppendAdvanceOp?) && op.height == |log| + 1 ==> op.storeOk
  }

  predicate StoresOk(log: seq<PoolDiff>, ops: seq<Op>)
    decreases |ops|
  {
    ops == [] || (StoreOk(log, ops[0]) && StoresOk(LogAfter(log, ops[0]), ops[1..]))
  }

  function Answers(log: seq<PoolDiff>, ops: seq<Op>): seq<Option<set<Hash>>>
    decreases |ops|
  {
    if ops == [] then [] else [Answer(log, ops[0])] + Answers(LogAfter(log, ops[0]), ops[1..])
  }

  method Perform(tp: TicketPool, op: Op) returns (answer: Option<set<Hash>>)
    requires tp.Valid() && tp.Tracking() && OpOk(tp.diffs, op)
    modifies tp
    ensures tp.Valid() && tp.Tracking()
    ensures old(tp.Persisted()) && StoreOk(old(tp.diffs), op) ==> tp.Persisted()
    ensures tp.diffs == LogAfter(old(tp.diffs), op)
    ensures answer == Answer(old(tp.diffs), op)
    ensures op.AskOp? && 0 <= op.height <= |tp.diffs| ==> answer == Some(Replay(tp.diffs[..op.height]))
    ensures (op.AppendOp? || op.AppendAdvanceOp?) && op.height == |old(tp.diffs)| + 1 ==> tp.diffs == old(tp.diffs) + [op.diff]
    ensures op.TrimOp? && old(tp.diffs) != [] ==> tp.diffs + [old(tp.diffs)[|old(tp.diffs)| - 1]] == old(tp.diffs)
  {
    answer := None;
    match op {
      case AppendOp(d, h, storeOk) => var _ := tp.Append(d, h, storeOk);
      case AppendAdvanceOp(d, h, storeOk) => var _ := tp.AppendAndAdvancePool(d, h, storeOk);
      case TrimOp => var _, _ := tp.Trim();
      case ToTipOp => var _, _ := tp.AdvanceToTip();
      case AskOp(h) =>
        var r, live := tp.Pool(h);
        answer := if r == Ok then Some(live) else None;
    }
  }

  /** Over every interleaving, failed stores included, the log and all answers are those of
      the specification that has no cursor. While no store fails the disk keeps a copy of the
      log. */
  method PerformAll(tp: TicketPool, ops: seq<Op>) returns (answers: seq<Option<set<Hash>>>)
    requires tp.Valid() && tp.Tracking() && RunOk(tp.diffs, ops)
    modifies tp
    ensures tp.Valid() && tp.Tracking()
    ensures old(tp.Persisted()) && StoresOk(old(tp.diffs), ops) ==> tp.Persisted()
    ensures tp.diffs == LogAfterAll(old(tp.diffs), ops)
    ensures answers == Answers(old(tp.diffs), ops)
    decreases |ops|
  {
    if ops == [] {
      return [];
    }
    var first := Perform(tp, ops[0]);
    var rest := PerformAll(tp, ops[1..]);
    answers := [first] + rest;
  }

  /** A run of one more operation: its log and its answer follow those of the run before. */
  lemma {:induction false} RunSnoc(log: seq<PoolDiff>, ops: seq<Op>, op: Op)
    ensures LogAfterAll(log, []) == log && Answers(log, []) == []
    ensures LogAfterAll(log, ops + [op]) == LogAfter(LogAfterAll(log, ops), op)
    ensures Answers(log, ops + [op]) == Answers(log, ops) + [Answer(LogAfterAll(log, ops), op)]
    decreases |ops|
  {
    if ops == [] {
      assert [] + [op] == [op] && [op][1..] == [];
    } else {
      assert (ops + [op])[0] == ops[0] && (ops + [op])[1..] == ops[1..] + [op];
      RunSnoc(LogAfter(log, ops[0]), ops[1..], op);
    }
  }

  /** Trimming and appending the returned diff again is invisible to every later run. */
  lemma TrimAppendRestores(log: seq<PoolDiff>, ops: seq<Op>)
    requires log != []
    ensures var again := [TrimOp, AppendOp(log[|log| - 1], |log|, true)];
            && LogAfterAll(log, again + ops) == LogAfterAll(log, ops)
            && Answers(log, again + ops) == [None, None] + Answers(log, ops)
  {
    var trimmed, back := log[..|log| - 1], AppendOp(log[|log| - 1], |log|, true);
    var run := [TrimOp, back] + ops;
    assert run[0] == TrimOp && LogAfter(log, TrimOp) == trimmed;
    assert run[1..][0] == back && LogAfter(trimmed, back) == log;
    assert run[1..][1..] == ops;
  }

  // ---- After a failed store ----

  /** A restart from this disk and a trim to the log's length gives the log. */
  ghost predicate CopyOnDisk(db: Store, log: seq<PoolDiff>) {
    exists full :: Reads(db, full) && log <= full
  }

  lemma CopyIsPrefix(db: Store, stored: seq<PoolDiff>, log: seq<PoolDiff>)
    requires Holds(db, stored)
    ensures Loadable(db) && (CopyOnDisk(db, log) <==> log <= stored)
    ensures forall full :: Reads(db, full) ==> full == stored
  {
    ReadsIsHolds(db, stored);
    forall full | Reads(db, full) ensures full == stored {
      ReadsUnique(db, full, stored);
    }
  }

  /** After a failed store the disk is still a copy of the log exactly when a stale entry of
      that height already held the lost diff. */
  method FailedStore(tp: TicketPool, lost: PoolDiff) returns (r: Outcome)
    requires tp.Valid() && tp.Persisted() && tp.tip < MAX_HEIGHT
    modifies tp
    ensures tp.Valid() && r == Failed(StoreFailed) && tp.diffs == old(tp.diffs) + [lost]
    ensures Loadable(tp.diffDB) && tp.diffDB == old(tp.diffDB)
    ensures CopyOnDisk(tp.diffDB, tp.diffs) <==> AlreadyStored(old(tp.stored), |old(tp.diffs)|, lost)
  {
    CopyIsPrefix(tp.diffDB, tp.stored, tp.diffs + [lost]);
    GrownPrefixIff(tp.diffs, lost, tp.stored);
    r := tp.Append(lost, tp.tip + 1, false);
  }

  lemma OverwrittenPrefixIff(log: seq<PoolDiff>, lost: PoolDiff, next: PoolDiff, stored: seq<PoolDiff>)
    requires log <= stored && |log| < |stored|
    ensures log + [lost, next] <= Overwritten(stored, |log| + 2, next) <==> stored[|log|] == lost
  {
    var all, disk := log + [lost, next], Overwritten(stored, |log| + 2, next);
    assert all[|log|] == lost && disk[|log|] == stored[|log|];
    if stored[|log|] == lost {
      assert disk[..|log| + 2] == all;
    }
  }

  /** A failed store, and then a successful one. Without a stale entry at the lost height there
      is a gap and nothing can be loaded. With one the store loads, and what it loads has the
      stale diff in the place of the lost one: it is the log in memory exactly when the two are
      equal. */
  method FailedThenStored(tp: TicketPool, lost: PoolDiff, next: PoolDiff) returns (first: Outcome, second: Outcome)
    requires tp.Valid() && tp.Persisted() && tp.tip + 2 < MAX_HEIGHT && Fits(next)
    modifies tp
    ensures first == Failed(StoreFailed) && second == Ok && tp.diffs == old(tp.diffs) + [lost, next]
    ensures Loadable(tp.diffDB) <==> |old(tp.diffs)| < |old(tp.stored)|
    ensures CopyOnDisk(tp.diffDB, tp.diffs) <==> AlreadyStored(old(tp.stored), |old(tp.diffs)|, lost)
    ensures forall full :: Reads(tp.diffDB, full) ==>
              |old(tp.diffs)| < |old(tp.stored)| && full == Overwritten(old(tp.stored), |old(tp.diffs)| + 2, next)
  {
    AfterGap(tp.diffDB, tp.stored, tp.diffs, lost, next);
    first := tp.Append(lost, tp.tip + 1, false);
    second := tp.Append(next, tp.tip + 1, true);
    assert tp.diffs == old(tp.diffs) + [lost, next];
  }

  /** What is on disk when the diff after a lost one is written. */
  lemma AfterGap(db: Store, stored: seq<PoolDiff>, log: seq<PoolDiff>, lost: PoolDiff, next: PoolDiff)
    requires Holds(db, stored) && log <= stored && |log| + 2 < TWO_64 && Fits(next)
    ensures var db' := db[U64(|log| + 2) := Item(EncodeDiff(next), 0)];
            && (Loadable(db') <==> |log| < |stored|)
            && (CopyOnDisk(db', log + [lost, next]) <==> AlreadyStored(stored, |log|, lost))
            && forall full :: Reads(db', full) ==> |log| < |stored| && full == Overwritten(stored, |log| + 2, next)
  {
    var db' := db[U64(|log| + 2) := Item(EncodeDiff(next), 0)];
    WriteLoadableIff(db, stored, |log| + 2, next);
    if |log| < |stored| {
      HoldsWrite(db, stored, |log| + 2, next);
      CopyIsPrefix(db', Overwritten(stored, |log| + 2, next), log + [lost, next]);
      OverwrittenPrefixIff(log, lost, next, stored);
    } else {
      assert forall full :: !Reads(db', full);
    }
  }

  const D1 := PoolDiff([1], [])
  const D2 := PoolDiff([2], [])
  const D3 := PoolDiff([3], [])

  /** A diff is stored and trimmed, another one is lost by a failed store, a third is stored:
      restart silently loads a log that was never in memory. */
  method StaleEntryMisleads(tp: TicketPool)
    requires tp.Valid() && tp.Persisted() && tp.diffs == [] && tp.stored == []
    modifies tp
    ensures tp.diffs == [D2, D3] && Loadable(tp.diffDB)
    ensures forall full :: Reads(tp.diffDB, full) ==> full == [D1, D3]
  {
    var _ := tp.Append(D1, 1, true);
    var _, _ := tp.Trim();
    assert tp.diffs == [] && tp.stored == [D1];
    var _, _ := FailedThenStored(tp, D2, D3);
    assert Overwritten([D1], 2, D3) == [D1, D3];
  }
}

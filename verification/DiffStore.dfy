/** The on-disk diff store: its contents, its loader and its rewrite (stakedb/ticketpool.go). */
module DiffStore {
  import opened Types
  import opened BigEndian
  import opened PoolDiffs
  import opened DiffCodec

  const TWO_64: nat := 0x1_0000_0000_0000_0000

  /** A stored value and its user meta byte; meta 1 marks the version entry. */
  datatype Item = Item(value: seq<byte>, meta: nat)

  type Store = map<seq<byte>, Item>

  /** The bytes of "version". */
  const VERSION_KEY: seq<byte> := [0x76, 0x65, 0x72, 0x73, 0x69, 0x6F, 0x6E]

  const VERSION_ITEM: Item := Item(Put(1, 4), 1)

  /** An 8-byte key whose height lies in 1..n. */
  predicate IsHeight(k: seq<byte>, n: nat) {
    |k| == 8 && 1 <= Get(k) <= n
  }

  /** Every entry the loader does not skip is keyed by a height in 1..n. */
  ghost predicate Keyed(db: Store, n: nat) {
    forall k :: k in db && db[k].meta != 1 ==> IsHeight(k, n)
  }

  /** `db` has the diff `d` stored under height `h`. */
  ghost predicate StoredAt(db: Store, h: nat, d: PoolDiff) {
    U64(h) in db && db[U64(h)].meta != 1 && Encodes(d, db[U64(h)].value)
  }

  /** The diff entries of `db` are the heights 1..|full|, each holding the diff of `full`. */
  ghost predicate Holds(db: Store, full: seq<PoolDiff>) {
    && |full| < TWO_64
    && Keyed(db, |full|)
    && forall i {:trigger EntryAt(db, full, i)} :: 0 <= i < |full| ==> EntryAt(db, full, i)
  }

  /** Height `i` + 1 holds diff `i`. */
  ghost predicate EntryAt(db: Store, full: seq<PoolDiff>, i: nat)
    requires i < |full|
  {
    StoredAt(db, i + 1, full[i])
  }

  lemma KeyIsHeight(key: seq<byte>, h: nat)
    requires |key| == 8 && h < TWO_64
    ensures Get(key) == h <==> key == U64(h)
  {
    U64RoundTrip(h);
    U64Get(key);
  }

  lemma U64Injective(a: nat, b: nat)
    requires a < TWO_64 && b < TWO_64 && U64(a) == U64(b)
    ensures a == b
  {
    U64RoundTrip(a);
    U64RoundTrip(b);
  }

  /** `full` with the diff of height `h` replaced, or added when `h` is one past the end. */
  function Overwritten(full: seq<PoolDiff>, h: nat, d: PoolDiff): (r: seq<PoolDiff>)
    requires 1 <= h <= |full| + 1
    ensures |r| == if h <= |full| then |full| else h
    ensures forall i :: 0 <= i < |r| ==> r[i] == if i == h - 1 then d else full[i]
  {
    if h <= |full| then full[h - 1 := d] else full + [d]
  }

  /** Writing the entry of a height up to one past the end overwrites or extends. */
  lemma HoldsWrite(db: Store, full: seq<PoolDiff>, h: nat, d: PoolDiff)
    requires Holds(db, full) && 1 <= h <= |full| + 1 && h < TWO_64 && Fits(d)
    ensures Holds(db[U64(h) := Item(EncodeDiff(d), 0)], Overwritten(full, h, d))
  {
    var db', full' := db[U64(h) := Item(EncodeDiff(d), 0)], Overwritten(full, h, d);
    forall k | k in db' && db'[k].meta != 1 ensures IsHeight(k, |full'|) {
      if k == U64(h) { U64RoundTrip(h); } else { assert IsHeight(k, |full|); }
    }
    forall i | 0 <= i < |full'| ensures EntryAt(db', full', i) {
      if i != h - 1 {
        assert EntryAt(db, full, i);
        if U64(i + 1) == U64(h) { U64Injective(i + 1, h); }
      }
    }
  }

  // ---- What the loader reads ----

  /** The loader takes the first eight bytes of a key for the height, however long the key is. */
  function Head(key: seq<byte>): seq<byte> {
    if |key| < 8 then key else key[..8]
  }

  /** A key of at least eight bytes whose head is a height in 1..n. */
  predicate ReadsAs(key: seq<byte>, n: nat) {
    |key| >= 8 && 1 <= Get(Head(key)) <= n
  }

  /** The entry under `key` reads as height `h` and holds `d`. */
  ghost predicate ReadAt(db: Store, key: seq<byte>, h: nat, d: PoolDiff) {
    key in db && db[key].meta != 1 && |key| >= 8 && Head(key) == U64(h) && Encodes(d, db[key].value)
  }

  ghost predicate Readable(db: Store, h: nat, d: PoolDiff) {
    exists key :: ReadAt(db, key, h, d)
  }

  /** No two diff entries read as the same height. */
  ghost predicate HeadsDistinct(db: Store) {
    forall k, l :: k in db && l in db && db[k].meta != 1 && db[l].meta != 1 && Head(k) == Head(l) ==> k == l
  }

  /** The diff entries of `db` read as the heights 1..|full|, each once and holding the diff of
      `full`. */
  ghost predicate Reads(db: Store, full: seq<PoolDiff>) {
    && |full| < TWO_64
    && (forall k :: k in db && db[k].meta != 1 ==> ReadsAs(k, |full|))
    && HeadsDistinct(db)
    && (forall i :: 0 <= i < |full| ==> Readable(db, i + 1, full[i]))
  }

  /** Every diff key is as long as the keys that Append writes. */
  ghost predicate ShortKeys(db: Store) {
    forall k :: k in db && db[k].meta != 1 ==> |k| == 8
  }

  /** With keys of eight bytes, what is read is what is held. */
  lemma ReadsIsHolds(db: Store, full: seq<PoolDiff>)
    ensures Holds(db, full) <==> Reads(db, full) && ShortKeys(db)
  {
    if Holds(db, full) {
      forall k | k in db && db[k].meta != 1 ensures |k| == 8 && ReadsAs(k, |full|) {
        assert IsHeight(k, |full|);
        assert k[..8] == k;
      }
      forall i | 0 <= i < |full| ensures Readable(db, i + 1, full[i]) {
        assert EntryAt(db, full, i);
        assert U64(i + 1)[..8] == U64(i + 1);
        assert ReadAt(db, U64(i + 1), i + 1, full[i]);
      }
    }
    if Reads(db, full) && ShortKeys(db) {
      forall k | k in db && db[k].meta != 1 ensures IsHeight(k, |full|) {
        assert ReadsAs(k, |full|);
        assert k[..8] == k;
      }
      forall i | 0 <= i < |full| ensures EntryAt(db, full, i) {
        assert Readable(db, i + 1, full[i]);
        var key :| ReadAt(db, key, i + 1, full[i]);
        assert key[..8] == key;
      }
    }
  }

  ghost predicate Loadable(db: Store) {
    exists full :: Reads(db, full)
  }

  /** A write past the next height leaves a gap that no loader gets over. */
  lemma GapIsUnreadable(db: Store, full: seq<PoolDiff>, h: nat, d: PoolDiff, other: seq<PoolDiff>)
    requires Holds(db, full) && |full| + 1 < h < TWO_64
    ensures !Reads(db[U64(h) := Item(EncodeDiff(d), 0)], other)
  {
    var db', n := db[U64(h) := Item(EncodeDiff(d), 0)], |full| + 1;
    U64RoundTrip(h);
    U64RoundTrip(n);
    assert U64(h)[..8] == U64(h);
    forall k | k in db' && db'[k].meta != 1 ensures Head(k) != U64(n) {
      if k != U64(h) {
        assert IsHeight(k, |full|);
        assert k[..8] == k;
      }
    }
    assert forall e :: !Readable(db', n, e);
    if h <= |other| {
      assert !Readable(db', n, other[n - 1]);
    } else {
      assert !ReadsAs(U64(h), |other|);
    }
  }

  /** A write keeps a store loadable exactly when it is not past the next height. Append does
      write past it after a store has failed: the failed diff stays in the log. */
  lemma WriteLoadableIff(db: Store, full: seq<PoolDiff>, h: nat, d: PoolDiff)
    requires Holds(db, full) && 1 <= h < TWO_64 && Fits(d)
    ensures Loadable(db[U64(h) := Item(EncodeDiff(d), 0)]) <==> h <= |full| + 1
  {
    var db' := db[U64(h) := Item(EncodeDiff(d), 0)];
    if h <= |full| + 1 {
      HoldsWrite(db, full, h, d);
      ReadsIsHolds(db', Overwritten(full, h, d));
    } else {
      forall other ensures !Reads(db', other) {
        GapIsUnreadable(db, full, h, d, other);
      }
    }
  }

  /** The contents of a store determine what is read from it. */
  lemma ReadsUnique(db: Store, a: seq<PoolDiff>, b: seq<PoolDiff>)
    requires Reads(db, a) && Reads(db, b)
    ensures a == b
  {
    ReadsAtMost(db, a, b);
    ReadsAtMost(db, b, a);
    forall i | 0 <= i < |a| ensures a[i] == b[i] {
      assert Readable(db, i + 1, a[i]) && Readable(db, i + 1, b[i]);
      var k :| ReadAt(db, k, i + 1, a[i]);
      var l :| ReadAt(db, l, i + 1, b[i]);
      assert k == l;
      EncodeInjective(a[i], b[i]);
    }
  }

  lemma ReadsAtMost(db: Store, a: seq<PoolDiff>, b: seq<PoolDiff>)
    requires Reads(db, a) && Reads(db, b)
    ensures |a| <= |b|
  {
    if |a| > 0 {
      assert Readable(db, |a|, a[|a| - 1]);
      var k :| ReadAt(db, k, |a|, a[|a| - 1]);
      assert ReadsAs(k, |b|);
      U64RoundTrip(|a|);
    }
  }

  /** The store's iterator: every entry once, in key order. */
  ghost predicate Iterates(items: seq<(seq<byte>, Item)>, db: Store) {
    && (forall i, j {:trigger LexLess(items[i].0, items[j].0)} :: 0 <= i < j < |items| ==> LexLess(items[i].0, items[j].0))
    && (forall i :: 0 <= i < |items| ==> items[i].0 in db && db[items[i].0] == items[i].1)
    && (forall k :: k in db ==> exists i :: 0 <= i < |items| && items[i].0 == k)
  }

  /** The entry that follows height `last`, holding `d`. */
  ghost predicate IsEntry(key: seq<byte>, value: seq<byte>, last: nat, d: PoolDiff) {
    |key| >= 8 && Head(key) == U64(last + 1) && Encodes(d, value)
  }

  datatype LoadResult = Loaded(diffs: seq<PoolDiff>, heights: seq<int>) | LoadFailed | LoadPanicked

  /** Item `j` is a diff entry. */
  predicate IsDiff(items: seq<(seq<byte>, Item)>, j: nat)
    requires j < |items|
  {
    items[j].1.meta != 1
  }

  /** The diff entries among the first `i` items read as heights in 1..n, each once. */
  ghost predicate HeadsRead(items: seq<(seq<byte>, Item)>, i: nat, n: nat)
    requires i <= |items|
  {
    && (forall j {:trigger IsDiff(items, j)} :: 0 <= j < i && IsDiff(items, j) ==> ReadsAs(items[j].0, n))
    && (forall j, k {:trigger IsDiff(items, j), IsDiff(items, k)} ::
          0 <= j < k < i && IsDiff(items, j) && IsDiff(items, k) ==> Head(items[j].0) != Head(items[k].0))
  }

  /** Height `n` is among the first `i` items. */
  ghost predicate HeightRead(items: seq<(seq<byte>, Item)>, i: nat, n: nat)
    requires i <= |items|
  {
    exists j :: 0 <= j < i && IsDiff(items, j) && Head(items[j].0) == U64(n)
  }

  ghost predicate AllReadable(db: Store, diffs: seq<PoolDiff>) {
    forall i :: 0 <= i < |diffs| ==> Readable(db, i + 1, diffs[i])
  }

  /** The diffs read from the first `i` items are the heights 1..|diffs|, and no others. */
  ghost predicate ReadSoFar(items: seq<(seq<byte>, Item)>, db: Store, i: nat, diffs: seq<PoolDiff>)
    requires i <= |items|
  {
    && HeadsRead(items, i, |diffs|)
    && AllReadable(db, diffs)
    && (diffs == [] || HeightRead(items, i, |diffs|))
  }

  lemma HeadsStep(items: seq<(seq<byte>, Item)>, i: nat, n: nat)
    requires i < |items| && n + 1 < TWO_64 && HeadsRead(items, i, n)
    requires |items[i].0| >= 8 && Head(items[i].0) == U64(n + 1)
    ensures HeadsRead(items, i + 1, n + 1)
  {
    U64RoundTrip(n + 1);
    forall j | 0 <= j < i + 1 && IsDiff(items, j)
      ensures ReadsAs(items[j].0, n + 1) && (j < i ==> Head(items[j].0) != Head(items[i].0))
    {
      if j < i { assert ReadsAs(items[j].0, n); }
    }
  }

  lemma ReadStep(items: seq<(seq<byte>, Item)>, db: Store, i: nat, diffs: seq<PoolDiff>, d: PoolDiff)
    requires i < |items| && items[i].0 in db && db[items[i].0] == items[i].1 && IsDiff(items, i)
    requires |diffs| + 1 < TWO_64 && ReadSoFar(items, db, i, diffs)
    requires IsEntry(items[i].0, items[i].1.value, |diffs|, d)
    ensures ReadSoFar(items, db, i + 1, diffs + [d])
  {
    HeadsStep(items, i, |diffs|);
    assert ReadAt(db, items[i].0, |diffs| + 1, d);
    assert HeightRead(items, i + 1, |diffs| + 1);
  }

  lemma SkipStep(items: seq<(seq<byte>, Item)>, db: Store, i: nat, diffs: seq<PoolDiff>)
    requires i < |items| && !IsDiff(items, i) && ReadSoFar(items, db, i, diffs)
    ensures ReadSoFar(items, db, i + 1, diffs)
  {
  }

  /** In key order an earlier diff entry does not read as a greater height. */
  lemma ItemsAscend(items: seq<(seq<byte>, Item)>, db: Store, i: nat, j: nat)
    requires Iterates(items, db) && i < j < |items|
    requires |items[i].0| >= 8 && |items[j].0| >= 8
    ensures Get(Head(items[i].0)) <= Get(Head(items[j].0)) && items[i].0 != items[j].0
  {
    assert LexLess(items[i].0, items[j].0);
    LexHeads(items[i].0, items[j].0, 8);
    LexIsNumeric(Head(items[j].0), Head(items[i].0));
    LexIrreflexive(items[i].0);
  }

  /** If the store reads as the heights 1..m and 1..n have been read, the next key is n + 1. */
  lemma NextHeight(items: seq<(seq<byte>, Item)>, db: Store, i: nat, diffs: seq<PoolDiff>, full: seq<PoolDiff>)
    requires Iterates(items, db) && Reads(db, full)
    requires i < |items| && IsDiff(items, i)
    requires |diffs| + 1 < TWO_64 && ReadSoFar(items, db, i, diffs)
    ensures |diffs| < |full| && IsEntry(items[i].0, items[i].1.value, |diffs|, full[|diffs|])
  {
    var n, key := |diffs|, items[i].0;
    assert ReadsAs(key, |full|);
    LaterIsHigher(items, db, i, diffs);
    assert Readable(db, n + 1, full[n]);
    var k :| ReadAt(db, k, n + 1, full[n]);
    NotBefore(items, db, i, diffs, k);
    var j :| i <= j < |items| && items[j].0 == k;
    KeyIsHeight(Head(k), n + 1);
    KeyIsHeight(Head(key), n + 1);
    if j > i { ItemsAscend(items, db, i, j); }
  }

  /** The entry of the next height has not been read yet. */
  lemma NotBefore(items: seq<(seq<byte>, Item)>, db: Store, i: nat, diffs: seq<PoolDiff>, k: seq<byte>)
    requires Iterates(items, db) && i <= |items| && |diffs| + 1 < TWO_64 && ReadSoFar(items, db, i, diffs)
    requires k in db && db[k].meta != 1 && |k| >= 8 && Head(k) == U64(|diffs| + 1)
    ensures exists j :: i <= j < |items| && items[j].0 == k
  {
    var j :| 0 <= j < |items| && items[j].0 == k;
    U64RoundTrip(|diffs| + 1);
    assert IsDiff(items, j);
  }

  lemma LaterIsHigher(items: seq<(seq<byte>, Item)>, db: Store, i: nat, diffs: seq<PoolDiff>)
    requires Iterates(items, db) && HeadsDistinct(db) && i < |items| && IsDiff(items, i)
    requires |items[i].0| >= 8 && Get(Head(items[i].0)) >= 1
    requires |diffs| < TWO_64 && ReadSoFar(items, db, i, diffs)
    ensures Get(Head(items[i].0)) > |diffs|
  {
    if diffs != [] {
      var j :| 0 <= j < i && IsDiff(items, j) && Head(items[j].0) == U64(|diffs|);
      assert ReadsAs(items[j].0, |diffs|);
      U64RoundTrip(|diffs|);
      ItemsAscend(items, db, j, i);
      KeyIsHeight(Head(items[i].0), |diffs|);
    }
  }

  /** The heights 1, 2, .., n. */
  predicate OneTo(heights: seq<int>, n: nat) {
    |heights| == n && forall i :: 0 <= i < n ==> heights[i] == i + 1
  }

  lemma OneToSnoc(heights: seq<int>, n: nat)
    requires OneTo(heights, n)
    ensures OneTo(heights + [n + 1], n + 1)
  {
  }

  datatype EntryResult = Entry(diff: PoolDiff) | Undecodable | Broken

  /** One turn of the loader: read the height off the key, which panics on a key of less than
      eight bytes, decode the value, then check that the height follows `last`. */
  method ReadEntry(key: seq<byte>, value: seq<byte>, last: nat) returns (r: EntryResult)
    requires last + 1 < TWO_64
    ensures r.Entry? ==> IsEntry(key, value, last, r.diff)
    ensures forall d :: IsEntry(key, value, last, d) ==> r == Entry(d)
    ensures |key| < 8 ==> r == Broken
  {
    if |key| < 8 {
      return Broken;
    }
    var height := Get(key[..8]);
    var v := Decode(value);
    KeyIsHeight(key[..8], last + 1);
    match v {
      case Rejected => r := Undecodable;
      case Crashed => r := Broken;
      case Diff(d) => r := if (last + 1) % TWO_64 != height then Broken else Entry(d);
    }
  }

  /** loadAllPoolDiffsV1: it succeeds exactly on stores whose diff entries read as the heights
      1..n with decodable values, and returns those diffs in height order. */
  method LoadAll(items: seq<(seq<byte>, Item)>, ghost db: Store) returns (r: LoadResult)
    requires Iterates(items, db)
    requires |items| < TWO_64 - 1
    ensures r.Loaded? ==> Reads(db, r.diffs) && OneTo(r.heights, |r.diffs|)
    ensures forall full :: Reads(db, full) ==> r.Loaded? && r.diffs == full
  {
    var diffs: seq<PoolDiff>, heights: seq<int>, last: nat := [], [], 0;
    for i := 0 to |items|
      invariant last == |diffs| <= i && OneTo(heights, |diffs|)
      invariant ReadSoFar(items, db, i, diffs)
    {
      if items[i].1.meta == 1 {
        SkipStep(items, db, i, diffs);
        continue;
      }
      assert IsDiff(items, i);
      var entry := ReadEntry(items[i].0, items[i].1.value, last);
      if !entry.Entry? {
        forall full | Reads(db, full) ensures false {
          NextHeight(items, db, i, diffs, full);
        }
        return if entry.Undecodable? then LoadFailed else LoadPanicked;
      }
      ReadStep(items, db, i, diffs, entry.diff);
      OneToSnoc(heights, last);
      diffs, heights, last := diffs + [entry.diff], heights + [last + 1], last + 1;
    }
    r := Loaded(diffs, heights);
    AllRead(items, db, diffs);
    forall full | Reads(db, full) ensures diffs == full {
      ReadsUnique(db, diffs, full);
    }
  }

  lemma AllRead(items: seq<(seq<byte>, Item)>, db: Store, diffs: seq<PoolDiff>)
    requires Iterates(items, db) && ReadSoFar(items, db, |items|, diffs) && |diffs| < TWO_64
    ensures Reads(db, diffs)
  {
    forall k | k in db && db[k].meta != 1 ensures ReadsAs(k, |diffs|) {
      var i :| 0 <= i < |items| && items[i].0 == k;
      assert IsDiff(items, i);
    }
    forall k, l | k in db && l in db && db[k].meta != 1 && db[l].meta != 1 && Head(k) == Head(l) ensures k == l {
      var i :| 0 <= i < |items| && items[i].0 == k;
      var j :| 0 <= j < |items| && items[j].0 == l;
      assert IsDiff(items, i) && IsDiff(items, j);
    }
  }

  // ---- rewriteDB ----

  /** What the store says to one write of the rewrite: accepted, or refused because the
      transaction is too big, followed by what commit and retry say. */
  datatype WriteReply = Accepted | TooBig(commitOk: bool, retryOk: bool) | Refused

  predicate Succeeds(reply: WriteReply) {
    reply.Accepted? || (reply.TooBig? && reply.commitOk && reply.retryOk)
  }

  /** The version entry and the first `n` diffs under their heights, later ones winning. */
  function Written(diffs: seq<PoolDiff>, heights: seq<int>, n: nat): Store
    requires n <= |heights| == |diffs|
    requires forall i :: 0 <= i < |heights| ==> heights[i] >= 0
  {
    if n == 0 then map[VERSION_KEY := VERSION_ITEM]
    else Written(diffs, heights, n - 1)[U64(heights[n - 1]) := Item(EncodeDiff(diffs[n - 1]), 0)]
  }

  /** No height overwrites the version entry, whose key is seven bytes long. */
  lemma {:induction false} WrittenVersion(diffs: seq<PoolDiff>, heights: seq<int>, n: nat)
    requires n <= |heights| == |diffs|
    requires forall i :: 0 <= i < |heights| ==> heights[i] >= 0
    ensures VERSION_KEY in Written(diffs, heights, n) && Written(diffs, heights, n)[VERSION_KEY] == Item([0, 0, 0, 1], 1)
  {
    if n == 0 {
      assert Put(1, 4) == [0, 0, 0, 1];
    } else {
      WrittenVersion(diffs, heights, n - 1);
      assert |U64(heights[n - 1])| == 8 && |VERSION_KEY| == 7;
    }
  }

  lemma UnionUpdate(a: Store, b: Store, k: seq<byte>, v: Item)
    ensures a + b[k := v] == (a + b)[k := v]
    ensures a + map[k := v] == a[k := v]
  {
  }

  /** rewriteDB: wherever the transactions are split, the same contents are stored. `before` is
      what is dropped first; the flags say whether dropping, writing the version entry and the
      last commit succeed. */
  method RewriteDB(before: Store, dropOk: bool, versionOk: bool, diffs: seq<PoolDiff>, heights: seq<int>,
                   replies: seq<WriteReply>, lastCommitOk: bool)
    returns (ok: bool, db: Store)
    requires |diffs| == |heights| == |replies|
    requires forall i :: 0 <= i < |heights| ==> heights[i] >= 0
    ensures ok <==> dropOk && versionOk && lastCommitOk && forall i :: 0 <= i < |replies| ==> Succeeds(replies[i])
    ensures ok ==> db == Written(diffs, heights, |diffs|)
    ensures ok ==> VERSION_KEY in db && db[VERSION_KEY] == Item([0, 0, 0, 1], 1)
    ensures !dropOk ==> db == before
    ensures dropOk && !versionOk ==> db == map[]
  {
    if !dropOk {
      return false, before;
    }
    db := map[];
    if !versionOk {
      return false, db;
    }
    var txn: Store := map[VERSION_KEY := VERSION_ITEM];
    for i := 0 to |heights|
      invariant forall j :: 0 <= j < i ==> Succeeds(replies[j])
      invariant db + txn == Written(diffs, heights, i)
    {
      var key, item := U64(heights[i]), Item(EncodeDiff(diffs[i]), 0);
      UnionUpdate(db, txn, key, item);
      UnionUpdate(db + txn, map[], key, item);
      match replies[i] {
        case Accepted =>
          txn := txn[key := item];
        case TooBig(commitOk, retryOk) =>
          if !commitOk { return false, db; }
          db, txn := db + txn, map[];
          if !retryOk { return false, db; }
          txn := map[key := item];
        case Refused =>
          return false, db;
      }
    }
    ok := lastCommitOk;
    WrittenVersion(diffs, heights, |diffs|);
    if ok {
      db := db + txn;
    }
  }

  lemma EmptyHolds()
    ensures Holds(map[VERSION_KEY := VERSION_ITEM], [])
  {
  }

  lemma RewriteStep(before: Store, diffs: seq<PoolDiff>, n: nat)
    requires 1 <= n <= |diffs| < TWO_64 && Fits(diffs[n - 1]) && Holds(before, diffs[..n - 1])
    ensures Holds(before[U64(n) := Item(EncodeDiff(diffs[n - 1]), 0)], diffs[..n])
  {
    HoldsWrite(before, diffs[..n - 1], n, diffs[n - 1]);
    assert Overwritten(diffs[..n - 1], n, diffs[n - 1]) == diffs[..n];
  }

  lemma WrittenNext(diffs: seq<PoolDiff>, heights: seq<int>, n: nat)
    requires OneTo(heights, |diffs|) && 1 <= n <= |diffs|
    ensures Written(diffs, heights, n) == Written(diffs, heights, n - 1)[U64(n) := Item(EncodeDiff(diffs[n - 1]), 0)]
  {
    assert heights[n - 1] == n;
  }

  /** A rewrite of the heights 1..n leaves a store from which the loader reads the same diffs. */
  lemma {:induction false} RewriteHolds(diffs: seq<PoolDiff>, heights: seq<int>, n: nat)
    requires OneTo(heights, |diffs|) && |diffs| < TWO_64 && n <= |diffs|
    requires forall d :: d in diffs ==> Fits(d)
    ensures Holds(Written(diffs, heights, n), diffs[..n])
  {
    if n == 0 {
      EmptyHolds();
    } else {
      RewriteHolds(diffs, heights, n - 1);
      RewriteStep(Written(diffs, heights, n - 1), diffs, n);
      WrittenNext(diffs, heights, n);
    }
  }
}

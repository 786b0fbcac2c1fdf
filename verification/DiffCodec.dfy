/** The binary form of a PoolDiff and its reader (stakedb/ticketpool.go). */
module DiffCodec {
  import opened Types
  import opened BigEndian
  import opened PoolDiffs

  /** The largest allocation the Go runtime grants; `make` panics above it. */
  const MAX_ALLOC: nat := 0x1_0000_0000_0000

  /** Both slices of a diff that exists in memory fit the address space. */
  predicate Fits(d: PoolDiff) {
    |d.ins| * HASH_SIZE <= MAX_ALLOC && |d.outs| * HASH_SIZE <= MAX_ALLOC
  }

  /** Concatenated hashes. */
  function Flat(hs: seq<Hash>): (r: seq<byte>)
    ensures |r| == HASH_SIZE * |hs|
  {
    if hs == [] then [] else Flat(hs[..|hs| - 1]) + HashBytes(hs[|hs| - 1])
  }

  function EncodeDiff(d: PoolDiff): (r: seq<byte>)
    ensures |r| == 16 + HASH_SIZE * (|d.ins| + |d.outs|)
  {
    U64(|d.ins|) + Flat(d.ins) + U64(|d.outs|) + Flat(d.outs)
  }

  predicate Encodes(d: PoolDiff, v: seq<byte>) {
    Fits(d) && EncodeDiff(d) == v
  }

  lemma FlatSnoc(hs: seq<Hash>, h: Hash)
    ensures Flat(hs + [h]) == Flat(hs) + HashBytes(h)
  {
    assert (hs + [h])[..|hs|] == hs;
  }

  lemma {:induction false} FlatInjective(a: seq<Hash>, b: seq<Hash>)
    requires Flat(a) == Flat(b)
    ensures a == b
  {
    if a != [] && b != [] {
      var n := |a| - 1;
      assert |Flat(a)| == HASH_SIZE * |a| && |Flat(b)| == HASH_SIZE * |b|;
      assert |a| == |b|;
      assert Flat(a)[..HASH_SIZE * n] == Flat(a[..n]);
      assert Flat(b)[..HASH_SIZE * n] == Flat(b[..n]);
      assert Flat(a)[HASH_SIZE * n..] == HashBytes(a[n]);
      assert Flat(b)[HASH_SIZE * n..] == HashBytes(b[n]);
      HashBytesInjective(a[n], b[n]);
      FlatInjective(a[..n], b[..n]);
      assert a == a[..n] + [a[n]] && b == b[..n] + [b[n]];
    }
  }

  /** Where the four fields of an encoded diff lie. */
  lemma EncodedShape(d: PoolDiff)
    requires Fits(d)
    ensures var v, mid := EncodeDiff(d), 8 + HASH_SIZE * |d.ins|;
            && mid + 8 <= |v|
            && Get(v[..8]) == |d.ins|
            && v[8..mid] == Flat(d.ins)
            && Get(v[mid..mid + 8]) == |d.outs|
            && v[mid + 8..] == Flat(d.outs)
  {
    var v, mid := EncodeDiff(d), 8 + HASH_SIZE * |d.ins|;
    U64RoundTrip(|d.ins|);
    U64RoundTrip(|d.outs|);
    assert v[..8] == U64(|d.ins|);
    assert v[mid..mid + 8] == U64(|d.outs|);
  }

  /** Two diffs with the same encoding are the same diff. */
  lemma EncodeInjective(d: PoolDiff, e: PoolDiff)
    requires Fits(d) && Fits(e)
    requires EncodeDiff(d) == EncodeDiff(e)
    ensures d == e
  {
    EncodedShape(d);
    EncodedShape(e);
    FlatInjective(d.ins, e.ins);
    FlatInjective(d.outs, e.outs);
  }

  /** Appends the hashes to the buffer one by one. */
  method PutHashes(head: seq<byte>, hs: seq<Hash>) returns (buf: seq<byte>)
    ensures buf == head + Flat(hs)
  {
    buf := head;
    for i := 0 to |hs|
      invariant buf == head + Flat(hs[..i])
    {
      FlatSnoc(hs[..i], hs[i]);
      assert hs[..i + 1] == hs[..i] + [hs[i]];
      buf := buf + HashBytes(hs[i]);
    }
    assert hs[..|hs|] == hs;
  }

  /** encodeDiff: the buffer grows by one field at a time and has the promised length. */
  method Encode(d: PoolDiff) returns (buf: seq<byte>)
    ensures buf == EncodeDiff(d)
    ensures |buf| == 16 + HASH_SIZE * (|d.ins| + |d.outs|)
  {
    buf := PutHashes(U64(|d.ins|), d.ins);
    buf := PutHashes(buf + U64(|d.outs|), d.outs);
  }

  /** Conversion to a signed 64-bit integer, wrapping as Go does. */
  function Int64(x: int): (r: int)
    ensures -0x8000_0000_0000_0000 <= r < 0x8000_0000_0000_0000
    ensures -0x8000_0000_0000_0000 <= x < 0x8000_0000_0000_0000 ==> r == x
  {
    (x + 0x8000_0000_0000_0000) % 0x1_0000_0000_0000_0000 - 0x8000_0000_0000_0000
  }

  /** Where the reader looks for the number of outgoing hashes. */
  function OutLenOffset(inLen: nat): (r: int)
    ensures inLen * HASH_SIZE <= MAX_ALLOC ==> r == 8 + HASH_SIZE * inLen
  {
    Int64(8 + Int64(Int64(inLen) * HASH_SIZE))
  }

  /** What reading one stored value comes to. `Crashed` is a failed `make`. */
  datatype Decoded = Diff(diff: PoolDiff) | Rejected | Crashed

  /** Reads up to `n` hashes from `v` starting at `pos`; stops at the end of the value. */
  method ReadHashes(v: seq<byte>, start: nat, n: nat) returns (ok: bool, hs: seq<Hash>, pos: nat)
    requires start <= |v|
    ensures ok <==> start + HASH_SIZE * n <= |v|
    ensures ok ==> pos == start + HASH_SIZE * n && |hs| == n && Flat(hs) == v[start..pos]
  {
    ok, hs, pos := true, [], start;
    for i := 0 to n
      invariant pos == start + HASH_SIZE * i <= |v|
      invariant ok && |hs| == i && Flat(hs) == v[start..pos]
    {
      if pos + HASH_SIZE > |v| {
        assert HASH_SIZE * (i + 1) <= HASH_SIZE * n;
        return false, hs, pos;
      }
      var h := HashOf(v[pos..pos + HASH_SIZE]);
      FlatSnoc(hs, h);
      hs := hs + [h];
      pos := pos + HASH_SIZE;
    }
  }

  /** A value whose four fields have been read is the encoding of what was read. */
  lemma Assembled(v: seq<byte>, mid: nat, ins: seq<Hash>, outs: seq<Hash>)
    requires 8 <= mid && mid + 8 <= |v|
    requires Get(v[..8]) == |ins| && v[8..mid] == Flat(ins)
    requires Get(v[mid..mid + 8]) == |outs| && v[mid + 8..] == Flat(outs)
    ensures EncodeDiff(PoolDiff(ins, outs)) == v
  {
    assert v[..8] == U64(|ins|) by { U64Get(v[..8]); }
    assert v[mid..mid + 8] == U64(|outs|) by { U64Get(v[mid..mid + 8]); }
    FourParts(v, mid);
  }

  lemma FourParts(v: seq<byte>, mid: nat)
    requires 8 <= mid && mid + 8 <= |v|
    ensures v == v[..8] + v[8..mid] + v[mid..mid + 8] + v[mid + 8..]
  {
  }

  /** The value reader inside loadAllPoolDiffsV1: it accepts a byte string exactly when
      that string is the encoding of a diff, and returns that diff. */
  method Decode(v: seq<byte>) returns (r: Decoded)
    ensures r.Diff? ==> Encodes(r.diff, v)
    ensures forall d: PoolDiff :: Encodes(d, v) ==> r == Diff(d)
  {
    forall d: PoolDiff | Encodes(d, v)
      ensures 16 + HASH_SIZE * (|d.ins| + |d.outs|) == |v| && Get(v[..8]) == |d.ins|
    {
      EncodedShape(d);
    }
    if |v| < 8 {
      return Rejected;
    }
    var inLen := Get(v[..8]);
    var off := OutLenOffset(inLen);
    if off < 0 || off + 8 > |v| {
      return Rejected;
    }
    var outLen := Get(v[off..off + 8]);
    forall d: PoolDiff | Encodes(d, v) ensures |d.outs| == outLen {
      EncodedShape(d);
    }
    if inLen * HASH_SIZE > MAX_ALLOC || outLen * HASH_SIZE > MAX_ALLOC {
      return Crashed;
    }
    r := DecodeBody(v, inLen, outLen);
  }

  /** The second half of the reader: the hashes themselves, and nothing after them. */
  method DecodeBody(v: seq<byte>, inLen: nat, outLen: nat) returns (r: Decoded)
    requires inLen * HASH_SIZE <= MAX_ALLOC && outLen * HASH_SIZE <= MAX_ALLOC
    requires 16 + HASH_SIZE * inLen <= |v| && Get(v[..8]) == inLen
    requires Get(v[8 + HASH_SIZE * inLen..16 + HASH_SIZE * inLen]) == outLen
    ensures r.Diff? <==> |v| == 16 + HASH_SIZE * (inLen + outLen)
    ensures r.Diff? ==> Encodes(r.diff, v)
    ensures forall d: PoolDiff :: Encodes(d, v) && r.Diff? ==> r == Diff(d)
  {
    var ok, ins, mid := ReadHashes(v, 8, inLen);
    var outs, end;
    ok, outs, end := ReadHashes(v, mid + 8, outLen);
    if !ok || end != |v| {
      return Rejected;
    }
    r := Diff(PoolDiff(ins, outs));
    assert v[mid + 8..end] == v[mid + 8..];
    Assembled(v, mid, ins, outs);
    forall d: PoolDiff | Encodes(d, v) ensures r == Diff(d) {
      EncodeInjective(d, r.diff);
    }
  }
}

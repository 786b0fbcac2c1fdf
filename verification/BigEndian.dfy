/** Big-endian integers, as the height keys and the length fields of the diff store use them. */
module BigEndian {
  import opened Types
  import opened Arith

  function Pow256(n: nat): nat {
    if n == 0 then 1 else 256 * Pow256(n - 1)
  }

  /** The `n` low-order bytes of `v`, most significant first. */
  function Put(v: nat, n: nat): (r: seq<byte>)
    ensures |r| == n
  {
    if n == 0 then [] else Put(v / 256, n - 1) + [(v % 256) as byte]
  }

  function Get(s: seq<byte>): nat {
    if s == [] then 0 else 256 * Get(s[..|s| - 1]) + s[|s| - 1] as nat
  }

  lemma PowPositive(n: nat)
    ensures Pow256(n) > 0
  {
  }

  /** The `k`-th byte of `v`, counted from the least significant. */
  function ByteAt(v: nat, k: nat): byte {
    PowPositive(k);
    ((v / Pow256(k)) % 256) as byte
  }

  /** uint64Bytes: the eight bytes of `v`, most significant first. */
  function U64(v: nat): (r: seq<byte>)
    ensures |r| == 8
  {
    seq(8, i requires 0 <= i < 8 => ByteAt(v, 7 - i))
  }

  lemma DivDiv(v: nat, p: nat)
    requires p > 0
    ensures (v / 256) / p == v / (256 * p)
  {
    var u := v / 256;
    var q := u / p;
    assert q * p <= u < (q + 1) * p;
    assert q * (256 * p) == 256 * (q * p) && (q + 1) * (256 * p) == 256 * ((q + 1) * p);
    QuotientIs(v, 256 * p, q);
  }

  lemma {:induction false} PutBytes(v: nat, n: nat, i: nat)
    requires i < n
    ensures Put(v, n)[i] == ByteAt(v, n - 1 - i)
  {
    if i < n - 1 {
      PutBytes(v / 256, n - 1, i);
      PowPositive(n - 2 - i);
      DivDiv(v, Pow256(n - 2 - i));
    }
  }

  lemma U64IsPut(v: nat)
    ensures U64(v) == Put(v, 8)
  {
    forall i | 0 <= i < 8 ensures U64(v)[i] == Put(v, 8)[i] {
      PutBytes(v, 8, i);
    }
  }

  lemma PowersOf256()
    ensures Pow256(8) == 0x1_0000_0000_0000_0000
  {
    assert Pow256(2) == 0x1_0000;
    assert Pow256(4) == 0x1_0000_0000;
    assert Pow256(6) == 0x1_0000_0000_0000;
  }

  lemma Reassociate(x: nat, y: nat)
    ensures 256 * (x * y) == (256 * x) * y
  {
  }

  lemma {:induction false} PowSum(a: nat, b: nat)
    ensures Pow256(a + b) == Pow256(a) * Pow256(b)
  {
    if a > 0 {
      PowSum(a - 1, b);
      Reassociate(Pow256(a - 1), Pow256(b));
      assert Pow256(a + b) == 256 * Pow256(a - 1 + b);
    }
  }

  /** The 32 bytes of a hash. */
  function HashBytes(h: Hash): (r: seq<byte>)
    ensures |r| == HASH_SIZE
  {
    Put(h as nat, HASH_SIZE)
  }

  lemma HashRange()
    ensures Pow256(HASH_SIZE) == 0x1_0000000000000000_0000000000000000_0000000000000000_0000000000000000
  {
    PowersOf256();
    PowSum(8, 8);
    PowSum(16, 16);
  }

  lemma HashBytesInjective(a: Hash, b: Hash)
    requires HashBytes(a) == HashBytes(b)
    ensures a == b
  {
    HashRange();
    GetPut(a as nat, HASH_SIZE);
    GetPut(b as nat, HASH_SIZE);
  }

  /** The hash with the given bytes. */
  function HashOf(s: seq<byte>): (h: Hash)
    requires |s| == HASH_SIZE
    ensures HashBytes(h) == s
  {
    HashRange();
    PutGet(s);
    Get(s) as Hash
  }

  /** Decoding an encoded integer gives it back. */
  lemma {:induction false} GetPut(v: nat, n: nat)
    requires v < Pow256(n)
    ensures Get(Put(v, n)) == v
  {
    if n > 0 {
      GetPut(v / 256, n - 1);
      assert Put(v, n)[..n - 1] == Put(v / 256, n - 1);
    }
  }

  /** Every byte string is the encoding of the integer it decodes to. */
  lemma {:induction false} PutGet(s: seq<byte>)
    ensures Get(s) < Pow256(|s|)
    ensures Put(Get(s), |s|) == s
  {
    if s != [] {
      PutGet(s[..|s| - 1]);
      assert s == s[..|s| - 1] + [s[|s| - 1]];
    }
  }

  lemma U64RoundTrip(v: nat)
    requires v < 0x1_0000_0000_0000_0000
    ensures Get(U64(v)) == v
  {
    PowersOf256();
    GetPut(v, 8);
    U64IsPut(v);
  }

  /** Every 8-byte string is the encoding of the integer it decodes to. */
  lemma U64Get(s: seq<byte>)
    requires |s| == 8
    ensures U64(Get(s)) == s && Get(s) < 0x1_0000_0000_0000_0000
  {
    PowersOf256();
    PutGet(s);
    U64IsPut(Get(s));
  }

  /** The order in which the key-value store iterates its keys. */
  predicate LexLess(a: seq<byte>, b: seq<byte>) {
    b != [] && (a == [] || a[0] < b[0] || (a[0] == b[0] && LexLess(a[1..], b[1..])))
  }

  /** The value of a non-empty string, split after its first byte. */
  lemma {:induction false} GetHead(s: seq<byte>)
    requires s != []
    ensures Get(s) == s[0] as nat * Pow256(|s| - 1) + Get(s[1..])
  {
    if |s| == 1 {
      assert s[..0] == [] && s[1..] == [];
    } else {
      var p := s[..|s| - 1];
      GetHead(p);
      assert p[1..] == s[1..][..|s| - 2];
      assert s[1..][|s| - 2] == s[|s| - 1];
      assert Pow256(|s| - 1) == 256 * Pow256(|s| - 2);
      assert 256 * (s[0] as nat * Pow256(|s| - 2)) == s[0] as nat * Pow256(|s| - 1);
    }
  }

  lemma HeadDecides(a: seq<byte>, b: seq<byte>)
    requires |a| == |b| > 0 && a[0] < b[0]
    ensures Get(a) < Get(b)
  {
    GetHead(a);
    GetHead(b);
    PutGet(a[1..]);
    MulMonotone(a[0] as nat + 1, b[0] as nat, Pow256(|a| - 1));
  }

  lemma SameHead(a: seq<byte>, b: seq<byte>)
    requires |a| == |b| > 0 && a[0] == b[0]
    ensures Get(a) < Get(b) <==> Get(a[1..]) < Get(b[1..])
  {
    GetHead(a);
    GetHead(b);
  }

  /** On keys of one length, the lexicographic order is the numeric order. */
  lemma {:induction false} LexIsNumeric(a: seq<byte>, b: seq<byte>)
    requires |a| == |b|
    ensures LexLess(a, b) <==> Get(a) < Get(b)
  {
    if a != [] {
      if a[0] < b[0] {
        HeadDecides(a, b);
      } else if b[0] < a[0] {
        HeadDecides(b, a);
      } else {
        SameHead(a, b);
        LexIsNumeric(a[1..], b[1..]);
      }
    }
  }

  lemma {:induction false} LexIrreflexive(a: seq<byte>)
    ensures !LexLess(a, a)
  {
    if a != [] {
      LexIrreflexive(a[1..]);
    }
  }

  /** A smaller key never has a greater head. */
  lemma {:induction false} LexHeads(a: seq<byte>, b: seq<byte>, m: nat)
    requires LexLess(a, b) && m <= |a| && m <= |b|
    ensures !LexLess(b[..m], a[..m])
  {
    if m > 0 && a[0] == b[0] {
      LexHeads(a[1..], b[1..], m - 1);
      assert b[..m][1..] == b[1..][..m - 1] && a[..m][1..] == a[1..][..m - 1];
    }
  }
}

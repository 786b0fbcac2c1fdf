/** Values shared by every component: bytes, block and transaction hashes, options. */
module Types {

  newtype byte = x: int | 0 <= x < 256

  const HASH_SIZE: nat := 32

  /** A chainhash.Hash: 32 bytes, read as one 256-bit number. */
  newtype Hash = x: int | 0 <= x < 0x1_0000000000000000_0000000000000000_0000000000000000_0000000000000000

  /** The zero hash, which stands for "no block" in the source. */
  const ZERO_HASH: Hash := 0

  datatype Option<+T> = None | Some(value: T)

  /** The set of elements of a slice. */
  function Elems<T>(s: seq<T>): (r: set<T>)
  {
    set x | x in s
  }

  predicate NoRepeats<T(==)>(s: seq<T>) {
    forall i, j :: 0 <= i < j < |s| ==> s[i] != s[j]
  }

  lemma ElemsSnoc<T>(s: seq<T>, x: T)
    ensures Elems(s + [x]) == Elems(s) + {x}
  {
    assert forall y :: y in s + [x] <==> y in s || y == x;
  }

  lemma ElemsLast<T>(s: seq<T>)
    requires s != []
    ensures Elems(s) == Elems(s[..|s| - 1]) + {s[|s| - 1]}
  {
    assert s == s[..|s| - 1] + [s[|s| - 1]];
    ElemsSnoc(s[..|s| - 1], s[|s| - 1]);
  }

  /** A slice without repeats has as many elements as its set. */
  lemma {:induction false} NoRepeatsSize<T>(s: seq<T>)
    ensures |Elems(s)| <= |s|
    ensures NoRepeats(s) <==> |Elems(s)| == |s|
  {
    if s == [] {
    } else {
      var p, x := s[..|s| - 1], s[|s| - 1];
      NoRepeatsSize(p);
      ElemsLast(s);
      if x in p {
        assert Elems(s) == Elems(p);
        var i :| 0 <= i < |p| && p[i] == x;
        assert s[i] == s[|s| - 1];
      } else {
        assert x !in Elems(p);
        assert |Elems(s)| == |Elems(p)| + 1;
        if NoRepeats(p) {
          forall i, j | 0 <= i < j < |s| ensures s[i] != s[j] {
            if j == |s| - 1 { assert p[i] in p; } else { assert p[i] != p[j]; }
          }
        } else {
          var i, j :| 0 <= i < j < |p| && p[i] == p[j];
          assert s[i] == s[j];
        }
      }
    }
  }
}

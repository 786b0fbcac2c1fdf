/** Picking the least key of a set, the step of a selection sort. */
module Keys {

  lemma EmptyIfNone(s: set<int>)
    requires forall k :: k !in s
    ensures s == {}
  {
    assert forall k :: k in s <==> k in {};
  }

  lemma HasMember(s: set<int>)
    requires s != {}
    ensures exists k :: k in s
  {
    if forall k :: k !in s {
      EmptyIfNone(s);
    }
  }

  method LeastKey(s: set<int>) returns (least: int)
    requires s != {}
    ensures least in s && forall k :: k in s ==> least <= k
  {
    HasMember(s);
    var first: int :| first in s;
    least := first;
    var left := s - {first};
    while left != {}
      invariant least in s && left <= s
      invariant forall k :: k in s && k !in left ==> least <= k
      decreases left
    {
      HasMember(left);
      var k: int :| k in left;
      if k < least {
        least := k;
      }
      left := left - {k};
    }
  }
}

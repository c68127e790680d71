/** Two sequences with the same elements in another order. */
module Reordering {
  /** An element of a sequence, cut out of it. */
  lemma {:induction false} RemoveOne<T>(b: seq<T>, x: T) returns (front: seq<T>, back: seq<T>)
    requires x in multiset(b)
    ensures b == (front + [x]) + back && multiset(front + back) == multiset(b) - multiset{x}
  {
    var i :| 0 <= i < |b| && b[i] == x;
    front, back := b[..i], b[i + 1..];
    assert b == (front + [x]) + back;
  }

  lemma {:induction false} SameMembers<T>(a: seq<T>, b: seq<T>)
    requires multiset(a) == multiset(b)
    ensures |a| == |b| && forall x :: x in a <==> x in b
  {
    assert |multiset(a)| == |multiset(b)|;
    forall x ensures x in a <==> x in b {
      assert x in a <==> x in multiset(a);
      assert x in b <==> x in multiset(b);
    }
  }
}

/** Cardinality facts shared by the protocol models. */
module Counting {

  lemma {:induction false} Pick<T>(s: set<T>) returns (x: T)
    requires s != {}
    ensures x in s
  {
    x :| x in s;
  }

  lemma {:induction false} SubsetSize<T>(a: set<T>, b: set<T>)
    requires a <= b
    ensures |a| <= |b|
  {
    assert b == a + (b - a);
  }

  /** Distinct entries of `items`, picked by the indices in `s`, all lie in `image`. */
  lemma {:induction false} DistinctEntries<T>(items: seq<T>, s: set<int>, image: set<T>)
    requires forall i :: i in s ==> 0 <= i < |items| && items[i] in image
    requires forall i, j :: i in s && j in s && i != j ==> items[i] != items[j]
    ensures |s| <= |image|
    decreases |s|
  {
    if s != {} {
      var i := Pick(s);
      DistinctEntries(items, s - {i}, image - {items[i]});
    }
  }

  /** Everything in `image` is some entry of `items` picked by `s`. */
  lemma {:induction false} CoveredEntries<T>(items: seq<T>, s: set<int>, image: set<T>)
    requires forall i :: i in s ==> 0 <= i < |items|
    requires forall m :: m in image ==> exists i :: i in s && items[i] == m
    ensures |image| <= |s|
    decreases |s|
  {
    if image != {} {
      var m := Pick(image);
      var i :| i in s && items[i] == m;
      var s', image' := s - {i}, image - {m};
      forall m' | m' in image' ensures exists k :: k in s' && items[k] == m' {
        var k :| k in s && items[k] == m';
        assert k in s';
      }
      CoveredEntries(items, s', image');
    }
  }

  /** A non-empty finite set of integers has a largest element. */
  lemma {:induction false} LargestElement(s: set<int>) returns (m: int)
    requires s != {}
    ensures m in s && forall i :: i in s ==> i <= m
    decreases |s|
  {
    var x := Pick(s);
    var rest := s - {x};
    assert forall i :: i in s ==> i == x || i in rest;
    if rest == {} {
      m := x;
    } else {
      m := LargestElement(rest);
      if m < x {
        m := x;
      }
    }
  }

  /** The first k naturals. */
  function UpTo(k: nat): (s: set<int>)
    ensures |s| == k
    ensures forall i :: i in s <==> 0 <= i < k
  {
    if k == 0 then {} else UpTo(k - 1) + {k - 1}
  }

  /** Taking the first element off a concatenation. */
  lemma {:induction false} HeadOfJoin<T>(p: seq<T>, q: seq<T>)
    ensures p == [] ==> p + q == q
    ensures p != [] ==> (p + q)[0] == p[0] && (p + q)[1..] == p[1..] + q
  {
  }
}

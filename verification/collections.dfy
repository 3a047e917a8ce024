/** Small facts about sets and sequences. */
module Collections {

  lemma SomeIn<T>(s: set<T>) returns (x: T)
    requires s != {}
    ensures x in s
  {
    x :| x in s;
  }

  lemma LeastIn(s: set<int>) returns (x: int)
    requires s != {}
    ensures x in s && forall y | y in s :: x <= y
    decreases |s|
  {
    x := SomeIn(s);
    assert s == (s - {x}) + {x};
    if s - {x} != {} {
      var z := LeastIn(s - {x});
      x := if x < z then x else z;
    }
  }

  predicate Distinct<T(==)>(s: seq<T>) {
    forall i, j | 0 <= i < j < |s| :: s[i] != s[j]
  }

  lemma SubsetSize<T>(a: set<T>, b: set<T>)
    requires a <= b
    ensures |a| <= |b|
  {
    assert b == a + (b - a);
  }

  lemma UnionSize<T>(a: set<T>, b: set<T>)
    ensures |a + b| <= |a| + |b|
  {
    assert a + b == a + (b - a);
    assert a !! (b - a);
    SubsetSize(b - a, b);
  }

  lemma {:induction false} DistinctSize<T>(s: seq<T>)
    requires Distinct(s)
    ensures |set x | x in s| == |s|
  {
    if s != [] {
      var front, last := s[..|s| - 1], s[|s| - 1];
      DistinctSize(front);
      assert s == front + [last];
      assert (set x | x in s) == (set x | x in front) + {last};
    }
  }
}

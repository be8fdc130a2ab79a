/** Counting finite sets. */
module Sets {
  lemma SubsetIsSmaller<T>(a: set<T>, b: set<T>)
    requires a <= b
    ensures |a| <= |b|
  {
    assert b == a + (b - a);
    assert |b| == |a| + |b - a|;
  }

  lemma HasElement(s: set<int>)
    requires |s| > 0
    ensures exists x :: x in s
  {
    if forall x :: x !in s {
      assert false;
    }
  }

  lemma SameCount(a: set<int>, b: set<int>)
    requires forall x :: x in a <==> x in b
    ensures |a| == |b|
  {
    if |a - b| > 0 {
      HasElement(a - b);
    }
    if |b - a| > 0 {
      HasElement(b - a);
    }
    assert a == a * b + (a - b) && b == a * b + (b - a);
    assert |a| == |a * b| + |a - b| && |b| == |a * b| + |b - a|;
  }
}

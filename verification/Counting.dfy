module Counting {

  lemma SubsetSize<T>(a: set<T>, b: set<T>)
    requires a <= b
    ensures |a| <= |b|
    ensures |a| == |b| ==> a == b
  {
    assert a + (b - a) == b;
    assert |a| + |b - a| == |b|;
    if a != b {
      assert b - a != {};
    }
  }
}

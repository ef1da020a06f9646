/** Sizes of finite sets. */
module Sets {
  lemma SubsetSize<T>(s: set<T>, t: set<T>)
    requires s <= t
    ensures |s| <= |t|
  {
    assert t == s + (t - s);
  }

  lemma ProperSubsetSize<T>(s: set<T>, t: set<T>)
    requires s < t
    ensures |s| < |t|
  {
    assert t == s + (t - s);
  }

  lemma UnionSize<T>(s: set<T>, t: set<T>, whole: set<T>)
    requires s !! t && s + t == whole
    ensures |whole| == |s| + |t|
  {
  }

  /** Two disjoint parts are no more than the whole. */
  lemma Apart<T>(s: set<T>, t: set<T>, whole: set<T>)
    requires s !! t && s + t <= whole
    ensures |s| + |t| <= |whole|
  {
    SubsetSize(s + t, whole);
  }
}

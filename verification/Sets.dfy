/** Facts about finite sets. */
module Sets {
  lemma SubsetIsAll<T>(s: set<T>, all: set<T>)
    requires s <= all && |s| == |all|
    ensures s == all
  {
    assert |all - s| == 0;
  }
}

/** What the counting arguments need of finite sets. */
module Sets {

  /** A part has no more elements than the whole, and as many only if it is the whole. */
  lemma PartIsSmaller(a: set<nat>, b: set<nat>)
    requires a <= b
    ensures |a| <= |b| && (|a| == |b| <==> a == b)
  {
    assert b == a + (b - a);
  }
}

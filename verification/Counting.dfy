/** Sizes of sets of threads. */
module Counting {
  function One(b: bool): int {
    if b then 1 else 0
  }

  /** Two sets that agree but for one element. */
  lemma SizeChange<T>(before: set<T>, after: set<T>, t: T)
    requires forall u | u != t :: u in before <==> u in after
    ensures |after| == |before| - One(t in before) + One(t in after)
  {
    assert before - {t} == after - {t};
    assert |before| == |before - {t}| + One(t in before);
    assert |after| == |after - {t}| + One(t in after);
  }

  lemma {:induction false} SubsetSize<T>(a: set<T>, b: set<T>)
    requires a <= b
    ensures |a| <= |b|
  {
    assert b == a + (b - a);
    assert |b| == |a| + |b - a|;
  }
}

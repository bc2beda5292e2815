/** Facts about finite sets and sequences of whatever elements. */
module Collections {
  /** Items that occupy distinct slots are no more than the slots. */
  lemma {:induction false} PigeonHole<T>(items: set<T>, slot: T -> int, lo: int, hi: int)
    requires lo <= hi
    requires forall i :: i in items ==> lo <= slot(i) < hi
    requires forall i, j :: i in items && j in items && slot(i) == slot(j) ==> i == j
    ensures |items| <= hi - lo
    decreases hi - lo
  {
    if items != {} {
      var any :| any in items;
      assert lo <= slot(any) < hi;
      if top :| top in items && slot(top) == hi - 1 {
        PigeonHole(items - {top}, slot, lo, hi - 1);
      } else {
        PigeonHole(items, slot, lo, hi - 1);
      }
    }
  }

  lemma SubsetSize<T>(a: set<T>, b: set<T>)
    requires a <= b
    ensures |a| <= |b|
  {
    assert |b| == |a| + |b - a| by { assert b == a + (b - a); }
  }

  lemma HeadOrTail<T>(s: seq<T>, x: T)
    requires s != []
    ensures x in s <==> x == s[0] || x in s[1..]
  {
    if x in s {
      var i :| 0 <= i < |s| && s[i] == x;
      assert i > 0 ==> s[1..][i - 1] == x;
    }
  }
}

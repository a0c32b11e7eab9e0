/** Sets of neighbouring numbers. */
module Intervals {

  predicate Between(lo: nat, a: nat, hi: nat) {
    lo <= a < hi
  }

  function Extent(h: nat, n: nat): set<nat> {
    set a: nat {:trigger Between(h, a, h + n)} | h <= a < h + n && Between(h, a, h + n)
  }

  lemma {:induction false} ExtentSize(h: nat, n: nat)
    ensures |Extent(h, n)| == n
  {
    if n > 0 {
      ExtentSize(h, n - 1);
      assert Extent(h, n) == Extent(h, n - 1) + {h + n - 1};
    } else {
      assert Extent(h, n) == {};
    }
  }

  lemma ExtentHolds(s: nat, n: nat)
    ensures forall a: nat :: a in Extent(s, n) <==> s <= a < s + n
  {
    forall a: nat ensures a in Extent(s, n) <==> s <= a < s + n {
      assert Between(s, a, s + n) <==> s <= a < s + n;
    }
  }
}

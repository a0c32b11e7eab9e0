/** Facts about quotients and remainders. */
module Arithmetic {

  lemma MultipleBelow(d: int, w: int, x: int)
    requires 0 < w && d * w == x && -w < x < w
    ensures d == 0
  {
    assert d >= 1 ==> d * w >= w;
    assert d <= -1 ==> d * w <= -w;
  }

  /** Quotient and remainder are unique. */
  lemma DivMod(q: int, w: int, r: int)
    requires 0 < w && 0 <= r < w
    ensures (q * w + r) / w == q && (q * w + r) % w == r
  {
    var n := q * w + r;
    MultipleBelow(n / w - q, w, r - n % w);
  }

  lemma Times(a: int, b: int, w: int)
    requires a <= b && 0 <= w
    ensures a * w <= b * w
  {
  }

  lemma TimesPlus(a: int, w: int)
    ensures (a + 1) * w == a * w + w && (a - 1) * w == a * w - w
  {
  }

  /** A number lies between two multiples of w. */
  lemma Multiples(n: nat, w: nat)
    requires 1 <= w
    ensures (n / w) * w <= n < (n / w) * w + w && n == (n / w) * w + n % w
    ensures w <= n ==> 1 <= n / w
  {
    var q := n / w;
    assert n == q * w + n % w;
    assert q == 0 ==> n == n % w;
  }

  function Pow2(k: nat): (p: nat)
    ensures 1 <= p
  {
    if k == 0 then 1 else 2 * Pow2(k - 1)
  }

  lemma {:induction false} Pow2Sum(j: nat, k: nat)
    ensures Pow2(j + k) == Pow2(j) * Pow2(k)
  {
    if j != 0 {
      Pow2Sum(j - 1, k);
    }
  }

  lemma WordPow2()
    ensures Pow2(32) == 0x1_0000_0000 && Pow2(64) == 0x1_0000_0000_0000_0000
  {
    hide Pow2;
    Pow2Small();
    Pow2Sum(4, 4);
    Pow2Sum(8, 8);
    Pow2Sum(16, 16);
    Pow2Sum(32, 32);
  }

  lemma Pow2Small()
    ensures Pow2(0) == 1 && Pow2(1) == 2 && Pow2(4) == 16
  {
    assert Pow2(2) == 4;
  }

  lemma {:induction false} Pow2Grows(j: nat, k: nat)
    requires j <= k
    ensures Pow2(j) <= Pow2(k)
  {
    if j < k {
      Pow2Grows(j, k - 1);
    }
  }
}

/** The index computed for an element of a multi-dimensional array of any rank and any lower bounds. */
module ArrayIndexes {
  import opened Options
  import opened Arithmetic

  // ----- lengths and indices -----

  function Product(s: seq<nat>): nat {
    if s == [] then 1 else s[0] * Product(s[1..])
  }

  /** il2cpp_CheckRange: true unless it traps. */
  predicate CheckRange(lower: int, length: int, index: int) {
    lower <= index < lower + length
  }

  /** A tuple of indices lies within the bounds of an array. */
  predicate InRange(lower: seq<int>, size: seq<nat>, index: seq<int>)
    requires |lower| == |size| == |index|
  {
    forall i :: 0 <= i < |size| ==> CheckRange(lower[i], size[i], index[i])
  }

  /** Row-major order: the last index varies fastest. */
  function RowMajor(lower: seq<int>, size: seq<nat>, index: seq<int>): int
    requires |lower| == |size| == |index|
  {
    if size == [] then 0
    else (index[0] - lower[0]) * Product(size[1..]) + RowMajor(lower[1..], size[1..], index[1..])
  }

  /** The tuple with a given place in row-major order. */
  function TupleAt(lower: seq<int>, size: seq<nat>, n: nat): (t: seq<int>)
    requires |lower| == |size| && n < Product(size)
    ensures |t| == |size|
  {
    if size == [] then []
    else
      var p := Product(size[1..]);
      Quotient(n, size[0], p);
      [lower[0] + n / p] + TupleAt(lower[1..], size[1..], n % p)
  }

  lemma Quotient(n: nat, s: nat, p: nat)
    requires n < s * p
    ensures 0 < p && 0 <= n / p < s && n % p < p && n == (n / p) * p + n % p
  {
    PositiveFactor(s, p);
    var q := n / p;
    assert q >= s ==> q * p >= s * p;
  }

  lemma PositiveFactor(s: nat, p: nat)
    requires 0 < s * p
    ensures 0 < p
  {
    assert p == 0 ==> s * p == 0;
  }

  lemma {:induction false} RowMajorBound(lower: seq<int>, size: seq<nat>, index: seq<int>)
    requires |lower| == |size| == |index| && InRange(lower, size, index)
    ensures 0 <= RowMajor(lower, size, index) < Product(size)
  {
    if size != [] {
      RangeTail(lower, size, index);
      RowMajorBound(lower[1..], size[1..], index[1..]);
      Scaled(index[0] - lower[0], size[0], Product(size[1..]), RowMajor(lower[1..], size[1..], index[1..]));
    }
  }

  lemma RangeTail(lower: seq<int>, size: seq<nat>, index: seq<int>)
    requires |lower| == |size| == |index| && size != [] && InRange(lower, size, index)
    ensures InRange(lower[1..], size[1..], index[1..]) && CheckRange(lower[0], size[0], index[0])
  {
  }

  lemma Scaled(x: int, s: nat, p: nat, r: int)
    requires 0 <= x < s && 0 <= r < p
    ensures 0 <= x * p + r < s * p && (x * p + r) / p == x && (x * p + r) % p == r
  {
    Below(x, s, p);
    DivMod(x, p, r);
  }

  lemma Below(x: int, s: int, p: int)
    requires 0 <= x < s && 0 <= p
    ensures 0 <= x * p && x * p + p <= s * p
  {
    assert (x + 1) * p <= s * p;
  }

  /** Row-major order maps the tuples in range one-to-one onto 0 to Length - 1: it has an inverse. */
  lemma {:induction false} TupleOfIndex(lower: seq<int>, size: seq<nat>, index: seq<int>)
    requires |lower| == |size| == |index| && InRange(lower, size, index)
    ensures 0 <= RowMajor(lower, size, index) < Product(size)
    ensures TupleAt(lower, size, RowMajor(lower, size, index)) == index
  {
    RowMajorBound(lower, size, index);
    if size != [] {
      RangeTail(lower, size, index);
      RowMajorBound(lower[1..], size[1..], index[1..]);
      Scaled(index[0] - lower[0], size[0], Product(size[1..]), RowMajor(lower[1..], size[1..], index[1..]));
      TupleOfIndex(lower[1..], size[1..], index[1..]);
      assert index == [index[0]] + index[1..];
    }
  }

  lemma {:induction false} IndexOfTuple(lower: seq<int>, size: seq<nat>, n: nat)
    requires |lower| == |size| && n < Product(size)
    ensures InRange(lower, size, TupleAt(lower, size, n)) && RowMajor(lower, size, TupleAt(lower, size, n)) == n
  {
    if size != [] {
      var p := Product(size[1..]);
      Quotient(n, size[0], p);
      IndexOfTuple(lower[1..], size[1..], n % p);
      var t := TupleAt(lower, size, n);
      assert t[1..] == TupleAt(lower[1..], size[1..], n % p);
    }
  }

  /** The order of the elements is that of the tuples, the first difference deciding: the last index varies fastest. */
  lemma {:induction false} FirstDifference(lower: seq<int>, size: seq<nat>, s: seq<int>, t: seq<int>, k: nat)
    requires |lower| == |size| == |s| == |t| && InRange(lower, size, s) && InRange(lower, size, t)
    requires k < |size| && s[..k] == t[..k] && s[k] < t[k]
    ensures RowMajor(lower, size, s) < RowMajor(lower, size, t)
  {
    RangeTail(lower, size, s);
    RangeTail(lower, size, t);
    RowMajorBound(lower[1..], size[1..], s[1..]);
    RowMajorBound(lower[1..], size[1..], t[1..]);
    if k == 0 {
      OneMore(s[0] - lower[0], t[0] - lower[0], Product(size[1..]));
    } else {
      assert s[0] == s[..k][0] == t[..k][0] == t[0];
      assert s[1..][..k - 1] == s[..k][1..] == t[..k][1..] == t[1..][..k - 1];
      FirstDifference(lower[1..], size[1..], s[1..], t[1..], k - 1);
    }
  }

  lemma OneMore(x: int, y: int, p: nat)
    requires x < y
    ensures x * p + p <= y * p
  {
    assert (x + 1) * p <= y * p;
  }

  // ----- the generated code -----

  /** One summand: (arg_i - LowerBound_i), times the sizes of the dimensions after it, in this order. */
  datatype Term = Term(dim: nat, factors: seq<nat>)

  /** The code for an access: the range check of each dimension, and the summands of the index. */
  datatype Access = Access(checks: seq<nat>, terms: seq<Term>)

  /** The generated code for arrays of a given rank. */
  ghost predicate IsCode(code: Access, rank: nat) {
    && code.checks == Dims(0, rank) && |code.terms| == rank
    && forall i :: 0 <= i < rank ==> code.terms[i] == Term(i, Dims(i + 1, rank))
  }

  /** The dimensions from i to rank - 1. */
  function Dims(i: nat, rank: nat): (s: seq<nat>)
    requires i <= rank
    ensures |s| == rank - i && forall k :: 0 <= k < |s| ==> s[k] == i + k
  {
    seq(rank - i, k requires 0 <= k < rank - i => i + k)
  }

  /** Generate the code (GenerateMDArrayIndex). */
  method GenerateMDArrayIndex(rank: nat) returns (code: Access)
    ensures IsCode(code, rank)
  {
    var checks, terms := [], [];
    var i := 0;
    while i < rank
      invariant i <= rank && |checks| == i && forall k :: 0 <= k < i ==> checks[k] == k
    {
      checks, i := checks + [i], i + 1;
    }
    i := 0;
    while i < rank
      invariant i <= rank && |terms| == i
      invariant forall k :: 0 <= k < i ==> terms[k] == Term(k, Dims(k + 1, rank))
    {
      var factors, j := [], i + 1;
      while j < rank
        invariant i + 1 <= j <= rank && |factors| == j - i - 1
        invariant forall k :: 0 <= k < |factors| ==> factors[k] == i + 1 + k
      {
        factors, j := factors + [j], j + 1;
      }
      assert factors == Dims(i + 1, rank);
      terms, i := terms + [Term(i, factors)], i + 1;
    }
    assert checks == Dims(0, rank);
    return Access(checks, terms);
  }

  // ----- running it -----

  // 32-bit words: indices and lower bounds are signed ones, sizes unsigned ones.
  const B31: int := 0x8000_0000
  const B32: int := 0x1_0000_0000

  /** What running the code does: a check traps, an int overflows, or there is an index. */
  datatype Outcome = Trap | Overflow | Index(n: int)

  /** The array and the tuple as the generated code sees them. */
  ghost predicate InWords(lower: seq<int>, size: seq<nat>, index: seq<int>) {
    && |lower| == |size| == |index|
    && forall i :: 0 <= i < |size| ==> -B31 <= lower[i] < B31 && size[i] < B32 && -B31 <= index[i] < B31
  }

  predicate Fits(code: Access, rank: nat) {
    && (forall c :: c in code.checks ==> c < rank)
    && (forall t :: t in code.terms ==> t.dim < rank && forall f :: f in t.factors ==> f < rank)
  }

  /** A summand after its first k factors: an int, and once multiplied by a size, an unsigned word. */
  function Scaled32(t: Term, lower: seq<int>, size: seq<nat>, index: seq<int>, k: nat): Option<int>
    requires |lower| == |size| == |index| && t.dim < |size| && k <= |t.factors|
    requires forall f :: f in t.factors ==> f < |size|
  {
    var d := index[t.dim] - lower[t.dim];
    if d < -B31 || B31 <= d then None
    else if k == 0 then Some(d)
    else
      assert t.factors[k - 1] in t.factors;
      match Scaled32(t, lower, size, index, k - 1)
      case None => None
      case Some(n) => Some((n * size[t.factors[k - 1]]) % B32)
  }

  /** The first n summands, added from the left; two or more make an unsigned word. */
  function Added32(terms: seq<Term>, lower: seq<int>, size: seq<nat>, index: seq<int>, n: nat): Option<int>
    requires |lower| == |size| == |index| && n <= |terms|
    requires forall t :: t in terms ==> t.dim < |size| && forall f :: f in t.factors ==> f < |size|
  {
    if n == 0 then Some(0)
    else
      var t := terms[n - 1];
      match (Added32(terms, lower, size, index, n - 1), Scaled32(t, lower, size, index, |t.factors|))
      case (Some(x), Some(y)) => Some(if n == 1 then y else (x + y) % B32)
      case _ => None
  }

  /** The checks, and then the index. */
  function Run(code: Access, lower: seq<int>, size: seq<nat>, index: seq<int>): Outcome
    requires |lower| == |size| == |index| && Fits(code, |size|)
  {
    if exists c :: c in code.checks && !CheckRange(lower[c], size[c], index[c]) then Trap
    else
      match Added32(code.terms, lower, size, index, |code.terms|)
      case None => Overflow
      case Some(n) => Index(n)
  }

  lemma CodeFits(code: Access, rank: nat)
    requires IsCode(code, rank)
    ensures Fits(code, rank) && forall c :: c in code.checks <==> 0 <= c < rank
  {
    forall c | 0 <= c < rank ensures c in code.checks {
      assert Dims(0, rank)[c] == c;
    }
  }

  // ----- the exact numbers -----

  /** The value of a summand after its first k factors. */
  function Partial(t: Term, lower: seq<int>, size: seq<nat>, index: seq<int>, k: nat): int
    requires |lower| == |size| == |index| && t.dim < |size| && k <= |t.factors|
    requires forall i :: 0 <= i < |t.factors| ==> t.factors[i] < |size|
  {
    if k == 0 then index[t.dim] - lower[t.dim] else Partial(t, lower, size, index, k - 1) * size[t.factors[k - 1]]
  }

  /** The sum of the summands from i on. */
  function SumFrom(lower: seq<int>, size: seq<nat>, index: seq<int>, i: nat): int
    requires |lower| == |size| == |index| && i <= |size|
    decreases |size| - i
  {
    if i == |size| then 0
    else Partial(Term(i, Dims(i + 1, |size|)), lower, size, index, |size| - i - 1) + SumFrom(lower, size, index, i + 1)
  }

  lemma {:induction false} PartialIs(lower: seq<int>, size: seq<nat>, index: seq<int>, i: nat, k: nat)
    requires |lower| == |size| == |index| && i < |size| && k <= |size| - i - 1
    ensures Partial(Term(i, Dims(i + 1, |size|)), lower, size, index, k) ==
      (index[i] - lower[i]) * Product(size[i + 1..i + 1 + k])
  {
    if k == 0 {
      assert size[i + 1..i + 1] == [];
    } else {
      PartialIs(lower, size, index, i, k - 1);
      ProductSnoc(size[i + 1..i + k], size[i + k]);
      assert size[i + 1..i + 1 + k] == size[i + 1..i + k] + [size[i + k]];
      var x, p, s := index[i] - lower[i], Product(size[i + 1..i + k]), size[i + k];
      assert (x * p) * s == x * (p * s);
    }
  }

  lemma {:induction false} ProductSnoc(s: seq<nat>, n: nat)
    ensures Product(s + [n]) == Product(s) * n
  {
    if s != [] {
      ProductSnoc(s[1..], n);
      assert (s + [n])[1..] == s[1..] + [n];
      assert s[0] * (Product(s[1..]) * n) == (s[0] * Product(s[1..])) * n;
    } else {
      assert [n][1..] == [];
    }
  }

  lemma {:induction false} SumIsRowMajor(lower: seq<int>, size: seq<nat>, index: seq<int>, i: nat)
    requires |lower| == |size| == |index| && i <= |size|
    ensures SumFrom(lower, size, index, i) == RowMajor(lower[i..], size[i..], index[i..])
    decreases |size| - i
  {
    if i < |size| {
      SumIsRowMajor(lower, size, index, i + 1);
      PartialIs(lower, size, index, i, |size| - i - 1);
      assert size[i..][1..] == size[i + 1..|size|] == size[i + 1..];
      assert lower[i..][1..] == lower[i + 1..] && index[i..][1..] == index[i + 1..];
    }
  }

  // ----- no overflow -----

  lemma {:induction false} ProductPositive(s: seq<nat>)
    requires forall i :: 0 <= i < |s| ==> 1 <= s[i]
    ensures 1 <= Product(s)
  {
    if s != [] {
      ProductPositive(s[1..]);
      assert s[0] * Product(s[1..]) >= 1 * 1;
    }
  }

  lemma {:induction false} ProductConcat(s: seq<nat>, t: seq<nat>)
    ensures Product(s + t) == Product(s) * Product(t)
  {
    if s == [] {
      assert s + t == t;
    } else {
      ProductConcat(s[1..], t);
      assert (s + t)[1..] == s[1..] + t;
      assert s[0] * (Product(s[1..]) * Product(t)) == (s[0] * Product(s[1..])) * Product(t);
    }
  }

  /** The product of neighbouring sizes of an array that is not empty is at most its length. */
  lemma SliceAtMost(s: seq<nat>, i: nat, j: nat)
    requires i <= j <= |s| && forall k :: 0 <= k < |s| ==> 1 <= s[k]
    ensures 1 <= Product(s[i..j]) <= Product(s)
  {
    hide Product;
    var a, b, c := s[..i], s[i..j], s[j..];
    assert s == a + (b + c);
    ProductConcat(a, b + c);
    ProductConcat(b, c);
    ProductPositive(a);
    ProductPositive(b);
    ProductPositive(c);
    Grow(Product(b), Product(c));
    Grow(Product(b) * Product(c), Product(a));
  }

  lemma Grow(x: nat, y: nat)
    requires 1 <= y
    ensures x <= x * y && x <= y * x
  {
  }

  /** No partial product and no partial sum of the index reaches the length of the array. */
  lemma NothingOverflows(lower: seq<int>, size: seq<nat>, index: seq<int>, i: nat, k: nat)
    requires |lower| == |size| == |index| && InRange(lower, size, index) && i < |size| && k <= |size| - i - 1
    ensures 0 <= Partial(Term(i, Dims(i + 1, |size|)), lower, size, index, k) < Product(size)
    ensures 0 <= SumFrom(lower, size, index, i) <= SumFrom(lower, size, index, 0) < Product(size)
  {
    PartialBelow(lower, size, index, i, k);
    SumsGrow(lower, size, index, i);
    SumIsRowMajor(lower, size, index, 0);
    assert lower[0..] == lower && size[0..] == size && index[0..] == index;
    RowMajorBound(lower, size, index);
  }

  lemma PartialBelow(lower: seq<int>, size: seq<nat>, index: seq<int>, i: nat, k: nat)
    requires |lower| == |size| == |index| && InRange(lower, size, index) && i < |size| && k <= |size| - i - 1
    ensures 0 <= Partial(Term(i, Dims(i + 1, |size|)), lower, size, index, k) < Product(size)
  {
    assert forall j :: 0 <= j < |size| ==> CheckRange(lower[j], size[j], index[j]);
    PartialIs(lower, size, index, i, k);
    SliceAtMost(size, i, i + 1 + k);
    assert size[i..i + 1 + k] == [size[i]] + size[i + 1..i + 1 + k];
    assert size[i..i + 1 + k][1..] == size[i + 1..i + 1 + k];
    SliceAtMost(size, i + 1, i + 1 + k);
    Scaled(index[i] - lower[i], size[i], Product(size[i + 1..i + 1 + k]), 0);
  }

  lemma {:induction false} SumsGrow(lower: seq<int>, size: seq<nat>, index: seq<int>, i: nat)
    requires |lower| == |size| == |index| && InRange(lower, size, index) && i <= |size|
    ensures 0 <= SumFrom(lower, size, index, i) <= SumFrom(lower, size, index, 0)
  {
    SumPositive(lower, size, index, i);
    if 0 < i {
      SumsGrow(lower, size, index, i - 1);
      PartialBelow(lower, size, index, i - 1, |size| - i);
    }
  }

  lemma {:induction false} SumPositive(lower: seq<int>, size: seq<nat>, index: seq<int>, i: nat)
    requires |lower| == |size| == |index| && InRange(lower, size, index) && i <= |size|
    ensures 0 <= SumFrom(lower, size, index, i)
    decreases |size| - i
  {
    if i < |size| {
      SumPositive(lower, size, index, i + 1);
      PartialBelow(lower, size, index, i, |size| - i - 1);
    }
  }

  // ----- the generated code computes the index -----

  /** The offsets fit an int. */
  ghost predicate OffsetsFit(lower: seq<int>, size: seq<nat>, index: seq<int>)
    requires |lower| == |size| == |index|
  {
    forall i :: 0 <= i < |size| ==> index[i] - lower[i] < B31
  }

  lemma {:induction false} ScaledExact(lower: seq<int>, size: seq<nat>, index: seq<int>, i: nat, k: nat)
    requires |lower| == |size| == |index| && InRange(lower, size, index) && OffsetsFit(lower, size, index)
    requires Product(size) <= B32 && i < |size| && k <= |size| - i - 1
    ensures
      var t := Term(i, Dims(i + 1, |size|));
      Scaled32(t, lower, size, index, k) == Some(Partial(t, lower, size, index, k))
  {
    assert CheckRange(lower[i], size[i], index[i]);
    if k != 0 {
      ScaledExact(lower, size, index, i, k - 1);
    }
    PartialBelow(lower, size, index, i, k);
  }

  lemma {:induction false} AddedExact(code: Access, lower: seq<int>, size: seq<nat>, index: seq<int>, n: nat)
    requires |lower| == |size| == |index| && InRange(lower, size, index) && OffsetsFit(lower, size, index)
    requires Product(size) <= B32 && IsCode(code, |size|) && Fits(code, |size|) && n <= |size|
    ensures Added32(code.terms, lower, size, index, n) ==
      Some(SumFrom(lower, size, index, 0) - SumFrom(lower, size, index, n))
  {
    hide Scaled32, Partial, SumFrom, Product, InRange, OffsetsFit;
    if n != 0 {
      AddedExact(code, lower, size, index, n - 1);
      ScaledExact(lower, size, index, n - 1, |size| - n);
      SumNext(lower, size, index, n - 1);
      NothingOverflows(lower, size, index, n - 1, |size| - n);
      SumsGrow(lower, size, index, n);
    }
  }

  lemma SumNext(lower: seq<int>, size: seq<nat>, index: seq<int>, i: nat)
    requires |lower| == |size| == |index| && i < |size|
    ensures SumFrom(lower, size, index, i) ==
      Partial(Term(i, Dims(i + 1, |size|)), lower, size, index, |size| - i - 1) + SumFrom(lower, size, index, i + 1)
  {
  }

  /** For a length that fits a word and offsets that fit an int, the generated code gives the row-major index of a
      tuple in range; it traps on all other tuples. */
  lemma RunIsRowMajor(code: Access, lower: seq<int>, size: seq<nat>, index: seq<int>)
    requires IsCode(code, |size|) && |lower| == |size| == |index|
    requires InRange(lower, size, index) ==> OffsetsFit(lower, size, index) && Product(size) <= B32
    ensures Fits(code, |size|)
    ensures Run(code, lower, size, index) ==
      if InRange(lower, size, index) then Index(RowMajor(lower, size, index)) else Trap
  {
    CodeFits(code, |size|);
    if InRange(lower, size, index) {
      AddedExact(code, lower, size, index, |size|);
      SumIsRowMajor(lower, size, index, 0);
      assert lower[0..] == lower && size[0..] == size && index[0..] == index;
    }
  }

  /** A dimension in which an offset can overflow. */
  predicate TooWide(lower: int, size: nat) {
    lower < 0 && B31 < size
  }

  /** For an array that is not empty and whose length fits a word, the index is right for all tuples in range
      exactly when no dimension is too wide. */
  lemma IndexRightWhen(code: Access, lower: seq<int>, size: seq<nat>)
    requires IsCode(code, |size|) && |lower| == |size| && Product(size) <= B32
    requires forall i :: 0 <= i < |size| ==> -B31 <= lower[i] < B31 && 1 <= size[i] < B32
    ensures Fits(code, |size|)
    ensures
      (forall index :: InWords(lower, size, index) && InRange(lower, size, index)
        ==> Run(code, lower, size, index) == Index(RowMajor(lower, size, index)))
      <==> forall i :: 0 <= i < |size| ==> !TooWide(lower[i], size[i])
  {
    CodeFits(code, |size|);
    if i :| 0 <= i < |size| && TooWide(lower[i], size[i]) {
      var index := lower[i := lower[i] + B31];
      WideOverflows(code, lower, size, i);
      assert InWords(lower, size, index) && InRange(lower, size, index) && Run(code, lower, size, index) == Overflow;
    } else {
      forall index | InWords(lower, size, index) && InRange(lower, size, index)
        ensures Run(code, lower, size, index) == Index(RowMajor(lower, size, index))
      {
        forall i | 0 <= i < |size| ensures index[i] - lower[i] < B31 {
          assert CheckRange(lower[i], size[i], index[i]);
        }
        RunIsRowMajor(code, lower, size, index);
      }
    }
  }

  lemma WideOverflows(code: Access, lower: seq<int>, size: seq<nat>, i: nat)
    requires IsCode(code, |size|) && Fits(code, |size|) && |lower| == |size| && i < |size| && TooWide(lower[i], size[i])
    requires forall j :: 0 <= j < |size| ==> 1 <= size[j]
    ensures Run(code, lower, size, lower[i := lower[i] + B31]) == Overflow
  {
    var index := lower[i := lower[i] + B31];
    assert code.terms[i] in code.terms;
    AddedNothing(code, lower, size, index, i, i + 1);
    AddedNothing(code, lower, size, index, i, |size|);
  }

  lemma {:induction false} AddedNothing(code: Access, lower: seq<int>, size: seq<nat>, index: seq<int>, i: nat, n: nat)
    requires IsCode(code, |size|) && Fits(code, |size|) && |lower| == |size| == |index| && i < n <= |size|
    requires index[i] - lower[i] >= B31
    ensures Added32(code.terms, lower, size, index, n) == None
  {
    if i + 1 < n {
      AddedNothing(code, lower, size, index, i, n - 1);
    }
  }
}

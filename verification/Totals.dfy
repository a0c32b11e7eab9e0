/** Sums over sequences, and the size of a tiling. */
module Totals {
  import opened Intervals
  import opened Blocks
  import opened FreeLists
  import opened Sums

  function Sum(s: seq<nat>): nat {
    if s == [] then 0 else s[0] + Sum(s[1..])
  }

  lemma {:induction false} SumUpdate(s: seq<nat>, i: nat, v: nat)
    requires i < |s|
    ensures s[i] <= Sum(s) && Sum(s[i := v]) == Sum(s) - s[i] + v
  {
    if i == 0 {
      assert s[i := v][1..] == s[1..];
    } else {
      SumUpdate(s[1..], i - 1, v);
      assert s[i := v][1..] == s[1..][i - 1 := v];
    }
  }

  // ----- lengths of runs -----

  ghost function Lengths(b: Tiling): map<nat, nat> {
    map h | h in b :: b[h].len
  }

  ghost function FreeLengths(b: Tiling): map<nat, nat> {
    map h | h in b && b[h].Free? :: b[h].len
  }

  ghost function UsedLengths(b: Tiling): map<nat, nat> {
    map h | h in b && b[h].Used? :: b[h].len
  }

  /** The runs on list i. */
  ghost function OnList(b: Tiling, cls: Lists, i: nat): map<nat, nat> {
    map h | h in cls && h in b && cls[h] == i :: b[h].len
  }

  ghost predicate BytesMatch(bytes: seq<nat>, b: Tiling, cls: Lists) {
    && |bytes| == N_HBLK_FLS + 1
    && (forall i: nat :: i <= N_HBLK_FLS ==> bytes[i] == Total(OnList(b, cls, i)) * HBLKSIZE)
  }

  lemma BytesFrame(bytes: seq<nat>, b: Tiling, b': Tiling, cls: Lists)
    requires BytesMatch(bytes, b, cls)
    requires forall h :: h in cls && h in b ==> h in b' && b'[h].len == b[h].len
    requires forall h :: h in cls && h in b' ==> h in b
    ensures BytesMatch(bytes, b', cls)
  {
    forall i: nat | i <= N_HBLK_FLS ensures OnList(b', cls, i) == OnList(b, cls, i) {
    }
  }

  /** A run leaves its list. */
  lemma BytesUnlink(bytes: seq<nat>, b: Tiling, cls: Lists, h: nat)
    requires BytesMatch(bytes, b, cls) && h in cls && h in b && cls[h] <= N_HBLK_FLS
    ensures b[h].len * HBLKSIZE <= bytes[cls[h]]
    ensures BytesMatch(bytes[cls[h] := bytes[cls[h]] - b[h].len * HBLKSIZE], b, cls - {h})
  {
    var i := cls[h];
    TotalRemove(OnList(b, cls, i), h);
    assert OnList(b, cls - {h}, i) == OnList(b, cls, i) - {h};
    forall j: nat | j <= N_HBLK_FLS && j != i ensures OnList(b, cls - {h}, j) == OnList(b, cls, j) {
    }
  }

  /** A run joins list i. */
  lemma BytesPush(bytes: seq<nat>, b: Tiling, cls: Lists, h: nat, i: nat)
    requires BytesMatch(bytes, b, cls) && h !in cls && h in b && i <= N_HBLK_FLS
    ensures BytesMatch(bytes[i := bytes[i] + b[h].len * HBLKSIZE], b, cls[h := i])
  {
    TotalInsert(OnList(b, cls, i), h, b[h].len);
    assert OnList(b, cls[h := i], i) == OnList(b, cls, i)[h := b[h].len];
    forall j: nat | j <= N_HBLK_FLS && j != i ensures OnList(b, cls[h := i], j) == OnList(b, cls, j) {
    }
  }

  // ----- free bytes of all lists together -----

  /** The runs on the lists before the n-th. */
  ghost function OnListsBefore(b: Tiling, cls: Lists, n: nat): map<nat, nat> {
    map h | h in cls && h in b && cls[h] < n :: b[h].len
  }

  lemma {:induction false} SumOfLists(bytes: seq<nat>, b: Tiling, cls: Lists, n: nat)
    requires BytesMatch(bytes, b, cls) && n <= N_HBLK_FLS + 1
    ensures Sum(bytes[..n]) == Total(OnListsBefore(b, cls, n)) * HBLKSIZE
  {
    if n == 0 {
      assert OnListsBefore(b, cls, 0) == map[];
    } else {
      SumOfLists(bytes, b, cls, n - 1);
      AddList(bytes, b, cls, n - 1);
    }
  }

  lemma AddList(bytes: seq<nat>, b: Tiling, cls: Lists, i: nat)
    requires i < |bytes| && bytes[i] == Total(OnList(b, cls, i)) * HBLKSIZE
    ensures Sum(bytes[..i + 1]) == Sum(bytes[..i]) + bytes[i]
    ensures Total(OnListsBefore(b, cls, i + 1)) == Total(OnListsBefore(b, cls, i)) + Total(OnList(b, cls, i))
  {
    hide Total, Sum;
    SumSnoc(bytes[..i], bytes[i]);
    assert bytes[..i + 1] == bytes[..i] + [bytes[i]];
    TotalUnion(OnListsBefore(b, cls, i), OnList(b, cls, i));
    assert OnListsBefore(b, cls, i + 1) == OnListsBefore(b, cls, i) + OnList(b, cls, i);
  }

  lemma {:induction false} SumSnoc(s: seq<nat>, v: nat)
    ensures Sum(s + [v]) == Sum(s) + v
  {
    if s != [] {
      SumSnoc(s[1..], v);
      assert (s + [v])[1..] == s[1..] + [v];
    }
  }

  /** When the lists hold exactly the free runs, their byte counters add up to the free memory. */
  lemma SumOfAllLists(bytes: seq<nat>, b: Tiling, cls: Lists)
    requires BytesMatch(bytes, b, cls)
    requires forall h :: h in cls <==> h in b && b[h].Free?
    requires forall h :: h in cls ==> cls[h] <= N_HBLK_FLS
    ensures Sum(bytes) == Total(FreeLengths(b)) * HBLKSIZE
  {
    SumOfLists(bytes, b, cls, N_HBLK_FLS + 1);
    assert bytes[..N_HBLK_FLS + 1] == bytes;
    assert OnListsBefore(b, cls, N_HBLK_FLS + 1) == FreeLengths(b);
  }

  // ----- the size of the heap -----

  /** The lengths of the runs add up to the number of blocks of the heap. */
  lemma {:induction false} TilingSize(b: Tiling, mem: set<nat>)
    requires Tiled(b, mem)
    ensures Total(Lengths(b)) == |mem|
    decreases |b|
  {
    if b == map[] {
      assert Lengths(b) == map[];
      NothingHeld(b, mem);
    } else {
      var h :| h in b;
      hide Tiled, Extent, Total;
      RemoveRun(b, mem, h);
      TilingSize(b - {h}, mem - Extent(h, b[h].len));
      ExtentSize(h, b[h].len);
      LengthsRemove(b, h);
    }
  }

  lemma LengthsRemove(b: Tiling, h: nat)
    requires h in b
    ensures Total(Lengths(b)) == b[h].len + Total(Lengths(b - {h}))
  {
    TotalRemove(Lengths(b), h);
    assert Lengths(b) - {h} == Lengths(b - {h});
  }

  lemma NothingHeld(b: Tiling, mem: set<nat>)
    requires Tiled(b, mem) && b == map[]
    ensures mem == {}
  {
    assert forall a: nat :: !Held(b, a);
  }

  lemma RemoveRun(b: Tiling, mem: set<nat>, h: nat)
    requires Tiled(b, mem) && h in b
    ensures Extent(h, b[h].len) <= mem
    ensures Tiled(b - {h}, mem - Extent(h, b[h].len))
  {
    var c := b - {h};
    var ext := Extent(h, b[h].len);
    forall a: nat ensures a in ext <==> In(b, h, a) {
      assert Between(h, a, h + b[h].len) <==> h <= a < h + b[h].len;
    }
    forall a | a in ext ensures a in mem {
      assert In(b, h, a) && Held(b, a);
    }
    forall a: nat ensures a in mem - ext <==> Held(c, a) {
      if a in mem - ext {
        assert Held(b, a);
        var g: nat :| In(b, g, a);
        assert In(c, g, a);
      }
      if Held(c, a) {
        var g: nat :| In(c, g, a);
        assert In(b, g, a);
        assert Held(b, a);
      }
    }
  }

  /** Used and free memory together are the heap. */
  lemma UsedAndFree(b: Tiling, mem: set<nat>)
    requires Tiled(b, mem)
    ensures Total(UsedLengths(b)) + Total(FreeLengths(b)) == |mem|
  {
    TilingSize(b, mem);
    TotalUnion(UsedLengths(b), FreeLengths(b));
    assert UsedLengths(b) + FreeLengths(b) == Lengths(b);
  }

  // ----- what each step does to the amount of free memory -----

  ghost function FreeTotal(b: Tiling): nat {
    Total(FreeLengths(b))
  }

  lemma FreeTotalSet(b: Tiling, h: nat, run: Block)
    requires h in b
    ensures FreeTotal(b[h := run]) ==
      FreeTotal(b) - (if b[h].Free? then b[h].len else 0) + (if run.Free? then run.len else 0)
  {
    FreeTotalRemove(b, h);
    FreeTotalRemove(b[h := run], h);
    assert b[h := run] - {h} == b - {h};
  }

  lemma FreeTotalRemove(b: Tiling, h: nat)
    requires h in b
    ensures FreeTotal(b) == (if b[h].Free? then b[h].len else 0) + FreeTotal(b - {h})
  {
    if b[h].Free? {
      TotalRemove(FreeLengths(b), h);
      assert FreeLengths(b) - {h} == FreeLengths(b - {h});
    } else {
      assert FreeLengths(b) == FreeLengths(b - {h});
    }
  }

  lemma CutTotal(b: Tiling, h: nat, m: nat)
    requires h in b && b[h].Free? && h < m < h + b[h].len && m !in b
    ensures FreeTotal(Cut(b, h, m)) == FreeTotal(b)
  {
    FreeTotalSet(b, h, Free(m - h));
    var c := b[h := Free(m - h)];
    FreeTotalRemove(Cut(b, h, m), m);
    assert Cut(b, h, m) - {m} == c;
  }

  lemma JoinTotal(b: Tiling, h: nat, e: nat)
    requires h in b && e in b && h != e && b[h].Free? && b[e].Free?
    ensures FreeTotal(Join(b, h, e)) == FreeTotal(b)
  {
    FreeTotalRemove(b, e);
    FreeTotalSet(b - {e}, h, Free(b[h].len + b[e].len));
  }

  lemma CarveTotal(b: Tiling, mem: set<nat>, f: nat, r: nat, sz: nat)
    requires Tiled(b, mem) && Fits(b, f, r, BlocksFor(sz))
    ensures FreeTotal(Carve(b, f, r, sz)) == FreeTotal(b) - BlocksFor(sz)
  {
    hide FreeTotal, Tiled, CutOut;
    var k := BlocksFor(sz);
    CutOutTotal(b, mem, f, r, k);
    FreeTotalSet(CutOut(b, f, r, k), r, UsedRun(sz));
  }

  lemma CutOutTotal(b: Tiling, mem: set<nat>, f: nat, r: nat, k: nat)
    requires Tiled(b, mem) && Fits(b, f, r, k)
    ensures r in CutOut(b, f, r, k) && CutOut(b, f, r, k)[r] == Free(k) && FreeTotal(CutOut(b, f, r, k)) == FreeTotal(b)
  {
    hide FreeTotal, Covers, Disjoint;
    if f < r {
      CutTiled(b, mem, f, r);
      CutTotal(b, f, r);
    }
    var b1 := FrontCut(b, f, r);
    if r + k < f + b[f].len {
      CutTiled(b1, mem, r, r + k);
      CutTotal(b1, r, r + k);
    }
  }

  lemma ReleaseTotal(b: Tiling, mem: set<nat>, h: nat)
    requires Tiled(b, mem) && h in b && b[h].Used?
    ensures FreeTotal(Release(b, h)) == FreeTotal(b) + b[h].len
  {
    hide FreeTotal, Tiled, MergeNext, MergePrev;
    var b0 := b[h := Free(b[h].len)];
    RetagTiled(b, mem, h, Free(b[h].len));
    FreeTotalSet(b, h, Free(b[h].len));
    MergeNextKeeps(b0, mem, h);
    MergeNextTotal(b0, mem, h);
    MergePrevTotal(MergeNext(b0, h), mem, h);
  }

  lemma MergeNextTotal(b: Tiling, mem: set<nat>, h: nat)
    requires Tiled(b, mem) && h in b && b[h].Free?
    ensures FreeTotal(MergeNext(b, h)) == FreeTotal(b)
  {
    hide FreeTotal;
    var e := h + b[h].len;
    if e in b && b[e].Free? {
      JoinTotal(b, h, e);
    }
  }

  lemma MergePrevTotal(b: Tiling, mem: set<nat>, h: nat)
    requires Tiled(b, mem) && h in b && b[h].Free?
    ensures FreeTotal(MergePrev(b, h)) == FreeTotal(b)
  {
    hide FreeTotal;
    var p := FreeEndingAt(b, h);
    if p != 0 {
      JoinTotal(b, p, h);
    }
  }

  lemma ShatterTotal(b: Tiling, mem: set<nat>, h: nat)
    requires Tiled(b, mem) && h in b && b[h].Free?
    ensures b[h].len <= FreeTotal(b) && FreeTotal(Shatter(b, h)) == FreeTotal(b) - b[h].len
  {
    FreeTotalRemove(b, h);
    ShatterLengths(b, h);
  }

  lemma ShatterLengths(b: Tiling, h: nat)
    requires Disjoint(b) && h in b && 1 <= b[h].len
    ensures FreeLengths(Shatter(b, h)) == FreeLengths(b - {h})
  {
    SinglesHold(h, b[h].len);
    hide Singles;
    assert forall g :: g in b && h <= g < h + b[h].len ==> g == h;
    assert FreeLengths(Shatter(b, h)).Keys == FreeLengths(b - {h}).Keys;
  }
}

/** The heap as a tiling: which runs of blocks are one allocation or one free extent.

    A heap block is named by its block number, its address divided by HBLKSIZE. Number 0 stands for the
    null pointer; the heap never holds blocks 0 and 1. A tiling maps the number of each first block to the
    run that starts there. */
module Blocks {
  import opened Intervals

  const HBLKSIZE: nat := 4096
  // The first value that no longer fits a word, and the first one whose sign bit is set.
  const WORD_LIMIT: nat := 0x1_0000_0000_0000_0000
  const SIGN_BIT: nat := 0x8000_0000_0000_0000
  // The number of blocks in the address space.
  const ADDRESS_LIMIT: nat := 0x10_0000_0000_0000

  /** The number of blocks that hold sz bytes (OBJ_SZ_TO_BLOCKS). */
  function BlocksFor(sz: nat): nat {
    (sz + HBLKSIZE - 1) / HBLKSIZE
  }

  /** One run of blocks: a free extent, or the home of an object of sz bytes. */
  datatype Block = Free(len: nat) | Used(len: nat, sz: nat)

  type Tiling = map<nat, Block>

  function UsedRun(sz: nat): Block {
    Used(BlocksFor(sz), sz)
  }

  /** Block a lies in the run that starts at h. */
  ghost predicate In(b: Tiling, h: nat, a: nat) {
    h in b && h <= a < h + b[h].len
  }

  ghost predicate Disjoint(b: Tiling) {
    forall h, g :: h in b && g in b && h < g ==> h + b[h].len <= g
  }

  /** Block a lies in some run. */
  ghost predicate Held(b: Tiling, a: nat) {
    exists h: nat :: In(b, h, a)
  }

  ghost predicate Covers(b: Tiling, mem: set<nat>) {
    forall a: nat :: a in mem <==> Held(b, a)
  }

  /** The runs of b cover exactly the blocks of mem, without gap or overlap. */
  ghost predicate Tiled(b: Tiling, mem: set<nat>) {
    && (forall h :: h in b ==> 1 <= b[h].len && 2 <= h && h + b[h].len < ADDRESS_LIMIT)
    && Disjoint(b)
    && Covers(b, mem)
  }

  ghost predicate NoAdjacentFree(b: Tiling) {
    forall h, g :: h in b && g in b && b[h].Free? && b[g].Free? ==> h + b[h].len != g
  }

  /** Block a lies in a free run. */
  ghost predicate FreeAt(b: Tiling, a: nat) {
    exists h: nat :: In(b, h, a) && b[h].Free?
  }

  /** A free run ends just before h. */
  ghost predicate EndsAt(b: Tiling, p: nat, h: nat) {
    p in b && b[p].Free? && p + b[p].len == h
  }

  /** The free run that ends just before h, or 0. */
  ghost function FreeEndingAt(b: Tiling, h: nat): (p: nat)
    ensures p != 0 ==> EndsAt(b, p, h)
    ensures p == 0 ==> forall q: nat :: EndsAt(b, q, h) ==> q == 0
  {
    if q: nat :| EndsAt(b, q, h) && q != 0 then q else 0
  }

  // ----- the steps an operation is made of -----

  /** Cut the run h into two free runs, the second of which starts at m. */
  function Cut(b: Tiling, h: nat, m: nat): Tiling
    requires h in b && h < m < h + b[h].len
  {
    b[h := Free(m - h)][m := Free(h + b[h].len - m)]
  }

  /** Join the free run h with the free run e after it. */
  function Join(b: Tiling, h: nat, e: nat): Tiling
    requires h in b && e in b
  {
    (b - {e})[h := Free(b[h].len + b[e].len)]
  }

  /** Used runs of one block each at h, h + 1, ..., h + n - 1. */
  function Singles(h: nat, n: nat): Tiling {
    map a: nat {:trigger Between(h, a, h + n)} | h <= a < h + n && Between(h, a, h + n) :: Used(1, HBLKSIZE)
  }

  lemma SinglesHold(h: nat, n: nat)
    ensures forall a: nat :: a in Singles(h, n) <==> h <= a < h + n
    ensures forall a: nat :: a in Singles(h, n) ==> Singles(h, n)[a] == Used(1, HBLKSIZE)
  {
    forall a: nat ensures a in Singles(h, n) <==> h <= a < h + n {
      assert Between(h, a, h + n) <==> h <= a < h + n;
    }
  }

  /** Replace the run h by used runs of one block each. */
  function Shatter(b: Tiling, h: nat): Tiling
    requires h in b
  {
    b + Singles(h, b[h].len)
  }

  // ----- what an allocation, a release and a series of drops do to a tiling -----

  /** The run of k blocks at r lies inside the free run f. */
  predicate Fits(b: Tiling, f: nat, r: nat, k: nat) {
    f in b && b[f].Free? && f <= r && 1 <= k && r + k <= f + b[f].len
  }

  /** Where the front of the free run f, up to r, has been split off. */
  function FrontCut(b: Tiling, f: nat, r: nat): Tiling
    requires f in b && r < f + b[f].len
  {
    if f < r then Cut(b, f, r) else b
  }

  /** Cut [r, r + k) out of the free run f. */
  function CutOut(b: Tiling, f: nat, r: nat, k: nat): Tiling
    requires Fits(b, f, r, k)
  {
    var b1 := FrontCut(b, f, r);
    if r + k < f + b[f].len then Cut(b1, r, r + k) else b1
  }

  /** Allocate sz bytes at r inside the free run f; what is left before and after stays free. */
  function Carve(b: Tiling, f: nat, r: nat, sz: nat): Tiling
    requires Fits(b, f, r, BlocksFor(sz))
  {
    CutOut(b, f, r, BlocksFor(sz))[r := UsedRun(sz)]
  }

  /** Join the run h with the free run after it, if there is one. */
  function MergeNext(b: Tiling, h: nat): Tiling
    requires h in b
  {
    var e := h + b[h].len;
    if e in b && b[e].Free? then Join(b, h, e) else b
  }

  /** Join the run h with the free run before it, if there is one. */
  ghost function MergePrev(b: Tiling, h: nat): Tiling
    requires h in b
  {
    var p := FreeEndingAt(b, h);
    if p != 0 then Join(b, p, h) else b
  }

  /** Free the run h and merge it with the free runs just after and just before it. */
  ghost function Release(b: Tiling, h: nat): Tiling
    requires h in b && 1 <= b[h].len
  {
    MergePrev(MergeNext(b[h := Free(b[h].len)], h), h)
  }

  /** Each run of hs is free when its turn comes to be shattered. */
  ghost predicate CanShatter(b: Tiling, hs: seq<nat>)
    decreases |hs|
  {
    hs == [] || (hs[0] in b && b[hs[0]].Free? && CanShatter(Shatter(b, hs[0]), hs[1..]))
  }

  ghost function ShatterAll(b: Tiling, hs: seq<nat>): Tiling
    requires CanShatter(b, hs)
    decreases |hs|
  {
    if hs == [] then b else ShatterAll(Shatter(b, hs[0]), hs[1..])
  }

  // ----- every step keeps the tiling -----

  /** Change what the run h holds without changing its extent. */
  lemma RetagTiled(b: Tiling, mem: set<nat>, h: nat, run: Block)
    requires Tiled(b, mem) && h in b && run.len == b[h].len
    ensures Tiled(b[h := run], mem)
  {
    var c := b[h := run];
    assert forall g: nat, a: nat :: In(b, g, a) <==> In(c, g, a);
    assert forall a: nat :: Held(b, a) <==> Held(c, a);
  }

  lemma CutTiled(b: Tiling, mem: set<nat>, h: nat, m: nat)
    requires Tiled(b, mem) && h in b && h < m < h + b[h].len
    ensures m !in b
    ensures Tiled(Cut(b, h, m), mem)
  {
    hide Disjoint, Held;
    CutDisjoint(b, h, m);
    CutHeld(b, h, m);
  }

  lemma CutDisjoint(b: Tiling, h: nat, m: nat)
    requires Disjoint(b) && h in b && h < m < h + b[h].len
    ensures m !in b && Disjoint(Cut(b, h, m))
  {
  }

  lemma CutHeld(b: Tiling, h: nat, m: nat)
    requires h in b && h < m < h + b[h].len && m !in b
    ensures forall a: nat :: Held(Cut(b, h, m), a) <==> Held(b, a)
  {
    var c := Cut(b, h, m);
    forall a: nat ensures Held(c, a) <==> Held(b, a) {
      if g: nat :| In(c, g, a) {
        assert In(b, if g == m then h else g, a);
      }
      if g: nat :| In(b, g, a) {
        assert In(c, if g == h && m <= a then m else g, a);
      }
    }
  }

  lemma JoinTiled(b: Tiling, mem: set<nat>, h: nat, e: nat)
    requires Tiled(b, mem) && h in b && e in b && e == h + b[h].len
    ensures Tiled(Join(b, h, e), mem)
  {
    hide Disjoint, Held;
    JoinDisjoint(b, h, e);
    JoinHeld(b, h, e);
    RunNotEmpty(b, mem, h);
  }

  lemma JoinDisjoint(b: Tiling, h: nat, e: nat)
    requires Disjoint(b) && h in b && e in b && e == h + b[h].len && 1 <= b[h].len
    ensures Disjoint(Join(b, h, e))
  {
  }

  lemma JoinHeld(b: Tiling, h: nat, e: nat)
    requires h in b && e in b && e == h + b[h].len && 1 <= b[h].len
    ensures forall a: nat :: Held(Join(b, h, e), a) <==> Held(b, a)
  {
    var c := Join(b, h, e);
    forall a: nat ensures Held(c, a) <==> Held(b, a) {
      if g: nat :| In(c, g, a) {
        assert In(b, if g == h && e <= a then e else g, a);
      }
      if g: nat :| In(b, g, a) {
        assert In(c, if g == e then h else g, a);
      }
    }
  }

  lemma ShatterTiled(b: Tiling, mem: set<nat>, h: nat)
    requires Tiled(b, mem) && h in b
    ensures Tiled(Shatter(b, h), mem)
  {
    var c := Shatter(b, h);
    forall a: nat ensures Held(c, a) <==> Held(b, a) {
      if g: nat :| In(c, g, a) {
        assert In(b, if h <= g < h + b[h].len then h else g, a);
      }
      if g: nat :| In(b, g, a) {
        assert In(c, if g == h then a else g, a);
      }
    }
  }

  lemma InUnique(b: Tiling, h: nat, g: nat, a: nat)
    requires Disjoint(b) && In(b, h, a) && In(b, g, a)
    ensures h == g
  {
  }

  lemma EndsAtUnique(b: Tiling, mem: set<nat>, p: nat, q: nat, h: nat)
    requires Tiled(b, mem) && EndsAt(b, p, h) && EndsAt(b, q, h)
    ensures p == q
  {
    assert In(b, p, h - 1) && In(b, q, h - 1);
  }

  // ----- what every step does to the free memory and to the used runs -----

  ghost predicate SameUsed(b: Tiling, c: Tiling) {
    && (forall g :: g in b && !b[g].Free? ==> g in c && c[g] == b[g])
    && (forall g :: g in c && !c[g].Free? ==> g in b && b[g] == c[g])
  }

  lemma SameUsedSelf(b: Tiling)
    ensures SameUsed(b, b)
  {
  }

  lemma RunNotEmpty(b: Tiling, mem: set<nat>, h: nat)
    requires Tiled(b, mem) && h in b
    ensures 2 <= h && 1 <= b[h].len
  {
  }

  lemma JoinKeepsMemory(b: Tiling, mem: set<nat>, h: nat, e: nat)
    requires Tiled(b, mem) && h in b && e in b && e == h + b[h].len && b[h].Free? && b[e].Free?
    ensures forall a: nat :: FreeAt(Join(b, h, e), a) <==> FreeAt(b, a)
    ensures SameUsed(b, Join(b, h, e))
  {
    hide Disjoint, Covers;
    var c := Join(b, h, e);
    forall a: nat ensures FreeAt(c, a) <==> FreeAt(b, a) {
      if FreeAt(c, a) {
        var g: nat :| In(c, g, a) && c[g].Free?;
        assert In(b, if g == h && e <= a then e else g, a);
      }
      if FreeAt(b, a) {
        var g: nat :| In(b, g, a) && b[g].Free?;
        assert In(c, if g == e then h else g, a);
      }
    }
  }

  // ----- adjacency -----

  /** Allocating out of a coalesced tiling leaves it coalesced. */
  lemma CarveCoalesced(b: Tiling, mem: set<nat>, f: nat, r: nat, sz: nat)
    requires Tiled(b, mem) && NoAdjacentFree(b) && Fits(b, f, r, BlocksFor(sz))
    ensures NoAdjacentFree(Carve(b, f, r, sz))
  {
    hide Covers, BlocksFor, Carve;
    var c := Carve(b, f, r, sz);
    forall h, g | h in c && g in c && c[h].Free? && c[g].Free? ensures h + c[h].len != g {
      CarvedFree(b, f, r, sz, h);
      CarvedFree(b, f, r, sz, g);
      if h != f && h in b && g == r + BlocksFor(sz) {
        InUniqueAt(b, h, f);
      }
    }
  }

  /** The free runs after an allocation: those of before, and what is left of f before and after. */
  lemma CarvedFree(b: Tiling, f: nat, r: nat, sz: nat, h: nat)
    requires Disjoint(b) && Fits(b, f, r, BlocksFor(sz)) && h in Carve(b, f, r, sz) && Carve(b, f, r, sz)[h].Free?
    ensures var run, k := Carve(b, f, r, sz)[h], BlocksFor(sz);
      || (h == f && f < r && run.len == r - f)
      || (h == r + k && h < f + b[f].len && h + run.len == f + b[f].len)
      || (h != f && h in b && run == b[h])
    ensures h != r
  {
    hide BlocksFor, Disjoint;
  }

  /** Two different runs do not overlap. */
  lemma InUniqueAt(b: Tiling, h: nat, f: nat)
    requires Disjoint(b) && h in b && f in b && h != f && 1 <= b[h].len && 1 <= b[f].len
    ensures h + b[h].len <= f || f + b[f].len <= h
  {
    if h < f {
      assert !In(b, h, f);
    } else {
      assert !In(b, f, h);
    }
  }

  lemma ShatterCoalesced(b: Tiling, mem: set<nat>, h: nat)
    requires Tiled(b, mem) && NoAdjacentFree(b) && h in b
    ensures NoAdjacentFree(Shatter(b, h))
  {
  }

  // ----- main results about tilings -----

  /** Two coalesced tilings with the same free memory have the same free runs. */
  lemma FreeRunsDetermined(b: Tiling, c: Tiling, mem: set<nat>, mem': set<nat>)
    requires Tiled(b, mem) && Tiled(c, mem') && NoAdjacentFree(b) && NoAdjacentFree(c)
    requires forall a: nat :: FreeAt(b, a) <==> FreeAt(c, a)
    ensures forall h :: h in b && b[h].Free? ==> h in c && c[h] == b[h]
    ensures forall h :: h in c && c[h].Free? ==> h in b && b[h] == c[h]
  {
    forall h | h in b && b[h].Free? ensures h in c && c[h] == b[h] {
      FreeRunCarriesOver(b, c, mem, mem', h);
    }
    forall h | h in c && c[h].Free? ensures h in b && b[h] == c[h] {
      FreeRunCarriesOver(c, b, mem', mem, h);
    }
  }

  lemma FreeRunCarriesOver(b: Tiling, c: Tiling, mem: set<nat>, mem': set<nat>, h: nat)
    requires Tiled(b, mem) && Tiled(c, mem') && NoAdjacentFree(b) && NoAdjacentFree(c)
    requires forall a: nat :: FreeAt(b, a) <==> FreeAt(c, a)
    requires h in b && b[h].Free?
    ensures h in c && c[h] == b[h]
  {
    assert In(b, h, h) && FreeAt(b, h);
    var g: nat :| In(c, g, h) && c[g].Free?;
    assert g < h ==> In(c, g, h - 1);
    assert In(c, g, h + b[h].len) <== h + b[h].len < g + c[g].len;
    assert In(b, h, g + c[g].len) <== g + c[g].len < h + b[h].len;
    FreeRunIsMaximal(b, mem, h);
    FreeRunIsMaximal(c, mem', g);
  }

  lemma FreeRunIsMaximal(b: Tiling, mem: set<nat>, h: nat)
    requires Tiled(b, mem) && NoAdjacentFree(b) && h in b && b[h].Free?
    ensures !FreeAt(b, h - 1) && !FreeAt(b, h + b[h].len)
  {
    forall f: nat | In(b, f, h - 1) ensures !b[f].Free? {
      assert f + b[f].len == h;
    }
    forall f: nat | In(b, f, h + b[h].len) ensures !b[f].Free? {
      assert f == h + b[h].len;
    }
  }

  /** Freeing the run that was just carved out restores the tiling, free runs and all. */
  lemma ReleaseUndoesCarve(b: Tiling, mem: set<nat>, f: nat, r: nat, sz: nat)
    requires Tiled(b, mem) && NoAdjacentFree(b) && Fits(b, f, r, BlocksFor(sz))
    ensures r in Carve(b, f, r, sz)
    ensures Release(Carve(b, f, r, sz), r) == b
  {
    hide Tiled, NoAdjacentFree, BlocksFor;
    var k := BlocksFor(sz);
    var b1 := FrontCut(b, f, r);
    RunNotEmpty(b, mem, f);
    assert Carve(b, f, r, sz)[r := Free(k)] == CutOut(b, f, r, k);
    MergeUndoesSecondCut(b, mem, f, r, k);
    CutEndsAt(b, mem, f, r);
    if f < r {
      CutTiled(b, mem, f, r);
      JoinUndoesCut(b, f, r);
    }
  }

  lemma MergeUndoesSecondCut(b: Tiling, mem: set<nat>, f: nat, r: nat, k: nat)
    requires Tiled(b, mem) && NoAdjacentFree(b) && Fits(b, f, r, k)
    ensures CutOut(b, f, r, k)[r] == Free(k)
    ensures MergeNext(CutOut(b, f, r, k), r) == FrontCut(b, f, r)
  {
    hide Tiled, NoAdjacentFree, Join;
    var b1 := FrontCut(b, f, r);
    var e := r + k;
    if f < r {
      CutTiled(b, mem, f, r);
    }
    if e < f + b[f].len {
      CutTiled(b1, mem, r, e);
      JoinUndoesCut(b1, r, e);
    } else {
      NothingFreeAfter(b, f);
    }
  }

  lemma JoinUndoesCut(b: Tiling, h: nat, m: nat)
    requires h in b && b[h].Free? && h < m < h + b[h].len && m !in b
    ensures Join(Cut(b, h, m), h, m) == b
  {
  }

  lemma NothingFreeAfter(b: Tiling, f: nat)
    requires NoAdjacentFree(b) && f in b && b[f].Free?
    ensures f + b[f].len in b ==> !b[f + b[f].len].Free?
  {
  }

  lemma CutEndsAt(b: Tiling, mem: set<nat>, f: nat, r: nat)
    requires Tiled(b, mem) && NoAdjacentFree(b) && f in b && b[f].Free? && f <= r < f + b[f].len
    ensures FreeEndingAt(FrontCut(b, f, r), r) == if f < r then f else 0
  {
    if f < r {
      CutTiled(b, mem, f, r);
      var c := Cut(b, f, r);
      assert EndsAt(c, f, r);
      forall q: nat | EndsAt(c, q, r) ensures q == f {
        EndsAtUnique(c, mem, f, q, r);
      }
    }
  }

  /** Releasing a run turns its blocks, and no others, from used to free, and leaves every other used run. */
  lemma ReleaseFrees(b: Tiling, mem: set<nat>, h: nat)
    requires Tiled(b, mem) && h in b && !b[h].Free?
    ensures Tiled(Release(b, h), mem)
    ensures forall a: nat :: FreeAt(Release(b, h), a) <==> FreeAt(b, a) || In(b, h, a)
    ensures SameUsed(b[h := Free(b[h].len)], Release(b, h))
  {
    RetagTiled(b, mem, h, Free(b[h].len));
    RetagFrees(b, h);
    MergeNextKeeps(b[h := Free(b[h].len)], mem, h);
    MergePrevKeeps(MergeNext(b[h := Free(b[h].len)], h), mem, h);
  }

  lemma MergeNextKeeps(b: Tiling, mem: set<nat>, h: nat)
    requires Tiled(b, mem) && h in b && b[h].Free?
    ensures h in MergeNext(b, h) && MergeNext(b, h)[h].Free?
    ensures Tiled(MergeNext(b, h), mem) && SameUsed(b, MergeNext(b, h))
    ensures forall a: nat :: FreeAt(MergeNext(b, h), a) <==> FreeAt(b, a)
  {
    hide Tiled, SameUsed, FreeAt;
    SameUsedSelf(b);
    RunNotEmpty(b, mem, h);
    var e := h + b[h].len;
    if e in b && b[e].Free? {
      JoinTiled(b, mem, h, e);
      JoinKeepsMemory(b, mem, h, e);
    }
  }

  lemma MergePrevKeeps(b: Tiling, mem: set<nat>, h: nat)
    requires Tiled(b, mem) && h in b && b[h].Free?
    ensures Tiled(MergePrev(b, h), mem) && SameUsed(b, MergePrev(b, h))
    ensures forall a: nat :: FreeAt(MergePrev(b, h), a) <==> FreeAt(b, a)
  {
    var p := FreeEndingAt(b, h);
    if p != 0 {
      JoinTiled(b, mem, p, h);
      JoinKeepsMemory(b, mem, p, h);
    }
  }

  lemma RetagFrees(b: Tiling, h: nat)
    requires h in b && !b[h].Free?
    ensures forall a: nat :: FreeAt(b[h := Free(b[h].len)], a) <==> FreeAt(b, a) || In(b, h, a)
  {
    var c := b[h := Free(b[h].len)];
    forall a: nat ensures FreeAt(c, a) <==> FreeAt(b, a) || In(b, h, a) {
      if g: nat :| In(c, g, a) && c[g].Free? {
        assert In(b, g, a);
      }
      if g: nat :| In(b, g, a) && (b[g].Free? || g == h) {
        assert In(c, g, a);
      }
    }
  }

  /** Releasing a run of a coalesced tiling leaves it coalesced. */
  lemma ReleaseCoalesced(b: Tiling, mem: set<nat>, h: nat)
    requires Tiled(b, mem) && NoAdjacentFree(b) && h in b && !b[h].Free?
    ensures NoAdjacentFree(Release(b, h))
  {
    hide Covers;
    var b0 := b[h := Free(b[h].len)];
    RetagTiled(b, mem, h, Free(b[h].len));
    MergeNextKeeps(b0, mem, h);
    MergeNextCoalesces(b0, mem, h);
    MergePrevCoalesces(MergeNext(b0, h), mem, h);
  }

  lemma MergeNextCoalesces(b: Tiling, mem: set<nat>, h: nat)
    requires Tiled(b, mem) && h in b && b[h].Free?
    requires forall g, e :: g in b && e in b && b[g].Free? && b[e].Free? && g + b[g].len == e ==> g == h || e == h
    ensures var c := MergeNext(b, h);
      forall g, e :: g in c && e in c && c[g].Free? && c[e].Free? && g + c[g].len == e ==> e == h
  {
    hide Covers;
  }

  lemma MergePrevCoalesces(b: Tiling, mem: set<nat>, h: nat)
    requires Tiled(b, mem) && h in b && b[h].Free?
    requires forall g, e :: g in b && e in b && b[g].Free? && b[e].Free? && g + b[g].len == e ==> e == h
    ensures NoAdjacentFree(MergePrev(b, h))
  {
    hide Covers;
    var p := FreeEndingAt(b, h);
    if p == 0 {
      forall g, e | g in b && e in b && b[g].Free? && b[e].Free? ensures g + b[g].len != e {
        assert !EndsAt(b, g, e) || e != h;
      }
    } else {
      forall q: nat | EndsAt(b, q, h) ensures q == p {
        EndsAtUnique(b, mem, p, q, h);
      }
    }
  }
}

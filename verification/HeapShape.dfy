/** How the block index and the byte counters show a tiling of the heap. */
module HeapShape {
  import opened Intervals
  import opened Blocks
  import opened BlockIndexes
  import opened FreeLists

  /** The byte size a run's header holds. */
  function SzOf(run: Block): nat {
    if run.Free? then run.len * HBLKSIZE else run.sz
  }

  /** A used run is just as long as its object needs. */
  ghost predicate Sized(b: Tiling) {
    forall h :: h in b && b[h].Used? ==> b[h].len == BlocksFor(b[h].sz)
  }

  predicate HeaderShows(cells: Cells, h: nat, run: Block) {
    IsHeader(cells, h) && cells[h].hdr.sz == SzOf(run) && cells[h].hdr.free == run.Free?
  }

  /** The cell of the block a, which is not the first, of a run at h. */
  predicate InnerShows(cells: Cells, h: nat, a: nat, run: Block)
    requires h < a
  {
    if run.Free? then a !in cells
    else a in cells && cells[a] == Jump(if a - h > MAX_JUMP then MAX_JUMP else a - h)
  }

  predicate HeaderFits(cells: Cells, h: nat, run: Block, loose: set<nat>) {
    if h in loose then IsHeader(cells, h) else HeaderShows(cells, h, run)
  }

  /** The index agrees with the tiling block by block: a header exactly at the start of each run, a jump count
      exactly inside the used runs, nil everywhere else. Two things may still be unsettled: the inner cells of
      the run at x, which may hold anything but a header, and the contents of the headers in loose. */
  ghost predicate AgreesBut(cells: Cells, b: Tiling, mem: set<nat>, x: int, loose: set<nat>) {
    && (forall h :: h in b ==> HeaderFits(cells, h, b[h], loose))
    && (forall a :: IsHeader(cells, a) ==> a in b)
    && cells.Keys <= mem
    && (forall h: nat, a: nat :: In(b, h, a) && a != h && h != x ==> InnerShows(cells, h, a, b[h]))
  }

  ghost predicate Agrees(cells: Cells, b: Tiling, mem: set<nat>) {
    AgreesBut(cells, b, mem, -1, {})
  }

  /** An index that agrees with a tiling can be walked with jumps. */
  lemma AgreesSkips(cells: Cells, b: Tiling, mem: set<nat>)
    requires Tiled(b, mem) && Agrees(cells, b, mem)
    ensures Skips(cells) && !IsHeader(cells, 0)
  {
    forall a: nat | a in cells && cells[a].Jump?
      ensures exists h: nat :: In(b, h, a) && h != a && 1 <= cells[a].n <= a - h
    {
      assert Held(b, a);
      var h: nat :| In(b, h, a);
      assert HeaderShows(cells, h, b[h]);
      assert InnerShows(cells, h, a, b[h]);
    }
    forall a: nat | IsHeader(cells, a) && cells[a].hdr.free ensures a in b && b[a].len == cells[a].hdr.sz / HBLKSIZE {
      assert HeaderShows(cells, a, b[a]);
    }
  }

  lemma SameShapeAgrees(c: Cells, d: Cells, b: Tiling, mem: set<nat>, x: int, loose: set<nat>)
    requires AgreesBut(c, b, mem, x, loose) && SameShape(c, d)
    ensures AgreesBut(d, b, mem, x, loose)
  {
    forall h | h in b ensures HeaderFits(d, h, b[h], loose) {
      assert HeaderFits(c, h, b[h], loose);
    }
  }

  predicate SameCellAt(c: Cells, d: Cells, a: nat) {
    (a in c <==> a in d) && (a in c ==> c[a] == d[a])
  }

  predicate SameRunAt(b: Tiling, b': Tiling, a: nat) {
    (a in b <==> a in b') && (a in b ==> b[a] == b'[a])
  }

  ghost predicate SameOutside(c: Cells, d: Cells, b: Tiling, b': Tiling, lo: nat, hi: nat) {
    forall a: nat :: a < lo || hi <= a ==> SameCellAt(c, d, a) && SameRunAt(b, b', a)
  }

  /** No run of b crosses lo or hi. */
  ghost predicate Fences(b: Tiling, lo: nat, hi: nat) {
    forall g :: g in b ==> g + b[g].len <= lo || (lo <= g && g + b[g].len <= hi) || hi <= g
  }

  /** The blocks from lo to hi show the runs of b there. */
  ghost predicate ShowsWithin(d: Cells, b: Tiling, lo: nat, hi: nat, loose: set<nat>) {
    && (forall g :: g in b && lo <= g < hi ==> g + b[g].len <= hi && HeaderFits(d, g, b[g], loose))
    && (forall g, a: nat :: g in b && lo <= g < a < g + b[g].len && a < hi ==> InnerShows(d, g, a, b[g]))
    && (forall a: nat :: IsHeader(d, a) && lo <= a < hi ==> a in b)
  }

  /** The part of the heap between lo and hi gets new runs and cells that agree; everything else stays. */
  lemma RegionAgrees(c: Cells, b: Tiling, mem: set<nat>, x: int, d: Cells, b': Tiling, lo: nat, hi: nat,
                     loose: set<nat>)
    requires AgreesBut(c, b, mem, x, {}) && (x == -1 || lo <= x < hi)
    requires Fences(b, lo, hi)
    requires SameOutside(c, d, b, b', lo, hi)
    requires ShowsWithin(d, b', lo, hi, loose)
    requires forall a: nat :: lo <= a < hi ==> a in mem
    ensures AgreesBut(d, b', mem, -1, loose)
  {
    forall g: nat, a: nat | In(b', g, a) && a != g ensures InnerShows(d, g, a, b'[g]) {
      if g < lo || hi <= g {
        assert SameRunAt(b, b', g);
        assert In(b, g, a);
        assert SameCellAt(c, d, a);
      }
    }
    forall g | g in b' ensures HeaderFits(d, g, b'[g], loose) {
      if g < lo || hi <= g {
        assert SameRunAt(b, b', g) && SameCellAt(c, d, g);
        assert HeaderFits(c, g, b[g], {});
      }
    }
    forall a | a in d ensures a in mem && (IsHeader(d, a) ==> a in b') {
      if a < lo || hi <= a {
        assert SameRunAt(b, b', a) && SameCellAt(c, d, a);
      }
    }
  }

  lemma RunRegion(b: Tiling, mem: set<nat>, h: nat)
    requires Tiled(b, mem) && h in b
    ensures 1 <= b[h].len && Fences(b, h, h + b[h].len)
    ensures forall a: nat :: h <= a < h + b[h].len ==> a in mem
    ensures forall g :: g in b && h <= g < h + b[h].len ==> g == h
  {
    forall a: nat | h <= a < h + b[h].len ensures a in mem {
      assert In(b, h, a) && Held(b, a);
    }
  }

  /** A free run h is cut in two at m, where a header has been installed. */
  lemma CutAgrees(c: Cells, b: Tiling, mem: set<nat>, h: nat, m: nat, d: Cells, loose: set<nat>)
    requires Tiled(b, mem) && Agrees(c, b, mem)
    requires h in b && b[h].Free? && h < m < h + b[h].len
    requires h in d && m in d && d == c[h := d[h]][m := d[m]]
    requires HeaderFits(d, h, Free(m - h), loose) && HeaderFits(d, m, Free(h + b[h].len - m), loose)
    ensures AgreesBut(d, Cut(b, h, m), mem, -1, loose)
  {
    CutInside(c, b, mem, h, m, d, loose);
    CutOutside(c, b, mem, h, m, d);
    hide *;
    RegionAgrees(c, b, mem, -1, d, Cut(b, h, m), h, h + b[h].len, loose);
  }

  lemma CutInside(c: Cells, b: Tiling, mem: set<nat>, h: nat, m: nat, d: Cells, loose: set<nat>)
    requires Tiled(b, mem) && Agrees(c, b, mem)
    requires h in b && b[h].Free? && h < m < h + b[h].len
    requires h in d && m in d && d == c[h := d[h]][m := d[m]]
    requires HeaderFits(d, h, Free(m - h), loose) && HeaderFits(d, m, Free(h + b[h].len - m), loose)
    ensures ShowsWithin(d, Cut(b, h, m), h, h + b[h].len, loose)
  {
    hide Tiled, Agrees, ShowsWithin;
    RunRegion(b, mem, h);
    InnerNil(c, b, mem, h);
    CutShows(c, b, h, m, d, loose);
  }

  lemma CutOutside(c: Cells, b: Tiling, mem: set<nat>, h: nat, m: nat, d: Cells)
    requires Tiled(b, mem) && h in b && h < m < h + b[h].len
    requires h in d && m in d && d == c[h := d[h]][m := d[m]]
    ensures SameOutside(c, d, b, Cut(b, h, m), h, h + b[h].len)
    ensures Fences(b, h, h + b[h].len)
    ensures forall a: nat :: h <= a < h + b[h].len ==> a in mem
  {
    hide Tiled, Fences;
    RunRegion(b, mem, h);
  }

  lemma CutShows(c: Cells, b: Tiling, h: nat, m: nat, d: Cells, loose: set<nat>)
    requires h in b && b[h].Free? && h < m < h + b[h].len
    requires forall a: nat :: h < a < h + b[h].len ==> a !in c
    requires forall g :: g in b && h <= g < h + b[h].len ==> g == h
    requires h in d && m in d && d == c[h := d[h]][m := d[m]]
    requires HeaderFits(d, h, Free(m - h), loose) && HeaderFits(d, m, Free(h + b[h].len - m), loose)
    ensures ShowsWithin(d, Cut(b, h, m), h, h + b[h].len, loose)
  {
  }

  lemma JoinShows(c: Cells, b: Tiling, h: nat, e: nat, d: Cells)
    requires h in b && e in b && b[h].Free? && b[e].Free? && e == h + b[h].len && 1 <= b[h].len && 1 <= b[e].len
    requires forall a: nat :: (h < a < e || e < a < e + b[e].len) ==> a !in c
    requires forall g :: g in b && h <= g < e + b[e].len ==> g == h || g == e
    requires h in d && d == (c - {e})[h := d[h]] && HeaderShows(d, h, Free(b[h].len + b[e].len))
    ensures ShowsWithin(d, Join(b, h, e), h, e + b[e].len, {})
  {
  }

  lemma InnerNil(c: Cells, b: Tiling, mem: set<nat>, h: nat)
    requires Agrees(c, b, mem) && h in b && b[h].Free?
    ensures forall a: nat :: h < a < h + b[h].len ==> a !in c
  {
    forall a: nat | h < a < h + b[h].len ensures a !in c {
      assert In(b, h, a);
    }
  }

  /** The free run h and the free run e after it become one: e loses its header. */
  lemma JoinAgrees(c: Cells, b: Tiling, mem: set<nat>, h: nat, e: nat, d: Cells)
    requires Tiled(b, mem) && Agrees(c, b, mem)
    requires h in b && e in b && b[h].Free? && b[e].Free? && e == h + b[h].len
    requires h in d && d == (c - {e})[h := d[h]] && HeaderShows(d, h, Free(b[h].len + b[e].len))
    ensures Agrees(d, Join(b, h, e), mem)
  {
    JoinInside(c, b, mem, h, e, d);
    JoinOutside(c, b, mem, h, e, d);
    hide *;
    RegionAgrees(c, b, mem, -1, d, Join(b, h, e), h, e + b[e].len, {});
  }

  lemma JoinInside(c: Cells, b: Tiling, mem: set<nat>, h: nat, e: nat, d: Cells)
    requires Tiled(b, mem) && Agrees(c, b, mem)
    requires h in b && e in b && b[h].Free? && b[e].Free? && e == h + b[h].len
    requires h in d && d == (c - {e})[h := d[h]] && HeaderShows(d, h, Free(b[h].len + b[e].len))
    ensures ShowsWithin(d, Join(b, h, e), h, e + b[e].len, {})
  {
    hide Tiled, Agrees, ShowsWithin, Fences;
    RunRegion(b, mem, h);
    RunRegion(b, mem, e);
    InnerNil(c, b, mem, h);
    InnerNil(c, b, mem, e);
    JoinShows(c, b, h, e, d);
  }

  lemma JoinOutside(c: Cells, b: Tiling, mem: set<nat>, h: nat, e: nat, d: Cells)
    requires Tiled(b, mem) && h in b && e in b && e == h + b[h].len
    requires h in d && d == (c - {e})[h := d[h]]
    ensures SameOutside(c, d, b, Join(b, h, e), h, e + b[e].len)
    ensures Fences(b, h, e + b[e].len)
    ensures forall a: nat :: h <= a < e + b[e].len ==> a in mem
  {
    RunRegion(b, mem, h);
    RunRegion(b, mem, e);
    hide Tiled;
  }

  lemma CountsHold(h: nat, n: nat)
    ensures forall a: nat :: a in Counts(h, n) <==> h < a < h + n
    ensures forall a: nat :: a in Counts(h, n) ==> Counts(h, n)[a] == Jump(if a - h > MAX_JUMP then MAX_JUMP else a - h)
  {
    forall a: nat ensures a in Counts(h, n) <==> h < a < h + n {
      assert Between(h + 1, a, h + n) <==> h < a < h + n;
    }
  }

  lemma InteriorHolds(h: nat, n: nat)
    ensures forall a: nat :: a in Interior(h, n) <==> h < a < h + n
  {
    forall a: nat ensures a in Interior(h, n) <==> h < a < h + n {
      assert Between(h + 1, a, h + n) <==> h < a < h + n;
    }
  }

  /** The free run h becomes the home of an object: counts inside, a header with the object's size. */
  lemma UseAgrees(c: Cells, b: Tiling, mem: set<nat>, h: nat, sz: nat, d: Cells)
    requires Tiled(b, mem) && AgreesBut(c, b, mem, -1, {h}) && h in b && b[h].len == BlocksFor(sz)
    requires h in d && d == (c + Counts(h, b[h].len))[h := d[h]] && HeaderShows(d, h, UsedRun(sz))
    ensures Agrees(d, b[h := UsedRun(sz)], mem)
  {
    hide Tiled, BlocksFor, Counts, AgreesBut;
    var c0 := c[h := Header(Hdr(SzOf(b[h]), b[h].Free?, 0, 0))];
    LooseSettles(c, b, mem, h, c0, {h});
    assert {h} - {h} == {};
    CountsHold(h, b[h].len);
    assert d == (c0 + Counts(h, b[h].len))[h := d[h]];
    UseSettledAgrees(c0, b, mem, h, sz, d);
  }

  lemma UseSettledAgrees(c: Cells, b: Tiling, mem: set<nat>, h: nat, sz: nat, d: Cells)
    requires Tiled(b, mem) && Agrees(c, b, mem) && h in b && b[h].len == BlocksFor(sz)
    requires h in d && d == (c + Counts(h, b[h].len))[h := d[h]] && HeaderShows(d, h, UsedRun(sz))
    ensures Agrees(d, b[h := UsedRun(sz)], mem)
  {
    hide Tiled, BlocksFor, Counts, AgreesBut;
    RunRegion(b, mem, h);
    CountsHold(h, b[h].len);
    RegionAgrees(c, b, mem, -1, d, b[h := UsedRun(sz)], h, h + b[h].len, {});
  }

  /** The contents of the loose header h are set; the others stay loose. */
  lemma LooseSettles(c: Cells, b: Tiling, mem: set<nat>, h: nat, d: Cells, loose: set<nat>)
    requires AgreesBut(c, b, mem, -1, loose) && h in b
    requires h in d && d == c[h := d[h]] && HeaderShows(d, h, b[h])
    ensures AgreesBut(d, b, mem, -1, loose - {h})
  {
    forall g | g in b ensures HeaderFits(d, g, b[g], loose - {h}) {
      assert HeaderFits(c, g, b[g], loose);
    }
    forall g: nat, a: nat | In(b, g, a) && a != g ensures InnerShows(d, g, a, b[g]) {
      assert InnerShows(c, g, a, b[g]);
      assert a != h by {
        assert HeaderFits(c, h, b[h], loose);
      }
    }
  }

  /** The run h becomes free: nothing inside, a header with the whole size. */
  lemma FreeAgrees(c: Cells, b: Tiling, mem: set<nat>, h: nat, d: Cells)
    requires Tiled(b, mem) && AgreesBut(c, b, mem, h, {}) && h in b
    requires h in d && d == (c - Interior(h, b[h].len))[h := d[h]] && HeaderShows(d, h, Free(b[h].len))
    ensures Agrees(d, b[h := Free(b[h].len)], mem)
  {
    hide Tiled, Interior, AgreesBut;
    RunRegion(b, mem, h);
    InteriorHolds(h, b[h].len);
    RegionAgrees(c, b, mem, h, d, b[h := Free(b[h].len)], h, h + b[h].len, {});
  }

  /** Every block of the run h gets a header of its own. */
  lemma ShatterAgrees(c: Cells, b: Tiling, mem: set<nat>, h: nat, d: Cells)
    requires Tiled(b, mem) && Agrees(c, b, mem) && h in b
    requires forall a: nat :: a < h || h + b[h].len <= a ==> SameCellAt(c, d, a)
    requires forall a: nat :: h <= a < h + b[h].len ==> HeaderShows(d, a, Used(1, HBLKSIZE))
    ensures Agrees(d, Shatter(b, h), mem)
  {
    hide Tiled, Singles, AgreesBut;
    RunRegion(b, mem, h);
    SinglesHold(h, b[h].len);
    RegionAgrees(c, b, mem, -1, d, Shatter(b, h), h, h + b[h].len, {});
  }
}

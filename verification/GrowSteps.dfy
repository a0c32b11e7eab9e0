/** Adding memory to the heap, on the view of the allocator's data. */
module GrowSteps {
  import opened Intervals
  import opened Blocks
  import opened BlockIndexes
  import opened FreeLists
  import opened HeapShape
  import opened Totals
  import opened HeapViews
  import opened HeapSteps

  // ----- sections -----

  /** Block a lies in section i. */
  predicate InSection(sects: seq<(nat, nat)>, i: nat, a: nat)
    requires i < |sects|
  {
    sects[i].0 <= a < sects[i].0 + sects[i].1
  }

  /** The sections are disjoint and make up the heap. */
  ghost predicate Sections(sects: seq<(nat, nat)>, mem: set<nat>) {
    && (forall i: nat, a: nat :: i < |sects| && InSection(sects, i, a) ==> a in mem)
    && (forall a: nat :: a in mem ==> exists i: nat :: i < |sects| && InSection(sects, i, a))
    && (forall i: nat, j: nat, a: nat ::
      i < |sects| && j < |sects| && InSection(sects, i, a) && InSection(sects, j, a) ==> i == j)
  }

  lemma SectionsGrow(sects: seq<(nat, nat)>, mem: set<nat>, s: nat, n: nat)
    requires Sections(sects, mem) && Extent(s, n) !! mem
    ensures Sections(sects + [(s, n)], mem + Extent(s, n))
  {
    var next, all := sects + [(s, n)], mem + Extent(s, n);
    ExtentHolds(s, n);
    hide Extent;
    forall a: nat | a in all ensures exists i: nat :: i < |next| && InSection(next, i, a) {
      if a in mem {
        var i: nat :| i < |sects| && InSection(sects, i, a);
        assert InSection(next, i, a);
      } else {
        assert InSection(next, |sects|, a);
      }
    }
    forall i: nat, a: nat | i < |next| && InSection(next, i, a)
      ensures a in (if i < |sects| then mem else Extent(s, n))
    {
      assert i < |sects| ==> InSection(sects, i, a);
    }
    forall i: nat, j: nat, a: nat | i < |next| && j < |next| && InSection(next, i, a) && InSection(next, j, a)
      ensures i == j
    {
      assert i < |sects| && j < |sects| ==> InSection(sects, i, a) && InSection(sects, j, a);
    }
  }

  // ----- the new section as one used run -----

  /** The n blocks from s become one used run without counts in its inner cells. */
  ghost function Grown(v: View, s: nat, n: nat, hdr: Hdr): View {
    v.(cells := v.cells[s := Header(hdr)], blocks := v.blocks[s := UsedRun(hdr.sz)], mem := v.mem + Extent(s, n))
  }

  lemma GrownReleasable(v: View, s: nat, n: nat, hdr: Hdr)
    requires Settled(v) && 1 <= n && 2 <= s && s + n < ADDRESS_LIMIT && Extent(s, n) !! v.mem
    requires hdr.sz == n * HBLKSIZE && !hdr.free && (|v.mem| + n) * HBLKSIZE < SIGN_BIT
    ensures Releasable(Grown(v, s, n, hdr), s) && s !in v.blocks && |Grown(v, s, n, hdr).mem| == |v.mem| + n
    ensures FreeTotal(Grown(v, s, n, hdr).blocks) == FreeTotal(v.blocks) && BlocksFor(hdr.sz) == n
  {
    hide Settled, Sound, Listed, NoAdjacentFree, Sized, Extent, FreeTotal, Tiled;
    SettledParts(v);
    NewRunOutside(v.blocks, v.mem, s, n);
    ExtentSize(s, n);
    GrownSound(v, s, n, hdr, Grown(v, s, n, hdr));
    GrownListed(v, Grown(v, s, n, hdr), s, hdr);
    GrownFreeTotal(v.blocks, s, hdr.sz);
  }

  lemma GrownFreeTotal(b: Tiling, s: nat, sz: nat)
    requires s !in b
    ensures FreeTotal(b[s := UsedRun(sz)]) == FreeTotal(b)
  {
    FreeTotalRemove(b[s := UsedRun(sz)], s);
    assert b[s := UsedRun(sz)] - {s} == b;
  }

  lemma GrownListed(v: View, w: View, s: nat, hdr: Hdr)
    requires Listed(v) && NoAdjacentFree(v.blocks) && Sized(v.blocks) && s !in v.blocks
    requires w.blocks == v.blocks[s := UsedRun(hdr.sz)] && w.cls == v.cls
    ensures Listed(w) && NoAdjacentFree(w.blocks) && Sized(w.blocks)
  {
    hide BlocksFor;
  }

  lemma GrownSound(v: View, s: nat, n: nat, hdr: Hdr, w: View)
    requires Sound(v, -1, {}) && 1 <= n && 2 <= s && s + n < ADDRESS_LIMIT && Extent(s, n) !! v.mem
    requires |Extent(s, n)| == n
    requires hdr.sz == n * HBLKSIZE && !hdr.free && (|v.mem| + n) * HBLKSIZE < SIGN_BIT && s !in v.blocks
    requires w == Grown(v, s, n, hdr)
    ensures Sound(w, s, {})
  {
    hide Tiled, AgreesBut, Linked, BytesMatch, Extent;
    GrownTiled(v.blocks, v.mem, s, n, hdr.sz);
    GrownAgrees(v.cells, v.blocks, v.mem, s, n, hdr);
    GrownLinked(v, s, n, hdr);
    GrownBytes(v, w, s);
  }

  lemma GrownBytes(v: View, w: View, s: nat)
    requires BytesMatch(v.bytes, v.blocks, v.cls) && v.cls.Keys <= v.blocks.Keys && s !in v.blocks
    requires s in w.blocks && w.blocks == v.blocks[s := w.blocks[s]]
    ensures BytesMatch(v.bytes, w.blocks, v.cls)
  {
    hide BytesMatch;
    BytesFrame(v.bytes, v.blocks, w.blocks, v.cls);
  }

  lemma GrownLinked(v: View, s: nat, n: nat, hdr: Hdr)
    requires Linked(v.cells, v.heads, v.cls, v.rank) && v.cls.Keys <= v.blocks.Keys && s !in v.blocks
    ensures Linked(v.cells[s := Header(hdr)], v.heads, v.cls, v.rank)
  {
    LinkedFrame(v.cells, v.cells[s := Header(hdr)], v.heads, v.cls, v.rank);
  }

  /** The new run touches no run of the heap. */
  lemma NewRunOutside(b: Tiling, mem: set<nat>, s: nat, n: nat)
    requires Tiled(b, mem) && Extent(s, n) !! mem && 1 <= n
    ensures s !in b && forall h :: h in b ==> h + b[h].len <= s || s + n <= h
  {
    ExtentHolds(s, n);
    forall h | h in b ensures h + b[h].len <= s || s + n <= h {
      var a := if h <= s then s else h;
      if h < s + n && s < h + b[h].len {
        assert In(b, h, a) && Held(b, a);
      }
    }
  }

  lemma GrownTiled(b: Tiling, mem: set<nat>, s: nat, n: nat, sz: nat)
    requires Tiled(b, mem) && 1 <= n && 2 <= s && s + n < ADDRESS_LIMIT && Extent(s, n) !! mem && BlocksFor(sz) == n
    ensures Tiled(b[s := UsedRun(sz)], mem + Extent(s, n))
  {
    ExtentHolds(s, n);
    NewRunOutside(b, mem, s, n);
    hide Extent, BlocksFor;
    var c := b[s := UsedRun(sz)];
    forall a: nat ensures Held(c, a) <==> Held(b, a) || s <= a < s + n {
      if g: nat :| In(c, g, a) {
        assert g != s ==> In(b, g, a);
      }
      if g: nat :| In(b, g, a) {
        assert In(c, g, a);
      }
      if s <= a < s + n {
        assert In(c, s, a);
      }
    }
  }

  lemma GrownAgrees(c: Cells, b: Tiling, mem: set<nat>, s: nat, n: nat, hdr: Hdr)
    requires Tiled(b, mem) && Agrees(c, b, mem) && 1 <= n && Extent(s, n) !! mem && BlocksFor(hdr.sz) == n && !hdr.free
    ensures AgreesBut(c[s := Header(hdr)], b[s := UsedRun(hdr.sz)], mem + Extent(s, n), s, {})
  {
    hide Tiled, Disjoint, Covers, Extent, BlocksFor;
    ExtentHolds(s, n);
    NewRunOutside(b, mem, s, n);
    GrownCells(c, b, s, hdr, c[s := Header(hdr)], b[s := UsedRun(hdr.sz)]);
  }

  lemma GrownCells(c: Cells, b: Tiling, s: nat, hdr: Hdr, d: Cells, e: Tiling)
    requires forall h :: h in b ==> HeaderFits(c, h, b[h], {})
    requires forall h: nat, a: nat :: In(b, h, a) && a != h && h != -1 ==> InnerShows(c, h, a, b[h])
    requires forall h :: h in b ==> h + b[h].len <= s || s < h
    requires s !in b && d == c[s := Header(hdr)] && e == b[s := UsedRun(hdr.sz)] && !hdr.free
    ensures forall h :: h in e ==> HeaderFits(d, h, e[h], {})
    ensures forall h: nat, a: nat :: In(e, h, a) && a != h && h != s ==> InnerShows(d, h, a, e[h])
  {
    hide BlocksFor;
    forall h | h in e ensures HeaderFits(d, h, e[h], {}) {
      assert h != s ==> HeaderFits(c, h, b[h], {});
    }
    forall h: nat, a: nat | In(e, h, a) && a != h && h != s ensures InnerShows(d, h, a, e[h]) {
      assert In(b, h, a) && InnerShows(c, h, a, b[h]);
    }
  }
}

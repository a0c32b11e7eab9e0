/** The steps of a release and of an allocation, on the view of the allocator's data. */
module HeapSteps {
  import opened Blocks
  import opened BlockIndexes
  import opened FreeLists
  import opened HeapShape
  import opened Sums
  import opened Totals
  import opened HeapViews

  /** The lists hold exactly the free runs other than s, each on the list for its size. */
  ghost predicate ListedBut(v: View, s: nat) {
    && (forall h :: h in v.cls <==> h in v.blocks && v.blocks[h].Free? && h != s)
    && (forall h :: h in v.cls && h in v.blocks ==> v.cls[h] == ListFor(v.blocks[h].len))
  }

  /** A release is under way: everything is sound, but the free run s is on no list. */
  ghost predicate Releasing(v: View, s: nat) {
    Sound(v, -1, {}) && ListedBut(v, s) && s in v.blocks && v.blocks[s].Free?
  }

  /** What GC_freehblk needs: the run h is used and everything else is settled; its inner cells may hold
      its jump counts or nothing. */
  ghost predicate Releasable(v: View, h: nat) {
    && Sound(v, h, {}) && Listed(v) && NoAdjacentFree(v.blocks) && Sized(v.blocks)
    && h in v.blocks && v.blocks[h].Used?
  }

  lemma SettledReleasable(v: View, h: nat)
    requires Settled(v) && h in v.blocks && v.blocks[h].Used?
    ensures Releasable(v, h)
  {
    assert AgreesBut(v.cells, v.blocks, v.mem, h, {});
  }

  lemma EmptiedReleasing(v: View, h: nat)
    requires Releasable(v, h)
    ensures IsHeader(v.cells, h) && v.cells[h].hdr.sz == v.blocks[h].sz && BlocksFor(v.blocks[h].sz) == v.blocks[h].len
    ensures Releasing(Emptied(v, h), h)
  {
    HeaderThere(v, h, {}, h);
    EmptiedSound(v, h);
    EmptiedListed(v, h);
    hide Sound, Listed, ListedBut;
  }

  lemma EmptiedListed(v: View, h: nat)
    requires Listed(v) && h in v.blocks && v.blocks[h].Used? && IsHeader(v.cells, h)
    ensures ListedBut(Emptied(v, h), h)
  {
  }

  // ----- joining two runs -----

  lemma UnlinkedHeaders(v: View, h: nat, x: nat)
    requires CanUnlink(v, h) && IsHeader(v.cells, x)
    ensures IsHeader(Unlink(v, h).cells, x) && Unlink(v, h).cells[x].hdr.sz == v.cells[x].hdr.sz
    ensures Unlink(v, h).cells[x].hdr.free == v.cells[x].hdr.free
  {
    UnlinkedShape(v.cells, h);
  }

  /** Of two free runs in a row, h and e, the one that is listed, u, leaves its list, and they are joined. */
  ghost predicate CanJoin(v: View, h: nat, e: nat, u: nat) {
    CanUnlink(v, u) && IsHeader(Unlink(v, u).cells, h) && IsHeader(Unlink(v, u).cells, e) && h in v.blocks
      && e in v.blocks
  }

  ghost function JoinBoth(v: View, h: nat, e: nat, u: nat): View
    requires CanJoin(v, h, e, u)
  {
    Joined(Unlink(v, u), h, e)
  }

  /** The run s that is being released is one of the two, the other is u. */
  ghost predicate Neighbours(v: View, h: nat, e: nat, u: nat, s: nat) {
    && ((u == e && s == h) || (u == h && s == e))
    && h in v.blocks && e in v.blocks && v.blocks[h].Free? && v.blocks[e].Free? && e == h + v.blocks[h].len
  }

  lemma JoinBothReleasing(v: View, h: nat, e: nat, u: nat, s: nat)
    requires Releasing(v, s) && Neighbours(v, h, e, u, s)
    ensures CanJoin(v, h, e, u) && Releasing(JoinBoth(v, h, e, u), h)
    ensures JoinBoth(v, h, e, u).blocks == Join(v.blocks, h, e) && JoinBoth(v, h, e, u).mem == v.mem
    ensures IsHeader(v.cells, u) && v.cells[u].hdr.sz == v.blocks[u].len * HBLKSIZE && v.cells[u].hdr.free
    ensures u in v.cls && v.cls[u] == ListFor(v.blocks[u].len)
  {
    BlockNotNull(v.blocks, v.mem, h);
    hide Sound, CanUnlink, Unlinked, CanJoin, JoinBoth;
    NeighboursCanJoin(v, h, e, u);
    NeighboursSound(v, h, e, u, s);
    NeighboursListed(v, h, e, u, s);
    JoinBothParts(v, h, e, u);
  }

  lemma JoinBothParts(v: View, h: nat, e: nat, u: nat)
    requires CanJoin(v, h, e, u)
    ensures JoinBoth(v, h, e, u).blocks == Join(v.blocks, h, e) && JoinBoth(v, h, e, u).mem == v.mem
  {
    hide CanUnlink, Unlinked;
  }

  lemma NeighboursCanJoin(v: View, h: nat, e: nat, u: nat)
    requires Sound(v, -1, {}) && h in v.blocks && v.blocks[h].Free? && e in v.blocks && v.blocks[e].Free? && u in v.cls
    requires u == h || u == e
    ensures CanJoin(v, h, e, u)
    ensures IsHeader(v.cells, u) && v.cells[u].hdr.sz == v.blocks[u].len * HBLKSIZE && v.cells[u].hdr.free
  {
    ListedCanUnlink(v, -1, {}, u);
    HeaderThere(v, -1, {}, h);
    HeaderThere(v, -1, {}, e);
    hide Sound, CanUnlink;
    UnlinkedHeaders(v, u, h);
    UnlinkedHeaders(v, u, e);
  }

  lemma NeighboursSound(v: View, h: nat, e: nat, u: nat, s: nat)
    requires Sound(v, -1, {}) && Neighbours(v, h, e, u, s) && s !in v.cls && CanJoin(v, h, e, u)
    ensures Sound(JoinBoth(v, h, e, u), -1, {})
  {
    hide Sound, Unlinked;
    UnlinkSound(v, -1, {}, u);
    JoinedSound(Unlink(v, u), h, e);
  }

  lemma NeighboursListed(v: View, h: nat, e: nat, u: nat, s: nat)
    requires ListedBut(v, s) && Neighbours(v, h, e, u, s) && CanJoin(v, h, e, u) && 1 <= v.blocks[h].len
    ensures ListedBut(JoinBoth(v, h, e, u), h)
  {
    hide CanUnlink, Unlinked;
  }

  /** The last step: the run s goes on the list for its size. */
  lemma ReleasingEnds(v: View, s: nat)
    requires Releasing(v, s)
    ensures CanPush(v, s) && Sound(Push(v, s), -1, {}) && Listed(Push(v, s))
  {
    HeaderThere(v, -1, {}, s);
    UnlistedCanPush(v, {}, s);
    PushSound(v, {}, s);
    assert {} - {s} == {};
    hide Sound, CanPush, Pushed;
    PushListed(v, s);
  }

  lemma PushListed(v: View, s: nat)
    requires ListedBut(v, s) && s in v.blocks && v.blocks[s].Free? && CanPush(v, s)
    ensures Listed(Push(v, s))
  {
    hide CanPush, Pushed, PushRank;
  }

  // ----- the free run before h -----

  lemma EndingAtHeader(b: Tiling, mem: set<nat>, g: nat, h: nat)
    requires Tiled(b, mem) && h in b && In(b, g, h - 1)
    ensures FreeEndingAt(b, h) == if b[g].Free? then g else 0
  {
    var p := FreeEndingAt(b, h);
    assert g + b[g].len == h;
    if p != 0 {
      assert In(b, p, h - 1);
      InUnique(b, p, g, h - 1);
    } else {
      assert b[g].Free? ==> EndsAt(b, g, h);
    }
  }

  lemma EndingAtNil(b: Tiling, mem: set<nat>, h: nat, r: nat)
    requires Tiled(b, mem) && h in b
    requires r == 0 ==> forall x :: x in b ==> h - 1 < x
    requires r != 0 ==> r in b && r < h && forall x :: x in b ==> x <= r || h - 1 < x
    ensures FreeEndingAt(b, h) == if r != 0 && b[r].Free? && r + b[r].len == h then r else 0
  {
    var p := FreeEndingAt(b, h);
    if r != 0 && b[r].Free? && r + b[r].len == h {
      assert In(b, r, h - 1);
      EndingAtHeader(b, mem, r, h);
    }
  }

  /** A jump count leads back inside its run. */
  lemma JumpStays(v: View, g: nat, p: nat)
    requires Tiled(v.blocks, v.mem) && Agrees(v.cells, v.blocks, v.mem) && In(v.blocks, g, p) && p in v.cells
    requires v.cells[p].Jump?
    ensures v.blocks[g].Used? && 1 <= v.cells[p].n && g <= p - v.cells[p].n && In(v.blocks, g, p - v.cells[p].n)
    ensures p - v.cells[p].n in v.cells
  {
    hide Tiled;
    assert HeaderFits(v.cells, g, v.blocks[g], {});
    assert InnerShows(v.cells, g, p, v.blocks[g]);
    var q := p - v.cells[p].n;
    assert q != g ==> InnerShows(v.cells, g, q, v.blocks[g]);
  }

  lemma HeaderStarts(v: View, g: nat, p: nat)
    requires Tiled(v.blocks, v.mem) && Agrees(v.cells, v.blocks, v.mem) && In(v.blocks, g, p) && IsHeader(v.cells, p)
    ensures p == g && v.cells[p].hdr.free == v.blocks[g].Free? && v.cells[p].hdr.sz == SzOf(v.blocks[g])
  {
    assert HeaderFits(v.cells, p, v.blocks[p], {});
    InUnique(v.blocks, p, g, p);
  }

  /** The code looks for the previous free run before it joins the next one; that makes no difference. */
  lemma SamePrev(b: Tiling, mem: set<nat>, h: nat)
    requires Tiled(b, mem) && h in b && b[h].Free?
    ensures FreeEndingAt(MergeNext(b, h), h) == FreeEndingAt(b, h)
  {
    hide Tiled, SameUsed, FreeAt;
    var c := MergeNext(b, h);
    MergeNextKeeps(b, mem, h);
    BlockNotNull(b, mem, h);
    forall p: nat ensures EndsAt(c, p, h) <==> EndsAt(b, p, h) {
      OtherRunSame(b, mem, h, p);
    }
    var p, q := FreeEndingAt(c, h), FreeEndingAt(b, h);
    if p != 0 {
      assert EndsAt(b, p, h);
    }
    if q != 0 {
      assert EndsAt(c, q, h);
    }
    if p != 0 && q != 0 {
      EndsAtUnique(b, mem, p, q, h);
    }
  }

  lemma OtherRunSame(b: Tiling, mem: set<nat>, h: nat, p: nat)
    requires Tiled(b, mem) && h in b && b[h].Free?
    ensures EndsAt(MergeNext(b, h), p, h) <==> EndsAt(b, p, h)
  {
  }

  // ----- sizes stay below the sign bit -----

  lemma RunFits(b: Tiling, mem: set<nat>, h: nat)
    requires Tiled(b, mem) && h in b
    ensures b[h].len <= |mem|
  {
    TilingSize(b, mem);
    TotalRemove(Lengths(b), h);
  }

  lemma JoinFits(b: Tiling, mem: set<nat>, h: nat, e: nat)
    requires Tiled(b, mem) && h in b && e in b && e == h + b[h].len
    ensures b[h].len + b[e].len <= |mem|
  {
    JoinTiled(b, mem, h, e);
    RunFits(Join(b, h, e), mem, h);
  }

  // ----- what the code sees around h -----

  function CellAt(cells: Cells, a: nat): Entry {
    if a in cells then cells[a] else Nil
  }

  lemma CellAfter(v: View, h: nat)
    requires Tiled(v.blocks, v.mem) && Agrees(v.cells, v.blocks, v.mem) && h in v.blocks
    ensures !CellAt(v.cells, h + v.blocks[h].len).Jump?
    ensures h + v.blocks[h].len in v.blocks <==> IsHeader(v.cells, h + v.blocks[h].len)
  {
    hide Disjoint, AgreesBut;
    var e := h + v.blocks[h].len;
    HeadersAreStarts(v);
    if e in v.blocks {
      HeaderThere(v, -1, {}, e);
    } else if e in v.cells {
      assert Held(v.blocks, e);
      var g: nat :| In(v.blocks, g, e);
      RunsApart(v.blocks, v.mem, h, g, e);
    }
  }

  lemma HeadersAreStarts(v: View)
    requires Agrees(v.cells, v.blocks, v.mem)
    ensures forall x: nat :: IsHeader(v.cells, x) <==> x in v.blocks
    ensures v.cells.Keys <= v.mem
  {
    forall x | x in v.blocks ensures IsHeader(v.cells, x) {
      assert HeaderFits(v.cells, x, v.blocks[x], {});
    }
  }

  lemma RunsApart(b: Tiling, mem: set<nat>, h: nat, g: nat, a: nat)
    requires Tiled(b, mem) && h in b && In(b, g, a) && a == h + b[h].len
    ensures g == a
  {
  }

  lemma RunShown(v: View, h: nat)
    requires Sound(v, -1, {}) && h in v.blocks && v.blocks[h].Free?
    ensures IsHeader(v.cells, h) && v.cells[h].hdr.sz == v.blocks[h].len * HBLKSIZE && v.cells[h].hdr.free
    ensures v.cells[h].hdr.sz / HBLKSIZE == v.blocks[h].len
  {
    HeaderThere(v, -1, {}, h);
  }

  lemma OtherShown(v: View, h: nat)
    requires Sound(v, -1, {}) && h in v.blocks
    ensures IsHeader(v.cells, h) && v.cells[h].hdr.free == v.blocks[h].Free?
  {
    HeaderThere(v, -1, {}, h);
  }

  lemma JoinedSizeFits(v: View, h: nat, e: nat)
    requires Sound(v, -1, {}) && h in v.blocks && e in v.blocks && e == h + v.blocks[h].len
    ensures v.blocks[h].len * HBLKSIZE + v.blocks[e].len * HBLKSIZE < SIGN_BIT
  {
    JoinFits(v.blocks, v.mem, h, e);
  }

  /** When the next run is free, the code sees that and can join it. */
  lemma NextFree(v: View, h: nat, next: nat)
    requires Releasing(v, h) && next == h + v.blocks[h].len && next in v.blocks && v.blocks[next].Free?
    ensures IsHeader(v.cells, h) && IsHeader(v.cells, next) && v.cells[next].hdr.free
    ensures v.cells[h].hdr.sz + v.cells[next].hdr.sz < SIGN_BIT
    ensures CanJoin(v, h, next, next) && next in v.cls && v.cls[next] == ListFor(v.blocks[next].len)
    ensures Releasing(JoinBoth(v, h, next, next), h)
    ensures JoinBoth(v, h, next, next).blocks == MergeNext(v.blocks, h) && JoinBoth(v, h, next, next).mem == v.mem
  {
    hide Sound, ListedBut, CanJoin, JoinBoth, MergeNext;
    MergeNextJoins(v.blocks, h);
    RunShown(v, h);
    RunShown(v, next);
    JoinedSizeFits(v, h, next);
    JoinBothReleasing(v, h, next, next, h);
  }

  lemma MergeNextJoins(b: Tiling, h: nat)
    requires h in b
    ensures var e := h + b[h].len; MergeNext(b, h) == if e in b && b[e].Free? then Join(b, h, e) else b
  {
  }

  /** When there is no free run next, the code sees that too. */
  lemma NextNotFree(v: View, h: nat, next: nat)
    requires Releasing(v, h) && next == h + v.blocks[h].len && !(next in v.blocks && v.blocks[next].Free?)
    ensures CellAt(v.cells, next).Header? ==> !CellAt(v.cells, next).hdr.free
    ensures MergeNext(v.blocks, h) == v.blocks
  {
    hide Tiled, AgreesBut, ListedBut, Linked, BytesMatch, MergeNext;
    MergeNextJoins(v.blocks, h);
    CellAfter(v, h);
    if next in v.blocks {
      OtherShown(v, next);
    }
  }

  /** The test the code makes decides the merge with the previous run. */
  lemma PrevDecides(v: View, h: nat, p: nat)
    requires Releasing(v, h) && p == FreeEndingAt(v.blocks, h)
    ensures if p != 0 then
              IsHeader(v.cells, h) && IsHeader(v.cells, p) && v.cells[h].hdr.sz + v.cells[p].hdr.sz < SIGN_BIT
              && CanJoin(v, p, h, p) && p in v.cls && v.cls[p] == ListFor(v.blocks[p].len)
              && Releasing(JoinBoth(v, p, h, p), p) && JoinBoth(v, p, h, p).blocks == MergePrev(v.blocks, h)
              && JoinBoth(v, p, h, p).mem == v.mem
            else MergePrev(v.blocks, h) == v.blocks
  {
    hide Sound, ListedBut, CanJoin, JoinBoth;
    if p != 0 {
      RunShown(v, h);
      RunShown(v, p);
      JoinedSizeFits(v, p, h);
      JoinBothReleasing(v, p, h, p, h);
    }
  }

  lemma EmptyingFacts(v: View, h: nat)
    requires Releasable(v, h)
    ensures h in v.blocks && 1 <= v.blocks[h].len && v.blocks[h].len * HBLKSIZE < SIGN_BIT
    ensures IsHeader(v.cells, h) && BlocksFor(v.cells[h].hdr.sz) == v.blocks[h].len && !v.cells[h].hdr.free
    ensures Releasing(Emptied(v, h), h) && Emptied(v, h).blocks == v.blocks[h := Free(v.blocks[h].len)]
    ensures Emptied(v, h).mem == v.mem
    ensures FreeEndingAt(MergeNext(v.blocks[h := Free(v.blocks[h].len)], h), h) ==
      FreeEndingAt(v.blocks[h := Free(v.blocks[h].len)], h)
  {
    EmptiedReleasing(v, h);
    HeaderThere(v, h, {}, h);
    RunFits(v.blocks, v.mem, h);
    BlockNotNull(v.blocks, v.mem, h);
    SamePrev(Emptied(v, h).blocks, v.mem, h);
  }

  /** The release is complete. */
  lemma ReleaseSettles(v: View, w: View, h: nat)
    requires Releasable(v, h) && 1 <= v.blocks[h].len
    requires Sound(w, -1, {}) && Listed(w) && w.blocks == Release(v.blocks, h) && w.mem == v.mem
    ensures Settled(w) && FreeTotal(w.blocks) == FreeTotal(v.blocks) + v.blocks[h].len
  {
    hide Sound, Listed, NoAdjacentFree, Tiled, FreeAt, Release, Releasable, Sized, SameUsed, FreeTotal;
    ReleasableParts(v, h);
    ReleaseCoalesced(v.blocks, v.mem, h);
    ReleaseFrees(v.blocks, v.mem, h);
    ReleaseSized(v.blocks, h);
    ReleaseTotal(v.blocks, v.mem, h);
  }

  lemma ReleaseSized(b: Tiling, h: nat)
    requires Sized(b) && h in b && 1 <= b[h].len && SameUsed(b[h := Free(b[h].len)], Release(b, h))
    ensures Sized(Release(b, h))
  {
    hide Release;
  }

  lemma ReleasableParts(v: View, h: nat)
    requires Releasable(v, h)
    ensures Tiled(v.blocks, v.mem) && NoAdjacentFree(v.blocks) && Sized(v.blocks) && h in v.blocks && v.blocks[h].Used?
  {
  }
}

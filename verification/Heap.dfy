/** The heap-block allocator: free lists, splitting, coalescing and the heap counters. */
module Heaps {
  import opened Intervals
  import opened Sequences
  import opened Blocks
  import opened BlockIndexes
  import opened FreeLists
  import opened HeapShape
  import opened Sums
  import opened Totals
  import opened HeapViews
  import opened HeapSteps
  import opened AllocSteps
  import opened GrowSteps
  import opened BlackLists
  import opened Searches
  import opened Choices
  import opened CheckSteps

  /** What GC_add_to_heap did: it added n blocks from start on, or could use none of the blocks it was given, or
      gave up because there were too many sections already. */
  datatype Growth = Added(start: nat, n: nat) | Nothing | TooManySections

  class Heap {
    const index: BlockIndex
    // GC_hblkfreelist and GC_free_bytes
    const freeList: array<nat>
    const freeBytes: array<nat>
    var largeFreeBytes: nat
    var heapSize: nat
    // First block and number of blocks of each heap section.
    var sects: seq<(nat, nat)>
    const maxSects: nat
    var dropCount: nat

    // The index and the lists as a value, with the runs and the list order they stand for.
    ghost var view: View

    ghost predicate Rep()
      reads this, index, freeList, freeBytes
    {
      && freeList.Length == N_HBLK_FLS + 1 && freeBytes.Length == N_HBLK_FLS + 1 && freeList != freeBytes
      && index.Valid()
      && index.cells == view.cells && freeList[..] == view.heads && freeBytes[..] == view.bytes
    }

    /** What holds between operations on blocks. */
    ghost predicate Core()
      reads this, index, freeList, freeBytes
    {
      Rep() && Settled(view) && largeFreeBytes == FreeTotal(view.blocks) * HBLKSIZE
    }

    /** What holds between operations: besides, the sections make up the heap and the heap size is theirs. */
    ghost predicate Valid()
      reads this, index, freeList, freeBytes
    {
      && Core()
      && Sections(sects, view.mem) && |sects| <= maxSects
      && heapSize == |view.mem| * HBLKSIZE
    }

    /** The empty heap. */
    constructor (maxSects: nat)
      ensures Valid() && view.blocks == map[] && view.mem == {} && heapSize == 0 && sects == []
      ensures fresh(index) && fresh(freeList) && fresh(freeBytes)
    {
      index := new BlockIndex();
      freeList := new nat[N_HBLK_FLS + 1](_ => 0);
      freeBytes := new nat[N_HBLK_FLS + 1](_ => 0);
      largeFreeBytes, heapSize, sects, dropCount := 0, 0, [], 0;
      this.maxSects := maxSects;
      new;
      view := View(map[], freeList[..], freeBytes[..], map[], {}, map[], map[]);
      EmptySettled(view);
    }

    lemma EmptySettled(v: View)
      requires v.cells == map[] && v.blocks == map[] && v.mem == {} && v.cls == map[] && v.rank == map[]
      requires |v.heads| == |v.bytes| == N_HBLK_FLS + 1
      requires forall i :: 0 <= i <= N_HBLK_FLS ==> v.heads[i] == 0 && v.bytes[i] == 0
      ensures Settled(v) && FreeTotal(v.blocks) == 0
    {
      EmptyTotals();
      assert BytesMatch(v.bytes, v.blocks, v.cls);
      hide BytesMatch;
    }

    lemma EmptyTotals()
      ensures FreeTotal(map[]) == 0 && forall i: nat :: Total(OnList(map[], map[], i)) == 0
      ensures forall a: nat :: !Held(map[], a)
    {
      assert FreeLengths(map[]) == map[];
      forall i: nat ensures Total(OnList(map[], map[], i)) == 0 {
        assert OnList(map[], map[], i) == map[];
      }
    }

    /** The header of the block h (HDR). */
    function HeaderOf(h: nat): (hdr: Hdr)
      requires index.Valid() && IsHeader(index.cells, h)
      reads index
      ensures index.cells[h] == Header(hdr)
    {
      index.HeaderKeyed(h);
      CellOf(index.bottoms, h).hdr
    }

    method SetHeader(h: nat, hdr: Hdr)
      requires index.Valid() && IsHeader(index.cells, h)
      modifies index
      ensures index.Valid() && index.cells == old(index.cells)[h := Header(hdr)]
    {
      index.HeaderKeyed(h);
      index.SetHdr(h, Header(hdr));
    }

    // ----- free lists -----

    method SetHead(i: nat, h: nat)
      requires i < freeList.Length
      modifies freeList
      ensures freeList[..] == old(freeList[..])[i := h]
    {
      freeList[i] := h;
    }

    method SetBytes(i: nat, n: nat)
      requires i < freeBytes.Length
      modifies freeBytes
      ensures freeBytes[..] == old(freeBytes[..])[i := n]
    {
      freeBytes[i] := n;
    }

    /** Make the block after prev, or the head of list i when prev is null, be l. */
    method LinkNext(i: nat, prev: nat, l: nat)
      requires index.Valid() && !IsHeader(index.cells, 0)
      requires prev != 0 ==> IsHeader(index.cells, prev)
      requires i < freeList.Length
      modifies index, freeList
      ensures index.Valid() && index.cells == SetNext(old(index.cells), prev, l)
      ensures freeList[..] == if prev == 0 then old(freeList[..])[i := l] else old(freeList[..])
    {
      if prev == 0 {
        SetHead(i, l);
      } else {
        var hdr := HeaderOf(prev);
        SetHeader(prev, hdr.(next := l));
      }
    }

    /** Make the block before next, if there is one, be l. */
    method LinkPrev(next: nat, l: nat)
      requires index.Valid() && !IsHeader(index.cells, 0) && (next != 0 ==> IsHeader(index.cells, next))
      modifies index
      ensures index.Valid() && index.cells == SetPrev(old(index.cells), next, l)
    {
      if next != 0 {
        var hdr := HeaderOf(next);
        SetHeader(next, hdr.(prev := l));
      }
    }

    /** Remove h from list i (GC_remove_from_fl_at). */
    method RemoveFromFlAt(h: nat, i: nat)
      requires Rep() && CanUnlink(view, h) && view.cls[h] == i
      modifies index, freeList, freeBytes, this`view
      ensures Rep() && view == Unlink(old(view), h)
    {
      hide SetNext, SetPrev, Chained, Shows;
      var hdr := HeaderOf(h);
      LinkNext(i, hdr.prev, hdr.next);
      SetBytes(i, freeBytes[i] - hdr.sz);
      LinkPrev(hdr.next, hdr.prev);
      view := Unlink(view, h);
    }

    /** Add h to the list for its size (GC_add_to_fl). */
    method AddToFl(h: nat)
      requires Rep() && CanPush(view, h)
      modifies index, freeList, freeBytes, this`view
      ensures Rep() && view == Push(old(view), h)
    {
      hide SetPrev, PushRank, Chained, Shows, ListFor;
      var hdr := HeaderOf(h);
      assert hdr.sz / HBLKSIZE == view.blocks[h].len;
      var i := ListFor(hdr.sz / HBLKSIZE);
      var second := freeList[i];
      SetHead(i, h);
      SetBytes(i, freeBytes[i] + hdr.sz);
      SetHeader(h, hdr.(free := true, next := second, prev := 0));
      assert index.cells == MarkedFree(view.cells, h)[h := Header(hdr.(free := true, next := second, prev := 0))];
      LinkPrev(second, h);
      view := Push(view, h);
    }

    // ----- releasing -----

    /** The free block that ends just before h, or 0 (GC_free_block_ending_at). */
    method FreeBlockEndingAt(h: nat) returns (p: nat)
      requires Rep() && Sound(view, -1, {}) && h in view.blocks
      ensures p == FreeEndingAt(view.blocks, h)
    {
      hide Sound, Chained, Shows, FreeEndingAt;
      var e;
      p, e := JumpBack(h);
      if e != Nil {
        return if e.hdr.free then p else 0;
      }
      BeforeFacts(view, h);
      p := index.PrevBlock(h - 1);
      HighestBefore(view, h, p);
      if p != 0 {
        var hdr := HeaderOf(p);
        if hdr.free && p + hdr.sz / HBLKSIZE == h {
          return p;
        }
      }
      return 0;
    }

    /** Follow the jump counts back from the block before h to a header, unless that block is nil. */
    method JumpBack(h: nat) returns (p: nat, e: Entry)
      requires Rep() && Sound(view, -1, {}) && h in view.blocks
      ensures !e.Jump? && (e != Nil ==> FreeEndingAt(view.blocks, h) == if e.hdr.free then p else 0)
    {
      hide AgreesBut, Tiled, Linked, BytesMatch, Chained, Shows, Skips, FreeEndingAt;
      BeforeFacts(view, h);
      p := h - 1;
      e := index.GetHdr(p);
      ghost var g: nat := OwnerOf(view, p);
      while e.Jump?
        invariant p < h && e == if p in view.cells then view.cells[p] else Nil
        invariant e != Nil ==> In(view.blocks, g, p) && In(view.blocks, g, h - 1)
        decreases p
      {
        JumpStays(view, g, p);
        p := p - e.n;
        e := index.GetHdr(p);
      }
      if e != Nil {
        HeaderStarts(view, g, p);
        EndingAtHeader(view.blocks, view.mem, g, h);
      }
    }

    lemma BeforeFacts(v: View, h: nat)
      requires Sound(v, -1, {}) && h in v.blocks
      ensures 2 <= h && Skips(v.cells) && !IsHeader(v.cells, 0)
    {
      BlockNotNull(v.blocks, v.mem, h);
      AgreesSkips(v.cells, v.blocks, v.mem);
    }

    lemma HighestBefore(v: View, h: nat, r: nat)
      requires Sound(v, -1, {}) && h in v.blocks
      requires r == 0 ==> forall x: nat :: IsHeader(v.cells, x) ==> h - 1 < x
      requires r != 0 ==> r < h && IsHeader(v.cells, r) && forall x: nat :: IsHeader(v.cells, x) ==> x <= r || h - 1 < x
      ensures FreeEndingAt(v.blocks, h) ==
        if r != 0 && v.cells[r].hdr.free && r + v.cells[r].hdr.sz / HBLKSIZE == h then r else 0
    {
      hide AgreesBut, Linked, BytesMatch, Tiled;
      HeadersAreStarts(v);
      if r != 0 {
        StartShows(v, r);
      }
      EndingAtNil(v.blocks, v.mem, h, r);
    }

    ghost function OwnerOf(v: View, a: nat): (g: nat)
      requires Tiled(v.blocks, v.mem) && Agrees(v.cells, v.blocks, v.mem)
      ensures a in v.cells ==> In(v.blocks, g, a)
    {
      if a in v.cells then
        assert Held(v.blocks, a);
        var g: nat :| In(v.blocks, g, a);
        g
      else 0
    }

    lemma StartShows(v: View, h: nat)
      requires Agrees(v.cells, v.blocks, v.mem) && h in v.blocks
      ensures HeaderShows(v.cells, h, v.blocks[h])
      ensures v.blocks[h].Free? ==> v.cells[h].hdr.sz / HBLKSIZE == v.blocks[h].len
    {
      assert HeaderFits(v.cells, h, v.blocks[h], {});
    }

    /** Of two free runs in a row, h and e, the listed one, u, leaves its list, and e is joined to h. */
    method Coalesce(h: nat, e: nat, u: nat)
      requires Rep() && CanJoin(view, h, e, u) && view.cls[u] == ListFor(view.blocks[u].len)
      modifies index, freeList, freeBytes, this`view
      ensures Rep() && view == JoinBoth(old(view), h, e, u)
    {
      hide ListFor, Chained, Shows, Unlinked, LinksLead;
      var uhdr := HeaderOf(u);
      assert uhdr.sz / HBLKSIZE == view.blocks[u].len;
      RemoveFromFlAt(u, ListFor(uhdr.sz / HBLKSIZE));
      var hdr, ehdr := HeaderOf(h), HeaderOf(e);
      SetHeader(h, hdr.(sz := hdr.sz + ehdr.sz));
      index.RemoveHeader(e);
      view := Joined(view, h, e);
    }

    /** Empty the used block h and mark it free. */
    method Empty(h: nat) returns (size: nat)
      requires Rep() && Releasable(view, h)
      modifies index, this`view
      ensures Rep() && IsHeader(old(view).cells, h) && h in old(view).blocks && view == Emptied(old(view), h)
      ensures size == old(view).blocks[h].len * HBLKSIZE < SIGN_BIT
    {
      hide Releasable, Releasing, BlocksFor, Chained, Shows;
      EmptyingFacts(view, h);
      var hdr := HeaderOf(h);
      var n := BlocksFor(hdr.sz);
      size := n * HBLKSIZE;
      index.RemoveCounts(h, n);
      SetHeader(h, hdr.(sz := size, free := true));
      view := Emptied(view, h);
    }

    /** Coalesce the free block h with its successor, if possible. */
    method MergeWithNext(h: nat)
      requires Rep() && Releasing(view, h)
      modifies index, freeList, freeBytes, this`view
      ensures Rep() && Releasing(view, h) && h in old(view).blocks && view.blocks == MergeNext(old(view).blocks, h)
      ensures view.mem == old(view).mem
    {
      ghost var v := view;
      hide Sound, Chained, Shows, ListedBut, CanJoin, JoinBoth, MergeNext, ListFor;
      RunShown(v, h);
      if h + v.blocks[h].len in v.blocks && v.blocks[h + v.blocks[h].len].Free? {
        NextFree(v, h, h + v.blocks[h].len);
      } else {
        NextNotFree(v, h, h + v.blocks[h].len);
      }
      var hdr := HeaderOf(h);
      var next := h + hdr.sz / HBLKSIZE;
      var e := index.GetHdr(next);
      if e.Header? && e.hdr.free && hdr.sz + e.hdr.sz < SIGN_BIT {
        Coalesce(h, next, next);
      }
    }

    /** Coalesce the free block h with the free block prev before it, if there is one. */
    method MergeWithPrev(h: nat, prev: nat) returns (start: nat)
      requires Rep() && Releasing(view, h) && prev == FreeEndingAt(view.blocks, h)
      modifies index, freeList, freeBytes, this`view
      ensures Rep() && Releasing(view, start) && h in old(view).blocks && view.blocks == MergePrev(old(view).blocks, h)
      ensures view.mem == old(view).mem
    {
      hide Sound, Chained, Shows, ListedBut, CanJoin, JoinBoth, MergePrev, FreeEndingAt, ListFor;
      PrevDecides(view, h, prev);
      start := h;
      if prev != 0 {
        var hdr, phdr := HeaderOf(h), HeaderOf(prev);
        if hdr.sz + phdr.sz < SIGN_BIT {
          Coalesce(prev, h, prev);
          start := prev;
        }
      }
    }

    /** Free a heap block and coalesce it with its neighbours (GC_freehblk). */
    method FreeHblk(h: nat)
      requires Rep() && Releasable(view, h) && 1 <= view.blocks[h].len
      modifies index, freeList, freeBytes, this`view, this`largeFreeBytes
      ensures Rep() && Settled(view)
      ensures h in old(view).blocks && view.blocks == Release(old(view).blocks, h) && view.mem == old(view).mem
      ensures largeFreeBytes == old(largeFreeBytes) + old(view).blocks[h].len * HBLKSIZE
      ensures old(largeFreeBytes) == FreeTotal(old(view).blocks) * HBLKSIZE ==> Core()
    {
      ghost var v := view;
      hide Settled;
      hide Sound, Listed, ListedBut, Sized, NoAdjacentFree, MergeNext, MergePrev, FreeEndingAt, Releasable, Chained;
      hide Shows, CanPush, Emptied;
      EmptyingFacts(v, h);
      var size := Empty(h);
      var prev := FreeBlockEndingAt(h);
      MergeWithNext(h);
      var start := MergeWithPrev(h, prev);
      largeFreeBytes := largeFreeBytes + size;
      ReleasingEnds(view, start);
      AddToFl(start);
      ReleaseSettles(v, view, h);
    }

    // ----- allocating -----

    /** Split the free block h of list i at n: n gets a header and takes the place of h in its list, h goes on
        the list for its new size (GC_install_header for n, then GC_split_block). */
    method SplitBlock(h: nat, n: nat, i: nat)
      requires Rep() && CanSplitBlock(view, h, n) && view.cls[h] == i
      modifies index, freeList, freeBytes, this`view
      ensures Rep() && view == SplitBlockView(old(view), h, n)
    {
      hide CanSplit, CanPush, Push, Split, MarkedFree, Chained, Shows, ListFor;
      SplitLinks(h, n, i);
      AddToFl(h);
      var nhdr := HeaderOf(n);
      SetHeader(n, nhdr.(free := true));
      view := SplitBlockView(old(view), h, n);
      MarkedFreeIs(Push(Split(old(view), h, n), h).cells, n);
    }

    lemma MarkedFreeIs(c: Cells, n: nat)
      requires IsHeader(c, n)
      ensures MarkedFree(c, n) == c[n := Header(c[n].hdr.(free := true))]
    {
    }

    method SplitLinks(h: nat, n: nat, i: nat)
      requires Rep() && CanSplit(view, h, n) && view.cls[h] == i
      modifies index, freeList, freeBytes, this`view
      ensures Rep() && view == Split(old(view), h, n)
    {
      hide SetNext, SetPrev, Chained, Shows, Replaced, SplitHeaders;
      SplitLinksLead'(view, h, n);
      var hdr := HeaderOf(h);
      var hSize := (n - h) * HBLKSIZE;
      index.InstallHeader(n);
      SetHeader(n, Hdr(hdr.sz - hSize, false, hdr.next, hdr.prev));
      assert index.cells == view.cells[n := Header(Hdr(hdr.sz - hSize, false, hdr.next, hdr.prev))];
      LinkNext(i, hdr.prev, n);
      LinkPrev(hdr.next, n);
      SetBytes(i, freeBytes[i] - hSize);
      SplitCells(view.cells, h, n, index.cells);
      var hhdr := HeaderOf(h);
      SetHeader(h, hhdr.(sz := hSize));
      view := Split(view, h, n);
    }

    lemma SplitLinksLead'(v: View, h: nat, n: nat)
      requires CanSplit(v, h, n)
      ensures var hdr := v.cells[h].hdr;
        var c := v.cells[n := Header(Hdr(hdr.sz - (n - h) * HBLKSIZE, false, hdr.next, hdr.prev))];
        !IsHeader(c, 0) && !IsHeader(SetNext(c, hdr.prev, n), 0)
        && (hdr.prev != 0 ==> IsHeader(c, hdr.prev)) && (hdr.next != 0 ==> IsHeader(SetNext(c, hdr.prev, n), hdr.next))
    {
    }

    /** Take the first bytes of the free block r out of list i; the rest goes on its list (GC_get_first_part). */
    method GetFirstPart(r: nat, i: nat, bytes: nat)
      requires Rep() && Chosen(view, r, i) && r in view.blocks && r in view.cls && view.cls[r] == i
      requires bytes % HBLKSIZE == 0 && 1 <= bytes / HBLKSIZE <= view.blocks[r].len
      modifies index, freeList, freeBytes, this`view
      ensures Rep() && Takeable(view, r, bytes / HBLKSIZE) && r in old(view).blocks && view.mem == old(view).mem
      ensures view.blocks ==
        if bytes / HBLKSIZE < old(view).blocks[r].len then Cut(old(view).blocks, r, r + bytes / HBLKSIZE)
        else old(view).blocks
    {
      ghost var v := view;
      hide Tiled, Disjoint, NoAdjacentFree, Sound, ListedBut, Chosen, CanUnlink, Unlink, Chained, Shows, Takeable, Cut;
      ChosenUnlinks(v, r, i);
      var hdr := HeaderOf(r);
      RemoveFromFlAt(r, i);
      if hdr.sz == bytes {
        WholeTakeable(v, r, i);
      } else {
        InstallRest(v, r, i, r + bytes / HBLKSIZE, hdr.sz - bytes);
      }
    }

    /** Install a header for the block m, of size bytes. */
    method NewHeader(m: nat, size: nat) returns (e: Hdr)
      requires index.Valid()
      modifies index
      ensures index.Valid() && index.cells == old(index.cells)[m := Header(e)] && e.sz == size && !e.free
    {
      hide Chained, Shows;
      index.InstallHeader(m);
      ghost var c := index.cells;
      e := HeaderOf(m);
      e := e.(sz := size, free := false);
      SetHeader(m, e);
      assert index.cells == c[m := Header(e)];
    }

    /** The block m inside r, and the size bytes from there to the end of r, become a free block of their own. */
    method InstallRest(ghost v: View, r: nat, i: nat, m: nat, size: nat)
      requires Rep() && Chosen(v, r, i) && CanUnlink(v, r) && view == Unlink(v, r) && view.blocks == v.blocks
      requires r in v.blocks && r < m < r + v.blocks[r].len && size == (r + v.blocks[r].len - m) * HBLKSIZE
      modifies index, freeList, freeBytes, this`view
      ensures Rep() && Takeable(view, r, m - r) && view.mem == v.mem && view.blocks == Cut(v.blocks, r, m)
    {
      hide Tiled, Disjoint, NoAdjacentFree, Sound, ListedBut, Chosen, CanUnlink, Unlink, Chained, Shows, CanPush, Push;
      hide Takeable, Cut;
      var e := NewHeader(m, size);
      FirstPartTakeable(v, r, i, m, e);
      view := CutOff(view, r, m, e);
      AddToFl(m);
    }

    /** Make the block r the home of an object of sz bytes (GC_install_counts and setup_header). */
    method SetupBlock(r: nat, k: nat, sz: nat)
      requires Rep() && Takeable(view, r, k) && 1 <= k && BlocksFor(sz) == k
      modifies index, this`view
      ensures Rep() && Sound(view, -1, {}) && Listed(view)
      ensures r in old(view).blocks && view.blocks == old(view).blocks[r := UsedRun(sz)] && view.mem == old(view).mem
    {
      hide Sound, Listed, ListedBut, Takeable, Chained, Shows, Counts, BlocksFor;
      ghost var v := view;
      TakeableParts(v, r, k);
      index.InstallCounts(r, k);
      CountsMissHeader(r, k);
      var hdr := HeaderOf(r);
      hdr := hdr.(sz := sz, free := false);
      SetHeader(r, hdr);
      TakenSettled(v, r, k, hdr);
      view := Taken(v, r, hdr);
    }

    lemma CountsMissHeader(r: nat, k: nat)
      ensures r !in Counts(r, k)
    {
    }

    /** Allocate the request q at block at of the free block h of list n. */
    method Place(h: nat, at: nat, n: nat, q: Request)
      requires Core() && h in view.cls && view.cls[h] == n && Fits(view.blocks, h, at, Needed(q))
      modifies index, freeList, freeBytes, this`view, this`largeFreeBytes
      ensures Core() && view.mem == old(view).mem
      ensures Fits(old(view).blocks, h, at, Needed(q)) && view.blocks == Carve(old(view).blocks, h, at, q.sz)
    {
      hide Settled, Sound, Chosen, Takeable, Listed, CanSplitBlock, SplitBlockView, FreeTotal, Cut, CutOut, FrontCut;
      hide BlocksFor, Chained, Shows, Tiled;
      ghost var v := view;
      var k := Needed(q);
      SettledParts(v);
      FrontCutHolds(v.blocks, v.mem, h, at, k);
      PlaceReady(v, h, at, n, k);
      if at != h {
        SplitBlock(h, at, n);
      }
      GetFirstPart(at, n, k * HBLKSIZE);
      SetupBlock(at, k, q.sz);
      CarveSettles(v, view, h, at, q.sz);
      largeFreeBytes := largeFreeBytes - k * HBLKSIZE;
    }

    /** Give each of the len blocks from h the header of a used block of its own. */
    method InstallSingles(h: nat, len: nat)
      requires index.Valid() && IsHeader(index.cells, h) && 1 <= len
      modifies index
      ensures index.Valid()
      ensures forall a: nat :: a < h || h + len <= a ==> SameCellAt(old(index.cells), index.cells, a)
      ensures forall a: nat :: h <= a < h + len ==> HeaderShows(index.cells, a, Used(1, HBLKSIZE))
    {
      hide Chained, Shows;
      var a := h;
      while a < h + len
        invariant h <= a <= h + len && index.Valid() && IsHeader(index.cells, h)
        invariant forall x: nat :: x < h || h + len <= x ==> SameCellAt(old(index.cells), index.cells, x)
        invariant forall x: nat :: h <= x < a ==> HeaderShows(index.cells, x, Used(1, HBLKSIZE))
      {
        ghost var c := index.cells;
        if a != h {
          index.InstallHeader(a);
        }
        var hdr := HeaderOf(a);
        SetHeader(a, hdr.(sz := HBLKSIZE, free := false));
        OneMore(c, index.cells, h, a);
        forall x: nat | x < h || h + len <= x ensures SameCellAt(old(index.cells), index.cells, x) {
          assert SameCellAt(old(index.cells), c, x) && SameCellAt(c, index.cells, x);
        }
        a := a + 1;
      }
    }

    lemma OneMore(c: Cells, d: Cells, h: nat, a: nat)
      requires h <= a && (forall x: nat :: h <= x < a ==> HeaderShows(c, x, Used(1, HBLKSIZE)))
      requires a in d && d == c[a := d[a]] && HeaderShows(d, a, Used(1, HBLKSIZE)) && (IsHeader(c, h) || h == a)
      ensures forall x: nat :: h <= x < a + 1 ==> HeaderShows(d, x, Used(1, HBLKSIZE))
      ensures forall x: nat :: x != a ==> SameCellAt(c, d, x)
    {
      forall x: nat | h <= x < a ensures HeaderShows(d, x, Used(1, HBLKSIZE)) {
        assert HeaderShows(c, x, Used(1, HBLKSIZE));
      }
    }

    /** Drop the black listed block h of list n: allocate it in chunks of one block. */
    method DropBlock(h: nat, n: nat) returns (prev: nat)
      requires Core() && h in view.cls && view.cls[h] == n && h in view.blocks
      modifies index, freeList, freeBytes, this`view, this`largeFreeBytes
      ensures Core() && view.mem == old(view).mem
      ensures view.blocks == Shatter(old(view).blocks, h) && FreeTotal(view.blocks) < FreeTotal(old(view).blocks)
      ensures view.cls == old(view).cls - {h} && view.rank == old(view).rank
      ensures Ranked(view.cls, view.rank) && Ranked(old(view).cls, old(view).rank)
      ensures PrevOf(old(view).cls, old(view).rank, h, prev)
    {
      hide Settled, Sound, FreeTotal, Shatter, CanUnlink, Unlink, Chained, Shows, HeaderShows, SameCellAt;
      ghost var v := view;
      DropReady(v, h);
      var hdr := HeaderOf(h);
      prev := hdr.prev;
      largeFreeBytes := largeFreeBytes - hdr.sz;
      RemoveFromFlAt(h, n);
      InstallSingles(h, hdr.sz / HBLKSIZE);
      view := view.(cells := index.cells, blocks := Shatter(view.blocks, h));
      DropSound(v, view, h);
    }

    /** What to do with the free block h. */
    method Consider(h: nat, q: Request, maySplit: bool, p: Policy) returns (c: Choice)
      requires Core() && h in view.cls && h in view.blocks && 1 <= Needed(q)
      modifies this`dropCount
      ensures Decided(view, p, q, maySplit, h, c)
      ensures dropCount ==
        if Candidate(view, p, q, maySplit, h) then (old(dropCount) + 1) % UINT_LIMIT else old(dropCount)
      ensures c.Drop? <==> Candidate(view, p, q, maySplit, h) && dropCount % 4 == 0
    {
      hide Settled, Acceptable, Placed, Droppable, Hit, BlocksFor, Chained, Shows, FreeTotal;
      ListedHeaders(view, h);
      var k := Needed(q);
      var hdr := HeaderOf(h);
      if hdr.sz < k * HBLKSIZE {
        TooSmall(p, q, maySplit, h, view.blocks[h].len);
        return Pass;
      }
      if hdr.sz != k * HBLKSIZE {
        if !maySplit {
          TooSmall(p, q, maySplit, h, view.blocks[h].len);
          return Pass;
        }
        if hdr.next != 0 {
          ListedHeaders(view, hdr.next);
          var nhdr := HeaderOf(hdr.next);
          if nhdr.sz < hdr.sz && k * HBLKSIZE <= nhdr.sz {
            var x := IsBlackListed(p.tables, hdr.next, k * HBLKSIZE);
            if x == 0 {
              return Pass;
            }
          }
        }
      }
      var tick;
      c, tick := ChoosePlace(p, q, maySplit, h, hdr.sz / HBLKSIZE);
      if tick {
        dropCount := (dropCount + 1) % UINT_LIMIT;
        if dropCount % 4 == 0 {
          c := Drop;
        }
      }
    }

    lemma TooSmall(p: Policy, q: Request, maySplit: bool, h: nat, len: nat)
      requires len < Needed(q) || (len != Needed(q) && !maySplit)
      ensures !Acceptable(p, q, maySplit, h, len)
    {
    }

    /** Allocate the request from list n (GC_allochblk_nth); 0 when nothing on the list is acceptable. The runs
        dropped on the way, the tiling after the drops, the free run f that r lies in, the view in which it was
        chosen, and the number of runs that count towards a drop are for the contract. */
    method AllochblkNth(q: Request, n: nat, maySplit: bool, p: Policy)
      returns (r: nat, ghost f: nat, ghost hs: seq<nat>, ghost mid: Tiling, ghost at: View, ghost ticks: nat)
      requires Core() && n <= N_HBLK_FLS && 1 <= Needed(q)
      modifies index, freeList, freeBytes, this`view, this`largeFreeBytes, this`dropCount
      ensures Core() && view.mem == old(view).mem
      ensures Outcome(old(view).blocks, view.blocks, p, q, maySplit, n, r, f, hs, mid)
      ensures r != 0 ==> at.blocks == mid && FirstChoice(at, p, q, maySplit, n, f)
      ensures Ticked(old(dropCount), dropCount, ticks, |hs|)
      decreases FreeTotal(view.blocks)
    {
      hide Settled, Sound, Listed, Standing, Decided, Candidate, Dropping, Outcome, Granted, NothingOn, Tiled, Ahead;
      hide Fits, PassedRight, FirstChoice, Ticked;
      hide FreeTotal, Shatter, Carve, BlocksFor, Chained, Shows, Ranked, PrevOf, Before;
      ghost var b, mem := view.blocks, view.mem;
      SettledParts(view);
      StartStanding(view, p, q, maySplit, n);
      StartRight(view, p, q, maySplit, n);
      NoDrops(b, p, q);
      NoTicks(dropCount);
      hs, ticks, at := [], 0, view;
      var h := freeList[n];
      while h != 0
        invariant Core() && view.mem == mem && FreeTotal(view.blocks) <= FreeTotal(b)
        invariant Standing(view, p, q, maySplit, n, h) && Dropping(b, view.blocks, p, q, hs)
        invariant PassedRight(view, p, q, maySplit, n, h) && Ticked(old(dropCount), dropCount, ticks, |hs|)
        decreases FreeTotal(view.blocks), |Ahead(view, n, h)|
      {
        ghost var v := view;
        StandingFacts(v, p, q, maySplit, n, h);
        ghost var count := dropCount;
        var c := Consider(h, q, maySplit, p);
        OneTick(old(dropCount), count, dropCount, ticks, |hs|, Candidate(v, p, q, maySplit, h), c.Drop?);
        ticks := ticks + if Candidate(v, p, q, maySplit, h) then 1 else 0;
        match c {
          case Pass =>
            PassMovesOn(v, p, q, maySplit, n, h);
            PassRight(v, p, q, maySplit, n, h);
            AheadShrinks(v, n, h, v.cells[h].hdr.next);
            h := HeaderOf(h).next;
          case Take(place) =>
            TakeReady(v, p, q, maySplit, n, h, place);
            TakeRight(v, p, q, maySplit, n, h, place);
            Place(h, place, n, q);
            OutcomeTaken(b, v.blocks, view.blocks, p, q, maySplit, n, place, h, hs);
            return place, h, hs, v.blocks, v, ticks;
          case Drop =>
            DropMore(b, mem, v, p, q, maySplit, hs, h);
            var prev := DropBlock(h, n);
            hs := hs + [h];
            if prev == 0 {
              ghost var c1, ts, us := dropCount, [], 0;
              r, f, ts, mid, at, us := AllochblkNth(q, n, maySplit, p);
              OutcomeAfter(b, mem, Shatter(v.blocks, h), view.blocks, p, q, maySplit, n, r, f, hs, ts, mid);
              MoreTicks(old(dropCount), c1, dropCount, ticks, us, |hs|, |ts|);
              return r, f, hs + ts, mid, at, ticks + us;
            }
            SettledParts(view);
            DropMovesOn(v, view, p, q, maySplit, n, h, prev);
            DropRight(v, view, p, q, maySplit, n, h, prev);
            h := HeaderOf(prev).next;
        }
      }
      SettledParts(view);
      AllPassed(view, p, q, maySplit, n);
      OutcomeNone(b, view.blocks, p, q, maySplit, n, hs);
      return 0, 0, hs, view.blocks, view, ticks;
    }

    lemma StandingFacts(v: View, p: Policy, q: Request, maySplit: bool, n: nat, h: nat)
      requires Settled(v) && Standing(v, p, q, maySplit, n, h) && h != 0
      ensures Sound(v, -1, {}) && Listed(v) && h in v.cls && v.cls[h] == n && h in v.blocks && v.cls.Keys <= v.rank.Keys
    {
      hide Tiled, AgreesBut, BytesMatch, NoAdjacentFree, LinkedAt, FirstOf;
    }

    /** The last list from which enough large bytes are left, or 0 (GC_enough_large_bytes_left). */
    method EnoughLargeBytesLeft(g: Budget) returns (n: nat)
      requires freeBytes.Length == N_HBLK_FLS + 1
      ensures n <= N_HBLK_FLS && (Enough(g, freeBytes[..], n) || n == 0)
      ensures forall m: nat :: n < m <= N_HBLK_FLS ==> !Enough(g, freeBytes[..], m)
    {
      var bytes := g.largeAllocd;
      n := N_HBLK_FLS + 1;
      while 0 < n
        invariant n <= N_HBLK_FLS + 1 && bytes == g.largeAllocd + Sum(freeBytes[..][n..])
        invariant forall m: nat :: n <= m <= N_HBLK_FLS ==> !Enough(g, freeBytes[..], m)
      {
        n := n - 1;
        assert freeBytes[..][n..] == [freeBytes[n]] + freeBytes[..][n + 1..];
        bytes := bytes + freeBytes[n];
        if g.maxLargeAllocd <= bytes {
          return;
        }
      }
    }

    /** The last list whose blocks may be split. */
    method SplitLimit(g: Budget) returns (limit: nat)
      requires freeBytes.Length == N_HBLK_FLS + 1
      ensures limit <= N_HBLK_FLS && (g.useMore ==> limit == N_HBLK_FLS)
      ensures !g.useMore && heapSize / 16 < g.finalizerFreed ==> limit == 0
      ensures !g.useMore && g.finalizerFreed <= heapSize / 16 ==>
                (Enough(g, freeBytes[..], limit) || limit == 0)
                  && forall m: nat :: limit < m <= N_HBLK_FLS ==> !Enough(g, freeBytes[..], m)
    {
      if g.useMore {
        limit := N_HBLK_FLS;
      } else if heapSize / 16 < g.finalizerFreed {
        limit := 0;
      } else {
        limit := EnoughLargeBytesLeft(g);
      }
    }

    lemma LimitIsRight(v: View, g: Budget, heapSize: nat, limit: nat)
      requires Sound(v, -1, {}) && Listed(v) && limit <= N_HBLK_FLS && |v.bytes| == N_HBLK_FLS + 1
      requires g.useMore ==> limit == N_HBLK_FLS
      requires !g.useMore && heapSize / 16 < g.finalizerFreed ==> limit == 0
      requires !g.useMore && g.finalizerFreed <= heapSize / 16 ==>
        (Enough(g, v.bytes, limit) || limit == 0)
          && forall m: nat :: limit < m <= N_HBLK_FLS ==> !Enough(g, v.bytes, m)
      ensures LimitRight(g, heapSize, v.blocks, limit)
    {
      hide Sound, Listed, Enough, LargeFrom;
      forall m: nat | m <= N_HBLK_FLS
        ensures Enough(g, v.bytes, m) <==> g.maxLargeAllocd <= g.largeAllocd + LargeFrom(v.blocks, m) * HBLKSIZE
      {
        EnoughLarge(v, g, m);
      }
    }

    /** Allocate a block for objects of q.sz bytes (GC_allochblk); 0 on failure. The last list that may be
        split, the list n and the free run f that r was taken from, the dropped runs, the tiling after the
        drops, and what else the search has met are for the contract. */
    method Allochblk(q: Request, p: Policy, g: Budget)
      returns (r: nat, ghost limit: nat, ghost f: nat, ghost n: nat, ghost hs: seq<nat>, ghost mid: Tiling,
               ghost met: Met)
      requires Core() && 0 < q.sz < WORD_LIMIT
      modifies index, freeList, freeBytes, this`view, this`largeFreeBytes, this`dropCount
      ensures Core() && view.mem == old(view).mem && (g.useMore ==> limit == N_HBLK_FLS)
      ensures q.sz <= SIGN_BIT - HBLKSIZE ==> Allocated(old(view).blocks, view.blocks, p, q, limit, r, f, n, hs, mid)
      ensures r != 0 ==> met.at.blocks == mid && FirstChoice(met.at, p, q, !met.exact, n, f)
      ensures q.sz <= SIGN_BIT - HBLKSIZE ==> SplitRight(met, g, heapSize, old(view).blocks, hs, limit, r)
      ensures Ticked(old(dropCount), dropCount, met.ticks, |hs|)
      ensures SIGN_BIT - HBLKSIZE < q.sz ==> r == 0 && view == old(view) && dropCount == old(dropCount)
    {
      hide Settled, Outcome, Allocated, Searched, Dropping, Tiled, FreeTotal, Chained, Shows, Enough;
      hide FirstChoice, Ticked, LimitRight, SplitRight, ListFor, NothingOn, Granted, BlocksFor;
      hs, mid, limit := [], view.blocks, N_HBLK_FLS;
      r, f, n := 0, 0, 0;
      met := Met(view, 0, false, view.blocks, 0);
      NoTicks(dropCount);
      var blocks := BlocksForChecked(q.sz);
      if SIGN_BIT <= blocks * HBLKSIZE {
        return;
      }
      ghost var b, mem := view.blocks, view.mem;
      SettledParts(view);
      var start := ListFor(blocks);
      ghost var at, ticks;
      r, f, hs, mid, at, ticks := AllochblkNth(q, start, false, p);
      ExactSearch(b, view.blocks, p, q, limit, r, f, hs, mid);
      n := start;
      met := Met(at, ticks, r != 0, view.blocks, |hs|);
      if r != 0 {
        SplitExact(met, g, heapSize, b, hs, limit, r);
        return;
      }
      SettledParts(view);
      var last := SplitLimit(g);
      limit := last;
      LimitIsRight(view, g, heapSize, limit);
      SplitStarts(met, g, heapSize, b, p, q, hs, limit);
      var i := if start < UNIQUE_THRESHOLD then start + 1 else start;
      while i <= last
        invariant Core() && view.mem == mem && SplitFrom(start) <= i <= N_HBLK_FLS + 1
        invariant r == 0 && Dropping(b, view.blocks, p, q, hs) && Searched(view.blocks, p, q, i)
        invariant SplitRight(met, g, heapSize, b, hs, limit, r) && !met.exact
        invariant Ticked(old(dropCount), dropCount, met.ticks, |hs|)
      {
        ghost var a, ts, count := view.blocks, [], dropCount;
        SettledParts(view);
        r, f, ts, mid, at, ticks := AllochblkNth(q, i, true, p);
        NextSearch(b, mem, a, view.blocks, p, q, i, limit, r, f, hs, ts, mid);
        ghost var next := met.(at := at, ticks := met.ticks + ticks);
        SearchMet(old(dropCount), count, dropCount, met, next, g, heapSize, b, hs, ts, limit, r);
        met, hs := next, hs + ts;
        n := i;
        if r != 0 {
          return;
        }
        i := i + 1;
      }
      SearchFailed(b, view.blocks, p, q, i, limit, hs);
      f, n, mid := 0, 0, view.blocks;
    }

    // ----- adding memory -----

    /** Add the bytes from block p on to the heap (GC_add_to_heap). Blocks 0 and 1 and the last block of the
        address space are left out. */
    method AddToHeap(p: nat, bytes: nat) returns (g: Growth)
      requires Valid() && 0 < bytes && bytes % HBLKSIZE == 0 && p + bytes / HBLKSIZE <= ADDRESS_LIMIT
      requires Extent(p, bytes / HBLKSIZE) !! view.mem && (|view.mem| + bytes / HBLKSIZE) * HBLKSIZE < SIGN_BIT
      modifies this, index, freeList, freeBytes
      ensures Valid()
      ensures g.TooManySections? <==> maxSects <= old(|sects|)
      ensures g.Nothing? <==> old(|sects|) < maxSects && (p + bytes / HBLKSIZE <= 2 || ADDRESS_LIMIT - 1 <= p)
      ensures old(|sects|) < maxSects ==> forall a: nat :: a in view.mem <==>
        a in old(view).mem || (p <= a < p + bytes / HBLKSIZE && 2 <= a < ADDRESS_LIMIT - 1)
      ensures old(|sects|) < maxSects && 2 <= p && p + bytes / HBLKSIZE < ADDRESS_LIMIT ==>
        g == Added(p, bytes / HBLKSIZE)
      ensures g.Added? ==> 1 <= g.n && 2 <= g.start && g.start + g.n < ADDRESS_LIMIT
      ensures g.Added? ==> p <= g.start && g.start + g.n <= p + bytes / HBLKSIZE
      ensures g.Added? ==> view.mem == old(view).mem + Extent(g.start, g.n) && sects == old(sects) + [(g.start, g.n)]
      ensures g.Added? ==> view.blocks == Release(old(view).blocks[g.start := UsedRun(g.n * HBLKSIZE)], g.start)
      ensures !g.Added? ==> view == old(view) && sects == old(sects)
    {
      hide Settled, Sections, Extent, FreeTotal, Releasable, Release, Chained, Shows, Rep, Core;
      if |sects| >= maxSects {
        return TooManySections;
      }
      var start, size := Usable(p, bytes);
      ExtentHolds(start, size / HBLKSIZE);
      if size == 0 {
        return Nothing;
      }
      ExtentShrinks(p, bytes / HBLKSIZE, start, size / HBLKSIZE, view.mem);
      AddSection(start, size);
      return Added(start, size / HBLKSIZE);
    }

    /** The part of the given memory that the heap can hold: without blocks 0 and 1, and without the last block if
        the end address wraps around to 0. */
    method Usable(p: nat, bytes: nat) returns (start: nat, size: nat)
      requires 0 < bytes && bytes % HBLKSIZE == 0 && p + bytes / HBLKSIZE <= ADDRESS_LIMIT
      ensures size % HBLKSIZE == 0 && p <= start && start + size / HBLKSIZE <= p + bytes / HBLKSIZE
      ensures forall a: nat :: a in Extent(start, size / HBLKSIZE) <==>
        p <= a < p + bytes / HBLKSIZE && 2 <= a < ADDRESS_LIMIT - 1
      ensures 2 <= p && p + bytes / HBLKSIZE < ADDRESS_LIMIT ==> start == p && size == bytes
      ensures size == 0 <==> p + bytes / HBLKSIZE <= 2 || ADDRESS_LIMIT - 1 <= p
      ensures 0 < size ==> 2 <= start && start + size / HBLKSIZE < ADDRESS_LIMIT
    {
      hide Extent;
      ghost var n := bytes / HBLKSIZE;
      start, size := p, bytes;
      while start <= 1
        invariant p <= start && (start == p || start <= 2) && size == (p + n - start) * HBLKSIZE && 0 < size
      {
        start, size := start + 1, size - HBLKSIZE;
        if size == 0 {
          ExtentHolds(start, 0);
          return;
        }
      }
      var endp := (start * HBLKSIZE + size) % WORD_LIMIT;
      if endp <= start * HBLKSIZE {
        size := size - HBLKSIZE;
      }
      ExtentHolds(start, size / HBLKSIZE);
    }

    lemma ExtentShrinks(p: nat, n: nat, s: nat, k: nat, mem: set<nat>)
      requires Extent(p, n) !! mem && p <= s && s + k <= p + n
      ensures Extent(s, k) !! mem
    {
      ExtentHolds(p, n);
      ExtentHolds(s, k);
      hide Extent;
    }

    /** Add a section: give it a header as one used block and release it. */
    method AddSection(start: nat, size: nat)
      requires Valid() && |sects| < maxSects && 2 <= start && 0 < size && size % HBLKSIZE == 0
      requires start + size / HBLKSIZE < ADDRESS_LIMIT
      requires Extent(start, size / HBLKSIZE) !! view.mem && (|view.mem| + size / HBLKSIZE) * HBLKSIZE < SIGN_BIT
      modifies this, index, freeList, freeBytes
      ensures Valid()
      ensures view.mem == old(view).mem + Extent(start, size / HBLKSIZE)
      ensures sects == old(sects) + [(start, size / HBLKSIZE)]
      ensures view.blocks == Release(old(view).blocks[start := UsedRun(size)], start)
    {
      hide Settled, Sections, Extent, FreeTotal, Releasable, Release, Chained, Shows, BlocksFor;
      ghost var v := view;
      ghost var n := size / HBLKSIZE;
      var hdr := NewHeader(start, size);
      GrownReleasable(v, start, n, hdr);
      SectionsGrow(sects, v.mem, start, n);
      sects := sects + [(start, size / HBLKSIZE)];
      view := Grown(v, start, n, hdr);
      FreeHblk(start);
      SectionReleased(v, start, n, hdr);
      heapSize := heapSize + size;
    }

    lemma SectionReleased(v: View, s: nat, n: nat, hdr: Hdr)
      requires Settled(v) && 1 <= n && 2 <= s && s + n < ADDRESS_LIMIT && Extent(s, n) !! v.mem
      requires hdr.sz == n * HBLKSIZE && !hdr.free && (|v.mem| + n) * HBLKSIZE < SIGN_BIT
      ensures s !in v.blocks && BlocksFor(hdr.sz) == n
      ensures FreeTotal(Release(v.blocks[s := UsedRun(hdr.sz)], s)) == FreeTotal(v.blocks) + n
    {
      hide Settled, FreeTotal, Release, Releasable, Extent, Tiled;
      GrownReleasable(v, s, n, hdr);
      ReleasableParts(Grown(v, s, n, hdr), s);
      ReleaseTotal(Grown(v, s, n, hdr).blocks, Grown(v, s, n, hdr).mem, s);
    }

    // ----- consistency checks -----

    /** The bytes on all free lists (GC_compute_large_free_bytes). */
    method ComputeLargeFreeBytes() returns (total: nat)
      requires Core()
      ensures total == largeFreeBytes
    {
      hide Settled, Sound, Total, OnListBefore, OnListsBefore, Chained, Shows, Before, Ahead;
      SettledParts(view);
      NoListDone(view);
      total := 0;
      var i := 0;
      while i <= N_HBLK_FLS
        invariant i <= N_HBLK_FLS + 1 && total == Total(OnListsBefore(view.blocks, view.cls, i)) * HBLKSIZE
      {
        total := AddListBytes(i, total);
        ListDone(view, i);
        i := i + 1;
      }
      AllListsDone(view);
    }

    method AddListBytes(i: nat, start: nat) returns (total: nat)
      requires Core() && i <= N_HBLK_FLS
      ensures total == start + Total(OnListBefore(view, i, 0)) * HBLKSIZE
    {
      hide Settled, Sound, Total, OnListBefore, Chained, Shows, Before, Ahead;
      SettledParts(view);
      FirstOnList(view, i);
      total := start;
      var h := freeList[i];
      assert Total(OnListBefore(view, i, h)) == 0 by { EmptyTotals(); }
      while h != 0
        invariant h != 0 ==> h in view.cls && view.cls[h] == i
        invariant total == start + Total(OnListBefore(view, i, h)) * HBLKSIZE
        decreases |Ahead(view, i, h)|
      {
        NextOnList(view, i, h);
        var hdr := HeaderOf(h);
        AheadShrinks(view, i, h, hdr.next);
        total := total + hdr.sz;
        h := hdr.next;
      }
    }

    /** Do the used and the free bytes add up to the heap size (GC_check_blocks)? They always do. */
    method CheckBlocks() returns (ok: bool)
      requires Valid()
      ensures ok
    {
      hide Settled, Sound, Sections, UsedSum, UsedLengths, FreeLengths, Total, Tiled, Chained, Shows, Skips, BlocksFor;
      SettledParts(view);
      IndexSkips(view);
      var visited := index.ApplyToAllBlocks();
      VisitedHeaders(view.cells, visited);
      var used, i := 0, 0;
      while i < |visited|
        invariant i <= |visited| && AllHeaders(view.cells, visited)
        invariant used == UsedSum(view.cells, visited[..i]) * HBLKSIZE
      {
        var hdr := HeaderOf(visited[i]);
        UsedSumNext(view.cells, visited, i);
        used := used + BlocksFor(hdr.sz) * HBLKSIZE;
        i := i + 1;
      }
      assert visited[..i] == visited;
      UsedCounted(view, visited);
      UsedAndFree(view.blocks, view.mem);
      ok := used + largeFreeBytes == heapSize;
    }

    lemma IndexSkips(v: View)
      requires Sound(v, -1, {})
      ensures Skips(v.cells)
    {
      AgreesSkips(v.cells, v.blocks, v.mem);
    }

    lemma UsedSumNext(cells: Cells, hs: seq<nat>, i: nat)
      requires i < |hs| && AllHeaders(cells, hs)
      ensures UsedSum(cells, hs[..i + 1]) == UsedSum(cells, hs[..i]) + BlocksFor(cells[hs[i]].hdr.sz)
    {
      assert hs[..i + 1][..i] == hs[..i];
    }
  }
}

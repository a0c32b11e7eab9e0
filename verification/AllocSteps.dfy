/** The steps of an allocation, on the view of the allocator's data. */
module AllocSteps {
  import opened Blocks
  import opened BlockIndexes
  import opened FreeLists
  import opened HeapShape
  import opened Totals
  import opened HeapViews
  import opened HeapSteps

  /** The lists hold exactly the free runs, and all but s are on the list for their size. */
  ghost predicate ListedAs(v: View, s: nat) {
    && (forall h :: h in v.cls <==> h in v.blocks && v.blocks[h].Free?)
    && (forall h :: h in v.cls && h in v.blocks && h != s ==> v.cls[h] == ListFor(v.blocks[h].len))
  }

  /** The free run r, on list i, is about to be allocated from; it need not be on the right list. */
  ghost predicate Chosen(v: View, r: nat, i: nat) {
    Sound(v, -1, {}) && ListedAs(v, r) && r in v.cls && v.cls[r] == i && r in v.blocks && v.blocks[r].Free?
  }

  // ----- splitting off a black listed front -----

  ghost predicate CanSplitBlock(v: View, h: nat, n: nat) {
    CanSplit(v, h, n) && CanPush(Split(v, h, n), h) && IsHeader(Push(Split(v, h, n), h).cells, n)
  }

  ghost function SplitBlockView(v: View, h: nat, n: nat): View
    requires CanSplitBlock(v, h, n)
  {
    var w := Push(Split(v, h, n), h);
    w.(cells := MarkedFree(w.cells, n))
  }

  lemma SplitBlockChosen(v: View, h: nat, n: nat)
    requires Sound(v, -1, {}) && Listed(v) && h in v.cls && h < n < h + v.blocks[h].len
    ensures CanSplitBlock(v, h, n) && Chosen(SplitBlockView(v, h, n), n, v.cls[h])
    ensures SplitBlockView(v, h, n).blocks == Cut(v.blocks, h, n) && SplitBlockView(v, h, n).mem == v.mem
  {
    hide Sound, CanSplit, CanPush, Split, Push, Listed, ListedAs;
    ListedIsFree(v, h);
    SplitReady(v, h, n);
    SplitPushed(v, h, n);
    SplitListed(v, h, n, Split(v, h, n), Push(Split(v, h, n), h));
    SplitSizes(v, h, n, Split(v, h, n), Push(Split(v, h, n), h));
    MarkSound(Push(Split(v, h, n), h), n);
    MarkListed(Push(Split(v, h, n), h), n);
  }

  lemma ListedIsFree(v: View, h: nat)
    requires Listed(v) && h in v.cls
    ensures h in v.blocks && v.blocks[h].Free?
  {
  }

  lemma MarkListed(w: View, n: nat)
    requires ListedAs(w, n) && IsHeader(w.cells, n)
    ensures ListedAs(w.(cells := MarkedFree(w.cells, n)), n)
  {
  }

  lemma SplitReady(v: View, h: nat, n: nat)
    requires Sound(v, -1, {}) && Listed(v) && h in v.cls && h in v.blocks && h < n < h + v.blocks[h].len
    ensures CanSplit(v, h, n) && Sound(Split(v, h, n), -1, {n}) && CanPush(Split(v, h, n), h)
    ensures h in v.blocks && v.blocks[h].Free?
  {
    ListedCanSplit(v, h, n);
    SplitSound(v, h, n);
    var w := Split(v, h, n);
    HeaderThere(w, -1, {n}, h);
    SplitParts(v, h, n);
    hide Sound, Split, CanSplit;
    UnlistedCanPush(w, {n}, h);
  }

  lemma SplitParts(v: View, h: nat, n: nat)
    requires CanSplit(v, h, n)
    ensures var w := Split(v, h, n);
      h in w.blocks && w.blocks[h] == Free(n - h) && h !in w.cls && w.blocks == Cut(v.blocks, h, n) && w.mem == v.mem
      && n != h && n in w.cls && w.cls[n] == v.cls[h] && w.cls == (v.cls - {h})[n := v.cls[h]]
  {
    hide Replaced, SplitHeaders, LinksLead;
  }

  lemma SplitPushed(v: View, h: nat, n: nat)
    requires CanSplit(v, h, n) && Sound(Split(v, h, n), -1, {n}) && CanPush(Split(v, h, n), h)
    ensures Sound(Push(Split(v, h, n), h), -1, {n}) && IsHeader(Push(Split(v, h, n), h).cells, n)
  {
    hide Sound, Split, CanSplit, CanPush;
    SplitParts(v, h, n);
    var w := Split(v, h, n);
    PushSound(w, {n}, h);
    assert {n} - {h} == {n};
    NHeader(Push(w, h), n);
  }

  lemma NHeader(w: View, n: nat)
    requires Sound(w, -1, {n}) && n in w.blocks
    ensures IsHeader(w.cells, n)
  {
    HeaderThere(w, -1, {n}, n);
  }

  lemma SplitListed(v: View, h: nat, n: nat, s: View, w: View)
    requires Listed(v) && h in v.blocks && v.blocks[h].Free? && CanSplit(v, h, n) && s == Split(v, h, n)
    requires CanPush(s, h) && w == Push(s, h)
    ensures ListedAs(w, n) && n in w.cls && w.cls[n] == v.cls[h] && n in w.blocks && w.blocks[n].Free?
    ensures w.blocks == Cut(v.blocks, h, n) && w.mem == v.mem
  {
    hide CanPush, Pushed, PushRank, Split, LinksLead;
    SplitParts(v, h, n);
  }

  lemma SplitSizes(v: View, h: nat, n: nat, s: View, w: View)
    requires CanSplit(v, h, n) && s == Split(v, h, n) && CanPush(s, h) && w == Push(s, h) && IsHeader(w.cells, n)
    requires n in w.blocks
    ensures w.cells[n].hdr.sz == w.blocks[n].len * HBLKSIZE
  {
    hide Replaced, Pushed, ListFor, LinksLead, HeadFits;
    ReplacedShape(SplitHeaders(v.cells, h, n), h, n);
    PushedShape(MarkedFree(s.cells, h), h, s.heads[ListFor(s.blocks[h].len)]);
    assert SameCell(s.cells[n], SplitHeaders(v.cells, h, n)[n]);
  }

  /** The split-off block n is marked free. */
  lemma MarkSound(w: View, n: nat)
    requires Sound(w, -1, {n}) && n in w.blocks && w.blocks[n].Free? && IsHeader(w.cells, n)
    requires w.cells[n].hdr.sz == w.blocks[n].len * HBLKSIZE
    ensures Sound(w.(cells := MarkedFree(w.cells, n)), -1, {})
  {
    hide Tiled, AgreesBut, Linked, BytesMatch;
    var d := MarkedFree(w.cells, n);
    LooseSettles(w.cells, w.blocks, w.mem, n, d, {n});
    assert {n} - {n} == {};
    LinkedFrame(w.cells, d, w.heads, w.cls, w.rank);
  }

  // ----- taking the first part -----

  /** The free run r of k blocks is on no list; its header is not settled. */
  ghost predicate Takeable(v: View, r: nat, k: nat) {
    Sound(v, -1, {r}) && ListedBut(v, r) && r in v.blocks && v.blocks[r] == Free(k)
  }

  lemma ChosenUnlinks(v: View, r: nat, i: nat)
    requires Chosen(v, r, i)
    ensures CanUnlink(v, r) && Sound(Unlink(v, r), -1, {}) && ListedBut(Unlink(v, r), r)
    ensures Unlink(v, r).blocks == v.blocks && Unlink(v, r).mem == v.mem && r !in Unlink(v, r).cls
    ensures IsHeader(v.cells, r) && v.cells[r].hdr.sz == v.blocks[r].len * HBLKSIZE
  {
    hide Sound, CanUnlink, Unlinked;
    ListedCanUnlink(v, -1, {}, r);
    UnlinkSound(v, -1, {}, r);
    RunShown(v, r);
    UnlinkListed(v, r);
  }

  lemma UnlinkListed(v: View, r: nat)
    requires ListedAs(v, r) && CanUnlink(v, r)
    ensures ListedBut(Unlink(v, r), r) && Unlink(v, r).blocks == v.blocks && Unlink(v, r).mem == v.mem
    ensures Unlink(v, r).cls == v.cls - {r}
  {
    hide CanUnlink, Unlinked;
  }

  lemma WholeTakeable(v: View, r: nat, i: nat)
    requires Chosen(v, r, i)
    ensures CanUnlink(v, r) && Takeable(Unlink(v, r), r, v.blocks[r].len)
  {
    ChosenUnlinks(v, r, i);
    hide Chosen, CanUnlink, Unlink, ListedBut;
    SoundLoosened(Unlink(v, r), r);
  }

  lemma SoundLoosened(v: View, r: nat)
    requires Sound(v, -1, {}) && r in v.blocks
    ensures Sound(v, -1, {r})
  {
    hide Tiled, Linked, BytesMatch;
    forall h | h in v.blocks ensures HeaderFits(v.cells, h, v.blocks[h], {r}) {
      HeaderThere(v, -1, {}, h);
    }
  }

  ghost predicate CanCutOff(v: View, r: nat, m: nat, e: Hdr) {
    CanUnlink(v, r) && r in v.blocks && r < m < r + v.blocks[r].len && CanPush(CutOff(Unlink(v, r), r, m, e), m)
  }

  ghost function FirstPart(v: View, r: nat, m: nat, e: Hdr): View
    requires CanCutOff(v, r, m, e)
  {
    Push(CutOff(Unlink(v, r), r, m, e), m)
  }

  /** The rest of the run goes on the list for its size; what is left can be taken. */
  lemma FirstPartTakeable(v: View, r: nat, i: nat, m: nat, e: Hdr)
    requires Chosen(v, r, i) && r < m < r + v.blocks[r].len && e.sz == (r + v.blocks[r].len - m) * HBLKSIZE
    ensures CanCutOff(v, r, m, e) && Takeable(FirstPart(v, r, m, e), r, m - r)
    ensures FirstPart(v, r, m, e).blocks == Cut(v.blocks, r, m) && FirstPart(v, r, m, e).mem == v.mem
  {
    assert v.blocks[r].Free?;
    hide Chosen, Sound, CanUnlink, Unlink, ListedBut, CanPush, Push;
    ChosenUnlinks(v, r, i);
    FirstPartSound(Unlink(v, r), r, m, e);
    FirstPartListed(Unlink(v, r), r, m, e, CutOff(Unlink(v, r), r, m, e), Push(CutOff(Unlink(v, r), r, m, e), m));
  }

  lemma FirstPartSound(u: View, r: nat, m: nat, e: Hdr)
    requires Sound(u, -1, {}) && r in u.blocks && u.blocks[r].Free? && r !in u.cls && r < m < r + u.blocks[r].len
    requires e.sz == (r + u.blocks[r].len - m) * HBLKSIZE
    ensures m !in u.cls && CanPush(CutOff(u, r, m, e), m) && Sound(Push(CutOff(u, r, m, e), m), -1, {r})
  {
    hide Sound, CanPush, Push;
    CutOffSound(u, r, m, e);
    var c := CutOff(u, r, m, e);
    UnlistedCanPush(c, {r, m}, m);
    PushSound(c, {r, m}, m);
    assert {r, m} - {m} == {r};
  }

  lemma FirstPartListed(u: View, r: nat, m: nat, e: Hdr, c: View, w: View)
    requires ListedBut(u, r) && r in u.blocks && u.blocks[r].Free? && r !in u.cls && r < m < r + u.blocks[r].len
    requires m !in u.cls
    requires c == CutOff(u, r, m, e) && CanPush(c, m) && w == Push(c, m)
    ensures ListedBut(w, r) && r in w.blocks && w.blocks[r] == Free(m - r) && w.blocks == Cut(u.blocks, r, m)
    ensures w.mem == u.mem
  {
    hide CanPush, Pushed, PushRank;
  }

  /** The taken run gets its counts and its header. */
  lemma TakenSettled(v: View, r: nat, k: nat, hdr: Hdr)
    requires Takeable(v, r, k) && BlocksFor(hdr.sz) == k && !hdr.free
    ensures Sound(Taken(v, r, hdr), -1, {}) && Listed(Taken(v, r, hdr))
    ensures Taken(v, r, hdr).blocks == v.blocks[r := UsedRun(hdr.sz)] && Taken(v, r, hdr).mem == v.mem
  {
    hide Sound, BlocksFor, Counts;
    assert r !in v.cls;
    TakenSound(v, r, hdr);
    TakenListed(v, r, hdr);
  }

  lemma TakeableParts(v: View, r: nat, k: nat)
    requires Takeable(v, r, k)
    ensures r in v.blocks && v.blocks[r].len == k && IsHeader(v.cells, r)
  {
    hide Tiled, Linked, BytesMatch;
    HeaderThere(v, -1, {r}, r);
  }

  lemma TakenListed(v: View, r: nat, hdr: Hdr)
    requires ListedBut(v, r) && r in v.blocks
    ensures Listed(Taken(v, r, hdr))
  {
    hide Counts, BlocksFor;
  }

  // ----- from the chosen run to the finished allocation -----

  lemma CarveSettles(v: View, w: View, f: nat, r: nat, sz: nat)
    requires Settled(v) && Fits(v.blocks, f, r, BlocksFor(sz))
    requires Sound(w, -1, {}) && Listed(w) && w.blocks == Carve(v.blocks, f, r, sz) && w.mem == v.mem
    ensures Settled(w) && FreeTotal(w.blocks) == FreeTotal(v.blocks) - BlocksFor(sz)
  {
    hide Sound, Listed, Carve, NoAdjacentFree, Sized, Tiled;
    SettledParts(v);
    CarveCoalesced(v.blocks, v.mem, f, r, sz);
    CarveTotal(v.blocks, v.mem, f, r, sz);
    CarveSized(v.blocks, v.mem, f, r, sz);
  }

  lemma CarveSized(b: Tiling, mem: set<nat>, f: nat, r: nat, sz: nat)
    requires Tiled(b, mem) && Sized(b) && Fits(b, f, r, BlocksFor(sz))
    ensures Sized(Carve(b, f, r, sz))
  {
    hide Tiled, BlocksFor;
  }

  lemma FrontCutHolds(b: Tiling, mem: set<nat>, f: nat, r: nat, k: nat)
    requires Tiled(b, mem) && Fits(b, f, r, k)
    ensures r in FrontCut(b, f, r) && k <= FrontCut(b, f, r)[r].len
    ensures CutOut(b, f, r, k) ==
      if k < FrontCut(b, f, r)[r].len then Cut(FrontCut(b, f, r), r, r + k) else FrontCut(b, f, r)
  {
  }

  lemma PlaceReady(v: View, h: nat, at: nat, n: nat, k: nat)
    requires Settled(v) && h in v.cls && v.cls[h] == n && Fits(v.blocks, h, at, k)
    ensures at != h ==> CanSplitBlock(v, h, at)
    ensures var w := if at != h then SplitBlockView(v, h, at) else v;
      Chosen(w, at, n) && at in w.cls && w.cls[at] == n && w.mem == v.mem && w.blocks == FrontCut(v.blocks, h, at)
  {
    hide CanSplitBlock, SplitBlockView, Cut, Settled, Sound, Listed, Chosen, NoAdjacentFree, Tiled;
    SettledParts(v);
    if at != h {
      SplitBlockChosen(v, h, at);
      ChosenListed(SplitBlockView(v, h, at), at, n);
    } else {
      ListedChosen(v, h);
    }
  }

  lemma ChosenListed(v: View, r: nat, i: nat)
    requires Chosen(v, r, i)
    ensures r in v.cls && v.cls[r] == i && r in v.blocks
  {
  }

  lemma ListedChosen(v: View, h: nat)
    requires Sound(v, -1, {}) && Listed(v) && h in v.cls
    ensures Chosen(v, h, v.cls[h])
  {
    hide Sound;
  }

  // ----- dropping a black listed block -----

  lemma DropSettles(v: View, w: View, h: nat)
    requires Settled(v) && h in v.blocks && v.blocks[h].Free?
    requires Sound(w, -1, {}) && w.cls == v.cls - {h} && w.blocks == Shatter(v.blocks, h) && w.mem == v.mem
    ensures Settled(w) && v.blocks[h].len <= FreeTotal(v.blocks)
    ensures FreeTotal(w.blocks) == FreeTotal(v.blocks) - v.blocks[h].len
  {
    hide Sound, NoAdjacentFree, Sized, Tiled, Shatter;
    SettledParts(v);
    ShatterCoalesced(v.blocks, v.mem, h);
    ShatterTotal(v.blocks, v.mem, h);
    ShatterSized(v.blocks, h);
    ShatterListed(v, w, h);
  }

  lemma ShatterSized(b: Tiling, h: nat)
    requires Sized(b) && h in b
    ensures Sized(Shatter(b, h))
  {
    hide Singles;
    SinglesHold(h, b[h].len);
  }

  lemma ShatterListed(v: View, w: View, h: nat)
    requires Listed(v) && Tiled(v.blocks, v.mem) && h in v.blocks && v.blocks[h].Free? && w.cls == v.cls - {h}
    requires w.blocks == Shatter(v.blocks, h)
    ensures Listed(w)
  {
    hide Singles, Tiled;
    SinglesHold(h, v.blocks[h].len);
    BlockNotNull(v.blocks, v.mem, h);
    RunRegion(v.blocks, v.mem, h);
  }

  /** A listed run leaves its list and each of its blocks gets the header of a used block. */
  lemma DropSound(v: View, w: View, h: nat)
    requires Settled(v) && h in v.cls && h in v.blocks && v.blocks[h].Free? && CanUnlink(v, h)
    requires w == Unlink(v, h).(cells := w.cells, blocks := Shatter(v.blocks, h))
    requires forall a: nat :: a < h || h + v.blocks[h].len <= a ==> SameCellAt(Unlink(v, h).cells, w.cells, a)
    requires forall a: nat :: h <= a < h + v.blocks[h].len ==> HeaderShows(w.cells, a, Used(1, HBLKSIZE))
    ensures Settled(w) && w.cls == v.cls - {h} && w.rank == v.rank && w.mem == v.mem && Ranked(w.cls, w.rank)
    ensures v.blocks[h].len <= FreeTotal(v.blocks) && FreeTotal(w.blocks) == FreeTotal(v.blocks) - v.blocks[h].len
  {
    hide Settled, Sound, CanUnlink, Shatter, Unlinked, HeaderShows, SameCellAt, FreeTotal;
    SettledParts(v);
    UnlinkSound(v, -1, {}, h);
    ShatteredSound(Unlink(v, h), w, h);
    DropSettles(v, w, h);
    SoundRanked(w);
  }

  lemma SoundRanked(v: View)
    requires Sound(v, -1, {})
    ensures Ranked(v.cls, v.rank)
  {
  }

  lemma DropReady(v: View, h: nat)
    requires Settled(v) && h in v.cls
    ensures h in v.blocks && v.blocks[h].Free? && CanUnlink(v, h) && Unlink(v, h).blocks == v.blocks
    ensures IsHeader(v.cells, h) && v.cells[h].hdr.sz == v.blocks[h].len * HBLKSIZE
    ensures 1 <= v.blocks[h].len <= FreeTotal(v.blocks)
    ensures IsHeader(Unlink(v, h).cells, h) && Ranked(v.cls, v.rank) && PrevOf(v.cls, v.rank, h, v.cells[h].hdr.prev)
  {
    hide Tiled, AgreesBut, BytesMatch, NoAdjacentFree, CanUnlink, Unlinked;
    BlockNotNull(v.blocks, v.mem, h);
    ListedCanUnlink(v, -1, {}, h);
    ShatterTotal(v.blocks, v.mem, h);
    RunShown(v, h);
    UnlinkedHeaders(v, h, h);
    assert LinkedAt(v.cells, v.cls, v.rank, h);
  }

  // ----- a series of drops -----

  lemma {:induction false} ShatterMore(b: Tiling, hs: seq<nat>, ts: seq<nat>)
    requires CanShatter(b, hs) && CanShatter(ShatterAll(b, hs), ts)
    ensures CanShatter(b, hs + ts) && ShatterAll(b, hs + ts) == ShatterAll(ShatterAll(b, hs), ts)
    decreases |hs|
  {
    hide Shatter;
    if hs == [] {
      assert hs + ts == ts;
    } else {
      assert (hs + ts)[0] == hs[0];
      ShatterMore(Shatter(b, hs[0]), hs[1..], ts);
      assert (hs + ts)[1..] == hs[1..] + ts;
    }
  }

  /** The runs that are still free were free, and are the same, before the drops. */
  lemma {:induction false} ShatterFree(b: Tiling, mem: set<nat>, hs: seq<nat>, h: nat)
    requires Tiled(b, mem) && CanShatter(b, hs) && h in ShatterAll(b, hs) && ShatterAll(b, hs)[h].Free?
    ensures h in b && b[h] == ShatterAll(b, hs)[h]
    decreases |hs|
  {
    if hs != [] {
      ShatterTiled(b, mem, hs[0]);
      ShatterFree(Shatter(b, hs[0]), mem, hs[1..], h);
      SinglesHold(hs[0], b[hs[0]].len);
    }
  }

  // ----- the order of updates in a split -----

  /** The cells after the links and then the size of h have been set are those of the split. */
  lemma SplitCells(c: Cells, h: nat, n: nat, d: Cells)
    requires IsHeader(c, h) && h < n && (n - h) * HBLKSIZE <= c[h].hdr.sz
    requires var hdr := c[h].hdr;
      d == SetPrev(SetNext(c[n := Header(Hdr(hdr.sz - (n - h) * HBLKSIZE, false, hdr.next, hdr.prev))], hdr.prev, n),
        hdr.next, n)
    ensures IsHeader(d, h)
    ensures d[h := Header(d[h].hdr.(sz := (n - h) * HBLKSIZE))] == Replaced(SplitHeaders(c, h, n), h, n)
  {
  }
}

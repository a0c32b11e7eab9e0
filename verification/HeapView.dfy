/** The allocator's data as one value, and what each step does to it. */
module HeapViews {
  import opened Blocks
  import opened BlockIndexes
  import opened FreeLists
  import opened HeapShape
  import opened Sums
  import opened Totals

  /** Index cells, list heads and byte counters, and the tiling and lists they stand for. */
  datatype View = View(cells: Cells, heads: seq<nat>, bytes: seq<nat>, blocks: Tiling, mem: set<nat>, cls: Lists,
    rank: Ranks)

  /** The index and the lists show the tiling, up to the unsettled cells of x and loose. */
  ghost predicate Sound(v: View, x: int, loose: set<nat>) {
    && Tiled(v.blocks, v.mem) && AgreesBut(v.cells, v.blocks, v.mem, x, loose)
    && Linked(v.cells, v.heads, v.cls, v.rank)
    && BytesMatch(v.bytes, v.blocks, v.cls)
    && v.cls.Keys <= v.blocks.Keys
    && |v.mem| * HBLKSIZE < SIGN_BIT
  }

  /** Besides, the lists hold exactly the free runs, each on the list for its size. */
  ghost predicate Listed(v: View) {
    && (forall h :: h in v.cls <==> h in v.blocks && v.blocks[h].Free?)
    && (forall h :: h in v.cls && h in v.blocks ==> v.cls[h] == ListFor(v.blocks[h].len))
  }

  /** What holds between operations. */
  ghost predicate Settled(v: View) {
    Sound(v, -1, {}) && Listed(v) && NoAdjacentFree(v.blocks) && Sized(v.blocks)
  }

  lemma SettledParts(v: View)
    requires Settled(v)
    ensures Tiled(v.blocks, v.mem) && NoAdjacentFree(v.blocks) && Sized(v.blocks) && Listed(v) && Sound(v, -1, {})
  {
  }

  // ----- a run leaves its list -----

  /** h is listed, its header is settled, and its links lead to headers. */
  ghost predicate CanUnlink(v: View, h: nat) {
    && IsHeader(v.cells, h) && h in v.cls && h in v.blocks && v.cls[h] <= N_HBLK_FLS
    && |v.heads| == |v.bytes| == N_HBLK_FLS + 1
    && v.cells[h].hdr.sz == v.blocks[h].len * HBLKSIZE <= v.bytes[v.cls[h]]
    && LinksLead(v.cells, v.cells[h].hdr)
  }

  predicate LinksLead(cells: Cells, hdr: Hdr) {
    && !IsHeader(cells, 0) && !IsHeader(SetNext(cells, hdr.prev, hdr.next), 0)
    && (hdr.prev != 0 ==> IsHeader(cells, hdr.prev))
    && (hdr.next != 0 ==> IsHeader(SetNext(cells, hdr.prev, hdr.next), hdr.next))
  }

  ghost function Unlink(v: View, h: nat): View
    requires CanUnlink(v, h)
  {
    var i := v.cls[h];
    v.(cells := Unlinked(v.cells, h),
       heads := if v.cells[h].hdr.prev == 0 then v.heads[i := v.cells[h].hdr.next] else v.heads,
       bytes := v.bytes[i := v.bytes[i] - v.blocks[h].len * HBLKSIZE],
       cls := v.cls - {h})
  }

  lemma ListedCanUnlink(v: View, x: int, loose: set<nat>, h: nat)
    requires Sound(v, x, loose) && h in v.cls && h !in loose && h in v.blocks && v.blocks[h].Free?
    ensures CanUnlink(v, h)
  {
    HeaderThere(v, x, loose, h);
    NullHasNoHeader(v, x, loose);
    BytesUnlink(v.bytes, v.blocks, v.cls, h);
    ListedLinksLead(v.cells, v.heads, v.cls, v.rank, h);
    hide AgreesBut, Tiled, Linked, BytesMatch, LinksLead;
  }

  lemma NullHasNoHeader(v: View, x: int, loose: set<nat>)
    requires Tiled(v.blocks, v.mem) && AgreesBut(v.cells, v.blocks, v.mem, x, loose)
    ensures !IsHeader(v.cells, 0)
  {
  }

  lemma ListedLinksLead(cells: Cells, heads: seq<nat>, cls: Lists, rank: Ranks, h: nat)
    requires Linked(cells, heads, cls, rank) && h in cls && !IsHeader(cells, 0)
    ensures cls[h] <= N_HBLK_FLS && IsHeader(cells, h) && LinksLead(cells, cells[h].hdr)
  {
    assert LinkedAt(cells, cls, rank, h);
    var hdr := cells[h].hdr;
    assert hdr.prev != 0 ==> LinkedAt(cells, cls, rank, hdr.prev);
    assert hdr.next != 0 ==> LinkedAt(cells, cls, rank, hdr.next);
  }

  lemma UnlinkSound(v: View, x: int, loose: set<nat>, h: nat)
    requires Sound(v, x, loose) && CanUnlink(v, h)
    ensures Sound(Unlink(v, h), x, loose)
  {
    hide Tiled, AgreesBut, BytesMatch, Unlinked, Linked, LinksLead, SameShape, Total, OnList;
    UnlinkedLinked(v.cells, v.heads, v.cls, v.rank, h);
    UnlinkedShape(v.cells, h);
    SameShapeAgrees(v.cells, Unlinked(v.cells, h), v.blocks, v.mem, x, loose);
    BytesUnlink(v.bytes, v.blocks, v.cls, h);
  }

  // ----- a run is pushed on the list for its size -----

  /** The header of h has the size of its run, and the head of its list is a header. */
  ghost predicate CanPush(v: View, h: nat) {
    && IsHeader(v.cells, h) && h in v.blocks && v.cells[h].hdr.sz == v.blocks[h].len * HBLKSIZE
    && |v.heads| == |v.bytes| == N_HBLK_FLS + 1
    && !IsHeader(v.cells, 0) && h != 0
    && HeadFits(v, v.heads[ListFor(v.blocks[h].len)], h)
  }

  ghost predicate HeadFits(v: View, second: nat, h: nat) {
    second == 0 || (second in v.rank && IsHeader(v.cells, second) && second != h)
  }

  function MarkedFree(cells: Cells, h: nat): Cells
    requires IsHeader(cells, h)
  {
    cells[h := Header(cells[h].hdr.(free := true))]
  }

  ghost function Push(v: View, h: nat): View
    requires CanPush(v, h)
  {
    var i := ListFor(v.blocks[h].len);
    View(Pushed(MarkedFree(v.cells, h), h, v.heads[i]), v.heads[i := h],
         v.bytes[i := v.bytes[i] + v.blocks[h].len * HBLKSIZE],
         v.blocks, v.mem, v.cls[h := i], PushRank(v.rank, h, v.heads[i]))
  }

  lemma UnlistedCanPush(v: View, loose: set<nat>, h: nat)
    requires Sound(v, -1, loose) && h in v.blocks && h !in v.cls
    requires IsHeader(v.cells, h) && v.cells[h].hdr.sz == v.blocks[h].len * HBLKSIZE
    ensures CanPush(v, h)
  {
    hide AgreesBut, Tiled;
    BlockNotNull(v.blocks, v.mem, h);
    NullHasNoHeader(v, -1, loose);
    var second := v.heads[ListFor(v.blocks[h].len)];
    assert FirstOf(v.cls, v.rank, ListFor(v.blocks[h].len), second);
    assert second != 0 ==> LinkedAt(v.cells, v.cls, v.rank, second);
  }

  lemma PushSound(v: View, loose: set<nat>, h: nat)
    requires Sound(v, -1, loose) && h !in v.cls && CanPush(v, h) && v.blocks[h].Free?
    ensures Sound(Push(v, h), -1, loose - {h})
  {
    hide Tiled, AgreesBut, Linked, BytesMatch, PushRank, ListFor;
    PushParts(v, loose, h, Push(v, h));
  }

  lemma PushParts(v: View, loose: set<nat>, h: nat, w: View)
    requires AgreesBut(v.cells, v.blocks, v.mem, -1, loose) && Linked(v.cells, v.heads, v.cls, v.rank)
    requires BytesMatch(v.bytes, v.blocks, v.cls)
    requires h !in v.cls && CanPush(v, h) && v.blocks[h].Free? && w == Push(v, h)
    ensures AgreesBut(w.cells, v.blocks, v.mem, -1, loose - {h})
    ensures Linked(w.cells, w.heads, w.cls, w.rank)
    ensures BytesMatch(w.bytes, w.blocks, w.cls)
  {
    hide AgreesBut, Linked, BytesMatch, PushRank, ListFor, Pushed, MarkedFree;
    PushAgrees(v, loose, h);
    PushLinked(v, h);
    BytesPush(v.bytes, v.blocks, v.cls, h, ListFor(v.blocks[h].len));
  }

  lemma BlockNotNull(b: Tiling, mem: set<nat>, h: nat)
    requires Tiled(b, mem) && h in b
    ensures 2 <= h && 1 <= b[h].len && h + b[h].len < ADDRESS_LIMIT
  {
  }

  lemma PushAgrees(v: View, loose: set<nat>, h: nat)
    requires AgreesBut(v.cells, v.blocks, v.mem, -1, loose) && CanPush(v, h) && v.blocks[h].Free?
    ensures AgreesBut(Push(v, h).cells, v.blocks, v.mem, -1, loose - {h})
  {
    hide Pushed, AgreesBut, SameShape;
    var c := MarkedFree(v.cells, h);
    var second := v.heads[ListFor(v.blocks[h].len)];
    LooseSettles(v.cells, v.blocks, v.mem, h, c, loose);
    PushedShape(c, h, second);
    SameShapeAgrees(c, Pushed(c, h, second), v.blocks, v.mem, -1, loose - {h});
  }

  lemma PushLinked(v: View, h: nat)
    requires Linked(v.cells, v.heads, v.cls, v.rank) && h !in v.cls && CanPush(v, h)
    ensures Linked(Push(v, h).cells, Push(v, h).heads, Push(v, h).cls, Push(v, h).rank)
  {
    LinkedFrame(v.cells, MarkedFree(v.cells, h), v.heads, v.cls, v.rank);
    PushedLinked(MarkedFree(v.cells, h), v.heads, v.cls, v.rank, h, ListFor(v.blocks[h].len));
  }

  // ----- the lists stay, unlisted runs change -----

  ghost predicate SameLists(v: View, w: View) {
    && w.heads == v.heads && w.bytes == v.bytes && w.cls == v.cls && w.rank == v.rank && w.mem == v.mem
    && (forall g :: g in v.cls && g in v.blocks ==> g in w.blocks && w.blocks[g] == v.blocks[g])
    && (forall g :: g in v.cls && g in v.cells ==> g in w.cells && w.cells[g] == v.cells[g])
  }

  lemma SameListsSound(v: View, w: View, x: int, loose: set<nat>, x': int, loose': set<nat>)
    requires Sound(v, x, loose) && SameLists(v, w)
    requires Tiled(w.blocks, w.mem) && AgreesBut(w.cells, w.blocks, w.mem, x', loose')
    ensures Sound(w, x', loose')
  {
    hide Tiled, AgreesBut;
    LinkedFrame(v.cells, w.cells, v.heads, v.cls, v.rank);
    hide Linked;
    BytesFrame(v.bytes, v.blocks, w.blocks, v.cls);
  }

  lemma HeaderThere(v: View, x: int, loose: set<nat>, h: nat)
    requires AgreesBut(v.cells, v.blocks, v.mem, x, loose) && h in v.blocks
    ensures HeaderFits(v.cells, h, v.blocks[h], loose)
  {
  }

  /** The rest of the free, unlisted run h gets a header e of its own; neither header is settled. */
  ghost function CutOff(v: View, h: nat, m: nat, e: Hdr): View
    requires h in v.blocks && h < m < h + v.blocks[h].len
  {
    v.(cells := v.cells[m := Header(e)], blocks := Cut(v.blocks, h, m))
  }

  lemma CutOffSound(v: View, h: nat, m: nat, e: Hdr)
    requires Sound(v, -1, {}) && h in v.blocks && v.blocks[h].Free? && h !in v.cls && h < m < h + v.blocks[h].len
    ensures m !in v.cls && Sound(CutOff(v, h, m, e), -1, {h, m})
  {
    CutOffSame(v, h, m, e);
    CutOffAgrees(v, h, m, e, CutOff(v, h, m, e));
    hide *;
    SameListsSound(v, CutOff(v, h, m, e), -1, {}, -1, {h, m});
  }

  lemma CutOffSame(v: View, h: nat, m: nat, e: Hdr)
    requires Tiled(v.blocks, v.mem) && v.cls.Keys <= v.blocks.Keys && h in v.blocks && h !in v.cls
    requires h < m < h + v.blocks[h].len
    ensures m !in v.cls && SameLists(v, CutOff(v, h, m, e))
  {
    hide Tiled;
    CutTiled(v.blocks, v.mem, h, m);
  }

  lemma CutOffAgrees(v: View, h: nat, m: nat, e: Hdr, w: View)
    requires Tiled(v.blocks, v.mem) && Agrees(v.cells, v.blocks, v.mem)
    requires h in v.blocks && v.blocks[h].Free? && h < m < h + v.blocks[h].len && w == CutOff(v, h, m, e)
    ensures Tiled(w.blocks, w.mem) && AgreesBut(w.cells, w.blocks, w.mem, -1, {h, m})
  {
    hide Tiled, AgreesBut, Cut;
    CutTiled(v.blocks, v.mem, h, m);
    HeaderThere(v, -1, {}, h);
    CutAgrees(v.cells, v.blocks, v.mem, h, m, w.cells, {h, m});
  }

  /** The free, unlisted run e is joined to the free, unlisted run h before it. */
  ghost function Joined(v: View, h: nat, e: nat): View
    requires IsHeader(v.cells, h) && IsHeader(v.cells, e) && h in v.blocks && e in v.blocks
  {
    var hdr := v.cells[h].hdr;
    v.(cells := v.cells[h := Header(hdr.(sz := hdr.sz + v.cells[e].hdr.sz))] - {e}, blocks := Join(v.blocks, h, e))
  }

  lemma JoinedSound(v: View, h: nat, e: nat)
    requires Sound(v, -1, {}) && h in v.blocks && e in v.blocks && v.blocks[h].Free? && v.blocks[e].Free?
    requires h !in v.cls && e !in v.cls && e == h + v.blocks[h].len
    requires IsHeader(v.cells, h) && IsHeader(v.cells, e)
    ensures Sound(Joined(v, h, e), -1, {})
  {
    JoinedSame(v, h, e);
    JoinedAgrees(v, h, e, Joined(v, h, e));
    hide *;
    SameListsSound(v, Joined(v, h, e), -1, {}, -1, {});
  }

  lemma JoinedSame(v: View, h: nat, e: nat)
    requires h in v.blocks && e in v.blocks && h !in v.cls && e !in v.cls && IsHeader(v.cells, h)
    requires IsHeader(v.cells, e)
    ensures SameLists(v, Joined(v, h, e))
  {
  }

  lemma JoinedCells(v: View, h: nat, e: nat)
    requires IsHeader(v.cells, h) && IsHeader(v.cells, e) && h in v.blocks && e in v.blocks && h != e
    ensures var d := Joined(v, h, e).cells;
      h in d && d == (v.cells - {e})[h := d[h]] && d[h].Header?
        && d[h].hdr == v.cells[h].hdr.(sz := v.cells[h].hdr.sz + v.cells[e].hdr.sz)
  {
  }

  lemma JoinedAgrees(v: View, h: nat, e: nat, w: View)
    requires Tiled(v.blocks, v.mem) && Agrees(v.cells, v.blocks, v.mem)
    requires h in v.blocks && e in v.blocks && v.blocks[h].Free? && v.blocks[e].Free? && e == h + v.blocks[h].len
    requires IsHeader(v.cells, h) && IsHeader(v.cells, e) && w == Joined(v, h, e)
    ensures Tiled(w.blocks, w.mem) && AgreesBut(w.cells, w.blocks, w.mem, -1, {})
  {
    hide Tiled, AgreesBut, Join;
    BlockNotNull(v.blocks, v.mem, h);
    JoinTiled(v.blocks, v.mem, h, e);
    HeaderThere(v, -1, {}, h);
    HeaderThere(v, -1, {}, e);
    JoinedCells(v, h, e);
    JoinAgrees(v.cells, v.blocks, v.mem, h, e, w.cells);
  }

  /** The used run h is emptied and its header marked free. */
  ghost function Emptied(v: View, h: nat): View
    requires IsHeader(v.cells, h) && h in v.blocks
  {
    var len := v.blocks[h].len;
    v.(cells := (v.cells - Interior(h, len))[h := Header(v.cells[h].hdr.(sz := len * HBLKSIZE, free := true))],
       blocks := v.blocks[h := Free(len)])
  }

  lemma EmptiedSound(v: View, h: nat)
    requires Sound(v, h, {}) && h in v.blocks && h !in v.cls && IsHeader(v.cells, h)
    ensures Sound(Emptied(v, h), -1, {})
  {
    EmptiedSame(v, h);
    EmptiedAgrees(v, h, Emptied(v, h));
    hide *;
    SameListsSound(v, Emptied(v, h), h, {}, -1, {});
  }

  lemma EmptiedSame(v: View, h: nat)
    requires Tiled(v.blocks, v.mem) && v.cls.Keys <= v.blocks.Keys && h in v.blocks && h !in v.cls
    requires IsHeader(v.cells, h)
    ensures SameLists(v, Emptied(v, h))
  {
    hide Tiled, Interior;
    ListedOutside(v, h);
    InteriorHolds(h, v.blocks[h].len);
  }

  lemma EmptiedAgrees(v: View, h: nat, w: View)
    requires Tiled(v.blocks, v.mem) && AgreesBut(v.cells, v.blocks, v.mem, h, {})
    requires h in v.blocks && IsHeader(v.cells, h) && w == Emptied(v, h)
    ensures Tiled(w.blocks, w.mem) && AgreesBut(w.cells, w.blocks, w.mem, -1, {})
  {
    hide Tiled, AgreesBut, Interior;
    RetagTiled(v.blocks, v.mem, h, Free(v.blocks[h].len));
    FreeAgrees(v.cells, v.blocks, v.mem, h, w.cells);
  }

  /** The free, unlisted run h becomes the home of an object of sz bytes. */
  ghost function Taken(v: View, h: nat, hdr: Hdr): View
    requires h in v.blocks
  {
    v.(cells := (v.cells + Counts(h, v.blocks[h].len))[h := Header(hdr)], blocks := v.blocks[h := UsedRun(hdr.sz)])
  }

  lemma TakenSound(v: View, h: nat, hdr: Hdr)
    requires Sound(v, -1, {h}) && h in v.blocks && v.blocks[h].Free? && h !in v.cls
    requires v.blocks[h].len == BlocksFor(hdr.sz) && !hdr.free
    ensures Sound(Taken(v, h, hdr), -1, {})
  {
    TakenSame(v, h, hdr);
    TakenAgrees(v, h, hdr, Taken(v, h, hdr));
    hide *;
    SameListsSound(v, Taken(v, h, hdr), -1, {h}, -1, {});
  }

  lemma TakenSame(v: View, h: nat, hdr: Hdr)
    requires Tiled(v.blocks, v.mem) && v.cls.Keys <= v.blocks.Keys && h in v.blocks && h !in v.cls
    ensures SameLists(v, Taken(v, h, hdr))
  {
    hide Tiled, Counts;
    ListedOutside(v, h);
    CountsHold(h, v.blocks[h].len);
  }

  lemma TakenAgrees(v: View, h: nat, hdr: Hdr, w: View)
    requires Tiled(v.blocks, v.mem) && AgreesBut(v.cells, v.blocks, v.mem, -1, {h})
    requires h in v.blocks && v.blocks[h].len == BlocksFor(hdr.sz) && !hdr.free && w == Taken(v, h, hdr)
    ensures Tiled(w.blocks, w.mem) && AgreesBut(w.cells, w.blocks, w.mem, -1, {})
  {
    hide Tiled, AgreesBut, Counts, BlocksFor;
    RetagTiled(v.blocks, v.mem, h, UsedRun(hdr.sz));
    UseAgrees(v.cells, v.blocks, v.mem, h, hdr.sz, w.cells);
  }

  /** Every block of the free, unlisted run h gets the header of a used block. */
  lemma ShatteredSound(v: View, w: View, h: nat)
    requires Sound(v, -1, {}) && h in v.blocks && v.blocks[h].Free? && h !in v.cls
    requires w == v.(cells := w.cells, blocks := Shatter(v.blocks, h))
    requires forall a: nat :: a < h || h + v.blocks[h].len <= a ==> SameCellAt(v.cells, w.cells, a)
    requires forall a: nat :: h <= a < h + v.blocks[h].len ==> HeaderShows(w.cells, a, Used(1, HBLKSIZE))
    ensures Sound(w, -1, {})
  {
    ShatteredSame(v, w, h);
    ShatteredAgrees(v, w, h);
    hide *;
    SameListsSound(v, w, -1, {}, -1, {});
  }

  lemma ShatteredAgrees(v: View, w: View, h: nat)
    requires Tiled(v.blocks, v.mem) && Agrees(v.cells, v.blocks, v.mem) && h in v.blocks
    requires w == v.(cells := w.cells, blocks := Shatter(v.blocks, h))
    requires forall a: nat :: a < h || h + v.blocks[h].len <= a ==> SameCellAt(v.cells, w.cells, a)
    requires forall a: nat :: h <= a < h + v.blocks[h].len ==> HeaderShows(w.cells, a, Used(1, HBLKSIZE))
    ensures Tiled(w.blocks, w.mem) && AgreesBut(w.cells, w.blocks, w.mem, -1, {})
  {
    ShatterTiled(v.blocks, v.mem, h);
    ShatterAgrees(v.cells, v.blocks, v.mem, h, w.cells);
  }

  lemma ShatteredSame(v: View, w: View, h: nat)
    requires Tiled(v.blocks, v.mem) && v.cls.Keys <= v.blocks.Keys && h in v.blocks && h !in v.cls
    requires w == v.(cells := w.cells, blocks := Shatter(v.blocks, h))
    requires forall a: nat :: a < h || h + v.blocks[h].len <= a ==> SameCellAt(v.cells, w.cells, a)
    ensures SameLists(v, w)
  {
    hide Tiled, Singles;
    ListedOutside(v, h);
    SinglesHold(h, v.blocks[h].len);
    assert forall g :: g in v.cls ==> SameCellAt(v.cells, w.cells, g);
  }

  lemma ListedOutside(v: View, h: nat)
    requires Tiled(v.blocks, v.mem) && h in v.blocks && h !in v.cls && v.cls.Keys <= v.blocks.Keys
    ensures forall g :: g in v.cls ==> g < h || h + v.blocks[h].len <= g
  {
  }

  // ----- a free run is split and its second part takes its place in the list -----

  /** The headers once n has one: h keeps the part before n, n gets the rest but is not marked free. */
  function SplitHeaders(cells: Cells, h: nat, n: nat): Cells
    requires IsHeader(cells, h) && h < n && (n - h) * HBLKSIZE <= cells[h].hdr.sz
  {
    var hdr := cells[h].hdr;
    cells[n := Header(Hdr(hdr.sz - (n - h) * HBLKSIZE, false, 0, 0))][h := Header(hdr.(sz := (n - h) * HBLKSIZE))]
  }

  /** h is listed and can be cut at n; its links lead to headers. */
  ghost predicate CanSplit(v: View, h: nat, n: nat) {
    && IsHeader(v.cells, h) && h in v.cls && h in v.blocks && h in v.rank && v.cls[h] <= N_HBLK_FLS
    && |v.heads| == |v.bytes| == N_HBLK_FLS + 1
    && h < n < h + v.blocks[h].len && v.cells[h].hdr.sz == v.blocks[h].len * HBLKSIZE <= v.bytes[v.cls[h]]
    && LinksLead(SplitHeaders(v.cells, h, n), v.cells[h].hdr)
    && n !in v.blocks && n !in v.cls
  }

  ghost function Split(v: View, h: nat, n: nat): View
    requires CanSplit(v, h, n)
  {
    var i := v.cls[h];
    View(Replaced(SplitHeaders(v.cells, h, n), h, n),
         if v.cells[h].hdr.prev == 0 then v.heads[i := n] else v.heads,
         v.bytes[i := v.bytes[i] - (n - h) * HBLKSIZE],
         Cut(v.blocks, h, n), v.mem, (v.cls - {h})[n := i], v.rank[n := v.rank[h]])
  }

  lemma ListedCanSplit(v: View, h: nat, n: nat)
    requires Sound(v, -1, {}) && h in v.cls && h in v.blocks && v.blocks[h].Free? && h < n < h + v.blocks[h].len
    ensures CanSplit(v, h, n)
  {
    ListedCanUnlink(v, -1, {}, h);
    CutTiled(v.blocks, v.mem, h, n);
    BlockNotNull(v.blocks, v.mem, h);
    hide AgreesBut, Tiled, BytesMatch, Linked, LinksLead;
    SplitLinksLead(v.cells, h, n);
  }

  lemma SplitLinksLead(cells: Cells, h: nat, n: nat)
    requires IsHeader(cells, h) && 0 < h < n && (n - h) * HBLKSIZE <= cells[h].hdr.sz && LinksLead(cells, cells[h].hdr)
    ensures LinksLead(SplitHeaders(cells, h, n), cells[h].hdr)
  {
  }

  lemma SplitSound(v: View, h: nat, n: nat)
    requires Sound(v, -1, {}) && CanSplit(v, h, n) && v.blocks[h].Free?
    ensures Sound(Split(v, h, n), -1, {n}) && h !in Split(v, h, n).cls && h in Split(v, h, n).blocks
  {
    SplitAgrees(v, h, n, Split(v, h, n));
    SplitLinked(v, h, n, Split(v, h, n));
    SplitBytes(v, h, n, Split(v, h, n));
    hide Tiled, AgreesBut, Linked, BytesMatch, CanSplit, SplitHeaders, Replaced;
  }

  lemma SplitAgrees(v: View, h: nat, n: nat, w: View)
    requires Tiled(v.blocks, v.mem) && Agrees(v.cells, v.blocks, v.mem)
    requires CanSplit(v, h, n) && v.blocks[h].Free? && w == Split(v, h, n)
    ensures Tiled(w.blocks, w.mem) && AgreesBut(w.cells, w.blocks, w.mem, -1, {n})
  {
    hide Tiled, AgreesBut, Replaced;
    CutTiled(v.blocks, v.mem, h, n);
    HeaderThere(v, -1, {}, h);
    var d := SplitHeaders(v.cells, h, n);
    assert d == v.cells[h := d[h]][n := d[n]];
    CutAgrees(v.cells, v.blocks, v.mem, h, n, d, {n});
    ReplacedShape(d, h, n);
    SameShapeAgrees(d, w.cells, w.blocks, w.mem, -1, {n});
  }

  lemma SplitLinked(v: View, h: nat, n: nat, w: View)
    requires Linked(v.cells, v.heads, v.cls, v.rank) && CanSplit(v, h, n) && w == Split(v, h, n)
    ensures Linked(w.cells, w.heads, w.cls, w.rank)
  {
    hide Linked, Replaced;
    var d := SplitHeaders(v.cells, h, n);
    LinkedFrame(v.cells, d, v.heads, v.cls, v.rank);
    ReplacedLinked(d, v.heads, v.cls, v.rank, h, n);
  }

  lemma SplitBytes(v: View, h: nat, n: nat, w: View)
    requires BytesMatch(v.bytes, v.blocks, v.cls) && CanSplit(v, h, n)
    requires w == Split(v, h, n)
    ensures BytesMatch(w.bytes, w.blocks, w.cls)
  {
    hide BytesMatch;
    var i := v.cls[h];
    BytesUnlink(v.bytes, v.blocks, v.cls, h);
    var bytes := v.bytes[i := v.bytes[i] - v.blocks[h].len * HBLKSIZE];
    BytesFrame(bytes, v.blocks, w.blocks, v.cls - {h});
    BytesPush(bytes, w.blocks, v.cls - {h}, n, i);
    assert w.blocks[n].len == v.blocks[h].len - (n - h);
    assert w.bytes == bytes[i := bytes[i] + w.blocks[n].len * HBLKSIZE];
  }
}

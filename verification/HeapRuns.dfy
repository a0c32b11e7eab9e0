/** Whole runs of the allocator: any sequence of additions, allocations and releases. */
module HeapRuns {
  import opened Intervals
  import opened Blocks
  import opened FreeLists
  import opened HeapShape
  import opened Totals
  import opened AllocSteps
  import opened GrowSteps
  import opened Searches
  import opened Choices

  /** The heap as its clients know it: its memory, the sizes of the live objects by their first blocks, and
      the black listed blocks that were dropped; and the tiling the allocator keeps for it. */
  datatype State = State(blocks: Tiling, mem: set<nat>, live: map<nat, nat>, lost: set<nat>)

  /** One call: what GC_add_to_heap, GC_allochblk and GC_freehblk guarantee. */
  datatype Call = Add(start: nat, n: nat)
                | Alloc(q: Request, p: Policy, limit: nat, r: nat, f: nat, i: nat, hs: seq<nat>, mid: Tiling)
                | Dealloc(h: nat)

  ghost predicate Next(x: State, e: Call, y: State) {
    match e
    case Add(s, n) =>
      && 1 <= n && 2 <= s && s + n < ADDRESS_LIMIT && Extent(s, n) !! x.mem
      && y.blocks == Release(x.blocks[s := UsedRun(n * HBLKSIZE)], s)
      && y.mem == x.mem + Extent(s, n) && y.live == x.live && y.lost == x.lost
    case Alloc(q, p, limit, r, f, i, hs, mid) =>
      if SIGN_BIT - HBLKSIZE < q.sz then r == 0 && y == x
      else
        && 0 < q.sz && Allocated(x.blocks, y.blocks, p, q, limit, r, f, i, hs, mid)
        && y.mem == x.mem && y.live == (if r == 0 then x.live else x.live[r := q.sz])
        && y.lost == x.lost + NewlyUsed(x.blocks, mid)
    case Dealloc(h) =>
      && h in x.live && h in x.blocks && 1 <= x.blocks[h].len && y.blocks == Release(x.blocks, h)
      && y.mem == x.mem && y.live == x.live - {h} && y.lost == x.lost
  }

  ghost predicate UsedIn(b: Tiling, h: nat) {
    h in b && b[h].Used?
  }

  ghost function NewlyUsed(b: Tiling, c: Tiling): set<nat> {
    set h | h in c && c[h].Used? && !UsedIn(b, h)
  }

  /** The used runs are the live objects and the dropped blocks. */
  ghost predicate Accounted(x: State) {
    && (forall h :: h in x.blocks && x.blocks[h].Used? ==> h in x.live || h in x.lost)
    && (forall h :: h in x.live ==> h in x.blocks && x.blocks[h] == UsedRun(x.live[h]) && h !in x.lost)
    && (forall h :: h in x.lost ==> h in x.blocks && x.blocks[h] == Used(1, HBLKSIZE))
  }

  ghost predicate Good(x: State) {
    Tiled(x.blocks, x.mem) && NoAdjacentFree(x.blocks) && Sized(x.blocks) && Accounted(x)
  }

  ghost predicate IsRun(xs: seq<State>, es: seq<Call>) {
    && |xs| == |es| + 1
    && forall i :: 0 <= i < |es| ==> Next(xs[i], es[i], xs[i + 1])
  }

  lemma EmptyGood()
    ensures Good(State(map[], {}, map[], {}))
  {
  }

  /** In every run the blocks tile the heap and are coalesced, and every live object keeps its own run of
      blocks, of just the size it needs, from its allocation to its release. */
  lemma {:induction false} RunGood(xs: seq<State>, es: seq<Call>)
    requires IsRun(xs, es) && Good(xs[0])
    ensures Good(xs[|es|])
    decreases |es|
  {
    hide Good, Next;
    if es != [] {
      var last := |es| - 1;
      RunGood(xs[..|es|], es[..last]);
      assert Next(xs[last], es[last], xs[last + 1]);
      NextGood(xs[last], es[last], xs[last + 1]);
    }
  }

  lemma NextGood(x: State, e: Call, y: State)
    requires Good(x) && Next(x, e, y)
    ensures Good(y)
  {
    hide Good, Release, Allocated, Extent, Tiled;
    match e {
      case Add(s, n) => AddGood(x, s, n, y);
      case Alloc(q, p, limit, r, f, i, hs, mid) => AllocGood(x, q, p, limit, r, f, i, hs, mid, y);
      case Dealloc(h) => FreeGood(x, h, y);
    }
  }

  lemma ReleaseGood(x: State, h: nat, y: State)
    requires Tiled(x.blocks, x.mem) && NoAdjacentFree(x.blocks) && h in x.blocks && x.blocks[h].Used?
    requires 1 <= x.blocks[h].len
    requires y.mem == x.mem && y.blocks == Release(x.blocks, h)
    ensures Tiled(y.blocks, y.mem) && NoAdjacentFree(y.blocks)
    ensures SameUsed(x.blocks[h := Free(x.blocks[h].len)], y.blocks)
  {
    hide Tiled, NoAdjacentFree, Release, SameUsed;
    ReleaseFrees(x.blocks, x.mem, h);
    ReleaseCoalesced(x.blocks, x.mem, h);
  }

  lemma FreeGood(x: State, h: nat, y: State)
    requires Good(x) && Next(x, Dealloc(h), y)
    ensures Good(y)
  {
    hide Tiled, NoAdjacentFree, Release, BlocksFor;
    ReleaseGood(x, h, y);
    FreeAccounted(x, h, y);
  }

  lemma FreeAccounted(x: State, h: nat, y: State)
    requires Accounted(x) && Sized(x.blocks) && h in x.live && h in x.blocks
    requires SameUsed(x.blocks[h := Free(x.blocks[h].len)], y.blocks) && y.live == x.live - {h} && y.lost == x.lost
    ensures Accounted(y) && Sized(y.blocks)
  {
    hide BlocksFor;
  }

  lemma AddGood(x: State, s: nat, n: nat, y: State)
    requires Good(x) && Next(x, Add(s, n), y)
    ensures Good(y)
  {
    hide Tiled, NoAdjacentFree, Release, BlocksFor, Extent;
    NewRunOutside(x.blocks, x.mem, s, n);
    BlocksOf(n);
    GrownTiled(x.blocks, x.mem, s, n, n * HBLKSIZE);
    var z := x.(blocks := x.blocks[s := UsedRun(n * HBLKSIZE)], mem := y.mem);
    AddedCoalesced(x.blocks, s, n * HBLKSIZE);
    ReleaseGood(z, s, y);
    AddAccounted(x, s, n * HBLKSIZE, y);
  }

  lemma BlocksOf(n: nat)
    ensures BlocksFor(n * HBLKSIZE) == n
  {
  }

  lemma AddedCoalesced(b: Tiling, s: nat, sz: nat)
    requires NoAdjacentFree(b) && s !in b
    ensures NoAdjacentFree(b[s := UsedRun(sz)])
  {
  }

  lemma AddAccounted(x: State, s: nat, sz: nat, y: State)
    requires Accounted(x) && Sized(x.blocks) && s !in x.blocks
    requires SameUsed(x.blocks[s := UsedRun(sz)][s := Free(BlocksFor(sz))], y.blocks) && y.live == x.live
    requires y.lost == x.lost
    ensures Accounted(y) && Sized(y.blocks)
  {
    hide BlocksFor;
  }

  // ----- allocation -----

  /** Drops keep the used runs and add used runs of one block out of free memory. */
  lemma {:induction false} DropsAccounted(b: Tiling, mem: set<nat>, hs: seq<nat>)
    requires Tiled(b, mem) && NoAdjacentFree(b) && Sized(b) && CanShatter(b, hs)
    ensures var c := ShatterAll(b, hs); Tiled(c, mem) && NoAdjacentFree(c) && Sized(c)
    ensures forall h :: UsedIn(b, h) ==> h in ShatterAll(b, hs) && ShatterAll(b, hs)[h] == b[h]
    ensures forall h :: UsedIn(ShatterAll(b, hs), h) && !UsedIn(b, h) ==> ShatterAll(b, hs)[h] == Used(1, HBLKSIZE)
    decreases |hs|
  {
    if hs != [] {
      hide Tiled, NoAdjacentFree, Sized, Shatter;
      ShatterTiled(b, mem, hs[0]);
      ShatterCoalesced(b, mem, hs[0]);
      ShatterSized(b, hs[0]);
      ShatterUsed(b, mem, hs[0]);
      DropsAccounted(Shatter(b, hs[0]), mem, hs[1..]);
    }
  }

  lemma ShatterUsed(b: Tiling, mem: set<nat>, h: nat)
    requires Tiled(b, mem) && h in b && b[h].Free?
    ensures forall g :: UsedIn(b, g) ==> g in Shatter(b, h) && Shatter(b, h)[g] == b[g]
    ensures forall g :: UsedIn(Shatter(b, h), g) && !UsedIn(b, g) ==> Shatter(b, h)[g] == Used(1, HBLKSIZE)
  {
    SinglesHold(h, b[h].len);
    hide Singles;
  }

  lemma CarveUsed(b: Tiling, mem: set<nat>, f: nat, r: nat, sz: nat)
    requires Tiled(b, mem) && Fits(b, f, r, BlocksFor(sz))
    ensures r in Carve(b, f, r, sz) && Carve(b, f, r, sz)[r] == UsedRun(sz) && !UsedIn(b, r)
    ensures forall g :: UsedIn(b, g) ==> g in Carve(b, f, r, sz) && Carve(b, f, r, sz)[g] == b[g]
    ensures forall g :: UsedIn(Carve(b, f, r, sz), g) && g != r ==> UsedIn(b, g)
  {
    hide Covers, BlocksFor;
  }

  lemma CarveTiled(b: Tiling, mem: set<nat>, f: nat, r: nat, sz: nat)
    requires Tiled(b, mem) && Fits(b, f, r, BlocksFor(sz))
    ensures Tiled(Carve(b, f, r, sz), mem)
  {
    hide Tiled, Cut, BlocksFor;
    var k := BlocksFor(sz);
    FrontCutHolds(b, mem, f, r, k);
    FrontCutTiled(b, mem, f, r);
    var b1 := FrontCut(b, f, r);
    hide FrontCut, CutOut;
    if k < b1[r].len {
      CutTiled(b1, mem, r, r + k);
    }
    CutOutStarts(b, mem, f, r, k);
    RetagTiled(CutOut(b, f, r, k), mem, r, UsedRun(sz));
  }

  lemma CutOutStarts(b: Tiling, mem: set<nat>, f: nat, r: nat, k: nat)
    requires Tiled(b, mem) && Fits(b, f, r, k)
    ensures r in CutOut(b, f, r, k) && CutOut(b, f, r, k)[r].len == k
  {
    hide FreeTotal;
    CutOutTotal(b, mem, f, r, k);
  }

  lemma FrontCutTiled(b: Tiling, mem: set<nat>, f: nat, r: nat)
    requires Tiled(b, mem) && f in b && f <= r < f + b[f].len
    ensures Tiled(FrontCut(b, f, r), mem)
  {
    hide Tiled, Cut;
    if f < r {
      CutTiled(b, mem, f, r);
    }
  }

  lemma AllocGood(x: State, q: Request, p: Policy, limit: nat, r: nat, f: nat, i: nat, hs: seq<nat>, mid: Tiling,
                  y: State)
    requires Good(x) && Next(x, Alloc(q, p, limit, r, f, i, hs, mid), y)
    ensures Good(y)
    ensures r != 0 ==> r !in x.live && r !in x.lost && r in y.blocks && y.blocks[r] == UsedRun(q.sz)
  {
    hide Tiled, NoAdjacentFree, Sized, NothingOn, FirstGrant, Droppable, Fits, Carve, Accounted, BlocksFor;
    if SIGN_BIT - HBLKSIZE < q.sz { return; }
    DropsAccounted(x.blocks, x.mem, hs);
    MidAccounted(x, mid, State(mid, x.mem, x.live, y.lost));
    if r != 0 {
      CarveTiled(mid, x.mem, f, r, q.sz);
      CarveCoalesced(mid, x.mem, f, r, q.sz);
      CarveSized(mid, x.mem, f, r, q.sz);
      CarveUsed(mid, x.mem, f, r, q.sz);
      CarveAccounted(State(mid, x.mem, x.live, y.lost), r, q.sz, y);
    }
  }

  lemma MidAccounted(x: State, mid: Tiling, z: State)
    requires Accounted(x) && z == State(mid, x.mem, x.live, x.lost + NewlyUsed(x.blocks, mid))
    requires forall h :: UsedIn(x.blocks, h) ==> h in mid && mid[h] == x.blocks[h]
    requires forall h :: UsedIn(mid, h) && !UsedIn(x.blocks, h) ==> mid[h] == Used(1, HBLKSIZE)
    ensures Accounted(z)
  {
    hide BlocksFor;
  }

  lemma CarveAccounted(z: State, r: nat, sz: nat, y: State)
    requires Accounted(z) && r in y.blocks && y.blocks[r] == UsedRun(sz) && !UsedIn(z.blocks, r)
    requires forall g :: UsedIn(z.blocks, g) ==> g in y.blocks && y.blocks[g] == z.blocks[g]
    requires forall g :: UsedIn(y.blocks, g) && g != r ==> UsedIn(z.blocks, g)
    requires y.live == z.live[r := sz] && y.lost == z.lost
    ensures Accounted(y) && r !in z.live && r !in z.lost
  {
    hide BlocksFor;
    assert forall h :: h in z.live || h in z.lost ==> UsedIn(z.blocks, h);
    assert forall h :: h in y.blocks && y.blocks[h].Used? ==> UsedIn(y.blocks, h);
  }

  // ----- what follows for the clients -----

  /** A new object overlaps no live one. */
  lemma NewObjectApart(x: State, q: Request, p: Policy, limit: nat, r: nat, f: nat, i: nat, hs: seq<nat>, mid: Tiling,
                       y: State, h: nat)
    requires Good(x) && Next(x, Alloc(q, p, limit, r, f, i, hs, mid), y) && r != 0 && h in x.live
    ensures r + BlocksFor(q.sz) <= h || h + BlocksFor(x.live[h]) <= r
    ensures forall a: nat :: r <= a < r + BlocksFor(q.sz) ==> a in x.mem
  {
    hide Allocated, Sized, NoAdjacentFree, BlocksFor;
    AllocGood(x, q, p, limit, r, f, i, hs, mid, y);
    forall a: nat | r <= a < r + BlocksFor(q.sz) ensures a in x.mem {
      assert In(y.blocks, r, a) && Held(y.blocks, a);
    }
    assert h in y.live && h in y.blocks && y.blocks[h] == UsedRun(x.live[h]);
  }

  /** So their bytes do not overlap either. */
  lemma NewBytesApart(x: State, q: Request, p: Policy, limit: nat, r: nat, f: nat, i: nat, hs: seq<nat>, mid: Tiling,
                      y: State, h: nat)
    requires Good(x) && Next(x, Alloc(q, p, limit, r, f, i, hs, mid), y) && r != 0 && h in x.live
    ensures r * HBLKSIZE + q.sz <= h * HBLKSIZE || h * HBLKSIZE + x.live[h] <= r * HBLKSIZE
  {
    hide Next, Good, BlocksFor;
    NewObjectApart(x, q, p, limit, r, f, i, hs, mid, y, h);
    BlocksForLeast(q.sz);
    BlocksForLeast(x.live[h]);
  }

  /** Releasing an object right after its allocation undoes the allocation, up to dropped blocks. */
  lemma FreeUndoesAlloc(x: State, q: Request, p: Policy, limit: nat, r: nat, f: nat, i: nat, hs: seq<nat>, mid: Tiling,
                        y: State, z: State)
    requires Good(x) && Next(x, Alloc(q, p, limit, r, f, i, hs, mid), y) && r != 0 && Next(y, Dealloc(r), z)
    ensures z.live == x.live && z.mem == x.mem && z.blocks == mid
    ensures hs == [] ==> z == x
  {
    hide Tiled, NoAdjacentFree, NothingOn, FirstGrant, Droppable, Fits, Carve, Accounted, BlocksFor, Release, Sized;
    AllocGood(x, q, p, limit, r, f, i, hs, mid, y);
    NotLive(x.live, r, q.sz);
    DropsAccounted(x.blocks, x.mem, hs);
    ReleaseUndoesCarve(mid, x.mem, f, r, q.sz);
  }

  lemma NotLive(live: map<nat, nat>, r: nat, sz: nat)
    requires r !in live
    ensures live[r := sz] - {r} == live
  {
  }

  /** The tiling does not depend on the history, only on the memory, the live objects and the dropped blocks. */
  lemma HistoryForgotten(x: State, y: State)
    requires Good(x) && Good(y) && x.mem == y.mem && x.live == y.live && x.lost == y.lost
    ensures x.blocks == y.blocks
  {
    hide Tiled, NoAdjacentFree, Sized, FreeAt, BlocksFor;
    forall a: nat ensures FreeAt(x.blocks, a) <==> FreeAt(y.blocks, a) {
      if FreeAt(x.blocks, a) { FreeInBoth(x, y, a); }
      if FreeAt(y.blocks, a) { FreeInBoth(y, x, a); }
    }
    FreeRunsDetermined(x.blocks, y.blocks, x.mem, y.mem);
    UsedRunsSame(x, y);
    UsedRunsSame(y, x);
  }

  lemma UsedRunsSame(x: State, y: State)
    requires Accounted(x) && Accounted(y) && x.live == y.live && x.lost == y.lost
    ensures forall h :: UsedIn(x.blocks, h) ==> h in y.blocks && y.blocks[h] == x.blocks[h]
  {
    hide BlocksFor;
  }

  lemma FreeInBoth(x: State, y: State, a: nat)
    requires Tiled(x.blocks, x.mem) && Tiled(y.blocks, y.mem) && Accounted(x) && Accounted(y)
    requires x.mem == y.mem && x.live == y.live && x.lost == y.lost && FreeAt(x.blocks, a)
    ensures FreeAt(y.blocks, a)
  {
    hide BlocksFor;
    UsedRunsSame(y, x);
    var h: nat :| In(x.blocks, h, a) && x.blocks[h].Free?;
    assert Held(x.blocks, a);
    assert Held(y.blocks, a);
    var g: nat :| In(y.blocks, g, a);
    assert UsedIn(y.blocks, g) ==> In(x.blocks, g, a);
  }
}

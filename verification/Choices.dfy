/** What a search chooses, block by block: the places it may use, the runs it passes over and drops, and how far it
    may split. */
module Choices {
  import opened Blocks
  import opened BlockIndexes
  import opened FreeLists
  import opened HeapShape
  import opened Sums
  import opened Totals
  import opened HeapViews
  import opened AllocSteps
  import opened BlackLists
  import opened Searches

  // ----- sizes -----

  /** The blocks for an object hold it, and no fewer would. */
  lemma BlocksForLeast(sz: nat)
    ensures sz <= BlocksFor(sz) * HBLKSIZE < sz + HBLKSIZE
  {
  }

  // ----- places -----

  /** A request that is not for uncollectable memory, and not for a small pointer-free object, goes to the first
      place in the run at which it neither starts at a listed block nor covers one, or covers none with its first
      block if pointers into the rest do not count. Only if the request is so large, and the run so much larger, that
      both exceed the spacing, and every place is listed, it goes to the start of the run all the same. */
  lemma PlacedClear(p: Policy, q: Request, f: nat, len: nat, r: nat)
    requires Placed(p, q, f, len, r) && !q.uncollectable && (!q.ptrFree || 2 < BlocksFor(q.sz))
    ensures f <= r && r + BlocksFor(q.sz) <= f + len
    ensures var n := if q.ignoreOffPage then 1 else BlocksFor(q.sz);
      || (&& !NormalHit(p.tables, r) && (forall a: nat :: r <= a < r + n ==> !StackHit(p.tables, a))
          && forall x: nat :: f <= x < r ==> NormalHit(p.tables, x) || Meets(p.tables, x, n))
      || (&& r == f && p.spacing < BlocksFor(q.sz) * HBLKSIZE && p.spacing < (len - BlocksFor(q.sz)) * HBLKSIZE
          && forall x: nat :: f <= x <= f + len - BlocksFor(q.sz) ==> NormalHit(p.tables, x) || Meets(p.tables, x, n))
  {
    hide BlocksFor, NormalHit, StackHit;
    forall x: nat | (f <= x < r && Blocked(p, q, f, r))
      || (f <= x <= f + len - Needed(q) && Blocked(p, q, f, f + len - Needed(q) + 1))
      ensures NormalHit(p.tables, x) || Meets(p.tables, x, if q.ignoreOffPage then 1 else Needed(q))
    {
      assert !Open(p, q, x);
    }
  }

  /** One of the n blocks from x on must not be included in an object. */
  ghost predicate Meets(t: Tables, x: nat, n: nat) {
    exists a: nat :: x <= a < x + n && StackHit(t, a)
  }

  /** Any other request goes to the start of the run. */
  lemma PlacedFirst(p: Policy, q: Request, f: nat, len: nat, r: nat)
    requires Placed(p, q, f, len, r) && (q.uncollectable || (q.ptrFree && BlocksFor(q.sz) <= 2))
    ensures r == f
  {
    assert r != f ==> !Open(p, q, f);
  }

  /** A block that an allocation returns, seen from the black lists. */
  lemma AllocatedClear(b: Tiling, c: Tiling, p: Policy, q: Request, limit: int, r: nat, f: nat, n: nat, hs: seq<nat>,
                       mid: Tiling)
    requires Allocated(b, c, p, q, limit, r, f, n, hs, mid) && r != 0
    requires !q.uncollectable && (!q.ptrFree || 2 < BlocksFor(q.sz))
    ensures f in mid && mid[f].Free? && f <= r && r + BlocksFor(q.sz) <= f + mid[f].len
    ensures var len, k := mid[f].len, if q.ignoreOffPage then 1 else BlocksFor(q.sz);
      || (&& !NormalHit(p.tables, r) && (forall a: nat :: r <= a < r + k ==> !StackHit(p.tables, a))
          && forall x: nat :: f <= x < r ==> NormalHit(p.tables, x) || Meets(p.tables, x, k))
      || (&& r == f && p.spacing < BlocksFor(q.sz) * HBLKSIZE && p.spacing < (len - BlocksFor(q.sz)) * HBLKSIZE
          && forall x: nat :: f <= x <= f + len - BlocksFor(q.sz) ==> NormalHit(p.tables, x) || Meets(p.tables, x, k))
  {
    hide Dropping, Searched, Carve, Acceptable, Placed, Fits, BlocksFor, ListFor;
    PlacedClear(p, q, f, mid[f].len, r);
  }

  /** When a search of all lists fails, no free run is large enough, or every place in it is listed and the request is
      not so large that this is ignored. */
  lemma FailedClear(b: Tiling, c: Tiling, p: Policy, q: Request, hs: seq<nat>, h: nat)
    requires Allocated(b, c, p, q, N_HBLK_FLS, 0, 0, 0, hs, c) && h in c && c[h].Free? && BlocksFor(q.sz) <= c[h].len
    ensures !q.uncollectable && (!q.ptrFree || 2 < BlocksFor(q.sz))
    ensures p.spacing < BlocksFor(q.sz) * HBLKSIZE ==> (c[h].len - BlocksFor(q.sz)) * HBLKSIZE <= p.spacing
    ensures var k := if q.ignoreOffPage then 1 else BlocksFor(q.sz);
      forall x: nat :: h <= x <= h + c[h].len - BlocksFor(q.sz) ==> NormalHit(p.tables, x) || Meets(p.tables, x, k)
  {
    hide Allocated, BlocksFor;
    FullSearch(b, c, p, q, hs, h);
    assert !Open(p, q, h);
    hide NormalHit, StackHit;
    forall x: nat | h <= x <= h + c[h].len - Needed(q)
      ensures Sensitive(q) && (NormalHit(p.tables, x) || Meets(p.tables, x, if q.ignoreOffPage then 1 else Needed(q)))
    {
      assert !Open(p, q, x);
    }
  }

  // ----- runs that are dropped -----

  /** A run that is dropped now and then consists of listed blocks, for a request of one block that minds them. */
  lemma DroppableExactly(p: Policy, q: Request, h: nat, len: nat)
    requires 1 <= len
    ensures Droppable(p, q, h, len) <==>
      && 0 < q.sz <= HBLKSIZE && !p.findLeak && !q.uncollectable && !q.ptrFree
      && forall a: nat :: h <= a < h + len ==> NormalHit(p.tables, a) || StackHit(p.tables, a)
  {
    hide NormalHit, StackHit;
    if Needed(q) == 1 {
      forall a: nat | h <= a < h + len
        ensures !Open(p, q, a) <==> Sensitive(q) && (NormalHit(p.tables, a) || StackHit(p.tables, a))
      {
        OneBlockHit(p.tables, a);
      }
      assert Blocked(p, q, h, h + len) ==> !Open(p, q, h);
    }
  }

  lemma OneBlockHit(t: Tables, a: nat)
    ensures Hit(t, a, 1) <==> NormalHit(t, a) || StackHit(t, a)
  {
  }

  /** A block that is passed over for the next one in its list, which is large enough, smaller, and not listed. */
  lemma BetterExactly(v: View, p: Policy, q: Request, h: nat)
    requires h in v.blocks && IsHeader(v.cells, h)
    ensures Better(v, p, q, h) <==>
      var next := v.cells[h].hdr.next;
      && v.blocks[h].len != BlocksFor(q.sz) && next != 0 && next in v.blocks
      && BlocksFor(q.sz) <= v.blocks[next].len < v.blocks[h].len
      && !NormalHit(p.tables, next)
      && forall a: nat :: next <= a < next + BlocksFor(q.sz) ==> !StackHit(p.tables, a)
  {
    hide BlocksFor;
  }

  /** The runs that count towards a drop. */
  lemma CandidateExactly(v: View, p: Policy, q: Request, maySplit: bool, h: nat)
    requires h in v.blocks && 1 <= v.blocks[h].len
    ensures Candidate(v, p, q, maySplit, h) <==>
      var len := v.blocks[h].len;
      && 0 < q.sz <= HBLKSIZE && (len == 1 || maySplit) && !Better(v, p, q, h)
      && !p.findLeak && !q.uncollectable && !q.ptrFree
      && (p.spacing < HBLKSIZE ==> (len - 1) * HBLKSIZE <= p.spacing)
      && forall a: nat :: h <= a < h + len ==> NormalHit(p.tables, a) || StackHit(p.tables, a)
  {
    hide Better, Droppable, Blocked;
    var len := v.blocks[h].len;
    DroppableExactly(p, q, h, len);
    if Droppable(p, q, h, len) {
      assert Blocked(p, q, h, h + len - Needed(q) + 1) by { DroppableBlocked(p, q, h, len); }
    }
  }

  lemma DroppableBlocked(p: Policy, q: Request, h: nat, len: nat)
    requires Droppable(p, q, h, len)
    ensures Needed(q) == 1 && Blocked(p, q, h, h + len)
  {
  }

  // ----- the runs of a list in order -----

  /** The search goes on behind h: it is not acceptable, or the next one is better. */
  ghost predicate Passable(v: View, p: Policy, q: Request, maySplit: bool, h: nat)
    requires h in v.blocks
  {
    !Acceptable(p, q, maySplit, h, v.blocks[h].len) || (maySplit && Better(v, p, q, h))
  }

  /** The search passed over the runs of list n before cur for these reasons only. */
  ghost predicate PassedRight(v: View, p: Policy, q: Request, maySplit: bool, n: nat, cur: nat) {
    forall h :: h in v.cls && v.cls[h] == n && h in v.blocks && Before(v, h, cur) ==> Passable(v, p, q, maySplit, h)
  }

  /** f is the first run of list n that the search does not pass over. */
  ghost predicate FirstChoice(v: View, p: Policy, q: Request, maySplit: bool, n: nat, f: nat) {
    && Settled(v) && f in v.cls && v.cls[f] == n && f in v.blocks && f in v.rank
    && PassedRight(v, p, q, maySplit, n, f) && !Passable(v, p, q, maySplit, f)
  }

  lemma StartRight(v: View, p: Policy, q: Request, maySplit: bool, n: nat)
    requires Sound(v, -1, {}) && n <= N_HBLK_FLS
    ensures |v.heads| == N_HBLK_FLS + 1 && PassedRight(v, p, q, maySplit, n, v.heads[n])
  {
    hide Passable, Tiled, AgreesBut, BytesMatch, LinkedAt;
    assert FirstOf(v.cls, v.rank, n, v.heads[n]);
  }

  lemma PassRight(v: View, p: Policy, q: Request, maySplit: bool, n: nat, h: nat)
    requires Sound(v, -1, {}) && h in v.cls && v.cls[h] == n && h in v.blocks && h != 0
    requires PassedRight(v, p, q, maySplit, n, h) && Decided(v, p, q, maySplit, h, Pass)
    ensures IsHeader(v.cells, h) && PassedRight(v, p, q, maySplit, n, v.cells[h].hdr.next)
  {
    hide Acceptable, Better, Tiled, AgreesBut, BytesMatch, FirstOf, LinkedAt;
    LinkFacts(v, h);
    var next := v.cells[h].hdr.next;
    forall x | x in v.cls && v.cls[x] == n && x in v.blocks && Before(v, x, next)
      ensures Passable(v, p, q, maySplit, x)
    {
      assert SameList(v.cls, x, h);
    }
  }

  lemma TakeRight(v: View, p: Policy, q: Request, maySplit: bool, n: nat, h: nat, at: nat)
    requires Settled(v) && h in v.cls && v.cls[h] == n && h in v.blocks && h in v.rank
    requires PassedRight(v, p, q, maySplit, n, h) && Decided(v, p, q, maySplit, h, Take(at))
    ensures FirstChoice(v, p, q, maySplit, n, h)
  {
    hide Settled, Acceptable, Better, Placed;
  }

  lemma DropRight(v: View, w: View, p: Policy, q: Request, maySplit: bool, n: nat, h: nat, prev: nat)
    requires Sound(v, -1, {}) && Listed(v) && h in v.cls && v.cls[h] == n && h in v.blocks && h != 0
    requires PassedRight(v, p, q, maySplit, n, h) && Decided(v, p, q, maySplit, h, Drop)
    requires PrevOf(v.cls, v.rank, h, prev) && prev != 0
    requires Sound(w, -1, {}) && Listed(w) && w.cls == v.cls - {h} && w.rank == v.rank
    requires w.blocks == Shatter(v.blocks, h)
    ensures IsHeader(w.cells, prev) && PassedRight(w, p, q, maySplit, n, w.cells[prev].hdr.next)
  {
    hide Acceptable, Better, Tiled, AgreesBut, BytesMatch, FirstOf, LinkedAt, Shatter, Droppable, Passable, Listed;
    LinkFacts(v, h);
    LinkFacts(w, prev);
    var next := w.cells[prev].hdr.next;
    forall x | x in w.cls && w.cls[x] == n && x in w.blocks && Before(w, x, next)
      ensures Passable(w, p, q, maySplit, x)
    {
      assert SameList(w.cls, x, prev);
      LinkFacts(v, x);
      assert Before(v, x, h);
      StillPassable(v, w, p, q, maySplit, h, x);
    }
  }

  /** What is passed over before h is dropped is passed over afterwards: h was no better choice than any. */
  lemma StillPassable(v: View, w: View, p: Policy, q: Request, maySplit: bool, h: nat, x: nat)
    requires Sound(v, -1, {}) && h in v.cls && h in v.blocks && Droppable(p, q, h, v.blocks[h].len)
    requires Sound(w, -1, {}) && w.cls == v.cls - {h} && w.rank == v.rank
    requires w.blocks == Shatter(v.blocks, h) && x in v.cls && x != h && x in v.blocks
    requires Passable(v, p, q, maySplit, x)
    ensures x in w.blocks && Passable(w, p, q, maySplit, x)
  {
    hide Acceptable, Tiled, AgreesBut, BytesMatch, FirstOf, LinkedAt, Shatter, Hit;
    ShatterOther(v.blocks, v.mem, h, x);
    if maySplit && Better(v, p, q, x) {
      var next := v.cells[x].hdr.next;
      LinkFacts(v, x);
      LinkFacts(w, x);
      RunNotEmpty(v.blocks, v.mem, h);
      NotSuited(v, p, q, h);
      ShatterOther(v.blocks, v.mem, h, next);
      assert SameList(v.cls, next, x) && SameList(w.cls, next, x);
      SameNext(v.cls, w.cls, v.rank, x, next, w.cells[x].hdr.next);
    }
  }

  lemma RunNotEmpty(b: Tiling, mem: set<nat>, h: nat)
    requires Tiled(b, mem) && h in b
    ensures 1 <= b[h].len
  {
  }

  lemma NotSuited(v: View, p: Policy, q: Request, h: nat)
    requires h in v.blocks && Droppable(p, q, h, v.blocks[h].len) && 1 <= v.blocks[h].len
    ensures !Suits(v, p, q, h)
  {
    assert !Open(p, q, h);
  }

  lemma SameNext(cls: Lists, cls': Lists, rank: Ranks, x: nat, y: nat, z: nat)
    requires Ranked(cls, rank) && Ranked(cls', rank) && x in cls && x in cls'
    requires forall k :: k in cls' ==> k in cls && cls'[k] == cls[k]
    requires y in cls' && NextOf(cls, rank, x, y) && NextOf(cls', rank, x, z)
    ensures y == z
  {
    assert SameList(cls, y, x) ==> SameList(cls', y, x);
    assert SameList(cls', z, x) ==> SameList(cls, z, x);
    assert SameList(cls', z, y) || z == 0 || y == 0;
  }

  // ----- how far larger runs may be split -----

  /** The free runs of the sizes of the lists from i on. */
  ghost function LargeRuns(b: Tiling, i: nat): map<nat, nat> {
    map h | h in b && b[h].Free? && i <= ListFor(b[h].len) :: b[h].len
  }

  /** Their blocks. */
  ghost function LargeFrom(b: Tiling, i: nat): nat {
    Total(LargeRuns(b, i))
  }

  /** The last list whose runs may be split: all, none, or the last from which on the free bytes make up for what
      large objects need beyond what they have. */
  ghost predicate LimitRight(g: Budget, heapSize: nat, b: Tiling, limit: nat) {
    if g.useMore then limit == N_HBLK_FLS
    else if heapSize / 16 < g.finalizerFreed then limit == 0
    else
      && limit <= N_HBLK_FLS
      && (limit == 0 || g.maxLargeAllocd <= g.largeAllocd + LargeFrom(b, limit) * HBLKSIZE)
      && forall m: nat :: limit < m <= N_HBLK_FLS ==> g.largeAllocd + LargeFrom(b, m) * HBLKSIZE < g.maxLargeAllocd
  }

  lemma EnoughLarge(v: View, g: Budget, i: nat)
    requires Sound(v, -1, {}) && Listed(v) && i <= N_HBLK_FLS
    ensures |v.bytes| == N_HBLK_FLS + 1
    ensures Enough(g, v.bytes, i) <==> g.maxLargeAllocd <= g.largeAllocd + LargeFrom(v.blocks, i) * HBLKSIZE
  {
    hide Tiled, AgreesBut, Linked, Total, Sum, ListFor;
    SumOfLists(v.bytes, v.blocks, v.cls, i);
    SumOfLists(v.bytes, v.blocks, v.cls, N_HBLK_FLS + 1);
    SumParts(v.bytes, i);
    assert v.bytes[..N_HBLK_FLS + 1] == v.bytes;
    var before, rest := OnListsBefore(v.blocks, v.cls, i), LargeRuns(v.blocks, i);
    assert before + rest == OnListsBefore(v.blocks, v.cls, N_HBLK_FLS + 1);
    TotalUnion(before, rest);
  }

  lemma {:induction false} SumParts(s: seq<nat>, i: nat)
    requires i <= |s|
    ensures Sum(s) == Sum(s[..i]) + Sum(s[i..])
  {
    if i == 0 {
      assert s[..0] == [] && s[0..] == s;
    } else {
      SumParts(s[1..], i - 1);
      assert s[..i][1..] == s[1..][..i - 1] && s[i..] == s[1..][i - 1..];
    }
  }

  // ----- every fourth time -----

  // The first value that no longer fits an unsigned int.
  const UINT_LIMIT: nat := 0x1_0000_0000

  /** The counter has gone on by some ticks, as far as the remainder by four goes, and each time that it came to a
      multiple of four one run was dropped. */
  ghost predicate Ticked(before: nat, after: nat, ticks: nat, drops: nat) {
    after % 4 == (before % 4 + ticks) % 4 && drops == (before % 4 + ticks) / 4
  }

  lemma NoTicks(count: nat)
    ensures Ticked(count, count, 0, 0)
  {
  }

  lemma FourDivides(x: nat)
    ensures (x % UINT_LIMIT) % 4 == x % 4
  {
    var k, r := 0x4000_0000 * (x / UINT_LIMIT), x % UINT_LIMIT;
    assert x == 4 * k + r;
    FourTimes(k, r);
  }

  lemma FourTimes(k: nat, r: nat)
    ensures (4 * k + r) % 4 == r % 4
  {
  }

  lemma OneTick(before: nat, count: nat, after: nat, ticks: nat, drops: nat, tick: bool, drop: bool)
    requires Ticked(before, count, ticks, drops)
    requires after == if tick then (count + 1) % UINT_LIMIT else count
    requires drop <==> tick && after % 4 == 0
    ensures Ticked(before, after, ticks + if tick then 1 else 0, drops + if drop then 1 else 0)
  {
    if tick {
      FourDivides(count + 1);
    }
  }

  lemma MoreTicks(before: nat, count: nat, after: nat, ticks: nat, more: nat, drops: nat, others: nat)
    requires Ticked(before, count, ticks, drops) && Ticked(count, after, more, others)
    ensures Ticked(before, after, ticks + more, drops + others)
  {
    var x := before % 4 + ticks;
    assert x == 4 * drops + count % 4;
    assert x + more == 4 * drops + (count % 4 + more);
  }

  // ----- the whole search -----

  /** What a search has met: the view in which it chose a run, how many runs counted towards a drop, whether the run
      is an exact fit, and otherwise the tiling after the search for one, with the number of runs dropped by then. */
  datatype Met = Met(at: View, ticks: nat, exact: bool, first: Tiling, drops: nat)

  /** Larger runs are split as far as they should be. */
  ghost predicate SplitRight(met: Met, g: Budget, heapSize: nat, b: Tiling, hs: seq<nat>, limit: nat, r: nat) {
    if met.exact then r != 0
    else
      && met.drops <= |hs| && CanShatter(b, hs[..met.drops]) && met.first == ShatterAll(b, hs[..met.drops])
      && LimitRight(g, heapSize, met.first, limit)
  }

  lemma SplitExact(met: Met, g: Budget, heapSize: nat, b: Tiling, hs: seq<nat>, limit: nat, r: nat)
    requires met.exact && r != 0
    ensures SplitRight(met, g, heapSize, b, hs, limit, r)
  {
  }

  lemma SplitStarts(met: Met, g: Budget, heapSize: nat, b: Tiling, p: Policy, q: Request, hs: seq<nat>, limit: nat)
    requires !met.exact && met.drops == |hs| && Dropping(b, met.first, p, q, hs)
    requires LimitRight(g, heapSize, met.first, limit)
    ensures SplitRight(met, g, heapSize, b, hs, limit, 0)
  {
    hide LimitRight, Droppable;
    assert hs[..|hs|] == hs;
  }

  /** One more search, which has dropped ts. */
  lemma SearchMet(before: nat, count: nat, after: nat, met: Met, next: Met, g: Budget, heapSize: nat, b: Tiling,
                  hs: seq<nat>, ts: seq<nat>, limit: nat, r: nat)
    requires Ticked(before, count, met.ticks, |hs|) && SplitRight(met, g, heapSize, b, hs, limit, 0) && !met.exact
    requires met.ticks <= next.ticks && Ticked(count, after, next.ticks - met.ticks, |ts|)
    requires next == met.(at := next.at, ticks := next.ticks)
    ensures Ticked(before, after, next.ticks, |hs + ts|) && SplitRight(next, g, heapSize, b, hs + ts, limit, r)
  {
    hide Ticked, SplitRight;
    MoreTicks(before, count, after, met.ticks, next.ticks - met.ticks, |hs|, |ts|);
    MoreDropped(met, next, g, heapSize, b, hs, ts, limit, r);
  }

  lemma MoreDropped(met: Met, next: Met, g: Budget, heapSize: nat, b: Tiling, hs: seq<nat>, ts: seq<nat>, limit: nat,
                    r: nat)
    requires SplitRight(met, g, heapSize, b, hs, limit, 0) && !met.exact
    requires next == met.(at := next.at, ticks := next.ticks)
    ensures SplitRight(next, g, heapSize, b, hs + ts, limit, r)
  {
    hide LimitRight, CanShatter, ShatterAll;
    assert (hs + ts)[..met.drops] == hs[..met.drops];
  }
}

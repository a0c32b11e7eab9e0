/** Which free block an allocation may use, and where in it. */
module Searches {
  import opened Sequences
  import opened Blocks
  import opened BlockIndexes
  import opened FreeLists
  import opened HeapShape
  import opened Totals
  import opened HeapViews
  import opened HeapSteps
  import opened AllocSteps
  import opened BlackLists

  // Larger pointer-free objects avoid black listed blocks too.
  const MAX_BLACK_LIST_ALLOC: nat := 2 * HBLKSIZE

  /** What is to be allocated: its size in bytes, and its kind and flags as far as they matter here. */
  datatype Request = Request(sz: nat, uncollectable: bool, ptrFree: bool, ignoreOffPage: bool)

  /** The settings a search depends on: the black lists, GC_black_list_spacing and GC_find_leak. */
  datatype Policy = Policy(tables: Tables, spacing: nat, findLeak: bool)

  /** How freely larger blocks may be split: whether the heap is to be used up first, the bytes finalizers have
      freed, and the bytes in large objects, now and at most so far. */
  datatype Budget = Budget(useMore: bool, finalizerFreed: nat, largeAllocd: nat, maxLargeAllocd: nat)

  function Needed(q: Request): nat {
    BlocksFor(q.sz)
  }

  /** The request must avoid black listed blocks. */
  predicate Sensitive(q: Request) {
    !q.uncollectable && (!q.ptrFree || MAX_BLACK_LIST_ALLOC < Needed(q) * HBLKSIZE)
  }

  /** The number of blocks that must not be black listed. */
  function Shown(q: Request): nat {
    if q.ignoreOffPage then 1 else Needed(q)
  }

  /** The object may start at block x. */
  ghost predicate Open(p: Policy, q: Request, x: nat) {
    Sensitive(q) ==> !Hit(p.tables, x, Shown(q))
  }

  /** The object may start at none of the blocks in [lo, hi). */
  ghost predicate Blocked(p: Policy, q: Request, lo: nat, hi: nat) {
    forall x: nat :: lo <= x < hi ==> !Open(p, q, x)
  }

  /** A request so large, for a free run so much larger, that black listing is ignored. */
  predicate Punts(p: Policy, q: Request, len: nat) {
    p.spacing < Needed(q) * HBLKSIZE && p.spacing < (len - Needed(q)) * HBLKSIZE
  }

  /** The free run of len blocks at h is large enough, may be split if it has to be, and has room for the
      object where it is not black listed. */
  ghost predicate Acceptable(p: Policy, q: Request, maySplit: bool, h: nat, len: nat) {
    && Needed(q) <= len && (len == Needed(q) || maySplit)
    && (Blocked(p, q, h, h + len - Needed(q) + 1) ==> Punts(p, q, len))
  }

  /** The object goes to at: the first possible place, or the start of the run if there is none. */
  ghost predicate Placed(p: Policy, q: Request, h: nat, len: nat, at: nat) {
    && h <= at && at + Needed(q) <= h + len
    && if Open(p, q, at) then Blocked(p, q, h, at)
      else at == h && Blocked(p, q, h, h + len - Needed(q) + 1) && Punts(p, q, len)
  }

  /** A black listed run that may be dropped. */
  ghost predicate Droppable(p: Policy, q: Request, h: nat, len: nat) {
    Needed(q) == 1 && !p.findLeak && Blocked(p, q, h, h + len)
  }

  /** The block next in the list of h is a better choice than h: large enough, smaller, and not black listed. */
  ghost predicate Better(v: View, p: Policy, q: Request, h: nat) {
    h in v.blocks && v.blocks[h].len != Needed(q) && IsHeader(v.cells, h)
    && var next := v.cells[h].hdr.next;
    next != 0 && Suits(v, p, q, next) && v.blocks[next].len < v.blocks[h].len
  }

  /** The block h is large enough and not black listed at its start. */
  ghost predicate Suits(v: View, p: Policy, q: Request, h: nat) {
    h in v.blocks && Needed(q) <= v.blocks[h].len && !Hit(p.tables, h, Needed(q))
  }

  /** What to do with a free block: go on, take it, or drop it. */
  datatype Choice = Pass | Take(at: nat) | Drop

  ghost predicate Decided(v: View, p: Policy, q: Request, maySplit: bool, h: nat, c: Choice)
    requires h in v.blocks
  {
    var len := v.blocks[h].len;
    match c
    case Pass => !Acceptable(p, q, maySplit, h, len) || (maySplit && Better(v, p, q, h))
    case Take(at) => Acceptable(p, q, maySplit, h, len) && Placed(p, q, h, len, at) && !Better(v, p, q, h)
    case Drop => !Acceptable(p, q, maySplit, h, len) && Droppable(p, q, h, len)
  }

  // ----- walking along a list -----

  /** The blocks of list n before cur, or all of them when cur is 0, are not acceptable. */
  ghost predicate Passed(v: View, p: Policy, q: Request, maySplit: bool, n: nat, cur: nat) {
    forall h :: h in v.cls && v.cls[h] == n && h in v.blocks && Before(v, h, cur) ==>
      !Acceptable(p, q, maySplit, h, v.blocks[h].len)
  }

  ghost predicate Before(v: View, h: nat, cur: nat) {
    h in v.rank && cur in v.rank && cur != 0 ==> v.rank[h] < v.rank[cur]
  }

  /** The search stands at cur, with nothing acceptable before it, unless cur suits. */
  ghost predicate Standing(v: View, p: Policy, q: Request, maySplit: bool, n: nat, cur: nat) {
    && (cur != 0 ==> cur in v.cls && v.cls[cur] == n && cur in v.blocks && v.blocks[cur].Free?)
    && (Passed(v, p, q, maySplit, n, cur) || (cur != 0 && maySplit && Suits(v, p, q, cur)))
  }

  lemma ShownSuits(p: Policy, q: Request, h: nat)
    requires !Hit(p.tables, h, Needed(q)) && 1 <= Needed(q)
    ensures Open(p, q, h)
  {
  }

  /** A block that suits is acceptable: it is never passed over except for a better one. */
  lemma SuitsAcceptable(v: View, p: Policy, q: Request, h: nat)
    requires Suits(v, p, q, h) && 1 <= Needed(q)
    ensures Acceptable(p, q, true, h, v.blocks[h].len)
  {
    hide Open;
    ShownSuits(p, q, h);
  }

  lemma PassMovesOn(v: View, p: Policy, q: Request, maySplit: bool, n: nat, h: nat)
    requires Sound(v, -1, {}) && Listed(v) && 1 <= Needed(q) && h != 0 && Standing(v, p, q, maySplit, n, h)
    requires h in v.blocks && Decided(v, p, q, maySplit, h, Pass)
    ensures IsHeader(v.cells, h) && Standing(v, p, q, maySplit, n, v.cells[h].hdr.next)
    ensures v.cells[h].hdr.next != 0 ==> v.cells[h].hdr.next in v.cls && Before(v, h, v.cells[h].hdr.next)
  {
    hide Acceptable, Tiled, AgreesBut, BytesMatch, FirstOf, LinkedAt;
    LinkFacts(v, h);
    var next := v.cells[h].hdr.next;
    if Acceptable(p, q, maySplit, h, v.blocks[h].len) {
    } else {
      if Suits(v, p, q, h) && maySplit {
        SuitsAcceptable(v, p, q, h);
      }
      PassedNext(v, p, q, maySplit, n, h, next);
    }
  }

  lemma PassedNext(v: View, p: Policy, q: Request, maySplit: bool, n: nat, h: nat, next: nat)
    requires Ranked(v.cls, v.rank) && Passed(v, p, q, maySplit, n, h) && h in v.cls && v.cls[h] == n && h in v.blocks
    requires !Acceptable(p, q, maySplit, h, v.blocks[h].len) && NextOf(v.cls, v.rank, h, next)
    ensures Passed(v, p, q, maySplit, n, next)
  {
    hide Acceptable;
    forall x | x in v.cls && v.cls[x] == n && x in v.blocks && Before(v, x, next)
      ensures !Acceptable(p, q, maySplit, x, v.blocks[x].len)
    {
      assert SameList(v.cls, x, h);
    }
  }

  /** After the block h has been dropped, the search goes on behind prev. */
  lemma DropMovesOn(v: View, w: View, p: Policy, q: Request, maySplit: bool, n: nat, h: nat, prev: nat)
    requires Sound(v, -1, {}) && Listed(v) && h != 0 && Standing(v, p, q, maySplit, n, h) && h in v.blocks
    requires 1 <= Needed(q)
    requires Decided(v, p, q, maySplit, h, Drop) && PrevOf(v.cls, v.rank, h, prev) && prev != 0
    requires Sound(w, -1, {}) && Listed(w) && w.cls == v.cls - {h} && w.rank == v.rank
    requires w.blocks == Shatter(v.blocks, h)
    ensures IsHeader(w.cells, prev) && Standing(w, p, q, maySplit, n, w.cells[prev].hdr.next)
  {
    hide Acceptable, Tiled, AgreesBut, BytesMatch, FirstOf, LinkedAt, Shatter, Droppable;
    LinkFacts(v, h);
    LinkFacts(w, prev);
    if Suits(v, p, q, h) && maySplit {
      SuitsAcceptable(v, p, q, h);
    }
    PassedDrop(v, w, p, q, maySplit, n, h, prev, w.cells[prev].hdr.next);
  }

  lemma PassedDrop(v: View, w: View, p: Policy, q: Request, maySplit: bool, n: nat, h: nat, prev: nat, next: nat)
    requires Ranked(v.cls, v.rank) && Ranked(w.cls, w.rank) && Passed(v, p, q, maySplit, n, h) && h in v.cls
    requires v.cls[h] == n && h in v.blocks
    requires PrevOf(v.cls, v.rank, h, prev) && prev != 0 && w.cls == v.cls - {h} && w.rank == v.rank
    requires NextOf(w.cls, w.rank, prev, next)
    requires Tiled(v.blocks, v.mem) && w.blocks == Shatter(v.blocks, h) && v.cls.Keys <= v.blocks.Keys
    ensures Passed(w, p, q, maySplit, n, next)
  {
    hide Acceptable, Tiled, Shatter;
    forall x | x in w.cls && w.cls[x] == n && x in w.blocks && Before(w, x, next)
      ensures !Acceptable(p, q, maySplit, x, w.blocks[x].len)
    {
      assert SameList(w.cls, x, prev);
      ShatterOther(v.blocks, v.mem, h, x);
      assert Before(v, x, h);
    }
  }

  lemma ShatterOther(b: Tiling, mem: set<nat>, h: nat, x: nat)
    requires Tiled(b, mem) && h in b && x in b && x != h
    ensures x in Shatter(b, h) && Shatter(b, h)[x] == b[x]
  {
    SinglesHold(h, b[h].len);
  }

  /** At the end of the list nothing on it is acceptable. */
  lemma AllPassed(v: View, p: Policy, q: Request, maySplit: bool, n: nat)
    requires Listed(v) && Standing(v, p, q, maySplit, n, 0)
    ensures NothingOn(v.blocks, p, q, maySplit, n)
  {
    hide Acceptable;
  }

  /** No free run of the sizes of list n is acceptable. */
  ghost predicate NothingOn(b: Tiling, p: Policy, q: Request, maySplit: bool, n: nat) {
    forall h :: h in b && b[h].Free? && ListFor(b[h].len) == n ==> !Acceptable(p, q, maySplit, h, b[h].len)
  }

  lemma StartStanding(v: View, p: Policy, q: Request, maySplit: bool, n: nat)
    requires Sound(v, -1, {}) && Listed(v) && n <= N_HBLK_FLS
    ensures |v.heads| == N_HBLK_FLS + 1 && Standing(v, p, q, maySplit, n, v.heads[n])
  {
    hide Acceptable, Tiled, AgreesBut, BytesMatch, LinkedAt;
    assert FirstOf(v.cls, v.rank, n, v.heads[n]);
  }

  lemma LinkFacts(v: View, h: nat)
    requires Sound(v, -1, {}) && h in v.cls
    ensures Ranked(v.cls, v.rank) && IsHeader(v.cells, h) && NextOf(v.cls, v.rank, h, v.cells[h].hdr.next)
    ensures PrevOf(v.cls, v.rank, h, v.cells[h].hdr.prev)
    ensures h in v.blocks
  {
    hide Tiled, AgreesBut, BytesMatch;
    assert LinkedAt(v.cells, v.cls, v.rank, h);
  }

  // ----- the outcome of a search -----

  /** The request is granted at r, in the free run f of list n. */
  ghost predicate Granted(b: Tiling, p: Policy, q: Request, maySplit: bool, n: nat, f: nat, r: nat) {
    && f in b && b[f].Free? && ListFor(b[f].len) == n
    && Acceptable(p, q, maySplit, f, b[f].len) && Placed(p, q, f, b[f].len, r)
  }

  /** Dropping the runs hs, all of them free and black listed throughout, turns b into c. */
  ghost predicate Dropping(b: Tiling, c: Tiling, p: Policy, q: Request, hs: seq<nat>) {
    && CanShatter(b, hs) && c == ShatterAll(b, hs)
    && forall h :: h in hs ==> h in b && b[h].Free? && Droppable(p, q, h, b[h].len)
  }

  /** A search of list n that drops the runs hs turns b into mid, and then allocates r in the free run f, or
      finds nothing acceptable when r is 0. */
  ghost predicate Outcome(b: Tiling, c: Tiling, p: Policy, q: Request, maySplit: bool, n: nat, r: nat, f: nat,
                          hs: seq<nat>, mid: Tiling) {
    && Dropping(b, mid, p, q, hs)
    && if r == 0 then c == mid && NothingOn(mid, p, q, maySplit, n)
       else Granted(mid, p, q, maySplit, n, f, r) && Fits(mid, f, r, Needed(q)) && c == Carve(mid, f, r, q.sz)
  }

  lemma NoDrops(b: Tiling, p: Policy, q: Request)
    ensures Dropping(b, b, p, q, [])
  {
  }

  lemma DropsTrans(b: Tiling, mem: set<nat>, c: Tiling, d: Tiling, p: Policy, q: Request, hs: seq<nat>, ts: seq<nat>)
    requires Tiled(b, mem) && Dropping(b, c, p, q, hs) && Dropping(c, d, p, q, ts)
    ensures Dropping(b, d, p, q, hs + ts)
  {
    hide Tiled, Droppable;
    ShatterMore(b, hs, ts);
    forall h | h in ts ensures h in b && b[h].Free? && Droppable(p, q, h, b[h].len) {
      ShatterFree(b, mem, hs, h);
    }
  }

  lemma OneDrop(b: Tiling, p: Policy, q: Request, h: nat)
    requires h in b && b[h].Free? && Droppable(p, q, h, b[h].len)
    ensures Dropping(b, Shatter(b, h), p, q, [h])
  {
    assert ShatterAll(Shatter(b, h), []) == Shatter(b, h);
  }

  /** A drop, and then the rest of the search. */
  lemma OutcomeAfter(b: Tiling, mem: set<nat>, a: Tiling, c: Tiling, p: Policy, q: Request, maySplit: bool, n: nat,
                     r: nat, f: nat, hs: seq<nat>, ts: seq<nat>, mid: Tiling)
    requires Tiled(b, mem) && Dropping(b, a, p, q, hs) && Outcome(a, c, p, q, maySplit, n, r, f, ts, mid)
    ensures Outcome(b, c, p, q, maySplit, n, r, f, hs + ts, mid)
  {
    hide Tiled, Dropping, NothingOn, Granted;
    DropsTrans(b, mem, a, mid, p, q, hs, ts);
  }

  /** One more drop. */
  lemma DropMore(b: Tiling, mem: set<nat>, v: View, p: Policy, q: Request, maySplit: bool, hs: seq<nat>, h: nat)
    requires Tiled(b, mem) && Dropping(b, v.blocks, p, q, hs) && Listed(v) && h in v.cls
    requires h in v.blocks && Decided(v, p, q, maySplit, h, Drop)
    ensures Dropping(b, Shatter(v.blocks, h), p, q, hs + [h])
  {
    hide Tiled, Dropping, Droppable, Acceptable, Shatter;
    OneDrop(v.blocks, p, q, h);
    DropsTrans(b, mem, v.blocks, Shatter(v.blocks, h), p, q, hs, [h]);
  }

  /** A block that is to be taken can be taken. */
  lemma TakeReady(v: View, p: Policy, q: Request, maySplit: bool, n: nat, h: nat, at: nat)
    requires Listed(v) && h in v.cls && v.cls[h] == n && h in v.blocks && Decided(v, p, q, maySplit, h, Take(at))
    requires 1 <= Needed(q)
    ensures Granted(v.blocks, p, q, maySplit, n, h, at) && Fits(v.blocks, h, at, Needed(q)) && h <= at
  {
    hide Open;
  }

  lemma OutcomeTaken(b: Tiling, mid: Tiling, c: Tiling, p: Policy, q: Request, maySplit: bool, n: nat, r: nat, f: nat,
                     hs: seq<nat>)
    requires Dropping(b, mid, p, q, hs) && r != 0 && Granted(mid, p, q, maySplit, n, f, r)
    requires Fits(mid, f, r, Needed(q)) && c == Carve(mid, f, r, q.sz)
    ensures Outcome(b, c, p, q, maySplit, n, r, f, hs, mid)
  {
    hide Dropping, Granted, Carve;
  }

  lemma OutcomeNone(b: Tiling, mid: Tiling, p: Policy, q: Request, maySplit: bool, n: nat, hs: seq<nat>)
    requires Dropping(b, mid, p, q, hs) && NothingOn(mid, p, q, maySplit, n)
    ensures Outcome(b, mid, p, q, maySplit, n, 0, 0, hs, mid)
  {
    hide Dropping, NothingOn;
  }

  // ----- one list after the other -----

  /** The number of blocks that hold sz bytes, with the addition saturated (OBJ_SZ_TO_BLOCKS_CHECKED). */
  function BlocksForChecked(sz: nat): (n: nat)
    requires sz < WORD_LIMIT
    ensures n * HBLKSIZE < SIGN_BIT <==> sz <= SIGN_BIT - HBLKSIZE
    ensures sz <= SIGN_BIT - HBLKSIZE ==> n == BlocksFor(sz)
  {
    var max := WORD_LIMIT - 1;
    (if sz < max - (HBLKSIZE - 1) then sz + (HBLKSIZE - 1) else max) / HBLKSIZE
  }

  /** The free bytes on the lists from i on do not fall short of the largest demand for large objects so far. */
  predicate Enough(g: Budget, bytes: seq<nat>, i: nat)
    requires i <= |bytes|
  {
    g.maxLargeAllocd <= g.largeAllocd + Sum(bytes[i..])
  }

  /** The first list whose blocks may have to be split. */
  function SplitFrom(start: nat): nat {
    if start < UNIQUE_THRESHOLD then start + 1 else start
  }

  /** No exact fit on the list for the request, and nothing on the lists from there up to n. */
  ghost predicate Searched(b: Tiling, p: Policy, q: Request, n: nat) {
    && NothingOn(b, p, q, false, ListFor(Needed(q)))
    && forall m: nat :: SplitFrom(ListFor(Needed(q))) <= m < n ==> NothingOn(b, p, q, true, m)
  }

  /** The request is granted from list n: an exact fit, or else the first list with an acceptable run. */
  ghost predicate FirstGrant(b: Tiling, p: Policy, q: Request, n: nat, limit: int, f: nat, r: nat) {
    || Granted(b, p, q, false, ListFor(Needed(q)), f, r)
    || (SplitFrom(ListFor(Needed(q))) <= n <= limit && Searched(b, p, q, n) && Granted(b, p, q, true, n, f, r))
  }

  ghost predicate Allocated(b: Tiling, c: Tiling, p: Policy, q: Request, limit: int, r: nat, f: nat, n: nat,
                            hs: seq<nat>, mid: Tiling) {
    && Dropping(b, mid, p, q, hs)
    && if r == 0 then c == mid && NothingOn(mid, p, q, false, ListFor(Needed(q)))
                      && forall m: nat :: SplitFrom(ListFor(Needed(q))) <= m <= limit ==> NothingOn(mid, p, q, true, m)
       else FirstGrant(mid, p, q, n, limit, f, r) && Fits(mid, f, r, Needed(q)) && c == Carve(mid, f, r, q.sz)
  }

  /** Drops leave nothing acceptable where there was nothing. */
  lemma DropsKeepNothing(b: Tiling, mem: set<nat>, c: Tiling, p: Policy, q: Request, maySplit: bool, n: nat,
                         hs: seq<nat>)
    requires Tiled(b, mem) && Dropping(b, c, p, q, hs) && NothingOn(b, p, q, maySplit, n)
    ensures NothingOn(c, p, q, maySplit, n)
  {
    hide Tiled, Acceptable, Droppable;
    forall h | h in c && c[h].Free? && ListFor(c[h].len) == n ensures !Acceptable(p, q, maySplit, h, c[h].len) {
      ShatterFree(b, mem, hs, h);
    }
  }

  lemma DropsKeepSearched(b: Tiling, mem: set<nat>, c: Tiling, p: Policy, q: Request, n: nat, hs: seq<nat>)
    requires Tiled(b, mem) && Dropping(b, c, p, q, hs) && Searched(b, p, q, n)
    ensures Searched(c, p, q, n)
  {
    hide Tiled, NothingOn, Dropping;
    DropsKeepNothing(b, mem, c, p, q, false, ListFor(Needed(q)), hs);
    forall m: nat | SplitFrom(ListFor(Needed(q))) <= m < n ensures NothingOn(c, p, q, true, m) {
      DropsKeepNothing(b, mem, c, p, q, true, m, hs);
    }
  }

  /** The first search, for an exact fit. */
  lemma ExactSearch(b: Tiling, c: Tiling, p: Policy, q: Request, limit: int, r: nat, f: nat, hs: seq<nat>, mid: Tiling)
    requires Outcome(b, c, p, q, false, ListFor(Needed(q)), r, f, hs, mid)
    ensures r == 0 ==> Dropping(b, c, p, q, hs) && Searched(c, p, q, SplitFrom(ListFor(Needed(q))))
    ensures r != 0 ==> Allocated(b, c, p, q, limit, r, f, ListFor(Needed(q)), hs, mid)
  {
    hide Dropping, NothingOn, Granted, ListFor, Carve, Fits;
  }

  /** The search of list n, after the searches before it dropped hs. */
  lemma NextSearch(b: Tiling, mem: set<nat>, a: Tiling, c: Tiling, p: Policy, q: Request, n: nat, limit: int, r: nat,
                   f: nat, hs: seq<nat>, ts: seq<nat>, mid: Tiling)
    requires Tiled(b, mem) && Tiled(a, mem) && SplitFrom(ListFor(Needed(q))) <= n <= limit
    requires Dropping(b, a, p, q, hs) && Searched(a, p, q, n) && Outcome(a, c, p, q, true, n, r, f, ts, mid)
    ensures r == 0 ==> Dropping(b, c, p, q, hs + ts) && Searched(c, p, q, n + 1)
    ensures r != 0 ==> Allocated(b, c, p, q, limit, r, f, n, hs + ts, mid)
  {
    hide Tiled, Dropping, NothingOn, Granted, ListFor, Carve, Fits;
    DropsTrans(b, mem, a, mid, p, q, hs, ts);
    DropsKeepSearched(a, mem, mid, p, q, n, ts);
  }

  lemma SearchFailed(b: Tiling, c: Tiling, p: Policy, q: Request, n: nat, limit: int, hs: seq<nat>)
    requires Dropping(b, c, p, q, hs) && Searched(c, p, q, n) && limit < n
    ensures Allocated(b, c, p, q, limit, 0, 0, 0, hs, c)
  {
    hide Dropping, NothingOn, ListFor;
  }

  /** A search of all lists fails only when no free run at all is acceptable: a larger run is never on an
      earlier list, and the first lists, which are not searched twice, hold exact fits only. */
  lemma FullSearch(b: Tiling, c: Tiling, p: Policy, q: Request, hs: seq<nat>, h: nat)
    requires Allocated(b, c, p, q, N_HBLK_FLS, 0, 0, 0, hs, c) && h in c && c[h].Free?
    ensures !Acceptable(p, q, true, h, c[h].len)
  {
    hide Dropping, Blocked;
    var k, i := Needed(q), ListFor(c[h].len);
    if k <= c[h].len {
      ListForOrder(k, c[h].len);
      hide ListFor;
      assert ListFor(k) <= i;
      if i == ListFor(k) < UNIQUE_THRESHOLD {
        assert !Acceptable(p, q, false, h, c[h].len);
      } else {
        assert NothingOn(c, p, q, true, i);
      }
    }
  }

  /** Without black listed blocks, a run is acceptable just when it is large enough. */
  lemma LargeEnough(p: Policy, q: Request, h: nat, len: nat)
    requires 1 <= Needed(q) && (Sensitive(q) ==> forall x: nat :: h <= x < h + len ==> !Hit(p.tables, x, Shown(q)))
    ensures Acceptable(p, q, true, h, len) <==> Needed(q) <= len
    ensures 1 <= len ==> !Droppable(p, q, h, len)
  {
    if Needed(q) <= len {
      assert Open(p, q, h);
    }
    assert 1 <= len ==> Open(p, q, h);
  }

  /** With all lists open to splitting and no black listed block in the heap, an allocation drops nothing, and
      it fails just when no free run is large enough. */
  lemma FailsOnlyWhenFull(b: Tiling, mem: set<nat>, c: Tiling, p: Policy, q: Request, r: nat, f: nat, n: nat,
                          hs: seq<nat>, mid: Tiling)
    requires Tiled(b, mem) && Allocated(b, c, p, q, N_HBLK_FLS, r, f, n, hs, mid) && 1 <= Needed(q)
    requires Sensitive(q) ==> forall x: nat :: x in mem ==> !Hit(p.tables, x, Shown(q))
    ensures hs == [] && mid == b
    ensures r == 0 <==> forall h :: h in b && b[h].Free? ==> b[h].len < Needed(q)
  {
    hide Acceptable, Droppable, NothingOn, Granted, Tiled;
    if hs != [] {
      RunIsLargeEnough(b, mem, p, q, hs[0]);
      assert false;
    }
    if r == 0 {
      forall h | h in b && b[h].Free? ensures b[h].len < Needed(q) {
        RunIsLargeEnough(b, mem, p, q, h);
        FullSearch(b, c, p, q, hs, h);
      }
    }
  }

  lemma RunIsLargeEnough(b: Tiling, mem: set<nat>, p: Policy, q: Request, h: nat)
    requires Tiled(b, mem) && h in b && 1 <= Needed(q)
    requires Sensitive(q) ==> forall x: nat :: x in mem ==> !Hit(p.tables, x, Shown(q))
    ensures Acceptable(p, q, true, h, b[h].len) <==> Needed(q) <= b[h].len
    ensures !Droppable(p, q, h, b[h].len)
  {
    hide Acceptable, Droppable, Hit;
    forall x: nat | h <= x < h + b[h].len ensures x in mem {
      assert In(b, h, x) && Held(b, x);
    }
    LargeEnough(p, q, h, b[h].len);
  }

  // ----- one free block -----

  /** A run that is dropped now and then, instead of being passed over. */
  ghost predicate Candidate(v: View, p: Policy, q: Request, maySplit: bool, h: nat)
    requires h in v.blocks
  {
    var len := v.blocks[h].len;
    && Needed(q) <= len && (len == Needed(q) || maySplit) && !Better(v, p, q, h)
    && !Acceptable(p, q, maySplit, h, len) && Droppable(p, q, h, len)
  }

  lemma ListedHeaders(v: View, h: nat)
    requires Settled(v) && h in v.cls
    ensures h != 0 && h in v.blocks && v.blocks[h].Free? && IsHeader(v.cells, h)
    ensures v.cells[h].hdr.sz == v.blocks[h].len * HBLKSIZE
    ensures v.cells[h].hdr.next != 0 ==> v.cells[h].hdr.next in v.cls
  {
    hide Tiled, AgreesBut, BytesMatch, NoAdjacentFree, LinkedAt, FirstOf, PrevOf;
    LinkFacts(v, h);
    RunShown(v, h);
  }

  /** The blocks of list n from cur on. */
  ghost function Ahead(v: View, n: nat, cur: nat): set<nat> {
    set h | h in v.cls && v.cls[h] == n && cur != 0 && !Before(v, h, cur)
  }

  lemma AheadShrinks(v: View, n: nat, h: nat, next: nat)
    requires h != 0 && h in v.cls && v.cls[h] == n && v.cls.Keys <= v.rank.Keys
    requires next != 0 ==> next in v.cls && Before(v, h, next)
    ensures |Ahead(v, n, next)| < |Ahead(v, n, h)|
  {
    assert h in Ahead(v, n, h) && h !in Ahead(v, n, next);
    assert Ahead(v, n, next) <= Ahead(v, n, h) - {h};
    SubsetSize(Ahead(v, n, next), Ahead(v, n, h) - {h});
  }

  /** The first place at or after h where the object may start, among the len blocks from h; any later block
      when there is none. */
  method FirstClear(p: Policy, q: Request, h: nat, len: nat) returns (at: nat)
    requires Sensitive(q) && 1 <= Needed(q) <= len
    ensures h <= at <= h + len && Blocked(p, q, h, at)
    ensures at + Needed(q) <= h + len ==> Open(p, q, at)
  {
    at := h;
    while at + Needed(q) <= h + len
      invariant h <= at <= h + len && Blocked(p, q, h, at)
    {
      var next := IsBlackListed(p.tables, at, Shown(q) * HBLKSIZE);
      if next == 0 { return; }
      at := next;
    }
  }

  /** What GC_allochblk_nth does with a free run of len blocks at h, once it is known that it is large enough,
      may be split if that is needed, and is not passed over for a better one; whether the run is one that
      is dropped now and then. */
  method ChoosePlace(p: Policy, q: Request, maySplit: bool, h: nat, len: nat) returns (c: Choice, tick: bool)
    requires 1 <= Needed(q) <= len && (len == Needed(q) || maySplit)
    ensures !c.Drop? && (c.Pass? <==> !Acceptable(p, q, maySplit, h, len))
    ensures c.Take? ==> Placed(p, q, h, len, c.at)
    ensures tick <==> c.Pass? && Droppable(p, q, h, len)
  {
    if !Sensitive(q) {
      assert Open(p, q, h);
      return Take(h), false;
    }
    var at := FirstClear(p, q, h, len);
    if at + Needed(q) <= h + len {
      return Take(at), false;
    }
    var k := Needed(q);
    if p.spacing < k * HBLKSIZE && p.spacing < (len - k) * HBLKSIZE {
      return Take(h), false;
    }
    return Pass, at == h + len && k == 1 && !p.findLeak;
  }
}

/** The segregated, doubly linked lists of free blocks, threaded through the block headers.

    cls maps each listed block to the number of its list. The lists are ordered by rank: a block's next link
    leads to the block of its list with the next higher rank, its prev link to the one with the next lower. */
module FreeLists {
  import opened Blocks
  import opened BlockIndexes

  const UNIQUE_THRESHOLD: nat := 32
  const HUGE_THRESHOLD: nat := 256
  const FL_COMPRESSION: nat := 8
  // The number of the last list.
  const N_HBLK_FLS: nat := (HUGE_THRESHOLD - UNIQUE_THRESHOLD) / FL_COMPRESSION + UNIQUE_THRESHOLD

  /** The list for free blocks of n heap blocks (GC_hblk_fl_from_blocks). */
  function ListFor(n: nat): (i: nat)
    ensures i <= N_HBLK_FLS
  {
    if n <= UNIQUE_THRESHOLD then n
    else if n >= HUGE_THRESHOLD then N_HBLK_FLS
    else (n - UNIQUE_THRESHOLD) / FL_COMPRESSION + UNIQUE_THRESHOLD
  }

  /** Larger blocks are never on an earlier list, and the first lists hold one size each. */
  lemma ListForOrder(m: nat, n: nat)
    requires m <= n
    ensures ListFor(m) <= ListFor(n)
    ensures ListFor(n) == ListFor(m) < UNIQUE_THRESHOLD ==> n == m
  {
  }

  /** The list i holds one size up to UNIQUE_THRESHOLD, from there on FL_COMPRESSION sizes each, and the last one all
      from HUGE_THRESHOLD on. */
  lemma ListForSizes(n: nat, i: nat)
    ensures i < UNIQUE_THRESHOLD ==> (ListFor(n) == i <==> n == i)
    ensures UNIQUE_THRESHOLD <= i < N_HBLK_FLS ==>
      (ListFor(n) == i <==> 0 <= n - UNIQUE_THRESHOLD - FL_COMPRESSION * (i - UNIQUE_THRESHOLD) < FL_COMPRESSION)
    ensures ListFor(n) == N_HBLK_FLS <==> HUGE_THRESHOLD <= n
  {
  }

  type Lists = map<nat, nat>
  type Ranks = map<nat, int>

  ghost predicate SameList(cls: Lists, x: nat, y: nat) {
    x in cls && y in cls && cls[x] == cls[y]
  }

  /** l is the first block of list i. */
  ghost predicate FirstOf(cls: Lists, rank: Ranks, i: nat, l: nat)
    requires cls.Keys <= rank.Keys
  {
    if l == 0 then forall x :: x in cls ==> cls[x] != i
    else l in cls && cls[l] == i && forall x :: x in cls && cls[x] == i ==> rank[l] <= rank[x]
  }

  /** l follows h in its list. */
  ghost predicate NextOf(cls: Lists, rank: Ranks, h: nat, l: nat)
    requires cls.Keys <= rank.Keys && h in cls
  {
    if l == 0 then forall x :: SameList(cls, x, h) ==> rank[x] <= rank[h]
    else
      && SameList(cls, l, h) && rank[h] < rank[l]
      && forall x :: SameList(cls, x, h) ==> rank[x] <= rank[h] || rank[l] <= rank[x]
  }

  /** l precedes h in its list. */
  ghost predicate PrevOf(cls: Lists, rank: Ranks, h: nat, l: nat)
    requires cls.Keys <= rank.Keys && h in cls
  {
    if l == 0 then forall x :: SameList(cls, x, h) ==> rank[h] <= rank[x]
    else
      && SameList(cls, l, h) && rank[l] < rank[h]
      && forall x :: SameList(cls, x, h) ==> rank[x] <= rank[l] || rank[h] <= rank[x]
  }

  ghost predicate Ranked(cls: Lists, rank: Ranks) {
    && cls.Keys <= rank.Keys
    && (forall h :: h in cls ==> h != 0 && cls[h] <= N_HBLK_FLS)
    && (forall x, y :: SameList(cls, x, y) && rank[x] == rank[y] ==> x == y)
  }

  /** The heads and the links of the headers are those of the ordered lists. */
  ghost predicate Linked(cells: Cells, heads: seq<nat>, cls: Lists, rank: Ranks) {
    && Ranked(cls, rank)
    && |heads| == N_HBLK_FLS + 1
    && (forall i :: 0 <= i <= N_HBLK_FLS ==> FirstOf(cls, rank, i, heads[i]))
    && (forall h {:trigger LinkedAt(cells, cls, rank, h)} :: h in cls ==> LinkedAt(cells, cls, rank, h))
  }

  ghost predicate LinkedAt(cells: Cells, cls: Lists, rank: Ranks, h: nat)
    requires Ranked(cls, rank) && h in cls
  {
    IsHeader(cells, h) && NextOf(cls, rank, h, cells[h].hdr.next) && PrevOf(cls, rank, h, cells[h].hdr.prev)
  }

  // ----- updates of links -----

  function SetNext(cells: Cells, h: nat, l: nat): Cells {
    if IsHeader(cells, h) then cells[h := Header(cells[h].hdr.(next := l))] else cells
  }

  function SetPrev(cells: Cells, h: nat, l: nat): Cells {
    if IsHeader(cells, h) then cells[h := Header(cells[h].hdr.(prev := l))] else cells
  }

  /** The two maps agree on everything but links. */
  ghost predicate SameShape(c: Cells, d: Cells) {
    && c.Keys == d.Keys
    && (forall a :: a in c ==> SameCell(c[a], d[a]))
  }

  predicate SameCell(e: Entry, f: Entry) {
    e == f || (e.Header? && f.Header? && e.hdr.sz == f.hdr.sz && e.hdr.free == f.hdr.free)
  }

  /** Take the listed block h out of its list: its neighbours are linked to each other. */
  function Unlinked(cells: Cells, h: nat): Cells
    requires IsHeader(cells, h)
  {
    SetPrev(SetNext(cells, cells[h].hdr.prev, cells[h].hdr.next), cells[h].hdr.next, cells[h].hdr.prev)
  }

  /** The block at the head of list i is second, and h is pushed before it. */
  function Pushed(cells: Cells, h: nat, second: nat): Cells
    requires IsHeader(cells, h)
  {
    SetPrev(cells[h := Header(cells[h].hdr.(next := second, prev := 0))], second, h)
  }

  /** The block n takes the place of the listed block h. */
  function Replaced(cells: Cells, h: nat, n: nat): Cells
    requires IsHeader(cells, h) && IsHeader(cells, n)
  {
    var prev := cells[h].hdr.prev;
    var next := cells[h].hdr.next;
    SetPrev(SetNext(cells[n := Header(cells[n].hdr.(next := next, prev := prev))], prev, n), next, n)
  }

  // ----- removing -----

  lemma UnlinkedLinked(cells: Cells, heads: seq<nat>, cls: Lists, rank: Ranks, h: nat)
    requires Linked(cells, heads, cls, rank) && h in cls
    ensures IsHeader(cells, h)
    ensures var l := if cells[h].hdr.prev == 0 then heads[cls[h] := cells[h].hdr.next] else heads;
      Linked(Unlinked(cells, h), l, cls - {h}, rank)
  {
    assert LinkedAt(cells, cls, rank, h);
    UnlinkedRanked(cls, rank, h);
    UnlinkedHeads(cells, heads, cls, rank, h);
    forall x | x in cls - {h} ensures LinkedAt(Unlinked(cells, h), cls - {h}, rank, x) {
      UnlinkedAt(cells, cls, rank, h, x);
    }
  }

  lemma UnlinkedRanked(cls: Lists, rank: Ranks, h: nat)
    requires Ranked(cls, rank) && h in cls
    ensures Ranked(cls - {h}, rank)
  {
  }

  lemma UnlinkedHeads(cells: Cells, heads: seq<nat>, cls: Lists, rank: Ranks, h: nat)
    requires Linked(cells, heads, cls, rank) && h in cls && LinkedAt(cells, cls, rank, h) && Ranked(cls - {h}, rank)
    ensures var hs := if cells[h].hdr.prev == 0 then heads[cls[h] := cells[h].hdr.next] else heads;
      forall i :: 0 <= i <= N_HBLK_FLS ==> FirstOf(cls - {h}, rank, i, hs[i])
  {
    var hs := if cells[h].hdr.prev == 0 then heads[cls[h] := cells[h].hdr.next] else heads;
    forall i | 0 <= i <= N_HBLK_FLS ensures FirstOf(cls - {h}, rank, i, hs[i]) {
      assert FirstOf(cls, rank, i, heads[i]);
      UnlinkedFirst(cls, rank, h, cells[h].hdr.next, cells[h].hdr.prev, i, heads[i]);
    }
  }

  lemma UnlinkedAt(cells: Cells, cls: Lists, rank: Ranks, h: nat, x: nat)
    requires Ranked(cls, rank) && h in cls && x in cls && x != h
    requires LinkedAt(cells, cls, rank, h) && LinkedAt(cells, cls, rank, x)
    ensures Ranked(cls - {h}, rank) && LinkedAt(Unlinked(cells, h), cls - {h}, rank, x)
  {
    var next, prev := cells[h].hdr.next, cells[h].hdr.prev;
    UnlinkedNext(cls, rank, h, next, prev, x, cells[x].hdr.next);
    UnlinkedPrev(cls, rank, h, next, prev, x, cells[x].hdr.prev);
    UnlinkedCell(cells, cls, rank, h, x);
  }

  lemma UnlinkedCell(cells: Cells, cls: Lists, rank: Ranks, h: nat, x: nat)
    requires IsHeader(cells, h) && IsHeader(cells, x) && x != h
    ensures IsHeader(Unlinked(cells, h), x)
    ensures Unlinked(cells, h)[x].hdr.next == if x == cells[h].hdr.prev then cells[h].hdr.next else cells[x].hdr.next
    ensures Unlinked(cells, h)[x].hdr.prev == if x == cells[h].hdr.next then cells[h].hdr.prev else cells[x].hdr.prev
  {
  }

  lemma UnlinkedNext(cls: Lists, rank: Ranks, h: nat, next: nat, prev: nat, x: nat, l: nat)
    requires Ranked(cls, rank) && h in cls && x in cls && x != h
    requires NextOf(cls, rank, h, next) && PrevOf(cls, rank, h, prev) && NextOf(cls, rank, x, l)
    ensures NextOf(cls - {h}, rank, x, if x == prev then next else l)
  {
  }

  lemma UnlinkedPrev(cls: Lists, rank: Ranks, h: nat, next: nat, prev: nat, x: nat, l: nat)
    requires Ranked(cls, rank) && h in cls && x in cls && x != h
    requires NextOf(cls, rank, h, next) && PrevOf(cls, rank, h, prev) && PrevOf(cls, rank, x, l)
    ensures PrevOf(cls - {h}, rank, x, if x == next then prev else l)
  {
  }

  lemma UnlinkedFirst(cls: Lists, rank: Ranks, h: nat, next: nat, prev: nat, i: nat, l: nat)
    requires Ranked(cls, rank) && h in cls && NextOf(cls, rank, h, next) && PrevOf(cls, rank, h, prev)
    requires FirstOf(cls, rank, i, l)
    ensures FirstOf(cls - {h}, rank, i, if i == cls[h] && prev == 0 then next else l)
  {
  }

  lemma UnlinkedShape(cells: Cells, h: nat)
    requires IsHeader(cells, h)
    ensures SameShape(cells, Unlinked(cells, h))
  {
  }

  // ----- pushing -----

  function PushRank(rank: Ranks, h: nat, second: nat): Ranks
    requires second == 0 || second in rank
  {
    rank[h := if second == 0 then 0 else rank[second] - 1]
  }

  lemma PushedLinked(cells: Cells, heads: seq<nat>, cls: Lists, rank: Ranks, h: nat, i: nat)
    requires Linked(cells, heads, cls, rank) && h !in cls && h != 0 && IsHeader(cells, h) && i <= N_HBLK_FLS
    ensures heads[i] == 0 || heads[i] in rank
    ensures Linked(Pushed(cells, h, heads[i]), heads[i := h], cls[h := i], PushRank(rank, h, heads[i]))
  {
    var second := heads[i];
    assert FirstOf(cls, rank, i, second);
    var c, cls', rank' := Pushed(cells, h, second), cls[h := i], PushRank(rank, h, second);
    PushedRanked(cls, rank, h, i, second);
    forall x | x in cls' ensures LinkedAt(c, cls', rank', x) {
      if x != h {
        assert LinkedAt(cells, cls, rank, x);
        PushedAt(cells, cls, rank, h, i, second, x);
      }
    }
    var hs := heads[i := h];
    forall j | 0 <= j <= N_HBLK_FLS ensures FirstOf(cls', rank', j, hs[j]) {
      assert FirstOf(cls, rank, j, heads[j]);
    }
  }

  lemma PushedRanked(cls: Lists, rank: Ranks, h: nat, i: nat, second: nat)
    requires Ranked(cls, rank) && h !in cls && h != 0 && i <= N_HBLK_FLS && FirstOf(cls, rank, i, second)
    ensures Ranked(cls[h := i], PushRank(rank, h, second))
    ensures NextOf(cls[h := i], PushRank(rank, h, second), h, second)
    ensures PrevOf(cls[h := i], PushRank(rank, h, second), h, 0)
  {
  }

  lemma PushedAt(cells: Cells, cls: Lists, rank: Ranks, h: nat, i: nat, second: nat, x: nat)
    requires Ranked(cls, rank) && h !in cls && h != 0 && i <= N_HBLK_FLS && FirstOf(cls, rank, i, second)
    requires IsHeader(cells, h)
    requires x in cls && LinkedAt(cells, cls, rank, x)
    ensures Ranked(cls[h := i], PushRank(rank, h, second))
    ensures LinkedAt(Pushed(cells, h, second), cls[h := i], PushRank(rank, h, second), x)
  {
    PushedRanked(cls, rank, h, i, second);
    PushedNext(cls, rank, h, i, second, x, cells[x].hdr.next);
    PushedPrev(cls, rank, h, i, second, x, cells[x].hdr.prev);
  }

  lemma PushedNext(cls: Lists, rank: Ranks, h: nat, i: nat, second: nat, x: nat, l: nat)
    requires Ranked(cls, rank) && h !in cls && h != 0 && FirstOf(cls, rank, i, second)
    requires x in cls && NextOf(cls, rank, x, l)
    ensures NextOf(cls[h := i], PushRank(rank, h, second), x, l)
  {
  }

  lemma PushedPrev(cls: Lists, rank: Ranks, h: nat, i: nat, second: nat, x: nat, l: nat)
    requires Ranked(cls, rank) && h !in cls && h != 0 && FirstOf(cls, rank, i, second)
    requires x in cls && PrevOf(cls, rank, x, l)
    ensures PrevOf(cls[h := i], PushRank(rank, h, second), x, if x == second then h else l)
  {
  }

  lemma PushedShape(cells: Cells, h: nat, second: nat)
    requires IsHeader(cells, h)
    ensures SameShape(cells, Pushed(cells, h, second))
  {
  }

  // ----- replacing -----

  lemma ReplacedLinked(cells: Cells, heads: seq<nat>, cls: Lists, rank: Ranks, h: nat, n: nat)
    requires Linked(cells, heads, cls, rank) && h in cls && n !in cls && n != 0 && IsHeader(cells, n)
    ensures IsHeader(cells, h)
    ensures Linked(Replaced(cells, h, n), if cells[h].hdr.prev == 0 then heads[cls[h] := n] else heads,
                   (cls - {h})[n := cls[h]], rank[n := rank[h]])
  {
    assert LinkedAt(cells, cls, rank, h);
    var next, prev := cells[h].hdr.next, cells[h].hdr.prev;
    var c, cls', rank' := Replaced(cells, h, n), (cls - {h})[n := cls[h]], rank[n := rank[h]];
    var hs := if prev == 0 then heads[cls[h] := n] else heads;
    ReplacedRanked(cls, rank, h, n);
    forall x | x in cls' ensures LinkedAt(c, cls', rank', x) {
      var y := if x == n then h else x;
      assert LinkedAt(cells, cls, rank, y);
      ReplacedAt(cells, cls, rank, h, n, y);
    }
    forall i | 0 <= i <= N_HBLK_FLS ensures FirstOf(cls', rank', i, hs[i]) {
      assert FirstOf(cls, rank, i, heads[i]);
      ReplacedFirst(cls, rank, h, n, prev, i, heads[i]);
    }
  }

  lemma ReplacedRanked(cls: Lists, rank: Ranks, h: nat, n: nat)
    requires Ranked(cls, rank) && h in cls && n !in cls && n != 0
    ensures Ranked((cls - {h})[n := cls[h]], rank[n := rank[h]])
  {
  }

  lemma ReplacedFirst(cls: Lists, rank: Ranks, h: nat, n: nat, prev: nat, i: nat, l: nat)
    requires Ranked(cls, rank) && h in cls && n !in cls && n != 0 && PrevOf(cls, rank, h, prev)
    requires FirstOf(cls, rank, i, l)
    ensures FirstOf((cls - {h})[n := cls[h]], rank[n := rank[h]], i, if i == cls[h] && prev == 0 then n else l)
  {
  }

  lemma ReplacedAt(cells: Cells, cls: Lists, rank: Ranks, h: nat, n: nat, x: nat)
    requires Ranked(cls, rank) && h in cls && n !in cls && n != 0 && IsHeader(cells, n)
    requires LinkedAt(cells, cls, rank, h) && x in cls && LinkedAt(cells, cls, rank, x)
    ensures Ranked((cls - {h})[n := cls[h]], rank[n := rank[h]])
    ensures LinkedAt(Replaced(cells, h, n), (cls - {h})[n := cls[h]], rank[n := rank[h]], if x == h then n else x)
  {
    ReplacedRanked(cls, rank, h, n);
    ReplacedLinks(cls, rank, h, n, x, cells[x].hdr.next, cells[x].hdr.prev);
    NeighboursMatch(cells, cls, rank, h, x);
  }

  lemma ReplacedLinks(cls: Lists, rank: Ranks, h: nat, n: nat, x: nat, next: nat, prev: nat)
    requires Ranked(cls, rank) && h in cls && n !in cls && n != 0 && x in cls
    requires NextOf(cls, rank, x, next) && PrevOf(cls, rank, x, prev)
    ensures var cls', rank' := (cls - {h})[n := cls[h]], rank[n := rank[h]];
      NextOf(cls', rank', if x == h then n else x, if next == h then n else next)
    ensures var cls', rank' := (cls - {h})[n := cls[h]], rank[n := rank[h]];
      PrevOf(cls', rank', if x == h then n else x, if prev == h then n else prev)
  {
  }

  /** Next and prev links are inverse to each other. */
  lemma NeighboursMatch(cells: Cells, cls: Lists, rank: Ranks, h: nat, x: nat)
    requires Ranked(cls, rank) && h in cls && x in cls
    requires LinkedAt(cells, cls, rank, h) && LinkedAt(cells, cls, rank, x)
    ensures cells[x].hdr.next == h <==> cells[h].hdr.prev == x
    ensures cells[x].hdr.prev == h <==> cells[h].hdr.next == x
  {
  }

  lemma ReplacedShape(cells: Cells, h: nat, n: nat)
    requires IsHeader(cells, h) && IsHeader(cells, n)
    ensures SameShape(cells, Replaced(cells, h, n))
  {
  }

  /** Cells that no list uses may change. */
  lemma LinkedFrame(c: Cells, d: Cells, heads: seq<nat>, cls: Lists, rank: Ranks)
    requires Linked(c, heads, cls, rank)
    requires forall h :: h in cls && IsHeader(c, h) ==>
      IsHeader(d, h) && d[h].hdr.next == c[h].hdr.next && d[h].hdr.prev == c[h].hdr.prev
    ensures Linked(d, heads, cls, rank)
  {
    forall h | h in cls ensures LinkedAt(d, cls, rank, h) {
      assert LinkedAt(c, cls, rank, h);
    }
  }
}

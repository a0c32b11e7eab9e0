/** What the heap's consistency checks count. */
module CheckSteps {
  import opened Sequences
  import opened Blocks
  import opened BlockIndexes
  import opened FreeLists
  import opened HeapShape
  import opened Sums
  import opened Totals
  import opened HeapViews
  import opened HeapSteps
  import opened Searches

  /** The runs on list i that come before cur, or all of them when cur is 0. */
  ghost function OnListBefore(v: View, i: nat, cur: nat): map<nat, nat> {
    map h | h in v.cls && h in v.blocks && v.cls[h] == i && Before(v, h, cur) :: v.blocks[h].len
  }

  lemma FirstOnList(v: View, i: nat)
    requires Sound(v, -1, {}) && Listed(v) && i <= N_HBLK_FLS
    ensures |v.heads| == N_HBLK_FLS + 1 && OnListBefore(v, i, v.heads[i]) == map[]
    ensures v.heads[i] != 0 ==> v.heads[i] in v.cls && v.cls[v.heads[i]] == i
  {
    hide Tiled, AgreesBut, BytesMatch, LinkedAt;
    assert FirstOf(v.cls, v.rank, i, v.heads[i]);
  }

  lemma NextOnList(v: View, i: nat, h: nat)
    requires Sound(v, -1, {}) && Listed(v) && h in v.cls && v.cls[h] == i
    ensures h in v.blocks && IsHeader(v.cells, h) && v.cells[h].hdr.sz == v.blocks[h].len * HBLKSIZE
    ensures Total(OnListBefore(v, i, v.cells[h].hdr.next)) == Total(OnListBefore(v, i, h)) + v.blocks[h].len
    ensures v.cells[h].hdr.next != 0 ==>
      v.cells[h].hdr.next in v.cls && v.cls[v.cells[h].hdr.next] == i && Before(v, h, v.cells[h].hdr.next)
    ensures v.cls.Keys <= v.rank.Keys && h != 0
  {
    hide Sound, FirstOf, LinkedAt;
    LinkFacts(v, h);
    RunShown(v, h);
    NextOnListBefore(v, i, h, v.cells[h].hdr.next);
    TotalInsert(OnListBefore(v, i, h), h, v.blocks[h].len);
  }

  lemma NextOnListBefore(v: View, i: nat, h: nat, next: nat)
    requires Ranked(v.cls, v.rank) && h in v.cls && v.cls[h] == i && h in v.blocks && NextOf(v.cls, v.rank, h, next)
    ensures h !in OnListBefore(v, i, h) && OnListBefore(v, i, next) == OnListBefore(v, i, h)[h := v.blocks[h].len]
    ensures next != 0 ==> next in v.cls && v.cls[next] == i && Before(v, h, next)
  {
    forall x | x in v.cls && v.cls[x] == i ensures Before(v, x, next) <==> Before(v, x, h) || x == h {
      assert SameList(v.cls, x, h);
    }
  }

  lemma ListDone(v: View, i: nat)
    ensures OnListsBefore(v.blocks, v.cls, i + 1) == OnListsBefore(v.blocks, v.cls, i) + OnListBefore(v, i, 0)
    ensures Total(OnListsBefore(v.blocks, v.cls, i + 1)) ==
      Total(OnListsBefore(v.blocks, v.cls, i)) + Total(OnListBefore(v, i, 0))
  {
    TotalUnion(OnListsBefore(v.blocks, v.cls, i), OnListBefore(v, i, 0));
  }

  lemma NoListDone(v: View)
    ensures Total(OnListsBefore(v.blocks, v.cls, 0)) == 0
  {
    assert OnListsBefore(v.blocks, v.cls, 0) == map[];
  }

  lemma AllListsDone(v: View)
    requires Listed(v)
    ensures OnListsBefore(v.blocks, v.cls, N_HBLK_FLS + 1) == FreeLengths(v.blocks)
  {
  }

  // ----- used blocks -----

  ghost predicate AllHeaders(cells: Cells, hs: seq<nat>) {
    forall i :: 0 <= i < |hs| ==> IsHeader(cells, hs[i])
  }

  /** The blocks in use by the objects that start at the given blocks. */
  ghost function UsedSum(cells: Cells, hs: seq<nat>): nat
    requires AllHeaders(cells, hs)
  {
    if hs == [] then 0 else UsedSum(cells, hs[..|hs| - 1]) + BlocksFor(cells[hs[|hs| - 1]].hdr.sz)
  }

  lemma VisitedHeaders(cells: Cells, hs: seq<nat>)
    requires forall x: nat :: x in hs <==> IsUsedHeader(cells, x)
    ensures AllHeaders(cells, hs) && UsedSum(cells, hs[..0]) == 0
  {
    forall i | 0 <= i < |hs| ensures IsHeader(cells, hs[i]) {
      assert hs[i] in hs;
    }
  }

  /** Visiting each used header once adds up to the used memory. */
  lemma UsedCounted(v: View, hs: seq<nat>)
    requires Settled(v) && Distinct(hs) && AllHeaders(v.cells, hs)
    requires forall x: nat :: x in hs <==> IsUsedHeader(v.cells, x)
    ensures UsedSum(v.cells, hs) == Total(UsedLengths(v.blocks))
  {
    hide Settled, UsedSum, Total;
    UsedShown(v);
    UsedCountedPart(v, hs, UsedLengths(v.blocks));
  }

  lemma UsedShown(v: View)
    requires Settled(v)
    ensures forall x: nat :: IsUsedHeader(v.cells, x) <==> x in UsedLengths(v.blocks)
    ensures forall x: nat :: IsUsedHeader(v.cells, x) ==>
      x in v.blocks && UsedLengths(v.blocks)[x] == BlocksFor(v.cells[x].hdr.sz)
  {
    hide Tiled, Linked, BytesMatch, NoAdjacentFree, BlocksFor;
    HeadersAreStarts(v);
    forall x | x in v.blocks ensures HeaderFits(v.cells, x, v.blocks[x], {}) {
    }
  }

  lemma {:induction false} UsedCountedPart(v: View, hs: seq<nat>, m: map<nat, nat>)
    requires Distinct(hs) && AllHeaders(v.cells, hs) && (forall x: nat :: x in hs <==> x in m)
    requires forall x: nat :: x in m ==> IsHeader(v.cells, x) && m[x] == BlocksFor(v.cells[x].hdr.sz)
    ensures UsedSum(v.cells, hs) == Total(m)
  {
    hide BlocksFor;
    if hs == [] {
      assert m == map[];
    } else {
      var x, rest := hs[|hs| - 1], hs[..|hs| - 1];
      assert hs == rest + [x];
      UsedCountedPart(v, rest, m - {x});
      TotalRemove(m, x);
    }
  }
}

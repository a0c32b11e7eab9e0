/** The heap together with what its clients know of it: the objects they have got and not given back. */
module HeapClients {
  import opened Intervals
  import opened Blocks
  import opened BlockIndexes
  import opened FreeLists
  import opened HeapShape
  import opened Sums
  import opened Totals
  import opened HeapViews
  import opened HeapSteps
  import opened GrowSteps
  import opened Searches
  import opened Heaps
  import opened HeapRuns

  class Client {
    const heap: Heap
    // The calls made so far, and the states before, between and after them.
    ghost var calls: seq<Call>
    ghost var states: seq<State>

    /** The heap is in order in all its views, and it is where the calls made so far have led. */
    ghost predicate Valid()
      reads this, heap, heap.index, heap.freeList, heap.freeBytes
    {
      && heap.Valid()
      && IsRun(states, calls) && states[0] == State(map[], {}, map[], {})
      && Now().blocks == heap.view.blocks && Now().mem == heap.view.mem
    }

    ghost function Now(): State
      requires states != []
      reads this
    {
      states[|states| - 1]
    }

    constructor (maxSects: nat)
      ensures Valid() && Now() == State(map[], {}, map[], {}) && fresh(heap) && fresh(heap.index)
      ensures fresh(heap.freeList) && fresh(heap.freeBytes)
    {
      hide Settled, Sections, Chained, Shows, FreeTotal;
      heap := new Heap(maxSects);
      calls, states := [], [State(map[], {}, map[], {})];
    }

    /** What every run keeps: the tiling is coalesced and holds the live objects and the dropped blocks. */
    lemma NowGood()
      requires Valid()
      ensures Good(Now())
    {
      hide Good, Next;
      EmptyGood();
      RunGood(states, calls);
    }

    /** So all views of the heap agree after every run of calls: the index block by block, the lists with the free
        runs, each on the list for its size, and the counters with the lists and with the sections. */
    lemma ViewsAgree()
      requires Valid()
      ensures Good(Now()) && Agrees(heap.index.cells, Now().blocks, Now().mem)
      ensures Linked(heap.index.cells, heap.freeList[..], heap.view.cls, heap.view.rank)
      ensures forall h :: h in heap.view.cls <==> h in Now().blocks && Now().blocks[h].Free?
      ensures forall h :: h in heap.view.cls && h in Now().blocks ==> heap.view.cls[h] == ListFor(Now().blocks[h].len)
      ensures BytesMatch(heap.freeBytes[..], Now().blocks, heap.view.cls)
      ensures Sum(heap.freeBytes[..]) == heap.largeFreeBytes
      ensures Total(UsedLengths(Now().blocks)) * HBLKSIZE + heap.largeFreeBytes == heap.heapSize
      ensures Sections(heap.sects, Now().mem)
    {
      hide Good, Next, Sections, Chained, Shows, Tiled, Linked, BytesMatch, AgreesBut, Sized, NoAdjacentFree;
      NowGood();
      SumOfAllLists(heap.freeBytes[..], Now().blocks, heap.view.cls);
      UsedAndFree(Now().blocks, Now().mem);
    }

    lemma RunLonger(xs: seq<State>, es: seq<Call>, e: Call, y: State)
      requires IsRun(xs, es) && Next(xs[|xs| - 1], e, y)
      ensures IsRun(xs + [y], es + [e])
    {
      hide Next;
    }

    /** Give memory to the heap. */
    method Add(p: nat, bytes: nat) returns (g: Growth)
      requires Valid() && 0 < bytes && bytes % HBLKSIZE == 0 && p + bytes / HBLKSIZE <= ADDRESS_LIMIT
      requires Extent(p, bytes / HBLKSIZE) !! Now().mem && (|Now().mem| + bytes / HBLKSIZE) * HBLKSIZE < SIGN_BIT
      modifies this, heap, heap.index, heap.freeList, heap.freeBytes
      ensures Valid()
      ensures g.TooManySections? <==> heap.maxSects <= old(|heap.sects|)
      ensures !g.TooManySections? ==> forall a: nat :: a in Now().mem <==>
        a in old(Now()).mem || (p <= a < p + bytes / HBLKSIZE && 2 <= a < ADDRESS_LIMIT - 1)
      ensures if g.Added? then calls == old(calls) + [Call.Add(g.start, g.n)] && states == old(states) + [Now()]
              else calls == old(calls) && states == old(states)
    {
      hide Release, Next, Settled, Sections, Chained, Shows, FreeTotal, Extent;
      ghost var x := Now();
      g := heap.AddToHeap(p, bytes);
      if g.Added? {
        ghost var y := State(heap.view.blocks, heap.view.mem, x.live, x.lost);
        AddIsNext(x, p, bytes / HBLKSIZE, g.start, g.n, y);
        RunLonger(states, calls, Call.Add(g.start, g.n), y);
        calls, states := calls + [Call.Add(g.start, g.n)], states + [y];
      }
    }

    lemma AddIsNext(x: State, p: nat, k: nat, s: nat, n: nat, y: State)
      requires Extent(p, k) !! x.mem && p <= s && s + n <= p + k && 1 <= n && 2 <= s && s + n < ADDRESS_LIMIT
      requires y == State(Release(x.blocks[s := UsedRun(n * HBLKSIZE)], s), x.mem + Extent(s, n), x.live, x.lost)
      ensures Next(x, Call.Add(s, n), y)
    {
      ExtentHolds(p, k);
      ExtentHolds(s, n);
    }

    /** Get an object; 0 when there is none to be had. */
    method Alloc(q: Request, p: Policy, g: Budget) returns (r: nat)
      requires Valid() && 0 < q.sz < WORD_LIMIT
      modifies this, heap, heap.index, heap.freeList, heap.freeBytes
      ensures Valid() && states == old(states) + [Now()] && |calls| == |old(calls)| + 1 && old(calls) <= calls
      ensures calls[|calls| - 1].Alloc? && calls[|calls| - 1].q == q && calls[|calls| - 1].p == p
      ensures calls[|calls| - 1].r == r
      ensures Now().live == if r == 0 then old(Now()).live else old(Now()).live[r := q.sz]
    {
      hide Allocated, Next, Settled, Sections, Chained, Shows, FreeTotal, NewlyUsed;
      ghost var x := Now();
      ghost var limit, f, n, hs, mid, met;
      r, limit, f, n, hs, mid, met := heap.Allochblk(q, p, g);
      ghost var e := Call.Alloc(q, p, limit, r, f, n, hs, mid);
      ghost var y := if SIGN_BIT - HBLKSIZE < q.sz then x
        else State(heap.view.blocks, x.mem, if r == 0 then x.live else x.live[r := q.sz],
          x.lost + NewlyUsed(x.blocks, mid));
      assert Next(x, e, y) by { AllocIsNext(x, e, y); }
      RunLonger(states, calls, e, y);
      calls, states := calls + [e], states + [y];
    }

    lemma AllocIsNext(x: State, e: Call, y: State)
      requires e.Alloc? && 0 < e.q.sz
      requires SIGN_BIT - HBLKSIZE < e.q.sz ==> e.r == 0 && y == x
      requires e.q.sz <= SIGN_BIT - HBLKSIZE ==>
        && Allocated(x.blocks, y.blocks, e.p, e.q, e.limit, e.r, e.f, e.i, e.hs, e.mid)
        && y == State(y.blocks, x.mem, if e.r == 0 then x.live else x.live[e.r := e.q.sz],
          x.lost + NewlyUsed(x.blocks, e.mid))
      ensures Next(x, e, y)
    {
      hide Allocated;
    }

    /** Give an object back. */
    method Dealloc(h: nat)
      requires Valid() && h in Now().live
      modifies this, heap, heap.index, heap.freeList, heap.freeBytes
      ensures Valid() && calls == old(calls) + [Call.Dealloc(h)] && states == old(states) + [Now()]
      ensures Now().live == old(Now()).live - {h}
    {
      hide Release, Next, Good, Settled, Releasable, Sections, Chained, Shows, FreeTotal;
      ghost var x := Now();
      NowGood();
      LiveUsed(x, heap.view, h);
      heap.FreeHblk(h);
      ghost var y := State(heap.view.blocks, x.mem, x.live - {h}, x.lost);
      assert Next(x, Call.Dealloc(h), y) by { DeallocIsNext(x, h, y); }
      RunLonger(states, calls, Call.Dealloc(h), y);
      calls, states := calls + [Call.Dealloc(h)], states + [y];
    }

    lemma DeallocIsNext(x: State, h: nat, y: State)
      requires h in x.live && h in x.blocks && 1 <= x.blocks[h].len
      requires y == State(Release(x.blocks, h), x.mem, x.live - {h}, x.lost)
      ensures Next(x, Call.Dealloc(h), y)
    {
    }

    lemma LiveUsed(x: State, v: View, h: nat)
      requires Good(x) && h in x.live && x.blocks == v.blocks && Settled(v)
      ensures h in v.blocks && Releasable(v, h) && 1 <= v.blocks[h].len
    {
      SettledReleasable(v, h);
    }
  }
}

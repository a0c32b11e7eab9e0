/** Registering the static variables as collector roots, neighbouring ones together. */
module Roots {
  import opened Intervals

  /** A variable: its address and its length in bytes. */
  datatype Item = Item(ptr: nat, length: nat)

  /** A range of addresses added to the roots, without its end. */
  datatype Range = Range(start: nat, end: nat)

  // ----- the addresses that items and ranges cover -----

  function Span(lo: nat, hi: nat): set<nat> {
    if lo <= hi then Extent(lo, hi - lo) else {}
  }

  lemma SpanHolds(lo: nat, hi: nat)
    ensures forall a: nat :: a in Span(lo, hi) <==> lo <= a < hi
  {
    if lo <= hi {
      ExtentHolds(lo, hi - lo);
    }
  }

  lemma SpanSize(lo: nat, hi: nat)
    requires lo <= hi
    ensures |Span(lo, hi)| == hi - lo
  {
    ExtentSize(lo, hi - lo);
  }

  function ItemSet(items: seq<Item>): set<nat> {
    if items == [] then {}
      else ItemSet(items[..|items| - 1]) + Span(items[|items| - 1].ptr,
        items[|items| - 1].ptr + items[|items| - 1].length)
  }

  function RangeSet(rs: seq<Range>): set<nat> {
    if rs == [] then {} else RangeSet(rs[..|rs| - 1]) + Span(rs[|rs| - 1].start, rs[|rs| - 1].end)
  }

  function TotalLength(items: seq<Item>): nat {
    if items == [] then 0 else TotalLength(items[..|items| - 1]) + items[|items| - 1].length
  }

  /** The items are in order of address. */
  predicate Sorted(items: seq<Item>) {
    forall i, j :: 0 <= i < j < |items| ==> items[i].ptr <= items[j].ptr
  }

  /** Variables have addresses. */
  predicate NoneNull(items: seq<Item>) {
    forall i :: 0 <= i < |items| ==> items[i].ptr != 0
  }

  /** No two items share an address. */
  ghost predicate Separate(items: seq<Item>) {
    forall i, j :: 0 <= i < j < |items| ==>
      Span(items[i].ptr, items[i].ptr + items[i].length) !! Span(items[j].ptr, items[j].ptr + items[j].length)
  }

  // ----- sizes -----

  lemma {:induction false} UnionSize(s: set<nat>, t: set<nat>)
    ensures |s + t| <= |s| + |t|
    ensures |s + t| == |s| + |t| <==> s !! t
  {
    assert s + t == s + (t - s);
    assert t == (t - s) + (t * s);
    assert |t| == |t - s| + |t * s|;
    assert |s + t| == |s| + |t - s|;
    assert s !! t <==> t * s == {};
  }

  lemma {:induction false} InItems(items: seq<Item>, a: nat)
    ensures a in ItemSet(items) <==>
      exists i :: 0 <= i < |items| && a in Span(items[i].ptr, items[i].ptr + items[i].length)
  {
    if items != [] {
      var n := |items| - 1;
      InItems(items[..n], a);
      assert forall i :: 0 <= i < n ==> items[..n][i] == items[i];
    }
  }

  /** Address a lies in one of the items. */
  predicate InItem(items: seq<Item>, a: nat) {
    exists i :: 0 <= i < |items| && items[i].ptr <= a < items[i].ptr + items[i].length
  }

  /** Address a lies in one of the ranges. */
  predicate Added(rs: seq<Range>, a: nat) {
    exists i :: 0 <= i < |rs| && rs[i].start <= a < rs[i].end
  }

  lemma {:induction false} InRanges(rs: seq<Range>, a: nat)
    ensures a in RangeSet(rs) <==> Added(rs, a)
  {
    if rs != [] {
      var n := |rs| - 1;
      InRanges(rs[..n], a);
      SpanHolds(rs[n].start, rs[n].end);
      assert forall i :: 0 <= i < n ==> rs[..n][i] == rs[i];
    }
  }

  /** Every address of every item has been added, and no others just when the items are separate. */
  lemma AllAddresses(items: seq<Item>, rs: seq<Range>)
    requires ItemSet(items) <= RangeSet(rs) && (RangeSet(rs) == ItemSet(items) <==> Separate(items))
    ensures forall a: nat :: InItem(items, a) ==> Added(rs, a)
    ensures Separate(items) <==> (forall a: nat :: Added(rs, a) ==> InItem(items, a))
  {
    hide Span, ItemSet, RangeSet, Separate;
    forall a: nat
      ensures a in ItemSet(items) <==> InItem(items, a)
      ensures a in RangeSet(rs) <==> Added(rs, a)
    {
      InRanges(rs, a);
      InItems(items, a);
      forall i | 0 <= i < |items|
        ensures a in Span(items[i].ptr, items[i].ptr + items[i].length) <==>
          items[i].ptr <= a < items[i].ptr + items[i].length
      {
        SpanHolds(items[i].ptr, items[i].ptr + items[i].length);
      }
    }
  }

  /** The items cover as many addresses as they are long together, just when they are separate. */
  lemma {:induction false} ItemsSize(items: seq<Item>)
    ensures |ItemSet(items)| <= TotalLength(items)
    ensures |ItemSet(items)| == TotalLength(items) <==> Separate(items)
  {
    if items != [] {
      var n := |items| - 1;
      var it := items[n];
      ItemsSize(items[..n]);
      SpanSize(it.ptr, it.ptr + it.length);
      UnionSize(ItemSet(items[..n]), Span(it.ptr, it.ptr + it.length));
      SeparateLast(items);
    }
  }

  lemma SeparateLast(items: seq<Item>)
    requires items != []
    ensures var n, it := |items| - 1, items[|items| - 1];
      Separate(items) <==> Separate(items[..n]) && ItemSet(items[..n]) !! Span(it.ptr, it.ptr + it.length)
  {
    var n := |items| - 1;
    var last := Span(items[n].ptr, items[n].ptr + items[n].length);
    var init := items[..n];
    forall a | a in ItemSet(init)
      ensures exists i :: 0 <= i < n && a in Span(items[i].ptr, items[i].ptr + items[i].length)
    {
      InItems(init, a);
      var i :| 0 <= i < n && a in Span(init[i].ptr, init[i].ptr + init[i].length);
    }
    forall i, a | 0 <= i < n && a in Span(items[i].ptr, items[i].ptr + items[i].length) ensures a in ItemSet(init) {
      assert init[i] == items[i];
      InItems(init, a);
    }
    assert forall i :: 0 <= i < n ==> init[i] == items[i];
  }

  // ----- committing -----

  /** What has been added and is about to be added, for the items so far: it covers them, its length is theirs,
      and it starts no later than the next item. */
  ghost predicate Covering(items: seq<Item>, ranges: seq<Range>, start: nat, end: nat) {
    && start <= end && ItemSet(items) <= RangeSet(ranges) + Span(start, end)
    && |RangeSet(ranges)| + (end - start) == TotalLength(items) && (forall a :: a in RangeSet(ranges) ==> a < start)
  }

  /** The next item is merged: it begins inside the current range or at its end. The range grows by the whole
      length of the item, even when they overlap. */
  lemma Merged(items: seq<Item>, ranges: seq<Range>, start: nat, end: nat, it: Item)
    requires Covering(items, ranges, start, end) && start <= it.ptr <= end
    ensures Covering(items + [it], ranges, start, end + it.length)
  {
    assert (items + [it])[..|items|] == items;
    SpanHolds(start, end);
    SpanHolds(start, end + it.length);
    SpanHolds(it.ptr, it.ptr + it.length);
  }

  /** The next item begins behind the current range, which is added. */
  lemma Begun(items: seq<Item>, ranges: seq<Range>, start: nat, end: nat, it: Item)
    requires Covering(items, ranges, start, end) && end < it.ptr
    ensures Covering(items + [it], ranges + [Range(start, end)], it.ptr, it.ptr + it.length)
  {
    assert (items + [it])[..|items|] == items;
    assert (ranges + [Range(start, end)])[..|ranges|] == ranges;
    SpanHolds(start, end);
    SpanSize(start, end);
    SpanHolds(it.ptr, it.ptr + it.length);
    UnionSize(RangeSet(ranges), Span(start, end));
  }

  /** Add the sorted items as ranges (il2cpp_CommitRoots). All addresses of the items are covered, and no others
      just when the items are separate. */
  method CommitRoots(items: seq<Item>) returns (ranges: seq<Range>)
    requires Sorted(items) && NoneNull(items)
    ensures ItemSet(items) <= RangeSet(ranges)
    ensures RangeSet(ranges) == ItemSet(items) <==> Separate(items)
    ensures forall a: nat :: InItem(items, a) ==> Added(ranges, a)
    ensures Separate(items) <==> (forall a: nat :: Added(ranges, a) ==> InItem(items, a))
  {
    hide Added, InItem, ItemSet, RangeSet, TotalLength, Separate, Covering, Sorted;
    ranges := [];
    var start: nat, end: nat := 0, 0;
    EmptyCovered();
    var i := 0;
    while i < |items|
      invariant i <= |items| && Covering(items[..i], ranges, start, end)
      invariant (start == 0 <==> i == 0) && (i == 0 ==> ranges == [])
      invariant i < |items| ==> start <= items[i].ptr
    {
      var item := items[i];
      InAddressOrder(items, i);
      RangeOrder(items[..i], ranges, start, end);
      assert items[..i + 1] == items[..i] + [item];
      if start != 0 && item.ptr <= end {
        Merged(items[..i], ranges, start, end, item);
        end := end + item.length;
      } else {
        if start != 0 {
          Begun(items[..i], ranges, start, end, item);
          ranges := ranges + [Range(start, end)];
        } else {
          FirstItem(item);
          assert items[..1] == [item];
        }
        start, end := item.ptr, item.ptr + item.length;
      }
      i := i + 1;
    }
    assert items[..i] == items;
    RangeOrder(items, ranges, start, end);
    if start != 0 {
      ranges := ranges + [Range(start, end)];
      AllAdded(items, ranges[..|ranges| - 1], start, end);
      assert ranges[..|ranges| - 1] + [Range(start, end)] == ranges;
    } else {
      NothingAdded();
    }
    AllAddresses(items, ranges);
  }

  lemma InAddressOrder(items: seq<Item>, i: nat)
    requires Sorted(items) && i < |items|
    ensures i + 1 < |items| ==> items[i].ptr <= items[i + 1].ptr
  {
  }

  lemma RangeOrder(items: seq<Item>, ranges: seq<Range>, start: nat, end: nat)
    requires Covering(items, ranges, start, end)
    ensures start <= end
  {
  }

  lemma EmptyCovered()
    ensures Covering([], [], 0, 0)
  {
  }

  lemma NothingAdded()
    ensures ItemSet([]) == RangeSet([]) == {} && Separate([])
  {
  }

  lemma FirstItem(it: Item)
    ensures Covering([it], [], it.ptr, it.ptr + it.length)
  {
    assert [it][..0] == [];
  }

  lemma AllAdded(items: seq<Item>, ranges: seq<Range>, start: nat, end: nat)
    requires Covering(items, ranges, start, end)
    ensures var all := ranges + [Range(start, end)];
      ItemSet(items) <= RangeSet(all) && (RangeSet(all) == ItemSet(items) <==> Separate(items))
  {
    var all := ranges + [Range(start, end)];
    assert all[..|ranges|] == ranges;
    SpanHolds(start, end);
    SpanSize(start, end);
    UnionSize(RangeSet(ranges), Span(start, end));
    ItemsSize(items);
    if |RangeSet(all)| == |ItemSet(items)| {
      SameSet(ItemSet(items), RangeSet(all));
    }
  }

  lemma SameSet(s: set<nat>, t: set<nat>)
    requires s <= t && |s| == |t|
    ensures s == t
  {
    assert t == s + (t - s);
    assert |t| == |s| + |t - s|;
  }
}

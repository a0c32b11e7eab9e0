/** The two-level index from block numbers to block headers.

    A bottom index covers BOTTOM_SZ consecutive blocks. The bottom indices are reached by key (the high part
    of a block number) and are linked in ascending and in descending order of their keys. */
module BlockIndexes {
  import opened Intervals
  import opened Sequences
  import opened Blocks

  const BOTTOM_SZ: nat := 1024
  const MAX_JUMP: nat := HBLKSIZE - 1

  /** The fields of a block header that the allocator uses; block number 0 is the null link. */
  datatype Hdr = Hdr(sz: nat, free: bool, next: nat, prev: nat)

  /** A cell of a bottom index: nil, a count of blocks to go back, or a header. */
  datatype Entry = Nil | Jump(n: nat) | Header(hdr: Hdr)

  datatype Link = Null | To(key: nat)

  datatype BottomIndex = BottomIndex(index: seq<Entry>, asc: Link, desc: Link)

  type Cells = map<nat, Entry>

  lemma DistinctConcat(s: seq<nat>, t: seq<nat>)
    requires Distinct(s) && Distinct(t) && forall x :: x in s ==> x !in t
    ensures Distinct(s + t)
  {
    assert forall i :: 0 <= i < |s| ==> s[i] !in t;
  }

  predicate IsHeader(cells: Cells, a: nat) {
    a in cells && cells[a].Header?
  }

  predicate IsUsedHeader(cells: Cells, a: nat) {
    IsHeader(cells, a) && !cells[a].hdr.free
  }

  /** A jump count leads back over cells that hold no header; a free header's size covers no other header. */
  ghost predicate Skips(cells: Cells) {
    && (forall a: nat, x: nat :: a in cells && cells[a].Jump? && IsHeader(cells, x) && x <= a ==> x + cells[a].n <= a)
    && (forall a :: a in cells && cells[a].Jump? ==> 1 <= cells[a].n)
    && (forall a: nat, x: nat :: IsHeader(cells, a) && cells[a].hdr.free && IsHeader(cells, x) && a < x ==>
      a + cells[a].hdr.sz / HBLKSIZE <= x)
    && (forall a: nat :: IsHeader(cells, a) && cells[a].hdr.free ==> 1 <= cells[a].hdr.sz / HBLKSIZE)
  }

  /** The cells of a run of n blocks after its first: how far back, at most MAX_JUMP. */
  function Counts(h: nat, n: nat): Cells {
    map a: nat {:trigger Between(h + 1, a, h + n)} | h < a < h + n
      && Between(h + 1, a, h + n) :: Jump(if a - h > MAX_JUMP then MAX_JUMP else a - h)
  }

  lemma CountsGrow(h: nat, i: nat)
    requires 1 <= i
    ensures Counts(h, i + 1) == Counts(h, i)[h + i := Jump(if i > MAX_JUMP then MAX_JUMP else i)]
  {
  }

  lemma CountsNone(h: nat)
    ensures Counts(h, 1) == map[]
  {
  }

  function Interior(h: nat, n: nat): set<nat> {
    set a: nat {:trigger Between(h + 1, a, h + n)} | h < a < h + n && Between(h + 1, a, h + n)
  }

  /** l is the least key above k. */
  ghost predicate NextKey(keys: set<nat>, k: int, l: Link) {
    match l
    case Null => forall x :: x in keys ==> x <= k
    case To(y) => y in keys && k < y && forall x :: x in keys ==> x <= k || y <= x
  }

  /** l is the greatest key below k. */
  ghost predicate PrevKey(keys: set<nat>, k: int, l: Link) {
    match l
    case Null => forall x :: x in keys ==> k <= x
    case To(y) => y in keys && y < k && forall x :: x in keys ==> x <= y || k <= x
  }

  ghost predicate MaxKey(keys: set<nat>, l: Link) {
    match l
    case Null => keys == {}
    case To(y) => y in keys && forall x :: x in keys ==> x <= y
  }

  lemma SplitNumber(k: nat, j: nat)
    requires j < BOTTOM_SZ
    ensures (k * BOTTOM_SZ + j) / BOTTOM_SZ == k && (k * BOTTOM_SZ + j) % BOTTOM_SZ == j
  {
  }

  type Bottoms = map<nat, BottomIndex>

  /** The bottom indices are linked in the order of their keys, both ways. */
  ghost predicate Chained(b: Bottoms, first: Link, last: Link) {
    && NextKey(b.Keys, -1, first) && MaxKey(b.Keys, last)
    && (forall k :: k in b ==> NextKey(b.Keys, k, b[k].asc) && PrevKey(b.Keys, k, b[k].desc))
  }

  /** The cell for block a; nil when no bottom index covers it (GC_all_nils). */
  function CellOf(b: Bottoms, a: nat): Entry
    requires forall k :: k in b ==> |b[k].index| == BOTTOM_SZ
  {
    if a / BOTTOM_SZ in b then b[a / BOTTOM_SZ].index[a % BOTTOM_SZ] else Nil
  }

  ghost predicate Shows(b: Bottoms, cells: Cells) {
    && (forall k :: k in b ==> |b[k].index| == BOTTOM_SZ)
    && (forall a :: a in cells ==> cells[a] != Nil)
    && (forall a: nat :: CellOf(b, a) == if a in cells then cells[a] else Nil)
  }

  function Nils(n: nat): (s: seq<Entry>)
    ensures |s| == n && forall i :: 0 <= i < n ==> s[i] == Nil
  {
    seq(n, _ => Nil)
  }

  /** Link a new, empty bottom index for hi between the i-th key and the one before it. */
  function Inserted(b: Bottoms, p: Link, pi: Link, hi: nat): Bottoms
    requires p.To? ==> p.key in b
    requires pi.To? ==> pi.key in b
    requires hi !in b
    ensures Inserted(b, p, pi, hi).Keys == b.Keys + {hi}
  {
    var b1 := b[hi := BottomIndex(Nils(BOTTOM_SZ), p, pi)];
    var b2 := if p == Null then b1 else b1[p.key := b1[p.key].(desc := To(hi))];
    if pi == Null then b2 else b2[pi.key := b2[pi.key].(asc := To(hi))]
  }

  lemma InsertedChained(b: Bottoms, first: Link, last: Link, hi: nat, p: Link, pi: Link)
    requires Chained(b, first, last) && hi !in b && NextKey(b.Keys, hi, p) && PrevKey(b.Keys, hi, pi)
    ensures Chained(Inserted(b, p, pi, hi), if pi == Null then To(hi) else first, if p == Null then To(hi) else last)
  {
    hide Inserted, NextKey, PrevKey, MaxKey;
    EndsKeyedIn(b.Keys, hi, p, pi, first, last);
    var c := Inserted(b, p, pi, hi);
    forall k | k in c ensures NextKey(c.Keys, k, c[k].asc) && PrevKey(c.Keys, k, c[k].desc) {
      InsertedAt(b, p, pi, hi, k);
      if k in b {
        KeyedIn(b.Keys, hi, p, pi, k, b[k].asc, b[k].desc);
      } else {
        NewKeyedIn(b.Keys, hi, p, pi);
      }
    }
  }

  lemma EndsKeyedIn(keys: set<nat>, hi: nat, p: Link, pi: Link, first: Link, last: Link)
    requires hi !in keys && NextKey(keys, hi, p) && PrevKey(keys, hi, pi) && NextKey(keys, -1, first)
    requires MaxKey(keys, last)
    ensures NextKey(keys + {hi}, -1, if pi == Null then To(hi) else first)
    ensures MaxKey(keys + {hi}, if p == Null then To(hi) else last)
    ensures (p.To? ==> p.key in keys) && (pi.To? ==> pi.key in keys)
  {
  }

  lemma InsertedAt(b: Bottoms, p: Link, pi: Link, hi: nat, k: nat)
    requires (p.To? ==> p.key in b) && (pi.To? ==> pi.key in b) && hi !in b && (k == hi || k in b)
    ensures k in Inserted(b, p, pi, hi)
    ensures Inserted(b, p, pi, hi)[k].asc == if k == hi then p else if pi == To(k) then To(hi) else b[k].asc
    ensures Inserted(b, p, pi, hi)[k].desc == if k == hi then pi else if p == To(k) then To(hi) else b[k].desc
    ensures Inserted(b, p, pi, hi)[k].index == if k == hi then Nils(BOTTOM_SZ) else b[k].index
  {
  }

  lemma KeyedIn(keys: set<nat>, hi: nat, p: Link, pi: Link, k: nat, asc: Link, desc: Link)
    requires k in keys && hi !in keys && NextKey(keys, hi, p) && PrevKey(keys, hi, pi)
    requires NextKey(keys, k, asc) && PrevKey(keys, k, desc)
    ensures NextKey(keys + {hi}, k, if pi == To(k) then To(hi) else asc)
    ensures PrevKey(keys + {hi}, k, if p == To(k) then To(hi) else desc)
  {
  }

  lemma NewKeyedIn(keys: set<nat>, hi: nat, p: Link, pi: Link)
    requires NextKey(keys, hi, p) && PrevKey(keys, hi, pi)
    ensures NextKey(keys + {hi}, hi, p) && PrevKey(keys + {hi}, hi, pi)
  {
  }

  lemma InsertedShows(b: Bottoms, p: Link, pi: Link, hi: nat, cells: Cells)
    requires Shows(b, cells) && hi !in b && (p.To? ==> p.key in b) && (pi.To? ==> pi.key in b)
    ensures Shows(Inserted(b, p, pi, hi), cells)
  {
    var c := Inserted(b, p, pi, hi);
    forall a: nat ensures CellOf(c, a) == CellOf(b, a) {
    }
  }

  lemma SetShows(b: Bottoms, cells: Cells, a: nat, e: Entry)
    requires Shows(b, cells) && a / BOTTOM_SZ in b
    ensures var k := a / BOTTOM_SZ;
      Shows(b[k := b[k].(index := b[k].index[a % BOTTOM_SZ := e])], if e == Nil then cells - {a} else cells[a := e])
  {
    var k := a / BOTTOM_SZ;
    var c := b[k := b[k].(index := b[k].index[a % BOTTOM_SZ := e])];
    forall x: nat ensures CellOf(c, x) == if x == a then e else CellOf(b, x) {
      if x != a && x / BOTTOM_SZ == k {
        assert x % BOTTOM_SZ != a % BOTTOM_SZ;
      }
    }
  }

  /** The order of the bottom indices does not depend on what they hold. */
  lemma SetChained(b: Bottoms, first: Link, last: Link, k: nat, index: seq<Entry>)
    requires Chained(b, first, last) && k in b
    ensures Chained(b[k := b[k].(index := index)], first, last)
  {
    hide NextKey, PrevKey, MaxKey;
    assert b[k := b[k].(index := index)].Keys == b.Keys;
  }

  /** GC_top_index, GC_all_bottom_indices and GC_all_bottom_indices_end. */
  class BlockIndex {
    var bottoms: Bottoms
    var first: Link
    var last: Link
    // The cells that are not nil.
    ghost var cells: Cells

    ghost predicate Valid()
      reads this
    {
      Chained(bottoms, first, last) && Shows(bottoms, cells)
    }

    constructor ()
      ensures Valid() && cells == map[]
    {
      bottoms, first, last := map[], Null, Null;
      cells := map[];
    }

    /** Make sure that a bottom index covers block a. */
    method GetIndex(a: nat)
      requires Valid()
      modifies this
      ensures Valid() && cells == old(cells)
      ensures bottoms.Keys == old(bottoms.Keys) + {a / BOTTOM_SZ}
    {
      var hi := a / BOTTOM_SZ;
      if hi !in bottoms {
        var p, pi := FindPlace(hi);
        LinkIn(p, pi, hi);
      }
    }

    /** The bottom index before which hi belongs, and the one after which it belongs. */
    method FindPlace(hi: nat) returns (p: Link, pi: Link)
      requires Valid() && hi !in bottoms
      ensures NextKey(bottoms.Keys, hi, p) && PrevKey(bottoms.Keys, hi, pi)
      ensures (p.To? ==> p.key in bottoms) && (pi.To? ==> pi.key in bottoms)
    {
      hide Shows;
      pi, p := Null, first;
      while p != Null && p.key < hi
        invariant NextKey(bottoms.Keys, if pi == Null then -1 else pi.key, p)
        invariant pi != Null ==> pi.key in bottoms && pi.key < hi
        decreases if p == Null then 0 else 1 + last.key - p.key
      {
        pi, p := p, bottoms[p.key].asc;
      }
    }

    /** Make a bottom index for hi, with links to its neighbours p and pi, and link it in between them. */
    method LinkIn(p: Link, pi: Link, hi: nat)
      requires Valid() && hi !in bottoms && NextKey(bottoms.Keys, hi, p) && PrevKey(bottoms.Keys, hi, pi)
      requires (p.To? ==> p.key in bottoms) && (pi.To? ==> pi.key in bottoms)
      modifies this
      ensures Valid() && cells == old(cells)
      ensures bottoms.Keys == old(bottoms.Keys) + {hi}
    {
      hide Chained, Shows, MaxKey, NextKey, PrevKey;
      InsertedChained(bottoms, first, last, hi, p, pi);
      InsertedShows(bottoms, p, pi, hi, cells);
      bottoms := bottoms[hi := BottomIndex(Nils(BOTTOM_SZ), p, pi)];
      if p == Null {
        last := To(hi);
      } else {
        bottoms := bottoms[p.key := bottoms[p.key].(desc := To(hi))];
      }
      if pi == Null {
        first := To(hi);
      } else {
        bottoms := bottoms[pi.key := bottoms[pi.key].(asc := To(hi))];
      }
    }

    /** Store e in the cell for block a (SET_HDR). Without a bottom index for a, only nil can be stored. */
    method SetHdr(a: nat, e: Entry)
      requires Valid() && (e == Nil || a / BOTTOM_SZ in bottoms)
      modifies this
      ensures Valid() && bottoms.Keys == old(bottoms.Keys)
      ensures cells == if e == Nil then old(cells) - {a} else old(cells)[a := e]
    {
      var k := a / BOTTOM_SZ;
      if k in bottoms {
        SetShows(bottoms, cells, a, e);
        SetChained(bottoms, first, last, k, bottoms[k].index[a % BOTTOM_SZ := e]);
        bottoms := bottoms[k := bottoms[k].(index := bottoms[k].index[a % BOTTOM_SZ := e])];
      } else {
        assert CellOf(bottoms, a) == Nil;
      }
      cells := if e == Nil then cells - {a} else cells[a := e];
    }

    lemma CellAt(k: nat, j: nat)
      requires Valid() && k in bottoms && j < BOTTOM_SZ
      ensures |bottoms[k].index| == BOTTOM_SZ
      ensures bottoms[k].index[j] == if k * BOTTOM_SZ + j in cells then cells[k * BOTTOM_SZ + j] else Nil
    {
      SplitNumber(k, j);
      assert CellOf(bottoms, k * BOTTOM_SZ + j) == bottoms[k].index[j];
    }

    lemma CellKeyed(a: nat)
      requires Valid() && a in cells
      ensures a / BOTTOM_SZ in bottoms
    {
      assert CellOf(bottoms, a) == cells[a];
    }

    lemma HeaderKeyed(a: nat)
      requires Valid() && IsHeader(cells, a)
      ensures a / BOTTOM_SZ in bottoms && |bottoms[a / BOTTOM_SZ].index| == BOTTOM_SZ
      ensures forall k :: k in bottoms ==> |bottoms[k].index| == BOTTOM_SZ
      ensures CellOf(bottoms, a) == cells[a]
    {
      CellKeyed(a);
    }

    /** The cell for block a (GET_HDR). */
    method GetHdr(a: nat) returns (e: Entry)
      requires Valid()
      ensures e == if a in cells then cells[a] else Nil
    {
      hide Chained;
      var k := a / BOTTOM_SZ;
      if k in bottoms {
        SplitNumber(k, a % BOTTOM_SZ);
        CellAt(k, a % BOTTOM_SZ);
        return bottoms[k].index[a % BOTTOM_SZ];
      }
      assert CellOf(bottoms, a) == Nil;
      return Nil;
    }

    /** Install a header for block h; its fields are not initialised. */
    method InstallHeader(h: nat)
      requires Valid()
      modifies this
      ensures Valid() && IsHeader(cells, h) && cells == old(cells)[h := cells[h]]
      ensures bottoms.Keys == old(bottoms.Keys) + {h / BOTTOM_SZ}
    {
      GetIndex(h);
      SetHdr(h, Header(Hdr(0, false, 0, 0)));
    }

    /** Make sure that bottom indices cover the n blocks from h. */
    method CoverRun(h: nat, n: nat)
      requires Valid() && 1 <= n
      modifies this
      ensures Valid() && cells == old(cells) && old(bottoms.Keys) <= bottoms.Keys
      ensures forall a :: h <= a < h + n ==> a / BOTTOM_SZ in bottoms
    {
      hide Chained, Shows;
      var p := h;
      while p < h + n
        invariant Valid() && cells == old(cells) && old(bottoms.Keys) <= bottoms.Keys && h <= p
        invariant forall k :: h / BOTTOM_SZ <= k < p / BOTTOM_SZ ==> k in bottoms.Keys
      {
        GetIndex(p);
        p := p + BOTTOM_SZ;
      }
      GetIndex(h + n - 1);
      forall a | h <= a < h + n ensures a / BOTTOM_SZ in bottoms {
        assert h / BOTTOM_SZ <= a / BOTTOM_SZ <= (h + n - 1) / BOTTOM_SZ <= p / BOTTOM_SZ;
      }
    }

    /** Set up the backward jump counts of the run of n blocks at h. */
    method InstallCounts(h: nat, n: nat)
      requires Valid() && 1 <= n
      modifies this
      ensures Valid() && cells == old(cells) + Counts(h, n) && old(bottoms.Keys) <= bottoms.Keys
    {
      hide Chained, Shows, Counts;
      CoverRun(h, n);
      CountsNone(h);
      var p := h + 1;
      while p < h + n
        invariant h + 1 <= p <= h + n
        invariant Valid() && cells == old(cells) + Counts(h, p - h)
        invariant forall a :: h <= a < h + n ==> a / BOTTOM_SZ in bottoms
        invariant old(bottoms.Keys) <= bottoms.Keys
      {
        var i := p - h;
        CountsGrow(h, i);
        SetHdr(p, Jump(if i > MAX_JUMP then MAX_JUMP else i));
        p := p + 1;
      }
    }

    method RemoveHeader(h: nat)
      requires Valid()
      modifies this
      ensures Valid() && cells == old(cells) - {h} && bottoms.Keys == old(bottoms.Keys)
    {
      SetHdr(h, Nil);
    }

    /** Remove the jump counts of the run of n blocks at h. */
    method RemoveCounts(h: nat, n: nat)
      requires Valid() && 1 <= n
      modifies this
      ensures Valid() && cells == old(cells) - Interior(h, n) && bottoms.Keys == old(bottoms.Keys)
    {
      hide Chained, Shows;
      var p := h + 1;
      while p < h + n
        invariant h + 1 <= p <= h + n
        invariant Valid() && cells == old(cells) - Interior(h, p - h) && bottoms.Keys == old(bottoms.Keys)
      {
        SetHdr(p, Nil);
        assert Interior(h, p + 1 - h) == Interior(h, p - h) + {p};
        p := p + 1;
      }
    }

    // ----- walking the index -----

    /** Everything below the blocks of key k is in the bottom index before it, or lower. */
    lemma GoDown(k: nat)
      requires Valid() && k in bottoms
      ensures bottoms[k].desc.To? ==> bottoms[k].desc.key in bottoms && bottoms[k].desc.key < k
      ensures forall x :: x in cells && x < k * BOTTOM_SZ ==>
        bottoms[k].desc.To? && x < (bottoms[k].desc.key + 1) * BOTTOM_SZ
    {
      forall x | x in cells && x < k * BOTTOM_SZ
        ensures bottoms[k].desc.To? && x < (bottoms[k].desc.key + 1) * BOTTOM_SZ
      {
        CellKeyed(x);
        hide Shows;
        assert x / BOTTOM_SZ < k;
      }
    }

    /** Everything above the blocks of key k is in the bottom index after it, or higher. */
    lemma GoUp(k: nat)
      requires Valid() && k in bottoms
      ensures bottoms[k].asc.To? ==> bottoms[k].asc.key in bottoms && k < bottoms[k].asc.key
      ensures forall x :: x in cells && (k + 1) * BOTTOM_SZ <= x ==>
        bottoms[k].asc.To? && bottoms[k].asc.key * BOTTOM_SZ <= x
    {
      forall x | x in cells && (k + 1) * BOTTOM_SZ <= x
        ensures bottoms[k].asc.To? && bottoms[k].asc.key * BOTTOM_SZ <= x
      {
        CellKeyed(x);
        hide Shows;
        assert k < x / BOTTOM_SZ;
      }
    }

    lemma Ends()
      requires Valid()
      ensures first.To? ==> first.key in bottoms && last.To? && forall x :: x in cells ==> first.key * BOTTOM_SZ <= x
      ensures last.To? ==> last.key in bottoms && forall x :: x in cells ==> x < (last.key + 1) * BOTTOM_SZ
      ensures first == Null || last == Null ==> cells == map[]
      ensures forall k :: k in bottoms ==> last.To? && k <= last.key
    {
      forall x | x in cells ensures first.To? && last.To? && first.key * BOTTOM_SZ <= x < (last.key + 1) * BOTTOM_SZ {
        CellKeyed(x);
        hide Shows;
      }
    }

    /** The last block start at or below h, free or used; 0 if there is none. */
    method PrevBlock(h: nat) returns (r: nat)
      requires Valid() && Skips(cells) && !IsHeader(cells, 0)
      ensures r == 0 ==> forall x: nat :: IsHeader(cells, x) ==> h < x
      ensures r != 0 ==> r <= h && IsHeader(cells, r) && forall x: nat :: IsHeader(cells, x) ==> x <= r || h < x
    {
      hide Chained, Shows;
      var bi, j := StartBelow(h);
      while bi != Null
        invariant bi != Null ==> bi.key in bottoms && 0 <= j < BOTTOM_SZ && bi.key * BOTTOM_SZ + j <= h
        invariant forall x: nat :: IsHeader(cells, x) && x <= h ==> bi != Null && x <= bi.key * BOTTOM_SZ + j
        decreases if bi == Null then 0 else 1 + bi.key
      {
        r, j := DownInBottom(h, bi.key, j);
        if r != 0 { return; }
        GoDown(bi.key);
        j, bi := BOTTOM_SZ - 1, bottoms[bi.key].desc;
      }
      return 0;
    }

    /** Search down for a header inside one bottom index; a jump may leave it. */
    method DownInBottom(h: nat, key: nat, start: int) returns (r: nat, j: int)
      requires Valid() && Skips(cells) && !IsHeader(cells, 0)
      requires key in bottoms && start < BOTTOM_SZ && key * BOTTOM_SZ + start <= h
      requires forall x: nat :: IsHeader(cells, x) && x <= h ==> x <= key * BOTTOM_SZ + start
      ensures r != 0 ==> r <= h && IsHeader(cells, r) && forall x: nat :: IsHeader(cells, x) ==> x <= r || h < x
      ensures r == 0 ==> forall x: nat :: IsHeader(cells, x) && x <= h ==> x < key * BOTTOM_SZ
    {
      hide Chained, Shows;
      j := start;
      while 0 <= j
        invariant j < BOTTOM_SZ && key * BOTTOM_SZ + j <= h
        invariant forall x: nat :: IsHeader(cells, x) && x <= h ==> x <= key * BOTTOM_SZ + j
        decreases j
      {
        CellAt(key, j);
        ghost var at := key * BOTTOM_SZ + j;
        match bottoms[key].index[j]
        case Nil =>
          assert !IsHeader(cells, at);
          j := j - 1;
        case Jump(n) =>
          assert cells[at].Jump?;
          j := j - n;
        case Header(_) =>
          assert IsHeader(cells, at);
          return key * BOTTOM_SZ + j, j;
      }
      r := 0;
    }

    /** The place in the bottom indices from which to search down for h. */
    method StartBelow(h: nat) returns (bi: Link, j: int)
      requires Valid()
      ensures bi != Null ==> bi.key in bottoms && 0 <= j < BOTTOM_SZ && bi.key * BOTTOM_SZ + j <= h
      ensures forall x: nat :: IsHeader(cells, x) && x <= h ==> bi != Null && x <= bi.key * BOTTOM_SZ + j
    {
      hide Chained, Shows;
      var hi := h / BOTTOM_SZ;
      if hi in bottoms {
        return To(hi), h % BOTTOM_SZ;
      }
      Ends();
      bi, j := last, BOTTOM_SZ - 1;
      while bi != Null && bi.key > hi
        invariant bi != Null ==> bi.key in bottoms && bi.key != hi
        invariant forall x :: x in cells && x <= h ==> bi != Null && x < (bi.key + 1) * BOTTOM_SZ
        decreases if bi == Null then 0 else 1 + bi.key
      {
        GoDown(bi.key);
        bi := bottoms[bi.key].desc;
      }
    }

    /** The first used block start at or above h; 0 if there is none. */
    method NextUsedBlock(h: nat) returns (r: nat)
      requires Valid() && Skips(cells) && !IsHeader(cells, 0)
      ensures r == 0 ==> forall x: nat :: IsUsedHeader(cells, x) ==> x < h
      ensures r != 0 ==> h <= r && IsUsedHeader(cells, r) && forall x: nat :: IsUsedHeader(cells, x) ==> x < h || r <= x
    {
      hide Chained, Shows;
      Ends();
      var bi, j := StartAbove(h);
      while bi != Null
        invariant bi != Null ==> bi.key in bottoms && h <= bi.key * BOTTOM_SZ + j && h < (bi.key + 1) * BOTTOM_SZ
        invariant forall x: nat :: IsUsedHeader(cells, x) && h <= x ==> bi != Null && bi.key * BOTTOM_SZ + j <= x
        decreases if bi == Null then 0 else 1 + last.key - bi.key
      {
        r, j := UpInBottom(h, bi.key, j);
        if r != 0 { return; }
        GoUp(bi.key);
        j, bi := 0, bottoms[bi.key].asc;
      }
      return 0;
    }

    /** Search up for a used block inside one bottom index; a free block may lead out of it. */
    method UpInBottom(h: nat, key: nat, start: nat) returns (r: nat, j: nat)
      requires Valid() && Skips(cells) && !IsHeader(cells, 0)
      requires key in bottoms && h <= key * BOTTOM_SZ + start
      requires forall x: nat :: IsUsedHeader(cells, x) && h <= x ==> key * BOTTOM_SZ + start <= x
      ensures r != 0 ==> h <= r && IsUsedHeader(cells, r) && forall x: nat :: IsUsedHeader(cells, x) ==> x < h || r <= x
      ensures r == 0 ==> forall x: nat :: IsUsedHeader(cells, x) && h <= x ==> (key + 1) * BOTTOM_SZ <= x
    {
      hide Chained, Shows;
      j := start;
      while j < BOTTOM_SZ
        invariant h <= key * BOTTOM_SZ + j
        invariant forall x: nat :: IsUsedHeader(cells, x) && h <= x ==> key * BOTTOM_SZ + j <= x
      {
        CellAt(key, j);
        ghost var at := key * BOTTOM_SZ + j;
        match bottoms[key].index[j]
        case Nil =>
          assert !IsUsedHeader(cells, at);
          j := j + 1;
        case Jump(_) =>
          assert !IsUsedHeader(cells, at);
          j := j + 1;
        case Header(hdr) =>
          assert IsHeader(cells, at);
          if !hdr.free {
            return key * BOTTOM_SZ + j, j;
          }
          j := j + hdr.sz / HBLKSIZE;
      }
      r := 0;
    }

    /** The place in the bottom indices from which to search up for h. */
    method StartAbove(h: nat) returns (bi: Link, j: nat)
      requires Valid()
      ensures bi != Null ==> bi.key in bottoms && h <= bi.key * BOTTOM_SZ + j && h < (bi.key + 1) * BOTTOM_SZ
      ensures forall x: nat :: IsUsedHeader(cells, x) && h <= x ==> bi != Null && bi.key * BOTTOM_SZ + j <= x
    {
      hide Chained, Shows;
      var hi := h / BOTTOM_SZ;
      if hi in bottoms {
        return To(hi), h % BOTTOM_SZ;
      }
      Ends();
      bi, j := first, 0;
      while bi != Null && bi.key < hi
        invariant bi != Null ==> bi.key in bottoms && bi.key != hi
        invariant forall x :: x in cells && h <= x ==> bi != Null && bi.key * BOTTOM_SZ <= x
        decreases if bi == Null then 0 else 1 + last.key - bi.key
      {
        GoUp(bi.key);
        bi := bottoms[bi.key].asc;
      }
    }

    /** Visit all allocated blocks; visited lists the calls of the visitor in order. */
    method ApplyToAllBlocks() returns (visited: seq<nat>)
      requires Valid() && Skips(cells)
      ensures forall x: nat :: x in visited <==> IsUsedHeader(cells, x)
      ensures Distinct(visited)
    {
      hide Chained, Shows;
      Ends();
      visited := [];
      var bi := first;
      while bi != Null
        invariant bi != Null ==> bi.key in bottoms
        invariant forall x: nat :: x in visited <==> IsUsedHeader(cells, x) && (bi == Null || x < bi.key * BOTTOM_SZ)
        invariant Distinct(visited)
        decreases if bi == Null then 0 else 1 + last.key - bi.key
      {
        var part := ApplyToBottom(bi.key);
        DistinctConcat(visited, part);
        GoUp(bi.key);
        visited, bi := visited + part, bottoms[bi.key].asc;
      }
    }

    /** The inner loop of the visit: one bottom index, from its end to its start. */
    method ApplyToBottom(key: nat) returns (visited: seq<nat>)
      requires Valid() && Skips(cells) && key in bottoms
      ensures forall x: nat :: x in visited <==> IsUsedHeader(cells, x) && key * BOTTOM_SZ <= x < (key + 1) * BOTTOM_SZ
      ensures Distinct(visited)
    {
      hide Chained, Shows;
      visited := [];
      var j: int := BOTTOM_SZ - 1;
      while 0 <= j
        invariant j < BOTTOM_SZ
        invariant forall x: nat :: x in visited <==>
          IsUsedHeader(cells, x) && key * BOTTOM_SZ <= x < (key + 1) * BOTTOM_SZ && key * BOTTOM_SZ + j < x
        invariant Distinct(visited)
      {
        CellAt(key, j);
        ghost var at := key * BOTTOM_SZ + j;
        match bottoms[key].index[j]
        case Nil =>
          assert !IsHeader(cells, at);
          j := j - 1;
        case Jump(n) =>
          assert cells[at].Jump?;
          j := j - n;
        case Header(hdr) =>
          assert IsHeader(cells, at);
          if !hdr.free {
            DistinctConcat(visited, [key * BOTTOM_SZ + j]);
            visited := visited + [key * BOTTOM_SZ + j];
          }
          j := j - 1;
      }
    }
  }
}

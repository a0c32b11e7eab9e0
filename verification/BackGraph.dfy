/** The backward graph of the heap: for each object its predecessors, and the length of the longest chain of
    predecessors. */
module BackGraphs {
  import opened Sequences

  const MAX_IN: nat := 10

  /** Objects; 0 is the null pointer. */
  type Obj = nat

  /** No predecessor, a single one, or a structure with many. */
  datatype BackPtr = Null | One(q: Obj) | Many(be: nat)

  datatype Height = Unknown | InProgress | Known(h: nat)

  /** A structure, or a continuation of one, of which only the edges and the link are used; link 0 is null. */
  datatype BackEdges = BackEdges(nEdges: nat, heightGcNo: nat, height: Height, edges: seq<Obj>, cont: nat)

  type Structs = map<nat, BackEdges>

  // ----- predecessors as sequences -----

  /** The structures of a chain are linked, and all but the last are full. */
  ghost predicate ChainShown(structs: Structs, chain: seq<nat>, n: nat) {
    && chain != [] && Distinct(chain)
    && (forall i :: 0 <= i < |chain| ==> chain[i] != 0 && chain[i] in structs && |structs[chain[i]].edges| == MAX_IN)
    && (forall i :: 0 <= i < |chain| - 1 ==> structs[chain[i]].cont == chain[i + 1])
    && structs[chain[|chain| - 1]].cont == 0
    && MAX_IN * (|chain| - 1) <= n <= MAX_IN * |chain| && (|chain| > 1 ==> MAX_IN * (|chain| - 1) < n)
  }

  /** Edge i lies in the chunk i / MAX_IN. */
  ghost predicate EdgeShown(structs: Structs, chain: seq<nat>, i: nat, q: Obj) {
    i / MAX_IN < |chain| && chain[i / MAX_IN] in structs && |structs[chain[i / MAX_IN]].edges| == MAX_IN
    && structs[chain[i / MAX_IN]].edges[i % MAX_IN] == q
  }

  /** The back pointer holds these predecessors, in this order. */
  ghost predicate Shown(ptr: BackPtr, structs: Structs, chain: seq<nat>, preds: seq<Obj>) {
    match ptr
    case Null => preds == [] && chain == []
    case One(q) => preds == [q] && chain == []
    case Many(be) =>
      && ChainShown(structs, chain, |preds|) && chain[0] == be && structs[be].nEdges == |preds|
      && forall i: nat :: i < |preds| ==> EdgeShown(structs, chain, i, preds[i])
  }

  /** The store: back pointers, structures, and for the proofs the predecessors and the chains. */
  datatype Store = Store(ptrs: map<Obj, BackPtr>, structs: Structs, preds: map<Obj, seq<Obj>>,
    chains: map<Obj, seq<nat>>)

  ghost predicate ObjShown(s: Store, p: Obj) {
    && p in s.ptrs && p in s.preds && p in s.chains && Shown(s.ptrs[p], s.structs, s.chains[p], s.preds[p])
    && Distinct(s.preds[p])
  }

  ghost predicate Uses(s: Store, p: Obj, id: nat) {
    p in s.chains && id in s.chains[p]
  }

  ghost predicate Apart(s: Store) {
    forall p, q, id :: Uses(s, p, id) && Uses(s, q, id) ==> p == q
  }

  ghost predicate StoreValid(s: Store) {
    && s.ptrs.Keys == s.preds.Keys == s.chains.Keys && 0 !in s.structs
    && (forall p :: p in s.ptrs ==> ObjShown(s, p))
    && Apart(s)
  }

  // ----- heights -----

  /** The relation is acyclic: predecessors are objects of lower rank. */
  ghost predicate Acyclic(preds: map<Obj, seq<Obj>>, rank: map<Obj, nat>) {
    preds.Keys <= rank.Keys
      && forall p, i :: p in preds && 0 <= i < |preds[p]| ==> preds[p][i] in preds && rank[preds[p][i]] < rank[p]
  }

  /** Predecessors are objects of the graph. */
  ghost predicate Closed(preds: map<Obj, seq<Obj>>) {
    forall p, i :: p in preds && 0 <= i < |preds[p]| ==> preds[p][i] in preds
  }

  /** The least height of p: the one saved from the last collection, and at least 1. */
  function Start(saved: map<Obj, nat>, p: Obj): (h: nat)
    ensures 1 <= h
  {
    if p in saved && 1 < saved[p] then saved[p] else 1
  }

  /** The least height of p, or one more than the greatest height of the first n predecessors. */
  ghost function Longest(preds: map<Obj, seq<Obj>>, rank: map<Obj, nat>, saved: map<Obj, nat>, p: Obj, n: nat): (h: nat)
    requires Acyclic(preds, rank) && p in preds && n <= |preds[p]|
    ensures 1 <= h
    decreases rank[p], n
  {
    if n == 0 then Start(saved, p)
    else
      var q := preds[p][n - 1];
      var a, b := Longest(preds, rank, saved, p, n - 1), Longest(preds, rank, saved, q, |preds[q]|) + 1;
      if a < b then b else a
  }

  ghost function HeightOf(preds: map<Obj, seq<Obj>>, rank: map<Obj, nat>, saved: map<Obj, nat>, p: Obj): nat
    requires Acyclic(preds, rank) && p in preds
  {
    Longest(preds, rank, saved, p, |preds[p]|)
  }

  /** A chain of objects, each a predecessor of the next, that ends at p. */
  ghost predicate IsChain(preds: map<Obj, seq<Obj>>, c: seq<Obj>, p: Obj) {
    && c != [] && c[|c| - 1] == p
    && forall i: nat :: i < |c| - 1 ==> Precedes(preds, c, i)
  }

  predicate Precedes(preds: map<Obj, seq<Obj>>, c: seq<Obj>, i: nat)
    requires i < |c| - 1
  {
    c[i + 1] in preds && c[i] in preds[c[i + 1]]
  }

  /** The length of a chain, counted from the least height of its first object: without saved heights, the number of
      its objects. */
  function Length(saved: map<Obj, nat>, c: seq<Obj>): nat
    requires c != []
  {
    Start(saved, c[0]) + |c| - 1
  }

  /** Some chain that ends at p has length h. */
  ghost predicate Attained(preds: map<Obj, seq<Obj>>, saved: map<Obj, nat>, p: Obj, h: nat) {
    exists c :: IsChain(preds, c, p) && Length(saved, c) == h
  }

  lemma AttainedSelf(preds: map<Obj, seq<Obj>>, saved: map<Obj, nat>, p: Obj)
    ensures Attained(preds, saved, p, Start(saved, p))
  {
    assert IsChain(preds, [p], p) && Length(saved, [p]) == Start(saved, p);
  }

  lemma AttainedNext(preds: map<Obj, seq<Obj>>, saved: map<Obj, nat>, p: Obj, q: Obj, h: nat)
    requires Attained(preds, saved, q, h) && p in preds && q in preds[p]
    ensures Attained(preds, saved, p, h + 1)
  {
    var d :| IsChain(preds, d, q) && Length(saved, d) == h;
    var c := d + [p];
    forall i: nat | i < |c| - 1 ensures Precedes(preds, c, i) {
      assert i < |d| - 1 ==> Precedes(preds, d, i);
    }
    assert IsChain(preds, c, p) && Length(saved, c) == h + 1;
  }

  /** No chain that ends at an object of an acyclic graph is longer than its height. */
  lemma {:induction false} HeightIsLongest(preds: map<Obj, seq<Obj>>, rank: map<Obj, nat>, saved: map<Obj, nat>, p: Obj,
                                           c: seq<Obj>)
    requires Acyclic(preds, rank) && p in preds && IsChain(preds, c, p)
    ensures Length(saved, c) <= HeightOf(preds, rank, saved, p)
    decreases |c|
  {
    if |c| > 1 {
      var q, d := c[|c| - 2], c[..|c| - 1];
      assert Precedes(preds, c, |c| - 2);
      var i :| 0 <= i < |preds[p]| && preds[p][i] == q;
      forall i: nat | i < |d| - 1 ensures Precedes(preds, d, i) {
        assert Precedes(preds, c, i);
      }
      HeightIsLongest(preds, rank, saved, q, d);
      LongestGrows(preds, rank, saved, p, i, |preds[p]|);
    } else {
      LongestStarts(preds, rank, saved, p, |preds[p]|);
    }
  }

  lemma {:induction false} LongestGrows(preds: map<Obj, seq<Obj>>, rank: map<Obj, nat>, saved: map<Obj, nat>, p: Obj,
                                        i: nat, n: nat)
    requires Acyclic(preds, rank) && p in preds && i < n <= |preds[p]|
    ensures preds[p][i] in preds && HeightOf(preds, rank, saved, preds[p][i]) < Longest(preds, rank, saved, p, n)
    decreases n
  {
    if i < n - 1 {
      LongestGrows(preds, rank, saved, p, i, n - 1);
    }
  }

  lemma {:induction false} LongestStarts(preds: map<Obj, seq<Obj>>, rank: map<Obj, nat>, saved: map<Obj, nat>, p: Obj,
                                         n: nat)
    requires Acyclic(preds, rank) && p in preds && n <= |preds[p]|
    ensures Start(saved, p) <= Longest(preds, rank, saved, p, n)
    decreases n
  {
    if n > 0 {
      LongestStarts(preds, rank, saved, p, n - 1);
    }
  }

  /** And there is a chain of that length. */
  lemma {:induction false} ChainOfHeight(preds: map<Obj, seq<Obj>>, rank: map<Obj, nat>, saved: map<Obj, nat>, p: Obj,
                                         n: nat)
    requires Acyclic(preds, rank) && p in preds && n <= |preds[p]|
    ensures Attained(preds, saved, p, Longest(preds, rank, saved, p, n))
    decreases rank[p], n
  {
    if n == 0 {
      AttainedSelf(preds, saved, p);
    } else {
      var q := preds[p][n - 1];
      ChainOfHeight(preds, rank, saved, p, n - 1);
      ChainOfHeight(preds, rank, saved, q, |preds[q]|);
      AttainedNext(preds, saved, p, q, HeightOf(preds, rank, saved, q));
    }
  }

  /** A height that the search may find for p after n predecessors: the length of some chain that ends at p, and in an
      acyclic graph of the longest one over these predecessors. */
  ghost predicate FoundUpTo(preds: map<Obj, seq<Obj>>, rank: map<Obj, nat>, saved: map<Obj, nat>, p: Obj, n: nat,
                            h: nat)
    requires p in preds && n <= |preds[p]|
  {
    1 <= h && Attained(preds, saved, p, h) && (Acyclic(preds, rank) ==> h == Longest(preds, rank, saved, p, n))
  }

  ghost predicate Found(preds: map<Obj, seq<Obj>>, rank: map<Obj, nat>, saved: map<Obj, nat>, p: Obj, h: nat)
    requires p in preds
  {
    FoundUpTo(preds, rank, saved, p, |preds[p]|, h)
  }

  lemma FoundStart(preds: map<Obj, seq<Obj>>, rank: map<Obj, nat>, saved: map<Obj, nat>, p: Obj)
    requires p in preds
    ensures FoundUpTo(preds, rank, saved, p, 0, Start(saved, p))
  {
    AttainedSelf(preds, saved, p);
  }

  /** The next predecessor, which has been found to have height h, or is met again with height 0. */
  lemma FoundNext(preds: map<Obj, seq<Obj>>, rank: map<Obj, nat>, saved: map<Obj, nat>, p: Obj, n: nat, result: nat,
                  h: nat)
    requires p in preds && n < |preds[p]| && preds[p][n] in preds && FoundUpTo(preds, rank, saved, p, n, result)
    requires Found(preds, rank, saved, preds[p][n], h) || (h == 0 && !Acyclic(preds, rank))
    ensures FoundUpTo(preds, rank, saved, p, n + 1, if result <= h then h + 1 else result)
  {
    hide Acyclic;
    if result <= h {
      AttainedNext(preds, saved, p, preds[p][n], h);
    }
  }

  // ----- changes to the store -----

  /** Edges and links are the same; heights may differ. */
  predicate SameLinks(e: BackEdges, f: BackEdges) {
    e.nEdges == f.nEdges && e.edges == f.edges && e.cont == f.cont
  }

  /** The structures that p uses have the same edges and links. */
  ghost predicate SameFor(s: Store, structs: Structs, p: Obj) {
    forall id :: Uses(s, p, id) && id in s.structs ==> id in structs && SameLinks(s.structs[id], structs[id])
  }

  lemma ShownFrame(s: Store, t: Store, p: Obj)
    requires ObjShown(s, p) && SameFor(s, t.structs, p)
    requires p in t.ptrs && p in t.preds && p in t.chains && t.ptrs[p] == s.ptrs[p] && t.preds[p] == s.preds[p]
    requires t.chains[p] == s.chains[p]
    ensures ObjShown(t, p)
  {
    hide Distinct;
    if s.ptrs[p].Many? {
      var chain, preds := s.chains[p], s.preds[p];
      forall i | 0 <= i < |chain| ensures chain[i] in t.structs && SameLinks(s.structs[chain[i]], t.structs[chain[i]]) {
        assert Uses(s, p, chain[i]);
      }
      forall i: nat | i < |preds| ensures EdgeShown(t.structs, chain, i, preds[i]) {
        assert EdgeShown(s.structs, chain, i, preds[i]);
      }
    }
  }

  /** One object changes, with structures that no other object uses. */
  lemma OneChanges(s: Store, t: Store, p: Obj)
    requires StoreValid(s) && p in s.ptrs && ObjShown(t, p) && 0 !in t.structs
    requires t.ptrs == s.ptrs[p := t.ptrs[p]] && t.preds == s.preds[p := t.preds[p]]
    requires t.chains == s.chains[p := t.chains[p]]
    requires forall q :: q in s.ptrs && q != p ==> SameFor(s, t.structs, q)
    requires forall id, q :: Uses(t, p, id) && Uses(s, q, id) ==> p == q
    ensures StoreValid(t)
  {
    hide ObjShown, SameFor;
    forall q | q in t.ptrs ensures ObjShown(t, q) {
      if q != p {
        ShownFrame(s, t, q);
      }
    }
    forall a, b, id | Uses(t, a, id) && Uses(t, b, id) ensures a == b {
      assert a != p ==> Uses(s, a, id);
      assert b != p ==> Uses(s, b, id);
    }
  }

  /** A single predecessor. */
  lemma SetOne(s: Store, p: Obj, q: Obj)
    requires StoreValid(s) && p in s.ptrs && s.ptrs[p] == Null
    ensures p in s.preds && s.preds[p] == []
    ensures StoreValid(s.(ptrs := s.ptrs[p := One(q)], preds := s.preds[p := [q]], chains := s.chains[p := []]))
  {
    assert ObjShown(s, p);
    var t := s.(ptrs := s.ptrs[p := One(q)], preds := s.preds[p := [q]], chains := s.chains[p := []]);
    forall x | x in s.ptrs && x != p ensures SameFor(s, t.structs, x) {
    }
    OneChanges(s, t, p);
  }

  /** An unused structure. */
  ghost predicate Unused(s: Store, id: nat) {
    id != 0 && forall p :: !Uses(s, p, id)
  }

  /** A new structure takes the place of a back pointer to no predecessor or to a single one. */
  lemma StructSet(s: Store, p: Obj, id: nat, e: BackEdges)
    requires StoreValid(s) && p in s.ptrs && !s.ptrs[p].Many? && Unused(s, id)
    requires p in s.preds && |e.edges| == MAX_IN && e.cont == 0 && e.nEdges == |s.preds[p]|
    requires s.preds[p] != [] ==> e.edges[0] == s.preds[p][0]
    ensures StoreValid(s.(ptrs := s.ptrs[p := Many(id)], structs := s.structs[id := e], chains := s.chains[p := [id]]))
  {
    assert ObjShown(s, p);
    var t := s.(ptrs := s.ptrs[p := Many(id)], structs := s.structs[id := e], chains := s.chains[p := [id]]);
    forall i: nat | i < |t.preds[p]| ensures EdgeShown(t.structs, [id], i, t.preds[p][i]) {
      assert i == 0;
    }
    forall x | x in s.ptrs && x != p ensures SameFor(s, t.structs, x) {
    }
    assert t.preds == s.preds[p := t.preds[p]];
    OneChanges(s, t, p);
  }

  lemma ChainAt(s: Store, p: Obj)
    requires StoreValid(s) && p in s.ptrs && s.ptrs[p].Many?
    ensures p in s.preds && p in s.chains && Shown(s.ptrs[p], s.structs, s.chains[p], s.preds[p])
    ensures Distinct(s.preds[p])
    ensures ChainShown(s.structs, s.chains[p], |s.preds[p]|)
  {
    assert ObjShown(s, p);
  }

  /** The structures after one more edge has been written to the last chunk. */
  ghost predicate EdgeWritten(structs: Structs, chain: seq<nat>, n: nat, q: Obj, structs': Structs) {
    && chain != [] && MAX_IN * (|chain| - 1) <= n < MAX_IN * |chain|
    && (forall id :: id in structs && id !in chain ==> id in structs' && structs'[id] == structs[id])
    && (forall i: nat :: i < |chain| ==> ChunkSame(structs, structs', chain, i, n, q))
    && chain[0] in structs' && structs'[chain[0]].nEdges == n + 1
  }

  ghost predicate ChunkSame(structs: Structs, structs': Structs, chain: seq<nat>, i: nat, n: nat, q: Obj)
    requires i < |chain| && MAX_IN * (|chain| - 1) <= n < MAX_IN * |chain|
  {
    chain[i] in structs && chain[i] in structs' && structs'[chain[i]].cont == structs[chain[i]].cont
      && |structs[chain[i]].edges| == MAX_IN
    && structs'[chain[i]].edges == if i == |chain| - 1 then structs[chain[i]].edges[n - MAX_IN * (|chain| - 1) := q]
      else structs[chain[i]].edges
  }

  lemma EdgeWrittenShown(structs: Structs, chain: seq<nat>, preds: seq<Obj>, be: nat, q: Obj, structs': Structs)
    requires Shown(Many(be), structs, chain, preds) && EdgeWritten(structs, chain, |preds|, q, structs')
    ensures Shown(Many(be), structs', chain, preds + [q])
  {
    hide Distinct;
    var n := |preds|;
    forall i | 0 <= i < |chain|
      ensures chain[i] in structs' && |structs'[chain[i]].edges| == MAX_IN
      ensures structs'[chain[i]].cont == structs[chain[i]].cont
    {
      assert ChunkSame(structs, structs', chain, i, n, q);
    }
    forall i: nat | i < n + 1 ensures EdgeShown(structs', chain, i, (preds + [q])[i]) {
      assert ChunkSame(structs, structs', chain, i / MAX_IN, n, q);
      if i < n {
        assert EdgeShown(structs, chain, i, preds[i]);
      }
    }
  }

  /** One more edge in the last chunk. */
  lemma EdgeAdded(s: Store, p: Obj, q: Obj, t: Store)
    requires StoreValid(s) && p in s.ptrs && s.ptrs[p].Many? && p in s.preds && p in s.chains && q !in s.preds[p]
    requires EdgeWritten(s.structs, s.chains[p], |s.preds[p]|, q, t.structs) && 0 !in t.structs
    requires t == s.(structs := t.structs, preds := s.preds[p := s.preds[p] + [q]])
    ensures StoreValid(t)
  {
    hide Apart, Shown, EdgeWritten;
    ChainAt(s, p);
    EdgeWrittenShown(s.structs, s.chains[p], s.preds[p], s.ptrs[p].be, q, t.structs);
    WrittenElsewhere(s.structs, s.chains[p], |s.preds[p]|, q, t.structs);
    OthersUntouched(s, p, t.structs);
    UsersApart(s);
    forall y, x | Uses(t, p, y) && Uses(s, x, y) ensures p == x {
      assert Uses(s, p, y);
    }
    OneChanges(s, t, p);
  }

  lemma WrittenElsewhere(structs: Structs, chain: seq<nat>, n: nat, q: Obj, structs': Structs)
    requires EdgeWritten(structs, chain, n, q, structs')
    ensures forall id :: id in structs && id !in chain ==> id in structs' && structs'[id] == structs[id]
  {
  }

  lemma UsersApart(s: Store)
    requires StoreValid(s)
    ensures forall p, q, id :: Uses(s, p, id) && Uses(s, q, id) ==> p == q
  {
  }

  /** Structures outside the chain of p have not changed. */
  lemma OthersUntouched(s: Store, p: Obj, structs: Structs)
    requires StoreValid(s) && p in s.chains
    requires forall id :: id in s.structs && id !in s.chains[p] ==> id in structs && structs[id] == s.structs[id]
    ensures forall x :: x in s.ptrs && x != p ==> SameFor(s, structs, x)
  {
    hide ObjShown;
    forall x | x in s.ptrs && x != p ensures SameFor(s, structs, x) {
      forall id | Uses(s, x, id) && id in s.structs ensures id in structs && structs[id] == s.structs[id] {
        assert id in s.chains[p] ==> Uses(s, p, id);
      }
    }
  }

  /** The structures after a new chunk with one edge has been linked to a full chain. */
  ghost predicate ChunkLinked(structs: Structs, chain: seq<nat>, id: nat, q: Obj, structs': Structs) {
    && chain != [] && id in structs' && |structs'[id].edges| == MAX_IN && structs'[id].edges[0] == q
    && structs'[id].cont == 0
    && (forall x :: x in structs && x !in chain && x != id ==> x in structs' && structs'[x] == structs[x])
    && (forall i: nat :: i < |chain| ==> LinkSame(structs, structs', chain, i, id))
    && chain[0] in structs' && structs'[chain[0]].nEdges == MAX_IN * |chain| + 1
  }

  ghost predicate LinkSame(structs: Structs, structs': Structs, chain: seq<nat>, i: nat, id: nat)
    requires i < |chain|
  {
    chain[i] in structs && chain[i] in structs' && structs'[chain[i]].edges == structs[chain[i]].edges
    && structs'[chain[i]].cont == if i == |chain| - 1 then id else structs[chain[i]].cont
  }

  lemma ChunkLinkedShown(structs: Structs, chain: seq<nat>, preds: seq<Obj>, be: nat, id: nat, q: Obj,
                         structs': Structs)
    requires Shown(Many(be), structs, chain, preds) && ChunkLinked(structs, chain, id, q, structs')
    requires |preds| == MAX_IN * |chain|
    requires id != 0 && id !in chain
    ensures Shown(Many(be), structs', chain + [id], preds + [q])
  {
    var n, chain' := |preds|, chain + [id];
    forall i | 0 <= i < |chain| ensures chain[i] in structs' && |structs'[chain[i]].edges| == MAX_IN
      && chain'[i] == chain[i] && structs'[chain[i]].edges == structs[chain[i]].edges
      ensures structs'[chain[i]].cont == if i == |chain| - 1 then id else structs[chain[i]].cont {
      assert LinkSame(structs, structs', chain, i, id);
    }
    assert Distinct(chain');
    hide Distinct;
    forall i: nat | i < n + 1 ensures EdgeShown(structs', chain', i, (preds + [q])[i]) {
      if i < n {
        assert EdgeShown(structs, chain, i, preds[i]);
      }
    }
  }

  /** A new chunk at the end of a full chain. */
  lemma ChunkAdded(s: Store, p: Obj, id: nat, q: Obj, t: Store)
    requires StoreValid(s) && p in s.ptrs && s.ptrs[p].Many? && p in s.preds && p in s.chains && Unused(s, id)
    requires q !in s.preds[p]
    requires |s.preds[p]| == MAX_IN * |s.chains[p]| && ChunkLinked(s.structs, s.chains[p], id, q, t.structs)
    requires 0 !in t.structs
    requires t ==
      s.(structs := t.structs, preds := s.preds[p := s.preds[p] + [q]], chains := s.chains[p := s.chains[p] + [id]])
    ensures StoreValid(t)
  {
    hide Apart, Shown, ChunkLinked;
    ChainAt(s, p);
    NotInChain(s, p, id);
    ChunkLinkedShown(s.structs, s.chains[p], s.preds[p], s.ptrs[p].be, id, q, t.structs);
    LinkedElsewhere(s.structs, s.chains[p], id, q, t.structs);
    forall x | x in s.ptrs && x != p ensures SameFor(s, t.structs, x) {
      ApartFrom(s, p, x);
    }
    UsersApart(s);
    forall y, x | Uses(t, p, y) && Uses(s, x, y) ensures p == x {
      assert y != id ==> Uses(s, p, y);
    }
    OneChanges(s, t, p);
  }

  lemma NotInChain(s: Store, p: Obj, id: nat)
    requires Unused(s, id) && p in s.chains
    ensures id !in s.chains[p]
  {
    assert id in s.chains[p] ==> Uses(s, p, id);
  }

  lemma LinkedElsewhere(structs: Structs, chain: seq<nat>, id: nat, q: Obj, structs': Structs)
    requires ChunkLinked(structs, chain, id, q, structs')
    ensures forall x :: x in structs && x !in chain && x != id ==> x in structs' && structs'[x] == structs[x]
  {
  }

  lemma ApartFrom(s: Store, p: Obj, x: Obj)
    requires StoreValid(s) && p in s.chains && x != p
    ensures forall id :: Uses(s, x, id) ==> id !in s.chains[p]
  {
    forall id | Uses(s, x, id) ensures id !in s.chains[p] {
      assert id in s.chains[p] ==> Uses(s, p, id);
    }
  }

  // ----- unused structures -----

  /** The free list: linked structures that no object uses. */
  ghost predicate FreeShown(s: Store, free: seq<nat>, avail: nat) {
    && Distinct(free) && avail == (if free == [] then 0 else free[0])
    && forall i: nat :: i < |free| ==> FreeAt(s, free, i)
  }

  ghost predicate FreeAt(s: Store, free: seq<nat>, i: nat)
    requires i < |free|
  {
    Unused(s, free[i]) && free[i] in s.structs && |s.structs[free[i]].edges| == MAX_IN
    && s.structs[free[i]].cont == if i == |free| - 1 then 0 else free[i + 1]
  }

  /** Structures are numbered from 1 to n. */
  ghost predicate Numbered(s: Store, n: nat) {
    (forall id :: id in s.structs ==> 1 <= id <= n) && forall p, id :: Uses(s, p, id) ==> id in s.structs
  }

  lemma TakeFree(s: Store, free: seq<nat>, avail: nat, e: BackEdges)
    requires FreeShown(s, free, avail) && free != []
    ensures avail in s.structs && Unused(s, avail) && avail !in free[1..]
    ensures FreeShown(s.(structs := s.structs[avail := e]), free[1..], s.structs[avail].cont)
    ensures Unused(s.(structs := s.structs[avail := e]), avail)
  {
    assert FreeAt(s, free, 0);
    var t := s.(structs := s.structs[avail := e]);
    assert forall p :: Uses(t, p, avail) <==> Uses(s, p, avail);
    forall i: nat | i < |free| - 1 ensures FreeAt(t, free[1..], i) {
      assert FreeAt(s, free, i + 1);
      var id := free[i + 1];
      assert forall p :: Uses(t, p, id) <==> Uses(s, p, id);
    }
  }

  lemma HeadFree(s: Store, free: seq<nat>, avail: nat)
    requires FreeShown(s, free, avail) && avail != 0
    ensures free != [] && avail in s.structs && |s.structs[avail].edges| == MAX_IN
  {
    assert FreeAt(s, free, 0);
  }

  lemma NumberedSet(s: Store, n: nat, m: nat, id: nat, e: BackEdges)
    requires Numbered(s, n) && n <= m && 1 <= id <= m
    ensures Numbered(s.(structs := s.structs[id := e]), m)
  {
    var t := s.(structs := s.structs[id := e]);
    assert forall p, x :: Uses(t, p, x) <==> Uses(s, p, x);
  }

  /** The free list stays when structures off it change and their users take none from it. */
  lemma FreeFrame(s: Store, t: Store, free: seq<nat>, avail: nat)
    requires FreeShown(s, free, avail)
    requires forall id :: id in free && id in s.structs ==> id in t.structs && t.structs[id] == s.structs[id]
    requires forall p, id :: Uses(t, p, id) && id in free ==> exists q :: Uses(s, q, id)
    ensures FreeShown(t, free, avail)
  {
    forall i: nat | i < |free| ensures FreeAt(t, free, i) {
      assert FreeAt(s, free, i) && free[i] in free;
    }
  }

  lemma StructuresOff(s: Store, free: seq<nat>, avail: nat, p: Obj)
    requires FreeShown(s, free, avail) && p in s.chains
    ensures forall i :: 0 <= i < |s.chains[p]| ==> s.chains[p][i] !in free
  {
    forall i | 0 <= i < |s.chains[p]| ensures s.chains[p][i] !in free {
      assert Uses(s, p, s.chains[p][i]);
      forall j: nat | j < |free| ensures free[j] != s.chains[p][i] {
        assert FreeAt(s, free, j);
      }
    }
  }

  // ----- heights that have been computed -----

  /** The recorded heights: saved from the last collection, being computed for one of the busy objects, or found. Only
      objects with a structure have saved heights. */
  ghost predicate HeightsFit(s: Store, rank: map<Obj, nat>, saved: map<Obj, nat>, gcNo: nat, busy: set<Obj>) {
    && (forall p :: p in s.ptrs && p in s.preds && s.ptrs[p].Many? && s.ptrs[p].be in s.structs ==>
      HeightFits(s, rank, saved, gcNo, busy, p))
    && (forall p :: p in s.ptrs && p in saved ==> s.ptrs[p].Many?)
  }

  ghost predicate HeightFits(s: Store, rank: map<Obj, nat>, saved: map<Obj, nat>, gcNo: nat, busy: set<Obj>, p: Obj)
    requires p in s.ptrs && p in s.preds && s.ptrs[p].Many? && s.ptrs[p].be in s.structs
  {
    var e := s.structs[s.ptrs[p].be];
    match e.height
    case Unknown => p !in busy && p !in saved
    case InProgress => p in busy
    case Known(h) =>
      p !in busy && if e.heightGcNo == gcNo then Found(s.preds, rank, saved, p, h) else p in saved && saved[p] == h
  }

  /** The objects on the stack of the search: with a structure they are busy, otherwise they are in progress. */
  ghost predicate Stacked(ptrs: map<Obj, BackPtr>, busy: set<Obj>, stack: seq<Obj>) {
    (forall q :: q in busy ==> q in ptrs && ptrs[q].Many?) && (forall q :: q in stack ==> q in ptrs && ptrs[q].One?)
  }

  /** In an acyclic graph these objects are above p. */
  ghost predicate AllAbove(preds: map<Obj, seq<Obj>>, rank: map<Obj, nat>, busy: set<Obj>, stack: seq<Obj>, p: Obj) {
    Acyclic(preds, rank) ==> forall q :: q in busy || q in stack ==> q in rank && p in rank && rank[p] < rank[q]
  }

  /** The objects that the search can still visit. */
  ghost function Unvisited(ptrs: map<Obj, BackPtr>, busy: set<Obj>, stack: seq<Obj>): set<Obj> {
    set p | p in ptrs && p !in busy && p !in stack
  }

  lemma FewerUnvisited(ptrs: map<Obj, BackPtr>, busy: set<Obj>, stack: seq<Obj>, p: Obj)
    requires p in ptrs && p !in busy && p !in stack
    ensures |Unvisited(ptrs, busy + {p}, stack)| < |Unvisited(ptrs, busy, stack)|
    ensures |Unvisited(ptrs, busy, stack + [p])| < |Unvisited(ptrs, busy, stack)|
  {
    assert Unvisited(ptrs, busy + {p}, stack) == Unvisited(ptrs, busy, stack) - {p};
    assert Unvisited(ptrs, busy, stack + [p]) == Unvisited(ptrs, busy, stack) - {p};
  }

  /** The objects above p, and p itself, are above its predecessors. */
  lemma AboveNext(preds: map<Obj, seq<Obj>>, rank: map<Obj, nat>, busy: set<Obj>, stack: seq<Obj>, p: Obj, n: nat)
    requires AllAbove(preds, rank, busy, stack, p) && p in preds && n < |preds[p]|
    ensures AllAbove(preds, rank, busy + {p}, stack, preds[p][n])
    ensures AllAbove(preds, rank, busy, stack + [p], preds[p][n])
  {
    var q := preds[p][n];
    if Acyclic(preds, rank) {
      assert q in rank && p in rank && rank[q] < rank[p];
    }
  }

  lemma NotStacked(preds: map<Obj, seq<Obj>>, rank: map<Obj, nat>, busy: set<Obj>, stack: seq<Obj>, p: Obj)
    requires AllAbove(preds, rank, busy, stack, p) && (p in busy || p in stack)
    ensures !Acyclic(preds, rank)
  {
  }

  /** Only heights have changed. */
  ghost predicate SameGraph(s: Store, t: Store) {
    && t.ptrs == s.ptrs && t.preds == s.preds && t.chains == s.chains && t.structs.Keys == s.structs.Keys
    && forall id :: id in s.structs ==> SameLinks(s.structs[id], t.structs[id])
  }

  lemma SameGraphTrans(s: Store, t: Store, u: Store)
    requires SameGraph(s, t) && SameGraph(t, u)
    ensures SameGraph(s, u)
  {
    forall id | id in s.structs ensures SameLinks(s.structs[id], u.structs[id]) {
      assert SameLinks(s.structs[id], t.structs[id]) && SameLinks(t.structs[id], u.structs[id]);
    }
  }

  lemma SameGraphValid(s: Store, t: Store, free: seq<nat>, avail: nat, n: nat)
    requires SameGraph(s, t) && StoreValid(s) && FreeShown(s, free, avail) && Numbered(s, n)
    ensures StoreValid(t) && FreeShown(t, free, avail) && Numbered(t, n)
  {
    hide ObjShown, Distinct;
    assert forall p, x :: Uses(t, p, x) <==> Uses(s, p, x);
    forall p | p in t.ptrs ensures ObjShown(t, p) {
      SameGraphFor(s, t, p);
      ShownFrame(s, t, p);
    }
    forall i: nat | i < |free| ensures FreeAt(t, free, i) {
      assert FreeAt(s, free, i) && SameLinks(s.structs[free[i]], t.structs[free[i]]);
    }
  }

  lemma SameGraphFor(s: Store, t: Store, p: Obj)
    requires SameGraph(s, t)
    ensures SameFor(s, t.structs, p)
  {
  }

  /** The height of one object's structure is set. */
  lemma HeightSet(s: Store, rank: map<Obj, nat>, saved: map<Obj, nat>, gcNo: nat, busy: set<Obj>, p: Obj,
                  e: BackEdges, busy': set<Obj>)
    requires StoreValid(s) && HeightsFit(s, rank, saved, gcNo, busy) && p in s.ptrs && p in s.preds
    requires s.ptrs[p].Many? && s.ptrs[p].be in s.structs
    requires SameLinks(s.structs[s.ptrs[p].be], e) && busy' - {p} == busy - {p}
    requires match e.height case Unknown => false case InProgress => p in busy'
      case Known(h) => p !in busy' && e.heightGcNo == gcNo && Found(s.preds, rank, saved, p, h)
    ensures var t := s.(structs := s.structs[s.ptrs[p].be := e]);
      SameGraph(s, t) && HeightsFit(t, rank, saved, gcNo, busy')
  {
    hide Found;
    var t := s.(structs := s.structs[s.ptrs[p].be := e]);
    forall q | q in t.ptrs && q in t.preds && t.ptrs[q].Many? && t.ptrs[q].be in t.structs
      ensures HeightFits(t, rank, saved, gcNo, busy', q)
    {
      if q != p {
        assert HeightFits(s, rank, saved, gcNo, busy, q);
        OwnStructs(s, p, q);
        assert q in busy' <==> q in busy' - {p};
        assert q in busy <==> q in busy - {p};
      }
    }
  }

  lemma OwnStructs(s: Store, p: Obj, q: Obj)
    requires StoreValid(s) && p in s.ptrs && q in s.ptrs && p != q && s.ptrs[p].Many? && s.ptrs[q].Many?
    ensures s.ptrs[p].be != s.ptrs[q].be
  {
    ChainAt(s, p);
    ChainAt(s, q);
    assert Uses(s, p, s.chains[p][0]) && Uses(s, q, s.chains[q][0]);
  }

  class BackGraph {
    var ptrs: map<Obj, BackPtr>
    var structs: Structs
    // avail_back_edges and GC_n_back_edge_structs
    var avail: nat
    var nStructs: nat
    var gcNo: nat
    var inProgress: seq<Obj>
    var luckyCount: nat
    // The predecessors, the structures each object uses, and the unused ones.
    ghost var preds: map<Obj, seq<Obj>>
    ghost var chains: map<Obj, seq<nat>>
    ghost var free: seq<nat>

    ghost function Now(): Store
      reads this
    {
      Store(ptrs, structs, preds, chains)
    }

    ghost predicate Valid()
      reads this
    {
      StoreValid(Now()) && FreeShown(Now(), free, avail) && Numbered(Now(), nStructs)
    }

    /** No edges between the given objects. */
    constructor (objs: set<Obj>)
      ensures Valid() && preds == map p | p in objs :: []
      ensures inProgress == []
    {
      ptrs, structs, avail, nStructs, gcNo, inProgress, luckyCount := map p | p in objs :: Null, map[], 0, 0, 0, [], 13;
      preds, chains, free := map p | p in objs :: [], map p | p in objs :: [], [];
      new;
      forall p | p in objs ensures ObjShown(Now(), p) {
      }
    }

    /** A structure for new use: from the free list, or one never used before (new_back_edges). */
    method NewBackEdges() returns (id: nat)
      requires Valid()
      modifies this`structs, this`avail, this`nStructs, this`free
      ensures Valid() && Unused(Now(), id) && id !in free && id in structs && |structs[id].edges| == MAX_IN
      ensures structs[id].cont == 0
      ensures forall x :: x in old(structs) && x != id ==> x in structs && structs[x] == old(structs)[x]
    {
      hide StoreValid, FreeShown, Numbered, Unused, Distinct;
      ghost var s := Now();
      if avail != 0 {
        HeadFree(s, free, avail);
        id := avail;
        var e := structs[id].(cont := 0);
        TakeFree(s, free, avail, e);
        UnusedFrame(s, id, e);
        NumberedHas(s, nStructs, id);
        NumberedSet(s, nStructs, nStructs, id, e);
        avail := structs[id].cont;
        free := free[1..];
        structs := structs[id := e];
        return;
      }
      FreshUnused(s, nStructs);
      FreeEmpty(s, free);
      nStructs := nStructs + 1;
      id := nStructs;
      var e := BackEdges(0, 0, Unknown, seq(MAX_IN, _ => 0), 0);
      UnusedFrame(s, id, e);
      NumberedSet(s, nStructs - 1, nStructs, id, e);
      EmptyFree(s.(structs := s.structs[id := e]));
      structs := structs[id := e];
    }

    lemma NumberedHas(s: Store, n: nat, id: nat)
      requires Numbered(s, n) && id in s.structs
      ensures 1 <= id <= n
    {
    }

    lemma EmptyFree(s: Store)
      ensures FreeShown(s, [], 0)
    {
    }

    lemma FreeEmpty(s: Store, free: seq<nat>)
      requires FreeShown(s, free, 0)
      ensures free == []
    {
      assert free != [] ==> FreeAt(s, free, 0);
    }

    lemma FreshUnused(s: Store, n: nat)
      requires Numbered(s, n)
      ensures Unused(s, n + 1) && n + 1 !in s.structs
    {
      var id := n + 1;
      forall p ensures !Uses(s, p, id) {
      }
    }

    /** What an unused structure holds does not matter. */
    lemma UnusedFrame(s: Store, id: nat, e: BackEdges)
      requires StoreValid(s) && Unused(s, id)
      ensures StoreValid(s.(structs := s.structs[id := e])) && Unused(s.(structs := s.structs[id := e]), id)
    {
      var t := s.(structs := s.structs[id := e]);
      hide ObjShown;
      forall p | p in t.ptrs ensures ObjShown(t, p) {
        SameWithout(s, id, e, p);
        ShownFrame(s, t, p);
      }
      assert forall p, x :: Uses(t, p, x) <==> Uses(s, p, x);
      forall p, q, x | Uses(t, p, x) && Uses(t, q, x) ensures p == q {
        assert Uses(s, p, x) && Uses(s, q, x);
      }
    }

    lemma SameWithout(s: Store, id: nat, e: BackEdges, p: Obj)
      requires Unused(s, id)
      ensures SameFor(s, s.structs[id := e], p)
    {
    }

    /** Put the structures of p at the front of the free list (deallocate_back_edges); p has no predecessors
        any more. */
    method DeallocateBackEdges(p: Obj)
      requires Valid() && p in ptrs && ptrs[p].Many?
      modifies this
      ensures Valid() && ptrs == old(ptrs)[p := Null] && preds == old(preds)[p := []]
      ensures free == old(chains)[p] + old(free)
    {
      hide StoreValid, FreeShown, Numbered, Distinct;
      ghost var s := Now();
      ChainAt(s, p);
      ghost var chain, before := chains[p], free;
      ghost var i := 0;
      var be := ptrs[p].be;
      var last := be;
      while structs[last].cont != 0
        invariant i < |chain| && last == chain[i] && last in structs
        invariant i < |chain| - 1 ==> structs[last].cont == chain[i + 1] != 0
        decreases |chain| - i
      {
        i := i + 1;
        last := structs[last].cont;
      }
      structs := structs[last := structs[last].(cont := avail)];
      avail := be;
      ptrs := ptrs[p := Null];
      preds, chains, free := preds[p := []], chains[p := []], chain + free;
      Deallocated(s, Now(), before, old(avail), p, last, nStructs);
    }

    lemma Deallocated(s: Store, t: Store, free: seq<nat>, avail: nat, p: Obj, last: nat, n: nat)
      requires StoreValid(s) && FreeShown(s, free, avail) && Numbered(s, n) && p in s.ptrs && s.ptrs[p].Many?
      requires p in s.chains
      requires s.chains[p] != [] && last == s.chains[p][|s.chains[p]| - 1] && last in s.structs
      requires t ==
        Store(s.ptrs[p := Null], s.structs[last := s.structs[last].(cont := avail)], s.preds[p := []],
          s.chains[p := []])
      ensures StoreValid(t) && FreeShown(t, s.chains[p] + free, s.ptrs[p].be) && Numbered(t, n)
    {
      hide ChainShown, EdgeShown, Distinct;
      ChainAt(s, p);
      forall q | q in s.ptrs && q != p ensures SameFor(s, t.structs, q) {
        ApartFrom(s, p, q);
      }
      EmptyShown(t, p);
      OneChanges(s, t, p);
      forall q, id ensures Uses(t, q, id) <==> Uses(s, q, id) && q != p {
      }
      DeallocatedFree(s, t, free, avail, p, last);
    }

    lemma EmptyShown(t: Store, p: Obj)
      requires p in t.ptrs && t.ptrs[p] == Null && p in t.preds && t.preds[p] == [] && p in t.chains
      requires t.chains[p] == []
      ensures ObjShown(t, p)
    {
    }

    lemma DeallocatedFree(s: Store, t: Store, free: seq<nat>, avail: nat, p: Obj, last: nat)
      requires StoreValid(s) && FreeShown(s, free, avail) && p in s.ptrs && s.ptrs[p].Many? && p in s.chains
      requires s.chains[p] != [] && last == s.chains[p][|s.chains[p]| - 1] && last in s.structs
      requires t.structs == s.structs[last := s.structs[last].(cont := avail)]
      requires forall q, id :: Uses(t, q, id) <==> Uses(s, q, id) && q != p
      ensures FreeShown(t, s.chains[p] + free, s.ptrs[p].be)
    {
      hide EdgeShown, ObjShown, SameFor;
      ChainAt(s, p);
      var chain := s.chains[p];
      var all := chain + free;
      StructuresOff(s, free, avail, p);
      ApartChains(s, t, p);
      forall i: nat | i < |all| ensures FreeAt(t, all, i) {
        if i >= |chain| {
          assert FreeAt(s, free, i - |chain|);
          assert all[i] == free[i - |chain|];
          assert all[i] != last;
        } else {
          assert all[i] == chain[i] && Uses(s, p, chain[i]);
        }
      }
    }

    lemma ApartChains(s: Store, t: Store, p: Obj)
      requires StoreValid(s) && p in s.chains && forall q, id :: Uses(t, q, id) <==> Uses(s, q, id) && q != p
      ensures forall id :: Uses(s, p, id) ==> forall q :: !Uses(t, q, id)
    {
      hide ObjShown;
    }

    // ----- adding edges -----

    /** Make sure that q has a structure (ensure_struct). */
    method EnsureStruct(q: Obj)
      requires Valid() && q in ptrs
      modifies this`ptrs, this`structs, this`avail, this`nStructs, this`chains, this`free
      ensures Valid() && ptrs.Keys == old(ptrs).Keys && ptrs[q].Many? && (old(ptrs)[q].Many? ==> ptrs == old(ptrs))
    {
      hide StoreValid, FreeShown, Numbered, Unused;
      if ptrs[q].Many? { return; }
      var id := NewBackEdges();
      var be := structs[id];
      PredsOf(Now(), q);
      match ptrs[q] {
        case Null => be := be.(nEdges := 0);
        case One(p) => be := be.(nEdges := 1, edges := be.edges[0 := p]);
      }
      be := be.(height := Unknown, heightGcNo := if gcNo == 0 then 0xFFFF else gcNo - 1);
      StructSet(Now(), q, id, be);
      StructKept(Now(), q, id, be, free, avail, nStructs);
      structs := structs[id := be];
      ptrs := ptrs[q := Many(id)];
      chains := chains[q := [id]];
    }

    lemma PredsOf(s: Store, q: Obj)
      requires StoreValid(s) && q in s.ptrs
      ensures q in s.preds && q in s.chains && s.chains.Keys == s.ptrs.Keys == s.preds.Keys && 0 !in s.structs
      ensures s.ptrs[q] == Null ==> s.preds[q] == []
      ensures s.ptrs[q].One? ==> s.preds[q] == [s.ptrs[q].q]
    {
      assert ObjShown(s, q);
    }

    /** A structure off the free list gets a user. */
    lemma StructKept(s: Store, q: Obj, id: nat, e: BackEdges, free: seq<nat>, avail: nat, n: nat)
      requires StoreValid(s) && FreeShown(s, free, avail) && Numbered(s, n) && id !in free && id in s.structs
      requires q in s.chains
      ensures var t := s.(ptrs := s.ptrs[q := Many(id)], structs := s.structs[id := e], chains := s.chains[q := [id]]);
        FreeShown(t, free, avail) && Numbered(t, n)
    {
      hide StoreValid, FreeShown;
      var t := s.(ptrs := s.ptrs[q := Many(id)], structs := s.structs[id := e], chains := s.chains[q := [id]]);
      forall p, x | Uses(t, p, x) ensures Uses(s, p, x) || x == id {
      }
      FreeFrame(s, t, free, avail);
    }

    /** Is p among the predecessors of q (the first use of FOR_EACH_PRED in add_edge)? */
    method HasPred(p: Obj, q: Obj) returns (r: bool)
      requires Valid() && q in ptrs && ptrs[q] != Null
      ensures q in preds && (r <==> p in preds[q])
    {
      hide StoreValid, FreeShown, Numbered, Distinct, ChainShown;
      PredsOf(Now(), q);
      match ptrs[q] {
        case One(x) => return p == x;
        case Many(be) =>
          ManyFacts(Now(), q);
          var be_, local, total, n := be, 0, 0, structs[be].nEdges;
          ghost var chunk := 0;
          while total < n
            invariant total <= n && total == MAX_IN * chunk + local && local <= MAX_IN && chunk < |chains[q]|
            invariant be_ == chains[q][chunk]
            invariant p !in preds[q][..total]
          {
            NextChunk(Now(), q, chunk, local, total);
            if local == MAX_IN {
              be_ := structs[be_].cont;
              local, chunk := 0, chunk + 1;
            }
            EdgeFacts(Now(), q, chunk, local, total);
            assert preds[q][..total + 1] == preds[q][..total] + [preds[q][total]];
            if structs[be_].edges[local] == p { return true; }
            local, total := local + 1, total + 1;
          }
          assert preds[q][..total] == preds[q];
          return false;
      }
    }

    lemma ManyFacts(s: Store, q: Obj)
      requires StoreValid(s) && q in s.ptrs && s.ptrs[q].Many?
      ensures q in s.preds && q in s.chains && s.chains[q] != [] && s.chains[q][0] == s.ptrs[q].be
      ensures s.ptrs[q].be in s.structs
      ensures s.structs[s.ptrs[q].be].nEdges == |s.preds[q]|
      ensures MAX_IN * (|s.chains[q]| - 1) <= |s.preds[q]| <= MAX_IN * |s.chains[q]|
      ensures forall i :: 0 <= i < |s.chains[q]| ==>
        s.chains[q][i] in s.structs && |s.structs[s.chains[q][i]].edges| == MAX_IN
    {
      ChainAt(s, q);
    }

    /** Where the walk goes on when a chunk has been used up. */
    lemma NextChunk(s: Store, q: Obj, chunk: nat, local: nat, total: nat)
      requires StoreValid(s) && q in s.ptrs && s.ptrs[q].Many? && q in s.preds && q in s.chains && total < |s.preds[q]|
      requires total == MAX_IN * chunk + local && local <= MAX_IN && chunk < |s.chains[q]|
      ensures s.chains[q][chunk] in s.structs
      ensures local == MAX_IN ==>
        chunk + 1 < |s.chains[q]| && s.structs[s.chains[q][chunk]].cont == s.chains[q][chunk + 1]
    {
      ChainAt(s, q);
    }

    lemma EdgeFacts(s: Store, q: Obj, chunk: nat, local: nat, total: nat)
      requires StoreValid(s) && q in s.ptrs && s.ptrs[q].Many? && q in s.preds && q in s.chains && total < |s.preds[q]|
      requires total == MAX_IN * chunk + local && local < MAX_IN && chunk < |s.chains[q]|
      ensures s.chains[q][chunk] in s.structs && |s.structs[s.chains[q][chunk]].edges| == MAX_IN
      ensures s.structs[s.chains[q][chunk]].edges[local] == s.preds[q][total]
    {
      ChainAt(s, q);
      assert total / MAX_IN == chunk && total % MAX_IN == local;
      assert EdgeShown(s.structs, s.chains[q], total, s.preds[q][total]);
    }

    /** Add the edge from p to q to the graph, once; edges of objects without debug information are ignored
        (add_edge). */
    method AddEdge(p: Obj, q: Obj, debugInfo: bool)
      requires Valid() && q in ptrs
      modifies this`ptrs, this`structs, this`avail, this`nStructs, this`preds, this`chains, this`free, this`luckyCount
      ensures Valid() && q in old(preds) && ptrs.Keys == old(ptrs).Keys
      ensures preds == if debugInfo && p !in old(preds)[q] then old(preds)[q := old(preds)[q] + [p]] else old(preds)
    {
      hide StoreValid, FreeShown, Numbered, Unused, EdgeWritten, ChunkLinked, Distinct;
      PredsOf(Now(), q);
      if !debugInfo { return; }
      if ptrs[q] == Null {
        SetOne(Now(), q, p);
        OneKept(Now(), q, p, free, avail, nStructs);
        ptrs, preds, chains := ptrs[q := One(p)], preds[q := [p]], chains[q := []];
        assert old(preds)[q] + [p] == [p];
        luckyCount := luckyCount + 1;
        if luckyCount % 128 == 0 {
          EnsureStruct(q);
        }
        return;
      }
      var found := HasPred(p, q);
      if found { return; }
      EnsureStruct(q);
      AppendEdge(p, q);
    }

    lemma OneKept(s: Store, q: Obj, p: Obj, free: seq<nat>, avail: nat, n: nat)
      requires StoreValid(s) && FreeShown(s, free, avail) && Numbered(s, n) && q in s.chains
      ensures var t := s.(ptrs := s.ptrs[q := One(p)], preds := s.preds[q := [p]], chains := s.chains[q := []]);
        FreeShown(t, free, avail) && Numbered(t, n)
    {
      hide StoreValid, FreeShown;
      var t := s.(ptrs := s.ptrs[q := One(p)], preds := s.preds[q := [p]], chains := s.chains[q := []]);
      forall y, x | Uses(t, y, x) ensures Uses(s, y, x) {
      }
      FreeFrame(s, t, free, avail);
    }

    /** Write the edge behind the last one, in a new chunk if the last is full. */
    method AppendEdge(p: Obj, q: Obj)
      requires Valid() && q in ptrs && ptrs[q].Many? && q in preds && p !in preds[q]
      modifies this`structs, this`avail, this`nStructs, this`preds, this`chains, this`free
      ensures Valid() && preds == old(preds)[q := old(preds)[q] + [p]]
    {
      hide StoreValid, FreeShown, Numbered, Unused, EdgeWritten, ChunkLinked, Distinct, ChainShown;
      ManyFacts(Now(), q);
      var be := ptrs[q].be;
      var beCont, i := be, structs[be].nEdges;
      ghost var chunk := 0;
      while MAX_IN < i
        invariant Valid() && ptrs == old(ptrs) && preds == old(preds) && q in preds && q in chains
        invariant ptrs[q].be == be && be in structs && chains[q] != [] && chains[q][0] == be
        invariant structs[be].nEdges == |preds[q]|
        invariant 0 <= i && i + MAX_IN * chunk == |preds[q]| && chunk < |chains[q]| && beCont == chains[q][chunk]
        decreases i
      {
        NextChunk(Now(), q, chunk, MAX_IN, MAX_IN * (chunk + 1));
        beCont, i, chunk := structs[beCont].cont, i - MAX_IN, chunk + 1;
      }
      if i == MAX_IN {
        LastChunk(Now(), q, chunk);
        var id := NewBackEdges();
        ManyFacts(Now(), q);
        ghost var s := Now();
        structs := structs[beCont := structs[beCont].(cont := id)];
        structs := structs[id := structs[id].(edges := structs[id].edges[0 := p])];
        structs := structs[be := structs[be].(nEdges := structs[be].nEdges + 1)];
        preds, chains := preds[q := preds[q] + [p]], chains[q := chains[q] + [id]];
        LinkedChunk(s, Now(), q, id, p, free, avail, nStructs);
      } else {
        LastChunkPart(Now(), q, chunk, i);
        ManyFacts(Now(), q);
        ghost var s := Now();
        structs := structs[beCont := structs[beCont].(edges := structs[beCont].edges[i := p])];
        structs := structs[be := structs[be].(nEdges := structs[be].nEdges + 1)];
        preds := preds[q := preds[q] + [p]];
        WrittenEdge(s, Now(), q, p, i, free, avail, nStructs);
      }
    }

    lemma LastChunk(s: Store, q: Obj, chunk: nat)
      requires StoreValid(s) && q in s.ptrs && s.ptrs[q].Many? && q in s.preds && q in s.chains && chunk < |s.chains[q]|
      requires |s.preds[q]| == MAX_IN * (chunk + 1)
      ensures chunk == |s.chains[q]| - 1
    {
      ChainAt(s, q);
    }

    lemma LastChunkPart(s: Store, q: Obj, chunk: nat, i: nat)
      requires StoreValid(s) && q in s.ptrs && s.ptrs[q].Many? && q in s.preds && q in s.chains && chunk < |s.chains[q]|
      requires |s.preds[q]| == MAX_IN * chunk + i && i < MAX_IN
      ensures chunk == |s.chains[q]| - 1
    {
      ChainAt(s, q);
    }

    lemma WrittenEdge(s: Store, t: Store, q: Obj, p: Obj, i: nat, free: seq<nat>, avail: nat, n: nat)
      requires StoreValid(s) && FreeShown(s, free, avail) && Numbered(s, n) && q in s.ptrs && s.ptrs[q].Many?
      requires q in s.preds && q in s.chains && p !in s.preds[q]
      requires s.chains[q] != [] && |s.preds[q]| == MAX_IN * (|s.chains[q]| - 1) + i && i < MAX_IN
      requires var last, be := s.chains[q][|s.chains[q]| - 1], s.ptrs[q].be;
        last in s.structs && |s.structs[last].edges| == MAX_IN && be in s.structs
        && (var mid := s.structs[last := s.structs[last].(edges := s.structs[last].edges[i := p])];
            t == s.(structs := mid[be := mid[be].(nEdges := mid[be].nEdges + 1)],
              preds := s.preds[q := s.preds[q] + [p]]))
      ensures StoreValid(t) && FreeShown(t, free, avail) && Numbered(t, n)
    {
      hide EdgeWritten, FreeShown, StoreValid, Numbered, Distinct;
      EdgeIsWritten(s, t.structs, q, p, i);
      WrittenElsewhere(s.structs, s.chains[q], |s.preds[q]|, p, t.structs);
      PredsOf(s, q);
      NotNull(s, n, t.structs);
      EdgeAdded(s, q, p, t);
      StructuresOff(s, free, avail, q);
      forall x, id | Uses(t, x, id) ensures Uses(s, x, id) {
      }
      UsesKnown(s, n);
      FreeFrame(s, t, free, avail);
      NumberedFrame(s, t, n);
    }

    lemma NotNull(s: Store, n: nat, structs: Structs)
      requires Numbered(s, n) && structs.Keys == s.structs.Keys
      ensures 0 !in structs
    {
    }

    lemma NumberedFrame(s: Store, t: Store, n: nat)
      requires Numbered(s, n) && t.structs.Keys == s.structs.Keys
      requires forall p, id :: Uses(t, p, id) ==> id in s.structs
      ensures Numbered(t, n)
    {
    }

    lemma EdgeIsWritten(s: Store, structs: Structs, q: Obj, p: Obj, i: nat)
      requires StoreValid(s) && q in s.ptrs && s.ptrs[q].Many? && q in s.preds && q in s.chains
      requires s.chains[q] != [] && |s.preds[q]| == MAX_IN * (|s.chains[q]| - 1) + i && i < MAX_IN
      requires var last, be := s.chains[q][|s.chains[q]| - 1], s.ptrs[q].be;
        last in s.structs && |s.structs[last].edges| == MAX_IN && be in s.structs
        && (var mid := s.structs[last := s.structs[last].(edges := s.structs[last].edges[i := p])];
            structs == mid[be := mid[be].(nEdges := mid[be].nEdges + 1)])
      ensures EdgeWritten(s.structs, s.chains[q], |s.preds[q]|, p, structs)
    {
      hide EdgeShown, Apart, Distinct, ObjShown;
      ChainAt(s, q);
      var chain := s.chains[q];
      forall k: nat | k < |chain| ensures ChunkSame(s.structs, structs, chain, k, |s.preds[q]|, p) {
        LastOnly(chain, k);
      }
    }

    lemma LastOnly(chain: seq<nat>, k: nat)
      requires Distinct(chain) && k < |chain|
      ensures chain[k] == chain[|chain| - 1] ==> k == |chain| - 1
    {
    }

    lemma LinkedChunk(s: Store, t: Store, q: Obj, id: nat, p: Obj, free: seq<nat>, avail: nat, n: nat)
      requires StoreValid(s) && FreeShown(s, free, avail) && Numbered(s, n) && q in s.ptrs && s.ptrs[q].Many?
      requires q in s.preds && q in s.chains && p !in s.preds[q]
      requires Unused(s, id) && id !in free && id in s.structs && |s.structs[id].edges| == MAX_IN
      requires s.structs[id].cont == 0
      requires s.chains[q] != [] && |s.preds[q]| == MAX_IN * |s.chains[q]|
      requires var last, be := s.chains[q][|s.chains[q]| - 1], s.ptrs[q].be;
        last in s.structs && be in s.structs
        && (var a := s.structs[last := s.structs[last].(cont := id)];
            var b := a[id := a[id].(edges := a[id].edges[0 := p])];
            t == s.(structs := b[be := b[be].(nEdges := b[be].nEdges + 1)], preds := s.preds[q := s.preds[q] + [p]],
              chains := s.chains[q := s.chains[q] + [id]]))
      ensures StoreValid(t) && FreeShown(t, free, avail) && Numbered(t, n)
    {
      hide ChunkLinked, FreeShown, StoreValid, Numbered, Distinct, Unused;
      ChunkIsLinked(s, t.structs, q, id, p);
      LinkedElsewhere(s.structs, s.chains[q], id, p, t.structs);
      PredsOf(s, q);
      NotNull(s, n, t.structs);
      ChunkAdded(s, q, id, p, t);
      StructuresOff(s, free, avail, q);
      forall x, y | Uses(t, x, y) ensures Uses(s, x, y) || y == id {
      }
      FreeFrame(s, t, free, avail);
      UsesKnown(s, n);
      NumberedFrame(s, t, n);
    }

    lemma UsesKnown(s: Store, n: nat)
      requires Numbered(s, n)
      ensures forall p, id :: Uses(s, p, id) ==> id in s.structs
    {
    }

    lemma ChunkIsLinked(s: Store, structs: Structs, q: Obj, id: nat, p: Obj)
      requires StoreValid(s) && q in s.ptrs && s.ptrs[q].Many? && q in s.preds && q in s.chains
      requires Unused(s, id) && id in s.structs && |s.structs[id].edges| == MAX_IN && s.structs[id].cont == 0
      requires s.chains[q] != [] && |s.preds[q]| == MAX_IN * |s.chains[q]|
      requires var last, be := s.chains[q][|s.chains[q]| - 1], s.ptrs[q].be;
        last in s.structs && be in s.structs
        && (var a := s.structs[last := s.structs[last].(cont := id)];
            var b := a[id := a[id].(edges := a[id].edges[0 := p])];
            structs == b[be := b[be].(nEdges := b[be].nEdges + 1)])
      ensures ChunkLinked(s.structs, s.chains[q], id, p, structs)
    {
      hide EdgeShown, Apart, Distinct, ObjShown, Unused;
      ChainAt(s, q);
      NotInChain(s, q, id);
      var chain := s.chains[q];
      forall k: nat | k < |chain| ensures LinkSame(s.structs, structs, chain, k, id) {
        LastOnly(chain, k);
      }
    }

    // ----- heights -----

    /** The length of the longest chain of predecessors that ends at p (backwards_height), as far as a depth-first
        search finds it. The objects of the search are marked, or pushed on inProgress; 0 is returned for these. */
    method BackwardsHeight(p: Obj, ghost rank: map<Obj, nat>, ghost saved: map<Obj, nat>, ghost busy: set<Obj>)
      returns (result: nat)
      requires Valid() && p in ptrs && Closed(preds) && HeightsFit(Now(), rank, saved, gcNo, busy)
      requires Stacked(ptrs, busy, inProgress) && AllAbove(preds, rank, busy, inProgress, p)
      modifies this`structs, this`inProgress
      ensures Valid() && SameGraph(old(Now()), Now()) && HeightsFit(Now(), rank, saved, gcNo, busy)
      ensures inProgress == old(inProgress) && p in preds
      ensures if p in busy || p in inProgress then result == 0 else Found(preds, rank, saved, p, result)
      decreases |Unvisited(ptrs, busy, inProgress)|, 1
    {
      hide StoreValid, FreeShown, Numbered, Acyclic, HeightsFit, SameGraph, SameLinks, ChainShown, Distinct, Found;
      hide AllAbove, Closed, Stacked, Unvisited, Start;
      result := 0;
      PredsOf(Now(), p);
      SameGraphSelf(Now());
      StackedAt(ptrs, busy, inProgress, p);
      match ptrs[p] {
        case Null =>
          NoPreds(Now(), rank, saved, gcNo, busy, p);
          return 1;
        case One(q) =>
          var found := IsInProgress(p);
          if found { return; }
          FewerUnvisited(ptrs, busy, inProgress, p);
          AboveNext(preds, rank, busy, inProgress, p, 0);
          StackedNext(ptrs, busy, inProgress, p);
          PredKnown(Now(), p, 0);
          inProgress := inProgress + [p];
          result := BackwardsHeight(q, rank, saved, busy);
          OnePred(Now(), rank, saved, gcNo, busy, inProgress, p, q, result);
          result := result + 1;
          inProgress := inProgress[..|inProgress| - 1];
        case Many(be) =>
          ManyFacts(Now(), p);
          HeightAt(Now(), rank, saved, gcNo, busy, p);
          var e := structs[be];
          if e.height.Known? && e.heightGcNo == gcNo { return e.height.h; }
          if e.height == InProgress { return; }
          var start := if e.height.Known? && e.height.h > 0 then e.height.h else 1;
          ghost var s := Now();
          e := e.(height := InProgress);
          SameLinksHeight(structs[be], InProgress, e.heightGcNo);
          HeightSet(s, rank, saved, gcNo, busy, p, e, busy + {p});
          SameGraphValid(s, s.(structs := s.structs[be := e]), free, avail, nStructs);
          FewerUnvisited(ptrs, busy, inProgress, p);
          structs := structs[be := e];
          result := MaxOverPreds(p, start, rank, saved, busy);
          ManyFacts(Now(), p);
          ghost var t := Now();
          e := structs[be].(height := Known(result), heightGcNo := gcNo);
          SameLinksHeight(structs[be], Known(result), gcNo);
          HeightSet(t, rank, saved, gcNo, busy + {p}, p, e, busy);
          SameGraphValid(t, t.(structs := t.structs[be := e]), free, avail, nStructs);
          structs := structs[be := e];
          SameGraphTrans(s, s.(structs := s.structs[be := s.structs[be].(height := InProgress)]), t);
          SameGraphTrans(s, t, Now());
      }
    }

    /** The loop over the predecessors of p (FOR_EACH_PRED). */
    method MaxOverPreds(p: Obj, start: nat, ghost rank: map<Obj, nat>, ghost saved: map<Obj, nat>, ghost busy: set<Obj>)
      returns (result: nat)
      requires Valid() && p in ptrs && ptrs[p].Many? && Closed(preds) && start == Start(saved, p)
      requires HeightsFit(Now(), rank, saved, gcNo, busy + {p}) && Stacked(ptrs, busy, inProgress)
      requires AllAbove(preds, rank, busy, inProgress, p)
      modifies this`structs, this`inProgress
      ensures Valid() && SameGraph(old(Now()), Now()) && HeightsFit(Now(), rank, saved, gcNo, busy + {p})
      ensures inProgress == old(inProgress)
      ensures p in preds && Found(preds, rank, saved, p, result)
      decreases |Unvisited(ptrs, busy + {p}, inProgress)|, 2
    {
      hide StoreValid, FreeShown, Numbered, Acyclic, HeightsFit, SameGraph, SameLinks, ChainShown, Distinct, FoundUpTo;
      hide AllAbove, Closed, Stacked, Unvisited, Start;
      ghost var s := Now();
      SameGraphSelf(s);
      ManyFacts(s, p);
      FoundStart(preds, rank, saved, p);
      StackedNext(ptrs, busy, inProgress, p);
      result := start;
      var be_, local, total, n := ptrs[p].be, 0, 0, structs[ptrs[p].be].nEdges;
      ghost var chunk := 0;
      while total < n
        invariant Valid() && SameGraph(s, Now()) && HeightsFit(Now(), rank, saved, gcNo, busy + {p})
        invariant inProgress == old(inProgress)
        invariant ptrs == s.ptrs && preds == s.preds && chains == s.chains
        invariant total <= n == |preds[p]| && total == MAX_IN * chunk + local && local <= MAX_IN && chunk < |chains[p]|
        invariant be_ == chains[p][chunk]
        invariant FoundUpTo(preds, rank, saved, p, total, result)
        decreases n - total
      {
        NextChunk(Now(), p, chunk, local, total);
        if local == MAX_IN {
          be_ := structs[be_].cont;
          local, chunk := 0, chunk + 1;
        }
        EdgeFacts(Now(), p, chunk, local, total);
        var q := structs[be_].edges[local];
        AboveNext(preds, rank, busy, inProgress, p, total);
        PredKnown(Now(), p, total);
        ghost var t := Now();
        var height := BackwardsHeight(q, rank, saved, busy + {p});
        SameGraphTrans(s, t, Now());
        SameGraphParts(t, Now());
        PredFound(preds, rank, saved, busy + {p}, inProgress, p, total, result, height);
        if result <= height {
          result := height + 1;
        }
        local, total := local + 1, total + 1;
      }
    }

    method IsInProgress(p: Obj) returns (r: bool)
      ensures r <==> p in inProgress
    {
      var i := 0;
      while i < |inProgress|
        invariant i <= |inProgress| && p !in inProgress[..i]
      {
        if inProgress[i] == p { return true; }
        i := i + 1;
      }
      return false;
    }

    lemma SameGraphSelf(s: Store)
      ensures SameGraph(s, s)
    {
    }

    lemma SameGraphParts(s: Store, t: Store)
      requires SameGraph(s, t)
      ensures t.ptrs == s.ptrs && t.preds == s.preds && t.chains == s.chains
    {
    }

    lemma SameLinksHeight(e: BackEdges, h: Height, g: nat)
      ensures SameLinks(e, e.(height := h, heightGcNo := g))
    {
    }

    lemma NoPreds(s: Store, rank: map<Obj, nat>, saved: map<Obj, nat>, gcNo: nat, busy: set<Obj>, p: Obj)
      requires HeightsFit(s, rank, saved, gcNo, busy) && p in s.ptrs && s.ptrs[p] == Null
      requires p in s.preds && s.preds[p] == []
      ensures Found(s.preds, rank, saved, p, 1)
    {
      FoundStart(s.preds, rank, saved, p);
    }

    lemma OnePred(s: Store, rank: map<Obj, nat>, saved: map<Obj, nat>, gcNo: nat, busy: set<Obj>, stack: seq<Obj>,
                  p: Obj, q: Obj, h: nat)
      requires HeightsFit(s, rank, saved, gcNo, busy) && p in s.ptrs && s.ptrs[p].One?
      requires p in s.preds && s.preds[p] == [q] && q in s.preds && AllAbove(s.preds, rank, busy, stack, q)
      requires if q in busy || q in stack then h == 0 else Found(s.preds, rank, saved, q, h)
      ensures Found(s.preds, rank, saved, p, h + 1)
    {
      hide Acyclic, Found, FoundUpTo, AllAbove;
      FoundStart(s.preds, rank, saved, p);
      PredFound(s.preds, rank, saved, busy, stack, p, 0, 1, h);
      FoundAll(s.preds, rank, saved, p, if 1 <= h then h + 1 else 1);
    }

    lemma FoundAll(preds: map<Obj, seq<Obj>>, rank: map<Obj, nat>, saved: map<Obj, nat>, p: Obj, h: nat)
      requires p in preds
      ensures Found(preds, rank, saved, p, h) <==> FoundUpTo(preds, rank, saved, p, |preds[p]|, h)
    {
    }

    lemma PredFound(preds: map<Obj, seq<Obj>>, rank: map<Obj, nat>, saved: map<Obj, nat>, busy: set<Obj>,
                    stack: seq<Obj>, p: Obj, n: nat, result: nat, h: nat)
      requires p in preds && n < |preds[p]| && preds[p][n] in preds && FoundUpTo(preds, rank, saved, p, n, result)
      requires var q := preds[p][n];
        AllAbove(preds, rank, busy, stack, q)
        && if q in busy || q in stack then h == 0 else Found(preds, rank, saved, q, h)
      ensures FoundUpTo(preds, rank, saved, p, n + 1, if result <= h then h + 1 else result)
    {
      hide Acyclic, Found, FoundUpTo, AllAbove;
      var q := preds[p][n];
      if q in busy || q in stack {
        NotStacked(preds, rank, busy, stack, q);
      }
      FoundNext(preds, rank, saved, p, n, result, h);
    }

    lemma StackedAt(ptrs: map<Obj, BackPtr>, busy: set<Obj>, stack: seq<Obj>, p: Obj)
      requires Stacked(ptrs, busy, stack) && p in ptrs
      ensures p in busy ==> ptrs[p].Many?
      ensures p in stack ==> ptrs[p].One?
    {
    }

    lemma StackedNext(ptrs: map<Obj, BackPtr>, busy: set<Obj>, stack: seq<Obj>, p: Obj)
      requires Stacked(ptrs, busy, stack) && p in ptrs
      ensures ptrs[p].Many? ==> Stacked(ptrs, busy + {p}, stack)
      ensures ptrs[p].One? ==> Stacked(ptrs, busy, stack + [p])
    {
    }

    lemma PredKnown(s: Store, p: Obj, n: nat)
      requires StoreValid(s) && Closed(s.preds) && p in s.preds && n < |s.preds[p]|
      ensures s.preds[p][n] in s.preds && s.preds[p][n] in s.ptrs
    {
    }

    lemma HeightAt(s: Store, rank: map<Obj, nat>, saved: map<Obj, nat>, gcNo: nat, busy: set<Obj>, p: Obj)
      requires HeightsFit(s, rank, saved, gcNo, busy) && p in s.ptrs && p in s.preds
      requires s.ptrs[p].Many? && s.ptrs[p].be in s.structs
      ensures var e := s.structs[s.ptrs[p].be];
        && (e.height == InProgress <==> p in busy)
        && (e.height == Unknown ==> Start(saved, p) == 1)
        && (e.height.Known? && e.heightGcNo != gcNo ==>
          Start(saved, p) == if e.height.h > 0 then e.height.h else 1)
        && (e.height.Known? && e.heightGcNo == gcNo ==> Found(s.preds, rank, saved, p, e.height.h))
    {
      hide Found;
      assert HeightFits(s, rank, saved, gcNo, busy, p);
    }
  }
}

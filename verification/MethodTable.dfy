/** The method table of a class, built from the table of its base class and its own virtual methods, and the
    resolution of virtual calls with it. */
module MethodTables {
  import opened Sequences
  import opened Options
  import opened Overriding

  /** A virtual slot: the methods that enter it, the one that introduced it, and its implementation. */
  datatype VirtualSlot = VirtualSlot(entries: set<Pair>, newSlotEntry: Pair, implemented: Pair)

  /** An implementation and the derivation level of the class that set it. */
  datatype Impl = Impl(pair: Pair, level: nat)

  type SlotMap = map<string, VirtualSlot>
  type EntryMap = map<Pair, Impl>

  // ----- what a table shows after n classes -----

  ghost predicate SlotHolds(chain: Chain, n: nat, v: VirtualSlot, s: Pair)
    requires n <= |chain|
  {
    && v.newSlotEntry == s && IsImpl(chain, n, s, v.implemented)
    && forall p :: p in v.entries <==> In(chain, n, p) && SlotOf(chain, p) == s
  }

  /** The slot for a signature is the visible one, with all its methods and its implementation. */
  ghost predicate SlotShown(chain: Chain, n: nat, slots: SlotMap, key: string)
    requires n <= |chain|
  {
    && (key in slots <==> VisibleSlot(chain, n, key).Some?)
    && (key in slots ==> SlotHolds(chain, n, slots[key], VisibleSlot(chain, n, key).value))
  }

  ghost predicate EntryShown(chain: Chain, n: nat, entries: EntryMap, p: Pair)
    requires n <= |chain|
  {
    && (p in entries <==> In(chain, n, p))
    && (p in entries ==> IsImpl(chain, n, SlotOf(chain, p), entries[p].pair) && entries[p].level == entries[p].pair.cls)
  }

  /** Every method of that signature is mapped to the most derived method of its slot, hidden slots included. */
  ghost predicate EntriesShown(chain: Chain, n: nat, entries: EntryMap, key: string)
    requires n <= |chain|
  {
    forall p: Pair :: p.met.key == key ==> EntryShown(chain, n, entries, p)
  }

  ghost predicate KeyShown(chain: Chain, n: nat, slots: SlotMap, entries: EntryMap, key: string)
    requires n <= |chain|
  {
    SlotShown(chain, n, slots, key) && EntriesShown(chain, n, entries, key)
  }

  ghost predicate AllShown(chain: Chain, n: nat, slots: SlotMap, entries: EntryMap)
    requires n <= |chain|
  {
    forall key :: KeyShown(chain, n, slots, entries, key)
  }

  /** Method m of class i joined a slot that is still visible at the end of that class. */
  ghost predicate Redirects(chain: Chain, i: nat, m: MethodDef)
    requires i < |chain|
  {
    && m in chain[i] && !m.newSlot && SlotOf(chain, Pair(i, m)) != Pair(i, m)
    && VisibleSlot(chain, i + 1, m.key) == Some(SlotOf(chain, Pair(i, m)))
  }

  /** Such methods, and no others, are redirected to the method that introduced their slot. */
  ghost predicate RedirectionsShown(chain: Chain, n: nat, r: map<MethodDef, Pair>)
    requires n <= |chain|
  {
    && (forall i: nat, m :: i < n && Redirects(chain, i, m) ==> m in r)
    && (forall m :: m in r ==> RedirectedTo(chain, n, m, r[m]))
  }

  ghost predicate RedirectedTo(chain: Chain, n: nat, m: MethodDef, s: Pair)
    requires n <= |chain|
  {
    exists i: nat :: i < n && Redirects(chain, i, m) && s == SlotOf(chain, Pair(i, m))
  }

  /** The reuseslot methods that had no slot to reuse, and introduced one. */
  ghost predicate ConvertedShown(chain: Chain, n: nat, converted: set<MethodDef>)
    requires n <= |chain|
  {
    forall m :: m in converted ==> exists i: nat :: i < n && m in chain[i] && SlotOf(chain, Pair(i, m)) == Pair(i, m)
  }

  // ----- one method -----

  /** The slot of method m of class c, given the slot for its signature in the base table. */
  function SlotFor(c: nat, m: MethodDef, base: Option<VirtualSlot>): VirtualSlot {
    if !m.newSlot && base.Some? then VirtualSlot(base.value.entries + {Pair(c, m)}, base.value.newSlotEntry, Pair(c, m))
    else VirtualSlot({Pair(c, m)}, Pair(c, m), Pair(c, m))
  }

  function Applied(entries: EntryMap, v: VirtualSlot, level: nat): EntryMap {
    entries + map p | p in v.entries :: Impl(v.implemented, level)
  }

  function Get(slots: SlotMap, key: string): Option<VirtualSlot> {
    if key in slots then Some(slots[key]) else None
  }

  ghost predicate Joins(chain: Chain, i: nat, m: MethodDef, s: Pair)
    requires i < |chain|
  {
    m in chain[i] && SlotOf(chain, Pair(i, m)) == s
  }

  /** Some method of class i joins slot s. */
  ghost predicate Taken(chain: Chain, i: nat, s: Pair)
    requires i < |chain|
  {
    exists m :: Joins(chain, i, m, s)
  }

  /** Each entry of class n - 1 or of a slot that it joins gets its method; the others stay. */
  ghost predicate Grows(chain: Chain, n: nat, before: EntryMap, after: EntryMap, p: Pair)
    requires 1 <= n <= |chain|
  {
    if In(chain, n, p) && Taken(chain, n - 1, SlotOf(chain, p)) then
      p in after && after[p].pair.cls == n - 1 == after[p].level
        && Joins(chain, n - 1, after[p].pair.met, SlotOf(chain, p))
    else (p in after <==> p in before) && (p in after ==> after[p] == before[p])
  }

  lemma EntryGrows(chain: Chain, n: nat, before: EntryMap, after: EntryMap, p: Pair)
    requires 1 <= n <= |chain| && Regular(chain) && EntryShown(chain, n - 1, before, p)
    requires Grows(chain, n, before, after, p)
    ensures EntryShown(chain, n, after, p)
  {
    hide Regular, VisibleSlot;
    if In(chain, n, p) {
      forall q | In(chain, n, q) && SlotOf(chain, q) == SlotOf(chain, p)
        ensures q.cls < n - 1 || Taken(chain, n - 1, SlotOf(chain, p))
      {
        assert q.cls == n - 1 ==> Joins(chain, n - 1, q.met, SlotOf(chain, p));
      }
      if p in after && after[p].pair.cls == n - 1 {
        forall q | In(chain, n, q) && SlotOf(chain, q) == SlotOf(chain, p) ensures q.cls < n - 1 || q == after[p].pair {
          if q.cls == n - 1 {
            assert Joins(chain, n - 1, q.met, SlotOf(chain, p));
            OneJoins(chain, n - 1, q.met, after[p].pair.met);
          }
        }
      }
    }
  }

  /** The slot of a method of class n - 1 holds what it should once the method has entered it. */
  lemma SlotForHolds(chain: Chain, n: nat, slots: SlotMap, m: MethodDef)
    requires 1 <= n <= |chain| && Regular(chain) && SlotShown(chain, n - 1, slots, m.key) && m in chain[n - 1]
    ensures SlotHolds(chain, n, SlotFor(n - 1, m, Get(slots, m.key)), SlotOf(chain, Pair(n - 1, m)))
  {
    hide Regular, VisibleSlot;
    var v, s := SlotFor(n - 1, m, Get(slots, m.key)), SlotOf(chain, Pair(n - 1, m));
    VisibleIsSlot(chain, n - 1, m.key);
    forall p | In(chain, n, p) && SlotOf(chain, p) == s
      ensures p in v.entries && (p.cls < n - 1 || p == Pair(n - 1, m))
    {
      SlotFacts(chain, p);
      if p.cls == n - 1 {
        OneJoins(chain, n - 1, p.met, m);
      }
    }
  }

  lemma AppliedTo(entries: EntryMap, v: VirtualSlot, level: nat, p: Pair)
    ensures p in Applied(entries, v, level) <==> p in entries || p in v.entries
    ensures p in Applied(entries, v, level) ==>
      Applied(entries, v, level)[p] == if p in v.entries then Impl(v.implemented, level) else entries[p]
  {
  }

  // ----- one signature -----

  /** A signature without a method in the class is inherited as it is. */
  lemma KeyInherited(chain: Chain, n: nat, slots: SlotMap, entries: EntryMap, key: string)
    requires 1 <= n <= |chain| && Regular(chain) && KeyShown(chain, n - 1, slots, entries, key)
    requires forall m :: m in chain[n - 1] ==> m.key != key
    ensures KeyShown(chain, n, slots, entries, key)
  {
    hide Regular;
    VisibleIsSlot(chain, n - 1, key);
    assert VisibleSlot(chain, n, key) == VisibleSlot(chain, n - 1, key);
    hide VisibleSlot;
    forall p: Pair | p.met.key == key ensures EntryShown(chain, n, entries, p) {
      assert EntryShown(chain, n - 1, entries, p);
      if In(chain, n, p) {
        SlotFacts(chain, p);
        NothingJoins(chain, n, key, SlotOf(chain, p));
      }
      EntryGrows(chain, n, entries, entries, p);
    }
    if VisibleSlot(chain, n, key).Some? {
      var s := VisibleSlot(chain, n, key).value;
      NothingJoins(chain, n, key, s);
      assert SlotHolds(chain, n - 1, slots[key], s);
    }
  }

  lemma NothingJoins(chain: Chain, n: nat, key: string, s: Pair)
    requires 1 <= n <= |chain| && s.met.key == key
    requires forall m :: m in chain[n - 1] ==> m.key != key
    ensures !Taken(chain, n - 1, s)
    ensures forall p :: In(chain, n, p) && SlotOf(chain, p) == s ==> In(chain, n - 1, p)
  {
    hide VisibleSlot;
    var c := n - 1;
    forall m | m in chain[c] ensures !Joins(chain, c, m, s) {
      SlotFacts(chain, Pair(c, m));
    }
  }

  /** The class has one method of a signature. */
  lemma KeyOne(chain: Chain, n: nat, slots: SlotMap, entries: EntryMap, m: MethodDef, slots': SlotMap,
               entries': EntryMap)
    requires 1 <= n <= |chain| && Regular(chain) && KeyShown(chain, n - 1, slots, entries, m.key)
    requires m in chain[n - 1] && forall m' :: m' in chain[n - 1] && m'.key == m.key ==> m' == m
    requires m.key in slots' && slots'[m.key] == SlotFor(n - 1, m, Get(slots, m.key))
    requires forall p: Pair :: p.met.key == m.key ==> SameAt(entries', Applied(entries, slots'[m.key], n - 1), p)
    ensures KeyShown(chain, n, slots', entries', m.key)
  {
    hide Regular, Applied, SlotFor;
    SlotForHolds(chain, n, slots, m);
    assert VisibleSlot(chain, n, m.key) == Some(SlotOf(chain, Pair(n - 1, m)));
    hide VisibleSlot;
    forall p: Pair | p.met.key == m.key ensures EntryShown(chain, n, entries', p) {
      assert EntryShown(chain, n - 1, entries, p);
      AppliedTo(entries, slots'[m.key], n - 1, p);
      OnlyJoins(chain, n, m, p);
      EntryGrows(chain, n, entries, entries', p);
    }
  }

  predicate SameAt(e: EntryMap, e': EntryMap, p: Pair) {
    (p in e <==> p in e') && (p in e ==> e[p] == e'[p])
  }

  /** What it means for p that m is the only method of its signature in class n - 1. */
  lemma OnlyJoins(chain: Chain, n: nat, m: MethodDef, p: Pair)
    requires 1 <= n <= |chain| && p.met.key == m.key && m in chain[n - 1]
    requires forall m' :: m' in chain[n - 1] && m'.key == m.key ==> m' == m
    ensures In(chain, n, p) ==>
      (Taken(chain, n - 1, SlotOf(chain, p)) <==> SlotOf(chain, p) == SlotOf(chain, Pair(n - 1, m)))
    ensures Joins(chain, n - 1, m, SlotOf(chain, Pair(n - 1, m)))
    ensures In(chain, n, p) ==> In(chain, n - 1, p) || p == Pair(n - 1, m)
  {
    hide VisibleSlot;
    if In(chain, n, p) {
      SlotFacts(chain, p);
      var c := n - 1;
      forall m' | Joins(chain, c, m', SlotOf(chain, p)) ensures m' == m {
        SlotFacts(chain, Pair(c, m'));
      }
      assert Joins(chain, c, m, SlotOf(chain, Pair(c, m)));
    }
  }

  /** The class has a reuseslot and a newslot method of a signature: the first enters the slot of the base class,
      or introduces one, and the second introduces a slot that hides it. */
  lemma KeyTwo(chain: Chain, n: nat, slots: SlotMap, entries: EntryMap, r: MethodDef, m: MethodDef, slots': SlotMap,
               entries': EntryMap)
    requires 1 <= n <= |chain| && Regular(chain) && KeyShown(chain, n - 1, slots, entries, m.key)
    requires r in chain[n - 1] && m in chain[n - 1] && r.key == m.key && m.newSlot && !r.newSlot
    requires m.key in slots' && slots'[m.key] == SlotFor(n - 1, m, Get(slots, m.key))
    requires forall p: Pair :: p.met.key == m.key ==>
      SameAt(entries', Applied(Applied(entries, SlotFor(n - 1, r, Get(slots, m.key)), n - 1), slots'[m.key], n - 1), p)
    ensures KeyShown(chain, n, slots', entries', m.key)
  {
    hide Applied, SlotFor, VisibleSlot, Regular;
    SlotForHolds(chain, n, slots, m);
    SlotForHolds(chain, n, slots, r);
    JustTwo(chain, n, r, m);
    var v := SlotFor(n - 1, r, Get(slots, m.key));
    forall p: Pair | p.met.key == m.key ensures EntryShown(chain, n, entries', p) {
      assert EntryShown(chain, n - 1, entries, p);
      AppliedTo(entries, v, n - 1, p);
      AppliedTo(Applied(entries, v, n - 1), slots'[m.key], n - 1, p);
      TwoJoin(chain, n, r, m, p);
      EntryGrows(chain, n, entries, entries', p);
    }
  }

  lemma JustTwo(chain: Chain, n: nat, r: MethodDef, m: MethodDef)
    requires 1 <= n <= |chain| && Regular(chain) && r in chain[n - 1] && m in chain[n - 1] && r.key == m.key
    requires m.newSlot && !r.newSlot
    ensures forall m' :: m' in chain[n - 1] && m'.key == m.key ==> m' == m || m' == r
    ensures SlotOf(chain, Pair(n - 1, r)) != SlotOf(chain, Pair(n - 1, m))
    ensures VisibleSlot(chain, n, m.key) == Some(SlotOf(chain, Pair(n - 1, m)))
  {
    assert OneOfEach(chain[n - 1]);
    VisibleIsSlot(chain, n - 1, r.key);
  }

  lemma TwoJoin(chain: Chain, n: nat, r: MethodDef, m: MethodDef, p: Pair)
    requires 1 <= n <= |chain| && p.met.key == m.key == r.key && r in chain[n - 1] && m in chain[n - 1]
    requires forall m' :: m' in chain[n - 1] && m'.key == m.key ==> m' == m || m' == r
    ensures In(chain, n, p) ==>
      (Taken(chain, n - 1, SlotOf(chain, p)) <==>
        SlotOf(chain, p) == SlotOf(chain, Pair(n - 1, m)) || SlotOf(chain, p) == SlotOf(chain, Pair(n - 1, r)))
    ensures Joins(chain, n - 1, m, SlotOf(chain, Pair(n - 1, m)))
    ensures Joins(chain, n - 1, r, SlotOf(chain, Pair(n - 1, r)))
    ensures In(chain, n, p) ==> In(chain, n - 1, p) || p == Pair(n - 1, m) || p == Pair(n - 1, r)
  {
    hide VisibleSlot;
    if In(chain, n, p) {
      SlotFacts(chain, p);
      var c := n - 1;
      forall m' | Joins(chain, c, m', SlotOf(chain, p)) ensures m' == m || m' == r {
        SlotFacts(chain, Pair(c, m'));
      }
      assert Joins(chain, c, m, SlotOf(chain, Pair(c, m))) && Joins(chain, c, r, SlotOf(chain, Pair(c, r)));
    }
  }

  // ----- redirections -----

  /** The methods that a visible slot adds to the redirections. */
  lemma SlotRedirects(chain: Chain, n: nat, p: Pair, s: Pair)
    requires n <= |chain| && In(chain, n, p) && SlotOf(chain, p) == s && VisibleSlot(chain, n, p.met.key) == Some(s)
    requires p != s
    ensures Redirects(chain, p.cls, p.met)
  {
    SlotFacts(chain, p);
    if VisibleSlot(chain, p.cls + 1, p.met.key) != Some(s) {
      HiddenForever(chain, p.cls + 1, n, s);
    }
  }

  /** A redirected method's slot keeps its name: each method belongs to one class only. */
  lemma RedirectedOnce(chain: Chain, n: nat, m: MethodDef, s: Pair, p: Pair)
    requires n <= |chain| && Regular(chain) && RedirectedTo(chain, n, m, s) && In(chain, n, p) && p.met == m
    ensures s == SlotOf(chain, p) && Redirects(chain, p.cls, m)
  {
  }

  // ----- calls -----

  /** All of the table: the entries, and the redirections. */
  ghost predicate CallsShown(chain: Chain, n: nat, entries: EntryMap, r: map<MethodDef, Pair>)
    requires n <= |chain|
  {
    (forall p: Pair :: EntryShown(chain, n, entries, p)) && RedirectionsShown(chain, n, r)
  }

  /** What the two look-ups of a call find. */
  lemma CallFacts(chain: Chain, n: nat, entries: EntryMap, r: map<MethodDef, Pair>, p: Pair)
    requires n <= |chain| && Regular(chain) && CallsShown(chain, n, entries, r) && In(chain, n, p)
    ensures p in entries && IsImpl(chain, n, SlotOf(chain, p), entries[p].pair)
    ensures p.met in r ==>
      r[p.met] == SlotOf(chain, p) && In(chain, n, r[p.met]) && SlotOf(chain, r[p.met]) == SlotOf(chain, p)
  {
    hide VisibleSlot, Regular;
    assert EntryShown(chain, n, entries, p);
    if p.met in r {
      RedirectedOnce(chain, n, p.met, r[p.met], p);
      SlotFacts(chain, p);
    }
  }

  // ----- the methods of a class by signature -----

  /** The methods of one signature and kind, in order. */
  function Filter(ms: seq<MethodDef>, key: string, newSlot: bool): (r: seq<MethodDef>)
    ensures forall m :: m in r <==> m in ms && m.key == key && m.newSlot == newSlot
  {
    if ms == [] then []
    else
      var rest, m := Filter(ms[..|ms| - 1], key, newSlot), ms[|ms| - 1];
      assert ms == ms[..|ms| - 1] + [m];
      if m.key == key && m.newSlot == newSlot then rest + [m] else rest
  }

  /** The reuseslot and the newslot methods of one signature (ConflictPair). */
  datatype ConflictPair = ConflictPair(reuseSlots: seq<MethodDef>, newSlots: seq<MethodDef>)

  function PairFor(ms: seq<MethodDef>, key: string): ConflictPair {
    ConflictPair(Filter(ms, key, false), Filter(ms, key, true))
  }

  predicate Conflicts(c: ConflictPair) {
    |c.reuseSlots| + |c.newSlots| > 1
  }

  /** Several newslot methods of one signature, and no reuseslot method: there is no slot to apply. */
  predicate NothingToApply(c: ConflictPair) {
    Conflicts(c) && c.reuseSlots == []
  }

  ghost predicate HasKey(ms: seq<MethodDef>, key: string) {
    exists m :: m in ms && m.key == key
  }

  /** The signatures of a class, each with one of its methods, and their conflict pairs. */
  ghost predicate Grouped(ms: seq<MethodDef>, firsts: seq<MethodDef>, pairs: map<string, ConflictPair>) {
    && PairsShown(ms, pairs) && FirstsShown(ms, firsts)
  }

  ghost predicate PairsShown(ms: seq<MethodDef>, pairs: map<string, ConflictPair>) {
    forall k :: (k in pairs <==> HasKey(ms, k)) && (k in pairs ==> pairs[k] == PairFor(ms, k))
  }

  ghost predicate FirstsShown(ms: seq<MethodDef>, firsts: seq<MethodDef>) {
    && (forall k :: HasKey(ms, k) <==> HasKey(firsts, k))
    && (forall m :: m in firsts ==> m in ms)
    && (forall i, j :: 0 <= i < j < |firsts| ==> firsts[i].key != firsts[j].key)
  }

  lemma HasKeyNext(ms: seq<MethodDef>, m: MethodDef, k: string)
    ensures HasKey(ms + [m], k) <==> HasKey(ms, k) || k == m.key
  {
    assert m in ms + [m];
    if HasKey(ms, k) {
      var x :| x in ms && x.key == k;
      assert x in ms + [m];
    }
  }

  lemma FilterNext(ms: seq<MethodDef>, m: MethodDef, k: string)
    ensures Filter(ms + [m], k, m.newSlot) ==
      if m.key == k then Filter(ms, k, m.newSlot) + [m] else Filter(ms, k, m.newSlot)
    ensures Filter(ms + [m], k, !m.newSlot) == Filter(ms, k, !m.newSlot)
  {
    assert (ms + [m])[..|ms|] == ms;
  }

  lemma FilterNone(ms: seq<MethodDef>, k: string)
    requires !HasKey(ms, k)
    ensures PairFor(ms, k) == ConflictPair([], [])
  {
    hide Filter;
    Inhabited(Filter(ms, k, true));
    Inhabited(Filter(ms, k, false));
  }

  lemma Inhabited(s: seq<MethodDef>)
    ensures s == [] || exists f :: f in s
  {
    if s != [] {
      assert s[0] in s;
    }
  }

  /** The pair of m's signature once m is in it. */
  function Added(pairs: map<string, ConflictPair>, m: MethodDef): ConflictPair {
    var c := if m.key in pairs then pairs[m.key] else ConflictPair([], []);
    if m.newSlot then c.(newSlots := c.newSlots + [m]) else c.(reuseSlots := c.reuseSlots + [m])
  }

  lemma PairsNext(ms: seq<MethodDef>, m: MethodDef, pairs: map<string, ConflictPair>)
    requires PairsShown(ms, pairs)
    ensures PairsShown(ms + [m], pairs[m.key := Added(pairs, m)])
  {
    hide Filter, HasKey;
    var pairs' := pairs[m.key := Added(pairs, m)];
    forall k ensures (k in pairs' <==> HasKey(ms + [m], k)) && (k in pairs' ==> pairs'[k] == PairFor(ms + [m], k)) {
      HasKeyNext(ms, m, k);
      FilterNext(ms, m, k);
      if !HasKey(ms, k) {
        FilterNone(ms, k);
      }
    }
  }

  lemma FirstsNext(ms: seq<MethodDef>, m: MethodDef, firsts: seq<MethodDef>)
    requires FirstsShown(ms, firsts)
    ensures FirstsShown(ms + [m], if HasKey(ms, m.key) then firsts else firsts + [m])
  {
    var firsts' := if HasKey(ms, m.key) then firsts else firsts + [m];
    forall i, j | 0 <= i < j < |firsts'| ensures firsts'[i].key != firsts'[j].key {
      assert firsts'[i] in firsts;
      assert HasKey(firsts, firsts'[i].key);
    }
    hide HasKey;
    forall k ensures HasKey(ms + [m], k) <==> HasKey(firsts', k) {
      HasKeyNext(ms, m, k);
      HasKeyNext(firsts, m, k);
    }
  }

  // ----- one class -----

  /** The signatures of the methods done are as after class c, the others as before it. */
  ghost predicate Progress(chain: Chain, c: nat, slots: SlotMap, entries: EntryMap, done: seq<MethodDef>)
    requires c < |chain|
  {
    forall key :: KeyShown(chain, if HasKey(done, key) then c + 1 else c, slots, entries, key)
  }

  /** The signature of m is done. */
  lemma ProgressMade(chain: Chain, c: nat, slots: SlotMap, entries: EntryMap, done: seq<MethodDef>, m: MethodDef,
                     slots': SlotMap, entries': EntryMap)
    requires c < |chain| && Progress(chain, c, slots, entries, done)
    requires m.key in slots' && slots' == slots[m.key := slots'[m.key]]
    requires KeyShown(chain, c + 1, slots', entries', m.key)
    requires forall p: Pair :: p.met.key != m.key ==> SameAt(entries', entries, p)
    ensures Progress(chain, c, slots', entries', done + [m])
  {
    hide HasKey, SlotHolds;
    forall key ensures KeyShown(chain, if HasKey(done + [m], key) then c + 1 else c, slots', entries', key) {
      HasKeyNext(done, m, key);
      var n := if HasKey(done, key) then c + 1 else c;
      assert KeyShown(chain, n, slots, entries, key);
      if key != m.key {
        OtherKey(chain, n, slots, entries, key, slots', entries');
      }
    }
  }

  lemma OtherKey(chain: Chain, n: nat, slots: SlotMap, entries: EntryMap, key: string, slots': SlotMap,
                 entries': EntryMap)
    requires n <= |chain| && KeyShown(chain, n, slots, entries, key)
    requires Get(slots', key) == Get(slots, key) && forall p: Pair :: p.met.key == key ==> SameAt(entries', entries, p)
    ensures KeyShown(chain, n, slots', entries', key)
  {
    hide SlotHolds, IsImpl;
    forall p: Pair | p.met.key == key ensures EntryShown(chain, n, entries', p) {
      assert EntryShown(chain, n, entries, p) && SameAt(entries', entries, p);
    }
  }

  /** A slot's entries have its signature. */
  lemma SlotForKeys(chain: Chain, n: nat, slots: SlotMap, c: nat, m: MethodDef, p: Pair)
    requires n <= |chain| && SlotShown(chain, n, slots, m.key) && p in SlotFor(c, m, Get(slots, m.key)).entries
    ensures p.met.key == m.key
  {
    VisibleIsSlot(chain, n, m.key);
    if In(chain, n, p) {
      SlotFacts(chain, p);
    }
  }

  lemma AppliedElsewhere(chain: Chain, n: nat, slots: SlotMap, entries: EntryMap, c: nat, m: MethodDef)
    requires n <= |chain| && SlotShown(chain, n, slots, m.key)
    ensures forall p: Pair :: p.met.key != m.key ==>
      SameAt(Applied(entries, SlotFor(c, m, Get(slots, m.key)), c), entries, p)
  {
    hide SlotShown, SlotFor, Applied;
    var v := SlotFor(c, m, Get(slots, m.key));
    forall p: Pair | p.met.key != m.key ensures SameAt(Applied(entries, v, c), entries, p) {
      AppliedTo(entries, v, c, p);
      if p in v.entries {
        SlotForKeys(chain, n, slots, c, m, p);
      }
    }
  }

  /** The only method of its signature in class c has been processed. */
  lemma OneProcessed(chain: Chain, c: nat, slots: SlotMap, entries: EntryMap, done: seq<MethodDef>, m: MethodDef)
    requires c < |chain| && Regular(chain) && Progress(chain, c, slots, entries, done) && !HasKey(done, m.key)
    requires m in chain[c] && forall m' :: m' in chain[c] && m'.key == m.key ==> m' == m
    ensures var v := SlotFor(c, m, Get(slots, m.key));
      Progress(chain, c, slots[m.key := v], Applied(entries, v, c), done + [m])
  {
    hide Regular, HasKey, Applied, SlotFor;
    var v := SlotFor(c, m, Get(slots, m.key));
    assert KeyShown(chain, c, slots, entries, m.key);
    KeyOne(chain, c + 1, slots, entries, m, slots[m.key := v], Applied(entries, v, c));
    AppliedElsewhere(chain, c, slots, entries, c, m);
    ProgressMade(chain, c, slots, entries, done, m, slots[m.key := v], Applied(entries, v, c));
  }

  /** A reuseslot and a newslot method of one signature have been processed; m is either. */
  lemma TwoProcessed(chain: Chain, c: nat, slots: SlotMap, entries: EntryMap, done: seq<MethodDef>, r: MethodDef,
                     w: MethodDef, m: MethodDef)
    requires c < |chain| && Regular(chain) && Progress(chain, c, slots, entries, done) && !HasKey(done, m.key)
    requires r in chain[c] && w in chain[c] && r.key == w.key == m.key && w.newSlot && !r.newSlot
    ensures var v, x := SlotFor(c, r, Get(slots, m.key)), SlotFor(c, w, Get(slots, m.key));
      Progress(chain, c, slots[m.key := v][m.key := x], Applied(Applied(Applied(entries, v, c), v, c), x, c),
        done + [m])
  {
    hide Regular, HasKey, Applied, SlotFor;
    var v, x := SlotFor(c, r, Get(slots, m.key)), SlotFor(c, w, Get(slots, m.key));
    assert KeyShown(chain, c, slots, entries, m.key);
    AppliedTwice(entries, v, c);
    var e := Applied(Applied(entries, v, c), x, c);
    KeyTwo(chain, c + 1, slots, entries, r, w, slots[m.key := x], e);
    AppliedElsewhere(chain, c, slots, entries, c, r);
    AppliedElsewhere(chain, c, slots, Applied(entries, v, c), c, w);
    forall p: Pair | p.met.key != m.key ensures SameAt(e, entries, p) {
      assert SameAt(Applied(entries, v, c), entries, p) && SameAt(e, Applied(entries, v, c), p);
    }
    ProgressMade(chain, c, slots, entries, done, m, slots[m.key := x], e);
    assert slots[m.key := v][m.key := x] == slots[m.key := x];
  }

  lemma AppliedTwice(entries: EntryMap, v: VirtualSlot, level: nat)
    ensures Applied(Applied(entries, v, level), v, level) == Applied(entries, v, level)
  {
  }

  lemma ProgressDone(chain: Chain, c: nat, slots: SlotMap, entries: EntryMap, firsts: seq<MethodDef>)
    requires c < |chain| && Regular(chain) && Progress(chain, c, slots, entries, firsts)
    requires FirstsShown(chain[c], firsts)
    ensures AllShown(chain, c + 1, slots, entries)
  {
    hide Regular, SlotShown, EntriesShown;
    var n := c + 1;
    forall key ensures KeyShown(chain, n, slots, entries, key) {
      if !HasKey(firsts, key) {
        assert KeyShown(chain, c, slots, entries, key);
        assert !HasKey(chain[c], key);
        KeyInherited(chain, c + 1, slots, entries, key);
      }
    }
  }

  lemma ProgressStart(chain: Chain, c: nat, slots: SlotMap, entries: EntryMap)
    requires c < |chain| && AllShown(chain, c, slots, entries)
    ensures Progress(chain, c, slots, entries, [])
  {
    hide KeyShown;
  }

  lemma EmptyShown(chain: Chain)
    ensures AllShown(chain, 0, map[], map[]) && RedirectionsShown(chain, 0, map[]) && ConvertedShown(chain, 0, {})
  {
  }

  // ----- the methods of one signature -----

  /** So it is with at least two methods of the signature, all of them newslot. */
  lemma NothingToApplyExactly(ms: seq<MethodDef>, key: string)
    ensures NothingToApply(PairFor(ms, key)) <==>
      && (forall m :: m in ms && m.key == key ==> m.newSlot)
      && exists i, j :: 0 <= i < j < |ms| && ms[i].key == key == ms[j].key
  {
    hide Filter;
    TwoFiltered(ms, key, true);
    if Filter(ms, key, false) == [] {
      forall m | m in ms && m.key == key ensures m.newSlot {
        assert m !in Filter(ms, key, false);
      }
    } else {
      assert Filter(ms, key, false)[0] in Filter(ms, key, false);
    }
  }

  lemma {:induction false} TwoFiltered(ms: seq<MethodDef>, key: string, newSlot: bool)
    ensures 2 <= |Filter(ms, key, newSlot)| <==>
      exists i, j :: 0 <= i < j < |ms| && ms[i].key == key == ms[j].key && ms[i].newSlot == newSlot == ms[j].newSlot
  {
    if ms != [] {
      var n := |ms| - 1;
      TwoFiltered(ms[..n], key, newSlot);
      var rest := Filter(ms[..n], key, newSlot);
      assert ms == ms[..n] + [ms[n]];
      if rest != [] {
        assert rest[0] in rest && rest[0] in ms[..n];
      }
      forall i | 0 <= i < n && ms[i].key == key && ms[i].newSlot == newSlot ensures rest != [] {
        assert ms[..n][i] == ms[i] && ms[i] in ms[..n] && ms[i] in rest;
      }
    }
  }

  /** What processing the methods of one signature does to the table. */
  ghost predicate GroupDone(c: nat, baseSlot: Option<VirtualSlot>, cp: ConflictPair, m: MethodDef, slots: SlotMap,
                            entries: EntryMap, slots': SlotMap, entries': EntryMap) {
    if Conflicts(cp) then
      |cp.reuseSlots| == 1 && |cp.newSlots| == 1 ==>
        var v, x := SlotFor(c, cp.reuseSlots[0], baseSlot), SlotFor(c, cp.newSlots[0], baseSlot);
        slots' == slots[m.key := v][m.key := x] && entries' == Applied(Applied(Applied(entries, v, c), v, c), x, c)
    else
      var v := SlotFor(c, m, baseSlot); slots' == slots[m.key := v] && entries' == Applied(entries, v, c)
  }

  lemma GroupProcessed(chain: Chain, c: nat, cp: ConflictPair, m: MethodDef, done: seq<MethodDef>, slots: SlotMap,
                       entries: EntryMap, slots': SlotMap, entries': EntryMap)
    requires c < |chain| && Regular(chain) && Progress(chain, c, slots, entries, done) && !HasKey(done, m.key)
    requires m in chain[c] && cp == PairFor(chain[c], m.key)
    requires GroupDone(c, Get(slots, m.key), cp, m, slots, entries, slots', entries')
    ensures Progress(chain, c, slots', entries', done + [m])
  {
    hide Progress, HasKey, Applied, SlotFor, Filter;
    AtMostOne(chain[c], m.key, true);
    AtMostOne(chain[c], m.key, false);
    if Conflicts(cp) {
      assert cp.reuseSlots[0] in cp.reuseSlots && cp.newSlots[0] in cp.newSlots;
      TwoProcessed(chain, c, slots, entries, done, cp.reuseSlots[0], cp.newSlots[0], m);
    } else {
      forall m' | m' in chain[c] && m'.key == m.key ensures m' == m {
        OnlyOne(chain[c], m, m');
      }
      OneProcessed(chain, c, slots, entries, done, m);
    }
  }

  lemma OnlyOne(ms: seq<MethodDef>, m: MethodDef, m': MethodDef)
    requires m in ms && m' in ms && m.key == m'.key && !Conflicts(PairFor(ms, m.key))
    ensures m == m'
  {
    hide Filter;
    var f, g := Filter(ms, m.key, m.newSlot), Filter(ms, m.key, m'.newSlot);
    assert m in f && m' in g;
  }

  lemma {:induction false} AtMostOne(ms: seq<MethodDef>, key: string, newSlot: bool)
    requires OneOfEach(ms) && Distinct(ms)
    ensures |Filter(ms, key, newSlot)| <= 1
  {
    if ms != [] {
      var init, m := ms[..|ms| - 1], ms[|ms| - 1];
      assert ms == init + [m];
      AtMostOne(init, key, newSlot);
      if m.key == key && m.newSlot == newSlot {
        Inhabited(Filter(init, key, newSlot));
      }
    }
  }

  lemma ConvertedGrow(chain: Chain, c: nat, slots: SlotMap, entries: EntryMap, m: MethodDef, before: set<MethodDef>,
                      after: set<MethodDef>)
    requires c < |chain| && ConvertedShown(chain, c + 1, before) && KeyShown(chain, c, slots, entries, m.key)
    requires forall x :: x in after ==> x in before || (x in chain[c] && x.key == m.key && Get(slots, m.key).None?)
    ensures ConvertedShown(chain, c + 1, after)
  {
    hide VisibleSlot, EntriesShown;
    forall x | x in after && x !in before ensures SlotOf(chain, Pair(c, x)) == Pair(c, x) {
    }
  }

  // ----- redirections of a class -----

  /** The reuseslot method m enters a slot of the table that another method introduced. */
  ghost predicate FromSlot(slots: SlotMap, converted: set<MethodDef>, m: MethodDef, s: Pair) {
    exists k, p: Pair :: k in slots && p in slots[k].entries && p.met == m && !m.newSlot && m !in converted
                         && m != slots[k].newSlotEntry.met && s == slots[k].newSlotEntry
  }

  ghost predicate RedirectionsFrom(slots: SlotMap, converted: set<MethodDef>, r: map<MethodDef, Pair>,
                                   r': map<MethodDef, Pair>) {
    && (forall m :: m in r' ==> FromSlot(slots, converted, m, r'[m]) || (m in r && r'[m] == r[m]))
    && (forall m :: m in r ==> m in r')
    && (forall m, s :: FromSlot(slots, converted, m, s) ==> m in r')
  }

  /** The entry p of the slot for k adds a redirection. */
  ghost predicate Adds(slots: SlotMap, converted: set<MethodDef>, k: string, p: Pair) {
    k in slots && p in slots[k].entries && !p.met.newSlot && p.met !in converted && p.met != slots[k].newSlotEntry.met
  }

  ghost predicate RedirectionsKept(slots: SlotMap, converted: set<MethodDef>, r: map<MethodDef, Pair>,
                                   r': map<MethodDef, Pair>) {
    && (forall m :: m in r' ==> FromSlot(slots, converted, m, r'[m]) || (m in r && r'[m] == r[m]))
    && (forall m :: m in r ==> m in r')
  }

  lemma AddsFromSlot(slots: SlotMap, converted: set<MethodDef>, k: string, p: Pair)
    requires Adds(slots, converted, k, p)
    ensures FromSlot(slots, converted, p.met, slots[k].newSlotEntry)
  {
  }

  lemma FromSlotAdds(slots: SlotMap, converted: set<MethodDef>, r: map<MethodDef, Pair>)
    requires forall k, p: Pair :: k in slots && Adds(slots, converted, k, p) ==> p.met in r
    ensures forall m, s :: FromSlot(slots, converted, m, s) ==> m in r
  {
    forall m, s | FromSlot(slots, converted, m, s) ensures m in r {
      var k, p: Pair :| k in slots && p in slots[k].entries && p.met == m && !m.newSlot && m !in converted
        && m != slots[k].newSlotEntry.met && s == slots[k].newSlotEntry;
      assert Adds(slots, converted, k, p);
    }
  }

  lemma RedirectionsGrow(chain: Chain, n: nat, slots: SlotMap, entries: EntryMap, converted: set<MethodDef>,
                         r: map<MethodDef, Pair>, r': map<MethodDef, Pair>)
    requires 1 <= n <= |chain| && Regular(chain) && AllShown(chain, n, slots, entries)
    requires ConvertedShown(chain, n, converted)
    requires RedirectionsShown(chain, n - 1, r) && RedirectionsFrom(slots, converted, r, r')
    ensures RedirectionsShown(chain, n, r')
  {
    hide Regular, AllShown, FromSlot, Redirects, ConvertedShown;
    forall m | m in r' ensures RedirectedTo(chain, n, m, r'[m]) {
      if FromSlot(slots, converted, m, r'[m]) {
        FromSlotRedirects(chain, n, slots, entries, converted, m, r'[m]);
      } else {
        var i: nat :| i < n - 1 && Redirects(chain, i, m) && r[m] == SlotOf(chain, Pair(i, m));
      }
    }
    forall i: nat, m | i < n && Redirects(chain, i, m) ensures m in r' {
      if i == n - 1 {
        RedirectsFromSlot(chain, n, slots, entries, converted, m);
      }
    }
  }

  lemma FromSlotRedirects(chain: Chain, n: nat, slots: SlotMap, entries: EntryMap, converted: set<MethodDef>,
                          m: MethodDef, s: Pair)
    requires n <= |chain| && AllShown(chain, n, slots, entries) && FromSlot(slots, converted, m, s)
    ensures RedirectedTo(chain, n, m, s)
  {
    var k, p: Pair :| k in slots && p in slots[k].entries && p.met == m && m != slots[k].newSlotEntry.met
      && s == slots[k].newSlotEntry;
    assert KeyShown(chain, n, slots, entries, k);
    hide VisibleSlot, SlotOf, Redirects;
    VisibleIsSlot(chain, n, k);
    SlotFacts(chain, p);
    SlotRedirects(chain, n, p, s);
  }

  lemma RedirectsFromSlot(chain: Chain, n: nat, slots: SlotMap, entries: EntryMap, converted: set<MethodDef>,
                          m: MethodDef)
    requires 1 <= n <= |chain| && Regular(chain) && AllShown(chain, n, slots, entries)
    requires ConvertedShown(chain, n, converted)
    requires Redirects(chain, n - 1, m)
    ensures FromSlot(slots, converted, m, SlotOf(chain, Pair(n - 1, m)))
  {
    var p, s := Pair(n - 1, m), SlotOf(chain, Pair(n - 1, m));
    assert KeyShown(chain, n, slots, entries, m.key);
    hide VisibleSlot;
    VisibleIsSlot(chain, n, m.key);
    assert p in slots[m.key].entries && slots[m.key].newSlotEntry == s;
    assert s.met == m ==> s.cls == n - 1;
  }

  // ----- all signatures -----

  /** The signatures not done have the slots of the base class. */
  ghost predicate Untouched(slots: SlotMap, base: SlotMap, done: seq<MethodDef>) {
    forall key :: !HasKey(done, key) ==> Get(slots, key) == Get(base, key)
  }

  lemma UntouchedNext(slots: SlotMap, base: SlotMap, done: seq<MethodDef>, m: MethodDef, slots': SlotMap)
    requires Untouched(slots, base, done) && m.key in slots' && slots' == slots[m.key := slots'[m.key]]
    ensures Untouched(slots', base, done + [m])
  {
    hide HasKey;
    forall key | !HasKey(done + [m], key) ensures Get(slots', key) == Get(base, key) {
      HasKeyNext(done, m, key);
    }
  }

  lemma NextFirst(ms: seq<MethodDef>, firsts: seq<MethodDef>, pairs: map<string, ConflictPair>, i: nat)
    requires Grouped(ms, firsts, pairs) && i < |firsts|
    ensures firsts[i] in ms && firsts[i].key in pairs && pairs[firsts[i].key] == PairFor(ms, firsts[i].key)
    ensures !HasKey(firsts[..i], firsts[i].key) && firsts[..i + 1] == firsts[..i] + [firsts[i]]
  {
    assert firsts[i] in firsts;
    assert HasKey(firsts, firsts[i].key);
  }

  /** There is nothing to apply for some signature just when that is so for a first method's. */
  lemma NothingSomewhere(ms: seq<MethodDef>, firsts: seq<MethodDef>, k: string)
    requires FirstsShown(ms, firsts) && NothingToApply(PairFor(ms, k))
    ensures exists i :: 0 <= i < |firsts| && firsts[i].key == k
  {
    assert HasKey(ms, k) by {
      if !HasKey(ms, k) {
        FilterNone(ms, k);
      }
    }
    assert HasKey(firsts, k);
  }

  lemma PairMembers(ms: seq<MethodDef>, m: MethodDef)
    requires m in ms
    ensures var cp := PairFor(ms, m.key);
      (forall x :: x in cp.reuseSlots ==> x in ms && x.key == m.key && !x.newSlot)
        && (forall x :: x in cp.newSlots ==> x in ms && x.key == m.key && x.newSlot)
      && (m in cp.reuseSlots || m in cp.newSlots)
  {
    hide Filter;
  }

  // ----- a table serves every class derived from its class -----

  lemma KeyShared(chain: Chain, chain': Chain, n: nat, slots: SlotMap, entries: EntryMap, key: string)
    requires n <= |chain| && n <= |chain'| && chain[..n] == chain'[..n] && KeyShown(chain, n, slots, entries, key)
    ensures KeyShown(chain', n, slots, entries, key)
  {
    hide VisibleSlot, SlotOf;
    forall p: Pair ensures SameIn(chain, chain', n, p) {
      SameSlotOf(chain, chain', n, p);
    }
    SameSlots(chain, chain', n, key);
    forall p: Pair | p.met.key == key ensures EntryShown(chain', n, entries, p) {
      assert EntryShown(chain, n, entries, p) && SameIn(chain, chain', n, p);
      if p in entries {
        ImplShared(chain, chain', n, SlotOf(chain, p), entries[p].pair);
      }
    }
    if key in slots {
      ImplShared(chain, chain', n, slots[key].newSlotEntry, slots[key].implemented);
      forall p ensures p in slots[key].entries <==> In(chain', n, p) && SlotOf(chain', p) == slots[key].newSlotEntry {
        assert SameIn(chain, chain', n, p);
      }
    }
  }

  ghost predicate SameIn(chain: Chain, chain': Chain, n: nat, p: Pair)
    requires n <= |chain| && n <= |chain'|
  {
    (In(chain, n, p) <==> In(chain', n, p)) && (p.cls < n ==> SlotOf(chain, p) == SlotOf(chain', p))
  }

  lemma ImplShared(chain: Chain, chain': Chain, n: nat, s: Pair, p: Pair)
    requires n <= |chain| && n <= |chain'| && (forall q: Pair :: SameIn(chain, chain', n, q)) && IsImpl(chain, n, s, p)
    ensures IsImpl(chain', n, s, p)
  {
    hide VisibleSlot, SlotOf;
    assert SameIn(chain, chain', n, p);
    forall q | In(chain', n, q) && SlotOf(chain', q) == s ensures q.cls < p.cls || q == p {
      assert SameIn(chain, chain', n, q);
    }
  }

  lemma RedirectionsShared(chain: Chain, chain': Chain, n: nat, r: map<MethodDef, Pair>, converted: set<MethodDef>)
    requires n <= |chain| && n <= |chain'| && chain[..n] == chain'[..n]
    requires RedirectionsShown(chain, n, r) && ConvertedShown(chain, n, converted)
    ensures RedirectionsShown(chain', n, r) && ConvertedShown(chain', n, converted)
  {
    hide VisibleSlot, SlotOf;
    forall i: nat, m | i < n
      ensures (Redirects(chain, i, m) <==> Redirects(chain', i, m))
      ensures SlotOf(chain, Pair(i, m)) == SlotOf(chain', Pair(i, m)) && (m in chain[i] <==> m in chain'[i])
    {
      SameSlotOf(chain, chain', n, Pair(i, m));
      assert chain[..i + 1] == chain[..n][..i + 1] == chain'[..n][..i + 1] == chain'[..i + 1];
      SameSlots(chain, chain', i + 1, m.key);
    }
    forall m | m in r ensures RedirectedTo(chain', n, m, r[m]) {
      var i: nat :| i < n && Redirects(chain, i, m) && r[m] == SlotOf(chain, Pair(i, m));
      assert Redirects(chain', i, m);
    }
  }

  /** Two newslot methods of one signature, without a reuseslot method: the table cannot be built. */
  lemma TwoNewSlots(m: MethodDef, m': MethodDef)
    requires m.key == m'.key && m.newSlot && m'.newSlot
    ensures NothingToApply(PairFor([m, m'], m.key))
  {
    assert [m, m'][..1] == [m] && [m][..0] == [];
    assert Filter([m], m.key, true) == [m] && Filter([m], m.key, false) == [];
  }

  // ----- the table -----

  class MethodTable {
    // The place of the class in its chain.
    const cls: nat
    const methods: seq<MethodDef>
    var derivedLevel: nat
    var slotMap: SlotMap
    var entryMap: EntryMap
    var newSlotEntryMap: map<MethodDef, Pair>
    // Reuseslot methods that were turned into newslot methods.
    var converted: set<MethodDef>

    constructor (cls: nat, methods: seq<MethodDef>)
      ensures this.cls == cls && this.methods == methods && derivedLevel == 0
      ensures slotMap == map[] && entryMap == map[] && newSlotEntryMap == map[] && converted == {}
    {
      this.cls, this.methods, derivedLevel := cls, methods, 0;
      slotMap, entryMap, newSlotEntryMap, converted := map[], map[], map[], {};
    }

    /** The table is that of a class of the chain. */
    ghost predicate Valid(chain: Chain)
      reads this
    {
      && cls < |chain| && chain[cls] == methods && derivedLevel == cls
      && AllShown(chain, cls + 1, slotMap, entryMap)
      && RedirectionsShown(chain, cls + 1, newSlotEntryMap)
      && ConvertedShown(chain, cls + 1, converted)
    }

    /** The table of a class is the same whatever is derived from the class. */
    lemma ValidShared(chain: Chain, chain': Chain)
      requires Valid(chain) && cls < |chain'| && chain[..cls + 1] == chain'[..cls + 1]
      ensures Valid(chain')
    {
      hide KeyShown;
      assert chain[cls] == chain[..cls + 1][cls] == chain'[..cls + 1][cls] == chain'[cls];
      RedirectionsShared(chain, chain', cls + 1, newSlotEntryMap, converted);
      AllShared(chain, chain', cls + 1, slotMap, entryMap);
    }

    lemma AllShared(chain: Chain, chain': Chain, n: nat, slots: SlotMap, entries: EntryMap)
      requires n <= |chain| && n <= |chain'| && chain[..n] == chain'[..n] && AllShown(chain, n, slots, entries)
      ensures AllShown(chain', n, slots, entries)
    {
      hide KeyShown;
      forall key ensures KeyShown(chain', n, slots, entries, key) {
        KeyShared(chain, chain', n, slots, entries, key);
      }
    }

    /** Group the methods by signature. */
    method GroupMethods() returns (firsts: seq<MethodDef>, pairs: map<string, ConflictPair>)
      ensures Grouped(methods, firsts, pairs)
    {
      hide PairsShown, FirstsShown, HasKey;
      firsts, pairs := [], map[];
      EmptyGroups();
      var i := 0;
      while i < |methods|
        invariant i <= |methods| && PairsShown(methods[..i], pairs) && FirstsShown(methods[..i], firsts)
      {
        var m := methods[i];
        assert methods[..i + 1] == methods[..i] + [m];
        PairsNext(methods[..i], m, pairs);
        FirstsNext(methods[..i], m, firsts);
        KeyIn(methods[..i], pairs, m.key);
        ghost var added := pairs[m.key := Added(pairs, m)];
        if m.key !in pairs {
          pairs := pairs[m.key := ConflictPair([], [])];
          firsts := firsts + [m];
        }
        var c := pairs[m.key];
        pairs := pairs[m.key := if m.newSlot then c.(newSlots := c.newSlots + [m])
          else c.(reuseSlots := c.reuseSlots + [m])];
        assert pairs == added;
        i := i + 1;
      }
      assert methods[..i] == methods;
    }

    lemma EmptyGroups()
      ensures PairsShown([], map[]) && FirstsShown([], [])
    {
    }

    lemma KeyIn(ms: seq<MethodDef>, pairs: map<string, ConflictPair>, k: string)
      requires PairsShown(ms, pairs)
      ensures k in pairs <==> HasKey(ms, k)
    {
    }

    method SetEntryMap(entry: Pair, impl: Pair)
      modifies this`entryMap
      ensures entryMap == old(entryMap)[entry := Impl(impl, derivedLevel)]
    {
      entryMap := entryMap[entry := Impl(impl, derivedLevel)];
    }

    method ApplyVirtualSlot(v: VirtualSlot)
      modifies this`entryMap
      ensures entryMap == Applied(old(entryMap), v, derivedLevel)
    {
      var todo := v.entries;
      while todo != {}
        invariant todo <= v.entries
        invariant entryMap == Applied(old(entryMap), v.(entries := v.entries - todo), derivedLevel)
      {
        var entry :| entry in todo;
        SetEntryMap(entry, v.implemented);
        todo := todo - {entry};
      }
      assert v.(entries := v.entries - todo) == v;
    }

    /** Start from what the base class has. */
    method DerivedTable(base: MethodTable)
      requires base != this && derivedLevel == 0 && slotMap == map[] && entryMap == map[] && newSlotEntryMap == map[]
      modifies this`derivedLevel, this`slotMap, this`entryMap, this`newSlotEntryMap, this`converted
      ensures derivedLevel == base.derivedLevel + 1 && slotMap == base.slotMap && entryMap == base.entryMap
      ensures newSlotEntryMap == base.newSlotEntryMap && converted == base.converted
    {
      derivedLevel := base.derivedLevel + 1;
      slotMap, entryMap, newSlotEntryMap, converted := base.slotMap, base.entryMap, base.newSlotEntryMap,
        base.converted;
    }

    /** Enter one method into its slot; baseSlot is the slot for its signature in the base table. */
    method ProcessMethod(m: MethodDef, baseSlot: Option<VirtualSlot>) returns (v: VirtualSlot)
      modifies this`slotMap, this`entryMap, this`converted
      ensures v == SlotFor(cls, m, baseSlot) && slotMap == old(slotMap)[m.key := v]
      ensures entryMap == Applied(old(entryMap), v, derivedLevel)
      ensures converted == if !m.newSlot && baseSlot.None? then old(converted) + {m} else old(converted)
    {
      var entry := Pair(cls, m);
      if !m.newSlot {
        if baseSlot == None {
          converted := converted + {m};
        } else {
          v := VirtualSlot(baseSlot.value.entries + {entry}, baseSlot.value.newSlotEntry, entry);
          slotMap := slotMap[m.key := v];
          ApplyVirtualSlot(v);
          return;
        }
      }
      v := VirtualSlot({entry}, entry, entry);
      slotMap := slotMap[m.key := v];
      ApplyVirtualSlot(v);
    }

    /** Enter the methods of one signature, m among them: reuseslot methods first, then newslot methods. False
        when there is no slot to apply in between. */
    method ProcessGroup(m: MethodDef, cp: ConflictPair, baseSlot: Option<VirtualSlot>) returns (ok: bool)
      requires derivedLevel == cls && (forall x :: x in cp.reuseSlots || x in cp.newSlots ==> x.key == m.key)
      requires forall x :: x in cp.newSlots ==> x.newSlot
      requires !Conflicts(cp) ==> m in cp.reuseSlots || m in cp.newSlots
      modifies this`slotMap, this`entryMap, this`converted
      ensures ok <==> !NothingToApply(cp)
      ensures ok ==> GroupDone(cls, baseSlot, cp, m, old(slotMap), old(entryMap), slotMap, entryMap)
      ensures ok ==> m.key in slotMap && slotMap == old(slotMap)[m.key := slotMap[m.key]]
      ensures forall x :: x in converted ==> x in old(converted) || ((x in cp.reuseSlots || x == m) && baseSlot.None?)
    {
      hide SlotFor, Applied;
      if !Conflicts(cp) {
        var v := ProcessMethod(m, baseSlot);
        return true;
      }
      var last: Option<VirtualSlot> := None;
      ghost var slots, entries := slotMap, entryMap;
      var i := 0;
      while i < |cp.reuseSlots|
        invariant i <= |cp.reuseSlots| && (last == None <==> i == 0)
        invariant i == 0 ==> slotMap == slots && entryMap == entries
        invariant i != 0 ==> m.key in slotMap && slotMap == slots[m.key := slotMap[m.key]]
        invariant i == 1 ==>
          last == Some(SlotFor(cls, cp.reuseSlots[0], baseSlot)) && slotMap == slots[m.key := last.value]
            && entryMap == Applied(entries, last.value, cls)
        invariant forall x :: x in converted ==> x in old(converted) || (x in cp.reuseSlots && baseSlot.None?)
      {
        var v := ProcessMethod(cp.reuseSlots[i], baseSlot);
        last, i := Some(v), i + 1;
      }
      if last == None {
        return false;
      }
      ApplyVirtualSlot(last.value);
      slots, entries := slotMap, entryMap;
      i := 0;
      while i < |cp.newSlots|
        invariant i <= |cp.newSlots|
        invariant i == 0 ==> slotMap == slots && entryMap == entries
        invariant m.key in slotMap && slotMap == slots[m.key := slotMap[m.key]]
        invariant i == 1 ==>
          slotMap == slots[m.key := SlotFor(cls, cp.newSlots[0], baseSlot)]
            && entryMap == Applied(entries, SlotFor(cls, cp.newSlots[0], baseSlot), cls)
        invariant forall x :: x in converted ==> x in old(converted) || (x in cp.reuseSlots && baseSlot.None?)
      {
        var v := ProcessMethod(cp.newSlots[i], baseSlot);
        i := i + 1;
      }
      return true;
    }

    /** Build the table from that of the base class, if there is one (ResolveTable). False when a signature has
        several newslot methods and no reuseslot method. */
    method ResolveTable(base: MethodTable?, ghost chain: Chain) returns (ok: bool)
      requires base != this && (base == null <==> cls == 0) && cls < |chain| && chain[cls] == methods
      requires base != null ==> base.cls == cls - 1 && base.Valid(chain)
      requires derivedLevel == 0 && slotMap == map[] && entryMap == map[] && newSlotEntryMap == map[] && converted == {}
      modifies this
      ensures ok <==> forall k :: !NothingToApply(PairFor(methods, k))
      ensures ok && Regular(chain) ==> Valid(chain)
    {
      hide Regular, Progress, AllShown, RedirectionsShown, ConvertedShown, Untouched, PairFor, GroupDone, HasKey;
      hide PairsShown, FirstsShown;
      var firsts, pairs := GroupMethods();
      var baseSlots: SlotMap := map[];
      if base != null {
        DerivedTable(base);
        baseSlots := base.slotMap;
      } else {
        EmptyShown(chain);
      }
      Inherited(chain, cls, slotMap, entryMap, newSlotEntryMap, converted, baseSlots);
      var i := 0;
      while i < |firsts|
        invariant i <= |firsts| && derivedLevel == cls && RedirectionsShown(chain, cls, newSlotEntryMap)
        invariant forall j :: 0 <= j < i ==> !NothingToApply(PairFor(methods, firsts[j].key))
        invariant Untouched(slotMap, baseSlots, firsts[..i])
        invariant Regular(chain) ==>
          Progress(chain, cls, slotMap, entryMap, firsts[..i]) && ConvertedShown(chain, cls + 1, converted)
      {
        NextFirst(methods, firsts, pairs, i);
        PairMembers(methods, firsts[i]);
        var m := firsts[i];
        ghost var slots, entries, before := slotMap, entryMap, converted;
        UntouchedAt(slots, baseSlots, firsts[..i], m.key);
        ok := ProcessGroup(m, pairs[m.key], if m.key in baseSlots then Some(baseSlots[m.key]) else None);
        if !ok {
          return;
        }
        if Regular(chain) {
          GroupProcessed(chain, cls, pairs[m.key], m, firsts[..i], slots, entries, slotMap, entryMap);
          ProgressAt(chain, cls, slots, entries, firsts[..i], m.key);
          ConvertedGrow(chain, cls, slots, entries, m, before, converted);
        }
        UntouchedNext(slots, baseSlots, firsts[..i], m, slotMap);
        i := i + 1;
      }
      forall k ensures !NothingToApply(PairFor(methods, k)) {
        if NothingToApply(PairFor(methods, k)) {
          NothingSomewhere(methods, firsts, k);
        }
      }
      ghost var r := newSlotEntryMap;
      AddRedirections();
      if Regular(chain) {
        assert firsts[..i] == firsts;
        ProgressDone(chain, cls, slotMap, entryMap, firsts);
        RedirectionsGrow(chain, cls + 1, slotMap, entryMap, converted, r, newSlotEntryMap);
      }
      return true;
    }

    lemma Inherited(chain: Chain, c: nat, slots: SlotMap, entries: EntryMap, r: map<MethodDef, Pair>,
                    converted: set<MethodDef>, baseSlots: SlotMap)
      requires c < |chain| && slots == baseSlots
      requires AllShown(chain, c, slots, entries) && RedirectionsShown(chain, c, r)
      requires ConvertedShown(chain, c, converted)
      ensures Progress(chain, c, slots, entries, []) && ConvertedShown(chain, c + 1, converted)
      ensures Untouched(slots, baseSlots, [])
    {
      ProgressStart(chain, c, slots, entries);
    }

    lemma UntouchedAt(slots: SlotMap, base: SlotMap, done: seq<MethodDef>, k: string)
      requires Untouched(slots, base, done) && !HasKey(done, k)
      ensures Get(slots, k) == Get(base, k)
    {
    }

    lemma ProgressAt(chain: Chain, c: nat, slots: SlotMap, entries: EntryMap, done: seq<MethodDef>, k: string)
      requires c < |chain| && Progress(chain, c, slots, entries, done) && !HasKey(done, k)
      ensures KeyShown(chain, c, slots, entries, k)
    {
    }

    /** Redirect the reuseslot methods of each slot to the method that introduced it. */
    method AddRedirections()
      modifies this`newSlotEntryMap
      ensures RedirectionsFrom(slotMap, converted, old(newSlotEntryMap), newSlotEntryMap)
    {
      hide FromSlot;
      var keys := slotMap.Keys;
      ghost var r := newSlotEntryMap;
      while keys != {}
        invariant keys <= slotMap.Keys
        invariant RedirectionsKept(slotMap, converted, r, newSlotEntryMap)
        invariant forall k, p: Pair :: k in slotMap && k !in keys && Adds(slotMap, converted, k, p) ==>
          p.met in newSlotEntryMap
      {
        var k :| k in keys;
        AddFromSlot(k, r);
        keys := keys - {k};
      }
      FromSlotAdds(slotMap, converted, newSlotEntryMap);
    }

    method AddFromSlot(k: string, ghost r: map<MethodDef, Pair>)
      requires k in slotMap && RedirectionsKept(slotMap, converted, r, newSlotEntryMap)
      modifies this`newSlotEntryMap
      ensures RedirectionsKept(slotMap, converted, r, newSlotEntryMap)
      ensures old(newSlotEntryMap).Keys <= newSlotEntryMap.Keys
      ensures forall p: Pair :: Adds(slotMap, converted, k, p) ==> p.met in newSlotEntryMap
    {
      hide FromSlot;
      var v := slotMap[k];
      var todo := v.entries;
      while todo != {}
        invariant todo <= v.entries
        invariant RedirectionsKept(slotMap, converted, r, newSlotEntryMap)
        invariant old(newSlotEntryMap).Keys <= newSlotEntryMap.Keys
        invariant forall p: Pair :: Adds(slotMap, converted, k, p) && p !in todo ==> p.met in newSlotEntryMap
      {
        var entry :| entry in todo;
        if !entry.met.newSlot && entry.met !in converted && entry.met != v.newSlotEntry.met {
          AddsFromSlot(slotMap, converted, k, entry);
          newSlotEntryMap := newSlotEntryMap[entry.met := v.newSlotEntry];
        }
        todo := todo - {entry};
      }
    }

    // ----- calls -----

    /** The implementation of an entry of this class; none when it has none. */
    method QueryEntryMap(entry: Pair) returns (impl: Option<Pair>)
      ensures impl == if entry in entryMap then Some(entryMap[entry].pair) else None
    {
      return if entry in entryMap then Some(entryMap[entry].pair) else None;
    }

    /** The method that a virtual call of the given method runs on an object of this class (QueryCallVirtImpl):
        the most derived method in the same slot. */
    method QueryCallVirt(p: Pair, ghost chain: Chain) returns (impl: Option<Pair>)
      requires Valid(chain) && Regular(chain) && In(chain, cls + 1, p)
      ensures impl.Some? && IsImpl(chain, cls + 1, SlotOf(chain, p), impl.value)
    {
      hide Regular, RedirectionsShown, ConvertedShown, AllShown, VisibleSlot, SlotOf, IsImpl;
      AllEntriesShown(chain, cls + 1, slotMap, entryMap);
      ghost var s := SlotOf(chain, p);
      var entry := p;
      while true
        invariant In(chain, cls + 1, entry) && SlotOf(chain, entry) == s
        decreases entry != s
      {
        CallFacts(chain, cls + 1, entryMap, newSlotEntryMap, entry);
        if entry.met in newSlotEntryMap {
          entry := newSlotEntryMap[entry.met];
          CallFacts(chain, cls + 1, entryMap, newSlotEntryMap, entry);
        }
        impl := QueryEntryMap(entry);
        if impl == None {
          return;
        }
        ImplFacts(chain, cls + 1, s, impl.value);
        CallFacts(chain, cls + 1, entryMap, newSlotEntryMap, impl.value);
        if impl.value.met in newSlotEntryMap && entry != newSlotEntryMap[impl.value.met] {
          entry := newSlotEntryMap[impl.value.met];
        } else {
          break;
        }
      }
    }

    lemma ImplFacts(chain: Chain, n: nat, s: Pair, p: Pair)
      requires n <= |chain| && IsImpl(chain, n, s, p)
      ensures In(chain, n, p) && SlotOf(chain, p) == s
    {
    }

    lemma AllEntriesShown(chain: Chain, n: nat, slots: SlotMap, entries: EntryMap)
      requires n <= |chain| && AllShown(chain, n, slots, entries)
      ensures forall p: Pair :: EntryShown(chain, n, entries, p)
    {
      forall p: Pair ensures EntryShown(chain, n, entries, p) {
        assert KeyShown(chain, n, slots, entries, p.met.key);
      }
    }
  }
}

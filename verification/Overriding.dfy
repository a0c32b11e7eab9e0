/** Which method a virtual call runs: the override rules for chains of classes, stated independently of any
    table (section II.10.3 of ECMA-335). */
module Overriding {
  import opened Sequences
  import opened Options

  /** A virtual method: its identity, its signature key, and whether it is declared newslot. */
  datatype MethodDef = MethodDef(id: nat, key: string, newSlot: bool)

  /** A method in the class with the given place in the chain, the root being 0. */
  datatype Pair = Pair(cls: nat, met: MethodDef)

  /** The virtual methods of each class, from the root down. */
  type Chain = seq<seq<MethodDef>>

  /** No method belongs to two classes, and a class has at most one newslot and one reuseslot method per signature. */
  ghost predicate Regular(chain: Chain) {
    && (forall i, j, m :: 0 <= i < |chain| && 0 <= j < |chain| && m in chain[i] && m in chain[j] ==> i == j)
    && (forall i :: 0 <= i < |chain| ==> OneOfEach(chain[i]) && Distinct(chain[i]))
  }

  ghost predicate OneOfEach(ms: seq<MethodDef>) {
    forall m, m' :: m in ms && m' in ms && m.key == m'.key && m.newSlot == m'.newSlot ==> m == m'
  }

  /** The method of a class with the given signature and newslot flag. */
  function Find(ms: seq<MethodDef>, key: string, newSlot: bool): (r: Option<MethodDef>)
    ensures r.Some? ==> r.value in ms && r.value.key == key && r.value.newSlot == newSlot
    ensures r.None? ==> forall m :: m in ms ==> !(m.key == key && m.newSlot == newSlot)
  {
    if ms == [] then None
    else if ms[0].key == key && ms[0].newSlot == newSlot then Some(ms[0])
    else Find(ms[1..], key, newSlot)
  }

  /** The slot a reuseslot method of that signature would take after the first n classes, named by the method
      that introduced it. A newslot method hides the slot before it. */
  function VisibleSlot(chain: Chain, n: nat, key: string): Option<Pair>
    requires n <= |chain|
  {
    if n == 0 then None else
    var added, reuse := Find(chain[n - 1], key, true), Find(chain[n - 1], key, false);
    if added.Some? then Some(Pair(n - 1, added.value))
    else
      var above := VisibleSlot(chain, n - 1, key);
      if reuse.Some? && above.None? then Some(Pair(n - 1, reuse.value)) else above
  }

  predicate In(chain: Chain, n: nat, p: Pair)
    requires n <= |chain|
  {
    p.cls < n && p.met in chain[p.cls]
  }

  /** The slot of a method: a new one, or for a reuseslot method the visible one of the base class, if any. */
  function SlotOf(chain: Chain, p: Pair): Pair
    requires p.cls <= |chain|
  {
    if p.met.newSlot || VisibleSlot(chain, p.cls, p.met.key).None? then p
    else VisibleSlot(chain, p.cls, p.met.key).value
  }

  /** p is the most derived method of slot s among the first n classes. */
  ghost predicate IsImpl(chain: Chain, n: nat, s: Pair, p: Pair)
    requires n <= |chain|
  {
    && In(chain, n, p) && SlotOf(chain, p) == s
    && forall q :: In(chain, n, q) && SlotOf(chain, q) == s ==> q.cls < p.cls || q == p
  }

  /** The closest method of a signature above class n; the newslot one, if its class has two. */
  ghost predicate Closest(chain: Chain, n: nat, key: string, q: Pair)
    requires n <= |chain|
  {
    && q.cls < n && q.met in chain[q.cls] && q.met.key == key
    && (forall i, m :: q.cls < i < n && m in chain[i] ==> m.key != key)
    && (q.met.newSlot || forall x :: x in chain[q.cls] && x.key == key ==> !x.newSlot)
  }

  /** Slots without any notion of visibility: a newslot method has a slot of its own. A reuseslot method shares the slot
      of the closest method of its signature above it, and has a slot of its own if there is none. */
  lemma SlotIsClosest(chain: Chain, p: Pair)
    requires Regular(chain) && p.cls < |chain| && p.met in chain[p.cls]
    ensures p.met.newSlot ==> SlotOf(chain, p) == p
    ensures (forall i, m :: 0 <= i < p.cls && m in chain[i] ==> m.key != p.met.key) ==> SlotOf(chain, p) == p
    ensures forall q :: !p.met.newSlot && Closest(chain, p.cls, p.met.key, q) ==> SlotOf(chain, p) == SlotOf(chain, q)
  {
    hide VisibleSlot;
    if forall i, m :: 0 <= i < p.cls && m in chain[i] ==> m.key != p.met.key {
      NothingVisible(chain, p.cls, p.met.key);
    }
    forall q | !p.met.newSlot && Closest(chain, p.cls, p.met.key, q) ensures SlotOf(chain, p) == SlotOf(chain, q) {
      SameVisible(chain, q.cls + 1, p.cls, p.met.key);
      VisibleIn(chain, q.cls, q.met);
    }
  }

  lemma {:induction false} NothingVisible(chain: Chain, n: nat, key: string)
    requires n <= |chain| && forall i, m :: 0 <= i < n && m in chain[i] ==> m.key != key
    ensures VisibleSlot(chain, n, key) == None
  {
    if n > 0 {
      NothingVisible(chain, n - 1, key);
    }
  }

  lemma {:induction false} SameVisible(chain: Chain, k: nat, n: nat, key: string)
    requires k <= n <= |chain| && forall i, m :: k <= i < n && m in chain[i] ==> m.key != key
    ensures VisibleSlot(chain, n, key) == VisibleSlot(chain, k, key)
    decreases n
  {
    if k < n {
      SameVisible(chain, k, n - 1, key);
    }
  }

  /** Behind its class, the slot of m is visible. */
  lemma VisibleIn(chain: Chain, k: nat, m: MethodDef)
    requires Regular(chain) && k < |chain| && m in chain[k]
    requires m.newSlot || forall x :: x in chain[k] && x.key == m.key ==> !x.newSlot
    ensures VisibleSlot(chain, k + 1, m.key) == Some(SlotOf(chain, Pair(k, m)))
  {
    var added, reuse := Find(chain[k], m.key, true), Find(chain[k], m.key, false);
    assert OneOfEach(chain[k]);
    assert m.newSlot ==> added == Some(m);
    assert !m.newSlot ==> added == None && reuse == Some(m);
  }

  // ----- facts about slots -----

  lemma {:induction false} VisibleIsSlot(chain: Chain, n: nat, key: string)
    requires n <= |chain|
    ensures VisibleSlot(chain, n, key).Some? ==>
              var s := VisibleSlot(chain, n, key).value; In(chain, n, s) && s.met.key == key && SlotOf(chain, s) == s
  {
    if n > 0 {
      VisibleIsSlot(chain, n - 1, key);
    }
  }

  /** Slots hold methods of one signature, and a slot is its own slot. */
  lemma SlotFacts(chain: Chain, p: Pair)
    requires p.cls < |chain| && In(chain, |chain|, p)
    ensures SlotOf(chain, p).cls <= p.cls && In(chain, |chain|, SlotOf(chain, p))
    ensures SlotOf(chain, p).met.key == p.met.key
    ensures SlotOf(chain, SlotOf(chain, p)) == SlotOf(chain, p)
  {
    VisibleIsSlot(chain, p.cls, p.met.key);
  }

  lemma ImplUnique(chain: Chain, n: nat, s: Pair, p: Pair, q: Pair)
    requires n <= |chain| && IsImpl(chain, n, s, p) && IsImpl(chain, n, s, q)
    ensures p == q
  {
  }

  /** In a class, at most one method joins a given slot. */
  lemma OneJoins(chain: Chain, i: nat, m: MethodDef, m': MethodDef)
    requires Regular(chain) && i < |chain| && m in chain[i] && m' in chain[i]
    requires SlotOf(chain, Pair(i, m)) == SlotOf(chain, Pair(i, m'))
    ensures m == m'
  {
    SlotFacts(chain, Pair(i, m));
    SlotFacts(chain, Pair(i, m'));
    VisibleIsSlot(chain, i, m.key);
    assert OneOfEach(chain[i]);
  }

  /** Hidden slots keep their last implementation: no method below a newslot method joins the slot it hides. */
  lemma {:induction false} HiddenForever(chain: Chain, n: nat, k: nat, s: Pair)
    requires n <= k <= |chain| && s.cls < n && VisibleSlot(chain, n, s.met.key) != Some(s)
    ensures VisibleSlot(chain, k, s.met.key) != Some(s)
    decreases k
  {
    if n < k {
      HiddenForever(chain, n, k - 1, s);
    }
  }

  /** The implementation of a hidden slot is the same in every class further down. */
  lemma HiddenKeepsImpl(chain: Chain, n: nat, k: nat, s: Pair, p: Pair)
    requires n <= k <= |chain| && In(chain, n, s) && VisibleSlot(chain, n, s.met.key) != Some(s)
    requires IsImpl(chain, n, s, p)
    ensures IsImpl(chain, k, s, p)
  {
    hide VisibleSlot;
    forall q | In(chain, k, q) && SlotOf(chain, q) == s ensures q.cls < p.cls || q == p {
      SlotFacts(chain, q);
      if q.cls >= n {
        HiddenForever(chain, n, q.cls, s);
      } else {
        assert In(chain, n, q);
      }
    }
  }

  /** The slots of the first n classes do not depend on the classes after them. */
  lemma {:induction false} SameSlots(chain: Chain, chain': Chain, n: nat, key: string)
    requires n <= |chain| && n <= |chain'| && chain[..n] == chain'[..n]
    ensures VisibleSlot(chain, n, key) == VisibleSlot(chain', n, key)
    decreases n
  {
    if n > 0 {
      assert chain[n - 1] == chain[..n][n - 1] == chain'[..n][n - 1] == chain'[n - 1];
      assert chain[..n - 1] == chain[..n][..n - 1] == chain'[..n][..n - 1] == chain'[..n - 1];
      SameSlots(chain, chain', n - 1, key);
    }
  }

  lemma SameSlotOf(chain: Chain, chain': Chain, n: nat, p: Pair)
    requires n <= |chain| && n <= |chain'| && chain[..n] == chain'[..n]
    ensures In(chain, n, p) <==> In(chain', n, p)
    ensures p.cls < n ==> SlotOf(chain, p) == SlotOf(chain', p)
  {
    hide VisibleSlot;
    if p.cls < n {
      assert chain[p.cls] == chain[..n][p.cls] == chain'[..n][p.cls] == chain'[p.cls];
      assert chain[..p.cls] == chain[..n][..p.cls] == chain'[..n][..p.cls] == chain'[..p.cls];
      SameSlots(chain, chain', p.cls, p.met.key);
    }
  }
}

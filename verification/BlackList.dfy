/** The black lists: hash tables with one bit per block number that has had a false hit. */
module BlackLists {
  import opened Arithmetic
  import opened Blocks

  const WORDSZ: nat := 64
  const PHT_ENTRIES: nat := 0x4_0000
  const PHT_SIZE: nat := PHT_ENTRIES / WORDSZ

  /** A page hash table, as words. */
  type Table = t: seq<nat> | |t| == PHT_SIZE witness seq(PHT_SIZE, _ => 0)

  /** PHT_HASH */
  function Hash(a: nat): (i: nat)
    ensures i < PHT_ENTRIES
  {
    a % PHT_ENTRIES
  }

  /** get_pht_entry_from_index */
  predicate Bit(t: Table, i: nat)
    requires i < PHT_ENTRIES
  {
    (t[i / WORDSZ] / Pow2(i % WORDSZ)) % 2 == 1
  }

  /** The tables of the last collection and those being built, for objects that start at a block and for
      objects that include it. */
  datatype Tables = Tables(allInteriorPointers: bool, oldNormal: Table, incompleteNormal: Table, oldStack: Table,
    incompleteStack: Table)

  /** An object must not start at block a. */
  predicate NormalHit(t: Tables, a: nat) {
    !t.allInteriorPointers && (Bit(t.oldNormal, Hash(a)) || Bit(t.incompleteNormal, Hash(a)))
  }

  /** An object must not include block a. */
  predicate StackHit(t: Tables, a: nat) {
    Bit(t.oldStack, Hash(a)) || Bit(t.incompleteStack, Hash(a))
  }

  /** An object of n blocks at h is black listed. */
  ghost predicate Hit(t: Tables, h: nat, n: nat) {
    NormalHit(t, h) || exists a: nat :: h <= a < h + n && StackHit(t, a)
  }

  /** Is an object of len bytes at h black listed? If so, r is the next place where it might not be.
      Skips a whole word of the tables when it is zero in both. A length below one block counts as one. */
  method IsBlackListed(t: Tables, h: nat, len: nat) returns (r: nat)
    ensures var n := if len < HBLKSIZE then 1 else len / HBLKSIZE;
      && (r == 0 <==> !Hit(t, h, n))
      && (r != 0 ==> h < r <= h + n && forall x: nat :: h <= x < r ==> Hit(t, x, n))
      && (r != 0 ==>
        if NormalHit(t, h) then r == h + 1
        else StackHit(t, r - 1) && forall a: nat :: h <= a < r - 1 ==> !StackHit(t, a))
  {
    hide Bit, Hash;
    var index := Hash(h);
    if !t.allInteriorPointers && (Bit(t.oldNormal, index) || Bit(t.incompleteNormal, index)) {
      return h + 1;
    }
    var nblocks := len / HBLKSIZE;
    var i := 0;
    while true
      invariant index == Hash(h + i) && (i == 0 || i < nblocks)
      invariant forall a: nat :: h <= a < h + i ==> !StackHit(t, a)
      decreases nblocks - i
    {
      if t.oldStack[index / WORDSZ] == 0 && t.incompleteStack[index / WORDSZ] == 0 {
        WordIsClear(t, h + i);
        i := i + (WORDSZ - index % WORDSZ);
      } else {
        if Bit(t.oldStack, index) || Bit(t.incompleteStack, index) {
          r := h + i + 1;
          HitsBefore(t, h, r, if len < HBLKSIZE then 1 else nblocks);
          return;
        }
        i := i + 1;
      }
      if i >= nblocks { break; }
      index := Hash(h + i);
    }
    return 0;
  }

  /** When block r - 1 is listed, no object of n blocks at or after h can avoid it by starting before r. */
  lemma HitsBefore(t: Tables, h: nat, r: nat, n: nat)
    requires h < r <= h + n && StackHit(t, r - 1)
    ensures forall x: nat :: h <= x < r ==> Hit(t, x, n)
  {
  }

  /** A zero word of both tables: no block up to the end of the word is listed. */
  lemma WordIsClear(t: Tables, a: nat)
    requires t.oldStack[Hash(a) / WORDSZ] == 0 && t.incompleteStack[Hash(a) / WORDSZ] == 0
    ensures forall x: nat :: a <= x < a + (WORDSZ - Hash(a) % WORDSZ) ==> !StackHit(t, x)
  {
    forall x: nat | a <= x < a + (WORDSZ - Hash(a) % WORDSZ) ensures !StackHit(t, x) {
      SameWord(a, x);
      ZeroWord(Hash(x) % WORDSZ);
    }
  }

  lemma SameWord(a: nat, x: nat)
    requires a <= x < a + (WORDSZ - Hash(a) % WORDSZ)
    ensures Hash(x) / WORDSZ == Hash(a) / WORDSZ
  {
    var q, i := a / PHT_ENTRIES, Hash(a);
    assert x == q * PHT_ENTRIES + (i + (x - a)) && i + (x - a) < PHT_ENTRIES;
    assert Hash(x) == i + (x - a);
  }

  lemma ZeroWord(k: nat)
    ensures (0 / Pow2(k)) % 2 == 0
  {
    assert 0 / Pow2(k) == 0;
  }
}

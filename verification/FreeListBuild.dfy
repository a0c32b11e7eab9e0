/** Building the free list of the small objects of a heap block, in the words of the block. */
module FreeListBuild {
  import opened Arithmetic

  // HBLKSIZE in words.
  const WORDS: nat := 512

  /** The number of whole objects of sz words in a block. */
  function ObjectCount(sz: nat): (n: nat)
    requires 1 <= sz
    ensures sz <= WORDS ==> 1 <= n
  {
    Multiples(WORDS, sz);
    WORDS / sz
  }

  /** The word at i once the list has been built in a block at address base (in words): the first word of an object
      holds its link, to the object before it or for the first to the old list; the others are cleared or left. */
  function WordAt(words: seq<nat>, base: nat, sz: nat, clear: bool, list: nat, i: nat): nat
    requires |words| == WORDS && i < WORDS && 1 <= sz
  {
    if i % sz == 0 && i + sz <= WORDS then (if i == 0 then list else base + i - sz)
    else if clear then 0 else words[i]
  }

  /** The words of the block once the list has been built. */
  function Built(words: seq<nat>, base: nat, sz: nat, clear: bool, list: nat): (r: seq<nat>)
    requires |words| == WORDS && 1 <= sz
    ensures |r| == WORDS
  {
    seq(WORDS, i requires 0 <= i < WORDS => WordAt(words, base, sz, clear, list, i))
  }

  /** The address of the last object, the head of the list. */
  function Head(base: nat, sz: nat): nat
    requires 1 <= sz <= WORDS
  {
    Times(0, ObjectCount(sz) - 1, sz);
    base + (ObjectCount(sz) - 1) * sz
  }

  // ----- the list that has been built -----

  /** The addresses of the first n objects of a block, the last one first. */
  function Objects(base: nat, sz: nat, n: nat): seq<nat> {
    if n == 0 then [] else [base + (n - 1) * sz] + Objects(base, sz, n - 1)
  }

  /** Following the links from address p for n steps inside the block: the addresses met, and where it leads. */
  function Follow(mem: seq<nat>, base: nat, p: nat, n: nat): (seq<nat>, nat)
    requires |mem| == WORDS
    decreases n
  {
    if n == 0 || p < base || base + WORDS <= p then ([], p)
    else
      var (rest, last) := Follow(mem, base, mem[p - base], n - 1);
      ([p] + rest, last)
  }

  lemma ObjectInside(sz: nat, k: nat)
    requires 1 <= sz <= WORDS && k < ObjectCount(sz)
    ensures k * sz + sz <= WORDS && (k * sz) % sz == 0
  {
    DivMod(k, sz, 0);
    Multiples(WORDS, sz);
    Times(k + 1, ObjectCount(sz), sz);
    TimesPlus(k, sz);
  }

  /** From the k-th object the links lead through all objects before it, in descending order of address, and then
      to the old list. */
  lemma {:induction false} ListIsObjects(words: seq<nat>, base: nat, sz: nat, clear: bool, list: nat, k: nat)
    requires |words| == WORDS && 1 <= sz <= WORDS && k < ObjectCount(sz)
    ensures Follow(Built(words, base, sz, clear, list), base, base + k * sz, k + 1) == (Objects(base, sz, k + 1), list)
  {
    var mem := Built(words, base, sz, clear, list);
    ObjectInside(sz, k);
    assert mem[k * sz] == WordAt(words, base, sz, clear, list, k * sz);
    if k > 0 {
      Positive(k, sz);
      ListIsObjects(words, base, sz, clear, list, k - 1);
      assert base + k * sz - sz == base + (k - 1) * sz;
    } else {
      assert Follow(mem, base, list, 0) == ([], list);
    }
  }

  lemma Positive(k: nat, sz: nat)
    requires 1 <= k && 1 <= sz
    ensures 1 <= k * sz && (k - 1) * sz == k * sz - sz
  {
    TimesPlus(k, sz);
    Times(1, k, sz);
  }

  /** The list from its head is all whole objects of the block in descending order, followed by the old list. */
  lemma WholeList(words: seq<nat>, base: nat, sz: nat, clear: bool, list: nat)
    requires |words| == WORDS && 1 <= sz <= WORDS
    ensures 1 <= ObjectCount(sz)
    ensures Follow(Built(words, base, sz, clear, list), base, Head(base, sz), ObjectCount(sz)) ==
      (Objects(base, sz, ObjectCount(sz)), list)
  {
    ListIsObjects(words, base, sz, clear, list, ObjectCount(sz) - 1);
  }

  /** As many objects as there is room for. */
  lemma ObjectsFill(sz: nat)
    requires 1 <= sz <= WORDS
    ensures ObjectCount(sz) * sz <= WORDS < ObjectCount(sz) * sz + sz
  {
    Multiples(WORDS, sz);
    assert WORDS == sz * (WORDS / sz) + WORDS % sz;
  }

  /** The words of an object behind its link are cleared or left, and so are the words behind the last object. */
  lemma ObjectWords(words: seq<nat>, base: nat, sz: nat, clear: bool, list: nat, k: nat, o: nat)
    requires |words| == WORDS && 1 <= sz <= WORDS
    requires (k < ObjectCount(sz) && 0 < o < sz) || (k == ObjectCount(sz) && k * sz + o < WORDS)
    ensures k * sz + o < WORDS
    ensures Built(words, base, sz, clear, list)[k * sz + o] == if clear then 0 else words[k * sz + o]
  {
    ObjectsFill(sz);
    if k < ObjectCount(sz) {
      ObjectInside(sz, k);
    }
    DivMod(k, sz, o);
  }

  /** Different objects do not overlap. */
  lemma ObjectsDisjoint(sz: nat, j: nat, k: nat)
    requires 1 <= sz && j < k
    ensures j * sz + sz <= k * sz
  {
    Times(j + 1, k, sz);
    TimesPlus(j, sz);
  }

  // ----- the builders -----

  /** Cleared objects of two words, four words at a time. */
  method BuildFlClear2(mem: array<nat>, base: nat, ofl: nat) returns (head: nat)
    requires mem.Length == WORDS
    modifies mem
    ensures mem[..] == Built(old(mem[..]), base, 2, true, ofl) && head == Head(base, 2)
  {
    mem[0], mem[1], mem[2], mem[3] := ofl, 0, base, 0;
    var p := 4;
    while p < WORDS
      invariant 4 <= p <= WORDS && p % 4 == 0
      invariant forall i :: 0 <= i < p ==> mem[i] == WordAt(old(mem[..]), base, 2, true, ofl, i)
    {
      mem[p], mem[p + 1], mem[p + 2], mem[p + 3] := base + p - 2, 0, base + p, 0;
      p := p + 4;
    }
    assert mem[..] == Built(old(mem[..]), base, 2, true, ofl);
    return base + p - 2;
  }

  /** Cleared objects of four words. */
  method BuildFlClear4(mem: array<nat>, base: nat, ofl: nat) returns (head: nat)
    requires mem.Length == WORDS
    modifies mem
    ensures mem[..] == Built(old(mem[..]), base, 4, true, ofl) && head == Head(base, 4)
  {
    mem[0], mem[1], mem[2], mem[3] := ofl, 0, 0, 0;
    var p := 4;
    while p < WORDS
      invariant 4 <= p <= WORDS && p % 4 == 0
      invariant forall i :: 0 <= i < p ==> mem[i] == WordAt(old(mem[..]), base, 4, true, ofl, i)
    {
      mem[p], mem[p + 1], mem[p + 2], mem[p + 3] := base + p - 4, 0, 0, 0;
      p := p + 4;
    }
    assert mem[..] == Built(old(mem[..]), base, 4, true, ofl);
    return base + p - 4;
  }

  /** Objects of two words, not cleared. */
  method BuildFl2(mem: array<nat>, base: nat, ofl: nat) returns (head: nat)
    requires mem.Length == WORDS
    modifies mem
    ensures mem[..] == Built(old(mem[..]), base, 2, false, ofl) && head == Head(base, 2)
  {
    mem[0], mem[2] := ofl, base;
    var p := 4;
    while p < WORDS
      invariant 4 <= p <= WORDS && p % 4 == 0
      invariant forall i :: 0 <= i < p ==> mem[i] == WordAt(old(mem[..]), base, 2, false, ofl, i)
      invariant forall i :: p <= i < WORDS ==> mem[i] == old(mem[..])[i]
    {
      mem[p], mem[p + 2] := base + p - 2, base + p;
      p := p + 4;
    }
    assert mem[..] == Built(old(mem[..]), base, 2, false, ofl);
    return base + p - 2;
  }

  /** Objects of four words, not cleared, eight words at a time. */
  method BuildFl4(mem: array<nat>, base: nat, ofl: nat) returns (head: nat)
    requires mem.Length == WORDS
    modifies mem
    ensures mem[..] == Built(old(mem[..]), base, 4, false, ofl) && head == Head(base, 4)
  {
    mem[0], mem[4] := ofl, base;
    var p := 8;
    while p < WORDS
      invariant 8 <= p <= WORDS && p % 8 == 0
      invariant forall i :: 0 <= i < p ==> mem[i] == WordAt(old(mem[..]), base, 4, false, ofl, i)
      invariant forall i :: p <= i < WORDS ==> mem[i] == old(mem[..])[i]
    {
      mem[p], mem[p + 4] := base + p - 4, base + p;
      p := p + 8;
    }
    assert mem[..] == Built(old(mem[..]), base, 4, false, ofl);
    return base + p - 4;
  }

  /** Objects of any size that fits the block (GC_build_fl); sizes two and four have their own builders. */
  method BuildFl(mem: array<nat>, base: nat, sz: nat, clear: bool, list: nat) returns (head: nat)
    requires mem.Length == WORDS && 1 <= sz <= WORDS
    modifies mem
    ensures mem[..] == Built(old(mem[..]), base, sz, clear, list) && head == Head(base, sz)
  {
    if sz == 2 {
      if clear { head := BuildFlClear2(mem, base, list); } else { head := BuildFl2(mem, base, list); }
      return;
    }
    if sz == 4 {
      if clear { head := BuildFlClear4(mem, base, list); } else { head := BuildFl4(mem, base, list); }
      return;
    }
    head := BuildAny(mem, base, sz, clear, list);
  }

  /** The general loop. */
  method BuildAny(mem: array<nat>, base: nat, sz: nat, clear: bool, list: nat) returns (head: nat)
    requires mem.Length == WORDS && 1 <= sz <= WORDS
    modifies mem
    ensures mem[..] == Built(old(mem[..]), base, sz, clear, list) && head == Head(base, sz)
  {
    hide WordAt, Progress;
    ghost var start := mem[..];
    if clear {
      ClearBlock(mem);
    }
    var p, prev := sz, 0;
    ghost var k := 1;
    FirstObject(start, base, sz, clear);
    while p <= WORDS - sz
      invariant 1 <= k && p == k * sz && prev == (k - 1) * sz && p <= WORDS
      invariant forall i :: 0 <= i < WORDS ==> mem[i] == Progress(start, base, sz, clear, p, i)
    {
      NextObject(start, base, sz, clear, k);
      TimesPlus(k, sz);
      mem[p] := base + prev;
      prev := p;
      p, k := p + sz, k + 1;
    }
    p := p - sz;
    LastObject(sz, k);
    mem[0] := list;
    forall i | 0 <= i < WORDS ensures mem[i] == WordAt(start, base, sz, clear, list, i) {
      AllObjects(start, base, sz, clear, list, k, i);
    }
    assert mem[..] == Built(start, base, sz, clear, list);
    return base + p;
  }

  method ClearBlock(mem: array<nat>)
    requires mem.Length == WORDS
    modifies mem
    ensures forall i :: 0 <= i < WORDS ==> mem[i] == 0
  {
    var i := 0;
    while i < WORDS
      invariant 0 <= i <= WORDS && forall j :: 0 <= j < i ==> mem[j] == 0
    {
      mem[i] := 0;
      i := i + 1;
    }
  }

  /** The word at i when the objects before p, but for the first, have their links. */
  function Progress(start: seq<nat>, base: nat, sz: nat, clear: bool, p: nat, i: nat): nat
    requires |start| == WORDS && i < WORDS && 1 <= sz
  {
    if i % sz == 0 && sz <= i < p then base + i - sz else if clear then 0 else start[i]
  }

  lemma FirstObject(start: seq<nat>, base: nat, sz: nat, clear: bool)
    requires |start| == WORDS && 1 <= sz
    ensures forall i :: 0 <= i < WORDS ==> Progress(start, base, sz, clear, sz, i) == if clear then 0 else start[i]
  {
  }

  lemma NextObject(start: seq<nat>, base: nat, sz: nat, clear: bool, k: nat)
    requires |start| == WORDS && 1 <= sz && 1 <= k && k * sz < WORDS
    ensures Progress(start, base, sz, clear, k * sz + sz, k * sz) == base + k * sz - sz
    ensures forall i :: 0 <= i < WORDS && i != k * sz ==>
      Progress(start, base, sz, clear, k * sz + sz, i) == Progress(start, base, sz, clear, k * sz, i)
  {
    DivMod(k, sz, 0);
    Times(1, k, sz);
    forall i | k * sz < i < k * sz + sz ensures i % sz != 0 {
      DivMod(k, sz, i - k * sz);
    }
  }

  /** Where the loop stops: after the last whole object. */
  lemma LastObject(sz: nat, k: nat)
    requires 1 <= sz <= WORDS && 1 <= k && k * sz <= WORDS && WORDS < k * sz + sz
    ensures k == ObjectCount(sz) && (k - 1) * sz == k * sz - sz
  {
    DivMod(k, sz, WORDS - k * sz);
    TimesPlus(k, sz);
  }

  /** After the loop all objects but the first have their links. */
  lemma AllObjects(start: seq<nat>, base: nat, sz: nat, clear: bool, list: nat, k: nat, i: nat)
    requires |start| == WORDS && 1 <= sz <= WORDS && 1 <= k && k * sz <= WORDS && WORDS < k * sz + sz && i < WORDS
    ensures WordAt(start, base, sz, clear, list, i) ==
      if i == 0 then list else Progress(start, base, sz, clear, k * sz, i)
  {
    if i % sz == 0 {
      StartInside(sz, k, i);
    }
  }

  lemma StartInside(sz: nat, k: nat, i: nat)
    requires 1 <= sz && k * sz <= WORDS && WORDS < k * sz + sz && i % sz == 0
    ensures i + sz <= WORDS <==> i < k * sz
    ensures i != 0 ==> sz <= i
  {
    Multiples(i, sz);
    var q := i / sz;
    if q < k {
      Times(q + 1, k, sz);
      TimesPlus(q, sz);
    } else {
      Times(k, q, sz);
    }
    if q >= 1 {
      Times(1, q, sz);
    }
  }
}

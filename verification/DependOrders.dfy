/** How large depend orders get, and what happens when a word does not hold them. */
module DependOrders {
  import opened Arithmetic
  import opened Sums
  import opened Units

  // ----- the largest order -----

  /** The dependencies of the units in S are in S. */
  ghost predicate DownClosed(m: UnitMap, S: set<Name>) {
    S <= m.Keys && forall n, d :: n in S && d in Deps(m, n) ==> d in S
  }

  /** The orders of such a set of units together stay below a power of two. */
  lemma {:induction false} TotalBound(m: UnitMap, rank: map<Name, nat>, S: set<Name>)
    requires Acyclic(m, rank) && DownClosed(m, S)
    ensures Total(WeightsOf(m, rank, S)) < Pow2(|S|)
    decreases |S|
  {
    hide Weight, Total;
    if S == {} {
      assert WeightsOf(m, rank, S) == map[];
      NoTotal();
    } else {
      var n := Highest(m, rank, S);
      var rest := S - {n};
      assert DownClosed(m, rest);
      TotalBound(m, rank, rest);
      WeightBelow(m, rank, n, rest);
      WeightsOfNext(m, rank, rest, n);
      assert rest + {n} == S && |S| == |rest| + 1;
    }
  }

  lemma NoTotal()
    ensures Total<Name>(map[]) == 0
  {
  }

  /** A unit of S that no unit of S depends on. */
  lemma {:induction false} Highest(m: UnitMap, rank: map<Name, nat>, S: set<Name>) returns (n: Name)
    requires Acyclic(m, rank) && S <= m.Keys && S != {}
    ensures n in S && forall x :: x in S ==> rank[x] <= rank[n]
    decreases |S|
  {
    n :| n in S;
    if S != {n} {
      var k := Highest(m, rank, S - {n});
      n := if rank[n] < rank[k] then k else n;
    }
  }

  /** The order of a unit whose dependencies are among the units of rest. */
  lemma WeightBelow(m: UnitMap, rank: map<Name, nat>, n: Name, rest: set<Name>)
    requires Acyclic(m, rank) && n in m && Deps(m, n) <= rest <= m.Keys
    ensures Weight(m, rank, n) <= 1 + Total(WeightsOf(m, rank, rest))
  {
    var others := rest - Deps(m, n);
    assert WeightsOf(m, rank, Deps(m, n)) == Weights(m, rank, n);
    assert WeightsOf(m, rank, Deps(m, n)) + WeightsOf(m, rank, others) == WeightsOf(m, rank, rest);
    TotalUnion(WeightsOf(m, rank, Deps(m, n)), WeightsOf(m, rank, others));
  }

  /** An order is at most 2^(k - 1) in a map of k units. */
  lemma WeightBound(m: UnitMap, rank: map<Name, nat>, n: Name)
    requires Acyclic(m, rank) && n in m
    ensures Weight(m, rank, n) <= Pow2(|m| - 1)
  {
    hide Weight, Total;
    var below := set x | x in m && rank[x] < rank[n];
    assert DownClosed(m, below);
    TotalBound(m, rank, below);
    WeightBelow(m, rank, n, below);
    assert below <= m.Keys - {n};
    SubsetCount(below, m.Keys - {n});
    assert |m.Keys - {n}| == |m| - 1;
    Pow2Grows(|below|, |m| - 1);
  }

  lemma {:induction false} SubsetCount(s: set<Name>, t: set<Name>)
    requires s <= t
    ensures |s| <= |t|
  {
    assert t == s + (t - s);
  }

  // ----- towers -----

  /** A series of units, each of which depends on all before it. */
  function Floor(i: nat): Name {
    Original(seq(i, _ => 'x'))
  }

  function FloorUnit(i: nat): CompileUnit {
    CompileUnit(Floor(i), "d", "", set j: nat | j < i :: Floor(j), {}, 0)
  }

  function Tower(k: nat): UnitMap {
    if k == 0 then map[] else Tower(k - 1)[Floor(k - 1) := FloorUnit(k - 1)]
  }

  function Heights(k: nat): map<Name, nat> {
    if k == 0 then map[] else Heights(k - 1)[Floor(k - 1) := k - 1]
  }

  lemma FloorsDiffer(i: nat, j: nat)
    requires i != j
    ensures Floor(i) != Floor(j)
  {
    assert |Floor(i).id| == i && |Floor(j).id| == j;
  }

  lemma {:induction false} TowerIs(k: nat)
    ensures forall n :: n in Tower(k) <==> exists i: nat :: i < k && n == Floor(i)
    ensures forall i: nat :: i < k ==> Floor(i) in Tower(k) && Tower(k)[Floor(i)] == FloorUnit(i)
    ensures |Tower(k)| == k
  {
    hide Floor, FloorUnit;
    if k != 0 {
      TowerIs(k - 1);
      forall i: nat | i < k - 1 ensures Floor(i) != Floor(k - 1) {
        FloorsDiffer(i, k - 1);
      }
    }
  }

  lemma {:induction false} HeightsAre(k: nat)
    ensures Heights(k).Keys == Tower(k).Keys
    ensures forall i: nat :: i < k ==> Floor(i) in Heights(k) && Heights(k)[Floor(i)] == i
  {
    hide Floor, FloorUnit;
    if k != 0 {
      HeightsAre(k - 1);
      forall i: nat | i < k - 1 ensures Floor(i) != Floor(k - 1) {
        FloorsDiffer(i, k - 1);
      }
    }
  }

  lemma TowerDeps(k: nat, i: nat)
    requires i < k
    ensures Floor(i) in Tower(k) && Deps(Tower(k), Floor(i)) == FloorUnit(i).declDepends
  {
    TowerIs(k);
    forall j: nat | j < i ensures Floor(j) != Floor(i) {
      FloorsDiffer(i, j);
    }
  }

  lemma TowerAcyclic(k: nat)
    ensures Acyclic(Tower(k), Heights(k)) && forall n :: n in Tower(k) ==> Tower(k)[n].dependOrder == 0
  {
    TowerIs(k);
    HeightsAre(k);
    forall n | n in Tower(k) ensures Tower(k)[n].name == n && Tower(k)[n].dependOrder == 0 {
      var i: nat :| i < k && n == Floor(i);
    }
    forall n, d | n in Tower(k) && d in Deps(Tower(k), n) ensures Heights(k)[d] < Heights(k)[n] {
      var i: nat :| i < k && n == Floor(i);
      TowerDeps(k, i);
      var j: nat :| j < i && d == Floor(j);
    }
  }

  /** The orders double from floor to floor. */
  lemma {:induction false} FloorWeight(k: nat, i: nat)
    requires i < k && Acyclic(Tower(k), Heights(k))
    ensures Floor(i) in Tower(k) && Weight(Tower(k), Heights(k), Floor(i)) == Pow2(i)
  {
    hide Acyclic, Weight, Total, Floor, FloorUnit, Tower, Heights;
    TowerDeps(k, i);
    if i == 0 {
      NoFloors(k);
    } else {
      FloorWeight(k, i - 1);
      NextFloor(k, i);
    }
  }

  lemma NoFloors(k: nat)
    requires 0 < k && Acyclic(Tower(k), Heights(k))
    ensures Floor(0) in Tower(k) && Weight(Tower(k), Heights(k), Floor(0)) == 1
  {
    hide Floor, Tower, Heights;
    TowerDeps(k, 0);
    assert Weights(Tower(k), Heights(k), Floor(0)) == map[];
    NoTotal();
  }

  lemma NextFloor(k: nat, i: nat)
    requires 0 < i < k && Acyclic(Tower(k), Heights(k))
    ensures Floor(i) in Tower(k) && Floor(i - 1) in Tower(k)
    ensures Weight(Tower(k), Heights(k), Floor(i)) == 2 * Weight(Tower(k), Heights(k), Floor(i - 1))
  {
    hide Floor, Tower, Heights, Total;
    var m, rank := Tower(k), Heights(k);
    TowerDeps(k, i);
    TowerDeps(k, i - 1);
    FloorsBelow(i);
    assert Weights(m, rank, Floor(i)) == Weights(m, rank, Floor(i - 1))[Floor(i - 1) := Weight(m, rank, Floor(i - 1))];
    TotalInsert(Weights(m, rank, Floor(i - 1)), Floor(i - 1), Weight(m, rank, Floor(i - 1)));
  }

  lemma FloorsBelow(i: nat)
    requires 0 < i
    ensures FloorUnit(i).declDepends == FloorUnit(i - 1).declDepends + {Floor(i - 1)}
    ensures Floor(i - 1) !in FloorUnit(i - 1).declDepends
  {
    forall j: nat | j < i - 1 ensures Floor(j) != Floor(i - 1) {
      FloorsDiffer(j, i - 1);
    }
  }

  // ----- when orders fit -----

  ghost predicate AllFit(k: nat) {
    forall m, rank :: Acyclic(m, rank) && |m| <= k ==> OrdersFit(m, rank)
  }

  /** Words of 64 bits hold the orders of all maps of at most k units just when k is at most 64. */
  lemma FitExactly(k: nat)
    ensures AllFit(k) <==> k <= 64
  {
    hide Weight;
    WordPow2();
    if k <= 64 {
      forall m, rank | Acyclic(m, rank) && |m| <= k ensures OrdersFit(m, rank) {
        forall n | n in m ensures Weight(m, rank, n) < WORD {
          WeightBound(m, rank, n);
          Pow2Grows(|m| - 1, 63);
          assert Pow2(64) == 2 * Pow2(63);
        }
      }
    } else {
      TowerAcyclic(65);
      TowerIs(65);
      FloorWeight(65, 64);
      assert !OrdersFit(Tower(65), Heights(65));
    }
  }

  /** Units of an acyclic map that have got their orders, and some of them sorted by these. */
  ghost predicate Sorting(m: UnitMap, rank: map<Name, nat>, now: UnitMap, us: seq<CompileUnit>) {
    Acyclic(m, rank) && Finals(m, rank, now) && Listed(now, us) && SortedUnits(us)
  }

  /** Lists of units sorted by their orders hold declarations before their uses. */
  ghost predicate AllDeclared(k: nat) {
    forall m, rank, now, us :: Sorting(m, rank, now, us) && |m| <= k ==> DeclaredBefore(us)
  }

  /** The same for lists of all units of the map. */
  ghost predicate WholeDeclared(k: nat) {
    forall m, rank, now, us ::
      Sorting(m, rank, now, us) && |m| <= k && NamesOf(us) == m.Keys ==> DeclaredBefore(us)
  }

  /** Sorting by the orders puts declarations before their uses, in all maps of at most k units and for all sorted
      lists, just when k is at most 64. */
  lemma DeclaredExactly(k: nat)
    ensures AllDeclared(k) <==> k <= 64
    ensures WholeDeclared(k) <==> k <= 64
  {
    hide OrdersFit, Finals, Listed, SortedUnits, DeclaredBefore, Acyclic, NamesOf, Tower, Heights;
    if k <= 64 {
      FitExactly(k);
      forall m, rank, now, us | Sorting(m, rank, now, us) && |m| <= k ensures DeclaredBefore(us) {
        FinalsDeclared(m, rank, now, us);
      }
    } else {
      TowerAcyclic(65);
      TowerIs(65);
      var now, us := SortedTower();
      TowerMisplaced(now, us);
      assert Sorting(Tower(65), Heights(65), now, us);
    }
  }

  lemma FinalsDeclared(m: UnitMap, rank: map<Name, nat>, now: UnitMap, us: seq<CompileUnit>)
    requires Acyclic(m, rank) && OrdersFit(m, rank) && Finals(m, rank, now) && Listed(now, us) && SortedUnits(us)
    ensures DeclaredBefore(us)
  {
    AcyclicNamed(m, rank);
    hide Acyclic, OrdersFit, Finals, Listed, SortedUnits, DeclaredBefore, Named, Rising, Tidy;
    FinalsRise(m, rank, now);
    SortedDeclares(now, us);
  }

  lemma AcyclicNamed(m: UnitMap, rank: map<Name, nat>)
    requires Acyclic(m, rank)
    ensures Named(m)
  {
  }

  /** The i-th floor of the tower in the order of depend orders: the highest comes first. */
  function ByOrder(i: nat): Name {
    Floor(if i == 0 then 64 else i - 1)
  }

  lemma SortedTower() returns (now: UnitMap, us: seq<CompileUnit>)
    requires Acyclic(Tower(65), Heights(65))
    ensures Finals(Tower(65), Heights(65), now) && Listed(now, us) && SortedUnits(us) && NamesOf(us) == Tower(65).Keys
    ensures Floor(64) in NamesOf(us) && Floor(63) in NamesOf(us)
  {
    hide Tower, Heights, Floor, Acyclic, Weight, FloorUnit, ByOrder, NamesOf, Final;
    var m, rank := Tower(65), Heights(65);
    now := map n | n in m :: Final(m, rank, n);
    TowerFinal(now);
    us := seq(65, i requires 0 <= i < 65 => if ByOrder(i) in now then now[ByOrder(i)] else FloorUnit(0));
    forall i: nat | i < 65 ensures ByOrder(i) in now && us[i] == now[ByOrder(i)] && us[i].name == ByOrder(i) {
      TowerOrder(now, i);
    }
    forall i: nat, j: nat | i < j < 65 ensures us[i].name != us[j].name && us[i].dependOrder <= us[j].dependOrder {
      OrderedPair(now, i, j);
    }
    AllNamed(us);
  }

  lemma OrderedPair(now: UnitMap, i: nat, j: nat)
    requires Acyclic(Tower(65), Heights(65)) && Finals(Tower(65), Heights(65), now) && i < j < 65
    ensures ByOrder(i) != ByOrder(j) && ByOrder(i) in now && ByOrder(j) in now
    ensures now[ByOrder(i)].dependOrder <= now[ByOrder(j)].dependOrder
  {
    hide Tower, Heights, Floor, Acyclic, Finals;
    TowerOrder(now, i);
    TowerOrder(now, j);
    FloorsDiffer(if i == 0 then 64 else i - 1, j - 1);
    if i != 0 {
      Pow2Grows(i - 1, j - 1);
    }
  }

  lemma AllNamed(us: seq<CompileUnit>)
    requires |us| == 65 && forall i: nat :: i < 65 ==> us[i].name == ByOrder(i)
    ensures NamesOf(us) == Tower(65).Keys && Floor(64) in NamesOf(us) && Floor(63) in NamesOf(us)
  {
    hide Tower, Floor, FloorUnit;
    TowerIs(65);
    forall i: nat | i < 65 ensures us[i].name in Tower(65) {
    }
    forall n | n in Tower(65) ensures n in NamesOf(us) {
      var i: nat :| i < 65 && n == Floor(i);
      assert us[if i == 64 then 0 else i + 1].name == n;
    }
  }

  lemma TowerFinal(now: UnitMap)
    requires Acyclic(Tower(65), Heights(65)) && now == map n | n in Tower(65) :: Final(Tower(65), Heights(65), n)
    ensures Finals(Tower(65), Heights(65), now)
  {
    hide Tower, Heights, Acyclic, Weight;
    TowerAcyclic(65);
  }

  lemma TowerOrder(now: UnitMap, i: nat)
    requires Acyclic(Tower(65), Heights(65)) && Finals(Tower(65), Heights(65), now) && i < 65
    ensures ByOrder(i) in now && now[ByOrder(i)].name == ByOrder(i)
    ensures now[ByOrder(i)].dependOrder == if i == 0 then 0 else Pow2(i - 1)
  {
    hide Weight, Tower, Heights, Floor, Acyclic, FloorUnit;
    WordPow2();
    var k := if i == 0 then 64 else i - 1;
    FloorWeight(65, k);
    assert IsFinal(Tower(65), Heights(65), Floor(k), now[Floor(k)]);
    FloorName(k);
    if i != 0 {
      Pow2Grows(i - 1, 63);
    }
    assert Pow2(64) == 2 * Pow2(63);
  }

  lemma FloorName(k: nat)
    requires k < 65
    ensures Floor(k) in Tower(65) && Tower(65)[Floor(k)].name == Floor(k)
  {
    hide Floor;
    TowerIs(65);
  }

  /** Sorted by their orders, the units of a tower of 65 floors are not declared before their use: the highest
      has order 0 and comes before the one below it, on which it depends. */
  lemma TowerMisplaced(now: UnitMap, us: seq<CompileUnit>)
    requires Acyclic(Tower(65), Heights(65)) && Finals(Tower(65), Heights(65), now)
    requires Listed(now, us) && SortedUnits(us) && Floor(64) in NamesOf(us) && Floor(63) in NamesOf(us)
    ensures !DeclaredBefore(us)
  {
    hide Weight, Tower, Heights, Floor, Acyclic, Listed, Finals;
    var i :| 0 <= i < |us| && us[i].name == Floor(64);
    FloorOrder(now, us, i);
    forall j | 0 <= j < i ensures us[..i][j].name != Floor(63) {
      FloorOrder(now, us, j);
      assert us[j].dependOrder <= us[i].dependOrder;
    }
  }

  lemma FloorOrder(now: UnitMap, us: seq<CompileUnit>, j: nat)
    requires Acyclic(Tower(65), Heights(65)) && Finals(Tower(65), Heights(65), now) && Listed(now, us) && j < |us|
    ensures us[j].name == Floor(64) ==> us[j].dependOrder == 0 && Floor(63) in us[j].declDepends
    ensures us[j].name == Floor(63) ==> 0 < us[j].dependOrder
  {
    hide Weight, Tower, Heights, Floor, Acyclic;
    WordPow2();
    FloorWeight(65, 64);
    FloorWeight(65, 63);
    TowerDeps(65, 64);
    assert us[j] in us && Pow2(64) == 2 * Pow2(63);
  }

  /** No floor of a tower is a bridge type. */
  lemma NoBridge(k: nat, now: UnitMap, bridge: seq<CompileUnit>)
    requires now.Keys == Tower(k).Keys && LeastBridge(now, bridge)
    ensures bridge == []
  {
    TowerIs(k);
    forall n | n in BRIDGE_TYPES ensures n !in now {
      assert n.id != "" && n.id[0] != 'x';
    }
    assert ClosedSet(now, {});
    NoNames(bridge);
  }

  /** So merging a tower of 65 units puts one before another whose declarations it needs. */
  lemma TowerMergedWrong(ordered: UnitMap, bridge: seq<CompileUnit>, rest: seq<CompileUnit>)
    requires Acyclic(Tower(65), Heights(65)) && Finals(Tower(65), Heights(65), ordered) && LeastBridge(ordered, bridge)
    requires Split(Resorted(ordered, bridge), bridge, rest) && SortedUnits(rest)
    ensures bridge == [] && NamesOf(rest) == Tower(65).Keys && !DeclaredBefore(rest)
  {
    hide Tower, Heights, Floor, DeclaredBefore, SortedUnits, LeastBridge, Listed, NamesOf, Acyclic, Final;
    NoBridge(65, ordered, bridge);
    TowerIs(65);
    NamesOfNone();
    assert Floor(64) in NamesOf(rest) && Floor(63) in NamesOf(rest);
    TowerMisplaced(ordered, rest);
  }

  /** The highest floor goes to no later merged unit than the one below it. */
  lemma TowerPlacedWrong(ordered: UnitMap, rest: seq<CompileUnit>, place: seq<nat>, count: nat, trans: map<Name, Name>)
    requires Acyclic(Tower(65), Heights(65)) && Finals(Tower(65), Heights(65), ordered) && Listed(ordered, rest)
    requires NamesOf(rest) == Tower(65).Keys && SortedUnits(rest)
    requires |place| == |rest| && InOrder(place, count) && Placed([], rest, place, trans)
    ensures Floor(64) in trans && Floor(63) in trans && trans[Floor(64)].Merged? && trans[Floor(63)].Merged?
    ensures trans[Floor(64)].n <= trans[Floor(63)].n
  {
    hide Tower, Heights, Floor, DeclaredBefore, Listed, Acyclic, Finals, SortedUnits;
    var i, j := HighestFirst(ordered, rest);
    assert trans[rest[i].name] == Merged(place[i]) && trans[rest[j].name] == Merged(place[j]);
  }

  lemma HighestFirst(ordered: UnitMap, rest: seq<CompileUnit>) returns (i: nat, j: nat)
    requires Acyclic(Tower(65), Heights(65)) && Finals(Tower(65), Heights(65), ordered) && Listed(ordered, rest)
    requires NamesOf(rest) == Tower(65).Keys && SortedUnits(rest)
    ensures i < j < |rest| && rest[i].name == Floor(64) && rest[j].name == Floor(63)
  {
    hide Tower, Heights, Floor, Listed, Acyclic, Finals;
    TowerIs(65);
    assert Floor(64) in NamesOf(rest) && Floor(63) in NamesOf(rest);
    i :| 0 <= i < |rest| && rest[i].name == Floor(64);
    j :| 0 <= j < |rest| && rest[j].name == Floor(63);
    FloorOrder(ordered, rest, i);
    FloorOrder(ordered, rest, j);
    assert i <= j;
  }

  lemma NamesOfNone()
    ensures NamesOf([]) == {}
  {
  }
}

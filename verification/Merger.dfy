/** Merging compile units: one bridge unit and numbered units, so that declarations come before their uses. */
module Mergers {
  import opened Arithmetic
  import opened Sums
  import opened Units
  import opened DependOrders

  class CompileUnitMerger {
    var unitMap: UnitMap
    var unitCounter: nat

    constructor (units: UnitMap)
      ensures unitMap == units && unitCounter == 0
    {
      unitMap, unitCounter := units, 0;
    }

    // ----- the order of units -----

    /** The order of a unit, in words of 64 bits. stack holds the units whose computation has been begun
        (stackUnitNames): for these the result is 0 while they have no order. They are on a cycle then, or their order
        is 0. */
    method GetDependOrder(name: Name, stack: set<Name>, ghost m: UnitMap, ghost rank: map<Name, nat>)
      returns (order: nat, stack': set<Name>)
      requires InProgress(m, rank, unitMap) && Stacking(m, unitMap, rank, stack, name)
      modifies this`unitMap
      ensures InProgress(m, rank, unitMap) && Later(m, rank, name, old(unitMap), unitMap)
      ensures name in m && order < WORD && OrderRight(m, rank, unitMap, name, order)
      ensures name in unitMap
      ensures name !in stack ==> IsFinal(m, rank, name, unitMap[name]) && order == unitMap[name].dependOrder
      ensures Begun(m, rank, stack, unitMap, stack') && Untouched(stack, old(unitMap), unitMap)
      decreases |m.Keys - stack|
    {
      hide Acyclic, InProgress, Weight, Progressed, WeightsOf, Total, Stacking, Later, Begun, Final, HasOrder, IsFinal;
      hide IsOptimized, OrderRight, SumRight, StackedAt, Untouched;
      ghost var before := unitMap;
      StackingIn(m, unitMap, rank, stack, name);
      ProgressAt(m, rank, unitMap, name);
      LaterSame(m, rank, name, unitMap);
      BegunSame(m, rank, stack, unitMap, name);
      UntouchedSame(stack, unitMap);
      stack' := stack;
      var unit := unitMap[name];
      order := unit.dependOrder;
      if order != 0 {
        FinalRight(m, rank, unitMap, name);
        return;
      }
      if name in stack' {
        StackingAt(m, unitMap, rank, stack, name);
        return;
      }
      stack' := stack' + {name};
      unit := Optimized(unit, unitMap.Keys);
      OptimizedProgressed(m, rank, name);
      ProgressSet(m, rank, unitMap, name, unit);
      LaterSet(m, rank, name, before, unitMap, unit);
      UntouchedSet(stack, before, unitMap, name, unit);
      unitMap := unitMap[name := unit];
      StackingPush(m, before, unitMap, rank, stack, name);
      ghost var done := {};
      NothingWeighs(m, rank);
      var todo := unit.declDepends;
      while todo != {}
        invariant done == Deps(m, name) - todo && todo <= Deps(m, name) && InProgress(m, rank, unitMap)
        invariant order < WORD && SumRight(m, rank, done, order)
        invariant Later(m, rank, name, before, unitMap) && name in unitMap && unitMap[name] == unit
        invariant stack + {name} <= stack' && StackedAt(m, unitMap, rank, stack, stack', name)
        invariant Untouched(stack, before, unitMap)
      {
        var dep :| dep in todo;
        StackingDown(m, rank, unitMap, stack, stack', name, dep);
        FewerOff(m.Keys, stack, stack', name);
        ghost var u0, s0 := unitMap, stack';
        var o;
        o, stack' := GetDependOrder(dep, stack', m, rank);
        UntouchedAt(s0, u0, unitMap, name);
        UntouchedTrans(stack, s0, before, u0, unitMap);
        LaterTrans(m, rank, name, dep, before, u0, unitMap);
        StackedNext(m, rank, u0, unitMap, stack, s0, stack', name, dep);
        SumNext(m, rank, unitMap, done, dep, order, o);
        order := (order + o) % WORD;
        todo, done := todo - {dep}, done + {dep};
        assert done == Deps(m, name) - todo;
      }
      assert done == Deps(m, name);
      SumDone(m, rank, name, order);
      order := (order + 1) % WORD;
      unit := unit.(dependOrder := order);
      FinalProgressed(m, rank, name, unit);
      ProgressSet(m, rank, unitMap, name, unit);
      LaterSet(m, rank, name, before, unitMap, unit);
      UntouchedSet(stack, before, unitMap, name, unit);
      StackedDone(m, unitMap, unitMap[name := unit], rank, stack, stack', name);
      unitMap := unitMap[name := unit];
      FinalRight(m, rank, unitMap, name);
    }

    /** Optimised units stay so. If the dependencies are acyclic, units that have their order stay, and units above n
        are left alone. */
    ghost predicate Later(m: UnitMap, rank: map<Name, nat>, n: Name, a: UnitMap, b: UnitMap) {
      && a.Keys == b.Keys == m.Keys && n in m
      && (forall x :: x in m && IsOptimized(m, x, a[x]) ==> IsOptimized(m, x, b[x]))
      && (Acyclic(m, rank) ==>
        && (forall x :: x in m && (a[x] == Final(m, rank, x) || rank[x] > rank[n]) ==> b[x] == a[x])
        && (forall x :: x in m && a[x].dependOrder == Weight(m, rank, x) % WORD ==>
          b[x].dependOrder == a[x].dependOrder))
    }

    /** The units of the set are as before. */
    ghost predicate Untouched(S: set<Name>, a: UnitMap, b: UnitMap) {
      forall x :: x in S && x in a ==> x in b && b[x] == a[x]
    }

    /** The order of a unit, if the dependencies are acyclic. */
    ghost predicate OrderRight(m: UnitMap, rank: map<Name, nat>, now: UnitMap, n: Name, w: nat)
      requires n in m
    {
      Acyclic(m, rank) ==> w == Weight(m, rank, n) % WORD && HasOrder(m, rank, now, n)
    }

    /** The orders of some dependencies together, if they are acyclic. */
    ghost predicate SumRight(m: UnitMap, rank: map<Name, nat>, done: set<Name>, w: nat)
      requires done <= m.Keys
    {
      Acyclic(m, rank) ==> w == Total(WeightsOf(m, rank, done)) % WORD
    }

    /** The stack has grown, by units that have their order if the dependencies are acyclic. */
    ghost predicate Begun(m: UnitMap, rank: map<Name, nat>, stack: set<Name>, now: UnitMap, stack': set<Name>) {
      stack <= stack' <= m.Keys && (Acyclic(m, rank) ==> forall n :: n in stack' ==>
        n in stack || HasOrder(m, rank, now, n))
    }

    /** The same while name is being computed; and what was there before is above it, or has its order. */
    ghost predicate StackedAt(m: UnitMap, now: UnitMap, rank: map<Name, nat>, stack: set<Name>, stack': set<Name>,
                              name: Name) {
      && Stacking(m, now, rank, stack, name) && stack + {name} <= stack' <= m.Keys
      && (Acyclic(m, rank) ==> forall n :: n in stack' ==> n in stack || n == name || HasOrder(m, rank, now, n))
    }

    lemma StackingIn(m: UnitMap, now: UnitMap, rank: map<Name, nat>, stack: set<Name>, n: Name)
      requires Stacking(m, now, rank, stack, n)
      ensures n in m && stack <= m.Keys
    {
    }

    lemma FewerOff(u: set<Name>, s: set<Name>, s': set<Name>, n: Name)
      requires n in u && n !in s && s + {n} <= s'
      ensures |u - s'| < |u - s|
    {
      SubsetCount(u - s', u - s - {n});
      assert u - s == (u - s - {n}) + {n};
    }

    lemma UntouchedSame(S: set<Name>, a: UnitMap)
      ensures Untouched(S, a, a)
    {
    }

    lemma UntouchedSet(S: set<Name>, a: UnitMap, b: UnitMap, n: Name, u: CompileUnit)
      requires Untouched(S, a, b) && n !in S
      ensures Untouched(S, a, b[n := u])
    {
    }

    lemma UntouchedAt(S: set<Name>, a: UnitMap, b: UnitMap, n: Name)
      requires Untouched(S, a, b) && n in S && n in a
      ensures n in b && b[n] == a[n]
    {
    }

    lemma UntouchedTrans(S: set<Name>, T: set<Name>, a: UnitMap, b: UnitMap, c: UnitMap)
      requires Untouched(S, a, b) && Untouched(T, b, c) && S <= T
      ensures Untouched(S, a, c)
    {
    }

    lemma FinalRight(m: UnitMap, rank: map<Name, nat>, now: UnitMap, n: Name)
      requires n in m && n in now && IsFinal(m, rank, n, now[n])
      ensures OrderRight(m, rank, now, n, now[n].dependOrder)
    {
    }

    lemma LaterSame(m: UnitMap, rank: map<Name, nat>, n: Name, a: UnitMap)
      requires InProgress(m, rank, a) && n in m
      ensures Later(m, rank, n, a, a)
    {
      hide Acyclic, Progressed, Weight;
    }

    lemma BegunSame(m: UnitMap, rank: map<Name, nat>, stack: set<Name>, now: UnitMap, n: Name)
      requires Stacking(m, now, rank, stack, n)
      ensures Begun(m, rank, stack, now, stack)
    {
    }

    lemma StackingAt(m: UnitMap, now: UnitMap, rank: map<Name, nat>, stack: set<Name>, n: Name)
      requires n in m && n in stack && Stacking(m, now, rank, stack, n) && n in now && now[n].dependOrder == 0
      ensures OrderRight(m, rank, now, n, 0)
    {
    }

    lemma LaterSet(m: UnitMap, rank: map<Name, nat>, n: Name, a: UnitMap, b: UnitMap, u: CompileUnit)
      requires Later(m, rank, n, a, b) && n in m && n in a && a[n].dependOrder == 0 && m[n].dependOrder == 0
      requires u == Optimized(m[n], m.Keys) || IsFinal(m, rank, n, u)
      ensures Later(m, rank, n, a, b[n := u])
    {
      hide Weight, Acyclic;
    }

    lemma LaterTrans(m: UnitMap, rank: map<Name, nat>, n: Name, d: Name, a: UnitMap, b: UnitMap, c: UnitMap)
      requires Later(m, rank, n, a, b) && Later(m, rank, d, b, c) && n in m && d in Deps(m, n)
      ensures Later(m, rank, n, a, c)
    {
      hide Weight, Final, IsOptimized;
    }

    lemma StackingPush(m: UnitMap, a: UnitMap, b: UnitMap, rank: map<Name, nat>, stack: set<Name>, n: Name)
      requires n in m && Stacking(m, a, rank, stack, n) && n in a && n in b && b == a[n := b[n]] && n !in stack
      ensures StackedAt(m, b, rank, stack, stack + {n}, n)
    {
      hide Weight, Acyclic;
    }

    lemma StackingDown(m: UnitMap, rank: map<Name, nat>, now: UnitMap, stack: set<Name>, stack': set<Name>, n: Name,
                       d: Name)
      requires StackedAt(m, now, rank, stack, stack', n) && n in m && d in Deps(m, n)
      ensures Stacking(m, now, rank, stack', d) && d in m
    {
      hide HasOrder;
    }

    lemma StackedNext(m: UnitMap, rank: map<Name, nat>, a: UnitMap, b: UnitMap, stack: set<Name>, s: set<Name>,
                      s': set<Name>, n: Name, d: Name)
      requires StackedAt(m, a, rank, stack, s, n) && Later(m, rank, d, a, b) && Begun(m, rank, s, b, s')
      ensures StackedAt(m, b, rank, stack, s', n) && stack + {n} <= s'
    {
      hide Weight, Acyclic, Final, IsOptimized;
    }

    lemma StackedDone(m: UnitMap, a: UnitMap, b: UnitMap, rank: map<Name, nat>, stack: set<Name>, s: set<Name>, n: Name)
      requires StackedAt(m, a, rank, stack, s, n) && n in m && n in b && b == a[n := b[n]]
      requires IsFinal(m, rank, n, b[n])
      ensures Begun(m, rank, stack, b, s)
    {
      hide Weight, Acyclic, IsOptimized;
    }

    lemma SumNext(m: UnitMap, rank: map<Name, nat>, now: UnitMap, done: set<Name>, d: Name, w: nat, o: nat)
      requires done <= m.Keys && d in m && d !in done && SumRight(m, rank, done, w) && OrderRight(m, rank, now, d, o)
      ensures SumRight(m, rank, done + {d}, (w + o) % WORD)
    {
      hide Weight, Acyclic, WeightsOf, Total;
      if Acyclic(m, rank) {
        WeightsOfNext(m, rank, done, d);
        WordSum(Total(WeightsOf(m, rank, done)), Weight(m, rank, d));
      }
    }

    lemma SumDone(m: UnitMap, rank: map<Name, nat>, n: Name, w: nat)
      requires n in m && SumRight(m, rank, Deps(m, n), w)
      ensures Acyclic(m, rank) ==> (w + 1) % WORD == Weight(m, rank, n) % WORD
    {
      hide Weight, Acyclic, WeightsOf, Total;
      if Acyclic(m, rank) {
        PartWeight(m, rank, n, Deps(m, n));
        WordSum(Total(WeightsOf(m, rank, Deps(m, n))), 1);
      }
    }

    /** Sums in words. */
    lemma WordSum(a: nat, b: nat)
      ensures (a % WORD + b % WORD) % WORD == (a + b) % WORD && (a % WORD + b) % WORD == (a + b) % WORD
    {
    }

    lemma OptimizedProgressed(m: UnitMap, rank: map<Name, nat>, n: Name)
      requires n in m
      ensures Progressed(m, rank, n, Optimized(m[n], m.Keys))
      ensures m[n].name == n ==> Optimized(m[n], m.Keys).declDepends == Deps(m, n)
    {
    }

    lemma FinalProgressed(m: UnitMap, rank: map<Name, nat>, n: Name, u: CompileUnit)
      requires n in m && m[n].dependOrder == 0 && u == Optimized(m[n], m.Keys).(dependOrder := u.dependOrder)
      requires u.dependOrder < WORD && (Acyclic(m, rank) ==> u.dependOrder == Weight(m, rank, n) % WORD)
      ensures Progressed(m, rank, n, u) && IsFinal(m, rank, n, u)
    {
      hide Weight, Acyclic;
    }

    lemma NothingWeighs(m: UnitMap, rank: map<Name, nat>)
      ensures SumRight(m, rank, {}, 0)
    {
      if Acyclic(m, rank) {
        assert WeightsOf(m, rank, {}) == map[];
      }
    }

    // ----- sorting -----

    /** Give every unit its order. */
    method OrderAll(ghost rank: map<Name, nat>)
      requires Named(unitMap) && forall n :: n in unitMap ==> unitMap[n].dependOrder == 0
      modifies this`unitMap
      ensures Finals(old(unitMap), rank, unitMap)
    {
      hide Acyclic, InProgress, IsFinal, Later, Stacking, Begun;
      ghost var m := unitMap;
      StartProgress(m, rank);
      var todo := unitMap.Keys;
      while todo != {}
        invariant todo <= m.Keys && InProgress(m, rank, unitMap) && unitMap.Keys == m.Keys
        invariant forall n :: n in m && n !in todo ==> IsFinal(m, rank, n, unitMap[n])
      {
        var n :| n in todo;
        ghost var a := unitMap;
        NothingStacked(m, rank, a, n);
        var order, stack := GetDependOrder(n, {}, m, rank);
        LaterFinal(m, rank, n, a, unitMap);
        todo := todo - {n};
      }
    }

    lemma NothingStacked(m: UnitMap, rank: map<Name, nat>, now: UnitMap, n: Name)
      requires n in m
      ensures Stacking(m, now, rank, {}, n)
    {
    }

    lemma LaterFinal(m: UnitMap, rank: map<Name, nat>, n: Name, a: UnitMap, b: UnitMap)
      requires Later(m, rank, n, a, b) && InProgress(m, rank, b)
      ensures a.Keys == b.Keys == m.Keys
      ensures forall x :: x in m && IsFinal(m, rank, x, a[x]) ==> IsFinal(m, rank, x, b[x])
    {
      hide Acyclic, Final, IsOptimized;
      forall x | x in m && IsFinal(m, rank, x, a[x]) ensures IsFinal(m, rank, x, b[x]) {
        ProgressAt(m, rank, b, x);
      }
    }

    lemma StartProgress(m: UnitMap, rank: map<Name, nat>)
      requires Named(m) && forall n :: n in m ==> m[n].dependOrder == 0
      ensures InProgress(m, rank, m)
    {
    }

    /** The units of a list by their orders, in any order among equals. */
    method SortUnits(us: seq<CompileUnit>, ghost m: UnitMap) returns (sorted: seq<CompileUnit>)
      requires Listed(m, us)
      ensures SortedUnits(sorted) && Listed(m, sorted) && NamesOf(sorted) == NamesOf(us) && |sorted| == |us|
    {
      hide Listed, SortedUnits, NamesOf;
      sorted := [];
      NoUnits(m);
      var i := 0;
      while i < |us|
        invariant i <= |us| == |us[..i]| + (|us| - i) && |sorted| == i
        invariant SortedUnits(sorted) && Listed(m, sorted) && NamesOf(sorted) == NamesOf(us[..i])
      {
        assert us[..i + 1] == us[..i] + [us[i]];
        NextUnit(m, us, i);
        NamesNext(us[..i], us[i]);
        sorted := Insert(sorted, us[i], m);
        i := i + 1;
      }
      assert us[..i] == us;
    }

    method Insert(us: seq<CompileUnit>, u: CompileUnit, ghost m: UnitMap) returns (r: seq<CompileUnit>)
      requires SortedUnits(us) && Listed(m, us) && u.name in m && m[u.name] == u && u.name !in NamesOf(us)
      ensures SortedUnits(r) && Listed(m, r) && NamesOf(r) == NamesOf(us) + {u.name} && |r| == |us| + 1
    {
      hide Listed, NamesOf;
      var k := 0;
      while k < |us| && us[k].dependOrder <= u.dependOrder
        invariant k <= |us| && forall i :: 0 <= i < k ==> us[i].dependOrder <= u.dependOrder
      {
        k := k + 1;
      }
      r := us[..k] + [u] + us[k..];
      Inserted(m, us, u, k);
    }

    lemma Inserted(m: UnitMap, us: seq<CompileUnit>, u: CompileUnit, k: nat)
      requires Listed(m, us) && u.name in m && m[u.name] == u && u.name !in NamesOf(us) && k <= |us|
      ensures Listed(m, us[..k] + [u] + us[k..]) && NamesOf(us[..k] + [u] + us[k..]) == NamesOf(us) + {u.name}
    {
      var r := us[..k] + [u] + us[k..];
      forall i | 0 <= i < |r| ensures i == k ==> r[i] == u
        ensures i < k ==> r[i] == us[i] && us[i] in us
        ensures k < i ==> r[i] == us[i - 1] && us[i - 1] in us {
      }
      forall i | 0 <= i < |us| ensures us[i].name in NamesOf(us) && us[i].name in NamesOf(r) {
        assert r[if i < k then i else i + 1] == us[i];
      }
      assert r[k].name in NamesOf(r);
      forall i, j | 0 <= i < j < |r| ensures r[i].name != r[j].name {
      }
    }

    lemma NoUnits(m: UnitMap)
      ensures Listed(m, []) && SortedUnits([]) && NamesOf([]) == {}
    {
    }

    lemma NextUnit(m: UnitMap, us: seq<CompileUnit>, i: nat)
      requires Listed(m, us) && i < |us|
      ensures us[i].name in m && m[us[i].name] == us[i] && us[i].name !in NamesOf(us[..i])
    {
      assert us[i] in us;
    }

    // ----- the bridge -----

    /** One pass over the units: those that are bridge types, or needed by the bridge, go into it. */
    method BridgePass(sorted: seq<CompileUnit>, units: seq<CompileUnit>, names: set<Name>, ghost m: UnitMap)
      returns (changed: bool, rest: seq<CompileUnit>, units': seq<CompileUnit>, names': set<Name>)
      requires Split(m, units, sorted) && SortedUnits(sorted) && BridgeState(m, units, names)
      ensures Split(m, units', rest) && SortedUnits(rest) && BridgeState(m, units', names')
      ensures if changed then |rest| < |sorted| else units' == units && names' == names && rest == sorted
      ensures !changed ==> forall i :: 0 <= i < |rest| ==> rest[i].name !in BRIDGE_TYPES && rest[i].name !in names
    {
      hide Split, SortedUnits, BridgeState, Listed, NamesOf;
      changed, rest, units', names' := false, [], units, names;
      var i := 0;
      assert [] + sorted[0..] == sorted;
      while i < |sorted|
        invariant i <= |sorted| && Split(m, units', rest + sorted[i..]) && SortedUnits(rest + sorted[i..])
        invariant BridgeState(m, units', names')
        invariant if changed then |rest| < i else units' == units && names' == names && rest == sorted[..i]
        invariant !changed ==> forall j :: 0 <= j < i ==> sorted[j].name !in BRIDGE_TYPES && sorted[j].name !in names
      {
        var unit := sorted[i];
        assert rest + sorted[i..] == rest + [unit] + sorted[i + 1..];
        SplitHead(m, units', rest, unit, sorted[i + 1..]);
        if unit.name in BRIDGE_TYPES || unit.name in names' {
          BridgeTakes(m, units', names', unit);
          SortedDrop(rest, unit, sorted[i + 1..]);
          units', names', changed := units' + [unit], names' + {unit.name} + unit.declDepends, true;
        } else {
          rest := rest + [unit];
        }
        i := i + 1;
      }
      assert rest + sorted[i..] == rest;
      assert sorted[..i] == sorted;
    }

    lemma SplitHead(m: UnitMap, a: seq<CompileUnit>, us: seq<CompileUnit>, u: CompileUnit, vs: seq<CompileUnit>)
      requires Split(m, a, us + [u] + vs)
      ensures Split(m, a + [u], us + vs) && u.name in m && m[u.name] == u && Listed(m, a)
    {
      hide Listed, NamesOf;
      ListedDrop(m, us, u, vs);
      ListedAdd(m, a, u);
    }

    /** The units of the bridge, and the others in their order. */
    method CollectBridge(sorted: seq<CompileUnit>, ghost m: UnitMap)
      returns (bridge: seq<CompileUnit>, rest: seq<CompileUnit>)
      requires Split(m, [], sorted) && SortedUnits(sorted)
      ensures Split(m, bridge, rest) && SortedUnits(rest) && LeastBridge(m, bridge)
    {
      hide Split, SortedUnits, BridgeState, LeastBridge;
      var names: set<Name> := {};
      bridge, rest := [], sorted;
      EmptyBridge(m);
      var changed := true;
      while changed
        invariant Split(m, bridge, rest) && SortedUnits(rest) && BridgeState(m, bridge, names)
        invariant !changed ==> forall i :: 0 <= i < |rest| ==> rest[i].name !in BRIDGE_TYPES && rest[i].name !in names
        decreases changed, |rest|
      {
        changed, rest, bridge, names := BridgePass(rest, bridge, names, m);
      }
      BridgeDone(m, bridge, names, rest);
    }

    lemma EmptyBridge(m: UnitMap)
      ensures BridgeState(m, [], {})
    {
    }

    // ----- merging -----

    method NewUnit() returns (name: Name)
      modifies this
      ensures unitCounter == old(unitCounter) + 1 && name == Merged(unitCounter)
      ensures unitMap == old(unitMap)[name := CompileUnit(name, "", "", {}, {}, 0)]
    {
      unitCounter := unitCounter + 1;
      name := Merged(unitCounter);
      unitMap := unitMap[name := CompileUnit(name, "", "", {}, {}, 0)];
    }

    /** Sort the units of the bridge, when there is more than one. The map of units has been cleared by then, so a
        unit whose order is 0 is ordered once more, and loses its dependencies. */
    method SortBridge(us: seq<CompileUnit>, ghost m: UnitMap) returns (bridge: seq<CompileUnit>)
      requires Listed(m, us)
      ensures SortedUnits(bridge) && Listed(Resorted(m, us), bridge) && NamesOf(bridge) == NamesOf(us)
      ensures |bridge| == |us|
    {
      hide Listed, NamesOf, SortedUnits;
      bridge := us;
      if |us| < 2 {
        FewSorted(us);
        return;
      }
      var i := 0;
      while i < |us|
        invariant i <= |us| == |bridge|
        invariant forall j :: 0 <= j < |us| ==> bridge[j] == if j < i then Reordered(us[j]) else us[j]
      {
        bridge := bridge[i := Reordered(us[i])];
        i := i + 1;
      }
      ResortedListed(m, us, bridge);
      bridge := SortUnits(bridge, Resorted(m, us));
    }

    lemma FewSorted(us: seq<CompileUnit>)
      requires |us| < 2
      ensures SortedUnits(us)
    {
    }

    lemma ResortedListed(m: UnitMap, us: seq<CompileUnit>, vs: seq<CompileUnit>)
      requires Listed(m, us) && 2 <= |us| == |vs| && forall i :: 0 <= i < |us| ==> vs[i] == Reordered(us[i])
      ensures Listed(Resorted(m, us), vs) && NamesOf(vs) == NamesOf(us)
    {
      forall i | 0 <= i < |us| ensures vs[i].name == us[i].name && us[i] in us {
      }
    }

    /** Merge the units; trans maps each unit to the merged unit that holds it. For the contract: the units with
        their orders, the same after the bridge has been sorted, the bridge units, the other units in order, and
        their places. Fails when a dependency cannot be looked up, which is the exception of the code. A single unit
        is never compared, and so it is not optimised. */
    method Merge(ghost rank: map<Name, nat>)
      returns (ok: bool, trans: map<Name, Name>, ghost ordered: UnitMap, ghost m: UnitMap,
               ghost bridge: seq<CompileUnit>, ghost rest: seq<CompileUnit>, ghost place: seq<nat>)
      requires Named(unitMap) && unitCounter == 0 && forall n :: n in unitMap ==> unitMap[n].dependOrder == 0
      modifies this
      ensures ok <==> 2 <= |old(unitMap)| || LoneFits(old(unitMap))
      ensures if 2 <= |old(unitMap)| then Finals(old(unitMap), rank, ordered) else ordered == old(unitMap)
      ensures 2 <= |old(unitMap)| ==> Tidy(m)
      ensures LeastBridge(ordered, bridge) && m == Resorted(ordered, bridge)
      ensures SortedUnits(bridge) && SortedUnits(rest)
      ensures ok ==> MergeResult(m, bridge, rest, place, unitCounter, trans, unitMap) && AllFull(unitMap, unitCounter)
      ensures FilledInTurn(rest, place, unitCounter)
      ensures 2 <= |old(unitMap)| && Acyclic(old(unitMap), rank) && OrdersFit(old(unitMap), rank) ==>
        m == ordered && DeclaredBefore(bridge) && DeclaredBefore(rest)
      ensures 2 <= |old(unitMap)| <= 64 && Acyclic(old(unitMap), rank) ==> OrdersFit(old(unitMap), rank)
    {
      hide Acyclic, OrdersFit, Finals, Tidy, Split, LeastBridge, ClosedSet, SortedUnits, Listed, NamesOf, Named;
      hide DeclaredBefore, Rising, Resorted, AllKnown, LoneFits, AllLooked, AllFull;
      hide Trimmed, PlacedUpTo, FinishedSome, MergeResult, FilledInTurn;
      if 2 <= |unitMap| {
        OrderAll(rank);
        FinalsRise(old(unitMap), rank, unitMap);
        TidyParts(unitMap);
      }
      ordered := unitMap;
      var units := UnitList(unitMap);
      var sorted := SortUnits(units, ordered);
      unitMap := map[];
      AllSplit(ordered, sorted);
      var bridgeUnits, remainUnits := CollectBridge(sorted, ordered);
      SplitParts(ordered, bridgeUnits, remainUnits);
      ghost var found := bridgeUnits;
      bridgeUnits := SortBridge(bridgeUnits, ordered);
      bridge, rest := bridgeUnits, remainUnits;
      SameBridge(ordered, found, bridge);
      m := Resorted(ordered, found);
      ResortedParts(ordered, found, bridge, rest);
      trans := BuildBridge(bridgeUnits);
      NoneCollected(bridge, rest, trans, unitMap);
      trans, place := BuildUnits(bridge, remainUnits, trans, m);
      ghost var g := unitMap;
      LastThere(bridge, rest, place, unitCounter, trans, g);
      var last := unitMap[Merged(unitCounter)];
      if last.declCode == "" && last.implCode == "" {
        unitMap := unitMap - {Merged(unitCounter)};
      }
      IsTrimmed(g, unitCounter, unitMap);
      if 2 <= |old(unitMap)| {
        TidyParts(m);
        AllThere(m, bridge, rest, place, unitCounter, trans, g, unitMap);
      } else {
        LoneResorted(ordered, bridge, rest);
        LoneLooked(m, bridge, rest, place, unitCounter, trans, g, unitMap);
      }
      TrimmedFull(g, unitCounter, unitMap);
      ok := Translate(trans, m, bridge, rest, place, g);
      if 2 <= |old(unitMap)| && Acyclic(old(unitMap), rank) {
        FewFit(old(unitMap), rank);
        if OrdersFit(old(unitMap), rank) {
          ResortedSame(old(unitMap), rank, ordered, found);
          SortedDeclares(ordered, bridge);
          SortedDeclares(ordered, rest);
        }
      }
    }

    lemma FewFit(m: UnitMap, rank: map<Name, nat>)
      requires Acyclic(m, rank)
      ensures |m| <= 64 ==> OrdersFit(m, rank)
    {
      hide Acyclic, OrdersFit;
      FitExactly(64);
    }

    lemma TidyParts(m: UnitMap)
      requires Tidy(m)
      ensures Named(m) && AllKnown(m)
    {
    }

    lemma LoneResorted(m: UnitMap, bridge: seq<CompileUnit>, rest: seq<CompileUnit>)
      requires |m| < 2 && Listed(m, rest) && Split(Resorted(m, bridge), bridge, rest)
      ensures Resorted(m, bridge) == m
    {
      if m == map[] {
        assert |bridge| > 0 ==> bridge[0].name in NamesOf(bridge);
      } else {
        var n :| n in m;
        LoneKey(m, n);
        LoneLists(Resorted(m, bridge), n, bridge, rest);
      }
    }

    lemma TrimmedFull(g: UnitMap, count: nat, h: UnitMap)
      requires Trimmed(g, count, h) && AllFull(g, count)
      ensures AllFull(h, count)
    {
    }

    /** The units after the bridge has been sorted are split as before, and the bridge is still closed. */
    lemma ResortedParts(m: UnitMap, us: seq<CompileUnit>, bridge: seq<CompileUnit>, rest: seq<CompileUnit>)
      requires Split(m, us, rest) && LeastBridge(m, us)
      requires Listed(Resorted(m, us), bridge) && NamesOf(bridge) == NamesOf(us) && |bridge| == |us|
      ensures (Tidy(m) ==> Tidy(Resorted(m, us))) && Split(Resorted(m, us), bridge, rest)
      ensures ClosedSet(Resorted(m, us), NamesOf(bridge))
      ensures Resorted(m, us) == Resorted(m, bridge) && Listed(Resorted(m, us), rest)
    {
      hide NamesOf, Tidy, Listed, ClosedSet;
      if Tidy(m) {
        ResortedTidy(m, us);
      }
      ResortedClosed(m, us);
      ResortedRest(m, us, rest);
    }

    lemma ResortedTidy(m: UnitMap, us: seq<CompileUnit>)
      requires Tidy(m)
      ensures Tidy(Resorted(m, us))
    {
      hide NamesOf;
    }

    lemma ResortedClosed(m: UnitMap, us: seq<CompileUnit>)
      requires ClosedSet(m, NamesOf(us))
      ensures ClosedSet(Resorted(m, us), NamesOf(us))
    {
      hide NamesOf;
    }

    lemma ResortedRest(m: UnitMap, us: seq<CompileUnit>, rest: seq<CompileUnit>)
      requires Listed(m, rest) && NamesOf(us) !! NamesOf(rest)
      ensures Listed(Resorted(m, us), rest)
    {
      forall i | 0 <= i < |rest| ensures rest[i].name in NamesOf(rest) {
      }
    }

    lemma ResortedSame(m: UnitMap, rank: map<Name, nat>, ordered: UnitMap, us: seq<CompileUnit>)
      requires Acyclic(m, rank) && OrdersFit(m, rank) && Finals(m, rank, ordered)
      ensures Resorted(ordered, us) == ordered
    {
      forall n | n in ordered ensures ordered[n].dependOrder != 0 {
        assert Weight(m, rank, n) < WORD;
      }
    }

    /** The units of the map as a list, in any order. */
    method UnitList(m: UnitMap) returns (us: seq<CompileUnit>)
      requires Named(m)
      ensures Listed(m, us) && NamesOf(us) == m.Keys
    {
      hide Listed, NamesOf;
      us := [];
      NoUnits(m);
      var todo := m.Keys;
      while todo != {}
        invariant todo <= m.Keys && Listed(m, us) && NamesOf(us) == m.Keys - todo
      {
        var n :| n in todo;
        ListedAdd(m, us, m[n]);
        us, todo := us + [m[n]], todo - {n};
      }
    }

    lemma AllSplit(m: UnitMap, us: seq<CompileUnit>)
      requires Listed(m, us) && NamesOf(us) == m.Keys
      ensures Split(m, [], us)
    {
    }

    lemma SplitParts(m: UnitMap, a: seq<CompileUnit>, b: seq<CompileUnit>)
      requires Split(m, a, b)
      ensures Listed(m, a) && Listed(m, b) && NamesOf(a) == m.Keys - NamesOf(b) && NamesOf(b) <= m.Keys
    {
      hide Listed, NamesOf;
    }

    lemma SameBridge(m: UnitMap, a: seq<CompileUnit>, b: seq<CompileUnit>)
      requires LeastBridge(m, a) && NamesOf(a) == NamesOf(b)
      ensures LeastBridge(m, b)
    {
      hide NamesOf;
    }

    lemma LastThere(bridge: seq<CompileUnit>, rest: seq<CompileUnit>, place: seq<nat>, count: nat,
                    trans: map<Name, Name>, g: UnitMap)
      requires PlacedUpTo(bridge, rest, |rest|, place, count, trans, g) && 1 <= count
      ensures Merged(count) in g
    {
      hide Placed, InOrder, Built, Part;
    }

    lemma IsTrimmed(g: UnitMap, count: nat, h: UnitMap)
      requires 1 <= count && Merged(count) in g
      requires h ==
        if g[Merged(count)].declCode == "" && g[Merged(count)].implCode == "" then g - {Merged(count)} else g
      ensures Trimmed(g, count, h)
    {
    }

    /** The bridge unit. */
    method BuildBridge(bridge: seq<CompileUnit>) returns (trans: map<Name, Name>)
      modifies this`unitMap
      requires unitMap == map[]
      ensures unitMap == map[Bridge := Built(Bridge, bridge)]
      ensures trans.Keys == NamesOf(bridge) && forall n :: n in trans ==> trans[n] == Bridge
    {
      hide Built, Appended, NamesOf;
      trans := map[];
      var unit := CompileUnit(Bridge, "", "", {}, {}, 0);
      EmptyBuilt(Bridge);
      NoUnits(map[]);
      var i := 0;
      while i < |bridge|
        invariant i <= |bridge| && unit == Built(Bridge, bridge[..i]) && trans.Keys == NamesOf(bridge[..i])
        invariant forall n :: n in trans ==> trans[n] == Bridge
      {
        assert bridge[..i + 1] == bridge[..i] + [bridge[i]];
        BuiltNext(Bridge, bridge[..i], bridge[i]);
        NamesNext(bridge[..i], bridge[i]);
        unit := Append(unit, bridge[i]);
        trans := trans[bridge[i].name := Bridge];
        i := i + 1;
      }
      assert bridge[..i] == bridge;
      unitMap := map[Bridge := unit];
    }

    /** Append a unit to a merged unit; in the bridge, a line that names it comes first. */
    method Append(b: CompileUnit, u: CompileUnit) returns (r: CompileUnit)
      ensures r == Appended(b, u)
    {
      var code := b.declCode;
      if b.name == Bridge {
        code := code + Define(u.name);
      }
      r := b.(declCode := code + u.declCode, implCode := b.implCode + u.implCode,
        declDepends := b.declDepends + u.declDepends, implDepends := b.implDepends + u.implDepends);
    }

    /** The numbered units: each is filled before the next is begun. */
    method BuildUnits(ghost bridge: seq<CompileUnit>, rest: seq<CompileUnit>, trans0: map<Name, Name>, ghost m: UnitMap)
      returns (trans: map<Name, Name>, ghost place: seq<nat>)
      requires Split(m, bridge, rest) && unitCounter == 0 && PlacedUpTo(bridge, rest, 0, [], 0, trans0, unitMap)
      modifies this
      ensures 1 <= unitCounter && PlacedUpTo(bridge, rest, |rest|, place, unitCounter, trans, unitMap)
      ensures AllFull(unitMap, unitCounter) && FilledInTurn(rest, place, unitCounter)
    {
      hide Split, PlacedUpTo, Appended, IsUnitFull, FilledInTurn;
      NoneFilled();
      trans, place := trans0, [];
      UnitBegun(bridge, rest, 0, place, unitCounter, trans, unitMap);
      var curr := NewUnit();
      var i := 0;
      while i < |rest|
        invariant i <= |rest| && 1 <= unitCounter && curr == Merged(unitCounter)
        invariant PlacedUpTo(bridge, rest, i, place, unitCounter, trans, unitMap) && AllFull(unitMap, unitCounter)
        invariant FilledInTurn(rest[..i], place, unitCounter)
      {
        UnitPlaced(m, bridge, rest, i, place, unitCounter, trans, unitMap);
        var unit := Append(unitMap[curr], rest[i]);
        unitMap := unitMap[curr := unit];
        trans := trans[rest[i].name := curr];
        place, i := place + [unitCounter], i + 1;
        UnitSize(bridge, rest, i, place, unitCounter, trans, unitMap);
        assert rest[..i] == rest[..i - 1] + [rest[i - 1]];
        FilledNext(rest[..i - 1], place[..i - 1], unitCounter, rest[i - 1], IsUnitFull(unit));
        assert place == place[..i - 1] + [unitCounter];
        if IsUnitFull(unit) {
          UnitBegun(bridge, rest, i, place, unitCounter, trans, unitMap);
          curr := NewUnit();
        }
      }
      assert rest[..i] == rest;
    }

    lemma NoneFilled()
      ensures FilledInTurn([], [], 1)
    {
    }

    lemma UnitSize(bridge: seq<CompileUnit>, rest: seq<CompileUnit>, i: nat, place: seq<nat>, count: nat,
                   trans: map<Name, Name>, g: UnitMap)
      requires i <= |rest| && 1 <= count && PlacedUpTo(bridge, rest, i, place, count, trans, g)
      ensures Merged(count) in g && |place| == i
      ensures IsUnitFull(g[Merged(count)]) <==> IsUnitFull(Built(Merged(count), Part(rest[..i], place, count)))
    {
      hide Built, Part, Placed, IsUnitFull;
    }

    /** Translate and optimise the dependencies of the merged units. */
    method Translate(trans: map<Name, Name>, ghost m: UnitMap, ghost bridge: seq<CompileUnit>,
                     ghost rest: seq<CompileUnit>, ghost place: seq<nat>, ghost g: UnitMap)
      returns (ok: bool)
      requires Split(m, bridge, rest) && ClosedSet(m, NamesOf(bridge))
      requires PlacedUpTo(bridge, rest, |rest|, place, unitCounter, trans, g) && Trimmed(g, unitCounter, unitMap)
      requires AllFull(unitMap, unitCounter)
      modifies this`unitMap
      ensures ok <==> AllLooked(old(unitMap), trans)
      ensures ok ==> MergeResult(m, bridge, rest, place, unitCounter, trans, unitMap) && AllFull(unitMap, unitCounter)
    {
      hide Split, ClosedSet, PlacedUpTo, Trimmed, FinishedSome, MergeResult, Finished;
      ghost var h := unitMap;
      NoneFinished(h, trans);
      var todo := unitMap.Keys;
      while todo != {}
        invariant todo <= h.Keys && unitMap.Keys == h.Keys && FinishedSome(h, trans, todo, unitMap)
        invariant forall n :: n in h && n !in todo ==> Looked(trans, h[n])
        invariant AllFull(unitMap, unitCounter)
      {
        var n :| n in todo;
        StillTodo(h, trans, todo, unitMap, n);
        var unit := unitMap[n];
        if !Looked(trans, unit) { return false; }
        FinishedNext(h, trans, todo, unitMap, n);
        SameCode(unit, trans, unitMap.Keys);
        unit := Finished(unit, trans, unitMap.Keys);
        FullStays(unitMap, unitCounter, n, unit);
        unitMap := unitMap[n := unit];
        todo := todo - {n};
      }
      ok := true;
      MergeDone(m, bridge, rest, place, unitCounter, trans, g, h, unitMap);
    }

    lemma FullStays(g: UnitMap, count: nat, n: Name, u: CompileUnit)
      requires AllFull(g, count) && n in g && u.declCode == g[n].declCode && u.implCode == g[n].implCode
      ensures AllFull(g[n := u], count)
    {
    }

    lemma SameCode(u: CompileUnit, trans: map<Name, Name>, known: set<Name>)
      requires Looked(trans, u)
      ensures var v := Finished(u, trans, known); v.declCode == u.declCode && v.implCode == u.implCode
    {
    }

    lemma NoneFinished(h: UnitMap, trans: map<Name, Name>)
      ensures FinishedSome(h, trans, h.Keys, h)
    {
    }

    lemma StillTodo(h: UnitMap, trans: map<Name, Name>, todo: set<Name>, now: UnitMap, n: Name)
      requires FinishedSome(h, trans, todo, now) && n in todo
      ensures n in now && n in h && now[n] == h[n]
    {
    }

    lemma FinishedNext(h: UnitMap, trans: map<Name, Name>, todo: set<Name>, now: UnitMap, n: Name)
      requires FinishedSome(h, trans, todo, now) && n in todo && n in h && Looked(trans, h[n])
      ensures FinishedSome(h, trans, todo - {n}, now[n := Finished(h[n], trans, h.Keys)])
    {
      hide Finished;
    }
  }

  /** Merging a tower of 65 units puts one before another whose declarations it needs. */
  method MisplaceTower()
    returns (merger: CompileUnitMerger, ghost m: UnitMap, ghost rest: seq<CompileUnit>, ghost place: seq<nat>,
             trans: map<Name, Name>)
    ensures MergeResult(m, [], rest, place, merger.unitCounter, trans, merger.unitMap)
    ensures NamesOf(rest) == Tower(65).Keys && !DeclaredBefore(rest)
    ensures Floor(64) in trans && Floor(63) in trans && trans[Floor(64)].Merged? && trans[Floor(63)].Merged?
    ensures trans[Floor(64)].n <= trans[Floor(63)].n
  {
    hide Tower, Heights, DeclaredBefore, SortedUnits, LeastBridge, Finals, NamesOf;
    TowerAcyclic(65);
    TowerIs(65);
    merger := new CompileUnitMerger(Tower(65));
    ghost var ordered, bridge;
    AcyclicNamed(Tower(65), Heights(65));
    var ok;
    ok, trans, ordered, m, bridge, rest, place := merger.Merge(Heights(65));
    TowerMergedWrong(ordered, bridge, rest);
    TowerPlacedWrong(ordered, rest, place, merger.unitCounter, trans);
  }
}

/** Compile units, their declaration dependencies, and what merging them should give. */
module Units {
  import opened Arithmetic
  import opened Sums

  /** The name of a unit: a generated type, or a unit that merging makes. */
  datatype Name = Original(id: string) | Bridge | Merged(n: nat)

  datatype CompileUnit = CompileUnit(name: Name, declCode: string, implCode: string, declDepends: set<Name>,
    implDepends: set<Name>, dependOrder: nat)

  type UnitMap = map<Name, CompileUnit>

  // Depend orders are unsigned words.
  const WORD: nat := 0x1_0000_0000_0000_0000

  const BRIDGE_TYPES: set<Name> := {
    Original("cls_il2cpprt_ThrowHelper"), Original("cls_Object"), Original("cls_String"), Original("cls_System_Array"),
    Original("stru_System_RuntimeTypeHandle"), Original("stru_System_RuntimeMethodHandle"),
      Original("stru_System_RuntimeFieldHandle"),
    Original("stru_System_TypedReference")
  }

  /** Drop the unit itself, unknown names, and what is included anyway from its dependencies (Optimize). */
  function Optimized(u: CompileUnit, known: set<Name>): CompileUnit {
    u.(declDepends := (u.declDepends - {u.name}) * known,
      implDepends := (u.implDepends - u.declDepends - {u.name}) * known)
  }

  lemma OptimizedAgain(u: CompileUnit, known: set<Name>)
    ensures Optimized(Optimized(u, known), known) == Optimized(u, known)
  {
  }

  // ----- the declaration order -----

  /** The units whose declarations a unit needs. */
  function Deps(m: UnitMap, n: Name): set<Name>
    requires n in m
  {
    (m[n].declDepends - {n}) * m.Keys
  }

  /** Units have their own names. */
  ghost predicate Named(m: UnitMap) {
    forall n :: n in m ==> m[n].name == n
  }

  /** Units have their own names; the dependencies are acyclic. */
  ghost predicate Acyclic(m: UnitMap, rank: map<Name, nat>) {
    && m.Keys <= rank.Keys && (forall n :: n in m ==> m[n].name == n)
    && forall n, d :: n in m && d in Deps(m, n) ==> rank[d] < rank[n]
  }

  /** The depend order of a unit, without regard to the width of words: one more than the orders of its
      dependencies together. */
  ghost function Weight(m: UnitMap, rank: map<Name, nat>, n: Name): (w: nat)
    requires Acyclic(m, rank) && n in m
    ensures 1 <= w
    decreases rank[n]
  {
    1 + Total(Weights(m, rank, n))
  }

  ghost function Weights(m: UnitMap, rank: map<Name, nat>, n: Name): map<Name, nat>
    requires Acyclic(m, rank) && n in m
    decreases rank[n], 0
  {
    map d | d in Deps(m, n) :: Weight(m, rank, d)
  }

  /** No order needs more than a word. */
  ghost predicate OrdersFit(m: UnitMap, rank: map<Name, nat>)
    requires Acyclic(m, rank)
  {
    forall n :: n in m ==> Weight(m, rank, n) < WORD
  }

  lemma WeightAbove(m: UnitMap, rank: map<Name, nat>, n: Name, d: Name)
    requires Acyclic(m, rank) && n in m && d in Deps(m, n)
    ensures Weight(m, rank, d) < Weight(m, rank, n)
  {
    TotalRemove(Weights(m, rank, n), d);
  }

  // ----- units in order -----

  /** Units have their own names, and depend on known units only. */
  ghost predicate Tidy(m: UnitMap) {
    forall n :: n in m ==> m[n].name == n && m[n].declDepends <= m.Keys - {n} && m[n].implDepends <= m.Keys
  }

  /** Units depend on known units only, or on themselves. */
  ghost predicate AllKnown(m: UnitMap) {
    forall n :: n in m ==> m[n].declDepends <= m.Keys && m[n].implDepends <= m.Keys
  }

  /** A unit has a higher order than those whose declarations it needs. */
  ghost predicate Rising(m: UnitMap) {
    forall n, d :: n in m && d in m[n].declDepends && d in m ==> m[d].dependOrder < m[n].dependOrder
  }

  /** The list holds units of the map, each once. */
  ghost predicate Listed(m: UnitMap, us: seq<CompileUnit>) {
    && (forall u :: u in us ==> u.name in m && m[u.name] == u)
    && forall i, j :: 0 <= i < j < |us| ==> us[i].name != us[j].name
  }

  predicate SortedUnits(us: seq<CompileUnit>) {
    forall i, j :: 0 <= i < j < |us| ==> us[i].dependOrder <= us[j].dependOrder
  }

  function NamesOf(us: seq<CompileUnit>): set<Name> {
    set i | 0 <= i < |us| :: us[i].name
  }

  /** Each unit comes after the units of the list whose declarations it needs. */
  ghost predicate DeclaredBefore(us: seq<CompileUnit>) {
    forall i, d :: 0 <= i < |us| && d in us[i].declDepends && d in NamesOf(us) ==> d in NamesOf(us[..i])
  }

  lemma SortedDeclares(m: UnitMap, us: seq<CompileUnit>)
    requires Tidy(m) && Rising(m) && Listed(m, us) && SortedUnits(us)
    ensures DeclaredBefore(us)
  {
    forall i, d | 0 <= i < |us| && d in us[i].declDepends && d in NamesOf(us) ensures d in NamesOf(us[..i]) {
      var j :| 0 <= j < |us| && us[j].name == d;
      assert us[i] in us && us[j] in us;
      assert m[d].dependOrder < us[i].dependOrder;
      assert j < i;
      assert us[..i][j].name == d;
    }
  }

  /** The two lists hold all units of the map, each once. */
  ghost predicate Split(m: UnitMap, a: seq<CompileUnit>, b: seq<CompileUnit>) {
    Listed(m, a) && Listed(m, b) && NamesOf(a) !! NamesOf(b) && NamesOf(a) + NamesOf(b) == m.Keys
  }

  lemma NamesNext(us: seq<CompileUnit>, u: CompileUnit)
    ensures NamesOf(us + [u]) == NamesOf(us) + {u.name}
    ensures AllDeclDepends(us + [u]) == AllDeclDepends(us) + u.declDepends
    ensures AllImplDepends(us + [u]) == AllImplDepends(us) + u.implDepends
  {
    var vs := us + [u];
    assert forall i :: 0 <= i < |us| ==> vs[i] == us[i];
    assert vs[|us|] == u;
    assert forall n :: n in NamesOf(us) ==> n in NamesOf(vs);
    forall d | d in AllDeclDepends(us) + u.declDepends ensures d in AllDeclDepends(vs) {
      if d in AllDeclDepends(us) {
        var i :| 0 <= i < |us| && d in us[i].declDepends;
        assert d in vs[i].declDepends;
      }
    }
    forall d | d in AllImplDepends(us) + u.implDepends ensures d in AllImplDepends(vs) {
      if d in AllImplDepends(us) {
        var i :| 0 <= i < |us| && d in us[i].implDepends;
        assert d in vs[i].implDepends;
      }
    }
  }

  /** Removing a unit from the front of the second part of a list keeps it sorted. */
  lemma SortedDrop(us: seq<CompileUnit>, u: CompileUnit, vs: seq<CompileUnit>)
    requires SortedUnits(us + [u] + vs)
    ensures SortedUnits(us + vs)
  {
    var all, fewer := us + [u] + vs, us + vs;
    forall i, j | 0 <= i < j < |fewer| ensures fewer[i].dependOrder <= fewer[j].dependOrder {
      var i', j' := if i < |us| then i else i + 1, if j < |us| then j else j + 1;
      assert fewer[i] == all[i'] && fewer[j] == all[j'];
    }
  }

  lemma ListedDrop(m: UnitMap, us: seq<CompileUnit>, u: CompileUnit, vs: seq<CompileUnit>)
    requires Listed(m, us + [u] + vs)
    ensures Listed(m, us + vs) && u.name !in NamesOf(us + vs) && u.name in m && m[u.name] == u
    ensures NamesOf(us + [u] + vs) == NamesOf(us + vs) + {u.name}
  {
    var all, fewer := us + [u] + vs, us + vs;
    forall i | 0 <= i < |fewer| ensures fewer[i] == all[if i < |us| then i else i + 1] {
    }
    assert all[|us|] == u && u in all;
    forall x | x in fewer ensures x in all {
    }
    forall i | 0 <= i < |all| ensures all[i].name in NamesOf(fewer) + {u.name} {
      if i < |us| {
        assert fewer[i] == all[i];
      } else if i > |us| {
        assert fewer[i - 1] == all[i];
      }
    }
  }

  lemma ListedAdd(m: UnitMap, us: seq<CompileUnit>, u: CompileUnit)
    requires Listed(m, us) && u.name in m && m[u.name] == u && u.name !in NamesOf(us)
    ensures Listed(m, us + [u]) && NamesOf(us + [u]) == NamesOf(us) + {u.name}
  {
    NamesNext(us, u);
    forall i | 0 <= i < |us| ensures us[i].name in NamesOf(us) {
    }
  }

  // ----- the bridge -----

  /** What becomes of a unit that is ordered with no unit known: one whose order is 0 gets order 1. */
  function Reordered(u: CompileUnit): CompileUnit {
    if u.dependOrder == 0 then Optimized(u, {}).(dependOrder := 1) else u
  }

  /** The units after those of the list have been sorted with no unit known, if they are more than one. */
  function Resorted(m: UnitMap, us: seq<CompileUnit>): UnitMap {
    if |us| < 2 then m else map n | n in m :: if n in NamesOf(us) then Reordered(m[n]) else m[n]
  }

  /** A set of units that holds the bridge types and is closed under declaration dependencies. */
  ghost predicate ClosedSet(m: UnitMap, S: set<Name>) {
    BRIDGE_TYPES * m.Keys <= S && forall n :: n in S && n in m ==> m[n].declDepends * m.Keys <= S
  }

  /** names holds the units taken into the bridge and what they depend on; none was taken without need. */
  ghost predicate BridgeState(m: UnitMap, bridge: seq<CompileUnit>, names: set<Name>) {
    names == NamesOf(bridge) + AllDeclDepends(bridge) && forall S :: ClosedSet(m, S) ==> NamesOf(bridge) <= S
  }

  lemma BridgeTakes(m: UnitMap, bridge: seq<CompileUnit>, names: set<Name>, u: CompileUnit)
    requires Listed(m, bridge) && BridgeState(m, bridge, names) && u.name in m && m[u.name] == u
    requires u.name in BRIDGE_TYPES || u.name in names
    ensures BridgeState(m, bridge + [u], names + {u.name} + u.declDepends)
  {
    NamesNext(bridge, u);
    forall S | ClosedSet(m, S) ensures NamesOf(bridge + [u]) <= S {
      if u.name in AllDeclDepends(bridge) {
        var i :| 0 <= i < |bridge| && u.name in bridge[i].declDepends;
        assert bridge[i] in bridge && bridge[i].name in NamesOf(bridge);
      }
    }
  }

  /** The bridge holds exactly the bridge types and what their declarations depend on, at any distance. */
  ghost predicate LeastBridge(m: UnitMap, bridge: seq<CompileUnit>) {
    ClosedSet(m, NamesOf(bridge)) && forall S :: ClosedSet(m, S) ==> NamesOf(bridge) <= S
  }

  lemma BridgeDone(m: UnitMap, bridge: seq<CompileUnit>, names: set<Name>, rest: seq<CompileUnit>)
    requires Split(m, bridge, rest) && BridgeState(m, bridge, names)
    requires forall i :: 0 <= i < |rest| ==> rest[i].name !in BRIDGE_TYPES && rest[i].name !in names
    ensures LeastBridge(m, bridge)
  {
    forall n | n in NamesOf(bridge) && n in m ensures m[n].declDepends * m.Keys <= NamesOf(bridge) {
      var i :| 0 <= i < |bridge| && bridge[i].name == n;
      assert bridge[i] in bridge && m[n] == bridge[i];
      forall d | d in m[n].declDepends && d in m ensures d in NamesOf(bridge) {
        assert d in AllDeclDepends(bridge) && d in m;
      }
    }
  }

  // ----- merged units -----

  function DeclCode(us: seq<CompileUnit>): string {
    if us == [] then "" else DeclCode(us[..|us| - 1]) + us[|us| - 1].declCode
  }

  function ImplCode(us: seq<CompileUnit>): string {
    if us == [] then "" else ImplCode(us[..|us| - 1]) + us[|us| - 1].implCode
  }

  /** The line that tells that a type is in the bridge unit. */
  function Define(n: Name): string {
    "#define IL2CPP_BRIDGE_HAS_" + (if n.Original? then n.id else "") + "\n"
  }

  function BridgeCode(us: seq<CompileUnit>): string {
    if us == [] then "" else BridgeCode(us[..|us| - 1]) + Define(us[|us| - 1].name) + us[|us| - 1].declCode
  }

  function AllDeclDepends(us: seq<CompileUnit>): set<Name> {
    set i, d | 0 <= i < |us| && d in us[i].declDepends :: d
  }

  function AllImplDepends(us: seq<CompileUnit>): set<Name> {
    set i, d | 0 <= i < |us| && d in us[i].implDepends :: d
  }

  /** A merged unit made of the given units, in order; the bridge has a line more for each. */
  function Built(n: Name, us: seq<CompileUnit>): CompileUnit {
    CompileUnit(n, if n == Bridge then BridgeCode(us) else DeclCode(us), ImplCode(us), AllDeclDepends(us),
      AllImplDepends(us), 0)
  }

  /** A merged unit with one more unit appended. */
  function Appended(b: CompileUnit, u: CompileUnit): CompileUnit {
    b.(declCode := b.declCode + (if b.name == Bridge then Define(u.name) else "") + u.declCode,
      implCode := b.implCode + u.implCode,
       declDepends := b.declDepends + u.declDepends, implDepends := b.implDepends + u.implDepends)
  }

  lemma BuiltNext(n: Name, us: seq<CompileUnit>, u: CompileUnit)
    ensures Appended(Built(n, us), u) == Built(n, us + [u])
  {
    NamesNext(us, u);
    assert (us + [u])[..|us|] == us;
    hide AllDeclDepends, AllImplDepends, Define;
    assert BridgeCode(us) + Define(u.name) + u.declCode == BridgeCode(us + [u]);
    assert DeclCode(us) + "" + u.declCode == DeclCode(us + [u]);
  }

  /** The units of the list that have been placed in the k-th merged unit, in order. */
  function Part(us: seq<CompileUnit>, place: seq<nat>, k: nat): seq<CompileUnit>
    requires |place| == |us|
  {
    if us == [] then []
    else
      var n := |us| - 1;
      Part(us[..n], place[..n], k) + if place[n] == k then [us[n]] else []
  }

  lemma PartNext(us: seq<CompileUnit>, place: seq<nat>, u: CompileUnit, p: nat, k: nat)
    requires |place| == |us|
    ensures Part(us + [u], place + [p], k) == Part(us, place, k) + if p == k then [u] else []
  {
    assert (us + [u])[..|us|] == us && (place + [p])[..|us|] == place;
  }

  lemma {:induction false} PartMembers(us: seq<CompileUnit>, place: seq<nat>, k: nat, u: CompileUnit)
    requires |place| == |us|
    ensures u in Part(us, place, k) <==> exists j :: 0 <= j < |us| && us[j] == u && place[j] == k
  {
    if us != [] {
      var n := |us| - 1;
      PartMembers(us[..n], place[..n], k, u);
      if j :| 0 <= j < |us| && us[j] == u && place[j] == k {
        assert j < n ==> us[..n][j] == u && place[..n][j] == k;
      }
      if u in Part(us[..n], place[..n], k) {
        var j :| 0 <= j < n && us[..n][j] == u && place[..n][j] == k;
        assert us[j] == u;
      }
    }
  }

  /** The units have been placed in the merged units 1 to count one after the other. */
  ghost predicate InOrder(place: seq<nat>, count: nat) {
    && (forall j :: 0 <= j < |place| ==> 1 <= place[j] <= count)
    && forall i, j :: 0 <= i < j < |place| ==> place[i] <= place[j]
  }

  /** Where each unit has gone. */
  ghost predicate Placed(bridge: seq<CompileUnit>, rest: seq<CompileUnit>, place: seq<nat>, trans: map<Name, Name>)
    requires |place| == |rest|
  {
    && trans.Keys == NamesOf(bridge) + NamesOf(rest)
    && (forall n :: n in NamesOf(bridge) ==> n in trans && trans[n] == Bridge)
    && (forall j :: 0 <= j < |rest| ==> rest[j].name in trans && trans[rest[j].name] == Merged(place[j]))
  }

  /** The merged units before their dependencies are translated. */
  ghost predicate Collected(bridge: seq<CompileUnit>, rest: seq<CompileUnit>, place: seq<nat>, count: nat, g: UnitMap)
    requires |place| == |rest|
  {
    && (forall n :: n in g <==> n == Bridge || exists k :: 1 <= k <= count && n == Merged(k))
    && g[Bridge] == Built(Bridge, bridge)
    && forall k :: 1 <= k <= count ==> g[Merged(k)] == Built(Merged(k), Part(rest, place, k))
  }

  /** The parts of a merged unit. */
  function Parts(bridge: seq<CompileUnit>, rest: seq<CompileUnit>, place: seq<nat>, n: Name): seq<CompileUnit>
    requires |place| == |rest|
  {
    match n
    case Bridge => bridge
    case Merged(k) => Part(rest, place, k)
    case Original(_) => []
  }

  /** The names to which dependencies are translated. */
  function Translated(trans: map<Name, Name>, ds: set<Name>): set<Name>
    requires ds <= trans.Keys
  {
    set d | d in ds :: trans[d]
  }

  /** A merged unit after its dependencies have been translated and optimised. */
  function Finished(u: CompileUnit, trans: map<Name, Name>, known: set<Name>): CompileUnit
    requires u.declDepends <= trans.Keys && u.implDepends <= trans.Keys
  {
    Optimized(u.(declDepends := Translated(trans, u.declDepends), implDepends := Translated(trans, u.implDepends)),
      known)
  }

  /** All translations can be looked up. */
  lemma LookupsFit(m: UnitMap, bridge: seq<CompileUnit>, rest: seq<CompileUnit>, place: seq<nat>,
                   trans: map<Name, Name>, n: Name)
    requires AllKnown(m) && Split(m, bridge, rest) && |place| == |rest| && Placed(bridge, rest, place, trans)
    ensures AllDeclDepends(Parts(bridge, rest, place, n)) <= trans.Keys
    ensures AllImplDepends(Parts(bridge, rest, place, n)) <= trans.Keys
  {
    var us := Parts(bridge, rest, place, n);
    forall i | 0 <= i < |us| ensures us[i].declDepends <= m.Keys && us[i].implDepends <= m.Keys {
      assert us[i] in us;
      if n.Merged? {
        PartMembers(rest, place, n.n, us[i]);
      }
      assert us[i] in bridge || us[i] in rest;
    }
  }

  /** The place of a merged unit in the include order. */
  function Level(n: Name): nat {
    match n
    case Merged(k) => k
    case _ => 0
  }

  /** What the merging gives. */
  ghost predicate MergeResult(m: UnitMap, bridge: seq<CompileUnit>, rest: seq<CompileUnit>, place: seq<nat>, count: nat,
                              trans: map<Name, Name>, g: UnitMap) {
    && Split(m, bridge, rest) && ClosedSet(m, NamesOf(bridge))
    && |place| == |rest| && InOrder(place, count) && Placed(bridge, rest, place, trans)
    && (forall n :: n in g ==> n == Bridge || exists k :: 1 <= k <= count && n == Merged(k))
    && Bridge in g && (forall k :: 1 <= k < count ==> Merged(k) in g)
    && (count != 0 && Merged(count) !in g ==>
      DeclCode(Part(rest, place, count)) == "" && ImplCode(Part(rest, place, count)) == "")
    && forall n :: n in g ==> FinishedAt(bridge, rest, place, trans, g, n)
  }

  ghost predicate FinishedAt(bridge: seq<CompileUnit>, rest: seq<CompileUnit>, place: seq<nat>, trans: map<Name, Name>,
                             g: UnitMap, n: Name)
    requires |place| == |rest| && n in g
  {
    var u := Built(n, Parts(bridge, rest, place, n));
    u.declDepends <= trans.Keys && u.implDepends <= trans.Keys && g[n] == Finished(u, trans, g.Keys)
  }

  /** The include graph of the merged units is acyclic: a unit includes units before it only, and the bridge
      includes none. */
  lemma IncludesAcyclic(m: UnitMap, bridge: seq<CompileUnit>, rest: seq<CompileUnit>, place: seq<nat>, count: nat,
                        trans: map<Name, Name>, g: UnitMap, n: Name, d: Name)
    requires Tidy(m) && DeclaredBefore(rest) && MergeResult(m, bridge, rest, place, count, trans, g)
    requires n in g && d in g[n].declDepends
    ensures d in g && Level(d) < Level(n)
  {
    hide Tidy, Split, ClosedSet, DeclaredBefore, InOrder, Placed, Part, FinishedAt, AllDeclDepends, ImplCode, DeclCode;
    assert FinishedAt(bridge, rest, place, trans, g, n);
    var us := Parts(bridge, rest, place, n);
    var x := IncludeSource(bridge, rest, place, trans, g, n, d);
    var i := DependsOf(us, x);
    if n == Bridge {
      BridgeInside(m, bridge, rest, i, x);
      InBridge(bridge, rest, place, trans, x);
    } else {
      PartMembers(rest, place, n.n, us[i]);
      assert us[i] in us;
      var j :| 0 <= j < |rest| && rest[j] == us[i] && place[j] == n.n;
      EarlierPlace(m, bridge, rest, place, count, trans, j, x);
    }
  }

  lemma InBridge(bridge: seq<CompileUnit>, rest: seq<CompileUnit>, place: seq<nat>, trans: map<Name, Name>, x: Name)
    requires |place| == |rest| && Placed(bridge, rest, place, trans) && x in NamesOf(bridge)
    ensures x in trans && trans[x] == Bridge
  {
  }

  lemma DependsOf(us: seq<CompileUnit>, x: Name) returns (i: nat)
    requires x in AllDeclDepends(us)
    ensures i < |us| && x in us[i].declDepends
  {
    i :| 0 <= i < |us| && x in us[i].declDepends;
  }

  lemma IncludeSource(bridge: seq<CompileUnit>, rest: seq<CompileUnit>, place: seq<nat>, trans: map<Name, Name>,
                      g: UnitMap, n: Name, d: Name) returns (x: Name)
    requires |place| == |rest| && n in g && FinishedAt(bridge, rest, place, trans, g, n) && d in g[n].declDepends
    ensures x in AllDeclDepends(Parts(bridge, rest, place, n)) && x in trans && trans[x] == d && d in g && d != n
  {
    hide AllDeclDepends, AllImplDepends, Parts, ImplCode, DeclCode, BridgeCode;
    x :| x in AllDeclDepends(Parts(bridge, rest, place, n)) && trans[x] == d;
  }

  lemma BridgeInside(m: UnitMap, bridge: seq<CompileUnit>, rest: seq<CompileUnit>, i: nat, x: Name)
    requires ClosedSet(m, NamesOf(bridge)) && Split(m, bridge, rest) && i < |bridge| && x in bridge[i].declDepends
    requires Tidy(m)
    ensures x in NamesOf(bridge)
  {
    assert bridge[i] in bridge && bridge[i].name in NamesOf(bridge);
  }

  /** What a unit of the rest depends on is in the bridge or was placed no later. */
  lemma EarlierPlace(m: UnitMap, bridge: seq<CompileUnit>, rest: seq<CompileUnit>, place: seq<nat>, count: nat,
                     trans: map<Name, Name>, j: nat, x: Name)
    requires Tidy(m) && Split(m, bridge, rest) && DeclaredBefore(rest) && |place| == |rest| && InOrder(place, count)
    requires Placed(bridge, rest, place, trans)
    requires j < |rest| && x in rest[j].declDepends && x in trans
    ensures 1 <= place[j] && (trans[x] == Bridge || exists k :: 1 <= k <= place[j] && trans[x] == Merged(k))
  {
    if x !in NamesOf(bridge) {
      assert x in NamesOf(rest[..j]);
      var i :| 0 <= i < j && rest[..j][i].name == x;
      assert trans[x] == Merged(place[i]) && place[i] <= place[j];
    }
  }

  /** The code of each unit is placed exactly once: it is one part of the merged unit to which its name is
      translated, and none of any other. */
  lemma PlacedOnce(m: UnitMap, bridge: seq<CompileUnit>, rest: seq<CompileUnit>, place: seq<nat>, count: nat,
                   trans: map<Name, Name>, g: UnitMap, n: Name, x: Name)
    requires MergeResult(m, bridge, rest, place, count, trans, g) && n in m
    requires x == Bridge || (x.Merged? && 1 <= x.n <= count)
    ensures n in trans && (trans[n] == Bridge || (trans[n].Merged? && 1 <= trans[n].n <= count))
    ensures multiset(Parts(bridge, rest, place, x))[m[n]] == if x == trans[n] then 1 else 0
  {
    PlacedThere(m, bridge, rest, place, count, trans, g, n, x);
    hide DeclCode, ImplCode, ClosedSet, FinishedAt, Part;
    ListedOnce(m, bridge, m[n]);
    ListedOnce(m, rest, m[n]);
    if x.Merged? {
      PartAtMost(rest, place, x.n, m[n]);
    }
  }

  lemma {:induction false} ListedOnce(m: UnitMap, us: seq<CompileUnit>, u: CompileUnit)
    requires Listed(m, us)
    ensures multiset(us)[u] <= 1
  {
    if us != [] {
      var n := |us| - 1;
      assert us == us[..n] + [us[n]];
      ListedOnce(m, us[..n], u);
      assert us[n] !in us[..n];
    }
  }

  lemma {:induction false} PartAtMost(us: seq<CompileUnit>, place: seq<nat>, k: nat, u: CompileUnit)
    requires |place| == |us|
    ensures multiset(Part(us, place, k))[u] <= multiset(us)[u]
  {
    if us != [] {
      var n := |us| - 1;
      assert us == us[..n] + [us[n]];
      PartAtMost(us[..n], place[..n], k, u);
    }
  }

  lemma PlacedThere(m: UnitMap, bridge: seq<CompileUnit>, rest: seq<CompileUnit>, place: seq<nat>, count: nat,
                    trans: map<Name, Name>, g: UnitMap, n: Name, x: Name)
    requires MergeResult(m, bridge, rest, place, count, trans, g) && n in m
    requires x == Bridge || (x.Merged? && 1 <= x.n <= count)
    ensures n in trans && (trans[n] == Bridge || (trans[n].Merged? && 1 <= trans[n].n <= count))
    ensures m[n] in Parts(bridge, rest, place, x) <==> x == trans[n]
  {
    hide DeclCode, ImplCode, ClosedSet, FinishedAt, Part;
    if x.Merged? {
      PartMembers(rest, place, x.n, m[n]);
    }
    if n in NamesOf(bridge) {
      UnitNamed(m, bridge, n);
    } else {
      UnitNamed(m, rest, n);
    }
    forall j | 0 <= j < |rest| && rest[j] == m[n] ensures rest[j].name == n && n in NamesOf(rest) {
      assert rest[j] in rest;
    }
    forall j | 0 <= j < |bridge| && bridge[j] == m[n] ensures n in NamesOf(bridge) {
      assert bridge[j] in bridge;
    }
  }

  lemma UnitNamed(m: UnitMap, us: seq<CompileUnit>, n: Name)
    requires Listed(m, us) && n in NamesOf(us)
    ensures n in m && m[n].name == n && exists j :: 0 <= j < |us| && us[j] == m[n]
  {
    var j :| 0 <= j < |us| && us[j].name == n;
    assert us[j] in us;
  }

  // ----- the steps of merging -----

  ghost predicate PlacedUpTo(bridge: seq<CompileUnit>, rest: seq<CompileUnit>, i: nat, place: seq<nat>, count: nat,
                             trans: map<Name, Name>, g: UnitMap)
    requires i <= |rest|
  {
    && |place| == i && InOrder(place, count) && Placed(bridge, rest[..i], place, trans)
    && Collected(bridge, rest[..i], place, count, g)
  }

  lemma NoneCollected(bridge: seq<CompileUnit>, rest: seq<CompileUnit>, trans: map<Name, Name>, g: UnitMap)
    requires trans.Keys == NamesOf(bridge) && (forall n :: n in trans ==> trans[n] == Bridge)
    requires g == map[Bridge := Built(Bridge, bridge)]
    ensures PlacedUpTo(bridge, rest, 0, [], 0, trans, g)
  {
  }

  /** A new, empty merged unit is begun. */
  lemma UnitBegun(bridge: seq<CompileUnit>, rest: seq<CompileUnit>, i: nat, place: seq<nat>, count: nat,
                  trans: map<Name, Name>, g: UnitMap)
    requires i <= |rest| && PlacedUpTo(bridge, rest, i, place, count, trans, g)
    ensures var n := Merged(count + 1);
      PlacedUpTo(bridge, rest, i, place, count + 1, trans, g[n := CompileUnit(n, "", "", {}, {}, 0)])
  {
    hide Placed, AllDeclDepends, AllImplDepends, BridgeCode;
    NothingPlaced(rest[..i], place, count + 1);
    EmptyBuilt(Merged(count + 1));
  }

  lemma EmptyBuilt(n: Name)
    ensures Built(n, []) == CompileUnit(n, "", "", {}, {}, 0)
  {
  }

  lemma {:induction false} NothingPlaced(us: seq<CompileUnit>, place: seq<nat>, k: nat)
    requires |place| == |us| && forall j :: 0 <= j < |place| ==> place[j] < k
    ensures Part(us, place, k) == []
  {
    if us != [] {
      NothingPlaced(us[..|us| - 1], place[..|us| - 1], k);
    }
  }

  /** The next unit is appended to the last merged unit. */
  lemma UnitPlaced(m: UnitMap, bridge: seq<CompileUnit>, rest: seq<CompileUnit>, i: nat, place: seq<nat>, count: nat,
                   trans: map<Name, Name>, g: UnitMap)
    requires i < |rest| && 1 <= count && PlacedUpTo(bridge, rest, i, place, count, trans, g) && Split(m, bridge, rest)
    ensures Merged(count) in g
    ensures var h := g[Merged(count) := Appended(g[Merged(count)], rest[i])];
      PlacedUpTo(bridge, rest, i + 1, place + [count], count, trans[rest[i].name := Merged(count)], h)
  {
    hide Placed, Split, Collected, Appended;
    TransNext(m, bridge, rest, i, place, count, trans);
    CollectedNext(bridge, rest, i, place, count, g);
  }

  lemma CollectedNext(bridge: seq<CompileUnit>, rest: seq<CompileUnit>, i: nat, place: seq<nat>, count: nat, g: UnitMap)
    requires i < |rest| && 1 <= count && |place| == i && Collected(bridge, rest[..i], place, count, g)
    ensures Merged(count) in g
    ensures var h := g[Merged(count) := Appended(g[Merged(count)], rest[i])];
      Collected(bridge, rest[..i + 1], place + [count], count, h)
  {
    hide Appended, Built, Part;
    var u := rest[i];
    assert rest[..i + 1] == rest[..i] + [u];
    BuiltNext(Merged(count), Part(rest[..i], place, count), u);
    var us, next := rest[..i + 1], place + [count];
    var g' := g[Merged(count) := Appended(g[Merged(count)], u)];
    assert g'.Keys == g.Keys;
    forall k | 1 <= k <= count ensures g'[Merged(k)] == Built(Merged(k), Part(us, next, k)) {
      PartNext(rest[..i], place, u, count, k);
      assert k != count ==> Part(us, next, k) == Part(rest[..i], place, k);
    }
  }

  lemma TransNext(m: UnitMap, bridge: seq<CompileUnit>, rest: seq<CompileUnit>, i: nat, place: seq<nat>, count: nat,
                  trans: map<Name, Name>)
    requires i < |rest| == |rest[..i]| + (|rest| - i) && |place| == i && Placed(bridge, rest[..i], place, trans)
    requires Split(m, bridge, rest)
    ensures Placed(bridge, rest[..i + 1], place + [count], trans[rest[i].name := Merged(count)])
  {
    var u := rest[i];
    assert rest[..i + 1] == rest[..i] + [u];
    NamesNext(rest[..i], u);
    assert u.name in NamesOf(rest);
    forall j | 0 <= j < i ensures rest[j].name != u.name && rest[..i][j] == rest[j] {
    }
  }

  /** The last merged unit is left out when it is empty. */
  ghost predicate Trimmed(g: UnitMap, count: nat, h: UnitMap) {
    1 <= count && Merged(count) in g && h == if g[Merged(count)].declCode == ""
      && g[Merged(count)].implCode == "" then g - {Merged(count)} else g
  }

  /** Some of the merged units have their final dependencies. */
  ghost predicate FinishedSome(h: UnitMap, trans: map<Name, Name>, todo: set<Name>, now: UnitMap) {
    && now.Keys == h.Keys && todo <= h.Keys
    && forall n :: n in h ==> if n in todo then now[n] == h[n] else
         h[n].declDepends <= trans.Keys && h[n].implDepends <= trans.Keys && now[n] == Finished(h[n], trans, h.Keys)
  }

  lemma MergeDone(m: UnitMap, bridge: seq<CompileUnit>, rest: seq<CompileUnit>, place: seq<nat>, count: nat,
                  trans: map<Name, Name>, g: UnitMap, h: UnitMap, now: UnitMap)
    requires Split(m, bridge, rest) && ClosedSet(m, NamesOf(bridge))
    requires PlacedUpTo(bridge, rest, |rest|, place, count, trans, g) && Trimmed(g, count, h)
    requires FinishedSome(h, trans, {}, now)
    ensures MergeResult(m, bridge, rest, place, count, trans, now)
  {
    hide Split, ClosedSet, InOrder, Placed, Part, AllDeclDepends, AllImplDepends, BridgeCode, Finished;
    hide DeclCode, ImplCode;
    assert rest[..|rest|] == rest;
    CollectedDone(bridge, rest, place, count, g, h);
  }

  lemma CollectedDone(bridge: seq<CompileUnit>, rest: seq<CompileUnit>, place: seq<nat>, count: nat, g: UnitMap,
                      h: UnitMap)
    requires |place| == |rest| && Collected(bridge, rest, place, count, g) && Trimmed(g, count, h)
    ensures forall n :: n in h ==> n == Bridge || exists k :: 1 <= k <= count && n == Merged(k)
    ensures forall n :: n in h ==> h[n] == Built(n, Parts(bridge, rest, place, n))
    ensures Bridge in h && (forall k :: 1 <= k < count ==> Merged(k) in h)
    ensures Merged(count) !in h ==> DeclCode(Part(rest, place, count)) == "" && ImplCode(Part(rest, place, count)) == ""
  {
    hide Part, AllDeclDepends, AllImplDepends, BridgeCode, DeclCode, ImplCode;
    assert g[Merged(count)] == Built(Merged(count), Part(rest, place, count));
  }

  /** The dependencies of the merged units can be looked up. */
  lemma LookupsThere(m: UnitMap, bridge: seq<CompileUnit>, rest: seq<CompileUnit>, place: seq<nat>, count: nat,
                     trans: map<Name, Name>, g: UnitMap, h: UnitMap, n: Name)
    requires AllKnown(m) && Split(m, bridge, rest) && PlacedUpTo(bridge, rest, |rest|, place, count, trans, g)
    requires Trimmed(g, count, h) && n in h
    ensures h[n].declDepends <= trans.Keys && h[n].implDepends <= trans.Keys && h[n].name == n
  {
    assert rest[..|rest|] == rest;
    LookupsFit(m, bridge, rest, place, trans, n);
    hide AllKnown, Split, InOrder, Placed, Part, AllDeclDepends, AllImplDepends, BridgeCode;
  }

  // ----- units that get their orders -----

  /** A unit optimised and with its order, which is a word. */
  ghost function Final(m: UnitMap, rank: map<Name, nat>, n: Name): CompileUnit
    requires Acyclic(m, rank) && n in m
  {
    Optimized(m[n], m.Keys).(dependOrder := Weight(m, rank, n) % WORD)
  }

  /** A unit optimised, with any order. */
  predicate IsOptimized(m: UnitMap, n: Name, u: CompileUnit)
    requires n in m
  {
    u.(dependOrder := m[n].dependOrder) == Optimized(m[n], m.Keys)
  }

  /** A unit optimised and with an order, the right one if the dependencies are acyclic. */
  ghost predicate IsFinal(m: UnitMap, rank: map<Name, nat>, n: Name, u: CompileUnit)
    requires n in m
  {
    IsOptimized(m, n, u) && u.dependOrder < WORD && (Acyclic(m, rank) ==> u == Final(m, rank, n))
  }

  /** A unit as it was at first, or optimised, or optimised and with its order. */
  ghost predicate Progressed(m: UnitMap, rank: map<Name, nat>, n: Name, u: CompileUnit)
    requires n in m
  {
    u == m[n] || u == Optimized(m[n], m.Keys) || IsFinal(m, rank, n, u)
  }

  /** now is m with some units optimised and some ordered. */
  ghost predicate InProgress(m: UnitMap, rank: map<Name, nat>, now: UnitMap) {
    && now.Keys == m.Keys && Named(m) && (forall n :: n in m ==> m[n].dependOrder == 0)
    && forall n :: n in m ==> Progressed(m, rank, n, now[n])
  }

  lemma ProgressAt(m: UnitMap, rank: map<Name, nat>, now: UnitMap, n: Name)
    requires InProgress(m, rank, now) && n in m
    ensures n in now && Progressed(m, rank, n, now[n]) && now[n].name == n && m[n].dependOrder == 0
    ensures now.Keys == m.Keys && now[n].dependOrder < WORD
    ensures now[n].dependOrder != 0 ==> IsFinal(m, rank, n, now[n])
    ensures now[n].dependOrder == 0 ==> Optimized(now[n], m.Keys) == Optimized(m[n], m.Keys)
  {
    hide Acyclic, Final;
    OptimizedAgain(m[n], m.Keys);
  }

  lemma ProgressSet(m: UnitMap, rank: map<Name, nat>, now: UnitMap, n: Name, u: CompileUnit)
    requires InProgress(m, rank, now) && n in m && Progressed(m, rank, n, u)
    ensures InProgress(m, rank, now[n := u])
  {
    hide Progressed;
  }

  /** What the units are like when each has its order. */
  ghost predicate Finals(m: UnitMap, rank: map<Name, nat>, now: UnitMap) {
    now.Keys == m.Keys && forall n :: n in m ==> IsFinal(m, rank, n, now[n])
  }

  /** Every unit is optimised; if the dependencies are acyclic and no order needs more than a word, the orders
      rise. */
  lemma FinalsRise(m: UnitMap, rank: map<Name, nat>, now: UnitMap)
    requires Named(m) && Finals(m, rank, now)
    ensures Tidy(now) && (Acyclic(m, rank) && OrdersFit(m, rank) ==> Rising(now))
  {
    hide Weight;
    forall n | n in now ensures IsOptimized(m, n, now[n]) {
      assert IsFinal(m, rank, n, now[n]);
    }
    if Acyclic(m, rank) && OrdersFit(m, rank) {
      forall n, d | n in now && d in now[n].declDepends && d in now ensures now[d].dependOrder < now[n].dependOrder {
        WeightAbove(m, rank, n, d);
        FinalFits(m, rank, n);
        FinalFits(m, rank, d);
        assert IsFinal(m, rank, n, now[n]) && IsFinal(m, rank, d, now[d]);
      }
    }
  }

  lemma FinalFits(m: UnitMap, rank: map<Name, nat>, n: Name)
    requires Acyclic(m, rank) && OrdersFit(m, rank) && n in m
    ensures Final(m, rank, n).dependOrder == Weight(m, rank, n)
  {
  }

  /** The orders of some dependencies together, below the order of the unit. */
  lemma PartWeight(m: UnitMap, rank: map<Name, nat>, n: Name, done: set<Name>)
    requires Acyclic(m, rank) && n in m && done <= Deps(m, n)
    ensures Total(WeightsOf(m, rank, done)) < Weight(m, rank, n)
    ensures done == Deps(m, n) ==> Total(WeightsOf(m, rank, done)) == Weight(m, rank, n) - 1
  {
    var rest := Deps(m, n) - done;
    assert WeightsOf(m, rank, done) + WeightsOf(m, rank, rest) == Weights(m, rank, n);
    assert done == Deps(m, n) ==> WeightsOf(m, rank, done) == Weights(m, rank, n);
    TotalUnion(WeightsOf(m, rank, done), WeightsOf(m, rank, rest));
  }

  ghost function WeightsOf(m: UnitMap, rank: map<Name, nat>, ds: set<Name>): map<Name, nat>
    requires Acyclic(m, rank) && ds <= m.Keys
  {
    map d | d in ds :: Weight(m, rank, d)
  }

  lemma WeightsOfNext(m: UnitMap, rank: map<Name, nat>, ds: set<Name>, d: Name)
    requires Acyclic(m, rank) && ds <= m.Keys && d in m && d !in ds
    ensures Total(WeightsOf(m, rank, ds + {d})) == Total(WeightsOf(m, rank, ds)) + Weight(m, rank, d)
  {
    TotalInsert(WeightsOf(m, rank, ds), d, Weight(m, rank, d));
    assert WeightsOf(m, rank, ds + {d}) == WeightsOf(m, rank, ds)[d := Weight(m, rank, d)];
  }

  /** The unit has its order already, which may be 0. */
  ghost predicate HasOrder(m: UnitMap, rank: map<Name, nat>, now: UnitMap, n: Name)
    requires Acyclic(m, rank)
  {
    n in m && n in now && now[n].dependOrder == Weight(m, rank, n) % WORD
  }

  /** The units whose computation has been begun; if the dependencies are acyclic they have their order, or are above
      the one at hand. */
  ghost predicate Stacking(m: UnitMap, now: UnitMap, rank: map<Name, nat>, stack: set<Name>, n: Name) {
    && stack <= m.Keys && n in m
    && (Acyclic(m, rank) ==> forall x :: x in stack ==> HasOrder(m, rank, now, x) || rank[n] < rank[x])
  }

  // ----- a single unit -----

  /** The dependencies of a merged unit can be looked up. */
  predicate Looked(trans: map<Name, Name>, u: CompileUnit) {
    u.declDepends <= trans.Keys && u.implDepends <= trans.Keys
  }

  /** A single unit is never ordered and so never optimised. It can be looked up if it depends on itself at most, or
      if it has no code and is dropped. */
  predicate LoneFits(m: UnitMap) {
    forall n :: n in m ==>
      (m[n].declDepends <= {n} && m[n].implDepends <= {n})
      || (n !in BRIDGE_TYPES && m[n].declCode == "" && m[n].implCode == "")
  }

  /** All dependencies of the merged units can be looked up. */
  ghost predicate AllLooked(h: UnitMap, trans: map<Name, Name>) {
    forall n :: n in h ==> Looked(trans, h[n])
  }

  lemma AllThere(m: UnitMap, bridge: seq<CompileUnit>, rest: seq<CompileUnit>, place: seq<nat>, count: nat,
                 trans: map<Name, Name>, g: UnitMap, h: UnitMap)
    requires AllKnown(m) && Split(m, bridge, rest) && PlacedUpTo(bridge, rest, |rest|, place, count, trans, g)
    requires Trimmed(g, count, h)
    ensures AllLooked(h, trans)
  {
    hide AllKnown, Split, PlacedUpTo, Trimmed;
    forall n | n in h ensures Looked(trans, h[n]) {
      LookupsThere(m, bridge, rest, place, count, trans, g, h, n);
    }
  }

  /** The look-ups for a map of a single unit, or of none. */
  lemma LoneLooked(m: UnitMap, bridge: seq<CompileUnit>, rest: seq<CompileUnit>, place: seq<nat>, count: nat,
                   trans: map<Name, Name>, g: UnitMap, h: UnitMap)
    requires |m| < 2 && Split(m, bridge, rest) && LeastBridge(m, bridge)
    requires PlacedUpTo(bridge, rest, |rest|, place, count, trans, g) && Trimmed(g, count, h) && AllFull(g, count)
    ensures AllLooked(h, trans) <==> LoneFits(m)
  {
    hide Split, LeastBridge, PlacedUpTo, Trimmed, AllLooked, AllFull;
    if m == map[] {
      AllThere(m, bridge, rest, place, count, trans, g, h);
    } else {
      var n :| n in m;
      assert m.Keys == {n} by { LoneKey(m, n); }
      if m[n].declDepends <= {n} && m[n].implDepends <= {n} {
        AllThere(m, bridge, rest, place, count, trans, g, h);
      } else {
        LoneLists(m, n, bridge, rest);
        LoneBridge(m, n, bridge);
        if bridge == [] {
          LoneInRest(m[n], n, place, count, trans, g, h);
        } else {
          LoneInBridge(m[n], n, place, count, trans, g, h);
        }
      }
    }
  }

  lemma LoneKey(m: UnitMap, n: Name)
    requires |m| < 2 && n in m
    ensures m.Keys == {n}
  {
    assert |m.Keys - {n}| == |m| - 1;
  }

  lemma LoneLists(m: UnitMap, n: Name, a: seq<CompileUnit>, b: seq<CompileUnit>)
    requires m.Keys == {n} && Split(m, a, b)
    ensures (a == [m[n]] && b == []) || (a == [] && b == [m[n]])
    ensures m[n].name == n
  {
    LoneList(m, n, a);
    LoneList(m, n, b);
    assert n in NamesOf(a) || n in NamesOf(b);
  }

  lemma LoneList(m: UnitMap, n: Name, us: seq<CompileUnit>)
    requires m.Keys == {n} && Listed(m, us)
    ensures us == [] || (us == [m[n]] && m[n].name == n)
  {
    if |us| > 1 {
      LoneMember(m, n, us, 0);
      LoneMember(m, n, us, 1);
    } else if |us| == 1 {
      LoneMember(m, n, us, 0);
    }
  }

  lemma LoneMember(m: UnitMap, n: Name, us: seq<CompileUnit>, i: nat)
    requires m.Keys == {n} && Listed(m, us) && i < |us|
    ensures us[i] == m[n] && us[i].name == n
  {
    assert us[i] in us;
  }

  lemma LoneBridge(m: UnitMap, n: Name, bridge: seq<CompileUnit>)
    requires m.Keys == {n} && m[n].name == n && LeastBridge(m, bridge) && (bridge == [] || bridge == [m[n]])
    ensures bridge == [] <==> n !in BRIDGE_TYPES
  {
    if n !in BRIDGE_TYPES {
      assert ClosedSet(m, {});
      NoNames(bridge);
    } else {
      assert n in BRIDGE_TYPES * m.Keys;
    }
  }

  lemma NoNames(us: seq<CompileUnit>)
    ensures NamesOf(us) <= {} ==> us == []
  {
    if us != [] {
      assert us[0].name in NamesOf(us);
    }
  }

  lemma LonePart(u: CompileUnit, p: nat, k: nat)
    ensures Part([u], [p], k) == if p == k then [u] else []
    ensures DeclCode([u]) == u.declCode && ImplCode([u]) == u.implCode
    ensures AllDeclDepends([u]) == u.declDepends && AllImplDepends([u]) == u.implDepends
    ensures DeclCode([]) == "" == ImplCode([]) && AllDeclDepends([]) == {} == AllImplDepends([])
  {
    PartNext([], [], u, p, k);
    NamesNext([], u);
    assert [] + [u] == [u] && [] + [p] == [p] && [u][..0] == [];
  }

  /** A unit that goes to the bridge can be looked up only if its dependencies are itself. */
  lemma LoneInBridge(u: CompileUnit, n: Name, place: seq<nat>, count: nat, trans: map<Name, Name>, g: UnitMap,
                     h: UnitMap)
    requires PlacedUpTo([u], [], 0, place, count, trans, g) && Trimmed(g, count, h) && u.name == n
    requires !(u.declDepends <= {n} && u.implDepends <= {n})
    ensures !AllLooked(h, trans)
  {
    LonePart(u, 0, 0);
    hide AllDeclDepends, AllImplDepends, BridgeCode, ImplCode, DeclCode, Part;
    assert NamesOf([u]) == {n} && NamesOf([][..0]) == {};
    assert Bridge in h && !Looked(trans, h[Bridge]);
  }

  /** So can any other, unless it is dropped because it has no code. */
  lemma LoneInRest(u: CompileUnit, n: Name, place: seq<nat>, count: nat, trans: map<Name, Name>, g: UnitMap, h: UnitMap)
    requires PlacedUpTo([], [u], 1, place, count, trans, g) && Trimmed(g, count, h) && u.name == n && AllFull(g, count)
    requires !(u.declDepends <= {n} && u.implDepends <= {n})
    ensures AllLooked(h, trans) <==> u.declCode == "" && u.implCode == ""
  {
    hide PlacedUpTo;
    LonePlaced(u, n, place, count, trans, g);
    var p := place[0];
    if u.declCode == "" && u.implCode == "" {
      assert !IsUnitFull(g[Merged(p)]);
      forall x | x in h ensures Looked(trans, h[x]) {
      }
    } else {
      assert Merged(p) in h && !Looked(trans, h[Merged(p)]);
    }
  }

  lemma LonePlaced(u: CompileUnit, n: Name, place: seq<nat>, count: nat, trans: map<Name, Name>, g: UnitMap)
    requires PlacedUpTo([], [u], 1, place, count, trans, g) && u.name == n
    ensures |place| == 1 && 1 <= place[0] <= count && trans.Keys == {n}
    ensures Merged(place[0]) in g
    ensures var v := g[Merged(place[0])];
      v.declDepends == u.declDepends && v.implDepends == u.implDepends && v.declCode == u.declCode
      && v.implCode == u.implCode
    ensures forall x :: x in g && x != Merged(place[0]) ==> Looked(trans, g[x])
  {
    hide AllDeclDepends, AllImplDepends, BridgeCode, ImplCode, DeclCode, Part, NamesOf;
    var p := place[0];
    assert place == [p] && [u][..1] == [u];
    LoneNames(u);
    forall k: nat ensures Part([u], place, k) == if p == k then [u] else [] {
      LonePart(u, p, k);
    }
    LonePart(u, p, p);
    assert g[Merged(p)] == Built(Merged(p), [u]);
    forall x | x in g && x != Merged(p) ensures Looked(trans, g[x]) {
      assert x == Bridge || x.Merged?;
      assert g[x] == Built(x, []);
    }
  }

  lemma LoneNames(u: CompileUnit)
    ensures NamesOf([u]) == {u.name} && NamesOf([]) == {}
  {
    assert [u][0] == u;
  }

  // ----- full units -----

  /** No more is put into a unit of this size. */
  predicate IsUnitFull(u: CompileUnit) {
    |u.declCode| > 100000 || |u.implCode| > 1000000
  }

  /** All merged units but the last are full. */
  ghost predicate AllFull(g: UnitMap, count: nat) {
    forall k :: 1 <= k < count ==> Merged(k) in g && IsUnitFull(g[Merged(k)])
  }

  /** The j-th unit fills its merged unit. */
  ghost predicate Fills(us: seq<CompileUnit>, place: seq<nat>, j: nat)
    requires j < |us| == |place|
  {
    IsUnitFull(Built(Merged(place[j]), Part(us[..j + 1], place[..j + 1], place[j])))
  }

  /** A merged unit is begun just when the one before is full; count is the one that the next unit would go to. */
  ghost predicate FilledInTurn(us: seq<CompileUnit>, place: seq<nat>, count: nat) {
    && |place| == |us| && (if us == [] then count == 1 else place[0] == 1)
    && (forall j: nat :: j < |us| - 1 ==> place[j + 1] == place[j] + if Fills(us, place, j) then 1 else 0)
    && (us != [] ==> count == place[|us| - 1] + if Fills(us, place, |us| - 1) then 1 else 0)
  }

  lemma FilledNext(us: seq<CompileUnit>, place: seq<nat>, count: nat, u: CompileUnit, full: bool)
    requires FilledInTurn(us, place, count)
    requires full <==> IsUnitFull(Built(Merged(count), Part(us + [u], place + [count], count)))
    ensures FilledInTurn(us + [u], place + [count], count + if full then 1 else 0)
  {
    hide IsUnitFull, Built, Part;
    var vs, next := us + [u], place + [count];
    forall j: nat | j < |us| ensures Fills(vs, next, j) <==> Fills(us, place, j) {
      assert vs[..j + 1] == us[..j + 1] && next[..j + 1] == place[..j + 1];
    }
    assert vs[..|us| + 1] == vs && next[..|us| + 1] == next;
  }
}

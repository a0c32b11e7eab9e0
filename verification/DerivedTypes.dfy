/** The sets of derived types, kept up to date as types and variance relations are added. */
module DerivedTypes {

  type TypeId = nat

  /** The direct bases of each type: base type, interfaces, variance bases. */
  datatype Ups = Ups(base: set<TypeId>, interfaces: set<TypeId>, variance: set<TypeId>)

  type Graph = map<TypeId, Ups>
  type Ranks = map<TypeId, nat>
  type Sets = map<TypeId, set<TypeId>>

  function All(u: Ups): set<TypeId> {
    u.base + u.interfaces + u.variance
  }

  /** The relation is acyclic: bases have a lower rank. They are known types. */
  ghost predicate Ranked(g: Graph, rank: Ranks) {
    g.Keys <= rank.Keys && forall t, v :: t in g && v in All(g[t]) ==> v in g && rank[v] < rank[t]
  }

  /** y is x, or a base of it at any distance. */
  ghost predicate Above(g: Graph, rank: Ranks, x: TypeId, y: TypeId)
    requires Ranked(g, rank) && x in g
    decreases rank[x]
  {
    x == y || exists v :: v in All(g[x]) && Above(g, rank, v, y)
  }

  /** y is a base of x at a distance of one or more. */
  ghost predicate StrictlyAbove(g: Graph, rank: Ranks, x: TypeId, y: TypeId)
    requires Ranked(g, rank) && x in g
  {
    exists v :: v in All(g[x]) && Above(g, rank, v, y)
  }

  /** The sets of derived types are the strict transitive closure of the direct relation. */
  ghost predicate Exact(g: Graph, rank: Ranks, d: Sets)
    requires Ranked(g, rank)
  {
    && d.Keys == g.Keys
    && (forall y, x :: y in d && x in d[y] ==> x in g)
    && forall x, y :: x in g && y in g ==> (x in d[y] <==> StrictlyAbove(g, rank, x, y))
  }

  lemma {:induction false} AboveKnown(g: Graph, rank: Ranks, x: TypeId, y: TypeId)
    requires Ranked(g, rank) && x in g && Above(g, rank, x, y)
    ensures y in g && rank[y] <= rank[x] && (x != y ==> rank[y] < rank[x])
    decreases rank[x]
  {
    if x != y {
      var v :| v in All(g[x]) && Above(g, rank, v, y);
      AboveKnown(g, rank, v, y);
    }
  }

  lemma StrictKnown(g: Graph, rank: Ranks, x: TypeId, y: TypeId)
    requires Ranked(g, rank) && x in g && StrictlyAbove(g, rank, x, y)
    ensures y in g && rank[y] < rank[x]
  {
    hide Above;
    var v :| v in All(g[x]) && Above(g, rank, v, y);
    AboveKnown(g, rank, v, y);
  }

  /** Nothing is its own base. */
  lemma NotOwnBase(g: Graph, rank: Ranks, x: TypeId)
    requires Ranked(g, rank) && x in g
    ensures !StrictlyAbove(g, rank, x, x)
  {
    hide Above;
    if StrictlyAbove(g, rank, x, x) {
      StrictKnown(g, rank, x, x);
    }
  }

  /** A way up from x to y, of one step or more: each type is followed by its base type, one of its interfaces or one
      of its variance bases. */
  ghost predicate WayUp(g: Graph, p: seq<TypeId>, x: TypeId, y: TypeId) {
    && 2 <= |p| && p[0] == x && p[|p| - 1] == y
    && forall i :: 0 <= i < |p| - 1 ==>
      p[i] in g && (p[i + 1] in g[p[i]].base || p[i + 1] in g[p[i]].interfaces || p[i + 1] in g[p[i]].variance)
  }

  /** A type is strictly below another just when a way leads up to it. */
  lemma StrictIsWay(g: Graph, rank: Ranks, x: TypeId, y: TypeId)
    requires Ranked(g, rank) && x in g
    ensures StrictlyAbove(g, rank, x, y) <==> exists p :: WayUp(g, p, x, y)
  {
    if StrictlyAbove(g, rank, x, y) {
      var p := FindWay(g, rank, x, y);
    }
    if p :| WayUp(g, p, x, y) {
      WayLeads(g, rank, p, x, y);
    }
  }

  lemma {:induction false} FindWay(g: Graph, rank: Ranks, x: TypeId, y: TypeId) returns (p: seq<TypeId>)
    requires Ranked(g, rank) && x in g && StrictlyAbove(g, rank, x, y)
    ensures WayUp(g, p, x, y)
    decreases rank[x]
  {
    var v :| v in All(g[x]) && Above(g, rank, v, y);
    if v == y {
      p := [x, y];
    } else {
      var q := FindWay(g, rank, v, y);
      p := [x] + q;
    }
  }

  lemma {:induction false} WayLeads(g: Graph, rank: Ranks, p: seq<TypeId>, x: TypeId, y: TypeId)
    requires Ranked(g, rank) && x in g && WayUp(g, p, x, y)
    ensures StrictlyAbove(g, rank, x, y)
    decreases |p|
  {
    assert p[1] in All(g[x]);
    if |p| > 2 {
      assert WayUp(g, p[1..], p[1], y);
      WayLeads(g, rank, p[1..], p[1], y);
    }
  }

  // ----- a new type -----

  /** Types that were known before have the same bases as before. */
  lemma {:induction false} AboveSame(g: Graph, g': Graph, rank: Ranks, x: TypeId, y: TypeId)
    requires Ranked(g, rank) && Ranked(g', rank) && x in g && g.Keys <= g'.Keys && forall t :: t in g ==> g'[t] == g[t]
    ensures Above(g', rank, x, y) <==> Above(g, rank, x, y)
    decreases rank[x]
  {
    forall v | v in All(g[x]) ensures Above(g', rank, v, y) <==> Above(g, rank, v, y) {
      AboveSame(g, g', rank, v, y);
    }
  }

  lemma StrictSame(g: Graph, g': Graph, rank: Ranks, x: TypeId, y: TypeId)
    requires Ranked(g, rank) && Ranked(g', rank) && x in g && g.Keys <= g'.Keys && forall t :: t in g ==> g'[t] == g[t]
    ensures StrictlyAbove(g', rank, x, y) <==> StrictlyAbove(g, rank, x, y)
  {
    hide Above;
    forall v | v in All(g[x]) ensures Above(g', rank, v, y) <==> Above(g, rank, v, y) {
      AboveSame(g, g', rank, v, y);
    }
  }

  /** A type without descendants is added below known types. */
  lemma NewType(g: Graph, rank: Ranks, d: Sets, t: TypeId, u: Ups, d': Sets)
    requires Ranked(g, rank) && t !in g && Ranked(g[t := u], rank) && Exact(g, rank, d)
    requires d'.Keys == g.Keys + {t} && d'[t] == {}
    requires forall y :: y in g ==> d'[y] == d[y] + (if StrictlyAbove(g[t := u], rank, t, y) then {t} else {})
    ensures Exact(g[t := u], rank, d')
  {
    hide Ranked, StrictlyAbove;
    var g' := g[t := u];
    forall x, y | x in g' && y in g' ensures x in d'[y] <==> StrictlyAbove(g', rank, x, y) {
      if x == t {
        NewTypeBelow(g, rank, d, t, u, y);
      } else {
        StrictSame(g, g', rank, x, y);
        if StrictlyAbove(g, rank, x, y) {
          StrictKnown(g, rank, x, y);
        }
      }
    }
  }

  lemma NewTypeBelow(g: Graph, rank: Ranks, d: Sets, t: TypeId, u: Ups, y: TypeId)
    requires Ranked(g, rank) && t !in g && Ranked(g[t := u], rank) && Exact(g, rank, d)
    ensures y in g ==> t !in d[y]
    ensures !StrictlyAbove(g[t := u], rank, t, t)
  {
    hide Ranked, StrictlyAbove;
    NotOwnBase(g[t := u], rank, t);
  }

  // ----- a new variance edge -----

  function WithVariance(g: Graph, s: TypeId, b: TypeId): Graph
    requires s in g
  {
    g[s := g[s].(variance := g[s].variance + {b})]
  }

  /** A path in the larger relation goes through the new edge at most once. */
  lemma {:induction false} AboveWith(g: Graph, rank: Ranks, s: TypeId, b: TypeId, x: TypeId, y: TypeId)
    requires Ranked(g, rank) && s in g && b in g && Ranked(WithVariance(g, s, b), rank) && x in g
    ensures Above(WithVariance(g, s, b), rank, x, y) <==>
      Above(g, rank, x, y) || (Above(g, rank, x, s) && Above(g, rank, b, y))
    decreases rank[x]
  {
    var g' := WithVariance(g, s, b);
    assert All(g'[x]) == if x == s then All(g[x]) + {b} else All(g[x]);
    forall v | v in All(g'[x])
      ensures Above(g', rank, v, y) <==> Above(g, rank, v, y) || (Above(g, rank, v, s) && Above(g, rank, b, y))
    {
      AboveWith(g, rank, s, b, v, y);
    }
    AboveWithStep(g, rank, s, b, x, y);
  }

  lemma AboveWithStep(g: Graph, rank: Ranks, s: TypeId, b: TypeId, x: TypeId, y: TypeId)
    requires Ranked(g, rank) && s in g && b in g && Ranked(WithVariance(g, s, b), rank) && x in g
    requires var g' := WithVariance(g, s, b);
      forall v :: v in All(g'[x]) ==>
        (Above(g', rank, v, y) <==> Above(g, rank, v, y) || (Above(g, rank, v, s) && Above(g, rank, b, y)))
    ensures Above(WithVariance(g, s, b), rank, x, y) <==>
      Above(g, rank, x, y) || (Above(g, rank, x, s) && Above(g, rank, b, y))
  {
    var g' := WithVariance(g, s, b);
    assert All(g'[x]) == if x == s then All(g[x]) + {b} else All(g[x]);
    NotAbove(g, rank, s, b);
  }

  /** The base of a new edge is not below the derived type. */
  lemma NotAbove(g: Graph, rank: Ranks, s: TypeId, b: TypeId)
    requires Ranked(g, rank) && s in g && b in g && Ranked(WithVariance(g, s, b), rank)
    ensures !Above(g, rank, b, s)
  {
    assert b in All(WithVariance(g, s, b)[s]);
    if Above(g, rank, b, s) {
      AboveKnown(g, rank, b, s);
    }
  }

  lemma NewVariance(g: Graph, rank: Ranks, d: Sets, s: TypeId, b: TypeId, d': Sets)
    requires Ranked(g, rank) && s in g && b in g && Ranked(WithVariance(g, s, b), rank) && Exact(g, rank, d)
    requires d'.Keys == d.Keys
    requires forall y :: y in g ==> d'[y] == d[y] + (if Above(g, rank, b, y) then d[s] + {s} else {})
    ensures Exact(WithVariance(g, s, b), rank, d')
  {
    hide Ranked, StrictlyAbove, Above;
    var g' := WithVariance(g, s, b);
    forall x, y | x in g' && y in g' ensures x in d'[y] <==> StrictlyAbove(g', rank, x, y) {
      StrictWith(g, rank, s, b, x, y);
    }
  }

  lemma StrictWith(g: Graph, rank: Ranks, s: TypeId, b: TypeId, x: TypeId, y: TypeId)
    requires Ranked(g, rank) && s in g && b in g && Ranked(WithVariance(g, s, b), rank) && x in g
    ensures StrictlyAbove(WithVariance(g, s, b), rank, x, y)
            <==> StrictlyAbove(g, rank, x, y) || ((x == s || StrictlyAbove(g, rank, x, s)) && Above(g, rank, b, y))
  {
    hide Above;
    var g' := WithVariance(g, s, b);
    assert All(g'[x]) == if x == s then All(g[x]) + {b} else All(g[x]);
    forall v | v in All(g'[x])
      ensures Above(g', rank, v, y) <==> Above(g, rank, v, y) || (Above(g, rank, v, s) && Above(g, rank, b, y))
    {
      AboveWith(g, rank, s, b, v, y);
    }
    NotAbove(g, rank, s, b);
    AboveSelf(g, rank, s);
  }

  lemma AboveSelf(g: Graph, rank: Ranks, x: TypeId)
    requires Ranked(g, rank) && x in g
    ensures Above(g, rank, x, x)
  {
  }

  // ----- the sets -----

  class Hierarchy {
    var graph: Graph
    var derived: Sets

    constructor ()
      ensures graph == map[] && derived == map[] && Exact(graph, map[], derived)
    {
      graph, derived := map[], map[];
    }

    /** Add the types of s to the derived types of t and of all its bases (AddDerivedTypeRecursive). */
    method AddDerivedTypeRecursive(t: TypeId, s: set<TypeId>, ghost rank: Ranks)
      requires Ranked(graph, rank) && t in graph && derived.Keys == graph.Keys
      modifies this`derived
      ensures derived.Keys == graph.Keys
      ensures forall y :: y in graph ==> derived[y] == old(derived)[y] + (if Above(graph, rank, t, y) then s else {})
      decreases rank[t], 1
    {
      hide Ranked, Above;
      BasesKnown(graph, rank, t);
      derived := derived[t := derived[t] + s];
      AddToAll(graph[t].base + graph[t].interfaces + graph[t].variance, s, rank, t);
      forall y | y in graph ensures Above(graph, rank, t, y) <==> y == t || AboveSome(graph, rank, All(graph[t]), y) {
        AboveSplits(graph, rank, t, y);
      }
      NotSome(graph, rank, t);
    }

    /** The same for each of the given direct bases of t. */
    method AddToAll(vs: set<TypeId>, s: set<TypeId>, ghost rank: Ranks, ghost t: TypeId)
      requires Ranked(graph, rank) && t in graph && vs <= All(graph[t]) && derived.Keys == graph.Keys
      requires vs <= graph.Keys
      modifies this`derived
      ensures derived.Keys == graph.Keys
      ensures forall y :: y in graph ==>
        derived[y] == old(derived)[y] + (if AboveSome(graph, rank, vs, y) then s else {})
      decreases rank[t], 0
    {
      hide Ranked, Above, AboveSome;
      var todo := vs;
      ghost var done := {};
      NoneAbove(graph, rank);
      while todo != {}
        invariant todo <= vs && done == vs - todo && derived.Keys == graph.Keys
        invariant forall y :: y in graph ==>
          derived[y] == old(derived)[y] + (if AboveSome(graph, rank, done, y) then s else {})
      {
        var v :| v in todo;
        LowerBase(graph, rank, t, v);
        AddDerivedTypeRecursive(v, s, rank);
        forall y | y in graph
          ensures AboveSome(graph, rank, done + {v}, y) <==> AboveSome(graph, rank, done, y) || Above(graph, rank, v, y)
        {
          AboveSomeNext(graph, rank, done, v, y);
        }
        todo, done := todo - {v}, done + {v};
      }
      assert done == vs;
    }

    /** A new type: its bases are known, and its own sets start empty. */
    method AddType(t: TypeId, base: set<TypeId>, interfaces: set<TypeId>, ghost rank: Ranks)
      requires Ranked(graph, rank) && Exact(graph, rank, derived) && t !in graph && t in rank
      requires forall v :: v in base + interfaces ==> v in graph && rank[v] < rank[t]
      modifies this
      ensures graph == old(graph)[t := Ups(base, interfaces, {})]
      ensures Ranked(graph, rank) && Exact(graph, rank, derived)
    {
      hide Ranked, Exact, Above, StrictlyAbove;
      ghost var g, d := graph, derived;
      ghost var u := Ups(base, interfaces, {});
      NewRanked(g, rank, t, u);
      SameKeys(g, rank, d);
      NotOwnBase(g[t := u], rank, t);
      graph := graph[t := Ups(base, interfaces, {})];
      derived := derived[t := {}];
      UpdateDerivedTypes(t, rank);
      NewType(g, rank, d, t, u, derived);
    }

    /** Enter t into the sets of its base type and its interfaces. */
    method UpdateDerivedTypes(t: TypeId, ghost rank: Ranks)
      requires Ranked(graph, rank) && t in graph && derived.Keys == graph.Keys && graph[t].variance == {}
      modifies this`derived
      ensures derived.Keys == graph.Keys
      ensures forall y :: y in graph ==>
        derived[y] == old(derived)[y] + (if StrictlyAbove(graph, rank, t, y) then {t} else {})
    {
      hide Ranked, Above;
      BasesKnown(graph, rank, t);
      AddToAll(graph[t].base + graph[t].interfaces, {t}, rank, t);
      assert graph[t].base + graph[t].interfaces == All(graph[t]);
    }

    /** Type s gets the variance base b, perhaps long after both have descendants and bases. */
    method AddVarianceBaseType(s: TypeId, b: TypeId, ghost rank: Ranks)
      requires Ranked(graph, rank) && Exact(graph, rank, derived) && s in graph && b in graph && rank[b] < rank[s]
      modifies this
      ensures graph == WithVariance(old(graph), s, b)
      ensures Ranked(graph, rank) && Exact(graph, rank, derived)
    {
      hide Exact, Above, StrictlyAbove;
      ghost var g, d := graph, derived;
      SameKeys(g, rank, d);
      VarianceRanked(g, rank, s, b);
      if b in graph[s].variance {
        assert graph[s].variance + {b} == graph[s].variance;
        assert WithVariance(graph, s, b) == graph;
        return;
      }
      graph := graph[s := graph[s].(variance := graph[s].variance + {b})];
      var tySet := derived[s] + {s};
      AddDerivedTypeRecursive(b, tySet, rank);
      forall y | y in g ensures Above(graph, rank, b, y) <==> Above(g, rank, b, y) {
        AboveWith(g, rank, s, b, b, y);
        NotAbove(g, rank, s, b);
      }
      NewVariance(g, rank, d, s, b, derived);
    }

    /** Is x derived from t? */
    method IsDerivedType(t: TypeId, x: TypeId, ghost rank: Ranks) returns (r: bool)
      requires Ranked(graph, rank) && Exact(graph, rank, derived) && t in graph && x in graph
      ensures r <==> exists p :: WayUp(graph, p, x, t)
    {
      StrictIsWay(graph, rank, x, t);
      return x in derived[t];
    }
  }

  ghost predicate AboveSome(g: Graph, rank: Ranks, vs: set<TypeId>, y: TypeId)
    requires Ranked(g, rank) && vs <= g.Keys
  {
    exists v :: v in vs && Above(g, rank, v, y)
  }

  lemma NoneAbove(g: Graph, rank: Ranks)
    requires Ranked(g, rank)
    ensures forall y :: !AboveSome(g, rank, {}, y)
  {
  }

  lemma AboveSomeNext(g: Graph, rank: Ranks, vs: set<TypeId>, v: TypeId, y: TypeId)
    requires Ranked(g, rank) && vs <= g.Keys && v in g
    ensures AboveSome(g, rank, vs + {v}, y) <==> AboveSome(g, rank, vs, y) || Above(g, rank, v, y)
  {
    hide Ranked, Above;
  }

  lemma BasesKnown(g: Graph, rank: Ranks, t: TypeId)
    requires Ranked(g, rank) && t in g
    ensures All(g[t]) <= g.Keys
  {
  }

  lemma LowerBase(g: Graph, rank: Ranks, t: TypeId, v: TypeId)
    requires Ranked(g, rank) && t in g && v in All(g[t])
    ensures v in g && v in rank && t in rank && rank[v] < rank[t]
  {
  }

  lemma AboveSplits(g: Graph, rank: Ranks, t: TypeId, y: TypeId)
    requires Ranked(g, rank) && t in g && All(g[t]) <= g.Keys
    ensures Above(g, rank, t, y) <==> y == t || AboveSome(g, rank, All(g[t]), y)
  {
  }

  lemma NotSome(g: Graph, rank: Ranks, t: TypeId)
    requires Ranked(g, rank) && t in g && All(g[t]) <= g.Keys
    ensures !AboveSome(g, rank, All(g[t]), t)
  {
    hide Above;
    NotOwnBase(g, rank, t);
  }

  lemma SameKeys(g: Graph, rank: Ranks, d: Sets)
    requires Ranked(g, rank) && Exact(g, rank, d)
    ensures d.Keys == g.Keys
  {
  }

  lemma NewRanked(g: Graph, rank: Ranks, t: TypeId, u: Ups)
    requires Ranked(g, rank) && t !in g && t in rank && forall v :: v in All(u) ==> v in g && rank[v] < rank[t]
    ensures Ranked(g[t := u], rank)
  {
  }

  lemma VarianceRanked(g: Graph, rank: Ranks, s: TypeId, b: TypeId)
    requires Ranked(g, rank) && s in g && b in g && rank[b] < rank[s]
    ensures Ranked(WithVariance(g, s, b), rank)
  {
  }
}

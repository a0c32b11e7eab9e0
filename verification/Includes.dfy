/** What merged units include, and where the code of each unit is in them. */
module Includes {
  import opened Units

  // ----- includes -----

  /** The dependencies of the units placed in x. */
  lemma PartDepends(us: seq<CompileUnit>, i: nat)
    requires i < |us|
    ensures us[i].declDepends <= AllDeclDepends(us) && us[i].implDepends <= AllImplDepends(us)
  {
  }

  lemma DependsPart(us: seq<CompileUnit>, d: Name)
    ensures d in AllDeclDepends(us) ==> exists u :: u in us && d in u.declDepends
    ensures d in AllImplDepends(us) ==> exists u :: u in us && d in u.implDepends
  {
    if d in AllDeclDepends(us) {
      var i :| 0 <= i < |us| && d in us[i].declDepends;
      assert us[i] in us;
    }
    if d in AllImplDepends(us) {
      var i :| 0 <= i < |us| && d in us[i].implDepends;
      assert us[i] in us;
    }
  }

  /** The units that make up x are those whose names are translated to x. */
  lemma PartsAre(m: UnitMap, bridge: seq<CompileUnit>, rest: seq<CompileUnit>, place: seq<nat>, count: nat,
                 trans: map<Name, Name>, g: UnitMap, x: Name)
    requires MergeResult(m, bridge, rest, place, count, trans, g) && (x == Bridge || (x.Merged? && 1 <= x.n <= count))
    ensures trans.Keys == m.Keys
    ensures forall n :: n in m && trans[n] == x ==> m[n] in Parts(bridge, rest, place, x)
    ensures forall u :: u in Parts(bridge, rest, place, x) ==> u.name in m && m[u.name] == u && trans[u.name] == x
  {
    hide FinishedAt, DeclCode, ImplCode, Part, ClosedSet, InOrder;
    forall n | n in m ensures n in trans && (trans[n] == x ==> m[n] in Parts(bridge, rest, place, x)) {
      PlacedThere(m, bridge, rest, place, count, trans, g, n, x);
    }
    forall u | u in Parts(bridge, rest, place, x) ensures u.name in m && m[u.name] == u && trans[u.name] == x {
      if x.Merged? {
        PartMembers(rest, place, x.n, u);
      }
      assert u in bridge || u in rest;
      PlacedThere(m, bridge, rest, place, count, trans, g, u.name, x);
    }
  }

  /** A merged unit has all the includes that its units need: what a declaration needs is in the unit itself, or in one
      that it includes for its declarations, unless that was dropped. */
  lemma DeclIncluded(m: UnitMap, bridge: seq<CompileUnit>, rest: seq<CompileUnit>, place: seq<nat>, count: nat,
                     trans: map<Name, Name>, g: UnitMap, n: Name, d: Name)
    requires MergeResult(m, bridge, rest, place, count, trans, g) && n in m && d in m[n].declDepends
    requires n in trans && trans[n] in g
    ensures d in trans && (trans[d] == trans[n] || trans[d] in g[trans[n]].declDepends || trans[d] !in g)
  {
    hide DeclCode, ImplCode, Part, ClosedSet, InOrder, AllDeclDepends, AllImplDepends, BridgeCode, FinishedAt, Split;
    hide Placed;
    var x := trans[n];
    PartsAre(m, bridge, rest, place, count, trans, g, x);
    var us := Parts(bridge, rest, place, x);
    var i :| 0 <= i < |us| && us[i] == m[n];
    PartDepends(us, i);
    FinishedHas(bridge, rest, place, trans, g, x);
  }

  /** What a definition needs is in the unit itself, or in one that it includes at all. */
  lemma ImplIncluded(m: UnitMap, bridge: seq<CompileUnit>, rest: seq<CompileUnit>, place: seq<nat>, count: nat,
                     trans: map<Name, Name>, g: UnitMap, n: Name, d: Name)
    requires MergeResult(m, bridge, rest, place, count, trans, g) && n in m && d in m[n].implDepends
    requires n in trans && trans[n] in g
    ensures d in trans
    ensures trans[d] == trans[n] || trans[d] in g[trans[n]].declDepends + g[trans[n]].implDepends || trans[d] !in g
  {
    hide DeclCode, ImplCode, Part, ClosedSet, InOrder, AllDeclDepends, AllImplDepends, BridgeCode, FinishedAt, Split;
    hide Placed;
    var x := trans[n];
    PartsAre(m, bridge, rest, place, count, trans, g, x);
    var us := Parts(bridge, rest, place, x);
    var i :| 0 <= i < |us| && us[i] == m[n];
    PartDepends(us, i);
    FinishedHas(bridge, rest, place, trans, g, x);
  }

  /** The includes of a finished unit, one by one. */
  lemma FinishedHas(bridge: seq<CompileUnit>, rest: seq<CompileUnit>, place: seq<nat>, trans: map<Name, Name>,
                    g: UnitMap, x: Name)
    requires |place| == |rest| && x in g && FinishedAt(bridge, rest, place, trans, g, x)
    ensures var ds, ms := AllDeclDepends(Parts(bridge, rest, place, x)), AllImplDepends(Parts(bridge, rest, place, x));
      && ds <= trans.Keys && ms <= trans.Keys
      && (forall d :: d in ds && trans[d] != x && trans[d] in g ==> trans[d] in g[x].declDepends)
      && (forall d :: d in ms && trans[d] != x && trans[d] in g ==> trans[d] in g[x].declDepends + g[x].implDepends)
      && (forall e :: e in g[x].declDepends ==> e in g && e != x && exists d :: d in ds && trans[d] == e)
      && (forall e :: e in g[x].implDepends ==>
        e in g && e != x && e !in g[x].declDepends && exists d :: d in ms && trans[d] == e)
  {
    hide AllDeclDepends, AllImplDepends, Parts, BridgeCode, DeclCode, ImplCode;
  }

  /** And it has no others: each include is in the map, is another unit, and is needed by a unit placed in x. */
  lemma IncludesNeeded(m: UnitMap, bridge: seq<CompileUnit>, rest: seq<CompileUnit>, place: seq<nat>, count: nat,
                       trans: map<Name, Name>, g: UnitMap, x: Name, e: Name)
    requires MergeResult(m, bridge, rest, place, count, trans, g) && x in g
    ensures trans.Keys == m.Keys
    ensures e in g[x].declDepends ==>
      e in g && e != x && exists n, d :: n in m && trans[n] == x && d in m[n].declDepends && d in m && trans[d] == e
    ensures e in g[x].implDepends ==>
      && e in g && e != x && e !in g[x].declDepends
      && exists n, d :: n in m && trans[n] == x && d in m[n].implDepends && d in m && trans[d] == e
  {
    hide DeclCode, ImplCode, Part, ClosedSet, InOrder, AllDeclDepends, AllImplDepends, BridgeCode, FinishedAt, Split;
    hide Placed;
    PartsAre(m, bridge, rest, place, count, trans, g, x);
    FinishedHas(bridge, rest, place, trans, g, x);
    var us := Parts(bridge, rest, place, x);
    if e in g[x].declDepends {
      var d :| d in AllDeclDepends(us) && trans[d] == e;
      DependsPart(us, d);
      var u :| u in us && d in u.declDepends;
      assert u.name in m && m[u.name] == u && trans[u.name] == x;
    }
    if e in g[x].implDepends {
      var d :| d in AllImplDepends(us) && trans[d] == e;
      DependsPart(us, d);
      var u :| u in us && d in u.implDepends;
      assert u.name in m && m[u.name] == u && trans[u.name] == x;
    }
  }

  /** What ordered units depend on: what they depended on before, without themselves, unknown names, and what their
      declarations include. */
  lemma FinalDepends(m: UnitMap, rank: map<Name, nat>, now: UnitMap, n: Name, d: Name)
    requires Named(m) && Finals(m, rank, now) && n in m
    ensures n in now && now[n].declCode == m[n].declCode && now[n].implCode == m[n].implCode
    ensures d in now[n].declDepends <==> d in m[n].declDepends && d in m && d != n
    ensures d in now[n].implDepends <==> d in m[n].implDepends && d in m && d != n && d !in m[n].declDepends
  {
    hide Acyclic, Final;
    assert IsFinal(m, rank, n, now[n]);
  }

  // ----- the bridge -----

  /** A chain of units, each of which needs the declarations of the next, that starts at a bridge type. */
  ghost predicate ChainTo(m: UnitMap, p: seq<Name>, n: Name) {
    && p != [] && p[0] in BRIDGE_TYPES && p[|p| - 1] == n
    && (forall i :: 0 <= i < |p| ==> p[i] in m)
    && forall i :: 0 <= i < |p| - 1 ==> p[i + 1] in m[p[i]].declDepends
  }

  ghost predicate Chained(m: UnitMap, n: Name) {
    exists p :: ChainTo(m, p, n)
  }

  /** The bridge holds the units that such chains lead to, and no others. */
  lemma BridgeIsChained(m: UnitMap, bridge: seq<CompileUnit>, n: Name)
    requires LeastBridge(m, bridge) && Listed(m, bridge)
    ensures n in NamesOf(bridge) <==> Chained(m, n)
  {
    if p :| ChainTo(m, p, n) {
      ChainInside(m, NamesOf(bridge), p, n);
    }
    var S := set x | x in m && Chained(m, x);
    forall x | x in BRIDGE_TYPES * m.Keys ensures x in S {
      assert ChainTo(m, [x], x);
    }
    forall x, d | x in S && d in m[x].declDepends && d in m ensures d in S {
      var p :| ChainTo(m, p, x);
      assert ChainTo(m, p + [d], d);
    }
    assert ClosedSet(m, S);
  }

  lemma {:induction false} ChainInside(m: UnitMap, S: set<Name>, p: seq<Name>, n: Name)
    requires ClosedSet(m, S) && ChainTo(m, p, n)
    ensures n in S
    decreases |p|
  {
    if |p| > 1 {
      var q := p[..|p| - 1];
      assert ChainTo(m, q, q[|q| - 1]);
      ChainInside(m, S, q, q[|q| - 1]);
    }
  }

  // ----- code -----

  /** In s, b comes somewhere after a, without overlap. */
  ghost predicate Follows(s: string, a: string, b: string) {
    exists x, y, z :: s == x + a + y + b + z
  }

  ghost predicate Contains(s: string, a: string) {
    exists x, y :: s == x + a + y
  }

  /** The declarations of merged units; in the bridge a line that names the unit comes before each. */
  function CodeOf(n: Name, us: seq<CompileUnit>): string {
    if n == Bridge then BridgeCode(us) else DeclCode(us)
  }

  function UnitCode(n: Name, u: CompileUnit): string {
    (if n == Bridge then "#define IL2CPP_BRIDGE_HAS_" + (if u.name.Original? then u.name.id else "") + "\n" else "")
    + u.declCode
  }

  lemma CodeNext(n: Name, us: seq<CompileUnit>, u: CompileUnit)
    ensures CodeOf(n, us + [u]) == CodeOf(n, us) + UnitCode(n, u) && ImplCode(us + [u]) == ImplCode(us) + u.implCode
    ensures CodeOf(n, []) == "" == ImplCode([])
  {
    assert (us + [u])[..|us|] == us;
    assert BridgeCode(us) + Define(u.name) + u.declCode == BridgeCode(us) + (Define(u.name) + u.declCode);
    assert DeclCode(us) + u.declCode == DeclCode(us) + ("" + u.declCode);
  }

  lemma {:induction false} CodeBoth(n: Name, us: seq<CompileUnit>, vs: seq<CompileUnit>)
    ensures CodeOf(n, us + vs) == CodeOf(n, us) + CodeOf(n, vs) && ImplCode(us + vs) == ImplCode(us) + ImplCode(vs)
  {
    hide CodeOf, UnitCode;
    if vs == [] {
      assert us + vs == us;
      CodeNext(n, us, CompileUnit(n, "", "", {}, {}, 0));
    } else {
      var k := |vs| - 1;
      assert us + vs == us + vs[..k] + [vs[k]] && vs == vs[..k] + [vs[k]];
      CodeBoth(n, us, vs[..k]);
      CodeNext(n, us + vs[..k], vs[k]);
      CodeNext(n, vs[..k], vs[k]);
    }
  }

  lemma CodeAt(n: Name, us: seq<CompileUnit>, i: nat)
    requires i < |us|
    ensures CodeOf(n, us) == CodeOf(n, us[..i]) + UnitCode(n, us[i]) + CodeOf(n, us[i + 1..])
    ensures ImplCode(us) == ImplCode(us[..i]) + us[i].implCode + ImplCode(us[i + 1..])
  {
    hide CodeOf, UnitCode, ImplCode;
    var xs, ys := us[..i], us[i + 1..];
    SplitAt(us, i);
    CodeBoth(n, xs + [us[i]], ys);
    CodeNext(n, xs, us[i]);
  }

  lemma SplitAt(us: seq<CompileUnit>, i: nat)
    requires i < |us|
    ensures us == (us[..i] + [us[i]]) + us[i + 1..]
  {
  }

  /** Of two units in a list, the code of the first comes first. */
  lemma CodeOrder(n: Name, us: seq<CompileUnit>, i: nat, j: nat)
    requires i < j < |us|
    ensures Follows(CodeOf(n, us), UnitCode(n, us[i]), UnitCode(n, us[j]))
  {
    hide CodeOf, UnitCode;
    CodeAt(n, us, j);
    CodeAt(n, us[..j], i);
    assert us[..j][..i] == us[..i];
    var x, y, z := CodeOf(n, us[..i]), CodeOf(n, us[..j][i + 1..]), CodeOf(n, us[j + 1..]);
    assert CodeOf(n, us) == x + UnitCode(n, us[i]) + y + UnitCode(n, us[j]) + z;
  }

  /** The units placed in the k-th merged unit are in the order of the list. */
  lemma {:induction false} PartOrder(us: seq<CompileUnit>, place: seq<nat>, k: nat, i: nat, j: nat)
    returns (a: nat, b: nat)
    requires |place| == |us| && i < j < |us| && place[i] == k == place[j]
    ensures a < b < |Part(us, place, k)| && Part(us, place, k)[a] == us[i] && Part(us, place, k)[b] == us[j]
    decreases |us|
  {
    var n := |us| - 1;
    if j < n {
      a, b := PartOrder(us[..n], place[..n], k, i, j);
    } else {
      PartMembers(us[..n], place[..n], k, us[i]);
      assert us[..n][i] == us[i] && place[..n][i] == k;
      var part := Part(us[..n], place[..n], k);
      a :| 0 <= a < |part| && part[a] == us[i];
      b := |part|;
    }
  }

  /** The code of a merged unit, before and after its includes are known. */
  lemma FinishedCode(bridge: seq<CompileUnit>, rest: seq<CompileUnit>, place: seq<nat>, trans: map<Name, Name>,
                     g: UnitMap, x: Name)
    requires |place| == |rest| && x in g && FinishedAt(bridge, rest, place, trans, g, x)
    ensures g[x].name == x && g[x].declCode == CodeOf(x, Parts(bridge, rest, place, x))
    ensures g[x].implCode == ImplCode(Parts(bridge, rest, place, x))
  {
    hide AllDeclDepends, AllImplDepends, Parts, BridgeCode, DeclCode, ImplCode;
  }

  /** The code of each unit is in the merged unit to which its name is translated; in the bridge, behind the line that
      says so. If that merged unit was dropped, there is no code. */
  lemma CodeKept(m: UnitMap, bridge: seq<CompileUnit>, rest: seq<CompileUnit>, place: seq<nat>, count: nat,
                 trans: map<Name, Name>, g: UnitMap, n: Name)
    requires MergeResult(m, bridge, rest, place, count, trans, g) && n in m
    ensures n in trans
    ensures if trans[n] in g
      then Contains(g[trans[n]].declCode, UnitCode(trans[n], m[n])) && Contains(g[trans[n]].implCode, m[n].implCode)
      else m[n].declCode == "" == m[n].implCode
  {
    hide DeclCode, ImplCode, Part, ClosedSet, InOrder, AllDeclDepends, AllImplDepends, BridgeCode, FinishedAt, Split;
    hide CodeOf, UnitCode, Contains;
    PlacedOnce(m, bridge, rest, place, count, trans, g, n, Bridge);
    var x := trans[n];
    PartsAre(m, bridge, rest, place, count, trans, g, x);
    var us := Parts(bridge, rest, place, x);
    var i :| 0 <= i < |us| && us[i] == m[n];
    CodeAt(x, us, i);
    if x in g {
      FinishedCode(bridge, rest, place, trans, g, x);
      IsWithin(g[x].declCode, CodeOf(x, us[..i]), UnitCode(x, m[n]), CodeOf(x, us[i + 1..]));
      IsWithin(g[x].implCode, ImplCode(us[..i]), m[n].implCode, ImplCode(us[i + 1..]));
    } else {
      DroppedEmpty(m, bridge, rest, place, count, trans, g, x);
      assert UnitCode(x, m[n]) == m[n].declCode by { NotBridge(x, m[n]); }
    }
  }

  lemma NotBridge(x: Name, u: CompileUnit)
    ensures x != Bridge ==> UnitCode(x, u) == u.declCode
  {
  }

  lemma IsWithin(s: string, x: string, a: string, y: string)
    requires s == x + a + y
    ensures Contains(s, a)
  {
  }

  lemma DroppedEmpty(m: UnitMap, bridge: seq<CompileUnit>, rest: seq<CompileUnit>, place: seq<nat>, count: nat,
                     trans: map<Name, Name>, g: UnitMap, x: Name)
    requires MergeResult(m, bridge, rest, place, count, trans, g) && x !in g
    requires x == Bridge || (x.Merged? && 1 <= x.n <= count)
    ensures x != Bridge && CodeOf(x, Parts(bridge, rest, place, x)) == "" == ImplCode(Parts(bridge, rest, place, x))
  {
    hide DeclCode, ImplCode, Part, ClosedSet, InOrder, FinishedAt, Split, Placed;
  }

  /** When declarations come before uses in the lists, they do in the code: if the declarations of n need those of d,
      and both are in the same merged unit, the code of d comes first. */
  lemma CodeDeclared(m: UnitMap, bridge: seq<CompileUnit>, rest: seq<CompileUnit>, place: seq<nat>, count: nat,
                     trans: map<Name, Name>, g: UnitMap, n: Name, d: Name)
    requires MergeResult(m, bridge, rest, place, count, trans, g) && DeclaredBefore(bridge) && DeclaredBefore(rest)
    requires n in m && d in m[n].declDepends && d in m
    ensures n in trans && d in trans
    ensures trans[n] == trans[d] && trans[n] in g ==>
      Follows(g[trans[n]].declCode, UnitCode(trans[n], m[d]), UnitCode(trans[n], m[n]))
  {
    hide DeclCode, ImplCode, Part, ClosedSet, AllDeclDepends, AllImplDepends, BridgeCode, FinishedAt, Split, InOrder;
    hide CodeOf, UnitCode, Follows, DeclaredBefore;
    PlacedOnce(m, bridge, rest, place, count, trans, g, n, Bridge);
    PlacedOnce(m, bridge, rest, place, count, trans, g, d, Bridge);
    var x := trans[n];
    if trans[d] == x && x in g {
      var a, b := InBoth(m, bridge, rest, place, count, trans, g, n, d);
      FinishedCode(bridge, rest, place, trans, g, x);
      CodeOrder(x, Parts(bridge, rest, place, x), a, b);
    }
  }

  /** Where the two units are among those of their merged unit. */
  lemma InBoth(m: UnitMap, bridge: seq<CompileUnit>, rest: seq<CompileUnit>, place: seq<nat>, count: nat,
               trans: map<Name, Name>, g: UnitMap, n: Name, d: Name) returns (a: nat, b: nat)
    requires MergeResult(m, bridge, rest, place, count, trans, g) && DeclaredBefore(bridge) && DeclaredBefore(rest)
    requires n in m && d in m[n].declDepends && d in m && n in trans && d in trans && trans[n] == trans[d]
    ensures var us := Parts(bridge, rest, place, trans[n]); a < b < |us| && us[a] == m[d] && us[b] == m[n]
  {
    hide DeclCode, ImplCode, Part, ClosedSet, FinishedAt, InOrder, DeclaredBefore;
    if n in NamesOf(bridge) {
      BothListed(m, rest, d);
      a, b := BeforeIn(m, bridge, n, d);
    } else {
      BothListed(m, bridge, d);
      a, b := BeforeIn(m, rest, n, d);
      a, b := PartOrder(rest, place, trans[n].n, a, b);
    }
  }

  lemma BothListed(m: UnitMap, us: seq<CompileUnit>, d: Name)
    requires Listed(m, us)
    ensures d in NamesOf(us) ==> exists i :: 0 <= i < |us| && us[i].name == d
  {
  }

  lemma BeforeIn(m: UnitMap, us: seq<CompileUnit>, n: Name, d: Name) returns (a: nat, b: nat)
    requires Listed(m, us) && DeclaredBefore(us) && n in NamesOf(us) && d in NamesOf(us)
    requires n in m && d in m && d in m[n].declDepends
    ensures a < b < |us| && us[a] == m[d] && us[b] == m[n]
  {
    b :| 0 <= b < |us| && us[b].name == n;
    assert us[b] in us;
    assert d in NamesOf(us[..b]);
    a :| 0 <= a < b && us[..b][a].name == d;
    assert us[a] in us;
  }
}

/** Which methods a program can run, and the analysis that finds them. */
module Reaching {
  import opened Sequences

  type Method = nat
  type TypeId = nat

  /** What an instruction refers to: a method called directly or loaded, a method called virtually, the
      constructor of a new object, or a static field of a type. */
  datatype Ref = Call(m: Method) | CallVirt(m: Method) | NewObj(m: Method) | StaticField(t: TypeId)

  /** The finite universe of methods and types: bodies, declaring types, virtual and static methods, static
      constructors, strict subtypes, and the implementation of a virtual method in a type. */
  datatype Program = Program(
    methods: set<Method>, body: map<Method, seq<Ref>>, decl: map<Method, TypeId>, virtuals: set<Method>,
      statics: set<Method>,
    cctor: map<TypeId, Method>, derived: map<TypeId, set<TypeId>>, impl: map<(TypeId, Method), Method>)

  ghost predicate WellFormed(p: Program) {
    && p.body.Keys == p.decl.Keys == p.methods
    && p.virtuals <= p.methods && p.virtuals !! p.statics
    && (forall m, r :: m in p.methods && r in p.body[m] ==> RefIn(p, r))
    && (forall t :: t in p.cctor ==> p.cctor[t] in p.methods && p.cctor[t] !in p.virtuals)
  }

  predicate RefIn(p: Program, r: Ref) {
    match r
    case Call(m) => m in p.methods
    case CallVirt(m) => m in p.methods
    case NewObj(m) => m in p.methods && m !in p.virtuals
    case StaticField(_) => true
  }

  /** Type t is the declaring type of m or derived from it. */
  predicate Below(p: Program, t: TypeId, m: Method) {
    m in p.decl && (t == p.decl[m] || (p.decl[m] in p.derived && t in p.derived[p.decl[m]]))
  }

  /** Some method creates objects of type t. */
  ghost predicate CanBeNew(p: Program, t: TypeId) {
    exists m, c :: Refers(p, m, NewObj(c)) && c in p.decl && p.decl[c] == t
  }

  /** Every type that can be instantiated implements the virtual methods of its bases; otherwise the look-up
      throws. */
  ghost predicate Implemented(p: Program) {
    forall t: TypeId, m: Method :: m in p.virtuals && Below(p, t, m) && CanBeNew(p, t) ==> HasImpl(p, t, m)
  }

  predicate HasImpl(p: Program, t: TypeId, m: Method) {
    (t, m) in p.impl && p.impl[(t, m)] in p.methods
  }

  // ----- the least fixpoint -----

  predicate CctorIn(p: Program, t: TypeId, R: set<Method>) {
    t in p.cctor ==> p.cctor[t] in R
  }

  /** What a reference in a reached method reaches: methods R and instantiated types I. */
  predicate Follows(p: Program, r: Ref, R: set<Method>, I: set<TypeId>) {
    match r
    case Call(m) => m in R && (m in p.statics && m in p.decl ==> CctorIn(p, p.decl[m], R))
    case CallVirt(m) => m !in p.virtuals ==> m in R && (m in p.statics && m in p.decl ==> CctorIn(p, p.decl[m], R))
    case NewObj(m) => m in R && (m in p.decl ==> p.decl[m] in I && CctorIn(p, p.decl[m], R))
    case StaticField(t) => CctorIn(p, t, R)
  }

  ghost predicate Refers(p: Program, m: Method, r: Ref) {
    m in p.body && r in p.body[m]
  }

  /** R and I hold the roots and are closed under direct calls, object creation, and virtual calls over the
      instantiated subtypes. */
  ghost predicate Closed(p: Program, roots: set<Method>, R: set<Method>, I: set<TypeId>) {
    && roots <= R
    && (forall m, r :: m in R && Refers(p, m, r) ==> Follows(p, r, R, I))
    && (forall m, x, t ::
      m in R && Refers(p, m, CallVirt(x)) && x in p.virtuals && t in I && Below(p, t, x) && HasImpl(p, t, x) ==>
        p.impl[(t, x)] in R)
  }

  /** R and I are the least such sets. */
  ghost predicate Least(p: Program, roots: set<Method>, R: set<Method>, I: set<TypeId>) {
    Closed(p, roots, R, I) && forall R', I' :: Closed(p, roots, R', I') ==> R <= R' && I <= I'
  }

  /** The least sets are determined by the program and the roots, whatever the order in which they are found. */
  lemma LeastUnique(p: Program, roots: set<Method>, R: set<Method>, I: set<TypeId>, R': set<Method>, I': set<TypeId>)
    requires Least(p, roots, R, I) && Least(p, roots, R', I')
    ensures R == R' && I == I'
  {
  }

  /** What the least sets hold, reference by reference. */
  lemma LeastReaches(p: Program, roots: set<Method>, R: set<Method>, I: set<TypeId>, n: Method)
    requires WellFormed(p) && Least(p, roots, R, I) && n in R && n in p.body
    ensures forall m :: Call(m) in p.body[n] || NewObj(m) in p.body[n] ==> m in R
    ensures forall m :: CallVirt(m) in p.body[n] && m !in p.virtuals ==> m in R
    ensures forall m, t ::
      CallVirt(m) in p.body[n] && m in p.virtuals && t in I && Below(p, t, m) && HasImpl(p, t, m) ==>
        p.impl[(t, m)] in R
    ensures forall m :: NewObj(m) in p.body[n] ==>
      m in p.decl && p.decl[m] in I && (p.decl[m] in p.cctor ==> p.cctor[p.decl[m]] in R)
    ensures forall m :: (Call(m) in p.body[n] || CallVirt(m) in p.body[n]) && m in p.statics && m in p.decl ==>
      p.decl[m] in p.cctor ==> p.cctor[p.decl[m]] in R
    ensures forall t :: StaticField(t) in p.body[n] && t in p.cctor ==> p.cctor[t] in R
  {
    hide Below, HasImpl;
    forall r | r in p.body[n] ensures Follows(p, r, R, I) && RefIn(p, r) {
      assert Refers(p, n, r) && n in p.methods;
    }
    forall m, t | CallVirt(m) in p.body[n] && m in p.virtuals && t in I && Below(p, t, m) && HasImpl(p, t, m)
      ensures (t, m) in p.impl && p.impl[(t, m)] in R
    {
      assert Refers(p, n, CallVirt(m)) && (t, m) in p.impl by { ImplIn(p, t, m); }
    }
  }

  lemma ImplIn(p: Program, t: TypeId, m: Method)
    requires HasImpl(p, t, m)
    ensures (t, m) in p.impl && p.impl[(t, m)] in p.methods
  {
  }

  /** The reference r of a method in R is a reason for m to be in R. */
  predicate Reason(p: Program, I: set<TypeId>, r: Ref, m: Method) {
    || r == Call(m) || r == NewObj(m) || (r == CallVirt(m) && m !in p.virtuals)
    || (r.CallVirt? && r.m in p.virtuals
        && exists t :: t in I && Below(p, t, r.m) && HasImpl(p, t, r.m) && p.impl[(t, r.m)] == m)
    || (r.StaticField? && r.t in p.cctor && p.cctor[r.t] == m)
    || (!r.StaticField? && r.m in p.decl && p.decl[r.m] in p.cctor && p.cctor[p.decl[r.m]] == m
        && (r.NewObj? || r.m in p.statics))
  }

  /** And nothing is in them without a reason: a method is a root, or some method refers to it or to what brings it in,
      and a type is created by some method. */
  lemma LeastReasons(p: Program, roots: set<Method>, R: set<Method>, I: set<TypeId>)
    requires WellFormed(p) && Least(p, roots, R, I)
    ensures forall m :: m in R && m !in roots ==> exists n, r :: n in R && Refers(p, n, r) && Reason(p, I, r, m)
    ensures forall t :: t in I ==> exists n, m :: n in R && Refers(p, n, NewObj(m)) && m in p.decl && p.decl[m] == t
  {
    hide Below, HasImpl, WellFormed;
    forall m | m in R && m !in roots ensures exists n, r :: n in R && Refers(p, n, r) && Reason(p, I, r, m) {
      if forall n, r :: n in R && Refers(p, n, r) ==> !Reason(p, I, r, m) {
        WithoutClosed(p, roots, R, I, m);
      }
    }
    forall t | t in I ensures exists n, m :: n in R && Refers(p, n, NewObj(m)) && m in p.decl && p.decl[m] == t {
      if forall n, m :: n in R && Refers(p, n, NewObj(m)) && m in p.decl ==> p.decl[m] != t {
        TypeNeeded(p, roots, R, I, t);
      }
    }
  }

  lemma TypeNeeded(p: Program, roots: set<Method>, R: set<Method>, I: set<TypeId>, t: TypeId)
    requires WellFormed(p) && Least(p, roots, R, I) && t in I
    ensures exists n, m :: n in R && Refers(p, n, NewObj(m)) && m in p.decl && p.decl[m] == t
  {
    hide Below, HasImpl, WellFormed;
    if forall n, m :: n in R && Refers(p, n, NewObj(m)) && m in p.decl ==> p.decl[m] != t {
      FewerTypes(p, roots, R, I, t);
    }
  }

  lemma FewerTypes(p: Program, roots: set<Method>, R: set<Method>, I: set<TypeId>, t: TypeId)
    requires Closed(p, roots, R, I)
    requires forall n, m :: n in R && Refers(p, n, NewObj(m)) && m in p.decl ==> p.decl[m] != t
    ensures Closed(p, roots, R, I - {t})
  {
    hide Below, HasImpl;
  }

  /** Without m the sets are closed as well. */
  lemma WithoutClosed(p: Program, roots: set<Method>, R: set<Method>, I: set<TypeId>, m: Method)
    requires WellFormed(p) && Closed(p, roots, R, I) && m !in roots
    requires forall n, r :: n in R && Refers(p, n, r) ==> !Reason(p, I, r, m)
    ensures Closed(p, roots, R - {m}, I)
  {
    hide Below;
    forall n, r | n in R && n != m && Refers(p, n, r) ensures Follows(p, r, R - {m}, I) {
      assert Follows(p, r, R, I) && !Reason(p, I, r, m) && RefIn(p, r);
    }
    forall n, x, t | n in R && n != m && Refers(p, n, CallVirt(x)) && x in p.virtuals && t in I && Below(p, t, x)
      && HasImpl(p, t, x)
      ensures p.impl[(t, x)] in R - {m}
    {
      assert !Reason(p, I, CallVirt(x), m);
    }
  }

  // ----- the state of the analysis and its steps -----

  /** The queue, the methods created so far, the processed ones, the skip flags (1 to skip, 2 not to, for good),
      the instantiated types, the types whose static constructor has been added, the virtual entries, and for
      an entry and an implementation the types it is used for. */
  datatype Analysis = Analysis(
    pending: seq<Method>, known: set<Method>, processed: set<Method>, skip: map<Method, nat>, instantiated: set<TypeId>,
    cctors: set<TypeId>, vcalls: set<Method>, impls: map<(Method, Method), set<TypeId>>)

  function Flag(a: Analysis, m: Method): nat {
    if m in a.skip then a.skip[m] else 0
  }

  function Skip(a: Analysis, m: Method, b: bool): Analysis {
    if !b then a.(skip := a.skip[m := 2]) else if Flag(a, m) == 0 then a.(skip := a.skip[m := 1]) else a
  }

  function Enqueued(a: Analysis, m: Method): Analysis {
    if m in a.processed then a else a.(pending := a.pending + [m])
  }

  function Added(a: Analysis, m: Method): Analysis {
    if m in a.known then a else Enqueued(a.(known := a.known + {m}), m)
  }

  function CctorAdded(p: Program, a: Analysis, t: TypeId): Analysis {
    if t in a.cctors then a
    else
      var b := a.(cctors := a.cctors + {t});
      if t in p.cctor then Added(b, p.cctor[t]) else b
  }

  function StaticAdded(p: Program, a: Analysis, m: Method): Analysis {
    if m in p.statics && m in p.decl then CctorAdded(p, a, p.decl[m]) else a
  }

  /** One reference. */
  function Resolved(p: Program, a: Analysis, r: Ref): Analysis {
    match r
    case Call(m) => StaticAdded(p, Enqueued(Skip(Added(a, m), m, false), m), m)
    case CallVirt(m) =>
      var b := Added(a, m);
      StaticAdded(p, if m in p.virtuals then Skip(b, m, true).(vcalls := b.vcalls + {m}) else b, m)
    case NewObj(m) =>
      var b := Added(a, m);
      StaticAdded(p, if m in p.decl
        then CctorAdded(p, b.(instantiated := b.instantiated + {p.decl[m]}), p.decl[m]) else b, m)
    case StaticField(t) => CctorAdded(p, a, t)
  }

  /** A virtual entry x met by an instantiated type t, with the implementation f. */
  function Bound(a: Analysis, x: Method, t: TypeId, f: Method): Analysis {
    var b := Added(a, f);
    var c := b.(impls := b.impls[(x, f) := (if (x, f) in b.impls then b.impls[(x, f)] else {}) + {t}]);
    Enqueued(Skip(c, f, false), f)
  }

  // ----- what the steps keep -----

  /** A method that is not skipped is processed or waits in the queue; only virtual entries are skipped, and only
      roots are virtual and neither to be skipped nor not to be. */
  ghost predicate Waits(p: Program, roots: set<Method>, a: Analysis, m: Method) {
    if Flag(a, m) == 1 then m in p.virtuals && m in a.vcalls
    else (m in a.processed || m in a.pending) && (m in p.virtuals ==> Flag(a, m) == 2 || m in roots)
  }

  /** The reference has been dealt with. */
  predicate Dealt(p: Program, a: Analysis, r: Ref) {
    match r
    case Call(m) => m in a.known && Flag(a, m) == 2 && (m in p.statics && m in p.decl ==> p.decl[m] in a.cctors)
    case CallVirt(m) =>
      && m in a.known
      && (if m in p.virtuals then m in a.vcalls else m in p.statics && m in p.decl ==> p.decl[m] in a.cctors)
    case NewObj(m) => m in a.known && (m in p.decl ==> p.decl[m] in a.instantiated && p.decl[m] in a.cctors)
    case StaticField(t) => t in a.cctors
  }

  ghost predicate CctorKnown(p: Program, a: Analysis, t: TypeId) {
    t in p.cctor ==> p.cctor[t] in a.known
  }

  ghost predicate Kept(p: Program, roots: set<Method>, a: Analysis) {
    && a.known <= p.methods && a.processed <= a.known && roots <= a.known && a.vcalls <= p.virtuals
    && (forall m :: m in a.pending ==> m in a.known)
    && (forall m :: m in a.known ==> Waits(p, roots, a, m))
    && (forall m :: m !in a.known ==> Flag(a, m) == 0)
    && (forall m :: Flag(a, m) <= 2 && (m in a.vcalls ==> Flag(a, m) != 0))
    && (forall t :: t in a.cctors ==> CctorKnown(p, a, t))
    && (forall k :: k in a.impls ==> k.0 in p.virtuals)
  }

  /** All references of the processed methods have been dealt with, except for cur. */
  ghost predicate AllDealt(p: Program, a: Analysis, cur: int) {
    forall m, r :: m in a.processed && m != cur && Refers(p, m, r) ==> Dealt(p, a, r)
  }

  /** b has everything that a has: flags go up only, queued methods stay. */
  ghost predicate Grows(a: Analysis, b: Analysis) {
    && a.known <= b.known && a.processed == b.processed && a.instantiated <= b.instantiated && a.cctors <= b.cctors
    && a.vcalls <= b.vcalls
    && (forall m :: (Flag(a, m) == 2 ==> Flag(b, m) == 2) && (Flag(a, m) != 0 ==> Flag(b, m) != 0))
    && a.pending <= b.pending
  }

  lemma DealtGrows(p: Program, a: Analysis, b: Analysis, r: Ref)
    requires Grows(a, b) && Dealt(p, a, r)
    ensures Dealt(p, b, r)
  {
  }

  lemma AllDealtGrows(p: Program, a: Analysis, b: Analysis, cur: int)
    requires Grows(a, b) && AllDealt(p, a, cur)
    ensures AllDealt(p, b, cur)
  {
    hide Dealt, Grows;
    forall m, r | m in b.processed && m != cur && Refers(p, m, r) ensures Dealt(p, b, r) {
      SameProcessed(a, b);
      DealtGrows(p, a, b, r);
    }
  }

  lemma SameProcessed(a: Analysis, b: Analysis)
    requires Grows(a, b)
    ensures a.processed == b.processed
  {
  }

  lemma GrowsTrans(a: Analysis, b: Analysis, c: Analysis)
    requires Grows(a, b) && Grows(b, c)
    ensures Grows(a, c)
  {
    forall m ensures (Flag(a, m) == 2 ==> Flag(c, m) == 2) && (Flag(a, m) != 0 ==> Flag(c, m) != 0) {
      assert Flag(a, m) == 2 ==> Flag(b, m) == 2;
      assert Flag(a, m) != 0 ==> Flag(b, m) != 0;
    }
  }

  lemma GrowsSelf(a: Analysis)
    ensures Grows(a, a)
  {
  }

  // ----- each step keeps the invariant -----

  /** b differs from a in what concerns m, and perhaps in more instantiated types. */
  ghost predicate Touches(p: Program, a: Analysis, b: Analysis, m: Method) {
    && b.known == a.known + {m} && b.processed == a.processed && b.cctors == a.cctors
    && a.instantiated <= b.instantiated && a.vcalls <= b.vcalls <= a.vcalls + {m} && a.pending <= b.pending
    && (forall x :: x in b.pending ==> x in a.pending || x == m)
    && (forall x :: x != m ==> Flag(b, x) == Flag(a, x))
    && (Flag(a, m) == 2 ==> Flag(b, m) == 2) && (Flag(a, m) != 0 ==> Flag(b, m) != 0)
  }

  lemma TouchesKept(p: Program, roots: set<Method>, a: Analysis, b: Analysis, m: Method)
    requires Kept(p, roots, a) && Touches(p, a, b, m) && m in p.methods && Waits(p, roots, b, m)
    requires Flag(b, m) <= 2 && (m in b.vcalls ==> m in p.virtuals && Flag(b, m) != 0)
    requires forall k :: k in b.impls ==> k.0 in p.virtuals
    ensures Kept(p, roots, b) && Grows(a, b)
  {
    hide Flag;
    forall x | x in b.known ensures Waits(p, roots, b, x) {
      if x != m {
        assert Waits(p, roots, a, x);
        assert x in a.pending ==> x in b.pending;
      }
    }
  }

  lemma CallKept(p: Program, roots: set<Method>, a: Analysis, m: Method)
    requires Kept(p, roots, a) && m in p.methods
    ensures var b := Enqueued(Skip(Added(a, m), m, false), m);
      Kept(p, roots, b) && Grows(a, b) && m in b.known && Flag(b, m) == 2
  {
    var b := Enqueued(Skip(Added(a, m), m, false), m);
    assert m in b.processed || m in b.pending;
    TouchesKept(p, roots, a, b, m);
  }

  lemma CallVirtKept(p: Program, roots: set<Method>, a: Analysis, m: Method)
    requires Kept(p, roots, a) && m in p.virtuals && m in p.methods
    ensures var b := Skip(Added(a, m), m, true).(vcalls := Added(a, m).vcalls + {m});
      Kept(p, roots, b) && Grows(a, b) && m in b.known && m in b.vcalls
  {
    var b := Skip(Added(a, m), m, true).(vcalls := Added(a, m).vcalls + {m});
    assert m in a.known ==> Waits(p, roots, a, m);
    TouchesKept(p, roots, a, b, m);
  }

  /** Adding a method that is not virtual, perhaps along with an instantiated type. */
  lemma AddKept(p: Program, roots: set<Method>, a: Analysis, m: Method, t: set<TypeId>)
    requires Kept(p, roots, a) && m in p.methods && m !in p.virtuals
    ensures var b := Added(a, m);
      var c := b.(instantiated := b.instantiated + t); Kept(p, roots, c) && Grows(a, c) && m in c.known
  {
    var b := Added(a, m);
    var c := b.(instantiated := b.instantiated + t);
    assert m in a.known ==> Waits(p, roots, a, m);
    assert m !in a.known ==> m in b.pending || m in b.processed;
    TouchesKept(p, roots, a, c, m);
  }

  lemma CctorKept(p: Program, roots: set<Method>, a: Analysis, t: TypeId)
    requires WellFormed(p) && Kept(p, roots, a)
    ensures Kept(p, roots, CctorAdded(p, a, t)) && Grows(a, CctorAdded(p, a, t)) && t in CctorAdded(p, a, t).cctors
  {
    hide Waits;
    GrowsSelf(a);
    if t !in a.cctors {
      if t in p.cctor {
        AddKept(p, roots, a, p.cctor[t], {});
        var b := Added(a, p.cctor[t]);
        assert b.(instantiated := b.instantiated + {}) == b;
        MoreCctors(p, roots, a, b, t);
        AddedCctors(a, p.cctor[t], a.cctors + {t});
      } else {
        MoreCctors(p, roots, a, a, t);
      }
    }
  }

  lemma AddedCctors(a: Analysis, m: Method, ts: set<TypeId>)
    ensures Added(a.(cctors := ts), m) == Added(a, m).(cctors := ts)
  {
  }

  lemma MoreCctors(p: Program, roots: set<Method>, a: Analysis, b: Analysis, t: TypeId)
    requires Kept(p, roots, b) && Grows(a, b) && CctorKnown(p, b, t) && a.cctors == b.cctors
    ensures var c := b.(cctors := a.cctors + {t}); Kept(p, roots, c) && Grows(a, c)
  {
    var c := b.(cctors := a.cctors + {t});
    forall m | m in c.known ensures Waits(p, roots, c, m) {
      assert Waits(p, roots, b, m);
    }
    forall u | u in c.cctors ensures CctorKnown(p, c, u) {
      assert u != t ==> CctorKnown(p, b, u);
    }
    forall m ensures Flag(c, m) == Flag(b, m) {
    }
  }

  lemma StaticKept(p: Program, roots: set<Method>, a: Analysis, m: Method)
    requires WellFormed(p) && Kept(p, roots, a)
    ensures Kept(p, roots, StaticAdded(p, a, m)) && Grows(a, StaticAdded(p, a, m))
    ensures m in p.statics && m in p.decl ==> p.decl[m] in StaticAdded(p, a, m).cctors
  {
    hide Kept, CctorAdded;
    GrowsSelf(a);
    if m in p.statics && m in p.decl {
      CctorKept(p, roots, a, p.decl[m]);
    }
  }

  /** Resolving a reference keeps the invariant and deals with the reference. */
  lemma ResolvedKept(p: Program, roots: set<Method>, a: Analysis, r: Ref)
    requires WellFormed(p) && Kept(p, roots, a) && RefIn(p, r)
    ensures Kept(p, roots, Resolved(p, a, r)) && Grows(a, Resolved(p, a, r)) && Dealt(p, Resolved(p, a, r), r)
  {
    hide WellFormed, Kept, Grows, StaticAdded, CctorAdded, Added, Skip, Enqueued, Flag;
    match r
    case Call(m) =>
      CallKept(p, roots, a, m);
      ThenStatic(p, roots, a, Enqueued(Skip(Added(a, m), m, false), m), m);
    case CallVirt(m) =>
      if m in p.virtuals {
        CallVirtKept(p, roots, a, m);
        ThenStatic(p, roots, a, Skip(Added(a, m), m, true).(vcalls := Added(a, m).vcalls + {m}), m);
      } else {
        AddKept(p, roots, a, m, {});
        assert Added(a, m).(instantiated := Added(a, m).instantiated + {}) == Added(a, m);
        ThenStatic(p, roots, a, Added(a, m), m);
      }
    case NewObj(m) =>
      MethodsDeclared(p, m);
      AddKept(p, roots, a, m, {p.decl[m]});
      var b := Added(a, m).(instantiated := Added(a, m).instantiated + {p.decl[m]});
      CctorKept(p, roots, b, p.decl[m]);
      GrowsTrans(a, b, CctorAdded(p, b, p.decl[m]));
      GrowsMembers(b, CctorAdded(p, b, p.decl[m]), m);
      ThenStatic(p, roots, a, CctorAdded(p, b, p.decl[m]), m);
      GrowsMembers(CctorAdded(p, b, p.decl[m]), Resolved(p, a, r), m);
    case StaticField(t) => CctorKept(p, roots, a, t);
  }

  lemma MethodsDeclared(p: Program, m: Method)
    requires WellFormed(p) && m in p.methods
    ensures m in p.decl && m in p.body
  {
  }

  lemma ThenStatic(p: Program, roots: set<Method>, a: Analysis, b: Analysis, m: Method)
    requires WellFormed(p) && Kept(p, roots, b) && Grows(a, b)
    ensures var c := StaticAdded(p, b, m);
      Kept(p, roots, c) && Grows(a, c) && Grows(b, c) && b.known <= c.known && b.vcalls <= c.vcalls
        && (Flag(b, m) == 2 ==> Flag(c, m) == 2)
    ensures m in p.statics && m in p.decl ==> p.decl[m] in StaticAdded(p, b, m).cctors
  {
    hide WellFormed, Kept, StaticAdded, Flag;
    StaticKept(p, roots, b, m);
    GrowsTrans(a, b, StaticAdded(p, b, m));
  }

  lemma GrowsMembers(a: Analysis, b: Analysis, m: Method)
    requires Grows(a, b)
    ensures a.known <= b.known && a.instantiated <= b.instantiated && a.cctors <= b.cctors
  {
  }

  // ----- virtual calls -----

  /** The entry x has been bound for the instantiated type t. */
  ghost predicate BoundAt(p: Program, a: Analysis, x: Method, t: TypeId) {
    (t, x) in p.impl && p.impl[(t, x)] in a.known && Flag(a, p.impl[(t, x)]) == 2 && Recorded(a, x, p.impl[(t, x)], t)
  }

  predicate Recorded(a: Analysis, x: Method, f: Method, t: TypeId) {
    (x, f) in a.impls && t in a.impls[(x, f)]
  }

  /** Only instantiated types are recorded, each for its own implementation. */
  ghost predicate RecordsFit(p: Program, a: Analysis) {
    forall x: Method, f: Method, t: TypeId :: Recorded(a, x, f, t) ==>
      t in a.instantiated && Below(p, t, x) && (t, x) in p.impl && p.impl[(t, x)] == f
  }

  lemma BoundKept(p: Program, roots: set<Method>, a: Analysis, x: Method, t: TypeId)
    requires Kept(p, roots, a) && RecordsFit(p, a) && x in p.virtuals && t in a.instantiated && Below(p, t, x)
    requires HasImpl(p, t, x)
    ensures var b := Bound(a, x, t, p.impl[(t, x)]);
      Kept(p, roots, b) && Grows(a, b) && RecordsFit(p, b) && BoundAt(p, b, x, t) && b.vcalls == a.vcalls
        && b.instantiated == a.instantiated
      && (forall m :: Flag(a, m) == 2 ==> Flag(b, m) == 2)
      && (forall y, f, u :: Recorded(a, y, f, u) ==> Recorded(b, y, f, u))
  {
    var f := p.impl[(t, x)];
    var b := Bound(a, x, t, f);
    BoundMembers(a, x, t, f);
    hide Bound;
    TouchesKept(p, roots, a, b, f);
    assert f in a.known ==> Waits(p, roots, a, f);
  }

  lemma BoundMembers(a: Analysis, x: Method, t: TypeId, f: Method)
    ensures var b := Bound(a, x, t, f);
      b.known == a.known + {f} && b.processed == a.processed && b.cctors == a.cctors
        && b.instantiated == a.instantiated && b.vcalls == a.vcalls
      && a.pending <= b.pending
      && (forall y :: y in b.pending ==> y in a.pending || y == f) && (f in b.processed || f in b.pending)
      && (forall y :: Flag(b, y) == if y == f then 2 else Flag(a, y))
      && b.impls.Keys == a.impls.Keys + {(x, f)}
      && (forall y, g, u :: Recorded(b, y, g, u) <==> Recorded(a, y, g, u) || (y == x && g == f && u == t))
  {
  }

  // ----- nothing is added without need -----

  /** What has been reached lies in the closed sets R and I. */
  ghost predicate Within(p: Program, a: Analysis, R: set<Method>, I: set<TypeId>) {
    && (forall m :: m in a.known && (m in p.virtuals ==> Flag(a, m) == 2) ==> m in R)
    && a.processed <= R && a.instantiated <= I
    && (forall x :: x in a.vcalls ==> exists m :: m in R && Refers(p, m, CallVirt(x)))
  }

  lemma AddedWithin(p: Program, a: Analysis, m: Method, R: set<Method>, I: set<TypeId>)
    requires Within(p, a, R, I) && m in R
    ensures Within(p, Added(a, m), R, I)
  {
  }

  lemma CctorWithin(p: Program, a: Analysis, t: TypeId, R: set<Method>, I: set<TypeId>)
    requires Within(p, a, R, I) && CctorIn(p, t, R)
    ensures Within(p, CctorAdded(p, a, t), R, I)
  {
    assert Within(p, a.(cctors := a.cctors + {t}), R, I);
    if t in p.cctor {
      AddedWithin(p, a.(cctors := a.cctors + {t}), p.cctor[t], R, I);
    }
  }

  lemma StaticWithin(p: Program, a: Analysis, m: Method, R: set<Method>, I: set<TypeId>)
    requires Within(p, a, R, I) && (m in p.statics && m in p.decl ==> CctorIn(p, p.decl[m], R))
    ensures Within(p, StaticAdded(p, a, m), R, I)
  {
    hide Within, CctorAdded, CctorIn;
    if m in p.statics && m in p.decl {
      CctorWithin(p, a, p.decl[m], R, I);
    }
  }

  lemma ResolvedWithin(p: Program, roots: set<Method>, S: set<Method>, a: Analysis, n: Method, r: Ref, R: set<Method>,
                       I: set<TypeId>)
    requires Kept(p, roots, a) && Within(p, a, R, I) && Closed(p, S, R, I) && n in R && Refers(p, n, r) && WellFormed(p)
    requires RefIn(p, r)
    ensures Within(p, Resolved(p, a, r), R, I)
  {
    assert Follows(p, r, R, I);
    hide CctorIn, Closed, Refers;
    match r
    case Call(m) =>
      CallWithin(p, a, m, R, I);
      hide Within, Added, Skip, Enqueued, CctorAdded;
      StaticWithin(p, Enqueued(Skip(Added(a, m), m, false), m), m, R, I);
    case CallVirt(m) =>
      if m in p.virtuals {
        CallVirtWithin(p, roots, a, n, m, R, I);
        hide Within, Added, Skip, Enqueued, CctorAdded;
        assert m !in p.statics;
      } else {
        AddedWithin(p, a, m, R, I);
        hide Within, Added, Skip, Enqueued, CctorAdded;
        StaticWithin(p, Added(a, m), m, R, I);
      }
    case NewObj(m) =>
      AddedWithin(p, a, m, R, I);
      MethodsDeclared(p, m);
      var b := Added(a, m).(instantiated := Added(a, m).instantiated + {p.decl[m]});
      assert Within(p, b, R, I);
      hide Within, Added, Skip, Enqueued, CctorAdded;
      CctorWithin(p, b, p.decl[m], R, I);
      StaticWithin(p, CctorAdded(p, b, p.decl[m]), m, R, I);
    case StaticField(t) => CctorWithin(p, a, t, R, I);
  }

  lemma CallWithin(p: Program, a: Analysis, m: Method, R: set<Method>, I: set<TypeId>)
    requires Within(p, a, R, I) && m in R
    ensures Within(p, Enqueued(Skip(Added(a, m), m, false), m), R, I)
  {
  }

  lemma CallVirtWithin(p: Program, roots: set<Method>, a: Analysis, n: Method, m: Method, R: set<Method>,
                       I: set<TypeId>)
    requires Kept(p, roots, a) && Within(p, a, R, I) && n in R && Refers(p, n, CallVirt(m)) && m in p.virtuals
    ensures Within(p, Skip(Added(a, m), m, true).(vcalls := Added(a, m).vcalls + {m}), R, I)
  {
    var b := Skip(Added(a, m), m, true).(vcalls := Added(a, m).vcalls + {m});
    forall x | x in b.known && (x in p.virtuals ==> Flag(b, x) == 2)
      ensures x in a.known && (x in p.virtuals ==> Flag(a, x) == 2)
    {
    }
    hide Refers;
  }

  lemma BoundWithin(p: Program, S: set<Method>, a: Analysis, x: Method, t: TypeId, R: set<Method>, I: set<TypeId>)
    requires Within(p, a, R, I) && Closed(p, S, R, I) && x in a.vcalls && x in p.virtuals && t in a.instantiated
    requires Below(p, t, x) && HasImpl(p, t, x)
    ensures Within(p, Bound(a, x, t, p.impl[(t, x)]), R, I)
  {
    hide Below;
    var m :| m in R && Refers(p, m, CallVirt(x));
    BoundMembers(a, x, t, p.impl[(t, x)]);
    hide Bound, Refers;
  }

  // ----- what holds between the parts of the analysis -----

  ghost predicate NewOnly(p: Program, a: Analysis) {
    forall t :: t in a.instantiated ==> CanBeNew(p, t)
  }

  /** Everything reached is needed for the firm roots. */
  ghost predicate Needed(p: Program, firm: set<Method>, a: Analysis) {
    forall R, I :: Closed(p, firm, R, I) ==> Within(p, a, R, I)
  }

  lemma ClosedFewer(p: Program, S: set<Method>, S': set<Method>, R: set<Method>, I: set<TypeId>)
    requires Closed(p, S, R, I) && S' <= S
    ensures Closed(p, S', R, I)
  {
  }

  ghost predicate Sound(p: Program, roots: set<Method>, firm: set<Method>, a: Analysis, cur: int) {
    Kept(p, roots, a) && AllDealt(p, a, cur) && RecordsFit(p, a) && NewOnly(p, a) && Needed(p, firm, a)
  }

  /** Every virtual entry has been bound for every instantiated type at or below its own. */
  ghost predicate AllBound(p: Program, a: Analysis) {
    forall x: Method, t: TypeId :: x in a.vcalls && t in a.instantiated && Below(p, t, x) ==> BoundAt(p, a, x, t)
  }

  /** The start: the roots have been created. */
  ghost predicate Started(p: Program, roots: set<Method>, a: Analysis) {
    && a.known == roots && a.processed == {} && a.skip == map[] && a.instantiated == {} && a.cctors == {}
    && a.vcalls == {} && a.impls == map[]
    && Distinct(a.pending) && forall m :: m in a.pending <==> m in roots
  }

  lemma StartedSound(p: Program, roots: set<Method>, firm: set<Method>, a: Analysis)
    requires Started(p, roots, a) && roots <= p.methods && forall m :: m in roots && m !in p.virtuals ==> m in firm
    ensures Sound(p, roots, firm, a, -1) && AllBound(p, a)
  {
    forall R, I | Closed(p, firm, R, I) ensures Within(p, a, R, I) {
    }
  }

  /** The head of the queue is skipped, or has been processed before. */
  lemma DroppedSound(p: Program, roots: set<Method>, firm: set<Method>, a: Analysis)
    requires Sound(p, roots, firm, a, -1) && a.pending != []
    requires Flag(a, a.pending[0]) == 1 || a.pending[0] in a.processed
    ensures Sound(p, roots, firm, a.(pending := a.pending[1..]), -1)
  {
    hide AllDealt, RecordsFit, NewOnly, Closed, Flag;
    var b := a.(pending := a.pending[1..]);
    assert a.pending == [a.pending[0]] + b.pending;
    forall R, I | Closed(p, firm, R, I) ensures b.processed <= R {
      assert Within(p, a, R, I);
    }
    SameParts(p, roots, firm, a, b, -1);
    forall m | m in b.known ensures Waits(p, roots, b, m) {
      assert Waits(p, roots, a, m) && Flag(b, m) == Flag(a, m);
    }
    assert forall m :: Flag(b, m) == Flag(a, m);
    assert forall t :: t in b.cctors ==> CctorKnown(p, a, t) && CctorKnown(p, b, t);
  }

  /** Two states that differ in the queue only, or in one processed method, cur. */
  lemma SameParts(p: Program, roots: set<Method>, firm: set<Method>, a: Analysis, b: Analysis, cur: int)
    requires Sound(p, roots, firm, a, -1) && b == a.(pending := b.pending, processed := b.processed)
    requires a.processed <= b.processed && forall m :: m in b.processed ==> m in a.processed || m == cur
    requires forall R, I :: Closed(p, firm, R, I) ==> b.processed <= R
    ensures AllDealt(p, b, cur) && RecordsFit(p, b) && NewOnly(p, b) && Needed(p, firm, b)
    ensures forall m :: Flag(b, m) == Flag(a, m)
  {
    hide Kept, Closed, Below, Refers, Dealt;
    forall m ensures Flag(b, m) == Flag(a, m) {
    }
    forall R, I | Closed(p, firm, R, I) ensures Within(p, b, R, I) {
      assert Within(p, a, R, I);
    }
    forall m, r | m in b.processed && m != cur && Refers(p, m, r) ensures Dealt(p, b, r) {
      assert Dealt(p, a, r);
      DealtSame(p, a, b, r);
    }
    forall x: Method, f: Method, t: TypeId ensures Recorded(b, x, f, t) <==> Recorded(a, x, f, t) {
    }
  }

  lemma DealtSame(p: Program, a: Analysis, b: Analysis, r: Ref)
    requires b.known == a.known && b.skip == a.skip && b.vcalls == a.vcalls && b.instantiated == a.instantiated
    requires b.cctors == a.cctors && Dealt(p, a, r)
    ensures Dealt(p, b, r)
  {
  }

  lemma FirmInside(p: Program, firm: set<Method>, R: set<Method>, I: set<TypeId>)
    requires Closed(p, firm, R, I)
    ensures firm <= R
  {
  }

  /** The head of the queue is to be processed. */
  lemma TakenSound(p: Program, roots: set<Method>, firm: set<Method>, a: Analysis)
    requires Sound(p, roots, firm, a, -1) && a.pending != [] && Flag(a, a.pending[0]) != 1
    requires a.pending[0] in p.virtuals && Flag(a, a.pending[0]) != 2 ==> a.pending[0] in firm
    ensures var b := a.(pending := a.pending[1..], processed := a.processed + {a.pending[0]});
      Sound(p, roots, firm, b, a.pending[0])
  {
    hide AllDealt, RecordsFit, NewOnly, Closed, Flag;
    var m0 := a.pending[0];
    var b := a.(pending := a.pending[1..], processed := a.processed + {m0});
    assert a.pending == [m0] + b.pending;
    assert Waits(p, roots, a, m0);
    forall R, I | Closed(p, firm, R, I) ensures b.processed <= R {
      assert Within(p, a, R, I);
      FirmInside(p, firm, R, I);
    }
    SameParts(p, roots, firm, a, b, m0);
    forall m | m in b.known ensures Waits(p, roots, b, m) {
      assert Waits(p, roots, a, m) && Flag(b, m) == Flag(a, m);
    }
    assert forall t :: t in b.cctors ==> CctorKnown(p, a, t) && CctorKnown(p, b, t);
  }

  /** One more reference of the method being processed. */
  lemma RefSound(p: Program, roots: set<Method>, firm: set<Method>, a: Analysis, n: Method, r: Ref)
    requires WellFormed(p) && Sound(p, roots, firm, a, n) && n in a.processed && n in p.body && r in p.body[n]
    ensures Sound(p, roots, firm, Resolved(p, a, r), n) && Grows(a, Resolved(p, a, r)) && Dealt(p, Resolved(p, a, r), r)
  {
    hide Kept, AllDealt, Closed, Resolved, Within, Dealt, Grows;
    RefersIn(p, n, r);
    var b := Resolved(p, a, r);
    ResolvedKept(p, roots, a, r);
    AllDealtGrows(p, a, b, n);
    ResolvedRest(p, a, n, r);
    forall R, I | Closed(p, firm, R, I) ensures Within(p, b, R, I) {
      assert Within(p, a, R, I);
      ProcessedWithin(p, a, n, R, I);
      ResolvedWithin(p, roots, firm, a, n, r, R, I);
    }
  }

  lemma RefersIn(p: Program, n: Method, r: Ref)
    requires WellFormed(p) && n in p.body && r in p.body[n]
    ensures RefIn(p, r) && Refers(p, n, r)
  {
    assert n in p.methods;
  }

  lemma ProcessedWithin(p: Program, a: Analysis, n: Method, R: set<Method>, I: set<TypeId>)
    requires Within(p, a, R, I) && n in a.processed
    ensures n in R
  {
  }

  lemma CctorMembers(p: Program, a: Analysis, t: TypeId)
    ensures CctorAdded(p, a, t).impls == a.impls && CctorAdded(p, a, t).instantiated == a.instantiated
  {
  }

  lemma ResolvedMembers(p: Program, a: Analysis, r: Ref)
    ensures Resolved(p, a, r).impls == a.impls
    ensures Resolved(p, a, r).instantiated ==
      if r.NewObj? && r.m in p.decl then a.instantiated + {p.decl[r.m]} else a.instantiated
  {
    hide CctorAdded;
    match r
    case StaticField(t) => CctorMembers(p, a, t);
    case NewObj(m) =>
      if m in p.decl {
        var b := Added(a, m).(instantiated := Added(a, m).instantiated + {p.decl[m]});
        CctorMembers(p, b, p.decl[m]);
        CctorMembers(p, CctorAdded(p, b, p.decl[m]), p.decl[m]);
      }
    case Call(m) =>
      if m in p.decl {
        CctorMembers(p, Enqueued(Skip(Added(a, m), m, false), m), p.decl[m]);
      }
    case CallVirt(m) =>
      if m in p.decl {
        CctorMembers(p, if m in p.virtuals then Skip(Added(a, m), m, true).(vcalls := Added(a, m).vcalls + {m})
          else Added(a, m), p.decl[m]);
      }
  }

  lemma ResolvedRest(p: Program, a: Analysis, n: Method, r: Ref)
    requires RecordsFit(p, a) && NewOnly(p, a) && Refers(p, n, r)
    ensures RecordsFit(p, Resolved(p, a, r)) && NewOnly(p, Resolved(p, a, r))
  {
    hide Below, Flag;
    ResolvedMembers(p, a, r);
    hide Resolved;
    var b := Resolved(p, a, r);
    assert forall x: Method, f: Method, t: TypeId :: Recorded(b, x, f, t) <==> Recorded(a, x, f, t);
    assert forall t :: t in b.instantiated && t !in a.instantiated ==> r.NewObj? && r.m in p.decl && p.decl[r.m] == t;
  }

  /** The method is done when all its references have been dealt with. */
  lemma MethodDone(p: Program, roots: set<Method>, firm: set<Method>, a: Analysis, n: Method)
    requires Sound(p, roots, firm, a, n) && n in p.body && forall r :: r in p.body[n] ==> Dealt(p, a, r)
    ensures Sound(p, roots, firm, a, -1)
  {
    hide Kept, RecordsFit, NewOnly, Needed, Dealt;
  }

  /** Queued methods are to be processed, now that the queue has been emptied and entries are bound. */
  ghost predicate Unprocessed(a: Analysis) {
    forall m :: m in a.pending ==> m !in a.processed && Flag(a, m) == 2
  }

  lemma ImplThere(p: Program, a: Analysis, x: Method, t: TypeId)
    requires NewOnly(p, a) && Implemented(p) && t in a.instantiated && x in p.virtuals && Below(p, t, x)
    ensures HasImpl(p, t, x)
  {
    hide Below, CanBeNew;
    assert CanBeNew(p, t);
  }

  lemma BoundSound(p: Program, roots: set<Method>, firm: set<Method>, a: Analysis, x: Method, t: TypeId)
    requires Sound(p, roots, firm, a, -1) && x in a.vcalls && t in a.instantiated && Below(p, t, x) && Implemented(p)
    requires Unprocessed(a)
    ensures HasImpl(p, t, x)
    ensures var b := Bound(a, x, t, p.impl[(t, x)]);
      Sound(p, roots, firm, b, -1) && Unprocessed(b) && BoundAt(p, b, x, t) && b.vcalls == a.vcalls
        && b.instantiated == a.instantiated && b.processed == a.processed
      && (forall y: Method, u: TypeId :: BoundAt(p, a, y, u) ==> BoundAt(p, b, y, u)) && Grows(a, b)
  {
    hide AllDealt, RecordsFit, Closed, Within, Below, CanBeNew;
    ImplThere(p, a, x, t);
    var f := p.impl[(t, x)];
    var b := Bound(a, x, t, f);
    BoundKept(p, roots, a, x, t);
    BoundMembers(a, x, t, f);
    AllDealtGrows(p, a, b, -1);
    forall R, I | Closed(p, firm, R, I) ensures Within(p, b, R, I) {
      assert Within(p, a, R, I);
      BoundWithin(p, firm, a, x, t, R, I);
    }
    BoundFresh(p, roots, a, b, x, t, f);
    hide Bound, Kept, Needed;
  }

  lemma BoundFresh(p: Program, roots: set<Method>, a: Analysis, b: Analysis, x: Method, t: TypeId, f: Method)
    requires Kept(p, roots, a) && Unprocessed(a) && b == Bound(a, x, t, f)
    ensures Unprocessed(b)
  {
    BoundMembers(a, x, t, f);
    assert f in b.pending && f !in a.pending ==> f !in a.processed;
  }

  /** When the queue is empty, all entries are bound and all firm roots have been processed, the processed methods
      and the instantiated types are the least sets for the firm roots, and an entry has exactly the implementations
      of its instantiated types. */
  lemma AnalysisDone(p: Program, roots: set<Method>, firm: set<Method>, a: Analysis)
    requires WellFormed(p) && Implemented(p) && Sound(p, roots, firm, a, -1) && AllBound(p, a) && a.pending == []
    requires firm <= a.processed
    ensures Least(p, firm, a.processed, a.instantiated)
    ensures forall x: Method, f: Method, t: TypeId :: x in a.vcalls ==>
      (Recorded(a, x, f, t) <==> t in a.instantiated && Below(p, t, x) && (t, x) in p.impl && p.impl[(t, x)] == f)
  {
    hide Below, CanBeNew, Waits;
    DoneClosed(p, roots, firm, a);
    forall R, I | Closed(p, firm, R, I) ensures a.processed <= R && a.instantiated <= I {
      assert Within(p, a, R, I);
    }
    forall x: Method, f: Method, t: TypeId | x in a.vcalls && t in a.instantiated && Below(p, t, x)
      && (t, x) in p.impl && p.impl[(t, x)] == f
      ensures Recorded(a, x, f, t)
    {
      assert BoundAt(p, a, x, t);
    }
  }

  lemma DoneClosed(p: Program, roots: set<Method>, firm: set<Method>, a: Analysis)
    requires WellFormed(p) && Kept(p, roots, a) && AllDealt(p, a, -1) && AllBound(p, a) && a.pending == []
    requires firm <= a.processed
    ensures Closed(p, firm, a.processed, a.instantiated)
  {
    hide Below, Refers, WellFormed, AllDealt;
    forall m | m in a.known && (m !in p.virtuals || Flag(a, m) == 2) ensures m in a.processed {
      assert Waits(p, roots, a, m);
    }
    forall m, r | m in a.processed && Refers(p, m, r) ensures Follows(p, r, a.processed, a.instantiated) {
      RefFollows(p, roots, a, m, r);
    }
    forall m, x, t | m in a.processed && Refers(p, m, CallVirt(x)) && x in p.virtuals && t in a.instantiated
      && Below(p, t, x) && HasImpl(p, t, x)
      ensures p.impl[(t, x)] in a.processed
    {
      DealtOf(p, a, m, CallVirt(x));
      assert BoundAt(p, a, x, t);
    }
  }

  lemma DealtOf(p: Program, a: Analysis, m: Method, r: Ref)
    requires AllDealt(p, a, -1) && m in a.processed && Refers(p, m, r)
    ensures Dealt(p, a, r)
  {
  }

  lemma RefFollows(p: Program, roots: set<Method>, a: Analysis, m: Method, r: Ref)
    requires WellFormed(p) && Kept(p, roots, a) && AllDealt(p, a, -1) && m in a.processed && Refers(p, m, r)
    requires forall x :: x in a.known && (x !in p.virtuals || Flag(a, x) == 2) ==> x in a.processed
    ensures Follows(p, r, a.processed, a.instantiated)
  {
    DealtOf(p, a, m, r);
    RefersIn(p, m, r);
    hide AllDealt, Refers, Waits;
    forall t | t in a.cctors ensures CctorIn(p, t, a.processed) {
      assert CctorKnown(p, a, t);
    }
  }

  // ----- virtual roots -----

  /** A root of the queue before the j-th, and not passed over, has the reference r. */
  ghost predicate RefersBefore(p: Program, s: seq<Method>, j: nat, r: Ref)
    requires j <= |s|
    decreases j, 0
  {
    exists i: nat :: i < j && !PassedOver(p, s, i) && Refers(p, s[i], r)
  }

  /** When the turn of the j-th root comes it is skipped: it is virtual, and the roots before it that have not been
      skipped themselves call it virtually, and not directly. */
  ghost predicate PassedOver(p: Program, s: seq<Method>, j: nat)
    requires j < |s|
    decreases j, 1
  {
    s[j] in p.virtuals && RefersBefore(p, s, j, CallVirt(s[j])) && !RefersBefore(p, s, j, Call(s[j]))
  }

  /** The roots that are not passed over. */
  ghost function Firm(p: Program, s: seq<Method>): set<Method> {
    set i: nat | i < |s| && !PassedOver(p, s, i) :: s[i]
  }

  /** The firm roots make all roots needed: exactly then the least sets for both are the same. */
  lemma LeastForAll(p: Program, firm: set<Method>, roots: set<Method>, R: set<Method>, I: set<TypeId>)
    requires firm <= roots && Least(p, firm, R, I)
    ensures Least(p, roots, R, I) <==> forall R', I' :: Closed(p, firm, R', I') ==> roots <= R'
    ensures Least(p, roots, R, I) <==> roots <= R
  {
    hide Follows, Refers, Below;
    forall R', I' | Closed(p, roots, R', I') ensures R <= R' && I <= I' {
      ClosedFewer(p, roots, firm, R', I');
    }
  }

  lemma FirmRoots(p: Program, s: seq<Method>)
    ensures forall m :: m in Firm(p, s) ==> m in s
    ensures forall m :: m in s && m !in p.virtuals ==> m in Firm(p, s)
  {
    forall m | m in s && m !in p.virtuals ensures m in Firm(p, s) {
      var i :| 0 <= i < |s| && s[i] == m;
      assert !PassedOver(p, s, i);
    }
  }

  /** All flags come from references of processed methods. */
  ghost predicate Explained(p: Program, a: Analysis) {
    forall m :: FlagExplained(p, a, m)
  }

  ghost predicate FlagExplained(p: Program, a: Analysis, m: Method) {
    && (Flag(a, m) == 2 ==> SomeRefers(p, a.processed, Call(m)))
    && (m in a.vcalls ==> SomeRefers(p, a.processed, CallVirt(m)))
  }

  ghost predicate SomeRefers(p: Program, S: set<Method>, r: Ref) {
    exists n :: n in S && Refers(p, n, r)
  }

  /** The first k roots have had their turn: those passed over have a flag, the others have been processed, and
      nothing else has been as long as there are more roots. */
  ghost predicate Turn(p: Program, s: seq<Method>, k: nat, a: Analysis) {
    && k <= |s| && s[k..] <= a.pending
    && (forall i: nat :: i < k ==> if PassedOver(p, s, i) then Flag(a, s[i]) != 0 else s[i] in a.processed)
    && (k < |s| ==> Explained(p, a) && forall m :: m in a.processed ==> IsBefore(p, s, k, m))
  }

  ghost predicate IsBefore(p: Program, s: seq<Method>, k: nat, m: Method)
    requires k <= |s|
  {
    exists i: nat :: i < k && !PassedOver(p, s, i) && m == s[i]
  }

  ghost predicate OnCourse(p: Program, s: seq<Method>, a: Analysis) {
    exists k: nat :: Turn(p, s, k, a)
  }

  /** So references of processed methods are references of roots before k. */
  lemma ReferencesBefore(p: Program, s: seq<Method>, k: nat, a: Analysis, r: Ref)
    requires Turn(p, s, k, a) && k < |s|
    ensures SomeRefers(p, a.processed, r) <==> RefersBefore(p, s, k, r)
  {
    hide PassedOver, Refers, Explained;
    if SomeRefers(p, a.processed, r) {
      var n :| n in a.processed && Refers(p, n, r);
      assert IsBefore(p, s, k, n);
    }
    if RefersBefore(p, s, k, r) {
      var i: nat :| i < k && !PassedOver(p, s, i) && Refers(p, s[i], r);
      assert s[i] in a.processed;
    }
  }

  /** When its turn comes, a root is skipped exactly if it is passed over. */
  lemma TurnSkips(p: Program, roots: set<Method>, firm: set<Method>, s: seq<Method>, k: nat, a: Analysis)
    requires Sound(p, roots, firm, a, -1) && Turn(p, s, k, a) && k < |s|
    ensures a.pending != [] && a.pending[0] == s[k]
    ensures Flag(a, s[k]) == 1 <==> PassedOver(p, s, k)
  {
    hide RecordsFit, NewOnly, Needed, Refers, AllDealt;
    var m := s[k];
    assert s[k..][0] == m && m in a.pending && m in a.known;
    assert Waits(p, roots, a, m) && FlagExplained(p, a, m);
    ReferencesBefore(p, s, k, a, Call(m));
    ReferencesBefore(p, s, k, a, CallVirt(m));
    FlagsFrom(p, roots, a, m);
  }

  lemma FlagsFrom(p: Program, roots: set<Method>, a: Analysis, m: Method)
    requires Kept(p, roots, a) && AllDealt(p, a, -1)
    ensures SomeRefers(p, a.processed, Call(m)) ==> Flag(a, m) == 2
    ensures m in p.virtuals && SomeRefers(p, a.processed, CallVirt(m)) ==> Flag(a, m) != 0
  {
    hide Refers, Waits, AllDealt;
    if SomeRefers(p, a.processed, Call(m)) {
      var n :| n in a.processed && Refers(p, n, Call(m));
      DealtOf(p, a, n, Call(m));
    }
    if SomeRefers(p, a.processed, CallVirt(m)) {
      var n :| n in a.processed && Refers(p, n, CallVirt(m));
      DealtOf(p, a, n, CallVirt(m));
    }
  }

  lemma CourseStarts(p: Program, roots: set<Method>, a: Analysis)
    requires Started(p, roots, a)
    ensures OnCourse(p, a.pending, a)
  {
    hide PassedOver, Distinct;
    assert Turn(p, a.pending, 0, a);
  }

  /** The head of the queue, if it is to be processed and has no flag, is a firm root. */
  lemma HeadFirm(p: Program, roots: set<Method>, s: seq<Method>, a: Analysis)
    requires Sound(p, roots, Firm(p, s), a, -1) && OnCourse(p, s, a) && a.pending != []
    requires a.pending[0] !in a.processed && Flag(a, a.pending[0]) != 1 && forall m :: m in roots ==> m in s
    ensures a.pending[0] in p.virtuals && Flag(a, a.pending[0]) != 2 ==> a.pending[0] in Firm(p, s)
  {
    hide RecordsFit, NewOnly, Needed, AllDealt, Explained, PassedOver;
    var m := a.pending[0];
    if m in p.virtuals && Flag(a, m) != 2 {
      var k: nat :| Turn(p, s, k, a);
      assert m in a.known && Waits(p, roots, a, m);
      if k < |s| {
        TurnSkips(p, roots, Firm(p, s), s, k, a);
      } else {
        AllTurned(p, s, a, m);
      }
    }
  }

  lemma AllTurned(p: Program, s: seq<Method>, a: Analysis, m: Method)
    requires Turn(p, s, |s|, a) && m in s
    ensures m in a.processed || Flag(a, m) != 0
  {
    hide PassedOver;
    var i: nat :| i < |s| && s[i] == m;
    assert if PassedOver(p, s, i) then Flag(a, s[i]) != 0 else s[i] in a.processed;
  }

  /** A step that takes the head of the queue: it is skipped, has been processed before, or is processed now. */
  ghost predicate HeadTaken(p: Program, a: Analysis, b: Analysis) {
    && a.pending != [] && a.pending[1..] <= b.pending && (forall m :: Flag(a, m) != 0 ==> Flag(b, m) != 0)
    && b.processed == (if Flag(a, a.pending[0]) == 1 then a.processed else a.processed + {a.pending[0]})
    && (Explained(p, a) ==> Explained(p, b))
  }

  lemma CourseKept(p: Program, roots: set<Method>, firm: set<Method>, s: seq<Method>, a: Analysis, b: Analysis)
    requires Sound(p, roots, firm, a, -1) && HeadTaken(p, a, b) && OnCourse(p, s, a)
    ensures OnCourse(p, s, b)
  {
    hide Sound, PassedOver, Explained;
    var k: nat :| Turn(p, s, k, a);
    if k == |s| {
      assert s[k..] == [];
      assert Turn(p, s, k, b);
    } else {
      TurnSkips(p, roots, firm, s, k, a);
      assert s[k + 1..] == s[k..][1..] <= a.pending[1..] <= b.pending;
      forall m | m in b.processed ensures IsBefore(p, s, k + 1, m) {
        assert m in a.processed ==> IsBefore(p, s, k, m);
      }
      assert Turn(p, s, k + 1, b);
    }
  }

  /** Binding entries, when the queue is empty, changes nothing about that. */
  lemma CourseRests(p: Program, s: seq<Method>, a: Analysis, b: Analysis)
    requires OnCourse(p, s, a) && a.pending == [] && b.processed == a.processed
    requires forall m :: Flag(a, m) != 0 ==> Flag(b, m) != 0
    ensures OnCourse(p, s, b)
  {
    hide PassedOver, Explained;
    var k: nat :| Turn(p, s, k, a);
    assert |s[k..]| == |s| - k && s[|s|..] == [];
    assert Turn(p, s, |s|, b);
  }

  /** At the end, the firm roots have been processed. */
  lemma CourseEnds(p: Program, s: seq<Method>, a: Analysis)
    requires OnCourse(p, s, a) && a.pending == []
    ensures Firm(p, s) <= a.processed
  {
    hide PassedOver, Explained;
    var k: nat :| Turn(p, s, k, a);
    assert |s[k..]| == |s| - k;
  }

  /** Following a reference of a processed method explains the flags it sets. */
  lemma ResolvedExplained(p: Program, a: Analysis, n: Method, r: Ref)
    requires Explained(p, a) && n in a.processed && Refers(p, n, r)
    ensures Explained(p, Resolved(p, a, r))
  {
    var b := Resolved(p, a, r);
    ResolvedFlags(p, a, r);
    hide Resolved, Refers;
    forall m ensures FlagExplained(p, b, m) {
      assert FlagExplained(p, a, m);
    }
  }

  lemma ResolvedFlags(p: Program, a: Analysis, r: Ref)
    ensures Resolved(p, a, r).processed == a.processed
    ensures forall m :: Flag(Resolved(p, a, r), m) == 2 ==> Flag(a, m) == 2 || r == Call(m)
    ensures forall m :: m in Resolved(p, a, r).vcalls ==> m in a.vcalls || r == CallVirt(m)
  {
    hide CctorAdded;
    match r
    case StaticField(t) => CctorFlags(p, a, t);
    case NewObj(m) =>
      if m in p.decl {
        var b := Added(a, m).(instantiated := Added(a, m).instantiated + {p.decl[m]});
        CctorFlags(p, b, p.decl[m]);
        CctorFlags(p, CctorAdded(p, b, p.decl[m]), p.decl[m]);
      }
    case Call(m) => StaticFlags(p, Enqueued(Skip(Added(a, m), m, false), m), m);
    case CallVirt(m) =>
      StaticFlags(p, if m in p.virtuals then Skip(Added(a, m), m, true).(vcalls := Added(a, m).vcalls + {m})
        else Added(a, m), m);
  }

  lemma CctorFlags(p: Program, a: Analysis, t: TypeId)
    ensures var b := CctorAdded(p, a, t); b.processed == a.processed && b.skip == a.skip && b.vcalls == a.vcalls
  {
  }

  lemma StaticFlags(p: Program, a: Analysis, m: Method)
    ensures var b := StaticAdded(p, a, m); b.processed == a.processed && b.skip == a.skip && b.vcalls == a.vcalls
  {
    hide CctorAdded;
    if m in p.decl {
      CctorFlags(p, a, p.decl[m]);
    }
  }
}

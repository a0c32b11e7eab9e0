/** The whole-program analysis: a queue of methods to process, sticky skip flags, and virtual entries that are
    bound whenever the queue has run empty. */
module TypeManagers {
  import opened Sequences
  import opened Reaching

  class TypeManager {
    const prog: Program
    var pendingMethods: seq<Method>
    // The methods that have been created.
    var known: set<Method>
    // MethodX.IsProcessed and MethodX.SkipProcessingFlag
    var processed: set<Method>
    var skip: map<Method, nat>
    // TypeX.IsInstantiated and TypeX.IsCctorGenerated
    var instantiated: set<TypeId>
    var cctors: set<TypeId>
    var vcallEntries: set<Method>
    // MethodX.OverrideImpls
    var overrideImpls: map<(Method, Method), set<TypeId>>

    constructor (prog: Program)
      ensures this.prog == prog && Started(prog, {}, Now()) && pendingMethods == []
    {
      this.prog := prog;
      pendingMethods, known, processed, skip := [], {}, {}, map[];
      instantiated, cctors, vcallEntries, overrideImpls := {}, {}, {}, map[];
    }

    ghost function Now(): Analysis
      reads this
    {
      Analysis(pendingMethods, known, processed, skip, instantiated, cctors, vcallEntries, overrideImpls)
    }

    // ----- single steps -----

    method SetSkipProcessing(m: Method, value: bool)
      modifies this`skip
      ensures Now() == Skip(old(Now()), m, value)
    {
      if !value {
        skip := skip[m := 2];
      } else if m !in skip || skip[m] == 0 {
        skip := skip[m := 1];
      }
    }

    method AddPendingMethod(m: Method)
      modifies this`pendingMethods
      ensures Now() == Enqueued(old(Now()), m)
    {
      if m !in processed {
        pendingMethods := pendingMethods + [m];
      }
    }

    method AddMethod(m: Method)
      modifies this`pendingMethods, this`known
      ensures Now() == Added(old(Now()), m)
    {
      if m !in known {
        known := known + {m};
        AddPendingMethod(m);
      }
    }

    method GenStaticCctor(t: TypeId)
      modifies this`pendingMethods, this`known, this`cctors
      ensures Now() == CctorAdded(prog, old(Now()), t)
    {
      if t in cctors { return; }
      cctors := cctors + {t};
      if t in prog.cctor {
        AddMethod(prog.cctor[t]);
      }
    }

    method AddVCallEntry(m: Method)
      modifies this`skip, this`vcallEntries
      ensures Now() == Skip(old(Now()), m, true).(vcalls := old(Now()).vcalls + {m})
    {
      SetSkipProcessing(m, true);
      vcallEntries := vcallEntries + {m};
    }

    /** Follow one reference of a method body (ResolveOperand). */
    method ResolveOperand(r: Ref)
      modifies this
      ensures Now() == Resolved(prog, old(Now()), r)
    {
      match r {
        case StaticField(t) => GenStaticCctor(t);
        case Call(m) =>
          AddMethod(m);
          SetSkipProcessing(m, false);
          AddPendingMethod(m);
          AddStatic(m);
        case CallVirt(m) =>
          AddMethod(m);
          if m in prog.virtuals {
            AddVCallEntry(m);
          }
          AddStatic(m);
        case NewObj(m) =>
          AddMethod(m);
          if m in prog.decl {
            instantiated := instantiated + {prog.decl[m]};
            GenStaticCctor(prog.decl[m]);
          }
          AddStatic(m);
      }
    }

    method AddStatic(m: Method)
      modifies this`pendingMethods, this`known, this`cctors
      ensures Now() == StaticAdded(prog, old(Now()), m)
    {
      if m in prog.statics && m in prog.decl {
        GenStaticCctor(prog.decl[m]);
      }
    }

    /** Bind the virtual entry x for the instantiated type t. */
    method ResolveVMethod(x: Method, t: TypeId)
      requires (t, x) in prog.impl
      modifies this`pendingMethods, this`known, this`skip, this`overrideImpls
      ensures Now() == Bound(old(Now()), x, t, prog.impl[(t, x)])
    {
      var f := prog.impl[(t, x)];
      AddMethod(f);
      if (x, f) !in overrideImpls {
        overrideImpls := overrideImpls[(x, f) := {}];
      }
      overrideImpls := overrideImpls[(x, f) := overrideImpls[(x, f)] + {t}];
      SetSkipProcessing(f, false);
      AddPendingMethod(f);
    }

    // ----- the loops -----

    /** Create a root before the analysis starts. */
    method AddRoot(m: Method, ghost roots: set<Method>)
      requires Started(prog, roots, Now())
      modifies this`pendingMethods, this`known
      ensures Started(prog, roots + {m}, Now())
      ensures pendingMethods == old(pendingMethods) + if m in roots then [] else [m]
    {
      AddMethod(m);
    }

    /** Follow all references of a method that has just been marked as processed (BuildInstructions). */
    method BuildInstructions(m: Method, ghost roots: set<Method>, ghost firm: set<Method>)
      requires WellFormed(prog) && Sound(prog, roots, firm, Now(), m) && m in processed && m in prog.body
      modifies this
      ensures Sound(prog, roots, firm, Now(), -1) && Grows(old(Now()), Now())
      ensures Explained(prog, old(Now())) ==> Explained(prog, Now())
    {
      hide WellFormed, Sound, Dealt, Resolved, Grows, Explained;
      GrowsSelf(Now());
      var i := 0;
      while i < |prog.body[m]|
        invariant i <= |prog.body[m]| && Sound(prog, roots, firm, Now(), m) && Grows(old(Now()), Now())
        invariant processed == old(processed) && (Explained(prog, old(Now())) ==> Explained(prog, Now()))
        invariant forall j :: 0 <= j < i ==> Dealt(prog, Now(), prog.body[m][j])
      {
        ghost var a := Now();
        RefSound(prog, roots, firm, a, m, prog.body[m][i]);
        ResolveOperand(prog.body[m][i]);
        if Explained(prog, a) {
          ResolvedExplained(prog, a, m, prog.body[m][i]);
        }
        SameProcessed(a, Now());
        GrowsTrans(old(Now()), a, Now());
        forall j | 0 <= j < i ensures Dealt(prog, Now(), prog.body[m][j]) {
          DealtGrows(prog, a, Now(), prog.body[m][j]);
        }
        i := i + 1;
      }
      MethodDone(prog, roots, firm, Now(), m);
    }

    /** Process the queue until it is empty; there is a method to process at its head. */
    method ProcessPending(ghost roots: set<Method>, ghost firm: set<Method>, ghost s: seq<Method>)
      requires WellFormed(prog) && Sound(prog, roots, firm, Now(), -1) && OnCourse(prog, s, Now())
      requires firm == Firm(prog, s) && forall m :: m in roots ==> m in s
      requires pendingMethods != [] && pendingMethods[0] !in processed && Flag(Now(), pendingMethods[0]) != 1
      modifies this
      ensures Sound(prog, roots, firm, Now(), -1) && OnCourse(prog, s, Now()) && pendingMethods == []
      ensures |prog.methods - processed| < |prog.methods - old(processed)|
    {
      hide WellFormed, Sound, Flag, OnCourse, HeadTaken, Grows, Explained, Firm;
      ghost var done := processed;
      while true
        invariant Sound(prog, roots, firm, Now(), -1) && done <= processed && pendingMethods != []
        invariant OnCourse(prog, s, Now())
        invariant done == processed ==> pendingMethods[0] !in processed && Flag(Now(), pendingMethods[0]) != 1
        decreases |prog.methods - processed|, |pendingMethods|
      {
        ghost var a := Now();
        var m := pendingMethods[0];
        HeadKnown(prog, roots, firm, a);
        if (m in skip && skip[m] == 1) || m in processed {
          DroppedSound(prog, roots, firm, a) by { FlagIs(a, m); }
          FlagIs(a, m);
          pendingMethods := pendingMethods[1..];
          HeadDropped(prog, a, Now());
        } else {
          FlagIs(a, m);
          HeadFirm(prog, roots, s, a);
          TakenSound(prog, roots, firm, a);
          FewerLeft(prog.methods, processed, m);
          pendingMethods := pendingMethods[1..];
          processed := processed + {m};
          ghost var b := Now();
          BuildInstructions(m, roots, firm);
          HeadDone(prog, a, b, Now());
          SameProcessed(b, Now());
        }
        CourseKept(prog, roots, firm, s, a, Now());
        if pendingMethods == [] { break; }
      }
      ProcessedWithinMethods(prog, roots, firm, Now());
      FewerThan(prog.methods, done, processed);
    }

    lemma HeadDropped(p: Program, a: Analysis, b: Analysis)
      requires a.pending != [] && b == a.(pending := a.pending[1..])
      requires Flag(a, a.pending[0]) == 1 || a.pending[0] in a.processed
      ensures HeadTaken(p, a, b)
    {
      SameExplained(p, a, b);
    }

    lemma HeadDone(p: Program, a: Analysis, b: Analysis, c: Analysis)
      requires a.pending != [] && Flag(a, a.pending[0]) != 1 && Grows(b, c)
      requires b == a.(pending := a.pending[1..], processed := a.processed + {a.pending[0]})
      requires Explained(p, b) ==> Explained(p, c)
      ensures HeadTaken(p, a, c)
    {
      SameExplained(p, a, b);
      hide Explained;
      assert forall m :: Flag(b, m) == Flag(a, m);
    }

    lemma SameExplained(p: Program, a: Analysis, b: Analysis)
      requires b.skip == a.skip && b.vcalls == a.vcalls && a.processed <= b.processed
      ensures Explained(p, a) ==> Explained(p, b)
    {
      hide Refers;
      if Explained(p, a) {
        forall m ensures FlagExplained(p, b, m) {
          assert FlagExplained(p, a, m);
        }
      }
    }

    lemma FlagIs(a: Analysis, m: Method)
      ensures Flag(a, m) == if m in a.skip then a.skip[m] else 0
    {
    }

    lemma HeadKnown(p: Program, roots: set<Method>, firm: set<Method>, a: Analysis)
      requires WellFormed(p) && Sound(p, roots, firm, a, -1) && a.pending != []
      ensures a.pending[0] in p.methods && a.pending[0] in p.body
    {
      assert a.pending[0] in a.pending;
    }

    lemma ProcessedWithinMethods(p: Program, roots: set<Method>, firm: set<Method>, a: Analysis)
      requires Sound(p, roots, firm, a, -1)
      ensures a.processed <= p.methods
    {
    }

    lemma FewerLeft(u: set<Method>, s: set<Method>, m: Method)
      requires m in u && m !in s
      ensures |u - (s + {m})| < |u - s|
    {
      assert u - s == (u - (s + {m})) + {m};
    }

    lemma FewerThan(u: set<Method>, s: set<Method>, t: set<Method>)
      requires s <= t <= u && s != t
      ensures |u - t| < |u - s|
    {
      var m :| m in t && m !in s;
      FewerLeft(u, s, m);
      SubsetSize(u - t, u - (s + {m}));
    }

    /** Bind every virtual entry for every instantiated type at or below its own (ResolveVCalls). */
    method ResolveVCalls(ghost roots: set<Method>, ghost firm: set<Method>)
      requires WellFormed(prog) && Implemented(prog) && Sound(prog, roots, firm, Now(), -1) && pendingMethods == []
      modifies this`pendingMethods, this`known, this`skip, this`overrideImpls
      ensures Sound(prog, roots, firm, Now(), -1) && AllBound(prog, Now()) && Unprocessed(Now())
      ensures Grows(old(Now()), Now())
    {
      hide WellFormed, Implemented, Sound, BoundAt, Below, Grows;
      GrowsSelf(Now());
      var todo := vcallEntries;
      while todo != {}
        invariant todo <= vcallEntries && Sound(prog, roots, firm, Now(), -1) && Unprocessed(Now())
        invariant Grows(old(Now()), Now())
        invariant forall x: Method, t: TypeId ::
          x in vcallEntries && x !in todo && t in instantiated && Below(prog, t, x) ==> BoundAt(prog, Now(), x, t)
      {
        var x :| x in todo;
        ghost var a := Now();
        BindEntry(x, roots, firm);
        GrowsTrans(old(Now()), a, Now());
        todo := todo - {x};
      }
    }

    /** Bind one virtual entry. */
    method BindEntry(x: Method, ghost roots: set<Method>, ghost firm: set<Method>)
      requires WellFormed(prog) && Implemented(prog) && Sound(prog, roots, firm, Now(), -1) && Unprocessed(Now())
      requires x in vcallEntries
      modifies this`pendingMethods, this`known, this`skip, this`overrideImpls
      ensures Sound(prog, roots, firm, Now(), -1) && Unprocessed(Now()) && Grows(old(Now()), Now())
      ensures forall y: Method, t: TypeId :: BoundAt(prog, old(Now()), y, t) ==> BoundAt(prog, Now(), y, t)
      ensures forall t: TypeId :: t in instantiated && Below(prog, t, x) ==> BoundAt(prog, Now(), x, t)
    {
      hide WellFormed, Implemented, Sound, BoundAt, Unprocessed, Bound, Grows;
      EntryDeclared(prog, roots, firm, Now(), x);
      GrowsSelf(Now());
      var own := prog.decl[x];
      if own in instantiated {
        BoundSound(prog, roots, firm, Now(), x, own);
        ResolveVMethod(x, own);
      }
      var todo := if own in prog.derived then prog.derived[own] else {};
      while todo != {}
        invariant Sound(prog, roots, firm, Now(), -1) && Unprocessed(Now()) && Grows(old(Now()), Now())
        invariant todo <= (if own in prog.derived then prog.derived[own] else {})
        invariant forall y: Method, t: TypeId :: BoundAt(prog, old(Now()), y, t) ==> BoundAt(prog, Now(), y, t)
        invariant forall t: TypeId :: t in instantiated && Below(prog, t, x) && t !in todo ==>
          BoundAt(prog, Now(), x, t)
      {
        var t :| t in todo;
        if t in instantiated {
          ghost var a := Now();
          BoundSound(prog, roots, firm, a, x, t);
          ResolveVMethod(x, t);
          GrowsTrans(old(Now()), a, Now());
        }
        todo := todo - {t};
      }
    }

    lemma EntryDeclared(p: Program, roots: set<Method>, firm: set<Method>, a: Analysis, x: Method)
      requires WellFormed(p) && Sound(p, roots, firm, a, -1) && x in a.vcalls
      ensures x in p.virtuals && x in p.decl
    {
    }

    /** Find all methods that the program can run (ResolveAll): the least closed sets for the roots that are not
        passed over in the queue, and so for all roots just when these need them all. */
    method ResolveAll(ghost roots: set<Method>)
      requires WellFormed(prog) && Implemented(prog) && roots <= prog.methods && Started(prog, roots, Now())
      modifies this
      ensures Least(prog, Firm(prog, old(pendingMethods)), processed, instantiated)
      ensures Least(prog, roots, processed, instantiated) <==>
        forall R, I :: Closed(prog, Firm(prog, old(pendingMethods)), R, I) ==> roots <= R
      ensures Least(prog, roots, processed, instantiated) <==> roots <= processed
      ensures forall x: Method, f: Method, t: TypeId :: x in vcallEntries ==>
        (Recorded(Now(), x, f, t) <==>
          t in instantiated && Below(prog, t, x) && (t, x) in prog.impl && prog.impl[(t, x)] == f)
    {
      hide WellFormed, Implemented, Sound, AllBound, Least, Below, Recorded, OnCourse, Grows, Firm, Closed;
      ghost var s, firm := pendingMethods, Firm(prog, pendingMethods);
      FirmRoots(prog, s);
      StartedSound(prog, roots, firm, Now());
      StartedHead(prog, roots, Now());
      CourseStarts(prog, roots, Now());
      while pendingMethods != []
        invariant Sound(prog, roots, firm, Now(), -1) && OnCourse(prog, s, Now())
        invariant pendingMethods == [] ==> AllBound(prog, Now())
        invariant pendingMethods != [] ==> pendingMethods[0] !in processed && Flag(Now(), pendingMethods[0]) != 1
        decreases |prog.methods - processed|
      {
        ProcessPending(roots, firm, s);
        ghost var a := Now();
        ResolveVCalls(roots, firm);
        SameFlags(a, Now());
        CourseRests(prog, s, a, Now());
        assert pendingMethods != [] ==> pendingMethods[0] in pendingMethods;
      }
      CourseEnds(prog, s, Now());
      AnalysisDone(prog, roots, firm, Now());
      LeastForAll(prog, firm, roots, processed, instantiated);
    }

    lemma SameFlags(a: Analysis, b: Analysis)
      requires Grows(a, b)
      ensures b.processed == a.processed && forall m :: Flag(a, m) != 0 ==> Flag(b, m) != 0
    {
    }

    lemma StartedHead(p: Program, roots: set<Method>, a: Analysis)
      requires Started(p, roots, a)
      ensures a.processed == {} && (a.pending != [] ==> Flag(a, a.pending[0]) != 1)
    {
    }
  }

  // ----- a root that is lost -----

  /** Two virtual methods, the first of which calls the second virtually, and nothing else. */
  function Losing(): Program {
    Program({0, 1}, map[0 := [CallVirt(1)], 1 := []], map[0 := 0, 1 := 0], {0, 1}, {}, map[], map[], map[])
  }

  /** With both as roots, the second is passed over after the first, and neither is in the other order. */
  lemma LosingProgram()
    ensures WellFormed(Losing()) && Implemented(Losing())
    ensures Firm(Losing(), [0, 1]) == {0} && Firm(Losing(), [1, 0]) == {0, 1}
    ensures Closed(Losing(), {0}, {0}, {})
  {
    var p := Losing();
    assert !PassedOver(p, [0, 1], 0) && Refers(p, 0, CallVirt(1));
    assert PassedOver(p, [0, 1], 1);
    assert !PassedOver(p, [1, 0], 0) && !PassedOver(p, [1, 0], 1);
  }

  /** In this order method 1 is left out, though it is a root. */
  method LoseRoot() returns (tm: TypeManager)
    ensures tm.prog == Losing() && 1 !in tm.processed
    ensures !Least(Losing(), {0, 1}, tm.processed, tm.instantiated)
  {
    hide Least, Firm, Closed;
    LosingProgram();
    tm := new TypeManager(Losing());
    tm.AddRoot(0, {});
    tm.AddRoot(1, {0});
    assert {0} + {1} == {0, 1} && {} + {0} == {0};
    assert tm.pendingMethods == [0, 1];
    tm.ResolveAll({0, 1});
    LeastInside(Losing(), {0}, tm.processed, tm.instantiated, {0}, {});
  }

  /** In the other order no root is left out. */
  method KeepRoots() returns (tm: TypeManager)
    ensures tm.prog == Losing() && Least(Losing(), {0, 1}, tm.processed, tm.instantiated)
  {
    hide Least, Firm, Closed;
    LosingProgram();
    tm := new TypeManager(Losing());
    tm.AddRoot(1, {});
    tm.AddRoot(0, {1});
    assert {1} + {0} == {0, 1} && {} + {1} == {1};
    assert tm.pendingMethods == [1, 0];
    tm.ResolveAll({0, 1});
  }

  lemma LeastInside(p: Program, roots: set<Method>, R: set<Method>, I: set<TypeId>, R': set<Method>, I': set<TypeId>)
    requires Least(p, roots, R, I) && Closed(p, roots, R', I')
    ensures R <= R'
  {
  }
}

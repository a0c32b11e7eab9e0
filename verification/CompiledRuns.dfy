/** Whole runs of the generated code against runs of the stack machine. */
module CompiledRuns {
  import opened Options
  import opened Cil
  import opened SlotCode
  import opened Translation
  import opened Simulation
  import opened Operators

  // ----- the stack of values and the temporaries -----

  lemma Popped(st: Stack, stack: seq<Value>, temps: map<Slot, CValue>, k: nat)
    requires StackShown(st, stack, temps) && k <= |st|
    ensures StackShown(st[..|st| - k], stack[..|st| - k], temps)
  {
    var st', stack' := st[..|st| - k], stack[..|st| - k];
    forall i: nat | i < |st| - k ensures EntryShown(st', stack', temps, i) {
      assert EntryShown(st, stack, temps, i);
    }
  }

  lemma Pushed(st: Stack, stack: seq<Value>, temps: map<Slot, CValue>, t: StackType, v: Value)
    requires StackShown(st, stack, temps) && HasType(v, t)
    ensures StackShown(st + [t], stack + [v], temps[Slot(|st|, t) := ToC(v)])
  {
    hide HasType;
    var st', stack', temps' := st + [t], stack + [v], temps[Slot(|st|, t) := ToC(v)];
    forall i: nat | i < |st| + 1 ensures EntryShown(st', stack', temps', i) {
      if i < |st| {
        assert EntryShown(st, stack, temps, i);
      }
    }
  }

  /** What the k-th temporary from the top holds. */
  lemma TopShown(st: Stack, stack: seq<Value>, temps: map<Slot, CValue>, k: nat)
    requires StackShown(st, stack, temps) && 1 <= k <= |st|
    ensures |stack| == |st| && HasType(stack[|st| - k], st[|st| - k])
    ensures TopSlot(st, k) in temps && temps[TopSlot(st, k)] == ToC(stack[|st| - k])
  {
    assert EntryShown(st, stack, temps, |st| - k);
  }

  // ----- one instruction -----

  /** The instruction at ip is typed and accepted, and its code is what the generator makes of it. */
  ghost predicate Ready(insts: seq<Inst>, sig: Signature, code: seq<Option<Stmt>>, st: Stack, ip: nat) {
    && ip < |insts| == |code| && Accepted(insts[ip], st, sig)
    && Translate(insts[ip], st, sig).Some? && code[ip] == Translate(insts[ip], st, sig).value.1
  }

  /** One step of the stack machine and one of the code agree on the stack of types after it. */
  ghost predicate StepsAgree(insts: seq<Inst>, sig: Signature, alu: Alu, code: seq<Option<Stmt>>, st: Stack, s: State,
                             t: CState)
    requires s.Running? && t.At? && Ready(insts, sig, code, st, s.ip)
  {
    var s', t' := Step(insts, sig, alu, s), CStep(code, sig, alu, t);
    Agree(sig, Translate(insts[s.ip], st, sig).value.0, s', t') && (s'.Running? ==> s'.ip in Succ(insts[s.ip], s.ip))
  }

  /** Assigning a value to the temporary for a new top of the stack. */
  lemma PushStep(sig: Signature, alu: Alu, st: Stack, s: State, t: CState, stack: seq<Value>, base: Stack, u: StackType,
                 v: Value)
    requires Related(sig, st, s, t) && HasType(v, u) && StackShown(base, stack, t.f.temps)
    ensures SetVar(t.f, sig, alu, Temp(Slot(|base|, u)), ToC(v), v.Real? && v.kind == R8).Some?
    ensures var f := SetVar(t.f, sig, alu, Temp(Slot(|base|, u)), ToC(v), v.Real? && v.kind == R8).value;
      Related(sig, base + [u], s.(ip := s.ip + 1, stack := stack + [v]), At(t.ip + 1, f))
  {
    hide HasType, StackShown, VarsShown, ToC, Cast;
    TempHolds(v, u, alu.round);
    Pushed(base, stack, t.f.temps, u, v);
  }

  lemma DupStep(insts: seq<Inst>, sig: Signature, alu: Alu, code: seq<Option<Stmt>>, st: Stack, s: State, t: CState)
    requires Related(sig, st, s, t) && Ready(insts, sig, code, st, s.ip) && insts[s.ip] == Dup
    ensures StepsAgree(insts, sig, alu, code, st, s, t)
  {
    hide StackShown, VarsShown, ToC, SetVar;
    TopShown(st, s.stack, t.f.temps, 1);
    var n := |st|;
    KindOfReal(s.stack[n - 1], st[n - 1]);
    hide HasType;
    PushStep(sig, alu, st, s, t, s.stack, st, st[n - 1], s.stack[n - 1]);
  }

  lemma KindOfReal(v: Value, t: StackType)
    requires HasType(v, t)
    ensures (v.Real? && v.kind == R8) == (t.kind == R8)
  {
  }

  lemma PopStep(insts: seq<Inst>, sig: Signature, alu: Alu, code: seq<Option<Stmt>>, st: Stack, s: State, t: CState)
    requires Related(sig, st, s, t) && Ready(insts, sig, code, st, s.ip)
    requires insts[s.ip] == Nop || insts[s.ip] == Pop || insts[s.ip].Br?
    ensures StepsAgree(insts, sig, alu, code, st, s, t)
  {
    hide StackShown, VarsShown, ToC;
    StackDepth(st, s.stack, t.f.temps);
    if insts[s.ip] == Pop {
      Popped(st, s.stack, t.f.temps, 1);
    }
  }

  lemma StackDepth(st: Stack, stack: seq<Value>, temps: map<Slot, CValue>)
    requires StackShown(st, stack, temps)
    ensures |stack| == |st|
  {
  }

  lemma LdcStep(insts: seq<Inst>, sig: Signature, alu: Alu, code: seq<Option<Stmt>>, st: Stack, s: State, t: CState)
    requires Related(sig, st, s, t) && Ready(insts, sig, code, st, s.ip) && insts[s.ip].Ldc?
    ensures StepsAgree(insts, sig, alu, code, st, s, t)
  {
    hide StackShown, VarsShown, ToC, SetVar, HasType;
    PushStep(sig, alu, st, s, t, s.stack, st, insts[s.ip].t, insts[s.ip].v);
  }

  // ----- variables -----

  lemma VarAt(vts: seq<VarType>, vs: seq<Value>, cs: seq<CValue>, i: nat)
    requires VarsShown(vts, vs, cs) && i < |vts|
    ensures |vs| == |cs| == |vts| && VarShown(vts[i], vs[i], cs[i])
  {
  }

  lemma VarSet(vts: seq<VarType>, vs: seq<Value>, cs: seq<CValue>, i: nat, v: Value, c: CValue)
    requires VarsShown(vts, vs, cs) && i < |vts| && VarShown(vts[i], v, c)
    ensures |vs| == |cs| == |vts| && VarsShown(vts, vs[i := v], cs[i := c])
  {
    hide VarShown;
  }

  /** Reading a variable into the temporary for a new top of the stack. */
  lemma LoadStep(sig: Signature, alu: Alu, st: Stack, s: State, t: CState, vt: VarType, v: Value, c: CValue)
    requires Related(sig, st, s, t) && VarShown(vt, v, c)
    ensures var x := Cast(TempType(ToStackType(vt)), c, vt == Float64, alu.round);
      var f := t.f.(temps := t.f.temps[Slot(|st|, ToStackType(vt)) := x]);
      Related(sig, st + [ToStackType(vt)], s.(ip := s.ip + 1, stack := s.stack + [v]), At(t.ip + 1, f))
  {
    hide StackShown, VarsShown, ToC, Cast, HasType, ToStackType;
    VarLoads(v, vt, c, alu.round);
    Pushed(st, s.stack, t.f.temps, ToStackType(vt), v);
  }

  lemma LdargStep(insts: seq<Inst>, sig: Signature, alu: Alu, code: seq<Option<Stmt>>, st: Stack, s: State, t: CState)
    requires Related(sig, st, s, t) && Ready(insts, sig, code, st, s.ip) && insts[s.ip].Ldarg?
    ensures StepsAgree(insts, sig, alu, code, st, s, t)
  {
    hide StackShown, VarsShown, VarShown, ToC, Cast, ToStackType;
    var i := insts[s.ip].i;
    VarAt(sig.args, s.args, t.f.args, i);
    LoadStep(sig, alu, st, s, t, sig.args[i], s.args[i], t.f.args[i]);
  }

  lemma LdlocStep(insts: seq<Inst>, sig: Signature, alu: Alu, code: seq<Option<Stmt>>, st: Stack, s: State, t: CState)
    requires Related(sig, st, s, t) && Ready(insts, sig, code, st, s.ip) && insts[s.ip].Ldloc?
    ensures StepsAgree(insts, sig, alu, code, st, s, t)
  {
    hide StackShown, VarsShown, VarShown, ToC, Cast, ToStackType;
    var i := insts[s.ip].i;
    VarAt(sig.locals, s.locals, t.f.locals, i);
    LoadStep(sig, alu, st, s, t, sig.locals[i], s.locals[i], t.f.locals[i]);
  }

  lemma CanStoreTop(v: Value, t: StackType, vt: VarType)
    requires HasType(v, t) && Storable(t, vt)
    ensures CanStore(v, vt)
  {
  }

  lemma StargStep(insts: seq<Inst>, sig: Signature, alu: Alu, code: seq<Option<Stmt>>, st: Stack, s: State, t: CState)
    requires Related(sig, st, s, t) && Ready(insts, sig, code, st, s.ip) && insts[s.ip].Starg?
    ensures StepsAgree(insts, sig, alu, code, st, s, t)
  {
    hide StackShown, VarsShown, VarShown, ToC, Cast, HasType, Stored, Storable, CanStore;
    var i, n := insts[s.ip].i, |st|;
    TopShown(st, s.stack, t.f.temps, 1);
    Popped(st, s.stack, t.f.temps, 1);
    VarAt(sig.args, s.args, t.f.args, i);
    CanStoreTop(s.stack[n - 1], st[n - 1], sig.args[i]);
    VarStores(s.stack[n - 1], st[n - 1], sig.args[i], alu.round);
    VarSet(sig.args, s.args, t.f.args, i, Stored(s.stack[n - 1], sig.args[i], alu.round),
      Cast(VarCType(sig.args[i]), ToC(s.stack[n - 1]), st[n - 1].kind == R8, alu.round));
  }

  lemma StlocStep(insts: seq<Inst>, sig: Signature, alu: Alu, code: seq<Option<Stmt>>, st: Stack, s: State, t: CState)
    requires Related(sig, st, s, t) && Ready(insts, sig, code, st, s.ip) && insts[s.ip].Stloc?
    ensures StepsAgree(insts, sig, alu, code, st, s, t)
  {
    hide StackShown, VarsShown, VarShown, ToC, Cast, HasType, Stored, Storable, CanStore;
    var i, n := insts[s.ip].i, |st|;
    TopShown(st, s.stack, t.f.temps, 1);
    Popped(st, s.stack, t.f.temps, 1);
    VarAt(sig.locals, s.locals, t.f.locals, i);
    CanStoreTop(s.stack[n - 1], st[n - 1], sig.locals[i]);
    VarStores(s.stack[n - 1], st[n - 1], sig.locals[i], alu.round);
    VarSet(sig.locals, s.locals, t.f.locals, i, Stored(s.stack[n - 1], sig.locals[i], alu.round),
      Cast(VarCType(sig.locals[i]), ToC(s.stack[n - 1]), st[n - 1].kind == R8, alu.round));
  }

  lemma RetStep(insts: seq<Inst>, sig: Signature, alu: Alu, code: seq<Option<Stmt>>, st: Stack, s: State, t: CState)
    requires Related(sig, st, s, t) && Ready(insts, sig, code, st, s.ip) && insts[s.ip].Ret?
    ensures StepsAgree(insts, sig, alu, code, st, s, t)
  {
    hide StackShown, VarsShown, ToC, Cast, HasType, Stored, Storable, CanStore;
    StackDepth(st, s.stack, t.f.temps);
    if sig.ret.Some? {
      TopShown(st, s.stack, t.f.temps, 1);
      CanStoreTop(s.stack[0], st[0], sig.ret.value);
      VarStores(s.stack[0], st[0], sig.ret.value, alu.round);
    }
  }

  // ----- branches -----

  lemma BrBoolStep(insts: seq<Inst>, sig: Signature, alu: Alu, code: seq<Option<Stmt>>, st: Stack, s: State, t: CState)
    requires Related(sig, st, s, t) && Ready(insts, sig, code, st, s.ip) && insts[s.ip].BrBool?
    ensures StepsAgree(insts, sig, alu, code, st, s, t)
  {
    hide StackShown, VarsShown, ToC, HasType, Truth;
    TopShown(st, s.stack, t.f.temps, 1);
    Popped(st, s.stack, t.f.temps, 1);
    TruthShown(s.stack[|st| - 1], st[|st| - 1]);
  }

  lemma TruthShown(v: Value, t: StackType)
    requires HasType(v, t) && t.kind in {I4, I8, Ptr, Ref, Obj}
    ensures Truth(v) <==> ToC(v) != CNum(0)
  {
    SignedBits(v, t);
  }

  /** The condition of a comparison holds in a frame whenever it holds of the operands alone. */
  lemma TestInFrame(c: Code, st: Stack, stack: seq<Value>, f: Frame)
    requires StackShown(st, stack, f.temps) && 2 <= |st| && BinaryCompareValid(st[|st| - 2].kind, st[|st| - 1].kind, c)
    requires !CutsRight(st[|st| - 2], st[|st| - 1])
    ensures |stack| == |st| && SlotsOf(CompareCond(c, TopSlot(st, 2), TopSlot(st, 1))) <= f.temps.Keys
    ensures Test(CompareCond(c, TopSlot(st, 2), TopSlot(st, 1)), f) <==> Holds(c, stack[|st| - 2], stack[|st| - 1])
  {
    hide StackShown, ToC, HasType, Holds, RelHolds, CastFor, BinaryCompareValid, SignedType, UnsignedType, IsUnsigned;
    var n := |st|;
    TopShown(st, stack, f.temps, 1);
    TopShown(st, stack, f.temps, 2);
    CompareExact(c, st[n - 2], st[n - 1], stack[n - 2], stack[n - 1]);
  }

  lemma BrCompareStep(insts: seq<Inst>, sig: Signature, alu: Alu, code: seq<Option<Stmt>>, st: Stack, s: State,
                      t: CState)
    requires Related(sig, st, s, t) && Ready(insts, sig, code, st, s.ip) && insts[s.ip].BrCompare?
    ensures StepsAgree(insts, sig, alu, code, st, s, t)
  {
    hide StackShown, VarsShown, ToC, HasType, Holds, Test, SlotsOf, CompareCond, BinaryCompareValid;
    TestInFrame(insts[s.ip].c, st, s.stack, t.f);
    Popped(st, s.stack, t.f.temps, 2);
  }

  lemma CompareStep(insts: seq<Inst>, sig: Signature, alu: Alu, code: seq<Option<Stmt>>, st: Stack, s: State, t: CState)
    requires Related(sig, st, s, t) && Ready(insts, sig, code, st, s.ip) && insts[s.ip].Compare?
    ensures StepsAgree(insts, sig, alu, code, st, s, t)
  {
    hide StackShown, VarsShown, Holds, Test, SlotsOf, CompareCond, BinaryCompareValid, SetVar;
    var n := |st|;
    TestInFrame(insts[s.ip].c, st, s.stack, t.f);
    Popped(st, s.stack, t.f.temps, 2);
    var v := Bits(I4, if Holds(insts[s.ip].c, s.stack[n - 2], s.stack[n - 1]) then 1 else 0);
    PushStep(sig, alu, st, s, t, s.stack[..n - 2], st[..n - 2], Basic(I4), v);
  }

  lemma SwitchStep(insts: seq<Inst>, sig: Signature, alu: Alu, code: seq<Option<Stmt>>, st: Stack, s: State, t: CState)
    requires Related(sig, st, s, t) && Ready(insts, sig, code, st, s.ip) && insts[s.ip].Switch?
    ensures StepsAgree(insts, sig, alu, code, st, s, t)
  {
    hide StackShown, VarsShown, ToC, HasType, WrapTo;
    TopShown(st, s.stack, t.f.temps, 1);
    Popped(st, s.stack, t.f.temps, 1);
    SelectorShown(s.stack[|st| - 1], st[|st| - 1]);
  }

  lemma SelectorShown(v: Value, t: StackType)
    requires HasType(v, t) && t.kind == I4
    ensures v.Bits? && 0 <= v.bits && ToC(v).CNum? && WrapTo(CUInt32, ToC(v).n) == v.bits
  {
    SignedBits(v, t);
  }

  // ----- arithmetic -----

  /** The next instruction is an arithmetic one on operands for which the C++ operator is undefined. */
  predicate Hazard(insts: seq<Inst>, s: State) {
    && s.Running? && s.ip < |insts| && insts[s.ip].Binary? && 2 <= |s.stack|
    && Unsafe(insts[s.ip].op, s.stack[|s.stack| - 2], s.stack[|s.stack| - 1])
  }

  /** The temporary for the result of an arithmetic instruction holds it, unless the operator is undefined. */
  lemma BinaryStep(insts: seq<Inst>, sig: Signature, alu: Alu, code: seq<Option<Stmt>>, st: Stack, s: State, t: CState)
    requires Related(sig, st, s, t) && Ready(insts, sig, code, st, s.ip) && insts[s.ip].Binary?
    ensures if Hazard(insts, s)
      then CStep(code, sig, alu, t) == Undefined
      else StepsAgree(insts, sig, alu, code, st, s, t)
  {
    hide StackShown, VarsShown, ToC, HasType, ResultType, BinaryType, BinaryCode, ValueOf, TypeOf, Cast, TempType;
    hide BinaryResult, Operands, Unsafe, WrongTypes;
    var n, op := |st|, insts[s.ip].op;
    TopShown(st, s.stack, t.f.temps, 1);
    TopShown(st, s.stack, t.f.temps, 2);
    Popped(st, s.stack, t.f.temps, 2);
    var v, w := s.stack[n - 2], s.stack[n - 1];
    var lhs, rhs := TopSlot(st, 2), TopSlot(st, 1);
    AcceptedTypes(op, lhs.t.kind, rhs.t.kind);
    BinaryExact(op, lhs, rhs, t.f.temps, alu, v, w);
    if !Unsafe(op, v, w) {
      var k := BinaryType(op, lhs.t.kind, rhs.t.kind).value;
      var r := BinaryResult(op, v, w, alu).value;
      ResultTyped(op, lhs.t, rhs.t, v, w, alu);
      Pushed(st[..n - 2], s.stack[..n - 2], t.f.temps, Basic(k), r);
    }
  }

  lemma AcceptedTypes(op: BinCode, k: Kind, l: Kind)
    requires BinaryType(op, k, l).Some?
    ensures ResultType(k, l, op) == BinaryType(op, k, l)
  {
    TablesAgree(op, k, l);
  }

  lemma ResultTyped(op: BinCode, t: StackType, u: StackType, v: Value, w: Value, alu: Alu)
    requires HasType(v, t) && HasType(w, u) && BinaryType(op, t.kind, u.kind).Some? && Operands(op, v, w)
    requires BinaryResult(op, v, w, alu).Some?
    ensures HasType(BinaryResult(op, v, w, alu).value, Basic(BinaryType(op, t.kind, u.kind).value))
  {
    hide IntegerResult, Signed, FloatRemainder;
    OperandKinds(op, t, u, v, w);
    if v.Bits? {
      IntegerTypes(op, t, u, v, w);
      IntegerRange(op, Signed(v), Signed(w), Width(BinaryType(op, t.kind, u.kind).value));
    }
  }

  // ----- every instruction, and whole runs -----

  /** Step for step, the code does what the stack machine does, up to an undefined operation. */
  lemma StepSimulated(insts: seq<Inst>, sig: Signature, alu: Alu, code: seq<Option<Stmt>>, st: Stack, s: State,
                      t: CState)
    requires s.Running? && s.ip < |insts|
    requires Related(sig, st, s, t) && Ready(insts, sig, code, st, s.ip)
    ensures if Hazard(insts, s)
      then CStep(code, sig, alu, t) == Undefined
      else StepsAgree(insts, sig, alu, code, st, s, t)
  {
    hide *;
    if insts[s.ip].Binary? {
      BinaryStep(insts, sig, alu, code, st, s, t);
    } else {
      OtherStep(insts, sig, alu, code, st, s, t);
    }
  }

  lemma NoHazard(insts: seq<Inst>, s: State)
    requires s.Running? && s.ip < |insts| && !insts[s.ip].Binary?
    ensures !Hazard(insts, s)
  {
  }

  lemma OtherStep(insts: seq<Inst>, sig: Signature, alu: Alu, code: seq<Option<Stmt>>, st: Stack, s: State, t: CState)
    requires s.Running? && s.ip < |insts| && !insts[s.ip].Binary?
    requires Related(sig, st, s, t) && Ready(insts, sig, code, st, s.ip)
    ensures !Hazard(insts, s) && StepsAgree(insts, sig, alu, code, st, s, t)
  {
    hide *;
    NoHazard(insts, s);
    match insts[s.ip]
    case Nop => PopStep(insts, sig, alu, code, st, s, t);
    case Pop => PopStep(insts, sig, alu, code, st, s, t);
    case Br(_) => PopStep(insts, sig, alu, code, st, s, t);
    case Dup => DupStep(insts, sig, alu, code, st, s, t);
    case Ret => RetStep(insts, sig, alu, code, st, s, t);
    case Ldc(_, _) => LdcStep(insts, sig, alu, code, st, s, t);
    case Ldarg(_) => LdargStep(insts, sig, alu, code, st, s, t);
    case Starg(_) => StargStep(insts, sig, alu, code, st, s, t);
    case Ldloc(_) => LdlocStep(insts, sig, alu, code, st, s, t);
    case Stloc(_) => StlocStep(insts, sig, alu, code, st, s, t);
    case BrBool(_, _) => BrBoolStep(insts, sig, alu, code, st, s, t);
    case BrCompare(_, _) => BrCompareStep(insts, sig, alu, code, st, s, t);
    case Compare(_) => CompareStep(insts, sig, alu, code, st, s, t);
    case Switch(_) => SwitchStep(insts, sig, alu, code, st, s, t);
  }

  /** Every reachable instruction has been accepted and translated. */
  ghost predicate Compiled(insts: seq<Inst>, sig: Signature, handlers: seq<nat>, T: map<nat, Stack>,
                           code: seq<Option<Stmt>>) {
    forall ip :: ip in T && Reachable(insts, handlers, ip) ==> Ready(insts, sig, code, T[ip], ip)
  }

  /** The two machines are at the same reachable instruction in related states, or have ended the same way. */
  ghost predicate Together(insts: seq<Inst>, sig: Signature, handlers: seq<nat>, T: map<nat, Stack>, s: State,
                           t: CState) {
    if s.Running? then s.ip in T && Reachable(insts, handlers, s.ip) && Related(sig, T[s.ip], s, t)
    else Agree(sig, [], s, t)
  }

  lemma StepTogether(insts: seq<Inst>, sig: Signature, handlers: seq<nat>, alu: Alu, T: map<nat, Stack>,
                     code: seq<Option<Stmt>>, s: State, t: CState)
    requires Typed(insts, sig, handlers, T) && Compiled(insts, sig, handlers, T, code)
    requires Together(insts, sig, handlers, T, s, t) && s.Running?
    ensures t.At?
    ensures if Hazard(insts, s) then CStep(code, sig, alu, t) == Undefined
            else Together(insts, sig, handlers, T, Step(insts, sig, alu, s), CStep(code, sig, alu, t))
  {
    hide Ready, StackShown, VarsShown, Translate, Succ, Accepted, Step, CStep, Reachable, Hazard;
    assert TypedAt(insts, sig, T, s.ip);
    StepSimulated(insts, sig, alu, code, T[s.ip], s, t);
    var s', t' := Step(insts, sig, alu, s), CStep(code, sig, alu, t);
    if s'.Running? && !Hazard(insts, s) {
      ReachableNext(insts, handlers, s.ip, s'.ip);
    }
  }

  /** The stack machine meets an undefined operation within n steps. */
  ghost predicate Meets(insts: seq<Inst>, sig: Signature, alu: Alu, s: State, n: nat)
    decreases n
  {
    n != 0 && s.Running? && (Hazard(insts, s) || Meets(insts, sig, alu, Step(insts, sig, alu, s), n - 1))
  }

  /** From related states the two machines stay together for any number of steps, through loops, joins and
      switches, until they meet an undefined operation. */
  lemma {:induction false} RunSimulated(insts: seq<Inst>, sig: Signature, handlers: seq<nat>, alu: Alu,
                                        T: map<nat, Stack>, code: seq<Option<Stmt>>, s: State, t: CState, n: nat)
    requires Typed(insts, sig, handlers, T) && Compiled(insts, sig, handlers, T, code)
    requires Together(insts, sig, handlers, T, s, t)
    ensures if Meets(insts, sig, alu, s, n) then CRun(code, sig, alu, t, n) == Undefined
            else Together(insts, sig, handlers, T, Run(insts, sig, alu, s, n), CRun(code, sig, alu, t, n))
    decreases n
  {
    hide Typed, Compiled, Agree, Related, Reachable, Step, CStep, Hazard;
    EndTogether(insts, sig, handlers, T, s, t);
    if n > 0 && s.Running? {
      StepTogether(insts, sig, handlers, alu, T, code, s, t);
      if Hazard(insts, s) {
        UndefinedStays(code, sig, alu, n - 1);
      } else {
        RunSimulated(insts, sig, handlers, alu, T, code, Step(insts, sig, alu, s), CStep(code, sig, alu, t), n - 1);
      }
    }
  }

  lemma UndefinedStays(code: seq<Option<Stmt>>, sig: Signature, alu: Alu, n: nat)
    ensures CRun(code, sig, alu, Undefined, n) == Undefined
  {
  }

  lemma EndTogether(insts: seq<Inst>, sig: Signature, handlers: seq<nat>, T: map<nat, Stack>, s: State, t: CState)
    requires Together(insts, sig, handlers, T, s, t)
    ensures s.Running? <==> t.At?
    ensures s.Returned? <==> t.Done?
    ensures !s.Stuck? && !s.Thrown? && !t.Undefined?
  {
    hide StackShown, VarsShown, Reachable;
  }

  /** A call of the method, with the arguments and the locals as the caller and the runtime set them: the code is
      undefined just when the stack machine has met an undefined operation; otherwise both run on, or both return
      the same result, and the stack machine is not stuck and has not thrown. */
  lemma MethodSimulated(insts: seq<Inst>, sig: Signature, handlers: seq<nat>, alu: Alu, T: map<nat, Stack>,
                        code: seq<Option<Stmt>>, args: seq<Value>, locals: seq<Value>, f: Frame, n: nat)
    requires Typed(insts, sig, handlers, T) && Compiled(insts, sig, handlers, T, code)
    requires VarsShown(sig.args, args, f.args) && VarsShown(sig.locals, locals, f.locals)
    ensures var s, t := Run(insts, sig, alu, Running(0, [], args, locals), n), CRun(code, sig, alu, At(0, f), n);
      && (t.Undefined? <==> Meets(insts, sig, alu, Running(0, [], args, locals), n))
      && (!t.Undefined? ==> (s.Returned? <==> t.Done?) && !s.Stuck? && !s.Thrown?)
      && (t.Done? ==> s.Returned? && s.result.None? == t.result.None? == sig.ret.None?)
      && (t.Done? && s.result.Some? ==> t.result.value == VarToC(sig.ret.value, s.result.value))
  {
    ReachableStart(insts, handlers, 0);
    RunSimulated(insts, sig, handlers, alu, T, code, Running(0, [], args, locals), At(0, f), n);
    if !Meets(insts, sig, alu, Running(0, [], args, locals), n) {
      var s, t := Run(insts, sig, alu, Running(0, [], args, locals), n), CRun(code, sig, alu, At(0, f), n);
      EndTogether(insts, sig, handlers, T, s, t);
    }
  }

  /** A handler, entered with the exception object on the stack and in its temporary, behaves alike. */
  lemma HandlerStarts(insts: seq<Inst>, sig: Signature, handlers: seq<nat>, T: map<nat, Stack>, h: nat, x: Value,
                      args: seq<Value>, locals: seq<Value>, f: Frame)
    requires Typed(insts, sig, handlers, T) && h in handlers && HasType(x, Basic(Obj))
    requires VarsShown(sig.args, args, f.args) && VarsShown(sig.locals, locals, f.locals)
    requires Slot(0, Basic(Obj)) in f.temps && f.temps[Slot(0, Basic(Obj))] == ToC(x)
    ensures Together(insts, sig, handlers, T, Running(h, [x], args, locals), At(h, f))
  {
    hide VarsShown, TypedAt;
    ReachableStart(insts, handlers, h);
    assert EntryShown(T[h], [x], f.temps, 0);
  }
}

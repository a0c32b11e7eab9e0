/** What the code generator emits for one instruction on a given stack of types. */
module Translation {
  import opened Options
  import opened Cil
  import opened SlotCode

  type Stack = seq<StackType>

  /** The slot of the k-th entry from the top, k starting at 1. */
  function TopSlot(st: Stack, k: nat): Slot
    requires 1 <= k <= |st|
  {
    Slot(|st| - k, st[|st| - k])
  }

  // ----- which operand types an instruction takes -----

  /** The result type of an arithmetic instruction (IsBinaryOpValid). */
  function BinaryOpType(op1: Kind, op2: Kind, code: BinCode): Option<Kind> {
    match (op1, op2)
    case (I4, I4) => Some(I4)
    case (I4, Ptr) => Some(Ptr)
    case (I4, Ref) => if code == Add then Some(Ref) else None
    case (I8, I8) => Some(I8)
    case (R4, R4) => Some(R4)
    case (R4, R8) => Some(R8)
    case (R8, R4) => Some(R8)
    case (R8, R8) => Some(R8)
    case (Ptr, I4) => Some(Ptr)
    case (Ptr, Ptr) => Some(Ptr)
    case (Ptr, Ref) => if code == Add then Some(Ref) else None
    case (Ref, I4) => if code == Add || code == Sub then Some(Ref) else None
    case (Ref, Ptr) => if code == Add || code == Sub then Some(Ref) else None
    case (Ref, Ref) => if code == Sub then Some(Ptr) else None
    case (_, _) => None
  }

  /** The result type of a bitwise instruction (IsIntegerOpValid). */
  function IntegerOpType(op1: Kind, op2: Kind): Option<Kind> {
    match (op1, op2)
    case (I4, I4) => Some(I4)
    case (I4, Ptr) => Some(Ptr)
    case (I8, I8) => Some(I8)
    case (Ptr, I4) => Some(Ptr)
    case (Ptr, Ptr) => Some(Ptr)
    case (_, _) => None
  }

  function ResultType(op1: Kind, op2: Kind, code: BinCode): Option<Kind> {
    if code == And || code == Or || code == Xor then IntegerOpType(op1, op2) else BinaryOpType(op1, op2, code)
  }

  predicate EqualityCode(c: Code) {
    c in {Beq, BneUn, Ceq}
  }

  /** The operand types of a comparison (IsBinaryCompareValid). */
  predicate BinaryCompareValid(op1: Kind, op2: Kind, c: Code) {
    match op1
    case I4 => op2 == I4 || op2 == Ptr
    case I8 => op2 == I8
    case R4 | R8 => op2 == R4 || op2 == R8
    case Ptr => op2 == I4 || op2 == Ptr || (op2 == Ref && EqualityCode(c))
    case Ref => op2 == Ref || (op2 == Ptr && EqualityCode(c))
    case Obj => op2 == Obj && (EqualityCode(c) || c == CgtUn)
    case ValueType => false
  }

  // ----- comparisons -----

  /** GetSignedTypeName */
  function SignedType(k: Kind): Option<CType> {
    match k
    case I4 => Some(CInt32)
    case I8 => Some(CInt64)
    case Ptr | Ref | Obj => Some(CIntPtr)
    case _ => None
  }

  /** GetUnsignedTypeName */
  function UnsignedType(k: Kind): Option<CType> {
    match k
    case I4 => Some(CUInt32)
    case I8 => Some(CUInt64)
    case Ptr | Ref | Obj => Some(CUIntPtr)
    case _ => None
  }

  datatype CompareKind = Eq | Ne | Ge | Gt | Le | Lt

  function KindOfCompare(c: Code): CompareKind {
    match c
    case Beq | Ceq => Eq
    case Bge | BgeUn => Ge
    case Bgt | Cgt | BgtUn | CgtUn => Gt
    case Ble | BleUn => Le
    case Blt | Clt | BltUn | CltUn => Lt
    case BneUn => Ne
  }

  /** The condition for a comparison (GenCompareCond and GenCompare). Both operands are cast to the signed or the
      unsigned type of the left one. An unsigned comparison of floating point numbers, which have no unsigned type,
      becomes the negation of the opposite one, so that it holds when they are unordered. */
  function CompareCond(c: Code, lhs: Slot, rhs: Slot): Condition {
    var cmp := KindOfCompare(c);
    var un := IsUnsigned(c) && cmp != Ne;
    var cast := if un then UnsignedType(lhs.t.kind) else SignedType(lhs.t.kind);
    var neg := un && cast == None;
    match cmp
    case Eq => Comparison(false, cast, lhs, EqualTo, rhs)
    case Ne => Comparison(false, cast, lhs, NotEqualTo, rhs)
    case Ge => if neg then Comparison(true, cast, lhs, LessThan, rhs) else Comparison(false, cast, lhs, AtLeast, rhs)
    case Gt => if neg then Comparison(true, cast, lhs, AtMost, rhs) else Comparison(false, cast, lhs, GreaterThan, rhs)
    case Le => if neg then Comparison(true, cast, lhs, GreaterThan, rhs) else Comparison(false, cast, lhs, AtMost, rhs)
    case Lt => if neg then Comparison(true, cast, lhs, AtLeast, rhs) else Comparison(false, cast, lhs, LessThan, rhs)
  }

  // ----- arithmetic -----

  /** A temporary cast to the unsigned type of its kind, if there is one. */
  function AsUnsigned(s: Slot): Arith {
    match UnsignedType(s.t.kind)
    case None => Var(s)
    case Some(ct) => CastTo(ct, Var(s))
  }

  /** The code for a binary instruction with a result of kind k (GenBinOpFunc, GenBinOp, GenRem, GenRemUn and
      GenIntBinOp). */
  function BinaryCode(op: BinCode, k: Kind, lhs: Slot, rhs: Slot): Arith {
    match op
    case Add => SafeAdd(Var(lhs), Var(rhs))
    case Sub => SafeSub(Var(lhs), Var(rhs))
    case Mul => Infix(Times, Var(lhs), Var(rhs))
    case Div => Infix(Over, Var(lhs), Var(rhs))
    case And => Infix(BitAnd, Var(lhs), Var(rhs))
    case Or => Infix(BitOr, Var(lhs), Var(rhs))
    case Xor => Infix(BitXor, Var(lhs), Var(rhs))
    case DivUn => Infix(Over, AsUnsigned(lhs), AsUnsigned(rhs))
    case Rem => if IsFloat(k) then FloatRem(Var(lhs), Var(rhs)) else Infix(Modulo, Var(lhs), Var(rhs))
    case RemUn => Infix(Minus, Var(lhs), Infix(Times, Var(rhs), Infix(Over, AsUnsigned(lhs), AsUnsigned(rhs))))
  }

  // ----- instructions -----

  /** The code for an instruction on the stack of types st, and the stack of types after it; none when the
      generator refuses the instruction. */
  function Translate(inst: Inst, st: Stack, sig: Signature): Option<(Stack, Option<Stmt>)> {
    var n := |st|;
    match inst
    case Nop => Some((st, None))
    case Pop => if n < 1 then None else Some((st[..n - 1], None))
    case Dup =>
      if n < 1 then None
      else Some((st + [st[n - 1]], Some(Assign(Temp(Slot(n, st[n - 1])), Read(Temp(TopSlot(st, 1)))))))
    case Ret =>
      if n < 1 then Some((st, Some(Return(None)))) else Some((st[..n - 1], Some(Return(Some(TopSlot(st, 1))))))
    case Ldc(t, v) => Some((st + [t], Some(Assign(Temp(Slot(n, t)), Literal(v)))))
    case Ldarg(i) => if i < |sig.args| then LoadVar(st, ToStackType(sig.args[i]), Arg(i)) else None
    case Ldloc(i) => if i < |sig.locals| then LoadVar(st, ToStackType(sig.locals[i]), Local(i)) else None
    case Starg(i) => if i < |sig.args| && 1 <= n then StoreVar(st, Arg(i)) else None
    case Stloc(i) => if i < |sig.locals| && 1 <= n then StoreVar(st, Local(i)) else None
    case Br(target) => Some((st, Some(Goto(target))))
    case BrBool(b, target) => if n < 1 then None else Some((st[..n - 1], Some(If(NonZero(TopSlot(st, 1), b), target))))
    case BrCompare(c, target) =>
      if n < 2 || !BinaryCompareValid(st[n - 2].kind, st[n - 1].kind, c) then None
      else Some((st[..n - 2], Some(If(CompareCond(c, TopSlot(st, 2), TopSlot(st, 1)), target))))
    case Compare(c) =>
      if n < 2 || !BinaryCompareValid(st[n - 2].kind, st[n - 1].kind, c) then None
      else Some((st[..n - 2] + [Basic(I4)],
        Some(Assign(Temp(Slot(n - 2, Basic(I4))), Chosen(CompareCond(c, TopSlot(st, 2), TopSlot(st, 1)))))))
    case Binary(op) =>
      if n < 2 then None else
      (match ResultType(st[n - 2].kind, st[n - 1].kind, op)
       case None => None
       case Some(k) =>
         var code := Computed(BinaryCode(op, k, TopSlot(st, 2), TopSlot(st, 1)));
         Some((st[..n - 2] + [Basic(k)], Some(Assign(Temp(Slot(n - 2, Basic(k))), code)))))
    case Switch(targets) => if n < 1 then None else Some((st[..n - 1], Some(Select(TopSlot(st, 1), targets))))
  }

  function LoadVar(st: Stack, t: StackType, x: CVar): Option<(Stack, Option<Stmt>)> {
    Some((st + [t], Some(Assign(Temp(Slot(|st|, t)), Read(x)))))
  }

  function StoreVar(st: Stack, x: CVar): Option<(Stack, Option<Stmt>)>
    requires 1 <= |st|
  {
    Some((st[..|st| - 1], Some(Assign(x, Read(Temp(TopSlot(st, 1)))))))
  }

  /** Where control can go after an instruction at ip. */
  function Succ(inst: Inst, ip: nat): seq<nat> {
    match inst
    case Ret => []
    case Br(target) => [target]
    case BrBool(_, target) => [target, ip + 1]
    case BrCompare(_, target) => [target, ip + 1]
    case Switch(targets) => targets + [ip + 1]
    case _ => [ip + 1]
  }

  /** The stack shapes agree wherever control flow joins (III.1.8.1.3): T gives the types on the stack at each
      instruction that can be reached; exception handlers and filters start with the exception object. */
  ghost predicate Typed(insts: seq<Inst>, sig: Signature, handlers: seq<nat>, T: map<nat, Stack>) {
    && 0 in T && T[0] == []
    && (forall h :: h in handlers ==> h in T && T[h] == [Basic(Obj)])
    && (forall ip :: ip in T ==> TypedAt(insts, sig, T, ip))
  }

  ghost predicate TypedAt(insts: seq<Inst>, sig: Signature, T: map<nat, Stack>, ip: nat)
    requires ip in T
  {
    && ip < |insts| && Translate(insts[ip], T[ip], sig).Some?
    && forall s :: s in Succ(insts[ip], ip) ==> s in T && T[s] == Translate(insts[ip], T[ip], sig).value.0
  }

  // ----- reachable instructions -----

  /** A path of control from the start of the method or of a handler. */
  ghost predicate Path(insts: seq<Inst>, handlers: seq<nat>, p: seq<nat>) {
    && p != [] && (p[0] == 0 || p[0] in handlers)
    && forall i :: 0 <= i < |p| - 1 ==> p[i] < |insts| && p[i + 1] in Succ(insts[p[i]], p[i])
  }

  ghost predicate Reachable(insts: seq<Inst>, handlers: seq<nat>, ip: nat) {
    exists p :: Path(insts, handlers, p) && p[|p| - 1] == ip
  }

  lemma ReachableStart(insts: seq<Inst>, handlers: seq<nat>, h: nat)
    requires h == 0 || h in handlers
    ensures Reachable(insts, handlers, h)
  {
    assert Path(insts, handlers, [h]);
  }

  lemma ReachableNext(insts: seq<Inst>, handlers: seq<nat>, ip: nat, s: nat)
    requires Reachable(insts, handlers, ip) && ip < |insts| && s in Succ(insts[ip], ip)
    ensures Reachable(insts, handlers, s)
  {
    var p :| Path(insts, handlers, p) && p[|p| - 1] == ip;
    assert Path(insts, handlers, p + [s]);
  }

  /** A set that holds the starts and is closed under control flow holds every reachable instruction. */
  lemma {:induction false} ReachableInside(insts: seq<Inst>, handlers: seq<nat>, closed: set<nat>, p: seq<nat>)
    requires Path(insts, handlers, p)
    requires 0 in closed && forall h :: h in handlers ==> h in closed
    requires forall ip, s :: ip in closed && ip < |insts| && s in Succ(insts[ip], ip) ==> s in closed
    ensures p[|p| - 1] in closed
    decreases |p|
  {
    if |p| > 1 {
      var q := p[..|p| - 1];
      assert Path(insts, handlers, q);
      ReachableInside(insts, handlers, closed, q);
      assert p[|p| - 1] in Succ(insts[p[|p| - 2]], p[|p| - 2]);
    }
  }

  lemma ReachableTyped(insts: seq<Inst>, sig: Signature, handlers: seq<nat>, T: map<nat, Stack>, ip: nat)
    requires Typed(insts, sig, handlers, T) && Reachable(insts, handlers, ip)
    ensures ip in T
  {
    var p :| Path(insts, handlers, p) && p[|p| - 1] == ip;
    forall x, s | x in T.Keys && x < |insts| && s in Succ(insts[x], x) ensures s in T.Keys {
      assert TypedAt(insts, sig, T, x);
    }
    ReachableInside(insts, handlers, T.Keys, p);
  }
}

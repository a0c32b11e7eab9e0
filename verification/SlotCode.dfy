/** The generated C++ code: assignments to typed temporaries, conditional gotos, switches and returns. */
module SlotCode {
  import opened Options
  import opened Cil

  // ----- C++ values and casts -----

  datatype CType = CInt8 | CUInt8 | CInt16 | CUInt16 | CInt32 | CUInt32 | CInt64 | CUInt64 | CIntPtr | CUIntPtr
                 | CFloat | CDouble | CPointer | CStruct(name: string)

  /** The value of a C++ expression; pointers are their addresses. */
  datatype CValue = CNum(n: int) | CReal(f: Float) | CAggregate(name: string, content: nat)

  /** The numbers of an integer type of C++. */
  function WrapTo(ct: CType, n: int): int {
    match ct
    case CInt8 => SignedWrap(n, B8)
    case CUInt8 => Wrap(n, B8)
    case CInt16 => SignedWrap(n, B16)
    case CUInt16 => Wrap(n, B16)
    case CInt32 => SignedWrap(n, B32)
    case CUInt32 => Wrap(n, B32)
    case CInt64 | CIntPtr => SignedWrap(n, B64)
    case _ => Wrap(n, B64)
  }

  /** A cast or an assignment to a variable of type ct. */
  function Cast(ct: CType, c: CValue, double: bool, round: Float -> Float): CValue {
    match c
    case CNum(n) => CNum(WrapTo(ct, n))
    case CReal(f) => if ct == CFloat && double then CReal(round(f)) else c
    case CAggregate(_, _) => c
  }

  /** The C++ type of a temporary for stack type t (GetTypeName). */
  function TempType(t: StackType): CType {
    match t.kind
    case I4 => CInt32
    case I8 => CInt64
    case R4 => CFloat
    case R8 => CDouble
    case Ptr => CUIntPtr
    case Ref => CUIntPtr
    case Obj => CPointer
    case ValueType => CStruct(t.typeName)
  }

  /** The C++ type of an argument or a local. */
  function VarCType(vt: VarType): CType {
    match vt
    case Int8 => CInt8
    case UInt8 => CUInt8
    case Int16 => CInt16
    case UInt16 => CUInt16
    case Int32 => CInt32
    case UInt32 => CUInt32
    case Int64 => CInt64
    case UInt64 => CUInt64
    case Float32 => CFloat
    case Float64 => CDouble
    case Native => CIntPtr
    case ByRef => CUIntPtr
    case Object => CPointer
    case Named(name) => CStruct(name)
  }

  // ----- programs -----

  /** A temporary: its stack index and its stack type. */
  datatype Slot = Slot(index: nat, t: StackType)

  datatype CVar = Temp(s: Slot) | Arg(i: nat) | Local(i: nat)

  datatype Relation = EqualTo | NotEqualTo | LessThan | GreaterThan | AtMost | AtLeast

  /** A condition: a comparison of two temporaries, both cast to the given type if there is one, perhaps negated;
      or a temporary that is, or is not, zero. */
  datatype Condition = Comparison(neg: bool, cast: Option<CType>, lhs: Slot, rel: Relation, rhs: Slot)
                     | NonZero(s: Slot, wanted: bool)

  /** The operators that are emitted as such. */
  datatype Operator = Minus | Times | Over | Modulo | BitAnd | BitOr | BitXor

  /** Arithmetic: temporaries, casts, operators, and the functions of the runtime for wrapping sums and differences
      and for floating point remainders. */
  datatype Arith = Var(s: Slot)
                 | CastTo(ct: CType, a: Arith)
                 | Infix(op: Operator, lhs: Arith, rhs: Arith)
                 | SafeAdd(lhs: Arith, rhs: Arith)
                 | SafeSub(lhs: Arith, rhs: Arith)
                 | FloatRem(lhs: Arith, rhs: Arith)

  datatype Expr = Literal(v: Value) | Read(x: CVar) | Chosen(c: Condition) | Computed(a: Arith)

  /** Casts in assignments and returns are to the type of what is assigned, so they are not repeated here. */
  datatype Stmt = Assign(dst: CVar, e: Expr)
                | If(c: Condition, target: nat)
                | Goto(target: nat)
                | Select(s: Slot, targets: seq<nat>)
                | Return(result: Option<Slot>)

  // ----- running them -----

  /** Variables hold their contents as C++ values. */
  datatype Frame = Frame(temps: map<Slot, CValue>, args: seq<CValue>, locals: seq<CValue>)

  datatype CState = At(ip: nat, f: Frame) | Done(result: Option<CValue>) | Undefined

  predicate RelHolds(rel: Relation, m: CValue, n: CValue) {
    var o := if m.CNum? && n.CNum? then OrderOf(m.n, n.n)
             else if m.CReal? && n.CReal? then FloatOrder(m.f, n.f)
             else Unordered;
    match rel
    case EqualTo => o == Equal
    case NotEqualTo => o != Equal
    case LessThan => o == Less
    case GreaterThan => o == Greater
    case AtMost => o == Less || o == Equal
    case AtLeast => o == Greater || o == Equal
  }

  function CastFor(cast: Option<CType>, c: CValue): CValue {
    match cast
    case None => c
    case Some(ct) => if c.CNum? then CNum(WrapTo(ct, c.n)) else c
  }

  /** The slots a condition reads. */
  function SlotsOf(c: Condition): set<Slot> {
    match c
    case Comparison(_, _, lhs, _, rhs) => {lhs, rhs}
    case NonZero(s, _) => {s}
  }

  predicate Test(c: Condition, f: Frame)
    requires SlotsOf(c) <= f.temps.Keys
  {
    match c
    case Comparison(neg, cast, lhs, rel, rhs) =>
      RelHolds(rel, CastFor(cast, f.temps[lhs]), CastFor(cast, f.temps[rhs])) != neg
    case NonZero(s, wanted) => (f.temps[s] != CNum(0)) == wanted
  }

  /** The C++ value of a temporary of stack type t, for a stack value. */
  function ToC(v: Value): CValue {
    match v
    case Bits(k, b) => CNum(if k == I4 || k == I8 then Signed(v) else b)
    case Real(_, f) => CReal(f)
    case Struct(name, content) => CAggregate(name, content)
  }

  // ----- arithmetic -----

  predicate IsSigned(ct: CType) {
    ct in {CInt8, CInt16, CInt32, CInt64, CIntPtr}
  }

  predicate IsWide(ct: CType) {
    ct in {CInt64, CUInt64, CIntPtr, CUIntPtr}
  }

  /** The type in which an operator computes (the usual arithmetic conversions), for operands at least as wide as
      int. */
  function Common(ct: CType, cu: CType): CType {
    if ct == CDouble || cu == CDouble then CDouble
    else if ct == CFloat || cu == CFloat then CFloat
    else if ct == cu then ct
    else if IsWide(ct) && IsWide(cu) then if IsSigned(ct) then cu else ct
    else if IsWide(ct) then ct
    else if IsWide(cu) then cu
    else CUInt32
  }

  /** The unsigned type as wide as ct. */
  function Unsigned(ct: CType): CType {
    if IsWide(ct) then CUInt64 else CUInt32
  }

  function TypeOf(a: Arith): CType {
    match a
    case Var(s) => TempType(s.t)
    case CastTo(ct, _) => ct
    case Infix(_, l, r) => Common(TypeOf(l), TypeOf(r))
    case SafeAdd(l, r) => Common(TypeOf(l), TypeOf(r))
    case SafeSub(l, r) => Common(TypeOf(l), TypeOf(r))
    case FloatRem(l, r) => Common(TypeOf(l), TypeOf(r))
  }

  /** An operator applied to numbers of type ct; none when that is undefined: a zero divisor, or a result that a
      signed type does not hold. */
  function Operate(op: Operator, ct: CType, m: int, n: int): Option<int> {
    match op
    case Minus => Fitting(ct, m - n)
    case Times => Fitting(ct, m * n)
    case Over => if n == 0 then None else Fitting(ct, Quotient(m, n))
    case Modulo => if n == 0 || Fitting(ct, Quotient(m, n)) == None then None else Some(Remainder(m, n))
    case BitAnd => Some(OnBits(And, ct, m, n))
    case BitOr => Some(OnBits(Or, ct, m, n))
    case BitXor => Some(OnBits(Xor, ct, m, n))
  }

  function Fitting(ct: CType, n: int): Option<int> {
    if !IsSigned(ct) || WrapTo(ct, n) == n then Some(WrapTo(ct, n)) else None
  }

  function OnBits(op: BinCode, ct: CType, m: int, n: int): int {
    if IsWide(ct) then WrapTo(ct, Bitwise(op, Wrap(m, B64), Wrap(n, B64), 64))
    else WrapTo(ct, Bitwise(op, Wrap(m, B32), Wrap(n, B32), 32))
  }

  /** The same for floating point numbers. */
  function FloatOperate(op: Operator, ct: CType, f: Float, g: Float, alu: Alu): Option<Float> {
    var k := if ct == CFloat then R4 else R8;
    match op
    case Minus => Some(alu.bin(Sub, k, f, g))
    case Times => Some(alu.bin(Mul, k, f, g))
    case Over => Some(alu.bin(Div, k, f, g))
    case _ => None
  }

  /** il2cpp_SafeAdd and il2cpp_SafeSub: integers are added as unsigned numbers and converted back. */
  function Safe(op: BinCode, ct: CType, m: int, n: int): int {
    var u := Unsigned(ct);
    var x, y := WrapTo(u, m), WrapTo(u, n);
    WrapTo(ct, WrapTo(u, if op == Add then x + y else x - y))
  }

  /** The value of an arithmetic expression; none when it has none, or does not compile: the runtime has no sum,
      difference or remainder of a float and a double. */
  function ValueOf(a: Arith, temps: map<Slot, CValue>, alu: Alu): Option<CValue> {
    match a
    case Var(s) => if s in temps then Some(temps[s]) else None
    case CastTo(ct, e) =>
      (match ValueOf(e, temps, alu)
       case Some(CNum(n)) => Some(CNum(WrapTo(ct, n)))
       case c => c)
    case Infix(op, l, r) =>
      var ct := TypeOf(a);
      (match (ValueOf(l, temps, alu), ValueOf(r, temps, alu))
       case (Some(CNum(m)), Some(CNum(n))) => ToNum(Operate(op, ct, WrapTo(ct, m), WrapTo(ct, n)))
       case (Some(CReal(f)), Some(CReal(g))) => ToReal(FloatOperate(op, ct, f, g, alu))
       case _ => None)
    case SafeAdd(l, r) => SafeValue(Add, TypeOf(l), ValueOf(l, temps, alu), TypeOf(r), ValueOf(r, temps, alu), alu)
    case SafeSub(l, r) => SafeValue(Sub, TypeOf(l), ValueOf(l, temps, alu), TypeOf(r), ValueOf(r, temps, alu), alu)
    case FloatRem(l, r) =>
      (match (ValueOf(l, temps, alu), ValueOf(r, temps, alu))
       case (Some(CReal(f)), Some(CReal(g))) =>
         if TypeOf(l) == TypeOf(r) then Some(CReal(FloatRemainder(f, g, true))) else None
       case _ => None)
  }

  function SafeValue(op: BinCode, ct: CType, c: Option<CValue>, cu: CType, d: Option<CValue>,
                     alu: Alu): Option<CValue> {
    match (c, d)
    case (Some(CNum(m)), Some(CNum(n))) => Some(CNum(Safe(op, Common(ct, cu), m, n)))
    case (Some(CReal(f)), Some(CReal(g))) =>
      if ct == cu then Some(CReal(alu.bin(op, if ct == CFloat then R4 else R8, f, g))) else None
    case _ => None
  }

  function ToNum(n: Option<int>): Option<CValue> {
    match n
    case None => None
    case Some(m) => Some(CNum(m))
  }

  function ToReal(f: Option<Float>): Option<CValue> {
    match f
    case None => None
    case Some(g) => Some(CReal(g))
  }

  // ----- expressions and statements -----

  /** The value of an expression and whether it has type double; none when that is undefined. */
  function Eval(e: Expr, f: Frame, sig: Signature, alu: Alu): Option<(CValue, bool)> {
    match e
    case Literal(v) => Some((ToC(v), v.Real? && v.kind == R8))
    case Read(Temp(s)) => if s in f.temps then Some((f.temps[s], s.t.kind == R8)) else None
    case Read(Arg(i)) => if i < |f.args| && i < |sig.args| then Some((f.args[i], sig.args[i] == Float64)) else None
    case Read(Local(i)) =>
      if i < |f.locals| && i < |sig.locals| then Some((f.locals[i], sig.locals[i] == Float64)) else None
    case Chosen(c) => if SlotsOf(c) <= f.temps.Keys then Some((CNum(if Test(c, f) then 1 else 0), false)) else None
    case Computed(a) =>
      (match ValueOf(a, f.temps, alu)
       case None => None
       case Some(c) => Some((c, TypeOf(a) == CDouble)))
  }

  function SetVar(f: Frame, sig: Signature, alu: Alu, dst: CVar, c: CValue, double: bool): Option<Frame> {
    match dst
    case Temp(s) => Some(f.(temps := f.temps[s := Cast(TempType(s.t), c, double, alu.round)]))
    case Arg(i) =>
      if i < |f.args| && i < |sig.args|
      then Some(f.(args := f.args[i := Cast(VarCType(sig.args[i]), c, double, alu.round)]))
      else None
    case Local(i) =>
      if i < |f.locals| && i < |sig.locals|
      then Some(f.(locals := f.locals[i := Cast(VarCType(sig.locals[i]), c, double, alu.round)]))
      else None
  }

  /** Run the code generated for one instruction: none falls through. */
  function CStep(code: seq<Option<Stmt>>, sig: Signature, alu: Alu, s: CState): CState
    requires s.At?
  {
    if s.ip >= |code| then Undefined else
    var next := s.(ip := s.ip + 1);
    match code[s.ip]
    case None => next
    case Some(Goto(target)) => s.(ip := target)
    case Some(If(c, target)) =>
      if SlotsOf(c) <= s.f.temps.Keys then s.(ip := if Test(c, s.f) then target else s.ip + 1) else Undefined
    case Some(Select(x, targets)) =>
      if x !in s.f.temps || !s.f.temps[x].CNum? then Undefined
      else
        var k := WrapTo(CUInt32, s.f.temps[x].n);
        s.(ip := if 0 <= k < |targets| then targets[k] else s.ip + 1)
    case Some(Return(x)) =>
      if x.None? then Done(None)
      else if x.value !in s.f.temps || sig.ret.None? then Undefined
      else Done(Some(Cast(VarCType(sig.ret.value), s.f.temps[x.value], x.value.t.kind == R8, alu.round)))
    case Some(Assign(dst, e)) =>
      (match Eval(e, s.f, sig, alu)
       case None => Undefined
       case Some(c) =>
         (match SetVar(s.f, sig, alu, dst, c.0, c.1)
          case None => Undefined
          case Some(f) => next.(f := f)))
  }

  function CRun(code: seq<Option<Stmt>>, sig: Signature, alu: Alu, s: CState, n: nat): CState
    decreases n
  {
    if n == 0 || !s.At? then s else CRun(code, sig, alu, CStep(code, sig, alu, s), n - 1)
  }
}

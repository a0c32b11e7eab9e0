/** A subset of CIL: values, evaluation-stack types, instructions and the stack machine (partitions I and III of
    ECMA-335). Native ints, managed pointers and object references have 64 bits. */
module Cil {
  import opened Options
  import opened Arithmetic

  // ----- types -----

  datatype Kind = I4 | I8 | R4 | R8 | Ptr | Ref | Obj | ValueType

  /** The type of a slot of the evaluation stack; value types are told apart by name. */
  datatype StackType = StackType(kind: Kind, typeName: string)

  function Basic(kind: Kind): StackType {
    StackType(kind, "")
  }

  /** The types of arguments and locals; enums stand for their base types. */
  datatype VarType = Int8 | UInt8 | Int16 | UInt16 | Int32 | UInt32 | Int64 | UInt64 | Float32 | Float64
                   | Native | ByRef | Object | Named(typeName: string)

  /** The stack type a variable is loaded as. */
  function ToStackType(vt: VarType): StackType {
    match vt
    case Int8 | UInt8 | Int16 | UInt16 | Int32 | UInt32 => Basic(I4)
    case Int64 | UInt64 => Basic(I8)
    case Float32 => Basic(R4)
    case Float64 => Basic(R8)
    case Native => Basic(Ptr)
    case ByRef => Basic(Ref)
    case Object => Basic(Obj)
    case Named(name) => StackType(ValueType, name)
  }

  // ----- values -----

  const B8: int := 0x100
  const B16: int := 0x1_0000
  const B32: int := 0x1_0000_0000
  const B64: int := 0x1_0000_0000_0000_0000

  /** Floating point numbers, without regard to precision. */
  datatype Float = NaN | NegInf | Num(r: real) | PosInf

  /** A value on the stack. Integers and references are bit patterns. */
  datatype Value = Bits(kind: Kind, bits: int) | Real(kind: Kind, f: Float) | Struct(typeName: string, content: nat)

  function Width(kind: Kind): int {
    if kind == I4 then B32 else B64
  }

  predicate HasType(v: Value, t: StackType) {
    match t.kind
    case R4 | R8 => v.Real? && v.kind == t.kind && t.typeName == ""
    case ValueType => v.Struct? && v.typeName == t.typeName
    case _ => v.Bits? && v.kind == t.kind && 0 <= v.bits < Width(t.kind) && t.typeName == ""
  }

  /** The low bits of n, as a number from 0 to w - 1. */
  function Wrap(n: int, w: int): int
    requires 0 < w
  {
    n % w
  }

  /** The low bits of n, read as a two's complement number. */
  function SignedWrap(n: int, w: int): int
    requires 0 < w
  {
    if n % w < w / 2 then n % w else n % w - w
  }

  /** The number a bit pattern stands for, read as signed. */
  function Signed(v: Value): int
    requires v.Bits?
  {
    SignedWrap(v.bits, Width(v.kind))
  }

  // ----- conversions when a variable or a return value is set (III.1.6) -----

  /** A value of stack type t may be stored in a variable of type vt. */
  predicate Storable(t: StackType, vt: VarType) {
    match vt
    case Float32 | Float64 => t == Basic(R4) || t == Basic(R8)
    case Named(name) => t == StackType(ValueType, name)
    case Object => t == Basic(Obj)
    case Native | ByRef => t == Basic(I4) || t == Basic(Ptr) || t == Basic(Ref)
    case Int64 | UInt64 => t == Basic(I8)
    case _ => t == Basic(I4) || t == Basic(Ptr)
  }

  /** What a variable of type vt holds, as a stack value, once v has been stored in it: small integers are cut
      down and extended again, int32 is sign extended to native size. round stands for the rounding to
      single precision. */
  function Stored(v: Value, vt: VarType, round: Float -> Float): Value
    requires exists t :: HasType(v, t) && Storable(t, vt)
  {
    match vt
    case Int8 => Bits(I4, Wrap(SignedWrap(v.bits % B8, B8), B32))
    case UInt8 => Bits(I4, v.bits % B8)
    case Int16 => Bits(I4, Wrap(SignedWrap(v.bits % B16, B16), B32))
    case UInt16 => Bits(I4, v.bits % B16)
    case Int32 | UInt32 => Bits(I4, v.bits % B32)
    case Int64 | UInt64 => Bits(I8, v.bits)
    case Float32 => Real(R4, if v.kind == R4 then v.f else round(v.f))
    case Float64 => Real(R8, v.f)
    case Native => Bits(Ptr, Wrap(Signed(v), B64))
    case ByRef => Bits(Ref, Wrap(Signed(v), B64))
    case Object => v
    case Named(_) => v
  }

  lemma StoredHasType(v: Value, t: StackType, vt: VarType, round: Float -> Float)
    requires HasType(v, t) && Storable(t, vt)
    ensures HasType(Stored(v, vt, round), ToStackType(vt))
  {
  }

  // ----- comparisons -----

  datatype Code = Beq | Bge | Bgt | Ble | Blt | BneUn | BgeUn | BgtUn | BleUn | BltUn | Ceq | Cgt | CgtUn | Clt | CltUn

  /** The relation between two numbers, when there is one. */
  datatype Order = Less | Equal | Greater | Unordered

  function OrderOf(m: int, n: int): Order {
    if m < n then Less else if m == n then Equal else Greater
  }

  function FloatOrder(f: Float, g: Float): Order {
    if f == NaN || g == NaN then Unordered
    else if f == g then Equal
    else if f == NegInf || g == PosInf || (f.Num? && g.Num? && f.r < g.r) then Less
    else Greater
  }

  /** The operands as unsigned numbers: two int32 as they are, otherwise an int32 is sign extended first. */
  function UnsignedOrder(v: Value, w: Value): Order
    requires v.Bits? && w.Bits?
  {
    if v.kind == w.kind then OrderOf(v.bits, w.bits)
    else OrderOf(Wrap(Signed(v), B64), Wrap(Signed(w), B64))
  }

  predicate IsUnsigned(c: Code) {
    c in {BneUn, BgeUn, BgtUn, BleUn, BltUn, CgtUn, CltUn}
  }

  /** The outcome of a comparison instruction (III.3.5 to III.3.25, tables III.4). The .un forms compare
      integers without sign and hold for unordered floating point numbers; the others do not. */
  predicate Holds(c: Code, v: Value, w: Value) {
    var o := if v.Bits? && w.Bits? then (if IsUnsigned(c) then UnsignedOrder(v, w) else OrderOf(Signed(v), Signed(w)))
             else if v.Real? && w.Real? then FloatOrder(v.f, w.f)
             else Unordered;
    match c
    case Beq | Ceq => o == Equal
    case Bge => o == Greater || o == Equal
    case Bgt | Cgt => o == Greater
    case Ble => o == Less || o == Equal
    case Blt | Clt => o == Less
    case BneUn => o != Equal
    case BgeUn => o != Less
    case BgtUn | CgtUn => o == Greater || o == Unordered
    case BleUn => o != Greater
    case BltUn | CltUn => o == Less || o == Unordered
  }

  // ----- arithmetic -----

  datatype BinCode = Add | Sub | Mul | Div | DivUn | Rem | RemUn | And | Or | Xor

  predicate IntegerOnly(op: BinCode) {
    op in {DivUn, RemUn, And, Or, Xor}
  }

  predicate IsFloat(k: Kind) {
    k == R4 || k == R8
  }

  /** The result type of a binary instruction for its operand types (tables III.2 and III.5). */
  function BinaryType(op: BinCode, k: Kind, l: Kind): Option<Kind> {
    if IsFloat(k) && IsFloat(l) then if IntegerOnly(op) then None else Some(if k == l then k else R8)
    else if k == l && k in {I4, I8, Ptr} then Some(k)
    else if (k == I4 && l == Ptr) || (k == Ptr && l == I4) then Some(Ptr)
    else if (k == I4 || k == Ptr) && l == Ref && op == Add then Some(Ref)
    else if k == Ref && (l == I4 || l == Ptr) && (op == Add || op == Sub) then Some(Ref)
    else if k == Ref && l == Ref && op == Sub then Some(Ptr)
    else None
  }

  /** The quotient rounded towards zero, and the remainder that goes with it. */
  function Quotient(m: int, n: int): int
    requires n != 0
  {
    if 0 <= m then m / n else -((-m) / n)
  }

  function Remainder(m: int, n: int): int
    requires n != 0
  {
    m - n * Quotient(m, n)
  }

  function Bit(op: BinCode, a: bool, b: bool): nat {
    if (match op case And => a && b case Or => a || b case _ => a != b) then 1 else 0
  }

  /** A bitwise operation on the k low bits. */
  function Bitwise(op: BinCode, m: nat, n: nat, k: nat): (r: nat)
    ensures r < Pow2(k)
  {
    if k == 0 then 0 else 2 * Bitwise(op, m / 2, n / 2, k - 1) + Bit(op, m % 2 == 1, n % 2 == 1)
  }

  /** The bit pattern of width w that a binary instruction gives for two signed numbers; none when it throws. The
      .un forms take the numbers as unsigned ones of that width. */
  function IntegerResult(op: BinCode, m: int, n: int, w: int): Option<int>
    requires w == B32 || w == B64
  {
    var x, y := Wrap(m, w), Wrap(n, w);
    match op
    case Add => Some(Wrap(m + n, w))
    case Sub => Some(Wrap(m - n, w))
    case Mul => Some(Wrap(m * n, w))
    case Div => if n == 0 || (m == -w / 2 && n == -1) then None else Some(Wrap(Quotient(m, n), w))
    case Rem => if n == 0 || (m == -w / 2 && n == -1) then None else Some(Wrap(Remainder(m, n), w))
    case DivUn => if y == 0 then None else Some(x / y)
    case RemUn => if y == 0 then None else Some(x % y)
    case And | Or | Xor => Some(Bitwise(op, x, y, if w == B32 then 32 else 64))
  }

  /** The whole number next to r on the way to zero, or the nearest one, even if there are two. */
  function Whole(r: real, nearest: bool): int {
    if nearest then
      var d := r - r.Floor as real;
      if d < 0.5 || (d == 0.5 && r.Floor % 2 == 0) then r.Floor else r.Floor + 1
    else if r < 0.0 then -((-r).Floor) else r.Floor
  }

  /** What is left of f when it is divided by g, for a quotient rounded in one of these ways. */
  function FloatRemainder(f: Float, g: Float, nearest: bool): Float {
    if !f.Num? || g == NaN || g == Num(0.0) then NaN
    else if !g.Num? then f
    else Num(f.r - g.r * Whole(f.r / g.r, nearest) as real)
  }

  /** Floating point arithmetic, apart from remainders: the operations at the precision of a type, and the
      rounding to single precision. */
  datatype Alu = Alu(bin: (BinCode, Kind, Float, Float) -> Float, round: Float -> Float)

  predicate Operands(op: BinCode, v: Value, w: Value) {
    ((v.Bits? && w.Bits?) || (v.Real? && w.Real?)) && BinaryType(op, v.kind, w.kind).Some?
  }

  /** The result of a binary instruction, none when it throws: an int32 is sign extended to meet a native int or
      a pointer, and remainders of floating point numbers round the quotient towards zero (III.3.55). */
  function BinaryResult(op: BinCode, v: Value, w: Value, alu: Alu): Option<Value>
    requires Operands(op, v, w)
  {
    var k := BinaryType(op, v.kind, w.kind).value;
    if v.Real? then
      Some(Real(k, if op == Rem then FloatRemainder(v.f, w.f, false) else alu.bin(op, k, v.f, w.f)))
    else
      (match IntegerResult(op, Signed(v), Signed(w), Width(k))
       case None => None
       case Some(b) => Some(Bits(k, b)))
  }

  // ----- instructions -----

  datatype Inst = Nop
                | Pop
                | Dup
                | Ret
                | Ldc(t: StackType, v: Value)
                | Ldarg(i: nat)
                | Starg(i: nat)
                | Ldloc(i: nat)
                | Stloc(i: nat)
                | Br(target: nat)
                | BrBool(b: bool, target: nat)
                | BrCompare(c: Code, target: nat)
                | Compare(c: Code)
                | Binary(op: BinCode)
                | Switch(targets: seq<nat>)

  /** Argument, local and return types of a method. */
  datatype Signature = Signature(args: seq<VarType>, locals: seq<VarType>, ret: Option<VarType>)

  // ----- the stack machine -----

  datatype State = Running(ip: nat, stack: seq<Value>, args: seq<Value>, locals: seq<Value>)
                 | Returned(result: Option<Value>)
                 | Thrown
                 | Stuck

  function Truth(v: Value): bool {
    v.Bits? && v.bits != 0
  }

  ghost predicate CanStore(v: Value, vt: VarType) {
    exists t :: HasType(v, t) && Storable(t, vt)
  }

  /** One instruction. */
  ghost function Step(prog: seq<Inst>, sig: Signature, alu: Alu, s: State): State
    requires s.Running?
  {
    if s.ip >= |prog| then Stuck else
    var n, next := |s.stack|, s.(ip := s.ip + 1);
    match prog[s.ip]
    case Nop => next
    case Pop => if n < 1 then Stuck else next.(stack := s.stack[..n - 1])
    case Dup => if n < 1 then Stuck else next.(stack := s.stack + [s.stack[n - 1]])
    case Ret =>
      if sig.ret.None? then Returned(None)
      else if n < 1 || !CanStore(s.stack[n - 1], sig.ret.value) then Stuck
      else Returned(Some(Stored(s.stack[n - 1], sig.ret.value, alu.round)))
    case Ldc(t, v) => next.(stack := s.stack + [v])
    case Ldarg(i) => if i < |s.args| then next.(stack := s.stack + [s.args[i]]) else Stuck
    case Ldloc(i) => if i < |s.locals| then next.(stack := s.stack + [s.locals[i]]) else Stuck
    case Starg(i) =>
      if n < 1 || i >= |s.args| || i >= |sig.args| || !CanStore(s.stack[n - 1], sig.args[i]) then Stuck
      else next.(stack := s.stack[..n - 1], args := s.args[i := Stored(s.stack[n - 1], sig.args[i], alu.round)])
    case Stloc(i) =>
      if n < 1 || i >= |s.locals| || i >= |sig.locals| || !CanStore(s.stack[n - 1], sig.locals[i]) then Stuck
      else next.(stack := s.stack[..n - 1], locals := s.locals[i := Stored(s.stack[n - 1], sig.locals[i], alu.round)])
    case Br(target) => s.(ip := target)
    case BrBool(b, target) =>
      if n < 1 then Stuck else s.(ip := if Truth(s.stack[n - 1]) == b then target else s.ip + 1,
        stack := s.stack[..n - 1])
    case BrCompare(c, target) =>
      if n < 2 then Stuck
      else s.(ip := if Holds(c, s.stack[n - 2], s.stack[n - 1]) then target else s.ip + 1, stack := s.stack[..n - 2])
    case Compare(c) =>
      if n < 2 then Stuck
      else next.(stack := s.stack[..n - 2] + [Bits(I4, if Holds(c, s.stack[n - 2], s.stack[n - 1]) then 1 else 0)])
    case Binary(op) =>
      if n < 2 || !Operands(op, s.stack[n - 2], s.stack[n - 1]) then Stuck else
      (match BinaryResult(op, s.stack[n - 2], s.stack[n - 1], alu)
       case None => Thrown
       case Some(v) => next.(stack := s.stack[..n - 2] + [v]))
    case Switch(targets) =>
      if n < 1 || !s.stack[n - 1].Bits? then Stuck
      else
        var k := s.stack[n - 1].bits;
        s.(ip := if 0 <= k < |targets| then targets[k] else s.ip + 1, stack := s.stack[..n - 1])
  }

  /** n instructions, or as many as there are until the method ends. */
  ghost function Run(prog: seq<Inst>, sig: Signature, alu: Alu, s: State, n: nat): State
    decreases n
  {
    if n == 0 || !s.Running? then s else Run(prog, sig, alu, Step(prog, sig, alu, s), n - 1)
  }
}

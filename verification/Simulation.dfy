/** The generated code does, step by step, what the stack machine does. */
module Simulation {
  import opened Options
  import opened Cil
  import opened SlotCode
  import opened Translation
  import opened Arithmetic

  // ----- comparisons -----

  /** The generated condition, for operands of types t and u with values v and w. */
  predicate Tests(c: Code, t: StackType, u: StackType, v: Value, w: Value) {
    Test(CompareCond(c, Slot(0, t), Slot(1, u)), Frame(map[Slot(0, t) := ToC(v), Slot(1, u) := ToC(w)], [], []))
  }

  /** Both operands are cast to the left one's type: that cuts a native int down to an int32. */
  predicate CutsRight(t: StackType, u: StackType) {
    t.kind == I4 && u.kind == Ptr
  }

  lemma CompareExact(c: Code, t: StackType, u: StackType, v: Value, w: Value)
    requires HasType(v, t) && HasType(w, u) && BinaryCompareValid(t.kind, u.kind, c) && !CutsRight(t, u)
    ensures Tests(c, t, u, v, w) <==> Holds(c, v, w)
  {
    hide WrapTo, Signed, HasType, ToC;
    OperandShapes(c, t, u, v, w);
    if v.Bits? {
      IntegerCompare(c, t, u, v, w);
    } else {
      FloatCompare(c, t, u, v, w);
    }
  }

  lemma OperandShapes(c: Code, t: StackType, u: StackType, v: Value, w: Value)
    requires HasType(v, t) && HasType(w, u) && BinaryCompareValid(t.kind, u.kind, c)
    ensures if t.kind == R4 || t.kind == R8
      then v.Real? && w.Real?
      else v.Bits? && w.Bits? && v.kind == t.kind && w.kind == u.kind
    ensures if v.Bits? then ToC(v).CNum? && ToC(w).CNum? else ToC(v) == CReal(v.f) && ToC(w) == CReal(w.f)
  {
  }

  lemma FloatCompare(c: Code, t: StackType, u: StackType, v: Value, w: Value)
    requires v.Real? && w.Real? && (t.kind == R4 || t.kind == R8) && ToC(v) == CReal(v.f) && ToC(w) == CReal(w.f)
    ensures Tests(c, t, u, v, w) <==> Holds(c, v, w)
  {
    hide ToC, FloatOrder;
  }

  lemma IntegerCompare(c: Code, t: StackType, u: StackType, v: Value, w: Value)
    requires HasType(v, t) && HasType(w, u) && BinaryCompareValid(t.kind, u.kind, c) && !CutsRight(t, u)
    requires v.Bits? && w.Bits? && v.kind == t.kind && w.kind == u.kind && ToC(v).CNum? && ToC(w).CNum?
    ensures Tests(c, t, u, v, w) <==> Holds(c, v, w)
  {
    hide WrapTo, Signed, ToC, HasType, Wrap, BinaryCompareValid;
    CastKinds(c, t.kind, u.kind);
    SignedCast(t.kind, v, t);
    SignedCast(t.kind, w, u);
    UnsignedCast(t.kind, v, t);
    UnsignedCast(t.kind, w, u);
    SignedBits(v, t);
    SignedBits(w, u);
    EqualEitherWay(v, w, t, u);
  }

  lemma CastKinds(c: Code, k: Kind, l: Kind)
    requires BinaryCompareValid(k, l, c) && !(k == I4 && l == Ptr)
    ensures k == l || (k != I4 && k != R4 && k != R8 && k != ValueType && l != I8 && l != Obj) || k == R4 || k == R8
    ensures k == I4 || k == I8 ==> l == k
    ensures k == Obj ==> l == Obj
    ensures k != l && !EqualityCode(c) && k != R4 && k != R8 ==> k == Ptr && l == I4
  {
  }

  /** Signed and unsigned order agree on equality. */
  lemma EqualEitherWay(v: Value, w: Value, t: StackType, u: StackType)
    requires HasType(v, t) && HasType(w, u) && v.Bits? && w.Bits?
    ensures UnsignedOrder(v, w) == Equal <==> Signed(v) == Signed(w)
  {
    hide HasType, SignedWrap;
    SignedBits(v, t);
    SignedBits(w, u);
  }

  lemma SignedBits(v: Value, t: StackType)
    requires HasType(v, t) && v.Bits?
    ensures Wrap(Signed(v), Width(v.kind)) == v.bits
    ensures -(Width(v.kind) / 2) <= Signed(v) < Width(v.kind) / 2
  {
  }

  /** A cast to the signed type of kind k, at least as wide as the operand's. */
  lemma SignedCast(k: Kind, v: Value, t: StackType)
    requires HasType(v, t) && v.Bits? && (v.kind == k || (k != I4 && k != R4 && k != R8 && k != ValueType))
    ensures SignedType(k).Some? && ToC(v).CNum? && WrapTo(SignedType(k).value, ToC(v).n) == Signed(v)
  {
    SignedBits(v, t);
    WrapAgain(v.bits, Width(v.kind));
  }

  lemma WrapAgain(n: int, w: int)
    requires w == B32 || w == B64
    ensures SignedWrap(SignedWrap(n, w), w) == SignedWrap(n, w) && SignedWrap(SignedWrap(n, w), B64) == SignedWrap(n, w)
  {
    var m := SignedWrap(n, w);
    assert -(w / 2) <= m < w / 2;
    if m < 0 {
      assert m % w == m + w && m % B64 == m + B64;
    }
  }

  lemma UnsignedCast(k: Kind, v: Value, t: StackType)
    requires HasType(v, t) && v.Bits? && (v.kind == k || (k != I4 && k != R4 && k != R8 && k != ValueType))
    ensures UnsignedType(k).Some? && ToC(v).CNum?
    ensures WrapTo(UnsignedType(k).value, ToC(v).n) == if k == I4 then v.bits else Wrap(Signed(v), B64)
  {
    SignedBits(v, t);
  }

  /** The generated comparison is right for all operands exactly when it does not compare an int32 on the left
      with a native int on the right. */
  lemma CompareRightWhen(c: Code, t: StackType, u: StackType)
    requires BinaryCompareValid(t.kind, u.kind, c) && t.typeName == "" == u.typeName
    ensures (forall v, w :: HasType(v, t) && HasType(w, u) ==> (Tests(c, t, u, v, w) <==> Holds(c, v, w))) <==>
      !CutsRight(t, u)
  {
    if CutsRight(t, u) {
      var (v, w) := WrongOperands(c);
      WrongOperandsDiffer(c, t, u);
      assert HasType(v, t) && HasType(w, u) && Tests(c, t, u, v, w) != Holds(c, v, w);
    } else {
      forall v, w | HasType(v, t) && HasType(w, u) ensures Tests(c, t, u, v, w) <==> Holds(c, v, w) {
        CompareExact(c, t, u, v, w);
      }
    }
  }

  /** Operands for which the generated comparison of an int32 with a native int is wrong: the native int differs
      from zero only above its low 32 bits. */
  function WrongOperands(c: Code): (Value, Value) {
    match c
    case Bgt | Cgt | Ble => (Bits(I4, 0), Bits(Ptr, B64 - B32))
    case BgtUn | CgtUn | BleUn => (Bits(I4, 1), Bits(Ptr, B32))
    case _ => (Bits(I4, 0), Bits(Ptr, B32))
  }

  lemma WrongOperandsDiffer(c: Code, t: StackType, u: StackType)
    requires CutsRight(t, u)
    ensures Tests(c, t, u, WrongOperands(c).0, WrongOperands(c).1) != Holds(c, WrongOperands(c).0, WrongOperands(c).1)
  {
    hide WrapTo, Signed, Wrap;
    WrongNumbers();
  }

  lemma WrongNumbers()
    ensures WrapTo(CInt32, 0) == WrapTo(CUInt32, 0) == WrapTo(CInt32, B32) == WrapTo(CUInt32, B32) == 0
    ensures WrapTo(CInt32, B64 - B32) == 0
    ensures WrapTo(CUInt32, 1) == 1 && Wrap(0, B64) == 0 && Wrap(1, B64) == 1 && Wrap(B32, B64) == B32
    ensures Signed(Bits(I4, 0)) == 0 && Signed(Bits(I4, 1)) == 1 && Signed(Bits(Ptr, B32)) == B32
    ensures Signed(Bits(Ptr, B64 - B32)) == -B32
  {
  }

  // ----- which code is in the subset -----

  /** Operand types for which the generated arithmetic is wrong. Native ints have unsigned temporaries, so they are
      divided without sign. An int32 cast to its own unsigned type is not sign extended. The remainder of the
      runtime rounds the quotient to the nearest, and it takes no operands of different precisions; neither do the
      functions for sums and differences. */
  predicate WrongTypes(op: BinCode, k: Kind, l: Kind) {
    match op
    case Add | Sub => IsFloat(k) && k != l
    case Div => k == Ptr || l == Ptr
    case Rem => IsFloat(k) || k == Ptr || l == Ptr
    case DivUn | RemUn => k != l
    case _ => false
  }

  /** What ECMA-335 asks of an instruction beyond what the generator checks, and that it is no comparison that
      would be cut down and no arithmetic that would be wrong. */
  predicate Accepted(inst: Inst, st: Stack, sig: Signature) {
    var n := |st|;
    match inst
    case Ldc(t, v) => HasType(v, t)
    case Starg(i) => 1 <= n && i < |sig.args| && Storable(st[n - 1], sig.args[i])
    case Stloc(i) => 1 <= n && i < |sig.locals| && Storable(st[n - 1], sig.locals[i])
    case Ret => if sig.ret.None? then n == 0 else n == 1 && Storable(st[0], sig.ret.value)
    case BrBool(_, _) => 1 <= n && st[n - 1].kind in {I4, I8, Ptr, Ref, Obj}
    case Switch(_) => 1 <= n && st[n - 1].kind == I4
    case BrCompare(_, _) => 2 <= n && !CutsRight(st[n - 2], st[n - 1])
    case Compare(_) => 2 <= n && !CutsRight(st[n - 2], st[n - 1])
    case Binary(op) =>
      && 2 <= n && BinaryType(op, st[n - 2].kind, st[n - 1].kind).Some?
      && !WrongTypes(op, st[n - 2].kind, st[n - 1].kind)
    case _ => true
  }

  // ----- the relation between the two machines -----

  /** The contents of a variable of type vt whose value on the stack is v. */
  function VarToC(vt: VarType, v: Value): CValue {
    match v
    case Bits(_, _) => CNum(WrapTo(VarCType(vt), Signed(v)))
    case Real(_, f) => CReal(f)
    case Struct(name, content) => CAggregate(name, content)
  }

  /** For each stack entry, the temporary named by its index and type holds its value. */
  ghost predicate StackShown(st: Stack, stack: seq<Value>, temps: map<Slot, CValue>) {
    |stack| == |st| && forall i: nat :: i < |st| ==> EntryShown(st, stack, temps, i)
  }

  ghost predicate EntryShown(st: Stack, stack: seq<Value>, temps: map<Slot, CValue>, i: nat)
    requires i < |st| == |stack|
  {
    HasType(stack[i], st[i]) && Slot(i, st[i]) in temps && temps[Slot(i, st[i])] == ToC(stack[i])
  }

  /** The numbers a small integer variable can hold. */
  predicate InRange(vt: VarType, n: int) {
    match vt
    case Int8 => -B8 / 2 <= n < B8 / 2
    case UInt8 => 0 <= n < B8
    case Int16 => -B16 / 2 <= n < B16 / 2
    case UInt16 => 0 <= n < B16
    case _ => true
  }

  ghost predicate VarShown(vt: VarType, v: Value, c: CValue) {
    HasType(v, ToStackType(vt)) && (v.Bits? ==> InRange(vt, Signed(v))) && c == VarToC(vt, v)
  }

  ghost predicate VarsShown(vts: seq<VarType>, vs: seq<Value>, cs: seq<CValue>) {
    |vs| == |cs| == |vts| && forall i :: 0 <= i < |vts| ==> VarShown(vts[i], vs[i], cs[i])
  }

  /** The states of the two machines at the same instruction. */
  ghost predicate Related(sig: Signature, st: Stack, s: State, t: CState) {
    && s.Running? && t.At? && s.ip == t.ip
    && StackShown(st, s.stack, t.f.temps)
    && VarsShown(sig.args, s.args, t.f.args) && VarsShown(sig.locals, s.locals, t.f.locals)
  }

  /** The states after the step: at a successor, or returned with the same result. */
  ghost predicate Agree(sig: Signature, st: Stack, s: State, t: CState) {
    match s
    case Running(_, _, _, _) => Related(sig, st, s, t)
    case Returned(r) =>
      && t.Done? && sig.ret.None? == r.None? == t.result.None?
      && (r.Some? ==> HasType(r.value, ToStackType(sig.ret.value)) && t.result.value == VarToC(sig.ret.value, r.value))
    case Thrown => false
    case Stuck => false
  }

  // ----- values move unchanged -----

  lemma TempHolds(v: Value, t: StackType, round: Float -> Float)
    requires HasType(v, t)
    ensures Cast(TempType(t), ToC(v), v.Real? && v.kind == R8, round) == ToC(v)
  {
    if v.Bits? {
      WrapAgain(v.bits, Width(v.kind));
    }
  }

  lemma TempRead(v: Value, w: Value, t: StackType)
    requires HasType(v, t) && HasType(w, t) && ToC(v) == ToC(w)
    ensures v == w
  {
    if v.Bits? {
      SignedBits(v, t);
      SignedBits(w, t);
    }
  }

  lemma VarLoads(v: Value, vt: VarType, c: CValue, round: Float -> Float)
    requires VarShown(vt, v, c)
    ensures Cast(TempType(ToStackType(vt)), c, vt == Float64, round) == ToC(v)
  {
    if v.Bits? {
      SignedBits(v, ToStackType(vt));
      hide Signed;
      if ToStackType(vt).kind == I4 {
        LoadSmall(vt, Signed(v));
      } else {
        LoadLarge(vt, Signed(v), v.bits);
      }
    }
  }

  lemma LoadSmall(vt: VarType, n: int)
    requires ToStackType(vt).kind == I4 && InRange(vt, n) && -(B32 / 2) <= n < B32 / 2
    ensures SignedWrap(WrapTo(VarCType(vt), n), B32) == n
  {
    WrapAgain(n, B32);
    match vt
    case Int8 => SignedIs(n, B8); SignedIs(n, B32);
    case Int16 => SignedIs(n, B16); SignedIs(n, B32);
    case UInt8 => SignedIs(n, B32);
    case UInt16 => SignedIs(n, B32);
    case Int32 => SignedIs(n, B32);
    case UInt32 => SignedOfWrap(n);
  }

  lemma SignedIs(n: int, w: int)
    requires 0 < w && -(w / 2) <= n < w / 2
    ensures SignedWrap(n, w) == n
  {
    if n < 0 {
      DivMod(-1, w, n + w);
    }
  }

  lemma SignedOfWrap(n: int)
    requires -(B32 / 2) <= n < B32 / 2
    ensures SignedWrap(Wrap(n, B32), B32) == n
  {
  }

  lemma LoadLarge(vt: VarType, n: int, bits: int)
    requires ToStackType(vt).kind in {I8, Ptr, Ref, Obj} && -(B64 / 2) <= n < B64 / 2 && Wrap(n, B64) == bits
    ensures SignedWrap(WrapTo(VarCType(vt), n), B64) == n && Wrap(WrapTo(VarCType(vt), n), B64) == bits
  {
    assert n < 0 ==> n % B64 == n + B64;
  }

  lemma VarStores(v: Value, t: StackType, vt: VarType, round: Float -> Float)
    requires HasType(v, t) && Storable(t, vt)
    ensures VarShown(vt, Stored(v, vt, round), Cast(VarCType(vt), ToC(v), t.kind == R8, round))
  {
    if v.Bits? {
      StoredHasType(v, t, vt, round);
      StoredBits(v, t, vt, round);
      hide HasType, ToStackType, Stored, Signed;
    }
  }

  lemma StoredBits(v: Value, t: StackType, vt: VarType, round: Float -> Float)
    requires HasType(v, t) && Storable(t, vt) && v.Bits?
    ensures Stored(v, vt, round).Bits? && ToC(v).CNum?
    ensures InRange(vt, Signed(Stored(v, vt, round)))
    ensures WrapTo(VarCType(vt), ToC(v).n) == WrapTo(VarCType(vt), Signed(Stored(v, vt, round)))
  {
    LowBits(v, t);
    var n := ToC(v).n;
    match vt
    case Int8 => Store8(n, v.bits);
    case Int16 => Store16(n, v.bits);
    case UInt8 => Store8(n, v.bits);
    case UInt16 => Store16(n, v.bits);
    case Int32 => Store32(n, v.bits);
    case UInt32 => Store32(n, v.bits);
    case _ => StoreWide(v, t, vt, round);
  }

  lemma StoreWide(v: Value, t: StackType, vt: VarType, round: Float -> Float)
    requires HasType(v, t) && Storable(t, vt) && v.Bits? && ToStackType(vt).kind != I4
    ensures Stored(v, vt, round).Bits? && ToC(v).CNum?
    ensures WrapTo(VarCType(vt), ToC(v).n) == WrapTo(VarCType(vt), Signed(Stored(v, vt, round)))
  {
    SignedBits(v, t);
    StoredHasType(v, t, vt, round);
    SignedBits(Stored(v, vt, round), ToStackType(vt));
  }

  /** The C++ number of a value has the same low bits as the value. */
  lemma LowBits(v: Value, t: StackType)
    requires HasType(v, t) && v.Bits?
    ensures ToC(v).CNum?
    ensures ToC(v).n % B8 == v.bits % B8 && ToC(v).n % B16 == v.bits % B16 && ToC(v).n % B32 == v.bits % B32
  {
    var n := ToC(v).n;
    assert n == v.bits || n == v.bits - Width(v.kind);
    hide ToC, HasType;
    LessWidth(v.bits);
  }

  lemma LessWidth(n: int)
    ensures (n - B32) % B8 == n % B8 == (n - B64) % B8
    ensures (n - B32) % B16 == n % B16 == (n - B64) % B16
    ensures (n - B32) % B32 == n % B32 == (n - B64) % B32
  {
    ModShift(n, B32 / B8, B8);
    ModShift(n, B64 / B8, B8);
    ModShift(n, B32 / B16, B16);
    ModShift(n, B64 / B16, B16);
    ModShift(n, 1, B32);
    ModShift(n, B32, B32);
  }

  lemma ModShift(n: int, q: int, w: int)
    requires 0 < w
    ensures (n - q * w) % w == n % w
  {
    DivMod(n / w - q, w, n % w);
    assert (n / w - q) * w + n % w == n - q * w;
  }

  lemma Store8(n: int, bits: int)
    requires n % B8 == bits % B8
    ensures var m := SignedWrap(n, B8);
      -(B8 / 2) <= m < B8 / 2 && Signed(Bits(I4, Wrap(SignedWrap(bits % B8, B8), B32))) == m == SignedWrap(m, B8)
    ensures var m := Wrap(n, B8); 0 <= m < B8 && Signed(Bits(I4, bits % B8)) == m == Wrap(m, B8)
  {
    var m := SignedWrap(n, B8);
    SignedIs(m, B8);
    SignedOfWrap(m);
  }

  lemma Store16(n: int, bits: int)
    requires n % B16 == bits % B16
    ensures var m := SignedWrap(n, B16);
      -(B16 / 2) <= m < B16 / 2 && Signed(Bits(I4, Wrap(SignedWrap(bits % B16, B16), B32))) == m == SignedWrap(m, B16)
    ensures var m := Wrap(n, B16); 0 <= m < B16 && Signed(Bits(I4, bits % B16)) == m == Wrap(m, B16)
  {
    var m := SignedWrap(n, B16);
    SignedIs(m, B16);
    SignedOfWrap(m);
  }

  lemma Store32(n: int, bits: int)
    requires n % B32 == bits % B32
    ensures SignedWrap(n, B32) == SignedWrap(Signed(Bits(I4, bits % B32)), B32)
    ensures Wrap(n, B32) == Wrap(Signed(Bits(I4, bits % B32)), B32)
  {
    var m := SignedWrap(n, B32);
    SignedIs(m, B32);
    assert m < 0 ==> m % B32 == n % B32;
  }
}

/** The generated arithmetic against the binary instructions. */
module Operators {
  import opened Options
  import opened Arithmetic
  import opened Cil
  import opened SlotCode
  import opened Translation
  import opened Simulation

  /** The generator takes the operand types of the standard, and floating point operands of div.un and rem.un
      besides. */
  lemma TablesAgree(op: BinCode, k: Kind, l: Kind)
    ensures ResultType(k, l, op) ==
      if IsFloat(k) && IsFloat(l) && (op == DivUn || op == RemUn) then Some(if k == l then k else R8)
      else BinaryType(op, k, l)
  {
  }

  /** Operands for which the generated operator is undefined: a divisor of zero, and a signed quotient or product
      that does not fit. */
  predicate Unsafe(op: BinCode, v: Value, w: Value) {
    && v.Bits? && w.Bits?
    && match op
       case Mul => v.kind == w.kind && v.kind in {I4, I8} && !InWidth(Signed(v) * Signed(w), Width(v.kind))
       case Div | Rem => w.bits == 0 || (Signed(v) == -Width(v.kind) / 2 && Signed(w) == -1)
       case DivUn | RemUn => w.bits == 0
       case _ => false
  }

  /** A number that two's complement of width w can hold. */
  predicate InWidth(n: int, w: int) {
    -w / 2 <= n < w / 2
  }

  /** The value that the code for a binary instruction assigns to its result. */
  function Assigned(op: BinCode, lhs: Slot, rhs: Slot, temps: map<Slot, CValue>, alu: Alu): Option<CValue>
    requires BinaryType(op, lhs.t.kind, rhs.t.kind).Some?
  {
    var t := Basic(BinaryType(op, lhs.t.kind, rhs.t.kind).value);
    var code := BinaryCode(op, t.kind, lhs, rhs);
    match ValueOf(code, temps, alu)
    case None => None
    case Some(c) => Some(Cast(TempType(t), c, TypeOf(code) == CDouble, alu.round))
  }

  /** The temporaries hold the operands. */
  ghost predicate Holding(lhs: Slot, rhs: Slot, temps: map<Slot, CValue>, v: Value, w: Value) {
    && HasType(v, lhs.t) && lhs in temps && temps[lhs] == ToC(v)
    && HasType(w, rhs.t) && rhs in temps && temps[rhs] == ToC(w)
  }

  // ----- integers of a C++ type -----

  /** The type of the temporaries for integer results. */
  predicate Computes(ct: CType, w: int) {
    (ct == CInt32 && w == B32) || (ct == CInt64 && w == B64) || (ct == CUIntPtr && w == B64)
  }

  /** An operand in the type in which the operator computes: the signed number itself, or what it is without
      sign. */
  lemma OperandIs(ct: CType, w: int, v: Value, t: StackType)
    requires Computes(ct, w) && HasType(v, t) && v.Bits? && (ct == CUIntPtr || TempType(t) == ct)
    ensures ToC(v).CNum? && WrapTo(ct, ToC(v).n) == WrapTo(ct, Signed(v)) && Wrap(ToC(v).n, w) == Wrap(Signed(v), w)
    ensures IsSigned(ct) ==> WrapTo(ct, ToC(v).n) == Signed(v) && InWidth(Signed(v), w)
    ensures !IsSigned(ct) ==> WrapTo(ct, ToC(v).n) == Wrap(Signed(v), w)
  {
    SignedBits(v, t);
  }

  /** The number of a result. */
  lemma ResultIs(ct: CType, w: int, k: Kind, b: int)
    requires Computes(ct, w) && TempType(Basic(k)) == ct && 0 <= b < w
    ensures ToC(Bits(k, b)) == CNum(WrapTo(ct, b))
  {
  }

  /** What a type holds of a number depends on the number's low bits only. */
  lemma WrapLow(ct: CType, w: int, n: int)
    requires Computes(ct, w)
    ensures WrapTo(ct, Wrap(n, w)) == WrapTo(ct, n) == WrapTo(ct, WrapTo(ct, n)) && Wrap(WrapTo(ct, n), w) == Wrap(n, w)
    ensures WrapTo(ct, n) == n <==> if IsSigned(ct) then InWidth(n, w) else 0 <= n < w
  {
    ModShift(n, n / w, w);
    ModShift(n, n / w + 1, w);
  }

  lemma WrapSum(a: int, b: int, w: int)
    requires 0 < w
    ensures Wrap(Wrap(a, w) + Wrap(b, w), w) == Wrap(a + b, w) && Wrap(Wrap(a, w) - Wrap(b, w), w) == Wrap(a - b, w)
  {
    SumShift(a, a % w, a / w, b, b % w, b / w, w);
  }

  /** Multiples of w do not matter. */
  lemma SumShift(a: int, x: int, p: int, b: int, y: int, q: int, w: int)
    requires 0 < w && a == p * w + x && b == q * w + y
    ensures (a + b) % w == (x + y) % w && (a - b) % w == (x - y) % w
  {
    ModShift(a + b, p + q, w);
    ModShift(a - b, p - q, w);
    assert (p + q) * w == p * w + q * w && (p - q) * w == p * w - q * w;
  }

  lemma WrapProduct(a: int, b: int, w: int)
    requires 0 < w
    ensures Wrap(Wrap(a, w) * Wrap(b, w), w) == Wrap(a * b, w)
  {
    WrapFactor(a, b, w);
    WrapFactor(b, a % w, w);
    assert a * b == b * a && (a % w) * b == b * (a % w) && (b % w) * (a % w) == (a % w) * (b % w);
  }

  lemma WrapFactor(a: int, b: int, w: int)
    requires 0 < w
    ensures Wrap((a % w) * b, w) == Wrap(a * b, w)
  {
    var q := a / w;
    ModShift(a * b, q * b, w);
    assert a == q * w + a % w;
    calc {
      a * b - (q * b) * w;
      == { assert a * b == (q * w + a % w) * b == (q * w) * b + (a % w) * b; }
      (q * w) * b + (a % w) * b - (q * b) * w;
      == { assert (q * w) * b == (q * b) * w; }
      (a % w) * b;
    }
  }

  /** Wrapping sums and differences. */
  lemma SafeExact(op: BinCode, ct: CType, w: int, m: int, n: int, x: int, y: int)
    requires Computes(ct, w) && Wrap(m, w) == Wrap(x, w) && Wrap(n, w) == Wrap(y, w) && (op == Add || op == Sub)
    ensures IntegerResult(op, x, y, w).Some? && Safe(op, ct, m, n) == WrapTo(ct, IntegerResult(op, x, y, w).value)
  {
    WrapSum(x, y, w);
  }

  /** Products and quotients of signed numbers, and products of unsigned ones. */
  lemma TimesExact(ct: CType, w: int, m: int, n: int, x: int, y: int)
    requires Computes(ct, w)
    requires if IsSigned(ct) then m == x && n == y else m == Wrap(x, w) && n == Wrap(y, w)
    ensures IntegerResult(Mul, x, y, w).Some?
    ensures Operate(Times, ct, m, n) ==
      if IsSigned(ct) && !InWidth(x * y, w) then None else Some(WrapTo(ct, IntegerResult(Mul, x, y, w).value))
  {
    WrapProduct(x, y, w);
    hide Wrap, WrapTo;
    WrapLow(ct, w, m * n);
    WrapLow(ct, w, x * y);
  }

  lemma QuotientSmall(m: int, n: int)
    requires n != 0
    ensures if m <= 0 then m <= Quotient(m, n) <= -m else -m <= Quotient(m, n) <= m
    ensures Quotient(m, n) == -m <==> m == 0 || n == -1
  {
    NatQuotient(if 0 <= m then m else -m, n);
  }

  lemma NatQuotient(a: int, n: int)
    requires 0 <= a && n != 0
    ensures -a <= a / n <= a && (0 < n ==> 0 <= a / n)
    ensures (a / n == a <==> a == 0 || n == 1) && (a / n == -a <==> a == 0 || n == -1)
  {
    if 0 < n {
      PositiveQuotient(a, n);
    } else {
      PositiveQuotient(a, -n);
      NegativeDivisor(a, -n);
    }
  }

  lemma PositiveQuotient(a: int, n: int)
    requires 0 <= a && 0 < n
    ensures 0 <= a / n <= a && (a / n == a <==> a == 0 || n == 1)
  {
    Multiples(a, n);
    var q := a / n;
    Arithmetic.Times(1, n, q);
    if 2 <= n {
      Arithmetic.Times(2, n, q);
      assert q * n == n * q;
    }
  }

  lemma NegativeDivisor(a: int, n: int)
    requires 0 <= a && 0 < n
    ensures a / (-n) == -(a / n)
  {
    var q, r := a / (-n), a % (-n);
    assert a == q * (-n) + r && 0 <= r < n;
    assert q * (-n) == (-q) * n;
    DivMod(-q, n, r);
  }

  lemma OverExact(ct: CType, w: int, x: int, y: int)
    requires Computes(ct, w) && IsSigned(ct) && InWidth(x, w) && InWidth(y, w)
    ensures y == 0
      || (x == -w / 2 && y == -1) || (IntegerResult(Div, x, y, w).Some? && IntegerResult(Rem, x, y, w).Some?)
    ensures Operate(Over, ct, x, y) ==
      if y == 0 || (x == -w / 2 && y == -1) then None else Some(WrapTo(ct, IntegerResult(Div, x, y, w).value))
    ensures Operate(Modulo, ct, x, y) ==
      if y == 0 || (x == -w / 2 && y == -1) then None else Some(WrapTo(ct, IntegerResult(Rem, x, y, w).value))
  {
    hide Quotient, Remainder, WrapTo, Wrap;
    if y != 0 {
      QuotientSmall(x, y);
      RemainderSmall(x, y);
      var q, r := Quotient(x, y), Remainder(x, y);
      WrapLow(ct, w, q);
      WrapLow(ct, w, r);
    }
  }

  lemma RemainderSmall(m: int, n: int)
    requires n != 0
    ensures if m <= 0 then m <= Remainder(m, n) <= 0 else 0 <= Remainder(m, n) <= m
  {
  }

  /** Quotients of unsigned numbers; the type is that of the operands. */
  lemma UnsignedOver(cu: CType, w: int, x: int, y: int)
    requires (cu == CUInt32 && w == B32) || ((cu == CUInt64 || cu == CUIntPtr) && w == B64)
    requires 0 <= x < w && 0 <= y < w
    ensures Operate(Over, cu, x, y) == (if y == 0 then None else Some(x / y)) && (y != 0 ==> 0 <= x / y < w)
  {
    if y != 0 {
      NatQuotient(x, y);
    }
  }

  /** An operand of an unsigned division. */
  lemma UnsignedOperand(s: Slot, temps: map<Slot, CValue>, alu: Alu, v: Value)
    requires HasType(v, s.t) && v.Bits? && s in temps && temps[s] == ToC(v)
    ensures UnsignedType(s.t.kind).Some? && TypeOf(AsUnsigned(s)) == UnsignedType(s.t.kind).value
    ensures ValueOf(AsUnsigned(s), temps, alu) == Some(CNum(v.bits)) && v.bits == Wrap(Signed(v), Width(v.kind))
    ensures 0 <= v.bits < Width(v.kind)
  {
    SignedBits(v, s.t);
    UnsignedCast(s.t.kind, v, s.t);
  }

  /** The formula for unsigned remainders, for operands m and n that count as x and y without sign. */
  lemma RemainderFormula(cu: CType, w: int, m: int, n: int, x: int, y: int)
    requires (cu == CUInt32 && w == B32) || ((cu == CUInt64 || cu == CUIntPtr) && w == B64)
    requires 0 <= x < w && 0 < y < w && Wrap(m, w) == x && Wrap(n, w) == y
    ensures Operate(Times, cu, WrapTo(cu, n), x / y) == Some(y * (x / y))
    ensures Operate(Minus, cu, WrapTo(cu, m), y * (x / y)) == Some(x % y)
  {
    RemainderParts(x, y);
    hide Wrap;
    WrapsTo(cu, w, m);
    WrapsTo(cu, w, n);
    WrapsTo(cu, w, y * (x / y));
    WrapsTo(cu, w, x - y * (x / y));
    WithinWrap(y * (x / y), w);
    WithinWrap(x - y * (x / y), w);
  }

  lemma RemainderParts(x: int, y: int)
    requires 0 <= x && 0 < y
    ensures 0 <= y * (x / y) <= x && x - y * (x / y) == x % y && 0 <= x % y <= x
  {
    Multiples(x, y);
    PositiveQuotient(x, y);
    assert y * (x / y) == (x / y) * y;
  }

  lemma WrapsTo(cu: CType, w: int, n: int)
    requires (cu == CUInt32 && w == B32) || ((cu == CUInt64 || cu == CUIntPtr) && w == B64)
    ensures WrapTo(cu, n) == Wrap(n, w) && !IsSigned(cu)
  {
  }

  lemma WithinWrap(n: int, w: int)
    requires 0 <= n < w
    ensures Wrap(n, w) == n
  {
  }

  /** Bitwise operations. */
  lemma BitsExact(op: BinCode, ct: CType, w: int, m: int, n: int, x: int, y: int)
    requires Computes(ct, w) && Wrap(m, w) == Wrap(x, w) && Wrap(n, w) == Wrap(y, w) && op in {And, Or, Xor}
    ensures IntegerResult(op, x, y, w).Some? && OnBits(op, ct, m, n) == WrapTo(ct, IntegerResult(op, x, y, w).value)
  {
  }

  lemma IntegerRange(op: BinCode, x: int, y: int, w: int)
    requires (w == B32 || w == B64) && IntegerResult(op, x, y, w).Some?
    ensures 0 <= IntegerResult(op, x, y, w).value < w
  {
    if op in {And, Or, Xor} {
      WordPow2();
    } else if (op == DivUn || op == RemUn) {
      UnsignedOver(if w == B32 then CUInt32 else CUInt64, w, Wrap(x, w), Wrap(y, w));
    }
  }

  // ----- the code for an instruction -----

  /** The types of operands, operation and result. */
  lemma IntegerTypes(op: BinCode, t: StackType, u: StackType, v: Value, w: Value)
    requires HasType(v, t) && HasType(w, u) && BinaryType(op, t.kind, u.kind).Some? && v.Bits?
    ensures var k := BinaryType(op, t.kind, u.kind).value; var ct := TempType(Basic(k));
      && w.Bits? && v.kind == t.kind && w.kind == u.kind && !IsFloat(t.kind) && !IsFloat(u.kind) && !IsFloat(k)
      && Computes(ct, Width(k)) && Common(TempType(t), TempType(u)) == ct
      && (ct == CUIntPtr || (TempType(t) == ct && TempType(u) == ct && t.kind == k && u.kind == k && k in {I4, I8}))
      && (t.kind == u.kind && !(op == Sub && t.kind == Ref) ==> k == t.kind)
  {
  }

  /** The code assigns b, the bit pattern that the instruction gives, or neither has a result. */
  ghost predicate CodeGives(op: BinCode, lhs: Slot, rhs: Slot, temps: map<Slot, CValue>, alu: Alu, v: Value, w: Value)
    requires BinaryType(op, lhs.t.kind, rhs.t.kind).Some? && v.Bits? && w.Bits?
  {
    var k := BinaryType(op, lhs.t.kind, rhs.t.kind).value;
    var b := IntegerResult(op, Signed(v), Signed(w), Width(k));
    if Unsafe(op, v, w) then Assigned(op, lhs, rhs, temps, alu) == None
    else b.Some? && Assigned(op, lhs, rhs, temps, alu) == Some(CNum(WrapTo(TempType(Basic(k)), b.value)))
  }

  lemma OperandValue(s: Slot, temps: map<Slot, CValue>, alu: Alu)
    requires s in temps
    ensures ValueOf(Var(s), temps, alu) == Some(temps[s]) && TypeOf(Var(s)) == TempType(s.t)
  {
  }

  lemma SumCode(op: BinCode, lhs: Slot, rhs: Slot, temps: map<Slot, CValue>, alu: Alu, v: Value, w: Value)
    requires Holding(lhs, rhs, temps, v, w) && BinaryType(op, lhs.t.kind, rhs.t.kind).Some? && v.Bits? && w.Bits?
    requires op == Add || op == Sub
    ensures CodeGives(op, lhs, rhs, temps, alu, v, w)
  {
    hide HasType, Signed, ToC, Safe, WrapTo, Wrap, BinaryType, IntegerResult, Common, TempType, Computes, Width;
    var k := BinaryType(op, lhs.t.kind, rhs.t.kind).value;
    var ct := TempType(Basic(k));
    OperandValue(lhs, temps, alu);
    OperandValue(rhs, temps, alu);
    IntegerTypes(op, lhs.t, rhs.t, v, w);
    OperandIs(ct, Width(k), v, lhs.t);
    OperandIs(ct, Width(k), w, rhs.t);
    SafeExact(op, ct, Width(k), ToC(v).n, ToC(w).n, Signed(v), Signed(w));
    WrapLow(ct, Width(k), IntegerResult(op, Signed(v), Signed(w), Width(k)).value);
  }

  lemma ProductCode(lhs: Slot, rhs: Slot, temps: map<Slot, CValue>, alu: Alu, v: Value, w: Value)
    requires Holding(lhs, rhs, temps, v, w) && BinaryType(Mul, lhs.t.kind, rhs.t.kind).Some? && v.Bits? && w.Bits?
    ensures CodeGives(Mul, lhs, rhs, temps, alu, v, w)
  {
    hide HasType, Signed, ToC, Operate, WrapTo, Wrap, BinaryType, IntegerResult, Common, TempType, Computes, Width;
    hide InWidth;
    var k := BinaryType(Mul, lhs.t.kind, rhs.t.kind).value;
    var ct := TempType(Basic(k));
    OperandValue(lhs, temps, alu);
    OperandValue(rhs, temps, alu);
    IntegerTypes(Mul, lhs.t, rhs.t, v, w);
    OperandIs(ct, Width(k), v, lhs.t);
    OperandIs(ct, Width(k), w, rhs.t);
    TimesExact(ct, Width(k), WrapTo(ct, ToC(v).n), WrapTo(ct, ToC(w).n), Signed(v), Signed(w));
    WrapLow(ct, Width(k), IntegerResult(Mul, Signed(v), Signed(w), Width(k)).value);
    SignedWhen(Mul, lhs.t.kind, rhs.t.kind);
  }

  /** The signed operations are those on two int32 or two int64. */
  lemma SignedWhen(op: BinCode, k: Kind, l: Kind)
    requires BinaryType(op, k, l).Some? && !IsFloat(k)
    ensures IsSigned(TempType(Basic(BinaryType(op, k, l).value))) <==> k == l && k in {I4, I8}
  {
  }

  lemma QuotientCode(op: BinCode, lhs: Slot, rhs: Slot, temps: map<Slot, CValue>, alu: Alu, v: Value, w: Value)
    requires Holding(lhs, rhs, temps, v, w) && BinaryType(op, lhs.t.kind, rhs.t.kind).Some? && v.Bits? && w.Bits?
    requires (op == Div || op == Rem) && !WrongTypes(op, lhs.t.kind, rhs.t.kind)
    ensures CodeGives(op, lhs, rhs, temps, alu, v, w)
  {
    hide HasType, Signed, ToC, Operate, WrapTo, Wrap, BinaryType, IntegerResult, Common, TempType, Computes, Width;
    hide InWidth;
    var k := BinaryType(op, lhs.t.kind, rhs.t.kind).value;
    var ct := TempType(Basic(k));
    OperandValue(lhs, temps, alu);
    OperandValue(rhs, temps, alu);
    IntegerTypes(op, lhs.t, rhs.t, v, w);
    QuotientTypes(op, lhs.t.kind, rhs.t.kind);
    OperandIs(ct, Width(k), v, lhs.t);
    OperandIs(ct, Width(k), w, rhs.t);
    SignedWhen(op, lhs.t.kind, rhs.t.kind);
    OverExact(ct, Width(k), Signed(v), Signed(w));
    SignedZero(w, rhs.t);
    if !Unsafe(op, v, w) {
      WrapLow(ct, Width(k), IntegerResult(op, Signed(v), Signed(w), Width(k)).value);
    }
  }

  lemma QuotientTypes(op: BinCode, k: Kind, l: Kind)
    requires BinaryType(op, k, l).Some? && (op == Div || op == Rem) && !WrongTypes(op, k, l) && !IsFloat(k)
    ensures k == l && k in {I4, I8}
  {
  }

  lemma SignedZero(v: Value, t: StackType)
    requires HasType(v, t) && v.Bits?
    ensures Signed(v) == 0 <==> v.bits == 0
    ensures Wrap(Signed(v), Width(v.kind)) == v.bits
  {
    SignedBits(v, t);
  }

  lemma BitsCode(op: BinCode, lhs: Slot, rhs: Slot, temps: map<Slot, CValue>, alu: Alu, v: Value, w: Value)
    requires Holding(lhs, rhs, temps, v, w) && BinaryType(op, lhs.t.kind, rhs.t.kind).Some? && v.Bits? && w.Bits?
    requires op in {And, Or, Xor}
    ensures CodeGives(op, lhs, rhs, temps, alu, v, w)
  {
    hide HasType, Signed, ToC, OnBits, WrapTo, Wrap, BinaryType, IntegerResult, Common, TempType, Computes, Width;
    hide InWidth;
    var k := BinaryType(op, lhs.t.kind, rhs.t.kind).value;
    var ct := TempType(Basic(k));
    OperandValue(lhs, temps, alu);
    OperandValue(rhs, temps, alu);
    IntegerTypes(op, lhs.t, rhs.t, v, w);
    OperandIs(ct, Width(k), v, lhs.t);
    OperandIs(ct, Width(k), w, rhs.t);
    var m, n := ToC(v).n, ToC(w).n;
    WrapLow(ct, Width(k), m);
    WrapLow(ct, Width(k), n);
    BitsExact(op, ct, Width(k), WrapTo(ct, m), WrapTo(ct, n), Signed(v), Signed(w));
    WrapLow(ct, Width(k), IntegerResult(op, Signed(v), Signed(w), Width(k)).value);
  }

  lemma UnsignedTypes(op: BinCode, t: StackType)
    requires (op == DivUn || op == RemUn) && BinaryType(op, t.kind, t.kind).Some?
    ensures BinaryType(op, t.kind, t.kind) == Some(t.kind) && t.kind in {I4, I8, Ptr}
    ensures UnsignedType(t.kind).Some?
    ensures var cu := UnsignedType(t.kind).value;
      && ((cu == CUInt32 && Width(t.kind) == B32) || ((cu == CUInt64 || cu == CUIntPtr) && Width(t.kind) == B64))
      && Common(cu, cu) == cu && Common(TempType(t), cu) == cu && cu != CDouble && cu != CFloat
  {
  }

  /** The quotient of the unsigned operands. */
  lemma QuotientValue(lhs: Slot, rhs: Slot, temps: map<Slot, CValue>, alu: Alu, v: Value, w: Value)
    requires Holding(lhs, rhs, temps, v, w) && v.Bits? && w.Bits? && lhs.t.kind == rhs.t.kind
    requires lhs.t.kind in {I4, I8, Ptr}
    ensures var a := Infix(Over, AsUnsigned(lhs), AsUnsigned(rhs)); var cu := UnsignedType(lhs.t.kind);
      && cu.Some? && TypeOf(a) == cu.value
      && ValueOf(a, temps, alu) == if w.bits == 0 then None else Some(CNum(v.bits / w.bits))
  {
    hide HasType, Signed, ToC, Operate, WrapTo, Wrap, BinaryType, Common, TempType, Computes, Width, UnsignedType;
    hide AsUnsigned;
    var k := lhs.t.kind;
    BothUnsigned(k);
    UnsignedTypes(DivUn, lhs.t);
    var cu := UnsignedType(k).value;
    UnsignedOperand(lhs, temps, alu, v);
    UnsignedOperand(rhs, temps, alu, w);
    SameKinds(v, lhs.t);
    SameKinds(w, rhs.t);
    UnsignedOver(cu, Width(k), v.bits, w.bits);
    WrapsTo(cu, Width(k), v.bits);
    WrapsTo(cu, Width(k), w.bits);
    WithinWrap(v.bits, Width(k));
    WithinWrap(w.bits, Width(k));
  }

  lemma BothUnsigned(k: Kind)
    requires k in {I4, I8, Ptr}
    ensures BinaryType(DivUn, k, k) == BinaryType(RemUn, k, k) == Some(k)
  {
  }

  lemma SameKinds(v: Value, t: StackType)
    requires HasType(v, t) && v.Bits?
    ensures v.kind == t.kind && 0 <= v.bits < Width(v.kind)
  {
  }

  lemma UnsignedCode(op: BinCode, lhs: Slot, rhs: Slot, temps: map<Slot, CValue>, alu: Alu, v: Value, w: Value)
    requires Holding(lhs, rhs, temps, v, w) && BinaryType(op, lhs.t.kind, rhs.t.kind).Some? && v.Bits? && w.Bits?
    requires (op == DivUn || op == RemUn) && lhs.t.kind == rhs.t.kind
    ensures CodeGives(op, lhs, rhs, temps, alu, v, w)
  {
    hide HasType, Signed, ToC, ValueOf, TypeOf, WrapTo, Wrap, BinaryType, TempType, Width, UnsignedType, AsUnsigned;
    var k := lhs.t.kind;
    UnsignedTypes(op, lhs.t);
    SameKinds(v, lhs.t);
    SameKinds(w, rhs.t);
    SignedZero(v, lhs.t);
    SignedZero(w, rhs.t);
    QuotientValue(lhs, rhs, temps, alu, v, w);
    if op == RemUn {
      RemainderValue(lhs, rhs, temps, alu, v, w);
    }
  }

  lemma RemainderValue(lhs: Slot, rhs: Slot, temps: map<Slot, CValue>, alu: Alu, v: Value, w: Value)
    requires Holding(lhs, rhs, temps, v, w) && v.Bits? && w.Bits? && lhs.t.kind == rhs.t.kind
    requires lhs.t.kind in {I4, I8, Ptr}
    ensures var a := BinaryCode(RemUn, lhs.t.kind, lhs, rhs); var cu := UnsignedType(lhs.t.kind);
      && cu.Some? && TypeOf(a) == cu.value
      && ValueOf(a, temps, alu) == if w.bits == 0 then None else Some(CNum(v.bits % w.bits))
  {
    hide HasType, Signed, ToC, Operate, WrapTo, Wrap, BinaryType, Common, TempType, Width, UnsignedType, AsUnsigned;
    var k := lhs.t.kind;
    BothUnsigned(k);
    UnsignedTypes(RemUn, lhs.t);
    var cu := UnsignedType(k).value;
    UnsignedTypes(RemUn, rhs.t);
    OperandValue(lhs, temps, alu);
    OperandValue(rhs, temps, alu);
    QuotientValue(lhs, rhs, temps, alu, v, w);
    SameKinds(v, lhs.t);
    SameKinds(w, rhs.t);
    SignedZero(v, lhs.t);
    SignedZero(w, rhs.t);
    LowPattern(v, lhs.t);
    LowPattern(w, rhs.t);
    var x, y := v.bits, w.bits;
    var quotient := Infix(Over, AsUnsigned(lhs), AsUnsigned(rhs));
    var product := Infix(Times, Var(rhs), quotient);
    assert TypeOf(product) == cu && TypeOf(Infix(Minus, Var(lhs), product)) == cu;
    if y != 0 {
      RemainderFormula(cu, Width(k), ToC(v).n, ToC(w).n, x, y);
      RemainderParts(x, y);
      PositiveQuotient(x, y);
      Settled(cu, Width(k), x / y);
      Settled(cu, Width(k), y * (x / y));
      assert ValueOf(product, temps, alu) == Some(CNum(y * (x / y)));
    }
  }

  /** A number that an unsigned type holds is converted to itself. */
  lemma Settled(cu: CType, w: int, n: int)
    requires (cu == CUInt32 && w == B32) || ((cu == CUInt64 || cu == CUIntPtr) && w == B64)
    requires 0 <= n < w
    ensures WrapTo(cu, n) == n
  {
  }

  lemma LowPattern(v: Value, t: StackType)
    requires HasType(v, t) && v.Bits?
    ensures ToC(v).CNum? && Wrap(ToC(v).n, Width(v.kind)) == v.bits
  {
    SignedBits(v, t);
  }

  // ----- when the code is right -----

  lemma IntegerCode(op: BinCode, lhs: Slot, rhs: Slot, temps: map<Slot, CValue>, alu: Alu, v: Value, w: Value)
    requires Holding(lhs, rhs, temps, v, w) && BinaryType(op, lhs.t.kind, rhs.t.kind).Some? && v.Bits? && w.Bits?
    requires !WrongTypes(op, lhs.t.kind, rhs.t.kind)
    ensures CodeGives(op, lhs, rhs, temps, alu, v, w)
  {
    hide Holding, BinaryType, CodeGives;
    match op
    case Add | Sub => SumCode(op, lhs, rhs, temps, alu, v, w);
    case Mul => ProductCode(lhs, rhs, temps, alu, v, w);
    case Div | Rem => QuotientCode(op, lhs, rhs, temps, alu, v, w);
    case DivUn | RemUn => UnsignedCode(op, lhs, rhs, temps, alu, v, w);
    case And | Or | Xor => BitsCode(op, lhs, rhs, temps, alu, v, w);
  }

  lemma FloatCode(op: BinCode, lhs: Slot, rhs: Slot, temps: map<Slot, CValue>, alu: Alu, v: Value, w: Value)
    requires Holding(lhs, rhs, temps, v, w) && Operands(op, v, w) && BinaryType(op, lhs.t.kind, rhs.t.kind).Some?
    requires v.Real? && w.Real?
    requires !WrongTypes(op, lhs.t.kind, rhs.t.kind)
    ensures BinaryResult(op, v, w, alu).Some?
    ensures Assigned(op, lhs, rhs, temps, alu) == Some(ToC(BinaryResult(op, v, w, alu).value))
  {
    OperandValue(lhs, temps, alu);
    OperandValue(rhs, temps, alu);
  }

  /** The code assigns what the instruction gives, and it is undefined just when the operands are unsafe; the
      instruction throws for unsafe operands only. */
  lemma BinaryExact(op: BinCode, lhs: Slot, rhs: Slot, temps: map<Slot, CValue>, alu: Alu, v: Value, w: Value)
    requires Holding(lhs, rhs, temps, v, w) && BinaryType(op, lhs.t.kind, rhs.t.kind).Some?
    requires !WrongTypes(op, lhs.t.kind, rhs.t.kind)
    ensures Operands(op, v, w)
    ensures Unsafe(op, v, w) ==> Assigned(op, lhs, rhs, temps, alu) == None
    ensures !Unsafe(op, v, w) ==> BinaryResult(op, v, w, alu).Some?
    ensures !Unsafe(op, v, w) ==> Assigned(op, lhs, rhs, temps, alu) == Some(ToC(BinaryResult(op, v, w, alu).value))
  {
    hide Assigned, IntegerResult, ToC, TempType, Width, Signed;
    OperandKinds(op, lhs.t, rhs.t, v, w);
    if v.Bits? {
      IntegerCode(op, lhs, rhs, temps, alu, v, w);
      IntegerTypes(op, lhs.t, rhs.t, v, w);
      var k := BinaryType(op, v.kind, w.kind).value;
      if !Unsafe(op, v, w) {
        IntegerRange(op, Signed(v), Signed(w), Width(k));
        ResultIs(TempType(Basic(k)), Width(k), k, IntegerResult(op, Signed(v), Signed(w), Width(k)).value);
      }
    } else {
      FloatCode(op, lhs, rhs, temps, alu, v, w);
    }
  }

  lemma OperandKinds(op: BinCode, t: StackType, u: StackType, v: Value, w: Value)
    requires HasType(v, t) && HasType(w, u) && BinaryType(op, t.kind, u.kind).Some?
    ensures Operands(op, v, w) && v.kind == t.kind && w.kind == u.kind
  {
  }

  function Pair(t: StackType, u: StackType, v: Value, w: Value): map<Slot, CValue> {
    map[Slot(0, t) := ToC(v), Slot(1, u) := ToC(w)]
  }

  /** The code is right for these operands. */
  predicate RightFor(op: BinCode, t: StackType, u: StackType, v: Value, w: Value, alu: Alu)
    requires BinaryType(op, t.kind, u.kind).Some?
  {
    && Operands(op, v, w) && BinaryResult(op, v, w, alu).Some?
    && Assigned(op, Slot(0, t), Slot(1, u), Pair(t, u, v, w), alu) == Some(ToC(BinaryResult(op, v, w, alu).value))
  }

  /** The generated arithmetic is right for all operands that are safe exactly when the operand types are none of
      the wrong ones. */
  lemma BinaryRightWhen(op: BinCode, t: StackType, u: StackType, alu: Alu)
    requires BinaryType(op, t.kind, u.kind).Some? && t.typeName == "" == u.typeName
    ensures (forall v, w :: HasType(v, t) && HasType(w, u) && !Unsafe(op, v, w) ==> RightFor(op, t, u, v, w, alu))
      <==> !WrongTypes(op, t.kind, u.kind)
  {
    hide BinaryType, Unsafe, RightFor, HasType, WrongTypes;
    if WrongTypes(op, t.kind, u.kind) {
      var v, w := WrongOperand(op, t.kind, true), WrongOperand(op, u.kind, false);
      WrongOperandsTyped(op, t, u);
      WrongOperandsFail(op, t, u, alu);
      assert HasType(v, t) && HasType(w, u) && !Unsafe(op, v, w) && !RightFor(op, t, u, v, w, alu);
    } else {
      forall v, w | HasType(v, t) && HasType(w, u) && !Unsafe(op, v, w) ensures RightFor(op, t, u, v, w, alu) {
        SafeIsRight(op, t, u, v, w, alu);
      }
    }
  }

  lemma SafeIsRight(op: BinCode, t: StackType, u: StackType, v: Value, w: Value, alu: Alu)
    requires BinaryType(op, t.kind, u.kind).Some? && !WrongTypes(op, t.kind, u.kind)
    requires HasType(v, t) && HasType(w, u) && !Unsafe(op, v, w)
    ensures RightFor(op, t, u, v, w, alu)
  {
    hide BinaryType, HasType, WrongTypes, Unsafe, ToC, Assigned, BinaryResult, Operands;
    BinaryExact(op, Slot(0, t), Slot(1, u), Pair(t, u, v, w), alu, v, w);
  }

  /** Operands for which the code is wrong: -4 by 2 or 3 as native ints; the int32 -1 by 1 or 3, or 2^32 by it,
      together with a native int and without sign; 5 by 3 as floating point numbers. */
  function WrongOperand(op: BinCode, k: Kind, left: bool): Value {
    if IsFloat(k) then Real(k, Num(if left then 5.0 else 3.0))
    else
      var n := WrongNumber(op, k, left);
      Bits(k, if n < 0 then n + Width(k) else n)
  }

  function WrongNumber(op: BinCode, k: Kind, left: bool): int {
    match op
    case Div => if left then -4 else 2
    case Rem => if left then -4 else 3
    case DivUn => if k == I4 then -1 else if left then B32 else 1
    case _ => if k == I4 then -1 else if left then B32 else 3
  }

  lemma WrongOperandsTyped(op: BinCode, t: StackType, u: StackType)
    requires BinaryType(op, t.kind, u.kind).Some? && t.typeName == "" == u.typeName && WrongTypes(op, t.kind, u.kind)
    ensures var v, w := WrongOperand(op, t.kind, true), WrongOperand(op, u.kind, false);
      HasType(v, t) && HasType(w, u) && !Unsafe(op, v, w)
  {
  }

  lemma WrongOperandsFail(op: BinCode, t: StackType, u: StackType, alu: Alu)
    requires BinaryType(op, t.kind, u.kind).Some? && t.typeName == "" == u.typeName && WrongTypes(op, t.kind, u.kind)
    ensures var v, w := WrongOperand(op, t.kind, true), WrongOperand(op, u.kind, false);
      !RightFor(op, t, u, v, w, alu)
  {
    hide RightFor, WrongOperand, BinaryType;
    if IsFloat(t.kind) {
      FloatsFail(op, t, u, alu);
    } else if op == Div || op == Rem {
      NativeFails(op, t, u, alu);
    } else {
      WrongKinds(op, t, u);
      if op == DivUn { MixedQuotientFails(t, u, alu); } else { MixedRemainderFails(t, u, alu); }
    }
  }

  lemma FloatsFail(op: BinCode, t: StackType, u: StackType, alu: Alu)
    requires BinaryType(op, t.kind, u.kind).Some? && IsFloat(t.kind) && WrongTypes(op, t.kind, u.kind)
    ensures !RightFor(op, t, u, WrongOperand(op, t.kind, true), WrongOperand(op, u.kind, false), alu)
  {
    var v, w := WrongOperand(op, t.kind, true), WrongOperand(op, u.kind, false);
    var temps := Pair(t, u, v, w);
    OperandValue(Slot(0, t), temps, alu);
    OperandValue(Slot(1, u), temps, alu);
    assert Whole(5.0 / 3.0, true) == 2 && Whole(5.0 / 3.0, false) == 1;
    assert FloatRemainder(Num(5.0), Num(3.0), true) == Num(-1.0)
      && FloatRemainder(Num(5.0), Num(3.0), false) == Num(2.0);
  }

  lemma WrongSigned(op: BinCode, t: StackType, left: bool)
    requires op in {Div, Rem, DivUn, RemUn} && t.typeName == "" && (t.kind == I4 || t.kind == Ptr)
    ensures var v := WrongOperand(op, t.kind, left);
      v.Bits? && v.kind == t.kind && HasType(v, t) && Signed(v) == WrongNumber(op, t.kind, left)
  {
  }

  /** Native ints are divided without sign. */
  lemma NativeFails(op: BinCode, t: StackType, u: StackType, alu: Alu)
    requires BinaryType(op, t.kind, u.kind).Some? && t.typeName == "" == u.typeName && (op == Div || op == Rem)
    requires t.kind == Ptr || u.kind == Ptr
    ensures !RightFor(op, t, u, WrongOperand(op, t.kind, true), WrongOperand(op, u.kind, false), alu)
  {
    hide WrapTo, Wrap, Operate, IntegerResult, ToC, Signed, WrongOperand, HasType;
    var v, w := WrongOperand(op, t.kind, true), WrongOperand(op, u.kind, false);
    var temps := Pair(t, u, v, w);
    OperandValue(Slot(0, t), temps, alu);
    OperandValue(Slot(1, u), temps, alu);
    WrongSigned(op, t, true);
    WrongSigned(op, u, false);
    OperandIs(CUIntPtr, B64, v, t);
    OperandIs(CUIntPtr, B64, w, u);
    NativeNumbers();
  }

  lemma NativeNumbers()
    ensures Wrap(-4, B64) == B64 - 4 && Wrap(2, B64) == 2 && Wrap(3, B64) == 3
    ensures Operate(Over, CUIntPtr, B64 - 4, 2) == Some(B64 / 2 - 2) && IntegerResult(Div, -4, 2, B64) == Some(B64 - 2)
    ensures Operate(Modulo, CUIntPtr, B64 - 4, 3) == Some(0) && IntegerResult(Rem, -4, 3, B64) == Some(B64 - 1)
    ensures WrapTo(CUIntPtr, B64 / 2 - 2) == B64 / 2 - 2 && WrapTo(CUIntPtr, 0) == 0
    ensures ToC(Bits(Ptr, B64 - 2)) == CNum(B64 - 2) && ToC(Bits(Ptr, B64 - 1)) == CNum(B64 - 1)
  {
  }

  lemma WrongKinds(op: BinCode, t: StackType, u: StackType)
    requires BinaryType(op, t.kind, u.kind).Some? && WrongTypes(op, t.kind, u.kind) && !IsFloat(t.kind) && op != Div
    requires op != Rem
    ensures op == DivUn || op == RemUn
    ensures (t.kind == I4 && u.kind == Ptr) || (t.kind == Ptr && u.kind == I4)
  {
  }

  /** An int32 without sign is not the native int it stands for. */
  lemma MixedQuotientFails(t: StackType, u: StackType, alu: Alu)
    requires t.typeName == "" == u.typeName && ((t.kind == I4 && u.kind == Ptr) || (t.kind == Ptr && u.kind == I4))
    ensures BinaryType(DivUn, t.kind, u.kind) == Some(Ptr)
    ensures !RightFor(DivUn, t, u, WrongOperand(DivUn, t.kind, true), WrongOperand(DivUn, u.kind, false), alu)
  {
    hide WrapTo, Wrap, ValueOf, TypeOf, IntegerResult, ToC, Signed, HasType, AsUnsigned;
    var v, w := WrongOperand(DivUn, t.kind, true), WrongOperand(DivUn, u.kind, false);
    var temps := Pair(t, u, v, w);
    WrongSigned(DivUn, t, true);
    WrongSigned(DivUn, u, false);
    MixedQuotient(DivUn, t, u, alu);
    MixedNumbers();
    MixedResults();
  }

  lemma MixedRemainderFails(t: StackType, u: StackType, alu: Alu)
    requires t.typeName == "" == u.typeName && ((t.kind == I4 && u.kind == Ptr) || (t.kind == Ptr && u.kind == I4))
    ensures BinaryType(RemUn, t.kind, u.kind) == Some(Ptr)
    ensures !RightFor(RemUn, t, u, WrongOperand(RemUn, t.kind, true), WrongOperand(RemUn, u.kind, false), alu)
  {
    hide WrapTo, Wrap, ValueOf, TypeOf, IntegerResult, ToC, Signed, HasType, AsUnsigned;
    var v, w := WrongOperand(RemUn, t.kind, true), WrongOperand(RemUn, u.kind, false);
    var temps := Pair(t, u, v, w);
    WrongSigned(RemUn, t, true);
    WrongSigned(RemUn, u, false);
    MixedRemainder(t, u, alu);
    MixedNumbers();
    MixedResults();
  }

  /** What the formula computes for the operands. */
  lemma MixedRemainder(t: StackType, u: StackType, alu: Alu)
    requires t.typeName == "" == u.typeName && ((t.kind == I4 && u.kind == Ptr) || (t.kind == Ptr && u.kind == I4))
    ensures
      var temps := Pair(t, u, WrongOperand(RemUn, t.kind, true), WrongOperand(RemUn, u.kind, false));
      var code := BinaryCode(RemUn, Ptr, Slot(0, t), Slot(1, u));
      TypeOf(code) == CUIntPtr && ValueOf(code, temps, alu) == Some(CNum(if t.kind == I4 then B64 - B32 else B32 + 1))
  {
    hide WrapTo, Wrap, Operate, ToC, Signed, HasType, AsUnsigned;
    var v, w := WrongOperand(RemUn, t.kind, true), WrongOperand(RemUn, u.kind, false);
    var temps := Pair(t, u, v, w);
    OperandValue(Slot(0, t), temps, alu);
    WrongSigned(RemUn, t, true);
    OperandIs(CUIntPtr, B64, v, t);
    MixedProduct(t, u, alu);
    MixedNumbers();
  }

  lemma MixedProduct(t: StackType, u: StackType, alu: Alu)
    requires t.typeName == "" == u.typeName && ((t.kind == I4 && u.kind == Ptr) || (t.kind == Ptr && u.kind == I4))
    ensures
      var temps := Pair(t, u, WrongOperand(RemUn, t.kind, true), WrongOperand(RemUn, u.kind, false));
      var product := Infix(Times, Var(Slot(1, u)), Infix(Over, AsUnsigned(Slot(0, t)), AsUnsigned(Slot(1, u))));
      TypeOf(product) == CUIntPtr
        && ValueOf(product, temps, alu) == Some(CNum(if t.kind == I4 then B32 - 1 else B64 - 1))
  {
    hide WrapTo, Wrap, Operate, ToC, Signed, HasType, AsUnsigned, WrongOperand, Width;
    var v, w := WrongOperand(RemUn, t.kind, true), WrongOperand(RemUn, u.kind, false);
    var temps := Pair(t, u, v, w);
    OperandValue(Slot(1, u), temps, alu);
    WrongSigned(RemUn, u, false);
    OperandIs(CUIntPtr, B64, w, u);
    MixedNumbers();
    MixedQuotient(RemUn, t, u, alu);
  }

  /** The quotient of the operands as unsigned numbers of their own types. */
  lemma MixedQuotient(op: BinCode, t: StackType, u: StackType, alu: Alu)
    requires t.typeName == "" == u.typeName && ((t.kind == I4 && u.kind == Ptr) || (t.kind == Ptr && u.kind == I4))
    requires op == DivUn || op == RemUn
    ensures
      var temps := Pair(t, u, WrongOperand(op, t.kind, true), WrongOperand(op, u.kind, false));
      var quotient := Infix(Over, AsUnsigned(Slot(0, t)), AsUnsigned(Slot(1, u)));
      && TypeOf(quotient) == CUIntPtr
      && ValueOf(quotient, temps,
        alu) == Some(CNum(if t.kind == Ptr then 1 else if op == DivUn then B32 - 1 else (B32 - 1) / 3))
  {
    hide WrapTo, Wrap, Operate, ToC, Signed, HasType, AsUnsigned;
    var v, w := WrongOperand(op, t.kind, true), WrongOperand(op, u.kind, false);
    var temps := Pair(t, u, v, w);
    WrongSigned(op, t, true);
    WrongSigned(op, u, false);
    UnsignedOperand(Slot(0, t), temps, alu, v);
    UnsignedOperand(Slot(1, u), temps, alu, w);
    MixedNumbers();
  }

  lemma MixedNumbers()
    ensures forall n :: 0 <= n < B64 ==> WrapTo(CUIntPtr, n) == n
    ensures Wrap(-1, B64) == B64 - 1 && Wrap(3, B64) == 3 && Wrap(B32, B64) == B32 && Wrap(1, B64) == 1
    ensures Operate(Over, CUIntPtr, B32 - 1, 1) == Some(B32 - 1) && Operate(Over, CUIntPtr, B32, B32 - 1) == Some(1)
    ensures Operate(Over, CUIntPtr, B32 - 1, 3) == Some((B32 - 1) / 3)
    ensures Operate(Times, CUIntPtr, 3, (B32 - 1) / 3) == Some(B32 - 1)
    ensures Operate(Times, CUIntPtr, B64 - 1, 1) == Some(B64 - 1)
    ensures Operate(Minus, CUIntPtr, B64 - 1, B32 - 1) == Some(B64 - B32)
    ensures Operate(Minus, CUIntPtr, B32, B64 - 1) == Some(B32 + 1)
  {
  }

  lemma MixedResults()
    ensures IntegerResult(DivUn, -1, 1, B64) == Some(B64 - 1) && IntegerResult(DivUn, B32, -1, B64) == Some(0)
    ensures IntegerResult(RemUn, -1, 3, B64) == Some(0) && IntegerResult(RemUn, B32, -1, B64) == Some(B32)
    ensures forall b :: ToC(Bits(Ptr, b)) == CNum(b)
  {
  }
}

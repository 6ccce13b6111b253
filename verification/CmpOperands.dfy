/** x86-64 compare operands: the expressions built from them, the addresses those denote, and the operand pair
    that is logged (src/arch/x86_64.rs). */
module CmpOperands {
  import opened Base
  import opened PhysicalMemory
  import opened IntTypes
  import opened CmpTables
  import opened CmpEval
  import opened Bits
  import CmpLog

  datatype Register = Register(name: string, bytes: nat)

  type Scale8 = x: int | 0 <= x < 256
  type Disp32 = x: int | -0x8000_0000 <= x < 0x8000_0000

  datatype Operand =
    | Immediate(value: Value)
    | InRegister(reg: Register)
    | Absolute(at: Address)
    | MemDeref(base: Register)
    | MemDisp(base: Register, disp: Disp32)
    | MemIndexScale(index: Register, scale: Scale8)
    | MemIndexScaleDisp(index: Register, scale: Scale8, disp: Disp32)
    | MemBaseIndexScale(base: Register, index: Register, scale: Scale8)
    | MemBaseIndexScaleDisp(base: Register, index: Register, scale: Scale8, disp: Disp32)
    | Other
  {
    predicate InMemory() {
      MemDeref? || MemDisp? || MemIndexScale? || MemIndexScaleDisp? || MemBaseIndexScale? || MemBaseIndexScaleDisp?
    }

    predicate BaseAndIndex() {
      MemBaseIndexScale? || MemBaseIndexScaleDisp?
    }

    predicate Displaced() {
      MemDisp? || MemIndexScaleDisp? || MemBaseIndexScaleDisp?
    }
  }

  function Read(r: Register): CmpExpr {
    Reg(r.name, r.bytes)
  }

  function Byte(scale: Scale8): CmpExpr {
    Const(Typed(U8, scale))
  }

  /** The address below the dereference. Base plus index combines index and scale with an addition. */
  function AddressExpr(op: Operand): CmpExpr
    requires op.InMemory()
  {
    match op
    case MemDeref(base) => Read(base)
    case MemDisp(base, disp) => Add(Read(base), Const(Typed(I32, disp)))
    case MemIndexScale(index, scale) => Mul(Read(index), Byte(scale))
    case MemIndexScaleDisp(index, scale, disp) => Add(Mul(Read(index), Byte(scale)), Const(Typed(I32, disp)))
    case MemBaseIndexScale(base, index, scale) => Add(Read(base), Add(Read(index), Byte(scale)))
    case MemBaseIndexScaleDisp(base, index, scale, disp) =>
      Add(Add(Read(base), Add(Read(index), Byte(scale))), Const(Typed(I32, disp)))
  }

  function ToExpr(op: Operand, width: Option<nat>): Result<CmpExpr, EvalError> {
    match op
    case Immediate(v) => Ok(Const(v))
    case InRegister(reg) => Ok(Read(reg))
    case Absolute(at) => Ok(Addr(at))
    case Other => Err(Unsupported)
    case _ => Ok(Deref(AddressExpr(op), width))
  }

  // ---- effective addresses ----

  predicate HasBase(op: Operand) {
    op.MemDeref? || op.MemDisp? || op.BaseAndIndex()
  }

  /** The registers an address uses are known 64-bit registers. */
  predicate FullRegisters(m: Machine, op: Operand)
    requires op.InMemory()
  {
    (HasBase(op) ==> op.base.bytes == 8 && op.base.name in m.regs)
    && (!(op.MemDeref? || op.MemDisp?) ==> op.index.bytes == 8 && op.index.name in m.regs)
  }

  function BaseValue(m: Machine, op: Operand): int
    requires op.InMemory() && FullRegisters(m, op)
  {
    if HasBase(op) then m.regs[op.base.name] else 0
  }

  /** The index scaled the way the processor scales it. */
  function Scaled(m: Machine, op: Operand): int
    requires op.InMemory() && FullRegisters(m, op)
  {
    if op.MemDeref? || op.MemDisp? then 0 else m.regs[op.index.name] * op.scale
  }

  function Displacement(op: Operand): int {
    if op.Displaced() then op.disp else 0
  }

  /** base + index * scale + displacement. */
  function Exactly(m: Machine, op: Operand): int
    requires op.InMemory() && FullRegisters(m, op)
  {
    BaseValue(m, op) + Scaled(m, op) + Displacement(op)
  }

  /** The processor's address, modulo the address width. */
  function EffectiveAddress(m: Machine, op: Operand): Address
    requires op.InMemory() && FullRegisters(m, op)
  {
    Exactly(m, op) % ADDRESS_SPACE
  }

  /** What the address expression sums to over the integers. */
  function Sum(m: Machine, op: Operand): int
    requires op.InMemory() && FullRegisters(m, op)
  {
    BaseValue(m, op) + Displacement(op)
    + if op.BaseAndIndex() then m.regs[op.index.name] + op.scale else Scaled(m, op)
  }

  lemma ReadRegister(m: Machine, r: Register)
    requires r.bytes == 8 && r.name in m.regs
    ensures Simplify(m, Read(r)) == Ok(Typed(U64, m.regs[r.name]))
  {
    WrapIdentity(U64, m.regs[r.name]);
  }

  lemma AddStep(m: Machine, l: CmpExpr, r: CmpExpr, a: int, y: Value)
    requires Simplify(m, l) == Ok(Typed(U64, Wrap(U64, a))) && Simplify(m, r) == Ok(y)
    ensures Simplify(m, Add(l, r)) == Ok(Typed(U64, Wrap(U64, a + y.v)))
  {
    hide AddArm, Wrap;
    AddRefines(Typed(U64, Wrap(U64, a)), y);
    WrapSum(a, y.v);
  }

  lemma WrapSum(a: int, b: int)
    ensures Wrap(U64, Wrap(U64, a) + b) == Wrap(U64, a + b)
  {
    hide Wrap, Modulus, Congruent;
    WrapCongruent(U64, a);
    ShiftCongruent(b, Wrap(U64, a), a, Modulus(U64));
    WrapEqualIff(U64, b + Wrap(U64, a), b + a);
  }

  lemma AddWrapped(m: Machine, l: CmpExpr, r: CmpExpr, a: int, b: int)
    requires Simplify(m, l) == Ok(Typed(U64, Wrap(U64, a))) && Simplify(m, r) == Ok(Typed(U64, Wrap(U64, b)))
    ensures Simplify(m, Add(l, r)) == Ok(Typed(U64, Wrap(U64, a + b)))
  {
    hide Wrap;
    AddStep(m, l, r, a, Typed(U64, Wrap(U64, b)));
    WrapCongruent(U64, b);
    ShiftCongruent(a, Wrap(U64, b), b, Modulus(U64));
    WrapEqualIff(U64, a + Wrap(U64, b), a + b);
  }

  lemma MulStep(m: Machine, l: CmpExpr, r: CmpExpr, x: Value, y: Value)
    requires Simplify(m, l) == Ok(x) && Simplify(m, r) == Ok(y) && x.ty == U64
    ensures Simplify(m, Mul(l, r)) == Ok(Typed(U64, Wrap(U64, x.v * y.v)))
  {
    MulRefines(x, y);
  }

  lemma IndexPlusScale(m: Machine, index: Register, scale: Scale8)
    requires index.bytes == 8 && index.name in m.regs
    ensures Simplify(m, Add(Read(index), Byte(scale))) == Ok(Typed(U64, Wrap(U64, m.regs[index.name] + scale)))
  {
    ReadRegister(m, index);
    WrapIdentity(U64, m.regs[index.name]);
    AddStep(m, Read(index), Byte(scale), m.regs[index.name], Typed(U8, scale));
  }

  lemma BaseIndexSum(m: Machine, base: Register, index: Register, scale: Scale8)
    requires base.bytes == 8 && base.name in m.regs && index.bytes == 8 && index.name in m.regs
    ensures Simplify(m, Add(Read(base), Add(Read(index), Byte(scale))))
         == Ok(Typed(U64, Wrap(U64, m.regs[base.name] + m.regs[index.name] + scale)))
  {
    ReadRegister(m, base);
    WrapIdentity(U64, m.regs[base.name]);
    IndexPlusScale(m, index, scale);
    hide Wrap, Simplify;
    AddWrapped(m, Read(base), Add(Read(index), Byte(scale)), m.regs[base.name], m.regs[index.name] + scale);
  }

  lemma BaseAddress(m: Machine, op: Operand)
    requires (op.MemDeref? || op.MemDisp?) && FullRegisters(m, op)
    ensures Simplify(m, AddressExpr(op)) == Ok(Typed(U64, Wrap(U64, Sum(m, op))))
  {
    var x := m.regs[op.base.name];
    ReadRegister(m, op.base);
    WrapIdentity(U64, x);
    hide Wrap, Simplify;
    if op.MemDisp? {
      AddConst(m, Read(op.base), x, op.disp);
    }
  }

  lemma IndexAddress(m: Machine, op: Operand)
    requires (op.MemIndexScale? || op.MemIndexScaleDisp?) && FullRegisters(m, op)
    ensures Simplify(m, AddressExpr(op)) == Ok(Typed(U64, Wrap(U64, Sum(m, op))))
  {
    hide Wrap, Simplify;
    IndexTimesScale(m, op.index, op.scale);
    if op.MemIndexScaleDisp? {
      AddConst(m, Mul(Read(op.index), Byte(op.scale)), m.regs[op.index.name] * op.scale, op.disp);
    }
  }

  lemma BaseIndexAddress(m: Machine, op: Operand)
    requires op.BaseAndIndex() && FullRegisters(m, op)
    ensures Simplify(m, AddressExpr(op)) == Ok(Typed(U64, Wrap(U64, Sum(m, op))))
  {
    hide Wrap, Simplify;
    BaseIndexSum(m, op.base, op.index, op.scale);
    if op.MemBaseIndexScaleDisp? {
      AddConst(m, Add(Read(op.base), Add(Read(op.index), Byte(op.scale))),
               m.regs[op.base.name] + m.regs[op.index.name] + op.scale, op.disp);
    }
  }

  lemma AddressIsSum(m: Machine, op: Operand)
    requires op.InMemory() && FullRegisters(m, op)
    ensures Simplify(m, AddressExpr(op)) == Ok(Typed(U64, Wrap(U64, Sum(m, op))))
  {
    hide Wrap, Simplify, AddressExpr, Sum, FullRegisters;
    if op.MemDeref? || op.MemDisp? {
      BaseAddress(m, op);
    } else if op.BaseAndIndex() {
      BaseIndexAddress(m, op);
    } else {
      IndexAddress(m, op);
    }
  }

  lemma IndexTimesScale(m: Machine, index: Register, scale: Scale8)
    requires index.bytes == 8 && index.name in m.regs
    ensures Simplify(m, Mul(Read(index), Byte(scale))) == Ok(Typed(U64, Wrap(U64, m.regs[index.name] * scale)))
  {
    ReadRegister(m, index);
    MulStep(m, Read(index), Byte(scale), Typed(U64, m.regs[index.name]), Typed(U8, scale));
  }

  lemma AddConst(m: Machine, e: CmpExpr, a: int, disp: Disp32)
    requires Simplify(m, e) == Ok(Typed(U64, Wrap(U64, a)))
    ensures Simplify(m, Add(e, Const(Typed(I32, disp)))) == Ok(Typed(U64, Wrap(U64, a + disp)))
  {
    AddStep(m, e, Const(Typed(I32, disp)), a, Typed(I32, disp));
  }

  /** The address is the processor's, except that base-plus-index operands are right exactly when adding the scale to
      the index happens to equal multiplying by it, modulo the address width. */
  lemma AddressRightIff(m: Machine, op: Operand)
    requires op.InMemory() && FullRegisters(m, op)
    ensures Simplify(m, AddressExpr(op)) == Ok(Typed(U64, EffectiveAddress(m, op)))
       <==> op.BaseAndIndex()
            ==> Congruent(m.regs[op.index.name] + op.scale, m.regs[op.index.name] * op.scale, ADDRESS_SPACE)
  {
    AddressIsSum(m, op);
    EffectiveIff(m, op);
    SumIff(m, op);
    hide Simplify, AddressExpr, EffectiveAddress, Exactly, Wrap, Sum, Congruent;
  }

  lemma EffectiveIff(m: Machine, op: Operand)
    requires op.InMemory() && FullRegisters(m, op)
    ensures Wrap(U64, Sum(m, op)) == EffectiveAddress(m, op)
       <==> Congruent(Sum(m, op), Exactly(m, op), ADDRESS_SPACE)
  {
    WrapEqualIff(U64, Sum(m, op), Exactly(m, op));
    hide Sum, BaseValue, Scaled, Displacement;
  }

  lemma SumIff(m: Machine, op: Operand)
    requires op.InMemory() && FullRegisters(m, op)
    ensures Congruent(Sum(m, op), Exactly(m, op), ADDRESS_SPACE)
       <==> op.BaseAndIndex()
            ==> Congruent(m.regs[op.index.name] + op.scale, m.regs[op.index.name] * op.scale, ADDRESS_SPACE)
  {
    hide Congruent;
    if op.BaseAndIndex() {
      var x, y := m.regs[op.index.name] + op.scale, m.regs[op.index.name] * op.scale;
      ShiftCongruent(BaseValue(m, op) + Displacement(op), x, y, ADDRESS_SPACE);
    } else {
      Reflexive(Sum(m, op), ADDRESS_SPACE);
    }
  }

  /** For each scale of the instruction set: never with scale one, and otherwise for a single index. */
  lemma SmallScales(index: Address)
    ensures !Congruent(index + 1, index * 1, ADDRESS_SPACE)
    ensures Congruent(index + 2, index * 2, ADDRESS_SPACE) <==> index == 2
    ensures Congruent(index + 4, index * 4, ADDRESS_SPACE) <==> index == 0xAAAA_AAAA_AAAA_AAAC
    ensures Congruent(index + 8, index * 8, ADDRESS_SPACE) <==> index == 0x6DB6_DB6D_B6DB_6DB8
  {
    ScaleTwo(index);
    ScaleFour(index);
    ScaleEight(index);
  }

  lemma ScaleTwo(index: Address)
    ensures Congruent(index + 2, index * 2, ADDRESS_SPACE) <==> index == 2
  {
    if Congruent(index + 2, index * 2, ADDRESS_SPACE) {
      var k := Multiple(index + 2, index * 2, ADDRESS_SPACE);
    }
  }

  lemma ScaleFour(index: Address)
    ensures Congruent(index + 4, index * 4, ADDRESS_SPACE) <==> index == 0xAAAA_AAAA_AAAA_AAAC
  {
    if Congruent(index + 4, index * 4, ADDRESS_SPACE) {
      var k := Multiple(index + 4, index * 4, ADDRESS_SPACE);
    }
  }

  lemma ScaleEight(index: Address)
    ensures Congruent(index + 8, index * 8, ADDRESS_SPACE) <==> index == 0x6DB6_DB6D_B6DB_6DB8
  {
    if Congruent(index + 8, index * 8, ADDRESS_SPACE) {
      var k := Multiple(index + 8, index * 8, ADDRESS_SPACE);
    }
  }

  /** The register an address starts from: its width is the width of the address. */
  function Leading(op: Operand): Register
    requires op.InMemory()
  {
    if HasBase(op) then op.base else op.index
  }

  /** Addresses formed from narrower registers are never read: only a 64-bit address can be dereferenced. */
  lemma NarrowAddressNeverRead(m: Machine, op: Operand, width: Option<nat>)
    requires op.InMemory() && Leading(op).bytes != 8
    ensures Simplify(m, Deref(AddressExpr(op), width)).Err?
  {
    var e := AddressExpr(op);
    if Simplify(m, e).Ok? {
      ResultType(m, e);
      LeadingType(m, op);
    }
  }

  lemma LeadingType(m: Machine, op: Operand)
    requires op.InMemory() && Simplify(m, AddressExpr(op)).Ok?
    ensures Width(LeftType(m, AddressExpr(op))) == 8 * Leading(op).bytes
  {
    hide AddArm, MulArm, Wrap;
    var e := AddressExpr(op);
    var l := if op.Displaced() then e.left else e;
    assert LeftType(m, e) == LeftType(m, l);
    assert LeftType(m, l) == LeftType(m, Read(Leading(op)));
  }

  /** A memory operand with a right address is the integer at the processor's effective address. */
  lemma MemoryOperandReads(m: Machine, op: Operand, w: nat)
    requires op.InMemory() && FullRegisters(m, op) && OperandWidth(w)
    requires op.BaseAndIndex() ==>
               Congruent(m.regs[op.index.name] + op.scale, m.regs[op.index.name] * op.scale, ADDRESS_SPACE)
    ensures var e, a := ToExpr(op, Some(w)), EffectiveAddress(m, op);
            && e.Ok?
            && (var r := Simplify(m, e.value);
                && (r.Ok? <==> a in m.translate && Mapped(m.mem, m.translate[a], w))
                && (r.Ok? ==> UnsignedOf(r.value.ty, w) && IntegerAt(m.mem, m.translate[a], w, r.value.v)))
  {
    hide Simplify, AddressExpr, EffectiveAddress, IntegerAt, Mapped, Congruent;
    AddressRightIff(m, op);
    DerefReads(m, AddressExpr(op), Some(w));
  }

  /** The other operands: immediates are themselves, registers their low bytes, absolute operands the word there. */
  lemma PlainOperandReads(m: Machine, op: Operand, width: Option<nat>)
    ensures op.Immediate? ==> ToExpr(op, width).Ok? && Simplify(m, ToExpr(op, width).value) == Ok(op.value)
    ensures op.InRegister? ==>
              ToExpr(op, width).Ok? &&
              var r := Simplify(m, ToExpr(op, width).value);
              && (r.Ok? <==> op.reg.name in m.regs && OperandWidth(op.reg.bytes))
              && (r.Ok? ==> UnsignedOf(r.value.ty, op.reg.bytes)
                            && r.value.v == m.regs[op.reg.name] % Pow2(8 * op.reg.bytes))
    ensures op.Absolute? ==>
              ToExpr(op, width).Ok? &&
              var r := Simplify(m, ToExpr(op, width).value);
              && (r.Ok? <==> op.at in m.translate && Mapped(m.mem, m.translate[op.at], 8))
              && (r.Ok? ==> r.value.ty == U64 && IntegerAt(m.mem, m.translate[op.at], 8, r.value.v))
    ensures op.Other? ==> ToExpr(op, width).Err?
  {
    match op
    case Immediate(v) => assert Simplify(m, Const(v)) == Ok(v);
    case InRegister(reg) =>
      RegisterReads(m, reg.name, reg.bytes);
      hide Simplify, Pow2;
    case Absolute(at) =>
      AddrReads(m, at);
      hide Simplify, IntegerAt;
    case _ =>
  }

  // ---- pairing ----

  function Residue(v: Value): Word
    ensures Residue(v) < Modulus(v.ty)
  {
    v.v % Modulus(v.ty)
  }

  /** The pair logged for two values: same type only, reinterpreted as unsigned. */
  function Pairing(l: Value, r: Value): Option<CmpLog.CmpValues> {
    match (l.ty, r.ty)
    case (U8, U8) => Some(CmpLog.U8(l.v, r.v))
    case (I8, I8) => Some(CmpLog.U8(Residue(l), Residue(r)))
    case (U16, U16) => Some(CmpLog.U16(l.v, r.v))
    case (I16, I16) => Some(CmpLog.U16(Residue(l), Residue(r)))
    case (U32, U32) => Some(CmpLog.U32(l.v, r.v))
    case (I32, I32) => Some(CmpLog.U32(Residue(l), Residue(r)))
    case (U64, U64) => Some(CmpLog.U64(l.v, r.v))
    case (I64, I64) => Some(CmpLog.U64(Residue(l), Residue(r)))
    case _ => None
  }

  /** A pair is logged exactly for equal types; it has their width and loses nothing: both operands can be read back. */
  lemma PairingLossless(l: Value, r: Value)
    ensures Pairing(l, r).Some? <==> l.ty == r.ty
    ensures Pairing(l, r).Some? ==>
              var p := Pairing(l, r).value;
              !p.Bytes? && 8 * (CmpLog.Shape(p).value + 1) == Width(l.ty)
              && Wrap(l.ty, CmpLog.Pair(p).left) == l.v && Wrap(r.ty, CmpLog.Pair(p).right) == r.v
  {
    ReadBack(l);
    ReadBack(r);
    hide Wrap, Residue;
  }

  lemma ReadBack(v: Value)
    ensures Wrap(v.ty, Residue(v)) == v.v && Wrap(v.ty, v.v) == v.v
  {
    ResidueCongruent(v.v, Modulus(v.ty));
    WrapEqualIff(v.ty, Residue(v), v.v);
    WrapIdentity(v.ty, v.v);
  }

  /** The values of the operands that evaluate, in order. */
  function Kept(results: seq<Result<Value, EvalError>>): seq<Value> {
    if results == [] then []
    else
      var front := Kept(results[..|results| - 1]);
      match results[|results| - 1]
      case Ok(v) => front + [v]
      case Err(_) => front
  }

  /** The first two values that evaluate, if they pair. */
  function Logged(results: seq<Result<Value, EvalError>>): Result<CmpLog.CmpValues, EvalError> {
    FirstPair(Kept(results))
  }

  function FirstPair(values: seq<Value>): Result<CmpLog.CmpValues, EvalError> {
    if |values| < 2 then Err(NoPair)
    else match Pairing(values[0], values[1]) case Some(p) => Ok(p) case None => Err(NoPair)
  }

  function Results(m: Machine, exprs: seq<CmpExpr>): seq<Result<Value, EvalError>> {
    seq(|exprs|, i requires 0 <= i < |exprs| => Simplify(m, exprs[i]))
  }

  /** The value part of `trace_cmp`. */
  method TraceCmp(m: Machine, exprs: seq<CmpExpr>) returns (r: Result<CmpLog.CmpValues, EvalError>)
    ensures r == Logged(Results(m, exprs))
  {
    hide Simplify, Pairing;
    var values: seq<Value> := [];
    ghost var results := Results(m, exprs);
    for i := 0 to |exprs|
      invariant values == Kept(results[..i])
    {
      assert results[..i + 1][..i] == results[..i];
      match Simplify(m, exprs[i])
      case Ok(v) => values := values + [v];
      case Err(_) =>
    }
    assert results[..|exprs|] == results;
    r := FirstPair(values);
  }

  /** A two-operand comparison is logged exactly when both operands evaluate to the same type. */
  lemma LoggedIff(a: Result<Value, EvalError>, b: Result<Value, EvalError>)
    ensures Logged([a, b]).Ok? <==> a.Ok? && b.Ok? && a.value.ty == b.value.ty
  {
    assert [a, b][..1] == [a] && [a][..0] == [];
    assert Kept([a]) == match a case Ok(v) => [v] case Err(_) => [];
  }

  /** The pair logged is that of the first two operands that evaluate, in their order. */
  lemma LoggedInOrder(results: seq<Result<Value, EvalError>>, i: nat, j: nat)
    requires i < j < |results| && results[i].Ok? && results[j].Ok?
    requires forall k :: 0 <= k < j && k != i ==> results[k].Err?
    ensures var x, y, p := results[i].value, results[j].value, Logged(results);
            && (p.Ok? <==> x.ty == y.ty)
            && (p.Ok? ==>
                  && !p.value.Bytes? && Wrap(x.ty, CmpLog.Pair(p.value).left) == x.v
                  && Wrap(y.ty, CmpLog.Pair(p.value).right) == y.v)
  {
    KeptFirstTwo(results, i, j);
    PairingLossless(results[i].value, results[j].value);
    hide Kept, Pairing, Wrap;
  }

  lemma {:induction false} KeptFirstTwo(results: seq<Result<Value, EvalError>>, i: nat, j: nat)
    requires i < j < |results| && results[i].Ok? && results[j].Ok?
    requires forall k :: 0 <= k < j && k != i ==> results[k].Err?
    ensures |Kept(results)| >= 2 && Kept(results)[0] == results[i].value && Kept(results)[1] == results[j].value
    decreases |results|
  {
    var front := results[..|results| - 1];
    if j < |front| {
      KeptFirstTwo(front, i, j);
    } else {
      KeptOne(front, i);
    }
  }

  lemma {:induction false} KeptOne(results: seq<Result<Value, EvalError>>, i: nat)
    requires i < |results| && results[i].Ok? && forall k :: 0 <= k < |results| && k != i ==> results[k].Err?
    ensures Kept(results) == [results[i].value]
    decreases |results|
  {
    var front := results[..|results| - 1];
    if i < |front| {
      KeptOne(front, i);
    } else {
      KeptNone(front);
    }
  }

  lemma {:induction false} KeptNone(results: seq<Result<Value, EvalError>>)
    requires forall k :: 0 <= k < |results| ==> results[k].Err?
    ensures Kept(results) == []
  {
    if results != [] {
      KeptNone(results[..|results| - 1]);
    }
  }

  /** Registers and memory are always unsigned, so a comparison against a signed immediate is never logged. */
  lemma SignedImmediateNeverLogged(m: Machine, op: Operand, width: Option<nat>, imm: Value)
    requires !op.Immediate? && !op.Other? && Signed(imm.ty)
    ensures Logged(Results(m, [ToExpr(op, width).value, Const(imm)])).Err?
    ensures Logged(Results(m, [Const(imm), ToExpr(op, width).value])).Err?
  {
    var e, c := ToExpr(op, width).value, Const(imm);
    UnsignedOperand(m, op, width);
    assert Simplify(m, c) == Ok(imm);
    hide Simplify, Logged;
    LoggedIff(Simplify(m, e), Simplify(m, c));
    LoggedIff(Simplify(m, c), Simplify(m, e));
    assert Results(m, [e, c]) == [Simplify(m, e), Simplify(m, c)];
    assert Results(m, [c, e]) == [Simplify(m, c), Simplify(m, e)];
  }

  lemma UnsignedOperand(m: Machine, op: Operand, width: Option<nat>)
    requires !op.Immediate? && !op.Other?
    ensures ToExpr(op, width).Ok?
    ensures var v := Simplify(m, ToExpr(op, width).value); v.Ok? ==> !Signed(v.value.ty)
  {
    hide AddressExpr;
  }
}

/** The AArch64 comparison-expression evaluator and the operands it is given (src/arch/aarch64.rs). */
module Aarch64Eval {
  import opened Base
  import opened PhysicalMemory
  import opened IntTypes
  import opened CmpTables
  import opened CmpEval
  import opened CmpOperands
  import CmpLog

  /** Registers are read at the processor's address width, whatever their own. */
  function AddressType(m: Machine): IntType {
    if m.addressBits / 8 == 8 then U64 else U32
  }

  /** A 64-bit address reads eight bytes and a 32-bit one four; both give a `U64`. */
  function Read64(m: Machine, address: Value): (r: Result<Value, EvalError>)
    ensures r.Ok? ==> r.value.ty == U64
  {
    if address.ty != U64 && address.ty != U32 then Err(NotAnAddress)
    else
      var physical :- Physical(m, address.v);
      var v :- Fetch(m, physical, address.ty);
      Ok(Typed(U64, v.v))
  }

  function Terminal(m: Machine, e: CmpExpr): Result<Value, EvalError> {
    match e
    case Reg(name, _) =>
      if name !in m.regs then Err(NoRegister(name))
      else Ok(Typed(AddressType(m), Wrap(AddressType(m), m.regs[name])))
    case Const(v) => if v.ty == I16 || v.ty == U32 || v.ty == I32 then Ok(v) else Err(Unsupported)
    case _ => Err(Unsupported)
  }

  /** `simplify`, with the operator tables. */
  function Simplify(m: Machine, e: CmpExpr): Result<Value, EvalError> {
    match e
    case Deref(a, _) =>
      var v :- Simplify(m, a);
      Read64(m, v)
    case Add(l, r) =>
      var x :- Simplify(m, l);
      var y :- Simplify(m, r);
      Ok(AddArm(x, y))
    case Sub(l, r) =>
      var x :- Simplify(m, l);
      var y :- Simplify(m, r);
      Ok(SubArm(x, y))
    case Shifted(l, r, op) =>
      var x :- Simplify(m, l);
      var y :- Simplify(m, r);
      Ok(ShiftArm(x, y, op))
    case _ => Terminal(m, e)
  }

  /** The same walk with the one-line rules. */
  function Evaluate(m: Machine, e: CmpExpr): Result<Value, EvalError> {
    match e
    case Deref(a, _) =>
      var v :- Evaluate(m, a);
      Read64(m, v)
    case Add(l, r) =>
      var x :- Evaluate(m, l);
      var y :- Evaluate(m, r);
      Ok(AddRule(x, y))
    case Sub(l, r) =>
      var x :- Evaluate(m, l);
      var y :- Evaluate(m, r);
      Ok(SubRule(x, y))
    case Shifted(l, r, op) =>
      var x :- Evaluate(m, l);
      var y :- Evaluate(m, r);
      Ok(ShiftRule(x, y.v % Width(x.ty), op))
    case _ => Terminal(m, e)
  }

  /** No subtraction in the expression meets an operand pair on which its arm does not subtract. */
  predicate SubsExact(m: Machine, e: CmpExpr) {
    match e
    case Deref(a, _) => SubsExact(m, a)
    case Add(l, r) => SubsExact(m, l) && SubsExact(m, r)
    case Shifted(l, r, _) => SubsExact(m, l) && SubsExact(m, r)
    case Sub(l, r) =>
      SubsExact(m, l) && SubsExact(m, r)
      && (Evaluate(m, l).Ok? && Evaluate(m, r).Ok? ==> SubExact(Evaluate(m, l).value.ty, Evaluate(m, r).value))
    case _ => true
  }

  lemma {:induction false} TablesRefineRules(m: Machine, e: CmpExpr)
    requires SubsExact(m, e)
    ensures Simplify(m, e) == Evaluate(m, e)
  {
    hide AddArm, AddRule, SubArm, SubRule, SubExact, ShiftArm, ShiftRule, Read64, Terminal;
    match e
    case Deref(a, _) => TablesRefineRules(m, a);
    case Add(l, r) =>
      TablesRefineRules(m, l);
      TablesRefineRules(m, r);
      if Evaluate(m, l).Ok? && Evaluate(m, r).Ok? {
        AddRefines(Evaluate(m, l).value, Evaluate(m, r).value);
      }
    case Sub(l, r) =>
      TablesRefineRules(m, l);
      TablesRefineRules(m, r);
      if Evaluate(m, l).Ok? && Evaluate(m, r).Ok? {
        SubRefinesIff(Evaluate(m, l).value, Evaluate(m, r).value);
      }
    case Shifted(l, r, op) =>
      TablesRefineRules(m, l);
      TablesRefineRules(m, r);
      if Evaluate(m, l).Ok? && Evaluate(m, r).Ok? {
        ShiftRefines(Evaluate(m, l).value, Evaluate(m, r).value, op);
      }
    case _ =>
  }

  // ---- operands ----

  type Byte8 = x: int | 0 <= x < 256
  type Half16 = x: int | 0 <= x < 0x1_0000
  type Word32 = x: int | 0 <= x < 0x1_0000_0000

  datatype Size = X | W

  datatype Style = ShiftBy(op: Shift) | Extend

  /** A decoded operand; `number` is a register's number as it is printed. */
  datatype A64Operand =
    | RegisterOperand(size: Size, number: string)
    | Immediate32(value: Word32)
    | Immediate64(value64: Address)
    | Immediate16(value16: Half16)
    | ImmediateShift(base: Half16, amount: Byte8)
    | RegisterShift(style: Style, amount: Byte8, size: Size, number: string)
    | RegisterOffset(first: string, second: string, size: Size, style: Style, amount: Byte8)
    | PreIndex(number: string, offset: Disp32)
    | PostIndex(number: string)
    | Ignored

  function Name(size: Size, number: string): string {
    (if size == X then "x" else "w") + number
  }

  function RegisterExpr(size: Size, number: string): CmpExpr {
    Reg(Name(size, number), if size == X then 64 else 32)
  }

  function ToExpr(op: A64Operand): Option<CmpExpr> {
    match op
    case RegisterOperand(size, number) => Some(RegisterExpr(size, number))
    case Immediate32(v) => Some(Const(Typed(U32, v)))
    case Immediate64(v) => Some(Const(Typed(U64, v)))
    case Immediate16(v) => Some(Const(Typed(U16, v)))
    case ImmediateShift(v, n) => Some(Const(Typed(U64, Wrap(U64, v * Pow2(n % 64)))))
    case RegisterShift(style, n, size, number) =>
      if style.Extend? then None
      else Some(Deref(Shifted(RegisterExpr(size, number), Const(Typed(U8, n)), style.op), None))
    case RegisterOffset(first, second, size, style, n) =>
      if style.Extend? then None
      else
        var shifted := Shifted(RegisterExpr(size, second), Const(Typed(U8, n)), style.op);
        Some(Deref(Add(RegisterExpr(size, first), shifted), None))
    case PreIndex(number, i) => Some(Deref(Add(RegisterExpr(X, number), Const(Typed(I32, i))), None))
    case PostIndex(number) => Some(Deref(RegisterExpr(X, number), None))
    case Ignored => None
  }

  /** No operand is built with a subtraction, so every operand means what the rules say. */
  lemma OperandRefines(m: Machine, op: A64Operand)
    requires ToExpr(op).Some?
    ensures Simplify(m, ToExpr(op).value) == Evaluate(m, ToExpr(op).value)
  {
    NoSubs(m, op);
    TablesRefineRules(m, ToExpr(op).value);
  }

  lemma NoSubs(m: Machine, op: A64Operand)
    requires ToExpr(op).Some?
    ensures SubsExact(m, ToExpr(op).value)
  {
    match op
    case RegisterShift(style, n, size, number) => ShiftNoSubs(m, RegisterExpr(size, number), n, style.op);
    case RegisterOffset(first, second, size, style, n) =>
      ShiftNoSubs(m, RegisterExpr(size, second), n, style.op);
      var shifted := Shifted(RegisterExpr(size, second), Const(Typed(U8, n)), style.op);
      assert SubsExact(m, Add(RegisterExpr(size, first), shifted));
    case PreIndex(number, i) =>
      var e, c := RegisterExpr(X, number), Const(Typed(I32, i));
      assert SubsExact(m, e) && SubsExact(m, c);
      assert SubsExact(m, Add(e, c));
    case _ =>
  }

  lemma ShiftNoSubs(m: Machine, e: CmpExpr, n: Byte8, op: Shift)
    requires e.Reg?
    ensures SubsExact(m, Shifted(e, Const(Typed(U8, n)), op))
  {
    assert SubsExact(m, e) && SubsExact(m, Const(Typed(U8, n)));
  }

  /** The expressions of the operands that have one, in order. */
  function Exprs(ops: seq<A64Operand>): seq<CmpExpr> {
    if ops == [] then []
    else
      var front := Exprs(ops[..|ops| - 1]);
      match ToExpr(ops[|ops| - 1])
      case Some(e) => front + [e]
      case None => front
  }

  /** `cmp` */
  method Cmp(ops: seq<A64Operand>) returns (exprs: seq<CmpExpr>)
    ensures exprs == Exprs(ops)
  {
    hide ToExpr;
    exprs := [];
    for i := 0 to |ops|
      invariant exprs == Exprs(ops[..i])
    {
      assert ops[..i + 1][..i] == ops[..i];
      match ToExpr(ops[i])
      case Some(e) => exprs := exprs + [e];
      case None =>
    }
    assert ops[..|ops|] == ops;
  }

  predicate Readable(m: Machine, a: Address) {
    a in m.translate && Mapped(m.mem, m.translate[a], Width(AddressType(m)) / 8)
  }

  /** When an operand's expression evaluates. */
  predicate Evaluable(m: Machine, op: A64Operand) {
    match op
    case RegisterOperand(size, number) => Name(size, number) in m.regs
    case Immediate32(_) => true
    case PreIndex(number, i) =>
      Name(X, number) in m.regs && Readable(m, Wrap(AddressType(m), m.regs[Name(X, number)] + i))
    case PostIndex(number) => Name(X, number) in m.regs && Readable(m, Wrap(AddressType(m), m.regs[Name(X, number)]))
    case _ => false
  }

  /** Operands evaluate exactly when they are a known register, a 32-bit immediate, or a pre- or post-indexed access
      to readable memory. Shifted and offset registers and 16- and 64-bit immediates never do. */
  lemma EvaluatesIff(m: Machine, op: A64Operand)
    requires ToExpr(op).Some?
    ensures Simplify(m, ToExpr(op).value).Ok? <==> Evaluable(m, op)
  {
    hide AddArm, SubArm, ShiftArm, Wrap, Read64, Readable;
    match op
    case PreIndex(number, i) => PreIndexIff(m, number, i);
    case PostIndex(number) => PostIndexIff(m, number);
    case RegisterShift(style, n, size, number) => ShiftFails(m, RegisterExpr(size, number), n, style.op);
    case RegisterOffset(first, second, size, style, n) => ShiftFails(m, RegisterExpr(size, second), n, style.op);
    case _ =>
  }

  /** The evaluator has no case for a byte constant, so no shift by one evaluates. */
  lemma ShiftFails(m: Machine, e: CmpExpr, n: Byte8, op: Shift)
    ensures Simplify(m, Shifted(e, Const(Typed(U8, n)), op)).Err?
  {
    assert Simplify(m, Const(Typed(U8, n))).Err?;
  }

  lemma ReadIff(m: Machine, v: Value)
    requires v.ty == AddressType(m)
    ensures Read64(m, v).Ok? <==> Readable(m, v.v)
  {
  }

  lemma PostIndexIff(m: Machine, number: string)
    ensures Simplify(m, Deref(RegisterExpr(X, number), None)).Ok? <==> Evaluable(m, PostIndex(number))
  {
    var name := Name(X, number);
    hide Read64, Readable, Wrap, AddressType;
    if name in m.regs {
      ReadIff(m, Typed(AddressType(m), Wrap(AddressType(m), m.regs[name])));
    }
  }

  lemma PreIndexIff(m: Machine, number: string, i: Disp32)
    ensures Simplify(m, Deref(Add(RegisterExpr(X, number), Const(Typed(I32, i))), None)).Ok?
       <==> Evaluable(m, PreIndex(number, i))
  {
    var name, t := Name(X, number), AddressType(m);
    hide Read64, Readable, Wrap, AddArm, AddressType;
    assert Simplify(m, RegisterExpr(X, number)).Ok? <==> name in m.regs;
    if name in m.regs {
      var x: Value, y: Value := Typed(t, Wrap(t, m.regs[name])), Typed(I32, i);
      AddRefines(x, y);
      WrapCongruent(t, m.regs[name]);
      ShiftCongruent(i, x.v, m.regs[name], Modulus(t));
      WrapEqualIff(t, x.v + i, m.regs[name] + i);
      ReadIff(m, AddArm(x, y));
      assert Simplify(m, Const(y)) == Ok(y);
      assert Simplify(m, RegisterExpr(X, number)) == Ok(x);
    }
  }

  /** The processor's address width in bits, as registers and addresses are read. */
  function AddressWidth(m: Machine): nat {
    if m.addressBits / 8 == 8 then 64 else 32
  }

  /** What a register operand is: the register of that size and number, at the address width. */
  lemma RegisterValue(m: Machine, size: Size, number: string)
    ensures var name, e := (if size == X then "x" else "w") + number, ToExpr(RegisterOperand(size, number));
            && e.Some?
            && (var r := Simplify(m, e.value);
                && (r.Ok? <==> name in m.regs)
                && (r.Ok? ==> UnsignedOf(r.value.ty, AddressWidth(m) / 8)
                              && r.value.v == m.regs[name] % Pow2(AddressWidth(m))))
  {
    ModulusIsPower(AddressType(m));
    hide Pow2;
  }

  /** A 32-bit immediate is itself; a constant of another type evaluates only if it is a signed 16- or 32-bit one. */
  lemma ImmediateValue(m: Machine, v: Word32, c: Value)
    ensures ToExpr(Immediate32(v)).Some? && Simplify(m, ToExpr(Immediate32(v)).value) == Ok(Typed(U32, v))
    ensures Simplify(m, Const(c)).Ok? <==> c.ty == I16 || c.ty == U32 || c.ty == I32
    ensures Simplify(m, Const(c)).Ok? ==> Simplify(m, Const(c)).value == c
  {
  }

  lemma Read64Reads(m: Machine, v: Value)
    requires v.ty == AddressType(m)
    ensures Read64(m, v).Ok? <==> v.v in m.translate && Mapped(m.mem, m.translate[v.v], AddressWidth(m) / 8)
    ensures Read64(m, v).Ok? ==>
              Read64(m, v).value.ty == U64
              && IntegerAt(m.mem, m.translate[v.v], AddressWidth(m) / 8, Read64(m, v).value.v)
  {
    if v.v in m.translate {
      FetchReads(m, m.translate[v.v], v.ty);
    }
    hide Fetch, IntegerAt, Mapped;
  }

  /** What an indexed operand is: the integer at the 64-bit register plus its offset, modulo the address width, as wide as
      an address and always typed as a 64-bit value. A post-indexed operand has no offset. */
  lemma IndexedValue(m: Machine, op: A64Operand)
    requires op.PreIndex? || op.PostIndex?
    ensures var name, i := "x" + op.number, if op.PreIndex? then op.offset else 0;
            && ToExpr(op).Some?
            && (var r := Simplify(m, ToExpr(op).value);
                && (r.Ok? ==> name in m.regs)
                && (name in m.regs ==>
                      var a := (m.regs[name] + i) % Pow2(AddressWidth(m));
                      && (r.Ok? <==> a in m.translate && Mapped(m.mem, m.translate[a], AddressWidth(m) / 8))
                      && (r.Ok? ==> r.value.ty == U64
                                    && IntegerAt(m.mem, m.translate[a], AddressWidth(m) / 8, r.value.v))))
  {
    var name, t := "x" + op.number, AddressType(m);
    assert RegisterExpr(X, op.number).name == name;
    assert Simplify(m, RegisterExpr(X, op.number)).Ok? <==> name in m.regs;
    if name in m.regs {
      var x := m.regs[name] + if op.PreIndex? then op.offset else 0;
      IndexedAddress(m, op, name);
      AddressWraps(m, x);
      Read64Reads(m, Typed(t, Wrap(t, x)));
    }
    hide Pow2, Read64, AddArm, Wrap, AddressType, AddressWidth, IntegerAt, Mapped;
  }

  lemma AddressWraps(m: Machine, x: int)
    ensures Wrap(AddressType(m), x) == x % Pow2(AddressWidth(m))
  {
    ModulusIsPower(AddressType(m));
    hide Pow2;
  }

  lemma IndexedAddress(m: Machine, op: A64Operand, name: string)
    requires (op.PreIndex? || op.PostIndex?) && name == "x" + op.number && name in m.regs
    ensures ToExpr(op).Some? && ToExpr(op).value.Deref?
    ensures var t, i := AddressType(m), if op.PreIndex? then op.offset else 0;
            Simplify(m, ToExpr(op).value.address) == Ok(Typed(t, Wrap(t, m.regs[name] + i)))
  {
    var t := AddressType(m);
    hide AddArm, Wrap, AddressType;
    assert Simplify(m, RegisterExpr(X, op.number)) == Ok(Typed(t, Wrap(t, m.regs[name])));
    if op.PreIndex? {
      var x: Value, y: Value := Typed(t, Wrap(t, m.regs[name])), Typed(I32, op.offset);
      AddRefines(x, y);
      WrapCongruent(t, m.regs[name]);
      ShiftCongruent(y.v, x.v, m.regs[name], Modulus(t));
      WrapEqualIff(t, x.v + y.v, m.regs[name] + y.v);
      assert Simplify(m, Const(y)) == Ok(y);
    }
  }

  /** The type an operand evaluates to: registers have the address width, memory is always 64-bit. */
  function OperandType(m: Machine, op: A64Operand): IntType {
    match op
    case Immediate32(_) => U32
    case RegisterOperand(_, _) => AddressType(m)
    case _ => U64
  }

  lemma EvaluatesTo(m: Machine, op: A64Operand)
    requires ToExpr(op).Some?
    ensures var v := Simplify(m, ToExpr(op).value); v.Ok? ==> v.value.ty == OperandType(m, op)
  {
    EvaluatesIff(m, op);
    hide Read64, Wrap, AddArm, ShiftArm, Readable;
  }

  function Values(m: Machine, exprs: seq<CmpExpr>): seq<Result<Value, EvalError>> {
    seq(|exprs|, i requires 0 <= i < |exprs| => Simplify(m, exprs[i]))
  }

  /** When two operands are logged: both evaluate, to one type. */
  predicate Loggable(m: Machine, a: A64Operand, b: A64Operand) {
    Evaluable(m, a) && Evaluable(m, b) && OperandType(m, a) == OperandType(m, b)
  }

  /** A two-operand comparison is logged exactly when both operands evaluate to one type. On a 64-bit processor a
      register is therefore never logged against an immediate, on a 32-bit one never against memory. */
  lemma LoggedPair(m: Machine, a: A64Operand, b: A64Operand)
    ensures Logged(Values(m, Exprs([a, b]))).Ok? <==> Loggable(m, a, b)
  {
    hide Simplify, Evaluable, Logged, ToExpr, OperandType;
    ExprsOfTwo(a, b);
    var x, y := ToExpr(a), ToExpr(b);
    if x.Some? {
      EvaluatesIff(m, a);
      EvaluatesTo(m, a);
    }
    if y.Some? {
      EvaluatesIff(m, b);
      EvaluatesTo(m, b);
    }
    NoExprFails(m, a);
    NoExprFails(m, b);
    var values := Values(m, Exprs([a, b]));
    if x.Some? && y.Some? {
      assert values == [Simplify(m, x.value), Simplify(m, y.value)];
      LoggedIff(Simplify(m, x.value), Simplify(m, y.value));
    } else {
      TooFew(values);
    }
  }

  /** What is then logged: the values of the two operands, in their order. */
  lemma LoggedPairValues(m: Machine, a: A64Operand, b: A64Operand)
    requires Loggable(m, a, b)
    ensures var x, y, p := ToExpr(a), ToExpr(b), Logged(Values(m, Exprs([a, b])));
            && x.Some? && y.Some? && Simplify(m, x.value).Ok? && Simplify(m, y.value).Ok?
            && p.Ok? && !p.value.Bytes?
            && Wrap(OperandType(m, a), CmpLog.Pair(p.value).left) == Simplify(m, x.value).value.v
            && Wrap(OperandType(m, b), CmpLog.Pair(p.value).right) == Simplify(m, y.value).value.v
  {
    hide Simplify, Evaluable, Logged, ToExpr, OperandType, Wrap, CmpLog.Pair;
    ExprsOfTwo(a, b);
    NoExprFails(m, a);
    NoExprFails(m, b);
    EvaluatesIff(m, a);
    EvaluatesTo(m, a);
    EvaluatesIff(m, b);
    EvaluatesTo(m, b);
    LoggedInOrder(Values(m, Exprs([a, b])), 0, 1);
  }

  lemma ExprsOfTwo(a: A64Operand, b: A64Operand)
    ensures Exprs([a, b]) == (if ToExpr(a).Some? then [ToExpr(a).value] else [])
                             + (if ToExpr(b).Some? then [ToExpr(b).value] else [])
  {
    hide ToExpr;
    assert [a, b][..1] == [a] && [a][..0] == [];
    assert Exprs([a]) == if ToExpr(a).Some? then [ToExpr(a).value] else [];
  }

  lemma NoExprFails(m: Machine, op: A64Operand)
    ensures Evaluable(m, op) ==> ToExpr(op).Some?
  {
  }

  lemma TooFew(values: seq<Result<Value, EvalError>>)
    requires |values| < 2
    ensures Logged(values).Err?
  {
    KeptLength(values);
  }

  lemma {:induction false} KeptLength(values: seq<Result<Value, EvalError>>)
    ensures |Kept(values)| <= |values|
  {
    if values != [] {
      KeptLength(values[..|values| - 1]);
    }
  }

  /** The value part of `trace_cmp`: a comparison of two operands is logged exactly when they are loggable. */
  method TraceCmp(m: Machine, ops: seq<A64Operand>) returns (r: Result<CmpLog.CmpValues, EvalError>)
    ensures r == Logged(Values(m, Exprs(ops)))
    ensures |ops| == 2 ==> (r.Ok? <==> Loggable(m, ops[0], ops[1]))
  {
    hide Simplify, Pairing, Exprs, Loggable;
    if |ops| == 2 {
      LoggedPair(m, ops[0], ops[1]);
      assert ops == [ops[0], ops[1]];
    }
    var exprs := Cmp(ops);
    ghost var results := Values(m, exprs);
    var values: seq<Value> := [];
    for i := 0 to |exprs|
      invariant values == Kept(results[..i])
    {
      assert results[..i + 1][..i] == results[..i];
      match Simplify(m, exprs[i])
      case Ok(v) => values := values + [v];
      case Err(_) =>
    }
    assert results[..|exprs|] == results;
    r := FirstPair(values);
  }
}

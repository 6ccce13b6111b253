/** The x86-64 comparison-expression evaluator: operands become expressions, expressions become values, values are
    paired for the comparison log (src/arch/x86_64.rs). */
module CmpEval {
  import opened Base
  import opened PhysicalMemory
  import opened IntTypes
  import opened CmpTables

  datatype CmpExpr =
    | Deref(address: CmpExpr, width: Option<nat>)
    | Reg(name: string, bytes: nat)
    | Mul(left: CmpExpr, right: CmpExpr)
    | Add(left: CmpExpr, right: CmpExpr)
    | Sub(left: CmpExpr, right: CmpExpr)
    | Shifted(shiftee: CmpExpr, shifter: CmpExpr, op: Shift)
    | Const(value: Value)
    | Addr(at: Address)

  /** What the evaluator reads: registers, the address translation and physical memory. */
  datatype Machine = Machine(regs: map<string, Address>, translate: map<Address, Address>, mem: Memory,
                             addressBits: nat)

  datatype EvalError =
    | Access(error: AccessError) | NoRegister(name: string) | NotAnAddress | BadWidth | Unsupported | NoPair

  function Physical(m: Machine, logical: Address): Result<Address, EvalError> {
    if logical in m.translate then Ok(m.translate[logical]) else Err(Access(Untranslated(logical)))
  }

  /** Read an unsigned value of type `t`. */
  function Fetch(m: Machine, physical: Address, t: IntType): (r: Result<Value, EvalError>)
    requires !Signed(t)
    ensures r.Ok? ==> r.value.ty == t
  {
    match ReadBytes(m.mem, physical, Width(t) / 8)
    case Err(e) => Err(Access(e))
    case Ok(s) =>
      FetchFits(s, t);
      Ok(Typed(t, FromLittleEndian(s)))
  }

  lemma FetchFits(s: seq<byte>, t: IntType)
    requires |s| == Width(t) / 8 && !Signed(t)
    ensures InRange(t, FromLittleEndian(s))
  {
    hide Pow2, FromLittleEndian;
    FromLittleEndianBound(s);
    ModulusIsPower(t);
    assert 8 * |s| == Width(t);
  }

  /** The unsigned type of a byte width. */
  function Unsigned(bytes: nat): (r: Result<IntType, EvalError>)
    ensures r.Ok? <==> bytes in {1, 2, 4, 8}
    ensures r.Ok? ==> !Signed(r.value) && Width(r.value) == 8 * bytes
  {
    match bytes
    case 1 => Ok(U8)
    case 2 => Ok(U16)
    case 4 => Ok(U32)
    case 8 => Ok(U64)
    case _ => Err(BadWidth)
  }

  function Load(m: Machine, address: Value, width: Option<nat>): (r: Result<Value, EvalError>)
    ensures r.Ok? ==> !Signed(r.value.ty)
  {
    if address.ty != U64 then Err(NotAnAddress)
    else
      var physical :- Physical(m, address.v);
      if width.None? then Err(BadWidth)
      else
        var t :- Unsigned(width.value);
        Fetch(m, physical, t)
  }

  function Leaf(m: Machine, e: CmpExpr): (r: Result<Value, EvalError>)
    ensures r.Ok? && !e.Const? ==> !Signed(r.value.ty)
  {
    match e
    case Reg(name, bytes) =>
      if name !in m.regs then Err(NoRegister(name))
      else
        var t :- Unsigned(bytes);
        Ok(Typed(t, Wrap(t, m.regs[name])))
    case Const(v) => Ok(v)
    case Addr(a) =>
      var physical :- Physical(m, a);
      Fetch(m, physical, U64)
    case _ => Err(Unsupported)
  }

  /** `simplify`, with the operator tables. */
  function Simplify(m: Machine, e: CmpExpr): Result<Value, EvalError> {
    match e
    case Deref(a, width) =>
      var v :- Simplify(m, a);
      Load(m, v, width)
    case Mul(l, r) =>
      var x :- Simplify(m, l);
      var y :- Simplify(m, r);
      Ok(MulArm(x, y))
    case Add(l, r) =>
      var x :- Simplify(m, l);
      var y :- Simplify(m, r);
      Ok(AddArm(x, y))
    case _ => Leaf(m, e)
  }

  // ---- what the leaves are ----

  lemma FetchReads(m: Machine, p: Address, t: IntType)
    requires !Signed(t)
    ensures Fetch(m, p, t).Ok? <==> Mapped(m.mem, p, Width(t) / 8)
    ensures Fetch(m, p, t).Ok? ==> Fetch(m, p, t).value.ty == t && IntegerAt(m.mem, p, Width(t) / 8, Fetch(m, p, t).value.v)
  {
    ReadIntegerBytes(m.mem, p, Width(t) / 8);
    hide IntegerAt, FromLittleEndian;
  }

  predicate OperandWidth(w: nat) {
    w == 1 || w == 2 || w == 4 || w == 8
  }

  /** The unsigned type of that many bytes. */
  predicate UnsignedOf(t: IntType, bytes: nat) {
    !Signed(t) && Width(t) == 8 * bytes
  }

  /** A dereference evaluates exactly when its address is a translated 64-bit one and the bytes there are mapped, at one
      of the four operand widths; it is then the integer in those bytes. */
  lemma DerefReads(m: Machine, a: CmpExpr, width: Option<nat>)
    ensures var r := Simplify(m, Deref(a, width));
            && (r.Ok? <==>
                  && Simplify(m, a).Ok? && Simplify(m, a).value.ty == U64 && Simplify(m, a).value.v in m.translate
                  && width.Some? && OperandWidth(width.value)
                  && Mapped(m.mem, m.translate[Simplify(m, a).value.v], width.value))
            && (r.Ok? ==>
                  && UnsignedOf(r.value.ty, width.value)
                  && IntegerAt(m.mem, m.translate[Simplify(m, a).value.v], width.value, r.value.v))
  {
    if Simplify(m, a).Ok? {
      LoadReads(m, Simplify(m, a).value, width);
    }
    hide Load, OperandWidth, UnsignedOf, IntegerAt, Mapped;
  }

  lemma LoadReads(m: Machine, address: Value, width: Option<nat>)
    ensures var r := Load(m, address, width);
            && (r.Ok? <==>
                  && address.ty == U64 && address.v in m.translate
                  && width.Some? && OperandWidth(width.value) && Mapped(m.mem, m.translate[address.v], width.value))
            && (r.Ok? ==>
                  && UnsignedOf(r.value.ty, width.value)
                  && IntegerAt(m.mem, m.translate[address.v], width.value, r.value.v))
  {
    if address.ty == U64 && address.v in m.translate && width.Some? && Unsigned(width.value).Ok? {
      var t := Unsigned(width.value).value;
      FetchReads(m, m.translate[address.v], t);
      assert UnsignedOf(t, width.value) && Width(t) / 8 == width.value;
    }
    hide Fetch, Unsigned, UnsignedOf, Width, Signed, IntegerAt, Mapped;
  }

  /** An absolute operand is the 64-bit word at its address. */
  lemma AddrReads(m: Machine, at: Address)
    ensures var r := Simplify(m, Addr(at));
            && (r.Ok? <==> at in m.translate && Mapped(m.mem, m.translate[at], 8))
            && (r.Ok? ==> r.value.ty == U64 && IntegerAt(m.mem, m.translate[at], 8, r.value.v))
  {
    if at in m.translate {
      FetchReads(m, m.translate[at], U64);
    }
    hide Fetch, IntegerAt, Mapped;
  }

  /** A register is its low bytes. */
  lemma RegisterReads(m: Machine, name: string, bytes: nat)
    ensures var r := Simplify(m, Reg(name, bytes));
            && (r.Ok? <==> name in m.regs && OperandWidth(bytes))
            && (r.Ok? ==> UnsignedOf(r.value.ty, bytes) && r.value.v == m.regs[name] % Pow2(8 * bytes))
  {
    if OperandWidth(bytes) {
      ModulusIsPower(Unsigned(bytes).value);
    }
    hide Pow2;
  }

  /** The same walk with the one-line rules instead of the tables. */
  function Evaluate(m: Machine, e: CmpExpr): Result<Value, EvalError> {
    match e
    case Deref(a, width) =>
      var v :- Evaluate(m, a);
      Load(m, v, width)
    case Mul(l, r) =>
      var x :- Evaluate(m, l);
      var y :- Evaluate(m, r);
      Ok(MulRule(x, y))
    case Add(l, r) =>
      var x :- Evaluate(m, l);
      var y :- Evaluate(m, r);
      Ok(AddRule(x, y))
    case _ => Leaf(m, e)
  }

  /** On every expression, errors included, the tables compute the rules. */
  lemma {:induction false} TablesRefineRules(m: Machine, e: CmpExpr)
    ensures Simplify(m, e) == Evaluate(m, e)
  {
    hide MulArm, MulRule, AddArm, AddRule, Load, Leaf;
    match e
    case Deref(a, _) => TablesRefineRules(m, a);
    case Mul(l, r) =>
      TablesRefineRules(m, l);
      TablesRefineRules(m, r);
      if Evaluate(m, l).Ok? && Evaluate(m, r).Ok? {
        MulRefines(Evaluate(m, l).value, Evaluate(m, r).value);
      }
    case Add(l, r) =>
      TablesRefineRules(m, l);
      TablesRefineRules(m, r);
      if Evaluate(m, l).Ok? && Evaluate(m, r).Ok? {
        AddRefines(Evaluate(m, l).value, Evaluate(m, r).value);
      }
    case _ =>
  }

  // ---- against exact integer arithmetic ----

  predicate Arithmetic(e: CmpExpr) {
    e.Mul? || e.Add?
  }

  /** The value over unbounded integers, from the leaves that evaluation read. */
  function Exact(m: Machine, e: CmpExpr): int
    requires Simplify(m, e).Ok?
  {
    match e
    case Mul(l, r) => Exact(m, l) * Exact(m, r)
    case Add(l, r) => Exact(m, l) + Exact(m, r)
    case _ => Simplify(m, e).value.v
  }

  /** The type of the leftmost leaf. */
  function LeftType(m: Machine, e: CmpExpr): IntType
    requires Simplify(m, e).Ok?
  {
    if Arithmetic(e) then LeftType(m, e.left) else Simplify(m, e).value.ty
  }

  function Narrowest(m: Machine, e: CmpExpr): IntType
    requires Simplify(m, e).Ok?
  {
    if Arithmetic(e) then Narrower(Narrowest(m, e.left), Narrowest(m, e.right)) else Simplify(m, e).value.ty
  }

  function Narrower(a: IntType, b: IntType): IntType {
    if Width(a) <= Width(b) then a else b
  }

  lemma {:induction false} ResultType(m: Machine, e: CmpExpr)
    requires Simplify(m, e).Ok?
    ensures Simplify(m, e).value.ty == LeftType(m, e)
    ensures Width(Narrowest(m, e)) <= Width(LeftType(m, e))
  {
    if Arithmetic(e) {
      ResultType(m, e.left);
      ResultType(m, e.right);
    }
  }

  /** One node: operands congruent to exact values give a result congruent to the exact result. */
  lemma NodeCongruent(e: CmpExpr, x: Value, y: Value, a: int, b: int, t: IntType)
    requires Arithmetic(e) && Width(t) <= Width(x.ty)
    requires Congruent(x.v, a, Modulus(t)) && Congruent(y.v, b, Modulus(t))
    ensures Congruent((if e.Mul? then MulArm(x, y) else AddArm(x, y)).v, if e.Mul? then a * b else a + b, Modulus(t))
  {
    hide MulArm, AddArm, Wrap, Modulus, Congruent;
    var m := Modulus(t);
    if e.Mul? {
      MulRefines(x, y);
      CastCongruent(x.ty, t, x.v * y.v);
      CongruentMul(x.v, y.v, a, b, m);
      CongruentTrans(Wrap(x.ty, x.v * y.v), x.v * y.v, a * b, m);
    } else {
      AddRefines(x, y);
      CastCongruent(x.ty, t, x.v + y.v);
      CongruentAdd(x.v, y.v, a, b, m);
      CongruentTrans(Wrap(x.ty, x.v + y.v), x.v + y.v, a + b, m);
    }
  }

  /** Every expression evaluates to its exact value modulo the width of its narrowest leaf. */
  lemma {:induction false} CongruentToExact(m: Machine, e: CmpExpr)
    requires Simplify(m, e).Ok?
    ensures Congruent(Simplify(m, e).value.v, Exact(m, e), Modulus(Narrowest(m, e)))
  {
    hide MulArm, AddArm, Modulus, Congruent, Load, Leaf;
    if Arithmetic(e) {
      var x, y := Simplify(m, e.left).value, Simplify(m, e.right).value;
      var a, b, t := Exact(m, e.left), Exact(m, e.right), Narrowest(m, e);
      CongruentToExact(m, e.left);
      CongruentToExact(m, e.right);
      ResultType(m, e.left);
      CongruentNarrow(x.v, a, Narrowest(m, e.left), t);
      CongruentNarrow(y.v, b, Narrowest(m, e.right), t);
      NodeCongruent(e, x, y, a, b, t);
    } else {
      Reflexive(Exact(m, e), Modulus(Narrowest(m, e)));
    }
  }

  lemma Reflexive(x: int, m: nat)
    requires m > 0
    ensures Congruent(x, x, m)
  {
  }

  /** Not always modulo the left width: carries of a narrow right operand are lost. */
  lemma NarrowRightLosesCarry(m: Machine)
    ensures var e := Add(Const(Typed(U64, 0)), Add(Const(Typed(U8, 200)), Const(Typed(U8, 100))));
            Simplify(m, e) == Ok(Typed(U64, 44)) && Exact(m, e) == 300
  {
    hide AddArm, MulArm;
    var zero: Value, l: Value, r: Value := Typed(U64, 0), Typed(U8, 200), Typed(U8, 100);
    AddRefines(l, r);
    assert AddRule(l, r) == Typed(U8, 44);
    AddRefines(zero, AddArm(l, r));
    assert Simplify(m, Add(Const(l), Const(r))) == Ok(AddArm(l, r));
    assert Exact(m, Add(Const(l), Const(r))) == 300;
  }
}

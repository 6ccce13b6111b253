/** Which x86-64 comparison expressions are evaluated exactly: the shapes whose value is always the exact integer value
    wrapped into the type of the leftmost leaf (src/arch/x86_64.rs). */
module CmpExact {
  import opened Base
  import opened IntTypes
  import opened CmpTables
  import opened CmpEval

  /** The arithmetic of an expression: its operators and the types of its leaves, without their values. */
  datatype Shape = Single(ty: IntType) | Node(mul: bool, left: Shape, right: Shape)

  function ShapeOf(m: Machine, e: CmpExpr): Shape
    requires Simplify(m, e).Ok?
  {
    if Arithmetic(e) then Node(e.Mul?, ShapeOf(m, e.left), ShapeOf(m, e.right)) else Single(Simplify(m, e).value.ty)
  }

  /** The type of the leftmost leaf. */
  function TypeOf(s: Shape): IntType {
    if s.Single? then s.ty else TypeOf(s.left)
  }

  /** No operator is computed in a type narrower than `t`. */
  predicate WideFor(s: Shape, t: IntType) {
    s.Node? ==> Width(t) <= Width(TypeOf(s)) && WideFor(s.left, t) && WideFor(s.right, t)
  }

  predicate HasShape(m: Machine, e: CmpExpr, s: Shape) {
    Simplify(m, e).Ok? && ShapeOf(m, e) == s
  }

  /** The value is the exact one wrapped into the type of the leftmost leaf. */
  predicate IsExact(m: Machine, e: CmpExpr)
    requires Simplify(m, e).Ok?
  {
    Simplify(m, e).value == Typed(LeftType(m, e), Wrap(LeftType(m, e), Exact(m, e)))
  }

  lemma {:induction false} ShapeType(m: Machine, e: CmpExpr)
    requires Simplify(m, e).Ok?
    ensures TypeOf(ShapeOf(m, e)) == LeftType(m, e)
  {
    hide MulArm, AddArm, Load, Leaf;
    if Arithmetic(e) {
      ShapeType(m, e.left);
    }
  }

  /** Evaluated no narrower than `t`, an expression is its exact value modulo the width of `t`. */
  lemma {:induction false} WideCongruent(m: Machine, e: CmpExpr, t: IntType)
    requires Simplify(m, e).Ok? && WideFor(ShapeOf(m, e), t)
    ensures Congruent(Simplify(m, e).value.v, Exact(m, e), Modulus(t))
  {
    hide MulArm, AddArm, Modulus, Congruent, Load, Leaf;
    if Arithmetic(e) {
      WideCongruent(m, e.left, t);
      WideCongruent(m, e.right, t);
      ShapeType(m, e.left);
      ResultType(m, e.left);
      NodeCongruent(e, Simplify(m, e.left).value, Simplify(m, e.right).value, Exact(m, e.left), Exact(m, e.right), t);
    } else {
      Reflexive(Exact(m, e), Modulus(t));
    }
  }

  lemma ExactIffCongruent(m: Machine, e: CmpExpr)
    requires Simplify(m, e).Ok?
    ensures IsExact(m, e) <==> Congruent(Simplify(m, e).value.v, Exact(m, e), Modulus(LeftType(m, e)))
  {
    hide MulArm, AddArm, Modulus, Congruent, Wrap, Simplify;
    ResultType(m, e);
    var v := Simplify(m, e).value;
    WrapIdentity(v.ty, v.v);
    WrapEqualIff(v.ty, v.v, Exact(m, e));
  }

  // ---- the condition is needed ----

  function Neutral(mul: bool): int {
    if mul then 1 else 0
  }

  function Op(mul: bool, x: int, y: int): int {
    if mul then x * y else x + y
  }

  function Combine(mul: bool, l: CmpExpr, r: CmpExpr): CmpExpr {
    if mul then Mul(l, r) else Add(l, r)
  }

  /** Constants of the shape: `c` on the leftmost leaf, which every operator then leaves alone. */
  function Steady(s: Shape, c: int): CmpExpr
    requires InRange(TypeOf(s), c)
  {
    match s
    case Single(t) => Const(Typed(t, c))
    case Node(mul, l, r) =>
      SmallInRange(TypeOf(r), Neutral(mul));
      Combine(mul, Steady(l, c), Steady(r, Neutral(mul)))
  }

  lemma SmallInRange(t: IntType, c: int)
    requires 0 <= c <= 2
    ensures InRange(t, c)
  {
  }

  /** One node over operands whose values and exact values are known. */
  lemma CombineStep(m: Machine, mul: bool, l: CmpExpr, r: CmpExpr, x: Value, y: Value)
    requires Simplify(m, l) == Ok(x) && Simplify(m, r) == Ok(y)
    ensures var e := Combine(mul, l, r);
            && Simplify(m, e) == Ok(Typed(x.ty, Wrap(x.ty, Op(mul, x.v, y.v))))
            && Exact(m, e) == Op(mul, Exact(m, l), Exact(m, r))
            && ShapeOf(m, e) == Node(mul, ShapeOf(m, l), ShapeOf(m, r))
  {
    hide MulArm, AddArm, Wrap, Load, Leaf;
    MulRefines(x, y);
    AddRefines(x, y);
  }

  lemma {:induction false} SteadyHolds(m: Machine, s: Shape, c: int)
    requires InRange(TypeOf(s), c)
    ensures Simplify(m, Steady(s, c)) == Ok(Typed(TypeOf(s), c))
    ensures Exact(m, Steady(s, c)) == c && ShapeOf(m, Steady(s, c)) == s
  {
    match s
    case Single(t) =>
    case Node(mul, l, r) =>
      var n := Neutral(mul);
      SmallInRange(TypeOf(r), n);
      SteadyHolds(m, l, c);
      SteadyHolds(m, r, n);
      WrapIdentity(TypeOf(s), c);
      hide Simplify, Wrap, Exact, ShapeOf;
      CombineStep(m, mul, Steady(l, c), Steady(r, n), Typed(TypeOf(l), c), Typed(TypeOf(r), n));
  }

  function Greatest(t: IntType): (c: int)
    ensures InRange(t, c)
  {
    Least(t) + Modulus(t) - 1
  }

  /** An operator narrower than `t` can lose exactly one modulus of its own width, which `t` would have kept. */
  lemma Overflows(m: Machine, s: Shape, t: IntType) returns (e: CmpExpr)
    requires s.Node? && Width(TypeOf(s)) < Width(t)
    ensures HasShape(m, e, s) && !Congruent(Simplify(m, e).value.v, Exact(m, e), Modulus(t))
  {
    var n := TypeOf(s);
    var c, d := Greatest(n), Neutral(s.mul) + 1;
    SmallInRange(TypeOf(s.right), d);
    SteadyHolds(m, s.left, c);
    SteadyHolds(m, s.right, d);
    e := Combine(s.mul, Steady(s.left, c), Steady(s.right, d));
    var x: Value, y: Value := Typed(n, c), Typed(TypeOf(s.right), d);
    CombineStep(m, s.mul, Steady(s.left, c), Steady(s.right, d), x, y);
    LosesModulus(n, s.mul);
    hide Simplify, Exact, ShapeOf, Steady, Wrap;
    NotCongruent(Simplify(m, e).value.v, Exact(m, e), n, t);
  }

  lemma LosesModulus(n: IntType, mul: bool)
    ensures var exact := if mul then Greatest(n) * 2 else Greatest(n) + 1; Wrap(n, exact) == exact - Modulus(n)
  {
    var exact := if mul then Greatest(n) * 2 else Greatest(n) + 1;
    CongruentBy(exact - Modulus(n), exact, Modulus(n), -1);
    WrapEqualIff(n, exact - Modulus(n), exact);
    WrapIdentity(n, exact - Modulus(n));
  }

  lemma NotCongruent(a: int, exact: int, n: IntType, t: IntType)
    requires Width(n) < Width(t) && a == exact - Modulus(n)
    ensures !Congruent(a, exact, Modulus(t))
  {
    if Congruent(a, exact, Modulus(t)) {
      var k := Multiple(a, exact, Modulus(t));
      Scale(Modulus(t), k);
    }
  }

  lemma NeutralKeeps(mul: bool, x: int)
    ensures Op(mul, x, Neutral(mul)) == x && Op(mul, Neutral(mul), x) == x
  {
  }

  /** A broken operand breaks the node above it, next to a neutral one. */
  lemma CarriesUp(m: Machine, mul: bool, l: CmpExpr, r: CmpExpr, fromLeft: bool, t: IntType)
    requires Simplify(m, l).Ok? && Simplify(m, r).Ok? && Width(t) <= Width(Simplify(m, l).value.ty)
    requires var good := if fromLeft then r else l;
             Simplify(m, good).value.v == Neutral(mul) && Exact(m, good) == Neutral(mul)
    requires var bad := if fromLeft then l else r;
             !Congruent(Simplify(m, bad).value.v, Exact(m, bad), Modulus(t))
    ensures var e := Combine(mul, l, r);
            Simplify(m, e).Ok? && !Congruent(Simplify(m, e).value.v, Exact(m, e), Modulus(t))
  {
    var x, y := Simplify(m, l).value, Simplify(m, r).value;
    var e, bad := Combine(mul, l, r), if fromLeft then l else r;
    CombineStep(m, mul, l, r, x, y);
    hide Simplify, Exact, ShapeOf, Modulus, Wrap, Congruent, Op, Neutral;
    var v, u := Simplify(m, e).value.v, Simplify(m, bad).value.v;
    NeutralKeeps(mul, u);
    NeutralKeeps(mul, Exact(m, bad));
    CastCongruent(x.ty, t, u);
    if Congruent(v, Exact(m, e), Modulus(t)) {
      CongruentSym(v, u, Modulus(t));
      CongruentTrans(u, v, Exact(m, e), Modulus(t));
    }
  }

  /** Every shape with a narrow operator has constants on which its value is not the exact one. */
  lemma {:induction false} Breaks(m: Machine, s: Shape, t: IntType) returns (e: CmpExpr)
    requires !WideFor(s, t)
    ensures HasShape(m, e, s) && !Congruent(Simplify(m, e).value.v, Exact(m, e), Modulus(t))
    decreases s
  {
    hide Simplify, Exact, Modulus, Congruent;
    if Width(TypeOf(s)) < Width(t) {
      e := Overflows(m, s, t);
    } else {
      var n := Neutral(s.mul);
      SmallInRange(TypeOf(s.left), n);
      SmallInRange(TypeOf(s.right), n);
      var l, r := Steady(s.left, n), Steady(s.right, n);
      SteadyHolds(m, s.left, n);
      SteadyHolds(m, s.right, n);
      var fromLeft := !WideFor(s.left, t);
      if fromLeft {
        l := Breaks(m, s.left, t);
      } else {
        r := Breaks(m, s.right, t);
      }
      LeftTypes(m, l);
      e := Combine(s.mul, l, r);
      CombineStep(m, s.mul, l, r, Simplify(m, l).value, Simplify(m, r).value);
      CarriesUp(m, s.mul, l, r, fromLeft, t);
    }
  }

  lemma LeftTypes(m: Machine, e: CmpExpr)
    requires Simplify(m, e).Ok?
    ensures Simplify(m, e).value.ty == TypeOf(ShapeOf(m, e))
  {
    hide Simplify;
    ResultType(m, e);
    ShapeType(m, e);
  }

  /** Expressions of a shape are always evaluated to the exact value wrapped into the left type if and only if no
      operator of the shape is computed in a type narrower than that one. */
  lemma ExactIff(m: Machine, s: Shape)
    ensures (forall e :: HasShape(m, e, s) ==> IsExact(m, e)) <==> WideFor(s, TypeOf(s))
  {
    hide Simplify, IsExact;
    if WideFor(s, TypeOf(s)) {
      forall e | HasShape(m, e, s)
        ensures IsExact(m, e)
      {
        ShapeType(m, e);
        WideCongruent(m, e, TypeOf(s));
        ExactIffCongruent(m, e);
      }
    } else {
      var e := Breaks(m, s, TypeOf(s));
      ShapeType(m, e);
      ExactIffCongruent(m, e);
      assert HasShape(m, e, s) && !IsExact(m, e);
    }
  }
}

/** The 64-arm operator tables of the comparison-expression evaluators, and the one-line rules they compute
    (src/arch/x86_64.rs, src/arch/aarch64.rs). */
module CmpTables {
  import opened Base
  import opened Bits
  import opened IntTypes

  /** Column of a type in a table row. */
  function Column(t: IntType): (i: nat)
    ensures i < 8
  {
    match t
    case U8 => 0 case I8 => 1 case U16 => 2 case I16 => 3 case U32 => 4 case I32 => 5 case U64 => 6 case I64 => 7
  }

  // ---- multiplication ----

  /** The type each multiplication arm computes in. */
  function MulVia(l: IntType, r: IntType): IntType {
    match l
    case U8 => [U8, I32, U16, I32, U32, I32, U64, I64][Column(r)]
    case I8 => [I16, I8, I32, I16, I64, I64, I64, I64][Column(r)]
    case U16 => [U16, I32, U16, I32, U32, I32, U64, I64][Column(r)]
    case I16 => [I16, I16, I32, I16, I64, I32, I64, I64][Column(r)]
    case U32 => [U32, I64, U32, I64, U32, I64, U64, I64][Column(r)]
    case I32 => [I32, I32, I32, I32, I64, I32, I64, I64][Column(r)]
    case U64 => [U64, I64, U64, I64, U64, I64, U64, I64][Column(r)]
    case I64 => I64
  }

  /** Cast both operands, multiply with wrap-around, cast back to the left type. */
  function MulArm(l: Value, r: Value): Value {
    var via := MulVia(l.ty, r.ty);
    Typed(l.ty, Wrap(l.ty, Wrap(via, Wrap(via, l.v) * Wrap(via, r.v))))
  }

  function MulRule(l: Value, r: Value): Value {
    Typed(l.ty, Wrap(l.ty, l.v * r.v))
  }

  lemma MulViaWide(l: IntType, r: IntType)
    ensures Width(l) <= Width(MulVia(l, r))
  {
  }

  /** Every multiplication arm is the exact product modulo the left operand's width. */
  lemma MulRefines(l: Value, r: Value)
    ensures MulArm(l, r) == MulRule(l, r)
  {
    var via, m := MulVia(l.ty, r.ty), Modulus(l.ty);
    MulViaWide(l.ty, r.ty);
    hide MulVia, Modulus, Wrap;
    CastCongruent(via, l.ty, l.v);
    CastCongruent(via, l.ty, r.v);
    CongruentMul(Wrap(via, l.v), Wrap(via, r.v), l.v, r.v, m);
    WrapThrough(via, l.ty, Wrap(via, l.v) * Wrap(via, r.v), l.v * r.v);
  }

  lemma CastCongruent(via: IntType, t: IntType, x: int)
    requires Width(t) <= Width(via)
    ensures Congruent(Wrap(via, x), x, Modulus(t))
  {
    WrapCongruent(via, x);
    CongruentNarrow(Wrap(via, x), x, via, t);
  }

  // ---- addition ----

  /** The type each addition and subtraction arm computes in. */
  function AddVia(l: IntType, r: IntType): IntType {
    match l
    case U8 => [U8, U8, U16, U16, U32, U32, U64, U64][Column(r)]
    case I8 => [I8, I8, I16, I16, I32, I32, I64, I64][Column(r)]
    case U16 => [U16, U16, U16, U16, U32, U32, U64, U64][Column(r)]
    case I16 => [I16, I16, I16, I16, I32, I32, I64, I64][Column(r)]
    case U32 => [U32, U32, U32, U32, U32, U32, U64, U64][Column(r)]
    case I32 => [I32, I32, I32, I32, I32, I32, I64, I64][Column(r)]
    case U64 => U64
    case I64 => I64
  }

  /** The type the right operand is cast to: its own signedness at the width of the arm. */
  function AddArgument(l: IntType, r: IntType): IntType {
    match AddVia(l, r)
    case U8 => if Signed(r) then I8 else U8
    case I8 => if Signed(r) then I8 else U8
    case U16 => if Signed(r) then I16 else U16
    case I16 => if Signed(r) then I16 else U16
    case U32 => if Signed(r) then I32 else U32
    case I32 => if Signed(r) then I32 else U32
    case U64 => if Signed(r) then I64 else U64
    case I64 => if Signed(r) then I64 else U64
  }

  /** `wrapping_add`, `wrapping_add_signed` or `wrapping_add_unsigned`, by the two signednesses. */
  function AddArm(l: Value, r: Value): Value {
    var via := AddVia(l.ty, r.ty);
    Typed(l.ty, Wrap(l.ty, Wrap(via, Wrap(via, l.v) + Wrap(AddArgument(l.ty, r.ty), r.v))))
  }

  function AddRule(l: Value, r: Value): Value {
    Typed(l.ty, Wrap(l.ty, l.v + r.v))
  }

  lemma AddViaWide(l: IntType, r: IntType)
    ensures Width(l) <= Width(AddVia(l, r)) == Width(AddArgument(l, r))
    ensures Width(r) <= Width(AddVia(l, r))
    ensures Signed(l) == Signed(AddVia(l, r)) && Signed(r) == Signed(AddArgument(l, r))
  {
  }

  lemma AddRefines(l: Value, r: Value)
    ensures AddArm(l, r) == AddRule(l, r)
  {
    var via, arg, m := AddVia(l.ty, r.ty), AddArgument(l.ty, r.ty), Modulus(l.ty);
    AddViaWide(l.ty, r.ty);
    hide AddVia, AddArgument, Modulus, Wrap;
    CastCongruent(via, l.ty, l.v);
    CastCongruent(arg, l.ty, r.v);
    CongruentAdd(Wrap(via, l.v), Wrap(arg, r.v), l.v, r.v, m);
    WrapThrough(via, l.ty, Wrap(via, l.v) + Wrap(arg, r.v), l.v + r.v);
  }

  // ---- subtraction ----

  /** What each subtraction arm adds to the left operand. An unsigned left operand negates a signed right one in
      its own type before widening; a signed left operand adds an unsigned right one. */
  function Subtrahend(l: IntType, r: Value): int {
    var arg := AddArgument(l, r.ty);
    if Signed(l) == Signed(r.ty) then -Wrap(arg, r.v)
    else if Signed(r.ty) then Wrap(arg, Wrap(r.ty, -r.v))
    else Wrap(arg, r.v)
  }

  function SubArm(l: Value, r: Value): Value {
    var via := AddVia(l.ty, r.ty);
    Typed(l.ty, Wrap(l.ty, Wrap(via, Wrap(via, l.v) + Subtrahend(l.ty, r))))
  }

  function SubRule(l: Value, r: Value): Value {
    Typed(l.ty, Wrap(l.ty, l.v - r.v))
  }

  /** When subtraction subtracts: not on the least value of a narrower signed operand, and for a signed left
      operand with an unsigned right one only when the right one is its own negation. */
  predicate SubExact(l: IntType, r: Value) {
    if Signed(l) && !Signed(r.ty) then r.v % Half(l) == 0
    else if !Signed(l) && Signed(r.ty) then Width(l) <= Width(r.ty) || r.v != Least(r.ty)
    else true
  }

  lemma SubRefinesIff(l: Value, r: Value)
    ensures SubArm(l, r) == SubRule(l, r) <==> SubExact(l.ty, r)
  {
    var s := Subtrahend(l.ty, r);
    SubArmSum(l, r, s);
    WrapEqualIff(l.ty, l.v + s, l.v - r.v);
    ShiftCongruent(l.v, s, -r.v, Modulus(l.ty));
    SubtrahendIff(l.ty, r);
  }

  lemma ShiftCongruent(a: int, x: int, y: int, m: nat)
    requires m > 0
    ensures Congruent(a + x, a + y, m) <==> Congruent(x, y, m)
  {
    assert (a + x) - (a + y) == x - y;
  }

  lemma SubArmSum(l: Value, r: Value, s: int)
    requires s == Subtrahend(l.ty, r)
    ensures SubArm(l, r) == Typed(l.ty, Wrap(l.ty, l.v + s))
  {
    var via := AddVia(l.ty, r.ty);
    AddViaWide(l.ty, r.ty);
    hide AddVia, Subtrahend, Modulus, Wrap;
    CastCongruent(via, l.ty, l.v);
    assert Congruent(s, s, Modulus(l.ty));
    CongruentAdd(Wrap(via, l.v), s, l.v, s, Modulus(l.ty));
    WrapThrough(via, l.ty, Wrap(via, l.v) + s, l.v + s);
  }

  lemma SubtrahendIff(l: IntType, r: Value)
    ensures Congruent(Subtrahend(l, r), -r.v, Modulus(l)) <==> SubExact(l, r)
  {
    var arg := AddArgument(l, r.ty);
    AddViaWide(l, r.ty);
    WidenIdentity(arg, r.ty, r.v);
    hide AddArgument, AddVia;
    if Signed(l) == Signed(r.ty) {
    } else if Signed(r.ty) {
      WidenIdentity(arg, r.ty, Wrap(r.ty, -r.v));
      NegateIff(l, r);
    } else {
      DoubleIff(l, r.v);
    }
  }

  lemma WidenIdentity(arg: IntType, t: IntType, x: int)
    requires Width(t) <= Width(arg) && Signed(t) == Signed(arg) && InRange(t, x)
    ensures Wrap(arg, x) == x
  {
    assert InRange(arg, x);
    WrapIdentity(arg, x);
  }

  lemma NegateIff(l: IntType, r: Value)
    requires Signed(r.ty)
    ensures Congruent(Wrap(r.ty, -r.v), -r.v, Modulus(l)) <==> Width(l) <= Width(r.ty) || r.v != Least(r.ty)
  {
    if r.v != Least(r.ty) {
      WrapIdentity(r.ty, -r.v);
    } else {
      var m := Modulus(r.ty);
      WrapCongruent(r.ty, -r.v);
      assert Wrap(r.ty, -r.v) == r.v by {
        CongruentBy(r.v, -r.v, m, -1);
        WrapEqualIff(r.ty, r.v, -r.v);
        WrapIdentity(r.ty, r.v);
      }
      if Width(l) <= Width(r.ty) {
        CongruentNarrow(r.v, -r.v, r.ty, l);
      } else if Congruent(r.v, -r.v, Modulus(l)) {
        var k := Multiple(r.v, -r.v, Modulus(l));
        Scale(Modulus(l), k);
      }
    }
  }

  lemma DoubleIff(l: IntType, x: int)
    ensures Congruent(x, -x, Modulus(l)) <==> x % Half(l) == 0
  {
    var h := Half(l);
    hide Half;
    if x % h == 0 {
      Doubled(x, x / h, h);
      CongruentBy(x, -x, 2 * h, x / h);
    }
    if Congruent(x, -x, 2 * h) {
      var k := Multiple(x, -x, 2 * h);
      Doubled(k * h, k, h);
      QuotientUnique(x, h, k, 0);
    }
  }

  lemma Doubled(x: int, k: int, h: nat)
    requires x == k * h
    ensures x == -x + k * (2 * h)
  {
    assert k * (2 * h) == 2 * (k * h);
  }

  // ---- shifts and rotates ----

  datatype Shift = Lsl | Lsr | Asr | Ror

  /** The count handed to the shift: the shifter cast to `u32`, in one arm through `u8`. */
  function Count(l: IntType, r: Value): nat {
    if l == U8 && r.ty == I8 then Wrap(U32, Wrap(U8, r.v)) else Wrap(U32, r.v)
  }

  /** `wrapping_shl`, `wrapping_shr` (for both right shifts) and `rotate_right`; all reduce the count. */
  function ShiftArm(l: Value, r: Value, op: Shift): Value {
    var n := Count(l.ty, r) % Width(l.ty);
    match op
    case Lsl => Typed(l.ty, Wrap(l.ty, l.v * Pow2(n)))
    case Lsr => ShiftRight(l, n)
    case Asr => ShiftRight(l, n)
    case Ror => Typed(l.ty, Rotate(l.ty, l.v, n))
  }

  /** Floor division: zeros enter an unsigned value, copies of the sign bit a signed one. */
  function ShiftRight(l: Value, n: nat): (r: Value)
    ensures r.ty == l.ty
  {
    DivideInRange(l, Pow2(n));
    Typed(l.ty, l.v / Pow2(n))
  }

  /** The low `n` bits move above the rest. */
  function Rotate(t: IntType, x: int, n: nat): (r: int)
    requires n <= Width(t)
    ensures InRange(t, r)
  {
    Wrap(t, RotateBits(x % Modulus(t), Width(t), n))
  }

  function RotateBits(u: nat, w: nat, n: nat): nat
    requires n <= w
  {
    QuotientNat(u, Pow2(n));
    Spread(u / Pow2(n), u % Pow2(n), Pow2(w - n))
  }

  function Spread(high: nat, low: nat, c: nat): nat {
    NonNegative(low, c);
    high + low * c
  }

  lemma DivideInRange(l: Value, p: nat)
    requires p > 0
    ensures InRange(l.ty, l.v / p)
  {
    DivideShrinks(l.v, p);
  }

  /** Dividing moves a number towards zero, and a negative one no further than minus one. */
  lemma DivideShrinks(v: int, p: nat)
    requires p > 0
    ensures v >= 0 ==> 0 <= v / p <= v
    ensures v < 0 ==> v <= v / p < 0
  {
    Sandwich(v, p, v / p, v % p);
  }

  lemma Sandwich(v: int, p: nat, q: int, r: nat)
    requires v == p * q + r && r < p
    ensures v >= 0 ==> 0 <= q <= v
    ensures v < 0 ==> v <= q < 0
  {
    Stretch(p, q);
    Stretch(p, q + 1);
    assert p * (q + 1) == p * q + p;
  }

  lemma Stretch(p: nat, q: int)
    requires p > 0
    ensures q >= 0 ==> p * q >= q
    ensures q <= 0 ==> p * q <= q
  {
    if q >= 0 {
      NonNegative(p - 1, q);
    } else {
      NonNegative(p - 1, -q);
    }
    assert (p - 1) * q == p * q - q;
  }

  /** The amount is the shifter itself reduced, Euclidean, modulo the width, for all 64 type pairs. */
  lemma AmountRule(l: IntType, r: Value)
    ensures Count(l, r) % Width(l) == r.v % Width(l)
  {
    var w := Width(l);
    WrapCongruent(U32, r.v);
    ReduceWidth(l, U32, Wrap(U32, r.v), r.v);
    if l == U8 && r.ty == I8 {
      WrapCongruent(U8, r.v);
      WrapCongruent(U32, Wrap(U8, r.v));
      ReduceWidth(l, U32, Wrap(U32, Wrap(U8, r.v)), Wrap(U8, r.v));
      ReduceWidth(l, U8, Wrap(U8, r.v), r.v);
    }
  }

  lemma ReduceWidth(l: IntType, t: IntType, x: int, y: int)
    requires (t == U32 || (t == U8 && l == U8)) && Congruent(x, y, Modulus(t))
    ensures x % Width(l) == y % Width(l)
  {
    var w := Width(l);
    var k := Multiple(x, y, Modulus(t));
    var f := Modulus(t) / w;
    assert Modulus(t) == f * w;
    assert x == w * (y / w + k * f) + y % w by {
      assert k * (f * w) == w * (k * f);
    }
    QuotientUnique(x, w, y / w + k * f, y % w);
  }

  /** One shift rule by amount: multiplication, floor division or rotation. */
  function ShiftRule(l: Value, n: nat, op: Shift): Value
    requires n < Width(l.ty)
  {
    match op
    case Lsl => Typed(l.ty, Wrap(l.ty, l.v * Pow2(n)))
    case Lsr => ShiftRight(l, n)
    case Asr => ShiftRight(l, n)
    case Ror => Typed(l.ty, Rotate(l.ty, l.v, n))
  }

  lemma ShiftRefines(l: Value, r: Value, op: Shift)
    ensures ShiftArm(l, r, op) == ShiftRule(l, r.v % Width(l.ty), op)
  {
    AmountRule(l.ty, r);
  }

  /** The right shift named logical is arithmetic: on a signed value it is the logical one exactly when the
      value is non-negative or the amount is zero. */
  lemma LogicalRightIff(l: Value, r: Value)
    ensures var n := r.v % Width(l.ty);
            ShiftArm(l, r, Lsr).v == Wrap(l.ty, l.v % Modulus(l.ty) / Pow2(n)) <==> l.v >= 0 || n == 0
  {
    var n, w, m := r.v % Width(l.ty), Width(l.ty), Modulus(l.ty);
    AmountRule(l.ty, r);
    assert ShiftArm(l, r, Lsr) == ShiftRight(l, n);
    var p := Pow2(n);
    DivideInRange(l, p);
    WrapIdentity(l.ty, l.v / p);
    if l.v >= 0 {
      QuotientUnique(l.v, m, 0, l.v);
    } else {
      QuotientUnique(l.v, m, -1, l.v + m);
      ModulusIsPower(l.ty);
      Pow2Add(n, w - n);
      var c := Pow2(w - n);
      hide Pow2;
      HighBits(l.v, m, p, c);
      WrapEqualIff(l.ty, l.v / p, l.v / p + c);
      CarryIff(l.v / p, c, p, m);
    }
  }

  lemma HighBits(v: int, m: nat, p: nat, c: nat)
    requires p > 0 && m == p * c
    ensures (v + m) / p == v / p + c
  {
    assert v + m == p * (v / p + c) + v % p by {
      assert p * (v / p + c) == p * (v / p) + p * c;
    }
    QuotientUnique(v + m, p, v / p + c, v % p);
  }

  lemma CarryIff(x: int, c: nat, p: nat, m: nat)
    requires p > 0 && c > 0 && m == p * c && m > 0
    ensures Congruent(x, x + c, m) <==> p == 1
  {
    if p == 1 {
      CongruentBy(x, x + c, m, -1);
    } else if Congruent(x, x + c, m) {
      var k := Multiple(x, x + c, m);
      assert m >= 2 * c;
      Scale(m, -k);
      Scale(m, k);
    }
  }

  /** Rotating by `n` and then by the rest of the width gives every value back. */
  lemma RotateInverse(t: IntType, x: int, n: nat)
    requires InRange(t, x) && n <= Width(t)
    ensures Rotate(t, Rotate(t, x, n), Width(t) - n) == x
  {
    var m, w := Modulus(t), Width(t);
    var u := x % m;
    ModulusIsPower(t);
    RotateBitsInverse(u, w, n);
    var v := RotateBits(u, w, n);
    hide RotateBits, Modulus;
    WrapResidue(t, v);
    assert Rotate(t, Wrap(t, v), w - n) == Wrap(t, u);
    ResidueCongruent(x, m);
    WrapEqualIff(t, u, x);
    WrapIdentity(t, x);
  }

  lemma ResidueCongruent(x: int, m: nat)
    requires m > 0
    ensures Congruent(x % m, x, m)
  {
    CongruentBy(x % m, x, m, -(x / m));
  }

  lemma WrapResidue(t: IntType, v: nat)
    requires v < Modulus(t)
    ensures Wrap(t, v) % Modulus(t) == v
  {
    if Wrap(t, v) != v {
      QuotientUnique(Wrap(t, v), Modulus(t), -1, v);
    }
  }

  lemma RotateBitsInverse(u: nat, w: nat, n: nat)
    requires n <= w && u < Pow2(w)
    ensures RotateBits(u, w, n) < Pow2(w)
    ensures RotateBits(RotateBits(u, w, n), w, w - n) == u
  {
    Pow2Add(n, w - n);
    hide Pow2;
    SpreadInverse(u, Pow2(n), Pow2(w - n));
  }

  lemma SpreadInverse(u: nat, p: nat, c: nat)
    requires p > 0 && c > 0 && u < p * c
    ensures var v := Spread(u / p, u % p, c); v < p * c && Spread(v / c, v % c, p) == u
  {
    var a, b := u / p, u % p;
    assert u == p * a + b;
    Quotients(u, p, c, a, b);
    var v := Spread(a, b, c);
    QuotientUnique(v, c, b, a);
  }

  lemma Quotients(u: nat, p: nat, c: nat, a: nat, b: nat)
    requires u == p * a + b && b < p && u < p * c
    ensures a < c && c * b + a < p * c
  {
    assert p * (a - c) == p * a - p * c;
    if a >= c {
      NonNegative(p, a - c);
    }
    NonNegative(c, p - 1 - b);
    assert c * (p - 1 - b) == p * c - c - c * b;
  }

  /** Rotation permutes the bits: bit `i` of the result is bit `i + n`, wrapped round, of the operand. */
  lemma RotateBit(u: nat, w: nat, n: nat, i: nat)
    requires n < w && i < w && u < Pow2(w)
    ensures Bit(RotateBits(u, w, n), i) <==> Bit(u, if i + n < w then i + n else i + n - w)
  {
    hide Pow2, Spread;
    var p, c := Pow2(n), Pow2(w - n);
    var a, b := u / p, u % p;
    if i + n < w {
      SpreadLow(a, b, i, w - n);
      DivDiv(u, p, Pow2(i));
      Pow2Add(n, i);
    } else {
      var j := i + n - w;
      Pow2Add(n, w - n);
      Pow2Add(w - n, j);
      SpreadHigh(u, p, c, Pow2(j));
      SpreadLow(b, a, j, n);
      SpreadWhole(u, p);
    }
  }

  /** A left shift multiplies modulo the width, and both right shifts round down. */
  lemma ShiftsScale(l: Value, r: Value)
    ensures var p, q := Pow2(r.v % Width(l.ty)), ShiftArm(l, r, Lsr).v;
            && ShiftArm(l, r, Asr).v == q && q * p <= l.v < (q + 1) * p
            && Congruent(ShiftArm(l, r, Lsl).v, l.v * p, Modulus(l.ty))
  {
    var n := r.v % Width(l.ty);
    ShiftRefines(l, r, Lsl);
    ShiftRefines(l, r, Lsr);
    ShiftRefines(l, r, Asr);
    hide ShiftArm, Wrap, Width, Modulus, Congruent, Pow2;
    WrapCongruent(l.ty, l.v * Pow2(n));
    Floors(l.v, Pow2(n));
  }

  lemma Floors(x: int, p: nat)
    requires p > 0
    ensures x / p * p <= x < (x / p + 1) * p
  {
    assert x == p * (x / p) + x % p;
  }

  /** A rotation moves bit `i + n` of the value to place `i`, counting places modulo the width. */
  lemma RotatesRight(l: Value, r: Value, i: nat)
    requires i < Width(l.ty)
    ensures var w, m := Width(l.ty), Modulus(l.ty);
            Bit(ShiftArm(l, r, Ror).v % m, i) <==> Bit(l.v % m, (i + r.v) % w)
  {
    var w, m := Width(l.ty), Modulus(l.ty);
    var n, u := r.v % w, l.v % m;
    AmountRule(l.ty, r);
    ModulusIsPower(l.ty);
    RotateBitsInverse(u, w, n);
    WrapResidue(l.ty, RotateBits(u, w, n));
    RotateBit(u, w, n, i);
    PlaceSum(i, r.v, w);
    hide RotateBits, Bit, Pow2, Wrap;
  }

  lemma PlaceSum(i: nat, x: int, w: nat)
    requires i < w
    ensures (i + x) % w == if i + x % w < w then i + x % w else i + x % w - w
  {
    if i + x % w < w {
      QuotientUnique(i + x, w, x / w, i + x % w);
    } else {
      QuotientUnique(i + x, w, x / w + 1, i + x % w - w);
    }
  }

  lemma SpreadLow(a: nat, b: nat, i: nat, k: nat)
    requires i < k
    ensures Bit(Spread(a, b, Pow2(k)), i) <==> Bit(a, i)
  {
    Pow2Add(i, k - i);
    assert Pow2(k - i) == 2 * Pow2(k - i - 1);
    LowBit(a, b, Pow2(i), Pow2(k - i - 1));
  }

  /** Adding a multiple of a higher power leaves a low bit alone. */
  lemma LowBit(a: nat, b: nat, p: nat, h: nat)
    requires p > 0
    ensures (a + b * (p * (2 * h))) / p % 2 == a / p % 2
  {
    var y := b * h;
    NonNegative(b, h);
    assert b * (p * (2 * h)) == p * (2 * y);
    HighBits(a, p * (2 * y), p, 2 * y);
    EvenPart(a / p, y);
  }

  lemma EvenPart(x: int, y: int)
    ensures (x + 2 * y) % 2 == x % 2
  {
  }

  lemma SpreadHigh(u: nat, p: nat, c: nat, d: nat)
    requires p > 0 && c > 0 && d > 0 && u < p * c
    ensures Spread(u / p, u % p, c) / (c * d) == u % p / d
  {
    var a, b := u / p, u % p;
    var v := Spread(a, b, c);
    Quotients(u, p, c, a, b);
    QuotientUnique(v, c, b, a);
    DivDiv(v, c, d);
  }

  lemma SpreadWhole(u: nat, p: nat)
    requires p > 0
    ensures Spread(u % p, u / p, p) == u
  {
  }
}

/** The eight machine integer types of a comparison value, and arithmetic modulo their widths. */
module IntTypes {
  import opened Base

  datatype IntType = U8 | I8 | U16 | I16 | U32 | I32 | U64 | I64

  function Width(t: IntType): nat {
    match t
    case U8 => 8 case I8 => 8
    case U16 => 16 case I16 => 16
    case U32 => 32 case I32 => 32
    case U64 => 64 case I64 => 64
  }

  predicate Signed(t: IntType) {
    t.I8? || t.I16? || t.I32? || t.I64?
  }

  function Half(t: IntType): (m: nat)
    ensures m > 0
  {
    match t
    case U8 => 0x80 case I8 => 0x80
    case U16 => 0x8000 case I16 => 0x8000
    case U32 => 0x8000_0000 case I32 => 0x8000_0000
    case U64 => 0x8000_0000_0000_0000 case I64 => 0x8000_0000_0000_0000
  }

  /** Two to the width. */
  function Modulus(t: IntType): (m: nat)
    ensures m > 0
  {
    2 * Half(t)
  }

  function Least(t: IntType): int {
    if Signed(t) then -(Half(t) as int) else 0
  }

  predicate InRange(t: IntType, x: int) {
    Least(t) <= x < Least(t) + Modulus(t)
  }

  /** What the types hold. */
  lemma Ranges(x: int)
    ensures InRange(U8, x) <==> 0 <= x <= 0xFF
    ensures InRange(I8, x) <==> -0x80 <= x <= 0x7F
    ensures InRange(U16, x) <==> 0 <= x <= 0xFFFF
    ensures InRange(I16, x) <==> -0x8000 <= x <= 0x7FFF
    ensures InRange(U32, x) <==> 0 <= x <= 0xFFFF_FFFF
    ensures InRange(I32, x) <==> -0x8000_0000 <= x <= 0x7FFF_FFFF
    ensures InRange(U64, x) <==> 0 <= x <= 0xFFFF_FFFF_FFFF_FFFF
    ensures InRange(I64, x) <==> -0x8000_0000_0000_0000 <= x <= 0x7FFF_FFFF_FFFF_FFFF
  {
  }

  /** A Rust `as` cast, and the wrapping of every `wrapping_*` operation. */
  function Wrap(t: IntType, x: int): (r: int)
    ensures InRange(t, r)
  {
    var r := x % Modulus(t);
    if Signed(t) && r >= Half(t) then r - Modulus(t) else r
  }

  datatype Typed = Typed(ty: IntType, v: int)

  /** A `CmpValue`: an integer of one of the eight types. */
  type Value = x: Typed | InRange(x.ty, x.v) witness Typed(U8, 0)

  predicate Congruent(x: int, y: int, m: nat)
    requires m > 0
  {
    (x - y) % m == 0
  }

  lemma CongruentBy(x: int, y: int, m: nat, k: int)
    requires m > 0 && x == y + k * m
    ensures Congruent(x, y, m)
  {
    QuotientUnique(x - y, m, k, 0);
  }

  lemma Multiple(x: int, y: int, m: nat) returns (k: int)
    requires m > 0 && Congruent(x, y, m)
    ensures x == y + k * m
  {
    k := (x - y) / m;
  }

  lemma CongruentTrans(x: int, y: int, z: int, m: nat)
    requires m > 0 && Congruent(x, y, m) && Congruent(y, z, m)
    ensures Congruent(x, z, m)
  {
    var j := Multiple(x, y, m);
    var k := Multiple(y, z, m);
    assert x == z + (j + k) * m;
    CongruentBy(x, z, m, j + k);
  }

  lemma CongruentSym(x: int, y: int, m: nat)
    requires m > 0 && Congruent(x, y, m)
    ensures Congruent(y, x, m)
  {
    var k := Multiple(x, y, m);
    CongruentBy(y, x, m, -k);
  }

  lemma CongruentAdd(x: int, y: int, x': int, y': int, m: nat)
    requires m > 0 && Congruent(x, x', m) && Congruent(y, y', m)
    ensures Congruent(x + y, x' + y', m)
  {
    var j := Multiple(x, x', m);
    var k := Multiple(y, y', m);
    assert x + y == x' + y' + (j + k) * m;
    CongruentBy(x + y, x' + y', m, j + k);
  }

  lemma CongruentMul(x: int, y: int, x': int, y': int, m: nat)
    requires m > 0 && Congruent(x, x', m) && Congruent(y, y', m)
    ensures Congruent(x * y, x' * y', m)
  {
    var j := Multiple(x, x', m);
    var k := Multiple(y, y', m);
    var c := x' * k + j * y' + j * k * m;
    assert x * y == x' * y' + c * m by {
      assert (x' + j * m) * (y' + k * m) == x' * y' + x' * (k * m) + (j * m) * y' + (j * m) * (k * m);
      assert x' * (k * m) == (x' * k) * m;
      assert (j * m) * y' == (j * y') * m;
      assert (j * m) * (k * m) == (j * k * m) * m;
    }
    CongruentBy(x * y, x' * y', m, c);
  }

  /** Narrowing keeps congruence: a narrower width's modulus divides a wider one's. */
  lemma CongruentNarrow(x: int, y: int, wide: IntType, narrow: IntType)
    requires Width(narrow) <= Width(wide) && Congruent(x, y, Modulus(wide))
    ensures Congruent(x, y, Modulus(narrow))
  {
    var k := Multiple(x, y, Modulus(wide));
    var f := Ratio(wide, narrow);
    assert k * Modulus(wide) == (k * f) * Modulus(narrow);
    CongruentBy(x, y, Modulus(narrow), k * f);
  }

  lemma Ratio(wide: IntType, narrow: IntType) returns (f: nat)
    requires Width(narrow) <= Width(wide)
    ensures Modulus(wide) == f * Modulus(narrow)
  {
    f := Modulus(wide) / Modulus(narrow);
  }

  lemma WrapCongruent(t: IntType, x: int)
    ensures Congruent(Wrap(t, x), x, Modulus(t))
  {
    var m := Modulus(t);
    var q := x / m;
    if Wrap(t, x) == x % m {
      CongruentBy(Wrap(t, x), x, m, -q);
    } else {
      CongruentBy(Wrap(t, x), x, m, -q - 1);
    }
  }

  /** Congruent values in range are equal. */
  lemma RangeUnique(t: IntType, x: int, y: int)
    requires InRange(t, x) && InRange(t, y) && Congruent(x, y, Modulus(t))
    ensures x == y
  {
    var k := Multiple(x, y, Modulus(t));
    Scale(Modulus(t), k);
  }

  lemma WrapIdentity(t: IntType, x: int)
    requires InRange(t, x)
    ensures Wrap(t, x) == x
  {
    WrapCongruent(t, x);
    RangeUnique(t, Wrap(t, x), x);
  }

  /** Wrapping identifies exactly the congruent integers. */
  lemma WrapEqualIff(t: IntType, x: int, y: int)
    ensures Wrap(t, x) == Wrap(t, y) <==> Congruent(x, y, Modulus(t))
  {
    var m := Modulus(t);
    WrapCongruent(t, x);
    WrapCongruent(t, y);
    CongruentSym(Wrap(t, x), x, m);
    CongruentSym(Wrap(t, y), y, m);
    if Wrap(t, x) == Wrap(t, y) {
      CongruentTrans(x, Wrap(t, x), y, m);
    }
    if Congruent(x, y, m) {
      CongruentTrans(Wrap(t, x), x, y, m);
      CongruentTrans(Wrap(t, x), y, Wrap(t, y), m);
      RangeUnique(t, Wrap(t, x), Wrap(t, y));
    }
  }

  /** Wrapping at a wider type first does not change the narrower result. */
  lemma WrapThrough(wide: IntType, narrow: IntType, x: int, y: int)
    requires Width(narrow) <= Width(wide) && Congruent(x, y, Modulus(narrow))
    ensures Wrap(narrow, Wrap(wide, x)) == Wrap(narrow, y)
  {
    WrapCongruent(wide, x);
    CongruentNarrow(Wrap(wide, x), x, wide, narrow);
    CongruentTrans(Wrap(wide, x), x, y, Modulus(narrow));
    WrapEqualIff(narrow, Wrap(wide, x), y);
  }

  lemma ModulusIsPower(t: IntType)
    ensures Modulus(t) == Pow2(Width(t)) && Half(t) == Pow2(Width(t) - 1)
  {
    Powers();
  }

  lemma Powers()
    ensures Pow2(7) == 0x80 && Pow2(8) == 0x100 && Pow2(15) == 0x8000 && Pow2(16) == 0x1_0000
    ensures Pow2(31) == 0x8000_0000 && Pow2(32) == 0x1_0000_0000
    ensures Pow2(63) == 0x8000_0000_0000_0000 && Pow2(64) == 0x1_0000_0000_0000_0000
  {
    assert Pow2(7) == 0x80;
    Pow2Add(8, 7);
    Pow2Add(16, 15);
    Pow2Add(32, 31);
  }
}

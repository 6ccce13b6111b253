/** Exclusive and inclusive or on unbounded naturals, with the laws that make them bitwise. */
module Bits {
  import opened Base

  /** A 64-bit unsigned word. */
  type Word = x: int | 0 <= x < 0x1_0000_0000_0000_0000

  function Xor(a: nat, b: nat): nat
    decreases a + b
  {
    if a == 0 && b == 0 then 0 else 2 * Xor(a / 2, b / 2) + if a % 2 != b % 2 then 1 else 0
  }

  function Or(a: nat, b: nat): nat
    decreases a + b
  {
    if a == 0 && b == 0 then 0 else 2 * Or(a / 2, b / 2) + if a % 2 != 0 || b % 2 != 0 then 1 else 0
  }

  /** Shift right. */
  function Shr(a: nat, k: nat): nat {
    QuotientNat(a, Pow2(k));
    a / Pow2(k)
  }

  predicate Bit(a: nat, k: nat) {
    Shr(a, k) % 2 != 0
  }

  lemma XorHalf(a: nat, b: nat)
    ensures Xor(a, b) / 2 == Xor(a / 2, b / 2)
    ensures Xor(a, b) % 2 != 0 <==> a % 2 != b % 2
  {
  }

  lemma {:induction false} XorZero(a: nat)
    ensures Xor(a, 0) == a
    decreases a
  {
    if a != 0 {
      XorZero(a / 2);
    }
  }

  lemma {:induction false} XorCommutes(a: nat, b: nat)
    ensures Xor(a, b) == Xor(b, a)
    decreases a + b
  {
    if a != 0 || b != 0 {
      XorCommutes(a / 2, b / 2);
    }
  }

  lemma {:induction false} XorAssociates(a: nat, b: nat, c: nat)
    ensures Xor(Xor(a, b), c) == Xor(a, Xor(b, c))
    decreases a + b + c
  {
    if a != 0 || b != 0 || c != 0 {
      XorAssociates(a / 2, b / 2, c / 2);
      XorHalf(a, b);
      XorHalf(b, c);
      var l, r := Xor(Xor(a, b), c), Xor(a, Xor(b, c));
      XorHalf(Xor(a, b), c);
      XorHalf(a, Xor(b, c));
      assert l / 2 == r / 2 && l % 2 == r % 2;
    }
  }

  lemma XorExchange(p: nat, q: nat, r: nat, s: nat)
    ensures Xor(Xor(p, q), Xor(r, s)) == Xor(Xor(p, r), Xor(q, s))
  {
    hide Xor;
    XorAssociates(p, q, Xor(r, s));
    XorAssociates(q, r, s);
    XorCommutes(q, r);
    XorAssociates(r, q, s);
    XorAssociates(p, r, Xor(q, s));
  }

  /** Shifting right distributes. */
  lemma {:induction false} XorDiv(a: nat, b: nat, k: nat)
    ensures Shr(Xor(a, b), k) == Xor(Shr(a, k), Shr(b, k))
    decreases k
  {
    if k == 0 {
      ShrNothing(a);
      ShrNothing(b);
      ShrNothing(Xor(a, b));
    } else {
      hide Shr, Xor;
      XorDiv(a / 2, b / 2, k - 1);
      XorHalf(a, b);
      ShrStep(a, k);
      ShrStep(b, k);
      ShrStep(Xor(a, b), k);
    }
  }

  lemma ShrNothing(a: nat)
    ensures Shr(a, 0) == a
  {
  }

  lemma ShrStep(a: nat, k: nat)
    requires k > 0
    ensures Shr(a, k) == Shr(a / 2, k - 1)
  {
    DivDiv(a, 2, Pow2(k - 1));
  }

  /** Masking distributes. */
  lemma {:induction false} XorMod(a: nat, b: nat, k: nat)
    ensures Xor(a, b) % Pow2(k) == Xor(a % Pow2(k), b % Pow2(k))
    decreases k
  {
    if k > 0 {
      var p := Pow2(k - 1);
      XorMod(a / 2, b / 2, k - 1);
      XorHalf(a, b);
      ModStep(a, p);
      ModStep(b, p);
      ModStep(Xor(a, b), p);
      XorHalf(a % (2 * p), b % (2 * p));
    }
  }

  lemma ModStep(x: nat, p: nat)
    requires p > 0
    ensures x % (2 * p) / 2 == x / 2 % p && x % (2 * p) % 2 == x % 2
    ensures x % (2 * p) == 2 * (x / 2 % p) + x % 2
  {
    var h := x / 2;
    assert h == p * (h / p) + h % p;
    assert x == (2 * p) * (h / p) + (2 * (h % p) + x % 2) by {
      assert 2 * (p * (h / p)) == (2 * p) * (h / p);
    }
    QuotientUnique(x, 2 * p, h / p, 2 * (h % p) + x % 2);
  }

  lemma XorBound(a: nat, b: nat, k: nat)
    requires a < Pow2(k) && b < Pow2(k)
    ensures Xor(a, b) < Pow2(k)
  {
    XorMod(a, b, k);
    SmallMod(a, Pow2(k));
    SmallMod(b, Pow2(k));
  }

  lemma SmallMod(x: nat, m: nat)
    requires x < m
    ensures x % m == x && x / m == 0
  {
    QuotientUnique(x, m, 0, x);
  }

  /** High and low parts are combined separately. */
  lemma XorSplit(a: nat, b: nat, c: nat, d: nat, k: nat)
    requires a < Pow2(k) && b < Pow2(k)
    ensures c * Pow2(k) >= 0 && d * Pow2(k) >= 0
    ensures Xor(a + c * Pow2(k), b + d * Pow2(k)) == Xor(a, b) + Xor(c, d) * Pow2(k)
  {
    hide Xor;
    var p := Pow2(k);
    NonNegative(c, p);
    NonNegative(d, p);
    var x, y := a + c * p, b + d * p;
    QuotientUnique(x, p, c, a);
    QuotientUnique(y, p, d, b);
    XorDiv(x, y, k);
    XorMod(x, y, k);
    var z := Xor(x, y);
    assert z == p * (z / p) + z % p;
  }

  /** Each bit of a disjunction. */
  lemma {:induction false} OrBit(a: nat, b: nat, k: nat)
    ensures Bit(Or(a, b), k) <==> Bit(a, k) || Bit(b, k)
    decreases k
  {
    if k == 0 {
      ShrNothing(a);
      ShrNothing(b);
      ShrNothing(Or(a, b));
    } else {
      hide Shr;
      OrBit(a / 2, b / 2, k - 1);
      ShrStep(a, k);
      ShrStep(b, k);
      ShrStep(Or(a, b), k);
    }
  }

  /** Each bit of an exclusive or. */
  lemma {:induction false} XorBit(a: nat, b: nat, k: nat)
    ensures Bit(Xor(a, b), k) <==> Bit(a, k) != Bit(b, k)
    decreases k
  {
    if k == 0 {
      ShrNothing(a);
      ShrNothing(b);
      ShrNothing(Xor(a, b));
      XorHalf(a, b);
    } else {
      hide Shr, Xor;
      XorBit(a / 2, b / 2, k - 1);
      XorHalf(a, b);
      ShrStep(a, k);
      ShrStep(b, k);
      ShrStep(Xor(a, b), k);
    }
  }

  /** Masking keeps the low bits. */
  lemma {:induction false} ModBit(a: nat, k: nat, j: nat)
    requires j < k
    ensures Bit(a % Pow2(k), j) <==> Bit(a, j)
    decreases j
  {
    ModStep(a, Pow2(k - 1));
    if j == 0 {
      ShrNothing(a);
      ShrNothing(a % Pow2(k));
    } else {
      ModBit(a / 2, k - 1, j - 1);
      hide Shr;
      ShrStep(a, j);
      ShrStep(a % Pow2(k), j);
    }
  }

  lemma HalfBit(a: nat, j: nat)
    ensures Bit(a / 2, j) <==> Bit(a, j + 1)
  {
    ShrStep(a, j + 1);
  }

  lemma {:induction false} XorSelf(a: nat)
    ensures Xor(a, a) == 0
    decreases a
  {
    if a != 0 {
      XorSelf(a / 2);
    }
  }

  lemma XorCancel(a: nat, b: nat)
    ensures Xor(a, Xor(a, b)) == b
  {
    hide Xor;
    XorAssociates(a, a, b);
    XorSelf(a);
    XorCommutes(0, b);
    XorZero(b);
  }

  lemma {:induction false} PowerBit(j: nat, k: nat)
    ensures Bit(Pow2(j), k) <==> j == k
    decreases k
  {
    if k == 0 {
      ShrNothing(Pow2(j));
    } else {
      ShrStep(Pow2(j), k);
      if j == 0 {
        ShrZero(k - 1);
      } else {
        PowerBit(j - 1, k - 1);
      }
    }
  }

  lemma {:induction false} ShrZero(k: nat)
    ensures Shr(0, k) == 0
  {
    SmallMod(0, Pow2(k));
  }

  lemma {:induction false} SameBits(a: nat, b: nat, k: nat)
    requires a < Pow2(k) && b < Pow2(k) && forall j: nat :: j < k ==> (Bit(a, j) <==> Bit(b, j))
    ensures a == b
    decreases k
  {
    if k > 0 {
      forall j: nat | j < k - 1
        ensures Bit(a / 2, j) <==> Bit(b / 2, j)
      {
        HalfBit(a, j);
        HalfBit(b, j);
      }
      hide Shr;
      SameBits(a / 2, b / 2, k - 1);
      ShrNothing(a);
      ShrNothing(b);
      assert Bit(a, 0) <==> Bit(b, 0);
    }
  }
}

/** Wrappers, bytes and powers shared by every part of the model. */
module Base {

  datatype Option<+T> = None | Some(value: T)

  /** The source's `anyhow::Result`: every `?` is a `:-` here. */
  datatype Result<+T, +E> = Ok(value: T) | Err(error: E) {
    predicate IsFailure() {
      Err?
    }

    function PropagateFailure<U>(): Result<U, E>
      requires Err?
    {
      Err(error)
    }

    function Extract(): T
      requires Ok?
    {
      value
    }
  }

  type byte = x: int | 0 <= x < 256

  function Min(a: int, b: int): int {
    if a <= b then a else b
  }

  function Pow2(n: nat): (r: nat)
    ensures r > 0
  {
    if n == 0 then 1 else 2 * Pow2(n - 1)
  }

  lemma {:induction false} Pow2Add(a: nat, b: nat)
    ensures Pow2(a + b) == Pow2(a) * Pow2(b)
  {
    if a == 0 {
    } else {
      Pow2Add(a - 1, b);
    }
  }

  lemma EighthPower()
    ensures Pow2(8) == 256
  {
  }

  /** Dividing twice is dividing by the product. */
  lemma DivDiv(x: int, a: int, b: int)
    requires a > 0 && b > 0
    ensures a * b > 0
    ensures x / a / b == x / (a * b)
  {
    var q, r := x / a, x % a;
    var q2, r2 := q / b, q % b;
    Regroup(a, b, q2, r2, r);
    assert q == b * q2 + r2;
    QuotientUnique(x, a * b, q2, a * r2 + r);
  }

  lemma Regroup(a: int, b: int, q: int, s: int, r: int)
    requires a > 0 && b > 0 && 0 <= s < b && 0 <= r < a
    ensures a * b > 0 && a * (b * q + s) + r == (a * b) * q + (a * s + r)
    ensures 0 <= a * s + r < a * b
  {
    assert a * (b * q + s) == a * (b * q) + a * s;
    assert a * (b * q) == (a * b) * q;
    NonNegative(a, s);
    NonNegative(a, b - 1 - s);
    assert a * (b - 1 - s) == a * b - a - a * s;
  }

  lemma NonNegative(a: int, b: int)
    requires a >= 0 && b >= 0
    ensures a * b >= 0
  {
  }

  lemma QuotientNat(a: nat, p: nat)
    requires p > 0
    ensures a / p >= 0
  {
    if a / p < 0 {
      Scale(p, a / p);
    }
  }

  lemma QuotientUnique(x: int, d: int, q: int, r: int)
    requires d > 0 && 0 <= r < d && x == d * q + r
    ensures x / d == q && x % d == r
  {
    var q', r' := x / d, x % d;
    assert x == d * q' + r';
    Scale(d, q - q');
    assert d * (q - q') == d * q - d * q';
  }

  lemma Scale(d: int, k: int)
    requires d > 0
    ensures k > 0 ==> d * k >= d
    ensures k < 0 ==> d * k <= -d
  {
  }
}

/** The XOR-fold hash that maps a program counter to a comparison-map row (src/tracer/mod.rs). */
module HashIndex {
  import opened Base
  import opened Bits
  import opened PhysicalMemory

  /** Bytes needed for a value, rounded up to a power of two. */
  function ByteWidth(value: Word): (w: nat)
    ensures w == 1 || w == 2 || w == 4 || w == 8
  {
    if value < 0x10000 then (if value < 0x100 then 1 else 2)
    else if value < 0x1_0000_0000 then 4 else 8
  }

  /** The width used for an array length; the subtraction wraps on an empty array. */
  function HashWidth(len: Word): (w: nat)
    ensures w == 1 || w == 2 || w == 4 || w == 8
  {
    ByteWidth((len - 1) % 0x1_0000_0000_0000_0000)
  }

  // ---- the hash as arithmetic ----

  /** Limb `i` of a value cut into limbs of `w` bytes. */
  function Limb(v: nat, w: nat, i: nat): nat {
    Shr(v, 8 * (i * w)) % Pow2(8 * w)
  }

  /** The first `n` limbs combined with XOR. */
  function LimbXor(v: nat, w: nat, n: nat): nat {
    if n == 0 then 0 else Xor(LimbXor(v, w, n - 1), Limb(v, w, n - 1))
  }

  /** `hash_index(value, len)` */
  function Hashed(value: Word, len: Word): nat {
    LimbXor(value, HashWidth(len), 8 / HashWidth(len))
  }

  // ---- the hash as bytes ----

  function XorByte(a: byte, b: byte): byte {
    EighthPower();
    XorBound(a, b, 8);
    Xor(a, b)
  }

  function XorBytes(s: seq<byte>, t: seq<byte>): (r: seq<byte>)
    requires |s| == |t|
    ensures |r| == |s|
  {
    seq(|s|, i requires 0 <= i < |s| => XorByte(s[i], t[i]))
  }

  function Zeros(n: nat): (s: seq<byte>)
    ensures |s| == n
  {
    seq(n, _ => 0)
  }

  /** The bytes of limb `i`. */
  function Slice(v: nat, w: nat, i: nat): (s: seq<byte>)
    requires i * w + w <= 8
    ensures |s| == w
  {
    NonNegative(i, w);
    LittleEndian(v, 8)[i * w..i * w + w]
  }

  /** The buffer's `w` bytes after `i` rounds of the loop. */
  function Rounds(v: nat, w: nat, i: nat): (s: seq<byte>)
    requires i * w <= 8
    ensures |s| == w
  {
    if i == 0 then Zeros(w)
    else
      assert (i - 1) * w + w == i * w;
      XorBytes(Rounds(v, w, i - 1), Slice(v, w, i - 1))
  }

  lemma RoundsFit(w: nat, i: nat)
    requires (w == 1 || w == 2 || w == 4 || w == 8) && i < 8 / w
    ensures i * w + w <= 8 && (i + 1) * w == i * w + w
  {
  }

  /** The loops of `hash_index`. */
  method Hash(value: Word, len: Word) returns (h: nat)
    ensures h == Hashed(value, len)
  {
    hide LittleEndian, FromLittleEndian, LimbXor, HashWidth, XorByte, Rounds;
    var bytes := LittleEndian(value, 8);
    var w := HashWidth(len);
    var iters := 8 / w;
    var buffer := new byte[8](_ => 0);
    NoRounds(value, w);
    for i := 0 to iters
      invariant i * w <= 8
      invariant buffer[..] == Rounds(value, w, i) + Zeros(8 - w)
    {
      RoundsFit(w, i);
      NonNegative(i, w);
      ghost var before := buffer[..];
      for j := 0 to w
        invariant forall k :: 0 <= k < 8 ==>
                    buffer[k] == if k < j then XorByte(before[k], bytes[i * w + k]) else before[k]
      {
        if i == 0 {
          ByteZero(bytes[j]);
          buffer[j] := bytes[j];
        } else {
          buffer[j] := XorByte(buffer[j], bytes[i * w + j]);
        }
      }
      NextRound(value, w, i, bytes, before, buffer[..]);
    }
    EveryByte(w, iters);
    h := FromLittleEndian(buffer[..]);
    TrailingZeros(Rounds(value, w, iters), 8 - w);
    RoundsLimbs(value, w, iters);
  }

  lemma NoRounds(v: nat, w: nat)
    requires w <= 8
    ensures Rounds(v, w, 0) == Zeros(w) && Zeros(8) == Zeros(w) + Zeros(8 - w)
  {
  }

  lemma EveryByte(w: nat, iters: nat)
    requires (w == 1 || w == 2 || w == 4 || w == 8) && iters == 8 / w
    ensures iters * w == 8
  {
  }

  lemma ByteZero(x: byte)
    ensures XorByte(0, x) == x
  {
    XorZero(x);
    XorCommutes(0, x);
  }

  lemma NextRound(v: nat, w: nat, i: nat, bytes: seq<byte>, before: seq<byte>, after: seq<byte>)
    requires i * w + w <= 8 && (i + 1) * w == i * w + w && i * w >= 0 && i * w <= 8
    requires bytes == LittleEndian(v, 8) && |after| == 8
    requires before == Rounds(v, w, i) + Zeros(8 - w)
    requires forall k :: 0 <= k < 8 ==> after[k] == if k < w then XorByte(before[k], bytes[i * w + k]) else before[k]
    ensures after == Rounds(v, w, i + 1) + Zeros(8 - w)
  {
    hide LittleEndian, XorByte;
    var r := Rounds(v, w, i);
    assert Rounds(v, w, i + 1) == XorBytes(r, Slice(v, w, i));
    hide Rounds;
  }

  // ---- bytes against arithmetic ----

  lemma {:induction false} TrailingZeros(s: seq<byte>, n: nat)
    ensures FromLittleEndian(s + Zeros(n)) == FromLittleEndian(s)
    decreases n
  {
    if n == 0 {
      assert s + Zeros(0) == s;
    } else {
      TrailingZeros(s, n - 1);
      var t := s + Zeros(n);
      assert t[..|t| - 1] == s + Zeros(n - 1) && t[|t| - 1] == 0;
      hide Zeros;
    }
  }

  /** Combining bytewise is combining the numbers. */
  lemma {:induction false} FromXorBytes(s: seq<byte>, t: seq<byte>)
    requires |s| == |t|
    ensures FromLittleEndian(XorBytes(s, t)) == Xor(FromLittleEndian(s), FromLittleEndian(t))
    decreases |s|
  {
    if s != [] {
      var n := |s| - 1;
      FromXorBytes(s[..n], t[..n]);
      assert XorBytes(s, t)[..n] == XorBytes(s[..n], t[..n]);
      FromLittleEndianBound(s[..n]);
      FromLittleEndianBound(t[..n]);
      XorSplit(FromLittleEndian(s[..n]), FromLittleEndian(t[..n]), s[n], t[n], 8 * n);
      hide Xor, XorBytes;
      FromSnoc(s);
      FromSnoc(t);
      FromSnoc(XorBytes(s, t));
    }
  }

  lemma FromSnoc(s: seq<byte>)
    requires s != []
    ensures FromLittleEndian(s) == FromLittleEndian(s[..|s| - 1]) + s[|s| - 1] * Pow2(8 * (|s| - 1))
  {
  }

  lemma SliceIsLimb(v: nat, w: nat, i: nat)
    requires i * w + w <= 8
    ensures FromLittleEndian(Slice(v, w, i)) == Limb(v, w, i)
  {
    NonNegative(i, w);
    var x := Shr(v, 8 * (i * w));
    forall j: nat | j < w
      ensures LittleEndianByte(v, i * w + j) == LittleEndianByte(x, j)
    {
      ByteOfShift(v, i * w, j);
    }
    hide LittleEndianByte;
    assert Slice(v, w, i) == LittleEndian(x, w);
    LittleEndianRoundTrip(x, w);
  }

  lemma ByteOfShift(v: nat, m: nat, j: nat)
    ensures LittleEndianByte(v, m + j) == LittleEndianByte(Shr(v, 8 * m), j)
  {
    Pow2Add(8 * m, 8 * j);
    assert 8 * m + 8 * j == 8 * (m + j);
    DivDiv(v, Pow2(8 * m), Pow2(8 * j));
  }

  /** The byte loop computes the XOR of the limbs. */
  lemma {:induction false} RoundsLimbs(v: nat, w: nat, i: nat)
    requires i * w <= 8
    ensures FromLittleEndian(Rounds(v, w, i)) == LimbXor(v, w, i)
    decreases i
  {
    hide Xor, Slice, Limb, Zeros, XorBytes;
    if i == 0 {
      TrailingZeros([], w);
      assert [] + Zeros(w) == Zeros(w);
      assert FromLittleEndian([]) == 0;
    } else {
      hide FromLittleEndian;
      assert (i - 1) * w + w == i * w;
      RoundsLimbs(v, w, i - 1);
      FromXorBytes(Rounds(v, w, i - 1), Slice(v, w, i - 1));
      SliceIsLimb(v, w, i - 1);
    }
  }

  // ---- properties ----

  lemma LimbLinear(a: nat, d: nat, w: nat, i: nat)
    ensures Limb(Xor(a, d), w, i) == Xor(Limb(a, w, i), Limb(d, w, i))
  {
    hide Xor, Shr, Pow2;
    NonNegative(i, w);
    XorDiv(a, d, 8 * (i * w));
    XorMod(Shr(a, 8 * (i * w)), Shr(d, 8 * (i * w)), 8 * w);
  }

  lemma {:induction false} LimbXorLinear(a: nat, d: nat, w: nat, n: nat)
    ensures LimbXor(Xor(a, d), w, n) == Xor(LimbXor(a, w, n), LimbXor(d, w, n))
    decreases n
  {
    if n == 0 {
      XorZero(0);
    } else {
      hide Xor, Limb;
      LimbXorLinear(a, d, w, n - 1);
      LimbLinear(a, d, w, n - 1);
      XorExchange(LimbXor(a, w, n - 1), LimbXor(d, w, n - 1), Limb(a, w, n - 1), Limb(d, w, n - 1));
    }
  }

  /** XOR-linear at every width: changing the input by `d` changes the hash by the hash of `d`. */
  lemma HashLinear(a: Word, d: Word, len: Word)
    ensures Xor(a, d) < 0x1_0000_0000_0000_0000
    ensures Hashed(Xor(a, d), len) == Xor(Hashed(a, len), Hashed(d, len))
  {
    hide Xor, LimbXor, Pow2;
    WidthPowers();
    XorBound(a, d, 64);
    LimbXorLinear(a, d, HashWidth(len), 8 / HashWidth(len));
  }

  lemma WidthPowers()
    ensures Pow2(8) == 0x100 && Pow2(16) == 0x1_0000 && Pow2(32) == 0x1_0000_0000
    ensures Pow2(64) == 0x1_0000_0000_0000_0000
  {
    EighthPower();
    hide Pow2;
    Pow2Add(8, 8);
    Pow2Add(16, 16);
    Pow2Add(32, 32);
  }

  lemma {:induction false} LimbXorBelow(v: nat, w: nat, n: nat)
    ensures LimbXor(v, w, n) < Pow2(8 * w)
    decreases n
  {
    if n > 0 {
      LimbXorBelow(v, w, n - 1);
      XorBound(LimbXor(v, w, n - 1), Limb(v, w, n - 1), 8 * w);
    }
  }

  /** A value of one limb is its own hash. */
  lemma {:induction false} OneLimb(v: nat, w: nat, n: nat)
    requires v < Pow2(8 * w) && n > 0
    ensures LimbXor(v, w, n) == v
    decreases n
  {
    hide Xor, Shr, Pow2;
    if n == 1 {
      ShrNothing(v);
      SmallMod(v, Pow2(8 * w));
      XorZero(v);
      XorCommutes(0, v);
    } else {
      OneLimb(v, w, n - 1);
      HighLimb(v, w, n - 1);
      XorZero(v);
    }
  }

  lemma HighLimb(v: nat, w: nat, i: nat)
    requires v < Pow2(8 * w) && i > 0
    ensures Limb(v, w, i) == 0
  {
    NonNegative(i - 1, w);
    assert i * w == w + (i - 1) * w;
    var p, q := Pow2(8 * w), Pow2(8 * ((i - 1) * w));
    Pow2Add(8 * w, 8 * ((i - 1) * w));
    DivDiv(v, p, q);
    SmallMod(v, p);
    SmallMod(0, q);
    SmallMod(0, p);
  }

  /** The hash is an index into the array for every value exactly when the array length is one of the three sizes a
      whole number of bytes addresses. */
  lemma HashValidIff(len: Word)
    ensures (forall v: Word :: Hashed(v, len) < len) <==> len == 0x100 || len == 0x1_0000 || len == 0x1_0000_0000
  {
    if len == 0x100 || len == 0x1_0000 || len == 0x1_0000_0000 {
      forall v: Word
        ensures Hashed(v, len) < len
      {
        HashBelow(v, len);
      }
    } else {
      var v := HashReaches(len);
      assert !(Hashed(v, len) < len);
    }
  }

  lemma HashBelow(v: Word, len: Word)
    requires len == 0x100 || len == 0x1_0000 || len == 0x1_0000_0000
    ensures Hashed(v, len) < len
  {
    WidthPowers();
    LimbXorBelow(v, HashWidth(len), 8 / HashWidth(len));
    hide Pow2, LimbXor;
    assert Pow2(8 * HashWidth(len)) == len;
  }

  lemma HashReaches(len: Word) returns (v: Word)
    requires len != 0x100 && len != 0x1_0000 && len != 0x1_0000_0000
    ensures Hashed(v, len) >= len
  {
    WidthPowers();
    var w := HashWidth(len);
    hide Pow2, LimbXor;
    assert len < Pow2(8 * w) <= 0x1_0000_0000_0000_0000;
    v := Pow2(8 * w) - 1;
    OneLimb(v, w, 8 / w);
  }

  /** The width is the least of the four that holds the value. */
  lemma ByteWidthLeast(value: Word, w: nat)
    requires w == 1 || w == 2 || w == 4 || w == 8
    ensures value < Pow2(8 * w) <==> ByteWidth(value) <= w
  {
    WidthPowers();
    hide Pow2;
    assert 8 * w == 8 || 8 * w == 16 || 8 * w == 32 || 8 * w == 64;
  }

  lemma {:induction false} LimbXorZero(w: nat, n: nat)
    ensures LimbXor(0, w, n) == 0
    decreases n
  {
    if n > 0 {
      LimbXorZero(w, n - 1);
      SmallMod(0, Pow2(8 * ((n - 1) * w))) by { NonNegative(n - 1, w); }
      SmallMod(0, Pow2(8 * w));
      XorZero(0);
    }
  }

  /** One bit of the value is one bit of one limb. */
  lemma LimbOfPower(w: nat, i: nat, limb: nat, q: nat)
    requires q < 8 * w && 8 * (limb * w) + q >= 0
    ensures 8 * (i * w) >= 0 && Limb(Pow2(8 * (limb * w) + q), w, i) == if i == limb then Pow2(q) else 0
  {
    NonNegative(i, w);
    NonNegative(limb, w);
    var p := 8 * (limb * w) + q;
    if i == limb {
      Pow2Add(q, 8 * (limb * w));
      DividePower(q, 8 * (limb * w));
      Pow2Less(q, 8 * w);
      SmallMod(Pow2(q), Pow2(8 * w));
    } else if i < limb {
      Separate(i, limb, w);
      var up := p - 8 * (i * w);
      DividePower(up, 8 * (i * w));
      MultiplePower(up, 8 * w);
    } else {
      Separate(limb, i, w);
      Pow2Less(p, 8 * (i * w));
      SmallMod(Pow2(p), Pow2(8 * (i * w)));
      SmallMod(0, Pow2(8 * w));
    }
  }

  /** Limbs do not overlap. */
  lemma Separate(a: nat, b: nat, w: nat)
    requires a < b
    ensures 8 * (a * w) + 8 * w <= 8 * (b * w)
  {
    NonNegative(b - a - 1, w);
    assert (b - a - 1) * w == b * w - a * w - w;
  }

  lemma DividePower(a: nat, b: nat)
    ensures Shr(Pow2(a + b), b) == Pow2(a)
  {
    Pow2Add(a, b);
    QuotientUnique(Pow2(a + b), Pow2(b), Pow2(a), 0);
  }

  lemma MultiplePower(a: nat, b: nat)
    requires b <= a
    ensures Pow2(a) % Pow2(b) == 0
  {
    Pow2Add(b, a - b);
    QuotientUnique(Pow2(a), Pow2(b), Pow2(a - b), 0);
  }

  lemma {:induction false} Pow2Less(a: nat, b: nat)
    requires a < b
    ensures Pow2(a) < Pow2(b)
    decreases b
  {
    if a < b - 1 {
      Pow2Less(a, b - 1);
    }
  }

  lemma {:induction false} LimbXorOfPower(w: nat, n: nat, limb: nat, q: nat)
    requires q < 8 * w && 8 * (limb * w) + q >= 0
    ensures LimbXor(Pow2(8 * (limb * w) + q), w, n) == if limb < n then Pow2(q) else 0
    decreases n
  {
    if n > 0 {
      hide Xor, Limb;
      LimbXorOfPower(w, n - 1, limb, q);
      LimbOfPower(w, n - 1, limb, q);
      XorZero(Pow2(q));
      XorZero(0);
      XorCommutes(0, Pow2(q));
    }
  }

  lemma HashOfZero(len: Word)
    ensures Hashed(0, len) == 0
  {
    LimbXorZero(HashWidth(len), 8 / HashWidth(len));
  }

  lemma HashOfPower(len: Word, p: nat)
    requires p < 64 && Pow2(p) < 0x1_0000_0000_0000_0000
    ensures Hashed(Pow2(p), len) == Pow2(p % (8 * HashWidth(len)))
  {
    hide Pow2, LimbXor, Limb, HashWidth;
    var w := HashWidth(len);
    WhichLimb(w, p);
    LimbXorOfPower(w, 8 / w, p / (8 * w), p % (8 * w));
  }

  lemma PowerIsWord(p: nat)
    requires p < 64
    ensures Pow2(p) < 0x1_0000_0000_0000_0000
  {
    WidthPowers();
    Pow2Less(p, 64);
  }

  /** Every bit of the value takes part, in the place its limb gives it: flipping bit `p` flips bit `p` modulo the hash
      width and no other. With the hash of zero this determines the hash of every value. */
  lemma HashFlips(value: Word, len: Word, p: nat)
    requires p < 64
    ensures Hashed(0, len) == 0
    ensures Xor(value, Pow2(p)) < 0x1_0000_0000_0000_0000
    ensures Hashed(Xor(value, Pow2(p)), len) == Xor(Hashed(value, len), Pow2(p % (8 * HashWidth(len))))
  {
    hide Pow2, Xor, Hashed, HashWidth;
    HashOfZero(len);
    PowerIsWord(p);
    HashOfPower(len, p);
    HashLinear(value, Pow2(p), len);
  }

  lemma WhichLimb(w: nat, p: nat)
    requires (w == 1 || w == 2 || w == 4 || w == 8) && p < 64
    ensures 8 * (p / (8 * w) * w) + p % (8 * w) == p && p / (8 * w) < 8 / w
  {
  }
}

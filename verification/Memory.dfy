/** Physical memory as the simulator exposes it: byte reads and writes that fail
    on unmapped addresses, 64-bit address arithmetic, little-endian integers. */
module PhysicalMemory {
  import opened Base

  const ADDRESS_SPACE: nat := 0x1_0000_0000_0000_0000

  type Address = x: int | 0 <= x < ADDRESS_SPACE

  /** Mapped bytes. An address outside the domain faults. */
  type Memory = map<Address, byte>

  datatype AccessError = Unmapped(address: Address) | Untranslated(address: Address)

  /** `base + i` in u64 arithmetic. */
  function At(base: Address, i: nat): Address {
    (base + i) % ADDRESS_SPACE
  }

  /** The index at which a run of bytes starting at `base` covers `x`. */
  function IndexOf(base: Address, x: Address): (i: nat)
    ensures i < ADDRESS_SPACE
  {
    (x - base) % ADDRESS_SPACE
  }

  lemma AtIndexOf(base: Address, x: Address)
    ensures At(base, IndexOf(base, x)) == x
  {
  }

  lemma IndexOfAt(base: Address, i: nat)
    requires i < ADDRESS_SPACE
    ensures IndexOf(base, At(base, i)) == i
  {
  }

  /** Memory after the first `n` writes of the loop that stores `bytes` at `base`. */
  function WriteUpTo(mem: Memory, base: Address, bytes: seq<byte>, n: nat): Result<Memory, AccessError>
    requires n <= |bytes|
  {
    if n == 0 then Ok(mem)
    else
      var m :- WriteUpTo(mem, base, bytes, n - 1);
      var x := At(base, n - 1);
      if x in m then Ok(m[x := bytes[n - 1]]) else Err(Unmapped(x))
  }

  function WriteBytes(mem: Memory, base: Address, bytes: seq<byte>): Result<Memory, AccessError> {
    WriteUpTo(mem, base, bytes, |bytes|)
  }

  predicate Mapped(mem: Memory, base: Address, n: nat) {
    forall i: nat {:trigger At(base, i)} :: i < n ==> At(base, i) in mem
  }

  /** `mem` with `bytes` laid over it from `base`: no loop, no order of writes. */
  function Overlay(mem: Memory, base: Address, bytes: seq<byte>): Memory {
    map x | x in mem :: if IndexOf(base, x) < |bytes| then bytes[IndexOf(base, x)] else mem[x]
  }

  /** The write loop succeeds exactly on mapped ranges and then is the overlay. */
  lemma {:induction false} WriteUpToIsOverlay(mem: Memory, base: Address, bytes: seq<byte>, n: nat)
    requires n <= |bytes| < ADDRESS_SPACE
    ensures WriteUpTo(mem, base, bytes, n).Ok? <==> Mapped(mem, base, n)
    ensures Mapped(mem, base, n) ==> WriteUpTo(mem, base, bytes, n) == Ok(Overlay(mem, base, bytes[..n]))
  {
    if n == 0 {
      assert Overlay(mem, base, bytes[..0]) == mem;
    } else {
      WriteUpToIsOverlay(mem, base, bytes, n - 1);
      var x := At(base, n - 1);
      if Mapped(mem, base, n) {
        assert Mapped(mem, base, n - 1);
        assert x in mem;
        var m := Overlay(mem, base, bytes[..n - 1]);
        IndexOfAt(base, n - 1);
        forall y | y in mem
          ensures m[x := bytes[n - 1]][y] == Overlay(mem, base, bytes[..n])[y]
        {
          AtIndexOf(base, y);
        }
        assert m[x := bytes[n - 1]] == Overlay(mem, base, bytes[..n]);
      } else if Mapped(mem, base, n - 1) {
        assert x !in mem;
      }
    }
  }

  lemma WriteBytesIsOverlay(mem: Memory, base: Address, bytes: seq<byte>)
    requires |bytes| < ADDRESS_SPACE
    ensures WriteBytes(mem, base, bytes).Ok? <==> Mapped(mem, base, |bytes|)
    ensures Mapped(mem, base, |bytes|) ==> WriteBytes(mem, base, bytes) == Ok(Overlay(mem, base, bytes))
  {
    WriteUpToIsOverlay(mem, base, bytes, |bytes|);
    assert bytes[..|bytes|] == bytes;
  }

  /** `n` consecutive bytes, or the first fault. */
  function ReadBytes(mem: Memory, base: Address, n: nat): (r: Result<seq<byte>, AccessError>)
    ensures r.Ok? <==> Mapped(mem, base, n)
    ensures r.Ok? ==> |r.value| == n && forall i: nat :: i < n ==> At(base, i) in mem && r.value[i] == mem[At(base, i)]
  {
    if n == 0 then Ok([])
    else
      var front :- ReadBytes(mem, base, n - 1);
      var x := At(base, n - 1);
      if x in mem then Ok(front + [mem[x]]) else assert !Mapped(mem, base, n); Err(Unmapped(x))
  }

  /** `usize::to_le_bytes`, byte `i`. */
  function LittleEndianByte(v: nat, i: nat): byte {
    v / Pow2(8 * i) % 256
  }

  /** The `w` low bytes of `v`, least significant first. */
  function LittleEndian(v: nat, w: nat): (s: seq<byte>)
    ensures |s| == w
  {
    seq(w, i requires 0 <= i => LittleEndianByte(v, i))
  }

  function FromLittleEndian(s: seq<byte>): nat {
    if s == [] then 0 else FromLittleEndian(s[..|s| - 1]) + s[|s| - 1] * Pow2(8 * (|s| - 1))
  }

  lemma {:induction false} LittleEndianRoundTrip(v: nat, w: nat)
    ensures FromLittleEndian(LittleEndian(v, w)) == v % Pow2(8 * w)
  {
    if w == 0 {
    } else {
      LittleEndianRoundTrip(v, w - 1);
      var s := LittleEndian(v, w);
      assert s[..w - 1] == LittleEndian(v, w - 1);
      var p := Pow2(8 * (w - 1));
      NextByte(w - 1);
      SplitRemainder(v, p, 256);
    }
  }

  lemma SplitRemainder(v: nat, p: nat, b: nat)
    requires p > 0 && b > 0
    ensures p * b > 0
    ensures v % (p * b) == v % p + v / p % b * p
  {
    var q, r := v / p, v % p;
    Regroup(p, b, q / b, q % b, r);
    assert q == b * (q / b) + q % b;
    QuotientUnique(v, p * b, q / b, p * (q % b) + r);
  }

  lemma {:induction false} FromLittleEndianBound(s: seq<byte>)
    ensures FromLittleEndian(s) < Pow2(8 * |s|)
  {
    if s == [] {
    } else {
      var n := |s| - 1;
      FromLittleEndianBound(s[..n]);
      NextByte(n);
      NonNegative(255 - s[n], Pow2(8 * n));
      assert (255 - s[n]) * Pow2(8 * n) == 255 * Pow2(8 * n) - s[n] * Pow2(8 * n);
    }
  }

  /** Each byte of a little-endian integer is the byte it was read from. */
  lemma {:induction false} FromLittleEndianByte(s: seq<byte>, i: nat)
    requires i < |s|
    ensures LittleEndianByte(FromLittleEndian(s), i) == s[i]
    decreases |s|
  {
    var n := |s| - 1;
    var p, front, last := Pow2(8 * n), s[..n], s[n] as nat;
    FromLittleEndianBound(front);
    NonNegative(last, p);
    var low, v := FromLittleEndian(front), FromLittleEndian(s);
    assert v == low + last * p;
    if i == n {
      QuotientUnique(v, p, last, low);
    } else {
      FromLittleEndianByte(front, i);
      assert front[i] == s[i];
      Pow2Add(8 * i, 8 * (n - i - 1) + 8);
      assert 8 * i + (8 * (n - i - 1) + 8) == 8 * n;
      NextByte(n - i - 1);
      HigherByte(low, last, Pow2(8 * i), Pow2(8 * (n - i - 1)));
    }
  }

  /** Adding a multiple of a higher power of 256 leaves a byte alone. */
  lemma HigherByte(low: nat, last: nat, p: nat, q: nat)
    requires p > 0
    ensures (low + last * (p * (256 * q))) / p % 256 == low / p % 256
  {
    var y := last * q;
    NonNegative(last, q);
    assert last * (p * (256 * q)) == p * (256 * y);
    QuotientUnique(low + p * (256 * y), p, low / p + 256 * y, low % p) by {
      assert p * (low / p + 256 * y) == p * (low / p) + p * (256 * y);
    }
    var x := low / p;
    assert (x + 256 * y) % 256 == x % 256;
  }

  lemma NextByte(n: nat)
    ensures Pow2(8 * (n + 1)) == 256 * Pow2(8 * n)
  {
    Pow2Add(8, 8 * n);
    assert 8 + 8 * n == 8 * (n + 1);
  }

  /** `read_phys_memory`: up to eight bytes as one little-endian integer. */
  function ReadInteger(mem: Memory, base: Address, w: nat): Result<nat, AccessError> {
    var s :- ReadBytes(mem, base, w);
    Ok(FromLittleEndian(s))
  }

  /** `v` is the little-endian integer in the `w` bytes at `p`. */
  ghost predicate IntegerAt(mem: Memory, p: Address, w: nat, v: nat) {
    v < Pow2(8 * w) && forall i: nat :: i < w ==> At(p, i) in mem && LittleEndianByte(v, i) == mem[At(p, i)]
  }

  lemma IntegerUnique(mem: Memory, p: Address, w: nat, v: nat, u: nat)
    requires IntegerAt(mem, p, w, v) && IntegerAt(mem, p, w, u)
    ensures v == u
  {
    assert LittleEndian(v, w) == LittleEndian(u, w);
    LittleEndianRoundTrip(v, w);
    LittleEndianRoundTrip(u, w);
    QuotientUnique(v, Pow2(8 * w), 0, v);
    QuotientUnique(u, Pow2(8 * w), 0, u);
  }

  /** What an integer read from memory is: in range, and made of the bytes there. */
  lemma ReadIntegerBytes(mem: Memory, base: Address, w: nat)
    ensures ReadInteger(mem, base, w).Ok? <==> Mapped(mem, base, w)
    ensures ReadInteger(mem, base, w).Ok? ==> IntegerAt(mem, base, w, ReadInteger(mem, base, w).value)
  {
    var s := ReadBytes(mem, base, w);
    if s.Ok? {
      FromLittleEndianBound(s.value);
      forall i: nat | i < w
        ensures LittleEndianByte(FromLittleEndian(s.value), i) == mem[At(base, i)]
      {
        FromLittleEndianByte(s.value, i);
      }
    }
  }
}

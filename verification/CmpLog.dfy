/** The comparison log: per-row hit counters over rings of operand pairs (src/tracer/mod.rs). */
module CmpLog {
  import opened Base
  import opened Bits
  import HashIndex

  /** `CMPLOG_MAP_W` rows, each a ring of `CMPLOG_MAP_H` operand pairs. */
  const MAP_W: nat := 65536
  const MAP_H: nat := 32

  datatype CmpType = Equal | Greater | Lesser | Fp | FpMod | IntMod | Transform

  /** The operand pair of one comparison; byte strings have no shape. */
  datatype CmpValues =
    | U8(Word, Word) | U16(Word, Word) | U32(Word, Word) | U64(Word, Word)
    | Bytes(seq<byte>, seq<byte>)

  datatype Operands = Operands(left: Word, right: Word)

  datatype Header = Header(hits: nat, shape: nat, ins: bool, attribute: nat)

  datatype CmpError = NoShape

  /** The place of a type's bit in the attribute. */
  function TypeBit(t: CmpType): nat {
    match t
    case Equal => 0
    case Greater => 1
    case Lesser => 2
    case Fp => 3
    case FpMod => 4
    case IntMod => 5
    case Transform => 6
  }

  function TypeBits(types: seq<CmpType>): nat
    requires types != []
  {
    if |types| == 1 then Pow2(TypeBit(types[0]))
    else Or(TypeBits(types[..|types| - 1]), Pow2(TypeBit(types[|types| - 1])))
  }

  function Attribute(types: seq<CmpType>): nat {
    if types == [] then Pow2(TypeBit(Equal)) else TypeBits(types)
  }

  function Shape(values: CmpValues): Result<nat, CmpError> {
    match values
    case U8(_, _) => Ok(0)
    case U16(_, _) => Ok(1)
    case U32(_, _) => Ok(3)
    case U64(_, _) => Ok(7)
    case Bytes(_, _) => Err(NoShape)
  }

  function Pair(values: CmpValues): Operands
    requires !values.Bytes?
  {
    match values
    case U8(l, r) => Operands(l, r)
    case U16(l, r) => Operands(l, r)
    case U32(l, r) => Operands(l, r)
    case U64(l, r) => Operands(l, r)
  }

  function Row(pc: Word): (r: nat)
    ensures r < MAP_W
  {
    HashIndex.HashBelow(pc, 65536);
    HashIndex.Hashed(pc, 65536)
  }

  /** One logged comparison. */
  datatype Entry = Entry(pc: Word, types: seq<CmpType>, values: CmpValues)

  /** The comparisons of `log` hashed to row `r`, oldest first. */
  function RowLog(log: seq<Entry>, r: nat): (s: seq<Entry>)
    ensures |s| <= |log|
    ensures forall k :: 0 <= k < |s| ==> s[k] in log && Row(s[k].pc) == r
  {
    if log == [] then []
    else
      var earlier := RowLog(log[..|log| - 1], r);
      var last := log[|log| - 1];
      if Row(last.pc) == r then earlier + [last] else earlier
  }

  /** Which row a comparison goes to: row zero for address zero, and flipping bit `p` of the address flips bit `p` modulo
      sixteen of the row. */
  lemma RowFlips(pc: Word, p: nat)
    requires p < 64
    ensures Row(0) == 0
    ensures Xor(pc, Pow2(p)) < 0x1_0000_0000_0000_0000 && Row(Xor(pc, Pow2(p))) == Xor(Row(pc), Pow2(p % 16))
  {
    hide Pow2, Xor;
    HashIndex.HashFlips(pc, 65536, p);
    assert HashIndex.HashWidth(65536) == 2;
    hide HashIndex.Hashed, HashIndex.HashWidth;
  }

  /** The attribute of one type is that type's number. */
  lemma TypeNumbers()
    ensures Attribute([Equal]) == 1 && Attribute([Greater]) == 2 && Attribute([Lesser]) == 4 && Attribute([Fp]) == 8
    ensures Attribute([FpMod]) == 16 && Attribute([IntMod]) == 32 && Attribute([Transform]) == 64
  {
  }

  /** A type is recorded in the attribute exactly when the comparison had it, or had no type and it is `Equal`. */
  lemma AttributeRecords(types: seq<CmpType>, t: CmpType)
    ensures Bit(Attribute(types), TypeBit(t)) <==> t in types || (types == [] && t == Equal)
  {
    hide Bit, TypeBits, TypeBit, Pow2;
    if types == [] {
      BitsDistinct(Equal, t);
    } else {
      TypeBitsRecord(types, t);
    }
  }

  lemma {:induction false} TypeBitsRecord(types: seq<CmpType>, t: CmpType)
    requires types != []
    ensures Bit(TypeBits(types), TypeBit(t)) <==> t in types
    decreases |types|
  {
    hide Bit, Or, TypeBit, Pow2;
    var n := |types| - 1;
    BitsDistinct(types[n], t);
    assert types == types[..n] + [types[n]];
    if n > 0 {
      TypeBitsRecord(types[..n], t);
      OrBit(TypeBits(types[..n]), Pow2(TypeBit(types[n])), TypeBit(t));
    }
  }

  lemma BitsDistinct(a: CmpType, b: CmpType)
    ensures Bit(Pow2(TypeBit(a)), TypeBit(b)) <==> a == b
  {
    PowerBit(TypeBit(a), TypeBit(b));
  }

  lemma ModMod(n: nat, m: nat, h: nat)
    requires h > 0 && m > 0 && m % h == 0
    ensures n % m % h == n % h
  {
    var q := m / h;
    assert m == q * h;
    assert n == (n / m) * m + n % m;
    var r := n % m;
    assert r == (r / h) * h + r % h;
    assert n == h * ((n / m) * q + r / h) + r % h by {
      assert (n / m) * (q * h) == h * ((n / m) * q);
    }
    QuotientUnique(n, h, (n / m) * q + r / h, r % h);
  }

  lemma NextHit(n: nat, m: nat)
    requires m > 0
    ensures (n % m + 1) % m == (n + 1) % m
  {
    var q, r := n / m, n % m;
    if r + 1 < m {
      QuotientUnique(n + 1, m, q, r + 1);
    } else {
      QuotientUnique(n + 1, m, q + 1, 0);
    }
  }

  /** Two sequence numbers less than one ring apart never share a slot. */
  lemma RingSlots(j: nat, k: nat, h: nat)
    requires h > 0 && j < k < j + h
    ensures j % h != k % h
  {
    if j % h == k % h {
      assert k - j == h * (k / h - j / h);
      Scale(h, k / h - j / h);
    }
  }

  /** A row agrees with the comparisons logged to it: their count, the last one's header, and the last `MAP_H`
      operand pairs, each at its sequence number modulo `MAP_H`. */
  ghost predicate RowHolds(s: seq<Entry>, header: Header, ring: seq<Operands>, modulus: nat)
    requires modulus > 0
  {
    |ring| == MAP_H && header.hits == |s| % modulus
    && (forall e :: e in s ==> !e.values.Bytes?)
    && (s != [] ==> header == HeaderOf(|s| % modulus, s[|s| - 1]))
    && forall k: nat :: |s| - MAP_H <= k < |s| ==> ring[k % MAP_H] == Pair(s[k].values)
  }

  function HeaderOf(hits: nat, e: Entry): Header
    requires !e.values.Bytes?
  {
    Header(hits, Shape(e.values).value, true, Attribute(e.types))
  }

  lemma RowAppend(s: seq<Entry>, header: Header, ring: seq<Operands>, modulus: nat, e: Entry)
    requires modulus > 0 && modulus % MAP_H == 0 && !e.values.Bytes?
    requires RowHolds(s, header, ring, modulus)
    ensures RowHolds(s + [e], HeaderOf((header.hits + 1) % modulus, e), ring[header.hits % MAP_H := Pair(e.values)],
                     modulus)
  {
    hide Attribute, Shape;
    var n := |s|;
    ModMod(n, modulus, MAP_H);
    NextHit(n, modulus);
    var t, ring' := s + [e], ring[header.hits % MAP_H := Pair(e.values)];
    forall k: nat | |t| - MAP_H <= k < |t|
      ensures ring'[k % MAP_H] == Pair(t[k].values)
    {
      if k < n {
        RingSlots(k, n, MAP_H);
      }
    }
  }

  class CmpMap {
    const headers: array<Header>
    const operands: array<seq<Operands>>
    /** The hit counter wraps at this width, a multiple of the ring height. */
    const hitsModulus: nat
    ghost var log: seq<Entry>

    ghost predicate Valid()
      reads this, headers, operands
    {
      headers.Length == MAP_W && operands.Length == MAP_W
      && hitsModulus > 0 && hitsModulus % MAP_H == 0
      && forall r: nat :: r < MAP_W ==> RowHolds(RowLog(log, r), headers[r], operands[r], hitsModulus)
    }

    constructor (hitsModulus: nat)
      requires hitsModulus > 0 && hitsModulus % MAP_H == 0
      ensures Valid() && log == [] && this.hitsModulus == hitsModulus
      ensures fresh(headers) && fresh(operands)
      ensures headers.Length == operands.Length == 65536
      ensures forall r: nat :: r < 65536 ==> |operands[r]| == 32
    {
      hide Row;
      this.hitsModulus := hitsModulus;
      headers := new Header[MAP_W](_ => Header(0, 0, false, 0));
      operands := new seq<Operands>[MAP_W](_ => seq(MAP_H, _ => Operands(0, 0)));
      log := [];
    }

    /** `log_cmp` */
    method LogCmp(pc: Word, types: seq<CmpType>, values: CmpValues) returns (res: Result<(), CmpError>)
      requires Valid()
      modifies headers, operands, `log
      ensures Valid()
      ensures res.Err? <==> values.Bytes?
      ensures res.Err? ==> log == old(log) && unchanged(headers, operands)
      ensures res.Ok? ==> log == old(log) + [Entry(pc, types, values)]
    {
      hide Attribute, Row, RowHolds;
      if values.Bytes? {
        return Err(NoShape);
      }
      ghost var e := Entry(pc, types, values);
      var row := Row(pc);
      ghost var s := RowLog(log, row);
      RowAppend(s, headers[row], operands[row], hitsModulus, e);
      RingLength(s, headers[row], operands[row], hitsModulus);
      var hits := headers[row].hits;
      headers[row] := headers[row].(hits := (hits + 1) % hitsModulus);
      headers[row] := headers[row].(shape := Shape(values).value);
      headers[row] := headers[row].(ins := true);
      headers[row] := headers[row].(attribute := Attribute(types));
      operands[row] := operands[row][hits % MAP_H := Pair(values)];
      log := log + [e];
      assert log[..|log| - 1] == old(log);
      return Ok(());
    }
  }

  lemma RingLength(s: seq<Entry>, header: Header, ring: seq<Operands>, modulus: nat)
    requires modulus > 0 && RowHolds(s, header, ring, modulus)
    ensures |ring| == MAP_H
  {
  }

  /** Below the counter width the hit count is the number of comparisons hashed to the row. */
  lemma HitsBelowWidth(s: seq<Entry>, header: Header, ring: seq<Operands>, modulus: nat)
    requires modulus > 0 && RowHolds(s, header, ring, modulus)
    ensures header.hits == |s| <==> |s| < modulus
  {
    HitsAre(s, header, ring, modulus);
    hide RowHolds;
    RemainderIff(|s|, modulus);
  }

  lemma HitsAre(s: seq<Entry>, header: Header, ring: seq<Operands>, modulus: nat)
    requires modulus > 0 && RowHolds(s, header, ring, modulus)
    ensures header.hits == |s| % modulus
  {
  }

  lemma RemainderIff(n: nat, m: nat)
    requires m > 0
    ensures n % m == n <==> n < m
  {
  }
}

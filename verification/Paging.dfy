/** Four-level address translation and reads through it (src/os/windows/util.rs, src/os/windows/paging.rs). */
module Paging {
  import opened Base
  import opened PhysicalMemory

  const PAGE_4KB: nat := 0x1000
  const PAGE_2MB: nat := 0x20_0000
  const PAGE_1GB: nat := 0x4000_0000
  const REGION_512GB: nat := 0x80_0000_0000

  datatype Level = Pml4 | Pdpt | Pd | Pt

  datatype PageError = NotPresent(level: Level) | Access(error: AccessError)

  // The index fields of a virtual address.
  function Pml4Index(va: Address): nat { va / REGION_512GB % 512 }

  function PdptIndex(va: Address): nat { va / PAGE_1GB % 512 }

  function PdIndex(va: Address): nat { va / PAGE_2MB % 512 }

  function PtIndex(va: Address): nat { va / PAGE_4KB % 512 }

  /** A bitfield of a table entry: its place and width. */
  datatype Field = Field(offset: nat, width: nat) {
    function Of(entry: nat): (f: nat)
      ensures f < Pow2(width)
    {
      entry / Pow2(offset) % Pow2(width)
    }
  }

  /** Where each structure keeps its physical frame. */
  datatype Layout = Layout(dtb: Field, pml4e: Field, pdpte: Field, large1GB: Field, pde: Field, large2MB: Field,
                           pte: Field)

  /** The fields the code reads; a 2MB entry is read through the 1GB layout. */
  const CODE: Layout :=
    Layout(Field(12, 36), Field(12, 40), Field(12, 40), Field(30, 22), Field(12, 38), Field(30, 22), Field(12, 38))

  /** The fields of 4-level paging, section 4.5 of the Intel SDM volume 3A: frame bits end at bit 51. */
  const SDM: Layout :=
    Layout(Field(12, 40), Field(12, 40), Field(12, 40), Field(30, 22), Field(12, 40), Field(21, 31), Field(12, 40))

  predicate Present(entry: nat) {
    entry % 2 != 0
  }

  predicate Large(entry: nat) {
    entry / 128 % 2 != 0
  }

  /** Entry `index` of the table in frame `frame`. */
  function Entry(mem: Memory, frame: nat, index: nat, level: Level): Result<nat, PageError> {
    match ReadInteger(mem, At(0, frame * PAGE_4KB + index * 8), 8)
    case Err(e) => Err(Access(e))
    case Ok(entry) => if Present(entry) then Ok(entry) else Err(NotPresent(level))
  }

  /** The page an address lies in. */
  datatype Page = Page(base: nat, size: nat)

  /** The walk of `virtual_to_physical`. */
  function Walk(l: Layout, mem: Memory, dtb: Address, va: Address): Result<Page, PageError> {
    var pml4e :- Entry(mem, l.dtb.Of(dtb), Pml4Index(va), Pml4);
    var pdpte :- Entry(mem, l.pml4e.Of(pml4e), PdptIndex(va), Pdpt);
    if Large(pdpte) then Ok(Page(l.large1GB.Of(pdpte) * PAGE_1GB, PAGE_1GB))
    else
      var pde :- Entry(mem, l.pdpte.Of(pdpte), PdIndex(va), Pd);
      if Large(pde) then Ok(Page(l.large2MB.Of(pde) * PAGE_2MB, PAGE_2MB))
      else
        var pte :- Entry(mem, l.pde.Of(pde), PtIndex(va), Pt);
        Ok(Page(l.pte.Of(pte) * PAGE_4KB, PAGE_4KB))
  }

  function Offset(size: nat, va: Address): nat {
    if size > 0 then va % size else 0
  }

  function Translate(l: Layout, mem: Memory, dtb: Address, va: Address): Result<Address, PageError> {
    var page :- Walk(l, mem, dtb, va);
    Ok(At(0, page.base + Offset(page.size, va)))
  }

  /** `virtual_to_physical` */
  function VirtualToPhysical(mem: Memory, dtb: Address, va: Address): Result<Address, PageError> {
    Translate(CODE, mem, dtb, va)
  }

  lemma PageSize(l: Layout, mem: Memory, dtb: Address, va: Address)
    ensures var w := Walk(l, mem, dtb, va);
            w.Ok? ==> w.value.size == PAGE_4KB || w.value.size == PAGE_2MB || w.value.size == PAGE_1GB
  {
  }

  // ---- the walk in numbers ----

  /** The word of table `frame` at `index`, when it is mapped. */
  ghost predicate WordAt(mem: Memory, frame: nat, index: nat, word: Option<nat>) {
    var p: Address := (frame * 4096 + 8 * index) % 0x1_0000_0000_0000_0000;
    match word
    case None => !Mapped(mem, p, 8)
    case Some(v) => IntegerAt(mem, p, 8, v)
  }

  lemma EntryIsWord(mem: Memory, frame: nat, index: nat, level: Level, word: Option<nat>)
    requires WordAt(mem, frame, index, word)
    ensures var e := Entry(mem, frame, index, level);
            match word
            case None => e.Err? && e.error.Access?
            case Some(v) => e == if v % 2 == 1 then Ok(v) else Err(NotPresent(level))
  {
    var p := At(0, frame * PAGE_4KB + index * 8);
    assert p == (frame * 4096 + 8 * index) % 0x1_0000_0000_0000_0000;
    ReadIntegerBytes(mem, p, 8);
    if word.Some? {
      assert Mapped(mem, p, 8);
      IntegerUnique(mem, p, 8, word.value, ReadInteger(mem, p, 8).value);
    }
    hide ReadInteger, IntegerAt, Mapped, At;
  }

  /** The four indices and the offset an address is made of. */
  predicate Digits(va: Address, i4: nat, i3: nat, i2: nat, i1: nat, off: nat) {
    && i4 < 512 && i3 < 512 && i2 < 512 && i1 < 512 && off < 4096
    && va % 0x1_0000_0000_0000 == i4 * 0x80_0000_0000 + i3 * 0x4000_0000 + i2 * 0x20_0000 + i1 * 0x1000 + off
  }

  lemma IndicesAreDigits(va: Address, i4: nat, i3: nat, i2: nat, i1: nat, off: nat)
    requires Digits(va, i4, i3, i2, i1, off)
    ensures Pml4Index(va) == i4 && PdptIndex(va) == i3 && PdIndex(va) == i2 && PtIndex(va) == i1
    ensures va % PAGE_4KB == off && va % PAGE_2MB == i1 * 0x1000 + off
    ensures va % PAGE_1GB == i2 * 0x20_0000 + i1 * 0x1000 + off
  {
    var q := va / 0x1_0000_0000_0000;
    DigitAt(va, PAGE_4KB, ((q * 512 + i4) * 512 + i3) * 512 + i2, i1, off);
    DigitAt(va, PAGE_2MB, (q * 512 + i4) * 512 + i3, i2, i1 * 0x1000 + off);
    DigitAt(va, PAGE_1GB, q * 512 + i4, i3, i2 * 0x20_0000 + i1 * 0x1000 + off);
    DigitAt(va, REGION_512GB, q, i4, i3 * 0x4000_0000 + i2 * 0x20_0000 + i1 * 0x1000 + off);
  }

  lemma DigitAt(x: nat, size: nat, high: nat, digit: nat, low: nat)
    requires size > 0 && low < size && digit < 512 && x == size * (high * 512 + digit) + low
    ensures x / size % 512 == digit && x % size == low
  {
    QuotientUnique(x, size, high * 512 + digit, low);
  }

  /** What the four words of a walk determine: not present, not readable, or one of the three kinds of page. */
  ghost predicate WalkOf<T>(r: Result<T, PageError>, e4: Option<nat>, e3: Option<nat>, e2: Option<nat>, e1: Option<nat>,
                            in1GB: bool, in2MB: bool, in4KB: bool)
  {
    if e4.None? then Unreadable(r)
    else if e4.value % 2 == 0 then r == Err(NotPresent(Pml4))
    else if e3.None? then Unreadable(r)
    else if e3.value % 2 == 0 then r == Err(NotPresent(Pdpt))
    else if e3.value / 128 % 2 == 1 then in1GB
    else if e2.None? then Unreadable(r)
    else if e2.value % 2 == 0 then r == Err(NotPresent(Pd))
    else if e2.value / 128 % 2 == 1 then in2MB
    else if e1.None? then Unreadable(r)
    else if e1.value % 2 == 0 then r == Err(NotPresent(Pt))
    else in4KB
  }

  predicate Unreadable<T>(r: Result<T, PageError>) {
    r.Err? && r.error.Access?
  }

  predicate LandsAt(r: Result<Address, PageError>, x: nat) {
    r.Ok? && r.value == x
  }

  function Word(e: Option<nat>): nat {
    if e.Some? then e.value else 0
  }

  lemma WalkByWords(l: Layout, mem: Memory, dtb: Address, va: Address, e4: Option<nat>, e3: Option<nat>,
                    e2: Option<nat>, e1: Option<nat>)
    requires WordAt(mem, l.dtb.Of(dtb), Pml4Index(va), e4)
    requires WordAt(mem, l.pml4e.Of(Word(e4)), PdptIndex(va), e3)
    requires WordAt(mem, l.pdpte.Of(Word(e3)), PdIndex(va), e2)
    requires WordAt(mem, l.pde.Of(Word(e2)), PtIndex(va), e1)
    ensures var w := Walk(l, mem, dtb, va);
            WalkOf(w, e4, e3, e2, e1, w == Ok(Page(l.large1GB.Of(Word(e3)) * PAGE_1GB, PAGE_1GB)),
                   w == Ok(Page(l.large2MB.Of(Word(e2)) * PAGE_2MB, PAGE_2MB)),
                   w == Ok(Page(l.pte.Of(Word(e1)) * PAGE_4KB, PAGE_4KB)))
  {
    EntryIsWord(mem, l.dtb.Of(dtb), Pml4Index(va), Pml4, e4);
    EntryIsWord(mem, l.pml4e.Of(Word(e4)), PdptIndex(va), Pdpt, e3);
    EntryIsWord(mem, l.pdpte.Of(Word(e3)), PdIndex(va), Pd, e2);
    EntryIsWord(mem, l.pde.Of(Word(e2)), PtIndex(va), Pt, e1);
    hide Entry, WordAt, Pml4Index, PdptIndex, PdIndex, PtIndex;
  }

  /** The translation from the words and the frames in them. */
  lemma TranslateByWords(l: Layout, mem: Memory, dtb: Address, va: Address, i4: nat, i3: nat, i2: nat, i1: nat, off: nat,
                         e4: Option<nat>, e3: Option<nat>, e2: Option<nat>, e1: Option<nat>, f3: nat, f2: nat, f1: nat)
    requires Digits(va, i4, i3, i2, i1, off)
    requires WordAt(mem, l.dtb.Of(dtb), i4, e4)
    requires WordAt(mem, l.pml4e.Of(Word(e4)), i3, e3)
    requires WordAt(mem, l.pdpte.Of(Word(e3)), i2, e2)
    requires WordAt(mem, l.pde.Of(Word(e2)), i1, e1)
    requires f3 == l.large1GB.Of(Word(e3)) < 0x40_0000
    requires f2 == l.large2MB.Of(Word(e2)) < 0x8000_0000
    requires f1 == l.pte.Of(Word(e1)) < 0x100_0000_0000
    ensures var r := Translate(l, mem, dtb, va);
            WalkOf(r, e4, e3, e2, e1, LandsAt(r, f3 * 0x4000_0000 + i2 * 0x20_0000 + i1 * 0x1000 + off),
                   LandsAt(r, f2 * 0x20_0000 + i1 * 0x1000 + off), LandsAt(r, f1 * 0x1000 + off))
  {
    IndicesAreDigits(va, i4, i3, i2, i1, off);
    WalkByWords(l, mem, dtb, va, e4, e3, e2, e1);
    Landings(va, i4, i3, i2, i1, off, f3, f2, f1);
    hide Walk, Offset, WordAt, Digits, At, Pow2, Pml4Index, PdptIndex, PdIndex, PtIndex;
  }

  lemma Landings(va: Address, i4: nat, i3: nat, i2: nat, i1: nat, off: nat, f3: nat, f2: nat, f1: nat)
    requires Digits(va, i4, i3, i2, i1, off)
    requires f3 < 0x40_0000 && f2 < 0x8000_0000 && f1 < 0x100_0000_0000
    ensures At(0, f3 * PAGE_1GB + Offset(PAGE_1GB, va)) == f3 * 0x4000_0000 + i2 * 0x20_0000 + i1 * 0x1000 + off
    ensures At(0, f2 * PAGE_2MB + Offset(PAGE_2MB, va)) == f2 * 0x20_0000 + i1 * 0x1000 + off
    ensures At(0, f1 * PAGE_4KB + Offset(PAGE_4KB, va)) == f1 * 0x1000 + off
  {
    IndicesAreDigits(va, i4, i3, i2, i1, off);
    hide Pml4Index, PdptIndex, PdIndex, PtIndex;
  }

  /** The translation from the words of the four tables, as the code finds them: frames at bit 12 of 36 bits in the
      directory base, 40 in the two upper tables, 38 in the lower two, and 22 bits at bit 30 for both kinds of large
      page. */
  lemma TranslationInNumbers(mem: Memory, dtb: Address, va: Address, i4: nat, i3: nat, i2: nat, i1: nat, off: nat,
                             e4: Option<nat>, e3: Option<nat>, e2: Option<nat>, e1: Option<nat>)
    requires Digits(va, i4, i3, i2, i1, off)
    requires WordAt(mem, dtb / 0x1000 % 0x10_0000_0000, i4, e4)
    requires WordAt(mem, Word(e4) / 0x1000 % 0x100_0000_0000, i3, e3)
    requires WordAt(mem, Word(e3) / 0x1000 % 0x100_0000_0000, i2, e2)
    requires WordAt(mem, Word(e2) / 0x1000 % 0x40_0000_0000, i1, e1)
    ensures var r := VirtualToPhysical(mem, dtb, va);
            WalkOf(r, e4, e3, e2, e1,
                   LandsAt(r, Word(e3) / 0x4000_0000 % 0x40_0000 * 0x4000_0000 + i2 * 0x20_0000 + i1 * 0x1000 + off),
                   LandsAt(r, Word(e2) / 0x4000_0000 % 0x40_0000 * 0x20_0000 + i1 * 0x1000 + off),
                   LandsAt(r, Word(e1) / 0x1000 % 0x40_0000_0000 * 0x1000 + off))
  {
    FieldPowers();
    hide Translate, WordAt, WalkOf, Digits, LandsAt, Pow2;
    TranslateByWords(CODE, mem, dtb, va, i4, i3, i2, i1, off, e4, e3, e2, e1,
                     Word(e3) / 0x4000_0000 % 0x40_0000, Word(e2) / 0x4000_0000 % 0x40_0000,
                     Word(e1) / 0x1000 % 0x40_0000_0000);
  }

  /** The same for the architecture, whose frames all end at bit 51 and whose 2MB frames start at bit 21. */
  lemma ArchitectureInNumbers(mem: Memory, dtb: Address, va: Address, i4: nat, i3: nat, i2: nat, i1: nat, off: nat,
                              e4: Option<nat>, e3: Option<nat>, e2: Option<nat>, e1: Option<nat>)
    requires Digits(va, i4, i3, i2, i1, off)
    requires WordAt(mem, dtb / 0x1000 % 0x100_0000_0000, i4, e4)
    requires WordAt(mem, Word(e4) / 0x1000 % 0x100_0000_0000, i3, e3)
    requires WordAt(mem, Word(e3) / 0x1000 % 0x100_0000_0000, i2, e2)
    requires WordAt(mem, Word(e2) / 0x1000 % 0x100_0000_0000, i1, e1)
    ensures var r := Translate(SDM, mem, dtb, va);
            WalkOf(r, e4, e3, e2, e1,
                   LandsAt(r, Word(e3) / 0x4000_0000 % 0x40_0000 * 0x4000_0000 + i2 * 0x20_0000 + i1 * 0x1000 + off),
                   LandsAt(r, Word(e2) / 0x20_0000 % 0x8000_0000 * 0x20_0000 + i1 * 0x1000 + off),
                   LandsAt(r, Word(e1) / 0x1000 % 0x100_0000_0000 * 0x1000 + off))
  {
    FieldPowers();
    hide Translate, WordAt, WalkOf, Digits, LandsAt, Pow2;
    TranslateByWords(SDM, mem, dtb, va, i4, i3, i2, i1, off, e4, e3, e2, e1,
                     Word(e3) / 0x4000_0000 % 0x40_0000, Word(e2) / 0x20_0000 % 0x8000_0000,
                     Word(e1) / 0x1000 % 0x100_0000_0000);
  }

  // ---- one page, one walk ----

  predicate SamePage(size: nat, va: Address, vb: Address)
    requires size > 0
  {
    va / size == vb / size
  }

  lemma SameIndices(size: nat, va: Address, vb: Address)
    requires size == PAGE_4KB || size == PAGE_2MB || size == PAGE_1GB
    requires SamePage(size, va, vb)
    ensures Pml4Index(va) == Pml4Index(vb) && PdptIndex(va) == PdptIndex(vb)
    ensures size <= PAGE_2MB ==> PdIndex(va) == PdIndex(vb)
    ensures size == PAGE_4KB ==> PtIndex(va) == PtIndex(vb)
  {
    Coarser(va, PAGE_4KB, 512);
    Coarser(vb, PAGE_4KB, 512);
    Coarser(va, PAGE_2MB, 512);
    Coarser(vb, PAGE_2MB, 512);
    Coarser(va, PAGE_1GB, 512);
    Coarser(vb, PAGE_1GB, 512);
  }

  lemma Coarser(x: nat, size: nat, k: nat)
    requires size > 0 && k > 0
    ensures size * k > 0 && x / (size * k) == x / size / k
  {
    DivDiv(x, size, k);
  }

  /** The walk is the same from every address of a page, whatever its size. */
  lemma WalkWithinPage(l: Layout, mem: Memory, dtb: Address, va: Address, vb: Address)
    requires Walk(l, mem, dtb, va).Ok?
    requires Walk(l, mem, dtb, va).value.size > 0 && SamePage(Walk(l, mem, dtb, va).value.size, va, vb)
    ensures Walk(l, mem, dtb, vb) == Walk(l, mem, dtb, va)
  {
    PageSize(l, mem, dtb, va);
    SameIndices(Walk(l, mem, dtb, va).value.size, va, vb);
    hide Entry, Pml4Index, PdptIndex, PdIndex, PtIndex;
  }

  /** Translation is affine within a page: offsets in the page are kept. */
  lemma AffineWithinPage(l: Layout, mem: Memory, dtb: Address, va: Address, i: nat)
    requires Walk(l, mem, dtb, va).Ok? && Walk(l, mem, dtb, va).value.size > 0
    requires va % Walk(l, mem, dtb, va).value.size + i < Walk(l, mem, dtb, va).value.size
    ensures va + i < ADDRESS_SPACE
    ensures Translate(l, mem, dtb, va + i) == Ok(At(Translate(l, mem, dtb, va).value, i))
  {
    hide Walk, At;
    var page := Walk(l, mem, dtb, va).value;
    PageSize(l, mem, dtb, va);
    InsidePage(va, page.size, i);
    WalkWithinPage(l, mem, dtb, va, va + i);
    AtCompose(page.base + va % page.size, i);
  }

  lemma AtCompose(x: nat, i: nat)
    ensures At(0, x + i) == At(At(0, x), i)
  {
  }

  lemma InsidePage(va: Address, size: nat, i: nat)
    requires size == PAGE_4KB || size == PAGE_2MB || size == PAGE_1GB
    requires va % size + i < size
    ensures va + i < ADDRESS_SPACE && (va + i) / size == va / size && (va + i) % size == va % size + i
  {
    QuotientUnique(va + i, size, va / size, va % size + i);
  }

  // ---- reading ----

  function Lift<T>(r: Result<T, AccessError>): Result<T, PageError> {
    match r
    case Ok(v) => Ok(v)
    case Err(e) => Err(Access(e))
  }

  /** `read_virtual_dtb`: translate once, then read contiguously. */
  function ReadVirtual(mem: Memory, dtb: Address, va: Address, n: nat): Result<seq<byte>, PageError> {
    var pa :- VirtualToPhysical(mem, dtb, va);
    Lift(ReadBytes(mem, pa, n))
  }

  function ReadByte(mem: Memory, pa: Address): Result<byte, PageError> {
    if pa in mem then Ok(mem[pa]) else Err(Access(Unmapped(pa)))
  }

  /** The reference: translate every byte by itself. */
  function ReadByteByByte(mem: Memory, dtb: Address, va: Address, n: nat): Result<seq<byte>, PageError>
    requires va + n <= ADDRESS_SPACE
  {
    if n == 0 then Ok([])
    else
      var front :- ReadByteByByte(mem, dtb, va, n - 1);
      var pa :- VirtualToPhysical(mem, dtb, va + n - 1);
      var b :- ReadByte(mem, pa);
      Ok(front + [b])
  }

  predicate StaysInPage(mem: Memory, dtb: Address, va: Address, n: nat) {
    var w := Walk(CODE, mem, dtb, va);
    w.Ok? && w.value.size > 0 && va % w.value.size + n <= w.value.size
  }

  /** A shorter read stays inside too, and its end is translated by counting from its start. */
  lemma LastByte(mem: Memory, dtb: Address, va: Address, n: nat)
    requires StaysInPage(mem, dtb, va, n) && n > 0
    ensures va + n <= ADDRESS_SPACE && StaysInPage(mem, dtb, va, n - 1)
    ensures VirtualToPhysical(mem, dtb, va).Ok?
    ensures VirtualToPhysical(mem, dtb, va + n - 1) == Ok(At(VirtualToPhysical(mem, dtb, va).value, n - 1))
  {
    hide Walk, At;
    AffineWithinPage(CODE, mem, dtb, va, n - 1);
  }

  /** A read that stays inside one page is the bytes translated one at a time, errors included. */
  lemma {:induction false} ReadsAgree(mem: Memory, dtb: Address, va: Address, n: nat)
    requires StaysInPage(mem, dtb, va, n)
    ensures va + n <= ADDRESS_SPACE
    ensures ReadByteByByte(mem, dtb, va, n) == ReadVirtual(mem, dtb, va, n)
  {
    hide StaysInPage, VirtualToPhysical, At, Lift, ReadByte, ReadBytes;
    if n > 0 {
      LastByte(mem, dtb, va, n);
      ReadsAgree(mem, dtb, va, n - 1);
      ReadStep(mem, VirtualToPhysical(mem, dtb, va).value, n);
    } else {
      EmptyRead(mem, dtb, va);
    }
  }

  lemma EmptyRead(mem: Memory, dtb: Address, va: Address)
    requires StaysInPage(mem, dtb, va, 0)
    ensures ReadVirtual(mem, dtb, va, 0) == Ok([])
  {
    hide Walk, At;
  }

  function Append(front: Result<seq<byte>, PageError>, last: Result<byte, PageError>): Result<seq<byte>, PageError> {
    var s :- front;
    var b :- last;
    Ok(s + [b])
  }

  lemma ReadStep(mem: Memory, pa: Address, n: nat)
    requires n > 0
    ensures Lift(ReadBytes(mem, pa, n)) == Append(Lift(ReadBytes(mem, pa, n - 1)), ReadByte(mem, At(pa, n - 1)))
  {
    hide At;
  }

  /** When the first translation fails, both fail the same way. */
  lemma {:induction false} FaultsAgree(mem: Memory, dtb: Address, va: Address, n: nat)
    requires Walk(CODE, mem, dtb, va).Err? && n > 0 && va + n <= ADDRESS_SPACE
    ensures ReadByteByByte(mem, dtb, va, n) == ReadVirtual(mem, dtb, va, n)
  {
    if n > 1 {
      FaultsAgree(mem, dtb, va, n - 1);
    } else {
      assert ReadByteByByte(mem, dtb, va, 0) == Ok([]);
    }
  }

  // ---- against the architecture ----

  /** The directory base and the page directory entry that points to a page table have no frame bit that the code's
      narrower fields drop: bits 48 to 51 of the one, bits 50 and 51 of the other. */
  predicate TablesFit(mem: Memory, dtb: Address, va: Address) {
    SDM.dtb.Of(dtb) < 0x10_0000_0000
    && match Entry(mem, SDM.dtb.Of(dtb), Pml4Index(va), Pml4)
       case Err(_) => true
       case Ok(pml4e) =>
         match Entry(mem, SDM.pml4e.Of(pml4e), PdptIndex(va), Pdpt)
         case Err(_) => true
         case Ok(pdpte) =>
           !Large(pdpte) ==>
             match Entry(mem, SDM.pdpte.Of(pdpte), PdIndex(va), Pd)
             case Err(_) => true
             case Ok(pde) => !Large(pde) ==> SDM.pde.Of(pde) < 0x40_0000_0000
  }

  /** The 36-bit frame of the directory base is the architectural one exactly when the bits it drops are zero. */
  lemma BaseFieldIff(dtb: nat)
    ensures CODE.dtb.Of(dtb) == SDM.dtb.Of(dtb) <==> SDM.dtb.Of(dtb) < 0x10_0000_0000
  {
    FieldPowers();
    TopBits(dtb / 0x1000, 0x10_0000_0000, 16);
  }

  /** So is the 38-bit frame of a page directory or page table entry. */
  lemma EntryFieldIff(entry: nat)
    ensures CODE.pde.Of(entry) == SDM.pde.Of(entry) <==> SDM.pde.Of(entry) < 0x40_0000_0000
    ensures CODE.pte.Of(entry) == SDM.pte.Of(entry) <==> SDM.pte.Of(entry) < 0x40_0000_0000
  {
    FieldPowers();
    TopBits(entry / 0x1000, 0x40_0000_0000, 4);
  }

  lemma TopBits(x: nat, a: nat, b: nat)
    requires a > 0 && b > 0
    ensures a * b > 0 && (x % a == x % (a * b) <==> x % (a * b) < a)
  {
    var q, r := x / a, x % a;
    Regroup(a, b, q / b, q % b, r);
    assert q == b * (q / b) + q % b;
    QuotientUnique(x, a * b, q / b, a * (q % b) + r);
    if q % b > 0 {
      Scale(a, q % b);
    }
  }

  lemma FieldPowers()
    ensures Pow2(12) == 0x1000 && Pow2(36) == 0x10_0000_0000
    ensures Pow2(38) == 0x40_0000_0000 && Pow2(40) == 0x100_0000_0000
    ensures Pow2(21) == PAGE_2MB && Pow2(30) == PAGE_1GB && Pow2(22) == 0x40_0000 && Pow2(31) == 0x8000_0000
  {
    assert Pow2(12) == 0x1000;
    Pow2Add(12, 12);
    Pow2Add(24, 12);
    Pow2Add(36, 2);
    Pow2Add(36, 4);
    Pow2Add(12, 9);
    Pow2Add(21, 1);
    Pow2Add(21, 9);
    Pow2Add(21, 10);
  }

  /** The 2MB frame read through the 1GB layout is the architectural frame exactly when that is zero. */
  lemma Large2MBIff(pde: nat)
    ensures CODE.large2MB.Of(pde) == SDM.large2MB.Of(pde) <==> SDM.large2MB.Of(pde) == 0
  {
    FieldPowers();
    Coarser(pde, PAGE_2MB, 512);
    var x := pde / PAGE_2MB;
    Halves(x);
  }

  lemma Halves(x: nat)
    ensures x / 512 % 0x40_0000 == x % 0x8000_0000 / 512
  {
    var q, r := x / 0x8000_0000, x % 0x8000_0000;
    assert x == 0x8000_0000 * q + r;
    QuotientUnique(x, 512, 0x40_0000 * q + r / 512, r % 512);
    QuotientUnique(x / 512, 0x40_0000, q, r / 512);
  }

  /** When the tables fit, the translation is the architecture's unless it ends in a 2MB page of a non-zero frame or in
      a 4KB page whose entry has bit 50 or 51 set. */
  lemma AgreesWithSdmIff(mem: Memory, dtb: Address, va: Address)
    requires TablesFit(mem, dtb, va)
    ensures var w := Walk(SDM, mem, dtb, va);
            Walk(CODE, mem, dtb, va) == w
            <==> !(w.Ok? && w.value.size == PAGE_2MB && w.value.base != 0)
                 && !(w.Ok? && w.value.size == PAGE_4KB && w.value.base >= 0x4_0000_0000_0000)
  {
    BaseFieldIff(dtb);
    hide Entry, Large, Pml4Index, PdptIndex, PdIndex, PtIndex, Pow2;
    var e4 := Entry(mem, SDM.dtb.Of(dtb), Pml4Index(va), Pml4);
    if e4.Ok? {
      var e3 := Entry(mem, SDM.pml4e.Of(e4.value), PdptIndex(va), Pdpt);
      if e3.Ok? && !Large(e3.value) {
        var e2 := Entry(mem, SDM.pdpte.Of(e3.value), PdIndex(va), Pd);
        if e2.Ok? {
          EntryFieldIff(e2.value);
          if Large(e2.value) {
            Large2MBIff(e2.value);
          } else {
            var e1 := Entry(mem, SDM.pde.Of(e2.value), PtIndex(va), Pt);
            if e1.Ok? {
              EntryFieldIff(e1.value);
            }
          }
        }
      }
    }
  }
}

/** Testcase injection: where the testcase goes, how large it may be, and the
    two write loops that place it in the target's memory (src/arch/mod.rs). */
module Injection {
  import opened Base
  import opened PhysicalMemory

  /** A Rust `Vec<u8>`: at most `isize::MAX` bytes. */
  type Buffer = s: seq<byte> | |s| < 0x8000_0000_0000_0000

  datatype StartPhysicalAddress = WasVirtual(address: Address) | WasPhysical(address: Address)

  datatype StartSize =
    | SizePtr(address: StartPhysicalAddress, maximum: nat)
    | MaxSize(maximum: nat)
    | SizePtrAndMaxSize(address: StartPhysicalAddress, maximum: nat)
  {
    function PhysicalAddress(): Option<Address> {
      match this
      case SizePtr(a, _) => Some(a.address)
      case MaxSize(_) => None
      case SizePtrAndMaxSize(a, _) => Some(a.address)
    }
  }

  datatype StartInfo = StartInfo(address: StartPhysicalAddress, contents: seq<byte>, size: StartSize)

  datatype ManualAddress = Virtual(address: Address) | Physical(address: Address)

  datatype ManualStartSize =
    | ManualSizePtr(address: ManualAddress)
    | ManualMaxSize(maximum: nat)
    | ManualSizePtrAndMaxSize(address: ManualAddress, maximum: nat)

  datatype ManualStartInfo = ManualStartInfo(address: ManualAddress, size: ManualStartSize)

  // ---------------------------------------------------------------- writing

  function Truncated(testcase: Buffer, maximum: nat): (t: Buffer) {
    if |testcase| <= maximum then testcase else testcase[..maximum]
  }

  /** The bytes stored at the size pointer: `len().to_le_bytes()`, as many as an address has. */
  function SizeCell(length: nat, addressBytes: nat): seq<byte> {
    LittleEndian(length, Min(8, addressBytes))
  }

  /** The write loops of `write_start`. */
  function WriteStart(mem: Memory, testcase: Buffer, info: StartInfo, addressBytes: nat): Result<Memory, AccessError> {
    var t := Truncated(testcase, info.size.maximum);
    var m :- WriteBytes(mem, info.address.address, t);
    match info.size.PhysicalAddress()
    case None => Ok(m)
    case Some(p) => WriteBytes(m, p, SizeCell(|t|, addressBytes))
  }

  /** What the target must find: the truncated testcase, and its length laid over that. */
  function Injected(mem: Memory, testcase: Buffer, info: StartInfo, addressBytes: nat): Memory {
    var t := Truncated(testcase, info.size.maximum);
    var m := Overlay(mem, info.address.address, t);
    match info.size.PhysicalAddress()
    case None => m
    case Some(p) => Overlay(m, p, SizeCell(|t|, addressBytes))
  }

  predicate Injectable(mem: Memory, testcase: Buffer, info: StartInfo, addressBytes: nat) {
    && Mapped(mem, info.address.address, |Truncated(testcase, info.size.maximum)|)
    && (info.size.PhysicalAddress().Some? ==> Mapped(mem, info.size.PhysicalAddress().value, Min(8, addressBytes)))
  }

  lemma WriteStartIsInjected(mem: Memory, testcase: Buffer, info: StartInfo, addressBytes: nat)
    ensures WriteStart(mem, testcase, info, addressBytes).Ok? <==> Injectable(mem, testcase, info, addressBytes)
    ensures Injectable(mem, testcase, info, addressBytes) ==>
              WriteStart(mem, testcase, info, addressBytes) == Ok(Injected(mem, testcase, info, addressBytes))
  {
    var t := Truncated(testcase, info.size.maximum);
    WriteBytesIsOverlay(mem, info.address.address, t);
    var m := Overlay(mem, info.address.address, t);
    assert m.Keys == mem.Keys;
    match info.size.PhysicalAddress()
    case None =>
    case Some(p) =>
      WriteBytesIsOverlay(m, p, SizeCell(|t|, addressBytes));
      assert Mapped(m, p, Min(8, addressBytes)) <==> Mapped(mem, p, Min(8, addressBytes));
  }

  predicate InBuffer(testcase: Buffer, info: StartInfo, x: Address) {
    IndexOf(info.address.address, x) < |Truncated(testcase, info.size.maximum)|
  }

  predicate InCell(info: StartInfo, addressBytes: nat, x: Address) {
    info.size.PhysicalAddress().Some? && IndexOf(info.size.PhysicalAddress().value, x) < Min(8, addressBytes)
  }

  /** Byte by byte: the size cell wins over the buffer, and nothing else changes. */
  lemma InjectedFrame(mem: Memory, testcase: Buffer, info: StartInfo, addressBytes: nat, x: Address)
    requires x in mem
    ensures var m := Injected(mem, testcase, info, addressBytes);
            var n := |Truncated(testcase, info.size.maximum)|;
            && m.Keys == mem.Keys
            && n == Min(|testcase|, info.size.maximum)
            && m[x] == if InCell(info, addressBytes, x)
                       then LittleEndianByte(n, IndexOf(info.size.PhysicalAddress().value, x))
                       else if InBuffer(testcase, info, x) then testcase[IndexOf(info.address.address, x)]
                       else mem[x]
  {
  }

  /** Reading the cell back at any width it covers gives the length modulo that width,
      so the target reads the true length exactly when it fits. */
  lemma SizeRoundTrip(mem: Memory, testcase: Buffer, info: StartInfo, addressBytes: nat, w: nat)
    requires info.size.PhysicalAddress().Some?
    requires Injectable(mem, testcase, info, addressBytes)
    requires w <= Min(8, addressBytes)
    ensures var n := Min(|testcase|, info.size.maximum);
            var back := ReadInteger(Injected(mem, testcase, info, addressBytes), info.size.PhysicalAddress().value, w);
            && back == Ok(n % Pow2(8 * w))
            && (back == Ok(n) <==> n < Pow2(8 * w))
  {
    var n := Min(|testcase|, info.size.maximum);
    var m := Injected(mem, testcase, info, addressBytes);
    var p := info.size.PhysicalAddress().value;
    forall i: nat | i < w
      ensures At(p, i) in m && m[At(p, i)] == LittleEndianByte(n, i)
    {
      CellByte(mem, testcase, info, addressBytes, i);
    }
    CellReadsBack(m, p, n, w);
  }

  lemma CellByte(mem: Memory, testcase: Buffer, info: StartInfo, addressBytes: nat, i: nat)
    requires info.size.PhysicalAddress().Some?
    requires Injectable(mem, testcase, info, addressBytes)
    requires i < Min(8, addressBytes)
    ensures var x := At(info.size.PhysicalAddress().value, i);
            && x in mem && x in Injected(mem, testcase, info, addressBytes)
            && Injected(mem, testcase, info, addressBytes)[x]
               == LittleEndianByte(Min(|testcase|, info.size.maximum), i)
  {
    var p := info.size.PhysicalAddress().value;
    assert At(p, i) in mem;
    IndexOfAt(p, i);
    InjectedFrame(mem, testcase, info, addressBytes, At(p, i));
  }

  lemma CellReadsBack(m: Memory, p: Address, n: nat, w: nat)
    requires forall i: nat {:trigger At(p, i)} :: i < w ==> At(p, i) in m && m[At(p, i)] == LittleEndianByte(n, i)
    ensures ReadInteger(m, p, w) == Ok(n % Pow2(8 * w))
    ensures n % Pow2(8 * w) == n <==> n < Pow2(8 * w)
  {
    assert Mapped(m, p, w);
    assert ReadBytes(m, p, w).value == LittleEndian(n, w);
    LittleEndianRoundTrip(n, w);
    if n < Pow2(8 * w) {
      QuotientUnique(n, Pow2(8 * w), 0, n);
    }
  }

  /** The testcase bytes survive in the buffer unless the size cell lies inside it. */
  lemma BufferReadBack(mem: Memory, testcase: Buffer, info: StartInfo, addressBytes: nat)
    requires Injectable(mem, testcase, info, addressBytes)
    requires forall x :: InBuffer(testcase, info, x) ==> !InCell(info, addressBytes, x)
    ensures var t := Truncated(testcase, info.size.maximum);
            ReadBytes(Injected(mem, testcase, info, addressBytes), info.address.address, |t|) == Ok(t)
  {
    var t := Truncated(testcase, info.size.maximum);
    var m := Injected(mem, testcase, info, addressBytes);
    var a := info.address.address;
    forall i: nat | i < |t|
      ensures At(a, i) in m && m[At(a, i)] == t[i]
    {
      IndexOfAt(a, i);
      assert At(a, i) in mem;
      assert InBuffer(testcase, info, At(a, i));
    }
    assert Mapped(m, a, |t|);
    assert ReadBytes(m, a, |t|).value == t;
  }

  // ---------------------------------------------------------------- reading

  datatype Architecture = X86_64 | I386 | Riscv | Arm | Aarch64

  /** What a start reader consults: argument registers, address translation, address width. */
  datatype CpuView = CpuView(arch: Architecture, arg0: Address, arg1: Address, arg2: Address,
                             translate: map<Address, Address>, addressBytes: nat)

  datatype MagicNumber =
    | StartBufferPtrSizePtr | StartBufferPtrSizeVal | StartBufferPtrSizePtrVal
    | StopNormal | StopAssert
  {
    predicate IsStart() {
      StartBufferPtrSizePtr? || StartBufferPtrSizeVal? || StartBufferPtrSizePtrVal?
    }
  }

  function Translate(view: CpuView, logical: Address): Result<Address, AccessError> {
    if logical in view.translate then Ok(view.translate[logical]) else Err(Untranslated(logical))
  }

  function Tagged(logical: Address, physical: Address): StartPhysicalAddress {
    if physical != logical then WasVirtual(physical) else WasPhysical(physical)
  }

  /** Bytes read through a size pointer: `POINTER_WIDTH_OVERRIDE`, set only on i386, or the address width. */
  function SizePointerBytes(view: CpuView): nat {
    if view.arch.I386? then 4 else view.addressBytes
  }

  function BufferPtrSizePtr(view: CpuView, mem: Memory): Result<StartInfo, AccessError> {
    var buffer :- Translate(view, view.arg0);
    var sizePtr :- Translate(view, view.arg1);
    var size :- ReadInteger(mem, sizePtr, SizePointerBytes(view));
    var contents :- ReadBytes(mem, buffer, size);
    Ok(StartInfo(Tagged(view.arg0, buffer), contents, SizePtr(Tagged(view.arg1, sizePtr), size)))
  }

  function BufferPtrSizeVal(view: CpuView, mem: Memory): Result<StartInfo, AccessError> {
    var buffer :- Translate(view, view.arg0);
    var contents :- ReadBytes(mem, buffer, view.arg1);
    Ok(StartInfo(Tagged(view.arg0, buffer), contents, MaxSize(view.arg1)))
  }

  function BufferPtrSizePtrVal(view: CpuView, mem: Memory): Result<StartInfo, AccessError> {
    var buffer :- Translate(view, view.arg0);
    var sizePtr :- Translate(view, view.arg1);
    var contents :- ReadBytes(mem, buffer, view.arg2);
    Ok(StartInfo(Tagged(view.arg0, buffer), contents, SizePtrAndMaxSize(Tagged(view.arg1, sizePtr), view.arg2)))
  }

  /** The per-architecture dispatch: only Arm and AArch64 reach the three-argument reader. */
  function MagicStartInfo(number: MagicNumber, view: CpuView, mem: Memory): Result<StartInfo, AccessError>
    requires number.IsStart()
  {
    match number
    case StartBufferPtrSizePtr => BufferPtrSizePtr(view, mem)
    case StartBufferPtrSizeVal => BufferPtrSizeVal(view, mem)
    case StartBufferPtrSizePtrVal =>
      if view.arch.Arm? || view.arch.Aarch64? then BufferPtrSizePtrVal(view, mem) else BufferPtrSizePtr(view, mem)
  }

  function ManualPhysical(view: CpuView, a: ManualAddress): Result<Address, AccessError> {
    if a.Virtual? then Translate(view, a.address) else Ok(a.address)
  }

  function ManualTagged(view: CpuView, a: ManualAddress): Result<StartPhysicalAddress, AccessError> {
    var p :- ManualPhysical(view, a);
    Ok(if a.Virtual? then WasVirtual(p) else WasPhysical(p))
  }

  function ManualSize(view: CpuView, mem: Memory, size: ManualStartSize): Result<StartSize, AccessError> {
    match size
    case ManualSizePtr(a) =>
      var p :- ManualTagged(view, a);
      var maximum :- ReadInteger(mem, p.address, SizePointerBytes(view));
      Ok(SizePtr(p, maximum))
    case ManualMaxSize(maximum) => Ok(MaxSize(maximum))
    case ManualSizePtrAndMaxSize(a, maximum) =>
      var p :- ManualTagged(view, a);
      Ok(SizePtrAndMaxSize(p, maximum))
  }

  function ManualStart(view: CpuView, mem: Memory, info: ManualStartInfo): Result<StartInfo, AccessError> {
    var buffer :- ManualPhysical(view, info.address);
    var size :- ManualSize(view, mem, info.size);
    var contents :- ReadBytes(mem, buffer, size.maximum);
    Ok(StartInfo(WasPhysical(buffer), contents, size))
  }

  // What the readers give, in terms of the argument registers, the translation and the bytes of memory.

  ghost predicate BytesAt(mem: Memory, p: Address, s: seq<byte>) {
    forall i: nat :: i < |s| ==> At(p, i) in mem && s[i] == mem[At(p, i)]
  }

  predicate Tags(a: StartPhysicalAddress, logical: Address, physical: Address) {
    a.address == physical && (a.WasVirtual? <==> physical != logical)
  }

  predicate TakesThird(number: MagicNumber, view: CpuView) {
    number.StartBufferPtrSizePtrVal? && (view.arch == Arm || view.arch == Aarch64)
  }

  /** Where a harness start puts the buffer and the size, and what it takes as the maximum: the first argument translated;
      the second translated, or taken as the maximum; the integer there, or the third argument. */
  lemma MagicReads(number: MagicNumber, view: CpuView, mem: Memory)
    requires number.IsStart() && MagicStartInfo(number, view, mem).Ok?
    ensures var info := MagicStartInfo(number, view, mem).value;
            && view.arg0 in view.translate && Tags(info.address, view.arg0, view.translate[view.arg0])
            && |info.contents| == info.size.maximum && BytesAt(mem, view.translate[view.arg0], info.contents)
            && (number.StartBufferPtrSizeVal? ==> info.size == MaxSize(view.arg1))
            && (!number.StartBufferPtrSizeVal? ==>
                  && view.arg1 in view.translate && !info.size.MaxSize?
                  && Tags(info.size.address, view.arg1, view.translate[view.arg1])
                  && (info.size.SizePtrAndMaxSize? <==> TakesThird(number, view))
                  && (TakesThird(number, view) ==> info.size.maximum == view.arg2)
                  && (!TakesThird(number, view) ==>
                        IntegerAt(mem, view.translate[view.arg1], if view.arch.I386? then 4 else view.addressBytes,
                                  info.size.maximum)))
  {
    if view.arg1 in view.translate {
      ReadIntegerBytes(mem, view.translate[view.arg1], if view.arch.I386? then 4 else view.addressBytes);
    }
    var info := MagicStartInfo(number, view, mem).value;
    ContentsRead(mem, view.translate[view.arg0], info.size.maximum);
    hide ReadBytes, ReadInteger, BytesAt, IntegerAt, Mapped;
  }

  lemma ContentsRead(mem: Memory, p: Address, n: nat)
    ensures var s := ReadBytes(mem, p, n); s.Ok? ==> |s.value| == n && BytesAt(mem, p, s.value)
  {
  }

  /** A harness start succeeds exactly when everything it reads is there. */
  lemma MagicReadsIff(number: MagicNumber, view: CpuView, mem: Memory)
    requires number.IsStart()
    ensures MagicStartInfo(number, view, mem).Ok? <==>
              && view.arg0 in view.translate
              && (if number.StartBufferPtrSizeVal? then Mapped(mem, view.translate[view.arg0], view.arg1)
                  else
                    && view.arg1 in view.translate
                    && (if TakesThird(number, view) then Mapped(mem, view.translate[view.arg0], view.arg2)
                        else exists v :: IntegerAt(mem, view.translate[view.arg1],
                                                   if view.arch.I386? then 4 else view.addressBytes, v)
                                         && Mapped(mem, view.translate[view.arg0], v)))
  {
    if view.arg0 in view.translate && view.arg1 in view.translate {
      PointedMaximum(mem, view.translate[view.arg0], view.translate[view.arg1],
                     if view.arch.I386? then 4 else view.addressBytes);
    }
    hide ReadInteger, IntegerAt, Mapped;
  }

  lemma PointedMaximum(mem: Memory, buffer: Address, p: Address, w: nat)
    ensures (ReadInteger(mem, p, w).Ok? && Mapped(mem, buffer, ReadInteger(mem, p, w).value))
            <==> exists v :: IntegerAt(mem, p, w, v) && Mapped(mem, buffer, v)
  {
    var r := ReadInteger(mem, p, w);
    ReadIntegerBytes(mem, p, w);
    if r.Ok? {
      assert IntegerAt(mem, p, w, r.value);
    }
    if v :| IntegerAt(mem, p, w, v) && Mapped(mem, buffer, v) {
      assert Mapped(mem, p, w);
      IntegerUnique(mem, p, w, v, r.value);
    }
  }

  predicate Locates(view: CpuView, a: ManualAddress, physical: Address) {
    if a.Virtual? then a.address in view.translate && physical == view.translate[a.address] else physical == a.address
  }

  /** The same for a scripted start: the given address, translated if it is virtual, and the given size. */
  lemma ManualReads(view: CpuView, mem: Memory, given: ManualStartInfo)
    requires ManualStart(view, mem, given).Ok?
    ensures var info := ManualStart(view, mem, given).value;
            && info.address.WasPhysical? && Locates(view, given.address, info.address.address)
            && |info.contents| == info.size.maximum && BytesAt(mem, info.address.address, info.contents)
            && (match given.size
                case ManualMaxSize(maximum) => info.size == MaxSize(maximum)
                case ManualSizePtr(a) =>
                  && info.size.SizePtr? && Locates(view, a, info.size.address.address)
                  && (info.size.address.WasVirtual? <==> a.Virtual?)
                  && IntegerAt(mem, info.size.address.address, if view.arch.I386? then 4 else view.addressBytes,
                               info.size.maximum)
                case ManualSizePtrAndMaxSize(a, maximum) =>
                  && info.size.SizePtrAndMaxSize? && Locates(view, a, info.size.address.address)
                  && (info.size.address.WasVirtual? <==> a.Virtual?) && info.size.maximum == maximum)
  {
    var size := ManualSize(view, mem, given.size).value;
    if size.SizePtr? {
      ReadIntegerBytes(mem, size.address.address, if view.arch.I386? then 4 else view.addressBytes);
    }
    hide ReadInteger, Pow2, LittleEndianByte;
  }

  lemma ReadIntegerFits(mem: Memory, p: Address, w: nat)
    ensures ReadInteger(mem, p, w).Ok? ==> ReadInteger(mem, p, w).value < Pow2(8 * w)
  {
    if ReadBytes(mem, p, w).Ok? {
      FromLittleEndianBound(ReadBytes(mem, p, w).value);
    }
  }

  /** A maximum that came through a size pointer always fits that pointer's cell. */
  lemma SizePtrMaximumFits(number: MagicNumber, view: CpuView, mem: Memory)
    requires number.IsStart()
    ensures var r := MagicStartInfo(number, view, mem);
            r.Ok? && r.value.size.SizePtr? ==> r.value.size.maximum < Pow2(8 * SizePointerBytes(view))
  {
    if view.arg1 in view.translate {
      ReadIntegerFits(mem, view.translate[view.arg1], SizePointerBytes(view));
    }
  }

  lemma ManualSizePtrMaximumFits(info: ManualStartInfo, view: CpuView, mem: Memory)
    ensures var r := ManualStart(view, mem, info);
            r.Ok? && r.value.size.SizePtr? ==> r.value.size.maximum < Pow2(8 * SizePointerBytes(view))
  {
    var s := ManualSize(view, mem, info.size);
    if s.Ok? && s.value.SizePtr? {
      ReadIntegerFits(mem, s.value.address.address, SizePointerBytes(view));
    }
  }

  /** Size-pointer form, end to end: whatever testcase is written into whatever memory, the
      target reads min(length, maximum) at the width its size variable was read with. */
  lemma SizePtrRoundTrip(number: MagicNumber, view: CpuView, mem: Memory, later: Memory, testcase: Buffer)
    requires number.IsStart() && SizePointerBytes(view) <= Min(8, view.addressBytes)
    requires MagicStartInfo(number, view, mem).Ok? && MagicStartInfo(number, view, mem).value.size.SizePtr?
    requires Injectable(later, testcase, MagicStartInfo(number, view, mem).value, view.addressBytes)
    ensures var info := MagicStartInfo(number, view, mem).value;
            ReadInteger(Injected(later, testcase, info, view.addressBytes), info.size.address.address, SizePointerBytes(view))
            == Ok(Min(|testcase|, info.size.maximum))
  {
    SizePtrMaximumFits(number, view, mem);
    var info := MagicStartInfo(number, view, mem).value;
    SizeRoundTrip(later, testcase, info, view.addressBytes, SizePointerBytes(view));
  }

  /** Three-argument starts honour their third argument exactly on the architectures that
      dispatch to its reader; the others take the maximum from the target's memory. */
  lemma ThreeArgumentStart(view: CpuView, mem: Memory)
    ensures var r := MagicStartInfo(StartBufferPtrSizePtrVal, view, mem);
            r.Ok? ==>
              && (r.value.size.SizePtrAndMaxSize? <==> view.arch in {Arm, Aarch64})
              && (view.arch in {Arm, Aarch64} ==> r.value.size.maximum == view.arg2)
              && (view.arch !in {Arm, Aarch64} ==>
                    Ok(r.value.size.maximum) == ReadInteger(mem, r.value.size.address.address, SizePointerBytes(view)))
  {
  }

  /** On a 64-bit-wide i386 the size variable is read as four bytes but written as eight:
      a byte past the variable is overwritten with zero, and changes exactly if it was not zero. */
  lemma WideCellClobber(mem: Memory, testcase: Buffer, info: StartInfo, addressBytes: nat, i: nat)
    requires info.size.PhysicalAddress().Some?
    requires Injectable(mem, testcase, info, addressBytes)
    requires i < Min(8, addressBytes)
    requires Min(|testcase|, info.size.maximum) < Pow2(8 * i)
    ensures var x := At(info.size.PhysicalAddress().value, i);
            && x in mem
            && Injected(mem, testcase, info, addressBytes)[x] == 0
            && (Injected(mem, testcase, info, addressBytes)[x] != mem[x] <==> mem[x] != 0)
  {
    CellByte(mem, testcase, info, addressBytes, i);
    HighByteZero(Min(|testcase|, info.size.maximum), i);
  }

  lemma HighByteZero(n: nat, i: nat)
    requires n < Pow2(8 * i)
    ensures LittleEndianByte(n, i) == 0
  {
    QuotientUnique(n, Pow2(8 * i), 0, n);
  }
}

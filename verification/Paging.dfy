/** Words and their bytes, in the little-endian order of the simulated machine. */
module WordBytes {
  function Byte(w: bv32, i: nat): bv8
    requires i < 4
  {
    if i == 0 then (w & 0xff) as bv8
    else if i == 1 then ((w >> 8) & 0xff) as bv8
    else if i == 2 then ((w >> 16) & 0xff) as bv8
    else ((w >> 24) & 0xff) as bv8
  }

  function Join(a: bv8, b: bv8, c: bv8, d: bv8): bv32 {
    a as bv32 | (b as bv32 << 8) | (c as bv32 << 16) | (d as bv32 << 24)
  }

  lemma JoinBytes(a: bv8, b: bv8, c: bv8, d: bv8)
    ensures Byte(Join(a, b, c, d), 0) == a && Byte(Join(a, b, c, d), 1) == b
    ensures Byte(Join(a, b, c, d), 2) == c && Byte(Join(a, b, c, d), 3) == d
  {
  }

  /** A word is its four bytes. */
  lemma SameBytes(v: bv32, w: bv32)
    requires forall i: nat :: i < 4 ==> Byte(v, i) == Byte(w, i)
    ensures v == w
  {
    assert Byte(v, 0) == Byte(w, 0) && Byte(v, 1) == Byte(w, 1) && Byte(v, 2) == Byte(w, 2) && Byte(v, 3) == Byte(w, 3);
    EqualParts(v, w);
  }

  lemma EqualParts(v: bv32, w: bv32)
    requires (v & 0xff) as bv8 == (w & 0xff) as bv8 && ((v >> 8) & 0xff) as bv8 == ((w >> 8) & 0xff) as bv8
    requires ((v >> 16) & 0xff) as bv8 == ((w >> 16) & 0xff) as bv8 && ((v >> 24) & 0xff) as bv8 == ((w >> 24) & 0xff) as bv8
    ensures v == w
  {
  }
}

/** Address translation (machine/translate.cc), with a linear page table. */
module Paging {
  import opened WordBytes

  const PageSize: int := 128
  const NumPhysPages: int := 128
  const MemorySize: int := 16384
  const AddressSpan: int := 0x1_0000_0000

  datatype TranslationEntry = TranslationEntry(virtualPage: int, physicalPage: int, valid: bool, readOnly: bool, use: bool, dirty: bool)

  datatype ExceptionType = PageFaultException | ReadOnlyException | BusErrorException | AddressErrorException

  datatype Translation = Physical(address: int) | Failed(exception: ExceptionType)

  predicate ValidSize(size: int) { size == 1 || size == 2 || size == 4 }

  /** An address as the unsigned number the hardware takes it for. */
  predicate ValidAddress(addr: int) { 0 <= addr < AddressSpan }

  function Translate(pt: seq<TranslationEntry>, addr: int, size: int, writing: bool): (r: Translation)
    requires ValidAddress(addr) && ValidSize(size)
  {
    if (size == 4 && addr % 4 != 0) || (size == 2 && addr % 2 != 0) then
      Failed(AddressErrorException)
    else
      var vpn, offset := addr / PageSize, addr % PageSize;
      if vpn >= |pt| then
        Failed(AddressErrorException)
      else if !pt[vpn].valid then
        Failed(PageFaultException)
      else if pt[vpn].readOnly && writing then
        Failed(ReadOnlyException)
      else if !(0 <= pt[vpn].physicalPage < NumPhysPages) then
        Failed(BusErrorException)
      else
        Physical(pt[vpn].physicalPage * PageSize + offset)
  }

  /** The bits a successful translation sets. */
  function Touch(pt: seq<TranslationEntry>, addr: int, writing: bool): (pt': seq<TranslationEntry>)
    requires ValidAddress(addr) && addr / PageSize < |pt|
    ensures |pt'| == |pt|
  {
    var e := pt[addr / PageSize];
    pt[addr / PageSize := e.(use := true, dirty := e.dirty || writing)]
  }

  /** When an access gets which exception, and which byte of memory it gets otherwise: the one at the same
      place in the page's frame. */
  lemma TranslateOutcome(pt: seq<TranslationEntry>, addr: int, size: int, writing: bool, p: int)
    requires ValidAddress(addr) && ValidSize(size)
    ensures var r, page, aligned := Translate(pt, addr, size, writing), addr / PageSize, addr % size == 0;
            && (r == Failed(AddressErrorException) <==> !aligned || page >= |pt|)
            && (r == Failed(PageFaultException) <==> aligned && page < |pt| && !pt[page].valid)
            && (r == Failed(ReadOnlyException) <==> aligned && page < |pt| && pt[page].valid && writing && pt[page].readOnly)
            && (r == Failed(BusErrorException) <==> aligned && page < |pt| && pt[page].valid && !(writing && pt[page].readOnly)
                                                    && !(0 <= pt[page].physicalPage < NumPhysPages))
            && (r == Physical(p) <==> aligned && page < |pt| && pt[page].valid && !(writing && pt[page].readOnly)
                                      && 0 <= pt[page].physicalPage < NumPhysPages
                                      && p / PageSize == pt[page].physicalPage && p % PageSize == addr % PageSize)
  {
  }

  /** A translation marks its own page as used, and as dirty if it is for a write, and nothing else. */
  lemma TouchOnly(pt: seq<TranslationEntry>, addr: int, writing: bool, i: int)
    requires ValidAddress(addr) && addr / PageSize < |pt| && 0 <= i < |pt|
    ensures var e, e', hit := pt[i], Touch(pt, addr, writing)[i], i * PageSize <= addr < (i + 1) * PageSize;
            && e'.use == (e.use || hit) && e'.dirty == (e.dirty || (hit && writing))
            && e'.virtualPage == e.virtualPage && e'.physicalPage == e.physicalPage && e'.valid == e.valid && e'.readOnly == e.readOnly
  {
  }

  /** An aligned access does not cross a page boundary. */
  lemma WithinPage(addr: int, size: int)
    requires 0 <= addr && ValidSize(size) && (size == 4 ==> addr % 4 == 0) && (size == 2 ==> addr % 2 == 0)
    ensures addr % PageSize + size <= PageSize
  {
    var vpn, offset := addr / PageSize, addr % PageSize;
    if size == 4 {
      assert offset == 4 * (addr / 4 - 32 * vpn);
    } else if size == 2 {
      assert offset == 2 * (addr / 2 - 64 * vpn);
    }
  }

  lemma FrameAddress(frame: int, offset: int, k: int)
    requires 0 <= frame && 0 <= offset && 0 <= k && offset + k < PageSize
    ensures (frame * PageSize + offset + k) / PageSize == frame && (frame * PageSize + offset + k) % PageSize == offset + k
  {
  }

  /** The bytes an access touches all lie in main memory and in one frame: the assertion at the end
      of Translate never fails. */
  lemma TranslateInBounds(pt: seq<TranslationEntry>, addr: int, size: int, writing: bool)
    requires ValidAddress(addr) && ValidSize(size) && Translate(pt, addr, size, writing).Physical?
    ensures var p := Translate(pt, addr, size, writing).address;
            && 0 <= p && p + size <= MemorySize && addr + size <= AddressSpan
            && addr / PageSize < |pt| && p / PageSize == pt[addr / PageSize].physicalPage
            && (p + size - 1) / PageSize == p / PageSize
  {
    var vpn, offset := addr / PageSize, addr % PageSize;
    WithinPage(addr, size);
    WithinSpan(addr, size);
    FrameAddress(pt[vpn].physicalPage, offset, 0);
    FrameAddress(pt[vpn].physicalPage, offset, size - 1);
  }

  lemma WithinSpan(addr: int, size: int)
    requires ValidAddress(addr) && addr % PageSize + size <= PageSize
    ensures addr + size <= AddressSpan
  {
  }

  /** A wide access is the accesses to its bytes, one after the other. */
  lemma TranslateByteOf(pt: seq<TranslationEntry>, addr: int, size: int, writing: bool, k: int)
    requires ValidAddress(addr) && ValidSize(size) && Translate(pt, addr, size, writing).Physical? && 0 <= k < size
    ensures ValidAddress(addr + k) && (addr + k) / PageSize == addr / PageSize
    ensures Translate(pt, addr + k, 1, writing) == Physical(Translate(pt, addr, size, writing).address + k)
  {
    WithinPage(addr, size);
    WithinSpan(addr, size);
    FrameAddress(addr / PageSize, addr % PageSize, k);
  }

  /** Two tables that map alike: they may differ in use and dirty bits. */
  ghost predicate SameMapping(pt: seq<TranslationEntry>, pt': seq<TranslationEntry>) {
    |pt'| == |pt| && forall i :: 0 <= i < |pt| ==>
      pt'[i].physicalPage == pt[i].physicalPage && pt'[i].valid == pt[i].valid && pt'[i].readOnly == pt[i].readOnly
  }

  lemma SameMappingTranslates(pt: seq<TranslationEntry>, pt': seq<TranslationEntry>, addr: int, size: int, writing: bool)
    requires SameMapping(pt, pt') && ValidAddress(addr) && ValidSize(size)
    ensures Translate(pt', addr, size, writing) == Translate(pt, addr, size, writing)
  {
  }

  /** Whether a program can read the byte at an address, and what it reads there. */
  ghost predicate Readable(pt: seq<TranslationEntry>, addr: int)
    requires ValidAddress(addr)
  {
    Translate(pt, addr, 1, false).Physical?
  }

  ghost function VirtualByte(mem: seq<bv8>, pt: seq<TranslationEntry>, addr: int): bv8
    requires ValidAddress(addr) && Readable(pt, addr) && |mem| == MemorySize
  {
    TranslateInBounds(pt, addr, 1, false);
    mem[Translate(pt, addr, 1, false).address]
  }

  /** No two valid pages of the table share a frame. */
  ghost predicate Injective(pt: seq<TranslationEntry>) {
    forall i, j :: 0 <= i < j < |pt| && pt[i].valid && pt[j].valid ==> pt[i].physicalPage != pt[j].physicalPage
  }

  /** No frame belongs to both tables. */
  ghost predicate FramesApart(pt1: seq<TranslationEntry>, pt2: seq<TranslationEntry>) {
    forall i, j :: 0 <= i < |pt1| && 0 <= j < |pt2| && pt1[i].valid && pt2[j].valid ==> pt1[i].physicalPage != pt2[j].physicalPage
  }

  /** Memory with consecutive bytes replaced. */
  function Stored(mem: seq<bv8>, p: int, b: seq<bv8>): (mem': seq<bv8>)
    requires 0 <= p && p + |b| <= |mem|
    ensures |mem'| == |mem|
    ensures forall i :: 0 <= i < |mem| ==> mem'[i] == if p <= i < p + |b| then b[i - p] else mem[i]
  {
    mem[..p] + b + mem[p + |b|..]
  }

  /** The bytes of a value that a store of the given size writes. */
  function ValueBytes(value: bv32, size: int): (b: seq<bv8>)
    requires ValidSize(size)
    ensures |b| == size
    ensures forall i: nat :: i < size ==> b[i] == Byte(value, i)
  {
    if size == 1 then [Byte(value, 0)]
    else if size == 2 then [Byte(value, 0), Byte(value, 1)]
    else [Byte(value, 0), Byte(value, 1), Byte(value, 2), Byte(value, 3)]
  }

  /** Process isolation: a store through one table changes no byte readable through another. */
  lemma StoreIsolated(mem: seq<bv8>, pt1: seq<TranslationEntry>, pt2: seq<TranslationEntry>, addr: int, size: int, value: bv32, c: int)
    requires |mem| == MemorySize && FramesApart(pt1, pt2)
    requires ValidAddress(addr) && ValidSize(size) && Translate(pt1, addr, size, true).Physical?
    requires ValidAddress(c) && Readable(pt2, c)
    ensures Translate(pt1, addr, size, true).address + size <= |mem| && 0 <= Translate(pt1, addr, size, true).address
    ensures VirtualByte(Stored(mem, Translate(pt1, addr, size, true).address, ValueBytes(value, size)), pt2, c) == VirtualByte(mem, pt2, c)
  {
    TranslateInBounds(pt1, addr, size, true);
    TranslateInBounds(pt2, c, 1, false);
    var p, q := Translate(pt1, addr, size, true).address, Translate(pt2, c, 1, false).address;
    assert p / PageSize != q / PageSize;
    SamePage(p, size, q);
  }

  lemma SamePage(p: int, size: int, q: int)
    requires 0 <= p && 0 <= q && 0 < size && (p + size - 1) / PageSize == p / PageSize
    ensures p <= q < p + size ==> q / PageSize == p / PageSize
  {
  }

  /** Memory as a program sees it: a store changes the bytes it names and no others, as long as the
      table maps no frame twice. */
  lemma StoreVirtual(mem: seq<bv8>, pt: seq<TranslationEntry>, addr: int, size: int, value: bv32, c: int)
    requires |mem| == MemorySize && Injective(pt)
    requires ValidAddress(addr) && ValidSize(size) && Translate(pt, addr, size, true).Physical?
    requires ValidAddress(c) && Readable(pt, c)
    ensures Translate(pt, addr, size, true).address + size <= |mem| && 0 <= Translate(pt, addr, size, true).address
    ensures VirtualByte(Stored(mem, Translate(pt, addr, size, true).address, ValueBytes(value, size)), pt, c)
            == if addr <= c < addr + size then Byte(value, c - addr) else VirtualByte(mem, pt, c)
  {
    TranslateInBounds(pt, addr, size, true);
    TranslateInBounds(pt, c, 1, false);
    var p, q := Translate(pt, addr, size, true).address, Translate(pt, c, 1, false).address;
    if addr / PageSize == c / PageSize {
      OffsetsAgree(addr, c, p, q, pt[c / PageSize].physicalPage);
    } else {
      assert p / PageSize != q / PageSize;
      SamePage(p, size, q);
      if addr <= c < addr + size {
        TranslateByteOf(pt, addr, size, true, c - addr);
        assert false;
      }
    }
  }

  lemma OffsetsAgree(addr: int, c: int, p: int, q: int, frame: int)
    requires 0 <= addr && 0 <= c && addr / PageSize == c / PageSize
    requires p == frame * PageSize + addr % PageSize && q == frame * PageSize + c % PageSize
    ensures q - p == c - addr
  {
  }
}

/** The unaligned loads and stores of the MIPS simulator (machine/mipssim.cc, the SIM_FIX variant) and
    the load delay slot they interact with. */
module UnalignedSpec {
  import opened WordBytes
  import opened Paging

  const NumRegs: int := 37       // the general registers, HI, LO and the three PCs
  const PCReg: int := 34
  const NextPCReg: int := 35
  const PrevPCReg: int := 36

  /** The processor as a user program sees it. The bookkeeping registers LoadReg, LoadValueReg and
      BadVAddrReg, slots 37 to 39 of the source's register array, are fields of their own. */
  datatype Cpu = Cpu(regs: seq<bv32>, loadReg: nat, loadValue: bv32, badVAddr: int, mem: seq<bv8>, pt: seq<TranslationEntry>)

  ghost predicate ValidCpu(c: Cpu) {
    |c.regs| == NumRegs && c.loadReg < 32 && c.regs[0] == 0 && |c.mem| == MemorySize
  }

  /** registers[rs] + extra, in 32 bits. */
  function Address(base: bv32, extra: int): (a: int)
    ensures ValidAddress(a)
  {
    (base as int + extra) % AddressSpan
  }

  /** The sum, wrapped round if need be. */
  lemma AddressIsSum(base: bv32, extra: int, u: int)
    requires u == base as int && -AddressSpan <= u + extra < 2 * AddressSpan
    ensures Address(base, extra) == if u + extra < 0 then u + extra + AddressSpan
                                    else if u + extra < AddressSpan then u + extra
                                    else u + extra - AddressSpan
  {
  }

  /** Commit the delayed load and queue the next one. */
  function DelayedLoad(c: Cpu, nextReg: nat, nextValue: bv32): (c': Cpu)
    requires ValidCpu(c) && nextReg < 32
    ensures ValidCpu(c')
  {
    c.(regs := c.regs[c.loadReg := c.loadValue][0 := 0], loadReg := nextReg, loadValue := nextValue)
  }

  /** What a load into rt finds there: the value of a load still in its delay slot, or the register. */
  function Forwarded(c: Cpu, rt: nat): bv32
    requires ValidCpu(c) && rt < 32
  {
    if c.loadReg == rt then c.loadValue else c.regs[rt]
  }

  function AdvancePc(c: Cpu, pcAfter: bv32): (c': Cpu)
    requires ValidCpu(c)
    ensures ValidCpu(c')
  {
    c.(regs := c.regs[PrevPCReg := c.regs[PCReg]][PCReg := c.regs[NextPCReg]][NextPCReg := pcAfter])
  }

  datatype Outcome = Done(c: Cpu) | Raised(exception: ExceptionType, c: Cpu)

  /** RaiseException, up to the call of the kernel's handler. */
  function Raise(c: Cpu, e: ExceptionType, addr: int): (r: Outcome)
    requires ValidCpu(c)
    ensures ValidCpu(r.c)
  {
    Raised(e, DelayedLoad(c.(badVAddr := addr), 0, 0))
  }

  /** The word at a physical address. */
  function LoadWord(mem: seq<bv8>, p: int): bv32
    requires 0 <= p && p + 4 <= |mem|
  {
    Join(mem[p], mem[p + 1], mem[p + 2], mem[p + 3])
  }

  // The ways the four switch statements put two words together: the top 4 - n bytes of the result
  // come from the low end of y, or its low 4 - n bytes from the high end of y; the rest from x.

  function Top1(x: bv32, y: bv32): bv32 { (x & 0xff) | (y << 8) }

  function Top2(x: bv32, y: bv32): bv32 { (x & 0xffff) | (y << 16) }

  function Top3(x: bv32, y: bv32): bv32 { (x & 0xffffff) | (y << 24) }

  function Bottom1(x: bv32, y: bv32): bv32 { (x & 0xff000000) | ((y >> 8) & 0xffffff) }

  function Bottom2(x: bv32, y: bv32): bv32 { (x & 0xffff0000) | ((y >> 16) & 0xffff) }

  function Bottom3(x: bv32, y: bv32): bv32 { (x & 0xffffff00) | ((y >> 24) & 0xff) }

  function IntoTop(x: bv32, y: bv32, n: int): bv32
    requires 0 <= n < 4
  {
    if n == 0 then y else if n == 1 then Top1(x, y) else if n == 2 then Top2(x, y) else Top3(x, y)
  }

  function IntoBottom(x: bv32, y: bv32, n: int): bv32
    requires 0 <= n < 4
  {
    if n == 0 then y else if n == 1 then Bottom1(x, y) else if n == 2 then Bottom2(x, y) else Bottom3(x, y)
  }

  lemma Top1Bytes(x: bv32, y: bv32)
    ensures var w := Top1(x, y);
            Byte(w, 0) == Byte(x, 0) && Byte(w, 1) == Byte(y, 0) && Byte(w, 2) == Byte(y, 1) && Byte(w, 3) == Byte(y, 2)
  {
  }

  lemma Top2Bytes(x: bv32, y: bv32)
    ensures var w := Top2(x, y);
            Byte(w, 0) == Byte(x, 0) && Byte(w, 1) == Byte(x, 1) && Byte(w, 2) == Byte(y, 0) && Byte(w, 3) == Byte(y, 1)
  {
  }

  lemma Top3Bytes(x: bv32, y: bv32)
    ensures var w := Top3(x, y);
            Byte(w, 0) == Byte(x, 0) && Byte(w, 1) == Byte(x, 1) && Byte(w, 2) == Byte(x, 2) && Byte(w, 3) == Byte(y, 0)
  {
  }

  lemma Bottom1Bytes(x: bv32, y: bv32)
    ensures var w := Bottom1(x, y);
            Byte(w, 0) == Byte(y, 1) && Byte(w, 1) == Byte(y, 2) && Byte(w, 2) == Byte(y, 3) && Byte(w, 3) == Byte(x, 3)
  {
  }

  lemma Bottom2Bytes(x: bv32, y: bv32)
    ensures var w := Bottom2(x, y);
            Byte(w, 0) == Byte(y, 2) && Byte(w, 1) == Byte(y, 3) && Byte(w, 2) == Byte(x, 2) && Byte(w, 3) == Byte(x, 3)
  {
  }

  lemma Bottom3Bytes(x: bv32, y: bv32)
    ensures var w := Bottom3(x, y);
            Byte(w, 0) == Byte(y, 3) && Byte(w, 1) == Byte(x, 1) && Byte(w, 2) == Byte(x, 2) && Byte(w, 3) == Byte(x, 3)
  {
  }

  /** Byte by byte. */
  lemma IntoTopBytes(x: bv32, y: bv32, n: int, i: nat)
    requires 0 <= n < 4 && i < 4
    ensures Byte(IntoTop(x, y, n), i) == if i >= n then Byte(y, i - n) else Byte(x, i)
  {
    hide Byte, Top1, Top2, Top3;
    if n == 1 { Top1Bytes(x, y); } else if n == 2 { Top2Bytes(x, y); } else if n == 3 { Top3Bytes(x, y); }
  }

  lemma IntoBottomBytes(x: bv32, y: bv32, n: int, i: nat)
    requires 0 <= n < 4 && i < 4
    ensures Byte(IntoBottom(x, y, n), i) == if i < 4 - n then Byte(y, i + n) else Byte(x, i)
  {
    hide Byte, Bottom1, Bottom2, Bottom3;
    if n == 1 { Bottom1Bytes(x, y); } else if n == 2 { Bottom2Bytes(x, y); } else if n == 3 { Bottom3Bytes(x, y); }
  }

  /** LWL rt, extra(rs): rt is not the zero register's concern; its old value may still be in the
      delay slot. */
  function Lwl(c: Cpu, rs: nat, rt: nat, extra: int): (r: Outcome)
    requires ValidCpu(c) && rs < 32 && rt < 32
    ensures ValidCpu(r.c)
  {
    var tmp := Address(c.regs[rs], extra);
    var byte := tmp % 4;
    match Translate(c.pt, tmp - byte, 4, false)
    case Failed(e) => Raise(c, e, tmp - byte)
    case Physical(p) =>
      TranslateInBounds(c.pt, tmp - byte, 4, false);
      var next := IntoTop(Forwarded(c, rt), LoadWord(c.mem, p), 3 - byte);
      Done(AdvancePc(DelayedLoad(c.(pt := Touch(c.pt, tmp - byte, false)), rt, next), c.regs[NextPCReg] + 4))
  }

  function Lwr(c: Cpu, rs: nat, rt: nat, extra: int): (r: Outcome)
    requires ValidCpu(c) && rs < 32 && rt < 32
    ensures ValidCpu(r.c)
  {
    var tmp := Address(c.regs[rs], extra);
    var byte := tmp % 4;
    match Translate(c.pt, tmp - byte, 4, false)
    case Failed(e) => Raise(c, e, tmp - byte)
    case Physical(p) =>
      TranslateInBounds(c.pt, tmp - byte, 4, false);
      var next := IntoBottom(Forwarded(c, rt), LoadWord(c.mem, p), byte);
      Done(AdvancePc(DelayedLoad(c.(pt := Touch(c.pt, tmp - byte, false)), rt, next), c.regs[NextPCReg] + 4))
  }

  /** Read a word, change it, and write it back: the middle of SWL and SWR. */
  function Rewrite(c: Cpu, base: int, word: bv32 -> bv32): (r: Outcome)
    requires ValidCpu(c) && ValidAddress(base)
    ensures ValidCpu(r.c)
  {
    match Translate(c.pt, base, 4, false)
    case Failed(e) => Raise(c, e, base)
    case Physical(p) =>
      TranslateInBounds(c.pt, base, 4, false);
      var c1 := c.(pt := Touch(c.pt, base, false));
      match Translate(c1.pt, base, 4, true)
      case Failed(e) => Raise(c1, e, base)
      case Physical(q) =>
        TranslateInBounds(c1.pt, base, 4, true);
        var c2 := c1.(pt := Touch(c1.pt, base, true), mem := Stored(c.mem, q, ValueBytes(word(LoadWord(c.mem, p)), 4)));
        Done(AdvancePc(DelayedLoad(c2, 0, 0), c.regs[NextPCReg] + 4))
  }

  function Swl(c: Cpu, rs: nat, rt: nat, extra: int): (r: Outcome)
    requires ValidCpu(c) && rs < 32 && rt < 32
    ensures ValidCpu(r.c)
  {
    var tmp := Address(c.regs[rs], extra);
    var byte := tmp % 4;
    Rewrite(c, tmp - byte, (value: bv32) => IntoBottom(value, c.regs[rt], 3 - byte))
  }

  function Swr(c: Cpu, rs: nat, rt: nat, extra: int): (r: Outcome)
    requires ValidCpu(c) && rs < 32 && rt < 32
    ensures ValidCpu(r.c)
  {
    var tmp := Address(c.regs[rs], extra);
    var byte := tmp % 4;
    Rewrite(c, tmp - byte, (value: bv32) => IntoTop(value, c.regs[rt], byte))
  }

  /** What an interrupt between two instructions does to the program's state. */
  function Interrupted(c: Cpu): (c': Cpu)
    requires ValidCpu(c)
    ensures ValidCpu(c')
  {
    DelayedLoad(c, 0, 0)
  }

  /** Two instructions with or without an interrupt in between. */
  function Between(c: Cpu, interrupt: bool): (c': Cpu)
    requires ValidCpu(c)
    ensures ValidCpu(c')
  {
    if interrupt then Interrupted(c) else c
  }
}

/** Why compilers may use the instructions in pairs. */
module UnalignedPairs {
  import opened WordBytes
  import opened Paging
  import opened UnalignedSpec

  /** a + k, in 32 bits. */
  function Plus(a: int, k: int): (r: int)
    ensures ValidAddress(r)
  {
    (a + k) % AddressSpan
  }

  ghost predicate WordReadable(pt: seq<TranslationEntry>, a: int)
    requires ValidAddress(a)
  {
    forall k :: 0 <= k < 4 ==> Readable(pt, Plus(a, k))
  }

  /** The little-endian word at a, whatever its alignment. */
  ghost function WordAt(mem: seq<bv8>, pt: seq<TranslationEntry>, a: int): bv32
    requires ValidAddress(a) && WordReadable(pt, a) && |mem| == MemorySize
  {
    Join(VirtualByte(mem, pt, Plus(a, 0)), VirtualByte(mem, pt, Plus(a, 1)), VirtualByte(mem, pt, Plus(a, 2)), VirtualByte(mem, pt, Plus(a, 3)))
  }

  lemma WordAtBytes(mem: seq<bv8>, pt: seq<TranslationEntry>, a: int, i: nat)
    requires ValidAddress(a) && WordReadable(pt, a) && |mem| == MemorySize && i < 4
    ensures Byte(WordAt(mem, pt, a), i) == VirtualByte(mem, pt, Plus(a, i))
  {
    JoinBytes(VirtualByte(mem, pt, Plus(a, 0)), VirtualByte(mem, pt, Plus(a, 1)), VirtualByte(mem, pt, Plus(a, 2)), VirtualByte(mem, pt, Plus(a, 3)));
  }

  /** An aligned word load reads its four bytes. */
  lemma LoadedByte(mem: seq<bv8>, pt: seq<TranslationEntry>, base: int, i: nat)
    requires |mem| == MemorySize && ValidAddress(base) && Translate(pt, base, 4, false).Physical? && i < 4
    ensures ValidAddress(base + i) && Readable(pt, base + i)
    ensures 0 <= Translate(pt, base, 4, false).address <= MemorySize - 4
    ensures Byte(LoadWord(mem, Translate(pt, base, 4, false).address), i) == VirtualByte(mem, pt, base + i)
  {
    hide Byte, Join, Translate;
    TranslateInBounds(pt, base, 4, false);
    TranslateByteOf(pt, base, 4, false, i);
    var p := Translate(pt, base, 4, false).address;
    JoinBytes(mem[p], mem[p + 1], mem[p + 2], mem[p + 3]);
  }

  /** Where the two halves of the word at a lie: the address a + 3 of the left instruction and the
      address a of the right one, each cut down to its aligned word. */
  lemma Halves(a: int, i: int)
    requires ValidAddress(a) && 0 <= i < 4
    ensures var left := Plus(a, 3);
            && (i < 4 - a % 4 ==> (a - a % 4) + (i + a % 4) == Plus(a, i))
            && (i >= 4 - a % 4 ==> left % 4 == a % 4 - 1 && (left - left % 4) + (i - (3 - left % 4)) == Plus(a, i))
            && (a % 4 == 0 ==> left % 4 == 3 && left - 3 == a)
  {
  }

  /** No load into the register is waiting in the delay slot, or it makes no difference. */
  ghost predicate Stable(c: Cpu, r: nat)
    requires ValidCpu(c) && r < 32
  {
    c.loadReg != r || r == 0 || c.loadValue == c.regs[r]
  }

  lemma AddressInjective(x: bv32, y: bv32, extra: int)
    ensures Address(x, extra) == Address(y, extra) <==> x == y
  {
    BaseInjective(x, y);
    SumInjective(x as int, y as int, extra);
  }

  function Unsigned(x: bv32): int { x as int }

  function FromUnsigned(n: int): bv32
    requires 0 <= n < AddressSpan
  {
    n as bv32
  }

  lemma UnsignedRoundTrip(x: bv32)
    ensures 0 <= Unsigned(x) < AddressSpan && FromUnsigned(Unsigned(x)) == x
  {
  }

  lemma BaseInjective(x: bv32, y: bv32)
    ensures x as int == y as int <==> x == y
    ensures 0 <= x as int < AddressSpan && 0 <= y as int < AddressSpan
  {
    UnsignedRoundTrip(x);
    UnsignedRoundTrip(y);
    hide FromUnsigned;
    assert Unsigned(x) == Unsigned(y) ==> x == y;
  }

  lemma SumInjective(x: int, y: int, e: int)
    requires 0 <= x < AddressSpan && 0 <= y < AddressSpan
    ensures (x + e) % AddressSpan == (y + e) % AddressSpan <==> x == y
  {
  }

  /** What a completed LWL leaves for the LWR after it, interrupted or not. */
  lemma AfterLwl(c: Cpu, rs: nat, rt: nat, extra: int, interrupt: bool)
    requires ValidCpu(c) && rs < 32 && 0 < rt < 32 && rs != rt && Lwl(c, rs, rt, extra).Done?
    ensures var tmp := Address(c.regs[rs], extra);
            var c1 := Between(Lwl(c, rs, rt, extra).c, interrupt);
            && Translate(c.pt, tmp - tmp % 4, 4, false).Physical? && tmp - tmp % 4 >= 0
            && 0 <= Translate(c.pt, tmp - tmp % 4, 4, false).address <= MemorySize - 4
            && Forwarded(c1, rt) == IntoTop(Forwarded(c, rt), LoadWord(c.mem, Translate(c.pt, tmp - tmp % 4, 4, false).address), 3 - tmp % 4)
            && c1.mem == c.mem && SameMapping(c.pt, c1.pt)
            && c1.regs[rs] == if c.loadReg == rs && rs != 0 then c.loadValue else c.regs[rs]
  {
    hide IntoTop;
    hide Join;
    var tmp := Address(c.regs[rs], extra);
    TranslateInBounds(c.pt, tmp - tmp % 4, 4, false);
  }

  /** The two instructions of a load pair use the same base exactly when no load into the base
      register was waiting in the delay slot before the pair, or it loads the same value. */
  lemma LoadPairAddressIff(c: Cpu, rs: nat, rt: nat, extra: int, interrupt: bool)
    requires ValidCpu(c) && rs < 32 && 0 < rt < 32 && rs != rt && Lwl(c, rs, rt, extra + 3).Done?
    ensures Address(Between(Lwl(c, rs, rt, extra + 3).c, interrupt).regs[rs], extra) == Address(c.regs[rs], extra) <==> Stable(c, rs)
  {
    hide Lwl;
    AfterLwl(c, rs, rt, extra + 3, interrupt);
    AddressInjective(Between(Lwl(c, rs, rt, extra + 3).c, interrupt).regs[rs], c.regs[rs], extra);
  }

  lemma AddressPlus(base: bv32, extra: int)
    ensures Address(base, extra + 3) == Plus(Address(base, extra), 3)
  {
    ModShift(base as int + extra);
  }

  lemma ModShift(x: int)
    ensures (x + 3) % AddressSpan == (x % AddressSpan + 3) % AddressSpan
  {
  }

  /** Byte i of what the pair assembles comes from the word of the right instruction, or from that of
      the left one. */
  lemma RightByte(mem: seq<bv8>, pt: seq<TranslationEntry>, a: int, top: bv32, i: nat)
    requires |mem| == MemorySize && ValidAddress(a) && i < 4 - a % 4
    requires Translate(pt, a - a % 4, 4, false).Physical? && 0 <= Translate(pt, a - a % 4, 4, false).address <= MemorySize - 4
    ensures Readable(pt, Plus(a, i))
    ensures Byte(IntoBottom(top, LoadWord(mem, Translate(pt, a - a % 4, 4, false).address), a % 4), i) == VirtualByte(mem, pt, Plus(a, i))
  {
    hide Byte;
    hide LoadWord;
    hide IntoBottom;
    hide Translate;
    Halves(a, i);
    IntoBottomBytes(top, LoadWord(mem, Translate(pt, a - a % 4, 4, false).address), a % 4, i);
    LoadedByte(mem, pt, a - a % 4, i + a % 4);
  }

  lemma LeftByte(mem: seq<bv8>, pt: seq<TranslationEntry>, a: int, was: bv32, low: bv32, i: nat)
    requires |mem| == MemorySize && ValidAddress(a) && 4 - a % 4 <= i < 4
    requires var left := Plus(a, 3);
             Translate(pt, left - left % 4, 4, false).Physical? && 0 <= Translate(pt, left - left % 4, 4, false).address <= MemorySize - 4
    ensures Readable(pt, Plus(a, i))
    ensures var left := Plus(a, 3);
            Byte(IntoBottom(IntoTop(was, LoadWord(mem, Translate(pt, left - left % 4, 4, false).address), 3 - left % 4), low, a % 4), i)
            == VirtualByte(mem, pt, Plus(a, i))
  {
    hide Byte;
    hide LoadWord;
    hide IntoTop;
    hide IntoBottom;
    hide Translate;
    var left := Plus(a, 3);
    var v := LoadWord(mem, Translate(pt, left - left % 4, 4, false).address);
    Halves(a, i);
    IntoBottomBytes(IntoTop(was, v, 3 - left % 4), low, a % 4, i);
    IntoTopBytes(was, v, 3 - left % 4, i);
    LoadedByte(mem, pt, left - left % 4, i - (3 - left % 4));
  }

  /** The bytes of the two aligned words around a, put together by the pair, are the word at a. */
  lemma PairWord(mem: seq<bv8>, pt: seq<TranslationEntry>, a: int, was: bv32)
    requires |mem| == MemorySize && ValidAddress(a)
    requires var left := Plus(a, 3);
             Translate(pt, left - left % 4, 4, false).Physical? && Translate(pt, a - a % 4, 4, false).Physical?
             && 0 <= Translate(pt, left - left % 4, 4, false).address <= MemorySize - 4
             && 0 <= Translate(pt, a - a % 4, 4, false).address <= MemorySize - 4
    ensures WordReadable(pt, a)
    ensures var left := Plus(a, 3);
            var top := IntoTop(was, LoadWord(mem, Translate(pt, left - left % 4, 4, false).address), 3 - left % 4);
            IntoBottom(top, LoadWord(mem, Translate(pt, a - a % 4, 4, false).address), a % 4) == WordAt(mem, pt, a)
  {
    hide Byte;
    hide LoadWord;
    hide IntoTop;
    hide IntoBottom;
    hide Translate;
    var left := Plus(a, 3);
    var top := IntoTop(was, LoadWord(mem, Translate(pt, left - left % 4, 4, false).address), 3 - left % 4);
    var both := IntoBottom(top, LoadWord(mem, Translate(pt, a - a % 4, 4, false).address), a % 4);
    forall i: nat | i < 4
      ensures Readable(pt, Plus(a, i)) && Byte(both, i) == VirtualByte(mem, pt, Plus(a, i))
    {
      if i < 4 - a % 4 {
        RightByte(mem, pt, a, top, i);
      } else {
        LeftByte(mem, pt, a, was, LoadWord(mem, Translate(pt, a - a % 4, 4, false).address), i);
      }
    }
    assert WordReadable(pt, a);
    forall i: nat | i < 4
      ensures Byte(WordAt(mem, pt, a), i) == Byte(both, i)
    {
      WordAtBytes(mem, pt, a, i);
    }
    SameBytes(WordAt(mem, pt, a), both);
  }

  lemma AfterLwr(c: Cpu, rs: nat, rt: nat, extra: int)
    requires ValidCpu(c) && rs < 32 && 0 < rt < 32 && Lwr(c, rs, rt, extra).Done?
    ensures var tmp := Address(c.regs[rs], extra);
            var c' := Lwr(c, rs, rt, extra).c;
            && Translate(c.pt, tmp - tmp % 4, 4, false).Physical? && tmp - tmp % 4 >= 0
            && 0 <= Translate(c.pt, tmp - tmp % 4, 4, false).address <= MemorySize - 4
            && c'.loadReg == rt
            && c'.loadValue == IntoBottom(Forwarded(c, rt), LoadWord(c.mem, Translate(c.pt, tmp - tmp % 4, 4, false).address), tmp % 4)
            && c'.mem == c.mem && SameMapping(c.pt, c'.pt)
  {
    hide IntoBottom;
    hide Join;
    var tmp := Address(c.regs[rs], extra);
    TranslateInBounds(c.pt, tmp - tmp % 4, 4, false);
  }

  lemma SameMappingTransitive(pt: seq<TranslationEntry>, pt1: seq<TranslationEntry>, pt2: seq<TranslationEntry>)
    requires SameMapping(pt, pt1) && SameMapping(pt1, pt2)
    ensures SameMapping(pt, pt2)
  {
  }

  /** LWL rt, e+3(rs) ; LWR rt, e(rs) loads the word at a, for every alignment of a and whether or
      not an interrupt commits the first load in between. */
  lemma LoadPair(c: Cpu, rs: nat, rt: nat, extra: int, interrupt: bool)
    requires ValidCpu(c) && rs < 32 && 0 < rt < 32 && rs != rt && Stable(c, rs)
    requires Lwl(c, rs, rt, extra + 3).Done? && Lwr(Between(Lwl(c, rs, rt, extra + 3).c, interrupt), rs, rt, extra).Done?
    ensures var a := Address(c.regs[rs], extra);
            var c2 := Lwr(Between(Lwl(c, rs, rt, extra + 3).c, interrupt), rs, rt, extra).c;
            && WordReadable(c.pt, a)
            && c2.loadReg == rt && c2.loadValue == WordAt(c.mem, c.pt, a)
            && Interrupted(c2).regs[rt] == WordAt(c.mem, c.pt, a)
            && c2.mem == c.mem && SameMapping(c.pt, c2.pt)
  {
    hide Lwl;
    hide Lwr;
    hide Byte;
    hide Join;
    hide IntoTop;
    hide IntoBottom;
    hide Translate;
    hide WordAt;
    var a := Address(c.regs[rs], extra);
    var c1 := Between(Lwl(c, rs, rt, extra + 3).c, interrupt);
    AfterLwl(c, rs, rt, extra + 3, interrupt);
    AfterLwr(c1, rs, rt, extra);
    AddressPlus(c.regs[rs], extra);
    SameMappingTranslates(c.pt, c1.pt, a - a % 4, 4, false);
    PairWord(c.mem, c.pt, a, Forwarded(c, rt));
    SameMappingTransitive(c.pt, c1.pt, Lwr(c1, rs, rt, extra).c.pt);
  }

  /** A word rewritten in place: the four bytes change, as the program sees memory, and no others. */
  lemma RewriteByte(c: Cpu, base: int, word: bv32 -> bv32, x: int)
    requires ValidCpu(c) && ValidAddress(base) && Injective(c.pt) && Rewrite(c, base, word).Done?
    requires ValidAddress(x) && Readable(c.pt, x)
    ensures Translate(c.pt, base, 4, false).Physical? && 0 <= Translate(c.pt, base, 4, false).address <= MemorySize - 4
    ensures VirtualByte(Rewrite(c, base, word).c.mem, c.pt, x) ==
            if base <= x < base + 4 then Byte(word(LoadWord(c.mem, Translate(c.pt, base, 4, false).address)), x - base)
            else VirtualByte(c.mem, c.pt, x)
  {
    hide Byte;
    hide Join;
    TranslateInBounds(c.pt, base, 4, false);
    var pt1 := Touch(c.pt, base, false);
    SameMappingTranslates(c.pt, pt1, base, 4, true);
    StoreVirtual(c.mem, c.pt, base, 4, word(LoadWord(c.mem, Translate(c.pt, base, 4, false).address)), x);
  }

  lemma AfterRewrite(c: Cpu, base: int, word: bv32 -> bv32, interrupt: bool, r: nat)
    requires ValidCpu(c) && ValidAddress(base) && Rewrite(c, base, word).Done? && r < 32
    ensures var c1 := Between(Rewrite(c, base, word).c, interrupt);
            && c1.regs[r] == (if c.loadReg == r && r != 0 then c.loadValue else c.regs[r])
            && SameMapping(c.pt, c1.pt) && c1.mem == Rewrite(c, base, word).c.mem && c1.loadReg == 0
  {
    hide Byte;
    hide Join;
    hide ValueBytes;
    hide Stored;
  }

  lemma SameMappingByte(mem: seq<bv8>, pt: seq<TranslationEntry>, pt': seq<TranslationEntry>, x: int)
    requires |mem| == MemorySize && SameMapping(pt, pt') && ValidAddress(x)
    ensures Readable(pt', x) <==> Readable(pt, x)
    ensures Readable(pt, x) ==> VirtualByte(mem, pt', x) == VirtualByte(mem, pt, x)
  {
    SameMappingTranslates(pt, pt', x, 1, false);
  }

  lemma SameMappingInjective(pt: seq<TranslationEntry>, pt': seq<TranslationEntry>)
    requires SameMapping(pt, pt') && Injective(pt)
    ensures Injective(pt')
  {
  }

  /** Byte x of memory after SWL at address `left`. */
  lemma SwlByte(c: Cpu, rs: nat, rt: nat, extra: int, x: int)
    requires ValidCpu(c) && rs < 32 && rt < 32 && Injective(c.pt) && Swl(c, rs, rt, extra).Done?
    requires ValidAddress(x) && Readable(c.pt, x)
    ensures var left := Address(c.regs[rs], extra);
            VirtualByte(Swl(c, rs, rt, extra).c.mem, c.pt, x) ==
            if left - left % 4 <= x <= left then Byte(c.regs[rt], x - left + 3) else VirtualByte(c.mem, c.pt, x)
  {
    hide Byte;
    hide Join;
    hide IntoBottom;
    hide Rewrite;
    var left := Address(c.regs[rs], extra);
    var base := left - left % 4;
    var word := (value: bv32) => IntoBottom(value, c.regs[rt], 3 - left % 4);
    RewriteByte(c, base, word, x);
    if base <= x < base + 4 {
      var v := LoadWord(c.mem, Translate(c.pt, base, 4, false).address);
      IntoBottomBytes(v, c.regs[rt], 3 - left % 4, x - base);
      LoadedByte(c.mem, c.pt, base, x - base);
    }
  }

  /** Byte x of memory after SWR at address `a`. */
  lemma SwrByte(c: Cpu, rs: nat, rt: nat, extra: int, x: int)
    requires ValidCpu(c) && rs < 32 && rt < 32 && Injective(c.pt) && Swr(c, rs, rt, extra).Done?
    requires ValidAddress(x) && Readable(c.pt, x)
    ensures var a := Address(c.regs[rs], extra);
            VirtualByte(Swr(c, rs, rt, extra).c.mem, c.pt, x) ==
            if a <= x < a - a % 4 + 4 then Byte(c.regs[rt], x - a) else VirtualByte(c.mem, c.pt, x)
  {
    hide Byte;
    hide Join;
    hide IntoTop;
    hide Rewrite;
    var a := Address(c.regs[rs], extra);
    var base := a - a % 4;
    var word := (value: bv32) => IntoTop(value, c.regs[rt], a % 4);
    RewriteByte(c, base, word, x);
    if base <= x < base + 4 {
      var v := LoadWord(c.mem, Translate(c.pt, base, 4, false).address);
      IntoTopBytes(v, c.regs[rt], a % 4, x - base);
      LoadedByte(c.mem, c.pt, base, x - base);
    }
  }

  /** How far x lies past a, in 32 bits. */
  function Offset(a: int, x: int): int { (x - a) % AddressSpan }

  lemma StoreHalves(a: int, x: int)
    requires ValidAddress(a) && ValidAddress(x)
    ensures var left := Plus(a, 3);
            && (a <= x < a - a % 4 + 4 ==> Offset(a, x) == x - a < 4)
            && (left - left % 4 <= x <= left && !(a <= x < a - a % 4 + 4) ==> Offset(a, x) == x - left + 3 < 4)
            && (Offset(a, x) < 4 ==> a <= x < a - a % 4 + 4 || left - left % 4 <= x <= left)
  {
  }

  /** The two instructions of a store pair use the same base and store the same register exactly when
      no load into either was waiting in the delay slot before the pair, or it makes no difference. */
  lemma StorePairOperandsIff(c: Cpu, rs: nat, rt: nat, extra: int, interrupt: bool)
    requires ValidCpu(c) && rs < 32 && rt < 32 && Swl(c, rs, rt, extra + 3).Done?
    ensures var c1 := Between(Swl(c, rs, rt, extra + 3).c, interrupt);
            (Address(c1.regs[rs], extra) == Address(c.regs[rs], extra) && c1.regs[rt] == c.regs[rt]) <==> Stable(c, rs) && Stable(c, rt)
  {
    hide Rewrite;
    hide IntoBottom;
    var left := Address(c.regs[rs], extra + 3);
    var word := (value: bv32) => IntoBottom(value, c.regs[rt], 3 - left % 4);
    AfterRewrite(c, left - left % 4, word, interrupt, rs);
    AfterRewrite(c, left - left % 4, word, interrupt, rt);
    AddressInjective(Between(Swl(c, rs, rt, extra + 3).c, interrupt).regs[rs], c.regs[rs], extra);
  }

  lemma AfterSwl(c: Cpu, rs: nat, rt: nat, extra: int, interrupt: bool)
    requires ValidCpu(c) && rs < 32 && rt < 32 && Stable(c, rs) && Stable(c, rt) && Swl(c, rs, rt, extra).Done?
    ensures var c1 := Between(Swl(c, rs, rt, extra).c, interrupt);
            && c1.regs[rs] == c.regs[rs] && c1.regs[rt] == c.regs[rt] && c1.loadReg == 0
            && SameMapping(c.pt, c1.pt) && c1.mem == Swl(c, rs, rt, extra).c.mem
  {
    hide Rewrite;
    hide IntoBottom;
    var left := Address(c.regs[rs], extra);
    var word := (value: bv32) => IntoBottom(value, c.regs[rt], 3 - left % 4);
    AfterRewrite(c, left - left % 4, word, interrupt, rs);
    AfterRewrite(c, left - left % 4, word, interrupt, rt);
  }

  lemma AfterSwr(c: Cpu, rs: nat, rt: nat, extra: int)
    requires ValidCpu(c) && rs < 32 && rt < 32 && c.loadReg == 0 && Swr(c, rs, rt, extra).Done?
    ensures var c1 := Swr(c, rs, rt, extra).c;
            c1.regs[rs] == c.regs[rs] && c1.loadReg == 0 && SameMapping(c.pt, c1.pt)
  {
    hide Rewrite;
    hide IntoTop;
    var a := Address(c.regs[rs], extra);
    AfterRewrite(c, a - a % 4, (value: bv32) => IntoTop(value, c.regs[rt], a % 4), false, rs);
  }

  /** SWL rt, e+3(rs) ; SWR rt, e(rs) stores rt at a, for every alignment of a, and changes no other
      byte of the program's memory. */
  lemma StorePair(c: Cpu, rs: nat, rt: nat, extra: int, interrupt: bool, x: int)
    requires ValidCpu(c) && rs < 32 && rt < 32 && Stable(c, rs) && Stable(c, rt) && Injective(c.pt)
    requires Swl(c, rs, rt, extra + 3).Done? && Swr(Between(Swl(c, rs, rt, extra + 3).c, interrupt), rs, rt, extra).Done?
    requires ValidAddress(x) && Readable(c.pt, x)
    ensures var a := Address(c.regs[rs], extra);
            var c2 := Swr(Between(Swl(c, rs, rt, extra + 3).c, interrupt), rs, rt, extra).c;
            VirtualByte(c2.mem, c.pt, x) == if Offset(a, x) < 4 then Byte(c.regs[rt], Offset(a, x)) else VirtualByte(c.mem, c.pt, x)
  {
    hide Swl;
    hide Swr;
    hide Byte;
    hide Translate;
    var a := Address(c.regs[rs], extra);
    var c1 := Between(Swl(c, rs, rt, extra + 3).c, interrupt);
    AfterSwl(c, rs, rt, extra + 3, interrupt);
    AddressPlus(c.regs[rs], extra);
    SameMappingInjective(c.pt, c1.pt);
    SameMappingByte(c1.mem, c.pt, c1.pt, x);
    SwlByte(c, rs, rt, extra + 3, x);
    SwrByte(c1, rs, rt, extra, x);
    SameMappingByte(Swr(c1, rs, rt, extra).c.mem, c.pt, c1.pt, x);
    StoreHalves(a, x);
  }

  lemma PlusOffset(a: int, i: int)
    requires ValidAddress(a) && 0 <= i < 4
    ensures Offset(a, Plus(a, i)) == i
  {
  }

  /** Storing a register with one pair and loading it back with the other gives its value. */
  lemma StoreThenLoad(c: Cpu, rs: nat, rt: nat, extra: int, c2: Cpu, rd: nat, c4: Cpu)
    requires ValidCpu(c) && rs < 32 && rt < 32 && Stable(c, rs) && Stable(c, rt) && Injective(c.pt)
    requires Swl(c, rs, rt, extra + 3).Done? && Swr(Swl(c, rs, rt, extra + 3).c, rs, rt, extra) == Done(c2)
    requires 0 < rd < 32 && rd != rs && Lwl(c2, rs, rd, extra + 3).Done? && Lwr(Lwl(c2, rs, rd, extra + 3).c, rs, rd, extra) == Done(c4)
    ensures c4.loadReg == rd && c4.loadValue == c.regs[rt]
  {
    hide Swl;
    hide Swr;
    hide Lwl;
    hide Lwr;
    hide Byte;
    hide Translate;
    hide WordAt;
    var a := Address(c.regs[rs], extra);
    StorePairFrame(c, rs, rt, extra, c2);
    LoadPair(c2, rs, rd, extra, false);
    forall i: nat | i < 4
      ensures Byte(c4.loadValue, i) == Byte(c.regs[rt], i)
    {
      var x := Plus(a, i);
      SameMappingByte(c2.mem, c.pt, c2.pt, x);
      StorePair(c, rs, rt, extra, false, x);
      PlusOffset(a, i);
      WordAtBytes(c2.mem, c2.pt, a, i);
    }
    SameBytes(c4.loadValue, c.regs[rt]);
  }

  lemma StorePairFrame(c: Cpu, rs: nat, rt: nat, extra: int, c2: Cpu)
    requires ValidCpu(c) && rs < 32 && rt < 32 && Stable(c, rs) && Stable(c, rt)
    requires Swl(c, rs, rt, extra + 3).Done? && Swr(Swl(c, rs, rt, extra + 3).c, rs, rt, extra) == Done(c2)
    ensures SameMapping(c.pt, c2.pt) && c2.regs[rs] == c.regs[rs] && c2.loadReg == 0
  {
    hide Swl;
    hide Swr;
    var c1 := Swl(c, rs, rt, extra + 3).c;
    AfterSwl(c, rs, rt, extra + 3, false);
    AfterSwr(c1, rs, rt, extra);
    SameMappingTransitive(c.pt, c1.pt, c2.pt);
  }
}

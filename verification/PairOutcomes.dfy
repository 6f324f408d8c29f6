/** When exactly the unaligned pairs complete and do what they are for (machine/mipssim.cc). A load still
    in its delay slot when a pair starts is committed by the first instruction, so the second one may
    see another base or another value. */
module PairOutcomes {
  import opened WordBytes
  import opened Paging
  import opened UnalignedSpec
  import opened UnalignedPairs

  /** A register once the load in the delay slot has been committed. */
  function Settled(c: Cpu, r: nat): bv32
    requires ValidCpu(c) && r < 32
  {
    if c.loadReg == r && r != 0 then c.loadValue else c.regs[r]
  }

  ghost predicate Writable(pt: seq<TranslationEntry>, x: int)
    requires ValidAddress(x)
  {
    Translate(pt, x, 1, true).Physical?
  }

  ghost predicate WordWritable(pt: seq<TranslationEntry>, a: int)
    requires ValidAddress(a)
  {
    forall k :: 0 <= k < 4 ==> Writable(pt, Plus(a, k))
  }

  // The pairs as one operation each.

  ghost predicate LoadPairDone(c: Cpu, rs: nat, rt: nat, extra: int, interrupt: bool)
    requires ValidCpu(c) && rs < 32 && rt < 32
  {
    Lwl(c, rs, rt, extra + 3).Done? && Lwr(Between(Lwl(c, rs, rt, extra + 3).c, interrupt), rs, rt, extra).Done?
  }

  ghost function AfterLoadPair(c: Cpu, rs: nat, rt: nat, extra: int, interrupt: bool): (c': Cpu)
    requires ValidCpu(c) && rs < 32 && rt < 32
    ensures ValidCpu(c')
  {
    Lwr(Between(Lwl(c, rs, rt, extra + 3).c, interrupt), rs, rt, extra).c
  }

  ghost predicate StorePairDone(c: Cpu, rs: nat, rt: nat, extra: int, interrupt: bool)
    requires ValidCpu(c) && rs < 32 && rt < 32
  {
    Swl(c, rs, rt, extra + 3).Done? && Swr(Between(Swl(c, rs, rt, extra + 3).c, interrupt), rs, rt, extra).Done?
  }

  ghost function AfterStorePair(c: Cpu, rs: nat, rt: nat, extra: int, interrupt: bool): (c': Cpu)
    requires ValidCpu(c) && rs < 32 && rt < 32
    ensures ValidCpu(c')
  {
    Swr(Between(Swl(c, rs, rt, extra + 3).c, interrupt), rs, rt, extra).c
  }

  /** What the load pair is for. */
  ghost predicate LoadsWord(c: Cpu, rs: nat, rt: nat, extra: int, interrupt: bool)
    requires ValidCpu(c) && rs < 32 && rt < 32
  {
    var a := Address(c.regs[rs], extra);
    && LoadPairDone(c, rs, rt, extra, interrupt) && WordReadable(c.pt, a)
    && AfterLoadPair(c, rs, rt, extra, interrupt).loadReg == rt
    && AfterLoadPair(c, rs, rt, extra, interrupt).loadValue == WordAt(c.mem, c.pt, a)
  }

  /** What the store pair is for: the four bytes at a become those of the register, and no other byte
      of the program's memory changes. */
  ghost predicate StoresWord(c: Cpu, rs: nat, rt: nat, extra: int, interrupt: bool)
    requires ValidCpu(c) && rs < 32 && rt < 32
  {
    var a := Address(c.regs[rs], extra);
    && StorePairDone(c, rs, rt, extra, interrupt) && WordReadable(c.pt, a)
    && forall x :: ValidAddress(x) && Readable(c.pt, x) ==> StoredRight(c, rs, rt, extra, AfterStorePair(c, rs, rt, extra, interrupt).mem, x)
  }

  /** What a store pair should leave at x where b was. */
  function WantedByte(c: Cpu, rs: nat, rt: nat, extra: int, x: int, b: bv8): bv8
    requires ValidCpu(c) && rs < 32 && rt < 32
  {
    var a := Address(c.regs[rs], extra);
    if Offset(a, x) < 4 then Byte(c.regs[rt], Offset(a, x)) else b
  }

  ghost predicate StoredRight(c: Cpu, rs: nat, rt: nat, extra: int, mem: seq<bv8>, x: int)
    requires ValidCpu(c) && rs < 32 && rt < 32 && |mem| == MemorySize && ValidAddress(x) && Readable(c.pt, x)
  {
    VirtualByte(mem, c.pt, x) == WantedByte(c, rs, rt, extra, x, VirtualByte(c.mem, c.pt, x))
  }

  /** ... whatever is in memory. */
  ghost predicate AlwaysLoads(c: Cpu, rs: nat, rt: nat, extra: int, interrupt: bool)
    requires ValidCpu(c) && rs < 32 && rt < 32
  {
    forall mem: seq<bv8> :: |mem| == MemorySize ==> LoadsWord(c.(mem := mem), rs, rt, extra, interrupt)
  }

  ghost predicate AlwaysStores(c: Cpu, rs: nat, rt: nat, extra: int, interrupt: bool)
    requires ValidCpu(c) && rs < 32 && rt < 32
  {
    forall mem: seq<bv8> :: |mem| == MemorySize ==> StoresWord(c.(mem := mem), rs, rt, extra, interrupt)
  }

  // Each instruction by itself.

  /** The program counters have moved on, and the other registers are as they were but for the load that was
      in the delay slot. */
  ghost predicate MovedOn(c: Cpu, c': Cpu)
    requires ValidCpu(c) && ValidCpu(c')
  {
    && c'.regs[PrevPCReg] == c.regs[PCReg] && c'.regs[PCReg] == c.regs[NextPCReg] && c'.regs[NextPCReg] == c.regs[NextPCReg] + 4
    && forall r :: 0 <= r < PCReg ==> c'.regs[r] == if r < 32 then Settled(c, r) else c.regs[r]
  }

  /** The instruction is to be tried again: the counters stand still, and the address that failed is on
      record. */
  ghost predicate Stopped(c: Cpu, c': Cpu, addr: int)
    requires ValidCpu(c) && ValidCpu(c')
  {
    && c'.badVAddr == addr && c'.mem == c.mem && c'.loadReg == 0 && SameMapping(c.pt, c'.pt)
    && forall r :: 0 <= r < NumRegs ==> c'.regs[r] == if r < 32 then Settled(c, r) else c.regs[r]
  }

  /** A load that completes leaves memory alone and its result in the delay slot; one that does not changes
      nothing but for the load that was in the slot. */
  lemma LoadInstruction(c: Cpu, rs: nat, rt: nat, extra: int, left: bool)
    requires ValidCpu(c) && rs < 32 && rt < 32
    ensures var r := if left then Lwl(c, rs, rt, extra) else Lwr(c, rs, rt, extra);
            var a := Address(c.regs[rs], extra);
            if r.Done? then MovedOn(c, r.c) && r.c.loadReg == rt && r.c.mem == c.mem && r.c.badVAddr == c.badVAddr && SameMapping(c.pt, r.c.pt)
            else Stopped(c, r.c, a - a % 4) && r.c.pt == c.pt && Translate(c.pt, a - a % 4, 4, false) == Failed(r.exception)
  {
    hide IntoTop, IntoBottom, Join, Translate;
  }

  /** The word is read before it is written, so what fails first is the read. */
  ghost function StoreFailure(pt: seq<TranslationEntry>, base: int): Translation
    requires ValidAddress(base)
  {
    if Translate(pt, base, 4, false).Failed? then Translate(pt, base, 4, false) else Translate(pt, base, 4, true)
  }

  lemma RewriteInstruction(c: Cpu, base: int, word: bv32 -> bv32)
    requires ValidCpu(c) && ValidAddress(base)
    ensures var r := Rewrite(c, base, word);
            if r.Done? then MovedOn(c, r.c) && r.c.loadReg == 0 && r.c.badVAddr == c.badVAddr && SameMapping(c.pt, r.c.pt)
            else Stopped(c, r.c, base) && Failed(r.exception) == StoreFailure(c.pt, base)
  {
    hide Join, ValueBytes, Stored;
    if Translate(c.pt, base, 4, false).Physical? {
      SameMappingTranslates(c.pt, Touch(c.pt, base, false), base, 4, true);
    }
  }

  /** Likewise a store, which leaves no load in the delay slot. */
  lemma StoreInstruction(c: Cpu, rs: nat, rt: nat, extra: int, left: bool)
    requires ValidCpu(c) && rs < 32 && rt < 32
    ensures var r := if left then Swl(c, rs, rt, extra) else Swr(c, rs, rt, extra);
            var a := Address(c.regs[rs], extra);
            if r.Done? then MovedOn(c, r.c) && r.c.loadReg == 0 && r.c.badVAddr == c.badVAddr && SameMapping(c.pt, r.c.pt)
            else Stopped(c, r.c, a - a % 4) && Failed(r.exception) == StoreFailure(c.pt, a - a % 4)
  {
    hide Rewrite, MovedOn, Stopped, StoreFailure;
    if left {
      var base, word := SwlWord(c, rs, rt, extra);
      RewriteInstruction(c, base, word);
    } else {
      var base, word := SwrWord(c, rs, rt, extra);
      RewriteInstruction(c, base, word);
    }
  }

  // When they complete.

  /** The aligned word around an address can be accessed exactly when the byte at it can. */
  lemma WordAround(pt: seq<TranslationEntry>, x: int, writing: bool)
    requires ValidAddress(x)
    ensures Translate(pt, x - x % 4, 4, writing).Physical? <==> Translate(pt, x, 1, writing).Physical?
  {
    assert (x - x % 4) / PageSize == x / PageSize;
  }

  lemma LwlCompletes(c: Cpu, rs: nat, rt: nat, extra: int)
    requires ValidCpu(c) && rs < 32 && rt < 32
    ensures Lwl(c, rs, rt, extra).Done? <==> Readable(c.pt, Address(c.regs[rs], extra))
  {
    hide IntoTop, Join;
    WordAround(c.pt, Address(c.regs[rs], extra), false);
  }

  lemma LwrCompletes(c: Cpu, rs: nat, rt: nat, extra: int)
    requires ValidCpu(c) && rs < 32 && rt < 32
    ensures Lwr(c, rs, rt, extra).Done? <==> Readable(c.pt, Address(c.regs[rs], extra))
  {
    hide IntoBottom, Join;
    WordAround(c.pt, Address(c.regs[rs], extra), false);
  }

  lemma RewriteCompletes(c: Cpu, base: int, word: bv32 -> bv32)
    requires ValidCpu(c) && ValidAddress(base)
    ensures Rewrite(c, base, word).Done? <==> Translate(c.pt, base, 4, true).Physical?
  {
    hide Join, ValueBytes, Stored;
    if Translate(c.pt, base, 4, false).Physical? {
      SameMappingTranslates(c.pt, Touch(c.pt, base, false), base, 4, true);
    }
  }

  /** Pages, and with them readability, are shared by the bytes of a word on both its sides. */
  lemma WordFromEnds(pt: seq<TranslationEntry>, a: int, k: int, writing: bool)
    requires ValidAddress(a) && 0 <= k < 4
    requires Translate(pt, a, 1, writing).Physical? && Translate(pt, Plus(a, 3), 1, writing).Physical?
    ensures Translate(pt, Plus(a, k), 1, writing).Physical?
  {
    Halves(a, k);
    WordAround(pt, a, writing);
    WordAround(pt, Plus(a, 3), writing);
    if k < 4 - a % 4 {
      TranslateByteOf(pt, a - a % 4, 4, writing, k + a % 4);
    } else {
      var left := Plus(a, 3);
      TranslateByteOf(pt, left - left % 4, 4, writing, k - (3 - left % 4));
    }
  }

  /** Which addresses a load pair needs: that of its first instruction, and that of its second. */
  lemma LoadPairNeeds(c: Cpu, rs: nat, rt: nat, extra: int, interrupt: bool)
    requires ValidCpu(c) && rs < 32 && 0 < rt < 32 && rs != rt
    ensures LoadPairDone(c, rs, rt, extra, interrupt)
            <==> Readable(c.pt, Plus(Address(c.regs[rs], extra), 3)) && Readable(c.pt, Address(Settled(c, rs), extra))
  {
    hide Lwl, Lwr, Translate;
    AddressPlus(c.regs[rs], extra);
    LwlCompletes(c, rs, rt, extra + 3);
    if Lwl(c, rs, rt, extra + 3).Done? {
      var c1 := Between(Lwl(c, rs, rt, extra + 3).c, interrupt);
      AfterLwl(c, rs, rt, extra + 3, interrupt);
      LwrCompletes(c1, rs, rt, extra);
      SameMappingTranslates(c.pt, c1.pt, Address(c1.regs[rs], extra), 1, false);
    }
  }

  /** With no load into the base register under way, a load pair completes exactly when the program can
      read the four bytes. */
  lemma LoadPairCompletesIff(c: Cpu, rs: nat, rt: nat, extra: int, interrupt: bool)
    requires ValidCpu(c) && rs < 32 && 0 < rt < 32 && rs != rt && Stable(c, rs)
    ensures LoadPairDone(c, rs, rt, extra, interrupt) <==> WordReadable(c.pt, Address(c.regs[rs], extra))
  {
    hide Translate, LoadPairDone;
    var a := Address(c.regs[rs], extra);
    LoadPairNeeds(c, rs, rt, extra, interrupt);
    assert Plus(a, 0) == a;
    if Readable(c.pt, a) && Readable(c.pt, Plus(a, 3)) {
      forall k | 0 <= k < 4 ensures Readable(c.pt, Plus(a, k)) { WordFromEnds(c.pt, a, k, false); }
    }
  }

  lemma SwlWord(c: Cpu, rs: nat, rt: nat, extra: int) returns (base: int, word: bv32 -> bv32)
    requires ValidCpu(c) && rs < 32 && rt < 32
    ensures ValidAddress(base) && Swl(c, rs, rt, extra) == Rewrite(c, base, word)
    ensures base == Address(c.regs[rs], extra) - Address(c.regs[rs], extra) % 4
  {
    hide Rewrite, IntoBottom;
    var left := Address(c.regs[rs], extra);
    base, word := left - left % 4, (value: bv32) => IntoBottom(value, c.regs[rt], 3 - left % 4);
  }

  lemma SwrWord(c: Cpu, rs: nat, rt: nat, extra: int) returns (base: int, word: bv32 -> bv32)
    requires ValidCpu(c) && rs < 32 && rt < 32
    ensures ValidAddress(base) && Swr(c, rs, rt, extra) == Rewrite(c, base, word)
    ensures base == Address(c.regs[rs], extra) - Address(c.regs[rs], extra) % 4
  {
    hide Rewrite, IntoTop;
    var a := Address(c.regs[rs], extra);
    base, word := a - a % 4, (value: bv32) => IntoTop(value, c.regs[rt], a % 4);
  }

  /** What the first store leaves for the second. */
  lemma BetweenStores(c: Cpu, rs: nat, rt: nat, extra: int, interrupt: bool)
    requires ValidCpu(c) && rs < 32 && rt < 32 && Swl(c, rs, rt, extra).Done?
    ensures var c1 := Between(Swl(c, rs, rt, extra).c, interrupt);
            && c1.regs[rs] == Settled(c, rs) && c1.regs[rt] == Settled(c, rt)
            && SameMapping(c.pt, c1.pt) && c1.mem == Swl(c, rs, rt, extra).c.mem
  {
    hide Rewrite, Swl;
    var base, word := SwlWord(c, rs, rt, extra);
    AfterRewrite(c, base, word, interrupt, rs);
    AfterRewrite(c, base, word, interrupt, rt);
  }

  lemma StorePairNeeds(c: Cpu, rs: nat, rt: nat, extra: int, interrupt: bool)
    requires ValidCpu(c) && rs < 32 && rt < 32
    ensures StorePairDone(c, rs, rt, extra, interrupt)
            <==> Writable(c.pt, Plus(Address(c.regs[rs], extra), 3)) && Writable(c.pt, Address(Settled(c, rs), extra))
  {
    hide Swl, Swr, Rewrite, Translate;
    AddressPlus(c.regs[rs], extra);
    var base, word := SwlWord(c, rs, rt, extra + 3);
    RewriteCompletes(c, base, word);
    WordAround(c.pt, Address(c.regs[rs], extra + 3), true);
    if Swl(c, rs, rt, extra + 3).Done? {
      var c1 := Between(Swl(c, rs, rt, extra + 3).c, interrupt);
      BetweenStores(c, rs, rt, extra + 3, interrupt);
      var base2, word2 := SwrWord(c1, rs, rt, extra);
      RewriteCompletes(c1, base2, word2);
      WordAround(c1.pt, Address(c1.regs[rs], extra), true);
      SameMappingTranslates(c.pt, c1.pt, Address(c1.regs[rs], extra), 1, true);
    }
  }

  /** With no load into the base register under way, a store pair completes exactly when the program can
      write the four bytes. */
  lemma StorePairCompletesIff(c: Cpu, rs: nat, rt: nat, extra: int, interrupt: bool)
    requires ValidCpu(c) && rs < 32 && rt < 32 && Stable(c, rs)
    ensures StorePairDone(c, rs, rt, extra, interrupt) <==> WordWritable(c.pt, Address(c.regs[rs], extra))
  {
    hide Translate, StorePairDone;
    var a := Address(c.regs[rs], extra);
    StorePairNeeds(c, rs, rt, extra, interrupt);
    assert Plus(a, 0) == a;
    if Writable(c.pt, a) && Writable(c.pt, Plus(a, 3)) {
      forall k | 0 <= k < 4 ensures Writable(c.pt, Plus(a, k)) { WordFromEnds(c.pt, a, k, true); }
    }
  }

  // When they are right.

  /** Different readable addresses are different places in memory. */
  lemma PlacesApart(pt: seq<TranslationEntry>, x: int, y: int)
    requires Injective(pt) && ValidAddress(x) && ValidAddress(y) && x != y && Readable(pt, x) && Readable(pt, y)
    ensures Translate(pt, x, 1, false).address != Translate(pt, y, 1, false).address
  {
    TranslateInBounds(pt, x, 1, false);
    TranslateInBounds(pt, y, 1, false);
  }

  /** A memory in which two addresses hold different bytes, or one a given byte. */
  ghost function MemoryWith(pt: seq<TranslationEntry>, x: int, b: bv8): (mem: seq<bv8>)
    requires ValidAddress(x) && Readable(pt, x)
    ensures |mem| == MemorySize
  {
    TranslateInBounds(pt, x, 1, false);
    seq(MemorySize, i => 0)[Translate(pt, x, 1, false).address := b]
  }

  lemma MemoryWithBytes(pt: seq<TranslationEntry>, x: int, b: bv8)
    requires ValidAddress(x) && Readable(pt, x)
    ensures VirtualByte(MemoryWith(pt, x, b), pt, x) == b
    ensures forall y :: Injective(pt) && ValidAddress(y) && y != x && Readable(pt, y) ==> VirtualByte(MemoryWith(pt, x, b), pt, y) == 0
  {
    forall y | Injective(pt) && ValidAddress(y) && y != x && Readable(pt, y) ensures VirtualByte(MemoryWith(pt, x, b), pt, y) == 0 {
      PlacesApart(pt, x, y);
      TranslateInBounds(pt, y, 1, false);
    }
  }

  /** Whatever its first instruction did, the pair takes its lowest byte from the second one's address. */
  lemma LowestByte(c: Cpu, rs: nat, rt: nat, extra: int, interrupt: bool)
    requires ValidCpu(c) && rs < 32 && 0 < rt < 32 && rs != rt && LoadPairDone(c, rs, rt, extra, interrupt)
    ensures var a2 := Address(Settled(c, rs), extra);
            Readable(c.pt, a2) && Byte(AfterLoadPair(c, rs, rt, extra, interrupt).loadValue, 0) == VirtualByte(c.mem, c.pt, a2)
  {
    hide Lwl, Lwr, Byte, Join, IntoTop, IntoBottom, Translate;
    var a2 := Address(Settled(c, rs), extra);
    var c1 := Between(Lwl(c, rs, rt, extra + 3).c, interrupt);
    AfterLwl(c, rs, rt, extra + 3, interrupt);
    AfterLwr(c1, rs, rt, extra);
    SameMappingTranslates(c.pt, c1.pt, a2 - a2 % 4, 4, false);
    RightByte(c.mem, c.pt, a2, Forwarded(c1, rt), 0);
    assert Plus(a2, 0) == a2;
  }

  /** The load pair is right, whatever is in memory, exactly when no load into the base register is
      under way that would change it. */
  lemma LoadPairRightIff(c: Cpu, rs: nat, rt: nat, extra: int, interrupt: bool)
    requires ValidCpu(c) && rs < 32 && 0 < rt < 32 && rs != rt && Injective(c.pt) && LoadPairDone(c, rs, rt, extra, interrupt)
    ensures AlwaysLoads(c, rs, rt, extra, interrupt) <==> Stable(c, rs)
  {
    hide Lwl, Lwr, WordAt, Translate;
    if Stable(c, rs) {
      forall mem: seq<bv8> | |mem| == MemorySize ensures LoadsWord(c.(mem := mem), rs, rt, extra, interrupt) {
        AnyMemoryLoads(c, rs, rt, extra, interrupt, mem);
        LoadPair(c.(mem := mem), rs, rt, extra, interrupt);
      }
    } else {
      LoadPairWrong(c, rs, rt, extra, interrupt);
    }
  }

  lemma AnyMemoryLoads(c: Cpu, rs: nat, rt: nat, extra: int, interrupt: bool, mem: seq<bv8>)
    requires ValidCpu(c) && rs < 32 && 0 < rt < 32 && rs != rt && LoadPairDone(c, rs, rt, extra, interrupt) && |mem| == MemorySize
    ensures LoadPairDone(c.(mem := mem), rs, rt, extra, interrupt)
  {
    hide LoadPairDone, Translate;
    LoadPairNeeds(c, rs, rt, extra, interrupt);
    LoadPairNeeds(c.(mem := mem), rs, rt, extra, interrupt);
  }

  lemma LoadPairWrong(c: Cpu, rs: nat, rt: nat, extra: int, interrupt: bool)
    requires ValidCpu(c) && rs < 32 && 0 < rt < 32 && rs != rt && Injective(c.pt) && LoadPairDone(c, rs, rt, extra, interrupt) && !Stable(c, rs)
    ensures exists mem: seq<bv8> :: |mem| == MemorySize && !LoadsWord(c.(mem := mem), rs, rt, extra, interrupt)
  {
    hide LoadPairDone, Byte, WordAt, Translate, AfterLoadPair;
    var a, a2 := Address(c.regs[rs], extra), Address(Settled(c, rs), extra);
    AddressInjective(c.regs[rs], c.loadValue, extra);
    LowestByte(c, rs, rt, extra, interrupt);
    var c' := c.(mem := MemoryWith(c.pt, a2, 1));
    MemoryWithBytes(c.pt, a2, 1);
    AnyMemoryLoads(c, rs, rt, extra, interrupt, c'.mem);
    LowestByte(c', rs, rt, extra, interrupt);
    assert Plus(a, 0) == a;
    if WordReadable(c.pt, a) {
      WordAtBytes(c'.mem, c.pt, a, 0);
    }
    assert !LoadsWord(c', rs, rt, extra, interrupt);
  }

  /** A program with one page, in frame 0, and a load of the given value into the given register under
      way; all its registers hold 0. */
  ghost function OnePage(mem: seq<bv8>, loadReg: nat, loadValue: bv32): (c: Cpu)
    requires |mem| == MemorySize && loadReg < 32
    ensures ValidCpu(c) && Injective(c.pt)
  {
    Cpu(seq(NumRegs, i => 0), loadReg, loadValue, 0, mem, [TranslationEntry(0, 0, true, false, false, false)])
  }

  lemma OnePageTranslates(mem: seq<bv8>, loadReg: nat, loadValue: bv32, x: int, size: int, writing: bool)
    requires |mem| == MemorySize && loadReg < 32 && ValidSize(size) && 0 <= x < PageSize && x % size == 0
    ensures Translate(OnePage(mem, loadReg, loadValue).pt, x, size, writing) == Physical(x)
  {
  }

  lemma SmallAddresses()
    ensures Address(0, 0) == 0 && Address(4, 0) == 4 && Address(0, 3) == 3
  {
  }

  lemma WholeWord(mem: seq<bv8>, loadReg: nat, loadValue: bv32)
    requires |mem| == MemorySize && loadReg < 32
    ensures var pt := OnePage(mem, loadReg, loadValue).pt;
            WordReadable(pt, 0) && WordAt(mem, pt, 0) == LoadWord(mem, 0)
  {
    hide Translate, Join;
    forall k | 0 <= k < 4 ensures Plus(0, k) == k && Translate(OnePage(mem, loadReg, loadValue).pt, k, 1, false) == Physical(k) {
      OnePageTranslates(mem, loadReg, loadValue, k, 1, false);
    }
  }

  /** Such a pair: LWL r2,3(r1) ; LWR r2,0(r1) with 0 in r1 and a load of 4 into r1 under way gives the
      word at 4 instead of the word at 0. */
  lemma LoadPairGoesWrong(mem: seq<bv8>)
    requires |mem| == MemorySize
    ensures var c := OnePage(mem, 1, 4);
            && LoadPairDone(c, 1, 2, 0, false) && AfterLoadPair(c, 1, 2, 0, false).loadValue == LoadWord(mem, 4)
            && WordReadable(c.pt, 0) && WordAt(c.mem, c.pt, 0) == LoadWord(mem, 0) && Address(c.regs[1], 0) == 0
  {
    hide Lwl, Lwr, Join, IntoTop, Translate, Address, WordAt;
    var c := OnePage(mem, 1, 4);
    SmallAddresses();
    OnePageTranslates(mem, 1, 4, 3, 1, false);
    OnePageTranslates(mem, 1, 4, 4, 1, false);
    OnePageTranslates(mem, 1, 4, 4, 4, false);
    assert Plus(0, 3) == 3;
    LoadPairNeeds(c, 1, 2, 0, false);
    var c1 := Between(Lwl(c, 1, 2, 3).c, false);
    AfterLwl(c, 1, 2, 3, false);
    AfterLwr(c1, 1, 2, 0);
    SameMappingTranslates(c.pt, c1.pt, 4, 4, false);
    WholeWord(mem, 1, 4);
  }

  /** The bytes that SWL at `left`, and SWR at `a2`, write. */
  predicate InFirst(left: int, x: int) { left - left % 4 <= x <= left }

  predicate InSecond(a2: int, x: int) { a2 <= x < a2 - a2 % 4 + 4 }

  /** What it does leave there. */
  function PairByte(c: Cpu, rs: nat, rt: nat, extra: int, x: int, b: bv8): bv8
    requires ValidCpu(c) && rs < 32 && rt < 32
  {
    var left, a2 := Plus(Address(c.regs[rs], extra), 3), Address(Settled(c, rs), extra);
    if InSecond(a2, x) then Byte(Settled(c, rt), x - a2)
    else if InFirst(left, x) then Byte(c.regs[rt], x - left + 3)
    else b
  }

  lemma StorePairByte(c: Cpu, rs: nat, rt: nat, extra: int, interrupt: bool, x: int)
    requires ValidCpu(c) && rs < 32 && rt < 32 && Injective(c.pt) && StorePairDone(c, rs, rt, extra, interrupt)
    requires ValidAddress(x) && Readable(c.pt, x)
    ensures VirtualByte(AfterStorePair(c, rs, rt, extra, interrupt).mem, c.pt, x) == PairByte(c, rs, rt, extra, x, VirtualByte(c.mem, c.pt, x))
  {
    hide Swl, Swr, Byte, Translate;
    var c1 := Between(Swl(c, rs, rt, extra + 3).c, interrupt);
    BetweenStores(c, rs, rt, extra + 3, interrupt);
    AddressPlus(c.regs[rs], extra);
    SameMappingInjective(c.pt, c1.pt);
    SameMappingByte(c1.mem, c.pt, c1.pt, x);
    SwlByte(c, rs, rt, extra + 3, x);
    SwrByte(c1, rs, rt, extra, x);
    SameMappingByte(AfterStorePair(c, rs, rt, extra, interrupt).mem, c.pt, c1.pt, x);
  }

  /** The second store lands on its place, or further on in a word that is aligned. */
  predicate LandsNear(a: int, a2: int) { Offset(a, a2) < 4 && (Offset(a, a2) == 0 || a % 4 == 0) }

  /** The bytes the second store writes, and those it should: d is how far it is off. */
  ghost predicate SecondStoreFits(a: int, a2: int, value: bv32, v2: bv32) {
    var d := Offset(a, a2);
    && LandsNear(a, a2)
    && forall j: nat :: j < 4 - a2 % 4 ==> ByteFits(value, v2, d, j)
  }

  /** Byte j of what is written is byte j + d of what should be. */
  ghost predicate ByteFits(value: bv32, v2: bv32, d: int, j: nat) {
    0 <= j + d < 4 && j < 4 && Byte(v2, j) == Byte(value, j + d)
  }

  /** Exactly when every byte of the word is written by one of the stores, and neither writes another. */
  lemma SecondStorePlace(a: int, a2: int, x: int)
    requires ValidAddress(a) && ValidAddress(a2) && ValidAddress(x) && LandsNear(a, a2)
    ensures var left, d := Plus(a, 3), Offset(a, a2);
            && (InSecond(a2, x) ==> Offset(a, x) == d + (x - a2) < 4)
            && (InFirst(left, x) ==> Offset(a, x) == x - left + 3 < 4)
            && (Offset(a, x) < 4 ==> InSecond(a2, x) || InFirst(left, x))
  {
    var left, d := Plus(a, 3), Offset(a, a2);
    assert d == 0 ==> a2 == a;
    assert a % 4 == 0 ==> left == a + 3 && a2 == a + d;
  }

  /** Off its place, the second store leaves a byte of the word unwritten. */
  lemma SecondStoreMisses(a: int, a2: int)
    requires ValidAddress(a) && ValidAddress(a2) && 0 < Offset(a, a2) < 4 && a % 4 != 0
    ensures !InSecond(a2, a) && !InFirst(Plus(a, 3), a)
  {
  }

  lemma WritableReadable(pt: seq<TranslationEntry>, x: int)
    requires ValidAddress(x) && Writable(pt, x)
    ensures Readable(pt, x)
  {
  }

  lemma StoredWordReadable(pt: seq<TranslationEntry>, a: int, a2: int)
    requires ValidAddress(a) && ValidAddress(a2) && Readable(pt, Plus(a, 3)) && Readable(pt, a2)
    requires Offset(a, a2) == 0 || a % 4 == 0
    ensures WordReadable(pt, a)
  {
    hide Translate;
    Halves(a, 0);
    WordAround(pt, a, false);
    WordAround(pt, Plus(a, 3), false);
    forall k | 0 <= k < 4 ensures Readable(pt, Plus(a, k)) { WordFromEnds(pt, a, k, false); }
  }

  lemma FitByte(c: Cpu, rs: nat, rt: nat, extra: int, x: int, b: bv8)
    requires ValidCpu(c) && rs < 32 && rt < 32 && ValidAddress(x)
    requires SecondStoreFits(Address(c.regs[rs], extra), Address(Settled(c, rs), extra), c.regs[rt], Settled(c, rt))
    ensures PairByte(c, rs, rt, extra, x, b) == WantedByte(c, rs, rt, extra, x, b)
  {
    hide Byte, Address;
    var a, a2 := Address(c.regs[rs], extra), Address(Settled(c, rs), extra);
    SecondStorePlace(a, a2, x);
    if InSecond(a2, x) { assert ByteFits(c.regs[rt], Settled(c, rt), Offset(a, a2), x - a2); }
  }

  lemma FitIsRight(c: Cpu, rs: nat, rt: nat, extra: int, interrupt: bool)
    requires ValidCpu(c) && rs < 32 && rt < 32 && Injective(c.pt) && StorePairDone(c, rs, rt, extra, interrupt)
    requires SecondStoreFits(Address(c.regs[rs], extra), Address(Settled(c, rs), extra), c.regs[rt], Settled(c, rt))
    ensures StoresWord(c, rs, rt, extra, interrupt)
  {
    hide Translate, StorePairDone, AfterStorePair, Byte, Address, PairByte, WantedByte;
    var a, a2 := Address(c.regs[rs], extra), Address(Settled(c, rs), extra);
    StorePairNeeds(c, rs, rt, extra, interrupt);
    WritableReadable(c.pt, a2);
    WritableReadable(c.pt, Plus(a, 3));
    StoredWordReadable(c.pt, a, a2);
    forall x | ValidAddress(x) && Readable(c.pt, x)
      ensures StoredRight(c, rs, rt, extra, AfterStorePair(c, rs, rt, extra, interrupt).mem, x)
    {
      StorePairByte(c, rs, rt, extra, interrupt, x);
      FitByte(c, rs, rt, extra, x, VirtualByte(c.mem, c.pt, x));
    }
  }

  lemma AnyMemoryStores(c: Cpu, rs: nat, rt: nat, extra: int, interrupt: bool, mem: seq<bv8>)
    requires ValidCpu(c) && rs < 32 && rt < 32 && StorePairDone(c, rs, rt, extra, interrupt) && |mem| == MemorySize
    ensures StorePairDone(c.(mem := mem), rs, rt, extra, interrupt)
  {
    hide StorePairDone, Translate;
    StorePairNeeds(c, rs, rt, extra, interrupt);
    StorePairNeeds(c.(mem := mem), rs, rt, extra, interrupt);
  }

  /** In one memory: right at x means that what is left there is what is wanted. */
  lemma RightAt(c: Cpu, rs: nat, rt: nat, extra: int, interrupt: bool, x: int)
    requires ValidCpu(c) && rs < 32 && rt < 32 && Injective(c.pt) && StoresWord(c, rs, rt, extra, interrupt)
    requires ValidAddress(x) && Readable(c.pt, x)
    ensures var b := VirtualByte(c.mem, c.pt, x); WantedByte(c, rs, rt, extra, x, b) == PairByte(c, rs, rt, extra, x, b)
  {
    hide Translate, StorePairDone, AfterStorePair, Address, PairByte, WantedByte, WordReadable;
    StorePairByte(c, rs, rt, extra, interrupt, x);
    assert StoredRight(c, rs, rt, extra, AfterStorePair(c, rs, rt, extra, interrupt).mem, x);
  }

  lemma MemoryIrrelevant(c: Cpu, mem: seq<bv8>, rs: nat, rt: nat, extra: int, x: int, b: bv8)
    requires ValidCpu(c) && |mem| == MemorySize && rs < 32 && rt < 32
    ensures WantedByte(c.(mem := mem), rs, rt, extra, x, b) == WantedByte(c, rs, rt, extra, x, b)
    ensures PairByte(c.(mem := mem), rs, rt, extra, x, b) == PairByte(c, rs, rt, extra, x, b)
  {
    hide Byte, Address;
  }

  /** In all of them: for any byte that may have been at x. */
  lemma RightForAll(c: Cpu, rs: nat, rt: nat, extra: int, interrupt: bool, x: int, b: bv8)
    requires ValidCpu(c) && rs < 32 && rt < 32 && Injective(c.pt)
    requires AlwaysStores(c, rs, rt, extra, interrupt) && ValidAddress(x) && Readable(c.pt, x)
    ensures WantedByte(c, rs, rt, extra, x, b) == PairByte(c, rs, rt, extra, x, b)
  {
    hide Translate, StoresWord, WantedByte, PairByte, Address, MemoryWith, Readable, VirtualByte;
    var c' := c.(mem := MemoryWith(c.pt, x, b));
    assert StoresWord(c', rs, rt, extra, interrupt);
    MemoryWithBytes(c.pt, x, b);
    RightAt(c', rs, rt, extra, interrupt, x);
    MemoryIrrelevant(c, c'.mem, rs, rt, extra, x, b);
  }

  /** So a byte of the word is written by one of the stores, and a byte that is not by neither. */
  lemma RightCovers(c: Cpu, rs: nat, rt: nat, extra: int, interrupt: bool, x: int)
    requires ValidCpu(c) && rs < 32 && rt < 32 && Injective(c.pt)
    requires AlwaysStores(c, rs, rt, extra, interrupt) && ValidAddress(x) && Readable(c.pt, x)
    ensures Offset(Address(c.regs[rs], extra), x) < 4
            <==> InSecond(Address(Settled(c, rs), extra), x) || InFirst(Plus(Address(c.regs[rs], extra), 3), x)
  {
    hide Translate, AlwaysStores, Byte, Address, InFirst, InSecond;
    RightForAll(c, rs, rt, extra, interrupt, x, 0);
    RightForAll(c, rs, rt, extra, interrupt, x, 1);
  }

  lemma AlwaysReadable(c: Cpu, rs: nat, rt: nat, extra: int, interrupt: bool)
    requires ValidCpu(c) && rs < 32 && rt < 32 && AlwaysStores(c, rs, rt, extra, interrupt)
    ensures Readable(c.pt, Address(c.regs[rs], extra)) && Readable(c.pt, Address(Settled(c, rs), extra))
  {
    hide Translate, Address, StorePairDone, AfterStorePair, StoredRight;
    var a := Address(c.regs[rs], extra);
    assert StoresWord(c.(mem := c.mem), rs, rt, extra, interrupt);
    assert Plus(a, 0) == a && Readable(c.pt, Plus(a, 0));
    StorePairNeeds(c.(mem := c.mem), rs, rt, extra, interrupt);
    WritableReadable(c.pt, Address(Settled(c, rs), extra));
  }

  lemma RightLandsNear(c: Cpu, rs: nat, rt: nat, extra: int, interrupt: bool)
    requires ValidCpu(c) && rs < 32 && rt < 32 && Injective(c.pt) && AlwaysStores(c, rs, rt, extra, interrupt)
    ensures Readable(c.pt, Address(Settled(c, rs), extra)) && LandsNear(Address(c.regs[rs], extra), Address(Settled(c, rs), extra))
  {
    hide Translate, AlwaysStores, Address, InFirst, InSecond;
    var a, a2 := Address(c.regs[rs], extra), Address(Settled(c, rs), extra);
    AlwaysReadable(c, rs, rt, extra, interrupt);
    RightCovers(c, rs, rt, extra, interrupt, a2);
    RightCovers(c, rs, rt, extra, interrupt, a);
    Itself(a, a2);
    if 0 < Offset(a, a2) < 4 && a % 4 != 0 { SecondStoreMisses(a, a2); }
  }

  lemma Itself(a: int, a2: int)
    requires ValidAddress(a) && ValidAddress(a2)
    ensures Offset(a, a) == 0 && InSecond(a2, a2) && Offset(a, a2) >= 0
  {
  }

  lemma RightByteFits(c: Cpu, rs: nat, rt: nat, extra: int, interrupt: bool, j: nat)
    requires ValidCpu(c) && rs < 32 && rt < 32 && Injective(c.pt) && AlwaysStores(c, rs, rt, extra, interrupt)
    requires Readable(c.pt, Address(Settled(c, rs), extra)) && LandsNear(Address(c.regs[rs], extra), Address(Settled(c, rs), extra))
    requires j < 4 - Address(Settled(c, rs), extra) % 4
    ensures ByteFits(c.regs[rt], Settled(c, rt), Offset(Address(c.regs[rs], extra), Address(Settled(c, rs), extra)), j)
  {
    hide Translate, Byte, Address, AlwaysStores;
    var a, a2 := Address(c.regs[rs], extra), Address(Settled(c, rs), extra);
    RestOfWord(c.pt, a2, j);
    SecondStorePlace(a, a2, a2 + j);
    RightForAll(c, rs, rt, extra, interrupt, a2 + j, 0);
  }

  lemma RightIsFit(c: Cpu, rs: nat, rt: nat, extra: int, interrupt: bool)
    requires ValidCpu(c) && rs < 32 && rt < 32 && Injective(c.pt)
    requires AlwaysStores(c, rs, rt, extra, interrupt)
    ensures SecondStoreFits(Address(c.regs[rs], extra), Address(Settled(c, rs), extra), c.regs[rt], Settled(c, rt))
  {
    hide Translate, Byte, Address, AlwaysStores, LandsNear, Readable;
    var a, a2 := Address(c.regs[rs], extra), Address(Settled(c, rs), extra);
    RightLandsNear(c, rs, rt, extra, interrupt);
    forall j: nat | j < 4 - a2 % 4 ensures ByteFits(c.regs[rt], Settled(c, rt), Offset(a, a2), j) {
      RightByteFits(c, rs, rt, extra, interrupt, j);
    }
  }

  lemma RestOfWord(pt: seq<TranslationEntry>, x: int, j: nat)
    requires ValidAddress(x) && Readable(pt, x) && j < 4 - x % 4
    ensures ValidAddress(x + j) && Readable(pt, x + j)
  {
    WordAround(pt, x, false);
    TranslateByteOf(pt, x - x % 4, 4, false, j + x % 4);
  }

  /** The store pair is right, whatever is in memory, exactly when its second store lands on its place,
      or inside an aligned word, and the bytes it writes are those the word has there. */
  lemma StorePairRightIff(c: Cpu, rs: nat, rt: nat, extra: int, interrupt: bool)
    requires ValidCpu(c) && rs < 32 && rt < 32 && Injective(c.pt) && StorePairDone(c, rs, rt, extra, interrupt)
    ensures AlwaysStores(c, rs, rt, extra, interrupt)
            <==> SecondStoreFits(Address(c.regs[rs], extra), Address(Settled(c, rs), extra), c.regs[rt], Settled(c, rt))
  {
    hide StorePairDone, StoresWord, SecondStoreFits;
    if SecondStoreFits(Address(c.regs[rs], extra), Address(Settled(c, rs), extra), c.regs[rt], Settled(c, rt)) {
      forall mem: seq<bv8> | |mem| == MemorySize ensures StoresWord(c.(mem := mem), rs, rt, extra, interrupt) {
        AnyMemoryStores(c, rs, rt, extra, interrupt, mem);
        FitIsRight(c.(mem := mem), rs, rt, extra, interrupt);
      }
    } else if AlwaysStores(c, rs, rt, extra, interrupt) {
      RightIsFit(c, rs, rt, extra, interrupt);
    }
  }

  /** With no load into the base register under way, and for any one memory: right exactly when the
      value the second store sees agrees with the register on the bytes it writes. */
  lemma StorePairValueIff(c: Cpu, rs: nat, rt: nat, extra: int, interrupt: bool)
    requires ValidCpu(c) && rs < 32 && rt < 32 && Injective(c.pt) && StorePairDone(c, rs, rt, extra, interrupt) && Stable(c, rs)
    ensures StoresWord(c, rs, rt, extra, interrupt)
            <==> forall j: nat :: j < 4 - Address(c.regs[rs], extra) % 4 ==> Byte(Settled(c, rt), j) == Byte(c.regs[rt], j)
  {
    hide Translate, StorePairDone, Byte, Address, StoresWord;
    var a := Address(c.regs[rs], extra);
    if forall j: nat :: j < 4 - a % 4 ==> Byte(Settled(c, rt), j) == Byte(c.regs[rt], j) {
      assert Offset(a, a) == 0;
      FitIsRight(c, rs, rt, extra, interrupt);
    }
    if StoresWord(c, rs, rt, extra, interrupt) {
      forall j: nat | j < 4 - a % 4 ensures Byte(Settled(c, rt), j) == Byte(c.regs[rt], j) {
        StoredByteSeen(c, rs, rt, extra, interrupt, j);
      }
    }
  }

  lemma StoredByteSeen(c: Cpu, rs: nat, rt: nat, extra: int, interrupt: bool, j: nat)
    requires ValidCpu(c) && rs < 32 && rt < 32 && Injective(c.pt) && Stable(c, rs) && StoresWord(c, rs, rt, extra, interrupt)
    requires j < 4 - Address(c.regs[rs], extra) % 4
    ensures Byte(Settled(c, rt), j) == Byte(c.regs[rt], j)
  {
    hide Translate, StorePairDone, AfterStorePair, Byte, Address, StoredRight;
    var a := Address(c.regs[rs], extra);
    WordInside(a, j);
    assert Readable(c.pt, Plus(a, j));
    RightAt(c, rs, rt, extra, interrupt, a + j);
  }

  lemma WordInside(a: int, j: nat)
    requires ValidAddress(a) && j < 4 - a % 4
    ensures Plus(a, j) == a + j && Offset(a, a + j) == j
  {
  }

  /** A store pair that is wrong in every memory: SWL r2,3(r1) ; SWR r2,0(r1) with 0 in both registers
      and a load of 1 into r2 under way stores the 1. */
  lemma StorePairGoesWrong(mem: seq<bv8>)
    requires |mem| == MemorySize
    ensures var c := OnePage(mem, 2, 1);
            StorePairDone(c, 1, 2, 0, false) && !StoresWord(c, 1, 2, 0, false)
  {
    hide Translate, StorePairDone, StoresWord, Address;
    var c := OnePage(mem, 2, 1);
    SmallAddresses();
    assert Plus(0, 3) == 3;
    OnePageTranslates(mem, 2, 1, 3, 1, true);
    OnePageTranslates(mem, 2, 1, 0, 1, true);
    StorePairNeeds(c, 1, 2, 0, false);
    StorePairValueIff(c, 1, 2, 0, false);
    assert Byte(Settled(c, 2), 0) == 1 && Byte(c.regs[2], 0) == 0;
  }
}

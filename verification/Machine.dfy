/** The simulated machine: memory accesses (machine/translate.cc) and the unaligned instructions
    (machine/mipssim.cc), step by step. */
module Machines {
  import opened WordBytes
  import opened Paging
  import opened UnalignedSpec

  /** What a load of the given size leaves in a register: bytes are sign-extended, because main memory
      is an array of char, and half words are not. */
  function ReadValue(mem: seq<bv8>, p: int, size: int): bv32
    requires ValidSize(size) && 0 <= p && p + size <= |mem|
  {
    if size == 1 then (if mem[p] >= 0x80 then 0xffffff00 | mem[p] as bv32 else mem[p] as bv32)
    else if size == 2 then Join(mem[p], mem[p + 1], 0, 0)
    else LoadWord(mem, p)
  }

  /** The bytes of what is read: those in memory, and above them copies of the top bit of a single byte, or
      zeros. */
  lemma ReadValueBytes(mem: seq<bv8>, p: int, size: int, i: nat)
    requires ValidSize(size) && 0 <= p && p + size <= |mem| && i < 4
    ensures Byte(ReadValue(mem, p, size), i) == if i < size then mem[p + i] else if size == 1 && mem[p] >= 0x80 then 0xff else 0
  {
    if size == 1 { ExtendedBytes(mem[p], i); }
    else if size == 2 { JoinBytes(mem[p], mem[p + 1], 0, 0); }
    else { JoinBytes(mem[p], mem[p + 1], mem[p + 2], mem[p + 3]); }
  }

  lemma ExtendedBytes(b: bv8, i: nat)
    requires i < 4
    ensures Byte(b as bv32, i) == (if i == 0 then b else 0) && Byte(0xffffff00 | b as bv32, i) == (if i == 0 then b else 0xff)
  {
  }

  /** What has been stored is read back, as far as the size goes. */
  lemma StoreThenRead(mem: seq<bv8>, p: int, size: int, value: bv32, i: nat)
    requires ValidSize(size) && 0 <= p && p + size <= |mem| && i < 4
    ensures Byte(ReadValue(Stored(mem, p, ValueBytes(value, size)), p, size), i) ==
            if i < size then Byte(value, i) else if size == 1 && Byte(value, 0) >= 0x80 then 0xff else 0
  {
    hide Byte, ReadValue;
    ReadValueBytes(Stored(mem, p, ValueBytes(value, size)), p, size, i);
  }

  class Machine {
    const registers: array<bv32>
    var loadReg: nat
    var loadValue: bv32
    var badVAddr: int
    const mainMemory: array<bv8>
    var pageTable: seq<TranslationEntry>

    constructor (table: seq<TranslationEntry>)
      ensures Valid() && fresh(registers) && fresh(mainMemory) && pageTable == table
    {
      registers := new bv32[NumRegs](i => 0);
      mainMemory := new bv8[MemorySize](i => 0);
      loadReg, loadValue, badVAddr, pageTable := 0, 0, 0, table;
    }

    ghost function View(): Cpu
      reads this, registers, mainMemory
    {
      Cpu(registers[..], loadReg, loadValue, badVAddr, mainMemory[..], pageTable)
    }

    ghost predicate Valid()
      reads this, registers, mainMemory
    {
      registers.Length == NumRegs && mainMemory.Length == MemorySize && ValidCpu(View())
    }

    /** Translate an address, setting the use and dirty bits on the way. */
    method Lookup(addr: int, size: int, writing: bool) returns (r: Translation)
      requires ValidAddress(addr) && ValidSize(size)
      modifies `pageTable
      ensures r == Translate(old(pageTable), addr, size, writing)
      ensures r.Physical? ==> addr / PageSize < |old(pageTable)| && pageTable == Touch(old(pageTable), addr, writing)
      ensures r.Failed? ==> pageTable == old(pageTable)
    {
      if (size == 4 && addr % 4 != 0) || (size == 2 && addr % 2 != 0) {
        return Failed(AddressErrorException);
      }
      var vpn, offset := addr / PageSize, addr % PageSize;
      if vpn >= |pageTable| {
        return Failed(AddressErrorException);
      } else if !pageTable[vpn].valid {
        return Failed(PageFaultException);
      }
      var entry := pageTable[vpn];
      if entry.readOnly && writing {
        return Failed(ReadOnlyException);
      }
      var pageFrame := entry.physicalPage;
      if !(0 <= pageFrame < NumPhysPages) {
        return Failed(BusErrorException);
      }
      entry := entry.(use := true);
      if writing {
        entry := entry.(dirty := true);
      }
      pageTable := pageTable[vpn := entry];
      return Physical(pageFrame * PageSize + offset);
    }

    method CommitLoad(nextReg: nat, nextValue: bv32)
      requires Valid() && nextReg < 32
      modifies this, registers
      ensures Valid() && View() == DelayedLoad(old(View()), nextReg, nextValue)
    {
      registers[loadReg] := loadValue;
      loadReg := nextReg;
      loadValue := nextValue;
      registers[0] := 0;
      assert View().regs == DelayedLoad(old(View()), nextReg, nextValue).regs;
    }

    method RaiseException(which: ExceptionType, addr: int)
      requires Valid()
      modifies this, registers
      ensures Valid() && View() == Raise(old(View()), which, addr).c
    {
      badVAddr := addr;
      CommitLoad(0, 0);
    }

    /** Read 1, 2 or 4 bytes. On failure the exception is raised. */
    method ReadMem(addr: int, size: int) returns (ok: bool, value: bv32)
      requires Valid() && ValidAddress(addr) && ValidSize(size)
      modifies this, registers
      ensures Valid()
      ensures match Translate(old(pageTable), addr, size, false)
              case Failed(e) => !ok && View() == Raise(old(View()), e, addr).c
              case Physical(p) =>
                && ok && 0 <= p && p + size <= MemorySize && value == ReadValue(mainMemory[..], p, size)
                && addr / PageSize < |old(pageTable)| && View() == old(View()).(pt := Touch(old(pageTable), addr, false))
    {
      var r := Lookup(addr, size, false);
      if r.Failed? {
        RaiseException(r.exception, addr);
        return false, 0;
      }
      TranslateInBounds(old(pageTable), addr, size, false);
      return true, ReadValue(mainMemory[..], r.address, size);
    }

    /** Write 1, 2 or 4 bytes. On failure the exception is raised. */
    method WriteMem(addr: int, size: int, value: bv32) returns (ok: bool)
      requires Valid() && ValidAddress(addr) && ValidSize(size)
      modifies this, registers, mainMemory
      ensures Valid()
      ensures match Translate(old(pageTable), addr, size, true)
              case Failed(e) => !ok && View() == Raise(old(View()), e, addr).c
              case Physical(p) =>
                && ok && 0 <= p && p + size <= MemorySize && addr / PageSize < |old(pageTable)|
                && View() == old(View()).(pt := Touch(old(pageTable), addr, true), mem := Stored(old(mainMemory[..]), p, ValueBytes(value, size)))
    {
      var r := Lookup(addr, size, true);
      if r.Failed? {
        RaiseException(r.exception, addr);
        return false;
      }
      TranslateInBounds(old(pageTable), addr, size, true);
      StoreBytes(r.address, ValueBytes(value, size));
      return true;
    }

    method StoreBytes(p: int, b: seq<bv8>)
      requires 0 <= p && p + |b| <= mainMemory.Length
      modifies mainMemory
      ensures mainMemory[..] == Stored(old(mainMemory[..]), p, b)
    {
      ghost var before := mainMemory[..];
      for k := 0 to |b|
        invariant forall i :: 0 <= i < mainMemory.Length ==> mainMemory[i] == if p <= i < p + k then b[i - p] else before[i]
      {
        mainMemory[p + k] := b[k];
      }
    }

    method AdvanceCounters(pcAfter: bv32)
      requires Valid()
      modifies registers
      ensures Valid() && View() == AdvancePc(old(View()), pcAfter)
    {
      registers[PrevPCReg] := registers[PCReg];
      registers[PCReg] := registers[NextPCReg];
      registers[NextPCReg] := pcAfter;
      assert View().regs == AdvancePc(old(View()), pcAfter).regs;
    }

    /** The end of every instruction that succeeds. */
    method Complete(nextReg: nat, nextValue: bv32, pcAfter: bv32)
      requires Valid() && nextReg < 32
      modifies this, registers
      ensures Valid() && View() == AdvancePc(DelayedLoad(old(View()), nextReg, nextValue), pcAfter)
    {
      hide DelayedLoad, AdvancePc;
      CommitLoad(nextReg, nextValue);
      AdvanceCounters(pcAfter);
    }

    /** What a load into rt finds there, its old value possibly still in the delay slot. */
    method Pending(rt: nat) returns (value: bv32)
      requires Valid() && rt < 32
      ensures value == Forwarded(View(), rt)
    {
      value := if loadReg == rt then loadValue else registers[rt];
    }

    /** The instructions themselves. Whether one completed is what ok says. */
    method LoadLeft(rs: nat, rt: nat, extra: int) returns (ok: bool)
      requires Valid() && rs < 32 && rt < 32
      modifies this, registers
      ensures Valid() && View() == Lwl(old(View()), rs, rt, extra).c && ok == Lwl(old(View()), rs, rt, extra).Done?
    {
      hide Translate, Touch, IntoTop, IntoBottom, LoadWord, Stored, ValueBytes, DelayedLoad, AdvancePc, Address, ValidCpu;
      var pcAfter := registers[NextPCReg] + 4;
      var tmp := Address(registers[rs], extra);
      var byte := tmp % 4;
      var value: bv32;
      ok, value := ReadMem(tmp - byte, 4);
      if !ok {
        return;
      }
      var nextLoadValue := Pending(rt);
      nextLoadValue := IntoTop(nextLoadValue, value, 3 - byte);
      Complete(rt, nextLoadValue, pcAfter);
    }

    method LoadRight(rs: nat, rt: nat, extra: int) returns (ok: bool)
      requires Valid() && rs < 32 && rt < 32
      modifies this, registers
      ensures Valid() && View() == Lwr(old(View()), rs, rt, extra).c && ok == Lwr(old(View()), rs, rt, extra).Done?
    {
      hide Translate, Touch, IntoTop, IntoBottom, LoadWord, Stored, ValueBytes, DelayedLoad, AdvancePc, Address, ValidCpu;
      var pcAfter := registers[NextPCReg] + 4;
      var tmp := Address(registers[rs], extra);
      var byte := tmp % 4;
      var value: bv32;
      ok, value := ReadMem(tmp - byte, 4);
      if !ok {
        return;
      }
      var nextLoadValue := Pending(rt);
      nextLoadValue := IntoBottom(nextLoadValue, value, byte);
      Complete(rt, nextLoadValue, pcAfter);
    }

    method StoreLeft(rs: nat, rt: nat, extra: int) returns (ok: bool)
      requires Valid() && rs < 32 && rt < 32
      modifies this, registers, mainMemory
      ensures Valid() && View() == Swl(old(View()), rs, rt, extra).c && ok == Swl(old(View()), rs, rt, extra).Done?
    {
      hide Translate, Touch, IntoTop, IntoBottom, LoadWord, Stored, ValueBytes, DelayedLoad, AdvancePc, Address, ValidCpu;
      var pcAfter := registers[NextPCReg] + 4;
      var tmp := Address(registers[rs], extra);
      var byte := tmp % 4;
      var value: bv32;
      ok, value := ReadMem(tmp - byte, 4);
      if !ok {
        return;
      }
      value := IntoBottom(value, registers[rt], 3 - byte);
      ok := WriteMem(tmp - byte, 4, value);
      if !ok {
        return;
      }
      Complete(0, 0, pcAfter);
    }

    method StoreRight(rs: nat, rt: nat, extra: int) returns (ok: bool)
      requires Valid() && rs < 32 && rt < 32
      modifies this, registers, mainMemory
      ensures Valid() && View() == Swr(old(View()), rs, rt, extra).c && ok == Swr(old(View()), rs, rt, extra).Done?
    {
      hide Translate, Touch, IntoTop, IntoBottom, LoadWord, Stored, ValueBytes, DelayedLoad, AdvancePc, Address, ValidCpu;
      var pcAfter := registers[NextPCReg] + 4;
      var tmp := Address(registers[rs], extra);
      var byte := tmp % 4;
      var value: bv32;
      ok, value := ReadMem(tmp - byte, 4);
      if !ok {
        return;
      }
      value := IntoTop(value, registers[rt], byte);
      ok := WriteMem(tmp - byte, 4, value);
      if !ok {
        return;
      }
      Complete(0, 0, pcAfter);
    }
  }
}

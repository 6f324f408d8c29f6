/** Which address space owns which page frame (userprog/addrspace.cc), and why processes cannot touch
    each other's memory. */
module FrameSpec {
  import opened BitSpec
  import opened WordBytes
  import opened Paging

  const FrameBits: int := 512        // the kernel's frame bitmap is larger than the machine's memory
  const UserStackSize: int := 1024

  /** The frame bitmap, the page tables of the live address spaces, and main memory. */
  datatype Memory = Memory(bits: seq<bool>, spaces: map<nat, seq<TranslationEntry>>, mem: seq<bv8>)

  ghost predicate Shape(m: Memory) { |m.bits| == FrameBits && |m.mem| == MemorySize }

  /** The page table maps some page to the frame. */
  ghost predicate Has(pt: seq<TranslationEntry>, frame: int) {
    exists i :: 0 <= i < |pt| && pt[i].physicalPage == frame
  }

  ghost predicate TableOk(pt: seq<TranslationEntry>) {
    && Injective(pt) && |pt| <= FrameBits
    && forall i :: 0 <= i < |pt| ==> pt[i].valid && !pt[i].readOnly && 0 <= pt[i].physicalPage < FrameBits
  }

  ghost predicate Owned(spaces: map<nat, seq<TranslationEntry>>, frame: int) {
    exists id :: id in spaces && Has(spaces[id], frame)
  }

  /** Ownership: a marked frame is a frame of exactly one page of exactly one live space. */
  ghost predicate Ownership(m: Memory) {
    && Shape(m)
    && (forall id :: id in m.spaces ==> TableOk(m.spaces[id]))
    && (forall a, b :: a in m.spaces && b in m.spaces && a != b ==> FramesApart(m.spaces[a], m.spaces[b]))
    && (forall f :: 0 <= f < FrameBits ==> (m.bits[f] <==> Owned(m.spaces, f)))
  }

  /** divRoundUp of the program and its stack. */
  function NumPages(programSize: nat): (n: nat)
    ensures (n - 1) * PageSize < programSize + UserStackSize <= n * PageSize
  {
    (programSize + UserStackSize) / PageSize + (if (programSize + UserStackSize) % PageSize > 0 then 1 else 0)
  }

  function NewTable(found: seq<int>): (pt: seq<TranslationEntry>) {
    seq(|found|, i requires 0 <= i < |found| => TranslationEntry(i, found[i], true, false, false, false))
  }

  /** Main memory with the given frames zeroed; a frame beyond main memory has no bytes here. */
  ghost function Zeroed(mem: seq<bv8>, frames: seq<int>): (r: seq<bv8>)
    ensures |r| == |mem|
    ensures forall p :: 0 <= p < |mem| ==> r[p] == if p / PageSize in frames then 0 else mem[p]
  {
    seq(|mem|, p requires 0 <= p < |mem| => if p / PageSize in frames then 0 else mem[p])
  }

  lemma NoFrames(mem: seq<bv8>)
    ensures NewTable([]) == [] && Zeroed(mem, []) == mem
  {
  }

  lemma OneMoreFrame(mem: seq<bv8>, found: seq<int>, frame: int)
    ensures NewTable(found + [frame]) == NewTable(found) + [TranslationEntry(|found|, frame, true, false, false, false)]
    ensures Zeroed(mem, found + [frame]) == Zeroed(Zeroed(mem, found), [frame])
  {
  }

  function FramesOf(pt: seq<TranslationEntry>): (r: seq<int>) {
    seq(|pt|, i requires 0 <= i < |pt| => pt[i].physicalPage)
  }

  // The three things that happen to memory over a run.

  ghost function Allocated(m: Memory, id: nat, pages: nat): Memory {
    if pages > ClearCount(m.bits) then m.(spaces := m.spaces[id := []])
    else
      var (found, after) := TakeClear(m.bits, pages);
      Memory(after, m.spaces[id := NewTable(found)], Zeroed(m.mem, found))
  }

  ghost function Destroyed(m: Memory, id: nat): Memory
    requires Ownership(m) && id in m.spaces
  {
    m.(bits := ClearAll(m.bits, FramesOf(m.spaces[id])), spaces := m.spaces - {id})
  }

  ghost function Written(m: Memory, id: nat, addr: int, size: int, value: bv32): Memory
    requires Shape(m) && id in m.spaces && ValidAddress(addr) && ValidSize(size)
  {
    match Translate(m.spaces[id], addr, size, true)
    case Failed(e) => m
    case Physical(p) =>
      TranslateInBounds(m.spaces[id], addr, size, true);
      m.(spaces := m.spaces[id := Touch(m.spaces[id], addr, true)], mem := Stored(m.mem, p, ValueBytes(value, size)))
  }

  lemma NewTableHas(found: seq<int>, f: int)
    ensures Has(NewTable(found), f) <==> f in found
  {
    assert f in found ==> exists i :: 0 <= i < |found| && NewTable(found)[i].physicalPage == f by {
      if f in found {
        var i :| 0 <= i < |found| && found[i] == f;
        assert NewTable(found)[i].physicalPage == f;
      }
    }
  }

  lemma OwnedByNew(spaces: map<nat, seq<TranslationEntry>>, id: nat, pt: seq<TranslationEntry>, f: int)
    requires id !in spaces
    ensures Owned(spaces[id := pt], f) <==> Owned(spaces, f) || Has(pt, f)
  {
    var now := spaces[id := pt];
    if Owned(spaces, f) {
      var a :| a in spaces && Has(spaces[a], f);
      assert a in now && Has(now[a], f);
    }
    if Has(pt, f) {
      assert id in now && Has(now[id], f);
    }
  }

  /** Frames that were clear are nobody's. */
  lemma ClearFramesApart(m: Memory, id: nat, found: seq<int>)
    requires Ownership(m) && id in m.spaces
    requires forall j :: 0 <= j < |found| ==> 0 <= found[j] < FrameBits && !m.bits[found[j]]
    ensures FramesApart(m.spaces[id], NewTable(found)) && FramesApart(NewTable(found), m.spaces[id])
  {
    forall i, j | 0 <= i < |m.spaces[id]| && 0 <= j < |found|
      ensures m.spaces[id][i].physicalPage != found[j]
    {
      assert Has(m.spaces[id], m.spaces[id][i].physicalPage);
    }
  }

  lemma AddKeepsOwnership(m: Memory, id: nat, pt: seq<TranslationEntry>, bits: seq<bool>, mem: seq<bv8>)
    requires Ownership(m) && id !in m.spaces && TableOk(pt) && |mem| == MemorySize && |bits| == FrameBits
    requires forall a :: a in m.spaces ==> FramesApart(m.spaces[a], pt) && FramesApart(pt, m.spaces[a])
    requires forall f :: 0 <= f < FrameBits ==> (bits[f] <==> m.bits[f] || Has(pt, f))
    ensures Ownership(Memory(bits, m.spaces[id := pt], mem))
  {
    hide Has, TableOk, FramesApart, Owned;
    forall f ensures Owned(m.spaces[id := pt], f) <==> Owned(m.spaces, f) || Has(pt, f) {
      OwnedByNew(m.spaces, id, pt, f);
    }
  }

  lemma NewTableOk(found: seq<int>)
    requires Distinct(found) && |found| <= FrameBits && forall i :: 0 <= i < |found| ==> 0 <= found[i] < FrameBits
    ensures TableOk(NewTable(found))
  {
  }

  /** Allocation keeps ownership exact. */
  lemma AllocateKeepsOwnership(m: Memory, id: nat, pages: nat)
    requires Ownership(m) && id !in m.spaces
    ensures Ownership(Allocated(m, id, pages))
  {
    hide Ownership, FramesApart;
    OwnershipShape(m);
    if pages > ClearCount(m.bits) {
      NothingApart(m);
      AddKeepsOwnership(m, id, [], m.bits, m.mem);
    } else {
      var (found, after) := TakeClear(m.bits, pages);
      TakeClearMarks(m.bits, pages);
      TakeClearDistinct(m.bits, pages);
      CountAtMost(m.bits);
      hide TakeClear;
      NewTableOk(found);
      forall f ensures Has(NewTable(found), f) <==> f in found { NewTableHas(found, f); }
      hide Has, TableOk, NewTable;
      forall a | a in m.spaces ensures FramesApart(m.spaces[a], NewTable(found)) && FramesApart(NewTable(found), m.spaces[a]) {
        ClearFramesApart(m, a, found);
      }
      AddKeepsOwnership(m, id, NewTable(found), after, Zeroed(m.mem, found));
    }
  }

  lemma NothingApart(m: Memory)
    ensures TableOk([]) && forall a :: a in m.spaces ==> FramesApart(m.spaces[a], []) && FramesApart([], m.spaces[a])
  {
  }

  lemma DestroyKeepsOwnership(m: Memory, id: nat)
    requires Ownership(m) && id in m.spaces
    ensures Ownership(Destroyed(m, id))
  {
    var m' := Destroyed(m, id);
    var pt := m.spaces[id];
    forall f | 0 <= f < FrameBits ensures m'.bits[f] <==> Owned(m'.spaces, f) {
      assert f in FramesOf(pt) <==> Has(pt, f) by {
        if Has(pt, f) {
          var i :| 0 <= i < |pt| && pt[i].physicalPage == f;
          assert FramesOf(pt)[i] == f;
        }
      }
      if m'.bits[f] {
        var a :| a in m.spaces && Has(m.spaces[a], f);
        assert a in m'.spaces && Has(m'.spaces[a], f);
      }
      if Owned(m'.spaces, f) {
        var a :| a in m'.spaces && Has(m'.spaces[a], f);
        assert a in m.spaces && Has(m.spaces[a], f);
        assert FramesApart(m.spaces[a], pt);
      }
    }
  }

  lemma SameMappingHas(pt: seq<TranslationEntry>, pt': seq<TranslationEntry>, f: int)
    requires SameMapping(pt, pt')
    ensures Has(pt', f) <==> Has(pt, f)
  {
    if Has(pt, f) {
      var i :| 0 <= i < |pt| && pt[i].physicalPage == f;
      assert pt'[i].physicalPage == f;
    }
  }

  /** Use and dirty bits and the contents of memory are not ownership's concern. */
  lemma RemapKeepsOwnership(m: Memory, id: nat, pt: seq<TranslationEntry>, mem: seq<bv8>)
    requires Ownership(m) && id in m.spaces && SameMapping(m.spaces[id], pt) && |mem| == MemorySize
    ensures Ownership(m.(spaces := m.spaces[id := pt], mem := mem))
  {
    var spaces := m.spaces[id := pt];
    forall f ensures Owned(spaces, f) <==> Owned(m.spaces, f) {
      SameMappingHas(m.spaces[id], pt, f);
      if Owned(m.spaces, f) {
        var a :| a in m.spaces && Has(m.spaces[a], f);
        assert a in spaces && Has(spaces[a], f);
      }
    }
  }

  lemma WriteKeepsOwnership(m: Memory, id: nat, addr: int, size: int, value: bv32)
    requires Ownership(m) && id in m.spaces && ValidAddress(addr) && ValidSize(size)
    ensures Ownership(Written(m, id, addr, size, value))
  {
    if Translate(m.spaces[id], addr, size, true).Physical? {
      RemapKeepsOwnership(m, id, Touch(m.spaces[id], addr, true), Written(m, id, addr, size, value).mem);
    }
  }

  /** What a program can read: the same addresses, holding the same bytes. */
  ghost predicate SameContents(mem: seq<bv8>, pt: seq<TranslationEntry>, mem': seq<bv8>, pt': seq<TranslationEntry>)
    requires |mem| == |mem'| == MemorySize
  {
    && SameMapping(pt, pt')
    && forall c :: ValidAddress(c) && Readable(pt, c) ==> Readable(pt', c) && VirtualByte(mem', pt', c) == VirtualByte(mem, pt, c)
  }

  /** A new space has as many pages as asked for, or none; it can read and write exactly those whose frame
      exists, which is all of them if enough real frames were free. */
  lemma AllocatedReach(m: Memory, id: nat, pages: nat, c: int)
    requires Shape(m) && ValidAddress(c)
    ensures var pt := Allocated(m, id, pages).spaces[id];
            && |pt| == (if pages <= ClearCount(m.bits) then pages else 0)
            && (Readable(pt, c) <==> c < |pt| * PageSize && pt[c / PageSize].physicalPage < NumPhysPages)
            && Translate(pt, c, 1, true) == Translate(pt, c, 1, false)
            && (pages <= ClearCount(m.bits) && pages <= ClearCount(m.bits[..NumPhysPages]) ==> (Readable(pt, c) <==> c < pages * PageSize))
  {
    if pages <= ClearCount(m.bits) {
      TakeClearMarks(m.bits, pages);
      TakeClearBelow(m.bits, pages, NumPhysPages);
      hide TakeClear;
    }
  }

  /** A new space finds its memory zeroed. */
  lemma AllocatedIsZero(m: Memory, id: nat, pages: nat, c: int)
    requires Ownership(m) && ValidAddress(c) && Readable(Allocated(m, id, pages).spaces[id], c)
    ensures VirtualByte(Allocated(m, id, pages).mem, Allocated(m, id, pages).spaces[id], c) == 0
  {
    TranslateInBounds(Allocated(m, id, pages).spaces[id], c, 1, false);
  }

  /** ... without disturbing the others. */
  lemma AllocateIsolated(m: Memory, id: nat, pages: nat, other: nat)
    requires Ownership(m) && id !in m.spaces && other in m.spaces
    ensures SameContents(m.mem, m.spaces[other], Allocated(m, id, pages).mem, Allocated(m, id, pages).spaces[other])
  {
    if pages <= ClearCount(m.bits) {
      TakeClearMarks(m.bits, pages);
      var found := TakeClear(m.bits, pages).0;
      var pt := m.spaces[other];
      forall c | ValidAddress(c) && Readable(pt, c)
        ensures VirtualByte(Zeroed(m.mem, found), pt, c) == VirtualByte(m.mem, pt, c)
      {
        TranslateInBounds(pt, c, 1, false);
        assert Has(pt, pt[c / PageSize].physicalPage);
      }
    }
  }

  /** A store in one process is seen by no other. */
  lemma WriteIsolated(m: Memory, id: nat, addr: int, size: int, value: bv32, other: nat)
    requires Ownership(m) && id in m.spaces && other in m.spaces && other != id && ValidAddress(addr) && ValidSize(size)
    ensures SameContents(m.mem, m.spaces[other], Written(m, id, addr, size, value).mem, Written(m, id, addr, size, value).spaces[other])
  {
    if Translate(m.spaces[id], addr, size, true).Physical? {
      forall c | ValidAddress(c) && Readable(m.spaces[other], c)
        ensures VirtualByte(Written(m, id, addr, size, value).mem, m.spaces[other], c) == VirtualByte(m.mem, m.spaces[other], c)
      {
        StoreIsolated(m.mem, m.spaces[id], m.spaces[other], addr, size, value, c);
      }
    }
  }

  /** ... and by the process itself, exactly where it stored; a store that fails changes nothing. */
  lemma WriteSeen(m: Memory, id: nat, addr: int, size: int, value: bv32, c: int)
    requires Ownership(m) && id in m.spaces && ValidAddress(addr) && ValidSize(size) && ValidAddress(c) && Readable(m.spaces[id], c)
    ensures var m' := Written(m, id, addr, size, value);
            && Readable(m'.spaces[id], c)
            && VirtualByte(m'.mem, m'.spaces[id], c) ==
               if Translate(m.spaces[id], addr, size, true).Physical? && addr <= c < addr + size then Byte(value, c - addr)
               else VirtualByte(m.mem, m.spaces[id], c)
    ensures Translate(m.spaces[id], addr, size, true).Failed? ==> Written(m, id, addr, size, value) == m
  {
    hide Byte;
    if Translate(m.spaces[id], addr, size, true).Physical? {
      StoreVirtual(m.mem, m.spaces[id], addr, size, value, c);
      SameMappingTranslates(m.spaces[id], Touch(m.spaces[id], addr, true), c, 1, false);
    }
  }

  // The program is then copied in: PageSize bytes to each page's frame and the segment's address beyond
  // it, which need not be inside the frame.

  /** A segment of the program file: where it says it goes, and what was read for each page, which may be
      less than a page at the end of the file. */
  datatype Segment = Segment(virtualAddr: int, chunks: seq<seq<bv8>>)

  predicate Fits(seg: Segment, pages: nat) {
    |seg.chunks| == pages && forall i :: 0 <= i < pages ==> |seg.chunks[i]| <= PageSize
  }

  predicate AllFit(segs: seq<Segment>, pages: nat) {
    forall k :: 0 <= k < |segs| ==> Fits(segs[k], pages)
  }

  /** Memory with the bytes of b from p on; those outside memory have no place here. */
  ghost function Poke(mem: seq<bv8>, p: int, b: seq<bv8>): (r: seq<bv8>)
    ensures |r| == |mem|
    ensures forall q :: 0 <= q < |mem| ==> r[q] == if p <= q < p + |b| then b[q - p] else mem[q]
  {
    seq(|mem|, q requires 0 <= q < |mem| => if p <= q < p + |b| then b[q - p] else mem[q])
  }

  /** The copies of the first n pages. */
  ghost function Copied(mem: seq<bv8>, frames: seq<int>, seg: Segment, n: nat): (r: seq<bv8>)
    requires n <= |frames| && Fits(seg, |frames|)
    ensures |r| == |mem|
  {
    if n == 0 then mem else Poke(Copied(mem, frames, seg, n - 1), frames[n - 1] * PageSize + seg.virtualAddr, seg.chunks[n - 1])
  }

  ghost function Loaded(mem: seq<bv8>, frames: seq<int>, segs: seq<Segment>, n: nat): (r: seq<bv8>)
    requires n <= |segs| && AllFit(segs, |frames|)
    ensures |r| == |mem|
  {
    if n == 0 then mem else Copied(Loaded(mem, frames, segs, n - 1), frames, segs[n - 1], |frames|)
  }

  /** The whole of AddrSpace's constructor: nothing is copied when there were too few frames. */
  ghost function Created(m: Memory, id: nat, pages: nat, segs: seq<Segment>): Memory
    requires AllFit(segs, pages)
  {
    if pages > ClearCount(m.bits) then Allocated(m, id, pages)
    else Allocated(m, id, pages).(mem := Loaded(Allocated(m, id, pages).mem, TakeClear(m.bits, pages).0, segs, |segs|))
  }

  lemma CreateKeepsOwnership(m: Memory, id: nat, pages: nat, segs: seq<Segment>)
    requires Ownership(m) && id !in m.spaces && AllFit(segs, pages)
    ensures Ownership(Created(m, id, pages, segs))
  {
    AllocateKeepsOwnership(m, id, pages);
  }

  /** The copy for page i of a segment writes byte q of memory. */
  ghost predicate Covers(frames: seq<int>, seg: Segment, i: int, q: int)
    requires Fits(seg, |frames|)
  {
    0 <= i < |frames| && var p := frames[i] * PageSize + seg.virtualAddr; p <= q < p + |seg.chunks[i]|
  }

  /** Every byte copied into memory falls into a frame that was free before. */
  ghost predicate LandsFree(bits: seq<bool>, frames: seq<int>, segs: seq<Segment>)
    requires |bits| == FrameBits && AllFit(segs, |frames|)
  {
    forall k, i, q :: 0 <= k < |segs| && Covers(frames, segs[k], i, q) && 0 <= q < MemorySize ==> !bits[q / PageSize]
  }

  lemma {:induction false} CopiedByte(mem: seq<bv8>, frames: seq<int>, seg: Segment, n: nat, q: int, b: bv8)
    requires n <= |frames| && Fits(seg, |frames|) && 0 <= q < |mem|
    ensures (forall i :: 0 <= i < n ==> !Covers(frames, seg, i, q)) ==> Copied(mem, frames, seg, n)[q] == mem[q]
    ensures AllBytes(seg, b) && ((exists i :: 0 <= i < n && Covers(frames, seg, i, q)) || mem[q] == b) ==> Copied(mem, frames, seg, n)[q] == b
  {
    if n > 0 {
      CopiedByte(mem, frames, seg, n - 1, q, b);
      assert Covers(frames, seg, n - 1, q) <==> frames[n - 1] * PageSize + seg.virtualAddr <= q < frames[n - 1] * PageSize + seg.virtualAddr + |seg.chunks[n - 1]|;
    }
  }

  /** Copies for different frames do not meet. */
  lemma CopiesApart(f: int, g: int, va: int, j: int, len: int)
    requires f != g && 0 <= j < PageSize && len <= PageSize
    ensures !(g * PageSize + va <= f * PageSize + va + j < g * PageSize + va + len)
  {
  }

  /** Each page's part arrives where it was sent. */
  lemma {:induction false} CopiedChunk(mem: seq<bv8>, frames: seq<int>, seg: Segment, n: nat, i: nat, j: nat)
    requires i < n <= |frames| && Fits(seg, |frames|) && Distinct(frames) && j < |seg.chunks[i]|
    requires 0 <= frames[i] * PageSize + seg.virtualAddr + j < |mem|
    ensures Copied(mem, frames, seg, n)[frames[i] * PageSize + seg.virtualAddr + j] == seg.chunks[i][j]
  {
    if i < n - 1 {
      CopiedChunk(mem, frames, seg, n - 1, i, j);
      CopiesApart(frames[i], frames[n - 1], seg.virtualAddr, j, |seg.chunks[n - 1]|);
    }
  }

  /** A program whose last segment starts at address 0 finds it there. */
  lemma ProgramInPlace(m: Memory, id: nat, pages: nat, segs: seq<Segment>, c: int)
    requires Ownership(m) && AllFit(segs, pages) && pages <= ClearCount(m.bits) && segs != [] && segs[|segs| - 1].virtualAddr == 0
    requires ValidAddress(c) && Readable(Created(m, id, pages, segs).spaces[id], c)
    requires c / PageSize < pages && c % PageSize < |segs[|segs| - 1].chunks[c / PageSize]|
    ensures VirtualByte(Created(m, id, pages, segs).mem, Created(m, id, pages, segs).spaces[id], c)
            == segs[|segs| - 1].chunks[c / PageSize][c % PageSize]
  {
    var frames, n := TakeClear(m.bits, pages).0, |segs|;
    TakeClearDistinct(m.bits, pages);
    TranslateInBounds(NewTable(frames), c, 1, false);
    hide Ownership, TakeClear;
    CopiedChunk(Loaded(Allocated(m, id, pages).mem, frames, segs, n - 1), frames, segs[n - 1], pages, c / PageSize, c % PageSize);
  }

  ghost predicate AllBytes(seg: Segment, b: bv8) {
    forall i, j :: 0 <= i < |seg.chunks| && 0 <= j < |seg.chunks[i]| ==> seg.chunks[i][j] == b
  }

  /** A byte no copy writes stays; one that some copy writes changes to b if that is all there is to copy. */
  lemma {:induction false} LoadedByte(mem: seq<bv8>, frames: seq<int>, segs: seq<Segment>, n: nat, q: int, b: bv8)
    requires n <= |segs| && AllFit(segs, |frames|) && 0 <= q < |mem|
    ensures (forall k, i :: 0 <= k < n && 0 <= i < |frames| ==> !Covers(frames, segs[k], i, q)) ==> Loaded(mem, frames, segs, n)[q] == mem[q]
    ensures (forall k :: 0 <= k < n ==> AllBytes(segs[k], b)) && ((exists k, i :: 0 <= k < n && Covers(frames, segs[k], i, q)) || mem[q] == b)
            ==> Loaded(mem, frames, segs, n)[q] == b
  {
    if n > 0 {
      LoadedByte(mem, frames, segs, n - 1, q, b);
      CopiedByte(Loaded(mem, frames, segs, n - 1), frames, segs[n - 1], |frames|, q, b);
    }
  }

  /** If all copies land in frames that were free, they are seen by no other space, whatever is copied. */
  lemma LoadIsolated(m: Memory, id: nat, pages: nat, segs: seq<Segment>, other: nat)
    requires Ownership(m) && id !in m.spaces && other in m.spaces && AllFit(segs, pages)
    requires pages <= ClearCount(m.bits) ==> LandsFree(m.bits, TakeClear(m.bits, pages).0, segs)
    ensures SameContents(m.mem, m.spaces[other], Created(m, id, pages, segs).mem, Created(m, id, pages, segs).spaces[other])
  {
    AllocateIsolated(m, id, pages, other);
    if pages <= ClearCount(m.bits) {
      var m1, frames, pt := Allocated(m, id, pages), TakeClear(m.bits, pages).0, m.spaces[other];
      forall c | ValidAddress(c) && Readable(pt, c)
        ensures VirtualByte(Loaded(m1.mem, frames, segs, |segs|), pt, c) == VirtualByte(m1.mem, pt, c)
      {
        TranslateInBounds(pt, c, 1, false);
        var q := Translate(pt, c, 1, false).address;
        assert Has(pt, q / PageSize);
        assert m.bits[q / PageSize];
        LoadedByte(m1.mem, frames, segs, |segs|, q, 0);
      }
    }
  }

  /** The same addresses and lengths; only what is read from the file may differ. */
  ghost predicate SameShape(segs: seq<Segment>, segs': seq<Segment>) {
    |segs'| == |segs| && forall k :: 0 <= k < |segs| ==> SameSegment(segs[k], segs'[k])
  }

  ghost predicate SameSegment(seg: Segment, seg': Segment) {
    && seg'.virtualAddr == seg.virtualAddr && |seg'.chunks| == |seg.chunks|
    && forall i :: 0 <= i < |seg.chunks| ==> |seg'.chunks[i]| == |seg.chunks[i]|
  }

  ghost function Filled(seg: Segment, b: bv8): (r: Segment)
    ensures SameSegment(seg, r) && AllBytes(r, b)
  {
    Segment(seg.virtualAddr, seq(|seg.chunks|, i requires 0 <= i < |seg.chunks| => seq(|seg.chunks[i]|, j => b)))
  }

  /** Creation is seen by no space that was there before. */
  ghost predicate Undisturbed(m: Memory, id: nat, pages: nat, segs: seq<Segment>)
    requires Shape(m) && id !in m.spaces && AllFit(segs, pages)
  {
    forall other :: other in m.spaces ==>
      SameContents(m.mem, m.spaces[other], Created(m, id, pages, segs).mem, Created(m, id, pages, segs).spaces[other])
  }

  /** The address at which a space reads a byte of a frame it owns. */
  lemma OwnedByte(pt: seq<TranslationEntry>, q: int) returns (c: int)
    requires TableOk(pt) && 0 <= q < MemorySize && Has(pt, q / PageSize)
    ensures ValidAddress(c) && Readable(pt, c) && Translate(pt, c, 1, false).address == q
  {
    var v :| 0 <= v < |pt| && pt[v].physicalPage == q / PageSize;
    c := v * PageSize + q % PageSize;
    FrameAddress(v, q % PageSize, 0);
  }

  /** The space that a marked frame belongs to, and the address at which it reads a byte of it. */
  lemma OwnerReads(m: Memory, q: int) returns (other: nat, c: int)
    requires Ownership(m) && 0 <= q < MemorySize && m.bits[q / PageSize]
    ensures other in m.spaces && ValidAddress(c) && Readable(m.spaces[other], c) && Translate(m.spaces[other], c, 1, false).address == q
  {
    assert Owned(m.spaces, q / PageSize);
    other :| other in m.spaces && Has(m.spaces[other], q / PageSize);
    c := OwnedByte(m.spaces[other], q);
  }

  lemma FilledShape(segs: seq<Segment>, pages: nat, b: bv8) returns (segs': seq<Segment>)
    requires AllFit(segs, pages)
    ensures SameShape(segs, segs') && AllFit(segs', pages) && forall k :: 0 <= k < |segs'| ==> AllBytes(segs'[k], b)
  {
    segs' := seq(|segs|, k requires 0 <= k < |segs| => Filled(segs[k], b));
  }

  /** A copy that lands in a frame in use can be seen by the space that has it. */
  lemma LoadDisturbs(m: Memory, id: nat, pages: nat, segs: seq<Segment>, k: int, i: int, q: int) returns (segs': seq<Segment>, other: nat)
    requires Ownership(m) && id !in m.spaces && AllFit(segs, pages) && pages <= ClearCount(m.bits)
    requires 0 <= k < |segs| && Covers(TakeClear(m.bits, pages).0, segs[k], i, q) && 0 <= q < MemorySize && m.bits[q / PageSize]
    ensures SameShape(segs, segs') && AllFit(segs', pages) && other in m.spaces
    ensures !SameContents(m.mem, m.spaces[other], Created(m, id, pages, segs').mem, Created(m, id, pages, segs').spaces[other])
  {
    var c: int;
    other, c := OwnerReads(m, q);
    hide Ownership, Translate, TakeClear, Allocated, AllBytes;
    var frames := TakeClear(m.bits, pages).0;
    var b: bv8 := if m.mem[q] == 0 then 1 else 0;
    segs' := FilledShape(segs, pages, b);
    assert SameSegment(segs[k], segs'[k]);
    assert Covers(frames, segs'[k], i, q);
    AllocatedLength(m, id, pages);
    LoadedByte(Allocated(m, id, pages).mem, frames, segs', |segs'|, q, b);
    AllocatedOthers(m, id, pages, other);
    assert VirtualByte(Created(m, id, pages, segs').mem, m.spaces[other], c) == b;
  }

  lemma AllocatedLength(m: Memory, id: nat, pages: nat)
    ensures |Allocated(m, id, pages).mem| == |m.mem|
  {
  }

  lemma AllocatedOthers(m: Memory, id: nat, pages: nat, other: nat)
    requires id !in m.spaces && other in m.spaces
    ensures other in Allocated(m, id, pages).spaces && Allocated(m, id, pages).spaces[other] == m.spaces[other]
  {
  }

  lemma ShapeCovers(frames: seq<int>, segs: seq<Segment>, segs': seq<Segment>, bits: seq<bool>)
    requires AllFit(segs, |frames|) && AllFit(segs', |frames|) && SameShape(segs, segs') && |bits| == FrameBits
    ensures LandsFree(bits, frames, segs) ==> LandsFree(bits, frames, segs')
  {
    forall k, i, q | LandsFree(bits, frames, segs) && 0 <= k < |segs'| && Covers(frames, segs'[k], i, q) && 0 <= q < MemorySize
      ensures !bits[q / PageSize]
    {
      assert SameSegment(segs[k], segs'[k]);
      assert Covers(frames, segs[k], i, q);
    }
  }

  /** Creating a space disturbs no other, whatever is in the program file, exactly when everything it
      copies lands in frames that were free. */
  lemma LoadIsolatedIff(m: Memory, id: nat, pages: nat, segs: seq<Segment>)
    requires Ownership(m) && id !in m.spaces && AllFit(segs, pages) && pages <= ClearCount(m.bits)
    ensures (forall segs' :: SameShape(segs, segs') && AllFit(segs', pages) ==> Undisturbed(m, id, pages, segs'))
            <==> LandsFree(m.bits, TakeClear(m.bits, pages).0, segs)
  {
    var frames := TakeClear(m.bits, pages).0;
    if LandsFree(m.bits, frames, segs) {
      forall segs' | SameShape(segs, segs') && AllFit(segs', pages) ensures Undisturbed(m, id, pages, segs') {
        ShapeCovers(frames, segs, segs', m.bits);
        forall other | other in m.spaces
          ensures SameContents(m.mem, m.spaces[other], Created(m, id, pages, segs').mem, Created(m, id, pages, segs').spaces[other])
        {
          LoadIsolated(m, id, pages, segs', other);
        }
      }
    } else {
      var k, i, q :| 0 <= k < |segs| && Covers(frames, segs[k], i, q) && 0 <= q < MemorySize && m.bits[q / PageSize];
      var segs', other := LoadDisturbs(m, id, pages, segs, k, i, q);
      assert !Undisturbed(m, id, pages, segs');
    }
  }

  /** Segments that start at address 0 land in the new space's own frames. */
  lemma ZeroAddressLands(m: Memory, pages: nat, segs: seq<Segment>)
    requires Shape(m) && AllFit(segs, pages) && pages <= ClearCount(m.bits)
    requires forall k :: 0 <= k < |segs| ==> segs[k].virtualAddr == 0
    ensures LandsFree(m.bits, TakeClear(m.bits, pages).0, segs)
  {
    TakeClearMarks(m.bits, pages);
    var frames := TakeClear(m.bits, pages).0;
    forall k, i, q | 0 <= k < |segs| && Covers(frames, segs[k], i, q) && 0 <= q < MemorySize ensures !m.bits[q / PageSize] {
      assert !m.bits[frames[i]];
      FrameAddress(frames[i], 0, q - frames[i] * PageSize);
    }
  }

  // Whole runs.

  datatype Op = Create(id: nat, pages: nat, segs: seq<Segment>) | Destroy(id: nat) | Write(id: nat, addr: int, size: int, value: bv32)

  ghost predicate Enabled(m: Memory, op: Op) {
    match op
    case Create(id, pages, segs) => id !in m.spaces && AllFit(segs, pages)
    case Destroy(id) => id in m.spaces
    case Write(id, addr, size, value) => id in m.spaces && ValidAddress(addr) && ValidSize(size)
  }

  /** A creation whose copies land in free frames; other operations copy nothing. */
  ghost predicate Lands(m: Memory, op: Op)
    requires Shape(m) && Enabled(m, op)
  {
    op.Create? && op.pages <= ClearCount(m.bits) ==> LandsFree(m.bits, TakeClear(m.bits, op.pages).0, op.segs)
  }

  ghost function Apply(m: Memory, op: Op): (m': Memory)
    requires Ownership(m) && Enabled(m, op)
    ensures Ownership(m')
  {
    match op
    case Create(id, pages, segs) => CreateKeepsOwnership(m, id, pages, segs); Created(m, id, pages, segs)
    case Destroy(id) => DestroyKeepsOwnership(m, id); Destroyed(m, id)
    case Write(id, addr, size, value) => WriteKeepsOwnership(m, id, addr, size, value); Written(m, id, addr, size, value)
  }

  /** The last state of a run, in which ownership is exact like in all before. The source never creates
      one space twice, destroys one twice, or runs a program without a space. */
  ghost function Run(m: Memory, ops: seq<Op>): (r: Memory)
    requires Ownership(m) && Runs(m, ops)
    ensures Ownership(r)
    decreases |ops|
  {
    if ops == [] then m else Run(Apply(m, ops[0]), ops[1..])
  }

  ghost predicate Runs(m: Memory, ops: seq<Op>)
    requires Ownership(m)
    decreases |ops|
  {
    ops == [] || (Enabled(m, ops[0]) && Runs(Apply(m, ops[0]), ops[1..]))
  }

  ghost predicate RunLands(m: Memory, ops: seq<Op>)
    requires Ownership(m) && Runs(m, ops)
    decreases |ops|
  {
    ops == [] || (Lands(m, ops[0]) && RunLands(Apply(m, ops[0]), ops[1..]))
  }

  lemma StepIsolated(m: Memory, op: Op, other: nat)
    requires Ownership(m) && Enabled(m, op) && Lands(m, op) && other in m.spaces && op.id != other
    ensures other in Apply(m, op).spaces && SameContents(m.mem, m.spaces[other], Apply(m, op).mem, Apply(m, op).spaces[other])
  {
    match op
    case Create(id, pages, segs) => LoadIsolated(m, id, pages, segs, other);
    case Destroy(id) =>
    case Write(id, addr, size, value) => WriteIsolated(m, id, addr, size, value, other);
  }

  lemma SameContentsTransitive(m: Memory, m1: Memory, m2: Memory, id: nat)
    requires Shape(m) && Shape(m1) && Shape(m2) && id in m.spaces && id in m1.spaces && id in m2.spaces
    requires SameContents(m.mem, m.spaces[id], m1.mem, m1.spaces[id]) && SameContents(m1.mem, m1.spaces[id], m2.mem, m2.spaces[id])
    ensures SameContents(m.mem, m.spaces[id], m2.mem, m2.spaces[id])
  {
  }

  /** Isolation over whole runs: whatever the others create, destroy and write, as long as the programs
      created are copied into free frames, a process that itself does nothing finds all its memory as it
      left it. */
  lemma {:induction false} RunIsolated(m: Memory, ops: seq<Op>, other: nat)
    requires Ownership(m) && Runs(m, ops) && RunLands(m, ops) && other in m.spaces
    requires forall k :: 0 <= k < |ops| ==> ops[k].id != other
    ensures other in Run(m, ops).spaces
    ensures SameContents(m.mem, m.spaces[other], Run(m, ops).mem, Run(m, ops).spaces[other])
    decreases |ops|
  {
    hide Ownership, SameContents, Apply, Lands;
    if ops != [] {
      var m' := Apply(m, ops[0]);
      StepIsolated(m, ops[0], other);
      RunIsolated(m', ops[1..], other);
      OwnershipShape(m);
      OwnershipShape(m');
      OwnershipShape(Run(m', ops[1..]));
      SameContentsTransitive(m, m', Run(m', ops[1..]), other);
    } else {
      OwnershipShape(m);
      SameContentsItself(m, other);
    }
  }

  lemma OwnershipShape(m: Memory)
    requires Ownership(m)
    ensures Shape(m)
  {
  }

  lemma SameContentsItself(m: Memory, id: nat)
    requires Shape(m) && id in m.spaces
    ensures SameContents(m.mem, m.spaces[id], m.mem, m.spaces[id])
  {
  }

  /** Destroying the space just created gives every frame back, and no other; what was copied stays. */
  lemma CreateThenDestroy(m: Memory, id: nat, pages: nat, segs: seq<Segment>)
    requires Ownership(m) && id !in m.spaces && AllFit(segs, pages)
    ensures Ownership(Created(m, id, pages, segs))
    ensures Destroyed(Created(m, id, pages, segs), id) == m.(mem := Created(m, id, pages, segs).mem)
  {
    CreateKeepsOwnership(m, id, pages, segs);
    hide Ownership, Loaded;
    var pt := Allocated(m, id, pages).spaces[id];
    assert m.spaces[id := pt] - {id} == m.spaces;
    if pages <= ClearCount(m.bits) {
      FramesOfNew(TakeClear(m.bits, pages).0);
      TakeThenClear(m.bits, pages);
    } else {
      FramesOfNew([]);
    }
  }

  lemma FramesOfNew(found: seq<int>)
    ensures FramesOf(NewTable(found)) == found
  {
  }

  /** The bitmap has more bits than memory has frames, so a space can be given frames that do not
      exist. It is not, exactly when enough frames of real memory were free. */
  lemma AllocateInMemoryIff(m: Memory, id: nat, pages: nat)
    requires Shape(m) && pages <= ClearCount(m.bits)
    ensures AllBelow(FramesOf(Allocated(m, id, pages).spaces[id]), NumPhysPages) <==> pages <= ClearCount(m.bits[..NumPhysPages])
  {
    FramesOfNew(TakeClear(m.bits, pages).0);
    TakeClearBelow(m.bits, pages, NumPhysPages);
  }

  /** At boot nothing is allocated, whatever is in memory. */
  ghost function Booted(mem: seq<bv8>): (m: Memory)
    requires |mem| == MemorySize
    ensures Ownership(m)
  {
    Memory(seq(FrameBits, f => false), map[], mem)
  }

  /** So, from boot on, ownership is exact throughout, and a process finds its memory as it left it over
      any stretch of the run in which others are created in free frames, destroyed and run. */
  lemma BootRunIsolated(mem: seq<bv8>, before: seq<Op>, ops: seq<Op>, other: nat)
    requires |mem| == MemorySize && Runs(Booted(mem), before) && Runs(Run(Booted(mem), before), ops)
    requires RunLands(Run(Booted(mem), before), ops) && other in Run(Booted(mem), before).spaces
    requires forall k :: 0 <= k < |ops| ==> ops[k].id != other
    ensures var m, m' := Run(Booted(mem), before), Run(Run(Booted(mem), before), ops);
            && Ownership(m) && Ownership(m') && other in m'.spaces
            && SameContents(m.mem, m.spaces[other], m'.mem, m'.spaces[other])
  {
    hide Booted, Run, Ownership;
    RunIsolated(Run(Booted(mem), before), ops, other);
    OwnershipShape(Run(Booted(mem), before));
    OwnershipShape(Run(Run(Booted(mem), before), ops));
  }

  /** The first allocation takes the lowest frames, all of them. */
  lemma FirstTaken(bits: seq<bool>, n: nat)
    requires n <= |bits| && forall f :: 0 <= f < |bits| ==> !bits[f]
    ensures ClearCount(bits) == |bits| && ClearCount(TakeClear(bits, n).1) == |bits| - n
    ensures ClearCount(TakeClear(bits, n).1[..n]) == 0
  {
    AllClearCount(bits);
    AllClearCount(bits[..n]);
    var (found, after) := TakeClear(bits, n);
    TakeClearMarks(bits, n);
    TakeClearBelow(bits, n, n);
    AllClearCount(after[n..]);
    ClearCountSplit(after, n);
  }

  /** So, from boot, two programs that together need more than memory are both accepted, and the
      second is given a frame that does not exist. */
  lemma AllocateOutsideMemory(mem: seq<bv8>, first: nat, second: nat)
    requires |mem| == MemorySize && first <= NumPhysPages && second <= NumPhysPages && first + second > NumPhysPages
    ensures first <= ClearCount(Booted(mem).bits) && second <= ClearCount(Allocated(Booted(mem), 0, first).bits)
    ensures !AllBelow(FramesOf(Allocated(Allocated(Booted(mem), 0, first), 1, second).spaces[1]), NumPhysPages)
  {
    FirstTaken(Booted(mem).bits, first);
    var m1 := Allocated(Booted(mem), 0, first);
    var low := m1.bits[..NumPhysPages];
    ClearCountSplit(low, first);
    assert low[..first] == m1.bits[..first];
    CountAtMost(low[first..]);
    AllocateInMemoryIff(m1, 1, second);
  }

  lemma {:induction false} CountAtMost(bits: seq<bool>)
    ensures ClearCount(bits) <= |bits|
  {
    if bits != [] {
      CountAtMost(bits[..|bits| - 1]);
    }
  }

  // A run in which the copies of one program overwrite another.

  /** First fit from the first clear bit on, where the bits after it are clear too. */
  lemma {:induction false} TakeStretch(bits: seq<bool>, n: nat, lo: nat)
    requires lo + n <= |bits| && (forall j :: 0 <= j < lo ==> bits[j]) && forall j :: lo <= j < lo + n ==> !bits[j]
    ensures n <= ClearCount(bits) && TakeClear(bits, n).0 == seq(n, i => lo + i)
    ensures forall j :: 0 <= j < |bits| ==> (TakeClear(bits, n).1[j] <==> bits[j] || lo <= j < lo + n)
    decreases n
  {
    if n > 0 {
      var f := FirstClear(bits, 0);
      assert !bits[lo] && f != -1 && !bits[f];
      assert f == lo;
      ClearCountUpdate(bits, lo, true);
      TakeStretch(bits[lo := true], n - 1, lo + 1);
      assert [lo] + seq(n - 1, i => lo + 1 + i) == seq(n, i => lo + i);
    }
  }

  /** A space in the n frames from lo on, zeroed. */
  lemma AllocateStretch(m: Memory, id: nat, n: nat, lo: nat)
    requires Shape(m) && lo + n <= FrameBits && (forall j :: 0 <= j < lo ==> m.bits[j]) && forall j :: lo <= j < lo + n ==> !m.bits[j]
    ensures n <= ClearCount(m.bits) && TakeClear(m.bits, n).0 == seq(n, i => lo + i)
    ensures var m' := Allocated(m, id, n);
            && (forall j :: 0 <= j < FrameBits ==> (m'.bits[j] <==> m.bits[j] || lo <= j < lo + n))
            && m'.spaces == m.spaces[id := NewTable(seq(n, i => lo + i))]
            && (forall q :: 0 <= q < MemorySize ==> m'.mem[q] == if lo <= q / PageSize < lo + n then 0 else m.mem[q])
  {
    TakeStretch(m.bits, n, lo);
    var found := seq(n, i => lo + i);
    forall f ensures f in found <==> lo <= f < lo + n {
      if lo <= f < lo + n { assert found[f - lo] == f; }
    }
  }

  lemma RunThree(m: Memory, a: Op, b: Op, c: Op)
    requires Ownership(m) && Enabled(m, a) && Enabled(Apply(m, a), b) && Enabled(Apply(Apply(m, a), b), c)
    ensures Runs(m, [a, b, c]) && Run(m, [a, b, c]) == Apply(Apply(Apply(m, a), b), c)
  {
    hide Apply, Ownership, Enabled;
    var ops := [a, b, c];
    assert ops[1..] == [b, c] && ops[1..][1..] == [c] && ops[1..][1..][1..] == [];
    var m1 := Apply(m, a);
    var m2 := Apply(m1, b);
    assert Run(m2, [c]) == Apply(m2, c) && Runs(m2, [c]);
    assert Run(m1, [b, c]) == Run(m2, [c]) && Runs(m1, [b, c]);
  }

  /** The frames from lo on, n of them. */
  ghost function Stretch(lo: nat, n: nat): seq<int> { seq(n, i => lo + i) }

  /** Two programs of n pages in the lowest frames. */
  ghost predicate TwoPrograms(m: Memory, n: nat) {
    && Shape(m) && (forall j :: 0 <= j < FrameBits ==> (m.bits[j] <==> j < 2 * n))
    && m.spaces == map[0 := NewTable(Stretch(0, n)), 1 := NewTable(Stretch(n, n))]
    && forall q :: 0 <= q < MemorySize && n <= q / PageSize < 2 * n ==> m.mem[q] == 0
  }

  /** The first one gone: its frames are free again and those of the second are not. */
  ghost predicate SecondAlone(m: Memory, n: nat) {
    && Shape(m) && (forall j :: 0 <= j < FrameBits ==> (m.bits[j] <==> n <= j < 2 * n))
    && m.spaces == map[1 := NewTable(Stretch(n, n))]
    && forall q :: 0 <= q < MemorySize && n <= q / PageSize < 2 * n ==> m.mem[q] == 0
  }

  lemma ReachTwoPrograms(mem: seq<bv8>, n: nat)
    requires |mem| == MemorySize && 0 < n && 2 * n <= NumPhysPages
    ensures Enabled(Booted(mem), Create(0, n, [])) && Enabled(Apply(Booted(mem), Create(0, n, [])), Create(1, n, []))
    ensures TwoPrograms(Apply(Apply(Booted(mem), Create(0, n, [])), Create(1, n, [])), n)
  {
    hide Ownership, NewTable, TakeClear;
    var m0 := Booted(mem);
    AllocateStretch(m0, 0, n, 0);
    var m1 := Apply(m0, Create(0, n, []));
    assert m1 == Allocated(m0, 0, n);
    OwnershipShape(m1);
    AllocateStretch(m1, 1, n, n);
    var m2 := Apply(m1, Create(1, n, []));
    assert m2 == Allocated(m1, 1, n);
  }

  lemma ReachSecondAlone(m: Memory, n: nat)
    requires Ownership(m) && 0 < n && 2 * n <= NumPhysPages && TwoPrograms(m, n)
    ensures Enabled(m, Destroy(0)) && SecondAlone(Apply(m, Destroy(0)), n)
  {
    FramesOfNew(Stretch(0, n));
    StretchHas(0, n);
    hide NewTable, FramesOf, Ownership, Stretch;
    var m' := Destroyed(m, 0);
    assert m'.spaces == map[1 := NewTable(Stretch(n, n))];
    assert m'.bits == ClearAll(m.bits, Stretch(0, n));
  }

  lemma StretchHas(lo: nat, n: nat)
    ensures forall f :: f in Stretch(lo, n) <==> lo <= f < lo + n
  {
    forall f | lo <= f < lo + n ensures f in Stretch(lo, n) { assert Stretch(lo, n)[f - lo] == f; }
  }

  /** A segment of n pages of ones that belongs n pages into the program. */
  ghost function Ones(n: nat): (seg: Segment)
    ensures Fits(seg, n) && AllBytes(seg, 1)
  {
    Segment(n * PageSize, seq(n, i => seq(PageSize, j => 1)))
  }

  /** A third program takes the place of the first, and its segment overwrites the second. */
  lemma ThirdOverwrites(m: Memory, n: nat)
    requires Ownership(m) && 0 < n && 2 * n <= NumPhysPages && SecondAlone(m, n)
    ensures Enabled(m, Create(2, n, [Ones(n)]))
    ensures var m' := Apply(m, Create(2, n, [Ones(n)]));
            m'.spaces[1 := m.spaces[1]] == m'.spaces && m'.mem[n * PageSize] == 1
  {
    hide Ownership, NewTable, TakeClear;
    AllocateStretch(m, 2, n, 0);
    var frames, segs, q := Stretch(0, n), [Ones(n)], n * PageSize;
    assert TakeClear(m.bits, n).0 == frames;
    assert Covers(frames, segs[0], 0, q);
    LoadedByte(Allocated(m, 2, n).mem, frames, segs, 1, q, 1);
  }

  lemma FirstByteOf(m: Memory, n: nat)
    requires Shape(m) && 0 < n && 2 * n <= NumPhysPages && 1 in m.spaces && m.spaces[1] == NewTable(Stretch(n, n))
    ensures Readable(m.spaces[1], 0) && VirtualByte(m.mem, m.spaces[1], 0) == m.mem[n * PageSize]
  {
  }

  /** A run from boot after which the creation of one program changes what another reads: 0 at its
      address 0 becomes 1. */
  lemma LoaderDisturbsOther(mem: seq<bv8>, n: nat) returns (before: seq<Op>, op: Op)
    requires |mem| == MemorySize && 0 < n && 2 * n <= NumPhysPages
    ensures Runs(Booted(mem), before) && Enabled(Run(Booted(mem), before), op) && op.Create?
    ensures var m, m' := Run(Booted(mem), before), Apply(Run(Booted(mem), before), op);
            && |m.mem| == |m'.mem| == MemorySize && 1 in m.spaces && 1 in m'.spaces && op.id != 1
            && Readable(m.spaces[1], 0) && Readable(m'.spaces[1], 0)
            && VirtualByte(m.mem, m.spaces[1], 0) == 0 && VirtualByte(m'.mem, m'.spaces[1], 0) == 1
  {
    hide Ownership, Apply, Run, Booted, Readable, VirtualByte;
    before, op := [Create(0, n, []), Create(1, n, []), Destroy(0)], Create(2, n, [Ones(n)]);
    ReachTwoPrograms(mem, n);
    var m2 := Apply(Apply(Booted(mem), Create(0, n, [])), Create(1, n, []));
    ReachSecondAlone(m2, n);
    RunThree(Booted(mem), Create(0, n, []), Create(1, n, []), Destroy(0));
    var m := Apply(m2, Destroy(0));
    ThirdOverwrites(m, n);
    OwnershipShape(Apply(m, op));
    FirstByteOf(m, n);
    FirstByteOf(Apply(m, op), n);
  }
}

/** Creating and destroying address spaces, on the machine's own memory. */
module AddrSpaces {
  import opened BitSpec
  import opened Bitmaps
  import opened Paging
  import opened FrameSpec
  import opened UnalignedSpec
  import opened Machines

  class Kernel {
    const frames: Bitmap
    const machine: Machine
    var spaces: map<nat, seq<TranslationEntry>>

    constructor ()
      ensures Valid() && fresh(Repr()) && View() == Booted(machine.mainMemory[..])
    {
      frames := new Bitmap(FrameBits);
      machine := new Machine([]);
      spaces := map[];
    }

    ghost function Repr(): set<object> {
      {this, frames.words, machine, machine.registers, machine.mainMemory}
    }

    ghost predicate Sound()
      reads this, frames, Repr()
    {
      && frames.Valid() && frames.numBits == FrameBits && machine.Valid()
      && frames.words != machine.registers
    }

    ghost function View(): (m: Memory)
      requires Sound()
      reads this, frames, Repr()
      ensures Shape(m)
    {
      Memory(frames.View(), spaces, machine.mainMemory[..])
    }

    ghost predicate Valid()
      reads this, frames, Repr()
    {
      Sound() && Ownership(View())
    }

    /** Take the frames and zero them, page by page. */
    method TakeFrames(numPages: nat) returns (pageTable: seq<TranslationEntry>)
      requires Sound() && numPages <= ClearCount(frames.View())
      modifies frames.words, machine.mainMemory
      ensures Sound()
      ensures var (found, after) := TakeClear(old(frames.View()), numPages);
              && pageTable == NewTable(found) && frames.View() == after
              && machine.mainMemory[..] == Zeroed(old(machine.mainMemory[..]), found)
    {
      hide NewTable, Zeroed, TakeClear, Taking;
      ghost var bits, mem := frames.View(), machine.mainMemory[..];
      ghost var found: seq<int> := [];
      NoFrames(mem);
      TakingStarts(bits, numPages);
      pageTable := [];
      for i := 0 to numPages
        invariant Sound() && |found| == i && pageTable == NewTable(found)
        invariant Taking(bits, numPages, found, frames.View())
        invariant machine.mainMemory[..] == Zeroed(mem, found)
      {
        TakingStep(bits, numPages, found, frames.View());
        var frame := frames.FindAndSet();
        OneMoreFrame(mem, found, frame);
        pageTable := pageTable + [TranslationEntry(i, frame, true, false, false, false)];
        ClearFrame(frame);
        found := found + [frame];
      }
      TakingEnds(bits, numPages, found, frames.View());
    }

    method ClearFrame(frame: nat)
      requires machine.mainMemory.Length == MemorySize
      modifies machine.mainMemory
      ensures machine.mainMemory[..] == Zeroed(old(machine.mainMemory[..]), [frame])
    {
      ghost var mem := machine.mainMemory[..];
      if frame < NumPhysPages {
        for k := 0 to PageSize
          invariant forall p :: 0 <= p < MemorySize ==> machine.mainMemory[p] == if frame * PageSize <= p < frame * PageSize + k then 0 else mem[p]
        {
          machine.mainMemory[frame * PageSize + k] := 0;
        }
      }
    }

    /** Copy bytes to a physical address, as far as they fall into main memory. */
    method CopyChunk(p: int, b: seq<bv8>)
      requires machine.mainMemory.Length == MemorySize
      modifies machine.mainMemory
      ensures machine.mainMemory[..] == Poke(old(machine.mainMemory[..]), p, b)
    {
      ghost var mem := machine.mainMemory[..];
      for k := 0 to |b|
        invariant forall q :: 0 <= q < MemorySize ==> machine.mainMemory[q] == if p <= q < p + k then b[q - p] else mem[q]
      {
        if 0 <= p + k < MemorySize {
          machine.mainMemory[p + k] := b[k];
        }
      }
    }

    method CopySegment(pageTable: seq<TranslationEntry>, seg: Segment)
      requires Sound() && Fits(seg, |pageTable|)
      modifies machine.mainMemory
      ensures Sound() && machine.mainMemory[..] == Copied(old(machine.mainMemory[..]), FramesOf(pageTable), seg, |pageTable|)
    {
      ghost var mem, frames := machine.mainMemory[..], FramesOf(pageTable);
      for i := 0 to |pageTable|
        invariant Sound() && machine.mainMemory[..] == Copied(mem, frames, seg, i)
      {
        CopyChunk(pageTable[i].physicalPage * PageSize + seg.virtualAddr, seg.chunks[i]);
      }
    }

    method CopySegments(pageTable: seq<TranslationEntry>, segs: seq<Segment>)
      requires Sound() && AllFit(segs, |pageTable|)
      modifies machine.mainMemory
      ensures Sound() && machine.mainMemory[..] == Loaded(old(machine.mainMemory[..]), FramesOf(pageTable), segs, |segs|)
    {
      ghost var mem, frames := machine.mainMemory[..], FramesOf(pageTable);
      for k := 0 to |segs|
        invariant Sound() && machine.mainMemory[..] == Loaded(mem, frames, segs, k)
      {
        CopySegment(pageTable, segs[k]);
      }
    }

    /** AddrSpace(fileName): the code asserts that the program fits the machine. The segments are those
        of the file with a size above 0, code before data. */
    method CreateSpace(id: nat, programSize: nat, segs: seq<Segment>)
      requires Valid() && id !in spaces && NumPages(programSize) <= NumPhysPages && AllFit(segs, NumPages(programSize))
      modifies this, frames.words, machine.mainMemory
      ensures Valid() && View() == Created(old(View()), id, NumPages(programSize), segs)
    {
      CreateKeepsOwnership(View(), id, NumPages(programSize), segs);
      hide Ownership;
      var numPages := NumPages(programSize);
      var free := frames.NumClear();
      if numPages > free {
        spaces := spaces[id := []];
        return;
      }
      var pageTable := TakeFrames(numPages);
      FramesOfNew(TakeClear(old(frames.View()), numPages).0);
      spaces := spaces[id := pageTable];
      CopySegments(pageTable, segs);
    }

    method ClearFrames(pageTable: seq<TranslationEntry>)
      requires Sound() && forall i :: 0 <= i < |pageTable| ==> 0 <= pageTable[i].physicalPage < FrameBits
      modifies frames.words
      ensures Sound() && frames.View() == ClearAll(old(frames.View()), FramesOf(pageTable))
    {
      ghost var which, bits := FramesOf(pageTable), frames.View();
      for i := 0 to |pageTable|
        invariant Sound() && frames.View() == ClearAll(bits, which[..i])
      {
        frames.Clear(pageTable[i].physicalPage);
        assert which[..i + 1][..i] == which[..i];
      }
      assert which[..|pageTable|] == which;
    }

    method DestroySpace(id: nat)
      requires Valid() && id in spaces
      modifies this, frames.words
      ensures Valid() && View() == Destroyed(old(View()), id)
    {
      DestroyKeepsOwnership(View(), id);
      ClearFrames(spaces[id]);
      spaces := spaces - {id};
      assert View() == Destroyed(old(View()), id);
    }

    /** A store by the program that owns the space: its page table is the machine's, so the bits the
        hardware sets stay in it. */
    method Store(id: nat, addr: int, size: int, value: bv32) returns (ok: bool)
      requires Valid() && id in spaces && ValidAddress(addr) && ValidSize(size)
      modifies this, machine, machine.registers, machine.mainMemory
      ensures Valid() && View() == Written(old(View()), id, addr, size, value)
      ensures ok == Translate(old(spaces[id]), addr, size, true).Physical?
    {
      WriteKeepsOwnership(View(), id, addr, size, value);
      hide Ownership, Translate, Touch, Stored, ValueBytes, Address;
      assert spaces[id := spaces[id]] == spaces;
      machine.pageTable := spaces[id];
      ok := machine.WriteMem(addr, size, value);
      spaces := spaces[id := machine.pageTable];
    }
  }
}

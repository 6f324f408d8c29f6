/** File headers (filesys/filehdr.cc): the table from a file's bytes to disk sectors. */
module FileHeaders {
  import opened Layout
  import opened Storage
  import opened BitSpec
  import opened Bitmaps

  const NumDirect: int := 30
  const MaxFileSize: int := 3840

  datatype Header = Header(numBytes: int, numSectors: int, dataSectors: seq<int>) {
    /** The data sectors in use. */
    function Data(): seq<int>
      requires 0 <= numSectors <= |dataSectors|
    {
      dataSectors[..numSectors]
    }
  }

  /** divRoundUp(n, SectorSize) */
  function SectorsFor(n: int): (sectors: int)
    ensures (sectors - 1) * SectorSize < n <= sectors * SectorSize
  {
    n / SectorSize + if n % SectorSize > 0 then 1 else 0
  }

  ghost predicate Storable(h: Header) {
    && IsInt32(h.numBytes) && IsInt32(h.numSectors) && |h.dataSectors| == NumDirect
    && (forall i :: 0 <= i < NumDirect ==> IsInt32(h.dataSectors[i]))
  }

  /** A header that describes a file on the disk. */
  ghost predicate HeaderOk(h: Header) {
    && Storable(h)
    && 0 <= h.numBytes <= MaxFileSize && h.numSectors == SectorsFor(h.numBytes)
    && (forall i :: 0 <= i < h.numSectors ==> 0 <= h.dataSectors[i] < NumSectors)
    && Distinct(h.Data())
  }

  /** A header stored in a sector, and read back. */
  function HeaderBytes(h: Header): (s: seq<byte>)
    requires Storable(h)
    ensures |s| == SectorSize
  {
    IntsBytes([h.numBytes, h.numSectors] + h.dataSectors)
  }

  function BytesHeader(s: seq<byte>): (h: Header)
    requires |s| == SectorSize
    ensures Storable(h)
  {
    var xs := BytesInts(s);
    Header(xs[0], xs[1], xs[2..])
  }

  lemma HeaderRoundTrip(h: Header)
    requires Storable(h)
    ensures BytesHeader(HeaderBytes(h)) == h
  {
    IntsRoundTrip([h.numBytes, h.numSectors] + h.dataSectors);
  }

  /** The file's bytes: its data sectors one after the other, cut to its length. */
  ghost function FileBytes(d: Image, h: Header): (f: seq<byte>)
    requires ValidImage(d) && HeaderOk(h)
    ensures |f| == h.numBytes
    ensures forall i :: 0 <= i < |f| ==> f[i] == d[h.dataSectors[i / SectorSize]][i % SectorSize]
  {
    seq(h.numBytes, i requires 0 <= i < h.numBytes => d[h.dataSectors[i / SectorSize]][i % SectorSize])
  }

  /** Two images that agree on a file's data sectors hold the same file. */
  lemma FileBytesFrame(d: Image, d': Image, h: Header)
    requires ValidImage(d) && ValidImage(d') && HeaderOk(h)
    requires forall s :: s in h.Data() ==> d'[s] == d[s]
    ensures FileBytes(d', h) == FileBytes(d, h)
  {
    forall i | 0 <= i < h.numBytes
      ensures d'[h.dataSectors[i / SectorSize]] == d[h.dataSectors[i / SectorSize]]
    {
      assert h.Data()[i / SectorSize] in h.Data();
    }
  }

  class FileHeader {
    var numBytes: int
    var numSectors: int
    var dataSectors: seq<int>

    function View(): Header
      reads this
    {
      Header(numBytes, numSectors, dataSectors)
    }

    /** A header in memory that has not been filled in yet: its ints are arbitrary. */
    constructor ()
      ensures Storable(View())
    {
      var junk := new int32[NumDirect];
      var size: int32, sectors: int32 := *, *;
      numBytes, numSectors, dataSectors := size, sectors, junk[..];
    }

    /** Take the first clear sectors for a file of the given size, or nothing when there are not
        enough of them. */
    method Allocate(freeMap: Bitmap, fileSize: int) returns (ok: bool)
      requires freeMap.Valid() && 0 <= fileSize <= MaxFileSize && |dataSectors| == NumDirect
      modifies this, freeMap.words
      ensures ok <==> SectorsFor(fileSize) <= ClearCount(old(freeMap.View()))
      ensures numBytes == fileSize && numSectors == SectorsFor(fileSize) && |dataSectors| == NumDirect
      ensures !ok ==> freeMap.View() == old(freeMap.View())
      ensures ok ==> (View().Data(), freeMap.View()) == TakeClear(old(freeMap.View()), SectorsFor(fileSize))
      ensures ok ==> dataSectors[numSectors..] == old(dataSectors)[numSectors..]
    {
      numBytes := fileSize;
      numSectors := SectorsFor(fileSize);
      var clear := freeMap.NumClear();
      if clear < numSectors {
        return false;
      }
      TakeSectors(freeMap);
      return true;
    }

    /** Allocate's loop. */
    method TakeSectors(freeMap: Bitmap)
      requires freeMap.Valid() && 0 <= numSectors <= NumDirect == |dataSectors|
      requires numSectors <= ClearCount(freeMap.View())
      modifies `dataSectors, freeMap.words
      ensures |dataSectors| == NumDirect && dataSectors[numSectors..] == old(dataSectors)[numSectors..]
      ensures (View().Data(), freeMap.View()) == TakeClear(old(freeMap.View()), numSectors)
    {
      ghost var bits, n: nat := freeMap.View(), numSectors;
      TakingStarts(bits, n);
      var i := 0;
      while i < numSectors
        invariant 0 <= i <= numSectors && |dataSectors| == NumDirect
        invariant Taking(bits, n, dataSectors[..i], freeMap.View())
        invariant dataSectors[i..] == old(dataSectors)[i..]
      {
        TakingStep(bits, n, dataSectors[..i], freeMap.View());
        var s := freeMap.FindAndSet();
        FillNext(dataSectors, i, s);
        dataSectors := dataSectors[i := s];
        i := i + 1;
      }
      TakingEnds(bits, n, View().Data(), freeMap.View());
    }

    /** Give the data sectors back. Each is asserted to be marked when its turn comes. */
    method Deallocate(freeMap: Bitmap)
      requires freeMap.Valid() && freeMap.numBits == NumSectors && HeaderOk(View())
      requires forall s :: s in View().Data() ==> freeMap.View()[s]
      modifies freeMap.words
      ensures freeMap.View() == ClearAll(old(freeMap.View()), View().Data())
    {
      var i := 0;
      ghost var data := View().Data();
      while i < numSectors
        invariant 0 <= i <= numSectors && freeMap.Valid()
        invariant freeMap.View() == ClearAll(old(freeMap.View()), data[..i])
      {
        assert data[i] == dataSectors[i] && data[i] !in data[..i];
        var marked := freeMap.Test(dataSectors[i]);
        assert marked;      // ASSERT(freeMap->Test(dataSectors[i]))
        freeMap.Clear(dataSectors[i]);
        assert data[..i + 1][..i] == data[..i];
        i := i + 1;
      }
      assert data[..i] == data;
    }

    method FetchFrom(disk: SynchDisk, sector: int)
      requires disk.Valid() && 0 <= sector < NumSectors
      modifies this
      ensures View() == BytesHeader(disk.sectors[sector])
    {
      var buf := new byte[SectorSize];
      disk.ReadSector(sector, buf, 0);
      assert buf[..] == disk.sectors[sector];
      var h := BytesHeader(buf[..]);
      numBytes, numSectors, dataSectors := h.numBytes, h.numSectors, h.dataSectors;
    }

    method WriteBack(disk: SynchDisk, sector: int)
      requires disk.Valid() && 0 <= sector < NumSectors && Storable(View())
      modifies disk
      ensures disk.Valid() && disk.sectors == old(disk.sectors)[sector := HeaderBytes(View())]
    {
      var s := HeaderBytes(View());
      var buf := new byte[SectorSize](i requires 0 <= i < SectorSize => s[i]);
      assert buf[0..SectorSize] == s;
      disk.WriteSector(sector, buf, 0);
    }

    function ByteToSector(offset: int): int
      reads this
      requires 0 <= offset / SectorSize < |dataSectors|
    {
      dataSectors[offset / SectorSize]
    }
  }
}

/** Reading and writing any part of a file (filesys/openfile.cc), on a disk that only moves whole
    sectors. */
module OpenFiles {
  import opened Layout
  import opened Storage
  import opened FileHeaders

  /** How many bytes a request for numBytes at position transfers. */
  function Clamp(length: int, numBytes: int, position: int): (n: int)
    ensures 0 <= n && (n > 0 ==> n <= numBytes && position + n <= length)
  {
    if numBytes <= 0 || position >= length then 0
    else if position + numBytes > length then length - position
    else numBytes
  }

  /** No larger count stays within both the request and the file. */
  lemma ClampIsLargest(length: int, numBytes: int, position: int, k: int)
    requires 0 <= k <= numBytes && position + k <= length
    ensures k <= Clamp(length, numBytes, position)
  {
  }

  /** The byte at offset g of a file, or of the slack at the end of its last sector. */
  ghost function SectorByte(d: Image, h: Header, g: int): byte
    requires ValidImage(d) && HeaderOk(h) && 0 <= g < h.numSectors * SectorSize
  {
    d[h.dataSectors[g / SectorSize]][g % SectorSize]
  }

  /** A file with bytes b written at a position inside it. */
  ghost function Splice(f: seq<byte>, position: int, b: seq<byte>): (r: seq<byte>)
    requires b == [] || 0 <= position <= position + |b| <= |f|
    ensures |r| == |f|
  {
    if b == [] then f else f[..position] + b + f[position + |b|..]
  }

  /** A buffer filled with whole sectors contains the part of the file asked for. */
  lemma SliceOfSectors(d: Image, h: Header, buf: seq<byte>, firstSector: int, position: int, n: int)
    requires ValidImage(d) && HeaderOk(h) && 0 <= position < position + n <= h.numBytes
    requires firstSector == position / SectorSize
    requires firstSector * SectorSize + |buf| <= h.numSectors * SectorSize && position + n <= firstSector * SectorSize + |buf|
    requires forall k :: 0 <= k < |buf| ==> buf[k] == SectorByte(d, h, firstSector * SectorSize + k)
    ensures var start := position - firstSector * SectorSize;
            buf[start..start + n] == FileBytes(d, h)[position..position + n]
  {
    var start := position - firstSector * SectorSize;
    var got, want := buf[start..start + n], FileBytes(d, h)[position..position + n];
    forall t | 0 <= t < n
      ensures got[t] == want[t]
    {
      assert firstSector * SectorSize + (start + t) == position + t;
    }
  }

  /** What WriteAt puts in its buffer: the new bytes where they go, and around them the bytes of the
      file that share a sector with them. Slack past the end of the file may be anything. */
  ghost predicate Assembled(d: Image, h: Header, buf: seq<byte>, firstSector: int, position: int, b: seq<byte>)
    requires ValidImage(d) && HeaderOk(h) && 0 <= firstSector
    requires firstSector * SectorSize + |buf| <= h.numSectors * SectorSize
  {
    forall k :: 0 <= k < |buf| ==>
      var g := firstSector * SectorSize + k;
      if position <= g < position + |b| then buf[k] == b[g - position]
      else g < h.numBytes ==> buf[k] == SectorByte(d, h, g)
  }

  lemma CopyAssembles(d: Image, h: Header, around: seq<byte>, buf: seq<byte>, firstSector: int, position: int, b: seq<byte>)
    requires ValidImage(d) && HeaderOk(h) && 0 <= firstSector && firstSector * SectorSize <= position
    requires firstSector * SectorSize + |around| <= h.numSectors * SectorSize && position + |b| <= firstSector * SectorSize + |around|
    requires forall k :: 0 <= k < |around| && firstSector * SectorSize + k < position ==>
               around[k] == SectorByte(d, h, firstSector * SectorSize + k)
    requires forall k :: 0 <= k < |around| && position + |b| <= firstSector * SectorSize + k < h.numBytes ==>
               around[k] == SectorByte(d, h, firstSector * SectorSize + k)
    requires var o := position - firstSector * SectorSize; buf == around[..o] + b + around[o + |b|..]
    ensures Assembled(d, h, buf, firstSector, position, b)
  {
  }

  /** The disk after the buffer's sectors have been written to the file's sectors from firstSector. */
  ghost predicate SectorsWritten(d: Image, d': Image, h: Header, buf: seq<byte>, firstSector: int, end: int)
    requires ValidImage(d) && ValidImage(d') && HeaderOk(h) && 0 <= firstSector <= end <= h.numSectors
    requires (end - firstSector) * SectorSize <= |buf|
  {
    && (forall j :: firstSector <= j < end ==>
          d'[h.dataSectors[j]] == buf[(j - firstSector) * SectorSize..(j - firstSector) * SectorSize + SectorSize])
    && (forall s :: 0 <= s < NumSectors && !Among(h, firstSector, end, s) ==> d'[s] == d[s])
  }

  ghost predicate Among(h: Header, firstSector: int, end: int, s: int)
    requires 0 <= firstSector <= end <= |h.dataSectors|
  {
    exists j :: firstSector <= j < end && h.dataSectors[j] == s
  }

  lemma WriteOneMore(d: Image, d': Image, h: Header, buf: seq<byte>, firstSector: int, i: int)
    requires ValidImage(d) && ValidImage(d') && HeaderOk(h) && 0 <= firstSector <= i < h.numSectors
    requires (i + 1 - firstSector) * SectorSize <= |buf|
    requires SectorsWritten(d, d', h, buf, firstSector, i)
    ensures var chunk := buf[(i - firstSector) * SectorSize..(i - firstSector) * SectorSize + SectorSize];
            ValidImage(d'[h.dataSectors[i] := chunk])
            && SectorsWritten(d, d'[h.dataSectors[i] := chunk], h, buf, firstSector, i + 1)
  {
    assert forall j :: firstSector <= j < i ==> h.Data()[j] != h.Data()[i];
    assert Among(h, firstSector, i + 1, h.dataSectors[i]);
    forall s | !Among(h, firstSector, i + 1, s)
      ensures !Among(h, firstSector, i, s)
    {
    }
  }

  /** Writing the assembled buffer back is a splice of the file's bytes. */
  lemma WriteIsSplice(d: Image, d': Image, h: Header, buf: seq<byte>, firstSector: int, end: int, position: int, b: seq<byte>)
    requires ValidImage(d) && ValidImage(d') && HeaderOk(h) && 0 <= firstSector < end <= h.numSectors
    requires |buf| == (end - firstSector) * SectorSize && b != []
    requires firstSector * SectorSize <= position && position + |b| <= end * SectorSize && position + |b| <= h.numBytes
    requires Assembled(d, h, buf, firstSector, position, b)
    requires SectorsWritten(d, d', h, buf, firstSector, end)
    ensures FileBytes(d', h) == Splice(FileBytes(d, h), position, b)
  {
    var f, want := FileBytes(d, h), Splice(FileBytes(d, h), position, b);
    forall g | 0 <= g < h.numBytes
      ensures FileBytes(d', h)[g] == want[g]
    {
      SpliceByte(f, position, b, g);
      if firstSector <= g / SectorSize < end {
        ByteInside(d, d', h, buf, firstSector, end, position, b, g);
      } else {
        ByteOutside(d, d', h, buf, firstSector, end, g);
      }
    }
  }

  lemma SpliceByte(f: seq<byte>, position: int, b: seq<byte>, g: int)
    requires b != [] && 0 <= position <= position + |b| <= |f| && 0 <= g < |f|
    ensures Splice(f, position, b)[g] == if position <= g < position + |b| then b[g - position] else f[g]
  {
  }

  lemma ByteInside(d: Image, d': Image, h: Header, buf: seq<byte>, firstSector: int, end: int, position: int, b: seq<byte>, g: int)
    requires ValidImage(d) && ValidImage(d') && HeaderOk(h) && 0 <= firstSector < end <= h.numSectors
    requires |buf| == (end - firstSector) * SectorSize
    requires Assembled(d, h, buf, firstSector, position, b)
    requires SectorsWritten(d, d', h, buf, firstSector, end)
    requires 0 <= g < h.numBytes && firstSector <= g / SectorSize < end
    ensures SectorByte(d', h, g) == if position <= g < position + |b| then b[g - position] else SectorByte(d, h, g)
  {
    var k := g - firstSector * SectorSize;
    ByteOfBuffer(d, d', h, buf, firstSector, end, g);
    AssembledByte(d, h, buf, firstSector, position, b, k);
  }

  lemma ByteOfBuffer(d: Image, d': Image, h: Header, buf: seq<byte>, firstSector: int, end: int, g: int)
    requires ValidImage(d) && ValidImage(d') && HeaderOk(h) && 0 <= firstSector < end <= h.numSectors
    requires |buf| == (end - firstSector) * SectorSize
    requires SectorsWritten(d, d', h, buf, firstSector, end)
    requires 0 <= g < h.numBytes && firstSector <= g / SectorSize < end
    ensures SectorByte(d', h, g) == buf[g - firstSector * SectorSize]
  {
    var c, r := g / SectorSize - firstSector, g % SectorSize;
    ChunkByte(buf, c, r);
    assert d'[h.dataSectors[g / SectorSize]] == buf[c * SectorSize..c * SectorSize + SectorSize];
    assert c * SectorSize + r == g - firstSector * SectorSize;
  }

  lemma AssembledByte(d: Image, h: Header, buf: seq<byte>, firstSector: int, position: int, b: seq<byte>, k: int)
    requires ValidImage(d) && HeaderOk(h) && 0 <= firstSector
    requires firstSector * SectorSize + |buf| <= h.numSectors * SectorSize
    requires Assembled(d, h, buf, firstSector, position, b)
    requires 0 <= k < |buf| && firstSector * SectorSize + k < h.numBytes
    ensures var g := firstSector * SectorSize + k;
            buf[k] == if position <= g < position + |b| then b[g - position] else SectorByte(d, h, g)
  {
  }

  lemma ByteOutside(d: Image, d': Image, h: Header, buf: seq<byte>, firstSector: int, end: int, g: int)
    requires ValidImage(d) && ValidImage(d') && HeaderOk(h) && 0 <= firstSector < end <= h.numSectors
    requires |buf| == (end - firstSector) * SectorSize
    requires SectorsWritten(d, d', h, buf, firstSector, end)
    requires 0 <= g < h.numBytes && !(firstSector <= g / SectorSize < end)
    ensures SectorByte(d', h, g) == SectorByte(d, h, g)
  {
    var j := g / SectorSize;
    assert forall i :: firstSector <= i < end ==> h.Data()[i] != h.Data()[j];
    assert !Among(h, firstSector, end, h.dataSectors[j]);
  }

  lemma ChunkByte(buf: seq<byte>, c: int, r: int)
    requires 0 <= c && 0 <= r < SectorSize && (c + 1) * SectorSize <= |buf|
    ensures buf[c * SectorSize..c * SectorSize + SectorSize][r] == buf[c * SectorSize + r]
  {
  }

  /** bcopy between buffers. */
  method Copy(src: array<byte>, start: nat, dst: array<byte>, offset: nat, n: nat)
    requires src != dst && start + n <= src.Length && offset + n <= dst.Length
    modifies dst
    ensures dst[..] == old(dst[..offset]) + src[start..start + n] + old(dst[offset + n..])
  {
    for i := 0 to n
      invariant forall k :: 0 <= k < dst.Length ==> dst[k] == if offset <= k < offset + i then src[start + (k - offset)] else old(dst[k])
    {
      dst[offset + i] := src[start + i];
    }
    assert dst[..] == old(dst[..offset]) + src[start..start + n] + old(dst[offset + n..]);
  }

  class OpenFile {
    const disk: SynchDisk
    const hdr: FileHeader
    var seekPosition: int

    constructor (synchDisk: SynchDisk, sector: int)
      requires synchDisk.Valid() && 0 <= sector < NumSectors
      ensures disk == synchDisk && fresh(hdr) && hdr.View() == BytesHeader(disk.sectors[sector])
      ensures seekPosition == 0
    {
      disk := synchDisk;
      var h := new FileHeader();
      h.FetchFrom(synchDisk, sector);
      hdr := h;
      seekPosition := 0;
    }

    ghost predicate Valid()
      reads disk, hdr
    {
      disk.Valid() && HeaderOk(hdr.View())
    }

    ghost function Contents(): seq<byte>
      requires Valid()
      reads disk, hdr
    {
      FileBytes(disk.sectors, hdr.View())
    }

    /** Read the sectors firstSector to lastSector of the file into a buffer. */
    method ReadSectors(firstSector: int, lastSector: int) returns (buf: array<byte>)
      requires Valid() && 0 <= firstSector <= lastSector < hdr.numSectors
      ensures fresh(buf) && buf.Length == (1 + lastSector - firstSector) * SectorSize
      ensures forall k :: 0 <= k < buf.Length ==> buf[k] == SectorByte(disk.sectors, hdr.View(), firstSector * SectorSize + k)
    {
      ghost var h := hdr.View();
      buf := new byte[(1 + lastSector - firstSector) * SectorSize];
      var i := firstSector;
      while i <= lastSector
        invariant firstSector <= i <= lastSector + 1
        invariant forall k :: 0 <= k < (i - firstSector) * SectorSize ==>
                    buf[k] == SectorByte(disk.sectors, h, firstSector * SectorSize + k)
      {
        ghost var before := buf[..];
        disk.ReadSector(hdr.ByteToSector(i * SectorSize), buf, (i - firstSector) * SectorSize);
        forall k | 0 <= k < (i + 1 - firstSector) * SectorSize
          ensures buf[k] == SectorByte(disk.sectors, h, firstSector * SectorSize + k)
        {
          if k < (i - firstSector) * SectorSize {
            assert buf[..][k] == before[k];
          } else {
            assert buf[..][k] == disk.sectors[h.dataSectors[i]][k - (i - firstSector) * SectorSize];
          }
        }
        i := i + 1;
      }
    }

    method ReadAt(into: array<byte>, offset: nat, numBytes: int, position: int) returns (n: int)
      requires Valid() && 0 <= position
      requires offset + Clamp(hdr.numBytes, numBytes, position) <= into.Length
      modifies into
      ensures n == Clamp(hdr.numBytes, numBytes, position)
      ensures n == 0 ==> into[..] == old(into[..])
      ensures n > 0 ==> into[..] == old(into[..offset]) + Contents()[position..position + n] + old(into[offset + n..])
    {
      var fileLength := hdr.numBytes;
      if numBytes <= 0 || position >= fileLength {
        return 0;
      }
      n := numBytes;
      if position + n > fileLength {
        n := fileLength - position;
      }
      ReadPart(into, offset, n, position);
    }

    /** ReadAt, once the request has been cut to the length of the file. */
    method ReadPart(into: array<byte>, offset: nat, n: nat, position: nat)
      requires Valid() && 0 < n && position + n <= hdr.numBytes && offset + n <= into.Length
      modifies into
      ensures into[..] == old(into[..offset]) + Contents()[position..position + n] + old(into[offset + n..])
    {
      var firstSector := position / SectorSize;
      var lastSector := (position + n - 1) / SectorSize;
      var buf := ReadSectors(firstSector, lastSector);
      var start := position - firstSector * SectorSize;
      SliceOfSectors(disk.sectors, hdr.View(), buf[..], firstSector, position, n);
      assert buf[start..start + n] == buf[..][start..start + n];
      Copy(buf, start, into, offset, n);
    }

    /** Read the first and the last sector into the buffer, where they are to be partially modified. */
    method ReadAround(buf: array<byte>, n: int, position: int, firstSector: int, lastSector: int)
      requires Valid() && 0 <= position && 0 < n && position + n <= hdr.numBytes
      requires firstSector == position / SectorSize && lastSector == (position + n - 1) / SectorSize
      requires buf.Length == (1 + lastSector - firstSector) * SectorSize
      modifies buf
      ensures forall k :: 0 <= k < buf.Length && firstSector * SectorSize + k < position ==>
                buf[k] == SectorByte(disk.sectors, hdr.View(), firstSector * SectorSize + k)
      ensures forall k :: 0 <= k < buf.Length && position + n <= firstSector * SectorSize + k < hdr.numBytes ==>
                buf[k] == SectorByte(disk.sectors, hdr.View(), firstSector * SectorSize + k)
    {
      var firstAligned := position == firstSector * SectorSize;
      var lastAligned := position + n == (lastSector + 1) * SectorSize;
      if !firstAligned {
        ReadOneSector(buf, 0, firstSector);
      }
      if !lastAligned && (firstSector != lastSector || firstAligned) {
        ReadOneSector(buf, (lastSector - firstSector) * SectorSize, lastSector);
      }
    }

    /** The first half of WriteAt: the buffer to be written back. */
    method FillBuffer(from: array<byte>, n: int, position: int, firstSector: int, lastSector: int) returns (buf: array<byte>)
      requires Valid() && 0 <= position && 0 < n <= from.Length && position + n <= hdr.numBytes
      requires firstSector == position / SectorSize && lastSector == (position + n - 1) / SectorSize
      ensures fresh(buf) && buf.Length == (1 + lastSector - firstSector) * SectorSize
      ensures Assembled(disk.sectors, hdr.View(), buf[..], firstSector, position, from[..n])
    {
      buf := new byte[(1 + lastSector - firstSector) * SectorSize];
      ReadAround(buf, n, position, firstSector, lastSector);
      ghost var around := buf[..];
      var start := position - firstSector * SectorSize;
      Copy(from, 0, buf, start, n);
      assert buf[..] == around[..start] + from[..n] + around[start + n..];
      CopyAssembles(disk.sectors, hdr.View(), around, buf[..], firstSector, position, from[..n]);
    }

    /** Read one sector of the file into the buffer; past the end of the file the buffer keeps what
        it had. */
    method ReadOneSector(buf: array<byte>, offset: int, index: int)
      requires Valid() && 0 <= index < hdr.numSectors && 0 <= offset && offset + SectorSize <= buf.Length
      modifies buf
      ensures forall k :: offset <= k < offset + SectorSize && index * SectorSize + (k - offset) < hdr.numBytes ==>
                buf[k] == SectorByte(disk.sectors, hdr.View(), index * SectorSize + (k - offset))
      ensures forall k :: 0 <= k < buf.Length && !(offset <= k < offset + SectorSize) ==> buf[k] == old(buf[k])
    {
      ghost var was := buf[..];
      var n := ReadAt(buf, offset, SectorSize, index * SectorSize);
      forall k | 0 <= k < buf.Length
        ensures buf[k] == if offset <= k < offset + n then Contents()[index * SectorSize + (k - offset)] else was[k]
      {
        assert buf[..][k] == buf[k];
      }
    }

    method WriteOneSector(buf: array<byte>, offset: nat, index: int)
      requires Valid() && 0 <= index < hdr.numSectors && offset + SectorSize <= buf.Length
      modifies disk
      ensures Valid() && disk.sectors == old(disk.sectors)[hdr.dataSectors[index] := buf[..][offset..offset + SectorSize]]
    {
      disk.WriteSector(hdr.ByteToSector(index * SectorSize), buf, offset);
      assert buf[offset..offset + SectorSize] == buf[..][offset..offset + SectorSize];
    }

    /** The second half of WriteAt: write the modified sectors back. */
    method WriteSectors(buf: array<byte>, firstSector: int, lastSector: int)
      requires Valid() && 0 <= firstSector <= lastSector < hdr.numSectors
      requires buf.Length == (1 + lastSector - firstSector) * SectorSize
      modifies disk
      ensures Valid() && SectorsWritten(old(disk.sectors), disk.sectors, hdr.View(), buf[..], firstSector, lastSector + 1)
    {
      ghost var d := disk.sectors;
      var i := firstSector;
      while i <= lastSector
        invariant firstSector <= i <= lastSector + 1 && Valid()
        invariant SectorsWritten(d, disk.sectors, hdr.View(), buf[..], firstSector, i)
      {
        WriteOneMore(d, disk.sectors, hdr.View(), buf[..], firstSector, i);
        WriteOneSector(buf, (i - firstSector) * SectorSize, i);
        i := i + 1;
      }
    }

    method WriteAt(from: array<byte>, numBytes: int, position: int) returns (n: int)
      requires Valid() && 0 <= position
      requires Clamp(hdr.numBytes, numBytes, position) <= from.Length
      modifies disk
      ensures Valid() && n == Clamp(hdr.numBytes, numBytes, position)
      ensures Contents() == Splice(old(Contents()), position, from[..n])
      ensures forall s :: 0 <= s < NumSectors && s !in hdr.View().Data() ==> disk.sectors[s] == old(disk.sectors)[s]
    {
      var fileLength := hdr.numBytes;
      if numBytes <= 0 || position >= fileLength {
        return 0;
      }
      n := numBytes;
      if position + n > fileLength {
        n := fileLength - position;
      }
      var firstSector := position / SectorSize;
      var lastSector := (position + n - 1) / SectorSize;
      var buf := FillBuffer(from, n, position, firstSector, lastSector);
      ghost var d := disk.sectors;
      WriteSectors(buf, firstSector, lastSector);
      WriteIsSplice(d, disk.sectors, hdr.View(), buf[..], firstSector, lastSector + 1, position, from[..n]);
    }

    method Seek(position: int)
      modifies `seekPosition
      ensures seekPosition == position
    {
      seekPosition := position;
    }

    method Read(into: array<byte>, numBytes: int) returns (n: int)
      requires Valid() && 0 <= seekPosition
      requires Clamp(hdr.numBytes, numBytes, seekPosition) <= into.Length
      modifies into, `seekPosition
      ensures n == Clamp(hdr.numBytes, numBytes, old(seekPosition)) && seekPosition == old(seekPosition) + n
      ensures n > 0 ==> into[..] == Contents()[old(seekPosition)..seekPosition] + old(into[n..])
    {
      n := ReadAt(into, 0, numBytes, seekPosition);
      seekPosition := seekPosition + n;
    }

    method Write(from: array<byte>, numBytes: int) returns (n: int)
      requires Valid() && 0 <= seekPosition
      requires Clamp(hdr.numBytes, numBytes, seekPosition) <= from.Length
      modifies disk, `seekPosition
      ensures Valid() && n == Clamp(hdr.numBytes, numBytes, old(seekPosition)) && seekPosition == old(seekPosition) + n
      ensures Contents() == Splice(old(Contents()), old(seekPosition), from[..n])
      ensures forall s :: 0 <= s < NumSectors && s !in hdr.View().Data() ==> disk.sectors[s] == old(disk.sectors)[s]
    {
      n := WriteAt(from, numBytes, seekPosition);
      seekPosition := seekPosition + n;
    }
  }
}

/** Who owns which sector (filesys/filesys.cc): the headers on the disk, the directory and the free
    map, as they are when they have been read from their bytes. */
module FsLayout {
  import opened Layout
  import opened Storage
  import opened FileHeaders
  import opened Directories

  const FreeMapSector: int := 0
  const DirectorySector: int := 1
  const FreeMapFileSize: int := 128
  const NumDirEntries: int := 10
  const DirectoryFileSize: int := 200

  /** hs[s] is sector s read as a header, whether it is one or not. */
  datatype Fs = Fs(hs: seq<Header>, t: seq<Entry>, bits: seq<bool>)

  ghost predicate Shape(fs: Fs) {
    |fs.hs| == NumSectors && |fs.t| == NumDirEntries && |fs.bits| == NumSectors
  }

  // The files of the system: number 0 is the free map, 1 the directory, and i + 2 directory entry i.
  const NumRoots: int := 12

  ghost predicate Live(t: seq<Entry>, k: int)
    requires |t| == NumDirEntries
  {
    0 <= k < NumRoots && (k < 2 || t[k - 2].inUse)
  }

  /** Where the header of a file is. */
  ghost function Root(t: seq<Entry>, k: int): int
    requires |t| == NumDirEntries && 0 <= k < NumRoots
  {
    if k < 2 then k else t[k - 2].sector
  }

  ghost predicate RootOk(hs: seq<Header>, r: int)
    requires |hs| == NumSectors
  {
    0 <= r < NumSectors && HeaderOk(hs[r]) && r !in hs[r].Data()
  }

  /** Sector s is the header or a data sector of the file with header r. */
  ghost predicate InFile(hs: seq<Header>, r: int, s: int)
    requires |hs| == NumSectors
  {
    0 <= r < NumSectors && HeaderOk(hs[r]) && (s == r || s in hs[r].Data())
  }

  ghost predicate Owns(fs: Fs, k: int, s: int)
    requires Shape(fs)
  {
    Live(fs.t, k) && InFile(fs.hs, Root(fs.t, k), s)
  }

  ghost predicate RootsOk(fs: Fs)
    requires Shape(fs)
  {
    forall k :: Live(fs.t, k) ==> RootOk(fs.hs, Root(fs.t, k))
  }

  /** No sector belongs to two files. */
  ghost predicate Disjoint(fs: Fs)
    requires Shape(fs)
  {
    forall j, k, s :: Owns(fs, j, s) && Owns(fs, k, s) ==> j == k
  }

  /** The map marks exactly the sectors that belong to some file. */
  ghost predicate MapExact(fs: Fs)
    requires Shape(fs)
  {
    forall s :: 0 <= s < NumSectors ==> (fs.bits[s] <==> exists k :: Owns(fs, k, s))
  }

  ghost predicate SystemFiles(fs: Fs)
    requires Shape(fs)
  {
    fs.hs[FreeMapSector].numBytes == FreeMapFileSize && fs.hs[DirectorySector].numBytes == DirectoryFileSize
  }

  ghost predicate Consistent(fs: Fs) {
    && Shape(fs) && SystemFiles(fs)
    && UniqueKeys(fs.t) && RootsOk(fs) && Disjoint(fs) && MapExact(fs)
  }

  lemma SystemRoots(fs: Fs)
    requires Consistent(fs)
    ensures RootOk(fs.hs, FreeMapSector) && RootOk(fs.hs, DirectorySector)
  {
    assert Live(fs.t, 0) && Live(fs.t, 1) && Root(fs.t, 0) == 0 && Root(fs.t, 1) == 1;
  }

  lemma EntryRoot(fs: Fs, i: int)
    requires Consistent(fs) && 0 <= i < NumDirEntries && fs.t[i].inUse
    ensures Live(fs.t, i + 2) && Root(fs.t, i + 2) == fs.t[i].sector && RootOk(fs.hs, fs.t[i].sector)
  {
    assert Live(fs.t, i + 2) && Root(fs.t, i + 2) == fs.t[i].sector;
  }

  /** The headers of the files in a directory are the same. */
  ghost predicate SameHeaders(hs: seq<Header>, hs': seq<Header>, t: seq<Entry>)
    requires |hs| == |hs'| == NumSectors && |t| == NumDirEntries
  {
    forall k :: Live(t, k) ==> 0 <= Root(t, k) < NumSectors && hs'[Root(t, k)] == hs[Root(t, k)]
  }

  lemma SystemFilesSame(fs: Fs, fs': Fs)
    requires Shape(fs) && Shape(fs') && SystemFiles(fs) && SameHeaders(fs.hs, fs'.hs, fs.t)
    ensures SystemFiles(fs')
  {
    assert Live(fs.t, 0) && Live(fs.t, 1) && Root(fs.t, 0) == 0 && Root(fs.t, 1) == 1;
  }

  /** Consistency only looks at the headers of files in the directory. */
  lemma SameHeadersConsistent(fs: Fs, fs': Fs)
    requires Consistent(fs) && Shape(fs') && SameHeaders(fs.hs, fs'.hs, fs.t) && fs'.t == fs.t && fs'.bits == fs.bits
    ensures Consistent(fs')
  {
    SystemFilesSame(fs, fs');
    assert RootsOk(fs');
    assert forall k, s :: Owns(fs', k, s) <==> Owns(fs, k, s);
  }

  /** What a new file h at entry i adds to the ownership of sectors. */
  ghost predicate OwnersAfterAdd(fs: Fs, fs': Fs, i: int, sector: int, h: Header)
    requires Shape(fs) && Shape(fs') && HeaderOk(h)
  {
    forall k, s :: Owns(fs', k, s) <==> if k == i + 2 then s == sector || s in h.Data() else Owns(fs, k, s)
  }

  /** A new file: its header in a sector that was free, its data in sectors that were free, and its
      name in an entry that was not in use. */
  ghost predicate NewFile(fs: Fs, fs': Fs, i: int, name: seq<byte>, sector: int, h: Header) {
    && Shape(fs) && Shape(fs') && SameHeaders(fs.hs, fs'.hs, fs.t)
    && Added(fs.t, fs'.t, i, name, sector) && !fs.t[i].inUse && !Listed(fs.t, NameKey(name))
    && 0 <= sector < NumSectors && !fs.bits[sector]
    && fs'.hs[sector] == h && HeaderOk(h) && sector !in h.Data()
    && (forall s :: s in h.Data() ==> !fs.bits[s])
    && (forall s :: 0 <= s < NumSectors ==> (fs'.bits[s] <==> fs.bits[s] || s == sector || s in h.Data()))
  }

  lemma AddOwners(fs: Fs, fs': Fs, i: int, name: seq<byte>, sector: int, h: Header)
    requires Consistent(fs) && NewFile(fs, fs', i, name, sector, h)
    ensures RootsOk(fs') && OwnersAfterAdd(fs, fs', i, sector, h)
  {
    forall k | Live(fs'.t, k)
      ensures RootOk(fs'.hs, Root(fs'.t, k))
    {
      if k != i + 2 {
        assert Live(fs.t, k) && Root(fs'.t, k) == Root(fs.t, k);
      }
    }
    forall k, s
      ensures Owns(fs', k, s) <==> if k == i + 2 then s == sector || s in h.Data() else Owns(fs, k, s)
    {
      if 0 <= k < NumRoots && k != i + 2 {
        assert Live(fs'.t, k) == Live(fs.t, k) && Root(fs'.t, k) == Root(fs.t, k);
      }
    }
  }

  lemma AddUnique(t: seq<Entry>, t': seq<Entry>, i: int, name: seq<byte>, sector: int)
    requires |t| == NumDirEntries && UniqueKeys(t) && Added(t, t', i, name, sector) && !t[i].inUse && !Listed(t, NameKey(name))
    ensures UniqueKeys(t')
  {
    forall j, k | 0 <= j < k < |t'| && t'[j].inUse && t'[k].inUse
      ensures EntryKey(t'[j]) != EntryKey(t'[k])
    {
      assert !IsEntry(t, NameKey(name), j) && !IsEntry(t, NameKey(name), k);
    }
  }

  lemma AddDisjoint(fs: Fs, fs': Fs, i: int, name: seq<byte>, sector: int, h: Header)
    requires Consistent(fs) && NewFile(fs, fs', i, name, sector, h) && OwnersAfterAdd(fs, fs', i, sector, h)
    ensures Disjoint(fs')
  {
    forall j, k, s | Owns(fs', j, s) && Owns(fs', k, s)
      ensures j == k
    {
      if j != i + 2 {
        assert Owns(fs, j, s);
        assert fs.bits[s];
      }
    }
  }

  lemma AddConsistent(fs: Fs, fs': Fs, i: int, name: seq<byte>, sector: int, h: Header)
    requires Consistent(fs) && NewFile(fs, fs', i, name, sector, h)
    ensures Consistent(fs')
  {
    SystemFilesSame(fs, fs');
    AddOwners(fs, fs', i, name, sector, h);
    AddUnique(fs.t, fs'.t, i, name, sector);
    AddDisjoint(fs, fs', i, name, sector, h);
    forall s | 0 <= s < NumSectors
      ensures fs'.bits[s] <==> exists k :: Owns(fs', k, s)
    {
      if fs.bits[s] {
        var k :| Owns(fs, k, s);
        assert Owns(fs', k, s);
      }
      if s == sector || s in h.Data() {
        assert Owns(fs', i + 2, s);
      }
    }
  }

  /** The directory with entry i taken out of use. */
  ghost function Dropped(t: seq<Entry>, i: int): (t': seq<Entry>)
    requires 0 <= i < |t|
    ensures |t'| == |t|
  {
    t[i := t[i].(inUse := false)]
  }

  /** A file taken out of the directory, its sectors given back. */
  ghost predicate FileGone(fs: Fs, fs': Fs, i: int) {
    && Shape(fs) && Shape(fs') && 0 <= i < NumDirEntries && fs.t[i].inUse
    && fs'.t == Dropped(fs.t, i) && SameHeaders(fs.hs, fs'.hs, fs'.t)
    && forall s :: 0 <= s < NumSectors ==> (fs'.bits[s] <==> fs.bits[s] && !InFile(fs.hs, fs.t[i].sector, s))
  }

  lemma DropConsistent(fs: Fs, fs': Fs, i: int)
    requires Consistent(fs) && FileGone(fs, fs', i)
    ensures Consistent(fs')
  {
    assert Live(fs'.t, 0) && Live(fs'.t, 1) && Root(fs'.t, 0) == 0 && Root(fs'.t, 1) == 1;
    forall k, s
      ensures Live(fs'.t, k) <==> k != i + 2 && Live(fs.t, k)
      ensures Owns(fs', k, s) <==> k != i + 2 && Owns(fs, k, s)
    {
    }
    forall k | Live(fs'.t, k)
      ensures RootOk(fs'.hs, Root(fs'.t, k))
    {
      assert Live(fs.t, k) && Root(fs'.t, k) == Root(fs.t, k);
    }
    EntryRoot(fs, i);
    forall s | 0 <= s < NumSectors
      ensures fs'.bits[s] <==> exists k :: Owns(fs', k, s)
    {
      assert InFile(fs.hs, fs.t[i].sector, s) <==> Owns(fs, i + 2, s);
      if fs'.bits[s] {
        var k :| Owns(fs, k, s);
        assert Owns(fs', k, s);
      }
      if k :| Owns(fs', k, s) {
        assert Owns(fs, k, s);
      }
    }
  }
}

/** The file system as it is on the disk: what each operation does to the sectors, and what that
    means for the files. */
module FileSystemSpec {
  import opened Layout
  import opened Storage
  import opened BitSpec
  import opened FileHeaders
  import opened OpenFiles
  import opened Directories
  import opened PersistentBitmaps
  import opened FsLayout

  /** fs is what the disk d says when its bytes are read. */
  ghost predicate Describes(d: Image, fs: Fs) {
    && ValidImage(d) && Shape(fs)
    && (forall s :: 0 <= s < NumSectors ==> fs.hs[s] == BytesHeader(d[s]))
    && HeaderOk(fs.hs[FreeMapSector]) && HeaderOk(fs.hs[DirectorySector])
    && BytesTable(FileBytes(d, fs.hs[DirectorySector])) == fs.t
    && StoredBits(FileBytes(d, fs.hs[FreeMapSector])) == fs.bits
  }

  ghost predicate FsInv(d: Image, fs: Fs) {
    Describes(d, fs) && Consistent(fs)
  }

  ghost function HeadersOf(d: Image): (hs: seq<Header>)
    requires ValidImage(d)
    ensures |hs| == NumSectors && forall s :: 0 <= s < NumSectors ==> hs[s] == BytesHeader(d[s])
  {
    seq(NumSectors, s requires 0 <= s < NumSectors => BytesHeader(d[s]))
  }

  /** Between the images only sector x and the data sectors of the free map and directory differ. */
  ghost predicate Untouched(d: Image, d': Image, fs: Fs, x: int) {
    && ValidImage(d) && ValidImage(d') && Shape(fs)
    && HeaderOk(fs.hs[FreeMapSector]) && HeaderOk(fs.hs[DirectorySector])
    && forall s :: (0 <= s < NumSectors && s != x && s !in fs.hs[FreeMapSector].Data() && s !in fs.hs[DirectorySector].Data())
                   ==> d'[s] == d[s]
  }

  /** Such a change touches no header, and no contents but the free map's and the directory's. */
  lemma UntouchedSector(d: Image, d': Image, fs: Fs, x: int, k: int, s: int)
    requires Consistent(fs) && Untouched(d, d', fs, x) && 0 <= s < NumSectors && s != x
    requires Owns(fs, k, s) && (k >= 2 || s == k)
    ensures d'[s] == d[s]
  {
    SystemRoots(fs);
    assert s in fs.hs[FreeMapSector].Data() ==> Owns(fs, 0, s);
    assert s in fs.hs[DirectorySector].Data() ==> Owns(fs, 1, s);
  }

  lemma UntouchedFile(d: Image, d': Image, fs: Fs, x: int, i: int)
    requires Consistent(fs) && Untouched(d, d', fs, x) && (forall k :: !Owns(fs, k, x))
    requires 0 <= i < NumDirEntries && fs.t[i].inUse && RootOk(fs.hs, fs.t[i].sector)
    ensures FileBytes(d', fs.hs[fs.t[i].sector]) == FileBytes(d, fs.hs[fs.t[i].sector])
  {
    EntryRoot(fs, i);
    var h := fs.hs[fs.t[i].sector];
    forall s | s in h.Data()
      ensures d'[s] == d[s]
    {
      assert Owns(fs, i + 2, s);
      UntouchedSector(d, d', fs, x, i + 2, s);
    }
    FileBytesFrame(d, d', h);
  }

  lemma UntouchedHeaders(d: Image, d': Image, fs: Fs, x: int)
    requires FsInv(d, fs) && Untouched(d, d', fs, x) && forall k :: !Owns(fs, k, x)
    ensures SameHeaders(fs.hs, HeadersOf(d'), fs.t)
    ensures HeadersOf(d')[FreeMapSector] == fs.hs[FreeMapSector] && HeadersOf(d')[DirectorySector] == fs.hs[DirectorySector]
  {
    hide BytesHeader;
    hide BytesTable;
    hide StoredBits;
    forall k | Live(fs.t, k)
      ensures 0 <= Root(fs.t, k) < NumSectors && HeadersOf(d')[Root(fs.t, k)] == fs.hs[Root(fs.t, k)]
    {
      assert RootOk(fs.hs, Root(fs.t, k)) && Owns(fs, k, Root(fs.t, k));
      UntouchedSector(d, d', fs, x, k, Root(fs.t, k));
    }
    assert Live(fs.t, 0) && Live(fs.t, 1) && Root(fs.t, 0) == 0 && Root(fs.t, 1) == 1;
  }

  /** The image after the free map and the directory have been written is described by what was
      written. */
  lemma DescribesWritten(d: Image, d': Image, fs: Fs, fs': Fs, x: int)
    requires FsInv(d, fs) && Untouched(d, d', fs, x) && forall k :: !Owns(fs, k, x)
    requires Shape(fs') && fs'.hs == HeadersOf(d')
    requires BytesTable(FileBytes(d', fs.hs[DirectorySector])) == fs'.t
    requires StoredBits(FileBytes(d', fs.hs[FreeMapSector])) == fs'.bits
    ensures Describes(d', fs') && SameHeaders(fs.hs, fs'.hs, fs.t)
  {
    hide BytesHeader;
    hide BytesTable;
    hide StoredBits;
    UntouchedHeaders(d, d', fs, x);
  }

  /** What Create does when it succeeds: entry i and header h are the new file's. */
  ghost predicate CreateEffect(d: Image, fs: Fs, d': Image, fs': Fs, name: seq<byte>, size: int, i: int, h: Header) {
    && Describes(d', fs') && Shape(fs) && Shape(fs') && 0 <= size <= MaxFileSize
    && var sector := FirstClear(fs.bits, 0);
    && sector >= 0 && Untouched(d, d', fs, sector)
    && SameHeaders(fs.hs, fs'.hs, fs.t)
    && fs'.hs[sector] == h && Storable(h) && h.numBytes == size && h.numSectors == SectorsFor(size)
    && 0 <= i < NumDirEntries && !fs.t[i].inUse && Added(fs.t, fs'.t, i, name, sector)
    && SectorsFor(size) <= ClearCount(fs.bits[sector := true])
    && (h.Data(), fs'.bits) == TakeClear(fs.bits[sector := true], SectorsFor(size))
  }

  lemma NewHeaderOk(bits: seq<bool>, sector: int, h: Header)
    requires |bits| == NumSectors && 0 <= sector < NumSectors && !bits[sector]
    requires Storable(h) && 0 <= h.numBytes <= MaxFileSize && h.numSectors == SectorsFor(h.numBytes)
    requires h.numSectors <= ClearCount(bits[sector := true])
    requires h.Data() == TakeClear(bits[sector := true], h.numSectors).0
    ensures HeaderOk(h) && sector !in h.Data() && forall s :: s in h.Data() ==> !bits[s]
  {
    var bits1 := bits[sector := true];
    TakeClearMarks(bits1, h.numSectors);
    TakeClearDistinct(bits1, h.numSectors);
    forall i | 0 <= i < h.numSectors
      ensures 0 <= h.dataSectors[i] < NumSectors && !bits1[h.dataSectors[i]]
    {
      assert h.Data()[i] == h.dataSectors[i];
    }
  }

  /** Create keeps the invariant. */
  lemma CreateKeepsInvariant(d: Image, fs: Fs, d': Image, fs': Fs, name: seq<byte>, size: int, i: int, h: Header)
    requires FsInv(d, fs) && !Listed(fs.t, NameKey(name)) && CreateEffect(d, fs, d', fs', name, size, i, h)
    ensures FsInv(d', fs') && HeaderOk(h)
  {
    hide Describes;
    EffectIsNewFile(d, fs, d', fs', name, size, i, h);
    hide CreateEffect;
    hide NewFile;
    hide Consistent;
    AddConsistent(fs, fs', i, name, FirstClear(fs.bits, 0), h);
  }

  lemma EffectIsNewFile(d: Image, fs: Fs, d': Image, fs': Fs, name: seq<byte>, size: int, i: int, h: Header)
    requires Consistent(fs) && !Listed(fs.t, NameKey(name)) && CreateEffect(d, fs, d', fs', name, size, i, h)
    ensures NewFile(fs, fs', i, name, FirstClear(fs.bits, 0), h) && HeaderOk(h) && Describes(d', fs')
  {
    hide Describes;
    hide Consistent;
    hide Untouched;
    var sector := FirstClear(fs.bits, 0);
    NewHeaderOk(fs.bits, sector, h);
    TakeClearMarks(fs.bits[sector := true], h.numSectors);
  }

  /** What Remove does: entry i is the file's. */
  ghost predicate RemoveEffect(d: Image, fs: Fs, d': Image, fs': Fs, i: int) {
    && Describes(d', fs') && Shape(fs) && Shape(fs') && Untouched(d, d', fs, -1)
    && SameHeaders(fs.hs, fs'.hs, fs.t)
    && 0 <= i < NumDirEntries && fs.t[i].inUse && RootOk(fs.hs, fs.t[i].sector)
    && fs'.t == Dropped(fs.t, i)
    && fs'.bits == ClearAll(fs.bits, fs.hs[fs.t[i].sector].Data())[fs.t[i].sector := false]
  }

  /** Remove keeps the invariant. */
  lemma RemoveKeepsInvariant(d: Image, fs: Fs, d': Image, fs': Fs, i: int)
    requires FsInv(d, fs) && RemoveEffect(d, fs, d', fs', i)
    ensures FsInv(d', fs')
  {
    hide Describes;
    forall k | Live(fs'.t, k)
      ensures 0 <= Root(fs'.t, k) < NumSectors && fs'.hs[Root(fs'.t, k)] == fs.hs[Root(fs'.t, k)]
    {
      assert Live(fs.t, k) && Root(fs'.t, k) == Root(fs.t, k);
    }
    DropConsistent(fs, fs', i);
  }

  /** Only data sectors of the file of entry i differ. */
  ghost predicate OnlyData(d: Image, fs: Fs, d': Image, i: int) {
    && ValidImage(d) && ValidImage(d') && Shape(fs) && 0 <= i < NumDirEntries && fs.t[i].inUse
    && RootOk(fs.hs, fs.t[i].sector)
    && forall s :: 0 <= s < NumSectors && s !in fs.hs[fs.t[i].sector].Data() ==> d'[s] == d[s]
  }

  lemma OtherSector(d: Image, fs: Fs, d': Image, i: int, k: int, s: int)
    requires Consistent(fs) && OnlyData(d, fs, d', i)
    requires Owns(fs, k, s) && 0 <= s < NumSectors && (k != i + 2 || s == fs.t[i].sector)
    ensures d'[s] == d[s]
  {
    EntryRoot(fs, i);
    assert s in fs.hs[fs.t[i].sector].Data() ==> Owns(fs, i + 2, s);
  }

  lemma OtherFile(d: Image, fs: Fs, d': Image, i: int, r: int, k: int)
    requires Consistent(fs) && OnlyData(d, fs, d', i) && Live(fs.t, k) && r == Root(fs.t, k) && k != i + 2 && RootOk(fs.hs, r)
    ensures FileBytes(d', fs.hs[r]) == FileBytes(d, fs.hs[r])
  {
    forall s | s in fs.hs[r].Data()
      ensures d'[s] == d[s]
    {
      assert Owns(fs, k, s);
      OtherSector(d, fs, d', i, k, s);
    }
    FileBytesFrame(d, d', fs.hs[r]);
  }

  lemma WriteKeepsHeaders(d: Image, fs: Fs, d': Image, i: int)
    requires FsInv(d, fs) && OnlyData(d, fs, d', i)
    ensures SameHeaders(fs.hs, HeadersOf(d'), fs.t)
  {
    hide BytesHeader;
    hide BytesTable;
    hide StoredBits;
    forall k | Live(fs.t, k)
      ensures 0 <= Root(fs.t, k) < NumSectors && HeadersOf(d')[Root(fs.t, k)] == fs.hs[Root(fs.t, k)]
    {
      assert RootOk(fs.hs, Root(fs.t, k)) && Owns(fs, k, Root(fs.t, k));
      OtherSector(d, fs, d', i, k, Root(fs.t, k));
    }
  }

  /** A write through an open file keeps the invariant: directory and free map stay as they are. */
  lemma WriteKeepsInvariant(d: Image, fs: Fs, d': Image, i: int)
    requires FsInv(d, fs) && OnlyData(d, fs, d', i)
    ensures FsInv(d', Fs(HeadersOf(d'), fs.t, fs.bits))
    ensures HeadersOf(d')[fs.t[i].sector] == fs.hs[fs.t[i].sector]
  {
    hide BytesHeader;
    hide BytesTable;
    hide StoredBits;
    var fs' := Fs(HeadersOf(d'), fs.t, fs.bits);
    WriteKeepsHeaders(d, fs, d', i);
    SameHeadersConsistent(fs, fs');
    SystemRoots(fs);
    assert Live(fs.t, 0) && Live(fs.t, 1) && Root(fs.t, 0) == 0 && Root(fs.t, 1) == 1;
    OtherFile(d, fs, d', i, 0, 0);
    OtherFile(d, fs, d', i, 1, 1);
    EntryRoot(fs, i);
  }

  /** The files m' are the files m with bytes b written into one of them at a position. */
  ghost predicate SplicedInto(m: map<seq<byte>, seq<byte>>, m': map<seq<byte>, seq<byte>>, key: seq<byte>, position: int, b: seq<byte>) {
    key in m && if b == [] then m' == m
                else 0 <= position && position + |b| <= |m[key]| && m' == m[key := Splice(m[key], position, b)]
  }

  lemma WriteKeepsSystem(d: Image, fs: Fs, d': Image, i: int)
    requires FsInv(d, fs) && OnlyData(d, fs, d', i)
    ensures HeadersOf(d')[FreeMapSector] == fs.hs[FreeMapSector] && HeadersOf(d')[DirectorySector] == fs.hs[DirectorySector]
  {
    WriteKeepsHeaders(d, fs, d', i);
    assert Live(fs.t, 0) && Live(fs.t, 1) && Root(fs.t, 0) == 0 && Root(fs.t, 1) == 1;
  }

  /** The contents of the file of entry i. */
  ghost function EntryFile(d: Image, fs: Fs, i: int): seq<byte>
    requires ValidImage(d) && Consistent(fs) && 0 <= i < NumDirEntries
  {
    if fs.t[i].inUse then EntryRoot(fs, i); FileBytes(d, fs.hs[fs.t[i].sector]) else []
  }

  ghost function AllFiles(d: Image, fs: Fs): (c: seq<seq<byte>>)
    requires ValidImage(d) && Consistent(fs)
    ensures |c| == NumDirEntries && forall i :: 0 <= i < NumDirEntries ==> c[i] == EntryFile(d, fs, i)
  {
    seq(NumDirEntries, i requires 0 <= i < NumDirEntries => EntryFile(d, fs, i))
  }

  /** The abstract file system: a finite map from names to contents. */
  ghost function Files(d: Image, fs: Fs): map<seq<byte>, seq<byte>>
    requires ValidImage(d) && Consistent(fs)
  {
    FilesOf(fs.t, AllFiles(d, fs))
  }

  lemma FileKept(d: Image, fs: Fs, d': Image, fs': Fs, x: int, j: int)
    requires Consistent(fs) && Untouched(d, d', fs, x) && (forall k :: !Owns(fs, k, x)) && Consistent(fs')
    requires SameHeaders(fs.hs, fs'.hs, fs.t) && 0 <= j < NumDirEntries && fs'.t[j] == fs.t[j]
    ensures EntryFile(d', fs', j) == EntryFile(d, fs, j)
  {
    if fs.t[j].inUse {
      EntryRoot(fs, j);
      UntouchedFile(d, d', fs, x, j);
    }
  }

  lemma FreeIsUnowned(fs: Fs, x: int)
    requires Consistent(fs) && 0 <= x < NumSectors && !fs.bits[x]
    ensures forall k :: !Owns(fs, k, x)
  {
  }

  /** Create adds one file of the given size and keeps every other file's name and contents. */
  lemma CreateRefines(d: Image, fs: Fs, d': Image, fs': Fs, name: seq<byte>, size: int, i: int, h: Header)
    requires FsInv(d, fs) && !Listed(fs.t, NameKey(name)) && CreateEffect(d, fs, d', fs', name, size, i, h)
    ensures FsInv(d', fs')
    ensures NameKey(name) !in Files(d, fs) && Files(d', fs') == Files(d, fs)[NameKey(name) := EntryFile(d', fs', i)]
    ensures |EntryFile(d', fs', i)| == size
  {
    hide FilesOf;
    hide Describes;
    var x := FirstClear(fs.bits, 0);
    CreateKeepsInvariant(d, fs, d', fs', name, size, i, h);
    FreeIsUnowned(fs, x);
    forall j | 0 <= j < NumDirEntries && j != i
      ensures fs'.t[j] == fs.t[j] && EntryFile(d', fs', j) == EntryFile(d, fs, j)
    {
      FileKept(d, fs, d', fs', x, j);
    }
    FilesAdded(fs.t, AllFiles(d, fs), fs'.t, AllFiles(d', fs'), i);
  }

  /** Remove takes one file out and keeps every other file's name and contents. */
  lemma RemoveRefines(d: Image, fs: Fs, d': Image, fs': Fs, i: int)
    requires FsInv(d, fs) && RemoveEffect(d, fs, d', fs', i)
    ensures FsInv(d', fs')
    ensures EntryKey(fs.t[i]) in Files(d, fs) && Files(d', fs') == Files(d, fs) - {EntryKey(fs.t[i])}
  {
    hide FilesOf;
    hide Describes;
    RemoveKeepsInvariant(d, fs, d', fs', i);
    NobodyOwnsMinusOne(fs);
    forall j | 0 <= j < NumDirEntries && j != i
      ensures fs'.t[j] == fs.t[j] && EntryFile(d', fs', j) == EntryFile(d, fs, j)
    {
      FileKept(d, fs, d', fs', -1, j);
    }
    FilesDropped(fs.t, AllFiles(d, fs), fs'.t, AllFiles(d', fs'), i);
  }

  lemma NobodyOwnsMinusOne(fs: Fs)
    requires Shape(fs)
    ensures forall k :: !Owns(fs, k, -1)
  {
  }

  /** A write through an open file replaces that file's contents and no other's. */
  lemma WriteRefines(d: Image, fs: Fs, d': Image, i: int)
    requires FsInv(d, fs) && OnlyData(d, fs, d', i)
    ensures var fs' := Fs(HeadersOf(d'), fs.t, fs.bits);
            && FsInv(d', fs')
            && Files(d', fs') == Files(d, fs)[EntryKey(fs.t[i]) := FileBytes(d', fs.hs[fs.t[i].sector])]
  {
    hide FilesOf;
    hide BytesHeader;
    hide BytesTable;
    hide StoredBits;
    var fs' := Fs(HeadersOf(d'), fs.t, fs.bits);
    WriteKeepsInvariant(d, fs, d', i);
    WriteKeepsHeaders(d, fs, d', i);
    forall j | 0 <= j < NumDirEntries && j != i
      ensures EntryFile(d', fs', j) == EntryFile(d, fs, j)
    {
      if fs.t[j].inUse {
        EntryRoot(fs, j);
        OtherFile(d, fs, d', i, fs.t[j].sector, j + 2);
      }
    }
    FilesRewritten(fs.t, AllFiles(d, fs), AllFiles(d', fs'), i);
  }

  /** Create followed by Remove of the same file gives the free map back, exactly, and every file. */
  lemma CreateThenRemove(d: Image, fs: Fs, d1: Image, fs1: Fs, d2: Image, fs2: Fs, name: seq<byte>, size: int, i: int, h: Header)
    requires FsInv(d, fs) && !Listed(fs.t, NameKey(name)) && CreateEffect(d, fs, d1, fs1, name, size, i, h)
    requires RemoveEffect(d1, fs1, d2, fs2, i)
    ensures FsInv(d2, fs2) && fs2.bits == fs.bits && Files(d2, fs2) == Files(d, fs)
  {
    hide FilesOf;
    hide Describes;
    CreateRefines(d, fs, d1, fs1, name, size, i, h);
    RemoveRefines(d1, fs1, d2, fs2, i);
    var sector := FirstClear(fs.bits, 0);
    TakeThenClear(fs.bits[sector := true], SectorsFor(size));
    assert fs.bits[sector := true][sector := false] == fs.bits;
    DropAdded(Files(d, fs), NameKey(name), EntryFile(d1, fs1, i));
  }

  lemma SystemDataDisjoint(fs: Fs, s: int)
    requires Consistent(fs) && HeaderOk(fs.hs[FreeMapSector]) && HeaderOk(fs.hs[DirectorySector])
    ensures s in fs.hs[DirectorySector].Data() ==> s !in fs.hs[FreeMapSector].Data()
  {
    assert Live(fs.t, 0) && Live(fs.t, 1) && Root(fs.t, 0) == 0 && Root(fs.t, 1) == 1;
    assert InFile(fs.hs, 0, s) ==> Owns(fs, 0, s);
    assert InFile(fs.hs, 1, s) ==> Owns(fs, 1, s);
  }

  /** Outside the data of file h nothing differs. */
  ghost predicate SameOutside(d: Image, d': Image, h: Header)
    requires ValidImage(d) && ValidImage(d') && HeaderOk(h)
  {
    forall s :: 0 <= s < NumSectors && s !in h.Data() ==> d'[s] == d[s]
  }

  /** Writing the directory and the free map, in either order, after an optional write to x. */
  lemma SystemWrites(d: Image, fs: Fs, d1: Image, d2: Image, d3: Image, x: int, first: int, second: int)
    requires FsInv(d, fs) && ValidImage(d) && ValidImage(d1) && ValidImage(d2) && ValidImage(d3)
    requires forall s :: 0 <= s < NumSectors && s != x ==> d1[s] == d[s]
    requires {first, second} == {FreeMapSector, DirectorySector}
    requires SameOutside(d1, d2, fs.hs[first]) && SameOutside(d2, d3, fs.hs[second])
    ensures Untouched(d, d3, fs, x)
    ensures FileBytes(d3, fs.hs[first]) == FileBytes(d2, fs.hs[first])
    ensures 0 <= x < NumSectors && x !in fs.hs[first].Data() && x !in fs.hs[second].Data() ==> d3[x] == d1[x]
  {
    hide Describes;
    SystemRoots(fs);
    forall s | s in fs.hs[first].Data()
      ensures d3[s] == d2[s]
    {
      SystemDataDisjoint(fs, s);
    }
    FileBytesFrame(d2, d3, fs.hs[first]);
  }

  lemma StorableAllocated(junk: Header, h: Header, bits: seq<bool>)
    requires Storable(junk) && |bits| == NumSectors && |h.dataSectors| == NumDirect
    requires 0 <= h.numBytes <= MaxFileSize && h.numSectors == SectorsFor(h.numBytes) && h.numSectors <= ClearCount(bits)
    requires h.Data() == TakeClear(bits, h.numSectors).0 && h.dataSectors[h.numSectors..] == junk.dataSectors[h.numSectors..]
    ensures Storable(h)
  {
    TakeClearMarks(bits, h.numSectors);
    forall i | 0 <= i < NumDirect
      ensures IsInt32(h.dataSectors[i])
    {
      if i < h.numSectors {
        assert h.dataSectors[i] == h.Data()[i];
      } else {
        assert h.dataSectors[i] == h.dataSectors[h.numSectors..][i - h.numSectors];
        assert junk.dataSectors[i] == junk.dataSectors[h.numSectors..][i - h.numSectors];
      }
    }
  }

  /** What Allocate leaves in a header, and in the map. */
  lemma AllocatedHeader(bits: seq<bool>, after: seq<bool>, junk: Header, h: Header)
    requires |bits| == NumSectors && Storable(junk) && |h.dataSectors| == NumDirect
    requires 0 <= h.numBytes <= MaxFileSize && h.numSectors == SectorsFor(h.numBytes) && h.numSectors <= ClearCount(bits)
    requires (h.Data(), after) == TakeClear(bits, h.numSectors)
    requires h.dataSectors[h.numSectors..] == junk.dataSectors[h.numSectors..]
    ensures HeaderOk(h) && |after| == NumSectors && ClearCount(after) == ClearCount(bits) - h.numSectors
    ensures forall s :: s in h.Data() ==> 0 <= s < NumSectors && !bits[s]
    ensures forall s :: 0 <= s < NumSectors ==> (after[s] <==> bits[s] || s in h.Data())
  {
    StorableAllocated(junk, h, bits);
    TakeClearMarks(bits, h.numSectors);
    TakeClearDistinct(bits, h.numSectors);
    forall i | 0 <= i < h.numSectors
      ensures 0 <= h.dataSectors[i] < NumSectors
    {
      assert h.Data()[i] == h.dataSectors[i];
    }
  }

  /** A freshly formatted disk: no file is listed, and the free map marks the two system files. */
  lemma FormatConsistent(fs: Fs)
    requires Shape(fs) && SystemFiles(fs)
    requires forall i :: 0 <= i < NumDirEntries ==> !fs.t[i].inUse
    requires HeaderOk(fs.hs[FreeMapSector]) && HeaderOk(fs.hs[DirectorySector])
    requires forall s :: s in fs.hs[FreeMapSector].Data() ==> s >= 2 && s !in fs.hs[DirectorySector].Data()
    requires forall s :: s in fs.hs[DirectorySector].Data() ==> s >= 2
    requires forall s :: 0 <= s < NumSectors ==>
               (fs.bits[s] <==> s < 2 || s in fs.hs[FreeMapSector].Data() || s in fs.hs[DirectorySector].Data())
    ensures Consistent(fs)
  {
    assert Live(fs.t, 0) && Live(fs.t, 1) && forall k :: Live(fs.t, k) ==> k == Root(fs.t, k) && (k == 0 || k == 1);
    forall s | 0 <= s < NumSectors
      ensures fs.bits[s] <==> Owns(fs, 0, s) || Owns(fs, 1, s)
    {
    }
  }

  lemma FormatDescribes(d: Image, d1: Image, d2: Image, fs: Fs, hm: Header, hd: Header)
    requires ValidImage(d) && ValidImage(d1) && ValidImage(d2) && Shape(fs) && fs.hs == HeadersOf(d2)
    requires HeaderOk(hm) && HeaderOk(hd) && hm.numBytes == FreeMapFileSize && hd.numBytes == DirectoryFileSize
    requires BytesHeader(d[FreeMapSector]) == hm && BytesHeader(d[DirectorySector]) == hd
    requires SameOutside(d, d1, hm) && SameOutside(d1, d2, hd)
    requires StoredBits(FileBytes(d1, hm)) == fs.bits && BytesTable(FileBytes(d2, hd)) == fs.t
    requires forall i :: 0 <= i < NumDirEntries ==> !fs.t[i].inUse
    requires forall s :: s in hm.Data() ==> s >= 2 && s !in hd.Data()
    requires forall s :: s in hd.Data() ==> s >= 2
    requires forall s :: 0 <= s < NumSectors ==> (fs.bits[s] <==> s < 2 || s in hm.Data() || s in hd.Data())
    ensures FsInv(d2, fs) && fs.hs[FreeMapSector] == hm && fs.hs[DirectorySector] == hd
    ensures Files(d2, fs) == map[]
  {
    hide BytesHeader;
    hide BytesTable;
    hide StoredBits;
    assert 0 !in hm.Data() && 0 !in hd.Data() && 1 !in hm.Data() && 1 !in hd.Data();
    assert fs.hs[FreeMapSector] == hm && fs.hs[DirectorySector] == hd;
    FormatConsistent(fs);
    FileBytesFrame(d1, d2, hm);
    assert forall key :: !Listed(fs.t, key);
  }

  lemma DescribedShape(d: Image, fs: Fs)
    requires FsInv(d, fs)
    ensures ValidImage(d) && Shape(fs) && HeaderOk(fs.hs[FreeMapSector]) && HeaderOk(fs.hs[DirectorySector])
    ensures fs.hs[FreeMapSector].numBytes == FreeMapFileSize && fs.hs[DirectorySector].numBytes == DirectoryFileSize
  {
  }

  /** The three writes of Create have its effect. */
  lemma CreateWrites(d: Image, fs: Fs, d1: Image, d2: Image, d3: Image, fs': Fs, name: seq<byte>, i: int, h: Header)
    requires FsInv(d, fs) && ValidImage(d) && Shape(fs) && HeaderOk(fs.hs[FreeMapSector]) && HeaderOk(fs.hs[DirectorySector])
    requires ValidImage(d1) && ValidImage(d2) && ValidImage(d3) && Shape(fs') && fs'.hs == HeadersOf(d3)
    requires FirstClear(fs.bits, 0) >= 0 && Storable(h) && 0 <= h.numBytes <= MaxFileSize && h.numSectors == SectorsFor(h.numBytes)
    requires var sector := FirstClear(fs.bits, 0);
             && d1 == d[sector := d1[sector]] && BytesHeader(d1[sector]) == h
             && 0 <= i < NumDirEntries && !fs.t[i].inUse && Added(fs.t, fs'.t, i, name, sector)
             && SectorsFor(h.numBytes) <= ClearCount(fs.bits[sector := true])
             && (h.Data(), fs'.bits) == TakeClear(fs.bits[sector := true], SectorsFor(h.numBytes))
    requires SameOutside(d1, d2, fs.hs[DirectorySector]) && SameOutside(d2, d3, fs.hs[FreeMapSector])
    requires BytesTable(FileBytes(d2, fs.hs[DirectorySector])) == fs'.t
    requires StoredBits(FileBytes(d3, fs.hs[FreeMapSector])) == fs'.bits
    ensures CreateEffect(d, fs, d3, fs', name, h.numBytes, i, h)
    ensures fs'.hs[FreeMapSector] == fs.hs[FreeMapSector] && fs'.hs[DirectorySector] == fs.hs[DirectorySector]
  {
    hide Describes;
    hide BytesHeader;
    hide BytesTable;
    hide StoredBits;
    var sector := FirstClear(fs.bits, 0);
    FreeIsUnowned(fs, sector);
    SystemWrites(d, fs, d1, d2, d3, sector, DirectorySector, FreeMapSector);
    DescribesWritten(d, d3, fs, fs', sector);
    UntouchedHeaders(d, d3, fs, sector);
    UnownedIsOutside(fs, sector);
  }

  lemma UnownedIsOutside(fs: Fs, x: int)
    requires Consistent(fs) && HeaderOk(fs.hs[FreeMapSector]) && HeaderOk(fs.hs[DirectorySector]) && forall k :: !Owns(fs, k, x)
    ensures x !in fs.hs[FreeMapSector].Data() && x !in fs.hs[DirectorySector].Data()
  {
    assert Live(fs.t, 0) && Live(fs.t, 1) && Root(fs.t, 0) == 0 && Root(fs.t, 1) == 1;
    assert !Owns(fs, 0, x) && !Owns(fs, 1, x);
  }

  /** When Create succeeds. */
  ghost predicate CanCreate(fs: Fs, name: seq<byte>, size: int) {
    !Listed(fs.t, NameKey(name)) && HasFreeSlot(fs.t) && 1 + SectorsFor(size) <= ClearCount(fs.bits)
  }

  lemma EntriesInRange(fs: Fs)
    requires Consistent(fs)
    ensures forall i :: 0 <= i < NumDirEntries && fs.t[i].inUse ==> 0 <= fs.t[i].sector < NumSectors
  {
    forall i | 0 <= i < NumDirEntries && fs.t[i].inUse
      ensures 0 <= fs.t[i].sector < NumSectors
    {
      EntryRoot(fs, i);
    }
  }

  /** The sectors of a listed file are marked, so that the assertion in Deallocate never fails. */
  lemma FileIsMarked(fs: Fs, i: int)
    requires Consistent(fs) && 0 <= i < NumDirEntries && fs.t[i].inUse && RootOk(fs.hs, fs.t[i].sector)
    ensures forall s :: s in fs.hs[fs.t[i].sector].Data() ==> fs.bits[s]
    ensures fs.bits[fs.t[i].sector]
  {
    EntryRoot(fs, i);
    assert Owns(fs, i + 2, fs.t[i].sector);
    forall s | s in fs.hs[fs.t[i].sector].Data()
      ensures fs.bits[s]
    {
      assert Owns(fs, i + 2, s);
    }
  }

  lemma HeaderAt(d: Image, fs: Fs, s: int)
    requires FsInv(d, fs) && 0 <= s < NumSectors && ValidImage(d) && Shape(fs)
    ensures BytesHeader(d[s]) == fs.hs[s]
  {
    hide BytesHeader;
    hide BytesTable;
    hide StoredBits;
    hide Consistent;
  }

  lemma OneEntry(t: seq<Entry>, key: seq<byte>, i: int, j: int)
    requires UniqueKeys(t) && IsEntry(t, key, i) && IsEntry(t, key, j)
    ensures i == j
  {
  }

  /** The entry a Create made is the one a Remove of the same name takes away. */
  lemma CreatedEntry(d: Image, fs: Fs, d1: Image, fs1: Fs, name: seq<byte>, size: int, i: int, h: Header, j: int)
    requires FsInv(d, fs) && !Listed(fs.t, NameKey(name)) && CreateEffect(d, fs, d1, fs1, name, size, i, h)
    requires IsEntry(fs1.t, NameKey(name), j)
    ensures i == j
  {
    hide Describes;
    assert i != j ==> IsEntry(fs.t, NameKey(name), j);
  }

  /** The two writes of Remove have its effect. */
  lemma RemoveWrites(d: Image, fs: Fs, d2: Image, d3: Image, fs': Fs, i: int)
    requires FsInv(d, fs) && ValidImage(d) && Shape(fs) && HeaderOk(fs.hs[FreeMapSector]) && HeaderOk(fs.hs[DirectorySector])
    requires ValidImage(d2) && ValidImage(d3) && Shape(fs') && fs'.hs == HeadersOf(d3)
    requires 0 <= i < NumDirEntries && fs.t[i].inUse && RootOk(fs.hs, fs.t[i].sector)
    requires fs'.t == Dropped(fs.t, i)
    requires fs'.bits == ClearAll(fs.bits, fs.hs[fs.t[i].sector].Data())[fs.t[i].sector := false]
    requires SameOutside(d, d2, fs.hs[FreeMapSector]) && SameOutside(d2, d3, fs.hs[DirectorySector])
    requires BytesTable(FileBytes(d3, fs.hs[DirectorySector])) == fs'.t
    requires StoredBits(FileBytes(d2, fs.hs[FreeMapSector])) == fs'.bits
    ensures RemoveEffect(d, fs, d3, fs', i)
    ensures fs'.hs[FreeMapSector] == fs.hs[FreeMapSector] && fs'.hs[DirectorySector] == fs.hs[DirectorySector]
  {
    hide Describes;
    hide BytesHeader;
    hide BytesTable;
    hide StoredBits;
    NobodyOwnsMinusOne(fs);
    SystemWrites(d, fs, d, d2, d3, -1, FreeMapSector, DirectorySector);
    DescribesWritten(d, d3, fs, fs', -1);
    UntouchedHeaders(d, d3, fs, -1);
  }
}

/** The file system itself. */
module FileSystems {
  import opened Layout
  import opened Storage
  import opened BitSpec
  import opened Bitmaps
  import opened FileHeaders
  import opened OpenFiles
  import opened Directories
  import Persistent = PersistentBitmaps
  import opened FsLayout
  import opened FileSystemSpec

  class FileSystem {
    const disk: SynchDisk
    const freeMapFile: OpenFile       // left open while the system runs
    const directoryFile: OpenFile
    ghost var fs: Fs                  // what the disk says

    ghost predicate Valid()
      reads this, disk, freeMapFile, freeMapFile.hdr, directoryFile, directoryFile.hdr
    {
      && freeMapFile.disk == disk && directoryFile.disk == disk
      && FsInv(disk.sectors, fs)
      && freeMapFile.hdr.View() == fs.hs[FreeMapSector] && directoryFile.hdr.View() == fs.hs[DirectorySector]
    }

    /** Start on a disk that has nothing on it, making it an empty file system. */
    constructor Format(synchDisk: SynchDisk)
      requires synchDisk.Valid()
      modifies synchDisk
      ensures Valid() && disk == synchDisk && Files(disk.sectors, fs) == map[]
    {
      var m, d, f := FormatDisk(synchDisk);
      disk, freeMapFile, directoryFile, fs := synchDisk, m, d, f;
    }

    /** Start on a disk that holds a file system already. */
    constructor Mount(synchDisk: SynchDisk, ghost what: Fs)
      requires FsInv(synchDisk.sectors, what)
      ensures Valid() && disk == synchDisk && fs == what
    {
      disk, fs := synchDisk, what;
      freeMapFile := new OpenFile(synchDisk, FreeMapSector);
      directoryFile := new OpenFile(synchDisk, DirectorySector);
    }

    /** The headers of the two system files, on an empty free map. Both allocations succeed. */
    static method FormatHeaders() returns (freeMap: Bitmap, mapHdr: FileHeader, dirHdr: FileHeader)
      ensures fresh(freeMap.words) && freeMap.Valid() && freeMap.numBits == NumSectors && fresh(mapHdr) && fresh(dirHdr) && mapHdr != dirHdr
      ensures HeaderOk(mapHdr.View()) && HeaderOk(dirHdr.View())
      ensures mapHdr.numBytes == FreeMapFileSize && dirHdr.numBytes == DirectoryFileSize
      ensures forall s :: s in mapHdr.View().Data() ==> s >= 2 && s !in dirHdr.View().Data()
      ensures forall s :: s in dirHdr.View().Data() ==> s >= 2
      ensures forall s :: 0 <= s < NumSectors ==>
                (freeMap.View()[s] <==> s < 2 || s in mapHdr.View().Data() || s in dirHdr.View().Data())
    {
      hide TakeClear, ClearCount;
      freeMap := new Bitmap(NumSectors);
      mapHdr := new FileHeader();
      dirHdr := new FileHeader();
      ghost var junkMap, junkDir := mapHdr.View(), dirHdr.View();
      AllClearCount(freeMap.View());
      ClearCountUpdate(freeMap.View(), FreeMapSector, true);
      freeMap.Mark(FreeMapSector);
      ClearCountUpdate(freeMap.View(), DirectorySector, true);
      freeMap.Mark(DirectorySector);
      ghost var b1 := freeMap.View();
      var okMap := mapHdr.Allocate(freeMap, FreeMapFileSize);
      assert okMap;       // ASSERT(mapHdr->Allocate(freeMap, FreeMapFileSize))
      ghost var b2 := freeMap.View();
      AllocatedHeader(b1, b2, junkMap, mapHdr.View());
      var okDir := dirHdr.Allocate(freeMap, DirectoryFileSize);
      assert okDir;       // ASSERT(dirHdr->Allocate(freeMap, DirectoryFileSize))
      AllocatedHeader(b2, freeMap.View(), junkDir, dirHdr.View());
    }

    static method FormatDisk(disk: SynchDisk) returns (mapFile: OpenFile, dirFile: OpenFile, ghost fs: Fs)
      requires disk.Valid()
      modifies disk
      ensures mapFile.disk == disk && dirFile.disk == disk && FsInv(disk.sectors, fs)
      ensures mapFile.hdr.View() == fs.hs[FreeMapSector] && dirFile.hdr.View() == fs.hs[DirectorySector]
      ensures Files(disk.sectors, fs) == map[]
    {
      hide BytesHeader;
      hide HeaderBytes;
      hide BytesTable;
      hide TableBytes;
      hide Persistent.StoredBits;
      hide Consistent, FilesOf, FileSystemSpec.Describes;
      var freeMap, mapHdr, dirHdr := FormatHeaders();
      ghost var hm, hd := mapHdr.View(), dirHdr.View();
      var directory := new Directory(NumDirEntries);
      mapHdr.WriteBack(disk, FreeMapSector);
      dirHdr.WriteBack(disk, DirectorySector);
      HeaderRoundTrip(hm);
      HeaderRoundTrip(hd);
      mapFile := new OpenFile(disk, FreeMapSector);
      dirFile := new OpenFile(disk, DirectorySector);
      ghost var d := disk.sectors;
      Persistent.WriteBack(freeMap, mapFile);
      ghost var d1 := disk.sectors;
      directory.WriteBack(dirFile);
      TableRoundTrip(directory.table[..]);
      fs := Fs(HeadersOf(disk.sectors), directory.table[..], freeMap.View());
      FormatDescribes(d, d1, disk.sectors, fs, hm, hd);
    }

    /** The directory in memory, as every operation begins by reading it. */
    method FetchDirectory() returns (directory: Directory)
      requires Valid()
      ensures fresh(directory.table) && directory.table[..] == fs.t
    {
      hide RootsOk;
      hide Disjoint;
      hide MapExact;
      hide UniqueKeys;
      hide BytesHeader;
      hide BytesTable;
      hide Persistent.StoredBits;
      directory := new Directory(NumDirEntries);
      directory.FetchFrom(directoryFile);
    }

    method FetchFreeMap() returns (freeMap: Bitmap)
      requires Valid()
      ensures freeMap.Valid() && fresh(freeMap.words) && freeMap.numBits == NumSectors && freeMap.View() == fs.bits
    {
      hide RootsOk;
      hide Disjoint;
      hide MapExact;
      hide UniqueKeys;
      hide BytesHeader;
      hide BytesTable;
      hide Persistent.StoredBits;
      freeMap := new Bitmap(NumSectors);
      Persistent.FetchFrom(freeMap, freeMapFile);
    }

    /** The writes of a successful Create: the new header, the directory, the free map. */
    method CommitCreate(hdr: FileHeader, sector: int, directory: Directory, freeMap: Bitmap, name: seq<byte>, ghost i: int)
      requires Valid() && !Listed(fs.t, NameKey(name))
      requires freeMap.Valid() && freeMap.numBits == NumSectors && directory.table.Length == NumDirEntries
      requires sector == FirstClear(fs.bits, 0) && sector >= 0
      requires 0 <= i < NumDirEntries && !fs.t[i].inUse && Added(fs.t, directory.table[..], i, name, sector)
      requires Storable(hdr.View()) && 0 <= hdr.numBytes <= MaxFileSize && hdr.numSectors == SectorsFor(hdr.numBytes)
      requires hdr.numSectors <= ClearCount(fs.bits[sector := true])
      requires (hdr.View().Data(), freeMap.View()) == TakeClear(fs.bits[sector := true], hdr.numSectors)
      requires hdr != freeMapFile.hdr && hdr != directoryFile.hdr
      modifies disk, `fs
      ensures Valid()
      ensures CreateEffect(old(disk.sectors), old(fs), disk.sectors, fs, name, hdr.numBytes, i, hdr.View())
    {
      hide Consistent;
      hide Describes;
      hide BytesHeader;
      hide BytesTable;
      hide Persistent.StoredBits;
      ghost var d, f, h := disk.sectors, fs, hdr.View();
      DescribedShape(d, f);
      hdr.WriteBack(disk, sector);
      HeaderRoundTrip(h);
      ghost var d1 := disk.sectors;
      ghost var d2 := FlushDirectoryFirst(directory, freeMap);
      fs := Fs(HeadersOf(disk.sectors), directory.table[..], freeMap.View());
      CreateWrites(d, f, d1, d2, disk.sectors, fs, name, i, h);
      CreateKeepsInvariant(d, f, disk.sectors, fs, name, h.numBytes, i, h);
    }

    method FlushDirectoryFirst(directory: Directory, freeMap: Bitmap) returns (ghost d2: Image)
      requires freeMapFile.disk == disk && directoryFile.disk == disk && freeMapFile.Valid() && directoryFile.Valid()
      requires freeMapFile.hdr.numBytes == FreeMapFileSize && directoryFile.hdr.numBytes == DirectoryFileSize
      requires freeMap.Valid() && freeMap.numBits == NumSectors && directory.table.Length == NumDirEntries
      modifies disk
      ensures ValidImage(d2) && ValidImage(disk.sectors)
      ensures SameOutside(old(disk.sectors), d2, directoryFile.hdr.View()) && SameOutside(d2, disk.sectors, freeMapFile.hdr.View())
      ensures BytesTable(FileBytes(d2, directoryFile.hdr.View())) == directory.table[..]
      ensures Persistent.StoredBits(FileBytes(disk.sectors, freeMapFile.hdr.View())) == freeMap.View()
    {
      hide BytesTable;
      hide TableBytes;
      hide Persistent.StoredBits;
      directory.WriteBack(directoryFile);
      d2 := disk.sectors;
      TableRoundTrip(directory.table[..]);
      Persistent.WriteBack(freeMap, freeMapFile);
    }

    /** Create a file of the given size. All or nothing: it succeeds exactly when the name is new, an
        entry is free and there are sectors for the header and the data, and a failed Create leaves
        the disk as it was. */
    method Create(name: seq<byte>, initialSize: int) returns (ok: bool)
      requires Valid() && 0 <= initialSize <= MaxFileSize
      modifies disk, `fs
      ensures Valid() && (ok <==> CanCreate(old(fs), name, initialSize))
      ensures !ok ==> disk.sectors == old(disk.sectors) && fs == old(fs)
      ensures ok ==> exists i, h :: CreateEffect(old(disk.sectors), old(fs), disk.sectors, fs, name, initialSize, i, h)
      ensures ok ==> var m, m', key := old(Files(disk.sectors, fs)), Files(disk.sectors, fs), NameKey(name);
                     key !in m && key in m' && |m'[key]| == initialSize && m' == m[key := m'[key]]
    {
      hide FilesOf;
      hide FileSystemSpec.Describes;
      hide Disjoint;
      hide MapExact;
      hide UniqueKeys;
      hide CreateEffect;
      ghost var d, f := disk.sectors, fs;
      var directory := FetchDirectory();
      EntriesInRange(fs);
      var found := directory.Find(name);
      if found != -1 {
        return false;
      }
      var freeMap := FetchFreeMap();
      var sector := freeMap.FindAndSet();
      CountFindsClear(fs.bits);
      if sector == -1 {
        return false;
      }
      var added := directory.Add(name, sector);
      if !added {
        return false;
      }
      var hdr := new FileHeader();
      ghost var junk, b1 := hdr.View(), freeMap.View();
      ClearCountUpdate(fs.bits, sector, true);
      var space := hdr.Allocate(freeMap, initialSize);
      if !space {
        return false;
      }
      StorableAllocated(junk, hdr.View(), b1);
      ghost var i :| 0 <= i < NumDirEntries && !fs.t[i].inUse && Added(fs.t, directory.table[..], i, name, sector);
      CommitCreate(hdr, sector, directory, freeMap, name, i);
      CreateRefines(d, f, disk.sectors, fs, name, initialSize, i, hdr.View());
      return true;
    }

    /** Open a file by name; null when there is none. */
    method Open(name: seq<byte>) returns (file: OpenFile?)
      requires Valid()
      ensures file == null <==> NameKey(name) !in Files(disk.sectors, fs)
      ensures file != null ==> file.disk == disk && file.Valid() && file.seekPosition == 0
                               && file.Contents() == Files(disk.sectors, fs)[NameKey(name)]
      ensures file != null ==> exists i :: IsEntry(fs.t, NameKey(name), i) && Shape(fs) && 0 <= fs.t[i].sector < NumSectors && file.hdr.View() == fs.hs[fs.t[i].sector]
    {
      hide FilesOf;
      var directory := FetchDirectory();
      EntriesInRange(fs);
      var sector := directory.Find(name);
      if sector >= 0 {
        ghost var i :| IsEntry(fs.t, NameKey(name), i) && fs.t[i].sector == sector;
        file := new OpenFile(disk, sector);
        EntryRoot(fs, i);
        FileOfEntry(fs.t, AllFiles(disk.sectors, fs), i);
      } else {
        file := null;
      }
    }

    /** Delete a file, giving its sectors back; false when there is no such file. */
    method Remove(name: seq<byte>) returns (ok: bool)
      requires Valid()
      modifies disk, `fs
      ensures Valid() && (ok <==> NameKey(name) in old(Files(disk.sectors, fs)))
      ensures !ok ==> disk.sectors == old(disk.sectors) && fs == old(fs)
      ensures ok ==> exists i :: IsEntry(old(fs).t, NameKey(name), i) && RemoveEffect(old(disk.sectors), old(fs), disk.sectors, fs, i)
      ensures ok ==> Files(disk.sectors, fs) == old(Files(disk.sectors, fs)) - {NameKey(name)}
    {
      hide FilesOf;
      hide FileSystemSpec.Describes;
      hide BytesHeader;
      hide RootsOk;
      hide Disjoint;
      hide MapExact;
      hide UniqueKeys;
      hide RemoveEffect;
      ghost var d, f := disk.sectors, fs;
      DescribedShape(d, f);
      var directory := FetchDirectory();
      EntriesInRange(fs);
      var sector := directory.Find(name);
      if sector == -1 {
        return false;
      }
      ghost var i :| IsEntry(fs.t, NameKey(name), i) && fs.t[i].sector == sector;
      EntryRoot(fs, i);
      var freeMap := FreeSectors(sector, i);
      var gone := directory.Remove(name);
      ghost var j :| IsEntry(f.t, NameKey(name), j) && directory.table[..] == Dropped(f.t, j);
      OneEntry(f.t, NameKey(name), i, j);
      CommitRemove(directory, freeMap, i);
      RemoveRefines(d, f, disk.sectors, fs, i);
      return true;
    }

    /** A Create followed by a Remove of the same name: afterwards the free map and the files are what they
        were, whether or not there was room for the file. */
    method CreateAndRemove(name: seq<byte>, initialSize: int) returns (ok: bool)
      requires Valid() && 0 <= initialSize <= MaxFileSize
      modifies disk, `fs
      ensures Valid() && (ok <==> CanCreate(old(fs), name, initialSize))
      ensures fs.bits == old(fs).bits && Files(disk.sectors, fs) == old(Files(disk.sectors, fs))
    {
      hide FilesOf, FileSystemSpec.Describes, Consistent, CreateEffect, RemoveEffect;
      ghost var d, f := disk.sectors, fs;
      ok := Create(name, initialSize);
      if ok {
        ghost var d1, f1 := disk.sectors, fs;
        ghost var i, h :| CreateEffect(d, f, d1, f1, name, initialSize, i, h);
        var removed := Remove(name);
        ghost var j :| IsEntry(f1.t, NameKey(name), j) && RemoveEffect(d1, f1, disk.sectors, fs, j);
        CreatedEntry(d, f, d1, f1, name, initialSize, i, h, j);
        FileSystemSpec.CreateThenRemove(d, f, d1, f1, disk.sectors, fs, name, initialSize, i, h);
      }
    }

    /** Remove's work on the free map: the data sectors, then the header. */
    method FreeSectors(sector: int, ghost i: int) returns (freeMap: Bitmap)
      requires Valid() && 0 <= i < NumDirEntries && fs.t[i].inUse && fs.t[i].sector == sector && RootOk(fs.hs, sector)
      ensures fresh(freeMap.words) && freeMap.Valid() && freeMap.numBits == NumSectors
      ensures freeMap.View() == ClearAll(fs.bits, fs.hs[sector].Data())[sector := false]
    {
      hide FileSystemSpec.Describes;
      hide BytesHeader;
      hide RootsOk;
      hide Disjoint;
      hide MapExact;
      hide UniqueKeys;
      DescribedShape(disk.sectors, fs);
      HeaderAt(disk.sectors, fs, sector);
      var fileHdr := new FileHeader();
      fileHdr.FetchFrom(disk, sector);
      freeMap := FetchFreeMap();
      FileIsMarked(fs, i);
      fileHdr.Deallocate(freeMap);
      freeMap.Clear(sector);
    }

    /** The writes of Remove: the free map, then the directory. */
    method CommitRemove(directory: Directory, freeMap: Bitmap, ghost i: int)
      requires Valid() && freeMap.Valid() && freeMap.numBits == NumSectors && directory.table.Length == NumDirEntries
      requires 0 <= i < NumDirEntries && fs.t[i].inUse && RootOk(fs.hs, fs.t[i].sector)
      requires directory.table[..] == Dropped(fs.t, i)
      requires freeMap.View() == ClearAll(fs.bits, fs.hs[fs.t[i].sector].Data())[fs.t[i].sector := false]
      modifies disk, `fs
      ensures Valid() && RemoveEffect(old(disk.sectors), old(fs), disk.sectors, fs, i)
    {
      hide Consistent;
      hide FileSystemSpec.Describes;
      hide BytesHeader;
      hide BytesTable;
      hide TableBytes;
      hide Persistent.StoredBits;
      ghost var d, f := disk.sectors, fs;
      DescribedShape(d, f);
      Persistent.WriteBack(freeMap, freeMapFile);
      ghost var d2 := disk.sectors;
      directory.WriteBack(directoryFile);
      TableRoundTrip(directory.table[..]);
      fs := Fs(HeadersOf(disk.sectors), directory.table[..], freeMap.View());
      RemoveWrites(d, f, d2, disk.sectors, fs, i);
      RemoveKeepsInvariant(d, f, disk.sectors, fs, i);
    }

    /** OpenFile::WriteAt on a handle of a file that is listed, seen from the whole file system: that
        file's bytes are spliced, and no other file changes. */
    method WriteAt(file: OpenFile, from: array<byte>, numBytes: int, position: int, ghost i: int) returns (n: int)
      requires Valid() && file.disk == disk && 0 <= position
      requires 0 <= i < NumDirEntries && fs.t[i].inUse && RootOk(fs.hs, fs.t[i].sector) && file.hdr.View() == fs.hs[fs.t[i].sector]
      requires Clamp(file.hdr.numBytes, numBytes, position) <= from.Length
      modifies disk, `fs
      ensures Valid() && n == Clamp(file.hdr.numBytes, numBytes, position)
      ensures fs.t == old(fs).t && fs.bits == old(fs).bits
      ensures n >= 0 && SplicedInto(old(Files(disk.sectors, fs)), Files(disk.sectors, fs), EntryKey(old(fs).t[i]), position, from[..n])
    {
      hide FilesOf;
      hide FileSystemSpec.Describes;
      hide BytesHeader;
      hide RootsOk;
      hide Disjoint;
      hide MapExact;
      hide UniqueKeys;
      ghost var d, f := disk.sectors, fs;
      DescribedShape(d, f);
      FileOfEntry(f.t, AllFiles(d, f), i);
      n := file.WriteAt(from, numBytes, position);
      WriteKeepsInvariant(d, f, disk.sectors, i);
      WriteRefines(d, f, disk.sectors, i);
      WriteKeepsSystem(d, f, disk.sectors, i);
      fs := Fs(HeadersOf(disk.sectors), f.t, f.bits);
    }
  }
}

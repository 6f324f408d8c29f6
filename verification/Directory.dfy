/** C strings as far as directories use them: strncmp and strncpy. A name is given without its
    terminating NUL; a stored name is a buffer that may hold anything after a NUL. */
module Names {
  import opened Layout

  function CharAt(s: seq<byte>): byte { if s == [] then 0 else s[0] }

  function Tail(s: seq<byte>): seq<byte> { if s == [] then [] else s[1..] }

  /** strncmp(a, b, n) == 0 */
  predicate StrnEqual(a: seq<byte>, b: seq<byte>, n: nat) {
    n == 0 || (CharAt(a) == CharAt(b) && (CharAt(a) == 0 || StrnEqual(Tail(a), Tail(b), n - 1)))
  }

  /** The first n bytes strncpy(dst, src, n) leaves in dst: short strings are padded with NULs. */
  function StrnCopy(src: seq<byte>, n: nat): (r: seq<byte>)
    ensures |r| == n
  {
    if n == 0 then []
    else if CharAt(src) == 0 then seq(n, i => 0 as byte)
    else [src[0]] + StrnCopy(src[1..], n - 1)
  }

  /** What a name is known by: its first n characters, up to a NUL. */
  ghost function Key(s: seq<byte>, n: nat): seq<byte> {
    if n == 0 || CharAt(s) == 0 then [] else [s[0]] + Key(s[1..], n - 1)
  }

  /** That is: it ends at the first NUL, at the end of the name or after n characters, whichever comes
      first, and is the name up to there. */
  lemma {:induction false} KeyIsPrefix(s: seq<byte>, n: nat)
    ensures var m := |Key(s, n)|;
            && m <= n && m <= |s| && Key(s, n) == s[..m] && 0 !in s[..m]
            && (m == n || m == |s| || s[m] == 0)
  {
    if n > 0 && CharAt(s) != 0 {
      KeyIsPrefix(s[1..], n - 1);
      var m := |Key(s, n)|;
      assert s[..m] == [s[0]] + s[1..][..m - 1];
    }
  }

  lemma {:induction false} EqualIffSameKey(a: seq<byte>, b: seq<byte>, n: nat)
    ensures StrnEqual(a, b, n) <==> Key(a, n) == Key(b, n)
  {
    if n > 0 && CharAt(a) != 0 && CharAt(b) != 0 {
      EqualIffSameKey(a[1..], b[1..], n - 1);
      assert Key(a, n)[0] == a[0] && Key(b, n)[0] == b[0];
      assert Key(a, n)[1..] == Key(a[1..], n - 1) && Key(b, n)[1..] == Key(b[1..], n - 1);
    }
  }

  lemma {:induction false} CopyKeepsKey(src: seq<byte>, n: nat, rest: seq<byte>)
    ensures Key(StrnCopy(src, n) + rest, n) == Key(src, n)
  {
    if n > 0 && CharAt(src) != 0 {
      CopyKeepsKey(src[1..], n - 1, rest);
      assert (StrnCopy(src, n) + rest)[1..] == StrnCopy(src[1..], n - 1) + rest;
    }
  }
}

/** The directory (filesys/directory.cc): a table of names and header sectors, stored as a file. */
module Directories {
  import opened Layout
  import opened Storage
  import opened FileHeaders
  import opened OpenFiles
  import opened Names

  const FileNameMaxLen: nat := 9
  const EntrySize: nat := 20

  type NameBuffer = s: seq<byte> | |s| == 10 witness [0, 0, 0, 0, 0, 0, 0, 0, 0, 0]

  datatype Entry = Entry(inUse: bool, sector: int32, name: NameBuffer)

  ghost function EntryKey(e: Entry): seq<byte> { Key(e.name, FileNameMaxLen) }

  ghost function NameKey(name: seq<byte>): seq<byte> { Key(name, FileNameMaxLen) }

  /** Names differ within their first nine characters or not at all. */
  lemma NineCharacters(name: seq<byte>, m: nat)
    requires m <= |name| && 0 !in name[..m] && (m == 9 || (m < 9 && (m == |name| || name[m] == 0)))
    ensures NameKey(name) == name[..m]
  {
    KeyIsPrefix(name, FileNameMaxLen);
  }

  /** An entry as stored: the flag, the sector and the name, each at its aligned offset. The padding
      bytes are never read. */
  function EntryBytes(e: Entry): (s: seq<byte>)
    ensures |s| == EntrySize
  {
    [if e.inUse then 1 else 0, 0, 0, 0] + IntBytes(e.sector) + e.name + [0, 0]
  }

  function BytesEntry(s: seq<byte>): Entry
    requires |s| == EntrySize
  {
    Entry(s[0] != 0, BytesInt(s[4..8]), s[8..18])
  }

  lemma EntryRoundTrip(e: Entry)
    ensures BytesEntry(EntryBytes(e)) == e
  {
    IntRoundTrip(e.sector);
    var s := EntryBytes(e);
    assert s[4..8] == IntBytes(e.sector) && s[8..18] == e.name;
  }

  function TableBytes(t: seq<Entry>): (s: seq<byte>)
    ensures |s| == EntrySize * |t|
  {
    if t == [] then [] else EntryBytes(t[0]) + TableBytes(t[1..])
  }

  function BytesTable(s: seq<byte>): (t: seq<Entry>)
    ensures |t| == |s| / EntrySize
  {
    if |s| < EntrySize then [] else [BytesEntry(s[..EntrySize])] + BytesTable(s[EntrySize..])
  }

  lemma {:induction false} TableRoundTrip(t: seq<Entry>)
    ensures BytesTable(TableBytes(t)) == t
  {
    if t != [] {
      EntryRoundTrip(t[0]);
      TableRoundTrip(t[1..]);
      assert TableBytes(t)[..EntrySize] == EntryBytes(t[0]) && TableBytes(t)[EntrySize..] == TableBytes(t[1..]);
    }
  }

  /** i is the entry with this key. */
  ghost predicate IsEntry(t: seq<Entry>, key: seq<byte>, i: int) {
    0 <= i < |t| && t[i].inUse && EntryKey(t[i]) == key
  }

  ghost predicate Listed(t: seq<Entry>, key: seq<byte>) {
    exists i :: IsEntry(t, key, i)
  }

  /** No two entries in use share a key. */
  ghost predicate UniqueKeys(t: seq<Entry>) {
    forall i, j :: 0 <= i < j < |t| && t[i].inUse && t[j].inUse ==> EntryKey(t[i]) != EntryKey(t[j])
  }

  ghost predicate HasFreeSlot(t: seq<Entry>) {
    exists i :: 0 <= i < |t| && !t[i].inUse
  }

  /** The entry with a key, or -1. */
  ghost function IndexOf(t: seq<Entry>, key: seq<byte>): (i: int)
    ensures i == -1 <==> !Listed(t, key)
    ensures i >= 0 ==> IsEntry(t, key, i)
    ensures -1 <= i
  {
    if Listed(t, key) then var i :| IsEntry(t, key, i); i else -1
  }

  ghost function Keys(t: seq<Entry>): (r: set<seq<byte>>)
    ensures forall key :: key in r <==> Listed(t, key)
  {
    var r := set i | 0 <= i < |t| && t[i].inUse :: EntryKey(t[i]);
    assert forall i :: 0 <= i < |t| && t[i].inUse ==> IsEntry(t, EntryKey(t[i]), i);
    r
  }

  /** The map from names to contents a directory stands for, c[i] being the file of entry i. */
  ghost function FilesOf<V>(t: seq<Entry>, c: seq<V>): (m: map<seq<byte>, V>)
    requires |c| == |t|
    ensures forall key :: key in m <==> Listed(t, key)
  {
    map key | key in Keys(t) :: c[IndexOf(t, key)]
  }

  lemma FileOfEntry<V>(t: seq<Entry>, c: seq<V>, i: int)
    requires |c| == |t| && UniqueKeys(t) && 0 <= i < |t| && t[i].inUse
    ensures EntryKey(t[i]) in FilesOf(t, c) && FilesOf(t, c)[EntryKey(t[i])] == c[i]
  {
    assert IsEntry(t, EntryKey(t[i]), i);
    var j := IndexOf(t, EntryKey(t[i]));
    assert IsEntry(t, EntryKey(t[i]), j);
    assert i == j;
  }

  /** A change to one entry leaves the map as it is at every other key. */
  lemma OtherKeys<V>(t: seq<Entry>, c: seq<V>, t': seq<Entry>, c': seq<V>, i: int, key: seq<byte>)
    requires |c| == |t| == |t'| == |c'| && 0 <= i < |t| && UniqueKeys(t) && UniqueKeys(t')
    requires forall j :: 0 <= j < |t| && j != i ==> t'[j] == t[j] && c'[j] == c[j]
    requires !IsEntry(t', key, i) && key in FilesOf(t', c')
    ensures !IsEntry(t, key, i) && key in FilesOf(t, c) && FilesOf(t', c')[key] == FilesOf(t, c)[key]
  {
    hide FilesOf;
    var j := IndexOf(t', key);
    FileOfEntry(t', c', j);
    FileOfEntry(t, c, j);
  }

  /** A free entry taken into use adds one file. */
  lemma FilesAdded<V>(t: seq<Entry>, c: seq<V>, t': seq<Entry>, c': seq<V>, i: int)
    requires |c| == |t| == |t'| == |c'| && 0 <= i < |t| && UniqueKeys(t) && UniqueKeys(t')
    requires forall j :: 0 <= j < |t| && j != i ==> t'[j] == t[j] && c'[j] == c[j]
    requires !t[i].inUse && t'[i].inUse
    ensures EntryKey(t'[i]) !in FilesOf(t, c) && FilesOf(t', c') == FilesOf(t, c)[EntryKey(t'[i]) := c'[i]]
  {
    hide FilesOf;
    var m, m', added := FilesOf(t, c), FilesOf(t', c'), EntryKey(t'[i]);
    FileOfEntry(t', c', i);
    forall key | key in m
      ensures key in m' && key != added && m'[key] == m[key]
    {
      var j := IndexOf(t, key);
      FileOfEntry(t, c, j);
      FileOfEntry(t', c', j);
    }
    forall key | key in m' && key != added
      ensures key in m
    {
      OtherKeys(t, c, t', c', i, key);
    }
  }

  /** An entry taken out of use removes one file. */
  lemma FilesDropped<V>(t: seq<Entry>, c: seq<V>, t': seq<Entry>, c': seq<V>, i: int)
    requires |c| == |t| == |t'| == |c'| && 0 <= i < |t| && UniqueKeys(t) && UniqueKeys(t')
    requires forall j :: 0 <= j < |t| && j != i ==> t'[j] == t[j] && c'[j] == c[j]
    requires t[i].inUse && !t'[i].inUse
    ensures EntryKey(t[i]) in FilesOf(t, c) && FilesOf(t', c') == FilesOf(t, c) - {EntryKey(t[i])}
  {
    hide FilesOf;
    FilesAdded(t', c', t, c, i);
    DropAdded(FilesOf(t', c'), EntryKey(t[i]), c[i]);
  }

  lemma DropAdded<K, V>(m: map<K, V>, k: K, v: V)
    requires k !in m
    ensures m[k := v] - {k} == m
  {
  }

  /** A file whose entry stays gets new contents. */
  lemma FilesRewritten<V>(t: seq<Entry>, c: seq<V>, c': seq<V>, i: int)
    requires |c| == |t| == |c'| && 0 <= i < |t| && UniqueKeys(t) && t[i].inUse
    requires forall j :: 0 <= j < |t| && j != i ==> c'[j] == c[j]
    ensures FilesOf(t, c') == FilesOf(t, c)[EntryKey(t[i]) := c'[i]]
  {
    FileOfEntry(t, c', i);
    assert forall key :: Listed(t, key) && IndexOf(t, key) == i ==> IsEntry(t, key, i);
  }

  class Directory {
    const table: array<Entry>

    /** An empty directory: only the inUse flags are set, the rest of the table is arbitrary. */
    constructor (size: nat)
      ensures fresh(table) && table.Length == size
      ensures forall i :: 0 <= i < size ==> !table[i].inUse
    {
      table := new Entry[size];
      new;
      for i := 0 to size
        invariant forall j :: 0 <= j < i ==> !table[j].inUse
      {
        table[i] := table[i].(inUse := false);
      }
    }

    /** Read the table from its file; what a short file does not cover stays as it was. */
    method FetchFrom(file: OpenFile)
      requires file.Valid()
      modifies table
      ensures file.hdr.numBytes == EntrySize * table.Length ==> table[..] == BytesTable(file.Contents())
    {
      hide TableBytes, BytesTable;
      var raw := TableBytes(table[..]);
      var buf := new byte[|raw|](i requires 0 <= i < |raw| => raw[i]);
      var n := file.ReadAt(buf, 0, |raw|, 0);
      assert file.hdr.numBytes == |raw| ==> buf[..] == file.Contents();
      Load(BytesTable(buf[..]));
    }

    method Load(t: seq<Entry>)
      requires |t| == table.Length
      modifies table
      ensures table[..] == t
    {
      for i := 0 to table.Length
        invariant table[..i] == t[..i]
      {
        table[i] := t[i];
      }
    }

    method WriteBack(file: OpenFile)
      requires file.Valid() && file.hdr.numBytes == EntrySize * table.Length
      modifies file.disk
      ensures file.Valid() && file.Contents() == TableBytes(table[..])
      ensures forall s :: 0 <= s < NumSectors && s !in file.hdr.View().Data() ==> file.disk.sectors[s] == old(file.disk.sectors)[s]
    {
      var raw := TableBytes(table[..]);
      var buf := new byte[|raw|](i requires 0 <= i < |raw| => raw[i]);
      assert buf[..] == raw;
      var n := file.WriteAt(buf, |raw|, 0);
    }

    method FindIndex(name: seq<byte>) returns (i: int)
      ensures -1 <= i < table.Length
      ensures i >= 0 ==> IsEntry(table[..], NameKey(name), i)
      ensures i == -1 <==> !Listed(table[..], NameKey(name))
    {
      i := 0;
      while i < table.Length
        invariant 0 <= i <= table.Length
        invariant forall j :: 0 <= j < i ==> !IsEntry(table[..], NameKey(name), j)
      {
        EqualIffSameKey(table[i].name, name, FileNameMaxLen);
        if table[i].inUse && StrnEqual(table[i].name, name, FileNameMaxLen) {
          assert IsEntry(table[..], NameKey(name), i);
          return i;
        }
        i := i + 1;
      }
      return -1;
    }

    /** The header sector of the named file, or -1. */
    method Find(name: seq<byte>) returns (sector: int)
      requires forall i :: 0 <= i < table.Length && table[i].inUse ==> table[i].sector >= 0
      ensures sector == -1 <==> !Listed(table[..], NameKey(name))
      ensures sector != -1 ==> exists i :: IsEntry(table[..], NameKey(name), i) && table[i].sector == sector
    {
      var i := FindIndex(name);
      if i != -1 {
        return table[i].sector;
      }
      return -1;
    }

    /** Add a name in the first free slot. */
    method Add(name: seq<byte>, newSector: int32) returns (ok: bool)
      modifies table
      ensures ok <==> !Listed(old(table[..]), NameKey(name)) && HasFreeSlot(old(table[..]))
      ensures !ok ==> table[..] == old(table[..])
      ensures ok ==> exists i :: 0 <= i < table.Length && !old(table[i]).inUse && Added(old(table[..]), table[..], i, name, newSector)
                                 && forall j :: 0 <= j < i ==> old(table[j]).inUse
    {
      var found := FindIndex(name);
      if found != -1 {
        return false;
      }
      var i := 0;
      while i < table.Length
        invariant 0 <= i <= table.Length && table[..] == old(table[..])
        invariant forall j :: 0 <= j < i ==> table[j].inUse
      {
        if !table[i].inUse {
          CopyKeepsKey(name, FileNameMaxLen, table[i].name[9..]);
          table[i] := Entry(true, newSector, StrnCopy(name, FileNameMaxLen) + table[i].name[9..]);
          assert Added(old(table[..]), table[..], i, name, newSector);
          return true;
        }
        i := i + 1;
      }
      return false;
    }

    /** Take the named entry out of use. */
    method Remove(name: seq<byte>) returns (ok: bool)
      modifies table
      ensures ok <==> Listed(old(table[..]), NameKey(name))
      ensures !ok ==> table[..] == old(table[..])
      ensures ok ==> exists i :: IsEntry(old(table[..]), NameKey(name), i) && table[..] == old(table[..])[i := old(table[i]).(inUse := false)]
    {
      var i := FindIndex(name);
      if i == -1 {
        return false;
      }
      table[i] := table[i].(inUse := false);
      return true;
    }
  }

  /** The table with slot i taken by a name. */
  ghost predicate Added(t: seq<Entry>, t': seq<Entry>, i: int, name: seq<byte>, sector: int) {
    && 0 <= i < |t| && |t'| == |t|
    && t'[i].inUse && t'[i].sector == sector && EntryKey(t'[i]) == NameKey(name)
    && (forall j :: 0 <= j < |t| && j != i ==> t'[j] == t[j])
  }
}

/** Bitmaps kept in a file (filesys/pbitmap.cc). */
module PersistentBitmaps {
  import opened Layout
  import opened Storage
  import opened FileHeaders
  import opened OpenFiles
  import opened WordBits
  import opened Bitmaps

  /** The bits a file holds. */
  ghost function StoredBits(f: seq<byte>): (bits: seq<bool>)
    ensures |bits| == 32 * (|f| / 4)
  {
    Bits(BytesWords(f), 32 * (|f| / 4))
  }

  /** PersistentBitmap::FetchFrom, on a map that fills the file exactly. */
  method FetchFrom(m: Bitmap, file: OpenFile)
    requires m.Valid() && file.Valid() && file.hdr.numBytes == 4 * m.numWords && m.numBits == 32 * m.numWords
    modifies m.words
    ensures m.View() == StoredBits(file.Contents())
  {
    var raw := WordsBytes(m.words[..]);
    var buf := new byte[|raw|](i requires 0 <= i < |raw| => raw[i]);
    var n := file.ReadAt(buf, 0, |raw|, 0);
    assert buf[..] == file.Contents();
    LoadWords(m.words, BytesWords(buf[..]));
  }

  method LoadWords(words: array<bv32>, ws: seq<bv32>)
    requires |ws| == words.Length
    modifies words
    ensures words[..] == ws
  {
    for i := 0 to words.Length
      invariant words[..i] == ws[..i]
    {
      words[i] := ws[i];
    }
  }

  method WriteBack(m: Bitmap, file: OpenFile)
    requires m.Valid() && file.Valid() && file.hdr.numBytes == 4 * m.numWords && m.numBits == 32 * m.numWords
    modifies file.disk
    ensures file.Valid() && StoredBits(file.Contents()) == m.View()
    ensures forall s :: 0 <= s < NumSectors && s !in file.hdr.View().Data() ==> file.disk.sectors[s] == old(file.disk.sectors)[s]
  {
    var raw := WordsBytes(m.words[..]);
    WordsRoundTrip(m.words[..]);
    var buf := new byte[|raw|](i requires 0 <= i < |raw| => raw[i]);
    assert buf[..] == raw;
    var n := file.WriteAt(buf, |raw|, 0);
    assert file.Contents() == raw;
  }
}

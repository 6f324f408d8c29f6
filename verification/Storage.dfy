/** How in-memory structures are laid out as bytes when they are written to disk: 32-bit words in
    little-endian order. */
module Layout {
  type byte = b: int | 0 <= b < 256

  predicate IsInt32(x: int) { -0x8000_0000 <= x < 0x8000_0000 }

  type int32 = x: int | IsInt32(x)

  function UnsignedBytes(u: int): (s: seq<byte>)
    requires 0 <= u < 0x1_0000_0000
    ensures |s| == 4
  {
    [u % 256, u / 256 % 256, u / 0x1_0000 % 256, u / 0x100_0000]
  }

  function BytesUnsigned(s: seq<byte>): (u: int)
    requires |s| == 4
    ensures 0 <= u < 0x1_0000_0000
  {
    (s[0] as int) + 256 * (s[1] as int) + 0x1_0000 * (s[2] as int) + 0x100_0000 * (s[3] as int)
  }

  /** An int as stored, in two's complement. */
  function IntBytes(x: int): (s: seq<byte>)
    requires IsInt32(x)
    ensures |s| == 4
  {
    UnsignedBytes(if x < 0 then x + 0x1_0000_0000 else x)
  }

  function BytesInt(s: seq<byte>): (x: int)
    requires |s| == 4
    ensures IsInt32(x)
  {
    var u := BytesUnsigned(s);
    if u < 0x8000_0000 then u else u - 0x1_0000_0000
  }

  lemma UnsignedRoundTrip(u: int)
    requires 0 <= u < 0x1_0000_0000
    ensures BytesUnsigned(UnsignedBytes(u)) == u
  {
    FourDigits(u);
  }

  lemma FourDigits(u: int)
    requires 0 <= u < 0x1_0000_0000
    ensures u == u % 256 + 256 * (u / 256 % 256) + 0x1_0000 * (u / 0x1_0000 % 256) + 0x100_0000 * (u / 0x100_0000)
  {
    var v, w := u / 256, u / 0x1_0000;
    NextDigit(v);
    NextDigit(w);
    assert v / 256 == w && w / 256 == u / 0x100_0000;
  }

  lemma NextDigit(v: int)
    requires 0 <= v
    ensures v == v % 256 + 256 * (v / 256)
  {
  }

  lemma IntRoundTrip(x: int)
    requires IsInt32(x)
    ensures BytesInt(IntBytes(x)) == x
  {
    UnsignedRoundTrip(if x < 0 then x + 0x1_0000_0000 else x);
  }

  function Low8(w: bv32): bv8 { (w & 0xff) as bv8 }

  function Widen(v: bv8): bv32 { v as bv32 }

  function Octet(v: bv8): byte { v as int }

  function FromOctet(b: byte): bv8 { b as bv8 }

  function Join(a: bv8, b: bv8, c: bv8, d: bv8): bv32 {
    Widen(a) | (Widen(b) << 8) | (Widen(c) << 16) | (Widen(d) << 24)
  }

  /** A word of a bitmap as stored. */
  function WordBytes(w: bv32): (s: seq<byte>)
    ensures |s| == 4
  {
    [Octet(Low8(w)), Octet(Low8(w >> 8)), Octet(Low8(w >> 16)), Octet(Low8(w >> 24))]
  }

  function BytesWord(s: seq<byte>): bv32
    requires |s| == 4
  {
    Join(FromOctet(s[0]), FromOctet(s[1]), FromOctet(s[2]), FromOctet(s[3]))
  }

  lemma OctetRoundTrip(v: bv8)
    ensures FromOctet(Octet(v)) == v
  {
  }

  lemma JoinParts(w: bv32)
    ensures Join(Low8(w), Low8(w >> 8), Low8(w >> 16), Low8(w >> 24)) == w
  {
  }

  lemma WordRoundTrip(w: bv32)
    ensures BytesWord(WordBytes(w)) == w
  {
    OctetRoundTrip(Low8(w));
    OctetRoundTrip(Low8(w >> 8));
    OctetRoundTrip(Low8(w >> 16));
    OctetRoundTrip(Low8(w >> 24));
    JoinParts(w);
  }

  /** Arrays of ints, and arrays of words, stored element after element. */
  function IntsBytes(xs: seq<int>): (s: seq<byte>)
    requires forall i :: 0 <= i < |xs| ==> IsInt32(xs[i])
    ensures |s| == 4 * |xs|
  {
    if xs == [] then [] else IntBytes(xs[0]) + IntsBytes(xs[1..])
  }

  function BytesInts(s: seq<byte>): (xs: seq<int>)
    ensures |xs| == |s| / 4
    ensures forall i :: 0 <= i < |xs| ==> IsInt32(xs[i])
  {
    if |s| < 4 then [] else [BytesInt(s[..4])] + BytesInts(s[4..])
  }

  lemma {:induction false} IntsRoundTrip(xs: seq<int>)
    requires forall i :: 0 <= i < |xs| ==> IsInt32(xs[i])
    ensures BytesInts(IntsBytes(xs)) == xs
  {
    if xs != [] {
      IntRoundTrip(xs[0]);
      IntsRoundTrip(xs[1..]);
      assert IntsBytes(xs)[..4] == IntBytes(xs[0]) && IntsBytes(xs)[4..] == IntsBytes(xs[1..]);
    }
  }

  function WordsBytes(ws: seq<bv32>): (s: seq<byte>)
    ensures |s| == 4 * |ws|
  {
    if ws == [] then [] else WordBytes(ws[0]) + WordsBytes(ws[1..])
  }

  function BytesWords(s: seq<byte>): (ws: seq<bv32>)
    ensures |ws| == |s| / 4
  {
    if |s| < 4 then [] else [BytesWord(s[..4])] + BytesWords(s[4..])
  }

  lemma {:induction false} WordsRoundTrip(ws: seq<bv32>)
    ensures BytesWords(WordsBytes(ws)) == ws
  {
    if ws != [] {
      WordRoundTrip(ws[0]);
      WordsRoundTrip(ws[1..]);
      assert WordsBytes(ws)[..4] == WordBytes(ws[0]) && WordsBytes(ws)[4..] == WordsBytes(ws[1..]);
    }
  }
}

/** The disk as its callers see it: whole sectors read and written synchronously. */
module Storage {
  import opened Layout

  const SectorSize: int := 128
  const NumSectors: int := 1024

  /** The contents of the disk. */
  type Image = seq<seq<byte>>

  ghost predicate ValidImage(d: Image) {
    |d| == NumSectors && forall i :: 0 <= i < |d| ==> |d[i]| == SectorSize
  }

  class SynchDisk {
    var sectors: Image

    ghost predicate Valid()
      reads this
    {
      ValidImage(sectors)
    }

    /** Read a sector into a buffer, from `offset` on. */
    method ReadSector(sectorNumber: int, data: array<byte>, offset: nat)
      requires Valid() && 0 <= sectorNumber < NumSectors && offset + SectorSize <= data.Length
      modifies data
      ensures data[..] == old(data[..offset]) + sectors[sectorNumber] + old(data[offset + SectorSize..])
    {
      var s := sectors[sectorNumber];
      for i := 0 to SectorSize
        invariant data[..] == old(data[..offset]) + s[..i] + old(data[offset + i..])
      {
        data[offset + i] := s[i];
      }
    }

    /** Write a sector from a buffer. */
    method WriteSector(sectorNumber: int, data: array<byte>, offset: nat)
      requires Valid() && 0 <= sectorNumber < NumSectors && offset + SectorSize <= data.Length
      modifies this
      ensures Valid() && sectors == old(sectors)[sectorNumber := data[offset..offset + SectorSize]]
    {
      sectors := sectors[sectorNumber := data[offset..offset + SectorSize]];
    }
  }
}

/** Allocation maps as sequences of bits: what the operations of lib/bitmap.cc compute. */
module BitSpec {
  /** The first clear bit from i on, or -1. */
  function FirstClear(bits: seq<bool>, i: nat): (r: int)
    requires i <= |bits|
    ensures r == -1 || i <= r < |bits|
    ensures r == -1 ==> forall j :: i <= j < |bits| ==> bits[j]
    ensures r >= 0 ==> !bits[r] && forall j :: i <= j < r ==> bits[j]
    decreases |bits| - i
  {
    if i == |bits| then -1 else if !bits[i] then i else FirstClear(bits, i + 1)
  }

  ghost function ClearCount(bits: seq<bool>): nat {
    if bits == [] then 0 else ClearCount(bits[..|bits| - 1]) + if bits[|bits| - 1] then 0 else 1
  }

  lemma {:induction false} ClearCountUpdate(bits: seq<bool>, k: nat, b: bool)
    requires k < |bits|
    ensures ClearCount(bits[k := b]) == ClearCount(bits) + (if b then 0 else 1) - (if bits[k] then 0 else 1)
  {
    var n := |bits| - 1;
    if k < n {
      assert bits[k := b][..n] == bits[..n][k := b];
      ClearCountUpdate(bits[..n], k, b);
    } else {
      assert bits[k := b][..n] == bits[..n];
    }
  }

  /** There is a clear bit to be found exactly when the count says so. */
  lemma {:induction false} CountFindsClear(bits: seq<bool>)
    ensures FirstClear(bits, 0) == -1 <==> ClearCount(bits) == 0
  {
    AllSetCount(bits);
  }

  lemma {:induction false} AllClearCount(bits: seq<bool>)
    requires forall j :: 0 <= j < |bits| ==> !bits[j]
    ensures ClearCount(bits) == |bits|
  {
    if bits != [] {
      AllClearCount(bits[..|bits| - 1]);
    }
  }

  lemma {:induction false} AllSetCount(bits: seq<bool>)
    ensures ClearCount(bits) == 0 <==> forall j :: 0 <= j < |bits| ==> bits[j]
  {
    if bits != [] {
      var n := |bits| - 1;
      AllSetCount(bits[..n]);
      assert (forall j :: 0 <= j < |bits| ==> bits[j]) <==> bits[n] && forall j :: 0 <= j < n ==> bits[..n][j];
    }
  }

  lemma {:induction false} ClearCountSplit(bits: seq<bool>, k: nat)
    requires k <= |bits|
    ensures ClearCount(bits) == ClearCount(bits[..k]) + ClearCount(bits[k..])
  {
    var n := |bits| - 1;
    if k <= n {
      ClearCountSplit(bits[..n], k);
      assert bits[..n][..k] == bits[..k] && bits[..n][k..] == bits[k..][..n - k];
    } else {
      assert bits[..k] == bits && bits[k..] == [];
    }
  }

  /** Allocating n bits one after the other, each the first clear one: the bits found and the map
      afterwards. FileHeader::Allocate and AddrSpace both allocate this way. */
  ghost function TakeClear(bits: seq<bool>, n: nat): (r: (seq<int>, seq<bool>))
    requires n <= ClearCount(bits)
    ensures |r.0| == n && |r.1| == |bits|
    ensures ClearCount(r.1) == ClearCount(bits) - n
    decreases n
  {
    if n == 0 then ([], bits)
    else
      CountFindsClear(bits);
      var k := FirstClear(bits, 0);
      ClearCountUpdate(bits, k, true);
      var rest := TakeClear(bits[k := true], n - 1);
      ([k] + rest.0, rest.1)
  }

  ghost predicate Distinct(s: seq<int>) {
    forall i, j :: 0 <= i < j < |s| ==> s[i] != s[j]
  }

  lemma FillNext<T>(s: seq<T>, i: nat, x: T)
    requires i < |s|
    ensures s[i := x][..i + 1] == s[..i] + [x]
    ensures s[i := x][i + 1..] == s[i..][1..]
  {
  }

  /** Part way through an allocation of n bits: `found` so far, and the map as it is now. */
  ghost predicate Taking(bits: seq<bool>, n: nat, found: seq<int>, now: seq<bool>) {
    && n <= ClearCount(bits) && |found| <= n && n - |found| <= ClearCount(now)
    && TakeClear(bits, n).0 == found + TakeClear(now, n - |found|).0
    && TakeClear(bits, n).1 == TakeClear(now, n - |found|).1
  }

  lemma TakingStarts(bits: seq<bool>, n: nat)
    requires n <= ClearCount(bits)
    ensures Taking(bits, n, [], bits)
  {
    assert [] + TakeClear(bits, n).0 == TakeClear(bits, n).0;
  }

  lemma TakingStep(bits: seq<bool>, n: nat, found: seq<int>, now: seq<bool>)
    requires Taking(bits, n, found, now) && |found| < n
    ensures var k := FirstClear(now, 0);
            k >= 0 && Taking(bits, n, found + [k], now[k := true])
  {
    CountFindsClear(now);
    var k := FirstClear(now, 0);
    ClearCountUpdate(now, k, true);
    var rest := TakeClear(now[k := true], n - |found| - 1).0;
    assert found + ([k] + rest) == (found + [k]) + rest;
  }

  lemma TakingEnds(bits: seq<bool>, n: nat, found: seq<int>, now: seq<bool>)
    requires Taking(bits, n, found, now) && |found| == n
    ensures TakeClear(bits, n) == (found, now)
  {
    assert TakeClear(now, 0) == ([], now);
    assert found + [] == found;
  }

  /** What an allocation yields: indices that were clear, marked afterwards together with what was
      marked before. */
  lemma {:induction false} TakeClearMarks(bits: seq<bool>, n: nat)
    requires n <= ClearCount(bits)
    ensures var (found, after) := TakeClear(bits, n);
            && (forall i :: 0 <= i < n ==> 0 <= found[i] < |bits| && !bits[found[i]])
            && (forall j :: 0 <= j < |bits| ==> (after[j] <==> bits[j] || j in found))
    decreases n
  {
    if n > 0 {
      CountFindsClear(bits);
      var k := FirstClear(bits, 0);
      ClearCountUpdate(bits, k, true);
      TakeClearMarks(bits[k := true], n - 1);
    }
  }

  /** No index is allocated twice. */
  lemma {:induction false} TakeClearDistinct(bits: seq<bool>, n: nat)
    requires n <= ClearCount(bits)
    ensures Distinct(TakeClear(bits, n).0)
    decreases n
  {
    if n > 0 {
      CountFindsClear(bits);
      var k := FirstClear(bits, 0);
      ClearCountUpdate(bits, k, true);
      TakeClearMarks(bits[k := true], n - 1);
      TakeClearDistinct(bits[k := true], n - 1);
    }
  }

  ghost predicate AllBelow(s: seq<int>, limit: int) {
    forall i :: 0 <= i < |s| ==> s[i] < limit
  }

  lemma AllBelowCons(k: int, rest: seq<int>, limit: int)
    ensures AllBelow([k] + rest, limit) <==> k < limit && AllBelow(rest, limit)
  {
    var s := [k] + rest;
    assert s[0] == k && forall i :: 0 <= i < |rest| ==> s[i + 1] == rest[i];
  }

  /** First fit: an allocation stays below a limit exactly when enough bits are clear below it. */
  lemma {:induction false} TakeClearBelow(bits: seq<bool>, n: nat, limit: nat)
    requires n <= ClearCount(bits) && limit <= |bits|
    ensures AllBelow(TakeClear(bits, n).0, limit) <==> n <= ClearCount(bits[..limit])
    decreases n
  {
    if n > 0 {
      CountFindsClear(bits);
      var k := FirstClear(bits, 0);
      ClearCountUpdate(bits, k, true);
      AllBelowCons(k, TakeClear(bits[k := true], n - 1).0, limit);
      if k < limit {
        TakeClearBelow(bits[k := true], n - 1, limit);
        assert bits[k := true][..limit] == bits[..limit][k := true];
        ClearCountUpdate(bits[..limit], k, true);
      } else {
        AllSetCount(bits[..limit]);
      }
    }
  }

  /** Clearing a list of bits one after the other. */
  ghost function ClearAll(bits: seq<bool>, which: seq<int>): (r: seq<bool>)
    requires forall i :: 0 <= i < |which| ==> 0 <= which[i] < |bits|
    ensures |r| == |bits|
    ensures forall j :: 0 <= j < |bits| ==> (r[j] <==> bits[j] && j !in which)
  {
    if which == [] then bits
    else
      assert which == which[..|which| - 1] + [which[|which| - 1]];
      ClearAll(bits, which[..|which| - 1])[which[|which| - 1] := false]
  }

  /** Taking bits and clearing exactly those again gives the map back. */
  lemma TakeThenClear(bits: seq<bool>, n: nat)
    requires n <= ClearCount(bits)
    ensures var (found, after) := TakeClear(bits, n);
            && (forall i :: 0 <= i < n ==> 0 <= found[i] < |after|)
            && ClearAll(after, found) == bits
  {
    TakeClearMarks(bits, n);
  }
}

/** Bit operations on a 32-bit word. */
module WordBits {
  const BitsInWord: nat := 32

  function Mask(k: nat): bv32
    requires k < 32
  {
    1 as bv32 << k
  }

  function Meet(w: bv32, m: bv32): bv32 { w & m }

  predicate TestMask(w: bv32, m: bv32) { Meet(w, m) != 0 }

  function OrMask(w: bv32, m: bv32): bv32 { w | m }

  function DropMask(w: bv32, m: bv32): bv32 { w & !m }

  predicate Apart(m1: bv32, m2: bv32) { m1 & m2 == 0 }

  lemma MasksApart(k: nat, j: nat)
    requires k < 32 && j < 32 && k != j
    ensures Apart(Mask(k), Mask(j))
  {
  }

  lemma MaskNonZero(k: nat)
    requires k < 32
    ensures Mask(k) != 0
  {
  }

  lemma OrSame(w: bv32, m: bv32)
    requires m != 0
    ensures TestMask(OrMask(w, m), m)
  {
  }

  lemma OrOther(w: bv32, m1: bv32, m2: bv32)
    requires Apart(m1, m2)
    ensures Meet(OrMask(w, m1), m2) == Meet(w, m2)
  {
  }

  lemma DropSame(w: bv32, m: bv32)
    ensures !TestMask(DropMask(w, m), m)
  {
  }

  lemma DropOther(w: bv32, m1: bv32, m2: bv32)
    requires Apart(m1, m2)
    ensures Meet(DropMask(w, m1), m2) == Meet(w, m2)
  {
  }

  /** Marking one bit of a word changes that bit alone. */
  lemma SetOneBit(w: bv32, k: nat, j: nat)
    requires k < 32 && j < 32
    ensures TestMask(OrMask(w, Mask(k)), Mask(j)) <==> k == j || TestMask(w, Mask(j))
  {
    if k == j {
      MaskNonZero(k);
      OrSame(w, Mask(k));
    } else {
      MasksApart(k, j);
      OrOther(w, Mask(k), Mask(j));
    }
  }

  /** Clearing one bit of a word changes that bit alone. */
  lemma ResetOneBit(w: bv32, k: nat, j: nat)
    requires k < 32 && j < 32
    ensures TestMask(DropMask(w, Mask(k)), Mask(j)) <==> k != j && TestMask(w, Mask(j))
  {
    if k == j {
      DropSame(w, Mask(k));
    } else {
      MasksApart(k, j);
      DropOther(w, Mask(k), Mask(j));
    }
  }

  lemma NoBits(k: nat)
    requires k < 32
    ensures !TestMask(0, Mask(k))
  {
  }

  predicate BitOf(words: seq<bv32>, i: nat)
    requires i < 32 * |words|
  {
    TestMask(words[i / 32], Mask(i % 32))
  }

  /** The first n bits held in packed words. */
  ghost function Bits(words: seq<bv32>, n: nat): (r: seq<bool>)
    requires n <= 32 * |words|
    ensures |r| == n
  {
    if n == 0 then [] else Bits(words, n - 1) + [BitOf(words, n - 1)]
  }

  lemma {:induction false} BitsAt(words: seq<bv32>, n: nat, i: nat)
    requires i < n <= 32 * |words|
    ensures Bits(words, n)[i] == BitOf(words, i)
  {
    if i < n - 1 {
      BitsAt(words, n - 1, i);
    }
  }

  lemma MarkWord(words: seq<bv32>, n: nat, which: nat)
    requires which < n <= 32 * |words|
    ensures Bits(words[which / 32 := OrMask(words[which / 32], Mask(which % 32))], n) == Bits(words, n)[which := true]
  {
    var words' := words[which / 32 := OrMask(words[which / 32], Mask(which % 32))];
    forall i | 0 <= i < n
      ensures Bits(words', n)[i] == Bits(words, n)[which := true][i]
    {
      BitsAt(words', n, i);
      BitsAt(words, n, i);
      if i / 32 == which / 32 {
        SetOneBit(words[which / 32], which % 32, i % 32);
      }
    }
  }

  lemma ClearWord(words: seq<bv32>, n: nat, which: nat)
    requires which < n <= 32 * |words|
    ensures Bits(words[which / 32 := DropMask(words[which / 32], Mask(which % 32))], n) == Bits(words, n)[which := false]
  {
    var words' := words[which / 32 := DropMask(words[which / 32], Mask(which % 32))];
    forall i | 0 <= i < n
      ensures Bits(words', n)[i] == Bits(words, n)[which := false][i]
    {
      BitsAt(words', n, i);
      BitsAt(words, n, i);
      if i / 32 == which / 32 {
        ResetOneBit(words[which / 32], which % 32, i % 32);
      }
    }
  }
}

/** The packed bitmap. */
module Bitmaps {
  import opened BitSpec
  import opened WordBits

  class Bitmap {
    const numBits: nat
    const numWords: nat
    const words: array<bv32>

    ghost predicate Valid()
      reads this
    {
      && 0 < numBits && numWords == numBits / 32 + (if numBits % 32 > 0 then 1 else 0)
      && words.Length == numWords
    }

    /** The bits the map stands for. */
    ghost function View(): (r: seq<bool>)
      requires Valid()
      reads this, words
      ensures |r| == numBits
    {
      Bits(words[..], numBits)
    }

    constructor (numItems: nat)
      requires numItems > 0
      ensures Valid() && fresh(words) && numBits == numItems
      ensures View() == seq(numItems, i => false)
    {
      numBits := numItems;
      numWords := numItems / 32 + if numItems % 32 > 0 then 1 else 0;
      words := new bv32[numItems / 32 + if numItems % 32 > 0 then 1 else 0](i => 0);
      new;
      forall i | 0 <= i < numItems
        ensures !View()[i]
      {
        BitsAt(words[..], numItems, i);
        NoBits(i % 32);
      }
    }

    method Mark(which: nat)
      requires Valid() && which < numBits
      modifies words
      ensures View() == old(View())[which := true]
    {
      MarkWord(words[..], numBits, which);
      ghost var before := words[..];
      words[which / 32] := OrMask(words[which / 32], Mask(which % 32));
      assert words[..] == before[which / 32 := OrMask(before[which / 32], Mask(which % 32))];
    }

    method Clear(which: nat)
      requires Valid() && which < numBits
      modifies words
      ensures View() == old(View())[which := false]
    {
      ClearWord(words[..], numBits, which);
      ghost var before := words[..];
      words[which / 32] := DropMask(words[which / 32], Mask(which % 32));
      assert words[..] == before[which / 32 := DropMask(before[which / 32], Mask(which % 32))];
    }

    method Test(which: nat) returns (b: bool)
      requires Valid() && which < numBits
      ensures b == View()[which]
    {
      b := TestMask(words[which / 32], Mask(which % 32));
      BitsAt(words[..], numBits, which);
    }

    /** Find and mark the first clear bit; -1 when there is none. */
    method FindAndSet() returns (r: int)
      requires Valid()
      modifies words
      ensures r == FirstClear(old(View()), 0)
      ensures View() == if r == -1 then old(View()) else old(View())[r := true]
    {
      var i := 0;
      while i < numBits
        invariant 0 <= i <= numBits
        invariant View() == old(View())
        invariant FirstClear(View(), 0) == FirstClear(View(), i)
      {
        var b := Test(i);
        if !b {
          Mark(i);
          return i;
        }
        i := i + 1;
      }
      return -1;
    }

    method NumClear() returns (count: nat)
      requires Valid()
      ensures count == ClearCount(View())
    {
      count := 0;
      var i := 0;
      while i < numBits
        invariant 0 <= i <= numBits
        invariant count == ClearCount(View()[..i])
      {
        var b := Test(i);
        assert View()[..i + 1][..i] == View()[..i];
        if !b {
          count := count + 1;
        }
        i := i + 1;
      }
      assert View()[..numBits] == View();
    }
  }
}

/** The shift-and-add multiplier of the MIPS simulator (machine/mipssim.cc).

    C's 32-bit words are integers with their range written out: a signed `int` is an
    `int32`, an `unsigned int` a `uint32`, and every wrap-around is an explicit `Wrap`. */
module Multiply {
  const W: int := 0x1_0000_0000
  const HALF: int := 0x8000_0000

  type int32 = x: int | -0x8000_0000 <= x < 0x8000_0000
  type uint32 = x: int | 0 <= x < 0x1_0000_0000

  /** An unsigned result after wrap-around. */
  function Wrap(x: int): (r: uint32) { x % W }

  /** The cast (unsigned) x. */
  function ToUnsigned(x: int32): (r: uint32)
    ensures r == x || r == x + W
    ensures r % W == x % W
  {
    if x < 0 then x + W else x
  }

  /** The cast (int) x. */
  function ToSigned(x: uint32): (r: int32)
    ensures ToUnsigned(r) == x
  {
    if x < HALF then x else x - W
  }

  /** -x on a 32-bit int: the most negative value is its own negation. */
  function Negate(x: int32): (r: int32)
    ensures ToUnsigned(r) == Wrap(-(x as int))
  {
    if x == -HALF then x else -(x as int)
  }

  /** ~x on an unsigned int. */
  function Complement(x: uint32): (r: uint32) { W - 1 - x }

  /** The double word held in two unsigned halves. */
  function Double(hi: uint32, lo: uint32): (r: int)
    ensures 0 <= r < W * W
  {
    hi * W + lo
  }

  /** The magnitude the unsigned loop works on. */
  function Magnitude(x: int32): (r: uint32) { if x < 0 then -(x as int) else x }

  /** The loop's shift of bHi:bLo, the top bit of bLo carried into bHi by hand. */
  method ShiftDouble(bHi: uint32, bLo: uint32) returns (hi: uint32, lo: uint32)
    ensures Double(bHi, bLo) < HALF * W ==> Double(hi, lo) == 2 * Double(bHi, bLo)
  {
    hi := Wrap(2 * bHi);
    if bLo >= HALF {            // bLo & 0x80000000
      hi := hi + 1;             // bHi |= 1, on an even number
    }
    lo := Wrap(2 * bLo);
  }

  /** The loop's addition of bHi:bLo into hi:lo, the carry recovered by a comparison. */
  method AddDouble(hi0: uint32, lo0: uint32, bHi: uint32, bLo: uint32) returns (hi: uint32, lo: uint32)
    requires Double(hi0, lo0) + Double(bHi, bLo) < W * W
    ensures Double(hi, lo) == Double(hi0, lo0) + Double(bHi, bLo)
  {
    hi, lo := hi0, Wrap(lo0 + bLo);
    if lo < bLo {               // carry out of the low bits?
      hi := Wrap(hi as int + 1);
    }
    hi := Wrap(hi + bHi);
  }

  /** The two's complement of a double word. */
  lemma NegateDouble(hi: uint32, lo: uint32)
    requires 0 < Double(hi, lo) <= HALF * W
    ensures var lo' := Wrap(Complement(lo) + 1);
            var hi' := if lo' == 0 then Wrap(Complement(hi) + 1) else Complement(hi);
            ToSigned(hi') * W + lo' == -Double(hi, lo)
  {
  }

  lemma ProductBound(x: int, y: int, n: int)
    requires 0 <= x <= n && 0 <= y <= n
    ensures 0 <= x * y <= n * n
  {
  }

  /** The product of the magnitudes, with the sign put back. */
  lemma SignedProduct(a: int32, b: int32)
    ensures a * b == if (a < 0) == (b < 0) then Magnitude(a) * Magnitude(b) else -(Magnitude(a) * Magnitude(b))
    ensures Magnitude(a) * Magnitude(b) <= HALF * HALF
  {
    ProductBound(Magnitude(a), Magnitude(b), HALF);
  }

  ghost function Pow2(n: nat): (r: int)
    ensures r > 0
  {
    if n == 0 then 1 else 2 * Pow2(n - 1)
  }

  lemma WordSize()
    ensures Pow2(32) == W
  {
    assert Pow2(8) == 0x100;
    assert Pow2(16) == 0x1_0000;
    assert Pow2(24) == 0x100_0000;
  }

  /** What the bits of a still to come, q, will add to the result: b's double word once for the
      lowest bit, and the doubled word for the rest. */
  lemma NextBit(q: int, bp: int)
    requires 0 <= q && 0 <= bp
    ensures q * bp == (if q % 2 == 1 then bp else 0) + (q / 2) * (2 * bp)
    ensures 0 < q ==> bp <= q * bp
    ensures 2 <= q ==> 2 * bp <= q * bp
  {
    var h := q / 2;
    assert q == 2 * h + q % 2;
    assert (2 * h) * bp == h * (2 * bp);
    assert 0 <= h * (2 * bp);
    if 2 <= q {
      assert 2 * bp <= h * (2 * bp);
    }
  }

  lemma ProductFits(x: uint32, y: uint32)
    ensures 0 <= x * y < W * W
  {
    ProductBound(x, y, W - 1);
  }

  lemma NoDouble(x: uint32)
    ensures Double(0, 0) == 0 && Double(0, x) == x
  {
  }

  /** What is left of a, shifted right with its sign, against what is left of it as a number below r. */
  ghost predicate Tracks(negative: bool, a: int, q: int, r: int) {
    0 <= q < r && if negative then a == q - r && r / 2 <= q else a == q && 0 < q
  }

  lemma TracksHalf(negative: bool, a: int, q: int, r: int)
    requires Tracks(negative, a, q, 2 * r) && 0 < r
    ensures a % 2 == q % 2
    ensures a != 1 ==> Tracks(negative, a / 2, q / 2, r)
    ensures a == 0 || a == 1 ==> a == q == 1
  {
  }

  /** The unsigned loop. `a` is a C int that is shifted right arithmetically, so for an operand
      with its top bit set the vacated bits fill with ones and the early exit is never taken.

      The ghost `q` is the unsigned value of the bits of the operand still to come, below
      2^(32 - i). */
  method UnsignedLoop(a0: int32, b0: int32) returns (hi: uint32, lo: uint32)
    requires a0 != 0
    ensures Double(hi, lo) == ToUnsigned(a0) * ToUnsigned(b0)
  {
    hide Double;
    ghost var product := ToUnsigned(a0) * ToUnsigned(b0);
    ProductFits(ToUnsigned(a0), ToUnsigned(b0));
    WordSize();
    NoDouble(ToUnsigned(b0));
    var a := a0;
    var bLo: uint32 := ToUnsigned(b0);
    var bHi: uint32 := 0;
    lo, hi := 0, 0;
    var i := 0;
    ghost var q := ToUnsigned(a0) as int;
    while i < 32
      invariant 0 <= i <= 32
      invariant Tracks(a0 < 0, a, q, Pow2(32 - i))
      invariant Double(hi, lo) + q * Double(bHi, bLo) == product
    {
      TracksHalf(a0 < 0, a, q, Pow2(31 - i));
      NextBit(q, Double(bHi, bLo));
      if a % 2 == 1 {
        hi, lo := AddDouble(hi, lo, bHi, bLo);
        if a == 0 || a == 1 {   // (a & 0xfffffffe) == 0
          return;
        }
      }
      bHi, bLo := ShiftDouble(bHi, bLo);
      q := q / 2;
      a := a / 2;               // a >>= 1, arithmetic
      i := i + 1;
    }
  }

  /** Mult: the words left in hi and lo are the exact product of the operands, read as signed
      numbers or as unsigned ones, for every pair of operands (the most negative int included). */
  method Mult(a0: int32, b0: int32, signedArith: bool) returns (hiWord: int32, loWord: int32)
    ensures signedArith ==> hiWord * W + ToUnsigned(loWord) == a0 * b0
    ensures !signedArith ==> Double(ToUnsigned(hiWord), ToUnsigned(loWord)) == ToUnsigned(a0) * ToUnsigned(b0)
  {
    if a0 == 0 || b0 == 0 {
      return 0, 0;
    }
    var a, b, negative := a0, b0, false;
    if signedArith {
      if a < 0 {
        negative := !negative;
        a := Negate(a);
      }
      if b < 0 {
        negative := !negative;
        b := Negate(b);
      }
      SignedProduct(a0, b0);
      assert ToUnsigned(a) == Magnitude(a0) && ToUnsigned(b) == Magnitude(b0);
    }
    var hi, lo := UnsignedLoop(a, b);
    if negative {
      NegateDouble(hi, lo);
      hi, lo := Complement(hi), Complement(lo);
      lo := Wrap(lo as int + 1);
      if lo == 0 {
        hi := Wrap(hi + 1);
      }
    }
    hiWord, loWord := ToSigned(hi), ToSigned(lo);
  }
}

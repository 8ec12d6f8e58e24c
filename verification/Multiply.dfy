/** mipssim.cc, Mult: the 32 x 32 -> 64 bit multiply of the R2000, by shift and add. */
module Multiply {
  import opened Words

  const TWO_32 := 0x1_0000_0000
  const TWO_64 := 0x1_0000_0000_0000_0000

  type Int32 = x: int | -0x8000_0000 <= x < 0x8000_0000

  /** The bit pattern of a signed integer, read as unsigned. */
  function Unsigned(x: Int32): Word {
    if x < 0 then x + TWO_32 else x
  }

  /** (int) of an unsigned value. */
  function Signed(w: Word): Int32 {
    if w >= 0x8000_0000 then w - TWO_32 else w
  }

  /** Negation in 32-bit two's complement; the most negative number is its own negation. */
  function Negate(x: Int32): Int32 {
    if x == -0x8000_0000 then x else -x
  }

  /** The 64-bit value of a register pair, unsigned and signed. */
  function Pair(hi: Word, lo: Word): nat {
    hi * TWO_32 + lo
  }

  function SignedPair(hi: Word, lo: Word): int {
    if hi >= 0x8000_0000 then Pair(hi, lo) - TWO_64 else Pair(hi, lo)
  }

  /** The double-word accumulation, with the carry found by comparing. */
  method AddPair(hi: Word, lo: Word, bHi: Word, bLo: Word) returns (hi': Word, lo': Word)
    requires Pair(hi, lo) + Pair(bHi, bLo) < TWO_64
    ensures Pair(hi', lo') == Pair(hi, lo) + Pair(bHi, bLo)
  {
    lo' := (lo + bLo) % TWO_32;
    hi' := hi + (if lo' < bLo then 1 else 0) + bHi;
  }

  /** Shifting a double word left by one, the top bit of the low word carried into the high word. */
  method ShiftPair(bHi: Word, bLo: Word) returns (bHi': Word, bLo': Word)
    ensures Pair(bHi', bLo') == 2 * Pair(bHi, bLo) % TWO_64
  {
    bHi' := 2 * bHi % TWO_32 + (if bLo >= 0x8000_0000 then 1 else 0);
    bLo' := 2 * bLo % TWO_32;
  }

  /** Two's complement of a double word. */
  method NegatePair(hi: Word, lo: Word) returns (hi': Word, lo': Word)
    ensures Pair(hi', lo') == (TWO_64 - Pair(hi, lo)) % TWO_64
  {
    hi', lo' := TWO_32 - 1 - hi, TWO_32 - 1 - lo;
    lo' := (lo' + 1) % TWO_32;
    if lo' == 0 {
      hi' := (hi' + 1) % TWO_32;
    }
  }

  lemma MulNonNegative(x: int, y: int)
    requires 0 <= x && 0 <= y
    ensures 0 <= x * y
  {
  }

  lemma MulAtLeast(q: nat, n: nat, w: nat)
    requires q >= n
    ensures q * w >= n * w
  {
    MulNonNegative(q - n, w);
    assert (q - n) * w == q * w - n * w;
  }

  lemma ProductFits(x: Word, y: Word)
    ensures 0 <= x * y < TWO_64
  {
    MulNonNegative(x, y);
    MulAtLeast(TWO_32, x, y);
  }

  /** What has been accumulated plus what is still owed is the product. */
  ghost predicate Owed(acc: nat, q: nat, w: nat, total: nat) {
    acc + q * w == total < TWO_64
  }

  lemma HalfProduct(q: nat, w: nat)
    ensures q * w == (q / 2) * (2 * w) + (if q % 2 == 1 then w else 0)
  {
    assert q == 2 * (q / 2) + q % 2;
  }

  /** One bit of the multiplier. */
  lemma BitStep(acc: nat, q: nat, w: nat, total: nat)
    requires Owed(acc, q, w, total) && q > 0
    ensures q % 2 == 1 ==> acc + w < TWO_64
    ensures Owed(acc + (if q % 2 == 1 then w else 0), q / 2, 2 * w % TWO_64, total)
  {
    MulAtLeast(q, 1, w);
    if q >= 2 {
      MulAtLeast(q, 2, w);
      HalfProduct(q, w);
    }
  }

  /** The variable a, when n bits of the multiplier are still to be used and q is their value: a
      negative a carries sign bits above them, and then the topmost of the n bits is set. */
  ghost predicate BitsLeft(negative: bool, a: int, q: nat, n: nat) {
    && q < Pow2(n)
    && a == (if negative then q - Pow2(n) else q)
    && (n > 0 ==> if negative then q >= Pow2(n - 1) else q > 0)
  }

  /** Shifting a right uses up one bit; only a == 1 leaves nothing. */
  lemma ShiftBits(negative: bool, a: int, q: nat, n: nat)
    requires BitsLeft(negative, a, q, n) && n > 0
    ensures q > 0 && a % 2 == q % 2
    ensures if a == 1 || a == 0 then q == 1 else BitsLeft(negative, a / 2, q / 2, n - 1)
  {
    var p := Pow2(n - 1);
    assert Pow2(n) == 2 * p;
    assert q / 2 < p;
    if n > 1 {
      assert p == 2 * Pow2(n - 2);
    }
  }

  /** The loop body: use the lowest bit of a, then double b; `done` is the early exit. */
  method OneBit(a: int, hi: Word, lo: Word, bHi: Word, bLo: Word, ghost negative: bool, ghost q: nat, ghost n: nat,
                ghost total: nat)
    returns (done: bool, hi': Word, lo': Word, bHi': Word, bLo': Word)
    requires n > 0 && BitsLeft(negative, a, q, n) && Owed(Pair(hi, lo), q, Pair(bHi, bLo), total)
    ensures done ==> Pair(hi', lo') == total
    ensures !done ==> BitsLeft(negative, a / 2, q / 2, n - 1) && Owed(Pair(hi', lo'), q / 2, Pair(bHi', bLo'), total)
  {
    BitStep(Pair(hi, lo), q, Pair(bHi, bLo), total);
    ShiftBits(negative, a, q, n);
    done, hi', lo', bHi', bLo' := false, hi, lo, bHi, bLo;
    if a % 2 == 1 {
      hi', lo' := AddPair(hi, lo, bHi, bLo);
      if a == 1 || a == 0 {
        done := true;
        return;
      }
    }
    bHi', bLo' := ShiftPair(bHi, bLo);
  }

  /** The loop: `a` is read one bit at a time from a signed variable that is shifted right arithmetically,
      so a negative `a` never runs out of ones; the 32nd bit is the last. */
  method AllBits(a0: int, b: Word, ghost q0: nat, ghost total: nat) returns (hi: Word, lo: Word)
    requires BitsLeft(a0 < 0, a0, q0, 32) && Owed(0, q0, b, total)
    ensures Pair(hi, lo) == total
  {
    var a := a0;
    var bLo: Word, bHi: Word := b, 0;
    lo, hi := 0, 0;
    ghost var q := q0;    // the bits of a0 not yet used
    for i := 0 to 32
      invariant BitsLeft(a0 < 0, a, q, 32 - i)
      invariant Owed(Pair(hi, lo), q, Pair(bHi, bLo), total)
    {
      var done;
      done, hi, lo, bHi, bLo := OneBit(a, hi, lo, bHi, bLo, a0 < 0, q, 32 - i, total);
      if done {
        return;
      }
      a := a / 2;
      q := q / 2;
    }
    NothingOwed(Pair(hi, lo), q, Pair(bHi, bLo), total);
  }

  lemma NothingOwed(acc: nat, q: nat, w: nat, total: nat)
    requires Owed(acc, q, w, total) && q < 1
    ensures acc == total
  {
  }

  method MultiplyBits(a: Int32, b: Word) returns (hi: Word, lo: Word)
    requires a != 0
    ensures Pair(hi, lo) == Unsigned(a) * b
  {
    ProductFits(Unsigned(a), b);
    FirstBits(a);
    hi, lo := AllBits(a, b, Unsigned(a), Unsigned(a) * b);
  }

  lemma FirstBits(a: Int32)
    requires a != 0
    ensures BitsLeft(a < 0, a, Unsigned(a), 32)
  {
    WordLimit();
    assert Pow2(32) == 2 * Pow2(31);
  }

  /** Mult: the exact product, as a signed or as an unsigned double word. */
  method Mult(a: Int32, b: Int32, signedArith: bool) returns (hi: Word, lo: Word)
    ensures signedArith ==> SignedPair(hi, lo) == a * b
    ensures !signedArith ==> Pair(hi, lo) == Unsigned(a) * Unsigned(b)
  {
    if a == 0 || b == 0 {
      return 0, 0;
    }
    var negative, a', b' := false, a, b;
    if signedArith {
      negative, a', b' := StripSigns(a, b);
    }
    hi, lo := MultiplyBits(a', Unsigned(b'));
    ghost var p: int := Pair(hi, lo);
    if negative {
      hi, lo := NegatePair(hi, lo);
    }
    if signedArith {
      SignRestored(p, hi, lo, negative);
    }
  }

  /** The magnitudes, read as unsigned (|-2^31| stays the word 2^31), and the sign of the product. */
  method StripSigns(a: Int32, b: Int32) returns (negative: bool, a': Int32, b': Int32)
    requires a != 0 && b != 0
    ensures a' != 0
    ensures var p: int := Unsigned(a') * Unsigned(b');
      0 < p <= 0x4000_0000_0000_0000 && a * b == if negative then -p else p
  {
    negative, a', b' := false, a, b;
    if a < 0 {
      negative, a' := !negative, Negate(a);
    }
    if b < 0 {
      negative, b' := !negative, Negate(b);
    }
    Magnitudes(a, b, Unsigned(a'), Unsigned(b'));
  }

  lemma SignRestored(p: int, hi: Word, lo: Word, negative: bool)
    requires 0 < p <= 0x4000_0000_0000_0000
    requires Pair(hi, lo) == if negative then (TWO_64 - p) % TWO_64 else p
    ensures SignedPair(hi, lo) == if negative then -p else p
  {
  }

  /** The product of the magnitudes, |-2^31| = 2^31 included, is below 2^63. */
  lemma Magnitudes(a: int, b: int, x: Word, y: Word)
    requires -0x8000_0000 <= a < 0x8000_0000 && -0x8000_0000 <= b < 0x8000_0000 && a != 0 && b != 0
    requires x == (if a < 0 then -a else a) && y == (if b < 0 then -b else b)
    ensures 0 < x * y <= 0x4000_0000_0000_0000
    ensures a * b == if (a < 0) == (b < 0) then x * y else -(x * y)
  {
    MulAtLeast(0x8000_0000, x, y);
    MulAtLeast(x, 1, y);
    if a < 0 {
      assert a * b == -((-a) * b);
    }
    if b < 0 {
      assert a * b == -(a * (-b));
    }
  }
}

/** The bitwise operators of C on words, and what they do in terms of arithmetic. */
module BitOps {
  import opened Words

  datatype Gate = AndGate | OrGate | XorGate

  predicate Gated(g: Gate, x: bool, y: bool) {
    match g
    case AndGate => x && y
    case OrGate => x || y
    case XorGate => x != y
  }

  /** The n low bits of a and b, combined bit by bit. */
  function Bitwise(g: Gate, a: nat, b: nat, n: nat): (r: nat)
    ensures r < Pow2(n)
  {
    if n == 0 then 0
    else (if Gated(g, a % 2 == 1, b % 2 == 1) then 1 else 0) + 2 * Bitwise(g, a / 2, b / 2, n - 1)
  }

  function Combine(g: Gate, a: Word, b: Word): Word {
    WordLimit();
    Bitwise(g, a, b, 32)
  }

  function And32(a: Word, b: Word): Word { Combine(AndGate, a, b) }
  function Or32(a: Word, b: Word): Word { Combine(OrGate, a, b) }
  function Xor32(a: Word, b: Word): Word { Combine(XorGate, a, b) }

  // Remainders, products and masks by recursion on the binary digits.

  /** a % 2^k. */
  function Low(a: nat, k: nat): nat {
    if k == 0 then 0 else a % 2 + 2 * Low(a / 2, k - 1)
  }

  /** h * 2^k. */
  function Up(h: nat, k: nat): nat {
    if k == 0 then h else 2 * Up(h, k - 1)
  }

  /** Ones in the places k .. n - 1. */
  function Mask(k: nat, n: nat): nat
    requires k <= n
  {
    if n == 0 then 0 else if k == 0 then 1 + 2 * Mask(0, n - 1) else 2 * Mask(k - 1, n - 1)
  }

  lemma {:induction false} LowIsRemainder(a: nat, k: nat)
    ensures Low(a, k) == a % Pow2(k)
  {
    if k > 0 {
      LowIsRemainder(a / 2, k - 1);
      RemainderOfTwice(a, Pow2(k - 1));
    }
  }

  lemma RemainderOfTwice(a: nat, p: nat)
    requires p > 0
    ensures a % (2 * p) == a % 2 + 2 * (a / 2 % p)
  {
    var q, r := a / 2 / p, a % 2 + 2 * (a / 2 % p);
    assert a / 2 == q * p + a / 2 % p;
    assert a == q * (2 * p) + r;
    OneRemainder(2 * p, a / (2 * p), a % (2 * p), q, r);
  }

  lemma OneRemainder(d: int, q: int, r: int, q': int, r': int)
    requires 0 <= r < d && 0 <= r' < d && d * q + r == q' * d + r'
    ensures r == r'
  {
    var t := q - q';
    assert d * t == r' - r;
    if t != 0 {
      MultipleIsFar(d, t);
    }
  }

  lemma MultipleIsFar(d: int, t: int)
    requires d > 0 && t != 0
    ensures d * t >= d || d * t <= -d
  {
    if t > 0 {
      AtLeast(d, t);
    } else {
      AtLeast(d, -t);
      assert d * t == -(d * -t);
    }
  }

  lemma {:induction false} AtLeast(d: nat, t: nat)
    requires t > 0
    ensures d * t >= d
  {
    if t > 1 {
      AtLeast(d, t - 1);
      assert d * t == d * (t - 1) + d;
    }
  }

  lemma {:induction false} UpIsProduct(h: nat, k: nat)
    ensures Up(h, k) == h * Pow2(k)
  {
    if k > 0 {
      UpIsProduct(h, k - 1);
    }
  }

  lemma {:induction false} MaskIsDifference(k: nat, n: nat)
    requires k <= n
    ensures Mask(k, n) == Pow2(n) - Pow2(k)
  {
    if k > 0 {
      MaskIsDifference(k - 1, n - 1);
    } else if n > 0 {
      MaskIsDifference(0, n - 1);
    }
  }

  lemma BitwiseDigits(g: Gate, x: nat, a: nat, y: nat, b: nat, n: nat)
    requires n > 0 && x < 2 && y < 2
    ensures Bitwise(g, x + 2 * a, y + 2 * b, n) == (if Gated(g, x == 1, y == 1) then 1 else 0) + 2 * Bitwise(g, a, b, n - 1)
  {
    assert (x + 2 * a) / 2 == a && (y + 2 * b) / 2 == b;
    assert (x + 2 * a) % 2 == x && (y + 2 * b) % 2 == y;
  }

  lemma {:induction false} OrSelf(a: nat, n: nat)
    requires a < Pow2(n)
    ensures Bitwise(OrGate, a, a, n) == a
  {
    if n > 0 {
      OrSelf(a / 2, n - 1);
    }
  }

  lemma {:induction false} AndNone(a: nat, n: nat)
    ensures Bitwise(AndGate, a, 0, n) == 0
  {
    if n > 0 {
      AndNone(a / 2, n - 1);
    }
  }

  lemma {:induction false} OrNone(a: nat, n: nat)
    requires a < Pow2(n)
    ensures Bitwise(OrGate, 0, a, n) == a
  {
    if n > 0 {
      OrNone(a / 2, n - 1);
    }
  }

  lemma {:induction false} OrCommutes(a: nat, b: nat, n: nat)
    ensures Bitwise(OrGate, a, b, n) == Bitwise(OrGate, b, a, n)
  {
    if n > 0 {
      OrCommutes(a / 2, b / 2, n - 1);
    }
  }

  /** Masking with ones in the k low places keeps the remainder modulo 2^k. */
  lemma {:induction false} AndLow(a: nat, k: nat, n: nat)
    requires k <= n
    ensures Bitwise(AndGate, a, Mask(0, k), n) == Low(a, k)
  {
    if k == 0 {
      AndNone(a, n);
    } else {
      AndLow(a / 2, k - 1, n - 1);
      BitwiseDigits(AndGate, a % 2, a / 2, 1, Mask(0, k - 1), n);
    }
  }

  /** Masking with ones in the other places takes the remainder away. */
  lemma {:induction false} AndHigh(a: nat, k: nat, n: nat)
    requires k <= n && a < Pow2(n)
    ensures Bitwise(AndGate, a, Mask(k, n), n) == a - Low(a, k)
  {
    if k > 0 {
      AndHigh(a / 2, k - 1, n - 1);
      BitwiseDigits(AndGate, a % 2, a / 2, 0, Mask(k - 1, n - 1), n);
    } else if n > 0 {
      AndHigh(a / 2, 0, n - 1);
      BitwiseDigits(AndGate, a % 2, a / 2, 1, Mask(0, n - 1), n);
    }
  }

  lemma {:induction false} OrOnes(a: nat, n: nat)
    ensures Bitwise(OrGate, a, Mask(0, n), n) == Mask(0, n)
  {
    if n > 0 {
      OrOnes(a / 2, n - 1);
      BitwiseDigits(OrGate, a % 2, a / 2, 1, Mask(0, n - 1), n);
    }
  }

  /** Or-ing with ones in the other places keeps the remainder only. */
  lemma {:induction false} OrHigh(a: nat, k: nat, n: nat)
    requires k <= n
    ensures Bitwise(OrGate, a, Mask(k, n), n) == Low(a, k) + Mask(k, n)
  {
    if k > 0 {
      OrHigh(a / 2, k - 1, n - 1);
      BitwiseDigits(OrGate, a % 2, a / 2, 0, Mask(k - 1, n - 1), n);
    } else {
      OrOnes(a, n);
    }
  }

  /** Or-ing numbers with no bit in common adds them. */
  lemma {:induction false} OrApart(h: nat, low: nat, k: nat, n: nat)
    requires k <= n && low < Pow2(k) && h < Pow2(n - k)
    ensures Bitwise(OrGate, low, Up(h, k), n) == low + Up(h, k)
  {
    if k == 0 {
      OrNone(h, n);
    } else {
      OrApart(h, low / 2, k - 1, n - 1);
      BitwiseDigits(OrGate, low % 2, low / 2, 0, Up(h, k - 1), n);
    }
  }

  // The operators on words, with the masks the processor uses.

  lemma OrWithItself(a: Word)
    ensures Or32(a, a) == a
  {
    WordLimit();
    OrSelf(a, 32);
  }

  lemma AndLowWord(a: Word, k: nat, mask: Word)
    requires k <= 32 && mask == Pow2(k) - 1
    ensures And32(a, mask) == a % Pow2(k)
  {
    MaskIsDifference(0, k);
    AndLow(a, k, 32);
    LowIsRemainder(a, k);
  }

  lemma AndHighWord(a: Word, k: nat, mask: Word)
    requires k <= 32 && mask == 0x1_0000_0000 - Pow2(k)
    ensures And32(a, mask) == a - a % Pow2(k)
  {
    WordLimit();
    MaskIsDifference(k, 32);
    AndHigh(a, k, 32);
    LowIsRemainder(a, k);
  }

  lemma OrHighWord(a: Word, k: nat, mask: Word)
    requires k <= 32 && mask == 0x1_0000_0000 - Pow2(k)
    ensures Or32(a, mask) == a % Pow2(k) + mask
  {
    WordLimit();
    MaskIsDifference(k, 32);
    OrHigh(a, k, 32);
    LowIsRemainder(a, k);
  }

  lemma OrApartWord(high: Word, low: Word, h: nat, k: nat)
    requires k <= 32 && low < Pow2(k) && h < Pow2(32 - k) && high == h * Pow2(k)
    ensures Or32(low, high) == high + low == Or32(high, low)
  {
    UpIsProduct(h, k);
    OrApart(h, low, k, 32);
    OrCommutes(low, high, 32);
  }

  /** The powers that occur as masks. */
  lemma Powers()
    ensures Pow2(5) == 0x20 && Pow2(8) == 0x100
    ensures Pow2(16) == 0x1_0000
    ensures Pow2(24) == 0x100_0000
  {
    assert Pow2(8) == 0x100;
    assert Pow2(16) == 0x1_0000;
  }

  // What the operators do, bit by bit.

  lemma {:induction false} BitwiseBits(g: Gate, a: nat, b: nat, n: nat, k: nat)
    requires k < n
    ensures TestBit(Bitwise(g, a, b, n), k) <==> Gated(g, TestBit(a, k), TestBit(b, k))
  {
    if k > 0 {
      BitwiseBits(g, a / 2, b / 2, n - 1, k - 1);
    }
  }

  lemma AndBits(a: Word, b: Word, k: nat)
    requires k < 32
    ensures TestBit(And32(a, b), k) <==> TestBit(a, k) && TestBit(b, k)
  {
    BitwiseBits(AndGate, a, b, 32, k);
  }

  lemma OrBits(a: Word, b: Word, k: nat)
    requires k < 32
    ensures TestBit(Or32(a, b), k) <==> TestBit(a, k) || TestBit(b, k)
  {
    BitwiseBits(OrGate, a, b, 32, k);
  }

  lemma XorBits(a: Word, b: Word, k: nat)
    requires k < 32
    ensures TestBit(Xor32(a, b), k) <==> TestBit(a, k) != TestBit(b, k)
  {
    BitwiseBits(XorGate, a, b, 32, k);
  }

  lemma {:induction false} XorTwice(a: nat, b: nat, n: nat)
    requires a < Pow2(n)
    ensures Bitwise(XorGate, Bitwise(XorGate, a, b, n), b, n) == a
  {
    if n > 0 {
      XorTwice(a / 2, b / 2, n - 1);
      BitwiseDigits(XorGate, if Gated(XorGate, a % 2 == 1, b % 2 == 1) then 1 else 0, Bitwise(XorGate, a / 2, b / 2, n - 1),
                    b % 2, b / 2, n);
    }
  }

  /** Exclusive or undoes itself. */
  lemma XorUndoes(a: Word, b: Word)
    ensures Xor32(Xor32(a, b), b) == a
  {
    WordLimit();
    XorTwice(a, b, 32);
  }

  /** The remainder modulo 2^n has the n low bits, multiplying by 2^n moves bits up. */
  lemma {:induction false} LowBits(a: nat, n: nat, k: nat)
    ensures TestBit(Low(a, n), k) <==> k < n && TestBit(a, k)
  {
    if n == 0 {
      NoBits(k);
    } else if k > 0 {
      assert Low(a, n) / 2 == Low(a / 2, n - 1);
      LowBits(a / 2, n - 1, k - 1);
    }
  }

  lemma {:induction false} NoBits(k: nat)
    ensures !TestBit(0, k)
  {
    if k > 0 {
      NoBits(k - 1);
    }
  }

  lemma {:induction false} UpBits(a: nat, n: nat, k: nat)
    ensures TestBit(Up(a, n), k) <==> k >= n && TestBit(a, k - n)
  {
    if n > 0 && k > 0 {
      UpBits(a, n - 1, k - 1);
    }
  }

  /** A number with a bit added on top, and the top bit of a number. */
  lemma {:induction false} TopAdded(x: nat, m: nat, k: nat)
    requires x < Pow2(m)
    ensures TestBit(x + Pow2(m), k) <==> k == m || TestBit(x, k)
  {
    if m == 0 {
      if k > 0 {
        assert (x + Pow2(m)) / 2 == 0 && x / 2 == 0;
      }
    } else if k > 0 {
      assert (x + Pow2(m)) / 2 == x / 2 + Pow2(m - 1);
      TopAdded(x / 2, m - 1, k - 1);
    }
  }

  lemma {:induction false} TopBit(a: nat, m: nat)
    requires a < Pow2(m + 1)
    ensures TestBit(a, m) <==> a >= Pow2(m)
  {
    if m > 0 {
      TopBit(a / 2, m - 1);
    }
  }
}

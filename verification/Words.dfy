/** Bytes, 32-bit words, and the two views the file system takes of a word: as thirty-two bits
    (bitmap.cc) and as four bytes in memory order (headers and maps copied to and from disk
    sectors by casting a structure to `char *`). */
module Words {
  type Byte = b: int | 0 <= b < 256
  type Word = w: int | 0 <= w < 0x1_0000_0000

  const BITS_IN_WORD := 32
  const INT_MAX := 0x7fff_ffff

  /** divRoundUp of utility.h, on non-negative operands. */
  function DivRoundUp(n: nat, s: nat): nat
    requires s > 0
  {
    n / s + (if n % s > 0 then 1 else 0)
  }

  /** It is the least number of pieces of size s that hold n. */
  lemma RoundUpIsLeast(n: nat, s: nat)
    requires s > 0
    ensures s * (DivRoundUp(n, s) - 1) < n <= s * DivRoundUp(n, s) || (n == 0 && DivRoundUp(n, s) == 0)
  {
    var q, r := n / s, n % s;
    assert n == s * q + r;
    assert s * (q + 1) == s * q + s;
    assert s * (q - 1) == s * q - s;
  }

  // ---- bits -------------------------------------------------------------------------------

  function Pow2(k: nat): (p: nat)
    ensures p > 0
  {
    if k == 0 then 1 else 2 * Pow2(k - 1)
  }

  /** `w & (1 << k)`, tested for being non-zero. */
  predicate TestBit(w: nat, k: nat) {
    if k == 0 then w % 2 == 1 else TestBit(w / 2, k - 1)
  }

  /** `w | (1 << k)`, by recursion on the binary digits of w. */
  function SetBit(w: nat, k: nat): nat {
    if k == 0 then w / 2 * 2 + 1 else 2 * SetBit(w / 2, k - 1) + w % 2
  }

  /** `w & ~(1 << k)`. */
  function ClearBit(w: nat, k: nat): nat {
    if k == 0 then w / 2 * 2 else 2 * ClearBit(w / 2, k - 1) + w % 2
  }

  lemma {:induction false} SetBitTests(w: nat, k: nat, j: nat)
    ensures TestBit(SetBit(w, k), j) <==> j == k || TestBit(w, j)
  {
    if k > 0 && j > 0 {
      SetBitTests(w / 2, k - 1, j - 1);
    }
  }

  lemma {:induction false} ClearBitTests(w: nat, k: nat, j: nat)
    ensures TestBit(ClearBit(w, k), j) <==> j != k && TestBit(w, j)
  {
    if k > 0 && j > 0 {
      ClearBitTests(w / 2, k - 1, j - 1);
    }
  }

  /** The recursive definitions agree with the arithmetic reading of the C operators. */
  lemma {:induction false} BitsAddUp(w: nat, k: nat)
    ensures SetBit(w, k) == w + (if TestBit(w, k) then 0 else Pow2(k))
    ensures ClearBit(w, k) == w - (if TestBit(w, k) then Pow2(k) else 0)
  {
    if k > 0 {
      BitsAddUp(w / 2, k - 1);
    }
  }

  lemma {:induction false} BitsStayBelow(w: nat, k: nat, n: nat)
    requires w < Pow2(n) && k < n
    ensures SetBit(w, k) < Pow2(n) && ClearBit(w, k) < Pow2(n)
  {
    if k > 0 {
      BitsStayBelow(w / 2, k - 1, n - 1);
    }
  }

  lemma WordLimit()
    ensures Pow2(32) == 0x1_0000_0000
  {
    assert Pow2(8) == 256;
    assert Pow2(16) == 65536;
    assert Pow2(24) == 0x100_0000;
  }

  // ---- bytes ------------------------------------------------------------------------------

  /** Byte i (0 is least significant) of a word. */
  function WordByte(w: Word, i: nat): Byte
    requires i < 4
  {
    if i == 0 then w % 0x100
    else if i == 1 then w / 0x100 % 0x100
    else if i == 2 then w / 0x1_0000 % 0x100
    else w / 0x100_0000
  }

  function WordAt(bytes: seq<Byte>, at: nat): Word
    requires at + 4 <= |bytes|
  {
    var b0: int, b1: int, b2: int, b3: int := bytes[at], bytes[at + 1], bytes[at + 2], bytes[at + 3];
    b0 + 0x100 * b1 + 0x1_0000 * b2 + 0x100_0000 * b3
  }

  function EncodeWords(ws: seq<Word>): (bytes: seq<Byte>)
    ensures |bytes| == 4 * |ws|
  {
    seq(4 * |ws|, i requires 0 <= i < 4 * |ws| => WordByte(ws[i / 4], i % 4))
  }

  function DecodeWords(bytes: seq<Byte>, n: nat): (ws: seq<Word>)
    requires 4 * n <= |bytes|
    ensures |ws| == n
  {
    seq(n, i requires 0 <= i < n => WordAt(bytes, 4 * i))
  }

  lemma WordSplits(w: Word)
    ensures WordAt([WordByte(w, 0), WordByte(w, 1), WordByte(w, 2), WordByte(w, 3)], 0) == w
  {
    assert w / 0x1_0000 == w / 0x100 / 0x100 && w / 0x100_0000 == w / 0x1_0000 / 0x100;
  }

  lemma EncodedAt(ws: seq<Word>, i: nat, j: nat)
    requires i < |ws| && j < 4
    ensures EncodeWords(ws)[4 * i + j] == WordByte(ws[i], j)
  {
    assert (4 * i + j) / 4 == i && (4 * i + j) % 4 == j;
  }

  /** Writing words out as bytes and reading them back loses nothing. */
  lemma WordsRoundTrip(ws: seq<Word>)
    ensures DecodeWords(EncodeWords(ws), |ws|) == ws
  {
    var bytes := EncodeWords(ws);
    forall i | 0 <= i < |ws|
      ensures DecodeWords(bytes, |ws|)[i] == ws[i]
    {
      WordBack(ws, i);
    }
  }

  lemma WordBack(ws: seq<Word>, i: nat)
    requires i < |ws|
    ensures WordAt(EncodeWords(ws), 4 * i) == ws[i]
  {
    EncodedAt(ws, i, 0);
    EncodedAt(ws, i, 1);
    EncodedAt(ws, i, 2);
    EncodedAt(ws, i, 3);
    WordSplits(ws[i]);
  }
}

/** bitmap.cc: an array of bits packed into 32-bit words. */
module BitMaps {
  import opened Words

  /** The numbers of the bits that are set, among the first n. */
  ghost function Marked(words: seq<Word>, n: nat): set<int>
    requires n <= BITS_IN_WORD * |words|
  {
    set i | 0 <= i < n && TestBit(words[i / BITS_IN_WORD], i % BITS_IN_WORD)
  }

  lemma MarkedStep(words: seq<Word>, n: nat)
    requires n < BITS_IN_WORD * |words|
    ensures Marked(words, n + 1)
         == Marked(words, n) + (if TestBit(words[n / BITS_IN_WORD], n % BITS_IN_WORD) then {n} else {})
    ensures |Marked(words, n)| <= n
    ensures |Marked(words, n + 1)|
         == |Marked(words, n)| + (if TestBit(words[n / BITS_IN_WORD], n % BITS_IN_WORD) then 1 else 0)
  {
    FullExactly(words, n);
    assert n !in Marked(words, n);
  }

  ghost function Below(s: set<int>, n: nat): set<int> {
    set i | 0 <= i < n && i in s
  }

  lemma {:induction false} FullBelow(s: set<int>, n: nat)
    ensures |Below(s, n)| <= n && (|Below(s, n)| == n <==> forall i :: 0 <= i < n ==> i in s)
  {
    if n > 0 {
      FullBelow(s, n - 1);
      assert Below(s, n) == Below(s, n - 1) + (if n - 1 in s then {n - 1} else {});
    } else {
      assert Below(s, 0) == {};
    }
  }

  /** Every bit is set exactly when the number of marks says so. */
  lemma FullExactly(words: seq<Word>, n: nat)
    requires n <= BITS_IN_WORD * |words|
    ensures |Marked(words, n)| <= n
    ensures |Marked(words, n)| == n <==> forall i :: 0 <= i < n ==> i in Marked(words, n)
  {
    FullBelow(Marked(words, n), n);
    assert Below(Marked(words, n), n) == Marked(words, n);
  }

  class BitMap {
    const numBits: nat
    const words: array<Word>

    ghost predicate Valid()
      reads this
    {
      words.Length == DivRoundUp(numBits, BITS_IN_WORD)
    }

    ghost function Bits(): set<int>
      requires Valid()
      reads this, words
    {
      Marked(words[..], numBits)
    }

    /** The words are allocated with arbitrary contents and cleared one bit at a time. */
    constructor (nitems: nat)
      ensures Valid() && numBits == nitems && fresh(words)
      ensures Bits() == {}
    {
      numBits := nitems;
      words := new Word[DivRoundUp(nitems, BITS_IN_WORD)];
      new;
      for i := 0 to numBits
        invariant Marked(words[..], i) == {}
      {
        ghost var before := Bits();
        assert Marked(words[..], i) == set j | j in before && j < i;
        Clear(i);
        assert Marked(words[..], i + 1) == set j | j in Bits() && j < i + 1;
      }
    }

    method Mark(which: int)
      requires Valid() && 0 <= which < numBits
      modifies words
      ensures Bits() == old(Bits()) + {which}
    {
      var k := which / BITS_IN_WORD;
      WordLimit();
      BitsStayBelow(words[k], which % BITS_IN_WORD, 32);
      words[k] := SetBit(words[k], which % BITS_IN_WORD);
      forall i | 0 <= i < numBits
        ensures i in Bits() <==> i in old(Bits()) + {which}
      {
        SetBitTests(old(words[k]), which % BITS_IN_WORD, i % BITS_IN_WORD);
        if i / BITS_IN_WORD == k && i % BITS_IN_WORD == which % BITS_IN_WORD {
          assert i == which;
        }
      }
    }

    method Clear(which: int)
      requires Valid() && 0 <= which < numBits
      modifies words
      ensures Bits() == old(Bits()) - {which}
    {
      var k := which / BITS_IN_WORD;
      WordLimit();
      BitsStayBelow(words[k], which % BITS_IN_WORD, 32);
      words[k] := ClearBit(words[k], which % BITS_IN_WORD);
      forall i | 0 <= i < numBits
        ensures i in Bits() <==> i in old(Bits()) - {which}
      {
        ClearBitTests(old(words[k]), which % BITS_IN_WORD, i % BITS_IN_WORD);
        if i / BITS_IN_WORD == k && i % BITS_IN_WORD == which % BITS_IN_WORD {
          assert i == which;
        }
      }
    }

    method Test(which: int) returns (set_: bool)
      requires Valid() && 0 <= which < numBits
      ensures set_ <==> which in Bits()
    {
      set_ := TestBit(words[which / BITS_IN_WORD], which % BITS_IN_WORD);
    }

    /** Allocate the lowest clear bit, or return -1 with the map unchanged when it is full. */
    method Find() returns (found: int)
      requires Valid()
      modifies words
      ensures found == -1 <==> |old(Bits())| == numBits
      ensures found == -1 ==> words[..] == old(words[..])
      ensures found != -1 ==>
        && 0 <= found < numBits && found !in old(Bits())
        && (forall j :: 0 <= j < found ==> j in old(Bits()))
        && Bits() == old(Bits()) + {found} && |Bits()| == |old(Bits())| + 1
    {
      FullExactly(words[..], numBits);
      for i := 0 to numBits
        invariant words[..] == old(words[..])
        invariant forall j :: 0 <= j < i ==> j in Bits()
      {
        var marked := Test(i);
        if !marked {
          Mark(i);
          return i;
        }
      }
      assert |Bits()| == numBits;
      return -1;
    }

    method NumClear() returns (count: nat)
      requires Valid()
      ensures count == numBits - |Bits()|
    {
      count := 0;
      for i := 0 to numBits
        invariant count == i - |Marked(words[..], i)|
      {
        MarkedStep(words[..], i);
        var marked := Test(i);
        if !marked {
          count := count + 1;
        }
      }
    }
  }
}

/** mergesort.c: a merge sort that merges in place by rotating elements of the right run into the
    left one.  Elements are compared only through `le`, which stands for CompareFloat(a, b) <= 0. */
module MergeSort {
  ghost predicate TotalPreorder<T(!new)>(le: (T, T) -> bool) {
    && (forall x, y :: le(x, y) || le(y, x))
    && (forall x, y, z :: le(x, y) && le(y, z) ==> le(x, z))
  }

  ghost predicate Sorted<T>(s: seq<T>, lo: int, hi: int, le: (T, T) -> bool) {
    forall i, j :: 0 <= lo <= i < j < hi <= |s| ==> le(s[i], s[j])
  }

  /** The elements of s equivalent to x, in the order they have in s. */
  ghost function Class<T>(s: seq<T>, x: T, le: (T, T) -> bool): seq<T> {
    if s == [] then [] else (if le(s[0], x) && le(x, s[0]) then [s[0]] else []) + Class(s[1..], x, le)
  }

  /** t is a rearrangement of s that keeps equivalent elements in order. */
  ghost predicate Stable<T(!new)>(s: seq<T>, t: seq<T>, le: (T, T) -> bool) {
    |t| == |s| && forall x :: Class(t, x, le) == Class(s, x, le)
  }

  lemma {:induction false} ClassConcat<T>(a: seq<T>, b: seq<T>, x: T, le: (T, T) -> bool)
    ensures Class(a + b, x, le) == Class(a, x, le) + Class(b, x, le)
  {
    if a == [] {
      assert a + b == b;
    } else {
      assert (a + b)[1..] == a[1..] + b;
      ClassConcat(a[1..], b, x, le);
    }
  }

  lemma {:induction false} ClassEmpty<T>(a: seq<T>, x: T, le: (T, T) -> bool)
    requires forall k :: 0 <= k < |a| ==> !(le(a[k], x) && le(x, a[k]))
    ensures Class(a, x, le) == []
  {
    if a != [] {
      ClassEmpty(a[1..], x, le);
    }
  }

  /** Element `from` moved down to position `to`, everything between moved up by one. */
  ghost function Rotated<T>(s: seq<T>, to: int, from: int): (t: seq<T>)
    requires 0 <= to <= from < |s|
    ensures |t| == |s|
    ensures forall k :: 0 <= k < |t| ==>
      t[k] == if k == to then s[from] else if to < k <= from then s[k - 1] else s[k]
  {
    s[..to] + [s[from]] + s[to..from] + s[from + 1..]
  }

  /** Moving an element down past strictly larger ones is stable. */
  lemma RotationIsStable<T(!new)>(s: seq<T>, to: int, from: int, le: (T, T) -> bool)
    requires TotalPreorder(le) && 0 <= to <= from < |s|
    requires forall k :: to <= k < from ==> !le(s[k], s[from])
    ensures Stable(s, Rotated(s, to, from), le)
  {
    var a, m, v, b := s[..to], s[to..from], s[from], s[from + 1..];
    assert s == a + m + [v] + b;
    assert Rotated(s, to, from) == a + [v] + m + b;
    forall x
      ensures Class(Rotated(s, to, from), x, le) == Class(s, x, le)
    {
      SwapKeepsClass(a, m, v, b, x, le);
    }
  }

  lemma ClassOfFour<T>(a: seq<T>, b: seq<T>, c: seq<T>, d: seq<T>, x: T, le: (T, T) -> bool)
    ensures Class(a + b + c + d, x, le) == Class(a, x, le) + Class(b, x, le) + Class(c, x, le) + Class(d, x, le)
  {
    ClassConcat(a + b + c, d, x, le);
    ClassConcat(a + b, c, x, le);
    ClassConcat(a, b, x, le);
  }

  lemma SwapKeepsClass<T(!new)>(a: seq<T>, m: seq<T>, v: T, b: seq<T>, x: T, le: (T, T) -> bool)
    requires TotalPreorder(le) && forall k :: 0 <= k < |m| ==> !le(m[k], v)
    ensures Class(a + [v] + m + b, x, le) == Class(a + m + [v] + b, x, le)
  {
    ClassOfFour(a, [v], m, b, x, le);
    ClassOfFour(a, m, [v], b, x, le);
    if le(v, x) && le(x, v) {
      ClassEmpty(m, x, le);
    } else {
      ClassEmpty([v], x, le);
    }
  }

  /** The innermost loop of merge. */
  method Rotate<T>(arr: array<T>, to: nat, from: nat)
    requires to <= from < arr.Length
    modifies arr
    ensures arr[..] == Rotated(old(arr[..]), to, from)
  {
    var value, index := arr[from], from;
    while index != to
      invariant to <= index <= from
      invariant forall k :: 0 <= k < arr.Length ==> arr[k] == if index < k <= from then old(arr[k - 1]) else old(arr[k])
      decreases index
    {
      arr[index] := arr[index - 1];
      index := index - 1;
    }
    arr[to] := value;
  }

  /** While merging: lo..start is done, start..mid is what is left of the left run and mid+1..end
      what is left of the right one. */
  ghost predicate Merging<T>(s: seq<T>, lo: int, start: int, mid: int, end: int, le: (T, T) -> bool) {
    && 0 <= lo <= start <= mid + 1 && mid <= end < |s|
    && Sorted(s, lo, start, le) && Sorted(s, start, mid + 1, le) && Sorted(s, mid + 1, end + 1, le)
    && (forall i, j :: lo <= i < start <= j <= end ==> le(s[i], s[j]))
  }

  lemma TakeLeft<T(!new)>(s: seq<T>, lo: int, start: int, mid: int, end: int, le: (T, T) -> bool)
    requires TotalPreorder(le) && Merging(s, lo, start, mid, end, le) && start <= mid < end && le(s[start], s[mid + 1])
    ensures Merging(s, lo, start + 1, mid, end, le)
  {
    forall j | start < j <= end
      ensures le(s[start], s[j])
    {
      assert j > mid + 1 ==> le(s[mid + 1], s[j]);
    }
  }

  lemma TakeRight<T(!new)>(s: seq<T>, lo: int, start: int, mid: int, end: int, le: (T, T) -> bool)
    requires TotalPreorder(le) && Merging(s, lo, start, mid, end, le) && start <= mid < end && !le(s[start], s[mid + 1])
    ensures Merging(Rotated(s, start, mid + 1), lo, start + 1, mid + 1, end, le)
    ensures Stable(s, Rotated(s, start, mid + 1), le)
  {
    var v := s[mid + 1];
    forall k | start <= k <= mid
      ensures !le(s[k], v) && le(v, s[k])
    {
      assert k > start ==> le(s[start], s[k]);
    }
    RotationIsStable(s, start, mid + 1, le);
  }

  method Merge<T(!new)>(arr: array<T>, start0: nat, mid0: nat, end: nat, le: (T, T) -> bool)
    requires TotalPreorder(le) && start0 <= mid0 < end < arr.Length
    requires Sorted(arr[..], start0, mid0 + 1, le) && Sorted(arr[..], mid0 + 1, end + 1, le)
    modifies arr
    ensures Sorted(arr[..], start0, end + 1, le) && Stable(old(arr[..]), arr[..], le)
    ensures forall k :: 0 <= k < arr.Length && !(start0 <= k <= end) ==> arr[k] == old(arr[k])
  {
    var start, mid, start2 := start0, mid0, mid0 + 1;
    if le(arr[mid], arr[start2]) {
      return;
    }
    while start <= mid && start2 <= end
      invariant start2 == mid + 1 && Merging(arr[..], start0, start, mid, end, le)
      invariant Stable(old(arr[..]), arr[..], le)
      invariant forall k :: 0 <= k < arr.Length && !(start0 <= k <= end) ==> arr[k] == old(arr[k])
      decreases end + 1 - start
    {
      if le(arr[start], arr[start2]) {
        TakeLeft(arr[..], start0, start, mid, end, le);
        start := start + 1;
      } else {
        TakeRight(arr[..], start0, start, mid, end, le);
        Rotate(arr, start, start2);
        start, mid, start2 := start + 1, mid + 1, start2 + 1;
      }
    }
  }

  method Sort<T(!new)>(arr: array<T>, left: int, right: int, le: (T, T) -> bool)
    requires TotalPreorder(le) && 0 <= left && right < arr.Length
    modifies arr
    ensures Sorted(arr[..], left, right + 1, le) && Stable(old(arr[..]), arr[..], le)
    ensures forall k :: 0 <= k < arr.Length && !(left <= k <= right) ==> arr[k] == old(arr[k])
    decreases right - left
  {
    if left < right {
      var mid := left + (right - left) / 2;
      Sort(arr, left, mid, le);
      Sort(arr, mid + 1, right, le);
      Merge(arr, left, mid, right, le);
    }
  }

  // ---- what the specification pins down -----------------------------------------------------

  lemma {:induction false} ClassCounts<T>(s: seq<T>, v: T, le: (T, T) -> bool)
    requires le(v, v)
    ensures multiset(Class(s, v, le))[v] == multiset(s)[v]
  {
    if s != [] {
      assert s == [s[0]] + s[1..];
      ClassCounts(s[1..], v, le);
    }
  }

  /** A stable rearrangement is a permutation. */
  lemma StableIsPermutation<T(!new)>(s: seq<T>, t: seq<T>, le: (T, T) -> bool)
    requires TotalPreorder(le) && Stable(s, t, le)
    ensures multiset(s) == multiset(t)
  {
    forall v: T
      ensures multiset(s)[v] == multiset(t)[v]
    {
      ClassCounts(s, v, le);
      ClassCounts(t, v, le);
    }
  }

  lemma {:induction false} ClassHas<T>(s: seq<T>, k: int, le: (T, T) -> bool)
    requires 0 <= k < |s| && le(s[k], s[k])
    ensures Class(s, s[k], le) != []
  {
    if k > 0 {
      ClassHas(s[1..], k - 1, le);
    }
  }

  lemma {:induction false} ClassFrom<T>(s: seq<T>, x: T, le: (T, T) -> bool) returns (k: int)
    requires Class(s, x, le) != []
    ensures 0 <= k < |s| && le(s[k], x) && le(x, s[k])
  {
    if le(s[0], x) && le(x, s[0]) {
      k := 0;
    } else {
      k := ClassFrom(s[1..], x, le);
      k := k + 1;
    }
  }

  /** The first element of a sorted sequence is equivalent to that of any other with the same classes. */
  lemma HeadBelow<T(!new)>(s: seq<T>, t: seq<T>, le: (T, T) -> bool)
    requires TotalPreorder(le) && Stable(s, t, le) && s != [] && Sorted(t, 0, |t|, le)
    ensures t != [] && le(t[0], s[0])
  {
    ClassHas(s, 0, le);
    var k := ClassFrom(t, s[0], le);
    assert k > 0 ==> le(t[0], t[k]);
  }

  /** Sorted and stable together leave only one result. */
  lemma {:induction false} OnlyOneResult<T(!new)>(s: seq<T>, t: seq<T>, le: (T, T) -> bool)
    requires TotalPreorder(le) && Stable(s, t, le) && Sorted(s, 0, |s|, le) && Sorted(t, 0, |t|, le)
    ensures s == t
  {
    if s != [] {
      HeadBelow(s, t, le);
      HeadBelow(t, s, le);
      assert Class(t, s[0], le)[0] == t[0] && Class(s, s[0], le)[0] == s[0];
      forall x
        ensures Class(t[1..], x, le) == Class(s[1..], x, le)
      {
        var h := if le(s[0], x) && le(x, s[0]) then [s[0]] else [];
        assert Class(s, x, le) == h + Class(s[1..], x, le) && Class(t, x, le) == h + Class(t[1..], x, le);
        assert Class(s, x, le)[|h|..] == Class(s[1..], x, le) && Class(t, x, le)[|h|..] == Class(t[1..], x, le);
      }
      OnlyOneResult(s[1..], t[1..], le);
      assert s == [s[0]] + s[1..] && t == [t[0]] + t[1..];
    }
  }
}

/** quicksort.c: an iterative quicksort with a fixed explicit stack of segments. */
module QuickSort {
  const MAX := 99

  ghost predicate Sorted(s: seq<int>) {
    forall i, j :: 0 <= i < j < |s| ==> s[i] <= s[j]
  }

  /** Position x of s splits it: nothing larger before it, nothing smaller after it. */
  ghost predicate Cut(s: seq<int>, x: int) {
    0 <= x < |s| && (forall u :: 0 <= u < x ==> s[u] <= s[x]) && forall v :: x < v < |s| ==> s[x] <= s[v]
  }

  ghost predicate Rearranged(s: seq<int>, t: seq<int>, b: int, e: int) {
    Within(s, t, b, e) && multiset(t) == multiset(s)
  }

  /** t differs from s only on the stretch b..e, and there only by values that were there. */
  ghost predicate Within(s: seq<int>, t: seq<int>, b: int, e: int) {
    && 0 <= b <= e <= |s| == |t|
    && (forall k :: 0 <= k < |s| && !(b <= k < e) ==> t[k] == s[k])
    && (forall k :: b <= k < e ==> t[k] in s[b..e])
  }

  lemma WithinPrefix(s: seq<int>, t: seq<int>, b: int, e: int, n: nat)
    requires Within(s, t, b, e) && e <= n <= |s|
    ensures Within(s[..n], t[..n], b, e)
  {
    forall k | b <= k < e
      ensures t[..n][k] in s[..n][b..e]
    {
      var j :| 0 <= j < e - b && s[b..e][j] == t[k];
      assert s[..n][b..e][j] == t[k];
    }
  }

  /** Rearranging a stretch leaves a cut outside it a cut. */
  lemma CutStays(s: seq<int>, t: seq<int>, b: int, e: int, x: int)
    requires Within(s, t, b, e) && Cut(s, x) && !(b <= x < e)
    ensures Cut(t, x)
  {
    forall k | b <= k < e
      ensures x < b ==> s[x] <= t[k]
      ensures e <= x ==> t[k] <= s[x]
    {
      var j :| b <= j < e && s[j] == t[k];
    }
  }

  /** Moving s[j] into the hole at i, and the hole to j, is still a rearrangement once the pivot
      is put into the hole. */
  lemma MoveHole(s0: seq<int>, s: seq<int>, b: int, e: int, i: int, j: int, piv: int)
    requires b <= i < e <= |s| && b <= j < e && 0 <= b && i != j
    requires Rearranged(s0, s[i := piv], b, e)
    ensures Rearranged(s0, s[i := s[j]][j := piv], b, e)
  {
    var t, t' := s[i := piv], s[i := s[j]][j := piv];
    assert multiset(t') == multiset(t);
    assert t'[i] == t[j] && t'[j] == t[i];
    assert forall k :: 0 <= k < |s| && k != i && k != j ==> t'[k] == t[k];
  }

  /** The values around the gap L..R are on the right sides of the pivot. */
  ghost predicate Sides(s: seq<int>, lo: int, L: int, R: int, hi: int, piv: int)
    requires 0 <= lo <= L && hi < |s|
  {
    && (forall k :: lo <= k < L && k < |s| ==> s[k] <= piv)
    && (forall k :: R < k <= hi && 0 <= k ==> piv <= s[k])
  }

  /** The first element of lo..hi is smaller than no other, as everywhere in a sorted array. */
  ghost predicate FirstIsLeast(s: seq<int>, lo: int, hi: int)
    requires 0 <= lo && hi < |s|
  {
    forall k :: lo < k <= hi ==> s[lo] <= s[k]
  }

  /** The inner loops: split arr[lo..hi] around its first element, moving a hole between the two
      ends instead of swapping. */
  method Partition(arr: array<int>, lo: nat, hi: nat) returns (p: nat)
    requires lo < hi < arr.Length
    modifies arr
    ensures lo <= p <= hi
    ensures Rearranged(old(arr[..]), arr[..], lo, hi + 1)
    ensures Sides(arr[..], lo, p, p, hi, arr[p])
    ensures FirstIsLeast(old(arr[..]), lo, hi) ==> p == lo && arr[..] == old(arr[..])
  {
    var L, R := lo, hi;
    var piv := arr[L];
    ghost var s0 := arr[..];
    assert s0[L := piv] == s0;
    while L < R
      invariant lo <= L <= R <= hi
      invariant Rearranged(s0, arr[..][L := piv], lo, hi + 1)
      invariant Sides(arr[..], lo, L, R, hi, piv)
      invariant FirstIsLeast(s0, lo, hi) ==> L == lo && arr[..] == s0
      decreases R - L
    {
      L, R := Exchange(arr, L, R, piv, s0, lo, hi);
    }
    arr[L] := piv;
    p := L;
  }

  /** One round of the partition loop: an element from the right into the hole at L, then an
      element from the left into the hole that leaves. */
  method Exchange(arr: array<int>, L0: nat, R0: nat, piv: int, ghost s0: seq<int>, lo: nat, hi: nat) returns (L: nat, R: nat)
    requires lo <= L0 < R0 <= hi < arr.Length
    requires Rearranged(s0, arr[..][L0 := piv], lo, hi + 1) && Sides(arr[..], lo, L0, R0, hi, piv)
    modifies arr
    ensures L0 <= L <= R <= R0 && R - L < R0 - L0
    ensures Rearranged(s0, arr[..][L := piv], lo, hi + 1) && Sides(arr[..], lo, L, R, hi, piv)
    ensures (forall k :: L0 < k <= R0 ==> piv <= old(arr[k])) ==> L == L0 && arr[..] == old(arr[..])
  {
    L := L0;
    R := ScanDown(arr, lo, L, R0, hi, piv);
    if L < R {
      Fill(arr, L, R, piv, s0, lo, hi);
      L := L + 1;
    }
    L := ScanUp(arr, lo, L, R, hi, piv);
    if L < R {
      Fill(arr, R, L, piv, s0, lo, hi);
      R := R - 1;
    }
  }

  /** Move an element across the gap into the hole. */
  method Fill(arr: array<int>, hole: nat, from: nat, piv: int, ghost s0: seq<int>, ghost lo: nat, ghost hi: nat)
    requires lo <= hole <= hi < arr.Length && lo <= from <= hi && hole != from
    requires Rearranged(s0, arr[..][hole := piv], lo, hi + 1)
    modifies arr
    ensures arr[..] == old(arr[..])[hole := old(arr[from])]
    ensures Rearranged(s0, arr[..][from := piv], lo, hi + 1)
  {
    MoveHole(s0, arr[..], lo, hi + 1, hole, from, piv);
    arr[hole] := arr[from];
  }

  method ScanDown(arr: array<int>, lo: nat, L: nat, R0: nat, hi: nat, piv: int) returns (R: nat)
    requires lo <= L <= R0 <= hi < arr.Length && Sides(arr[..], lo, L, R0, hi, piv)
    ensures L <= R <= R0 && Sides(arr[..], lo, L, R, hi, piv)
    ensures L < R ==> arr[R] < piv
  {
    R := R0;
    while arr[R] >= piv && L < R
      invariant L <= R <= R0 && Sides(arr[..], lo, L, R, hi, piv)
      decreases R
    {
      R := R - 1;
    }
  }

  method ScanUp(arr: array<int>, lo: nat, L0: nat, R: nat, hi: nat, piv: int) returns (L: nat)
    requires lo <= L0 <= R <= hi < arr.Length && Sides(arr[..], lo, L0, R, hi, piv)
    ensures L0 <= L <= R && Sides(arr[..], lo, L, R, hi, piv)
    ensures L < R ==> arr[L] > piv
  {
    L := L0;
    while arr[L] <= piv && L < R
      invariant L0 <= L <= R && Sides(arr[..], lo, L, R, hi, piv)
      decreases R - L
    {
      L := L + 1;
    }
  }

  // ---- the stack ------------------------------------------------------------------------------

  /** The stacked segments b..e, topmost first. */
  datatype Segments = Empty | Push(below: Segments, b: int, e: int) {
    ghost function Depth(): nat {
      if Empty? then 0 else below.Depth() + 1
    }

    /** The segments lie left to right, one position apart, and those positions are cuts. */
    ghost predicate Apart(s: seq<int>) {
      Push? ==>
        && 0 <= b <= e <= |s| && below.Apart(s)
        && (if below.Empty? then b == 0 else below.e + 1 == b && Cut(s, below.e))
    }

    /** Everything to the right of the topmost segment is in its final place. */
    ghost predicate Settled(s: seq<int>) {
      forall x :: (if Empty? then 0 else e) <= x < |s| ==> Cut(s, x)
    }

    ghost predicate StoredIn(begs: seq<int>, ends: seq<int>) {
      Push? ==>
        && Depth() <= |begs| && Depth() <= |ends|
        && begs[Depth() - 1] == b && ends[Depth() - 1] == e && below.StoredIn(begs, ends)
    }

    /** A bound on the rounds still to come. */
    ghost function Rounds(): nat {
      if Empty? then 0 else below.Rounds() + RoundsFor(e - b)
    }
  }

  function RoundsFor(size: int): nat {
    if size <= 1 then 1 else 2 * size - 1
  }

  /** The segment at depth d starts at position d - 1 or later, so MAX segments leave no room for
      two elements in the last unless there are more than MAX elements. */
  lemma {:induction false} DeepIsFar(g: Segments, s: seq<int>)
    requires g.Apart(s) && g.Push?
    ensures g.b >= g.Depth() - 1
  {
    if g.below.Push? {
      DeepIsFar(g.below, s);
    }
  }

  lemma {:induction false} BelowStays(g: Segments, s: seq<int>, t: seq<int>, b: int, e: int)
    requires g.Apart(s) && Within(s, t, b, e) && (g.Push? ==> g.e < b)
    ensures g.Apart(t)
  {
    if g.Push? {
      if g.below.Push? {
        CutStays(s, t, b, e, g.below.e);
      }
      BelowStays(g.below, s, t, b, e);
    }
  }

  lemma {:induction false} StoredStays(g: Segments, begs: seq<int>, ends: seq<int>, begs': seq<int>, ends': seq<int>)
    requires g.StoredIn(begs, ends) && |begs'| == |begs| && |ends'| == |ends|
    requires forall j :: 0 <= j < g.Depth() && j < |begs| ==> begs'[j] == begs[j]
    requires forall j :: 0 <= j < g.Depth() && j < |ends| ==> ends'[j] == ends[j]
    ensures g.StoredIn(begs', ends')
  {
    if g.Push? {
      StoredStays(g.below, begs, ends, begs', ends');
    }
  }

  /** A segment of at most one element is itself settled. */
  lemma PopSettles(g: Segments, s: seq<int>)
    requires g.Push? && g.Apart(s) && g.Settled(s) && g.e <= g.b + 1
    ensures g.below.Settled(s)
  {
    if g.e == g.b + 1 {
      assert g.below.Push? ==> Cut(s, g.below.e);
      forall v | g.b < v < |s|
        ensures s[g.b] <= s[v]
      {
        assert Cut(s, v);
      }
      assert Cut(s, g.b);
    }
  }

  /** Splitting the topmost segment at p: the part left of p and the part right of it are apart. */
  lemma SplitSettles(g: Segments, s: seq<int>, t: seq<int>, p: int)
    requires g.Push? && g.Apart(s) && g.Settled(s) && g.b <= p < g.e
    requires Within(s, t, g.b, g.e) && Sides(t, g.b, p, p, g.e - 1, t[p])
    ensures var g' := Push(Push(g.below, g.b, p), p + 1, g.e);
      g'.Apart(t) && g'.Settled(t)
  {
    BelowStays(g.below, s, t, g.b, g.e);
    forall x | g.e <= x < |t|
      ensures Cut(t, x)
    {
      CutStays(s, t, g.b, g.e, x);
    }
    if g.below.Push? {
      CutStays(s, t, g.b, g.e, g.below.e);
    }
    forall v | p < v < |t|
      ensures t[p] <= t[v]
    {
      assert v >= g.e ==> Cut(t, v);
    }
    assert Cut(t, p);
  }

  // ---- the sort -------------------------------------------------------------------------------

  lemma AllSettled(s: seq<int>)
    requires Segments.Empty.Settled(s)
    ensures Sorted(s)
  {
    forall x, y | 0 <= x < y < |s|
      ensures s[x] <= s[y]
    {
      assert Cut(s, x);
    }
  }

  /** Partition the topmost segment. */
  method SplitTop(arr: array<int>, n: nat, L: int, R: int, ghost g: Segments) returns (p: int)
    requires n <= arr.Length && g.Push? && g.Apart(arr[..n]) && g.Settled(arr[..n])
    requires L == g.b && R == g.e - 1 && L < R
    modifies arr
    ensures multiset(arr[..]) == multiset(old(arr[..])) && arr[n..] == old(arr[n..]) && L <= p <= R
    ensures var g' := Push(Push(g.below, g.b, p), p + 1, g.e); g'.Apart(arr[..n]) && g'.Settled(arr[..n])
    ensures FirstIsLeast(old(arr[..]), L, R) ==> p == L && arr[..] == old(arr[..])
  {
    assert arr[..][..n] == arr[..n];
    p := Partition(arr, L, R);
    WithinPrefix(old(arr[..]), arr[..], g.b, g.e, n);
    SplitSettles(g, old(arr[..])[..n], arr[..][..n], p);
    assert arr[..][..n] == arr[..n];
  }

  /** Put the left part in the place of the topmost segment, and the right part on top. */
  method SplitStored(beg: array<int>, end: array<int>, i: nat, p: int, ghost g: Segments)
    requires g.Push? && g.Depth() == i + 1 && i + 1 < beg.Length == end.Length && beg != end
    requires g.StoredIn(beg[..], end[..])
    modifies beg, end
    ensures Push(Push(g.below, g.b, p), p + 1, g.e).StoredIn(beg[..], end[..])
  {
    ghost var begs, ends := beg[..], end[..];
    beg[i + 1] := p + 1;
    end[i + 1] := end[i];
    end[i] := p;
    StoredStays(g.below, begs, ends, beg[..], end[..]);
    assert Push(g.below, g.b, p).StoredIn(beg[..], end[..]);
  }

  lemma SplitCosts(g: Segments, p: int)
    requires g.Push? && g.b <= p < g.e && g.b + 2 <= g.e
    ensures Push(Push(g.below, g.b, p), p + 1, g.e).Rounds() < g.Rounds()
  {
    assert Push(g.below, g.b, p).Rounds() == g.below.Rounds() + RoundsFor(p - g.b);
  }

  lemma SortedHasLeast(s: seq<int>, n: nat, lo: nat, hi: int)
    requires n <= |s| && Sorted(s[..n]) && hi < n
    ensures FirstIsLeast(s, lo, hi)
  {
    forall k | lo < k <= hi
      ensures s[lo] <= s[k]
    {
      assert s[..n][lo] <= s[..n][k];
    }
  }

  /** Returns 0 with the first n elements sorted, or -1 when the stack would overflow, which takes
      more than MAX elements; either way the array is a permutation of what it was.  The bound is tight:
      on more than MAX elements that are sorted already, each split leaves nothing on the left, and the
      stack does overflow. */
  method Sort(arr: array<int>, n: nat) returns (result: int, totalShifting: nat)
    requires n <= arr.Length
    modifies arr
    ensures multiset(arr[..]) == multiset(old(arr[..]))
    ensures arr[n..] == old(arr[n..])
    ensures result == 0 ==> Sorted(arr[..n])
    ensures result == 0 || (result == -1 && n > MAX)
    ensures Sorted(old(arr[..n])) && n > MAX ==> result == -1
    ensures totalShifting <= RoundsFor(n)
  {
    var beg, end := new int[MAX], new int[MAX];
    var i := 0;
    totalShifting := 0;
    beg[0], end[0] := 0, n;
    ghost var g := Push(Empty, 0, n);
    ghost var climbs := Sorted(arr[..n]) && n > MAX;
    while i >= 0
      invariant climbs ==> arr[..] == old(arr[..]) && g.Push? && g.b == i && g.e == n
      invariant i + 1 == g.Depth() && i < MAX && beg.Length == MAX == end.Length
      invariant multiset(arr[..]) == multiset(old(arr[..])) && arr[n..] == old(arr[n..])
      invariant g.Apart(arr[..n]) && g.Settled(arr[..n]) && g.StoredIn(beg[..], end[..])
      invariant totalShifting + g.Rounds() <= RoundsFor(n)
      decreases g.Rounds()
    {
      totalShifting := totalShifting + 1;
      var L, R := beg[i], end[i] - 1;
      if L < R {
        DeepIsFar(g, arr[..n]);
        if i == MAX - 1 {
          return -1, totalShifting;
        }
        if climbs {
          assert arr[..][..n] == old(arr[..n]);
          SortedHasLeast(arr[..], n, L, R);
        }
        L := SplitTop(arr, n, L, R, g);
        SplitStored(beg, end, i, L, g);
        SplitCosts(g, L);
        i := i + 1;
        g := Push(Push(g.below, g.b, L), L + 1, g.e);
      } else {
        PopSettles(g, arr[..n]);
        g := g.below;
        i := i - 1;
      }
    }
    AllSettled(arr[..n]);
    return 0, totalShifting;
  }
}

/** list.cc: the singly linked list with first and last pointers used for ready threads, semaphore
    queues and pending interrupts. */
module ThreadList {
  import opened Options

  /** What a list holds, front to back: items with their keys. */
  type Entry<T> = (T, int)

  /** Insert before the first entry with a larger key. */
  function InsertByKey<T>(s: seq<Entry<T>>, x: Entry<T>): seq<Entry<T>> {
    if s == [] || x.1 < s[0].1 then [x] + s else [s[0]] + InsertByKey(s[1..], x)
  }

  predicate SortedByKey<T>(s: seq<Entry<T>>) {
    forall i, j :: 0 <= i < j < |s| ==> s[i].1 <= s[j].1
  }

  /** Position p is where x belongs: after keys up to its own, before a larger one. */
  ghost predicate Belongs<T>(s: seq<Entry<T>>, x: Entry<T>, p: int) {
    && 0 <= p <= |s| && (forall k :: 0 <= k < p ==> s[k].1 <= x.1) && (p < |s| ==> x.1 < s[p].1)
  }

  lemma {:induction false} InsertedAt<T>(s: seq<Entry<T>>, x: Entry<T>, p: int)
    requires Belongs(s, x, p)
    ensures InsertByKey(s, x) == s[..p] + [x] + s[p..]
  {
    if p == 0 {
      assert s[..0] == [] && s[0..] == s;
    } else {
      InsertedAt(s[1..], x, p - 1);
      assert s[..p] == [s[0]] + s[1..][..p - 1];
    }
  }

  lemma {:induction false} SomewhereBelongs<T>(s: seq<Entry<T>>, x: Entry<T>) returns (p: int)
    ensures Belongs(s, x, p)
  {
    if s == [] || x.1 < s[0].1 {
      p := 0;
    } else {
      p := SomewhereBelongs(s[1..], x);
      p := p + 1;
    }
  }

  lemma InsertedSorted<T>(s: seq<Entry<T>>, x: Entry<T>, p: int, t: seq<Entry<T>>)
    requires SortedByKey(s) && Belongs(s, x, p) && t == s[..p] + [x] + s[p..]
    ensures SortedByKey(t) && forall k :: p <= k < |s| ==> x.1 < s[k].1
  {
    forall i, j | 0 <= i < j < |t|
      ensures t[i].1 <= t[j].1
    {
      assert t[i] == (if i < p then s[i] else if i == p then x else s[i - 1]);
      assert t[j] == (if j < p then s[j] else if j == p then x else s[j - 1]);
    }
  }

  /** Inserting into a sorted list keeps it sorted, keeps every entry, and puts the new one behind
      all entries with the same key. */
  lemma InsertKeepsSorted<T>(s: seq<Entry<T>>, x: Entry<T>) returns (p: int)
    requires SortedByKey(s)
    ensures SortedByKey(InsertByKey(s, x)) && multiset(InsertByKey(s, x)) == multiset(s) + multiset{x}
    ensures Belongs(s, x, p) && InsertByKey(s, x) == s[..p] + [x] + s[p..]
    ensures forall k :: p <= k < |s| ==> x.1 < s[k].1
  {
    p := SomewhereBelongs(s, x);
    InsertedAt(s, x, p);
    InsertedSorted(s, x, p, InsertByKey(s, x));
    InsertedElements(s, x, p);
  }

  lemma InsertedElements<T>(s: seq<Entry<T>>, x: Entry<T>, p: int)
    requires 0 <= p <= |s|
    ensures multiset(s[..p] + [x] + s[p..]) == multiset(s) + multiset{x}
  {
    assert s == s[..p] + s[p..];
  }

  class ListElement<T> {
    var next: ListElement?<T>
    var item: T
    var key: int

    constructor (itemPtr: T, sortKey: int)
      ensures item == itemPtr && key == sortKey && next == null
    {
      item, key, next := itemPtr, sortKey, null;
    }
  }

  class List<T> {
    var first: ListElement?<T>
    var last: ListElement?<T>
    ghost var spine: seq<ListElement<T>>   // the elements from first to last

    /** The chain from first visits each element of the spine once and ends at last. */
    ghost predicate Valid()
      reads this, spine
    {
      && (forall i, j :: 0 <= i < j < |spine| ==> spine[i] != spine[j])
      && (forall i {:trigger spine[i].next} :: 0 <= i < |spine| - 1 ==> spine[i].next == spine[i + 1])
      && (if spine == [] then first == null && last == null
          else first == spine[0] && last == spine[|spine| - 1] && last.next == null)
    }

    ghost function Contents(): (s: seq<Entry<T>>)
      reads this, spine
      ensures |s| == |spine|
    {
      seq(|spine|, i requires 0 <= i < |spine| reads this, spine => (spine[i].item, spine[i].key))
    }

    constructor ()
      ensures Valid() && Contents() == [] && spine == []
    {
      first, last, spine := null, null, [];
    }

    method IsEmpty() returns (empty: bool)
      requires Valid()
      ensures empty <==> Contents() == []
    {
      empty := first == null;
    }

    method Append(item: T)
      requires Valid()
      modifies this, spine
      ensures Valid() && fresh(set x | x in spine && x !in old(spine))
      ensures Contents() == old(Contents()) + [(item, 0)]
    {
      var element := new ListElement(item, 0);
      if first == null {
        first, last := element, element;
      } else {
        last.next := element;
        last := element;
      }
      spine := spine + [element];
    }

    method Prepend(item: T)
      requires Valid()
      modifies this, spine
      ensures Valid() && fresh(set x | x in spine && x !in old(spine))
      ensures Contents() == [(item, 0)] + old(Contents())
    {
      var element := new ListElement(item, 0);
      if first == null {
        first, last := element, element;
      } else {
        element.next := first;
        first := element;
      }
      spine := [element] + spine;
    }

    /** Remove, and SortedRemove, which also reports the key; null on an empty list is None here. */
    method SortedRemove() returns (r: Option<Entry<T>>)
      requires Valid()
      modifies this
      ensures Valid() && (forall x :: x in spine ==> x in old(spine))
      ensures r == (if old(Contents()) == [] then None else Some(old(Contents())[0]))
      ensures Contents() == if old(Contents()) == [] then [] else old(Contents())[1..]
    {
      if first == null {
        return None;
      }
      var element := first;
      r := Some((element.item, element.key));
      if first == last {
        assert |spine| == 1 by {
          assert spine[0] == spine[|spine| - 1];
        }
        first, last := null, null;
      } else {
        first := element.next;
      }
      spine := spine[1..];
    }

    method SortedInsert(item: T, sortKey: int)
      requires Valid()
      modifies this, spine
      ensures Valid() && fresh(set x | x in spine && x !in old(spine))
      ensures Contents() == InsertByKey(old(Contents()), (item, sortKey))
    {
      var element := new ListElement(item, sortKey);
      ghost var s, x := Contents(), (item, sortKey);
      if first == null {
        first, last := element, element;
        spine := [element];
        assert Contents() == [x];
      } else if sortKey < first.key {
        LinkFirst(element);
      } else {
        ghost var p;
        var ptr;
        ptr, p := FindSpot(sortKey);
        InsertedAt(s, x, p);
        LinkAfter(ptr, element, p);
      }
    }

    method LinkFirst(element: ListElement<T>)
      requires Valid() && spine != [] && element !in spine
      modifies this, element`next
      ensures Valid() && spine == [element] + old(spine)
      ensures Contents() == [(element.item, element.key)] + old(Contents())
    {
      element.next := first;
      first := element;
      spine := [element] + spine;
    }

    /** Walk to the element after which a new one with this key goes. */
    method FindSpot(sortKey: int) returns (ptr: ListElement<T>, ghost p: int)
      requires Valid() && first != null && first.key <= sortKey
      ensures 0 < p <= |spine| && ptr == spine[p - 1]
      ensures forall k :: 0 <= k < p ==> spine[k].key <= sortKey
      ensures p < |spine| ==> sortKey < spine[p].key
    {
      ptr, p := first, 1;
      while ptr.next != null
        invariant 0 < p <= |spine| && ptr == spine[p - 1]
        invariant forall k :: 0 <= k < p ==> spine[k].key <= sortKey
        decreases |spine| - p
      {
        if sortKey < ptr.next.key {
          return;
        }
        ptr, p := ptr.next, p + 1;
      }
    }

    method LinkAfter(ptr: ListElement<T>, element: ListElement<T>, ghost p: int)
      requires Valid() && 0 < p <= |spine| && ptr == spine[p - 1]
      requires element !in spine && element.next == null
      modifies this, ptr, element`next
      ensures Valid() && spine == old(spine)[..p] + [element] + old(spine)[p..]
      ensures Contents() == old(Contents())[..p] + [(element.item, element.key)] + old(Contents())[p..]
    {
      if ptr.next != null {
        element.next := ptr.next;
        ptr.next := element;
      } else {
        last.next := element;
        last := element;
      }
      spine := spine[..p] + [element] + spine[p..];
    }
  }
}

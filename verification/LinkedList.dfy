/** What the linked lists of lib/list.cc compute, on sequences. */
module ListSpec {
  ghost predicate NoDup<T>(s: seq<T>) {
    forall i, j :: 0 <= i < j < |s| ==> s[i] != s[j]
  }

  /** Where a sorted insertion puts x: before the first element that x compares below. */
  function InsertSorted<T>(s: seq<T>, x: T, compare: (T, T) -> int): (r: seq<T>)
    ensures |r| == |s| + 1
  {
    if s == [] then
      [x]
    else if compare(x, s[0]) < 0 then
      [x] + s
    else
      [s[0]] + InsertSorted(s[1..], x, compare)
  }

  ghost predicate Sorted<T>(s: seq<T>, compare: (T, T) -> int) {
    forall i, j :: 0 <= i < j < |s| ==> compare(s[i], s[j]) <= 0
  }

  /** What a comparison function has to be for a sorted list to make sense of it. */
  ghost predicate TotalPreorder<T(!new)>(compare: (T, T) -> int) {
    && (forall x, y :: compare(x, y) <= 0 || compare(y, x) <= 0)
    && (forall x, y :: compare(x, y) < 0 <==> compare(y, x) > 0)
    && (forall x, y, z :: compare(x, y) <= 0 && compare(y, z) <= 0 ==> compare(x, z) <= 0)
  }

  /** The place an insertion chooses: everything before it compares at most equal to x, so x goes
      last among its equals, and nothing already in the list changes its order. */
  ghost predicate IsInsertPoint<T>(s: seq<T>, x: T, compare: (T, T) -> int, k: nat) {
    && k <= |s|
    && (forall i :: 0 <= i < k ==> compare(x, s[i]) >= 0)
    && (k < |s| ==> compare(x, s[k]) < 0)
  }

  lemma {:induction false} InsertSplits<T>(s: seq<T>, x: T, compare: (T, T) -> int, k: nat)
    requires IsInsertPoint(s, x, compare, k)
    ensures InsertSorted(s, x, compare) == s[..k] + [x] + s[k..]
  {
    if k > 0 {
      assert compare(x, s[0]) >= 0;
      InsertSplits(s[1..], x, compare, k - 1);
      assert s[..k] == [s[0]] + s[1..][..k - 1];
    }
  }

  ghost function InsertPoint<T>(s: seq<T>, x: T, compare: (T, T) -> int): (k: nat)
    ensures IsInsertPoint(s, x, compare, k)
  {
    if s == [] || compare(x, s[0]) < 0 then 0 else 1 + InsertPoint(s[1..], x, compare)
  }

  /** In a sorted list, x goes strictly below everything from the insertion point on. */
  lemma AfterInsertPoint<T(!new)>(s: seq<T>, x: T, compare: (T, T) -> int, k: nat, i: nat)
    requires TotalPreorder(compare) && Sorted(s, compare)
    requires IsInsertPoint(s, x, compare, k) && k <= i < |s|
    ensures compare(x, s[i]) < 0
  {
    if i > k {
      assert compare(s[k], s[i]) <= 0;
    }
  }

  /** Insertion keeps a sorted list sorted. */
  lemma InsertKeepsSorted<T(!new)>(s: seq<T>, x: T, compare: (T, T) -> int)
    requires TotalPreorder(compare) && Sorted(s, compare)
    ensures Sorted(InsertSorted(s, x, compare), compare)
  {
    var k := InsertPoint(s, x, compare);
    InsertSplits(s, x, compare, k);
    SplitSorted(s, x, compare, k);
  }

  lemma SplitSorted<T(!new)>(s: seq<T>, x: T, compare: (T, T) -> int, k: nat)
    requires TotalPreorder(compare) && Sorted(s, compare) && IsInsertPoint(s, x, compare, k)
    ensures Sorted(s[..k] + [x] + s[k..], compare)
  {
    var r := s[..k] + [x] + s[k..];
    forall i, j | 0 <= i < j < |r|
      ensures compare(r[i], r[j]) <= 0
    {
      if i == k {
        AfterInsertPoint(s, x, compare, k, j - 1);
      }
    }
  }

  lemma InsertAddsOne<T>(s: seq<T>, x: T, compare: (T, T) -> int)
    ensures multiset(InsertSorted(s, x, compare)) == multiset(s) + multiset{x}
  {
    var k := InsertPoint(s, x, compare);
    InsertSplits(s, x, compare, k);
    assert s == s[..k] + s[k..];
  }

  lemma NoDupInsert<T>(s: seq<T>, k: nat, x: T)
    requires k <= |s| && NoDup(s) && x !in s
    ensures NoDup(s[..k] + [x] + s[k..])
  {
  }

  lemma TailOf<T>(s: seq<T>)
    requires NoDup(s) && s != []
    ensures NoDup(s[1..]) && forall i :: 0 <= i < |s| - 1 ==> s[1..][i] == s[i + 1]
    ensures forall x :: x in s[1..] ==> x in s
    ensures |s| == 1 <==> s[0] == s[|s| - 1]
  {
  }

  lemma NoDupRemoved<T>(s: seq<T>, k: nat)
    requires k < |s| && NoDup(s)
    ensures NoDup(s[..k] + s[k + 1..]) && s[k] !in s[..k] + s[k + 1..]
  {
  }
}

/** The singly linked list of lib/list.cc, on the heap. Items are unique: every way in asserts
    that the item is not there yet. */
module LinkedList {
  import opened ListSpec

  class ListElement<T> {
    var next: ListElement?<T>
    var item: T

    constructor (itm: T)
      ensures item == itm && next == null
    {
      item := itm;
      next := null;
    }
  }

  class List<T(==)> {
    var first: ListElement?<T>
    var last: ListElement?<T>
    var numInList: int
    ghost var contents: seq<T>              // the sequence the list stands for
    ghost var spine: seq<ListElement<T>>    // the chain from first to last

    /** first, last and numInList agree with the chain, the chain has no cycle, and no item
        occurs twice. */
    ghost predicate Valid()
      reads this, spine
    {
      && numInList == |spine| == |contents|
      && NoDup(spine)
      && (spine == [] ==> first == null && last == null)
      && (spine != [] ==> first == spine[0] && last == spine[|spine| - 1] && last.next == null)
      && (forall i :: 0 <= i < |spine| - 1 ==> spine[i].next == spine[i + 1])
      && (forall i :: 0 <= i < |spine| ==> spine[i].item == contents[i])
      && NoDup(contents)
    }

    constructor ()
      ensures Valid() && contents == []
    {
      first, last, numInList, spine := null, null, 0, [];
      contents := [];
    }

    method IsEmpty() returns (empty: bool)
      requires Valid()
      ensures empty <==> contents == []
    {
      empty := numInList == 0;
    }

    method Front() returns (item: T)
      requires Valid() && contents != []
      ensures item == contents[0]
    {
      item := first.item;
    }

    method IsInList(item: T) returns (found: bool)
      requires Valid()
      ensures found <==> item in contents
    {
      var ptr := first;
      ghost var i := 0;
      while ptr != null
        invariant 0 <= i <= |spine|
        invariant ptr == if i < |spine| then spine[i] else null
        invariant item !in contents[..i]
        decreases |spine| - i
      {
        if item == ptr.item {
          return true;
        }
        ptr := ptr.next;
        i := i + 1;
      }
      return false;
    }

    method Append(item: T)
      requires Valid() && item !in contents
      modifies this, spine
      ensures Valid() && forall e :: e in spine && e !in old(spine) ==> fresh(e)
      ensures contents == old(contents) + [item]
    {
      var element := new ListElement(item);
      if numInList == 0 {
        first := element;
        last := element;
      } else {
        last.next := element;
        last := element;
      }
      numInList := numInList + 1;
      spine := spine + [element];
      contents := contents + [item];
    }

    method Prepend(item: T)
      requires Valid() && item !in contents
      modifies this, spine
      ensures Valid() && forall e :: e in spine && e !in old(spine) ==> fresh(e)
      ensures contents == [item] + old(contents)
    {
      var element := new ListElement(item);
      if numInList == 0 {
        first := element;
        last := element;
      } else {
        element.next := first;
        first := element;
      }
      numInList := numInList + 1;
      spine := [element] + spine;
      NoDupInsert(contents, 0, item);
      contents := [item] + contents;
      assert contents == old(contents)[..0] + [item] + old(contents)[0..];
    }

    method RemoveFront() returns (thing: T)
      requires Valid() && contents != []
      modifies this, spine
      ensures Valid() && forall e :: e in spine ==> e in old(spine)
      ensures thing == old(contents)[0] && contents == old(contents)[1..]
    {
      hide NoDup;
      TailOf(spine);
      TailOf(contents);
      var element := first;
      thing := first.item;
      if first == last {
        first := null;
        last := null;
      } else {
        first := element.next;
      }
      numInList := numInList - 1;
      spine, contents := spine[1..], contents[1..];
    }

    /** Remove's unlinking of the element ptr at position k, once prev is known to precede it. */
    method Unlink(prev: ListElement<T>, ptr: ListElement<T>, ghost k: nat)
      requires Valid() && 1 <= k < |spine| && prev == spine[k - 1] && ptr == spine[k]
      modifies this, spine
      ensures Valid() && forall e :: e in spine ==> e in old(spine)
      ensures contents == old(contents)[..k] + old(contents)[k + 1..]
    {
      assert if k < |spine| - 1 then ptr.next == spine[k + 1] else ptr == last;
      prev.next := ptr.next;
      if prev.next == null {
        last := prev;
      }
      numInList := numInList - 1;
      NoDupRemoved(spine, k);
      NoDupRemoved(contents, k);
      spine := spine[..k] + spine[k + 1..];
      contents := contents[..k] + contents[k + 1..];
    }

    method Remove(item: T)
      requires Valid() && item in contents
      modifies this, spine
      ensures Valid() && forall e :: e in spine ==> e in old(spine)
      ensures exists k :: 0 <= k < |old(contents)| && old(contents)[k] == item
                          && contents == old(contents)[..k] + old(contents)[k + 1..]
      ensures item !in contents
    {
      ghost var k := 0;
      NoDupRemoved(contents, 0);
      if item == first.item {
        var removed := RemoveFront();
        assert contents == old(contents)[..0] + old(contents)[1..];
      } else {
        var prev := first;
        var ptr := first.next;
        k := 1;
        while ptr != null && item != ptr.item
          invariant 1 <= k <= |spine|
          invariant prev == spine[k - 1] && ptr == if k < |spine| then spine[k] else null
          invariant item !in contents[..k]
          decreases |spine| - k
        {
          prev, ptr := ptr, ptr.next;
          k := k + 1;
        }
        NoDupRemoved(contents, k);
        Unlink(prev, ptr, k);
      }
    }

    /** Insert's linking of a new element after ptr, the element at position k - 1. */
    method LinkAfter(ptr: ListElement<T>, element: ListElement<T>, item: T, ghost k: nat)
      requires Valid() && 1 <= k <= |spine| && ptr == spine[k - 1]
      requires element !in spine && element.next == null && element.item == item && item !in contents
      modifies this, spine, element
      ensures Valid() && spine == old(spine)[..k] + [element] + old(spine)[k..]
      ensures contents == old(contents)[..k] + [item] + old(contents)[k..]
    {
      assert if k < |spine| then ptr.next == spine[k] else ptr == last;
      if ptr.next != null {
        element.next := ptr.next;
        ptr.next := element;
      } else {
        last.next := element;
        last := element;
      }
      numInList := numInList + 1;
      NoDupInsert(spine, k, element);
      NoDupInsert(contents, k, item);
      spine := spine[..k] + [element] + spine[k..];
      contents := contents[..k] + [item] + contents[k..];
    }

    /** SortedList::Insert; the comparison is a field of the subclass in the source. */
    method Insert(item: T, compare: (T, T) -> int)
      requires Valid() && item !in contents
      modifies this, spine
      ensures Valid() && forall e :: e in spine && e !in old(spine) ==> fresh(e)
      ensures contents == InsertSorted(old(contents), item, compare)
    {
      if numInList == 0 {
        Append(item);
      } else if compare(item, first.item) < 0 {
        Prepend(item);
      } else {
        var element := new ListElement(item);
        var ptr := first;
        ghost var k := 1;
        while ptr.next != null && compare(item, ptr.next.item) >= 0
          invariant 1 <= k <= |spine| && ptr == spine[k - 1]
          invariant forall i :: 0 <= i < k ==> compare(item, contents[i]) >= 0
          decreases |spine| - k
        {
          ptr := ptr.next;
          k := k + 1;
        }
        InsertSplits(contents, item, compare, k);
        LinkAfter(ptr, element, item, k);
      }
    }
  }
}

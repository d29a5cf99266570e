/** The kernel's singly linked list with first and last pointers (threads/list.cc). */
module Lists {
  import opened Options

  datatype Entry<T> = Entry(item: T, key: int)

  // ---------- What sorted insertion computes ----------

  /** `e` placed before the first entry with a larger key. */
  function InsertSorted<T>(es: seq<Entry<T>>, e: Entry<T>): (r: seq<Entry<T>>)
    ensures |r| == |es| + 1
  {
    if es == [] || e.key < es[0].key then [e] + es else [es[0]] + InsertSorted(es[1..], e)
  }

  predicate SortedByKey<T>(es: seq<Entry<T>>) {
    forall i, j :: 0 <= i < j < |es| ==> es[i].key <= es[j].key
  }

  /** The insertion point splits a sorted list: keys up to e's before it, larger keys after it.
      In particular e goes behind every entry with an equal key. */
  lemma {:induction false} InsertSortedSplits<T>(es: seq<Entry<T>>, e: Entry<T>) returns (k: nat)
    requires SortedByKey(es)
    ensures k <= |es| && InsertSorted(es, e) == es[..k] + [e] + es[k..]
    ensures forall i :: 0 <= i < k ==> es[i].key <= e.key
    ensures forall i :: k <= i < |es| ==> e.key < es[i].key
  {
    if es == [] || e.key < es[0].key {
      k := 0;
    } else {
      var j := InsertSortedSplits(es[1..], e);
      k := j + 1;
      assert es[..k] == [es[0]] + es[1..][..j];
      assert es[k..] == es[1..][j..];
      forall i | 0 <= i < k
        ensures es[i].key <= e.key
      {
        assert i > 0 ==> es[1..][i - 1] == es[i];
      }
      forall i | k <= i < |es|
        ensures e.key < es[i].key
      {
        assert es[1..][i - 1] == es[i];
      }
    }
  }

  lemma InsertSortedKeepsOrder<T>(es: seq<Entry<T>>, e: Entry<T>)
    requires SortedByKey(es)
    ensures SortedByKey(InsertSorted(es, e))
  {
    hide InsertSorted;
    var k := InsertSortedSplits(es, e);
    var r := InsertSorted(es, e);
    forall i, j | 0 <= i < j < |r|
      ensures r[i].key <= r[j].key
    {
      assert r[i] == if i < k then es[i] else if i == k then e else es[i - 1];
      assert r[j] == if j < k then es[j] else if j == k then e else es[j - 1];
    }
  }

  lemma {:induction false} InsertSortedAddsOne<T>(es: seq<Entry<T>>, e: Entry<T>)
    ensures multiset(InsertSorted(es, e)) == multiset(es) + multiset{e}
  {
    if es != [] && es[0].key <= e.key {
      InsertSortedAddsOne(es[1..], e);
      assert es == [es[0]] + es[1..];
    }
  }

  /** Recognises the insertion point from its two neighbours. */
  lemma {:induction false} InsertSortedAt<T>(es: seq<Entry<T>>, e: Entry<T>, k: nat)
    requires k <= |es| && (forall i :: 0 <= i < k ==> es[i].key <= e.key)
    requires k < |es| ==> e.key < es[k].key
    ensures InsertSorted(es, e) == es[..k] + [e] + es[k..]
  {
    if k > 0 {
      InsertSortedAt(es[1..], e, k - 1);
      assert es[..k] == [es[0]] + es[1..][..k - 1];
    }
  }

  // ---------- The linked representation ----------

  class ListElement<T> {
    const item: T
    const key: int
    var next: ListElement?<T>

    constructor (item: T, key: int)
      ensures this.item == item && this.key == key && next == null
    {
      this.item := item;
      this.key := key;
      next := null;
    }
  }

  class List<T> {
    var first: ListElement?<T>
    var last: ListElement?<T>
    ghost var nodes: seq<ListElement<T>>

    ghost predicate Valid()
      reads this, nodes
    {
      && (forall i, j :: 0 <= i < j < |nodes| ==> nodes[i] != nodes[j])
      && (forall i, j {:trigger nodes[i], nodes[j]} :: 0 <= i && j == i + 1 < |nodes| ==> nodes[i].next == nodes[j])
      && first == (if nodes == [] then null else nodes[0])
      && last == (if nodes == [] then null else nodes[|nodes| - 1])
      && (nodes != [] ==> nodes[|nodes| - 1].next == null)
    }

    ghost function Contents(): (es: seq<Entry<T>>)
      reads this, nodes
      ensures |es| == |nodes|
    {
      seq(|nodes|, i requires 0 <= i < |nodes| reads this, nodes => Entry(nodes[i].item, nodes[i].key))
    }

    /** The list's cells. */
    ghost function Cells(): (cells: set<object>)
      reads this
      ensures forall o :: o in cells ==> o is ListElement<T>
    {
      set n: ListElement<T> | n in nodes :: n
    }

    constructor ()
      ensures Valid() && nodes == [] && Contents() == []
    {
      first, last := null, null;
      nodes := [];
    }

    method IsEmpty() returns (b: bool)
      requires Valid()
      ensures b == (Contents() == [])
    {
      b := first == null;
    }

    method Append(item: T)
      requires Valid()
      modifies this, Cells()
      ensures Valid() && fresh(Cells() - old(Cells()))
      ensures Contents() == old(Contents()) + [Entry(item, 0)]
    {
      var element := new ListElement(item, 0);
      if first == null {
        first := element;
        last := element;
        nodes := [element];
      } else {
        assert last in nodes;
        LinkLast(element);
      }
    }

    method Prepend(item: T)
      requires Valid()
      modifies this, Cells()
      ensures Valid() && fresh(Cells() - old(Cells()))
      ensures Contents() == [Entry(item, 0)] + old(Contents())
    {
      var element := new ListElement(item, 0);
      if first == null {
        first := element;
        last := element;
      } else {
        element.next := first;
        first := element;
      }
      nodes := [element] + nodes;
    }

    /** The element that an entry with key `sortKey` goes behind: its successor is the first
        with a larger key. */
    method FindPlace(sortKey: int) returns (ptr: ListElement<T>, ghost k: nat)
      requires Valid() && first != null && first.key <= sortKey
      ensures k < |nodes| && ptr == nodes[k]
      ensures forall i :: 0 <= i <= k ==> nodes[i].key <= sortKey
      ensures k + 1 < |nodes| ==> sortKey < nodes[k + 1].key
      ensures ptr.next == null <==> k + 1 == |nodes|
    {
      ptr, k := first, 0;
      while ptr.next != null && ptr.next.key <= sortKey
        invariant 0 <= k < |nodes| && ptr == nodes[k]
        invariant forall i :: 0 <= i <= k ==> nodes[i].key <= sortKey
        decreases |nodes| - k
      {
        assert k + 1 < |nodes| ==> ptr.next == nodes[k + 1];
        ptr, k := ptr.next, k + 1;
      }
      assert k + 1 < |nodes| ==> ptr.next == nodes[k + 1];
    }

    method LinkAfter(ptr: ListElement<T>, element: ListElement<T>, ghost k: nat)
      requires Valid() && k + 1 < |nodes| && ptr == nodes[k] && element !in nodes
      modifies this`nodes, ptr, element
      ensures Valid() && nodes == old(nodes)[..k + 1] + [element] + old(nodes)[k + 1..]
      ensures Cells() == old(Cells()) + {element}
    {
      element.next := ptr.next;
      ptr.next := element;
      ghost var was := nodes;
      nodes := nodes[..k + 1] + [element] + nodes[k + 1..];
      assert was == was[..k + 1] + was[k + 1..];
      assert forall n :: n in nodes <==> n in was || n == element;
    }

    method LinkLast(element: ListElement<T>)
      requires Valid() && first != null && element !in nodes && element.next == null
      modifies this, last
      ensures Valid() && nodes == old(nodes) + [element] && Cells() == old(Cells()) + {element}
    {
      last.next := element;
      last := element;
      ghost var was := nodes;
      nodes := nodes + [element];
      assert forall n :: n in nodes <==> n in was || n == element;
    }

    /** Puts `element` behind the first entry, where its key belongs. */
    method InsertBehind(element: ListElement<T>)
      requires Valid() && first != null && first.key <= element.key && element !in nodes && element.next == null
      modifies this, Cells(), element
      ensures Valid() && Cells() == old(Cells()) + {element}
      ensures Contents() == InsertSorted(old(Contents()), Entry(element.item, element.key))
    {
      ghost var es, e := Contents(), Entry(element.item, element.key);
      var ptr, k := FindPlace(element.key);
      InsertSortedAt(es, e, k + 1);
      hide InsertSorted;
      assert ptr in nodes && last in nodes;
      if ptr.next != null {
        LinkAfter(ptr, element, k);
      } else {
        LinkLast(element);
      }
      assert Contents() == es[..k + 1] + [e] + es[k + 1..];
    }

    method SortedInsert(item: T, sortKey: int)
      requires Valid()
      modifies this, Cells()
      ensures Valid() && fresh(Cells() - old(Cells()))
      ensures Contents() == InsertSorted(old(Contents()), Entry(item, sortKey))
    {
      var element := new ListElement(item, sortKey);
      if first == null {
        first := element;
        last := element;
        nodes := [element];
      } else if sortKey < first.key {
        element.next := first;
        first := element;
        nodes := [element] + nodes;
      } else {
        InsertBehind(element);
      }
    }

    /** Takes the first entry off, if there is one. */
    method SortedRemove() returns (r: Option<Entry<T>>)
      requires Valid()
      modifies this
      ensures Valid() && Cells() <= old(Cells())
      ensures old(Contents()) == [] ==> r == None && Contents() == []
      ensures old(Contents()) != [] ==> r == Some(old(Contents())[0]) && Contents() == old(Contents())[1..]
    {
      if first == null {
        return None;
      }
      var element := first;
      r := Some(Entry(element.item, element.key));
      if first == last {
        first := null;
        last := null;
      } else {
        first := element.next;
      }
      ghost var was := nodes;
      nodes := nodes[1..];
      assert was == [was[0]] + nodes;
      assert forall n :: n in nodes ==> n in was;
    }
  }
}

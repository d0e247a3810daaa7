/** The doubly linked list that the source takes from container/list: element
    nodes with next and prev links, addressed by the maps that sit on top of it. */
module LinkedList {

  class Element<T> {
    var value: T
    var next: Element?<T>
    var prev: Element?<T>

    constructor (value: T)
      ensures this.value == value && next == null && prev == null
    {
      this.value := value;
      next, prev := null, null;
    }
  }

  ghost predicate Distinct<T>(s: seq<T>) {
    forall i, j :: 0 <= i < j < |s| ==> s[i] != s[j]
  }

  /** s without the element at index k. */
  ghost function Drop<T>(s: seq<T>, k: nat): seq<T>
    requires k < |s|
  {
    s[..k] + s[k + 1..]
  }

  lemma DropMembers<T>(s: seq<T>, k: nat)
    requires k < |s| && Distinct(s)
    ensures Distinct(Drop(s, k))
    ensures forall x :: x in Drop(s, k) <==> x in s && x != s[k]
  {
    forall x | x in s && x != s[k] ensures x in Drop(s, k) {
      var i :| 0 <= i < |s| && s[i] == x;
      assert Drop(s, k)[if i < k then i else i - 1] == x;
    }
  }

  /** The values held by a sequence of list nodes. */
  ghost function Values<T>(nodes: seq<Element<T>>): (s: seq<T>)
    reads nodes`value
    ensures |s| == |nodes|
  {
    if nodes == [] then [] else Values(nodes[..|nodes| - 1]) + [nodes[|nodes| - 1].value]
  }

  lemma {:induction false} ValuesAt<T>(nodes: seq<Element<T>>)
    ensures forall i :: 0 <= i < |nodes| ==> Values(nodes)[i] == nodes[i].value
  {
    if nodes != [] {
      ValuesAt(nodes[..|nodes| - 1]);
    }
  }

  lemma ValuesDrop<T>(nodes: seq<Element<T>>, k: nat)
    requires k < |nodes|
    ensures Values(Drop(nodes, k)) == Drop(Values(nodes), k)
  {
    ValuesAt(nodes);
    ValuesAt(Drop(nodes, k));
  }

  lemma ValuesSnoc<T>(nodes: seq<Element<T>>, e: Element<T>)
    ensures Values(nodes + [e]) == Values(nodes) + [e.value]
  {
    assert (nodes + [e])[..|nodes|] == nodes;
  }

  class List<T> {
    var front: Element?<T>
    var back: Element?<T>
    var len: nat
    ghost var nodes: seq<Element<T>>

    ghost predicate Valid()
      reads this, nodes`next, nodes`prev
    {
      && len == |nodes|
      && Distinct(nodes)
      && front == (if nodes == [] then null else nodes[0])
      && back == (if nodes == [] then null else nodes[|nodes| - 1])
      && (forall i {:trigger nodes[i].next} :: 0 <= i < |nodes| ==>
            nodes[i].next == if i + 1 < |nodes| then nodes[i + 1] else null)
      && (forall i {:trigger nodes[i].prev} :: 0 <= i < |nodes| ==>
            nodes[i].prev == if 0 < i then nodes[i - 1] else null)
    }

    constructor ()
      ensures Valid() && nodes == []
    {
      front, back, len, nodes := null, null, 0, [];
    }

    method PushBack(value: T) returns (e: Element<T>)
      requires Valid()
      modifies this, nodes`next
      ensures Valid() && fresh(e) && e.value == value
      ensures nodes == old(nodes) + [e]
    {
      e := new Element(value);
      Append(e);
    }

    /** Links an element that is in no list behind the last one. */
    method Append(e: Element<T>)
      requires Valid() && e !in nodes && e.next == null
      modifies this, nodes`next, e`prev
      ensures Valid() && nodes == old(nodes) + [e]
    {
      e.prev := back;
      if back == null {
        front := e;
      } else {
        back.next := e;
      }
      back := e;
      len := len + 1;
      nodes := nodes + [e];
    }

    /** The links of the neighbours of index k lead past it. */
    ghost predicate Bypassed(k: nat)
      requires k < |nodes|
      reads this, nodes`next, nodes`prev
    {
      && len + 1 == |nodes| && Distinct(nodes)
      && front == (if k > 0 then nodes[0] else if |nodes| > 1 then nodes[1] else null)
      && back == (if k + 1 < |nodes| then nodes[|nodes| - 1] else if k > 0 then nodes[k - 1] else null)
      && (forall i {:trigger nodes[i].next} :: 0 <= i < |nodes| && i != k ==>
            var j := if i + 1 == k then k + 1 else i + 1;
            nodes[i].next == if j < |nodes| then nodes[j] else null)
      && (forall i {:trigger nodes[i].prev} :: 0 <= i < |nodes| && i != k ==>
            var j := if i == k + 1 then k - 1 else i - 1;
            nodes[i].prev == if j >= 0 then nodes[j] else null)
    }

    method Bypass(e: Element<T>, ghost k: nat)
      requires Valid() && k < |nodes| && nodes[k] == e
      modifies this`front, this`back, this`len, nodes`next, nodes`prev
      ensures Bypassed(k) && e.next == null && e.prev == null
    {
      if e.prev == null {
        front := e.next;
      } else {
        e.prev.next := e.next;
      }
      if e.next == null {
        back := e.prev;
      } else {
        e.next.prev := e.prev;
      }
      e.next, e.prev := null, null;
      len := len - 1;
    }

    /** Unlinks an element, which is at index k. */
    method Remove(e: Element<T>, ghost k: nat)
      requires Valid() && k < |nodes| && nodes[k] == e
      modifies this, nodes`next, nodes`prev
      ensures Valid() && nodes == Drop(old(nodes), k)
      ensures e.next == null && e.prev == null
    {
      Bypass(e, k);
      DropMembers(nodes, k);
      LinksOfRest(k);
      nodes := Drop(nodes, k);
    }

    /** The other elements are linked as a list. */
    lemma LinksOfRest(k: nat)
      requires k < |nodes| && Bypassed(k)
      ensures var rest := Drop(nodes, k);
              && (forall i {:trigger rest[i].next} :: 0 <= i < |rest| ==>
                    rest[i].next == if i + 1 < |rest| then rest[i + 1] else null)
              && (forall i {:trigger rest[i].prev} :: 0 <= i < |rest| ==>
                    rest[i].prev == if 0 < i then rest[i - 1] else null)
    {
      var rest := Drop(nodes, k);
      forall i | 0 <= i < |rest|
        ensures rest[i].next == (if i + 1 < |rest| then rest[i + 1] else null)
        ensures rest[i].prev == (if 0 < i then rest[i - 1] else null)
      {
        assert rest[i] == nodes[if i < k then i else i + 1];
      }
    }

    method MoveToBack(e: Element<T>, ghost k: nat)
      requires Valid() && k < |nodes| && nodes[k] == e
      modifies this, nodes`next, nodes`prev
      ensures Valid() && nodes == Drop(old(nodes), k) + [e]
    {
      if back == e {
        return;
      }
      Remove(e, k);
      Append(e);
    }
  }
}

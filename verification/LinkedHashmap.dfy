/** The linked hash map (utils/linkedhashmap): a map from keys to the nodes of a
    linked list of key-value pairs, oldest first, and its iterator. */
module LinkedHashmap {
  import opened Options
  import opened AssocList
  import opened LinkedList

  /** Every node is reachable from the map under its own key, and the map reaches
      nothing else. */
  ghost predicate Indexed<K, V>(m: map<K, Element<(K, V)>>, nodes: seq<Element<(K, V)>>)
    reads nodes`value
  {
    && (forall n :: n in nodes ==> n.value.0 in m && m[n.value.0] == n)
    && (forall k :: k in m ==> m[k] in nodes && m[k].value.0 == k)
  }

  lemma IndexedSame<K, V>(m: map<K, Element<(K, V)>>, nodes: seq<Element<(K, V)>>, moved: seq<Element<(K, V)>>)
    requires Indexed(m, nodes) && forall n :: n in moved <==> n in nodes
    ensures Indexed(m, moved)
  {
  }

  lemma IndexedWithout<K, V>(m: map<K, Element<(K, V)>>, nodes: seq<Element<(K, V)>>, k: K, others: seq<Element<(K, V)>>)
    requires Indexed(m, nodes) && k in m && forall n :: n in others <==> n in nodes && n != m[k]
    ensures Indexed(m - {k}, others)
  {
  }

  lemma IndexedSnoc<K, V>(m: map<K, Element<(K, V)>>, nodes: seq<Element<(K, V)>>, e: Element<(K, V)>)
    requires Indexed(m, nodes) && e.value.0 !in m
    ensures Indexed(m[e.value.0 := e], nodes + [e])
  {
  }

  class Hashmap<K(==), V> {
    var entryMap: map<K, Element<(K, V)>>
    const entryList: List<(K, V)>

    ghost function Repr(): set<object>
      reads entryList
    {
      {this, entryList} + set n | n in entryList.nodes
    }

    ghost predicate Valid()
      reads this, entryList, entryList.nodes
    {
      entryList.Valid() && Indexed(entryMap, entryList.nodes)
    }

    /** The abstract value: the pairs, oldest first. */
    ghost function Contents(): seq<(K, V)>
      reads entryList, entryList.nodes`value
    {
      Values(entryList.nodes)
    }

    constructor ()
      ensures Valid() && Contents() == [] && fresh(Repr())
    {
      entryMap := map[];
      entryList := new List<(K, V)>();
    }

    lemma ContentsUnique()
      requires Valid()
      ensures Unique(Contents())
      ensures forall k :: HasKey(Contents(), k) <==> k in entryMap
    {
      ValuesAt(entryList.nodes);
      forall k | k in entryMap ensures HasKey(Contents(), k) {
        var i :| 0 <= i < |entryList.nodes| && entryList.nodes[i] == entryMap[k];
        assert Contents()[i].0 == k;
      }
    }

    ghost function IndexOf(k: K): (i: nat)
      requires Valid() && k in entryMap
      reads this, entryList, entryList.nodes
      ensures i < |entryList.nodes| && entryList.nodes[i] == entryMap[k]
      ensures i < |Contents()| && Contents()[i].0 == k
    {
      ValuesAt(entryList.nodes);
      var i :| 0 <= i < |entryList.nodes| && entryList.nodes[i] == entryMap[k];
      i
    }

    /** The index of a key's node and the other nodes, which hold the other pairs. */
    lemma Isolate(key: K) returns (i: nat, others: seq<Element<(K, V)>>)
      requires Valid() && key in entryMap
      ensures i < |entryList.nodes| && entryList.nodes[i] == entryMap[key]
      ensures others == Drop(entryList.nodes, i)
      ensures forall n :: n in others <==> n in entryList.nodes && n != entryMap[key]
      ensures Values(others) == Without(Contents(), key)
    {
      ContentsUnique();
      i := IndexOf(key);
      others := Drop(entryList.nodes, i);
      WithoutAt(Contents(), i);
      DropMembers(entryList.nodes, i);
      ValuesDrop(entryList.nodes, i);
    }

    /** Put of a present key: its node moves to the back and is overwritten. */
    method Rebind(key: K, value: V)
      requires Valid() && key in entryMap
      modifies Repr()
      ensures Valid() && Repr() <= old(Repr())
      ensures Contents() == Renew(old(Contents()), key, value)
    {
      ghost var others := Refresh(key);
      var e := entryMap[key];
      ghost var s := Values(others);
      e.value := (key, value);
      assert Values(others) == s;
      ValuesSnoc(others, e);
    }

    method Refresh(key: K) returns (ghost others: seq<Element<(K, V)>>)
      requires Valid() && key in entryMap
      modifies entryList, entryList.nodes`next, entryList.nodes`prev
      ensures Valid() && Repr() <= old(Repr())
      ensures entryList.nodes == others + [entryMap[key]] && entryMap[key] !in others
      ensures Values(others) == Without(old(Contents()), key)
    {
      var e := entryMap[key];
      ghost var nodes := entryList.nodes;
      ghost var i, rest := Isolate(key);
      others := rest;
      entryList.MoveToBack(e, i);
      IndexedSame(entryMap, nodes, entryList.nodes);
    }

    /** MoveToBack of a present key's node, value untouched. */
    method MakeNewest(key: K)
      requires Valid() && key in entryMap
      modifies Repr()
      ensures Valid() && Repr() <= old(Repr())
      ensures Find(old(Contents()), key).Some?
      ensures Contents() == Renew(old(Contents()), key, Find(old(Contents()), key).value)
    {
      ContentsUnique();
      FindAt(Contents(), IndexOf(key));
      ghost var v := entryMap[key].value;
      assert v == (key, Find(Contents(), key).value) by { ValuesAt(entryList.nodes); }
      ghost var others := Refresh(key);
      ValuesSnoc(others, entryMap[key]);
    }

    /** Delete of a present key: its node is unlinked, then the key forgotten. */
    method Unlink(key: K)
      requires Valid() && key in entryMap
      modifies Repr()
      ensures Valid() && Repr() <= old(Repr())
      ensures Contents() == Without(old(Contents()), key) && entryMap == old(entryMap) - {key}
    {
      Detach(key);
      entryMap := entryMap - {key};
    }

    method Detach(key: K)
      requires Valid() && key in entryMap
      modifies entryList, entryList.nodes`next, entryList.nodes`prev
      ensures entryList.Valid() && Repr() <= old(Repr())
      ensures Indexed(entryMap - {key}, entryList.nodes)
      ensures Contents() == Without(old(Contents()), key)
    {
      ghost var nodes := entryList.nodes;
      ghost var i, others := Isolate(key);
      IndexedWithout(entryMap, nodes, key, others);
      entryList.Remove(entryMap[key], i);
    }

    /** Put of a new key: a new node at the back, then the key indexed. */
    method Insert(key: K, value: V)
      requires Valid() && key !in entryMap
      modifies Repr()
      ensures Valid() && fresh(Repr() - old(Repr()))
      ensures Contents() == old(Contents()) + [(key, value)]
    {
      var e := Attach(key, value);
      entryMap := entryMap[key := e];
    }

    method Attach(key: K, value: V) returns (e: Element<(K, V)>)
      requires Valid() && key !in entryMap
      modifies entryList, entryList.nodes`next
      ensures entryList.Valid() && fresh(e) && Repr() == old(Repr()) + {e}
      ensures Indexed(entryMap[key := e], entryList.nodes)
      ensures Contents() == old(Contents()) + [(key, value)]
    {
      ghost var others := entryList.nodes;
      e := entryList.PushBack((key, value));
      ValuesSnoc(others, e);
      IndexedSnoc(entryMap, others, e);
    }

    /** Binds the key and makes it the newest, whether or not it was present. */
    method Put(key: K, value: V)
      requires Valid()
      modifies Repr()
      ensures Valid() && fresh(Repr() - old(Repr()))
      ensures Contents() == Renew(old(Contents()), key, value)
    {
      if key in entryMap {
        Rebind(key, value);
      } else {
        ContentsUnique();
        WithoutAbsent(Contents(), key);
        Insert(key, value);
      }
    }

    method Get(key: K) returns (value: Option<V>)
      requires Valid()
      ensures value == Find(Contents(), key)
    {
      ContentsUnique();
      FindIff(Contents(), key);
      if key in entryMap {
        ValuesAt(entryList.nodes);
        FindAt(Contents(), IndexOf(key));
        return Some(entryMap[key].value.1);
      }
      return None;
    }

    method Delete(key: K) returns (deleted: bool)
      requires Valid()
      modifies Repr()
      ensures Valid() && Repr() <= old(Repr())
      ensures Contents() == Without(old(Contents()), key) && entryMap == old(entryMap) - {key}
      ensures deleted <==> HasKey(old(Contents()), key)
    {
      ContentsUnique();
      deleted := key in entryMap;
      if deleted {
        Unlink(key);
      } else {
        WithoutAbsent(Contents(), key);
      }
    }

    lemma OldestIsFirst()
      requires Valid() && entryList.front != null
      ensures entryList.front in entryList.nodes && Contents() != []
      ensures Contents()[0] == entryList.front.value
      ensures From(Contents(), entryList.front.value.0) == Contents()
    {
      ValuesAt(entryList.nodes);
    }

    method Oldest() returns (kv: Option<(K, V)>)
      requires Valid()
      ensures kv == if Contents() == [] then None else Some(Contents()[0])
    {
      ValuesAt(entryList.nodes);
      if entryList.front != null {
        return Some(entryList.front.value);
      }
      return None;
    }

    method Newest() returns (kv: Option<(K, V)>)
      requires Valid()
      ensures kv == if Contents() == [] then None else Some(Contents()[|Contents()| - 1])
    {
      ValuesAt(entryList.nodes);
      if entryList.back != null {
        return Some(entryList.back.value);
      }
      return None;
    }

    /** Where a node's pair is, and where its next link leads. */
    lemma Locate(e: Element<(K, V)>) returns (i: nat)
      requires Valid() && e in entryList.nodes
      ensures i < |Contents()| && Contents()[i] == e.value
      ensures From(Contents(), e.value.0) == Contents()[i..]
      ensures e.next == null <==> i + 1 == |Contents()|
      ensures e.next != null ==>
                && e.next in entryList.nodes
                && From(Contents(), e.next.value.0) == Contents()[i + 1..]
    {
      ContentsUnique();
      ValuesAt(entryList.nodes);
      i :| 0 <= i < |entryList.nodes| && entryList.nodes[i] == e;
      FromAt(Contents(), i);
      if i + 1 < |Contents()| {
        FromAt(Contents(), i + 1);
      }
    }

    method Len() returns (n: nat)
      requires Valid()
      ensures n == |Contents()|
    {
      ContentsUnique();
      KeyCount(Contents(), entryMap.Keys);
      n := |entryMap|;
    }
  }

  /** The iterator.  Where the source resets key and value to zero values, current
      is None. */
  class Iter<K(==), V> {
    const lh: Hashmap<K, V>
    var current: Option<(K, V)>
    var next: Element?<(K, V)>
    var initialized: bool
    var exhausted: bool

    ghost predicate Valid()
      reads this, lh, lh.entryList, lh.entryList.nodes
    {
      && lh.Valid()
      && (initialized && !exhausted ==> next != null && next in lh.entryList.nodes)
    }

    /** What the iterator has yet to yield. */
    ghost function Remaining(): seq<(K, V)>
      requires Valid()
      reads this, lh, lh.entryList, lh.entryList.nodes
    {
      if exhausted then []
      else if !initialized then lh.Contents()
      else From(lh.Contents(), next.value.0)
    }

    /** No pair is ahead twice. */
    lemma RemainingUnique()
      requires Valid()
      ensures Unique(Remaining())
    {
      lh.ContentsUnique();
      if initialized && !exhausted {
        var i := lh.Locate(next);
      }
    }

    constructor (lh: Hashmap<K, V>)
      requires lh.Valid()
      ensures this.lh == lh && Valid() && Remaining() == lh.Contents() && current == None
    {
      this.lh := lh;
      current, next, initialized, exhausted := None, null, false, false;
    }

    /** The first part of Next: point at the oldest pair, if there is one. */
    method Initialize()
      requires Valid() && !initialized && !exhausted
      modifies this
      ensures Valid() && initialized && Remaining() == old(Remaining())
      ensures exhausted <==> old(Remaining()) == []
      ensures exhausted ==> current == None
    {
      initialized := true;
      next := lh.entryList.front;
      if next == null {
        exhausted, current := true, None;
      } else {
        lh.OldestIsFirst();
      }
    }

    /** The last part of Next: take the pair pointed at and move on. */
    method Advance()
      requires Valid() && initialized && !exhausted
      modifies this
      ensures Valid() && old(Remaining()) != []
      ensures current == Some(old(Remaining())[0]) && Remaining() == old(Remaining())[1..]
    {
      ghost var s := lh.Contents();
      ghost var i := lh.Locate(next);
      current := Some(next.value);
      next := next.next;
      exhausted := next == null;
      assert s[i..][0] == s[i] && s[i..][1..] == s[i + 1..];
      assert lh.Valid() && lh.Contents() == s;
    }

    method Next() returns (more: bool)
      requires Valid()
      modifies this
      ensures Valid()
      ensures more <==> old(Remaining()) != []
      ensures more ==> current == Some(old(Remaining())[0]) && Remaining() == old(Remaining())[1..]
      ensures !more ==> current == None && Remaining() == []
    {
      if exhausted {
        current, next := None, null;
        return false;
      }
      if !initialized {
        Initialize();
        if exhausted {
          return false;
        }
      }
      Advance();
      return true;
    }

    /** Deleting a key the iterator has passed does not disturb it. */
    method DeleteVisited(key: K)
      requires Valid() && !HasKey(Remaining(), key)
      modifies lh.Repr()
      ensures Valid() && Remaining() == old(Remaining())
      ensures lh.Contents() == Without(old(lh.Contents()), key)
      ensures lh.Repr() <= old(lh.Repr())
    {
      if exhausted {
        var _ := lh.Delete(key);
      } else if !initialized {
        WithoutAbsent(lh.Contents(), key);
        var _ := lh.Delete(key);
      } else {
        ghost var k := next.value.0;
        ghost var i := lh.Locate(next);
        assert Remaining()[0].0 == k != key;
        FromWithout(lh.Contents(), k, key);
        assert k in lh.entryMap && lh.entryMap[k] == next;
        var _ := lh.Delete(key);
        assert k in lh.entryMap && lh.entryMap[k] == next;
      }
    }
  }
}

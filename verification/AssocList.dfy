/** Sequences of key-value pairs, oldest first: the abstract value of the linked
    hash map and of the caches built on it. */
module AssocList {
  import opened Options

  ghost predicate Unique<K, V>(s: seq<(K, V)>) {
    forall i, j :: 0 <= i < j < |s| ==> s[i].0 != s[j].0
  }

  ghost predicate HasKey<K, V>(s: seq<(K, V)>, k: K) {
    exists i :: 0 <= i < |s| && s[i].0 == k
  }

  /** The value of the oldest pair with key k. */
  function Find<K(==), V>(s: seq<(K, V)>, k: K): Option<V> {
    if s == [] then None else if s[0].0 == k then Some(s[0].1) else Find(s[1..], k)
  }

  /** s with every pair of key k removed. */
  function Without<K(==), V>(s: seq<(K, V)>, k: K): seq<(K, V)> {
    if s == [] then []
    else if s[0].0 == k then Without(s[1..], k)
    else [s[0]] + Without(s[1..], k)
  }

  /** s after k is bound to v and becomes the newest. */
  function Renew<K(==), V>(s: seq<(K, V)>, k: K, v: V): seq<(K, V)> {
    Without(s, k) + [(k, v)]
  }

  lemma {:induction false} FindIff<K, V>(s: seq<(K, V)>, k: K)
    ensures Find(s, k).Some? <==> HasKey(s, k)
  {
    if s != [] && s[0].0 != k {
      FindIff(s[1..], k);
      if HasKey(s, k) {
        var i :| 0 <= i < |s| && s[i].0 == k;
        assert s[1..][i - 1].0 == k;
      }
    }
  }

  lemma {:induction false} FindAt<K, V>(s: seq<(K, V)>, i: nat)
    requires Unique(s) && i < |s|
    ensures Find(s, s[i].0) == Some(s[i].1)
  {
    if i > 0 {
      assert s[1..][i - 1] == s[i];
      FindAt(s[1..], i - 1);
    }
  }

  lemma {:induction false} WithoutAbsent<K, V>(s: seq<(K, V)>, k: K)
    requires !HasKey(s, k)
    ensures Without(s, k) == s
  {
    if s != [] {
      assert forall i :: 0 <= i < |s[1..]| ==> s[1..][i] == s[i + 1];
      WithoutAbsent(s[1..], k);
    }
  }

  lemma {:induction false} WithoutAt<K, V>(s: seq<(K, V)>, i: nat)
    requires Unique(s) && i < |s|
    ensures Without(s, s[i].0) == s[..i] + s[i + 1..]
  {
    if i == 0 {
      assert !HasKey(s[1..], s[0].0);
      WithoutAbsent(s[1..], s[0].0);
    } else {
      assert s[1..][i - 1] == s[i];
      WithoutAt(s[1..], i - 1);
      assert [s[0]] + (s[1..][..i - 1] + s[1..][i..]) == s[..i] + s[i + 1..];
    }
  }

  lemma WithoutFirst<K, V>(s: seq<(K, V)>)
    requires Unique(s) && s != []
    ensures Without(s, s[0].0) == s[1..]
  {
    WithoutAt(s, 0);
  }

  lemma {:induction false} WithoutConcat<K, V>(a: seq<(K, V)>, b: seq<(K, V)>, k: K)
    ensures Without(a + b, k) == Without(a, k) + Without(b, k)
  {
    if a == [] {
      assert a + b == b;
    } else {
      WithoutConcat(a[1..], b, k);
      assert (a + b)[0] == a[0] && (a + b)[1..] == a[1..] + b;
    }
  }

  lemma {:induction false} WithoutKeys<K, V>(s: seq<(K, V)>, k: K, x: K)
    ensures HasKey(Without(s, k), x) <==> HasKey(s, x) && x != k
    ensures Find(Without(s, k), x) == if x == k then None else Find(s, x)
  {
    FindWithout(s, k, x);
    FindIff(Without(s, k), x);
    FindIff(s, x);
  }

  lemma {:induction false} FindWithout<K, V>(s: seq<(K, V)>, k: K, x: K)
    ensures Find(Without(s, k), x) == if x == k then None else Find(s, x)
  {
    if s != [] {
      FindWithout(s[1..], k, x);
    }
  }

  lemma {:induction false} WithoutUnique<K, V>(s: seq<(K, V)>, k: K)
    requires Unique(s)
    ensures Unique(Without(s, k)) && |Without(s, k)| <= |s|
  {
    if HasKey(s, k) {
      var i :| 0 <= i < |s| && s[i].0 == k;
      WithoutAt(s, i);
    } else {
      WithoutAbsent(s, k);
    }
  }

  lemma RenewUnique<K, V>(s: seq<(K, V)>, k: K, v: V)
    requires Unique(s)
    ensures Unique(Renew(s, k, v))
  {
    WithoutUnique(s, k);
    WithoutKeys(s, k, k);
  }

  /** The rest of s from the first pair of key k on. */
  ghost function From<K, V>(s: seq<(K, V)>, k: K): seq<(K, V)> {
    if s == [] || s[0].0 == k then s else From(s[1..], k)
  }

  lemma {:induction false} FromAt<K, V>(s: seq<(K, V)>, i: nat)
    requires Unique(s) && i < |s|
    ensures From(s, s[i].0) == s[i..]
  {
    if i > 0 {
      assert s[1..][i - 1] == s[i];
      FromAt(s[1..], i - 1);
      assert s[1..][i - 1..] == s[i..];
    }
  }

  /** Removing a key in front of the rest leaves the rest as it is. */
  lemma {:induction false} FromWithout<K, V>(s: seq<(K, V)>, k: K, gone: K)
    requires !HasKey(From(s, k), gone)
    ensures From(Without(s, gone), k) == From(s, k)
  {
    if s == [] {
    } else if s[0].0 == k {
      WithoutAbsent(s, gone);
    } else {
      FromWithout(s[1..], k, gone);
    }
  }

  lemma {:induction false} KeyCount<K, V>(s: seq<(K, V)>, keys: set<K>)
    requires Unique(s) && forall k :: k in keys <==> HasKey(s, k)
    ensures |keys| == |s|
  {
    if s == [] {
      assert keys == {};
    } else {
      var n := |s| - 1;
      assert s[n].0 in keys;
      forall k ensures k in keys - {s[n].0} <==> HasKey(s[..n], k) {
        if HasKey(s, k) && k != s[n].0 {
          var i :| 0 <= i < |s| && s[i].0 == k;
          assert s[..n][i].0 == k;
        }
      }
      KeyCount(s[..n], keys - {s[n].0});
    }
  }
}

/** The bidirectional map (utils/bimap/bimap.go). */
module BiMap {
  import opened Options

  /** The two maps are each other's inverse. */
  ghost predicate Inverse<K, V>(m: map<K, V>, w: map<V, K>) {
    && (forall k :: k in m ==> m[k] in w && w[m[k]] == k)
    && (forall v :: v in w ==> w[v] in m && m[w[v]] == v)
  }

  ghost predicate Injective<K, V>(m: map<K, V>) {
    forall k, l :: k in m && l in m && m[k] == m[l] ==> k == l
  }

  /** An inverse is unique, exists only for injective maps, and has the same size. */
  lemma InverseFacts<K, V>(m: map<K, V>, w: map<V, K>)
    requires Inverse(m, w)
    ensures Injective(m) && w.Keys == m.Values && |m| == |w|
    ensures forall x: map<V, K> :: Inverse(m, x) ==> x == w
  {
    assert w.Keys == m.Values;
    ValuesCount(m);
    forall x: map<V, K> | Inverse(m, x) ensures x == w {
      assert x.Keys == m.Values;
    }
  }

  /** A map has as many values as keys exactly when it is injective. */
  lemma {:induction false} ValuesCount<K, V>(m: map<K, V>)
    ensures |m.Values| <= |m| && (|m.Values| == |m| <==> Injective(m))
    decreases |m|
  {
    if m != map[] {
      var k :| k in m;
      var rest := m - {k};
      ValuesCount(rest);
      assert |rest| == |m| - 1 by { assert rest.Keys == m.Keys - {k}; }
      if m[k] in rest.Values {
        assert m.Values == rest.Values by { RestoreValue(m, k); }
        var l :| l in rest && rest[l] == m[k];
        assert !Injective(m);
      } else {
        assert m.Values == rest.Values + {m[k]} by { RestoreValue(m, k); }
        assert Injective(m) <==> Injective(rest) by { FreshValue(m, k); }
      }
    }
  }

  lemma RestoreValue<K, V>(m: map<K, V>, k: K)
    requires k in m
    ensures m.Values == (m - {k}).Values + {m[k]}
  {
    var rest := m - {k};
    forall v ensures v in m.Values <==> v in rest.Values + {m[k]} {
      if v in m.Values {
        var l :| l in m && m[l] == v;
        assert l == k || (l in rest && rest[l] == v);
      }
    }
  }

  lemma FreshValue<K, V>(m: map<K, V>, k: K)
    requires k in m && m[k] !in (m - {k}).Values
    ensures Injective(m) <==> Injective(m - {k})
  {
    var rest := m - {k};
    if Injective(rest) {
      forall a, b | a in m && b in m && m[a] == m[b] ensures a == b {
        assert a != k ==> a in rest && rest[a] in rest.Values;
        assert b != k ==> b in rest && rest[b] in rest.Values;
      }
    } else {
      var a, b :| a in rest && b in rest && rest[a] == rest[b] && a != b;
      assert a in m && b in m && m[a] == m[b];
    }
  }

  ghost predicate Bound<K, V>(m: map<K, V>, k: K, v: V) {
    k in m && m[k] == v
  }

  /** What json.Unmarshal makes of the input. */
  datatype Json<K, V> = Null | Malformed | Object(entries: map<K, V>)

  class BiMap<K(==), V(==)> {
    var keyToValue: map<K, V>
    var valueToKey: map<V, K>

    ghost predicate Valid()
      reads this
    {
      Inverse(keyToValue, valueToKey)
    }

    constructor ()
      ensures Valid() && keyToValue == map[]
    {
      keyToValue, valueToKey := map[], map[];
    }

    /** Binds key and val to each other.  The entries it removes, and returns, are the
        old ones with that key or that value, each once, and no others. */
    method Put(key: K, val: V) returns (removed: seq<(K, V)>)
      requires Valid()
      modifies this
      ensures Valid()
      ensures forall k, v :: (k, v) in removed <==> Bound(old(keyToValue), k, v) && (k == key || v == val)
      ensures forall i, j :: 0 <= i < j < |removed| ==> removed[i] != removed[j]
      ensures key in old(keyToValue) ==> removed != [] && removed[0] == (key, old(keyToValue)[key])
      ensures forall k :: k in keyToValue <==> k == key || (k in old(keyToValue) && old(keyToValue)[k] != val)
      ensures forall k :: k in keyToValue ==> keyToValue[k] == if k == key then val else old(keyToValue)[k]
    {
      removed := [];
      var oldVal := DeleteKey(key);
      if oldVal.Some? {
        removed := removed + [(key, oldVal.value)];
      }
      ghost var left, leftInverse := keyToValue, valueToKey;
      var oldKey := DeleteValue(val);
      if oldKey.Some? {
        removed := removed + [(oldKey.value, val)];
      }
      keyToValue := keyToValue[key := val];
      valueToKey := valueToKey[val := key];
      forall k, v | Bound(old(keyToValue), k, v) && (k == key || v == val) ensures (k, v) in removed {
        if k == key {
          assert removed[0] == (k, v);
        } else {
          assert k in left && leftInverse[left[k]] == k;
          assert oldKey == Some(k) && removed[|removed| - 1] == (k, v);
        }
      }
    }

    method GetKey(val: V) returns (key: Option<K>)
      requires Valid()
      ensures key.Some? ==> key.value in keyToValue && keyToValue[key.value] == val
      ensures key.None? ==> forall k :: k in keyToValue ==> keyToValue[k] != val
    {
      key := if val in valueToKey then Some(valueToKey[val]) else None;
    }

    method DeleteKey(key: K) returns (val: Option<V>)
      requires Valid()
      modifies this
      ensures Valid() && keyToValue == old(keyToValue) - {key}
      ensures val == if key in old(keyToValue) then Some(old(keyToValue)[key]) else None
    {
      if key !in keyToValue {
        return None;
      }
      val := Some(keyToValue[key]);
      keyToValue := keyToValue - {key};
      valueToKey := valueToKey - {val.value};
    }

    method DeleteValue(val: V) returns (key: Option<K>)
      requires Valid()
      modifies this
      ensures Valid() && valueToKey == old(valueToKey) - {val}
      ensures key == if val in old(valueToKey) then Some(old(valueToKey)[val]) else None
      ensures keyToValue == if key.Some? then old(keyToValue) - {key.value} else old(keyToValue)
    {
      if val !in valueToKey {
        return None;
      }
      key := Some(valueToKey[val]);
      keyToValue := keyToValue - {key.value};
      valueToKey := valueToKey - {val};
    }

    /** Accepts a decoded object exactly when it is injective; anything refused leaves
        the map as it was. */
    method Unmarshal(json: Json<K, V>) returns (ok: bool)
      requires Valid()
      modifies this
      ensures Valid()
      ensures ok <==> json.Null? || (json.Object? && Injective(json.entries))
      ensures keyToValue == if ok && json.Object? then json.entries else old(keyToValue)
    {
      match json
      case Null => return true;
      case Malformed => return false;
      case Object(m) =>
        var inverse := Invert(m);
        ValuesCount(m);
        assert inverse.Keys == m.Values;
        if |m| != |inverse| {
          return false;
        }
        keyToValue, valueToKey := m, inverse;
        ok := true;
    }

    /** The loop over the decoded entries, in any order; later keys overwrite. */
    static method Invert(m: map<K, V>) returns (inverse: map<V, K>)
      ensures forall v :: v in inverse <==> v in m.Values
      ensures forall v :: v in inverse ==> inverse[v] in m && m[inverse[v]] == v
    {
      inverse := map[];
      var todo := m.Keys;
      while todo != {}
        invariant todo <= m.Keys
        invariant forall v :: v in inverse ==> inverse[v] in m && m[inverse[v]] == v
        invariant forall k :: k in m && k !in todo ==> m[k] in inverse
        decreases todo
      {
        var k :| k in todo;
        inverse := inverse[m[k] := k];
        todo := todo - {k};
      }
    }
  }

  /** Marshal hands out keyToValue: unmarshalling it always succeeds and restores both
      maps. */
  method RoundTrip<K(==), V(==)>(b: BiMap<K, V>, c: BiMap<K, V>) returns (ok: bool)
    requires b.Valid() && c.Valid()
    modifies c
    ensures ok && c.Valid() && c.keyToValue == old(b.keyToValue) && c.valueToKey == old(b.valueToKey)
  {
    InverseFacts(b.keyToValue, b.valueToKey);
    ok := c.Unmarshal(Object(b.keyToValue));
  }
}

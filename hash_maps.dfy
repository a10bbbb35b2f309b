/**
 * The Java collections the in-memory stores use: listing a HashMap's values, as
 * new ArrayList<>(map.values()) does, in an order the map chooses, and a HashSet of items
 * compared by id, modelled as a map from id to item.
 */
module HashMaps {
  import opened Tables

  /** No key is listed twice. */
  ghost predicate Distinct<K>(ks: seq<K>) {
    forall i, j :: 0 <= i < |ks| && 0 <= j < |ks| && ks[i] == ks[j] ==> i == j
  }

  /** The values stored under a list of keys, in the order of the keys. */
  function ValuesAt<K, V>(m: map<K, V>, ks: seq<K>): (r: seq<V>)
    requires forall j :: 0 <= j < |ks| ==> ks[j] in m
    ensures |r| == |ks| && forall j :: 0 <= j < |ks| ==> r[j] == m[ks[j]]
  {
    seq(|ks|, j requires 0 <= j < |ks| => m[ks[j]])
  }

  /**
   * The values of the map in the order of its keys as the map visits them: every key once, and the
   * value of the j-th key at position j. The order of the keys is left to the map.
   */
  method Values<K, V(==)>(m: map<K, V>) returns (ks: seq<K>, r: seq<V>)
    ensures Distinct(ks) && (forall k :: k in ks <==> k in m)
    ensures r == ValuesAt(m, ks)
    ensures |r| == |m|
    ensures forall v :: v in r <==> v in m.Values
  {
    r := [];
    ks := [];
    var rest := m.Keys;
    ghost var seen: set<K> := {};
    while rest != {}
      invariant seen + rest == m.Keys && seen !! rest
      invariant forall k :: k in ks <==> k in seen
      invariant Distinct(ks) && |ks| == |seen|
      invariant |r| == |ks| && forall j :: 0 <= j < |ks| ==> r[j] == m[ks[j]]
      decreases |rest|
    {
      var k :| k in rest;
      DistinctAppend(ks, k);
      r := r + [m[k]];
      ks := ks + [k];
      rest := rest - {k};
      seen := seen + {k};
    }
    assert seen == m.Keys;
    ValuesAtAll(m, ks);
  }

  /** Listing every key once lists every value of the map, and nothing else. */
  lemma ValuesAtAll<K, V>(m: map<K, V>, ks: seq<K>)
    requires forall k :: k in ks <==> k in m
    ensures forall v :: v in ValuesAt(m, ks) <==> v in m.Values
  {
    var r := ValuesAt(m, ks);
    forall v | v in m.Values ensures v in r {
      var k :| k in m && m[k] == v;
      var j :| 0 <= j < |ks| && ks[j] == k;
      assert r[j] == v;
    }
    forall v | v in r ensures v in m.Values {
      var j :| 0 <= j < |r| && r[j] == v;
      assert ks[j] in m;
    }
  }

  lemma DistinctAppend<K>(ks: seq<K>, k: K)
    requires Distinct(ks) && k !in ks
    ensures Distinct(ks + [k])
  {
    var longer := ks + [k];
    forall i, j | 0 <= i < |longer| && 0 <= j < |longer| && longer[i] == longer[j] ensures i == j {
      if i < |ks| && j < |ks| {
        assert ks[i] == ks[j];
      }
    }
  }

  /** The keys of the list whose values pass the filter. */
  function KeysWhere<K, V>(m: map<K, V>, ks: seq<K>, p: V -> bool): set<K>
    requires forall j :: 0 <= j < |ks| ==> ks[j] in m
  {
    if ks == [] then {}
    else (if p(m[ks[0]]) then {ks[0]} else {}) + KeysWhere(m, ks[1..], p)
  }

  lemma {:induction false} KeysWhereIn<K, V>(m: map<K, V>, ks: seq<K>, p: V -> bool, k: K)
    requires forall j :: 0 <= j < |ks| ==> ks[j] in m
    ensures k in KeysWhere(m, ks, p) <==> k in ks && p(m[k])
  {
    if ks != [] {
      KeysWhereIn(m, ks[1..], p, k);
      assert ks == [ks[0]] + ks[1..];
    }
  }

  lemma DistinctTail<K>(ks: seq<K>)
    requires Distinct(ks) && ks != []
    ensures Distinct(ks[1..]) && ks[0] !in ks[1..]
  {
    var tail := ks[1..];
    forall i, j | 0 <= i < |tail| && 0 <= j < |tail| && tail[i] == tail[j] ensures i == j {
      assert ks[i + 1] == ks[j + 1];
    }
    forall j | 0 <= j < |tail| ensures tail[j] != ks[0] {
      assert tail[j] == ks[j + 1];
    }
  }

  /** Filtering the values listed under distinct keys keeps one value per key whose value passes. */
  lemma {:induction false} FilterValuesCount<K, V(!new)>(m: map<K, V>, ks: seq<K>, p: V -> bool)
    requires forall j :: 0 <= j < |ks| ==> ks[j] in m
    requires Distinct(ks)
    ensures |Filter(ValuesAt(m, ks), p)| == |KeysWhere(m, ks, p)|
  {
    if ks != [] {
      var tail := ks[1..];
      DistinctTail(ks);
      FilterValuesCount(m, tail, p);
      assert ValuesAt(m, ks) == [m[ks[0]]] + ValuesAt(m, tail);
      FilterAppend([m[ks[0]]], ValuesAt(m, tail), p);
      KeysWhereIn(m, tail, p, ks[0]);
    }
  }

  /** The keys of the map whose values pass the filter. */
  ghost function KeysPassing<K(!new), V>(m: map<K, V>, p: V -> bool): set<K> {
    set k | k in m && p(m[k])
  }

  /** For a listing of every key once, the keys kept are the keys of the map whose values pass. */
  lemma KeysWhereOfAll<K(!new), V>(m: map<K, V>, ks: seq<K>, p: V -> bool)
    requires forall k :: k in ks <==> k in m
    ensures KeysWhere(m, ks, p) == KeysPassing(m, p)
  {
    var kept := KeysPassing(m, p);
    forall k ensures k in KeysWhere(m, ks, p) <==> k in kept {
      KeysWhereIn(m, ks, p, k);
    }
    assert KeysWhere(m, ks, p) == kept;
  }

  /**
   * Filtering the values of a map listed once per key: the values that pass, one per key whose
   * value passes.
   */
  lemma FilterValues<K(!new), V(!new)>(m: map<K, V>, ks: seq<K>, p: V -> bool)
    requires Distinct(ks) && forall k :: k in ks <==> k in m
    ensures forall v :: v in Filter(ValuesAt(m, ks), p) <==> v in m.Values && p(v)
    ensures |Filter(ValuesAt(m, ks), p)| == |KeysPassing(m, p)|
  {
    ValuesAtAll(m, ks);
    FilterValuesCount(m, ks, p);
    KeysWhereOfAll(m, ks, p);
  }

  /** The owner's set from an index of sets, or an empty one when there is none yet. */
  function SetOf<V>(index: map<nat, map<nat, V>>, o: nat): (r: map<nat, V>)
    ensures o in index ==> r == index[o]
    ensures o !in index ==> r == map[]
  {
    if o in index then index[o] else map[]
  }

  /**
   * HashSet.add of an item into a set whose items are equal exactly when their ids are: an item
   * that has a namesake in the set is not added, and the namesake stays.
   */
  function Add<V>(s: map<nat, V>, id: nat, v: V): map<nat, V> {
    if id in s then s else s[id := v]
  }

  /** Adding an item whose id is new to the set puts it in, next to the others. */
  lemma AddNew<V>(s: map<nat, V>, id: nat, v: V)
    requires id !in s
    ensures Add(s, id, v) == s[id := v]
    ensures Add(s, id, v).Keys == s.Keys + {id}
  {
  }

  /** Adding an item with a namesake in the set leaves the set, and the namesake, as they were. */
  lemma AddKeepsNamesake<V>(s: map<nat, V>, id: nat, v: V)
    requires id in s
    ensures Add(s, id, v) == s && Add(s, id, v)[id] == s[id]
  {
  }

  /** Removing the namesake first and then adding leaves the item in place of its namesake. */
  lemma RemoveThenAdd<V>(s: map<nat, V>, id: nat, v: V)
    ensures Add(s - {id}, id, v) == s[id := v]
  {
    assert (s - {id})[id := v].Keys == s[id := v].Keys;
  }
}

/** A Go map whose values carry their own key, and the slices that a range over it produces. */
module Keyed {

  /** items holds every value of m once, in some order. */
  ghost predicate Lists<K(!new), V(!new)>(items: seq<V>, m: map<K, V>, key: V -> K) {
    && (forall i :: 0 <= i < |items| ==> key(items[i]) in m && m[key(items[i])] == items[i])
    && (forall k :: k in m ==> key(m[k]) == k && m[k] in items)
    && DistinctKeys(items, key)
  }

  ghost predicate DistinctKeys<K(!new), V(!new)>(items: seq<V>, key: V -> K) {
    forall i, j :: 0 <= i < j < |items| ==> key(items[i]) != key(items[j])
  }

  ghost predicate OwnKeys<K(!new), V(!new)>(m: map<K, V>, key: V -> K) {
    forall k :: k in m ==> key(m[k]) == k
  }

  /** The map a loop of assignments m[key(v)] = v builds. */
  function MapOf<K, V>(items: seq<V>, key: V -> K): map<K, V> {
    if items == [] then map[]
    else
      var last := items[|items| - 1];
      MapOf(items[..|items| - 1], key)[key(last) := last]
  }

  lemma {:induction false} MapOfContents<K(!new), V(!new)>(items: seq<V>, key: V -> K)
    requires DistinctKeys(items, key)
    ensures OwnKeys(MapOf(items, key), key)
    ensures forall k :: k in MapOf(items, key) ==> MapOf(items, key)[k] in items
    ensures forall i :: 0 <= i < |items| ==> key(items[i]) in MapOf(items, key) && MapOf(items, key)[key(items[i])] == items[i]
    ensures Lists(items, MapOf(items, key), key)
  {
    if items != [] {
      var front := items[..|items| - 1];
      assert forall i :: 0 <= i < |front| ==> front[i] == items[i];
      MapOfContents(front, key);
    }
  }

  lemma DistinctTail<K(!new), V(!new)>(items: seq<V>, key: V -> K)
    requires items != [] && DistinctKeys(items, key)
    ensures DistinctKeys(items[1..], key)
    ensures forall x :: x in items[1..] ==> key(x) != key(items[0])
  {
    assert forall i, j :: 0 <= i < j < |items[1..]| ==> items[1..][i] == items[i + 1] && items[1..][j] == items[j + 1];
    forall x | x in items[1..] ensures key(x) != key(items[0]) {
      var i :| 0 <= i < |items[1..]| && items[1..][i] == x;
      assert items[i + 1] == x;
    }
  }

  /** The loop of assignments read from the front. */
  lemma {:induction false} MapOfHead<K(!new), V(!new)>(items: seq<V>, key: V -> K)
    requires items != [] && DistinctKeys(items, key)
    ensures MapOf(items, key) == MapOf(items[1..], key)[key(items[0]) := items[0]]
    ensures key(items[0]) !in MapOf(items[1..], key)
  {
    DistinctTail(items, key);
    MapOfContents(items[1..], key);
    if |items| > 1 {
      var front := items[..|items| - 1];
      assert DistinctKeys(front, key);
      MapOfHead(front, key);
      assert items[1..][..|items[1..]| - 1] == front[1..];
      assert items[1..][|items[1..]| - 1] == items[|items| - 1];
    } else {
      assert items[..0] == [] && items[1..] == [];
    }
  }

  /** The last item with a key is the one the map has. */
  lemma {:induction false} LastIsKept<K(!new), V(!new)>(items: seq<V>, key: V -> K, n: nat)
    requires n < |items|
    requires forall i :: n < i < |items| ==> key(items[i]) != key(items[n])
    ensures key(items[n]) in MapOf(items, key) && MapOf(items, key)[key(items[n])] == items[n]
  {
    if n < |items| - 1 {
      var front := items[..|items| - 1];
      assert forall i :: 0 <= i < |front| ==> front[i] == items[i];
      LastIsKept(front, key, n);
    }
  }

  /** One round of a load loop: entering the first item leaves the rest to be merged. */
  lemma LoadRound<K(!new), V(!new)>(items: seq<V>, acc: map<K, V>, key: V -> K)
    requires items != [] && DistinctKeys(items, key)
    ensures DistinctKeys(items[1..], key)
    ensures forall x :: x in items <==> x == items[0] || x in items[1..]
    ensures forall x :: x in items[1..] ==> key(x) != key(items[0])
    ensures acc[key(items[0]) := items[0]] + MapOf(items[1..], key) == acc + MapOf(items, key)
  {
    DistinctTail(items, key);
    MapOfHead(items, key);
    hide MapOf;
  }

  /** Reading back what a range wrote gives the map, whatever the order of the range. */
  lemma ListsGivesMap<K(!new), V(!new)>(items: seq<V>, m: map<K, V>, key: V -> K)
    requires Lists(items, m, key)
    ensures MapOf(items, key) == m
  {
    MapOfContents(items, key);
    var n := MapOf(items, key);
    forall k ensures k in n <==> k in m {
      if k in m {
        assert m[k] in items;
        var i :| 0 <= i < |items| && items[i] == m[k];
        assert key(items[i]) in n;
      }
      if k in n {
        assert n[k] in items;
        var i :| 0 <= i < |items| && items[i] == n[k];
        assert key(items[i]) in m;
      }
    }
    forall k | k in m ensures n[k] == m[k] {
      assert n[k] in items && key(n[k]) == k;
      var i :| 0 <= i < |items| && items[i] == n[k];
      assert m[key(items[i])] == items[i];
    }
  }

  lemma {:induction false} ListsSize<K(!new), V(!new)>(items: seq<V>, m: map<K, V>, key: V -> K)
    requires Lists(items, m, key)
    ensures |items| == |m|
  {
    if items == [] {
      assert m.Keys == {};
      assert |m| == |m.Keys|;
    } else {
      var n := |items| - 1;
      var k := key(items[n]);
      var front, rest := items[..n], m - {k};
      assert forall i :: 0 <= i < n ==> front[i] == items[i];
      forall j | j in rest ensures rest[j] in front {
        assert m[j] in items;
        var i :| 0 <= i < |items| && items[i] == m[j];
        assert i < n;
        assert front[i] == rest[j];
      }
      ListsSize(front, rest, key);
      assert rest.Keys == m.Keys - {k};
      assert |m| == |m.Keys| && |rest| == |rest.Keys|;
    }
  }

  /** items are the entries of m under the given keys. */
  ghost predicate Collected<K(!new), V(!new)>(items: seq<V>, m: map<K, V>, keys: seq<K>, key: V -> K) {
    && (forall i :: 0 <= i < |items| ==> key(items[i]) in keys && key(items[i]) in m && m[key(items[i])] == items[i])
    && (forall k :: k in m && k in keys ==> m[k] in items)
    && DistinctKeys(items, key)
  }

  lemma CollectOne<K(!new), V(!new)>(items: seq<V>, m: map<K, V>, keys: seq<K>, k: K, key: V -> K)
    requires Collected(items, m, keys, key) && OwnKeys(m, key) && k !in keys
    ensures Collected(if k in m then items + [m[k]] else items, m, keys + [k], key)
  {
    if k in m {
      assert forall v :: v in items + [m[k]] <==> v in items || v == m[k];
    }
  }

  lemma CollectedAll<K(!new), V(!new)>(items: seq<V>, m: map<K, V>, keys: seq<K>, key: V -> K)
    requires Collected(items, m, keys, key) && OwnKeys(m, key)
    requires forall k :: k in m ==> k in keys
    ensures Lists(items, m, key)
  {
  }

  /** for _, v := range m { out = append(out, v) }: the order is the runtime's choice. */
  method Range<K(!new), V(!new)>(m: map<K, V>) returns (items: seq<V>, ghost keys: seq<K>)
    ensures IsRange(items, keys, m)
  {
    items, keys := [], [];
    var rest := m.Keys;
    while rest != {}
      invariant rest <= m.Keys
      invariant |items| == |keys|
      invariant forall i :: 0 <= i < |items| ==> keys[i] in m.Keys - rest && m[keys[i]] == items[i]
      invariant forall k :: k in m.Keys - rest ==> k in keys
      invariant forall i, j :: 0 <= i < j < |keys| ==> keys[i] != keys[j]
      decreases rest
    {
      var k :| k in rest;
      items, keys := items + [m[k]], keys + [k];
      rest := rest - {k};
    }
  }

  /** items are the values of m, one for each key. */
  ghost predicate IsRange<K(!new), V(!new)>(items: seq<V>, keys: seq<K>, m: map<K, V>) {
    && |items| == |keys|
    && (forall i :: 0 <= i < |items| ==> keys[i] in m && m[keys[i]] == items[i])
    && (forall k :: k in m ==> k in keys)
    && (forall i, j :: 0 <= i < j < |keys| ==> keys[i] != keys[j])
  }

  lemma RangeLists<K(!new), V(!new)>(items: seq<V>, keys: seq<K>, m: map<K, V>, key: V -> K)
    requires IsRange(items, keys, m) && OwnKeys(m, key)
    ensures Lists(items, m, key)
  {
    forall i, j | 0 <= i < j < |items| ensures key(items[i]) != key(items[j]) {
      assert key(m[keys[i]]) == keys[i] && key(m[keys[j]]) == keys[j];
    }
    forall k | k in m ensures m[k] in items {
      var i :| 0 <= i < |keys| && keys[i] == k;
      assert items[i] == m[k];
    }
  }
}

/** Python's insertion-ordered `dict`, as far as the pipeline uses it:
    assigning to a new key appends it, assigning to an existing key
    replaces the value and keeps the key where it was. Iterating the dict
    visits `keys` in order. */
module OrderedMaps {

  datatype OrderedMap<K, V> = OrderedMap(keys: seq<K>, values: map<K, V>)

  /** Keys are listed once each, and exactly the keys of the map are listed. */
  ghost predicate Valid<K(!new), V>(m: OrderedMap<K, V>) {
    && (forall i, j :: 0 <= i < j < |m.keys| ==> m.keys[i] != m.keys[j])
    && (forall k :: k in m.values <==> k in m.keys)
  }

  /** `{}` */
  function Empty<K(!new), V>(): (m: OrderedMap<K, V>)
    ensures Valid(m)
    ensures |m.keys| == 0 && m.values == map[]
  {
    OrderedMap([], map[])
  }

  /** `d[k] = v` */
  function Put<K(!new), V>(m: OrderedMap<K, V>, k: K, v: V): (r: OrderedMap<K, V>)
    requires Valid(m)
    ensures Valid(r)
    ensures r.values == m.values[k := v]
    ensures k in m.values ==> r.keys == m.keys
    ensures k !in m.values ==> r.keys == m.keys + [k]
  {
    if k in m.values then OrderedMap(m.keys, m.values[k := v])
    else OrderedMap(m.keys + [k], m.values[k := v])
  }

  /** The distinct elements of `s`, each once, in order of first
      occurrence: the key order a `dict` ends with after assigning the keys
      of `s` one by one. */
  function FirstOccurrences<T(==,!new)>(s: seq<T>): (r: seq<T>)
    ensures forall x :: x in r <==> x in s
    ensures forall i, j :: 0 <= i < j < |r| ==> r[i] != r[j]
    decreases |s|
  {
    if |s| == 0 then []
    else
      var seen := FirstOccurrences(s[..|s| - 1]);
      var x := s[|s| - 1];
      assert forall y :: y in s <==> y in s[..|s| - 1] || y == x by {
        assert s == s[..|s| - 1] + [x];
      }
      if x in seen then seen else seen + [x]
  }

  /** Appending one element: it is added at the end unless already seen. */
  lemma FirstOccurrencesSnoc<T(!new)>(s: seq<T>, x: T)
    ensures FirstOccurrences(s + [x]) ==
              if x in FirstOccurrences(s) then FirstOccurrences(s) else FirstOccurrences(s) + [x]
  {
    assert (s + [x])[..|s|] == s;
  }
}

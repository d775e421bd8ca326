/** JavaScript `Map`: lookups by key, and iteration in insertion order.  Setting an
    existing key keeps its place in the order; a deleted key that is set again moves last. */
module OrderedMaps {
  import opened Outcomes

  ghost predicate NoDuplicates<T>(s: seq<T>) {
    forall i, j :: 0 <= i < j < |s| ==> s[i] != s[j]
  }

  function Without<T(==,!new)>(s: seq<T>, x: T): (r: seq<T>)
    ensures forall y :: y in r <==> y in s && y != x
    ensures NoDuplicates(s) ==> NoDuplicates(r)
    ensures x !in s ==> r == s
    ensures NoDuplicates(s) && x in s ==> |r| == |s| - 1
  {
    if s == [] then []
    else
      assert s == [s[0]] + s[1..];
      assert NoDuplicates(s) ==> NoDuplicates(s[1..]) && s[0] !in s[1..];
      if s[0] == x then
        Without(s[1..], x)
      else [s[0]] + Without(s[1..], x)
  }

  datatype OrderedMap<K(==,!new), +V> = OrderedMap(order: seq<K>, values: map<K, V>) {

    ghost predicate Valid() {
      NoDuplicates(order) && (set k | k in order) == values.Keys
    }

    function Get(k: K): Option<V> {
      if k in values then Some(values[k]) else None
    }

    function Set(k: K, v: V): (r: OrderedMap<K, V>)
      ensures Valid() ==> r.Valid()
      ensures r.values == values[k := v]
      ensures Valid() ==> |r.order| == |order| + (if k in values then 0 else 1)
    {
      if k in values then OrderedMap(order, values[k := v])
      else OrderedMap(order + [k], values[k := v])
    }

    function Delete(k: K): (r: OrderedMap<K, V>)
      ensures Valid() ==> r.Valid()
      ensures r.values == values - {k}
      ensures Valid() ==> |r.order| == |order| - (if k in values then 1 else 0)
    {
      OrderedMap(Without(order, k), values - {k})
    }

    function Size(): nat { |order| }
  }

  function Empty<K(!new), V>(): (r: OrderedMap<K, V>)
    ensures r.Valid()
  {
    OrderedMap([], map[])
  }
}

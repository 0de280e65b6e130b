/** PHP's ordered arrays with string or integer keys, as sequences of
    key/value pairs in insertion order. */
module PhpArrays {
  import opened Results

  type Dict<K, V> = seq<(K, V)>

  /** array_keys(): the keys in order. */
  function Keys<K, V>(d: Dict<K, V>): (ks: seq<K>)
    ensures |ks| == |d|
    ensures forall i :: 0 <= i < |d| ==> ks[i] == d[i].0
  {
    if d == [] then [] else [d[0].0] + Keys(d[1..])
  }

  /** array_key_exists(). */
  predicate HasKey<K(==), V>(d: Dict<K, V>, k: K) {
    k in Keys(d)
  }

  /** No key occurs twice, as in every PHP array. */
  predicate UniqueKeys<K(==), V>(d: Dict<K, V>) {
    d == [] || (d[0].0 !in Keys(d[1..]) && UniqueKeys(d[1..]))
  }

  /** $d[$k]: the value stored under k, None when k is absent. */
  function Lookup<K(==), V>(d: Dict<K, V>, k: K): (r: Option<V>)
    ensures r.Some? <==> HasKey(d, k)
  {
    if d == [] then None
    else if d[0].0 == k then Some(d[0].1)
    else Lookup(d[1..], k)
  }

  /** $d[$k] = $v: an existing key keeps its place and takes the new value,
      a new key goes to the end; no other key changes. */
  function Assign<K(==), V>(d: Dict<K, V>, k: K, v: V): (r: Dict<K, V>)
    ensures Lookup(r, k) == Some(v)
    ensures Keys(r) == if HasKey(d, k) then Keys(d) else Keys(d) + [k]
    ensures UniqueKeys(d) ==> UniqueKeys(r)
  {
    if d == [] then [(k, v)]
    else if d[0].0 == k then
      var r := [(k, v)] + d[1..];
      assert r[1..] == d[1..];
      assert Keys(r) == [k] + Keys(d[1..]);
      r
    else
      var tail := Assign(d[1..], k, v);
      var r := [d[0]] + tail;
      assert r[1..] == tail;
      assert Lookup(r, k) == Lookup(tail, k);
      assert Keys(r) == [d[0].0] + Keys(tail);
      r
  }

  /** Assigning k changes the value found under k and under no other key. */
  lemma {:induction false} AssignLookup<K, V>(d: Dict<K, V>, k: K, v: V, k': K)
    ensures Lookup(Assign(d, k, v), k') == if k' == k then Some(v) else Lookup(d, k')
  {
    if d != [] && d[0].0 != k {
      AssignLookup(d[1..], k, v, k');
    }
  }

  /** foreach ($b as $k => $v) $a[$k] = $v; which is also array_merge($a, $b)
      when every key of b is a string. */
  function Overlay<K(==), V>(a: Dict<K, V>, b: Dict<K, V>): (r: Dict<K, V>)
    ensures UniqueKeys(a) ==> UniqueKeys(r)
    decreases |b|
  {
    if b == [] then a else Overlay(Assign(a, b[0].0, b[0].1), b[1..])
  }

  /** The keys of b that ks does not hold yet, first occurrences, in order. */
  function NewKeys<K(==), V>(ks: seq<K>, b: Dict<K, V>): seq<K>
    decreases |b|
  {
    if b == [] then []
    else if b[0].0 in ks then NewKeys(ks, b[1..])
    else [b[0].0] + NewKeys(ks + [b[0].0], b[1..])
  }

  /** In a PHP array the value found under the i-th key is the i-th value. */
  lemma {:induction false} LookupAt<K, V>(d: Dict<K, V>, i: nat)
    requires UniqueKeys(d) && i < |d|
    ensures Lookup(d, d[i].0) == Some(d[i].1)
  {
    if i > 0 {
      assert d[i].0 == d[1..][i - 1].0;
      assert d[i].0 in Keys(d[1..]);
      LookupAt(d[1..], i - 1);
    }
  }

  /** Overlaying b onto a: keys of b take b's value, other keys keep a's. */
  lemma {:induction false} OverlayLookup<K, V>(a: Dict<K, V>, b: Dict<K, V>, k: K)
    requires UniqueKeys(b)
    ensures Lookup(Overlay(a, b), k) == if HasKey(b, k) then Lookup(b, k) else Lookup(a, k)
    decreases |b|
  {
    if b != [] {
      AssignLookup(a, b[0].0, b[0].1, k);
      OverlayLookup(Assign(a, b[0].0, b[0].1), b[1..], k);
      assert Keys(b) == [b[0].0] + Keys(b[1..]);
    }
  }

  /** Overlaying keeps a's keys in place and appends b's new keys in b's order. */
  lemma {:induction false} OverlayKeys<K, V>(a: Dict<K, V>, b: Dict<K, V>)
    ensures Keys(Overlay(a, b)) == Keys(a) + NewKeys(Keys(a), b)
    decreases |b|
  {
    if b != [] {
      var k0 := b[0].0;
      var a' := Assign(a, k0, b[0].1);
      var ka := Keys(a);
      OverlayKeys(a', b[1..]);
      assert Overlay(a, b) == Overlay(a', b[1..]);
      if k0 in ka {
        assert Keys(a') == ka;
        assert NewKeys(ka, b) == NewKeys(ka, b[1..]);
      } else {
        var rest := NewKeys(ka + [k0], b[1..]);
        assert Keys(a') == ka + [k0];
        assert NewKeys(ka, b) == [k0] + rest;
        assert ka + [k0] + rest == ka + ([k0] + rest);
      }
    }
  }

  /** One more assignment at the end of an overlay loop. */
  lemma {:induction false} OverlaySnoc<K, V>(a: Dict<K, V>, b: Dict<K, V>, k: K, v: V)
    ensures Overlay(a, b + [(k, v)]) == Assign(Overlay(a, b), k, v)
    decreases |b|
  {
    if b == [] {
      assert b + [(k, v)] == [(k, v)];
    } else {
      assert (b + [(k, v)])[1..] == b[1..] + [(k, v)];
      OverlaySnoc(Assign(a, b[0].0, b[0].1), b[1..], k, v);
    }
  }

  /** The overlay loop after one more entry of b. */
  lemma OverlayPrefixStep<K, V>(a: Dict<K, V>, b: Dict<K, V>, j: nat)
    requires j < |b|
    ensures Overlay(a, b[..j + 1]) == Assign(Overlay(a, b[..j]), b[j].0, b[j].1)
  {
    assert b[..j + 1] == b[..j] + [(b[j].0, b[j].1)];
    OverlaySnoc(a, b[..j], b[j].0, b[j].1);
  }
}

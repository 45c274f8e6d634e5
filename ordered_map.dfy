/** An insertion-ordered map: what a JavaScript `Map` and the own string keys of a plain
    object have in common. Assigning to a new key appends it, assigning to a key already
    present keeps that key where it was, deleting a key keeps the order of the others,
    and keys are enumerated in that order. */
module OrderedMap {
  import opened Wrappers

  /** No element occurs twice. */
  ghost predicate Distinct<K>(s: seq<K>) {
    forall i, j :: 0 <= i < j < |s| ==> s[i] != s[j]
  }

  /** `s` with every occurrence of `k` left out, the other elements in their order. */
  function Without<K(==,!new)>(s: seq<K>, k: K): (r: seq<K>)
    ensures forall x :: x in r <==> x in s && x != k
    ensures |r| <= |s|
  {
    if s == [] then []
    else if s[0] == k then Without(s[1..], k)
    else [s[0]] + Without(s[1..], k)
  }

  datatype OMap<K(==,!new), V> = OMap(keys: seq<K>, vals: map<K, V>) {

    /** The keys are distinct and are exactly the keys that carry a value. */
    ghost predicate Valid() {
      Distinct(keys) && forall k :: k in vals <==> k in keys
    }

    /** `map.size`. */
    function Size(): nat {
      |keys|
    }

    /** `map.get(k)`; `None` is `undefined`. */
    function Get(k: K): Option<V> {
      if k in vals then Some(vals[k]) else None
    }

    /** `map.set(k, v)` / `obj[k] = v`. */
    function Set(k: K, v: V): OMap<K, V> {
      if k in vals then OMap(keys, vals[k := v]) else OMap(keys + [k], vals[k := v])
    }

    /** `map.delete(k)` / `delete obj[k]`. */
    function Delete(k: K): OMap<K, V> {
      OMap(Without(keys, k), vals - {k})
    }
  }

  /** `new Map()` / `{}`. */
  function Empty<K(==,!new), V>(): (m: OMap<K, V>)
    ensures m.Valid() && m.Size() == 0
    ensures forall k :: m.Get(k) == None
  {
    OMap([], map[])
  }

  lemma {:induction false} WithoutAbsent<K(!new)>(s: seq<K>, k: K)
    requires k !in s
    ensures Without(s, k) == s
  {
    if s != [] {
      WithoutAbsent(s[1..], k);
    }
  }

  lemma {:induction false} WithoutDistinct<K(!new)>(s: seq<K>, k: K)
    requires Distinct(s)
    ensures Distinct(Without(s, k))
    ensures |Without(s, k)| == if k in s then |s| - 1 else |s|
  {
    if s != [] {
      assert Distinct(s[1..]);
      WithoutDistinct(s[1..], k);
      assert s[0] !in s[1..];
      if s[0] == k {
        WithoutAbsent(s[1..], k);
      } else {
        var r := Without(s[1..], k);
        assert s[0] !in r;
        assert Without(s, k) == [s[0]] + r;
        forall i, j | 0 <= i < j < |[s[0]] + r|
          ensures ([s[0]] + r)[i] != ([s[0]] + r)[j]
        {
          if i > 0 {
            assert ([s[0]] + r)[i] == r[i - 1];
          } else {
            assert ([s[0]] + r)[j] in r;
          }
        }
      }
    }
  }

  /** Deleting the first key of a distinct key list leaves the rest, in order. */
  lemma WithoutFirst<K(!new)>(s: seq<K>)
    requires Distinct(s) && s != []
    ensures Without(s, s[0]) == s[1..]
  {
    assert s[0] !in s[1..];
    WithoutAbsent(s[1..], s[0]);
  }

  /** `set` stores the value, leaves every other key alone, keeps the position of a key
      already present and appends a new one. */
  lemma SetSpec<K(!new), V>(m: OMap<K, V>, k: K, v: V)
    requires m.Valid()
    ensures m.Set(k, v).Valid()
    ensures m.Set(k, v).Get(k) == Some(v)
    ensures forall x :: x != k ==> m.Set(k, v).Get(x) == m.Get(x)
    ensures m.Set(k, v).keys == if k in m.keys then m.keys else m.keys + [k]
    ensures m.Set(k, v).Size() == if k in m.keys then m.Size() else m.Size() + 1
  {
  }

  /** `delete` removes the key, leaves every other key alone and in order, and shrinks
      the map by one exactly when the key was present. */
  lemma DeleteSpec<K(!new), V>(m: OMap<K, V>, k: K)
    requires m.Valid()
    ensures m.Delete(k).Valid()
    ensures m.Delete(k).Get(k) == None
    ensures forall x :: x != k ==> m.Delete(k).Get(x) == m.Get(x)
    ensures m.Delete(k).keys == Without(m.keys, k)
    ensures m.Delete(k).Size() == if k in m.keys then m.Size() - 1 else m.Size()
  {
    WithoutDistinct(m.keys, k);
  }
}

/**
 * Python dictionaries as the pipeline uses them: an ordered list of
 * key/value entries with distinct keys. Iteration follows insertion order;
 * assigning to a key that is already present changes its value and keeps
 * its place; assigning a new key appends it.
 */
module Dict {
  import opened Wrappers

  /** The keys, in iteration order. */
  function Keys<K, V>(d: seq<(K, V)>): (r: seq<K>)
    ensures |r| == |d|
    ensures forall k :: 0 <= k < |d| ==> r[k] == d[k].0
  {
    if d == [] then [] else [d[0].0] + Keys(d[1..])
  }

  /** No key occurs twice. */
  ghost predicate DistinctKeys<K, V>(d: seq<(K, V)>) {
    forall i, j :: 0 <= i < j < |d| ==> d[i].0 != d[j].0
  }

  /** `key in d` */
  ghost predicate HasKey<K, V>(d: seq<(K, V)>, key: K) {
    exists i :: 0 <= i < |d| && d[i].0 == key
  }

  /** `d.get(key)`: the value of the first entry with that key. */
  function Get<K(==), V>(d: seq<(K, V)>, key: K): (r: Option<V>)
    ensures r.None? <==> !HasKey(d, key)
    ensures r.Some? ==> exists i :: 0 <= i < |d| && d[i] == (key, r.value)
    decreases |d|
  {
    if d == [] then None
    else if d[0].0 == key then Some(d[0].1)
    else
      var r := Get(d[1..], key);
      assert HasKey(d, key) ==> HasKey(d[1..], key) by {
        if HasKey(d, key) {
          var i :| 0 <= i < |d| && d[i].0 == key;
          assert d[1..][i - 1].0 == key;
        }
      }
      assert r.Some? ==> exists i :: 0 <= i < |d| && d[i] == (key, r.value) by {
        if r.Some? {
          var i :| 0 <= i < |d| - 1 && d[1..][i] == (key, r.value);
          assert d[i + 1] == (key, r.value);
        }
      }
      r
  }

  /** `d.get(key, default)` */
  function GetOr<K(==), V>(d: seq<(K, V)>, key: K, default: V): V {
    match Get(d, key)
    case Some(v) => v
    case None => default
  }

  /** In a dictionary with distinct keys, `Get` finds the entry at any index. */
  lemma GetAt<K, V>(d: seq<(K, V)>, i: nat)
    requires DistinctKeys(d) && i < |d|
    ensures Get(d, d[i].0) == Some(d[i].1)
  {
    var r := Get(d, d[i].0);
    var j :| 0 <= j < |d| && d[j] == (d[i].0, r.value);
  }

  /** Past a first entry with another key, the key is present exactly when
      it is present in the rest. */
  lemma HasKeyTail<K, V>(d: seq<(K, V)>, key: K)
    requires d != [] && d[0].0 != key
    ensures HasKey(d, key) <==> HasKey(d[1..], key)
  {
    if HasKey(d, key) {
      var i :| 0 <= i < |d| && d[i].0 == key;
      assert d[1..][i - 1].0 == key;
    }
    if HasKey(d[1..], key) {
      var i :| 0 <= i < |d| - 1 && d[1..][i].0 == key;
      assert d[i + 1].0 == key;
    }
  }

  /** `d[key] = value` */
  function Set<K(==), V>(d: seq<(K, V)>, key: K, value: V): (r: seq<(K, V)>)
    ensures HasKey(d, key) ==> |r| == |d|
    ensures !HasKey(d, key) ==> r == d + [(key, value)]
    decreases |d|
  {
    if d == [] then [(key, value)]
    else if d[0].0 == key then [(key, value)] + d[1..]
    else
      HasKeyTail(d, key);
      [d[0]] + Set(d[1..], key, value)
  }

  /** Assignment makes the key map to the new value. */
  lemma {:induction false} SetGet<K, V>(d: seq<(K, V)>, key: K, value: V)
    ensures Get(Set(d, key, value), key) == Some(value)
    decreases |d|
  {
    if d != [] && d[0].0 != key {
      SetGet(d[1..], key, value);
      assert Set(d, key, value)[1..] == Set(d[1..], key, value);
    }
  }

  /** Assignment leaves every other key as it was. */
  lemma {:induction false} SetGetOther<K, V>(d: seq<(K, V)>, key: K, value: V, other: K)
    requires other != key
    ensures Get(Set(d, key, value), other) == Get(d, other)
    decreases |d|
  {
    var r := Set(d, key, value);
    if d != [] {
      if d[0].0 == key {
        assert r[1..] == d[1..];
      } else {
        SetGetOther(d[1..], key, value, other);
        assert r[1..] == Set(d[1..], key, value);
      }
    }
  }

  /** A key that was present keeps its place; a new key goes last. */
  lemma {:induction false} SetKeys<K, V>(d: seq<(K, V)>, key: K, value: V)
    ensures HasKey(d, key) ==> Keys(Set(d, key, value)) == Keys(d)
    ensures !HasKey(d, key) ==> Keys(Set(d, key, value)) == Keys(d) + [key]
    decreases |d|
  {
    var r := Set(d, key, value);
    if d != [] && d[0].0 != key {
      SetKeys(d[1..], key, value);
      assert r[1..] == Set(d[1..], key, value);
      HasKeyTail(d, key);
      assert Keys(r) == [d[0].0] + Keys(r[1..]);
      assert Keys(d) == [d[0].0] + Keys(d[1..]);
    } else if d != [] {
      assert Keys(r) == Keys(d);
    }
  }

  /** Assignment keeps the keys distinct. */
  lemma SetDistinct<K, V>(d: seq<(K, V)>, key: K, value: V)
    requires DistinctKeys(d)
    ensures DistinctKeys(Set(d, key, value))
  {
    var r := Set(d, key, value);
    SetKeys(d, key, value);
    var kd, kr := Keys(d), Keys(r);
    forall i, j | 0 <= i < j < |r| ensures r[i].0 != r[j].0 {
      assert kr[i] == r[i].0 && kr[j] == r[j].0;
      if !HasKey(d, key) && j == |d| {
        assert r[j].0 == key;
        assert r[i] == d[i];
      }
    }
  }

  /** Every entry after an assignment is the assigned one or was there before. */
  lemma {:induction false} SetEntries<K, V>(d: seq<(K, V)>, key: K, value: V)
    ensures forall e :: e in Set(d, key, value) ==> e == (key, value) || e in d
    decreases |d|
  {
    if d != [] && d[0].0 != key {
      SetEntries(d[1..], key, value);
      assert Set(d, key, value) == [d[0]] + Set(d[1..], key, value);
    } else if d != [] {
      assert Set(d, key, value) == [(key, value)] + d[1..];
    }
  }
}

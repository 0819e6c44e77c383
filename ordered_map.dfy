/**
 * JavaScript's `Map` as an association list. Keys are kept in insertion
 * order: `set` on a present key replaces the value where it stands, `set` on
 * a new key appends, `delete` removes the key's entry. Iterating `entries()`
 * walks the list from the front.
 */
module OrderedMap {
  import opened Wrappers

  datatype Entry<K, V> = Entry(key: K, value: V)

  /** What every JavaScript `Map` satisfies: no key occurs twice. */
  predicate KeysUnique<K(==), V>(m: seq<Entry<K, V>>) {
    forall i, j :: 0 <= i < j < |m| ==> m[i].key != m[j].key
  }

  function Keys<K, V>(m: seq<Entry<K, V>>): set<K> {
    set i | 0 <= i < |m| :: m[i].key
  }

  /** The keys of a non-empty list are its head's key and the keys of its tail. */
  lemma KeysCons<K, V>(m: seq<Entry<K, V>>)
    requires m != []
    ensures Keys(m) == {m[0].key} + Keys(m[1..])
  {
    forall x | x in Keys(m) ensures x in {m[0].key} + Keys(m[1..]) {
      var i :| 0 <= i < |m| && m[i].key == x;
      if i > 0 { assert m[1..][i - 1].key == x; }
    }
    forall x | x in Keys(m[1..]) ensures x in Keys(m) {
      var i :| 0 <= i < |m[1..]| && m[1..][i].key == x;
      assert m[i + 1].key == x;
    }
  }

  /** In a map with unique keys, the first key does not occur again. */
  lemma HeadKeyNotInTail<K, V>(m: seq<Entry<K, V>>)
    requires KeysUnique(m) && m != []
    ensures m[0].key !in Keys(m[1..])
  {
    forall i | 0 <= i < |m[1..]| ensures m[1..][i].key != m[0].key {
      assert m[1..][i] == m[i + 1];
    }
  }

  /** `Map.prototype.get`: the value stored under `k`, if any. */
  function Get<K(==), V(==)>(m: seq<Entry<K, V>>, k: K): (r: Option<V>)
    ensures r.None? <==> k !in Keys(m)
    ensures r.Some? ==> Entry(k, r.value) in m
  {
    if m == [] then None
    else if m[0].key == k then Some(m[0].value)
    else
      KeysCons(m);
      Get(m[1..], k)
  }

  /** `Map.prototype.set`. */
  function Set<K(==), V>(m: seq<Entry<K, V>>, k: K, v: V): (r: seq<Entry<K, V>>)
    ensures Keys(r) == Keys(m) + {k}
  {
    if m == [] then
      KeysCons([Entry(k, v)]);
      [Entry(k, v)]
    else if m[0].key == k then
      KeysCons(m);
      KeysCons([Entry(k, v)] + m[1..]);
      [Entry(k, v)] + m[1..]
    else
      var r := [m[0]] + Set(m[1..], k, v);
      KeysCons(m);
      KeysCons(r);
      r
  }

  /** `Map.prototype.delete`: a map holds at most one entry per key, so the first one found is the one removed. */
  function Delete<K(==), V>(m: seq<Entry<K, V>>, k: K): (r: seq<Entry<K, V>>)
    ensures |r| == if k in Keys(m) then |m| - 1 else |m|
  {
    if m == [] then []
    else if m[0].key == k then
      KeysCons(m);
      m[1..]
    else
      KeysCons(m);
      [m[0]] + Delete(m[1..], k)
  }

  /** After `set(k, v)`, `get(k)` is `v` and every other key reads as before: last writer wins. */
  lemma {:induction false} GetAfterSet<K, V>(m: seq<Entry<K, V>>, k: K, v: V, k': K)
    ensures Get(Set(m, k, v), k') == if k' == k then Some(v) else Get(m, k')
  {
    if m != [] && m[0].key != k {
      GetAfterSet(m[1..], k, v, k');
    }
  }

  /** `set` never puts a key in twice. */
  lemma {:induction false} SetKeepsKeysUnique<K, V>(m: seq<Entry<K, V>>, k: K, v: V)
    requires KeysUnique(m)
    ensures KeysUnique(Set(m, k, v))
  {
    if m != [] && m[0].key != k {
      SetKeepsKeysUnique(m[1..], k, v);
      KeysCons(m);
      var r := Set(m, k, v);
      assert r == [m[0]] + Set(m[1..], k, v);
      forall j | 0 < j < |r| ensures r[j].key != m[0].key {
        assert r[j].key in Keys(Set(m[1..], k, v)) by { assert Set(m[1..], k, v)[j - 1] == r[j]; }
        HeadKeyNotInTail(m);
      }
    }
  }

  /** `set` of a new key appends its entry after every existing one: insertion order. */
  lemma {:induction false} SetAppendsNewKey<K, V>(m: seq<Entry<K, V>>, k: K, v: V)
    requires k !in Keys(m)
    ensures Set(m, k, v) == m + [Entry(k, v)]
  {
    if m != [] {
      KeysCons(m);
      SetAppendsNewKey(m[1..], k, v);
      assert [m[0]] + (m[1..] + [Entry(k, v)]) == m + [Entry(k, v)];
    }
  }

  /** `set` of a present key replaces its value where it stands, keeping every entry's position. */
  lemma {:induction false} SetReplacesInPlace<K, V>(m: seq<Entry<K, V>>, k: K, v: V, i: nat)
    requires KeysUnique(m)
    requires i < |m| && m[i].key == k
    ensures Set(m, k, v) == m[i := Entry(k, v)]
  {
    if i > 0 {
      assert m[0].key != k;
      SetReplacesInPlace(m[1..], k, v, i - 1);
      assert [m[0]] + m[1..][i - 1 := Entry(k, v)] == m[i := Entry(k, v)];
    }
  }

  /** In a map with unique keys, `delete(k)` removes exactly the entry holding `k`, wherever it stands. */
  lemma {:induction false} DeleteAt<K, V>(m: seq<Entry<K, V>>, k: K, i: nat)
    requires KeysUnique(m)
    requires i < |m| && m[i].key == k
    ensures Delete(m, k) == m[..i] + m[i + 1..]
  {
    if i > 0 {
      DeleteAt(m[1..], k, i - 1);
      assert m[1..][..i - 1] + m[1..][i..] == m[1..i] + m[i + 1..];
      assert m[..i] == [m[0]] + m[1..i];
    }
  }

  /** `delete(k)` leaves an empty slot for `k` and every other key as it was. */
  lemma {:induction false} GetAfterDelete<K, V>(m: seq<Entry<K, V>>, k: K, k': K)
    requires KeysUnique(m)
    ensures Get(Delete(m, k), k') == if k' == k then None else Get(m, k')
  {
    if m != [] {
      if m[0].key == k {
        if k' == k {
          HeadKeyNotInTail(m);
        }
      } else {
        GetAfterDelete(m[1..], k, k');
      }
    }
  }

  /** Removing entries keeps the keys unique. */
  lemma DeleteKeepsKeysUnique<K, V>(m: seq<Entry<K, V>>, k: K)
    requires KeysUnique(m)
    ensures KeysUnique(Delete(m, k))
  {
    if k in Keys(m) {
      var i :| 0 <= i < |m| && m[i].key == k;
      DeleteAt(m, k, i);
    } else {
      assert Delete(m, k) == m by { DeleteAbsent(m, k); }
    }
  }

  lemma {:induction false} DeleteAbsent<K, V>(m: seq<Entry<K, V>>, k: K)
    requires k !in Keys(m)
    ensures Delete(m, k) == m
  {
    if m != [] {
      KeysCons(m);
      DeleteAbsent(m[1..], k);
    }
  }
}

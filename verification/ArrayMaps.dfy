/** kernel/usb/interface/usb/arraymap.hpp: a map in a fixed array of optional keys. */
module ArrayMaps {
  import opened Options

  /** A table entry; the value of a deleted entry stays behind. */
  datatype Entry<K, V> = Entry(key: Option<K>, value: V)

  predicate Holds<K(==), V>(e: Entry<K, V>, key: K) { e.key == Some(key) }

  /** Index of the first entry holding the key, or the table's length. */
  function Find<K(==), V>(t: seq<Entry<K, V>>, key: K, i: nat): (k: nat)
    requires i <= |t|
    ensures i <= k <= |t| && (k < |t| ==> Holds(t[k], key)) && forall j :: i <= j < k ==> !Holds(t[j], key)
    decreases |t| - i
  {
    if i == |t| || Holds(t[i], key) then i else Find(t, key, i + 1)
  }

  function FindFree<K, V>(t: seq<Entry<K, V>>, i: nat): (k: nat)
    requires i <= |t|
    ensures i <= k <= |t| && (k < |t| ==> t[k].key.None?) && forall j :: i <= j < k ==> t[j].key.Some?
    decreases |t| - i
  {
    if i == |t| || t[i].key.None? then i else FindFree(t, i + 1)
  }

  function Lookup<K(==), V>(t: seq<Entry<K, V>>, key: K): Option<V> {
    var k := Find(t, key, 0);
    if k < |t| then Some(t[k].value) else None
  }

  /** A full table silently drops the pair. */
  function Insert<K, V>(t: seq<Entry<K, V>>, key: K, value: V): (r: seq<Entry<K, V>>)
    ensures |r| == |t|
  {
    var k := FindFree(t, 0);
    if k < |t| then t[k := Entry(Some(key), value)] else t
  }

  function Remove<K(==), V>(t: seq<Entry<K, V>>, key: K): (r: seq<Entry<K, V>>)
    ensures |r| == |t|
  {
    var k := Find(t, key, 0);
    if k < |t| then t[k := t[k].(key := None)] else t
  }

  /** The pairs in the table. */
  ghost function Pairs<K(!new), V(!new)>(t: seq<Entry<K, V>>): set<(K, V)> {
    set i | 0 <= i < |t| && t[i].key.Some? :: (t[i].key.value, t[i].value)
  }

  ghost predicate DistinctKeys<K(!new), V(!new)>(t: seq<Entry<K, V>>) {
    forall i, j :: 0 <= i < j < |t| && t[i].key.Some? ==> t[i].key != t[j].key
  }

  /** With distinct keys the table is the map of its pairs. */
  lemma LookupFinds<K(!new), V(!new)>(t: seq<Entry<K, V>>, key: K, value: V)
    requires DistinctKeys(t) && (key, value) in Pairs(t)
    ensures Lookup(t, key) == Some(value)
  {
    var i :| 0 <= i < |t| && t[i].key.Some? && (t[i].key.value, t[i].value) == (key, value);
    var k := Find(t, key, 0);
    assert k <= i;
  }

  lemma InsertAdds<K(!new), V(!new)>(t: seq<Entry<K, V>>, key: K, value: V)
    requires DistinctKeys(t) && Lookup(t, key) == None && FindFree(t, 0) < |t|
    ensures DistinctKeys(Insert(t, key, value)) && Pairs(Insert(t, key, value)) == Pairs(t) + {(key, value)}
  {
    var k, r := FindFree(t, 0), Insert(t, key, value);
    assert forall i :: 0 <= i < |t| ==> !Holds(t[i], key);
    forall p ensures p in Pairs(r) <==> p in Pairs(t) + {(key, value)} {
      if p in Pairs(t) {
        var i :| 0 <= i < |t| && t[i].key.Some? && (t[i].key.value, t[i].value) == p;
        assert r[i] == t[i];
      }
      assert r[k].key.Some? && (r[k].key.value, r[k].value) == (key, value);
    }
  }

  /** An insertion leaves a key's value alone, also when it inserts the same pair again. */
  lemma InsertKeeps<K(!new), V(!new)>(t: seq<Entry<K, V>>, key: K, value: V, k: K, v: V)
    requires Lookup(t, k) == Some(v) && (key == k ==> value == v)
    ensures Lookup(Insert(t, key, value), k) == Some(v)
  {
    var r := Insert(t, key, value);
    var a, b := Find(t, k, 0), Find(r, k, 0);
    assert Holds(r[a], k);
    assert b <= a;
    assert r[b] == t[b] || r[b] == Entry(Some(key), value);
  }

  lemma RemoveDrops<K(!new), V(!new)>(t: seq<Entry<K, V>>, key: K, value: V)
    requires DistinctKeys(t) && (key, value) in Pairs(t)
    ensures DistinctKeys(Remove(t, key)) && Pairs(Remove(t, key)) == Pairs(t) - {(key, value)}
  {
    var i :| 0 <= i < |t| && t[i].key.Some? && (t[i].key.value, t[i].value) == (key, value);
    var k, r := Find(t, key, 0), Remove(t, key);
    assert k == i;
    forall p ensures p in Pairs(r) <==> p in Pairs(t) - {(key, value)} {
      if p in Pairs(t) && p != (key, value) {
        var j :| 0 <= j < |t| && t[j].key.Some? && (t[j].key.value, t[j].value) == p;
        assert r[j] == t[j];
      }
      if p in Pairs(r) {
        var j :| 0 <= j < |r| && r[j].key.Some? && (r[j].key.value, r[j].value) == p;
        assert j != k && r[j] == t[j];
      }
    }
  }

  /** A table with fewer pairs than entries has a free entry. */
  lemma {:induction false} SomeFree<K(!new), V(!new)>(t: seq<Entry<K, V>>)
    requires DistinctKeys(t) && |Pairs(t)| < |t|
    ensures FindFree(t, 0) < |t|
  {
    if FindFree(t, 0) == |t| { FullHasAll(t); }
  }

  lemma {:induction false} FullHasAll<K(!new), V(!new)>(t: seq<Entry<K, V>>)
    requires DistinctKeys(t) && forall i :: 0 <= i < |t| ==> t[i].key.Some?
    ensures |Pairs(t)| == |t|
  {
    if t == [] {
      assert Pairs(t) == {};
    } else {
      var n := |t| - 1;
      FullHasAll(t[..n]);
      PairsSnoc(t);
      hide Pairs;
    }
  }

  lemma PairsSnoc<K(!new), V(!new)>(t: seq<Entry<K, V>>)
    requires t != [] && DistinctKeys(t) && t[|t| - 1].key.Some?
    ensures var n := |t| - 1; var last := (t[n].key.value, t[n].value);
      Pairs(t) == Pairs(t[..n]) + {last} && last !in Pairs(t[..n])
  {
    var n := |t| - 1;
    var front, last := t[..n], (t[n].key.value, t[n].value);
    forall p ensures p in Pairs(t) <==> p in Pairs(front) + {last} {
      if p in Pairs(front) {
        var j :| 0 <= j < n && front[j].key.Some? && (front[j].key.value, front[j].value) == p;
        assert t[j] == front[j];
      }
      assert t[n].key.Some? && (t[n].key.value, t[n].value) == last;
      if p in Pairs(t) {
        var j :| 0 <= j < |t| && t[j].key.Some? && (t[j].key.value, t[j].value) == p;
        if j < n { assert front[j] == t[j]; }
      }
    }
  }

  class ArrayMap<K(==), V> {
    const table: array<Entry<K, V>>

    constructor (n: nat, filler: V)
      ensures fresh(table) && table[..] == seq(n, _ => Entry(None, filler))
    {
      table := new Entry<K, V>[n](_ => Entry(None, filler));
    }

    method Get(key: K) returns (v: Option<V>)
      ensures v == Lookup(table[..], key)
    {
      var i := 0;
      while i < table.Length
        invariant 0 <= i <= table.Length
        invariant Find(table[..], key, 0) == Find(table[..], key, i)
      {
        if table[i].key == Some(key) { return Some(table[i].value); }
        i := i + 1;
      }
      return None;
    }

    method Put(key: K, value: V)
      modifies table
      ensures table[..] == Insert(old(table[..]), key, value)
    {
      var i := 0;
      while i < table.Length
        invariant 0 <= i <= table.Length && table[..] == old(table[..])
        invariant FindFree(table[..], 0) == FindFree(table[..], i)
      {
        if table[i].key.None? {
          table[i] := Entry(Some(key), value);
          break;
        }
        i := i + 1;
      }
    }

    method Delete(key: K)
      modifies table
      ensures table[..] == Remove(old(table[..]), key)
    {
      var i := 0;
      while i < table.Length
        invariant 0 <= i <= table.Length && table[..] == old(table[..])
        invariant Find(table[..], key, 0) == Find(table[..], key, i)
      {
        if table[i].key == Some(key) {
          table[i] := table[i].(key := None);
          break;
        }
        i := i + 1;
      }
    }
  }
}

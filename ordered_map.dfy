/** A JavaScript `Map`: key/value entries in insertion order. `set` on a present key
    keeps that entry's position; `set` on a new key appends; `delete` removes the entry. */
module OrderedMap {
  import opened Wrappers
  import opened Seqs

  type OMap<K, V> = seq<(K, V)>

  /** No key occurs twice, as in every JavaScript `Map`. */
  predicate DistinctKeys<K(==), V>(m: OMap<K, V>) {
    forall i, j :: 0 <= i < j < |m| ==> m[i].0 != m[j].0
  }

  predicate HasKey<K(==), V>(m: OMap<K, V>, k: K) {
    exists i :: 0 <= i < |m| && m[i].0 == k
  }

  /** `m.get(k)`: the value of the first entry with key `k`. */
  function Get<K(==), V>(m: OMap<K, V>, k: K): (r: Option<V>)
    ensures r.Some? <==> HasKey(m, k)
  {
    if m == [] then None
    else if m[0].0 == k then Some(m[0].1)
    else
      assert HasKey(m, k) <==> HasKey(m[1..], k) by {
        if HasKey(m[1..], k) {
          var i :| 0 <= i < |m[1..]| && m[1..][i].0 == k;
          assert m[i + 1].0 == k;
        }
        if HasKey(m, k) {
          var i :| 0 <= i < |m| && m[i].0 == k;
          assert m[1..][i - 1].0 == k;
        }
      }
      Get(m[1..], k)
  }

  /** `m.set(k, v)`. */
  function Set<K(==), V>(m: OMap<K, V>, k: K, v: V): OMap<K, V> {
    if m == [] then [(k, v)]
    else if m[0].0 == k then [(k, v)] + m[1..]
    else [m[0]] + Set(m[1..], k, v)
  }

  /** `m.delete(k)`. */
  function Delete<K(==), V>(m: OMap<K, V>, k: K): OMap<K, V> {
    if m == [] then []
    else if m[0].0 == k then Delete(m[1..], k)
    else [m[0]] + Delete(m[1..], k)
  }

  lemma DistinctTail<K, V>(m: OMap<K, V>)
    requires DistinctKeys(m) && m != []
    ensures DistinctKeys(m[1..]) && !HasKey(m[1..], m[0].0)
  {
    forall i, j | 0 <= i < j < |m[1..]| ensures m[1..][i].0 != m[1..][j].0 {
      assert m[1..][i] == m[i + 1] && m[1..][j] == m[j + 1];
    }
  }

  /** In a map with distinct keys, an entry's key finds that entry's value. */
  lemma {:induction false} GetAt<K, V>(m: OMap<K, V>, i: nat)
    requires DistinctKeys(m) && i < |m|
    ensures Get(m, m[i].0) == Some(m[i].1)
  {
    if i > 0 {
      DistinctTail(m);
      assert m[1..][i - 1] == m[i];
      GetAt(m[1..], i - 1);
    }
  }

  /** A value that `get` returns is the value of some entry. */
  lemma {:induction false} GetIsEntry<K, V>(m: OMap<K, V>, k: K)
    requires Get(m, k).Some?
    ensures exists i :: 0 <= i < |m| && m[i] == (k, Get(m, k).value)
  {
    if m[0].0 != k {
      GetIsEntry(m[1..], k);
      var i :| 0 <= i < |m[1..]| && m[1..][i] == (k, Get(m, k).value);
      assert m[i + 1] == m[1..][i];
    }
  }

  /** After `set(k, v)`, `get(k)` is `v` and every other key reads as before. */
  lemma {:induction false} GetSet<K, V>(m: OMap<K, V>, k: K, v: V, k': K)
    ensures Get(Set(m, k, v), k') == if k' == k then Some(v) else Get(m, k')
  {
    if m != [] && m[0].0 != k {
      GetSet(m[1..], k, v, k');
    }
  }

  /** `set` appends a new key and keeps the position of a present one. */
  lemma {:induction false} SetShape<K, V>(m: OMap<K, V>, k: K, v: V)
    ensures !HasKey(m, k) ==> Set(m, k, v) == m + [(k, v)]
    ensures HasKey(m, k) ==> |Set(m, k, v)| == |m| && forall i :: 0 <= i < |m| ==> Set(m, k, v)[i].0 == m[i].0
  {
    if m != [] && m[0].0 != k {
      SetShape(m[1..], k, v);
      assert HasKey(m, k) <==> HasKey(m[1..], k) by {
        assert Get(m, k) == Get(m[1..], k);
      }
      if !HasKey(m, k) {
        assert [m[0]] + (m[1..] + [(k, v)]) == m + [(k, v)];
      }
    }
  }

  /** `set` keeps the keys distinct. */
  lemma {:induction false} SetDistinct<K, V>(m: OMap<K, V>, k: K, v: V)
    requires DistinctKeys(m)
    ensures DistinctKeys(Set(m, k, v))
  {
    if m != [] && m[0].0 != k {
      DistinctTail(m);
      SetDistinct(m[1..], k, v);
      var t := Set(m[1..], k, v);
      forall j | 0 <= j < |t| ensures t[j].0 != m[0].0 {
        if t[j].0 == m[0].0 {
          GetAt(t, j);
          GetSet(m[1..], k, v, m[0].0);
        }
      }
    } else if m != [] {
      DistinctTail(m);
      forall i, j | 0 <= i < j < |m| ensures Set(m, k, v)[i].0 != Set(m, k, v)[j].0 {
        assert Set(m, k, v)[i].0 == m[i].0 && Set(m, k, v)[j].0 == m[j].0;
      }
    }
  }

  /** After `delete(k)`, `get(k)` finds nothing and every other key reads as before. */
  lemma {:induction false} GetDelete<K, V>(m: OMap<K, V>, k: K, k': K)
    ensures Get(Delete(m, k), k') == if k' == k then None else Get(m, k')
  {
    if m != [] {
      GetDelete(m[1..], k, k');
    }
  }

  /** `delete` drops exactly the entries with that key and keeps the others in insertion order. */
  lemma {:induction false} DeleteInOrder<K, V>(m: OMap<K, V>, k: K)
    ensures Delete(m, k) == Filter(m, (e: (K, V)) => e.0 != k)
    ensures SubseqOf(Delete(m, k), m)
  {
    if m != [] {
      DeleteInOrder(m[1..], k);
    }
  }

  /** `delete` of an absent key changes nothing; otherwise it only drops entries. */
  lemma {:induction false} DeleteShape<K, V>(m: OMap<K, V>, k: K)
    ensures !HasKey(m, k) ==> Delete(m, k) == m
    ensures forall i :: 0 <= i < |Delete(m, k)| ==> Delete(m, k)[i] in m
  {
    if m != [] {
      DeleteShape(m[1..], k);
      assert HasKey(m[1..], k) ==> HasKey(m, k) by {
        if HasKey(m[1..], k) {
          var i :| 0 <= i < |m[1..]| && m[1..][i].0 == k;
          assert m[i + 1].0 == k;
        }
      }
    }
  }

  /** `delete` keeps the keys distinct. */
  lemma {:induction false} DeleteDistinct<K, V>(m: OMap<K, V>, k: K)
    requires DistinctKeys(m)
    ensures DistinctKeys(Delete(m, k))
  {
    if m != [] {
      DistinctTail(m);
      DeleteDistinct(m[1..], k);
      if m[0].0 != k {
        var t := Delete(m[1..], k);
        DeleteShape(m[1..], k);
        forall j | 0 <= j < |t| ensures t[j].0 != m[0].0 {
          var i :| 0 <= i < |m[1..]| && m[1..][i] == t[j];
        }
      }
    }
  }

  /** Every entry after `set(k, v)` is an entry from before or the new one. */
  lemma {:induction false} SetEntries<K, V>(m: OMap<K, V>, k: K, v: V)
    ensures forall i :: 0 <= i < |Set(m, k, v)| ==> Set(m, k, v)[i] in m || Set(m, k, v)[i] == (k, v)
  {
    if m != [] && m[0].0 != k {
      SetEntries(m[1..], k, v);
    }
  }
}

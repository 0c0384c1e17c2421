/** Python's insertion-ordered `dict`, as a sequence of (key, value) entries. */
module Dicts {
  import opened Results

  /** No key occurs twice. */
  predicate DistinctKeys<K(==), V>(d: seq<(K, V)>)
  {
    forall i, j :: 0 <= i < j < |d| ==> d[i].0 != d[j].0
  }

  /** `d[k]`, or `None` for a missing key (a `KeyError`). */
  function Lookup<K(==), V>(d: seq<(K, V)>, k: K): (r: Option<V>)
    ensures r.None? <==> forall i :: 0 <= i < |d| ==> d[i].0 != k
    ensures r.Some? ==> exists i :: 0 <= i < |d| && d[i] == (k, r.value)
  {
    if d == [] then None
    else if d[0].0 == k then Some(d[0].1)
    else Lookup(d[1..], k)
  }

  /** `d[k] = v`: overwrite in place when the key exists, else append. */
  function Put<K(==), V>(d: seq<(K, V)>, k: K, v: V): (r: seq<(K, V)>)
  {
    if d == [] then [(k, v)]
    else if d[0].0 == k then [(k, v)] + d[1..]
    else [d[0]] + Put(d[1..], k, v)
  }

  /** `Put` answers the new value for `k` and the old one for every other key. */
  lemma {:induction false} PutLookup<K, V>(d: seq<(K, V)>, k: K, v: V, k': K)
    ensures Lookup(Put(d, k, v), k') == if k' == k then Some(v) else Lookup(d, k')
  {
    if d != [] && d[0].0 != k {
      PutLookup(d[1..], k, v, k');
      assert Put(d, k, v)[1..] == Put(d[1..], k, v);
    }
  }

  /** `Put` keeps keys distinct and grows only for a new key. */
  lemma {:induction false} PutKeys<K, V>(d: seq<(K, V)>, k: K, v: V)
    requires DistinctKeys(d)
    ensures DistinctKeys(Put(d, k, v))
    ensures |Put(d, k, v)| == if Lookup(d, k).None? then |d| + 1 else |d|
  {
    if d != [] {
      var r := Put(d, k, v);
      if d[0].0 == k {
        assert r[1..] == d[1..];
      } else {
        var rest := d[1..];
        assert DistinctKeys(rest) by {
          forall i, j | 0 <= i < j < |rest| ensures rest[i].0 != rest[j].0 {
            assert rest[i] == d[i + 1] && rest[j] == d[j + 1];
          }
        }
        PutKeys(rest, k, v);
        var pr := Put(rest, k, v);
        assert r == [d[0]] + pr;
        assert Lookup(rest, d[0].0).None?;
        forall j | 0 <= j < |pr| ensures pr[j].0 != d[0].0 {
          PutLookup(rest, k, v, d[0].0);
        }
      }
    }
  }

  /** `d.update(entries)`: the entries put one after the other. */
  function PutAll<K(==), V>(d: seq<(K, V)>, entries: seq<(K, V)>): seq<(K, V)>
    decreases |entries|
  {
    if entries == [] then d
    else PutAll(Put(d, entries[0].0, entries[0].1), entries[1..])
  }

  /** Putting keys that are all new, and distinct among themselves, appends
      the entries in order. */
  lemma {:induction false} PutAllFresh<K, V>(d: seq<(K, V)>, entries: seq<(K, V)>)
    requires DistinctKeys(d + entries)
    decreases |entries|
    ensures PutAll(d, entries) == d + entries
  {
    if entries != [] {
      var e := entries[0];
      forall i | 0 <= i < |d| ensures d[i].0 != e.0 {
        assert (d + entries)[i] == d[i] && (d + entries)[|d|] == e;
      }
      PutFresh(d, e.0, e.1);
      assert d + entries == (d + [e]) + entries[1..];
      PutAllFresh(d + [e], entries[1..]);
    }
  }

  /** Putting a key that is not there appends it. */
  lemma {:induction false} PutFresh<K, V>(d: seq<(K, V)>, k: K, v: V)
    requires forall i :: 0 <= i < |d| ==> d[i].0 != k
    ensures Put(d, k, v) == d + [(k, v)]
  {
    if d != [] {
      PutFresh(d[1..], k, v);
      assert [d[0]] + (d[1..] + [(k, v)]) == d + [(k, v)];
    }
  }

  /** One more entry is one more `Put`. */
  lemma {:induction false} PutAllSnoc<K, V>(d: seq<(K, V)>, entries: seq<(K, V)>, e: (K, V))
    ensures PutAll(d, entries + [e]) == Put(PutAll(d, entries), e.0, e.1)
    decreases |entries|
  {
    if entries != [] {
      assert (entries + [e])[1..] == entries[1..] + [e];
      PutAllSnoc(Put(d, entries[0].0, entries[0].1), entries[1..], e);
    }
  }

  /** No key of `a` is a key of `b`. */
  ghost predicate Apart<K, V>(a: seq<(K, V)>, b: seq<(K, V)>)
  {
    forall i, j :: 0 <= i < |a| && 0 <= j < |b| ==> a[i].0 != b[j].0
  }

  lemma ApartAppend<K, V>(a: seq<(K, V)>, b: seq<(K, V)>, c: seq<(K, V)>)
    requires Apart(a, c) && Apart(b, c)
    ensures Apart(a + b, c)
  {
    forall i, j | 0 <= i < |a + b| && 0 <= j < |c| ensures (a + b)[i].0 != c[j].0 {
      if i >= |a| {
        assert (a + b)[i] == b[i - |a|];
      }
    }
  }

  /** Two lists of entries with distinct keys and no key in common join
      into one with distinct keys. */
  lemma DistinctAppend<K, V>(a: seq<(K, V)>, b: seq<(K, V)>)
    requires DistinctKeys(a) && DistinctKeys(b) && Apart(a, b)
    ensures DistinctKeys(a + b)
  {
    var c := a + b;
    forall i, j | 0 <= i < j < |c| ensures c[i].0 != c[j].0 {
      if j < |a| {
        assert c[i] == a[i] && c[j] == a[j];
      } else if i >= |a| {
        assert c[i] == b[i - |a|] && c[j] == b[j - |a|];
      } else {
        assert c[i] == a[i] && c[j] == b[j - |a|];
      }
    }
  }

  lemma DistinctPrefix<K, V>(a: seq<(K, V)>, b: seq<(K, V)>)
    requires DistinctKeys(a + b)
    ensures DistinctKeys(a)
  {
    forall i, j | 0 <= i < j < |a| ensures a[i].0 != a[j].0 {
      assert (a + b)[i] == a[i] && (a + b)[j] == a[j];
    }
  }
}

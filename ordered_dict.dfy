/**
 * Python's `dict` with string keys, which remembers insertion order:
 * a list of key/value pairs. Assigning to an existing key replaces its
 * value in place; assigning to a new key appends it.
 */
module OrderedDict {
  import opened Wrappers

  type Dict<V> = seq<(string, V)>

  /** `list(d.keys())`, in insertion order. */
  function Keys<V>(d: Dict<V>): (ks: seq<string>)
    ensures |ks| == |d|
    ensures forall i :: 0 <= i < |d| ==> ks[i] == d[i].0
  {
    if d == [] then [] else [d[0].0] + Keys(d[1..])
  }

  /** `d.get(k)`: the value stored under `k`, or None. */
  function Get<V>(d: Dict<V>, k: string): Option<V>
  {
    if d == [] then None
    else if d[0].0 == k then Some(d[0].1)
    else Get(d[1..], k)
  }

  /** A found value sits at some index; a missing key is at none. */
  lemma {:induction false} GetIndex<V>(d: Dict<V>, k: string)
    ensures Get(d, k).Some? ==> exists i :: 0 <= i < |d| && d[i] == (k, Get(d, k).value)
    ensures Get(d, k).None? ==> forall i :: 0 <= i < |d| ==> d[i].0 != k
  {
    if d != [] && d[0].0 != k {
      GetIndex(d[1..], k);
      if Get(d, k).Some? {
        var i :| 0 <= i < |d[1..]| && d[1..][i] == (k, Get(d, k).value);
        assert d[i + 1] == d[1..][i];
      } else {
        forall i | 0 <= i < |d|
          ensures d[i].0 != k
        {
          if i > 0 {
            assert d[i] == d[1..][i - 1];
          }
        }
      }
    }
  }

  /** In a dict without repeated keys, each pair is what its key reads. */
  lemma {:induction false} GetDistinct<V>(d: Dict<V>, i: nat)
    requires DistinctKeys(d) && i < |d|
    ensures Get(d, d[i].0) == Some(d[i].1)
  {
    if i > 0 {
      assert d[0].0 != d[i].0;
      assert DistinctKeys(d[1..]);
      assert d[1..][i - 1] == d[i];
      GetDistinct(d[1..], i - 1);
    }
  }

  /** Reading a dict with one more pair at the end: the earlier pairs win. */
  lemma {:induction false} GetSnoc<V>(d: Dict<V>, k: string, v: V, x: string)
    ensures Get(d + [(k, v)], x) == if Get(d, x).Some? then Get(d, x) else if k == x then Some(v) else None
  {
    if d != [] {
      assert (d + [(k, v)])[1..] == d[1..] + [(k, v)];
      GetSnoc(d[1..], k, v, x);
    }
  }

  /** `d[k] = v`. */
  function Put<V>(d: Dict<V>, k: string, v: V): Dict<V>
  {
    if d == [] then [(k, v)]
    else if d[0].0 == k then [(k, v)] + d[1..]
    else [d[0]] + Put(d[1..], k, v)
  }

  /** Every key occurs once, as in any Python dict. */
  ghost predicate DistinctKeys<V>(d: Dict<V>)
  {
    forall i, j :: 0 <= i < j < |d| ==> d[i].0 != d[j].0
  }

  /** A key is found exactly when it is one of the dict's keys. */
  lemma {:induction false} GetFound<V>(d: Dict<V>, k: string)
    ensures Get(d, k).Some? <==> k in Keys(d)
  {
    if d != [] {
      GetFound(d[1..], k);
      assert Keys(d) == [d[0].0] + Keys(d[1..]);
    }
  }

  /** After `d[k] = v`, reading `k` gives `v`. */
  lemma {:induction false} GetPutSame<V>(d: Dict<V>, k: string, v: V)
    ensures Get(Put(d, k, v), k) == Some(v)
  {
    if d != [] && d[0].0 != k {
      GetPutSame(d[1..], k, v);
    }
  }

  /** After `d[k] = v`, every other key reads as before. */
  lemma {:induction false} GetPutOther<V>(d: Dict<V>, k: string, v: V, k': string)
    requires k' != k
    ensures Get(Put(d, k, v), k') == Get(d, k')
  {
    if d != [] && d[0].0 != k {
      GetPutOther(d[1..], k, v, k');
    }
  }

  /** `d[k] = v` keeps the key order; a new key goes last. */
  lemma {:induction false} KeysPut<V>(d: Dict<V>, k: string, v: V)
    ensures Keys(Put(d, k, v)) == if k in Keys(d) then Keys(d) else Keys(d) + [k]
  {
    if d != [] {
      KeysPut(d[1..], k, v);
      assert Keys(d) == [d[0].0] + Keys(d[1..]);
      if d[0].0 != k {
        assert Keys(Put(d, k, v)) == [d[0].0] + Keys(Put(d[1..], k, v));
      } else {
        assert Keys(Put(d, k, v)) == [k] + Keys(d[1..]);
      }
    }
  }

  /** `d[k] = v` never creates a duplicate key. */
  lemma {:induction false} PutKeepsDistinct<V>(d: Dict<V>, k: string, v: V)
    requires DistinctKeys(d)
    ensures DistinctKeys(Put(d, k, v))
  {
    KeysPut(d, k, v);
    var r := Put(d, k, v);
    forall i, j | 0 <= i < j < |r|
      ensures r[i].0 != r[j].0
    {
      var ks := Keys(r);
      assert ks[i] == r[i].0 && ks[j] == r[j].0;
      if k in Keys(d) {
        assert ks == Keys(d);
        assert Keys(d)[i] == d[i].0 && Keys(d)[j] == d[j].0;
      } else if j < |d| {
        assert ks[i] == Keys(d)[i] == d[i].0 && ks[j] == Keys(d)[j] == d[j].0;
      } else {
        assert ks[j] == k && ks[i] == Keys(d)[i];
      }
    }
  }

  /** `d.update(u)`: `u`'s pairs assigned in order. */
  function Update<V>(d: Dict<V>, u: Dict<V>): Dict<V>
    decreases |u|
  {
    if u == [] then d else Update(Put(d, u[0].0, u[0].1), u[1..])
  }

  /** After `d.update(u)`, a key of `u` reads as in `u` and every other key
      reads as in `d`. */
  lemma {:induction false} GetUpdate<V>(d: Dict<V>, u: Dict<V>, k: string)
    requires DistinctKeys(u)
    ensures Get(Update(d, u), k) == if Get(u, k).Some? then Get(u, k) else Get(d, k)
    decreases |u|
  {
    if u != [] {
      var d' := Put(d, u[0].0, u[0].1);
      assert DistinctKeys(u[1..]);
      GetUpdate(d', u[1..], k);
      if k == u[0].0 {
        GetPutSame(d, k, u[0].1);
        GetFound(u[1..], k);
      } else {
        GetPutOther(d, u[0].0, u[0].1, k);
      }
    }
  }

  /** `d.update(u)` never creates a duplicate key. */
  lemma {:induction false} UpdateKeepsDistinct<V>(d: Dict<V>, u: Dict<V>)
    requires DistinctKeys(d)
    ensures DistinctKeys(Update(d, u))
    decreases |u|
  {
    if u != [] {
      PutKeepsDistinct(d, u[0].0, u[0].1);
      UpdateKeepsDistinct(Put(d, u[0].0, u[0].1), u[1..]);
    }
  }

  /** Updating an empty dict with a dict copies it. */
  lemma {:induction false} UpdateOfEmpty<V>(u: Dict<V>)
    requires DistinctKeys(u)
    ensures Update([], u) == u
  {
    UpdateAppends([], u);
  }

  /** Updating with keys that are all new appends them in order. */
  lemma {:induction false} UpdateAppends<V>(d: Dict<V>, u: Dict<V>)
    requires DistinctKeys(u)
    requires forall i, j :: 0 <= i < |d| && 0 <= j < |u| ==> d[i].0 != u[j].0
    ensures Update(d, u) == d + u
    decreases |u|
  {
    if u != [] {
      PutNew(d, u[0].0, u[0].1);
      var d' := d + [u[0]];
      forall i, j | 0 <= i < |d'| && 0 <= j < |u[1..]|
        ensures d'[i].0 != u[1..][j].0
      {
        assert u[1..][j] == u[j + 1];
      }
      UpdateAppends(d', u[1..]);
      assert d' + u[1..] == d + u;
    }
  }

  /** Assigning to a key that is not present appends the pair. */
  lemma {:induction false} PutNew<V>(d: Dict<V>, k: string, v: V)
    requires forall i :: 0 <= i < |d| ==> d[i].0 != k
    ensures Put(d, k, v) == d + [(k, v)]
  {
    if d != [] {
      PutNew(d[1..], k, v);
      assert d == [d[0]] + d[1..];
    }
  }

  /** Every pair of `d[k] = v` is `(k, v)` or a pair of `d`. */
  lemma {:induction false} PutPairs<V>(d: Dict<V>, k: string, v: V)
    ensures forall p :: p in Put(d, k, v) ==> p in d || p == (k, v)
  {
    if d != [] && d[0].0 != k {
      PutPairs(d[1..], k, v);
      assert d == [d[0]] + d[1..];
    }
  }

  /** Every pair of `d.update(u)` is a pair of `d` or of `u`. */
  lemma {:induction false} UpdatePairs<V>(d: Dict<V>, u: Dict<V>)
    ensures forall p :: p in Update(d, u) ==> p in d || p in u
    decreases |u|
  {
    if u != [] {
      PutPairs(d, u[0].0, u[0].1);
      UpdatePairs(Put(d, u[0].0, u[0].1), u[1..]);
      assert u == [u[0]] + u[1..];
    }
  }
}

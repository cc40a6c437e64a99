/**
 * A Python `dict` with string keys, as the sequence of its items in insertion
 * order. Iterating over `.items()` visits the items in this order.
 */
module Dicts {
  import opened Wrappers

  type Dict<V> = seq<(string, V)>

  /** `k in d` */
  predicate HasKey<V>(d: Dict<V>, k: string) {
    exists i :: 0 <= i < |d| && d[i].0 == k
  }

  /** A dict holds each key at most once. */
  ghost predicate DistinctKeys<V>(d: Dict<V>) {
    forall i, j :: 0 <= i < j < |d| ==> d[i].0 != d[j].0
  }

  /** `d.get(k)`: the value stored under `k`, or none. */
  function Get<V>(d: Dict<V>, k: string): (r: Option<V>)
    ensures r.Some? <==> HasKey(d, k)
    ensures r.Some? ==> (k, r.value) in d
  {
    if |d| == 0 then None
    else if d[0].0 == k then Some(d[0].1)
    else
      assert HasKey(d, k) ==> HasKey(d[1..], k) by {
        if HasKey(d, k) {
          var i :| 0 <= i < |d| && d[i].0 == k;
          assert d[1..][i - 1].0 == k;
        }
      }
      Get(d[1..], k)
  }

  /** `k in d` holds of `d` exactly when it holds of `d` without its first item, for another key. */
  lemma HasKeyTail<V>(d: Dict<V>, k: string)
    requires |d| > 0 && d[0].0 != k
    ensures HasKey(d, k) <==> HasKey(d[1..], k)
  {
    if HasKey(d, k) {
      var i :| 0 <= i < |d| && d[i].0 == k;
      assert d[1..][i - 1].0 == k;
    }
    if HasKey(d[1..], k) {
      var i :| 0 <= i < |d[1..]| && d[1..][i].0 == k;
      assert d[i + 1].0 == k;
    }
  }

  /**
   * `d[k] = v`: an existing key keeps its position and takes the new value,
   * a new key is appended at the end.
   */
  function Put<V>(d: Dict<V>, k: string, v: V): (r: Dict<V>)
    ensures Get(r, k) == Some(v)
    ensures forall k' :: k' != k ==> Get(r, k') == Get(d, k')
    ensures forall i :: 0 <= i < |r| ==> r[i] == (k, v) || r[i] in d
    ensures |r| == if HasKey(d, k) then |d| else |d| + 1
  {
    if |d| == 0 then [(k, v)]
    else if d[0].0 == k then [(k, v)] + d[1..]
    else
      HasKeyTail(d, k);
      [d[0]] + Put(d[1..], k, v)
  }

  /** Storing under a key never makes a key appear twice. */
  lemma {:induction false} PutKeepsKeysDistinct<V>(d: Dict<V>, k: string, v: V)
    requires DistinctKeys(d)
    ensures DistinctKeys(Put(d, k, v))
  {
    if |d| > 0 && d[0].0 != k {
      var rest := Put(d[1..], k, v);
      PutKeepsKeysDistinct(d[1..], k, v);
      forall i | 0 <= i < |rest| ensures rest[i].0 != d[0].0 {
        if rest[i] != (k, v) {
          var j :| 0 <= j < |d[1..]| && d[1..][j] == rest[i];
          assert d[j + 1] == rest[i];
        }
      }
      assert Put(d, k, v) == [d[0]] + rest;
    }
  }

  /** A new key is appended at the end. */
  lemma {:induction false} PutAppends<V>(d: Dict<V>, k: string, v: V)
    requires !HasKey(d, k)
    ensures Put(d, k, v) == d + [(k, v)]
  {
    if |d| > 0 {
      assert d[0].0 != k;
      HasKeyTail(d, k);
      PutAppends(d[1..], k, v);
      assert Put(d, k, v) == [d[0]] + (d[1..] + [(k, v)]);
      assert [d[0]] + (d[1..] + [(k, v)]) == ([d[0]] + d[1..]) + [(k, v)];
      assert [d[0]] + d[1..] == d;
    }
  }

  /** In a dict with distinct keys, an existing key keeps its position and takes the new value. */
  lemma {:induction false} PutReplaces<V>(d: Dict<V>, k: string, v: V)
    requires DistinctKeys(d) && HasKey(d, k)
    ensures |Put(d, k, v)| == |d|
    ensures forall i :: 0 <= i < |d| ==> Put(d, k, v)[i] == if d[i].0 == k then (k, v) else d[i]
  {
    var r := Put(d, k, v);
    if d[0].0 == k {
      assert r == [(k, v)] + d[1..];
      forall i | 0 < i < |d| ensures r[i] == d[i] && d[i].0 != k {
        assert d[0].0 != d[i].0;
      }
    } else {
      var tail := d[1..];
      HasKeyTail(d, k);
      assert DistinctKeys(tail) by {
        forall i, j | 0 <= i < j < |tail| ensures tail[i].0 != tail[j].0 {
          assert tail[i] == d[i + 1] && tail[j] == d[j + 1];
        }
      }
      PutReplaces(tail, k, v);
      assert r == [d[0]] + Put(tail, k, v);
      forall i | 0 < i < |d| ensures r[i] == if d[i].0 == k then (k, v) else d[i] {
        assert tail[i - 1] == d[i];
      }
    }
  }
}

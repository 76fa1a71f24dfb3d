/**
 * Plain JavaScript objects as ordered lists of entries with distinct keys, in the order
 * `Object.entries` reports them.
 */
module JsObjects {
  import opened Wrappers

  type Entries<V> = seq<(string, V)>

  predicate DistinctKeys<V>(o: Entries<V>) {
    forall i, j :: 0 <= i < j < |o| ==> o[i].0 != o[j].0
  }

  function Keys<V>(o: Entries<V>): (ks: seq<string>)
    ensures |ks| == |o|
    ensures forall i :: 0 <= i < |o| ==> ks[i] == o[i].0
  {
    if o == [] then [] else [o[0].0] + Keys(o[1..])
  }

  /** `o[k]`: the value stored under `k`, if any. */
  function Get<V>(o: Entries<V>, k: string): (r: Option<V>)
    ensures r.None? <==> forall i :: 0 <= i < |o| ==> o[i].0 != k
    ensures r.Some? ==> (k, r.value) in o
  {
    if o == [] then None else if o[0].0 == k then Some(o[0].1) else Get(o[1..], k)
  }

  /**
   * `o[k] = v`: an existing key keeps its position and takes the new value; a new key is
   * appended at the end.
   */
  function Set<V>(o: Entries<V>, k: string, v: V): (r: Entries<V>)
    ensures Get(o, k).None? ==> r == o + [(k, v)]
    ensures Get(o, k).Some? ==> |r| == |o|
  {
    if o == [] then [(k, v)]
    else if o[0].0 == k then [(k, v)] + o[1..]
    else [o[0]] + Set(o[1..], k, v)
  }

  /** After `o[k] = v`, `k` holds `v` and every other key holds what it held before. */
  lemma {:induction false} SetGet<V>(o: Entries<V>, k: string, v: V, k': string)
    ensures Get(Set(o, k, v), k') == if k' == k then Some(v) else Get(o, k')
  {
    if o != [] && o[0].0 != k {
      SetGet(o[1..], k, v, k');
      assert Set(o, k, v)[1..] == Set(o[1..], k, v);
    }
  }

  /** Every entry after `o[k] = v` is the new one or an entry `o` already had. */
  lemma {:induction false} SetEntries<V>(o: Entries<V>, k: string, v: V)
    ensures forall e :: e in Set(o, k, v) ==> e == (k, v) || e in o
  {
    if o != [] && o[0].0 != k {
      SetEntries(o[1..], k, v);
      assert forall e :: e in o[1..] ==> e in o;
    }
  }

  /** An existing key is updated in place: the keys and their order are unchanged. */
  lemma {:induction false} SetKeepsKeys<V>(o: Entries<V>, k: string, v: V)
    requires Get(o, k).Some?
    ensures Keys(Set(o, k, v)) == Keys(o)
  {
    if o[0].0 != k {
      SetKeepsKeys(o[1..], k, v);
      assert Set(o, k, v)[1..] == Set(o[1..], k, v);
    }
  }

  lemma {:induction false} SetDistinct<V>(o: Entries<V>, k: string, v: V)
    requires DistinctKeys(o)
    ensures DistinctKeys(Set(o, k, v))
  {
    if o != [] && o[0].0 != k {
      SetDistinct(o[1..], k, v);
      var tail := Set(o[1..], k, v);
      forall i | 0 <= i < |tail| ensures tail[i].0 != o[0].0 {
        NotHeadKey(o, k, v, tail[i]);
      }
      ConsDistinct(o[0], tail);
    }
  }

  /** Setting a key other than the first leaves the rest without the first key. */
  lemma NotHeadKey<V>(o: Entries<V>, k: string, v: V, e: (string, V))
    requires DistinctKeys(o) && o != [] && o[0].0 != k && e in Set(o[1..], k, v)
    ensures e.0 != o[0].0
  {
    SetEntries(o[1..], k, v);
    if e != (k, v) {
      var j :| 0 <= j < |o[1..]| && o[1..][j] == e;
      assert o[j + 1] == e;
    }
  }

  lemma ConsDistinct<V>(h: (string, V), tail: Entries<V>)
    requires DistinctKeys(tail) && forall i :: 0 <= i < |tail| ==> tail[i].0 != h.0
    ensures DistinctKeys([h] + tail)
  {
    var r := [h] + tail;
    forall i, j | 0 <= i < j < |r| ensures r[i].0 != r[j].0 {
      assert r[j] == tail[j - 1];
      if i > 0 {
        assert r[i] == tail[i - 1];
      }
    }
  }

  /** `{ ...a, ...b }`: the entries of `b` assigned, in order, onto a copy of `a`. */
  function Spread<V>(a: Entries<V>, b: Entries<V>): (r: Entries<V>)
    decreases |b|
  {
    if b == [] then a else Spread(Set(a, b[0].0, b[0].1), b[1..])
  }

  /** What a spread holds under each key: `b`'s value when `b` has the key, otherwise `a`'s. */
  lemma {:induction false} SpreadGet<V>(a: Entries<V>, b: Entries<V>, k: string)
    requires DistinctKeys(b)
    ensures Get(Spread(a, b), k) == if Get(b, k).Some? then Get(b, k) else Get(a, k)
    decreases |b|
  {
    if b != [] {
      SpreadGet(Set(a, b[0].0, b[0].1), b[1..], k);
      SetGet(a, b[0].0, b[0].1, k);
      if b[0].0 == k {
        assert forall i :: 0 <= i < |b[1..]| ==> b[1..][i].0 != k by {
          forall i | 0 <= i < |b[1..]| ensures b[1..][i].0 != k { assert b[i + 1] == b[1..][i]; }
        }
      }
    }
  }

  /** Spreading onto distinct keys keeps the keys distinct. */
  lemma {:induction false} SpreadDistinct<V>(a: Entries<V>, b: Entries<V>)
    requires DistinctKeys(a)
    ensures DistinctKeys(Spread(a, b))
    decreases |b|
  {
    if b != [] {
      SetDistinct(a, b[0].0, b[0].1);
      SpreadDistinct(Set(a, b[0].0, b[0].1), b[1..]);
    }
  }

  /** The total weight of the values, taken in order. */
  function Weight<V>(o: Entries<V>, w: V -> nat): nat {
    if o == [] then 0 else Weight(o[..|o| - 1], w) + w(o[|o| - 1].1)
  }

  lemma {:induction false} WeightAppend<V>(a: Entries<V>, b: Entries<V>, w: V -> nat)
    ensures Weight(a + b, w) == Weight(a, w) + Weight(b, w)
    decreases |b|
  {
    if b == [] {
      assert a + b == a;
    } else {
      assert (a + b)[..|a + b| - 1] == a + b[..|b| - 1];
      WeightAppend(a, b[..|b| - 1], w);
    }
  }

  /**
   * `o[k] = v` trades the weight of `k`'s old value, if it had one, for the weight of `v`;
   * every other entry keeps its weight.
   */
  lemma {:induction false} SetWeight<V>(o: Entries<V>, k: string, v: V, w: V -> nat)
    ensures Weight(Set(o, k, v), w) + (if Get(o, k).Some? then w(Get(o, k).value) else 0)
         == Weight(o, w) + w(v)
  {
    if o != [] {
      assert o == [o[0]] + o[1..];
      WeightAppend([o[0]], o[1..], w);
      assert Weight([o[0]], w) == w(o[0].1) by { assert [o[0]][..0] == []; }
      if o[0].0 == k {
        WeightAppend([(k, v)], o[1..], w);
        assert Weight([(k, v)], w) == w(v) by { assert [(k, v)][..0] == []; }
      } else {
        SetWeight(o[1..], k, v, w);
        WeightAppend([o[0]], Set(o[1..], k, v), w);
      }
    } else {
      assert Weight([(k, v)], w) == w(v) by { assert [(k, v)][..0] == []; }
    }
  }
}

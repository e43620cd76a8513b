/** Ordered string-keyed association lists: the model of a JavaScript object
    or `Map` whose iteration order is insertion order. */
module AssocList {
  import opened Wrappers

  type Assoc<V> = seq<(string, V)>

  /** The keys, in iteration order (`Object.keys`, `Map.prototype.keys`). */
  function Keys<V>(m: Assoc<V>): (ks: seq<string>)
    ensures |ks| == |m|
    ensures forall i :: 0 <= i < |m| ==> ks[i] == m[i].0
  {
    if |m| == 0 then [] else [m[0].0] + Keys(m[1..])
  }

  /** No key occurs twice, as in every JavaScript object and `Map`. */
  predicate UniqueKeys<V>(m: Assoc<V>) {
    forall i, j :: 0 <= i < j < |m| ==> m[i].0 != m[j].0
  }

  /** The value stored under `k` (`Map.prototype.get`, `obj[k]`), `None` when
      `k` is absent (`Map.prototype.has` is `Lookup(m, k).Some?`). */
  function Lookup<V>(m: Assoc<V>, k: string): (r: Option<V>)
    ensures r.None? <==> k !in Keys(m)
    ensures r.Some? ==> (k, r.value) in m
  {
    if |m| == 0 then None
    else if m[0].0 == k then Some(m[0].1)
    else Lookup(m[1..], k)
  }

  /** `obj[k] = v`: overwrites the value of an existing key in place and
      appends a new key at the end. */
  function Put<V>(m: Assoc<V>, k: string, v: V): (r: Assoc<V>)
    ensures k in Keys(m) ==> Keys(r) == Keys(m)
    ensures k !in Keys(m) ==> Keys(r) == Keys(m) + [k]
  {
    if |m| == 0 then [(k, v)]
    else if m[0].0 == k then [(k, v)] + m[1..]
    else [m[0]] + Put(m[1..], k, v)
  }

  /** After `obj[k] = v`, `k` reads `v` and every other key reads as before. */
  lemma {:induction false} PutLookup<V>(m: Assoc<V>, k: string, v: V, j: string)
    ensures Lookup(Put(m, k, v), j) == if j == k then Some(v) else Lookup(m, j)
  {
    if |m| > 0 && m[0].0 != k {
      PutLookup(m[1..], k, v, j);
    }
  }

  /** Keys that are unique stay unique under `obj[k] = v`. */
  lemma PutUnique<V>(m: Assoc<V>, k: string, v: V)
    requires UniqueKeys(m)
    ensures UniqueKeys(Put(m, k, v))
  {
    var r := Put(m, k, v);
    assert Keys(r) == Keys(m) || Keys(r) == Keys(m) + [k];
    forall i, j | 0 <= i < j < |r| ensures r[i].0 != r[j].0 {
      assert Keys(r)[i] == r[i].0 && Keys(r)[j] == r[j].0;
    }
  }

  /** Object spread `{ ...a, ...b }`: every entry of `b`, in order, is put
      over `a`. */
  function Merge<V>(a: Assoc<V>, b: Assoc<V>): (r: Assoc<V>)
    ensures |a| <= |r| && Keys(r)[..|a|] == Keys(a)
    decreases |b|
  {
    if |b| == 0 then a else Merge(Put(a, b[0].0, b[0].1), b[1..])
  }

  /** Lookup in a spread `{ ...a, ...b }`: a key of `b` takes its value from
      `b`, every other key keeps its value from `a`. */
  lemma {:induction false} MergeLookup<V>(a: Assoc<V>, b: Assoc<V>, k: string)
    requires UniqueKeys(b)
    ensures Lookup(Merge(a, b), k) == if k in Keys(b) then Lookup(b, k) else Lookup(a, k)
    decreases |b|
  {
    if |b| > 0 {
      var a' := Put(a, b[0].0, b[0].1);
      assert UniqueKeys(b[1..]);
      MergeLookup(a', b[1..], k);
      PutLookup(a, b[0].0, b[0].1, k);
      assert Keys(b) == [b[0].0] + Keys(b[1..]);
      if k == b[0].0 {
        assert k !in Keys(b[1..]) by {
          forall i | 0 <= i < |b[1..]| ensures Keys(b[1..])[i] != k {
            assert b[1..][i] == b[i + 1];
          }
        }
      }
    }
  }

  /** A spread of two objects is again an object: its keys are unique. */
  lemma {:induction false} MergeUnique<V>(a: Assoc<V>, b: Assoc<V>)
    requires UniqueKeys(a)
    ensures UniqueKeys(Merge(a, b))
    decreases |b|
  {
    if |b| > 0 {
      PutUnique(a, b[0].0, b[0].1);
      MergeUnique(Put(a, b[0].0, b[0].1), b[1..]);
    }
  }
}

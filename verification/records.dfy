/** Plain JavaScript objects (`Record<string, V>`), as the ordered list of
    their own enumerable entries — the list `Object.entries` returns.

    A real object never holds a key twice; the lemmas that depend on this
    take `UniqueKeys` as a hypothesis, and the operations preserve it.
 */
module Records {
  import opened Wrappers

  type Record<V> = seq<(string, V)>

  /** `Object.keys(r)`, in insertion order. */
  function Keys<V>(r: Record<V>): (ks: seq<string>)
    ensures |ks| == |r|
  {
    if |r| == 0 then [] else [r[0].0] + Keys(r[1..])
  }

  predicate Distinct(ks: seq<string>) {
    forall i, j :: 0 <= i < j < |ks| ==> ks[i] != ks[j]
  }

  /** Every well-formed JavaScript object satisfies this. */
  predicate UniqueKeys<V>(r: Record<V>) {
    Distinct(Keys(r))
  }

  /** `r[k]`: the value stored under `k`, or `undefined`. */
  function Get<V>(r: Record<V>, k: string): (v: Option<V>)
    ensures v.Some? <==> k in Keys(r)
    ensures v.Some? ==> (k, v.value) in r
  {
    if |r| == 0 then None
    else if r[0].0 == k then Some(r[0].1)
    else Get(r[1..], k)
  }

  /** `r[k] = v`: overwrites an existing key in place, otherwise appends. */
  function Assign<V>(r: Record<V>, k: string, v: V): (r': Record<V>)
    ensures k in Keys(r) ==> Keys(r') == Keys(r)
    ensures k !in Keys(r) ==> Keys(r') == Keys(r) + [k]
    ensures Get(r', k) == Some(v)
    ensures forall k' :: k' != k ==> Get(r', k') == Get(r, k')
  {
    if |r| == 0 then [(k, v)]
    else if r[0].0 == k then
      var r' := [(k, v)] + r[1..];
      assert r'[1..] == r[1..];
      r'
    else
      var tail := Assign(r[1..], k, v);
      var r' := [r[0]] + tail;
      assert r'[1..] == tail;
      r'
  }

  /** `{...a, ...b}`: the entries of `b`, in order, assigned onto a copy of `a`. */
  function Spread<V>(a: Record<V>, b: Record<V>): Record<V>
    decreases |b|
  {
    if |b| == 0 then a else Spread(Assign(a, b[0].0, b[0].1), b[1..])
  }

  /** Values derived entry by entry from their key and value, keys and
      order unchanged. */
  function MapValues<V, W>(r: Record<V>, f: (string, V) -> W): (r': Record<W>)
    ensures Keys(r') == Keys(r)
    ensures forall i :: 0 <= i < |r| ==> r'[i] == (r[i].0, f(r[i].0, r[i].1))
  {
    if |r| == 0 then [] else [(r[0].0, f(r[0].0, r[0].1))] + MapValues(r[1..], f)
  }

  lemma {:induction false} DistinctTail(ks: seq<string>)
    requires |ks| > 0 && Distinct(ks)
    ensures Distinct(ks[1..]) && ks[0] !in ks[1..]
  {
    forall i, j | 0 <= i < j < |ks[1..]|
      ensures ks[1..][i] != ks[1..][j]
    {
      assert ks[1..][i] == ks[i + 1] && ks[1..][j] == ks[j + 1];
    }
    forall j | 0 <= j < |ks[1..]|
      ensures ks[1..][j] != ks[0]
    {
      assert ks[1..][j] == ks[j + 1];
    }
  }

  lemma {:induction false} AssignKeepsUnique<V>(r: Record<V>, k: string, v: V)
    requires UniqueKeys(r)
    ensures UniqueKeys(Assign(r, k, v))
  {
    var ks := Keys(r);
    if k !in ks {
      var ks' := ks + [k];
      forall i, j | 0 <= i < j < |ks'|
        ensures ks'[i] != ks'[j]
      {
        if j == |ks| {
          assert ks'[i] == ks[i];
        }
      }
    }
  }

  /** The lookup rule of `{...a, ...b}`: `b` wins on a shared key, and every
      other key keeps the value it had in `a`. */
  lemma {:induction false} SpreadGet<V>(a: Record<V>, b: Record<V>, k: string)
    requires UniqueKeys(b)
    ensures Get(Spread(a, b), k) == if k in Keys(b) then Get(b, k) else Get(a, k)
    decreases |b|
  {
    if |b| > 0 {
      var a' := Assign(a, b[0].0, b[0].1);
      DistinctTail(Keys(b));
      assert Keys(b[1..]) == Keys(b)[1..];
      SpreadGet(a', b[1..], k);
    }
  }

  /** `{...a, ...b}` keeps the keys of `a` first, in their order, and is a
      well-formed object whenever `a` is. */
  lemma {:induction false} SpreadKeys<V>(a: Record<V>, b: Record<V>)
    requires UniqueKeys(a)
    ensures UniqueKeys(Spread(a, b))
    ensures Keys(a) <= Keys(Spread(a, b))
    ensures forall k :: k in Keys(Spread(a, b)) <==> k in Keys(a) || k in Keys(b)
    decreases |b|
  {
    if |b| > 0 {
      var a' := Assign(a, b[0].0, b[0].1);
      AssignKeepsUnique(a, b[0].0, b[0].1);
      SpreadKeys(a', b[1..]);
      assert Keys(b) == [b[0].0] + Keys(b[1..]);
    }
  }

  /** Spreading an object into `{}` copies it entry for entry. */
  lemma {:induction false} SpreadIntoEmpty<V>(b: Record<V>)
    requires UniqueKeys(b)
    ensures Spread([], b) == b
  {
    var empty: Record<V> := [];
    assert empty + b == b;
    SpreadCopies(empty, b);
  }

  lemma {:induction false} SpreadCopies<V>(a: Record<V>, b: Record<V>)
    requires UniqueKeys(a + b)
    ensures Spread(a, b) == a + b
    decreases |b|
  {
    if |b| > 0 {
      FirstKeyFresh(a, b);
      var a' := Assign(a, b[0].0, b[0].1);
      AppendAssign(a, b[0].0, b[0].1);
      assert a' + b[1..] == a + b;
      SpreadCopies(a', b[1..]);
    }
  }

  /** In a well-formed `a + b`, the first key of `b` is not a key of `a`. */
  lemma {:induction false} FirstKeyFresh<V>(a: Record<V>, b: Record<V>)
    requires |b| > 0 && UniqueKeys(a + b)
    ensures b[0].0 !in Keys(a)
  {
    var ks := Keys(a + b);
    KeysAppend(a, b);
    KeysIndex(b, 0);
    assert ks[|a|] == b[0].0;
    forall i | 0 <= i < |Keys(a)| ensures Keys(a)[i] != b[0].0 {
      assert Keys(a)[i] == ks[i];
    }
  }

  lemma {:induction false} KeysAppend<V>(a: Record<V>, b: Record<V>)
    ensures Keys(a + b) == Keys(a) + Keys(b)
    decreases |a|
  {
    if |a| == 0 {
      assert a + b == b;
    } else {
      assert (a + b)[1..] == a[1..] + b;
      KeysAppend(a[1..], b);
    }
  }

  lemma {:induction false} KeysIndex<V>(r: Record<V>, i: nat)
    requires i < |r|
    ensures Keys(r)[i] == r[i].0
    decreases i
  {
    if i > 0 {
      KeysIndex(r[1..], i - 1);
    }
  }

  lemma {:induction false} AppendAssign<V>(a: Record<V>, k: string, v: V)
    requires k !in Keys(a)
    ensures Assign(a, k, v) == a + [(k, v)]
    decreases |a|
  {
    if |a| > 0 {
      assert Keys(a)[0] == a[0].0;
      assert k !in Keys(a[1..]) by {
        assert Keys(a) == [a[0].0] + Keys(a[1..]);
      }
      AppendAssign(a[1..], k, v);
      assert a == [a[0]] + a[1..];
    }
  }

  /** Looking a key up in a mapped object is mapping the looked-up value. */
  lemma {:induction false} GetMapValues<V, W>(r: Record<V>, f: (string, V) -> W, k: string)
    ensures Get(MapValues(r, f), k) == if Get(r, k).Some? then Some(f(k, Get(r, k).value)) else None
    decreases |r|
  {
    if |r| > 0 {
      var m := MapValues(r, f);
      assert m[0] == (r[0].0, f(r[0].0, r[0].1));
      assert m[1..] == MapValues(r[1..], f);
      GetMapValues(r[1..], f, k);
    }
  }

  /** Assigning a key the value it already holds changes nothing. */
  lemma {:induction false} AssignSame<V>(r: Record<V>, k: string)
    requires k in Keys(r)
    ensures Assign(r, k, Get(r, k).value) == r
    decreases |r|
  {
    if r[0].0 != k {
      assert k in Keys(r[1..]) by { assert Keys(r) == [r[0].0] + Keys(r[1..]); }
      AssignSame(r[1..], k);
      assert r == [r[0]] + r[1..];
    } else {
      assert r == [r[0]] + r[1..];
    }
  }
}

/** `removeUndefinedProps`: drops the entries of an object whose value is
    `undefined`, keeping the others, in order. A value slot that may hold
    `undefined` is an `Option`, with `None` standing for `undefined`. */
module UndefinedProps {
  import opened Wrappers
  import opened Records

  /** The entries whose value is defined, rebuilt into an object. */
  function RemoveUndefined<T(!new)>(r: Record<Option<T>>): (r': Record<T>)
    ensures |r'| <= |r|
    ensures forall k, v :: (k, v) in r' <==> (k, Some(v)) in r
    decreases |r|
  {
    if |r| == 0 then []
    else
      var rest := RemoveUndefined(r[1..]);
      assert forall e :: e in r[1..] ==> e in r;
      assert forall e :: e in r && e != r[0] ==> e in r[1..];
      match r[0].1
      case None => rest
      case Some(v) => [(r[0].0, v)] + rest
  }

  /** Dropping distributes over concatenation, so the kept entries stay in
      the order they had; with the one-entry cases this pins the result down
      entry by entry. */
  lemma {:induction false} RemoveUndefinedAppend<T(!new)>(a: Record<Option<T>>, b: Record<Option<T>>)
    ensures RemoveUndefined(a + b) == RemoveUndefined(a) + RemoveUndefined(b)
    decreases |a|
  {
    if |a| == 0 {
      assert a + b == b;
    } else {
      assert (a + b)[0] == a[0];
      assert (a + b)[1..] == a[1..] + b;
      RemoveUndefinedAppend(a[1..], b);
    }
  }

  /** A single entry is kept, unwrapped, iff its value is defined. */
  lemma RemoveUndefinedSingle<T(!new)>(k: string, v: Option<T>)
    ensures RemoveUndefined([(k, v)]) == if v.Some? then [(k, v.value)] else []
  {
    assert [(k, v)][1..] == [];
  }

  /** Every value of an object that holds no `undefined`, marked as defined. */
  function Defined<T>(r: Record<T>): (r': Record<Option<T>>)
    ensures Keys(r') == Keys(r)
    ensures forall i :: 0 <= i < |r| ==> r'[i] == (r[i].0, Some(r[i].1))
  {
    MapValues(r, (_, v) => Some(v))
  }

  /** The keys that survive are exactly the keys holding a defined value. */
  lemma {:induction false} RemoveUndefinedKeys<T(!new)>(r: Record<Option<T>>)
    ensures forall k :: k in Keys(RemoveUndefined(r)) <==> exists v :: (k, Some(v)) in r
    decreases |r|
  {
    forall k ensures k in Keys(RemoveUndefined(r)) <==> exists v :: (k, Some(v)) in r {
      KeyIn(RemoveUndefined(r), k);
    }
  }

  lemma KeyIn<V>(r: Record<V>, k: string)
    ensures k in Keys(r) <==> exists v :: (k, v) in r
  {
    if k in Keys(r) {
      assert (k, Get(r, k).value) in r;
    }
    if exists v :: (k, v) in r {
      var v :| (k, v) in r;
      var i :| 0 <= i < |r| && r[i] == (k, v);
      KeysIndex(r, i);
    }
  }

  /** On a well-formed object a lookup in the result is the lookup in the
      input, with `undefined` read as "absent". */
  lemma {:induction false} RemoveUndefinedGet<T(!new)>(r: Record<Option<T>>, k: string)
    requires UniqueKeys(r)
    ensures UniqueKeys(RemoveUndefined(r))
    ensures Get(RemoveUndefined(r), k) == if Get(r, k).Some? && Get(r, k).value.Some? then Some(Get(r, k).value.value) else None
    decreases |r|
  {
    if |r| > 0 {
      DistinctTail(Keys(r));
      assert Keys(r[1..]) == Keys(r)[1..];
      RemoveUndefinedGet(r[1..], k);
      var rest := RemoveUndefined(r[1..]);
      if r[0].1.Some? {
        assert r[0].0 !in Keys(rest) by {
          KeyIn(rest, r[0].0);
          if exists v :: (r[0].0, v) in rest {
            var v :| (r[0].0, v) in rest;
            assert (r[0].0, Some(v)) in r[1..];
            KeyIn(r[1..], r[0].0);
          }
        }
        var out := [(r[0].0, r[0].1.value)] + rest;
        assert out[1..] == rest;
        assert Keys(out) == [r[0].0] + Keys(rest);
      }
    }
  }

  /** An object without `undefined` values passes through unchanged ... */
  lemma {:induction false} RemoveUndefinedOfDefined<T(!new)>(r: Record<T>)
    ensures RemoveUndefined(Defined(r)) == r
    decreases |r|
  {
    if |r| > 0 {
      var d := Defined(r);
      assert d[1..] == Defined(r[1..]) by {
        assert forall i :: 0 <= i < |r[1..]| ==> d[1..][i] == (r[1..][i].0, Some(r[1..][i].1));
      }
      RemoveUndefinedOfDefined(r[1..]);
      assert r == [r[0]] + r[1..];
    }
  }

  /** ... so removing twice is removing once. */
  lemma RemoveUndefinedIdempotent<T(!new)>(r: Record<Option<T>>)
    ensures RemoveUndefined(Defined(RemoveUndefined(r))) == RemoveUndefined(r)
  {
    RemoveUndefinedOfDefined(RemoveUndefined(r));
  }
}

module Wrappers {
  datatype Option<+T> = None | Some(value: T)

  datatype Result<+T, +E> = Ok(value: T) | Err(error: E)
}

/**
 * JavaScript plain objects as ordered records: a list of `(key, value)` entries
 * in property-creation order, which is the order `Object.entries` reports and
 * the order in which the prompt composer substitutes values.
 */
module Entries {
  import opened Wrappers

  function Keys<V>(e: seq<(string, V)>): (ks: seq<string>)
    ensures |ks| == |e| && forall i :: 0 <= i < |e| ==> ks[i] == e[i].0
  {
    seq(|e|, i requires 0 <= i < |e| => e[i].0)
  }

  /** A JavaScript object never holds two properties with the same name. */
  predicate DistinctKeys<V>(e: seq<(string, V)>) {
    forall i, j :: 0 <= i < j < |e| ==> e[i].0 != e[j].0
  }

  /** `obj[k]`, with `undefined` as `None`; a repeated key reads the last entry, as `JSON.parse` does. */
  function Lookup<V>(e: seq<(string, V)>, k: string): (r: Option<V>)
    ensures r.None? <==> forall i :: 0 <= i < |e| ==> e[i].0 != k
    ensures r.Some? ==> exists i :: 0 <= i < |e| && e[i] == (k, r.value)
  {
    if |e| == 0 then None
    else
      var later := Lookup(e[1..], k);
      if later.Some? then later
      else if e[0].0 == k then Some(e[0].1)
      else None
  }

  lemma LookupDistinct<V>(e: seq<(string, V)>, i: int)
    requires DistinctKeys(e) && 0 <= i < |e|
    ensures Lookup(e, e[i].0) == Some(e[i].1)
  {
  }

  /** The position of key `k`, or `|e|` when it is absent. */
  function IndexOf<V>(e: seq<(string, V)>, k: string): (i: nat)
    ensures i <= |e|
    ensures i < |e| ==> e[i].0 == k
    ensures forall j :: 0 <= j < i ==> e[j].0 != k
  {
    if |e| == 0 then 0
    else if e[0].0 == k then 0
    else 1 + IndexOf(e[1..], k)
  }

  /**
   * `obj[k] = v`: an existing property keeps its place and takes the new value;
   * a new one is added at the end.
   */
  function Set<V>(e: seq<(string, V)>, k: string, v: V): (r: seq<(string, V)>)
    requires DistinctKeys(e)
    ensures DistinctKeys(r)
    ensures Lookup(r, k) == Some(v)
    ensures forall k' :: k' != k ==> Lookup(r, k') == Lookup(e, k')
    ensures Keys(r) == if IndexOf(e, k) < |e| then Keys(e) else Keys(e) + [k]
    ensures forall p :: p in r ==> p in e || p == (k, v)
  {
    var i := IndexOf(e, k);
    var r := if i < |e| then e[i := (k, v)] else e + [(k, v)];
    SetLayout(e, k, v, r);
    SetKeys(e, k, v, r);
    SetLookups(e, k, v, r);
    r
  }

  // The entry list after `obj[k] = v`, entry by entry.
  lemma SetLayout<V>(e: seq<(string, V)>, k: string, v: V, r: seq<(string, V)>)
    requires r == if IndexOf(e, k) < |e| then e[IndexOf(e, k) := (k, v)] else e + [(k, v)]
    ensures var i := IndexOf(e, k);
            && i < |r| && r[i] == (k, v) && |r| == (if i < |e| then |e| else |e| + 1)
            && forall j :: 0 <= j < |r| && j != i ==> j < |e| && r[j] == e[j]
  {
  }

  lemma SetKeys<V>(e: seq<(string, V)>, k: string, v: V, r: seq<(string, V)>)
    requires DistinctKeys(e)
    requires r == if IndexOf(e, k) < |e| then e[IndexOf(e, k) := (k, v)] else e + [(k, v)]
    ensures DistinctKeys(r)
    ensures Keys(r) == if IndexOf(e, k) < |e| then Keys(e) else Keys(e) + [k]
    ensures forall p :: p in r ==> p in e || p == (k, v)
  {
    SetLayout(e, k, v, r);
  }

  lemma SetLookups<V>(e: seq<(string, V)>, k: string, v: V, r: seq<(string, V)>)
    requires DistinctKeys(e)
    requires r == if IndexOf(e, k) < |e| then e[IndexOf(e, k) := (k, v)] else e + [(k, v)]
    ensures Lookup(r, k) == Some(v)
    ensures forall k' :: k' != k ==> Lookup(r, k') == Lookup(e, k')
  {
    SetLayout(e, k, v, r);
    SetKeys(e, k, v, r);
    var i := IndexOf(e, k);
    forall k' | k' != k
      ensures Lookup(r, k') == Lookup(e, k')
    {
      if Lookup(e, k').Some? {
        var j :| 0 <= j < |e| && e[j] == (k', Lookup(e, k').value);
        LookupDistinct(e, j);
        LookupDistinct(r, j);
      }
    }
    LookupDistinct(r, i);
  }

  /**
   * `{ ...target, ...source }`: the properties of `source`, in order, written over
   * a copy of `target`.
   */
  function Assign<V>(target: seq<(string, V)>, source: seq<(string, V)>): (r: seq<(string, V)>)
    requires DistinctKeys(target)
    ensures DistinctKeys(r)
    ensures forall p :: p in r ==> p in target || p in source
    decreases |source|
  {
    if |source| == 0 then target
    else Assign(Set(target, source[0].0, source[0].1), source[1..])
  }

  /** After a spread, a key reads from `source` when `source` has it and from `target` otherwise. */
  lemma {:induction false} AssignLookup<V>(target: seq<(string, V)>, source: seq<(string, V)>, k: string)
    requires DistinctKeys(target)
    ensures Lookup(Assign(target, source), k) ==
            if Lookup(source, k).Some? then Lookup(source, k) else Lookup(target, k)
    decreases |source|
  {
    if |source| > 0 {
      AssignLookup(Set(target, source[0].0, source[0].1), source[1..], k);
    }
  }

  /** A spread never moves the properties `target` already has: they stay first, in their order. */
  lemma {:induction false} AssignKeepsOrder<V>(target: seq<(string, V)>, source: seq<(string, V)>)
    requires DistinctKeys(target)
    ensures |Keys(target)| <= |Keys(Assign(target, source))|
    ensures Keys(Assign(target, source))[..|target|] == Keys(target)
    decreases |source|
  {
    if |source| > 0 {
      var t' := Set(target, source[0].0, source[0].1);
      AssignKeepsOrder(t', source[1..]);
      assert Keys(t')[..|target|] == Keys(target);
    }
  }
}

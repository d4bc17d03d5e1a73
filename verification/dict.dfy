/**
 * A Python `dict` from `str` to `float` as the calculator uses it: an
 * insertion-ordered list of entries, read with `key in d`, `d[key]` and
 * by iterating its keys in order.
 */
module Dict {
  import opened Wrappers

  type Table = seq<(string, real)>

  /** The keys in insertion order, as iterating the dict yields them. */
  function Keys(t: Table): (ks: seq<string>)
    ensures |ks| == |t|
    ensures forall i :: 0 <= i < |t| ==> ks[i] == t[i].0
  {
    if t == [] then [] else [t[0].0] + Keys(t[1..])
  }

  /** A dict never holds a key twice. */
  predicate DistinctKeys(t: Table) {
    forall i, j :: 0 <= i < j < |t| ==> t[i].0 != t[j].0
  }

  /** `d[key]` when `key in d`, and None where Python raises KeyError. */
  function Get(t: Table, key: string): (r: Option<real>)
    ensures r.None? <==> key !in Keys(t)
    ensures r.Some? ==> (key, r.value) in t
  {
    if t == [] then None
    else if t[0].0 == key then Some(t[0].1)
    else Get(t[1..], key)
  }

  /** With distinct keys, reading the i-th key gives the i-th value. */
  lemma {:induction false} GetAt(t: Table, i: nat)
    requires DistinctKeys(t)
    requires i < |t|
    ensures Get(t, t[i].0) == Some(t[i].1)
  {
    if i > 0 {
      assert t[0].0 != t[i].0;
      assert t[1..][i - 1] == t[i];
      GetAt(t[1..], i - 1);
    }
  }
}

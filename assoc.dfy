/**
 * A JavaScript object used as a dictionary from string keys to string values, as the IDE
 * uses `State.files`: assignment to a present key keeps its place, assignment to a new key
 * appends it, `delete` drops it, and `Object.keys` lists the keys in that order.
 */
module Assoc {
  import opened Wrappers

  type Dict = seq<(string, string)>

  function Keys(d: Dict): (ks: seq<string>)
    ensures |ks| == |d|
  {
    if d == [] then [] else [d[0].0] + Keys(d[1..])
  }

  /** No key occurs twice, as in every value a JavaScript object can have. */
  predicate Unique(d: Dict) {
    d == [] || (d[0].0 !in Keys(d[1..]) && Unique(d[1..]))
  }

  /** `obj[k]`, with `None` for `undefined`. */
  function Lookup(d: Dict, k: string): (r: Option<string>)
    ensures r.Some? <==> k in Keys(d)
    ensures r.Some? ==> (k, r.value) in d
  {
    if d == [] then None
    else if d[0].0 == k then Some(d[0].1)
    else Lookup(d[1..], k)
  }

  /** `obj[k] = v`. */
  function Set(d: Dict, k: string, v: string): (r: Dict)
    ensures Lookup(r, k) == Some(v)
    ensures forall k' :: k' != k ==> Lookup(r, k') == Lookup(d, k')
    ensures Keys(r) == if k in Keys(d) then Keys(d) else Keys(d) + [k]
    ensures Unique(d) ==> Unique(r)
  {
    if d == [] then [(k, v)]
    else if d[0].0 == k then
      var r := [(k, v)] + d[1..];
      assert r[1..] == d[1..];
      r
    else
      var t := Set(d[1..], k, v);
      var r := [d[0]] + t;
      assert r[1..] == t;
      KeysCons(d[0], t);
      ConsSnoc(d[0].0, Keys(d[1..]), k);
      r
  }

  lemma KeysCons(e: (string, string), t: Dict)
    ensures Keys([e] + t) == [e.0] + Keys(t)
  {
    assert ([e] + t)[1..] == t;
  }

  lemma ConsSnoc(a: string, xs: seq<string>, y: string)
    ensures [a] + (xs + [y]) == [a] + xs + [y]
  {
  }

  /** `delete obj[k]`. */
  function Remove(d: Dict, k: string): (r: Dict)
    ensures Lookup(r, k) == None
    ensures forall k' :: k' != k ==> Lookup(r, k') == Lookup(d, k')
    ensures Keys(r) == Without(Keys(d), k)
    ensures Unique(d) ==> Unique(r)
  {
    if d == [] then []
    else if d[0].0 == k then Remove(d[1..], k)
    else
      var t := Remove(d[1..], k);
      [d[0]] + t
  }

  /** `xs.filter(t => t !== x)`. */
  function Without(xs: seq<string>, x: string): (r: seq<string>)
    ensures x !in r
    ensures forall y :: y != x ==> (y in r <==> y in xs)
    ensures |r| <= |xs|
  {
    if xs == [] then []
    else if xs[0] == x then Without(xs[1..], x)
    else [xs[0]] + Without(xs[1..], x)
  }

  /** `xs.map(t => t === a ? b : t)`. */
  function Rename(xs: seq<string>, a: string, b: string): (r: seq<string>)
    ensures |r| == |xs|
    ensures forall i :: 0 <= i < |xs| ==> r[i] == if xs[i] == a then b else xs[i]
  {
    if xs == [] then [] else [if xs[0] == a then b else xs[0]] + Rename(xs[1..], a, b)
  }

  /** Assigning a key the value it already has changes nothing, not even the key order. */
  lemma {:induction false} SetSame(d: Dict, k: string, v: string)
    requires Lookup(d, k) == Some(v)
    ensures Set(d, k, v) == d
  {
    if d[0].0 != k { SetSame(d[1..], k, v); }
  }

  /** Deleting an absent key changes nothing. */
  lemma {:induction false} RemoveAbsent(d: Dict, k: string)
    requires Lookup(d, k) == None
    ensures Remove(d, k) == d
  {
    if d != [] { RemoveAbsent(d[1..], k); }
  }

  /** Deleting a key and assigning it again moves it to the end of the key order. */
  lemma RemoveThenSet(d: Dict, k: string, v: string)
    ensures Keys(Set(Remove(d, k), k, v)) == Without(Keys(d), k) + [k]
    ensures Lookup(Set(Remove(d, k), k, v), k) == Some(v)
  {
  }

  /** Deleting a present key of a dictionary without repeated keys loses exactly one entry. */
  lemma {:induction false} RemovePresentSize(d: Dict, k: string)
    requires Unique(d) && k in Keys(d)
    ensures |Remove(d, k)| == |d| - 1
  {
    if d[0].0 == k {
      RemoveAbsent(d[1..], k);
    } else {
      RemovePresentSize(d[1..], k);
    }
  }

  /** No string occurs twice. */
  predicate Distinct(xs: seq<string>) {
    forall i, j :: 0 <= i < j < |xs| ==> xs[i] != xs[j]
  }

  /** The key list of a dictionary without repeated keys has no repetition either. */
  lemma {:induction false} UniqueKeysDistinct(d: Dict)
    requires Unique(d)
    ensures Distinct(Keys(d))
  {
    if d != [] {
      UniqueKeysDistinct(d[1..]);
      var ks := Keys(d);
      assert ks == [d[0].0] + Keys(d[1..]);
      forall i, j | 0 <= i < j < |ks| ensures ks[i] != ks[j] {
        if i == 0 {
          assert ks[j] == Keys(d[1..])[j - 1];
        } else {
          assert ks[i] == Keys(d[1..])[i - 1] && ks[j] == Keys(d[1..])[j - 1];
        }
      }
    }
  }
}

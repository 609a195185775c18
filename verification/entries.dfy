/** A plain JavaScript object used as a string-keyed dictionary, as an
    association list in enumeration order. Assigning a key that is not yet present
    appends it; assigning one that is present replaces its value and keeps its
    position. `Fold` is `reduce((o, e) => Object.assign(o, {[e.key]: e.value}), {})`. */
module Entries {
  import opened Wrappers

  datatype Entry<V> = Entry(key: string, value: V)

  function Keys<V>(al: seq<Entry<V>>): (ks: seq<string>)
    ensures |ks| == |al|
    ensures forall i :: 0 <= i < |al| ==> ks[i] == al[i].key
  {
    if |al| == 0 then [] else [al[0].key] + Keys(al[1..])
  }

  predicate Distinct(ks: seq<string>) {
    forall i, j :: 0 <= i < j < |ks| ==> ks[i] != ks[j]
  }

  /** The value an object holds under `k`, if it has that property. */
  function Lookup<V>(al: seq<Entry<V>>, k: string): Option<V> {
    if |al| == 0 then None
    else if al[0].key == k then Some(al[0].value)
    else Lookup(al[1..], k)
  }

  lemma {:induction false} LookupPresent<V>(al: seq<Entry<V>>, k: string)
    ensures Lookup(al, k).Some? <==> k in Keys(al)
  {
    if |al| > 0 {
      LookupPresent(al[1..], k);
      assert Keys(al) == [al[0].key] + Keys(al[1..]);
    }
  }

  /** `o[k] = v`. */
  function Assign<V>(al: seq<Entry<V>>, k: string, v: V): (r: seq<Entry<V>>)
    ensures k in Keys(al) ==> Keys(r) == Keys(al)
    ensures k !in Keys(al) ==> Keys(r) == Keys(al) + [k]
    ensures Lookup(r, k) == Some(v)
    ensures forall k' :: k' != k ==> Lookup(r, k') == Lookup(al, k')
  {
    if |al| == 0 then [Entry(k, v)]
    else if al[0].key == k then
      assert Keys([Entry(k, v)] + al[1..]) == [k] + Keys(al[1..]);
      assert Keys(al) == [k] + Keys(al[1..]);
      [Entry(k, v)] + al[1..]
    else
      var rest := Assign(al[1..], k, v);
      assert Keys([al[0]] + rest) == [al[0].key] + Keys(rest);
      assert Keys(al) == [al[0].key] + Keys(al[1..]);
      assert ([al[0]] + rest)[1..] == rest;
      [al[0]] + rest
  }

  /** Folding the entries in order into an initially empty object. */
  function Fold<V>(pairs: seq<Entry<V>>): seq<Entry<V>>
    decreases |pairs|
  {
    if |pairs| == 0 then []
    else
      var last := pairs[|pairs| - 1];
      Assign(Fold(pairs[..|pairs| - 1]), last.key, last.value)
  }

  /** Keys in the order of their first occurrence, each once: the enumeration order
      of an object whose properties were assigned in the order `ks`. */
  function FirstOccurrences(ks: seq<string>): (r: seq<string>)
    ensures Distinct(r)
    ensures forall k :: k in r <==> k in ks
    decreases |ks|
  {
    if |ks| == 0 then []
    else
      var d := FirstOccurrences(ks[..|ks| - 1]);
      assert ks == ks[..|ks| - 1] + [ks[|ks| - 1]];
      if ks[|ks| - 1] in d then d else d + [ks[|ks| - 1]]
  }

  /** `pairs[j]` is the last entry with key `k`. */
  predicate IsLastWithKey<V>(pairs: seq<Entry<V>>, k: string, j: int) {
    0 <= j < |pairs| && pairs[j].key == k &&
    forall j' :: j < j' < |pairs| ==> pairs[j'].key != k
  }

  /** The folded object enumerates each key once, in the order the keys first
      occurred in the input. */
  lemma {:induction false} FoldKeys<V>(pairs: seq<Entry<V>>)
    ensures Keys(Fold(pairs)) == FirstOccurrences(Keys(pairs))
    decreases |pairs|
  {
    if |pairs| > 0 {
      var init := pairs[..|pairs| - 1];
      FoldKeys(init);
      assert Keys(pairs)[..|pairs| - 1] == Keys(init);
    }
  }

  /** The folded object has exactly one property per distinct key of the input. */
  lemma FoldKeysDistinct<V>(pairs: seq<Entry<V>>)
    ensures Distinct(Keys(Fold(pairs)))
    ensures forall k :: k in Keys(Fold(pairs)) <==> k in Keys(pairs)
  {
    FoldKeys(pairs);
  }

  /** The folded object has a property `k` exactly when some entry has key `k`. */
  lemma FoldHasKey<V>(pairs: seq<Entry<V>>, k: string)
    ensures Lookup(Fold(pairs), k).None? <==> k !in Keys(pairs)
  {
    LookupPresent(Fold(pairs), k);
    FoldKeysDistinct(pairs);
  }

  /** Later entries overwrite earlier ones: the value under `k` is that of the last
      entry with key `k`. */
  lemma {:induction false} FoldLastWins<V>(pairs: seq<Entry<V>>, k: string, j: int)
    requires IsLastWithKey(pairs, k, j)
    ensures Lookup(Fold(pairs), k) == Some(pairs[j].value)
    decreases |pairs|
  {
    var init := pairs[..|pairs| - 1];
    var last := pairs[|pairs| - 1];
    if last.key != k {
      assert IsLastWithKey(init, k, j);
      FoldLastWins(init, k, j);
    }
  }
}

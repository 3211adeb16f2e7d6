/**
 The two JavaScript collections the roulette keeps its state in, modelled on
 values. A JavaScript `Map` remembers the order in which its keys were first
 inserted; it is modelled as an association list with distinct keys, so that
 `Array.from(map.entries())` is the list itself and `new Map(pairs)` is
 `FromPairs`. A JavaScript `Set` is modelled the same way, as a list of
 distinct elements in insertion order.
 */
module JsCollections {

  datatype Option<+T> = None | Some(value: T) {
    function GetOr(default: T): T {
      match this
      case Some(v) => v
      case None => default
    }
  }

  predicate Distinct<T(==)>(s: seq<T>) {
    forall i, j :: 0 <= i < j < |s| ==> s[i] != s[j]
  }

  /** Appending a new element keeps the elements distinct. */
  lemma AppendKeepsDistinct<T>(s: seq<T>, x: T)
    requires Distinct(s) && x !in s
    ensures Distinct(s + [x])
  {
    forall i, j | 0 <= i < j < |s| + 1 ensures (s + [x])[i] != (s + [x])[j] {
      if j == |s| {
        assert (s + [x])[i] == s[i];
      }
    }
  }

  /** The keys of an association list, in list order. */
  function Keys<K, V>(es: seq<(K, V)>): (ks: seq<K>)
    ensures |ks| == |es|
    ensures forall i :: 0 <= i < |es| ==> ks[i] == es[i].0
  {
    if es == [] then [] else [es[0].0] + Keys(es[1..])
  }

  predicate DistinctKeys<K(==), V>(es: seq<(K, V)>) {
    Distinct(Keys(es))
  }

  /** `map.get(k)`: the value stored under `k`, if any. */
  function Lookup<K(==), V>(es: seq<(K, V)>, k: K): (r: Option<V>)
    ensures r.Some? <==> k in Keys(es)
  {
    if es == [] then None
    else if es[0].0 == k then Some(es[0].1)
    else Lookup(es[1..], k)
  }

  /**
   `map.set(k, v)`: an existing key keeps its position and gets the new value;
   a new key is appended.
   */
  function Put<K(==), V>(es: seq<(K, V)>, k: K, v: V): (r: seq<(K, V)>)
    ensures |r| == if k in Keys(es) then |es| else |es| + 1
  {
    if es == [] then [(k, v)]
    else if es[0].0 == k then [(k, v)] + es[1..]
    else [es[0]] + Put(es[1..], k, v)
  }

  /** After `map.set(k, v)`, `k` holds `v` and every other key holds what it held. */
  lemma {:induction false} PutLookup<K, V>(es: seq<(K, V)>, k: K, v: V, k': K)
    ensures Lookup(Put(es, k, v), k') == if k' == k then Some(v) else Lookup(es, k')
  {
    if es != [] && es[0].0 != k {
      PutLookup(es[1..], k, v, k');
    }
  }

  /** Setting a new key appends it; setting a present key leaves the key order alone. */
  lemma {:induction false} PutKeys<K, V>(es: seq<(K, V)>, k: K, v: V)
    ensures k !in Keys(es) ==> Put(es, k, v) == es + [(k, v)]
    ensures k in Keys(es) ==> Keys(Put(es, k, v)) == Keys(es)
  {
    if es != [] && es[0].0 != k {
      PutKeys(es[1..], k, v);
      assert Keys(es) == [es[0].0] + Keys(es[1..]);
      assert Keys([es[0]] + Put(es[1..], k, v)) == [es[0].0] + Keys(Put(es[1..], k, v));
    }
  }

  /** Setting a key never creates a second entry for it. */
  lemma PutKeepsKeysDistinct<K, V>(es: seq<(K, V)>, k: K, v: V)
    requires DistinctKeys(es)
    ensures DistinctKeys(Put(es, k, v))
  {
    PutKeys(es, k, v);
    if k !in Keys(es) {
      KeysAppend(es, [(k, v)]);
    }
  }

  /**
   `new Map(pairs)`: the pairs are `set` one after the other, so a key keeps the
   position of its first pair and the value of its last.
   */
  function FromPairs<K(==), V>(ps: seq<(K, V)>): (r: seq<(K, V)>)
    ensures DistinctKeys(r)
    ensures ps != [] ==> Lookup(r, ps[|ps| - 1].0) == Some(ps[|ps| - 1].1)
  {
    if ps == [] then []
    else
      var init, last := ps[..|ps| - 1], ps[|ps| - 1];
      PutKeepsKeysDistinct(FromPairs(init), last.0, last.1);
      PutLookup(FromPairs(init), last.0, last.1, last.0);
      Put(FromPairs(init), last.0, last.1)
  }

  /** The value of the last pair with key `k`, if any: an independent reading of `new Map(pairs)`. */
  function LastValue<K(==), V>(ps: seq<(K, V)>, k: K): Option<V> {
    if ps == [] then None
    else if ps[|ps| - 1].0 == k then Some(ps[|ps| - 1].1)
    else LastValue(ps[..|ps| - 1], k)
  }

  /** In `new Map(pairs)`, every key holds the value of its last pair. */
  lemma {:induction false} FromPairsLookup<K, V>(ps: seq<(K, V)>, k: K)
    ensures Lookup(FromPairs(ps), k) == LastValue(ps, k)
  {
    if ps != [] {
      var init, last := ps[..|ps| - 1], ps[|ps| - 1];
      FromPairsLookup(init, k);
      PutLookup(FromPairs(init), last.0, last.1, k);
    }
  }

  /** `new Map(pairs)` has exactly the keys that occur in the pairs. */
  lemma {:induction false} FromPairsKeys<K, V>(ps: seq<(K, V)>, k: K)
    ensures k in Keys(FromPairs(ps)) <==> k in Keys(ps)
  {
    if ps != [] {
      var init, last := ps[..|ps| - 1], ps[|ps| - 1];
      assert ps == init + [last];
      KeysAppend(init, [last]);
      FromPairsKeys(init, k);
      PutLookup(FromPairs(init), last.0, last.1, k);
    }
  }

  lemma {:induction false} KeysAppend<K, V>(a: seq<(K, V)>, b: seq<(K, V)>)
    ensures Keys(a + b) == Keys(a) + Keys(b)
  {
    if a != [] {
      assert (a + b)[1..] == a[1..] + b;
      KeysAppend(a[1..], b);
    }
  }

  /** Rebuilding a map from the entries of a map gives back the same entries. */
  lemma {:induction false} FromPairsOfEntries<K, V>(ps: seq<(K, V)>)
    requires DistinctKeys(ps)
    ensures FromPairs(ps) == ps
  {
    if ps != [] {
      var init := ps[..|ps| - 1];
      var last := ps[|ps| - 1];
      assert ps == init + [last];
      KeysAppend(init, [last]);
      assert Keys(ps) == Keys(init) + [last.0];
      assert DistinctKeys(init) by {
        forall i, j | 0 <= i < j < |Keys(init)| ensures Keys(init)[i] != Keys(init)[j] {
          assert Keys(init)[i] == Keys(ps)[i] && Keys(init)[j] == Keys(ps)[j];
        }
      }
      assert last.0 !in Keys(init) by {
        forall i | 0 <= i < |Keys(init)| ensures Keys(init)[i] != last.0 {
          assert Keys(ps)[i] == Keys(init)[i] && Keys(ps)[|ps| - 1] == last.0;
        }
      }
      FromPairsOfEntries(init);
      PutKeys(init, last.0, last.1);
    }
  }

  /** `set.add(x)`: appends `x` unless it is already present. */
  function AddToSet<T(==,!new)>(s: seq<T>, x: T): (r: seq<T>)
    ensures x in r && forall y :: y in r <==> y in s || y == x
    ensures Distinct(s) ==> Distinct(r)
  {
    if x in s then s else s + [x]
  }

  /** `new Set(array)`: duplicates are dropped, first occurrences kept in order. */
  function FromArray<T(==,!new)>(arr: seq<T>): (r: seq<T>)
    ensures Distinct(r)
    ensures forall x :: x in r <==> x in arr
  {
    if arr == [] then []
    else
      var init := arr[..|arr| - 1];
      assert arr == init + [arr[|arr| - 1]];
      AddToSet(FromArray(init), arr[|arr| - 1])
  }

  /** Rebuilding a set from the elements of a set gives back the same elements in the same order. */
  lemma {:induction false} FromArrayOfElements<T(!new)>(arr: seq<T>)
    requires Distinct(arr)
    ensures FromArray(arr) == arr
  {
    if arr != [] {
      var init := arr[..|arr| - 1];
      assert arr == init + [arr[|arr| - 1]];
      assert arr[|arr| - 1] !in init by {
        forall i | 0 <= i < |init| ensures init[i] != arr[|arr| - 1] {
          assert init[i] == arr[i];
        }
      }
      FromArrayOfElements(init);
    }
  }

  /** `array.filter(p => p !== x)`. */
  function RemoveAll<T(==,!new)>(s: seq<T>, x: T): (r: seq<T>)
    ensures x !in r && |r| <= |s|
    ensures forall y :: y != x ==> multiset(r)[y] == multiset(s)[y]
    ensures Distinct(s) ==> Distinct(r)
  {
    if s == [] then []
    else
      var rest := RemoveAll(s[1..], x);
      assert s == [s[0]] + s[1..];
      assert Distinct(s) ==> s[0] !in s[1..] && Distinct(s[1..]) by {
        if Distinct(s) {
          forall i, j | 0 <= i < j < |s[1..]| ensures s[1..][i] != s[1..][j] {
            assert s[1..][i] == s[i + 1] && s[1..][j] == s[j + 1];
          }
        }
      }
      assert s[0] !in s[1..] ==> s[0] !in rest by {
        if s[0] != x && s[0] in rest {
          assert multiset(rest)[s[0]] > 0;
        }
      }
      if s[0] == x then rest else [s[0]] + rest
  }

  /** Filtering keeps the relative order of what it keeps. */
  lemma {:induction false} RemoveAllAppend<T(!new)>(a: seq<T>, b: seq<T>, x: T)
    ensures RemoveAll(a + b, x) == RemoveAll(a, x) + RemoveAll(b, x)
  {
    if a == [] {
      assert a + b == b;
    } else {
      assert (a + b)[0] == a[0];
      assert (a + b)[1..] == a[1..] + b;
      RemoveAllAppend(a[1..], b, x);
      var head := if a[0] == x then [] else [a[0]];
      assert RemoveAll(a + b, x) == head + RemoveAll(a[1..] + b, x);
      assert RemoveAll(a, x) == head + RemoveAll(a[1..], x);
    }
  }

  /** The sum of the values of a name -> count map. */
  function SumValues<K>(es: seq<(K, nat)>): nat {
    if es == [] then 0 else es[0].1 + SumValues(es[1..])
  }

  /** Overwriting one entry changes the sum by exactly the difference of that entry. */
  lemma {:induction false} SumValuesPut<K>(es: seq<(K, nat)>, k: K, v: nat)
    ensures SumValues(Put(es, k, v)) + Lookup(es, k).GetOr(0) == SumValues(es) + v
  {
    if es != [] && es[0].0 != k {
      SumValuesPut(es[1..], k, v);
      assert Put(es, k, v) == [es[0]] + Put(es[1..], k, v);
    }
  }
}

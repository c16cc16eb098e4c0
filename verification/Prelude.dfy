/** Small datatypes and list functions that many modules share. */
module Prelude {

  datatype Option<+T> = None | Some(value: T)

  function Last<T>(s: seq<T>): T
    requires s != []
  {
    s[|s| - 1]
  }

  function Front<T>(s: seq<T>): seq<T>
    requires s != []
  {
    s[..|s| - 1]
  }

  /** The first position holding `x`; the length of the list if there is none. */
  function IndexOf<T(==)>(xs: seq<T>, x: T): (k: nat)
    ensures k <= |xs|
    ensures k < |xs| ==> xs[k] == x
    ensures forall i :: 0 <= i < k ==> xs[i] != x
  {
    if xs == [] then 0 else if xs[0] == x then 0 else 1 + IndexOf(xs[1..], x)
  }

  /** The list without the first occurrence of `x`. */
  function Without<T(==)>(xs: seq<T>, x: T): seq<T> {
    var k := IndexOf(xs, x);
    if k < |xs| then xs[..k] + xs[k + 1..] else xs
  }

  /** The first position whose item has the key; the length of the list if there is none. */
  function FirstWith<T, K(==)>(xs: seq<T>, keyOf: T -> K, key: K): (k: nat)
    ensures k <= |xs|
    ensures k < |xs| ==> keyOf(xs[k]) == key
    ensures forall i :: 0 <= i < k ==> keyOf(xs[i]) != key
  {
    if xs == [] then 0 else if keyOf(xs[0]) == key then 0 else 1 + FirstWith(xs[1..], keyOf, key)
  }

  /** The list without the first item that has the key. */
  function Cut<T, K(==)>(xs: seq<T>, keyOf: T -> K, key: K): seq<T> {
    if xs == [] then [] else if keyOf(xs[0]) == key then xs[1..] else [xs[0]] + Cut(xs[1..], keyOf, key)
  }

  lemma CutStep<T>(xs: seq<T>, k: nat)
    requires xs != [] && k <= |xs[1..]|
    ensures (if k + 1 < |xs| then xs[..k + 1] + xs[k + 2..] else xs)
            == [xs[0]] + if k < |xs[1..]| then xs[1..][..k] + xs[1..][k + 1..] else xs[1..]
  {
  }

  lemma {:induction false} CutIs<T, K>(xs: seq<T>, keyOf: T -> K, key: K)
    ensures var k := FirstWith(xs, keyOf, key);
            Cut(xs, keyOf, key) == if k < |xs| then xs[..k] + xs[k + 1..] else xs
  {
    if xs != [] && keyOf(xs[0]) != key {
      CutIs(xs[1..], keyOf, key);
      CutStep(xs, FirstWith(xs[1..], keyOf, key));
    }
  }
}

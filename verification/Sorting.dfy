/**
 The contracts of the library's two sorts, each with an insertion sort for a
 body. `from[i]` is where the i-th sorted element stood in the input.
 */
module Sorting {

  /** A strict weak order: asymmetric, and what is less than one thing is less than all that is not below it. */
  ghost predicate StrictWeak<T(!new)>(less: (T, T) -> bool) {
    && (forall a, b :: less(a, b) ==> !less(b, a))
    && (forall a, b, c :: less(a, b) && !less(c, b) ==> less(a, c))
  }

  /** `from` rearranges the positions 0..n. */
  ghost predicate Permutes(from: seq<nat>, n: nat) {
    && |from| == n
    && (forall i :: 0 <= i < n ==> from[i] < n)
    && (forall i, j :: 0 <= i < j < n ==> from[i] != from[j])
  }

  ghost predicate Rearranged<T>(xs: seq<T>, ys: seq<T>, from: seq<nat>) {
    && |xs| == |ys|
    && Permutes(from, |xs|)
    && (forall i :: 0 <= i < |ys| ==> ys[i] == xs[from[i]])
    && multiset(ys) == multiset(xs)
  }

  ghost predicate Sorted<T>(ys: seq<T>, less: (T, T) -> bool) {
    forall i, j :: 0 <= i < j < |ys| ==> !less(ys[j], ys[i])
  }

  /** Of two elements neither of which is less, the one that stood first comes first. */
  ghost predicate Stable<T>(ys: seq<T>, from: seq<nat>, less: (T, T) -> bool)
    requires |from| == |ys|
  {
    forall i, j :: 0 <= i < j < |ys| ==> less(ys[i], ys[j]) || from[i] < from[j]
  }

  method SortStable<T(!new)>(xs: seq<T>, less: (T, T) -> bool) returns (ys: seq<T>, ghost from: seq<nat>)
    requires StrictWeak(less)
    ensures Rearranged(xs, ys, from) && Sorted(ys, less) && Stable(ys, from, less)
  {
    ys, from := [], [];
    var n := 0;
    while n < |xs|
      invariant 0 <= n <= |xs|
      invariant Rearranged(xs[..n], ys, from) && Sorted(ys, less) && Stable(ys, from, less)
    {
      ys, from := InsertLast(xs[..n], xs[n], ys, from, less);
      assert xs[..n] + [xs[n]] == xs[..n + 1];
      n := n + 1;
    }
    assert xs[..n] == xs;
  }

  /** Puts the next element after every one it is not less than. */
  method InsertLast<T(!new)>(xs: seq<T>, x: T, ys: seq<T>, ghost from: seq<nat>, less: (T, T) -> bool)
    returns (zs: seq<T>, ghost from': seq<nat>)
    requires StrictWeak(less)
    requires Rearranged(xs, ys, from) && Sorted(ys, less) && Stable(ys, from, less)
    ensures Rearranged(xs + [x], zs, from') && Sorted(zs, less) && Stable(zs, from', less)
  {
    var k := |ys|;
    while k > 0 && less(x, ys[k - 1])
      invariant 0 <= k <= |ys|
      invariant forall j :: k <= j < |ys| ==> less(x, ys[j])
    {
      k := k - 1;
    }
    zs := ys[..k] + [x] + ys[k..];
    from' := from[..k] + [|xs|] + from[k..];
    InsertedRearranges(xs, x, ys, from, k);
    InsertedSorts(x, ys, from, |xs|, less, k);
  }

  lemma InsertedRearranges<T>(xs: seq<T>, x: T, ys: seq<T>, from: seq<nat>, k: nat)
    requires Rearranged(xs, ys, from) && k <= |ys|
    ensures Rearranged(xs + [x], ys[..k] + [x] + ys[k..], from[..k] + [|xs|] + from[k..])
  {
    assert ys == ys[..k] + ys[k..];
  }

  lemma InsertedSorts<T(!new)>(x: T, ys: seq<T>, from: seq<nat>, n: nat, less: (T, T) -> bool, k: nat)
    requires StrictWeak(less) && |from| == |ys| && k <= |ys|
    requires Sorted(ys, less) && Stable(ys, from, less)
    requires forall i :: 0 <= i < |from| ==> from[i] < n
    requires k > 0 ==> !less(x, ys[k - 1])
    requires forall j :: k <= j < |ys| ==> less(x, ys[j])
    ensures Sorted(ys[..k] + [x] + ys[k..], less)
    ensures Stable(ys[..k] + [x] + ys[k..], from[..k] + [n] + from[k..], less)
  {
    var zs, from' := ys[..k] + [x] + ys[k..], from[..k] + [n] + from[k..];
    forall i | 0 <= i < k ensures !less(x, ys[i]) {
      if i < k - 1 {
        assert !less(ys[k - 1], ys[i]);
      }
    }
    forall j | k <= j < |ys| ensures !less(ys[j], x) {
      assert less(x, ys[j]);
    }
    hide StrictWeak;
    forall i, j | 0 <= i < j < |zs|
      ensures !less(zs[j], zs[i]) && (less(zs[i], zs[j]) || from'[i] < from'[j])
    {
      var i', j' := if i < k then i else i - 1, if j < k then j else j - 1;
      if i != k {
        assert zs[i] == ys[i'] && from'[i] == from[i'];
      }
      if j != k {
        assert zs[j] == ys[j'] && from'[j] == from[j'];
      }
    }
  }

  /** The unstable sort promises no more than order. */
  method Sort<T(!new)>(xs: seq<T>, less: (T, T) -> bool) returns (ys: seq<T>, ghost from: seq<nat>)
    requires StrictWeak(less)
    ensures Rearranged(xs, ys, from) && Sorted(ys, less)
  {
    ys, from := SortStable(xs, less);
  }

  lemma MovedInto<T>(a: seq<T>, b: seq<T>, x: T) returns (i: nat)
    requires multiset(a) == multiset(b) && x in a
    ensures i < |b| && b[i] == x
  {
    assert x in multiset(b);
    i :| 0 <= i < |b| && b[i] == x;
  }

  lemma SortedRest<T>(a: seq<T>, less: (T, T) -> bool)
    requires Sorted(a, less) && a != []
    ensures Sorted(a[1..], less) && multiset(a[1..]) == multiset(a) - multiset{a[0]}
  {
    assert a == [a[0]] + a[1..];
  }

  /** Of any two different elements one is less. */
  ghost predicate Linear<T>(xs: seq<T>, less: (T, T) -> bool) {
    forall x, y :: x in xs && y in xs && x != y ==> less(x, y) || less(y, x)
  }

  lemma SameFirst<T>(a: seq<T>, b: seq<T>, less: (T, T) -> bool)
    requires multiset(a) == multiset(b) && Sorted(a, less) && Sorted(b, less) && a != [] && b != [] && Linear(a, less)
    ensures a[0] == b[0]
  {
    var i := MovedInto(b, a, b[0]);
    var j := MovedInto(a, b, a[0]);
    assert i > 0 ==> !less(a[i], a[0]);
    assert j > 0 ==> !less(b[j], b[0]);
  }

  lemma SameLength<T>(a: seq<T>, b: seq<T>)
    requires multiset(a) == multiset(b)
    ensures |a| == |b|
  {
    assert |a| == |multiset(a)| && |b| == |multiset(b)|;
  }

  lemma LinearRest<T>(a: seq<T>, less: (T, T) -> bool)
    requires Linear(a, less) && a != []
    ensures Linear(a[1..], less)
  {
  }

  /** A linearly ordered list has one sorted form only. */
  lemma {:induction false} SortedIsUnique<T>(a: seq<T>, b: seq<T>, less: (T, T) -> bool)
    requires multiset(a) == multiset(b) && Sorted(a, less) && Sorted(b, less) && Linear(a, less)
    ensures a == b
    decreases |a|
  {
    hide Sorted, Linear;
    SameLength(a, b);
    if a != [] {
      SameFirst(a, b, less);
      SortedRest(a, less);
      SortedRest(b, less);
      LinearRest(a, less);
      SortedIsUnique(a[1..], b[1..], less);
      assert a == [a[0]] + a[1..] && b == [b[0]] + b[1..];
    }
  }
}

/**
 Lists as the store keeps them: a length over a backing array that removals and
 filters rewrite in place. What a reader is given is a copy with an array of its
 own, so later edits do not reach it.
 */
module Slices {
  import opened Prelude

  // ---------------------------------------------------------------- lists and their backing

  ghost function Dropped<T>(xs: seq<T>, test: T -> bool): seq<T> {
    if xs == [] then [] else (if test(xs[0]) then [] else [xs[0]]) + Dropped(xs[1..], test)
  }

  ghost function Mapped<T>(xs: seq<T>, f: T -> T): (r: seq<T>)
    ensures |r| == |xs| && forall i :: 0 <= i < |xs| ==> r[i] == f(xs[i])
  {
    if xs == [] then [] else [f(xs[0])] + Mapped(xs[1..], f)
  }

  lemma {:induction false} DroppedAppend<T>(xs: seq<T>, x: T, test: T -> bool)
    ensures Dropped(xs + [x], test) == Dropped(xs, test) + if test(x) then [] else [x]
  {
    if xs == [] {
      assert xs + [x] == [x];
    } else {
      assert (xs + [x])[1..] == xs[1..] + [x];
      DroppedAppend(xs[1..], x, test);
    }
  }

  lemma {:induction false} DroppedShorter<T>(xs: seq<T>, test: T -> bool)
    ensures |Dropped(xs, test)| <= |xs|
  {
    if xs != [] {
      DroppedShorter(xs[1..], test);
    }
  }

  /** A whole array and how much of it is the list. */
  datatype Backing<T> = Backing(cells: seq<T>, len: nat) {
    predicate Fits() {
      len <= |cells|
    }

    function View(): seq<T>
      requires Fits()
    {
      cells[..len]
    }
  }

  /** The gap is closed by moving what follows; the old last cell stays behind the end. */
  ghost function RemovedAt<T>(b: Backing<T>, at: nat): Backing<T>
    requires b.Fits() && at < b.len
  {
    Backing(b.cells[..at] + b.cells[at + 1..b.len] + b.cells[b.len - 1..], b.len - 1)
  }

  ghost function RemovedFirst<T>(b: Backing<T>, x: T): Backing<T>
    requires b.Fits()
  {
    var at := IndexOf(b.View(), x);
    if at < b.len then RemovedAt(b, at) else b
  }

  /** What is kept is written over the front; the rest of the array stays. */
  ghost function Compacted<T>(b: Backing<T>, test: T -> bool): Backing<T>
    requires b.Fits()
  {
    DroppedShorter(b.View(), test);
    var kept := Dropped(b.View(), test);
    Backing(kept + b.cells[|kept|..], |kept|)
  }

  ghost function Rewritten<T>(b: Backing<T>, f: T -> T): Backing<T>
    requires b.Fits()
  {
    Backing(Mapped(b.View(), f) + b.cells[b.len..], b.len)
  }

  /** With room the new element goes behind the end. */
  function AppendedInPlace<T>(b: Backing<T>, x: T): Backing<T>
    requires b.len < |b.cells|
  {
    Backing(b.cells[b.len := x], b.len + 1)
  }

  class Slice<T(0, ==)> {
    var arr: array<T>
    var len: nat

    ghost predicate Valid()
      reads this
    {
      len <= arr.Length
    }

    ghost function Value(): Backing<T>
      reads this, arr
    {
      Backing(arr[..], len)
    }

    constructor (items: seq<T>)
      ensures Valid() && fresh(arr) && Value() == Backing(items, |items|)
    {
      arr := new T[|items|](i requires 0 <= i < |items| => items[i]);
      len := |items|;
    }

    /** A copy over an array of its own. */
    method Clone() returns (c: Slice<T>)
      requires Valid()
      ensures c.Valid() && fresh(c) && fresh(c.arr) && c.Value() == Backing(Value().View(), len)
    {
      c := new Slice(arr[..len]);
    }

    /** Writes behind the end when there is room, and otherwise moves to a larger array. */
    method Append(x: T)
      requires Valid()
      modifies this, arr
      ensures Valid() && Value().View() == old(Value().View()) + [x]
      ensures if old(len) < old(arr).Length then arr == old(arr) && Value() == AppendedInPlace(old(Value()), x)
              else fresh(arr) && old(arr)[..] == old(arr[..])
    {
      if len < arr.Length {
        arr[len] := x;
      } else {
        var bigger := new T[2 * len + 1];
        var i := 0;
        while i < len
          invariant 0 <= i <= len <= arr.Length && fresh(bigger) && bigger.Length == 2 * len + 1
          invariant forall j :: 0 <= j < i ==> bigger[j] == arr[j]
          modifies bigger
        {
          bigger[i] := arr[i];
          i := i + 1;
        }
        bigger[len] := x;
        arr := bigger;
      }
      len := len + 1;
    }

    /** Closes the gap in place: everything behind it moves up by one. */
    method RemoveAt(at: nat)
      requires Valid() && at < len
      modifies this, arr
      ensures Valid() && arr == old(arr) && Value() == RemovedAt(old(Value()), at)
    {
      ghost var was := arr[..];
      var i := at;
      while i + 1 < len
        invariant at <= i < len <= arr.Length
        invariant forall j :: 0 <= j < at ==> arr[j] == was[j]
        invariant forall j :: at <= j < i ==> arr[j] == was[j + 1]
        invariant forall j :: i <= j < arr.Length ==> arr[j] == was[j]
        modifies arr
      {
        arr[i] := arr[i + 1];
        i := i + 1;
      }
      len := len - 1;
    }

    /** The scan that stops at the first match. */
    method RemoveFirst(x: T)
      requires Valid()
      modifies this, arr
      ensures Valid() && arr == old(arr) && Value() == RemovedFirst(old(Value()), x)
    {
      ghost var b := Value();
      var i := 0;
      while i < len
        invariant 0 <= i <= len == b.len <= arr.Length && arr == old(arr) && arr[..] == b.cells
        invariant forall j :: 0 <= j < i ==> b.View()[j] != x
      {
        assert arr[i] == b.View()[i];
        if arr[i] == x {
          assert IndexOf(b.View(), x) == i;
          RemoveAt(i);
          return;
        }
        i := i + 1;
      }
      assert IndexOf(b.View(), x) == b.len;
    }

    /** The filter that reuses the list's own front. */
    method Drop(test: T -> bool)
      requires Valid()
      modifies this, arr
      ensures Valid() && arr == old(arr) && Value() == Compacted(old(Value()), test)
    {
      ghost var was := Value();
      var n, i := 0, 0;
      while i < len
        invariant 0 <= n <= i <= len <= arr.Length
        invariant arr[..n] == Dropped(was.View()[..i], test)
        invariant forall j :: n <= j < arr.Length ==> arr[j] == was.cells[j]
        modifies arr
      {
        assert was.View()[..i + 1] == was.View()[..i] + [was.View()[i]];
        DroppedAppend(was.View()[..i], was.View()[i], test);
        if !test(arr[i]) {
          ghost var kept := arr[..n];
          arr[n] := arr[i];
          n := n + 1;
          assert arr[..n] == kept + [was.View()[i]];
        }
        i := i + 1;
      }
      assert was.View()[..i] == was.View();
      len := n;
      assert arr[..] == arr[..n] + was.cells[n..];
    }

    method Rewrite(f: T -> T)
      requires Valid()
      modifies arr
      ensures Valid() && Value() == Rewritten(old(Value()), f)
    {
      ghost var was := arr[..];
      var i := 0;
      while i < len
        invariant 0 <= i <= len <= arr.Length
        invariant forall j :: 0 <= j < arr.Length ==> arr[j] == if j < i then f(was[j]) else was[j]
        modifies arr
      {
        arr[i] := f(arr[i]);
        i := i + 1;
      }
    }
  }

  // ---------------------------------------------------------------- what the in-place forms read as

  /** Removing the first match in place reads as the list without it. */
  lemma RemovedReads<T>(b: Backing<T>, x: T)
    requires b.Fits()
    ensures RemovedFirst(b, x).Fits() && RemovedFirst(b, x).View() == Without(b.View(), x)
    ensures |RemovedFirst(b, x).cells| == |b.cells|
  {
    var at := IndexOf(b.View(), x);
    if at < b.len {
      assert b.View()[..at] == b.cells[..at] && b.View()[at + 1..] == b.cells[at + 1..b.len];
    }
  }

  /** The filter reads as what the test leaves, in order. */
  lemma CompactedReads<T>(b: Backing<T>, test: T -> bool)
    requires b.Fits()
    ensures Compacted(b, test).Fits() && Compacted(b, test).View() == Dropped(b.View(), test)
    ensures |Compacted(b, test).cells| == |b.cells|
  {
    DroppedShorter(b.View(), test);
  }

  lemma RewrittenReads<T>(b: Backing<T>, f: T -> T)
    requires b.Fits()
    ensures Rewritten(b, f).Fits() && Rewritten(b, f).View() == Mapped(b.View(), f)
    ensures |Rewritten(b, f).cells| == |b.cells|
  {
  }

  /**
   A reader who kept the length and the array, instead of a copy, sees a removal
   as what follows moved up by one and the last element twice; it looks unchanged
   exactly when all elements from the removed one on are equal.
   */
  method SharedArrayChanges<T(0, ==)>(stored: Slice<T>, at: nat) returns (before: seq<T>, after: seq<T>)
    requires stored.Valid() && at < stored.len
    modifies stored, stored.arr
    ensures before == old(stored.Value().View())
    ensures after == before[..at] + before[at + 1..] + [Last(before)]
    ensures before == after <==> forall i :: at <= i < |before| ==> before[i] == before[at]
  {
    var arr, len := stored.arr, stored.len;
    before := arr[..len];
    stored.RemoveAt(at);
    after := arr[..len];
    MovedUpIsSame(before, at);
  }

  lemma MovedUpIsSame<T>(xs: seq<T>, at: nat)
    requires at < |xs|
    ensures xs == xs[..at] + xs[at + 1..] + [Last(xs)] <==> forall i :: at <= i < |xs| ==> xs[i] == xs[at]
  {
    var ys := xs[..at] + xs[at + 1..] + [Last(xs)];
    if xs == ys {
      forall i | at <= i < |xs| ensures xs[i] == xs[at] {
        SameFromOn(xs, at, i);
      }
    }
  }

  lemma {:induction false} SameFromOn<T>(xs: seq<T>, at: nat, i: nat)
    requires at <= i < |xs| && xs == xs[..at] + xs[at + 1..] + [Last(xs)]
    ensures xs[i] == xs[at]
    decreases i
  {
    if i > at {
      SameFromOn(xs, at, i - 1);
      assert xs[i - 1] == (xs[..at] + xs[at + 1..] + [Last(xs)])[i - 1];
    }
  }
}

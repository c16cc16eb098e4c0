/**
 Duplicate-free lists of identifiers, as the stores keep beside their maps:
 looking up, inserting, removing and filtering, and what these do to order.
 */
module OrderLists {
  import opened Prelude

  predicate Distinct(ids: seq<string>) {
    forall i, j :: 0 <= i < j < |ids| ==> ids[i] != ids[j]
  }

  lemma IndexOfAt(ids: seq<string>, k: nat)
    requires Distinct(ids) && k < |ids|
    ensures IndexOf(ids, ids[k]) == k
  {
  }

  /** Both lists put any two common items in the same order. */
  ghost predicate SameOrder(a: seq<string>, b: seq<string>) {
    forall x, y :: x in a && y in a && x in b && y in b ==>
      (IndexOf(a, x) <= IndexOf(a, y) <==> IndexOf(b, x) <= IndexOf(b, y))
  }

  function Inserted(ids: seq<string>, at: nat, id: string): seq<string>
    requires at <= |ids|
  {
    ids[..at] + [id] + ids[at..]
  }

  lemma InsertedItems(ids: seq<string>, at: nat, id: string)
    requires Distinct(ids) && at <= |ids| && id !in ids
    ensures Distinct(Inserted(ids, at, id))
    ensures forall x :: x in Inserted(ids, at, id) <==> x in ids || x == id
  {
    var ids' := Inserted(ids, at, id);
    assert ids'[at] == id;
    forall k | 0 <= k < |ids'| ensures ids'[k] == if k < at then ids[k] else if k == at then id else ids[k - 1] {}
    forall x | x in ids ensures x in ids' {
      var i := IndexOf(ids, x);
      assert ids'[if i < at then i else i + 1] == x;
    }
  }

  lemma InsertedIndex(ids: seq<string>, at: nat, id: string, x: string)
    requires Distinct(ids) && at <= |ids| && id !in ids && x in ids
    requires Distinct(Inserted(ids, at, id))
    ensures IndexOf(Inserted(ids, at, id), x) == if IndexOf(ids, x) < at then IndexOf(ids, x) else IndexOf(ids, x) + 1
  {
    var ids', i := Inserted(ids, at, id), IndexOf(ids, x);
    var k := if i < at then i else i + 1;
    assert ids'[k] == x;
    IndexOfAt(ids', k);
  }

  lemma InsertKeepsOrder(ids: seq<string>, at: nat, id: string)
    requires Distinct(ids) && at <= |ids| && id !in ids
    ensures SameOrder(ids, Inserted(ids, at, id))
  {
    InsertedItems(ids, at, id);
    forall x, y | x in ids && y in ids
      ensures IndexOf(ids, x) <= IndexOf(ids, y) <==>
              IndexOf(Inserted(ids, at, id), x) <= IndexOf(Inserted(ids, at, id), y)
    {
      InsertedIndex(ids, at, id, x);
      InsertedIndex(ids, at, id, y);
    }
  }

  lemma WithoutItems(ids: seq<string>, id: string)
    requires Distinct(ids) && id in ids
    ensures Distinct(Without(ids, id))
    ensures forall x :: x in Without(ids, id) <==> x in ids && x != id
  {
    var ids', k := Without(ids, id), IndexOf(ids, id);
    forall i | 0 <= i < |ids'| ensures ids'[i] == ids[if i < k then i else i + 1] {}
    forall x | x in ids && x != id ensures x in ids' {
      var i := IndexOf(ids, x);
      assert ids'[if i < k then i else i - 1] == x;
    }
  }

  lemma WithoutIndex(ids: seq<string>, id: string, x: string)
    requires Distinct(ids) && id in ids && x in ids && x != id
    requires Distinct(Without(ids, id))
    ensures IndexOf(Without(ids, id), x) ==
            if IndexOf(ids, x) < IndexOf(ids, id) then IndexOf(ids, x) else IndexOf(ids, x) - 1
  {
    var ids', k, i := Without(ids, id), IndexOf(ids, id), IndexOf(ids, x);
    var k' := if i < k then i else i - 1;
    assert ids'[k'] == x;
    IndexOfAt(ids', k');
  }

  lemma RemoveKeepsOrder(ids: seq<string>, id: string)
    requires Distinct(ids) && id in ids
    ensures SameOrder(ids, Without(ids, id))
  {
    WithoutItems(ids, id);
    forall x, y | x in ids && y in ids && x != id && y != id
      ensures IndexOf(ids, x) <= IndexOf(ids, y) <==>
              IndexOf(Without(ids, id), x) <= IndexOf(Without(ids, id), y)
    {
      WithoutIndex(ids, id, x);
      WithoutIndex(ids, id, y);
    }
  }

  lemma {:induction false} DistinctFits(xs: seq<string>, all: set<string>)
    requires Distinct(xs) && forall x :: x in xs ==> x in all
    ensures |xs| <= |all|
    decreases |xs|
  {
    if xs != [] {
      DistinctFits(xs[1..], all - {xs[0]});
    }
  }

  /** The order slice lists each key of the map once, and nothing else. */
  ghost predicate Ordered<V>(order: seq<string>, m: map<string, V>) {
    Distinct(order) && forall id :: id in order <==> id in m
  }

  function Kept(order: seq<string>, drop: set<string>): (kept: seq<string>)
    ensures forall id :: id in kept <==> id in order && id !in drop
  {
    if order == [] then []
    else if order[0] in drop then Kept(order[1..], drop)
    else [order[0]] + Kept(order[1..], drop)
  }

  lemma {:induction false} KeptDistinct(order: seq<string>, drop: set<string>)
    requires Distinct(order)
    ensures Distinct(Kept(order, drop))
  {
    if order != [] {
      KeptDistinct(order[1..], drop);
      assert order[0] !in order[1..];
    }
  }

  /** What is kept stays in the order it had. */
  lemma {:induction false} KeptKeepsOrder(order: seq<string>, drop: set<string>)
    requires Distinct(order)
    ensures SameOrder(order, Kept(order, drop))
  {
    if order != [] {
      var rest, kept := order[1..], Kept(order, drop);
      KeptKeepsOrder(rest, drop);
      KeptDistinct(rest, drop);
      forall x | x in kept && x != order[0]
        ensures x in rest && IndexOf(order, x) == 1 + IndexOf(rest, x)
        ensures x in Kept(rest, drop)
        ensures IndexOf(kept, x) == IndexOf(Kept(rest, drop), x) + if order[0] in drop then 0 else 1
      {
        assert order == [order[0]] + rest;
      }
    }
  }

  lemma {:induction false} KeptAppend(a: seq<string>, id: string, drop: set<string>)
    ensures Kept(a + [id], drop) == Kept(a, drop) + if id in drop then [] else [id]
  {
    if a == [] {
      assert a + [id] == [id];
    } else {
      assert (a + [id])[1..] == a[1..] + [id];
      KeptAppend(a[1..], id, drop);
    }
  }

  lemma OrderedExtend<V>(order: seq<string>, m: map<string, V>, id: string, v: V)
    requires Ordered(order, m) && id !in m
    ensures Ordered(order + [id], m[id := v])
  {
  }

  lemma OrderedDrop<V>(order: seq<string>, m: map<string, V>, drop: set<string>)
    requires Ordered(order, m)
    ensures Ordered(Kept(order, drop), m - drop)
  {
    KeptDistinct(order, drop);
  }

  method RemoveFromOrder(order: seq<string>, id: string) returns (r: seq<string>)
    ensures r == Without(order, id)
    ensures Distinct(order) ==> r == Kept(order, {id})
  {
    if Distinct(order) {
      KeptIsWithout(order, id);
    }
    var i := 0;
    while i < |order|
      invariant 0 <= i <= |order|
      invariant forall k :: 0 <= k < i ==> order[k] != id
    {
      if order[i] == id {
        assert IndexOf(order, id) == i;
        return order[..i] + order[i + 1..];
      }
      i := i + 1;
    }
    r := order;
  }

  lemma WithoutStep(order: seq<string>, id: string)
    requires order != []
    ensures Without(order, id) == if order[0] == id then order[1..] else [order[0]] + Without(order[1..], id)
  {
    var rest := order[1..];
    var k := IndexOf(rest, id);
    assert IndexOf(order, id) == if order[0] == id then 0 else 1 + k;
    hide IndexOf;
    assert order == [order[0]] + rest;
    if order[0] != id && k < |rest| {
      assert order[..k + 1] == [order[0]] + rest[..k] && order[k + 2..] == rest[k + 1..];
    }
  }

  lemma {:induction false} KeptIsWithout(order: seq<string>, id: string)
    requires Distinct(order)
    ensures Kept(order, {id}) == Without(order, id)
    ensures id !in order ==> Kept(order, {id}) == order
  {
    if order != [] {
      hide Without;
      WithoutStep(order, id);
      KeptIsWithout(order[1..], id);
      assert order == [order[0]] + order[1..] && order[0] !in order[1..];
    }
  }

  lemma PrefixStep(order: seq<string>, i: nat, drop: set<string>)
    requires Distinct(order) && i < |order|
    ensures Kept(order[..i + 1], drop) == Kept(order[..i], drop) + if order[i] in drop then [] else [order[i]]
    ensures forall id :: id in order[..i + 1] <==> id in order[..i] || id == order[i]
    ensures order[i] !in order[..i]
  {
    assert order[..i + 1] == order[..i] + [order[i]];
    KeptAppend(order[..i], order[i], drop);
  }

  lemma {:induction false} OrderedAppend<V>(order: seq<string>, m: map<string, V>, ids: seq<string>, more: map<string, V>)
    requires Ordered(order, m) && Ordered(ids, more) && m.Keys !! more.Keys
    ensures Ordered(order + ids, m + more)
  {
    var all := order + ids;
    forall i, j | 0 <= i < j < |all| ensures all[i] != all[j] {
      if i < |order| <= j {
        assert all[i] in order && all[j] in ids;
      }
    }
  }

  lemma {:induction false} SetSize(ids: seq<string>, all: set<string>)
    requires Distinct(ids) && forall id :: id in ids <==> id in all
    ensures |all| == |ids|
  {
    if ids != [] {
      SetSize(ids[1..], all - {ids[0]});
    }
  }
}

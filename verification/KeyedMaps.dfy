/**
 Maps whose entries carry an optional key of their own (a name, a credential
 identifier) that no two entries may share.
 */
module KeyedMaps {
  import opened Prelude

  /** Some entry outside `except` already has this key. */
  ghost predicate Taken<V, K>(m: map<string, V>, keyOf: V -> Option<K>, key: Option<K>, except: set<string>) {
    key.Some? && exists x :: x in m && x !in except && keyOf(m[x]) == key
  }

  /** No entry but that of `id` is added, removed or changed. */
  ghost predicate OthersSame<V>(m: map<string, V>, m': map<string, V>, id: string) {
    forall k :: k != id ==> (k in m <==> k in m') && (k in m ==> m'[k] == m[k])
  }

  ghost predicate Unique<V, K>(m: map<string, V>, keyOf: V -> Option<K>) {
    forall x, y :: x in m && y in m && keyOf(m[x]).Some? && keyOf(m[x]) == keyOf(m[y]) ==> x == y
  }

  lemma UniqueUpdate<V, K>(m: map<string, V>, keyOf: V -> Option<K>, id: string, v: V)
    requires Unique(m, keyOf) && !Taken(m, keyOf, keyOf(v), {id})
    ensures Unique(m[id := v], keyOf)
  {
    forall y | y in m && y != id ensures keyOf(v).Some? ==> keyOf(m[y]) != keyOf(v) {
      assert y !in {id};
    }
  }

  lemma NewNameIsUnique<V, K>(m: map<string, V>, keyOf: V -> Option<K>, id: string, v: V)
    requires Unique(m, keyOf) && !Taken(m, keyOf, keyOf(v), {})
    ensures Unique(m[id := v], keyOf)
  {
    FreshTaken(m, keyOf, keyOf(v), id);
    UniqueUpdate(m, keyOf, id, v);
  }

  lemma FreshTaken<V, K>(m: map<string, V>, keyOf: V -> Option<K>, key: Option<K>, id: string)
    requires !Taken(m, keyOf, key, {})
    ensures !Taken(m, keyOf, key, {id})
  {
  }

  lemma OneMore<V>(m: map<string, V>, id: string, v: V)
    requires id !in m
    ensures |m[id := v]| == |m| + 1
  {
    assert m[id := v].Keys == m.Keys + {id};
    assert |m[id := v]| == |m[id := v].Keys| && |m| == |m.Keys|;
  }

  lemma UniqueSameKeys<V, K>(m: map<string, V>, m': map<string, V>, keyOf: V -> Option<K>)
    requires Unique(m, keyOf) && m'.Keys <= m.Keys
    requires forall x :: x in m' ==> keyOf(m'[x]) == keyOf(m[x])
    ensures Unique(m', keyOf)
  {
    forall x, y | x in m' && y in m' && keyOf(m'[x]).Some? && keyOf(m'[x]) == keyOf(m'[y]) ensures x == y {
      assert keyOf(m[x]) == keyOf(m[y]);
    }
  }

  /** The scan every create and update makes; the map may be walked in any order. */
  method IsTaken<V, K(==)>(m: map<string, V>, keyOf: V -> Option<K>, key: Option<K>, except: set<string>) returns (taken: bool)
    ensures taken == Taken(m, keyOf, key, except)
  {
    var todo := m.Keys;
    while todo != {}
      invariant todo <= m.Keys
      invariant key.Some? ==> forall x :: x in m && x !in except && keyOf(m[x]) == key ==> x in todo
      decreases |todo|
    {
      var x :| x in todo;
      if key.Some? && x !in except && keyOf(m[x]) == key {
        return true;
      }
      todo := todo - {x};
    }
    taken := false;
  }

  /** The entry with the key, whatever order the map is walked in: it is the only one. */
  method Find<V, K(==)>(m: map<string, V>, keyOf: V -> Option<K>, key: K) returns (found: Option<string>)
    ensures found.None? <==> !Taken(m, keyOf, Some(key), {})
    ensures found.Some? ==> found.value in m && keyOf(m[found.value]) == Some(key)
    ensures found.Some? && Unique(m, keyOf) ==> forall x :: x in m && keyOf(m[x]) == Some(key) ==> x == found.value
  {
    var todo := m.Keys;
    while todo != {}
      invariant todo <= m.Keys
      invariant forall x :: x in m && keyOf(m[x]) == Some(key) ==> x in todo
      decreases |todo|
    {
      var x :| x in todo;
      if keyOf(m[x]) == Some(key) {
        return Some(x);
      }
      todo := todo - {x};
    }
    found := None;
  }

  /** Whether some entry passes a test, walking the map in any order. */
  method Any<V>(m: map<string, V>, test: V -> bool) returns (found: bool)
    ensures found == exists x :: x in m && test(m[x])
  {
    var todo := m.Keys;
    while todo != {}
      invariant todo <= m.Keys
      invariant forall x :: x in m && test(m[x]) ==> x in todo
      decreases |todo|
    {
      var x :| x in todo;
      if test(m[x]) {
        return true;
      }
      todo := todo - {x};
    }
    found := false;
  }

  /** Rewrites every entry in turn, in any order. */
  method Rewrite<V>(m: map<string, V>, f: V -> V) returns (r: map<string, V>)
    ensures r == map x | x in m :: f(m[x])
  {
    r := m;
    var todo := m.Keys;
    while todo != {}
      invariant todo <= m.Keys && r.Keys == m.Keys
      invariant forall x :: x in m ==> r[x] == if x in todo then m[x] else f(m[x])
      decreases |todo|
    {
      var x :| x in todo;
      r := r[x := f(r[x])];
      todo := todo - {x};
    }
  }
}

/**
 What the six body phases (allow, remove, rename, replace, add, append) do to a
 JSON object, phase by phase, as a function of the configured lists.
 */
module TransformSpec {
  import opened Prelude
  import opened JsonTree
  import opened Strings

  /** The path that a dotted key names. */
  function PathOf(key: string): Path {
    Split(key, '.')
  }

  /** Keys and paths of dot-free segments correspond one to one. */
  lemma KeysNamePaths(a: string, b: string, p: Path)
    ensures PathOf(a) == PathOf(b) <==> a == b
    ensures (forall seg :: seg in p ==> '.' !in seg) <==> PathOf(Join(p, '.')) == p
  {
    SplitJoins(a, '.');
    SplitJoins(b, '.');
    SplitJoins(Join(p, '.'), '.');
    if forall seg :: seg in p ==> '.' !in seg {
      JoinSplits(p, '.');
    }
  }

  datatype KeyValue = KeyValue(key: Path, value: string)

  datatype RenamePair = RenamePair(from: Path, to: Path)

  /** The lists of one transformation; an absent phase is an empty list. */
  datatype BodyOps = BodyOps(
    allow: seq<Path>,
    remove: seq<Path>,
    rename: seq<RenamePair>,
    replace: seq<KeyValue>,
    add: seq<KeyValue>,
    append: seq<KeyValue>)

  function DeleteAll(o: Members, ps: seq<Path>): Members {
    if ps == [] then o else Delete(DeleteAll(o, Front(ps)), Last(ps))
  }

  function RenameAll(o: Members, rs: seq<RenamePair>): Members {
    if rs == [] then o else Rename(RenameAll(o, Front(rs)), Last(rs).from, Last(rs).to)
  }

  function ReplaceAll(o: Members, kvs: seq<KeyValue>): Members {
    if kvs == [] then o else Replace(ReplaceAll(o, Front(kvs)), Last(kvs).key, Scalar(Last(kvs).value))
  }

  function AddAll(o: Members, kvs: seq<KeyValue>): Members {
    if kvs == [] then o else Add(AddAll(o, Front(kvs)), Last(kvs).key, Scalar(Last(kvs).value))
  }

  function AppendAll(o: Members, kvs: seq<KeyValue>): Members {
    if kvs == [] then o else Append(AppendAll(o, Front(kvs)), Last(kvs).key, Scalar(Last(kvs).value))
  }

  function AllowOnly(o: Members, ps: seq<Path>): Members {
    if ps == [] then o else Retain(o, ps)
  }

  function Transform(o: Members, ops: BodyOps): Members {
    var allowed := AllowOnly(o, ops.allow);
    var removed := DeleteAll(allowed, ops.remove);
    var renamed := RenameAll(removed, ops.rename);
    var replaced := ReplaceAll(renamed, ops.replace);
    var added := AddAll(replaced, ops.add);
    AppendAll(added, ops.append)
  }

  // ---------------------------------------------------------------- remove

  ghost predicate Covered(ps: seq<Path>, q: Path) {
    exists i :: 0 <= i < |ps| && ps[i] <= q
  }

  /** The remove phase takes away exactly the listed subtrees, whatever the order of the list. */
  lemma {:induction false} RemovePhase(o: Members, ps: seq<Path>, q: Path)
    ensures Look(DeleteAll(o, ps), q) == if Covered(ps, q) then Absent else Look(o, q)
  {
    if ps != [] {
      var p := Last(ps);
      RemovePhase(o, Front(ps), q);
      GetAfterDelete(DeleteAll(o, Front(ps)), p, q);
      PrefixCases(p, q);
      assert forall i :: 0 <= i < |ps| - 1 ==> Front(ps)[i] == ps[i];
      assert Covered(ps, q) <==> Covered(Front(ps), q) || p <= q;
    }
  }

  // ---------------------------------------------------------------- replace

  /** Replacing touches only keys that are there: no absent path ever becomes present. */
  lemma {:induction false} ReplaceOnlyExisting(o: Members, kvs: seq<KeyValue>, q: Path)
    requires Get(ReplaceAll(o, kvs), q).Some?
    ensures Get(o, q).Some?
  {
    if kvs != [] {
      var before := ReplaceAll(o, Front(kvs));
      var p := Last(kvs).key;
      if Get(before, p).Some? {
        GetAfterSet(before, p, Scalar(Last(kvs).value), q);
        PrefixCases(p, q);
        if q < p {
          AncestorsAreObjects(before, q, p);
        }
      }
      ReplaceOnlyExisting(o, Front(kvs), q);
    }
  }

  /** A path disappears in the replace phase only below a replaced key. */
  lemma {:induction false} ReplaceLosesOnlyBelow(o: Members, kvs: seq<KeyValue>, q: Path)
    requires Get(o, q).Some?
    requires forall i :: 0 <= i < |kvs| ==> !(kvs[i].key < q)
    ensures Get(ReplaceAll(o, kvs), q).Some?
    ensures (forall i :: 0 <= i < |kvs| ==> kvs[i].key != q && !(q < kvs[i].key)) ==>
              Get(ReplaceAll(o, kvs), q) == Get(o, q)
  {
    if kvs != [] {
      assert forall i :: 0 <= i < |kvs| - 1 ==> Front(kvs)[i] == kvs[i];
      ReplaceLosesOnlyBelow(o, Front(kvs), q);
      var p := Last(kvs).key;
      GetAfterSet(ReplaceAll(o, Front(kvs)), p, Scalar(Last(kvs).value), q);
      PrefixCases(p, q);
    }
  }

  // ---------------------------------------------------------------- add

  /** Adding leaves every present path alone that is not a proper prefix of an added key. */
  lemma {:induction false} AddKeepsPresent(o: Members, kvs: seq<KeyValue>, q: Path)
    requires Get(o, q).Some?
    requires forall i :: 0 <= i < |kvs| ==> !(q < kvs[i].key)
    ensures Get(AddAll(o, kvs), q) == Get(o, q)
  {
    if kvs != [] {
      assert forall i :: 0 <= i < |kvs| - 1 ==> Front(kvs)[i] == kvs[i];
      AddKeepsPresent(o, Front(kvs), q);
      var before := AddAll(o, Front(kvs));
      var p := Last(kvs).key;
      if Get(before, p).None? {
        GetAfterSet(before, p, Scalar(Last(kvs).value), q);
        PrefixCases(p, q);
        if p < q {
          AncestorsAreObjects(before, p, q);
        }
      }
    }
  }

  /** After the add phase every added key is there, and everything that was there still is. */
  lemma {:induction false} AddMakesPresent(o: Members, kvs: seq<KeyValue>, q: Path)
    requires Get(o, q).Some? || exists i :: 0 <= i < |kvs| && kvs[i].key == q
    ensures Get(AddAll(o, kvs), q).Some?
  {
    if kvs != [] {
      var before := AddAll(o, Front(kvs));
      var p := Last(kvs).key;
      if p != q {
        if i :| 0 <= i < |kvs| && kvs[i].key == q {
          assert Front(kvs)[i].key == q;
        }
        AddMakesPresent(o, Front(kvs), q);
      }
      if Get(before, p).None? {
        GetAfterSet(before, p, Scalar(Last(kvs).value), q);
        PrefixCases(p, q);
        if p < q && Get(before, q).Some? {
          AncestorsAreObjects(before, p, q);
        }
      }
    }
  }

  /** The values a reader loses: non-object values that adding at `p` overwrites with an object. */
  ghost predicate LeafAbove(o: Members, p: Path, q: Path) {
    q < p && Look(o, q).Leaf?
  }

  /** A leaf with an added key below it is overwritten if that key was missing. */
  lemma LeafAboveIsLost(o: Members, kvs: seq<KeyValue>, i: nat, q: Path)
    requires i < |kvs| && LeafAbove(o, kvs[i].key, q)
    ensures Get(o, kvs[i].key).None?
    ensures Get(AddAll(o, kvs), q) != Get(o, q)
  {
    if Get(o, kvs[i].key).Some? {
      AncestorsAreObjects(o, q, kvs[i].key);
    }
    AddMakesPresent(o, kvs, kvs[i].key);
    AncestorsAreObjects(AddAll(o, kvs), q, kvs[i].key);
  }

  /**
   The documentation says that adding touches missing keys only. The code
   overwrites a scalar (or array) ancestor of a missing key; all other values
   stay. So the promise holds exactly for lists in which every key is present
   already or has no such ancestor.
   */
  lemma AddTouchesOnlyMissing(o: Members, kvs: seq<KeyValue>)
    ensures (forall q: Path :: Look(o, q).Leaf? ==> Get(AddAll(o, kvs), q) == Get(o, q))
            <==> forall i :: 0 <= i < |kvs| ==>
                   Get(o, kvs[i].key).Some? || forall q: Path :: !LeafAbove(o, kvs[i].key, q)
  {
    forall i, q: Path | 0 <= i < |kvs| && LeafAbove(o, kvs[i].key, q)
      ensures Get(o, kvs[i].key).None? && Look(o, q).Leaf? && Get(AddAll(o, kvs), q) != Get(o, q)
    {
      LeafAboveIsLost(o, kvs, i, q);
    }
    forall q: Path | Look(o, q).Leaf? && forall i :: 0 <= i < |kvs| ==> !LeafAbove(o, kvs[i].key, q)
      ensures Get(AddAll(o, kvs), q) == Get(o, q)
    {
      AddKeepsPresent(o, kvs, q);
    }
  }

  /** `{"a": 1}` with `a.b` added loses the 1. */
  lemma AddOverwritesScalarExample()
    ensures var o: Members := map["a" := Scalar("1")];
            Get(o, ["a"]) == Some(Scalar("1")) &&
            Get(Add(o, ["a", "b"], Scalar("x")), ["a"]) == Some(Object(map["b" := Scalar("x")]))
  {
    var o: Members := map["a" := Scalar("1")];
    var ab: Path := ["a", "b"];
    assert ab[1..] == ["b"];
    assert Set(map[], ["b"], Scalar("x")) == map["b" := Scalar("x")];
  }

  // ---------------------------------------------------------------- append

  function ScalarsOf(vs: seq<string>): seq<Json> {
    seq(|vs|, i requires 0 <= i < |vs| => Scalar(vs[i]))
  }

  /** The values that a list appends at one path, in order. */
  function ValuesAt(kvs: seq<KeyValue>, p: Path): seq<string> {
    if kvs == [] then [] else ValuesAt(Front(kvs), p) + if Last(kvs).key == p then [Last(kvs).value] else []
  }

  /** The flat list of what was there followed by the values; a single value alone if nothing was. */
  function Accumulated(current: Option<Json>, vs: seq<string>): Option<Json> {
    if vs == [] then current
    else match current
      case None => if |vs| == 1 then Some(Scalar(vs[0])) else Some(Array(ScalarsOf(vs)))
      case Some(Array(items)) => Some(Array(items + ScalarsOf(vs)))
      case Some(j) => Some(Array([j] + ScalarsOf(vs)))
  }

  lemma AccumulateLast(current: Option<Json>, vs: seq<string>, v: string)
    ensures Some(Accumulate(Accumulated(current, vs), Scalar(v))) == Accumulated(current, vs + [v])
  {
    assert ScalarsOf(vs + [v]) == ScalarsOf(vs) + [Scalar(v)];
    if vs == [] {
      assert vs + [v] == [v] && ScalarsOf([v]) == [Scalar(v)];
      match current
      case Some(j) => assert [j] + [Scalar(v)] == [j, Scalar(v)];
      case None =>
    } else {
      match current
      case None =>
        if |vs| == 1 {
          assert ScalarsOf(vs) + [Scalar(v)] == [Scalar(vs[0]), Scalar(v)];
        }
      case Some(Array(items)) => assert items + ScalarsOf(vs) + [Scalar(v)] == items + (ScalarsOf(vs) + [Scalar(v)]);
      case Some(j) => assert [j] + ScalarsOf(vs) + [Scalar(v)] == [j] + (ScalarsOf(vs) + [Scalar(v)]);
    }
  }

  /**
   Appending v1..vn at a path yields the flat list of the old value followed by
   v1..vn, however appends elsewhere are mixed in.
   */
  lemma {:induction false} AppendPhase(o: Members, kvs: seq<KeyValue>, p: Path)
    requires forall i :: 0 <= i < |kvs| ==> kvs[i].key == p || Incomparable(kvs[i].key, p)
    ensures Get(AppendAll(o, kvs), p) == Accumulated(Get(o, p), ValuesAt(kvs, p))
    decreases |kvs|
  {
    if kvs != [] {
      assert forall i :: 0 <= i < |Front(kvs)| ==> Front(kvs)[i] == kvs[i];
      AppendPhase(o, Front(kvs), p);
      var before, last := AppendAll(o, Front(kvs)), Last(kvs);
      GetAfterSet(before, last.key, Accumulate(Get(before, last.key), Scalar(last.value)), p);
      assert last.key != p ==> ValuesAt(kvs, p) == ValuesAt(Front(kvs), p);
      if last.key == p {
        AccumulateLast(Get(o, p), ValuesAt(Front(kvs), p), last.value);
      }
    }
  }

  // ---------------------------------------------------------------- rename

  /** What the old path of a rename reads afterwards: nothing, unless the new one lies at, above or below it. */
  function LeftBehind(from: Path, to: Path, v: Json): Option<Json> {
    if from == to then Some(v)
    else if to < from then (if v.Object? then Get(v.members, from[|to|..]) else None)
    else if from < to then Some(Object(Set(map[], to[|from|..], v)))
    else None
  }

  /** Renaming a present path moves its value; everything away from both paths stays. */
  lemma {:induction false} RenameMoves(o: Members, from: Path, to: Path)
    requires Get(o, from).Some?
    ensures Get(Rename(o, from, to), to) == Get(o, from)
    ensures from == to ==> Rename(o, from, to) == o
    ensures Get(Rename(o, from, to), from) == LeftBehind(from, to, Get(o, from).value)
    ensures forall q: Path :: Incomparable(q, from) && Incomparable(q, to) ==> Get(Rename(o, from, to), q) == Get(o, q)
  {
    var v := Get(o, from).value;
    var d := Delete(o, from);
    GetAfterSet(d, to, v, to);
    if from == to {
      SetUndoesDelete(o, from, v);
    }
    GetAfterDelete(o, from, from);
    GetAfterSet(d, to, v, from);
    PrefixCases(from, to);
    forall q: Path | Incomparable(q, from) && Incomparable(q, to)
      ensures Get(Rename(o, from, to), q) == Get(o, q)
    {
      GetAfterDelete(o, from, q);
      GetAfterSet(d, to, v, q);
    }
  }

  // ---------------------------------------------------------------- whole pipeline

  ghost predicate ApartFrom(ps: seq<Path>, q: Path) {
    forall i :: 0 <= i < |ps| ==> Incomparable(ps[i], q)
  }

  ghost predicate ApartFromKeys(kvs: seq<KeyValue>, q: Path) {
    forall i :: 0 <= i < |kvs| ==> Incomparable(kvs[i].key, q)
  }

  ghost predicate ApartFromPairs(rs: seq<RenamePair>, q: Path) {
    forall i :: 0 <= i < |rs| ==> Incomparable(rs[i].from, q) && Incomparable(rs[i].to, q)
  }

  /** The path is allowed, and no later phase names it, an ancestor of it or anything below it. */
  ghost predicate Untouched(o: Members, ops: BodyOps, q: Path) {
    && (ops.allow == [] || Listed(o, ops.allow, q))
    && ApartFrom(ops.remove, q)
    && ApartFromPairs(ops.rename, q)
    && ApartFromKeys(ops.replace, q)
    && ApartFromKeys(ops.add, q)
    && ApartFromKeys(ops.append, q)
  }

  lemma {:induction false} UntouchedKeepsValue(o: Members, ops: BodyOps, q: Path)
    requires Untouched(o, ops, q)
    ensures Get(Transform(o, ops), q) == Get(o, q)
  {
    var allowed := AllowOnly(o, ops.allow);
    if ops.allow != [] {
      RetainKeepsListed(o, ops.allow, q);
    }
    var removed := DeleteAll(allowed, ops.remove);
    RemoveFrame(allowed, ops.remove, q);
    var renamed := RenameAll(removed, ops.rename);
    RenameFrame(removed, ops.rename, q);
    var replaced := ReplaceAll(renamed, ops.replace);
    ReplaceFrame(renamed, ops.replace, q);
    var added := AddAll(replaced, ops.add);
    AddFrame(replaced, ops.add, q);
    AppendFrame(added, ops.append, q);
  }

  lemma {:induction false} RemoveFrame(o: Members, ps: seq<Path>, q: Path)
    requires ApartFrom(ps, q)
    ensures Get(DeleteAll(o, ps), q) == Get(o, q)
  {
    if ps != [] {
      RemoveFrame(o, Front(ps), q);
      GetAfterDelete(DeleteAll(o, Front(ps)), Last(ps), q);
    }
  }

  lemma {:induction false} RenameFrame(o: Members, rs: seq<RenamePair>, q: Path)
    requires ApartFromPairs(rs, q)
    ensures Get(RenameAll(o, rs), q) == Get(o, q)
  {
    if rs != [] {
      RenameFrame(o, Front(rs), q);
      var before := RenameAll(o, Front(rs));
      if Get(before, Last(rs).from).Some? {
        RenameMoves(before, Last(rs).from, Last(rs).to);
      }
    }
  }

  lemma {:induction false} ReplaceFrame(o: Members, kvs: seq<KeyValue>, q: Path)
    requires ApartFromKeys(kvs, q)
    ensures Get(ReplaceAll(o, kvs), q) == Get(o, q)
  {
    if kvs != [] {
      ReplaceFrame(o, Front(kvs), q);
      GetAfterSet(ReplaceAll(o, Front(kvs)), Last(kvs).key, Scalar(Last(kvs).value), q);
    }
  }

  lemma {:induction false} AddFrame(o: Members, kvs: seq<KeyValue>, q: Path)
    requires ApartFromKeys(kvs, q)
    ensures Get(AddAll(o, kvs), q) == Get(o, q)
  {
    if kvs != [] {
      AddFrame(o, Front(kvs), q);
      GetAfterSet(AddAll(o, Front(kvs)), Last(kvs).key, Scalar(Last(kvs).value), q);
    }
  }

  lemma {:induction false} AppendFrame(o: Members, kvs: seq<KeyValue>, q: Path)
    requires ApartFromKeys(kvs, q)
    ensures Get(AppendAll(o, kvs), q) == Get(o, q)
  {
    if kvs != [] {
      AppendFrame(o, Front(kvs), q);
      var before := AppendAll(o, Front(kvs));
      var p := Last(kvs).key;
      GetAfterSet(before, p, Accumulate(Get(before, p), Scalar(Last(kvs).value)), q);
    }
  }
}

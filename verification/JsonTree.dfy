/**
 JSON documents as values, and what the transformer's dotted-path operations
 do to them. These functions are the specification that the in-place code of
 `JsonHeap` is proved against; the lemmas say what the operations mean.
 */
module JsonTree {
  import opened Prelude

  datatype Json =
    | Scalar(text: string)
    | Array(items: seq<Json>)
    | Object(members: Members)

  type Members = map<string, Json>

  /** The segments of a dotted path; splitting a string always gives at least one. */
  type Path = p: seq<string> | 0 < |p| witness [""]

  /** Neither path lies at, above or below the other. */
  predicate Incomparable(p: seq<string>, q: seq<string>) {
    !(p <= q) && !(q <= p)
  }

  lemma PrefixCases(p: seq<string>, q: seq<string>)
    ensures p == q || p < q || q < p || Incomparable(p, q)
    ensures p <= q <==> p == q || p < q
  {
    if p <= q && |p| == |q| {
      assert p == q;
    }
    if q <= p && |p| == |q| {
      assert p == q;
    }
  }

  // ---------------------------------------------------------------- operations

  function ChildMembers(o: Members, key: string): Option<Members> {
    if key in o && o[key].Object? then Some(o[key].members) else None
  }

  function ChildOrEmpty(o: Members, key: string): Members {
    match ChildMembers(o, key)
    case Some(m) => m
    case None => map[]
  }

  function Get(o: Members, p: Path): Option<Json>
    decreases |p|
  {
    if |p| == 1 then
      if p[0] in o then Some(o[p[0]]) else None
    else
      match ChildMembers(o, p[0])
      case Some(m) => Get(m, p[1..])
      case None => None
  }

  /** Every missing or non-object ancestor becomes an object. */
  function Set(o: Members, p: Path, v: Json): Members
    decreases |p|
  {
    if |p| == 1 then o[p[0] := v]
    else
      var child := ChildOrEmpty(o, p[0]);
      o[p[0] := Object(Set(child, p[1..], v))]
  }

  function Delete(o: Members, p: Path): Members
    decreases |p|
  {
    if |p| == 1 then o - {p[0]}
    else
      match ChildMembers(o, p[0])
      case Some(m) => o[p[0] := Object(Delete(m, p[1..]))]
      case None => o
  }

  /** The value that appending `v` leaves at a path holding `current`. */
  function Accumulate(current: Option<Json>, v: Json): Json {
    match current
    case None => v
    case Some(Array(items)) => Array(items + [v])
    case Some(j) => Array([j, v])
  }

  function Append(o: Members, p: Path, v: Json): Members {
    Set(o, p, Accumulate(Get(o, p), v))
  }

  function Rename(o: Members, from: Path, to: Path): Members {
    match Get(o, from)
    case Some(v) => Set(Delete(o, from), to, v)
    case None => o
  }

  function Replace(o: Members, p: Path, v: Json): Members {
    if Get(o, p).Some? then Set(o, p, v) else o
  }

  function Add(o: Members, p: Path, v: Json): Members {
    if Get(o, p).Some? then o else Set(o, p, v)
  }

  /** What collecting the listed paths into an empty object, one after the other, gives. */
  function Retain(o: Members, ps: seq<Path>): Members {
    if ps == [] then map[]
    else
      var kept := Retain(o, Front(ps));
      match Get(o, Last(ps))
      case Some(v) => Set(kept, Last(ps), v)
      case None => kept
  }

  // ---------------------------------------------------------------- reading at a path

  /** What a reader sees at a path: nothing, an object, or a non-object value. */
  datatype Shape = Absent | Inner | Leaf(value: Json)

  function ShapeOf(v: Option<Json>): Shape {
    match v
    case None => Absent
    case Some(Object(_)) => Inner
    case Some(j) => Leaf(j)
  }

  function Look(o: Members, p: Path): Shape {
    ShapeOf(Get(o, p))
  }

  /** Reading below a path goes through the value at it. */
  lemma {:induction false} GetBelow(o: Members, p: Path, r: Path)
    ensures Get(o, p + r) ==
            match Get(o, p)
            case Some(Object(m)) => Get(m, r)
            case _ => None
    decreases |p|
  {
    assert (p + r)[0] == p[0];
    if |p| == 1 {
      assert (p + r)[1..] == r;
    } else {
      assert (p + r)[1..] == p[1..] + r;
      match ChildMembers(o, p[0])
      case Some(m) => GetBelow(m, p[1..], r);
      case None =>
    }
  }

  /** A present path has objects at all its proper ancestors. */
  lemma {:induction false} AncestorsAreObjects(o: Members, q: Path, p: Path)
    requires q < p && Get(o, p).Some?
    ensures Get(o, q).Some? && Get(o, q).value.Object?
    ensures Get(Get(o, q).value.members, p[|q|..]) == Get(o, p)
  {
    var r: Path := p[|q|..];
    assert q + r == p;
    GetBelow(o, q, r);
  }

  /** Two objects that look the same at every path are equal. */
  lemma {:induction false} Extensionality(a: Members, b: Members)
    requires forall q: Path :: Look(a, q) == Look(b, q)
    ensures a == b
    decreases Object(a)
  {
    forall k: string
      ensures k in a <==> k in b
      ensures k in a ==> a[k] == b[k]
    {
      assert Look(a, [k]) == Look(b, [k]);
      if k in a && a[k].Object? {
        forall q: Path ensures Look(a[k].members, q) == Look(b[k].members, q) {
          assert Look(a, [k] + q) == Look(b, [k] + q);
          GetBelow(a, [k], q);
          GetBelow(b, [k], q);
        }
        Extensionality(a[k].members, b[k].members);
      }
    }
  }

  // ---------------------------------------------------------------- lens laws

  lemma GetStep(o: Members, q: Path)
    requires |q| > 1
    ensures Get(o, q) == Get(ChildOrEmpty(o, q[0]), q[1..])
  {
    GetEmpty(q[1..]);
  }

  /** What any path reads after a set: the value and its inside, an object above, the old value elsewhere. */
  lemma {:induction false} GetAfterSet(o: Members, p: Path, v: Json, q: Path)
    ensures p == q ==> Get(Set(o, p, v), q) == Some(v)
    ensures p < q ==> Get(Set(o, p, v), q) == if v.Object? then Get(v.members, q[|p|..]) else None
    ensures q < p ==>
              Get(Set(o, p, v), q) ==
              Some(Object(Set(match Get(o, q) case Some(Object(m)) => m case _ => map[], p[|q|..], v)))
    ensures Incomparable(p, q) ==> Get(Set(o, p, v), q) == Get(o, q)
    decreases |p|
  {
    if |p| > 1 && |q| > 1 && p[0] == q[0] {
      GetStep(o, q);
      GetStep(Set(o, p, v), q);
      assert ChildOrEmpty(Set(o, p, v), q[0]) == Set(ChildOrEmpty(o, p[0]), p[1..], v);
      hide Get, Set;
      GetAfterSet(ChildOrEmpty(o, p[0]), p[1..], v, q[1..]);
      assert p < q ==> q[1..][|p[1..]|..] == q[|p|..];
      assert q < p ==> p[1..][|q[1..]|..] == p[|q|..];
      assert p <= q <==> p[1..] <= q[1..];
      assert q <= p <==> q[1..] <= p[1..];
    } else if |q| > 1 && |p| == 1 && p[0] == q[0] {
      assert q[1..] == q[|p|..];
    } else if |p| > 1 && |q| == 1 && p[0] == q[0] {
      assert p[1..] == p[|q|..];
    }
  }

  lemma GetEmpty(q: Path)
    ensures Get(map[], q) == None
  {
  }

  /** Writing back what a path already holds changes nothing. */
  lemma {:induction false} SetGetIdentity(o: Members, p: Path, v: Json)
    requires Get(o, p) == Some(v)
    ensures Set(o, p, v) == o
    decreases |p|
  {
    if |p| > 1 {
      SetGetIdentity(o[p[0]].members, p[1..], v);
    }
  }

  /** The last of two sets at one path wins. */
  lemma {:induction false} SetTwice(o: Members, p: Path, v: Json, w: Json)
    ensures Set(Set(o, p, v), p, w) == Set(o, p, w)
    decreases |p|
  {
    if |p| > 1 {
      var child := ChildOrEmpty(o, p[0]);
      SetTwice(child, p[1..], v, w);
    }
  }

  lemma {:induction false} SetsCommute(o: Members, p: Path, v: Json, q: Path, w: Json)
    requires Incomparable(p, q)
    ensures Set(Set(o, p, v), q, w) == Set(Set(o, q, w), p, v)
    decreases |p|
  {
    if p[0] == q[0] {
      assert p[1..] <= q[1..] ==> p <= q;
      assert q[1..] <= p[1..] ==> q <= p;
      SetsCommute(ChildOrEmpty(o, p[0]), p[1..], v, q[1..], w);
      SetBelow(o, p, v, q[1..], w);
      SetBelow(o, q, w, p[1..], v);
      assert q == [p[0]] + q[1..] && p == [q[0]] + p[1..];
    } else {
      SetsAtDistinctKeysCommute(o, p, v, q, w);
    }
  }

  lemma SetsAtDistinctKeysCommute(o: Members, p: Path, v: Json, q: Path, w: Json)
    requires p[0] != q[0]
    ensures Set(Set(o, p, v), q, w) == Set(Set(o, q, w), p, v)
  {
    var x, y := NewMember(o, p, v), NewMember(o, q, w);
    SetAtKey(o, p, v);
    SetAtKey(o, q, w);
    NewMemberFrame(o, p[0], x, q, w);
    NewMemberFrame(o, q[0], y, p, v);
    SetAtKey(o[p[0] := x], q, w);
    SetAtKey(o[q[0] := y], p, v);
    assert o[p[0] := x][q[0] := y] == o[q[0] := y][p[0] := x];
  }

  /** The member that a set puts under the first segment of its path. */
  ghost function NewMember(o: Members, p: Path, v: Json): Json {
    if |p| == 1 then v else Object(Set(ChildOrEmpty(o, p[0]), p[1..], v))
  }

  lemma NewMemberFrame(o: Members, key: string, x: Json, p: Path, v: Json)
    requires key != p[0]
    ensures NewMember(o[key := x], p, v) == NewMember(o, p, v)
  {
  }

  /** A set changes only the member its path starts with, reading only that member. */
  lemma SetAtKey(o: Members, p: Path, v: Json)
    ensures Set(o, p, v) == o[p[0] := NewMember(o, p, v)]
  {
  }

  lemma SetBelow(o: Members, p: Path, v: Json, q: Path, w: Json)
    requires |p| > 1
    ensures Set(Set(o, p, v), [p[0]] + q, w) ==
            o[p[0] := Object(Set(Set(ChildOrEmpty(o, p[0]), p[1..], v), q, w))]
  {
    assert ([p[0]] + q)[1..] == q;
  }

  /** What any path reads after a delete. */
  lemma {:induction false} GetAfterDelete(o: Members, p: Path, q: Path)
    ensures p <= q ==> Get(Delete(o, p), q) == None
    ensures q < p ==>
              Get(Delete(o, p), q) ==
              match Get(o, q)
              case Some(Object(m)) => Some(Object(Delete(m, p[|q|..])))
              case other => other
    ensures Incomparable(p, q) ==> Get(Delete(o, p), q) == Get(o, q)
    decreases |p|
  {
    if |p| > 1 && |q| > 1 && p[0] == q[0] {
      match ChildMembers(o, p[0])
      case Some(m) =>
        GetAfterDelete(m, p[1..], q[1..]);
        assert q < p ==> p[1..][|q[1..]|..] == p[|q|..];
        assert p <= q <==> p[1..] <= q[1..];
        assert q <= p <==> q[1..] <= p[1..];
      case None =>
    } else if |p| > 1 && |q| == 1 && p[0] == q[0] {
      assert p[1..] == p[|q|..];
    }
  }

  /** A delete is a no-operation exactly on absent paths. */
  lemma {:induction false} DeleteIsIdentity(o: Members, p: Path)
    ensures Delete(o, p) == o <==> Get(o, p) == None
    decreases |p|
  {
    if |p| > 1 {
      match ChildMembers(o, p[0])
      case Some(m) => DeleteIsIdentity(m, p[1..]);
      case None =>
    } else if p[0] in o {
      assert p[0] !in Delete(o, p);
    }
  }

  /** Renaming a path to itself is a no-operation. */
  lemma {:induction false} SetUndoesDelete(o: Members, p: Path, v: Json)
    requires Get(o, p) == Some(v)
    ensures Set(Delete(o, p), p, v) == o
    decreases |p|
  {
    if |p| > 1 {
      SetUndoesDelete(o[p[0]].members, p[1..], v);
    }
  }

  /** The object that holds the last segment of the path, when all its ancestors are objects. */
  predicate HasParent(o: Members, p: Path) {
    |p| == 1 || Look(o, Front(p)) == Inner
  }

  /** Deleting a freshly added path restores the document exactly when its parent object was already there. */
  lemma {:induction false} DeleteUndoesSet(o: Members, p: Path, v: Json)
    requires Get(o, p) == None
    ensures Delete(Set(o, p, v), p) == o <==> HasParent(o, p)
    decreases |p|
  {
    if |p| == 1 {
    } else {
      var rest := p[1..];
      match ChildMembers(o, p[0])
      case Some(m) =>
        DeleteUndoesSet(m, rest, v);
        if |p| > 2 {
          GetBelow(o, [p[0]], Front(rest));
          assert [p[0]] + Front(rest) == Front(p);
        }
      case None =>
        assert p[0] in o ==> !o[p[0]].Object?;
        assert Delete(Set(o, p, v), p)[p[0]].Object?;
        if |p| > 2 {
          GetBelow(o, [p[0]], Front(rest));
          assert [p[0]] + Front(rest) == Front(p);
        }
    }
  }

  // ---------------------------------------------------------------- retain

  /** `q` lies at or below a listed path that the object has. */
  ghost predicate Listed(o: Members, ps: seq<Path>, q: Path) {
    exists i :: 0 <= i < |ps| && Get(o, ps[i]).Some? && ps[i] <= q
  }

  /** `q` is a proper ancestor of a listed path that the object has. */
  ghost predicate AboveListed(o: Members, ps: seq<Path>, q: Path) {
    exists i :: 0 <= i < |ps| && Get(o, ps[i]).Some? && q < ps[i]
  }

  lemma ListedStep(o: Members, ps: seq<Path>, q: Path)
    requires ps != []
    ensures Listed(o, ps, q) <==> Listed(o, Front(ps), q) || (Get(o, Last(ps)).Some? && Last(ps) <= q)
    ensures AboveListed(o, ps, q) <==> AboveListed(o, Front(ps), q) || (Get(o, Last(ps)).Some? && q < Last(ps))
  {
    var f := Front(ps);
    assert forall i :: 0 <= i < |f| ==> f[i] == ps[i];
    if Listed(o, f, q) {
      var i :| 0 <= i < |f| && Get(o, f[i]).Some? && f[i] <= q;
      assert Get(o, ps[i]).Some? && ps[i] <= q;
    }
    if AboveListed(o, f, q) {
      var i :| 0 <= i < |f| && Get(o, f[i]).Some? && q < f[i];
      assert Get(o, ps[i]).Some? && q < ps[i];
    }
  }

  /** Retaining leaves exactly the restriction of the object to the listed subtrees and their ancestors. */
  lemma {:induction false} RetainIsRestriction(o: Members, ps: seq<Path>, q: Path)
    ensures Look(Retain(o, ps), q) ==
            if Listed(o, ps, q) then Look(o, q)
            else if AboveListed(o, ps, q) then Inner
            else Absent
    decreases |ps|
  {
    if ps == [] {
      GetEmpty(q);
    } else {
      var p := Last(ps);
      RetainIsRestriction(o, Front(ps), q);
      ListedStep(o, ps, q);
      if Get(o, p).Some? {
        var v := Get(o, p).value;
        GetAfterSet(Retain(o, Front(ps)), p, v, q);
        PrefixCases(p, q);
        if p < q {
          GetBelow(o, p, q[|p|..]);
          assert p + q[|p|..] == q;
        } else if q < p {
          AncestorsAreObjects(o, q, p);
        }
      }
    }
  }

  /** A listed subtree is kept whole. */
  lemma {:induction false} RetainKeepsListed(o: Members, ps: seq<Path>, q: Path)
    requires Listed(o, ps, q)
    ensures Get(Retain(o, ps), q) == Get(o, q)
    decreases |ps|
  {
    var p := Last(ps);
    ListedStep(o, ps, q);
    if Listed(o, Front(ps), q) {
      RetainKeepsListed(o, Front(ps), q);
    }
    if Get(o, p).Some? {
      var v := Get(o, p).value;
      GetAfterSet(Retain(o, Front(ps)), p, v, q);
      PrefixCases(p, q);
      if p < q {
        GetBelow(o, p, q[|p|..]);
        assert p + q[|p|..] == q;
      } else if q < p {
        AncestorsAreObjects(o, q, p);
        SetGetIdentity(Get(o, q).value.members, p[|q|..], v);
      }
    }
  }

  /** The order and the repetition of the listed paths do not matter. */
  lemma {:induction false} RetainOrderIrrelevant(o: Members, ps: seq<Path>, qs: seq<Path>)
    requires forall p: Path :: p in ps <==> p in qs
    ensures Retain(o, ps) == Retain(o, qs)
  {
    forall q: Path ensures Look(Retain(o, ps), q) == Look(Retain(o, qs), q) {
      RetainIsRestriction(o, ps, q);
      RetainIsRestriction(o, qs, q);
      SameListed(o, ps, qs, q);
      SameListed(o, qs, ps, q);
    }
    Extensionality(Retain(o, ps), Retain(o, qs));
  }

  lemma SameListed(o: Members, ps: seq<Path>, qs: seq<Path>, q: Path)
    requires forall p: Path :: p in ps <==> p in qs
    ensures Listed(o, ps, q) ==> Listed(o, qs, q)
    ensures AboveListed(o, ps, q) ==> AboveListed(o, qs, q)
  {
    if Listed(o, ps, q) {
      var i :| 0 <= i < |ps| && Get(o, ps[i]).Some? && ps[i] <= q;
      assert ps[i] in qs;
    }
    if AboveListed(o, ps, q) {
      var i :| 0 <= i < |ps| && Get(o, ps[i]).Some? && q < ps[i];
      assert ps[i] in qs;
    }
  }

  lemma {:induction false} RetainIdempotent(o: Members, ps: seq<Path>)
    ensures Retain(Retain(o, ps), ps) == Retain(o, ps)
  {
    var r := Retain(o, ps);
    forall p: Path | p in ps ensures Get(r, p).Some? <==> Get(o, p).Some? {
      RetainIsRestriction(o, ps, p);
      if Get(o, p).Some? {
        assert Listed(o, ps, p);
      } else if AboveListed(o, ps, p) {
        var i :| 0 <= i < |ps| && Get(o, ps[i]).Some? && p < ps[i];
        AncestorsAreObjects(o, p, ps[i]);
      }
    }
    forall q: Path ensures Look(Retain(r, ps), q) == Look(r, q) {
      RetainIsRestriction(o, ps, q);
      RetainIsRestriction(r, ps, q);
      assert Listed(r, ps, q) <==> Listed(o, ps, q);
      assert AboveListed(r, ps, q) <==> AboveListed(o, ps, q);
    }
    Extensionality(Retain(r, ps), r);
  }
}

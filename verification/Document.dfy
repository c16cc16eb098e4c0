/**
 A JSON body under transformation: the root object, changed in place by the
 dotted-path operations. `value` is the document's value and `graph` the
 labelled nodes that hold it.
 */
module Document {
  import opened Prelude
  import opened JsonTree
  import opened JsonHeap
  import opened TransformSpec

  /** The node is on the path, and its next member is missing or not an object: creating ancestors writes there. */
  ghost predicate MayOpen(g: Graph, root: Node, segs: Path, n: Node) {
    exists i {:trigger segs[..i]} :: 0 <= i < |segs| - 1 &&
      NodeAt(g, root, segs[..i]) == Some(n) && ChildNode(g, n, segs[i]).None?
  }

  /** How a set may change a node: by hanging a new object below it, or by storing `v` under the last segment. */
  ghost predicate MayWrite(g: Graph, root: Node, segs: Path, n: Node, v: Value, fields: map<string, Value>) {
    || MayOpen(g, root, segs, n)
    || (NodeAt(g, root, Front(segs)) == Some(n) && n in g && fields == g[n].fields[Last(segs) := v])
  }

  lemma OpenedIsAbove(g: Graph, root: Node, o: Members, segs: Path, n: Node)
    requires Rep(g, VObject(root), Object(o), [])
    requires MayOpen(g, root, segs, n)
    ensures n in g && !(KeyPlace(segs) <= g[n].place)
  {
    var i :| 0 <= i < |segs| - 1 && NodeAt(g, root, segs[..i]) == Some(n) && ChildNode(g, n, segs[i]).None?;
    NodeLabel(g, root, o, segs[..i]);
  }

  /** The parent node of a path, if there is one, holds what the document has at the path. */
  lemma ParentHolds(g: Graph, root: Node, o: Members, segs: Path)
    requires Rep(g, VObject(root), Object(o), [])
    ensures HasParent(o, segs) <==> NodeAt(g, root, Front(segs)).Some?
    ensures HasParent(o, segs) ==>
              var c := NodeAt(g, root, Front(segs)).value;
              && c in g
              && (Get(o, segs).Some? <==> Last(segs) in g[c].fields)
              && (Get(o, segs).Some? ==> Rep(g, g[c].fields[Last(segs)], Get(o, segs).value, KeyPlace(segs)))
    ensures !HasParent(o, segs) ==> Get(o, segs).None?
  {
    NodeAtRep(g, root, o, [], Front(segs));
    if |segs| == 1 {
      assert KeyPlace(segs) == [] + [Key(segs[0])];
    } else {
      GetBelow(o, Front(segs), [Last(segs)]);
      assert Front(segs) + [Last(segs)] == segs;
      assert KeyPlace(segs) == [] + KeyPlace(Front(segs)) + [Key(Last(segs))];
    }
  }

  /** A value keeps its meaning when other nodes are labelled besides its own. */
  lemma RepUnion(vg: Graph, others: Graph, v: Value, j: Json, at: Place)
    requires Rep(vg, v, j, at)
    ensures Rep(others + vg, v, j, at)
  {
    RepFrame(vg, others + vg, v, j, at);
  }

  /** The graph after a node gets `v`, with nodes `vg`, as a member found at `at`. */
  ghost function Stored(g: Graph, c: Node, key: string, v: Value, at: Place, vg: Graph): Graph
    requires c in g
  {
    Outside(g, at)[c := Cell(g[c].place, g[c].fields[key := v])] + vg
  }

  /** After the parent's write, the document is the old one with the path set. */
  lemma StoredRep(g: Graph, root: Node, o: Members, segs: Path, parent: Node, v: Value, j: Json, vg: Graph)
    requires Rep(g, VObject(root), Object(o), [])
    requires NodeAt(g, root, Front(segs)) == Some(parent) && parent in g && parent !in vg
    requires Rep(vg, v, j, KeyPlace(segs))
    requires forall n :: n in vg && n in g ==> KeyPlace(segs) <= g[n].place
    ensures Rep(Stored(g, parent, Last(segs), v, KeyPlace(segs), vg), VObject(root), Object(Set(o, segs, j)), [])
  {
    var at := KeyPlace(segs);
    var outer := Outside(g, at)[parent := Cell(g[parent].place, g[parent].fields[Last(segs) := v])];
    RepUnion(vg, outer, v, j, at);
    StoredAgrees(g, parent, Last(segs), v, at, vg);
    RepSet(g, outer + vg, root, o, segs, parent, v, j);
  }

  lemma StoredAgrees(g: Graph, c: Node, key: string, v: Value, at: Place, vg: Graph)
    requires c in g && c !in vg
    requires forall n :: n in vg && n in g ==> at <= g[n].place
    ensures AgreeOutside(g, Stored(g, c, key, v, at, vg), at, c)
  {
  }

  /** A node of `vg` keeps its cell; any other was there before and keeps its place. */
  lemma StoredKeeps(g: Graph, c: Node, key: string, v: Value, at: Place, vg: Graph)
    requires c in g && c !in vg
    ensures forall n :: n in vg ==> n in Stored(g, c, key, v, at, vg) && Stored(g, c, key, v, at, vg)[n] == vg[n]
    ensures forall n :: n in Stored(g, c, key, v, at, vg) && n !in vg ==>
              n in g && Stored(g, c, key, v, at, vg)[n].place == g[n].place
  {
  }

  lemma StoredCells(g: Graph, c: Node, key: string, v: Value, at: Place, vg: Graph, n: Node)
    requires c in g && c !in vg && n in Stored(g, c, key, v, at, vg)
    ensures Stored(g, c, key, v, at, vg)[n] ==
            if n == c then Cell(g[c].place, g[c].fields[key := v])
            else if n in vg then vg[n]
            else if n in g then g[n] else Cell([], map[])
    ensures n in vg || n in g
  {
  }

  /** The graph after the member of `c` found at `at` is removed. */
  ghost function MemberCut(g: Graph, c: Node, key: string, at: Place): Graph
    requires c in g
  {
    Outside(g, at)[c := Cell(g[c].place, g[c].fields - {key})]
  }

  lemma CutRep(g: Graph, root: Node, o: Members, segs: Path, parent: Node)
    requires Rep(g, VObject(root), Object(o), [])
    requires NodeAt(g, root, Front(segs)) == Some(parent)
    ensures parent in g && !(KeyPlace(segs) <= g[parent].place)
    ensures Rep(MemberCut(g, parent, Last(segs), KeyPlace(segs)), VObject(root), Object(Delete(o, segs)), [])
  {
    NodeLabel(g, root, o, Front(segs));
    RepDelete(g, MemberCut(g, parent, Last(segs), KeyPlace(segs)), root, o, segs, parent);
  }

  lemma ScalarRep(text: string, at: Place)
    ensures Rep(map[], VScalar(text), Scalar(text), at)
  {
  }

  /** An array with one more scalar, in place. */
  lemma AppendedElementRep(g: Graph, cur: Value, j: Json, at: Place, text: string)
    requires cur.VArray? && Rep(g, cur, j, at)
    ensures Rep(Within(g, at), VArray(cur.elems + [VScalar(text)]), Array(j.items + [Scalar(text)]), at)
  {
    RepFrame(g, Within(g, at), cur, j, at);
  }

  /** A value that becomes the first element of a new array. */
  lemma NewArrayRep(g: Graph, cur: Value, j: Json, at: Place, text: string)
    requires Rep(g, cur, j, at)
    ensures Rep(Moved(g, at, at + [Index(0)]), VArray([cur, VScalar(text)]), Array([j, Scalar(text)]), at)
  {
    assert at + [] == at && at + [Index(0)] + [] == at + [Index(0)];
    RepMove(g, at, at + [Index(0)], cur, j, []);
  }

  /** One step of the descent: there is an object to step into exactly when the node says so. */
  lemma StepDown(g: Graph, root: Node, o: Members, segs: Path, i: nat, cur: Node)
    requires Rep(g, VObject(root), Object(o), [])
    requires i < |segs| - 1
    requires NodeAt(g, root, segs[..i]) == Some(cur)
    ensures cur in g
    ensures NodeAt(g, root, segs[..i + 1]) == ChildNode(g, cur, segs[i])
    ensures ChildNode(g, cur, segs[i]).Some? ==> ChildNode(g, cur, segs[i]).value in g
    ensures ChildNode(g, cur, segs[i]).None? ==> !HasParent(o, segs) && MayOpen(g, root, segs, cur)
  {
    NodeAtRep(g, root, o, [], segs[..i]);
    NodeAtRep(g, root, o, [], segs[..i + 1]);
    NodeAtStep(g, root, segs[..i], segs[i]);
    assert segs[..i] + [segs[i]] == segs[..i + 1];
    if ChildNode(g, cur, segs[i]).None? && HasParent(o, segs) {
      if i + 1 < |segs| - 1 {
        AncestorsAreObjects(o, segs[..i + 1], Front(segs));
      }
    }
  }

  /** Two documents that no read and no set at or below the path can tell apart. */
  ghost predicate SameTarget(o: Members, o': Members, segs: Path) {
    && Get(o', segs) == Get(o, segs)
    && forall v: Json :: Set(o', segs, v) == Set(o, segs, v)
  }

  lemma SameTargetReflexive(o: Members, segs: Path)
    ensures SameTarget(o, o, segs)
  {
  }

  lemma SameTargetSet(o: Members, o': Members, segs: Path, v: Json)
    requires SameTarget(o, o', segs)
    ensures Set(o', segs, v) == Set(o, segs, v)
  {
  }

  lemma SameTargetTransitive(a: Members, b: Members, c: Members, segs: Path)
    requires SameTarget(a, b, segs) && SameTarget(b, c, segs)
    ensures SameTarget(a, c, segs)
  {
  }

  /** An empty object hung on the way to a path is invisible to a set at the path. */
  lemma OpeningKeepsTarget(o: Members, segs: Path, i: nat)
    requires i < |segs| - 1 && Look(o, segs[..i + 1]) != Inner
    ensures SameTarget(o, Set(o, segs[..i + 1], Object(map[])), segs)
  {
    var q: Path, rest: Path := segs[..i + 1], segs[i + 1..];
    assert q + rest == segs;
    forall v: Json ensures Set(Set(o, q, Object(map[])), segs, v) == Set(o, segs, v) {
      SetThroughNewObject(o, q, rest, v);
    }
    GetBelow(o, q, rest);
    GetAfterSet(o, q, Object(map[]), segs);
    GetEmpty(rest);
  }

  /** The graph after an empty object is hung below `cur` for step `i` of the path. */
  ghost function Opened(g: Graph, segs: Path, i: nat, cur: Node, next: Node): Graph
    requires cur in g && i < |segs|
  {
    g[cur := Cell(g[cur].place, g[cur].fields[segs[i] := VObject(next)])][next := Cell(KeyPlace(segs[..i + 1]), map[])]
  }

  lemma OpenedRep(g: Graph, root: Node, o: Members, segs: Path, i: nat, cur: Node, next: Node)
    requires Rep(g, VObject(root), Object(o), [])
    requires i < |segs| - 1
    requires NodeAt(g, root, segs[..i]) == Some(cur) && cur in g
    requires next !in g
    ensures Rep(Opened(g, segs, i, cur, next), VObject(root), Object(Set(o, segs[..i + 1], Object(map[]))), [])
  {
    var q: Path := segs[..i + 1];
    var g' := Opened(g, segs, i, cur, next);
    assert Front(q) == segs[..i] && Last(q) == segs[i];
    assert Rep(g', VObject(next), Object(map[]), KeyPlace(q));
    RepSet(g, g', root, o, q, cur, VObject(next), Object(map[]));
  }

  lemma OpenedNode(g: Graph, root: Node, o: Members, segs: Path, i: nat, cur: Node, next: Node)
    requires Rep(g, VObject(root), Object(o), [])
    requires i < |segs| - 1
    requires NodeAt(g, root, segs[..i]) == Some(cur) && cur in g
    requires ChildNode(g, cur, segs[i]).None?
    requires next !in g
    ensures NodeAt(Opened(g, segs, i, cur, next), root, segs[..i + 1]) == Some(next)
    ensures SameTarget(o, Set(o, segs[..i + 1], Object(map[])), segs)
  {
    hide Rep, Set, SameTarget, Get, NodeAt;
    var g' := Opened(g, segs, i, cur, next);
    assert segs[..i] + [segs[i]] == segs[..i + 1];
    NodeAtFrame(g, g', root, o, segs[..i]);
    NodeAtStep(g', root, segs[..i], segs[i]);
    NodeAtStep(g, root, segs[..i], segs[i]);
    NodeAtRep(g, root, o, [], segs[..i + 1]);
    OpeningKeepsTarget(o, segs, i);
  }

  /** Nodes that two graphs have in common look the same in both. */
  ghost predicate SharedCells(g: Graph, kg: Graph) {
    forall n :: n in g && n in kg ==> g[n] == kg[n]
  }

  /** A set that collects a value into `kg` writes to a shared node only what the node already holds. */
  lemma SharedWriteIsIdle(g: Graph, root: Node, kg: Graph, kroot: Node, ko: Members, segs: Path,
                          v: Value, written: Node, fields: map<string, Value>)
    requires IsLive(g, root) && SharedCells(g, kg)
    requires Rep(kg, VObject(kroot), Object(ko), [])
    requires var c := NodeAt(g, root, Front(segs));
             c.Some? && c.value in g && Last(segs) in g[c.value].fields && g[c.value].fields[Last(segs)] == v
    requires written in g && MayWrite(kg, kroot, segs, written, v, fields)
    ensures fields == g[written].fields
  {
    if MayOpen(kg, kroot, segs, written) {
      var i :| 0 <= i < |segs| - 1 && NodeAt(kg, kroot, segs[..i]) == Some(written) && ChildNode(kg, written, segs[i]).None?;
      NodeLabel(kg, kroot, ko, segs[..i]);
      assert NodeAt(g, root, segs[..i]) == Some(written);
      assert Front(segs)[..i] == segs[..i];
      NodeAtPrefix(g, root, Front(segs), i);
      assert false;
    } else {
      NodeLabel(kg, kroot, ko, Front(segs));
      assert NodeAt(g, root, Front(segs)) == Some(written);
    }
  }

  /** The root that takes over another root's members takes over its value. */
  lemma AdoptRep(g: Graph, root: Node, kg: Graph, kroot: Node, ko: Members)
    requires SharedCells(g, kg) && root in g && g[root].place == []
    requires Rep(kg, VObject(kroot), Object(ko), [])
    ensures Rep(kg[root := Cell([], kg[kroot].fields)], VObject(root), Object(ko), [])
  {
    var g' := kg[root := Cell([], kg[kroot].fields)];
    forall k | k in ko ensures Rep(g', kg[kroot].fields[k], ko[k], [] + [Key(k)]) {
      RepFrame(kg, g', kg[kroot].fields[k], ko[k], [] + [Key(k)]);
    }
  }

  class Document {
    const root: Node
    ghost var graph: Graph
    ghost var value: Members

    ghost predicate Valid()
      reads this, graph.Keys
    {
      Current(graph) && Rep(graph, VObject(root), Object(value), [])
    }

    constructor ()
      ensures Valid() && value == map[] && graph.Keys == {root}
      ensures fresh(root)
    {
      root := new Node();
      new;
      graph := map[root := Cell([], map[])];
      value := map[];
    }

    /** Hangs a new empty object below `cur` for step `i` of the path. */
    method OpenNext(segs: Path, i: nat, cur: Node) returns (next: Node)
      requires Valid()
      requires i < |segs| - 1
      requires NodeAt(graph, root, segs[..i]) == Some(cur) && cur in graph
      requires ChildNode(graph, cur, segs[i]).None?
      modifies this, cur
      ensures Valid()
      ensures fresh(next) && next.fields == map[]
      ensures forall n :: n in old(graph) ==> n in graph && graph[n].place == old(graph)[n].place
      ensures graph.Keys == old(graph).Keys + {next}
      ensures NodeAt(graph, root, segs[..i + 1]) == Some(next)
      ensures SameTarget(old(value), value, segs)
    {
      hide Rep, NodeAt, Set, SameTarget, Look;
      next := new Node();
      OpenedRep(graph, root, value, segs, i, cur, next);
      OpenedNode(graph, root, value, segs, i, cur, next);
      cur.fields := cur.fields[segs[i] := VObject(next)];
      graph := Opened(graph, segs, i, cur, next);
      value := Set(value, segs[..i + 1], Object(map[]));
    }

    /** One step of the descent: into the object that is there, or into a new one on request. */
    method Descend(segs: Path, i: nat, cur: Node, create: bool) returns (next: Node?, ghost made: bool)
      requires Valid()
      requires i < |segs| - 1
      requires NodeAt(graph, root, segs[..i]) == Some(cur) && cur in graph
      modifies if create then {this, cur} else {}
      ensures Valid() && SameTarget(old(value), value, segs)
      ensures create ==> next != null
      ensures next == null ==> !HasParent(value, segs)
      ensures next != null ==> NodeAt(graph, root, segs[..i + 1]) == Some(next) && next in graph
      ensures !made ==> value == old(value) && graph == old(graph) && cur.fields == old(cur.fields)
      ensures !made && next != null ==> segs[i] in cur.fields
      ensures made ==>
                && create && fresh(next) && next.fields == map[]
                && !HasParent(old(value), segs) && MayOpen(old(graph), root, segs, cur)
                && graph.Keys == old(graph).Keys + {next}
                && forall n :: n in old(graph) ==> n in graph && graph[n].place == old(graph)[n].place
    {
      hide Rep, Set, NodeAt, SameTarget, MayOpen, HasParent;
      SameTargetReflexive(value, segs);
      StepDown(graph, root, value, segs, i, cur);
      made := false;
      if segs[i] in cur.fields && cur.fields[segs[i]].VObject? {
        return cur.fields[segs[i]].node, false;
      }
      if !create {
        return null, false;
      }
      next := OpenNext(segs, i, cur);
      made := true;
    }

    /**
     Descends to the parent object of the path's final segment, creating missing
     ancestors on request. `stuck` is the old node, if any, that the first new
     object was hung below.
     */
    method WalkPath(segs: Path, create: bool) returns (cur: Node?, key: string, ok: bool, ghost stuck: Node?)
      requires Valid()
      modifies if create then {this} else {}
      modifies if create then graph.Keys else {}
      ensures Valid()
      ensures ok <==> create || HasParent(old(value), segs)
      ensures ok ==> cur != null && key == Last(segs) && NodeAt(graph, root, Front(segs)) == Some(cur)
      ensures stuck == null ==> value == old(value) && graph == old(graph)
      ensures stuck != null ==>
                !HasParent(old(value), segs) && MayOpen(old(graph), root, segs, stuck) && cur !in old(graph)
      ensures SameTarget(old(value), value, segs)
      ensures forall n :: n in old(graph) ==> n in graph && graph[n].place == old(graph)[n].place
      ensures forall n :: n in graph && n !in old(graph) ==> fresh(n)
      ensures forall n :: n in old(graph) && n != stuck ==> n.fields == old(n.fields)
    {
      hide Rep, Set, NodeAt, SameTarget, MayOpen, HasParent;
      ghost var value0 := value;
      SameTargetReflexive(value, segs);
      assert segs[..0] == [];
      NodeAtRoot(graph, root);
      NodeLabel(graph, root, value, []);
      cur := root;
      key := Last(segs);
      stuck := null;
      var i := 0;
      while i < |segs| - 1
        invariant 0 <= i <= |segs| - 1
        invariant Valid()
        invariant NodeAt(graph, root, segs[..i]) == Some(cur) && cur in graph
        invariant stuck == null ==> value == old(value) && graph == old(graph)
        invariant stuck != null ==>
                    create && cur !in old(graph) && cur.fields == map[] && !HasParent(old(value), segs) && MayOpen(old(graph), root, segs, stuck)
        invariant SameTarget(old(value), value, segs)
        invariant forall n :: n in old(graph) ==> n in graph && graph[n].place == old(graph)[n].place
        invariant forall n :: n in graph && n !in old(graph) ==> fresh(n)
        invariant forall n :: n in old(graph) && n != stuck ==> n.fields == old(n.fields)
      {
        ghost var value1 := value;
        var next, made := Descend(segs, i, cur, create);
        if next == null {
          return null, key, false, null;
        }
        SameTargetTransitive(value0, value1, value, segs);
        stuck := if stuck == null && made then cur else stuck;
        cur := next;
        i := i + 1;
      }
      ParentHolds(graph, root, value, segs);
      ok := true;
    }

    method GetPath(segs: Path) returns (v: Value, ok: bool)
      requires Valid()
      ensures ok <==> Get(value, segs).Some?
      ensures ok ==> Rep(graph, v, Get(value, segs).value, KeyPlace(segs))
      ensures ok ==>
                var c := NodeAt(graph, root, Front(segs));
                c.Some? && c.value in graph && Last(segs) in graph[c.value].fields &&
                graph[c.value].fields[Last(segs)] == v
    {
      var parent, key, found, stuck := WalkPath(segs, false);
      ParentHolds(graph, root, value, segs);
      if !found {
        return VScalar(""), false;
      }
      ok := key in parent.fields;
      v := if ok then parent.fields[key] else VScalar("");
    }

    /** The write that ends a set: the parent node gets the value under the last segment. */
    method StoreMember(segs: Path, parent: Node, v: Value, ghost j: Json, ghost vg: Graph)
      requires Valid()
      requires NodeAt(graph, root, Front(segs)) == Some(parent) && parent in graph && parent !in vg
      requires Current(vg) && Rep(vg, v, j, KeyPlace(segs))
      requires forall n :: n in vg && n in graph ==> KeyPlace(segs) <= graph[n].place
      modifies this, parent
      ensures Valid()
      ensures value == Set(old(value), segs, j)
      ensures graph == Stored(old(graph), parent, Last(segs), v, KeyPlace(segs), vg)
      ensures parent.fields == old(parent.fields)[Last(segs) := v]
    {
      StoredRep(graph, root, value, segs, parent, v, j, vg);
      ghost var g0 := graph;
      parent.fields := parent.fields[Last(segs) := v];
      graph := Stored(graph, parent, Last(segs), v, KeyPlace(segs), vg);
      value := Set(value, segs, j);
      forall n | n in graph ensures n.fields == graph[n].fields {
        StoredCells(g0, parent, Last(segs), v, KeyPlace(segs), vg, n);
      }
    }

    /**
     Stores `v` (whose value is `j`) at the path. The nodes of `v` may be shared
     only with what the path held. At most one old node, `written`, changes.
     */
    method SetPath(segs: Path, v: Value, ghost j: Json, ghost vg: Graph) returns (ghost written: Node)
      requires Valid()
      requires Current(vg) && Rep(vg, v, j, KeyPlace(segs))
      requires forall n :: n in vg && n in graph ==> KeyPlace(segs) <= graph[n].place
      modifies this, graph.Keys
      ensures Valid()
      ensures value == Set(old(value), segs, j)
      ensures forall n :: n in vg ==> n in graph && graph[n] == vg[n]
      ensures forall n :: n in graph && n !in vg ==>
                (n in old(graph) && graph[n].place == old(graph)[n].place) || (n !in old(graph) && fresh(n))
      ensures forall n :: n in old(graph) && n != written ==> n.fields == old(n.fields)
      ensures written in old(graph) && MayWrite(old(graph), root, segs, written, v, written.fields)
    {
      hide Rep, Set, NodeAt, Stored, SameTarget;
      ghost var g0, value0 := graph, value;
      var parent, key, ok, stuck := WalkPath(segs, true);
      NodeLabel(graph, root, value, Front(segs));
      if stuck != null {
        OpenedIsAbove(g0, root, value0, segs, stuck);
      }
      written := if stuck == null then parent else stuck;
      assert parent !in vg;
      SameTargetSet(value0, value, segs, j);
      StoredKeeps(graph, parent, Last(segs), v, KeyPlace(segs), vg);
      StoreMember(segs, parent, v, j, vg);
    }

    /** The write that ends a delete: the parent node loses the last segment. */
    method CutMember(segs: Path, parent: Node)
      requires Valid()
      requires NodeAt(graph, root, Front(segs)) == Some(parent) && parent in graph
      modifies this, parent
      ensures Valid() && value == Delete(old(value), segs)
      ensures graph == MemberCut(old(graph), parent, Last(segs), KeyPlace(segs))
      ensures !(KeyPlace(segs) <= old(graph)[parent].place)
    {
      CutRep(graph, root, value, segs, parent);
      parent.fields := parent.fields - {Last(segs)};
      graph := MemberCut(graph, parent, Last(segs), KeyPlace(segs));
      value := Delete(value, segs);
    }

    method DeletePath(segs: Path)
      requires Valid()
      modifies this, graph.Keys
      ensures Valid() && value == Delete(old(value), segs)
      ensures Get(old(value), segs).Some? ==> forall n :: n in graph ==> !(KeyPlace(segs) <= graph[n].place)
      ensures forall n :: n in graph ==> n in old(graph) && graph[n].place == old(graph)[n].place
      ensures forall n :: n in old(graph) && KeyPlace(segs) <= old(graph)[n].place ==> n.fields == old(n.fields)
    {
      ParentHolds(graph, root, value, segs);
      DeleteIsIdentity(value, segs);
      var parent, key, ok, stuck := WalkPath(segs, false);
      if ok {
        CutMember(segs, parent);
      }
    }

    /** Sets a missing value, and otherwise accumulates into an array. */
    method AppendPath(segs: Path, text: string)
      requires Valid()
      modifies this, graph.Keys
      ensures Valid()
      ensures value == Append(old(value), segs, Scalar(text))
      ensures forall n :: n in graph ==> n in old(graph) || fresh(n)
    {
      hide Rep, Set, Get, NodeAt, MayWrite;
      var cur, ok := GetPath(segs);
      if !ok {
        ScalarRep(text, KeyPlace(segs));
        var w := SetPath(segs, VScalar(text), Scalar(text), map[]);
      } else {
        ghost var j, at := Get(value, segs).value, KeyPlace(segs);
        if cur.VArray? {
          AppendedElementRep(graph, cur, j, at, text);
          var w := SetPath(segs, VArray(cur.elems + [VScalar(text)]), Array(j.items + [Scalar(text)]), Within(graph, at));
        } else {
          NewArrayRep(graph, cur, j, at, text);
          var w := SetPath(segs, VArray([cur, VScalar(text)]), Array([j, Scalar(text)]), Moved(graph, at, at + [Index(0)]));
        }
      }
    }

    /** The rename step: the value at `from` is taken out and stored at `to`. */
    method RenamePath(from: Path, to: Path)
      requires Valid()
      modifies this, graph.Keys
      ensures Valid()
      ensures value == Rename(old(value), from, to)
      ensures forall n :: n in graph ==> n in old(graph) || fresh(n)
    {
      var v, ok := GetPath(from);
      if ok {
        ghost var j, vg := Get(value, from).value, Moved(graph, KeyPlace(from), KeyPlace(to));
        assert KeyPlace(from) + [] == KeyPlace(from) && KeyPlace(to) + [] == KeyPlace(to);
        RepMove(graph, KeyPlace(from), KeyPlace(to), v, j, []);
        assert Current(vg);
        DeletePath(from);
        var w := SetPath(to, v, j, vg);
      }
    }

    /**
     Keeps only the listed paths and their ancestors. The collected document
     shares whole subtrees with this one while it grows, and a set may descend
     into a shared subtree.
     */
    method RetainPaths(paths: seq<Path>)
      requires Valid()
      modifies this, graph.Keys
      ensures Valid()
      ensures value == Retain(old(value), paths)
      ensures forall n :: n in graph ==> n in old(graph) || fresh(n)
    {
      ForgetUnreachable();
      ghost var live := graph;
      var kept := new Document();
      var i := 0;
      while i < |paths|
        invariant 0 <= i <= |paths|
        invariant graph == live && value == old(value) && Valid()
        invariant fresh(kept) && kept.Valid() && kept.value == Retain(value, paths[..i])
        invariant SharedCells(graph, kept.graph)
        invariant forall n :: n in kept.graph && n !in graph ==> fresh(n)
      {
        assert Front(paths[..i + 1]) == paths[..i];
        Collect(kept, paths[i]);
        i := i + 1;
      }
      assert paths[..|paths|] == paths;
      Adopt(kept);
    }

    /** Empties the root and copies the other document's members into it. */
    method Adopt(kept: Document)
      requires Valid() && kept.Valid() && kept.root != root
      requires SharedCells(graph, kept.graph)
      modifies this, root
      ensures Valid() && value == old(kept.value)
      ensures graph.Keys == old(kept.graph).Keys + {root}
    {
      NodeLabel(graph, root, value, []);
      AdoptRep(graph, root, kept.graph, kept.root, kept.value);
      NodeLabel(kept.graph, kept.root, kept.value, []);
      ghost var fields := kept.graph[kept.root].fields;
      ghost var g := kept.graph[root := Cell([], fields)];
      value := kept.value;
      root.fields := map[];
      root.fields := root.fields + kept.root.fields;
      assert map[] + fields == fields;
      graph := g;
    }

    ghost method ForgetUnreachable()
      requires Valid()
      modifies `graph
      ensures Valid() && value == old(value) && IsLive(graph, root) && root in graph
      ensures graph.Keys <= old(graph).Keys
    {
      LiveIsLive(graph, root, value);
      graph := Live(graph, root);
      NodeLabel(graph, root, value, []);
    }

    /** Stores into `kept` what this document has at the path, if anything, without changing this document. */
    method Collect(kept: Document, p: Path)
      requires Valid() && kept.Valid() && kept != this
      requires IsLive(graph, root) && SharedCells(graph, kept.graph)
      modifies kept, kept.graph.Keys
      ensures Valid() && kept.Valid() && SharedCells(graph, kept.graph)
      ensures kept.value == match Get(value, p) case Some(j) => Set(old(kept.value), p, j) case None => old(kept.value)
      ensures forall n :: n in kept.graph && n !in graph ==> n in old(kept.graph) || fresh(n)
    {
      var v, ok := GetPath(p);
      if ok {
        CollectValue(kept, p, v);
      }
    }

    method CollectValue(kept: Document, p: Path, v: Value)
      requires Valid() && kept.Valid() && kept != this
      requires IsLive(graph, root) && SharedCells(graph, kept.graph)
      requires Get(value, p).Some? && Rep(graph, v, Get(value, p).value, KeyPlace(p))
      requires var c := NodeAt(graph, root, Front(p));
               c.Some? && c.value in graph && Last(p) in graph[c.value].fields && graph[c.value].fields[Last(p)] == v
      modifies kept, kept.graph.Keys
      ensures Valid() && kept.Valid() && SharedCells(graph, kept.graph)
      ensures kept.value == Set(old(kept.value), p, Get(value, p).value)
      ensures forall n :: n in kept.graph && n !in graph ==> n in old(kept.graph) || fresh(n)
    {
      hide MayWrite, IsLive, NodeAt, Rep, Set, Get;
      ghost var vg, kg, ko := Within(graph, KeyPlace(p)), kept.graph, kept.value;
      RepFrame(graph, vg, v, Get(value, p).value, KeyPlace(p));
      var written := kept.SetPath(p, v, Get(value, p).value, vg);
      if written in graph {
        SharedWriteIsIdle(graph, root, kg, kept.root, ko, p, v, written, written.fields);
      }
      assert Current(graph);
    }

    method RemovePaths(paths: seq<Path>)
      requires Valid()
      modifies this, graph.Keys
      ensures Valid() && value == DeleteAll(old(value), paths)
      ensures forall n :: n in graph ==> n in old(graph) || fresh(n)
    {
      var i := 0;
      while i < |paths|
        invariant 0 <= i <= |paths|
        invariant Valid() && value == DeleteAll(old(value), paths[..i])
        invariant forall n :: n in graph ==> n in old(graph) || fresh(n)
      {
        assert Front(paths[..i + 1]) == paths[..i];
        DeletePath(paths[i]);
        i := i + 1;
      }
      assert paths[..|paths|] == paths;
    }

    method RenamePaths(pairs: seq<RenamePair>)
      requires Valid()
      modifies this, graph.Keys
      ensures Valid() && value == RenameAll(old(value), pairs)
      ensures forall n :: n in graph ==> n in old(graph) || fresh(n)
    {
      var i := 0;
      while i < |pairs|
        invariant 0 <= i <= |pairs|
        invariant Valid() && value == RenameAll(old(value), pairs[..i])
        invariant forall n :: n in graph ==> n in old(graph) || fresh(n)
      {
        assert Front(pairs[..i + 1]) == pairs[..i];
        RenamePath(pairs[i].from, pairs[i].to);
        i := i + 1;
      }
      assert pairs[..|pairs|] == pairs;
    }

    method ReplacePath(segs: Path, text: string)
      requires Valid()
      modifies this, graph.Keys
      ensures Valid() && value == Replace(old(value), segs, Scalar(text))
      ensures forall n :: n in graph ==> n in old(graph) || fresh(n)
    {
      var v, ok := GetPath(segs);
      if ok {
        var w := SetPath(segs, VScalar(text), Scalar(text), map[]);
      }
    }

    method ReplacePaths(kvs: seq<KeyValue>)
      requires Valid()
      modifies this, graph.Keys
      ensures Valid() && value == ReplaceAll(old(value), kvs)
      ensures forall n :: n in graph ==> n in old(graph) || fresh(n)
    {
      var i := 0;
      while i < |kvs|
        invariant 0 <= i <= |kvs|
        invariant Valid() && value == ReplaceAll(old(value), kvs[..i])
        invariant forall n :: n in graph ==> n in old(graph) || fresh(n)
      {
        assert Front(kvs[..i + 1]) == kvs[..i];
        ReplacePath(kvs[i].key, kvs[i].value);
        i := i + 1;
      }
      assert kvs[..|kvs|] == kvs;
    }

    method AddPath(segs: Path, text: string)
      requires Valid()
      modifies this, graph.Keys
      ensures Valid() && value == Add(old(value), segs, Scalar(text))
      ensures forall n :: n in graph ==> n in old(graph) || fresh(n)
    {
      var v, ok := GetPath(segs);
      if !ok {
        var w := SetPath(segs, VScalar(text), Scalar(text), map[]);
      }
    }

    method AddPaths(kvs: seq<KeyValue>)
      requires Valid()
      modifies this, graph.Keys
      ensures Valid() && value == AddAll(old(value), kvs)
      ensures forall n :: n in graph ==> n in old(graph) || fresh(n)
    {
      var i := 0;
      while i < |kvs|
        invariant 0 <= i <= |kvs|
        invariant Valid() && value == AddAll(old(value), kvs[..i])
        invariant forall n :: n in graph ==> n in old(graph) || fresh(n)
      {
        assert Front(kvs[..i + 1]) == kvs[..i];
        AddPath(kvs[i].key, kvs[i].value);
        i := i + 1;
      }
      assert kvs[..|kvs|] == kvs;
    }

    method AppendPaths(kvs: seq<KeyValue>)
      requires Valid()
      modifies this, graph.Keys
      ensures Valid() && value == AppendAll(old(value), kvs)
      ensures forall n :: n in graph ==> n in old(graph) || fresh(n)
    {
      var i := 0;
      while i < |kvs|
        invariant 0 <= i <= |kvs|
        invariant Valid() && value == AppendAll(old(value), kvs[..i])
        invariant forall n :: n in graph ==> n in old(graph) || fresh(n)
      {
        assert Front(kvs[..i + 1]) == kvs[..i];
        AppendPath(kvs[i].key, kvs[i].value);
        i := i + 1;
      }
      assert kvs[..|kvs|] == kvs;
    }

    /** The body phases in the gateway's order. */
    method ApplyBodyOps(ops: BodyOps)
      requires Valid()
      modifies this, graph.Keys
      ensures Valid() && value == Transform(old(value), ops)
    {
      if |ops.allow| > 0 {
        RetainPaths(ops.allow);
      }
      RemovePaths(ops.remove);
      RenamePaths(ops.rename);
      ReplacePaths(ops.replace);
      AddPaths(ops.add);
      AppendPaths(ops.append);
    }
  }
}

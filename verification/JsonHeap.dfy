/**
 The transformer's dotted-path operations on a document held as linked,
 mutable objects. Every node of a document carries (in ghost state) the place
 it is found at; since a node has one place, the node graph is a tree, and the
 document has a value of type `Json`.
 */
module JsonHeap {
  import opened Prelude
  import opened JsonTree

  /** One step of a place: a member of an object or an element of an array. */
  datatype Step = Key(key: string) | Index(index: nat)

  type Place = seq<Step>

  datatype Value =
    | VScalar(text: string)
    | VArray(elems: seq<Value>)
    | VObject(node: Node)

  /** A JSON object in memory. */
  class Node {
    var fields: map<string, Value>

    constructor ()
      ensures fields == map[]
    {
      fields := map[];
    }
  }

  /** What a node holds and where in the document it is found. */
  datatype Cell = Cell(place: Place, fields: map<string, Value>)

  type Graph = map<Node, Cell>

  /** The graph shows the nodes' present fields. */
  ghost predicate Current(g: Graph)
    reads g.Keys
  {
    forall n | n in g :: n.fields == g[n].fields
  }

  ghost function KeyPlace(p: seq<string>): (at: Place)
    ensures |at| == |p|
  {
    seq(|p|, i requires 0 <= i < |p| => Key(p[i]))
  }

  /** `v`, found at `at`, is the value `j`, and every node in it is labelled with its place. */
  ghost predicate Rep(g: Graph, v: Value, j: Json, at: Place)
    decreases j
  {
    match v
    case VScalar(s) => j == Scalar(s)
    case VArray(vs) => (
      && j.Array?
      && |vs| == |j.items|
      && forall i | 0 <= i < |vs| :: Rep(g, vs[i], j.items[i], at + [Index(i)]))
    case VObject(n) => (
      && j.Object?
      && n in g && g[n].place == at
      && g[n].fields.Keys == j.members.Keys
      && forall k | k in j.members :: Rep(g, g[n].fields[k], j.members[k], at + [Key(k)]))
  }

  // ---------------------------------------------------------------- frames

  /** A value depends only on the nodes labelled at or below its place. */
  lemma {:induction false} RepFrame(g: Graph, g': Graph,
                                    v: Value, j: Json, at: Place)
    requires Rep(g, v, j, at)
    requires forall n | n in g && at <= g[n].place :: n in g' && g'[n] == g[n]
    ensures Rep(g', v, j, at)
    decreases j
  {
    match v
    case VScalar(_) =>
    case VArray(vs) =>
      forall i | 0 <= i < |vs| ensures Rep(g', vs[i], j.items[i], at + [Index(i)]) {
        RepFrame(g, g', vs[i], j.items[i], at + [Index(i)]);
      }
    case VObject(n) =>
      forall k | k in j.members ensures Rep(g', g'[n].fields[k], j.members[k], at + [Key(k)]) {
        RepFrame(g, g', g[n].fields[k], j.members[k], at + [Key(k)]);
      }
  }

  /** The nodes at or below `at`, relabelled as if found at `to`. */
  ghost function Moved(g: Graph, at: Place, to: Place): Graph {
    map n | n in g && at <= g[n].place :: Cell(to + g[n].place[|at|..], g[n].fields)
  }

  /** Relabelling a whole subtree keeps its value. */
  lemma {:induction false} RepMove(g: Graph, at0: Place, to0: Place,
                                   v: Value, j: Json, rest: Place)
    requires Rep(g, v, j, at0 + rest)
    ensures Rep(Moved(g, at0, to0), v, j, to0 + rest)
    decreases j
  {
    var g' := Moved(g, at0, to0);
    match v
    case VScalar(_) =>
    case VArray(vs) =>
      forall i | 0 <= i < |vs| ensures Rep(g', vs[i], j.items[i], to0 + rest + [Index(i)]) {
        assert at0 + rest + [Index(i)] == at0 + (rest + [Index(i)]);
        assert to0 + rest + [Index(i)] == to0 + (rest + [Index(i)]);
        RepMove(g, at0, to0, vs[i], j.items[i], rest + [Index(i)]);
      }
    case VObject(n) =>
      assert (at0 + rest)[|at0|..] == rest;
      forall k | k in j.members ensures Rep(g', g'[n].fields[k], j.members[k], to0 + rest + [Key(k)]) {
        assert at0 + rest + [Key(k)] == at0 + (rest + [Key(k)]);
        assert to0 + rest + [Key(k)] == to0 + (rest + [Key(k)]);
        RepMove(g, at0, to0, g[n].fields[k], j.members[k], rest + [Key(k)]);
      }
  }

  // ---------------------------------------------------------------- nodes at key paths

  ghost function ChildNode(g: Graph, n: Node, key: string): Option<Node> {
    if n in g && key in g[n].fields && g[n].fields[key].VObject? then Some(g[n].fields[key].node) else None
  }

  /** The node reached from `n` by following object members only. */
  ghost function NodeAt(g: Graph, n: Node, q: seq<string>): Option<Node> {
    if q == [] then Some(n)
    else
      match ChildNode(g, n, q[0])
      case Some(m) => NodeAt(g, m, q[1..])
      case None => None
  }

  function MembersAt(o: Members, q: seq<string>): Option<Members> {
    if q == [] then Some(o)
    else
      match Get(o, q)
      case Some(Object(m)) => Some(m)
      case _ => None
  }

  lemma NodeAtRoot(g: Graph, n: Node)
    ensures NodeAt(g, n, []) == Some(n)
  {
  }

  lemma {:induction false} NodeAtStep(g: Graph, n: Node, q: seq<string>, key: string)
    ensures NodeAt(g, n, q + [key]) ==
            match NodeAt(g, n, q)
            case Some(m) => ChildNode(g, m, key)
            case None => None
    decreases |q|
  {
    if q == [] {
      assert (q + [key])[1..] == [];
    } else {
      assert (q + [key])[1..] == q[1..] + [key];
      match ChildNode(g, n, q[0])
      case Some(m) => NodeAtStep(g, m, q[1..], key);
      case None =>
    }
  }

  lemma {:induction false} NodeAtPrefix(g: Graph, n: Node, q: seq<string>, i: nat)
    requires i <= |q| && NodeAt(g, n, q).Some?
    ensures NodeAt(g, n, q[..i]).Some?
    ensures i < |q| ==> ChildNode(g, NodeAt(g, n, q[..i]).value, q[i]).Some?
    decreases |q| - i
  {
    if i == |q| {
      assert q[..i] == q;
    } else {
      NodeAtPrefix(g, n, q, i + 1);
      assert q[..i + 1] == q[..i] + [q[i]];
      NodeAtStep(g, n, q[..i], q[i]);
    }
  }

  /** Nodes and values agree about which key paths hold objects. */
  lemma {:induction false} NodeAtRep(g: Graph, n: Node, o: Members, at: Place, q: seq<string>)
    requires Rep(g, VObject(n), Object(o), at)
    ensures NodeAt(g, n, q).Some? <==> MembersAt(o, q).Some?
    ensures NodeAt(g, n, q).Some? ==>
              Rep(g, VObject(NodeAt(g, n, q).value), Object(MembersAt(o, q).value), at + KeyPlace(q))
    decreases |q|
  {
    if q == [] {
      assert at + KeyPlace(q) == at;
    } else {
      assert |q| == 1 ==> q[1..] == [];
      if ChildNode(g, n, q[0]).Some? {
        NodeAtRep(g, ChildNode(g, n, q[0]).value, o[q[0]].members, at + [Key(q[0])], q[1..]);
        assert at + KeyPlace(q) == at + [Key(q[0])] + KeyPlace(q[1..]);
      }
    }
  }

  /** The node reached by a key path is labelled with it. */
  lemma NodeLabel(g: Graph, root: Node, o: Members, q: seq<string>)
    requires Rep(g, VObject(root), Object(o), [])
    requires NodeAt(g, root, q).Some?
    ensures NodeAt(g, root, q).value in g && g[NodeAt(g, root, q).value].place == KeyPlace(q)
  {
    NodeAtRep(g, root, o, [], q);
    assert [] + KeyPlace(q) == KeyPlace(q);
  }

  lemma KeyPlaceInjective(p: seq<string>, q: seq<string>)
    requires KeyPlace(p) == KeyPlace(q)
    ensures p == q
  {
    forall i | 0 <= i < |p| ensures p[i] == q[i] {
      assert KeyPlace(p)[i] == KeyPlace(q)[i];
    }
  }

  /** What one step down, into an object or an array, leads to. */
  ghost function StepInto(g: Graph, v: Value, s: Step): Option<Value> {
    match s
    case Key(k) => if v.VObject? && v.node in g && k in g[v.node].fields then Some(g[v.node].fields[k]) else None
    case Index(i) => if v.VArray? && i < |v.elems| then Some(v.elems[i]) else None
  }

  ghost function ValueAt(g: Graph, v: Value, p: Place): Option<Value>
    decreases |p|
  {
    if p == [] then Some(v)
    else
      match StepInto(g, v, p[0])
      case Some(w) => ValueAt(g, w, p[1..])
      case None => None
  }

  /** Whatever is reached by a place represents a part of the document, labelled with that place. */
  lemma {:induction false} ValueAtRep(g: Graph, v: Value, j: Json, at: Place, p: Place) returns (part: Json)
    requires Rep(g, v, j, at) && ValueAt(g, v, p).Some?
    ensures Rep(g, ValueAt(g, v, p).value, part, at + p)
    decreases |p|
  {
    if p == [] {
      assert at + p == at;
      part := j;
    } else {
      var w := StepInto(g, v, p[0]).value;
      assert at + [p[0]] + p[1..] == at + p;
      match p[0]
      case Key(k) => part := ValueAtRep(g, w, j.members[k], at + [Key(k)], p[1..]);
      case Index(i) => part := ValueAtRep(g, w, j.items[i], at + [Index(i)], p[1..]);
    }
  }

  /** The graph of a document is a tree: through objects and arrays alike, a node is reached by one place only. */
  lemma {:induction false} OnePathPerNode(g: Graph, v: Value, j: Json, at: Place, p: Place, q: Place)
    requires Rep(g, v, j, at)
    requires ValueAt(g, v, p).Some? && ValueAt(g, v, p).value.VObject?
    requires ValueAt(g, v, p) == ValueAt(g, v, q)
    ensures p == q
  {
    var _ := ValueAtRep(g, v, j, at, p);
    var _ := ValueAtRep(g, v, j, at, q);
    assert (at + p)[|at|..] == p && (at + q)[|at|..] == q;
  }

  // ---------------------------------------------------------------- writing one node

  /** A write to the node at the end of a key path leaves the path itself in place. */
  lemma {:induction false} NodeAtFrame(g: Graph, g': Graph, n: Node, o: Members, q: seq<string>)
    requires Rep(g, VObject(n), Object(o), [])
    requires NodeAt(g, n, q).Some?
    requires forall x | x in g && x != NodeAt(g, n, q).value :: x in g' && g'[x].fields == g[x].fields
    ensures NodeAt(g', n, q) == NodeAt(g, n, q)
  {
    hide Rep, Get, NodeAt;
    var i := 0;
    assert NodeAt(g', n, []) == NodeAt(g, n, []) == Some(n) by { NodeAtRoot(g', n); NodeAtRoot(g, n); }
    while i < |q|
      invariant i <= |q|
      invariant NodeAt(g', n, q[..i]) == NodeAt(g, n, q[..i])
      invariant NodeAt(g, n, q[..i]).Some?
    {
      NodeAtPrefix(g, n, q, i);
      NodeLabel(g, n, o, q[..i]);
      NodeLabel(g, n, o, q);
      assert |KeyPlace(q[..i])| < |KeyPlace(q)|;
      assert q[..i + 1] == q[..i] + [q[i]];
      NodeAtStep(g, n, q[..i], q[i]);
      NodeAtStep(g', n, q[..i], q[i]);
      i := i + 1;
    }
    assert q[..|q|] == q;
  }

  function PutMembers(o: Members, q: seq<string>, m: Members): Members {
    if q == [] then m else Set(o, q, Object(m))
  }

  /** A change below one member of an object leaves the other members as they were. */
  lemma OtherMemberFrame(g: Graph, g': Graph, v: Value, j: Json, at: Place, q: seq<string>, k: string)
    requires q != [] && k != q[0] && Rep(g, v, j, at + [Key(k)])
    requires forall x | x in g && !(at + KeyPlace(q) <= g[x].place) :: x in g' && g'[x] == g[x]
    ensures Rep(g', v, j, at + [Key(k)])
  {
    hide Rep;
    forall x | x in g && at + [Key(k)] <= g[x].place ensures !(at + KeyPlace(q) <= g[x].place) {
      assert g[x].place[|at|] == (at + [Key(k)])[|at|];
      assert (at + KeyPlace(q))[|at|] == Key(q[0]);
    }
    RepFrame(g, g', v, j, at + [Key(k)]);
  }

  /** Rewriting the node at a key path rewrites the object at that path. */
  lemma {:induction false} RepUpdate(g: Graph, g': Graph,
                                     n: Node, o: Members, at: Place, q: seq<string>, m: Members)
    requires Rep(g, VObject(n), Object(o), at)
    requires NodeAt(g, n, q).Some?
    requires Rep(g', VObject(NodeAt(g, n, q).value), Object(m), at + KeyPlace(q))
    requires forall x | x in g && !(at + KeyPlace(q) <= g[x].place) :: x in g' && g'[x] == g[x]
    ensures Rep(g', VObject(n), Object(PutMembers(o, q, m)), at)
    decreases |q|
  {
    if q == [] {
      assert at + KeyPlace(q) == at;
    } else {
      var key := q[0];
      var child := ChildNode(g, n, key).value;
      var inner := o[key].members;
      assert KeyPlace(q)[0] == Key(key);
      assert at + KeyPlace(q) == at + [Key(key)] + KeyPlace(q[1..]);
      RepUpdate(g, g', child, inner, at + [Key(key)], q[1..], m);
      var o' := PutMembers(o, q, m);
      assert o' == o[key := Object(PutMembers(inner, q[1..], m))];
      assert !(at + KeyPlace(q) <= at);
      forall k | k in o' ensures Rep(g', g'[n].fields[k], o'[k], at + [Key(k)]) {
        if k != key {
          OtherMemberFrame(g, g', g[n].fields[k], o[k], at, q, k);
        }
      }
    }
  }

  /** Setting a member of the parent object is setting the path. */
  lemma {:induction false} PutIsSet(o: Members, q: seq<string>, key: string, v: Json)
    requires MembersAt(o, q).Some?
    ensures PutMembers(o, q, MembersAt(o, q).value[key := v]) == Set(o, q + [key], v)
    decreases |q|
  {
    if q == [] {
      assert q + [key] == [key];
    } else {
      assert (q + [key])[1..] == q[1..] + [key];
      assert |q| == 1 ==> q[1..] == [];
      PutIsSet(o[q[0]].members, q[1..], key, v);
    }
  }

  lemma {:induction false} PutIsDelete(o: Members, q: seq<string>, key: string)
    requires MembersAt(o, q).Some?
    ensures PutMembers(o, q, MembersAt(o, q).value - {key}) == Delete(o, q + [key])
    decreases |q|
  {
    if q == [] {
      assert q + [key] == [key];
    } else {
      assert (q + [key])[1..] == q[1..] + [key];
      assert |q| == 1 ==> q[1..] == [];
      PutIsDelete(o[q[0]].members, q[1..], key);
    }
  }

  lemma SetStep(o: Members, p: Path, v: Json)
    requires |p| > 1
    ensures Set(o, p, v) == o[p[0] := Object(Set(ChildOrEmpty(o, p[0]), p[1..], v))]
  {
  }

  /** Creating an empty object on the way down does not change what the set gives. */
  lemma {:induction false} SetThroughNewObject(o: Members, q: Path, r: Path, v: Json)
    requires Look(o, q) != Inner
    ensures Set(Set(o, q, Object(map[])), q + r, v) == Set(o, q + r, v)
    decreases |q|
  {
    var o': Members := Set(o, q, Object(map[]));
    assert (q + r)[0] == q[0] && (q + r)[1..] == q[1..] + r;
    assert |q| == 1 ==> o' == o[q[0] := Object(map[])] && ChildOrEmpty(o, q[0]) == map[];
    hide Set;
    SetStep(o, q + r, v);
    SetStep(o', q + r, v);
    if |q| > 1 {
      SetStep(o, q, Object(map[]));
      if ChildMembers(o, q[0]).None? {
        GetEmpty(q[1..]);
      }
      hide Look, Get;
      SetThroughNewObject(ChildOrEmpty(o, q[0]), q[1..], r, v);
    }
  }

  /** The nodes outside the subtree at `at`. */
  ghost function Outside(g: Graph, at: Place): Graph {
    map n | n in g && !(at <= g[n].place) :: g[n]
  }

  ghost function Within(g: Graph, at: Place): Graph {
    map n | n in g && at <= g[n].place :: g[n]
  }

  /** Away from the subtree at `at`, only the node `c` may have changed. */
  ghost predicate AgreeOutside(g: Graph, g': Graph, at: Place, c: Node) {
    forall x | x in g && !(at <= g[x].place) ::
      x in g' && g'[x].place == g[x].place && (x == c || g'[x] == g[x])
  }

  /** The other members of the changed node keep their values. */
  lemma SiblingFrame(g: Graph, g': Graph, c: Node, at: Place, key: string, k: string, v: Value, j: Json)
    requires c in g && g[c].place == at && k != key
    requires AgreeOutside(g, g', at + [Key(key)], c)
    requires Rep(g, v, j, at + [Key(k)])
    ensures Rep(g', v, j, at + [Key(k)])
  {
    forall x | x in g && at + [Key(k)] <= g[x].place
      ensures !(at + [Key(key)] <= g[x].place) && x != c
    {
      assert g[x].place[|at|] == (at + [Key(k)])[|at|];
      assert (at + [Key(key)])[|at|] == Key(key);
    }
    RepFrame(g, g', v, j, at + [Key(k)]);
  }

  /** Writing a value under a member of the node at a key path is setting that path. */
  lemma {:induction false} RepSet(g: Graph, g': Graph,
                                  n: Node, o: Members, p: Path, c: Node, v: Value, j: Json)
    requires Rep(g, VObject(n), Object(o), [])
    requires NodeAt(g, n, Front(p)) == Some(c) && c in g && c in g'
    requires Rep(g', v, j, KeyPlace(p))
    requires g'[c].fields == g[c].fields[Last(p) := v]
    requires AgreeOutside(g, g', KeyPlace(p), c)
    ensures Rep(g', VObject(n), Object(Set(o, p, j)), [])
  {
    var q, key := Front(p), Last(p);
    assert p == q + [key];
    NodeAtRep(g, n, o, [], q);
    assert [] + KeyPlace(q) == KeyPlace(q);
    assert KeyPlace(p) == KeyPlace(q) + [Key(key)];
    MemberStored(g, g', c, MembersAt(o, q).value, KeyPlace(q), key, v, j);
    RepUpdate(g, g', n, o, [], q, MembersAt(o, q).value[key := j]);
    PutIsSet(o, q, key, j);
  }

  /** The changed node holds its old members and the new one. */
  lemma MemberStored(g: Graph, g': Graph, c: Node, m: Members, at: Place, key: string, v: Value, j: Json)
    requires Rep(g, VObject(c), Object(m), at)
    requires Rep(g', v, j, at + [Key(key)])
    requires c in g' && g'[c].fields == g[c].fields[key := v]
    requires AgreeOutside(g, g', at + [Key(key)], c)
    ensures Rep(g', VObject(c), Object(m[key := j]), at)
  {
    var m' := m[key := j];
    forall k | k in m' ensures Rep(g', g'[c].fields[k], m'[k], at + [Key(k)]) {
      if k != key {
        SiblingFrame(g, g', c, at, key, k, g[c].fields[k], m[k]);
      }
    }
  }

  /** Removing a member of the node at a key path is deleting that path. */
  lemma {:induction false} RepDelete(g: Graph, g': Graph,
                                     n: Node, o: Members, p: Path, c: Node)
    requires Rep(g, VObject(n), Object(o), [])
    requires NodeAt(g, n, Front(p)) == Some(c) && c in g && c in g'
    requires g'[c].fields == g[c].fields - {Last(p)}
    requires AgreeOutside(g, g', KeyPlace(p), c)
    ensures Rep(g', VObject(n), Object(Delete(o, p)), [])
  {
    var q, key := Front(p), Last(p);
    assert p == q + [key];
    var at := KeyPlace(q);
    NodeAtRep(g, n, o, [], q);
    assert [] + at == at;
    assert KeyPlace(p) == at + [Key(key)];
    var m := MembersAt(o, q).value;
    var m' := m - {key};
    forall k | k in m' ensures Rep(g', g'[c].fields[k], m'[k], at + [Key(k)]) {
      SiblingFrame(g, g', c, at, key, k, g[c].fields[k], m[k]);
    }
    assert Rep(g', VObject(c), Object(m'), at);
    RepUpdate(g, g', n, o, [], q, m');
    PutIsDelete(o, q, key);
  }

  // ---------------------------------------------------------------- unreachable nodes

  /** The nodes that are where their label says, or inside an array. */
  ghost function Live(g: Graph, root: Node): Graph {
    map n | n in g && (forall q: seq<string> :: g[n].place == KeyPlace(q) ==> NodeAt(g, root, q) == Some(n)) :: g[n]
  }

  ghost predicate IsLive(g: Graph, root: Node) {
    forall n, q: seq<string> :: n in g && g[n].place == KeyPlace(q) ==> NodeAt(g, root, q) == Some(n)
  }

  /** Forgetting unreachable nodes keeps every reachable value. */
  lemma {:induction false} LiveRep(g: Graph, root: Node, v: Value, j: Json, at: Place)
    requires Rep(g, v, j, at)
    requires v.VObject? ==> forall q: seq<string> :: at == KeyPlace(q) ==> NodeAt(g, root, q) == Some(v.node)
    ensures Rep(Live(g, root), v, j, at)
    decreases j
  {
    match v
    case VScalar(_) =>
    case VArray(vs) =>
      forall i | 0 <= i < |vs| ensures Rep(Live(g, root), vs[i], j.items[i], at + [Index(i)]) {
        forall q: seq<string> ensures at + [Index(i)] != KeyPlace(q) {
          if |q| == |at| + 1 {
            assert KeyPlace(q)[|at|].Key?;
          }
        }
        LiveRep(g, root, vs[i], j.items[i], at + [Index(i)]);
      }
    case VObject(n) =>
      forall k | k in j.members ensures Rep(Live(g, root), g[n].fields[k], j.members[k], at + [Key(k)]) {
        var child := g[n].fields[k];
        if child.VObject? {
          forall q: seq<string> | at + [Key(k)] == KeyPlace(q) ensures NodeAt(g, root, q) == Some(child.node) {
            assert q == Front(q) + [Last(q)];
            assert KeyPlace(Front(q)) == KeyPlace(q)[..|at|] == at;
            assert KeyPlace(q)[|at|] == Key(k);
            NodeAtStep(g, root, Front(q), k);
          }
        }
        LiveRep(g, root, child, j.members[k], at + [Key(k)]);
      }
  }

  lemma {:induction false} LiveNodeAt(g: Graph, root: Node, o: Members, q: seq<string>)
    requires Rep(g, VObject(root), Object(o), [])
    requires NodeAt(g, root, q).Some?
    ensures NodeAt(Live(g, root), root, q) == NodeAt(g, root, q)
    ensures NodeAt(g, root, q).value in Live(g, root)
    decreases |q|
  {
    var n := NodeAt(g, root, q).value;
    NodeAtRep(g, root, o, [], q);
    assert [] + KeyPlace(q) == KeyPlace(q);
    forall p: seq<string> | g[n].place == KeyPlace(p) ensures NodeAt(g, root, p) == Some(n) {
      KeyPlaceInjective(p, q);
    }
    if q != [] {
      assert q == Front(q) + [Last(q)];
      NodeAtStep(g, root, Front(q), Last(q));
      NodeAtStep(Live(g, root), root, Front(q), Last(q));
      LiveNodeAt(g, root, o, Front(q));
    }
  }

  lemma {:induction false} LiveIsLive(g: Graph, root: Node, o: Members)
    requires Rep(g, VObject(root), Object(o), [])
    ensures Rep(Live(g, root), VObject(root), Object(o), [])
    ensures IsLive(Live(g, root), root)
  {
    forall q: seq<string> | [] == KeyPlace(q) ensures NodeAt(g, root, q) == Some(root) {
      assert q == [];
    }
    LiveRep(g, root, VObject(root), Object(o), []);
    forall n, q: seq<string> | n in Live(g, root) && g[n].place == KeyPlace(q)
      ensures NodeAt(Live(g, root), root, q) == Some(n)
    {
      LiveNodeAt(g, root, o, q);
    }
  }
}

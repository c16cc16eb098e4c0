/**
 What a reader finds under a header or query name after the whole pipeline, told
 by the configured lists alone, and what of a response its status lets happen.
 */
module HeaderLaws {
  import opened Prelude
  import opened HeaderPhases
  import opened JsonTree
  import B = TransformSpec
  import TransformLaws

  /** What is stored under a name, if the name is there. */
  function At(h: Fields, k: string): Option<seq<string>> {
    if k in h then Some(h[k]) else None
  }

  /** The values that a list gives for a name, in its order. */
  function Given(canon: string -> string, fs: seq<Field>, k: string): seq<string>
    decreases |fs|
  {
    if fs == [] then []
    else Given(canon, Front(fs), k) + if canon(Last(fs).key) == k then [Last(fs).value] else []
  }

  ghost predicate Removes(canon: string -> string, ks: seq<string>, k: string) {
    exists i :: 0 <= i < |ks| && canon(ks[i]) == k
  }

  lemma NothingGiven(canon: string -> string, fs: seq<Field>, k: string)
    ensures Given(canon, fs, k) == [] <==> !Lists(canon, fs, k)
    decreases |fs|
  {
    if fs != [] {
      assert forall i :: 0 <= i < |Front(fs)| ==> Front(fs)[i] == fs[i];
      NothingGiven(canon, Front(fs), k);
      if Lists(canon, fs, k) && canon(Last(fs).key) != k {
        var i :| 0 <= i < |fs| && canon(fs[i].key) == k;
        assert Front(fs)[i] == fs[i];
      }
      assert canon(Last(fs).key) == k ==> canon(fs[|fs| - 1].key) == k;
      if Lists(canon, Front(fs), k) {
        var i :| 0 <= i < |Front(fs)| && canon(Front(fs)[i].key) == k;
        assert canon(fs[i].key) == k;
      }
    }
  }

  // ---------------------------------------------------------------- single phases

  lemma {:induction false} RemoveReads(h: Fields, canon: string -> string, ks: seq<string>, k: string)
    ensures At(RemoveAll(h, canon, ks), k) == if Removes(canon, ks, k) then None else At(h, k)
    decreases |ks|
  {
    if ks != [] {
      assert forall i :: 0 <= i < |Front(ks)| ==> Front(ks)[i] == ks[i];
      RemoveReads(h, canon, Front(ks), k);
      assert canon(Last(ks)) == k ==> canon(ks[|ks| - 1]) == k;
      if Removes(canon, Front(ks), k) {
        var i :| 0 <= i < |Front(ks)| && canon(Front(ks)[i]) == k;
        assert canon(ks[i]) == k;
      }
    }
  }

  /** A name that is there reads just the last value a replacement gives for it; a missing one stays missing. */
  lemma {:induction false} ReplaceReads(h: Fields, canon: string -> string, fs: seq<Field>, k: string)
    ensures At(ReplaceAll(h, canon, fs), k) ==
            if k in h && Given(canon, fs, k) != [] then Some([Last(Given(canon, fs, k))]) else At(h, k)
    decreases |fs|
  {
    if fs != [] {
      ReplaceReads(h, canon, Front(fs), k);
    }
  }

  /** A name that is missing reads just the first value given for it; one that is there keeps what it has. */
  lemma {:induction false} AddReads(h: Fields, canon: string -> string, fs: seq<Field>, k: string)
    ensures At(AddAll(h, canon, fs), k) ==
            if k !in h && Given(canon, fs, k) != [] then Some([Given(canon, fs, k)[0]]) else At(h, k)
    decreases |fs|
  {
    if fs != [] {
      AddReads(h, canon, Front(fs), k);
    }
  }

  /** Every value given is put behind those the name has. */
  lemma {:induction false} AppendReads(h: Fields, canon: string -> string, fs: seq<Field>, k: string)
    ensures At(AppendAll(h, canon, fs), k) ==
            if Given(canon, fs, k) != [] then Some(Values(h, k) + Given(canon, fs, k)) else At(h, k)
    decreases |fs|
  {
    if fs != [] {
      AppendReads(h, canon, Front(fs), k);
      var given, v := Given(canon, Front(fs), k), Last(fs).value;
      assert Values(h, k) + given + [v] == Values(h, k) + (given + [v]) && given + [] == given;
      assert given == [] ==> given + [v] == [v];
    }
  }

  /** What replacing, adding and appending make of a name, given the values they list for it. */
  function Edited(v: Option<seq<string>>, replaced: seq<string>, added: seq<string>, appended: seq<string>): Option<seq<string>> {
    var w := if v.Some? && replaced != [] then Some([Last(replaced)]) else v;
    var x := if w.None? && added != [] then Some([added[0]]) else w;
    if appended == [] then x else Some((if x.Some? then x.value else []) + appended)
  }

  lemma EditsRead(h: Fields, canon: string -> string, ops: HeaderOps, k: string)
    ensures At(AppendAll(AddAll(ReplaceAll(h, canon, ops.replace), canon, ops.add), canon, ops.append), k) ==
            Edited(At(h, k), Given(canon, ops.replace, k), Given(canon, ops.add, k), Given(canon, ops.append, k))
  {
    var replaced := ReplaceAll(h, canon, ops.replace);
    ReplaceReads(h, canon, ops.replace, k);
    AddReads(replaced, canon, ops.add, k);
    AppendReads(AddAll(replaced, canon, ops.add), canon, ops.append, k);
    hide ReplaceAll, AddAll, AppendAll, Given;
  }

  // ---------------------------------------------------------------- renames

  /**
   The same names as a table sees a list of header renames: each puts the values
   of its old name behind those of the new, unless there are none to move or one
   of its names is empty.
   */
  ghost function HeaderRenamed(read: string -> Option<seq<string>>, canon: string -> string, ps: seq<Pair>, k: string): Option<seq<string>>
    decreases |ps|
  {
    if ps == [] then read(k)
    else
      var p, before := Last(ps), HeaderRenamed(read, canon, Front(ps), k);
      var moved := HeaderRenamed(read, canon, Front(ps), canon(p.from));
      if p.from == "" || p.to == "" || moved.None? || moved.value == [] || canon(p.from) == canon(p.to) then before
      else if k == canon(p.to) then Some((if before.Some? then before.value else []) + moved.value)
      else if k == canon(p.from) then None
      else before
  }

  lemma {:induction false} HeaderRenamesRead(h: Fields, canon: string -> string, ps: seq<Pair>, k: string)
    ensures At(RenameAll(h, canon, ps), k) == HeaderRenamed((x: string) => At(h, x), canon, ps, k)
    decreases |ps|
  {
    if ps != [] {
      HeaderRenamesRead(h, canon, Front(ps), k);
      HeaderRenamesRead(h, canon, Front(ps), canon(Last(ps).from));
      RenameReads(RenameAll(h, canon, Front(ps)), canon, Last(ps), k);
      hide At, Renamed;
    }
  }

  lemma RenameReads(h: Fields, canon: string -> string, p: Pair, k: string)
    ensures At(Renamed(h, canon, p), k) ==
            if p.from == "" || p.to == "" || canon(p.from) !in h || h[canon(p.from)] == [] || canon(p.from) == canon(p.to) then At(h, k)
            else if k == canon(p.to) then Some((if k in h then h[k] else []) + h[canon(p.from)])
            else if k == canon(p.from) then None
            else At(h, k)
  {
    var moved := Values(h, canon(p.from));
    assert [] + moved == moved;
  }

  /** The same for query parameters: the values moved take the place of those the new name has. */
  ghost function QueryRenamedTo(read: string -> Option<seq<string>>, ps: seq<Pair>, k: string): Option<seq<string>>
    decreases |ps|
  {
    if ps == [] then read(k)
    else
      var p, before := Last(ps), QueryRenamedTo(read, Front(ps), k);
      var moved := QueryRenamedTo(read, Front(ps), p.from);
      if moved.None? then before
      else if k == p.to then moved
      else if k == p.from then None
      else before
  }

  lemma {:induction false} QueryRenamesRead(q: Fields, ps: seq<Pair>, k: string)
    ensures At(QueryRenameAll(q, ps), k) == QueryRenamedTo((x: string) => At(q, x), ps, k)
    decreases |ps|
  {
    if ps != [] {
      QueryRenamesRead(q, Front(ps), k);
      QueryRenamesRead(q, Front(ps), Last(ps).from);
    }
  }

  /** Tables that agree everywhere rename alike. */
  lemma {:induction false} SameTables(a: string -> Option<seq<string>>, b: string -> Option<seq<string>>,
                                      canon: string -> string, ps: seq<Pair>, k: string)
    requires forall x :: a(x) == b(x)
    ensures HeaderRenamed(a, canon, ps, k) == HeaderRenamed(b, canon, ps, k)
    ensures QueryRenamedTo(a, ps, k) == QueryRenamedTo(b, ps, k)
    decreases |ps|
  {
    if ps != [] {
      SameTables(a, b, canon, Front(ps), k);
      SameTables(a, b, canon, Front(ps), canon(Last(ps).from));
      SameTables(a, b, canon, Front(ps), Last(ps).from);
    }
  }

  // ---------------------------------------------------------------- the whole pipelines

  /** What the removals leave under a name. */
  ghost function Admitted(h: Fields, canon: string -> string, ks: seq<string>, k: string): Option<seq<string>> {
    if Removes(canon, ks, k) || k !in h then None else Some(h[k])
  }

  /**
   The values of a header after all phases: what the removals leave there and
   whatever is renamed to it, then replaced, added and appended to, in this order.
   */
  lemma HeadersRead(h: Fields, canon: string -> string, ops: HeaderOps, k: string)
    ensures At(Transform(h, canon, ops), k) ==
            Edited(HeaderRenamed((x: string) => Admitted(h, canon, ops.remove, x), canon, ops.rename, k),
                   Given(canon, ops.replace, k), Given(canon, ops.add, k), Given(canon, ops.append, k))
  {
    var removed := RemoveAll(h, canon, ops.remove);
    forall x ensures At(removed, x) == Admitted(h, canon, ops.remove, x) {
      RemoveReads(h, canon, ops.remove, x);
    }
    hide At, Admitted, Edited, HeaderRenamed;
    HeaderRenamesRead(removed, canon, ops.rename, k);
    SameTables((x: string) => At(removed, x), (x: string) => Admitted(h, canon, ops.remove, x), canon, ops.rename, k);
    EditsRead(RenameAll(removed, canon, ops.rename), canon, ops, k);
  }

  lemma QueryReads(q: Fields, ops: HeaderOps, k: string)
    ensures At(QueryTransform(q, ops), k) ==
            Edited(QueryRenamedTo((x: string) => Admitted(q, Same, ops.remove, x), ops.rename, k),
                   Given(Same, ops.replace, k), Given(Same, ops.add, k), Given(Same, ops.append, k))
  {
    var removed := RemoveAll(q, Same, ops.remove);
    forall x ensures At(removed, x) == Admitted(q, Same, ops.remove, x) {
      RemoveReads(q, Same, ops.remove, x);
    }
    hide At, Admitted, Edited, QueryRenamedTo;
    QueryRenamesRead(removed, ops.rename, k);
    SameTables((x: string) => At(removed, x), (x: string) => Admitted(q, Same, ops.remove, x), Same, ops.rename, k);
    EditsRead(QueryRenameAll(removed, ops.rename), Same, ops, k);
  }

  // ---------------------------------------------------------------- phase by phase

  /** No rename but the one at `except` has the name on either side. */
  ghost predicate Aside(canon: string -> string, ps: seq<Pair>, k: string, except: int) {
    forall i :: 0 <= i < |ps| && i != except ==> canon(ps[i].from) != k && canon(ps[i].to) != k
  }

  lemma {:induction false} RenamesAside(read: string -> Option<seq<string>>, canon: string -> string, ps: seq<Pair>, k: string)
    requires Aside(canon, ps, k, |ps|)
    ensures HeaderRenamed(read, canon, ps, k) == read(k)
    ensures canon == Same ==> QueryRenamedTo(read, ps, k) == read(k)
    decreases |ps|
  {
    if ps != [] {
      assert forall i :: 0 <= i < |Front(ps)| ==> Front(ps)[i] == ps[i];
      RenamesAside(read, canon, Front(ps), k);
      assert Last(ps) == ps[|ps| - 1];
    }
  }

  /** Two names of one rename that no other rename has. */
  ghost predicate Lone(canon: string -> string, ps: seq<Pair>, i: nat)
    requires i < |ps|
  {
    && canon(ps[i].from) != canon(ps[i].to)
    && Aside(canon, ps, canon(ps[i].from), i) && Aside(canon, ps, canon(ps[i].to), i)
  }

  lemma {:induction false} OneHeaderRename(read: string -> Option<seq<string>>, canon: string -> string, ps: seq<Pair>, i: nat)
    requires i < |ps| && Lone(canon, ps, i) && ps[i].from != "" && ps[i].to != ""
    requires var v := read(canon(ps[i].from)); v.Some? && v.value != []
    ensures var from, to := canon(ps[i].from), canon(ps[i].to);
            && HeaderRenamed(read, canon, ps, from) == None
            && HeaderRenamed(read, canon, ps, to) == Some((if read(to).Some? then read(to).value else []) + read(from).value)
    decreases |ps|
  {
    var from, to := canon(ps[i].from), canon(ps[i].to);
    assert forall j :: 0 <= j < |Front(ps)| ==> Front(ps)[j] == ps[j];
    if i == |ps| - 1 {
      RenamesAside(read, canon, Front(ps), from);
      RenamesAside(read, canon, Front(ps), to);
    } else {
      OneHeaderRename(read, canon, Front(ps), i);
      assert Last(ps) == ps[|ps| - 1];
    }
  }

  lemma {:induction false} OneQueryRename(read: string -> Option<seq<string>>, ps: seq<Pair>, i: nat)
    requires i < |ps| && Lone(Same, ps, i) && read(ps[i].from).Some?
    ensures QueryRenamedTo(read, ps, ps[i].from) == None
    ensures QueryRenamedTo(read, ps, ps[i].to) == read(ps[i].from)
    decreases |ps|
  {
    assert forall j :: 0 <= j < |Front(ps)| ==> Front(ps)[j] == ps[j];
    assert Same(ps[i].from) == ps[i].from && Same(ps[i].to) == ps[i].to;
    if i == |ps| - 1 {
      RenamesAside(read, Same, Front(ps), ps[i].from);
      RenamesAside(read, Same, Front(ps), ps[i].to);
    } else {
      OneQueryRename(read, Front(ps), i);
      assert Same(Last(ps).from) == ps[|ps| - 1].from && Same(Last(ps).to) == ps[|ps| - 1].to;
    }
  }

  /**
   What a name that nothing is renamed from or to ends with: it is gone if it was
   removed and nothing adds to it; the first value to be added if it was removed
   or never there; the last one given for its replacement, or what it had, if it
   stayed. Appended values come behind.
   */
  ghost predicate EndsAs(h: Fields, h': Fields, canon: string -> string, ops: HeaderOps, k: string) {
    var there := k in h && !Removes(canon, ops.remove, k);
    var replaced, added, appended := Given(canon, ops.replace, k), Given(canon, ops.add, k), Given(canon, ops.append, k);
    && (k in h' <==> there || added != [] || appended != [])
    && (there && replaced != [] ==> h'[k] == [Last(replaced)] + appended)
    && (there && replaced == [] ==> h'[k] == h[k] + appended)
    && (!there && added != [] ==> h'[k] == [added[0]] + appended)
    && (!there && added == [] && appended != [] ==> h'[k] == appended)
  }

  lemma HeaderEndsAs(h: Fields, canon: string -> string, ops: HeaderOps, k: string)
    requires Aside(canon, ops.rename, k, |ops.rename|)
    ensures EndsAs(h, Transform(h, canon, ops), canon, ops, k)
  {
    HeadersRead(h, canon, ops, k);
    RenamesAside((x: string) => Admitted(h, canon, ops.remove, x), canon, ops.rename, k);
    hide Transform, Given, HeaderRenamed, Removes;
    NothingBehind(h, k);
  }

  lemma QueryEndsAs(q: Fields, ops: HeaderOps, k: string)
    requires Aside(Same, ops.rename, k, |ops.rename|)
    ensures EndsAs(q, QueryTransform(q, ops), Same, ops, k)
  {
    QueryReads(q, ops, k);
    RenamesAside((x: string) => Admitted(q, Same, ops.remove, x), Same, ops.rename, k);
    hide QueryTransform, Given, QueryRenamedTo, Removes;
    NothingBehind(q, k);
  }

  lemma NothingBehind(h: Fields, k: string)
    ensures k in h ==> h[k] + [] == h[k]
    ensures forall v: string :: [v] + [] == [v]
    ensures forall vs: seq<string> :: [] + vs == vs
  {
  }

  /**
   A renamed header's values end behind what the removals left of the new name,
   or are replaced there by the last value given for it; the old name is gone
   unless something is added to it again. Appended values come behind.
   */
  lemma RenamedHeaderMoves(h: Fields, canon: string -> string, ops: HeaderOps, i: nat)
    requires i < |ops.rename| && Lone(canon, ops.rename, i) && ops.rename[i].from != "" && ops.rename[i].to != ""
    requires var from := canon(ops.rename[i].from); from in h && h[from] != [] && !Removes(canon, ops.remove, from)
    ensures var from, to, h' := canon(ops.rename[i].from), canon(ops.rename[i].to), Transform(h, canon, ops);
            var replaced, appended := Given(canon, ops.replace, to), Given(canon, ops.append, to);
            && to in h'
            && (replaced != [] ==> h'[to] == [Last(replaced)] + appended)
            && (replaced == [] && to in h && !Removes(canon, ops.remove, to) ==> h'[to] == h[to] + h[from] + appended)
            && (replaced == [] && !(to in h && !Removes(canon, ops.remove, to)) ==> h'[to] == h[from] + appended)
            && (Given(canon, ops.add, from) == [] && Given(canon, ops.append, from) == [] ==> from !in h')
            && (Given(canon, ops.add, from) != [] ==>
                  from in h' && h'[from] == [Given(canon, ops.add, from)[0]] + Given(canon, ops.append, from))
  {
    var from, to := canon(ops.rename[i].from), canon(ops.rename[i].to);
    HeadersRead(h, canon, ops, from);
    HeadersRead(h, canon, ops, to);
    OneHeaderRename((x: string) => Admitted(h, canon, ops.remove, x), canon, ops.rename, i);
    hide Transform, Given, HeaderRenamed, Removes, Aside;
    NothingBehind(h, from);
    NothingBehind(h, to);
    assert to in h ==> h[to] + h[from] + [] == h[to] + h[from];
  }

  /** The same for a query parameter, whose values end in place of those the new name had. */
  lemma RenamedParamMoves(q: Fields, ops: HeaderOps, i: nat)
    requires i < |ops.rename| && Lone(Same, ops.rename, i)
    requires ops.rename[i].from in q && !Removes(Same, ops.remove, ops.rename[i].from)
    ensures var from, to, q' := ops.rename[i].from, ops.rename[i].to, QueryTransform(q, ops);
            var replaced, appended := Given(Same, ops.replace, to), Given(Same, ops.append, to);
            && to in q'
            && (replaced != [] ==> q'[to] == [Last(replaced)] + appended)
            && (replaced == [] ==> q'[to] == q[from] + appended)
            && (Given(Same, ops.add, from) == [] && Given(Same, ops.append, from) == [] ==> from !in q')
            && (Given(Same, ops.add, from) != [] ==>
                  from in q' && q'[from] == [Given(Same, ops.add, from)[0]] + Given(Same, ops.append, from))
  {
    var from, to := ops.rename[i].from, ops.rename[i].to;
    QueryReads(q, ops, from);
    QueryReads(q, ops, to);
    OneQueryRename((x: string) => Admitted(q, Same, ops.remove, x), ops.rename, i);
    hide QueryTransform, Given, QueryRenamedTo, Removes, Lone;
    NothingBehind(q, from);
  }

  // ---------------------------------------------------------------- responses

  /** What of a list takes effect: all of it if the phase names the status or none at all, and otherwise nothing. */
  function InEffect<T>(codes: seq<int>, status: int, items: seq<T>): seq<T> {
    if codes == [] || status in codes then items else []
  }

  /** A response's headers read as those of a request whose lists are the ones in effect. */
  lemma ResponseHeadersRead(h: Fields, canon: string -> string, ops: ResponseOps, status: int, k: string)
    ensures At(Transform(h, canon, ApplicableHeaders(ops, status)), k) ==
            Edited(HeaderRenamed((x: string) => Admitted(h, canon, InEffect(ops.removeIf, status, ops.headers.remove), x), canon,
                                 InEffect(ops.renameIf, status, ops.headers.rename), k),
                   Given(canon, InEffect(ops.replaceIf, status, ops.headers.replace), k),
                   Given(canon, InEffect(ops.addIf, status, ops.headers.add), k),
                   Given(canon, InEffect(ops.appendIf, status, ops.headers.append), k))
  {
    HeadersRead(h, canon, ApplicableHeaders(ops, status), k);
    hide Transform, Admitted, Edited, HeaderRenamed, Given;
  }

  predicate Matching(codes: seq<int>, status: int) {
    codes == [] || exists i :: 0 <= i < |codes| && codes[i] == status
  }

  predicate BodyStays(ops: ResponseOps, status: int) {
    ops.wholeBody.None? || !Matching(ops.replaceIf, status)
  }

  /** A replacement of the whole body is what is sent when it matches; otherwise the fields are edited. */
  lemma WholeBodyExactly(o: Members, ops: ResponseOps, status: int)
    ensures BodyStays(ops, status) <==> TransformResponse(o, ops, status).Edited?
    ensures !BodyStays(ops, status) ==> TransformResponse(o, ops, status).text == ops.wholeBody.value
  {
  }

  /** A removal takes effect exactly when its status matches. */
  lemma ResponseRemoves(o: Members, ops: ResponseOps, status: int, q: Path)
    requires BodyStays(ops, status) && B.Covered(ops.body.remove, q) && TransformLaws.NoLaterPhase(ops.body, q)
    ensures var r := TransformResponse(o, ops, status);
            && r.Edited?
            && (Matching(ops.removeIf, status) ==> Get(r.members, q) == None)
            && (!Matching(ops.removeIf, status) ==> Get(r.members, q) == Get(B.AllowOnly(o, ops.body.allow), q))
  {
    var now := Applicable(ops, status);
    if Matching(ops.removeIf, status) {
      TransformLaws.RemovedIsGone(o, now, q);
    } else {
      TransformLaws.LaterPhasesAside(o, now, q);
    }
  }

  ghost predicate EditsApart(ops: B.BodyOps, q: Path) {
    B.ApartFromKeys(ops.replace, q) && B.ApartFromKeys(ops.add, q) && B.ApartFromKeys(ops.append, q)
  }

  /** So does a rename: the value is at the new path and nothing at the old one, or it is where it was. */
  lemma ResponseRenames(o: Members, ops: ResponseOps, status: int, k: nat)
    requires BodyStays(ops, status) && k < |ops.body.rename| && TransformLaws.Solitary(ops.body.rename, k)
    requires var from := ops.body.rename[k].from; TransformLaws.Kept(o, ops.body, from) && Get(o, from).Some?
    requires EditsApart(ops.body, ops.body.rename[k].from) && EditsApart(ops.body, ops.body.rename[k].to)
    ensures var r, from, to := TransformResponse(o, ops, status), ops.body.rename[k].from, ops.body.rename[k].to;
            && r.Edited?
            && (Matching(ops.renameIf, status) ==> Get(r.members, to) == Get(o, from) && Get(r.members, from) == None)
            && (!Matching(ops.renameIf, status) ==> Get(r.members, from) == Get(o, from))
  {
    var now, from := Applicable(ops, status), ops.body.rename[k].from;
    hide B.Transform, Get;
    if Matching(ops.renameIf, status) {
      TransformLaws.RenamedIsMoved(o, now, k);
    } else {
      TransformLaws.LaterPhasesAside(o, now, from);
      TransformLaws.KeptReads(o, now, from);
    }
  }

  /** So does a replacement: the key reads the last value listed, or what it had. */
  lemma ResponseReplaces(o: Members, ops: ResponseOps, status: int, q: Path)
    requires BodyStays(ops, status) && TransformLaws.Kept(o, ops.body, q) && Get(o, q).Some?
    requires B.ApartFromPairs(ops.body.rename, q) && TransformLaws.LevelEdits(ops.body, q)
    requires B.ApartFromKeys(ops.body.append, q) && B.ValuesAt(ops.body.replace, q) != []
    ensures var r := TransformResponse(o, ops, status);
            && r.Edited?
            && Get(r.members, q) == if Matching(ops.replaceIf, status) then Some(Scalar(Last(B.ValuesAt(ops.body.replace, q))))
                                    else Get(o, q)
  {
    var now := Applicable(ops, status);
    hide B.Transform, Get, B.ValuesAt;
    TransformLaws.KeptEdited(o, now, q);
    NoValuesAt(q);
  }

  /** So does an addition: a missing key reads the first value listed, or stays missing. */
  lemma ResponseAdds(o: Members, ops: ResponseOps, status: int, q: Path)
    requires BodyStays(ops, status) && Get(o, q).None?
    requires ops.body.allow == [] || !AboveListed(o, ops.body.allow, q)
    requires B.ApartFromPairs(ops.body.rename, q) && TransformLaws.LevelEdits(ops.body, q)
    requires B.ApartFromKeys(ops.body.append, q) && B.ValuesAt(ops.body.add, q) != []
    ensures var r := TransformResponse(o, ops, status);
            && r.Edited?
            && Get(r.members, q) == if Matching(ops.addIf, status) then Some(Scalar(B.ValuesAt(ops.body.add, q)[0])) else None
  {
    var now := Applicable(ops, status);
    hide B.Transform, Get, B.ValuesAt;
    TransformLaws.MissingEdited(o, now, q);
    NoValuesAt(q);
  }

  lemma NoValuesAt(q: Path)
    ensures B.ValuesAt([], q) == []
  {
  }

  /** So does an append: its values accumulate onto what the response has without it, or are left out. */
  lemma ResponseAppends(o: Members, ops: ResponseOps, status: int, q: Path)
    requires BodyStays(ops, status) && TransformLaws.LevelKeys(ops.body.append, q)
    ensures var without := ops.(body := ops.body.(append := []));
            var r, r' := TransformResponse(o, ops, status), TransformResponse(o, without, status);
            && r.Edited? && r'.Edited?
            && Get(r.members, q) == if Matching(ops.appendIf, status) then B.Accumulated(Get(r'.members, q), B.ValuesAt(ops.body.append, q))
                                    else Get(r'.members, q)
  {
    var now := Applicable(ops, status);
    hide B.Transform, Get, B.ValuesAt, B.Accumulated;
    if Matching(ops.appendIf, status) {
      TransformLaws.AppendsAccumulate(o, now, q);
    }
    assert now.(append := []) == Applicable(ops.(body := ops.body.(append := [])), status);
  }
}

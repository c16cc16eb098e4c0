/**
 Header and query operations of a transformation over multi-valued maps, and
 which phases of a response transformation its status lets through. How a header
 name is brought to canonical form is an uninterpreted function.
 */
module HeaderPhases {
  import opened Prelude
  import opened JsonTree
  import TransformSpec

  type Fields = map<string, seq<string>>

  datatype Pair = Pair(from: string, to: string)

  datatype Field = Field(key: string, value: string)

  datatype HeaderOps = HeaderOps(
    remove: seq<string>, rename: seq<Pair>, replace: seq<Field>, add: seq<Field>, append: seq<Field>)

  function Values(h: Fields, k: string): seq<string> {
    if k in h then h[k] else []
  }

  function Added(h: Fields, canon: string -> string, k: string, v: string): Fields {
    h[canon(k) := Values(h, canon(k)) + [v]]
  }

  /** Moves every value behind those the new name already has. */
  function Renamed(h: Fields, canon: string -> string, p: Pair): Fields {
    var moved := Values(h, canon(p.from));
    if p.from == "" || p.to == "" || moved == [] then h
    else
      var rest := h - {canon(p.from)};
      rest[canon(p.to) := Values(rest, canon(p.to)) + moved]
  }

  function RemoveAll(h: Fields, canon: string -> string, ks: seq<string>): Fields {
    if ks == [] then h else RemoveAll(h, canon, Front(ks)) - {canon(Last(ks))}
  }

  function RenameAll(h: Fields, canon: string -> string, ps: seq<Pair>): Fields {
    if ps == [] then h else Renamed(RenameAll(h, canon, Front(ps)), canon, Last(ps))
  }

  function Replaced(h: Fields, canon: string -> string, f: Field): Fields {
    if canon(f.key) in h then h[canon(f.key) := [f.value]] else h
  }

  function ReplaceAll(h: Fields, canon: string -> string, fs: seq<Field>): Fields {
    if fs == [] then h else Replaced(ReplaceAll(h, canon, Front(fs)), canon, Last(fs))
  }

  function AddedIfMissing(h: Fields, canon: string -> string, f: Field): Fields {
    if canon(f.key) in h then h else h[canon(f.key) := [f.value]]
  }

  function AddAll(h: Fields, canon: string -> string, fs: seq<Field>): Fields {
    if fs == [] then h else AddedIfMissing(AddAll(h, canon, Front(fs)), canon, Last(fs))
  }

  function AppendAll(h: Fields, canon: string -> string, fs: seq<Field>): Fields {
    if fs == [] then h else Added(AppendAll(h, canon, Front(fs)), canon, Last(fs).key, Last(fs).value)
  }

  function Transform(h: Fields, canon: string -> string, ops: HeaderOps): Fields {
    var removed := RemoveAll(h, canon, ops.remove);
    var renamed := RenameAll(removed, canon, ops.rename);
    var replaced := ReplaceAll(renamed, canon, ops.replace);
    AppendAll(AddAll(replaced, canon, ops.add), canon, ops.append)
  }

  // ---------------------------------------------------------------- responses

  /** Each phase but the first names the statuses it applies to; an empty list means all. */
  datatype ResponseOps = ResponseOps(
    headers: HeaderOps, body: TransformSpec.BodyOps,
    removeIf: seq<int>, renameIf: seq<int>, replaceIf: seq<int>, addIf: seq<int>, appendIf: seq<int>,
    wholeBody: Option<string>)

  predicate StatusMatches(codes: seq<int>, status: int) {
    codes == [] || status in codes
  }

  /** The header phases that the status lets through. */
  function ApplicableHeaders(ops: ResponseOps, status: int): HeaderOps {
    HeaderOps(
      if StatusMatches(ops.removeIf, status) then ops.headers.remove else [],
      if StatusMatches(ops.renameIf, status) then ops.headers.rename else [],
      if StatusMatches(ops.replaceIf, status) then ops.headers.replace else [],
      if StatusMatches(ops.addIf, status) then ops.headers.add else [],
      if StatusMatches(ops.appendIf, status) then ops.headers.append else [])
  }

  class Header {
    var fields: Fields
    const canon: string -> string

    constructor (canon: string -> string, fields: Fields)
      ensures this.fields == fields && this.canon == canon
    {
      this.fields, this.canon := fields, canon;
    }

    method Add(k: string, v: string)
      modifies this
      ensures fields == Added(old(fields), canon, k, v)
    {
      fields := fields[canon(k) := (if canon(k) in fields then fields[canon(k)] else []) + [v]];
    }

    /** The values are copied first: deleting the old name takes the stored list away. */
    method Rename(p: Pair)
      modifies this
      ensures fields == Renamed(old(fields), canon, p)
    {
      if p.from == "" || p.to == "" {
        return;
      }
      var values := if canon(p.from) in fields then fields[canon(p.from)] else [];
      if |values| == 0 {
        return;
      }
      fields := fields - {canon(p.from)};
      ghost var rest := fields;
      var i := 0;
      while i < |values|
        invariant 0 <= i <= |values|
        invariant fields == if i == 0 then rest else rest[canon(p.to) := Values(rest, canon(p.to)) + values[..i]]
      {
        assert Values(rest, canon(p.to)) + values[..i] + [values[i]] == Values(rest, canon(p.to)) + values[..i + 1];
        assert Values(fields, canon(p.to)) == Values(rest, canon(p.to)) + values[..i];
        Add(p.to, values[i]);
        assert fields == rest[canon(p.to) := Values(rest, canon(p.to)) + values[..i + 1]];
        i := i + 1;
      }
      assert values[..i] == values;
    }

    method ApplyHeaderOps(ops: HeaderOps)
      modifies this
      ensures fields == Transform(old(fields), canon, ops)
    {
      RemoveKeys(ops.remove);
      RenameKeys(ops.rename);
      SetFields(ops.replace, true);
      SetFields(ops.add, false);
      AppendFields(ops.append);
    }

    /** The headers of a response: each phase by its own statuses. */
    method ApplyResponseOps(ops: ResponseOps, status: int)
      modifies this
      ensures fields == Transform(old(fields), canon, ApplicableHeaders(ops, status))
    {
      if StatusMatches(ops.removeIf, status) {
        RemoveKeys(ops.headers.remove);
      }
      if StatusMatches(ops.renameIf, status) {
        RenameKeys(ops.headers.rename);
      }
      if StatusMatches(ops.replaceIf, status) {
        SetFields(ops.headers.replace, true);
      }
      if StatusMatches(ops.addIf, status) {
        SetFields(ops.headers.add, false);
      }
      if StatusMatches(ops.appendIf, status) {
        AppendFields(ops.headers.append);
      }
    }

    method RemoveKeys(ks: seq<string>)
      modifies this
      ensures fields == RemoveAll(old(fields), canon, ks)
    {
      var i := 0;
      while i < |ks|
        invariant 0 <= i <= |ks| && fields == RemoveAll(old(fields), canon, ks[..i])
      {
        assert Front(ks[..i + 1]) == ks[..i];
        fields := fields - {canon(ks[i])};
        i := i + 1;
      }
      assert ks[..i] == ks;
    }

    method RenameKeys(ps: seq<Pair>)
      modifies this
      ensures fields == RenameAll(old(fields), canon, ps)
    {
      var i := 0;
      while i < |ps|
        invariant 0 <= i <= |ps| && fields == RenameAll(old(fields), canon, ps[..i])
      {
        assert Front(ps[..i + 1]) == ps[..i];
        Rename(ps[i]);
        i := i + 1;
      }
      assert ps[..i] == ps;
    }

    /** Replacing sets what is there, adding what is not. */
    method SetFields(fs: seq<Field>, present: bool)
      modifies this
      ensures fields == if present then ReplaceAll(old(fields), canon, fs) else AddAll(old(fields), canon, fs)
    {
      var i := 0;
      while i < |fs|
        invariant 0 <= i <= |fs|
        invariant fields == if present then ReplaceAll(old(fields), canon, fs[..i]) else AddAll(old(fields), canon, fs[..i])
      {
        assert Front(fs[..i + 1]) == fs[..i];
        if (canon(fs[i].key) in fields) == present {
          fields := fields[canon(fs[i].key) := [fs[i].value]];
        }
        i := i + 1;
      }
      assert fs[..i] == fs;
    }

    method AppendFields(fs: seq<Field>)
      modifies this
      ensures fields == AppendAll(old(fields), canon, fs)
    {
      var i := 0;
      while i < |fs|
        invariant 0 <= i <= |fs| && fields == AppendAll(old(fields), canon, fs[..i])
      {
        assert Front(fs[..i + 1]) == fs[..i];
        Add(fs[i].key, fs[i].value);
        i := i + 1;
      }
      assert fs[..i] == fs;
    }
  }

  /** A rename moves values and loses none: the new name has its own followed by those moved, every other name what it had. */
  lemma RenameLosesNothing(h: Fields, canon: string -> string, p: Pair, k: string)
    requires p.from != "" && p.to != ""
    ensures Values(Renamed(h, canon, p), k) ==
            if canon(p.from) == canon(p.to) then Values(h, k)
            else if k == canon(p.to) then Values(h, k) + Values(h, canon(p.from))
            else if k == canon(p.from) then []
            else Values(h, k)
  {
  }

  ghost predicate Mentions(canon: string -> string, ops: HeaderOps, k: string) {
    || (exists i :: 0 <= i < |ops.remove| && canon(ops.remove[i]) == k)
    || (exists i :: 0 <= i < |ops.rename| && (canon(ops.rename[i].from) == k || canon(ops.rename[i].to) == k))
    || Lists(canon, ops.replace, k) || Lists(canon, ops.add, k) || Lists(canon, ops.append, k)
  }

  ghost predicate Lists(canon: string -> string, fs: seq<Field>, k: string) {
    exists i :: 0 <= i < |fs| && canon(fs[i].key) == k
  }

  /** The whole pipeline leaves alone every header that no list names. */
  lemma UnmentionedKeepsValues(h: Fields, canon: string -> string, ops: HeaderOps, k: string)
    requires !Mentions(canon, ops, k)
    ensures k in Transform(h, canon, ops) <==> k in h
    ensures Values(Transform(h, canon, ops), k) == Values(h, k)
  {
    var h1 := RemoveAll(h, canon, ops.remove);
    var h2 := RenameAll(h1, canon, ops.rename);
    var h3 := ReplaceAll(h2, canon, ops.replace);
    RemoveLeaves(h, canon, ops.remove, k);
    RenameLeaves(h1, canon, ops.rename, k);
    ReplaceLeaves(h2, canon, ops.replace, k);
    AddLeaves(h3, canon, ops.add, k);
    AppendLeaves(AddAll(h3, canon, ops.add), canon, ops.append, k);
  }

  ghost predicate SameAt(h: Fields, h': Fields, k: string) {
    (k in h <==> k in h') && (k in h ==> h'[k] == h[k])
  }

  lemma {:induction false} RemoveLeaves(h: Fields, canon: string -> string, ks: seq<string>, k: string)
    requires forall i :: 0 <= i < |ks| ==> canon(ks[i]) != k
    ensures SameAt(h, RemoveAll(h, canon, ks), k)
  {
    if ks != [] {
      RemoveLeaves(h, canon, Front(ks), k);
    }
  }

  lemma {:induction false} RenameLeaves(h: Fields, canon: string -> string, ps: seq<Pair>, k: string)
    requires forall i :: 0 <= i < |ps| ==> canon(ps[i].from) != k && canon(ps[i].to) != k
    ensures SameAt(h, RenameAll(h, canon, ps), k)
  {
    if ps != [] {
      RenameLeaves(h, canon, Front(ps), k);
    }
  }

  lemma {:induction false} ReplaceLeaves(h: Fields, canon: string -> string, fs: seq<Field>, k: string)
    requires !Lists(canon, fs, k)
    ensures SameAt(h, ReplaceAll(h, canon, fs), k)
  {
    if fs != [] {
      assert forall i :: 0 <= i < |Front(fs)| ==> Front(fs)[i] == fs[i];
      ReplaceLeaves(h, canon, Front(fs), k);
      assert canon(fs[|fs| - 1].key) != k;
    }
  }

  lemma {:induction false} AddLeaves(h: Fields, canon: string -> string, fs: seq<Field>, k: string)
    requires !Lists(canon, fs, k)
    ensures SameAt(h, AddAll(h, canon, fs), k)
  {
    if fs != [] {
      assert forall i :: 0 <= i < |Front(fs)| ==> Front(fs)[i] == fs[i];
      AddLeaves(h, canon, Front(fs), k);
      assert canon(fs[|fs| - 1].key) != k;
    }
  }

  lemma {:induction false} AppendLeaves(h: Fields, canon: string -> string, fs: seq<Field>, k: string)
    requires !Lists(canon, fs, k)
    ensures SameAt(h, AppendAll(h, canon, fs), k)
  {
    if fs != [] {
      assert forall i :: 0 <= i < |Front(fs)| ==> Front(fs)[i] == fs[i];
      AppendLeaves(h, canon, Front(fs), k);
      assert canon(fs[|fs| - 1].key) != k;
    }
  }

  // ---------------------------------------------------------------- query parameters

  /** Parameter names are taken as they are. */
  function Same(k: string): string {
    k
  }

  /** The query's rename moves the whole list and overwrites what the new name has. */
  function QueryRenamed(q: Fields, p: Pair): Fields {
    if p.from in q then (q - {p.from})[p.to := q[p.from]] else q
  }

  function QueryRenameAll(q: Fields, ps: seq<Pair>): Fields {
    if ps == [] then q else QueryRenamed(QueryRenameAll(q, Front(ps)), Last(ps))
  }

  /** The phases come in the same order as for headers. */
  function QueryTransform(q: Fields, ops: HeaderOps): Fields {
    var renamed := QueryRenameAll(RemoveAll(q, Same, ops.remove), ops.rename);
    var replaced := ReplaceAll(renamed, Same, ops.replace);
    AppendAll(AddAll(replaced, Same, ops.add), Same, ops.append)
  }

  class Query {
    var fields: Fields
    var changed: bool

    constructor (fields: Fields)
      ensures this.fields == fields && !changed
    {
      this.fields, changed := fields, false;
    }

    /** The query is written back only if `changed` is set; otherwise nothing in it has changed. */
    method ApplyQueryOps(ops: HeaderOps)
      requires !changed
      modifies this
      ensures fields == QueryTransform(old(fields), ops)
      ensures !changed ==> fields == old(fields)
    {
      RemoveKeys(ops.remove);
      RenameKeys(ops.rename);
      SetFields(ops.replace, true);
      SetFields(ops.add, false);
      AppendFields(ops.append);
    }

    /** The flag is never taken back, and is set by every write. */
    twostate predicate Tracked()
      reads this
    {
      (old(changed) ==> changed) && (!changed ==> fields == old(fields))
    }

    method RemoveKeys(ks: seq<string>)
      modifies this
      ensures Tracked() && fields == RemoveAll(old(fields), Same, ks)
    {
      var i := 0;
      while i < |ks|
        invariant 0 <= i <= |ks| && Tracked() && fields == RemoveAll(old(fields), Same, ks[..i])
      {
        assert Front(ks[..i + 1]) == ks[..i];
        fields, changed := fields - {ks[i]}, true;
        i := i + 1;
      }
      assert ks[..i] == ks;
    }

    method RenameKeys(ps: seq<Pair>)
      modifies this
      ensures Tracked() && fields == QueryRenameAll(old(fields), ps)
    {
      var i := 0;
      while i < |ps|
        invariant 0 <= i <= |ps| && Tracked() && fields == QueryRenameAll(old(fields), ps[..i])
      {
        assert Front(ps[..i + 1]) == ps[..i];
        if ps[i].from in fields {
          var vs := fields[ps[i].from];
          fields := fields - {ps[i].from};
          fields := fields[ps[i].to := vs];
          changed := true;
        }
        i := i + 1;
      }
      assert ps[..i] == ps;
    }

    /** Replacing sets what is there, adding what is not. */
    method SetFields(fs: seq<Field>, present: bool)
      modifies this
      ensures Tracked()
      ensures fields == if present then ReplaceAll(old(fields), Same, fs) else AddAll(old(fields), Same, fs)
    {
      var i := 0;
      while i < |fs|
        invariant 0 <= i <= |fs| && Tracked()
        invariant fields == if present then ReplaceAll(old(fields), Same, fs[..i]) else AddAll(old(fields), Same, fs[..i])
      {
        assert Front(fs[..i + 1]) == fs[..i];
        if (fs[i].key in fields) == present {
          fields, changed := fields[fs[i].key := [fs[i].value]], true;
        }
        i := i + 1;
      }
      assert fs[..i] == fs;
    }

    method AppendFields(fs: seq<Field>)
      modifies this
      ensures Tracked() && fields == AppendAll(old(fields), Same, fs)
    {
      var i := 0;
      while i < |fs|
        invariant 0 <= i <= |fs| && Tracked() && fields == AppendAll(old(fields), Same, fs[..i])
      {
        assert Front(fs[..i + 1]) == fs[..i];
        fields := fields[fs[i].key := (if fs[i].key in fields then fields[fs[i].key] else []) + [fs[i].value]];
        changed := true;
        i := i + 1;
      }
      assert fs[..i] == fs;
    }
  }

  /** What every parameter has after a rename; the values of an existing target are lost. */
  lemma QueryRenameMoves(q: Fields, p: Pair, k: string)
    ensures Values(QueryRenamed(q, p), k) ==
            if p.from !in q || p.from == p.to then Values(q, k)
            else if k == p.to then Values(q, p.from)
            else if k == p.from then []
            else Values(q, k)
  {
  }

  /**
   A header's rename keeps the values of the target and the query's does not: for
   names a header accepts the two agree exactly when there is nothing to move, the
   name stays, or the target is not there.
   */
  lemma RenamesAgreeExactly(q: Fields, p: Pair)
    requires p.from != "" && p.to != "" && forall k :: k in q ==> q[k] != []
    ensures QueryRenamed(q, p) == Renamed(q, Same, p) <==> p.from !in q || p.from == p.to || p.to !in q
  {
    if p.from in q && p.from != p.to && p.to in q {
      assert Values(Renamed(q, Same, p), p.to) == q[p.to] + q[p.from];
      assert |q[p.to] + q[p.from]| > |q[p.from]|;
      assert Values(QueryRenamed(q, p), p.to) == q[p.from];
    } else if p.from in q && p.from != p.to {
      assert [] + q[p.from] == q[p.from];
    } else if p.from in q {
      assert (q - {p.from})[p.to := [] + q[p.from]] == q;
    }
  }

  /** Where the target is there, its values are lost from a query and kept in a header. */
  lemma QueryRenameLosesExample()
    ensures var q: Fields, p := map["a" := ["1"], "b" := ["2"]], Pair("a", "b");
            QueryRenamed(q, p) == map["b" := ["1"]] && Renamed(q, Same, p) == map["b" := ["2", "1"]]
  {
    assert ["2"] + ["1"] == ["2", "1"];
  }

  lemma {:induction false} QueryRenameLeaves(q: Fields, ps: seq<Pair>, k: string)
    requires forall i :: 0 <= i < |ps| ==> ps[i].from != k && ps[i].to != k
    ensures SameAt(q, QueryRenameAll(q, ps), k)
  {
    if ps != [] {
      QueryRenameLeaves(q, Front(ps), k);
    }
  }

  /** A parameter that no list names keeps its values through all phases. */
  lemma UnmentionedParamKeepsValues(q: Fields, ops: HeaderOps, k: string)
    requires !Mentions(Same, ops, k)
    ensures k in QueryTransform(q, ops) <==> k in q
    ensures Values(QueryTransform(q, ops), k) == Values(q, k)
  {
    var q1 := RemoveAll(q, Same, ops.remove);
    var q2 := QueryRenameAll(q1, ops.rename);
    var q3 := ReplaceAll(q2, Same, ops.replace);
    RemoveLeaves(q, Same, ops.remove, k);
    assert forall i :: 0 <= i < |ops.rename| ==> Same(ops.rename[i].from) != k && Same(ops.rename[i].to) != k;
    QueryRenameLeaves(q1, ops.rename, k);
    ReplaceLeaves(q2, Same, ops.replace, k);
    AddLeaves(q3, Same, ops.add, k);
    AppendLeaves(AddAll(q3, Same, ops.add), Same, ops.append, k);
  }

  // ---------------------------------------------------------------- the body of a response

  /** The body phases that the status lets through. */
  function Applicable(ops: ResponseOps, status: int): TransformSpec.BodyOps {
    TransformSpec.BodyOps(
      ops.body.allow,
      if StatusMatches(ops.removeIf, status) then ops.body.remove else [],
      if StatusMatches(ops.renameIf, status) then ops.body.rename else [],
      if StatusMatches(ops.replaceIf, status) then ops.body.replace else [],
      if StatusMatches(ops.addIf, status) then ops.body.add else [],
      if StatusMatches(ops.appendIf, status) then ops.body.append else [])
  }

  datatype Body = Whole(text: string) | Edited(members: Members)

  /** A whole-body replacement that applies comes before every field operation, also when it is empty. */
  function TransformResponse(o: Members, ops: ResponseOps, status: int): Body {
    if ops.wholeBody.Some? && StatusMatches(ops.replaceIf, status) then Whole(ops.wholeBody.value)
    else Edited(TransformSpec.Transform(o, Applicable(ops, status)))
  }

  predicate NoPhaseMatches(ops: ResponseOps, status: int) {
    && !StatusMatches(ops.removeIf, status) && !StatusMatches(ops.renameIf, status)
    && !StatusMatches(ops.replaceIf, status) && !StatusMatches(ops.addIf, status) && !StatusMatches(ops.appendIf, status)
  }

  /** The allow list alone ignores the status: a response no phase matches is still cut down to what is listed. */
  lemma AllowIgnoresStatus(o: Members, ops: ResponseOps, status: int, q: Path)
    requires NoPhaseMatches(ops, status)
    ensures TransformResponse(o, ops, status).Edited?
    ensures Look(TransformResponse(o, ops, status).members, q) ==
            if ops.body.allow == [] || Listed(o, ops.body.allow, q) then Look(o, q)
            else if AboveListed(o, ops.body.allow, q) then Inner
            else Absent
  {
    RetainIsRestriction(o, ops.body.allow, q);
  }

  /** A path none of the applicable phases comes near keeps its value, whatever the other phases say. */
  lemma UnmatchedPhasesAreIdle(o: Members, ops: ResponseOps, status: int, q: Path)
    requires !(ops.wholeBody.Some? && StatusMatches(ops.replaceIf, status))
    requires TransformSpec.Untouched(o, Applicable(ops, status), q)
    ensures TransformResponse(o, ops, status).Edited?
    ensures Get(TransformResponse(o, ops, status).members, q) == Get(o, q)
  {
    TransformSpec.UntouchedKeepsValue(o, Applicable(ops, status), q);
  }
}

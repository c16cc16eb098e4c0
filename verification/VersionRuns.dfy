/**
 A client that reads an application's versions page by page while the store goes
 on: what follows from the cursor paging for runs of AppRun Dedicated.
 */
module VersionRuns {
  import opened Prelude
  import opened OrderLists
  import opened Sorting
  import opened Decimal
  import opened VersionPaging
  import C = CursorPaging
  import D = DedicatedStore

  // ---------------------------------------------------------------- the listing as a function

  /** The first position with a smaller number. */
  function PlaceOf(sorted: seq<D.Version>, number: int): (at: nat)
    ensures at <= |sorted| && forall i :: 0 <= i < at ==> sorted[i].number >= number
    ensures at < |sorted| ==> sorted[at].number < number
  {
    if sorted == [] || sorted[0].number < number then 0 else 1 + PlaceOf(sorted[1..], number)
  }

  function Placed(sorted: seq<D.Version>, v: D.Version): seq<D.Version> {
    var at := PlaceOf(sorted, v.number);
    sorted[..at] + [v] + sorted[at..]
  }

  function Newest(vs: seq<D.Version>): seq<D.Version> {
    if vs == [] then [] else Placed(Newest(Front(vs)), Last(vs))
  }

  lemma SmallerFrom(sorted: seq<D.Version>, at: nat, number: int)
    requires Sorted(sorted, Newer) && at <= |sorted| && (at < |sorted| ==> sorted[at].number < number)
    ensures forall i :: at <= i < |sorted| ==> sorted[i].number < number
  {
    forall i | at <= i < |sorted| ensures sorted[i].number < number {
      assert i > at ==> !Newer(sorted[i], sorted[at]);
    }
  }

  lemma PlacedIsAll(sorted: seq<D.Version>, v: D.Version)
    ensures multiset(Placed(sorted, v)) == multiset(sorted) + multiset{v}
  {
    var at := PlaceOf(sorted, v.number);
    assert sorted == sorted[..at] + sorted[at..];
  }

  lemma PlacedSorts(sorted: seq<D.Version>, v: D.Version)
    requires Sorted(sorted, Newer)
    ensures Sorted(Placed(sorted, v), Newer)
  {
    var at := PlaceOf(sorted, v.number);
    SmallerFrom(sorted, at, v.number);
    NewerIsOrder();
    InsertedSorts(v, sorted, seq(|sorted|, i requires 0 <= i => i as nat), |sorted|, Newer, at);
  }

  lemma {:induction false} NewestIsNewestFirst(vs: seq<D.Version>)
    ensures NewestFirst(vs, Newest(vs))
  {
    if vs != [] {
      NewestIsNewestFirst(Front(vs));
      PlacedSorts(Newest(Front(vs)), Last(vs));
      PlacedIsAll(Newest(Front(vs)), Last(vs));
      hide Sorted, Placed;
      assert vs == Front(vs) + [Last(vs)];
    }
  }

  // ---------------------------------------------------------------- the system

  function Versions(s: D.State, id: string): seq<D.Version> {
    D.VersionsOf(s.apps.versions, id)
  }

  ghost function Cursors(s: D.State, id: string): seq<string> {
    C.Ids(Newest(Versions(s, id)), Cursor)
  }

  /** The store, and what the client has so far; `steady` are the cursors listed since it began. */
  datatype Reader = Reader(store: D.State, session: C.Session)

  /** Any call of the store, or a request of the client's for the next page. */
  datatype Event = Call(op: D.Op) | Page(maxItems: int)

  ghost function Begin(s: D.State, id: string): Reader {
    Reader(s, C.Begin(Cursors(s, id)))
  }

  /** The application stays, its counter does not wrap, and the version that the client's cursor names is not deleted. */
  ghost predicate Enabled(r: Reader, id: string, e: Event) {
    match e
    case Call(op) =>
      && D.Fresh(r.store, op) && op != D.DeleteApplication(id)
      && (op.CreateVersion? && op.id == id && id in r.store.apps.created ==>
            r.store.apps.created[id] + 1 < D.TWO_TO_THE_32)
      && (op.DeleteVersion? && op.id == id ==> Integer(op.number) != r.session.cursor || r.session.done)
    case Page(_) => !r.session.done
  }

  ghost function Step(r: Reader, id: string, e: Event): Reader
    requires Enabled(r, id, e)
  {
    match e
    case Call(op) =>
      var s := D.Step(r.store, op);
      var ids := Cursors(s, id);
      Reader(s, r.session.(
        ids := ids, used := r.session.used + (set c | c in ids), steady := set c | c in r.session.steady && c in ids))
    case Page(maxItems) => r.(session := C.Step(r.session, C.Fetch(maxItems)))
  }

  ghost predicate IsRun(r: Reader, id: string, es: seq<Event>)
    decreases |es|
  {
    es == [] || (Enabled(r, id, es[0]) && IsRun(Step(r, id, es[0]), id, es[1..]))
  }

  ghost function Final(r: Reader, id: string, es: seq<Event>): Reader
    requires IsRun(r, id, es)
    decreases |es|
  {
    if es == [] then r else Final(Step(r, id, es[0]), id, es[1..])
  }

  // ---------------------------------------------------------------- what holds

  /** The cursors of the first `created` versions. */
  function IssuedUpTo(created: nat): set<string> {
    if created == 0 then {} else IssuedUpTo(created - 1) + {Integer(D.Wrap32(created))}
  }

  /** Every cursor ever listed was issued by the counter. */
  predicate Issued(used: set<string>, created: nat) {
    used <= IssuedUpTo(created)
  }

  lemma {:induction false} IssuedIsWrapped(created: nat, c: string) returns (k: nat)
    requires c in IssuedUpTo(created)
    ensures 1 <= k <= created && c == Integer(D.Wrap32(k))
  {
    hide Integer, D.Wrap32;
    if c in IssuedUpTo(created - 1) {
      k := IssuedIsWrapped(created - 1, c);
    } else {
      k := created;
    }
  }

  lemma {:induction false} WrappedIsIssued(created: nat, k: nat)
    requires 1 <= k <= created
    ensures Integer(D.Wrap32(k)) in IssuedUpTo(created)
  {
    hide Integer, D.Wrap32;
    if k < created {
      WrappedIsIssued(created - 1, k);
    }
  }

  ghost predicate Inv(r: Reader, id: string) {
    && D.Inv(r.store) && id in r.store.apps.applications && id in r.store.apps.created
    && r.store.apps.created[id] < D.TWO_TO_THE_32
    && r.session.ids == Cursors(r.store, id) && C.Inv(r.session)
    && Issued(r.session.used, r.store.apps.created[id])
  }

  lemma VersionsAreIssued(s: D.State, id: string)
    requires D.Inv(s) && id in s.apps.created
    ensures D.VersionsIssued(Versions(s, id), s.apps.created[id])
  {
  }

  lemma ListedIsIssued(vs: seq<D.Version>, created: nat)
    requires D.VersionsIssued(vs, created) && created < D.TWO_TO_THE_32
    ensures var ids := C.Ids(Newest(vs), Cursor);
            Distinct(ids) && "" !in ids && Issued((set c | c in ids), created)
  {
    NewestIsNewestFirst(vs);
    CursorsAreDistinct(vs, created, Newest(vs));
    var sorted := Newest(vs);
    hide Newest, Integer, D.Wrap32;
    var ids := C.Ids(sorted, Cursor);
    forall c | c in ids ensures c in IssuedUpTo(created) {
      var i :| 0 <= i < |ids| && ids[i] == c;
      assert sorted[i] in multiset(vs);
      var k :| 1 <= k <= created && sorted[i].number == D.Wrap32(k);
      WrappedIsIssued(created, k);
    }
  }

  lemma BeginHoldsInv(s: D.State, id: string)
    requires D.Inv(s) && id in s.apps.applications && id in s.apps.created && s.apps.created[id] < D.TWO_TO_THE_32
    ensures Inv(Begin(s, id), id)
  {
    hide D.Inv, Newest;
    VersionsAreIssued(s, id);
    ListedIsIssued(Versions(s, id), s.apps.created[id]);
  }

  // ---------------------------------------------------------------- the store's calls are inserts and removals

  lemma FreshCursor(used: set<string>, created: nat)
    requires Issued(used, created) && created + 1 < D.TWO_TO_THE_32
    ensures Integer(D.Wrap32(created + 1)) !in used
  {
    hide Integer, D.Wrap32;
    var c := Integer(D.Wrap32(created + 1));
    if c in used {
      var k := IssuedIsWrapped(created, c);
      IntegerInjective(D.Wrap32(created + 1), D.Wrap32(k));
      D.NumbersRepeatAfterWrap(k, created + 1);
    }
  }

  lemma AppendedCursors(vs: seq<D.Version>, v: D.Version)
    ensures var at := PlaceOf(Newest(vs), v.number);
            C.Ids(Newest(vs + [v]), Cursor) == Inserted(C.Ids(Newest(vs), Cursor), at, Cursor(v))
  {
    assert Front(vs + [v]) == vs && Last(vs + [v]) == v;
  }

  lemma CutMultiset<T>(xs: seq<T>, k: nat)
    requires k < |xs|
    ensures multiset(xs[..k] + xs[k + 1..]) == multiset(xs) - multiset{xs[k]}
  {
    assert xs == xs[..k] + [xs[k]] + xs[k + 1..];
  }

  lemma CutSorted(sorted: seq<D.Version>, i: nat)
    requires Sorted(sorted, Newer) && i < |sorted|
    ensures Sorted(sorted[..i] + sorted[i + 1..], Newer)
  {
    var rest := sorted[..i] + sorted[i + 1..];
    forall a, b | 0 <= a < b < |rest| ensures !Newer(rest[b], rest[a]) {
      assert rest[a] == sorted[if a < i then a else a + 1] && rest[b] == sorted[if b < i then b else b + 1];
    }
  }

  lemma CutDistinct(vs: seq<D.Version>, k: nat)
    requires DistinctNumbers(vs) && k < |vs|
    ensures DistinctNumbers(vs[..k] + vs[k + 1..])
  {
    var left := vs[..k] + vs[k + 1..];
    forall a, b | 0 <= a < b < |left| ensures left[a].number != left[b].number {
      assert left[a] == vs[if a < k then a else a + 1] && left[b] == vs[if b < k then b else b + 1];
    }
  }

  /** Without one version the others keep their order. */
  lemma NewestWithout(vs: seq<D.Version>, k: nat) returns (i: nat)
    requires DistinctNumbers(vs) && k < |vs|
    ensures i < |Newest(vs)| && Newest(vs)[i] == vs[k]
    ensures Newest(vs[..k] + vs[k + 1..]) == Newest(vs)[..i] + Newest(vs)[i + 1..]
  {
    NewestIsNewestFirst(vs);
    NewestIsNewestFirst(vs[..k] + vs[k + 1..]);
    hide Newest, Sorted, DistinctNumbers;
    var sorted := Newest(vs);
    assert vs[k] in multiset(sorted);
    i :| 0 <= i < |sorted| && sorted[i] == vs[k];
    CutMultiset(vs, k);
    CutMultiset(sorted, i);
    CutSorted(sorted, i);
    CutDistinct(vs, k);
    OrderIsUnique(vs[..k] + vs[k + 1..], Newest(vs[..k] + vs[k + 1..]), sorted[..i] + sorted[i + 1..]);
  }

  lemma CutIds(sorted: seq<D.Version>, i: nat)
    requires i < |sorted| && Distinct(C.Ids(sorted, Cursor))
    ensures C.Ids(sorted[..i] + sorted[i + 1..], Cursor) == Without(C.Ids(sorted, Cursor), Cursor(sorted[i]))
    ensures Cursor(sorted[i]) in C.Ids(sorted, Cursor)
  {
    hide Cursor;
    var ids := C.Ids(sorted, Cursor);
    assert ids[i] == Cursor(sorted[i]);
    IndexOfAt(ids, i);
    assert C.Ids(sorted[..i] + sorted[i + 1..], Cursor) == ids[..i] + ids[i + 1..];
  }

  lemma FirstOfNumber(vs: seq<D.Version>, number: int)
    requires D.HasVersion(vs, number)
    ensures FirstWith(vs, D.NumberOf, number) < |vs| && vs[FirstWith(vs, D.NumberOf, number)].number == number
  {
  }

  /** Deleting the version with a number takes its cursor, and no other, out of the listing. */
  lemma CutCursors(vs: seq<D.Version>, number: int)
    requires DistinctNumbers(vs) && D.HasVersion(vs, number)
    requires Distinct(C.Ids(Newest(vs), Cursor))
    ensures Integer(number) in C.Ids(Newest(vs), Cursor)
    ensures C.Ids(Newest(Cut(vs, D.NumberOf, number)), Cursor) == Without(C.Ids(Newest(vs), Cursor), Integer(number))
  {
    hide Newest, Cut, DistinctNumbers, Distinct, Without, FirstWith, D.HasVersion, Integer;
    FirstOfNumber(vs, number);
    CutIs(vs, D.NumberOf, number);
    var k := FirstWith(vs, D.NumberOf, number);
    var i := NewestWithout(vs, k);
    CutIds(Newest(vs), i);
  }

  lemma VersionAdded(s: D.State, id: string, v: D.Version)
    requires id in s.apps.applications && id in s.apps.created
    ensures var s' := D.Step(s, D.CreateVersion(id, v));
            && id in s'.apps.applications && id in s'.apps.created && s'.apps.created[id] == s.apps.created[id] + 1
            && Versions(s', id) == Versions(s, id) + [v.(number := D.Wrap32(s.apps.created[id] + 1))]
  {
  }

  lemma VersionRemoved(s: D.State, id: string, number: int)
    requires id in s.apps.applications && id in s.apps.created
    ensures var s' := D.Step(s, D.DeleteVersion(id, number));
            && id in s'.apps.applications && id in s'.apps.created && s'.apps.created[id] == s.apps.created[id]
            && Versions(s', id) == if D.HasVersion(Versions(s, id), number) then Cut(Versions(s, id), D.NumberOf, number)
                                   else Versions(s, id)
  {
  }

  /** Any other call leaves the application's versions alone. */
  lemma OtherCall(s: D.State, op: D.Op, id: string)
    requires D.Fresh(s, op) && id in s.apps.applications && id in s.apps.created && op != D.DeleteApplication(id)
    requires !(op.CreateVersion? && op.id == id) && !(op.DeleteVersion? && op.id == id)
    ensures var s' := D.Step(s, op);
            && id in s'.apps.applications && id in s'.apps.created && s'.apps.created[id] == s.apps.created[id]
            && Versions(s', id) == Versions(s, id)
  {
    hide Kept, Cut, D.Wrap32, D.Activated, D.HasVersion;
    hide D.AddGroup, D.DropGroup, D.AddBalancer, D.DropBalancer, D.Drain, D.FreshNodes;
    hide D.AddCertificate, D.ChangeCertificate, D.DropCertificate;
  }

  lemma SameSession(session: C.Session, ids: seq<string>)
    requires ids == session.ids && C.Inv(session)
    ensures session == session.(
              ids := ids, used := session.used + (set c | c in ids), steady := set c | c in session.steady && c in ids)
  {
    assert session.used + (set c | c in ids) == session.used;
    assert (set c | c in session.steady && c in ids) == session.steady;
  }

  lemma InsertedSession(session: C.Session, at: nat, c: string)
    requires C.Inv(session) && C.Enabled(session, C.Insert(at, c))
    ensures var ids := Inserted(session.ids, at, c);
            C.Step(session, C.Insert(at, c)) == session.(
              ids := ids, used := session.used + (set x | x in ids), steady := set x | x in session.steady && x in ids)
  {
    InsertedItems(session.ids, at, c);
    var ids := Inserted(session.ids, at, c);
    assert session.used + (set x | x in ids) == session.used + {c};
    assert (set x | x in session.steady && x in ids) == session.steady;
  }

  lemma RemovedSession(session: C.Session, c: string)
    requires C.Inv(session) && C.Enabled(session, C.Remove(c))
    ensures var ids := Without(session.ids, c);
            C.Step(session, C.Remove(c)) == session.(
              ids := ids, used := session.used + (set x | x in ids), steady := set x | x in session.steady && x in ids)
  {
    WithoutItems(session.ids, c);
    var ids := Without(session.ids, c);
    assert session.used + (set x | x in ids) == session.used;
    assert (set x | x in session.steady && x in ids) == session.steady - {c};
  }

  /** A step of the store and its reader is a run of at most one event of the paging. */
  lemma StepIsPaging(r: Reader, id: string, e: Event) returns (es: seq<C.Event>)
    requires Inv(r, id) && Enabled(r, id, e)
    ensures C.IsRun(r.session, es) && C.Final(r.session, es) == Step(r, id, e).session
    ensures Inv(Step(r, id, e), id)
  {
    match e
    case Page(maxItems) => es := PageIsPaging(r, id, maxItems);
    case Call(op) =>
      if op.CreateVersion? && op.id == id {
        es := AddIsPaging(r, id, op.version);
      } else if op.DeleteVersion? && op.id == id {
        es := RemoveIsPaging(r, id, op.number);
      } else {
        es := OtherIsPaging(r, id, op);
      }
  }

  lemma OneEvent(session: C.Session, e: C.Event)
    requires C.Inv(session) && C.Enabled(session, e)
    ensures C.IsRun(session, [e]) && C.Final(session, [e]) == C.Step(session, e) && C.Inv(C.Step(session, e))
  {
    C.StepKeepsInv(session, e);
    hide C.Inv, C.Step, C.Enabled;
    assert [e][1..] == [];
  }

  lemma NoEvent(session: C.Session)
    ensures C.IsRun(session, []) && C.Final(session, []) == session
  {
  }

  lemma PageIsPaging(r: Reader, id: string, maxItems: int) returns (es: seq<C.Event>)
    requires Inv(r, id) && Enabled(r, id, Page(maxItems))
    ensures C.IsRun(r.session, es) && C.Final(r.session, es) == Step(r, id, Page(maxItems)).session
    ensures Inv(Step(r, id, Page(maxItems)), id)
  {
    hide C.Inv, D.Inv, Issued, C.IsRun, C.Final;
    OneEvent(r.session, C.Fetch(maxItems));
    es := [C.Fetch(maxItems)];
  }

  lemma IssuedMore(used: set<string>, created: nat, c: string)
    requires Issued(used, created) && c == Integer(D.Wrap32(created + 1))
    ensures Issued(used + {c}, created + 1)
  {
    hide Integer, D.Wrap32;
  }

  /** A new version's cursor is inserted somewhere. */
  lemma AddedCursors(s: D.State, id: string, v: D.Version) returns (at: nat)
    requires id in s.apps.applications && id in s.apps.created
    ensures at <= |Cursors(s, id)|
    ensures Cursors(D.Step(s, D.CreateVersion(id, v)), id) ==
            Inserted(Cursors(s, id), at, Integer(D.Wrap32(s.apps.created[id] + 1)))
  {
    var added := v.(number := D.Wrap32(s.apps.created[id] + 1));
    VersionAdded(s, id, v);
    AppendedCursors(Versions(s, id), added);
    hide D.Step, Newest, Integer, D.Wrap32, Versions, Inserted;
    at := PlaceOf(Newest(Versions(s, id)), added.number);
    assert Cursor(added) == Integer(D.Wrap32(s.apps.created[id] + 1));
  }

  lemma SessionFacts(session: C.Session)
    requires C.Inv(session)
    ensures Distinct(session.ids) && (forall x :: x in session.ids ==> x in session.used)
    ensures forall x :: x in session.steady ==> x in session.ids
  {
  }

  lemma CursorIsNotEmpty(number: int)
    ensures Integer(number) != ""
  {
  }

  lemma AddIsPaging(r: Reader, id: string, v: D.Version) returns (es: seq<C.Event>)
    requires Inv(r, id) && Enabled(r, id, Call(D.CreateVersion(id, v)))
    ensures C.IsRun(r.session, es) && C.Final(r.session, es) == Step(r, id, Call(D.CreateVersion(id, v))).session
    ensures Inv(Step(r, id, Call(D.CreateVersion(id, v))), id)
  {
    hide D.Inv, D.Step, C.Inv, C.Step, C.IsRun, C.Final, Cursors, Integer, D.Wrap32, Issued, Inserted;
    var created := r.store.apps.created[id];
    var c := Integer(D.Wrap32(created + 1));
    D.StepKeepsInv(r.store, D.CreateVersion(id, v));
    VersionAdded(r.store, id, v);
    FreshCursor(r.session.used, created);
    CursorIsNotEmpty(D.Wrap32(created + 1));
    var at := AddedCursors(r.store, id, v);
    IssuedMore(r.session.used, created, c);
    var e := C.Insert(at, c);
    OneEvent(r.session, e);
    InsertedSession(r.session, at, c);
    InsertedUsed(r.session, at, c);
    es := [e];
  }

  lemma InsertedUsed(session: C.Session, at: nat, c: string)
    requires C.Enabled(session, C.Insert(at, c))
    ensures C.Step(session, C.Insert(at, c)).used == session.used + {c}
    ensures C.Step(session, C.Insert(at, c)).ids == Inserted(session.ids, at, c)
  {
  }

  lemma RemoveIsPaging(r: Reader, id: string, number: int) returns (es: seq<C.Event>)
    requires Inv(r, id) && Enabled(r, id, Call(D.DeleteVersion(id, number)))
    ensures C.IsRun(r.session, es) && C.Final(r.session, es) == Step(r, id, Call(D.DeleteVersion(id, number))).session
    ensures Inv(Step(r, id, Call(D.DeleteVersion(id, number))), id)
  {
    var vs, c := Versions(r.store, id), Integer(number);
    D.StepKeepsInv(r.store, D.DeleteVersion(id, number));
    VersionRemoved(r.store, id, number);
    VersionsAreIssued(r.store, id);
    assert DistinctNumbers(vs) && Distinct(r.session.ids);
    hide D.Inv, D.Step, C.Inv, C.Step, C.IsRun, C.Final, Newest, Integer, Issued, Without, Versions, D.HasVersion, Cut, D.VersionsIssued, DistinctNumbers, Distinct;
    if D.HasVersion(vs, number) {
      CutCursors(vs, number);
      OneEvent(r.session, C.Remove(c));
      RemovedSession(r.session, c);
      RemovedUsed(r.session, c);
      es := [C.Remove(c)];
    } else {
      SameSession(r.session, r.session.ids);
      NoEvent(r.session);
      es := [];
    }
  }

  lemma RemovedUsed(session: C.Session, c: string)
    requires C.Enabled(session, C.Remove(c))
    ensures C.Step(session, C.Remove(c)).used == session.used
    ensures C.Step(session, C.Remove(c)).ids == Without(session.ids, c)
  {
  }

  lemma OtherIsPaging(r: Reader, id: string, op: D.Op) returns (es: seq<C.Event>)
    requires Inv(r, id) && Enabled(r, id, Call(op))
    requires !(op.CreateVersion? && op.id == id) && !(op.DeleteVersion? && op.id == id)
    ensures C.IsRun(r.session, es) && C.Final(r.session, es) == Step(r, id, Call(op)).session
    ensures Inv(Step(r, id, Call(op)), id)
  {
    D.StepKeepsInv(r.store, op);
    OtherCall(r.store, op, id);
    hide D.Inv, D.Step, D.Fresh, C.Inv, C.Step, C.IsRun, C.Final, Newest, Issued, Versions;
    SameSession(r.session, r.session.ids);
    NoEvent(r.session);
    es := [];
  }

  // ---------------------------------------------------------------- runs

  lemma {:induction false} PagingAppend(session: C.Session, a: seq<C.Event>, b: seq<C.Event>)
    requires C.IsRun(session, a) && C.IsRun(C.Final(session, a), b)
    ensures C.IsRun(session, a + b) && C.Final(session, a + b) == C.Final(C.Final(session, a), b)
    decreases |a|
  {
    if a == [] {
      assert a + b == b;
    } else {
      hide C.Step, C.Enabled;
      assert (a + b)[0] == a[0] && (a + b)[1..] == a[1..] + b;
      PagingAppend(C.Step(session, a[0]), a[1..], b);
    }
  }

  /** Every run of the store with a reader is a run of the paging. */
  lemma {:induction false} RunIsPaging(r: Reader, id: string, es: seq<Event>) returns (ps: seq<C.Event>)
    requires Inv(r, id) && IsRun(r, id, es)
    ensures C.IsRun(r.session, ps) && C.Final(r.session, ps) == Final(r, id, es).session
    ensures Inv(Final(r, id, es), id)
    decreases |es|
  {
    if es == [] {
      NoEvent(r.session);
      return [];
    }
    hide Inv, Enabled, Step, C.IsRun, C.Final;
    var first := StepIsPaging(r, id, es[0]);
    var rest := RunIsPaging(Step(r, id, es[0]), id, es[1..]);
    PagingAppend(r.session, first, rest);
    ps := first + rest;
  }

  lemma InsertKeepsItem(ids: seq<string>, at: nat, c: string, x: string)
    requires Distinct(ids) && at <= |ids| && c !in ids && x in ids
    ensures x in Inserted(ids, at, c)
  {
    InsertedItems(ids, at, c);
  }

  lemma AddKeepsListed(s: D.State, id: string, v: D.Version, c: string)
    requires id in s.apps.applications && id in s.apps.created && c in Cursors(s, id) && Distinct(Cursors(s, id))
    requires Integer(D.Wrap32(s.apps.created[id] + 1)) !in Cursors(s, id)
    ensures c in Cursors(D.Step(s, D.CreateVersion(id, v)), id)
  {
    hide D.Step, Cursors, Integer, D.Wrap32, Inserted, Distinct;
    var at := AddedCursors(s, id, v);
    InsertKeepsItem(Cursors(s, id), at, Integer(D.Wrap32(s.apps.created[id] + 1)), c);
  }

  lemma RemoveKeepsListed(s: D.State, id: string, removed: int, number: int)
    requires id in s.apps.applications && id in s.apps.created && Integer(number) in Cursors(s, id)
    requires removed != number && DistinctNumbers(Versions(s, id)) && Distinct(Cursors(s, id))
    ensures Integer(number) in Cursors(D.Step(s, D.DeleteVersion(id, removed)), id)
  {
    var vs := Versions(s, id);
    VersionRemoved(s, id, removed);
    hide D.Step, Newest, Integer, Versions, D.HasVersion, Cut, DistinctNumbers, Distinct, Without;
    if D.HasVersion(vs, removed) {
      CutCursors(vs, removed);
      IntegersDiffer(removed, number);
      WithoutItems(Cursors(s, id), Integer(removed));
    }
  }

  /** A version that is not deleted stays listed. */
  lemma StepKeepsSteady(r: Reader, id: string, e: Event, number: int)
    requires Inv(r, id) && Enabled(r, id, e) && e != Call(D.DeleteVersion(id, number))
    requires Integer(number) in r.session.steady
    ensures Integer(number) in Step(r, id, e).session.steady
  {
    hide D.Inv, D.Step, D.Fresh, C.Inv, C.PageAfter;
    hide Cursors, Integer, D.Wrap32, Issued, Versions, Distinct, DistinctNumbers;
    SessionFacts(r.session);
    NumbersAreDistinct(r.store, id);
    if e.Call? {
      var op := e.op;
      if op.CreateVersion? && op.id == id {
        FreshCursor(r.session.used, r.store.apps.created[id]);
        AddKeepsListed(r.store, id, op.version, Integer(number));
      } else if op.DeleteVersion? && op.id == id {
        RemoveKeepsListed(r.store, id, op.number, number);
      } else {
        OtherCall(r.store, op, id);
        SameCursors(r.store, D.Step(r.store, op), id);
      }
    }
  }

  lemma NumbersAreDistinct(s: D.State, id: string)
    requires D.Inv(s) && id in s.apps.created && s.apps.created[id] < D.TWO_TO_THE_32
    ensures DistinctNumbers(Versions(s, id))
  {
    VersionsAreIssued(s, id);
    hide D.Inv, D.Wrap32;
  }

  lemma SameCursors(s: D.State, s': D.State, id: string)
    requires Versions(s', id) == Versions(s, id)
    ensures Cursors(s', id) == Cursors(s, id)
  {
  }

  lemma IntegersDiffer(a: int, b: int)
    requires a != b
    ensures Integer(a) != Integer(b)
  {
    if Integer(a) == Integer(b) {
      IntegerInjective(a, b);
    }
  }

  lemma {:induction false} RunKeepsSteady(r: Reader, id: string, es: seq<Event>, number: int)
    requires Inv(r, id) && IsRun(r, id, es) && Call(D.DeleteVersion(id, number)) !in es
    requires Integer(number) in r.session.steady
    ensures Integer(number) in Final(r, id, es).session.steady
    decreases |es|
  {
    if es != [] {
      assert es[0] in es && forall e :: e in es[1..] ==> e in es;
      hide Inv, Enabled, Step, Integer;
      var _ := StepIsPaging(r, id, es[0]);
      StepKeepsSteady(r, id, es[0], number);
      RunKeepsSteady(Step(r, id, es[0]), id, es[1..], number);
    }
  }

  /**
   Whatever calls of the store come between a client's requests, the client that
   has followed the cursors to the end has got every version that was there when
   it began and was not deleted, no version twice, and those still there newest
   first; as long as the version under its cursor is not deleted and the
   application's counter does not wrap.
   */
  lemma EveryVersionIsReadOnce(before: seq<D.Op>, id: string, es: seq<Event>)
    requires D.IsRun(D.EMPTY, before)
    requires var s := D.Run(D.EMPTY, before);
             id in s.apps.applications && id in s.apps.created && s.apps.created[id] < D.TWO_TO_THE_32
    requires var r := Begin(D.Run(D.EMPTY, before), id);
             IsRun(r, id, es) && Final(r, id, es).session.done
    ensures var s := D.Run(D.EMPTY, before);
            var end := Final(Begin(s, id), id, es);
            && (forall v :: v in Versions(s, id) && Call(D.DeleteVersion(id, v.number)) !in es ==>
                  Cursor(v) in end.session.got)
            && Distinct(end.session.got)
            && end.session.ids == Cursors(end.store, id) && C.InListOrder(end.session)
  {
    var s := D.Run(D.EMPTY, before);
    D.EmptyHoldsInv();
    D.RunKeepsInv(D.EMPTY, before);
    var r := Begin(s, id);
    BeginHoldsInv(s, id);
    var ps := RunIsPaging(r, id, es);
    var end := Final(r, id, es);
    assert Inv(end, id) && C.Inv(end.session);
    hide D.Inv, C.Inv, D.Run, D.IsRun, IsRun, Final, Step, Enabled, Newest, Versions;
    forall v | v in Versions(s, id) && Call(D.DeleteVersion(id, v.number)) !in es ensures Cursor(v) in end.session.got {
      IsListed(Versions(s, id), v);
      hide Inv, Integer;
      RunKeepsSteady(r, id, es, v.number);
      assert Integer(v.number) in end.session.steady;
      SteadyIsGot(end.session, Integer(v.number));
    }
  }

  lemma IsListed(vs: seq<D.Version>, v: D.Version)
    requires v in vs
    ensures Cursor(v) in C.Ids(Newest(vs), Cursor)
  {
    NewestIsNewestFirst(vs);
    assert v in multiset(Newest(vs));
    var i :| 0 <= i < |Newest(vs)| && Newest(vs)[i] == v;
    assert C.Ids(Newest(vs), Cursor)[i] == Cursor(v);
  }

  lemma SteadyIsGot(session: C.Session, c: string)
    requires C.Inv(session) && session.done && c in session.steady
    ensures c in session.got
  {
  }
}

/**
 The versions of AppRun applications: every accepted change adds one, and only
 the last five are kept. Requests here run one at a time; `AppRunDeletes` lets
 them interleave. Identifiers are fresh and given, as is the clock.
 */
module AppRunStore {
  import opened Prelude
  import opened OrderLists
  import opened AppRunConfig
  import opened Sorting

  const MAX_APPLICATIONS := 5

  const MAX_VERSIONS := 5

  datatype Version = Version(id: string, number: int, createdAt: int, app: App)

  datatype State = State(apps: map<string, seq<Version>>, versionSeq: int)

  /** The last five. */
  function Trimmed(vs: seq<Version>): seq<Version> {
    if |vs| > MAX_VERSIONS then vs[|vs| - MAX_VERSIONS..] else vs
  }

  function Latest(s: State, id: string): Option<App> {
    if id in s.apps && s.apps[id] != [] then Some(Last(s.apps[id]).app) else None
  }

  function IdOf(v: Version): string {
    v.id
  }

  predicate Has(vs: seq<Version>, id: string) {
    exists i :: 0 <= i < |vs| && vs[i].id == id
  }

  function Added(s: State, id: string, vid: string, app: App, now: int): State {
    State(s.apps[id := [Version(vid, s.versionSeq + 1, now, app)]], s.versionSeq + 1)
  }

  function Updated(s: State, id: string, vid: string, app: App, now: int): State
    requires id in s.apps
  {
    State(s.apps[id := Trimmed(s.apps[id] + [Version(vid, s.versionSeq + 1, now, app)])], s.versionSeq + 1)
  }

  // ---------------------------------------------------------------- the order of a listing

  /** Newest first: by creation time, and by creation order within one second. */
  predicate Later(a: Version, b: Version) {
    if a.createdAt == b.createdAt then a.number > b.number else a.createdAt > b.createdAt
  }

  predicate Earlier(a: Version, b: Version) {
    Later(b, a)
  }

  lemma ListingIsOrder()
    ensures StrictWeak(Later) && StrictWeak(Earlier)
  {
  }

  /** An empty order means newest first; any but "desc" is oldest first. */
  predicate Descends(sortOrder: string) {
    sortOrder == "" || sortOrder == "desc"
  }

  /** The versions in the order a listing shows them. */
  function InListingOrder(vs: seq<Version>, sortOrder: string): seq<Version> {
    if Descends(sortOrder) then Reversed(vs) else vs
  }

  /** Oldest first, and the clock never went back between two of them. */
  ghost predicate Ascending(vs: seq<Version>) {
    forall i, j :: 0 <= i < j < |vs| ==> vs[i].number < vs[j].number && vs[i].createdAt <= vs[j].createdAt
  }

  function Reversed(vs: seq<Version>): (r: seq<Version>)
    ensures |r| == |vs| && forall i :: 0 <= i < |vs| ==> r[i] == vs[|vs| - 1 - i]
  {
    if vs == [] then [] else Reversed(vs[1..]) + [vs[0]]
  }

  /** The versions in the order asked for. */
  ghost predicate Listing(vs: seq<Version>, sortOrder: string, sorted: seq<Version>) {
    multiset(sorted) == multiset(vs) && Sorted(sorted, if Descends(sortOrder) then Later else Earlier)
  }

  /** Different versions have different numbers, so there is one such order, whatever the clock did. */
  lemma ListingIsUnique(vs: seq<Version>, sortOrder: string, a: seq<Version>, b: seq<Version>)
    requires forall x, y :: x in vs && y in vs && x.number == y.number ==> x == y
    requires Listing(vs, sortOrder, a) && Listing(vs, sortOrder, b)
    ensures a == b
  {
    forall x | x in a ensures x in vs {
      assert x in multiset(vs);
    }
    SortedIsUnique(a, b, if Descends(sortOrder) then Later else Earlier);
  }

  /** Sorting an ascending list newest first just turns it round. */
  lemma SortedIsReversed(vs: seq<Version>, ys: seq<Version>, from: seq<nat>)
    requires Ascending(vs) && Rearranged(vs, ys, from) && Sorted(ys, Later)
    ensures ys == Reversed(vs)
  {
    forall i, j | 0 <= i < j < |ys| ensures from[i] > from[j] {
      assert ys[i] == vs[from[i]] && ys[j] == vs[from[j]];
      assert !Later(ys[j], ys[i]);
    }
    Descending(from);
    forall i | 0 <= i < |ys| ensures ys[i] == Reversed(vs)[i] {
      assert from[i] == |vs| - 1 - i;
    }
  }

  /** Sorting it oldest first leaves it as it is. */
  lemma SortedIsSame(vs: seq<Version>, ys: seq<Version>, from: seq<nat>)
    requires Ascending(vs) && Rearranged(vs, ys, from) && Sorted(ys, Earlier)
    ensures ys == vs
  {
    forall i, j | 0 <= i < j < |ys| ensures from[i] < from[j] {
      assert ys[i] == vs[from[i]] && ys[j] == vs[from[j]];
      assert !Earlier(ys[j], ys[i]);
    }
    forall i | 0 <= i < |ys| ensures ys[i] == vs[i] {
      AscendingFrom(from, i);
      AscendingTo(from, i);
    }
  }

  lemma {:induction false} AscendingFrom(from: seq<nat>, i: nat)
    requires i < |from| && forall i, j :: 0 <= i < j < |from| ==> from[i] < from[j]
    ensures from[i] >= i
  {
    if i > 0 {
      AscendingFrom(from, i - 1);
    }
  }

  lemma {:induction false} AscendingTo(from: seq<nat>, i: nat)
    requires Permutes(from, |from|) && i < |from|
    requires forall i, j :: 0 <= i < j < |from| ==> from[i] < from[j]
    ensures from[i] <= i
    decreases |from| - i
  {
    if i + 1 < |from| {
      AscendingTo(from, i + 1);
    }
  }

  lemma {:induction false} DescendingFrom(from: seq<nat>, i: nat)
    requires Permutes(from, |from|) && i < |from|
    requires forall i, j :: 0 <= i < j < |from| ==> from[i] > from[j]
    ensures from[i] >= |from| - 1 - i
    decreases |from| - i
  {
    if i + 1 < |from| {
      DescendingFrom(from, i + 1);
    }
  }

  lemma {:induction false} DescendingTo(from: seq<nat>, i: nat)
    requires Permutes(from, |from|) && i < |from|
    requires forall i, j :: 0 <= i < j < |from| ==> from[i] > from[j]
    ensures from[i] <= |from| - 1 - i
  {
    if i > 0 {
      DescendingTo(from, i - 1);
    }
  }

  lemma Descending(from: seq<nat>)
    requires Permutes(from, |from|)
    requires forall i, j :: 0 <= i < j < |from| ==> from[i] > from[j]
    ensures forall i :: 0 <= i < |from| ==> from[i] == |from| - 1 - i
  {
    forall i | 0 <= i < |from| ensures from[i] == |from| - 1 - i {
      DescendingFrom(from, i);
      DescendingTo(from, i);
    }
  }

  lemma ProductNotNegative(a: nat, b: nat)
    ensures a * b >= 0
  {
  }

  /** The page of a list, counted from one; the defaults are page 1 and 50 items. */
  function PageOf<T>(items: seq<T>, pageNum: int, pageSize: int): seq<T> {
    var num, size := if pageNum < 1 then 1 else pageNum, if pageSize < 1 then 50 else pageSize;
    ProductNotNegative(num - 1, size);
    var start := (num - 1) * size;
    if start > |items| then []
    else if start + size < |items| then items[start..start + size]
    else items[start..]
  }

  function FirstPages<T>(items: seq<T>, n: nat, pageSize: int): seq<T> {
    if n == 0 then [] else FirstPages(items, n - 1, pageSize) + PageOf(items, n, pageSize)
  }

  /** A page by where it starts. */
  lemma PageStarts<T>(items: seq<T>, n: nat, pageSize: int, start: nat)
    requires n >= 1 && pageSize >= 1 && start == (n - 1) * pageSize
    ensures PageOf(items, n, pageSize) ==
            if start > |items| then []
            else if start + pageSize < |items| then items[start..start + pageSize]
            else items[start..]
  {
  }

  lemma OneMore(n: nat, pageSize: int)
    requires n >= 1 && pageSize >= 1
    ensures n * pageSize == (n - 1) * pageSize + pageSize && (n - 1) * pageSize >= 0
  {
  }

  /** Reading pages in turn gives the list from its start, without gap or repeat. */
  lemma {:induction false} PagesAreConsecutive<T>(items: seq<T>, n: nat, pageSize: int)
    requires pageSize >= 1
    ensures FirstPages(items, n, pageSize) == if n * pageSize < |items| then items[..n * pageSize] else items
  {
    if n == 0 {
      assert n * pageSize == 0;
      assert items != [] ==> items[..0] == [];
    } else {
      OneMore(n, pageSize);
      var start, end := (n - 1) * pageSize, n * pageSize;
      PagesAreConsecutive(items, n - 1, pageSize);
      PageStarts(items, n, pageSize, start);
      hide PageOf;
      JoinPage(items, start, end, FirstPages(items, n - 1, pageSize), PageOf(items, n, pageSize));
    }
  }

  lemma JoinPage<T>(items: seq<T>, start: nat, end: nat, before: seq<T>, page: seq<T>)
    requires start <= end
    requires before == if start < |items| then items[..start] else items
    requires page == if start > |items| then [] else if end < |items| then items[start..end] else items[start..]
    ensures before + page == if end < |items| then items[..end] else items
  {
  }

  // ---------------------------------------------------------------- requests, one at a time

  datatype Request =
    | Creating(id: string, vid: string, create: CreateAsk)
    | Patching(id: string, vid: string, patch: PatchAsk)
    | RemovingVersion(id: string, vid: string)
    | RemovingApp(id: string)

  /** The applications a listing shows: those with a version. */
  function Live(apps: map<string, seq<Version>>): set<string> {
    set id | id in apps && apps[id] != []
  }

  predicate CreateAccepted(s: State, req: CreateAsk) {
    && req.port !in RESERVED_PORTS && req.minScale <= req.maxScale
    && |req.components| == 1 && ValidAsk(req.components[0])
    && |Live(s.apps)| < MAX_APPLICATIONS
  }

  predicate PatchGoesThrough(s: State, id: string, req: PatchAsk) {
    && Latest(s, id).Some?
    && PatchAccepted(req, Latest(s, id).value)
    && forall c :: c in Filled(req.components, Latest(s, id).value.components) ==> AllGiven(c)
  }

  function Patched(current: App, req: PatchAsk): App {
    MergeSentinels(current, Encoded(req, FromAsks(Filled(req.components, current.components))))
  }

  function Step(s: State, req: Request, now: int): State {
    match req
    case Creating(id, vid, ask) =>
      if CreateAccepted(s, ask) then Added(s, id, vid, Created(ask), now) else s
    case Patching(id, vid, ask) =>
      if PatchGoesThrough(s, id, ask) then Updated(s, id, vid, Patched(Latest(s, id).value, ask), now) else s
    case RemovingVersion(id, vid) =>
      if id in s.apps && Has(s.apps[id], vid) then s.(apps := s.apps[id := Cut(s.apps[id], IdOf, vid)]) else s
    case RemovingApp(id) => s.(apps := s.apps - {id})
  }

  /** The request schema's ranges, checked before any handler runs. */
  predicate InRange(req: Request) {
    match req
    case Creating(_, _, ask) => CreateInRange(ask)
    case Patching(_, _, ask) => PatchInRange(ask)
    case _ => true
  }

  /** Secrets a request gives a value for, under their component and key. */
  ghost function GivenBy(comps: seq<ComponentAsk>): set<(string, string, string)> {
    set c, x | c in comps && x in c.secrets && x.value.Some? :: (c.name, x.key, x.value.value)
  }

  ghost function Given(s: State, req: Request): set<(string, string, string)> {
    match req
    case Creating(_, _, ask) => if CreateAccepted(s, ask) then GivenBy(ask.components) else {}
    case Patching(id, _, ask) => if PatchGoesThrough(s, id, ask) then GivenBy(ask.components) else {}
    case _ => {}
  }

  ghost predicate Traceable(comps: seq<Component>, given: set<(string, string, string)>) {
    forall c, x :: c in comps && x in c.secrets ==> (c.name, x.key, x.value) in given
  }

  ghost predicate Sound(s: State, given: set<(string, string, string)>) {
    forall id, v :: id in s.apps && v in s.apps[id] ==> SoundApp(v.app) && Traceable(v.app.components, given)
  }

  lemma CreatedIsTraceable(req: CreateAsk, given: set<(string, string, string)>)
    requires CreateInRange(req)
    ensures Traceable(Created(req).components, given + GivenBy(req.components))
  {
    forall c, x | c in Created(req).components && x in c.secrets
      ensures (c.name, x.key, x.value) in GivenBy(req.components)
    {
      var i :| 0 <= i < |req.components| && Created(req).components[i] == c;
      var j :| 0 <= j < |c.secrets| && c.secrets[j] == x;
      assert req.components[i] in req.components && req.components[i].secrets[j] in req.components[i].secrets;
    }
  }

  /** A value in a filled request was given now, or was stored under the same component and key. */
  lemma PatchedIsTraceable(current: App, req: PatchAsk, given: set<(string, string, string)>)
    requires Traceable(current.components, given)
    requires forall c :: c in Filled(req.components, current.components) ==> AllGiven(c)
    ensures Traceable(Patched(current, req).components, given + GivenBy(req.components))
  {
    var filled := Filled(req.components, current.components);
    forall c, x | c in FromAsks(filled) && x in c.secrets
      ensures (c.name, x.key, x.value) in given + GivenBy(req.components)
    {
      var i :| 0 <= i < |filled| && FromAsks(filled)[i] == c;
      var j :| 0 <= j < |c.secrets| && c.secrets[j] == x;
      FilledSecret(req.components, current.components, i, j);
    }
  }

  lemma FilledSecret(asked: seq<ComponentAsk>, current: seq<Component>, i: nat, j: nat)
    requires i < |asked| && j < |asked[i].secrets|
    requires forall c :: c in Filled(asked, current) ==> AllGiven(c)
    ensures var x := FromAsk(Filled(asked, current)[i]).secrets[j];
            (asked[i].name, x.key, x.value) in GivenBy(asked)
            || exists d :: d in current && d.name == asked[i].name && x in d.secrets
  {
    var ask := asked[i].secrets[j];
    assert asked[i] in asked && ask in asked[i].secrets;
    var filled := Filled(asked, current)[i];
    assert filled in Filled(asked, current) && filled.secrets[j] in filled.secrets;
    if ask.value.None? {
      SecretIsStored(current, asked[i].name, ask.key);
    }
  }

  lemma StepKeepsSound(s: State, given: set<(string, string, string)>, req: Request, now: int)
    requires Sound(s, given) && InRange(req)
    ensures Sound(Step(s, req, now), given + Given(s, req))
  {
    var s' := Step(s, req, now);
    hide SoundApp, CreateInRange, GivenBy, Filled, FromAsks, MergeSentinels, Encoded;
    match req
    case Creating(id, vid, ask) =>
      if CreateAccepted(s, ask) {
        CreatedIsSound(ask);
        CreatedIsTraceable(ask, given);
      }
    case Patching(id, vid, ask) =>
      if PatchGoesThrough(s, id, ask) {
        var current := Latest(s, id).value;
        PatchedIsSound(current, ask, Filled(ask.components, current.components));
        PatchedIsTraceable(current, ask, given);
      }
    case RemovingVersion(id, vid) =>
      if id in s.apps {
        CutIsSublist(s.apps[id], vid);
      }
    case RemovingApp(_) =>
  }

  lemma {:induction false} CutIsSublist(vs: seq<Version>, id: string)
    ensures forall v :: v in Cut(vs, IdOf, id) ==> v in vs
  {
    if vs != [] {
      CutIsSublist(vs[1..], id);
    }
  }

  ghost function Run(s: State, reqs: seq<(Request, int)>): State
    decreases |reqs|
  {
    if reqs == [] then s else Run(Step(s, reqs[0].0, reqs[0].1), reqs[1..])
  }

  ghost function GivenIn(s: State, given: set<(string, string, string)>, reqs: seq<(Request, int)>): set<(string, string, string)>
    decreases |reqs|
  {
    if reqs == [] then given
    else GivenIn(Step(s, reqs[0].0, reqs[0].1), given + Given(s, reqs[0].0), reqs[1..])
  }

  lemma {:induction false} RunKeepsSound(s: State, given: set<(string, string, string)>, reqs: seq<(Request, int)>)
    requires Sound(s, given) && forall r :: r in reqs ==> InRange(r.0)
    ensures Sound(Run(s, reqs), GivenIn(s, given, reqs))
    decreases |reqs|
  {
    if reqs != [] {
      hide Sound, Step, Given;
      assert reqs[0] in reqs && forall r :: r in reqs[1..] ==> r in reqs;
      StepKeepsSound(s, given, reqs[0].0, reqs[0].1);
      RunKeepsSound(Step(s, reqs[0].0, reqs[0].1), given + Given(s, reqs[0].0), reqs[1..]);
    }
  }

  /**
   However requests follow one another, every stored version keeps its minimum
   within its maximum, an unreserved port, one component of a valid size with at
   most fifty distinct keys; and every secret is non-empty and was given by an
   accepted request for that component and key.
   */
  lemma EveryVersionIsSound(reqs: seq<(Request, int)>, id: string, v: Version)
    requires forall r :: r in reqs ==> InRange(r.0)
    requires var s := Run(State(map[], 0), reqs); id in s.apps && v in s.apps[id]
    ensures v.app.minScale <= v.app.maxScale && v.app.port !in RESERVED_PORTS && |v.app.components| == 1
    ensures var c := v.app.components[0];
            && (c.cpu, c.memory) in CPU_MEMORY
            && |c.env| + |c.secrets| <= 50 && Distinct(EnvKeys(c.env) + EnvKeys(c.secrets))
            && forall x :: x in c.secrets ==>
                 x.value != "" && (c.name, x.key, x.value) in GivenIn(State(map[], 0), {}, reqs)
  {
    RunKeepsSound(State(map[], 0), {}, reqs);
    var c := v.app.components[0];
    forall x | x in c.secrets ensures x.value != "" && (c.name, x.key, x.value) in GivenIn(State(map[], 0), {}, reqs) {
      assert x in c.env + c.secrets && c in v.app.components;
    }
  }

  // ---------------------------------------------------------------- the store and its handlers

  class MemoryStore {
    var apps: map<string, seq<Version>>
    var versionSeq: int

    ghost function Contents(): State
      reads this
    {
      State(apps, versionSeq)
    }

    constructor ()
      ensures Contents() == State(map[], 0)
    {
      apps, versionSeq := map[], 0;
    }

    method CreateApplication(id: string, vid: string, app: App, now: int)
      modifies this
      ensures Contents() == Added(old(Contents()), id, vid,
                                  app.(scaleTarget := if app.scaleTarget == 0 then 100 else app.scaleTarget), now)
    {
      var stored := app;
      if stored.scaleTarget == 0 {
        stored := stored.(scaleTarget := 100);
      }
      versionSeq := versionSeq + 1;
      apps := apps[id := [Version(vid, versionSeq, now, stored)]];
    }

    method ReadApplication(id: string) returns (app: Option<App>)
      ensures app == Latest(Contents(), id)
    {
      if id !in apps || |apps[id]| == 0 {
        return None;
      }
      app := Some(apps[id][|apps[id]| - 1].app);
    }

    static method Merge(current: App, patch: App) returns (updated: App)
      ensures updated == MergeSentinels(current, patch)
    {
      updated := current;
      if patch.timeout != 0 {
        updated := updated.(timeout := patch.timeout);
      }
      if patch.port != 0 {
        updated := updated.(port := patch.port);
      }
      if patch.minScale >= 0 {
        updated := updated.(minScale := patch.minScale);
      }
      if patch.maxScale != 0 {
        updated := updated.(maxScale := patch.maxScale);
      }
      if patch.scaleTarget != 0 {
        updated := updated.(scaleTarget := patch.scaleTarget);
      }
      if |patch.components| > 0 {
        updated := updated.(components := patch.components);
      }
    }

    /** Reads the sentinels back, records the version, and drops what falls out of the window. */
    method UpdateApplication(id: string, vid: string, patch: App, now: int) returns (ok: bool)
      modifies this
      ensures ok == Latest(old(Contents()), id).Some?
      ensures Contents() == if ok then Updated(old(Contents()), id, vid, MergeSentinels(Latest(old(Contents()), id).value, patch), now)
                            else old(Contents())
    {
      var current := ReadApplication(id);
      if current.None? {
        return false;
      }
      var updated := Merge(current.value, patch);
      versionSeq := versionSeq + 1;
      apps := apps[id := apps[id] + [Version(vid, versionSeq, now, updated)]];
      if |apps[id]| > MAX_VERSIONS {
        apps := apps[id := apps[id][|apps[id]| - MAX_VERSIONS..]];
      }
      ok := true;
    }

    method DeleteVersion(id: string, vid: string) returns (ok: bool)
      modifies this`apps
      ensures ok == (id in old(apps) && Has(old(apps)[id], vid))
      ensures apps == if ok then old(apps)[id := Cut(old(apps)[id], IdOf, vid)] else old(apps)
    {
      if id !in apps {
        return false;
      }
      var rest;
      ok, rest := CutVersion(apps[id], vid);
      if ok {
        apps := apps[id := rest];
      }
    }

    static method CutVersion(vs: seq<Version>, vid: string) returns (found: bool, rest: seq<Version>)
      ensures found == Has(vs, vid)
      ensures rest == Cut(vs, IdOf, vid)
    {
      CutIs(vs, IdOf, vid);
      hide Cut;
      var i := 0;
      while i < |vs|
        invariant 0 <= i <= |vs|
        invariant forall k :: 0 <= k < i ==> vs[k].id != vid
      {
        if vs[i].id == vid {
          assert FirstWith(vs, IdOf, vid) == i;
          return true, vs[..i] + vs[i + 1..];
        }
        i := i + 1;
      }
      assert FirstWith(vs, IdOf, vid) == |vs|;
      found, rest := false, vs;
    }

    method DeleteApplication(id: string) returns (ok: bool)
      modifies this`apps
      ensures ok == (id in old(apps)) && apps == old(apps) - {id}
    {
      ok := id in apps;
      apps := apps - {id};
    }

    /** One page of the versions in the order asked for, and how many there are. */
    method ListVersions(id: string, sortOrder: string, pageNum: int, pageSize: int)
      returns (page: seq<Version>, total: nat)
      ensures total == if id in apps then |apps[id]| else 0
      ensures id in apps ==>
                exists sorted :: Listing(apps[id], sortOrder, sorted) && page == PageOf(sorted, pageNum, pageSize)
      ensures id in apps && Ascending(apps[id]) ==>
                page == PageOf(if sortOrder == "" || sortOrder == "desc" then Reversed(apps[id]) else apps[id], pageNum, pageSize)
      ensures id !in apps ==> page == []
    {
      if id !in apps {
        return [], 0;
      }
      ListingIsOrder();
      var order := if sortOrder == "" then "desc" else sortOrder;
      ghost var from;
      var versions;
      if order == "desc" {
        versions, from := Sort(apps[id], Later);
        if Ascending(apps[id]) {
          SortedIsReversed(apps[id], versions, from);
        }
      } else {
        versions, from := Sort(apps[id], Earlier);
        if Ascending(apps[id]) {
          SortedIsSame(apps[id], versions, from);
        }
      }
      assert Listing(apps[id], sortOrder, versions);
      total := |versions|;
      page := Paged(versions, pageNum, pageSize);
    }

    static method Paged<T>(items: seq<T>, pageNum: int, pageSize: int) returns (page: seq<T>)
      ensures page == PageOf(items, pageNum, pageSize)
    {
      var num := if pageNum < 1 then 1 else pageNum;
      var size := if pageSize < 1 then 50 else pageSize;
      ProductNotNegative(num - 1, size);
      var start := (num - 1) * size;
      if start > |items| {
        return [];
      }
      var end := if start + size < |items| then start + size else |items|;
      page := items[start..end];
    }

    /** How many applications the listing shows, walking the map in any order. */
    method CountApplications() returns (n: nat)
      ensures n == |Live(apps)|
    {
      n := 0;
      var todo := apps.Keys;
      ghost var seen: set<string> := {};
      while todo != {}
        invariant todo <= apps.Keys && seen == Live(apps) - todo && n == |seen|
        decreases |todo|
      {
        var id :| id in todo;
        todo := todo - {id};
        if |apps[id]| > 0 {
          assert Live(apps) - todo == seen + {id};
          seen := seen + {id};
          n := n + 1;
        }
      }
      assert seen == Live(apps);
    }

    method PostApplication(id: string, vid: string, ask: CreateAsk, now: int) returns (ok: bool)
      modifies this
      ensures Contents() == Step(old(Contents()), Creating(id, vid, ask), now)
      ensures ok == CreateAccepted(old(Contents()), ask)
    {
      ok := ValidateApplication(ask);
      if !ok {
        return;
      }
      var n := CountApplications();
      if n >= MAX_APPLICATIONS {
        return false;
      }
      var app := App(ask.name, ask.timeout, ask.port, ask.minScale, ask.maxScale, ask.scaleTarget, FromAsks(ask.components));
      CreateApplication(id, vid, app, now);
    }

    /** Checks against the stored application, fills the secrets in, and hands on what was given. */
    method PatchApplication(id: string, vid: string, ask: PatchAsk, now: int) returns (ok: bool)
      modifies this
      ensures Contents() == Step(old(Contents()), Patching(id, vid, ask), now)
      ensures ok == PatchGoesThrough(old(Contents()), id, ask)
    {
      var current := ReadApplication(id);
      if current.None? {
        return false;
      }
      ok := ValidatePatch(ask, current.value);
      if !ok {
        return;
      }
      var comps := new ComponentAsk[|ask.components|](i requires 0 <= i < |ask.components| => ask.components[i]);
      assert comps[..] == ask.components;
      ok := ResolveSecrets(comps, current.value.components);
      if !ok {
        return;
      }
      var patch := App("", 0, 0, -1, 0, 0, []);
      if ask.timeout.Some? {
        patch := patch.(timeout := ask.timeout.value);
      }
      if ask.port.Some? {
        patch := patch.(port := ask.port.value);
      }
      if ask.minScale.Some? {
        patch := patch.(minScale := ask.minScale.value);
      }
      if ask.maxScale.Some? {
        patch := patch.(maxScale := ask.maxScale.value);
      }
      if ask.scaleTarget.Some? {
        patch := patch.(scaleTarget := ask.scaleTarget.value);
      }
      if comps.Length > 0 {
        patch := patch.(components := FromAsks(comps[..]));
      }
      assert patch == Encoded(ask, FromAsks(Filled(ask.components, current.value.components)));
      ok := UpdateApplication(id, vid, patch, now);
    }
  }
}

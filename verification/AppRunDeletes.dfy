/**
 Deleting a version takes its handler four accesses to the store: list, read,
 look at the traffic, delete. Other requests run between them.
 */
module AppRunDeletes {
  import opened Prelude
  import opened AppRunConfig
  import opened AppRunStore

  /** Where a delete handler has got to; `known` says that the target was among the versions listed. */
  datatype Stage =
    | Listed(app: string, target: string, count: nat, newest: string, known: bool)
    | Found(app: string, target: string, known: bool)
    | Cleared(app: string, target: string, known: bool)
    | Ended

  /**
   `newest` records the version created last for every application there ever
   was, and `created` every version there ever was.
   */
  datatype World = World(
    apps: map<string, seq<Version>>, versionSeq: nat, clock: int, traffic: map<string, seq<string>>,
    handlers: map<string, Stage>, newest: map<string, string>, created: map<string, Version>)

  const START := World(map[], 0, 0, map[], map[], map[], map[])

  datatype Event =
    | Create(app: string, vid: string, config: App, at: int)
    | Patch(app: string, vid: string, config: App, at: int)
    | DeleteApp(app: string)
    | PutTraffic(app: string, targets: seq<string>)
    | List(handler: string, app: string, target: string)
    | Read(handler: string)
    | CheckTraffic(handler: string)
    | Delete(handler: string)

  /** Fresh identifiers, a clock that does not go back, and each handler at its own step. */
  predicate Enabled(w: World, e: Event) {
    match e
    case Create(app, vid, _, at) => app !in w.newest && vid !in w.created && w.clock <= at
    case Patch(_, vid, _, at) => vid !in w.created && w.clock <= at
    case List(h, _, _) => h !in w.handlers
    case Read(h) => h in w.handlers && w.handlers[h].Listed?
    case CheckTraffic(h) => h in w.handlers && w.handlers[h].Found?
    case Delete(h) => h in w.handlers && w.handlers[h].Cleared?
    case _ => true
  }

  function VersionsOf(w: World, app: string): seq<Version> {
    if app in w.apps then w.apps[app] else []
  }

  /** Recording a version for an application, whether new or changed. */
  function Recorded(w: World, app: string, vid: string, config: App, at: int): World {
    var v := Version(vid, w.versionSeq + 1, at, config);
    w.(apps := w.apps[app := Trimmed(VersionsOf(w, app) + [v])], versionSeq := w.versionSeq + 1, clock := at,
       newest := w.newest[app := vid], created := w.created[vid := v])
  }

  function Step(w: World, e: Event): World
    requires Enabled(w, e)
  {
    match e
    case Create(app, vid, config, at) => Recorded(w, app, vid, config, at).(traffic := w.traffic[app := [vid]])
    case Patch(app, vid, config, at) =>
      if VersionsOf(w, app) == [] then w else Recorded(w, app, vid, config, at)
    case DeleteApp(app) => w.(apps := w.apps - {app}, traffic := w.traffic - {app})
    case PutTraffic(app, targets) => if app in w.apps then w.(traffic := w.traffic[app := targets]) else w
    case List(h, app, target) =>
      var vs := VersionsOf(w, app);
      w.(handlers := w.handlers[h := if |vs| <= 1 then Ended else Listed(app, target, |vs|, Last(vs).id, Has(vs, target))])
    case Read(h) =>
      var s := w.handlers[h];
      var next := if !Has(VersionsOf(w, s.app), s.target) || s.newest == s.target then Ended
                  else Found(s.app, s.target, s.known);
      w.(handlers := w.handlers[h := next])
    case CheckTraffic(h) =>
      var s := w.handlers[h];
      var blocked := s.app in w.traffic && s.target in w.traffic[s.app];
      w.(handlers := w.handlers[h := if blocked then Ended else Cleared(s.app, s.target, s.known)])
    case Delete(h) =>
      var s := w.handlers[h];
      w.(apps := if s.app in w.apps then w.apps[s.app := Cut(w.apps[s.app], IdOf, s.target)] else w.apps,
         handlers := w.handlers[h := Ended])
  }

  // ---------------------------------------------------------------- what holds

  /** Every listed version is as it was created. */
  ghost predicate Unchanged(w: World, vs: seq<Version>) {
    forall v :: v in vs ==> v.id in w.created && w.created[v.id] == v
  }

  ghost predicate WindowInv(w: World, app: string)
    requires app in w.apps
  {
    var vs := w.apps[app];
    && 1 <= |vs| <= MAX_VERSIONS
    && Ascending(vs)
    && Unchanged(w, vs)
    && app in w.newest && Last(vs).id == w.newest[app]
  }

  /** No version is numbered above the counter or dated after the clock, and newest versions were created. */
  ghost predicate CreatedInv(w: World) {
    && (forall v :: v in w.created ==>
          w.created[v].id == v && w.created[v].number <= w.versionSeq && w.created[v].createdAt <= w.clock)
    && (forall app :: app in w.newest ==> w.newest[app] in w.created)
    && w.apps.Keys <= w.newest.Keys
  }

  /** A handler past its check aims at a version that is not the newest, and that none newer can become. */
  ghost predicate AimsLow(w: World, s: Stage) {
    match s
    case Listed(app, target, _, newest, known) =>
      known && target in w.created && app in w.newest && (target == w.newest[app] ==> newest == target)
    case Found(app, target, known) => known && target in w.created && app in w.newest && target != w.newest[app]
    case Cleared(app, target, known) => known && target in w.created && app in w.newest && target != w.newest[app]
    case Ended => true
  }

  ghost predicate Inv(w: World) {
    && (forall app :: app in w.apps ==> WindowInv(w, app))
    && CreatedInv(w)
    && (forall h :: h in w.handlers ==> AimsLow(w, w.handlers[h]))
  }

  /** The handler's listing, one page of six newest first, shows every version, and the last one first. */
  lemma NewestIsListedFirst(w: World, app: string)
    requires app in w.apps && WindowInv(w, app)
    ensures var page := PageOf(InListingOrder(w.apps[app], ""), 0, MAX_VERSIONS + 1);
            |page| == |w.apps[app]| && page[0] == Last(w.apps[app])
  {
  }

  // ---------------------------------------------------------------- every step keeps it

  lemma {:induction false} HasIsIn(vs: seq<Version>, id: string)
    ensures Has(vs, id) <==> exists v :: v in vs && v.id == id
  {
    if v :| v in vs && v.id == id {
      var i :| 0 <= i < |vs| && vs[i] == v;
      assert vs[i].id == id;
    }
  }

  /** Cutting out a version other than the last keeps the order, the last, and every other version. */
  lemma CutKeeps(vs: seq<Version>, id: string)
    requires vs != [] && Ascending(vs)
    ensures Ascending(Cut(vs, IdOf, id)) && |vs| - 1 <= |Cut(vs, IdOf, id)| <= |vs|
    ensures forall v :: v in Cut(vs, IdOf, id) ==> v in vs
    ensures Last(vs).id != id ==> Cut(vs, IdOf, id) != [] && Last(Cut(vs, IdOf, id)) == Last(vs)
    ensures Has(vs, id) && Last(vs).id == id && FirstWith(vs, IdOf, id) == |vs| - 1 ==> Cut(vs, IdOf, id) == Front(vs)
  {
    hide Cut, FirstWith, Ascending, Has;
    CutItems(vs, id);
    CutAscends(vs, Cut(vs, IdOf, id), FirstWith(vs, IdOf, id));
    LastHas(vs, id);
  }

  lemma CutItems(vs: seq<Version>, id: string)
    ensures var k, cut := FirstWith(vs, IdOf, id), Cut(vs, IdOf, id);
            && |cut| == (if k < |vs| then |vs| - 1 else |vs|)
            && forall i :: 0 <= i < |cut| ==> cut[i] == vs[if i < k then i else i + 1]
  {
    CutIs(vs, IdOf, id);
    hide Cut, FirstWith;
  }

  lemma CutAscends(vs: seq<Version>, cut: seq<Version>, k: nat)
    requires Ascending(vs) && k <= |vs| && |cut| == if k < |vs| then |vs| - 1 else |vs|
    requires forall i :: 0 <= i < |cut| ==> cut[i] == vs[if i < k then i else i + 1]
    ensures Ascending(cut)
  {
    forall i, j | 0 <= i < j < |cut| ensures cut[i].number < cut[j].number && cut[i].createdAt <= cut[j].createdAt {
      var i', j' := if i < k then i else i + 1, if j < k then j else j + 1;
      assert cut[i] == vs[i'] && cut[j] == vs[j'] && i' < j';
    }
  }

  lemma LastHas(vs: seq<Version>, id: string)
    requires vs != []
    ensures FirstWith(vs, IdOf, id) == |vs| - 1 ==> Last(vs).id == id
  {
  }

  lemma AppendAscends(vs: seq<Version>, v: Version)
    requires Ascending(vs)
    requires forall i :: 0 <= i < |vs| ==> vs[i].number < v.number && vs[i].createdAt <= v.createdAt
    ensures Ascending(vs + [v])
  {
    var all := vs + [v];
    forall i, j | 0 <= i < j < |all| ensures all[i].number < all[j].number && all[i].createdAt <= all[j].createdAt {
      assert all[i] == vs[i] && all[j] == if j < |vs| then vs[j] else v;
    }
  }

  lemma SuffixAscends(vs: seq<Version>, k: nat)
    requires Ascending(vs) && k <= |vs|
    ensures Ascending(vs[k..])
  {
  }

  lemma RecordKeepsAscending(vs: seq<Version>, v: Version)
    requires Ascending(vs)
    requires forall x :: x in vs ==> x.number < v.number && x.createdAt <= v.createdAt
    ensures Ascending(Trimmed(vs + [v])) && Last(Trimmed(vs + [v])) == v
    ensures 1 <= |Trimmed(vs + [v])| <= MAX_VERSIONS
    ensures forall x :: x in Trimmed(vs + [v]) ==> x in vs || x == v
  {
    var all := vs + [v];
    forall i | 0 <= i < |vs| ensures vs[i].number < v.number && vs[i].createdAt <= v.createdAt {
      assert vs[i] in vs;
    }
    AppendAscends(vs, v);
    hide Ascending;
    if |all| > MAX_VERSIONS {
      SuffixAscends(all, |all| - MAX_VERSIONS);
    }
    forall x | x in Trimmed(all) ensures x in vs || x == v {
      assert x in all;
    }
  }

  lemma WindowSoFar(w: World, app: string)
    requires app in w.apps ==> WindowInv(w, app)
    ensures Ascending(VersionsOf(w, app)) && Unchanged(w, VersionsOf(w, app))
  {
  }

  lemma OlderThanNext(w: World, vs: seq<Version>, at: int)
    requires CreatedInv(w) && Unchanged(w, vs) && w.clock <= at
    ensures forall x :: x in vs ==> x.number < w.versionSeq + 1 && x.createdAt <= at && x.id in w.created
  {
  }

  lemma StillUnchanged(w: World, w': World, vs: seq<Version>, v: Version, kept: seq<Version>)
    requires Unchanged(w, vs) && v.id !in w.created && w'.created == w.created[v.id := v]
    requires forall x :: x in kept ==> x in vs || x == v
    ensures Unchanged(w', kept)
  {
  }

  lemma RecordKeepsWindow(w: World, app: string, vid: string, config: App, at: int)
    requires (app in w.apps ==> WindowInv(w, app)) && CreatedInv(w) && vid !in w.created && w.clock <= at
    ensures WindowInv(Recorded(w, app, vid, config, at), app)
  {
    var w' := Recorded(w, app, vid, config, at);
    var vs := VersionsOf(w, app);
    var v := Version(vid, w.versionSeq + 1, at, config);
    hide Ascending, Trimmed, Unchanged, CreatedInv;
    WindowSoFar(w, app);
    OlderThanNext(w, vs, at);
    RecordKeepsAscending(vs, v);
    StillUnchanged(w, w', vs, v, w'.apps[app]);
  }

  lemma OtherWindow(w: World, w': World, a: string)
    requires a in w.apps && WindowInv(w, a)
    requires a in w'.apps && w'.apps[a] == w.apps[a] && a in w'.newest && w'.newest[a] == w.newest[a]
    requires forall v :: v in w.created ==> v in w'.created && w'.created[v] == w.created[v]
    ensures WindowInv(w', a)
  {
    hide Ascending;
  }

  /** A handler's aim stays below a newest version that is newer than everything created before. */
  lemma RecordKeepsAim(w: World, s: Stage, app: string, vid: string, config: App, at: int)
    requires AimsLow(w, s) && vid !in w.created
    ensures AimsLow(Recorded(w, app, vid, config, at), s)
  {
  }

  lemma RecordKeepsInv(w: World, app: string, vid: string, config: App, at: int)
    requires Inv(w) && vid !in w.created && w.clock <= at
    ensures Inv(Recorded(w, app, vid, config, at))
  {
    hide WindowInv, AimsLow, Trimmed;
    var w' := Recorded(w, app, vid, config, at);
    RecordKeepsWindow(w, app, vid, config, at);
    forall a | a in w'.apps && a != app ensures WindowInv(w', a) {
      OtherWindow(w, w', a);
    }
    forall h | h in w'.handlers ensures AimsLow(w', w'.handlers[h]) {
      RecordKeepsAim(w, w.handlers[h], app, vid, config, at);
    }
  }

  lemma ListKeepsInv(w: World, h: string, app: string, target: string)
    requires Inv(w) && Enabled(w, List(h, app, target)) && Has(VersionsOf(w, app), target)
    ensures Inv(Step(w, List(h, app, target)))
  {
    HasIsIn(VersionsOf(w, app), target);
    assert WindowInv(w, app);
    var v :| v in VersionsOf(w, app) && v.id == target;
    var w' := Step(w, List(h, app, target));
    assert AimsLow(w', w'.handlers[h]);
    forall k | k in w'.handlers ensures AimsLow(w', w'.handlers[k]) {
      assert k != h ==> AimsLow(w, w.handlers[k]);
    }
    forall a | a in w'.apps ensures WindowInv(w', a) {
      assert WindowInv(w, a);
    }
  }

  lemma MoveKeepsInv(w: World, h: string, next: Stage)
    requires Inv(w) && AimsLow(w, next)
    ensures Inv(w.(handlers := w.handlers[h := next]))
  {
    hide Ascending;
    var w' := w.(handlers := w.handlers[h := next]);
    forall a | a in w'.apps ensures WindowInv(w', a) {
      assert WindowInv(w, a);
    }
    forall k | k in w'.handlers ensures AimsLow(w', w'.handlers[k]) {
      assert k != h ==> AimsLow(w, w.handlers[k]);
    }
  }

  lemma DeleteKeepsInv(w: World, h: string)
    requires Inv(w) && Enabled(w, Delete(h))
    ensures Inv(Step(w, Delete(h)))
  {
    var s := w.handlers[h];
    assert AimsLow(w, s);
    MoveKeepsInv(w, h, Ended);
    var w1 := w.(handlers := w.handlers[h := Ended]);
    var w' := Step(w, Delete(h));
    if s.app in w.apps {
      assert WindowInv(w, s.app);
      CutKeeps(w.apps[s.app], s.target);
      forall a | a in w'.apps ensures WindowInv(w', a) {
        assert WindowInv(w, a);
      }
      forall k | k in w'.handlers ensures AimsLow(w', w'.handlers[k]) {
        assert AimsLow(w1, w1.handlers[k]);
      }
    }
  }

  lemma StepKeepsInv(w: World, e: Event)
    requires Inv(w) && Enabled(w, e)
    requires e.List? ==> Has(VersionsOf(w, e.app), e.target)
    ensures Inv(Step(w, e))
  {
    match e
    case Create(app, vid, config, at) =>
      RecordKeepsInv(w, app, vid, config, at);
      TrafficIsAside(Recorded(w, app, vid, config, at), w.traffic[app := [vid]]);
    case Patch(app, vid, config, at) =>
      if VersionsOf(w, app) != [] {
        RecordKeepsInv(w, app, vid, config, at);
      }
    case DeleteApp(app) =>
      var w' := Step(w, e);
      forall a | a in w'.apps ensures WindowInv(w', a) {
        assert WindowInv(w, a);
      }
      forall h | h in w'.handlers ensures AimsLow(w', w'.handlers[h]) {
        assert AimsLow(w, w.handlers[h]);
      }
    case PutTraffic(app, targets) =>
      TrafficIsAside(w, w.traffic[app := targets]);
    case List(h, app, target) => ListKeepsInv(w, h, app, target);
    case Read(h) =>
      assert AimsLow(w, w.handlers[h]);
      MoveKeepsInv(w, h, Step(w, e).handlers[h]);
    case CheckTraffic(h) =>
      assert AimsLow(w, w.handlers[h]);
      MoveKeepsInv(w, h, Step(w, e).handlers[h]);
    case Delete(h) => DeleteKeepsInv(w, h);
  }

  lemma TrafficIsAside(w: World, traffic: map<string, seq<string>>)
    requires Inv(w)
    ensures Inv(w.(traffic := traffic))
  {
    hide Ascending;
    var w' := w.(traffic := traffic);
    forall a | a in w'.apps ensures WindowInv(w', a) {
      assert WindowInv(w, a);
    }
    forall h | h in w'.handlers ensures AimsLow(w', w'.handlers[h]) {
      assert AimsLow(w, w.handlers[h]);
    }
  }

  // ---------------------------------------------------------------- runs

  predicate IsRun(w: World, events: seq<Event>)
    decreases |events|
  {
    events == [] || (Enabled(w, events[0]) && IsRun(Step(w, events[0]), events[1..]))
  }

  function Run(w: World, events: seq<Event>): World
    requires IsRun(w, events)
    decreases |events|
  {
    if events == [] then w else Run(Step(w, events[0]), events[1..])
  }

  /** Every delete handler lists while its target exists. */
  predicate TargetsListed(w: World, events: seq<Event>)
    requires IsRun(w, events)
    decreases |events|
  {
    events == [] ||
    ((events[0].List? ==> Has(VersionsOf(w, events[0].app), events[0].target))
     && TargetsListed(Step(w, events[0]), events[1..]))
  }

  lemma {:induction false} RunKeepsInv(w: World, events: seq<Event>)
    requires Inv(w) && IsRun(w, events) && TargetsListed(w, events)
    ensures Inv(Run(w, events))
    decreases |events|
  {
    if events != [] {
      hide Inv, Step, Enabled;
      StepKeepsInv(w, events[0]);
      RunKeepsInv(Step(w, events[0]), events[1..]);
    }
  }

  /**
   In every interleaving in which delete handlers list while their target
   exists, an application has one to five versions, oldest first, each as it was
   created, and the last one is the newest it was ever given.
   */
  lemma NewestVersionStays(events: seq<Event>, app: string)
    requires IsRun(START, events) && TargetsListed(START, events) && app in Run(START, events).apps
    ensures var w := Run(START, events);
            var vs := w.apps[app];
            && 1 <= |vs| <= 5
            && (forall i, j :: 0 <= i < j < |vs| ==> vs[i].number < vs[j].number)
            && (forall v :: v in vs ==> v.id in w.created && w.created[v.id] == v)
            && app in w.newest && Last(vs).id == w.newest[app]
  {
    assert Inv(START);
    RunKeepsInv(START, events);
    assert WindowInv(Run(START, events), app);
  }

  /** A deletion that takes effect loses the newest version exactly when that is its target at that moment. */
  lemma DeleteLosesNewestExactly(w: World, h: string)
    requires Enabled(w, Delete(h)) && w.handlers[h].app in w.apps
    requires WindowInv(w, w.handlers[h].app) && Has(w.apps[w.handlers[h].app], w.handlers[h].target)
    ensures var app := w.handlers[h].app;
            var vs := Step(w, Delete(h)).apps[app];
            (vs != [] && Last(vs).id == w.newest[app]) <==> w.handlers[h].target != w.newest[app]
  {
    var s := w.handlers[h];
    var vs := w.apps[s.app];
    if s.target == Last(vs).id {
      OneOfEach(w, vs, s.target);
    }
    CutKeeps(vs, s.target);
  }

  /** Only the last version carries the last identifier: equal identifiers mean the same version. */
  lemma OneOfEach(w: World, vs: seq<Version>, id: string)
    requires vs != [] && Ascending(vs) && Unchanged(w, vs) && Last(vs).id == id
    ensures FirstWith(vs, IdOf, id) == |vs| - 1
    ensures forall v :: v in Front(vs) ==> v.id != id
  {
    forall i | 0 <= i < |vs| - 1 ensures vs[i].id != id {
      assert vs[i] in vs && Last(vs) in vs;
      assert vs[i].number < Last(vs).number;
    }
  }

  lemma {:induction false} RunAppend(w: World, xs: seq<Event>, ys: seq<Event>)
    requires IsRun(w, xs) && IsRun(Run(w, xs), ys)
    ensures IsRun(w, xs + ys) && Run(w, xs + ys) == Run(Run(w, xs), ys)
    decreases |xs|
  {
    if xs == [] {
      assert xs + ys == ys;
    } else {
      hide Step, Enabled;
      assert (xs + ys)[1..] == xs[1..] + ys;
      RunAppend(Step(w, xs[0]), xs[1..], ys);
    }
  }

  function SomeApp(): App {
    App("a", 60, 80, 0, 1, 100, [])
  }

  function VersionNo(id: string, number: int): Version {
    Version(id, number, 0, SomeApp())
  }

  lemma TwoVersions()
    ensures var events := [Create("a", "v1", SomeApp(), 0), Patch("a", "v2", SomeApp(), 0)];
            && IsRun(START, events)
            && var w := Run(START, events);
               && w.apps == map["a" := [VersionNo("v1", 1), VersionNo("v2", 2)]]
               && w.versionSeq == 2 && w.clock == 0 && w.handlers == map[] && w.traffic == map["a" := ["v1"]]
               && w.created.Keys == {"v1", "v2"}
  {
    var w1 := Step(START, Create("a", "v1", SomeApp(), 0));
    assert VersionsOf(START, "a") + [VersionNo("v1", 1)] == [VersionNo("v1", 1)];
    assert w1.apps == map["a" := [VersionNo("v1", 1)]];
    var w2 := Step(w1, Patch("a", "v2", SomeApp(), 0));
    assert VersionsOf(w1, "a") + [VersionNo("v2", 2)]
           == [VersionNo("v1", 1), VersionNo("v2", 2)];
    assert w2.apps == map["a" := [VersionNo("v1", 1), VersionNo("v2", 2)]];
    assert Run(w1, [Patch("a", "v2", SomeApp(), 0)]) == w2;
    assert [Create("a", "v1", SomeApp(), 0), Patch("a", "v2", SomeApp(), 0)][1..] == [Patch("a", "v2", SomeApp(), 0)];
  }

  /** From two versions: the handler lists, a third version comes, and the handler finds it. */
  lemma LateFound(w: World)
    requires w.apps == map["a" := [VersionNo("v1", 1), VersionNo("v2", 2)]]
    requires w.versionSeq == 2 && w.clock == 0 && w.handlers == map[] && w.created.Keys == {"v1", "v2"}
    ensures var events := [List("h", "a", "v3"), Patch("a", "v3", SomeApp(), 0), Read("h")];
            && IsRun(w, events)
            && var w' := Run(w, events);
               && w'.apps == map["a" := [VersionNo("v1", 1), VersionNo("v2", 2), VersionNo("v3", 3)]]
               && "a" in w'.newest && w'.newest["a"] == "v3" && w'.traffic == w.traffic
               && "h" in w'.handlers && w'.handlers["h"] == Found("a", "v3", false)
  {
    var e1, e2, e3 := List("h", "a", "v3"), Patch("a", "v3", SomeApp(), 0), Read("h");
    var w1 := Step(w, e1);
    assert w1.handlers["h"] == Listed("a", "v3", 2, "v2", false);
    var w2 := Step(w1, e2);
    assert VersionsOf(w1, "a") + [VersionNo("v3", 3)] == [VersionNo("v1", 1), VersionNo("v2", 2), VersionNo("v3", 3)];
    assert w2.apps == map["a" := [VersionNo("v1", 1), VersionNo("v2", 2), VersionNo("v3", 3)]];
    assert w2.apps["a"][2].id == "v3";
    var w3 := Step(w2, e3);
    hide Step;
    RunCons(w2, e3, []);
    RunCons(w1, e2, [e3]);
    RunCons(w, e1, [e2, e3]);
    assert [e1] + [e2, e3] == [e1, e2, e3] && [e2] + [e3] == [e2, e3] && [e3] + [] == [e3];
  }

  /** And goes on to delete it. */
  lemma LateRemoved(w: World)
    requires w.apps == map["a" := [VersionNo("v1", 1), VersionNo("v2", 2), VersionNo("v3", 3)]]
    requires w.traffic == map["a" := ["v1"]] && "h" in w.handlers && w.handlers["h"] == Found("a", "v3", false)
    ensures var events := [CheckTraffic("h"), Delete("h")];
            && IsRun(w, events)
            && Run(w, events).apps == map["a" := [VersionNo("v1", 1), VersionNo("v2", 2)]]
            && Run(w, events).newest == w.newest
  {
    var e1, e2 := CheckTraffic("h"), Delete("h");
    var vs := w.apps["a"];
    CutIs(vs, IdOf, "v3");
    assert FirstWith(vs, IdOf, "v3") == 2;
    assert vs[..2] + vs[3..] == [VersionNo("v1", 1), VersionNo("v2", 2)];
    var w1 := Step(w, e1);
    var w2 := Step(w1, e2);
    assert w2.apps == map["a" := [VersionNo("v1", 1), VersionNo("v2", 2)]];
    hide Step;
    RunCons(w1, e2, []);
    RunCons(w, e1, [e2]);
    assert [e1] + [e2] == [e1, e2] && [e2] + [] == [e2];
  }

  lemma RunCons(w: World, e: Event, rest: seq<Event>)
    requires Enabled(w, e) && IsRun(Step(w, e), rest)
    ensures IsRun(w, [e] + rest) && Run(w, [e] + rest) == Run(Step(w, e), rest)
  {
    assert ([e] + rest)[1..] == rest;
  }

  /** A handler that lists before its target exists can delete the newest version. */
  lemma LateTargetLosesNewest()
    ensures var events := [Create("a", "v1", SomeApp(), 0), Patch("a", "v2", SomeApp(), 0)]
                          + [List("h", "a", "v3"), Patch("a", "v3", SomeApp(), 0), Read("h")] + [CheckTraffic("h"), Delete("h")];
            && IsRun(START, events)
            && var w := Run(START, events);
               && "a" in w.newest && w.newest["a"] == "v3"
               && "a" in w.apps && w.apps["a"] != [] && Last(w.apps["a"]).id == "v2"
  {
    var first := [Create("a", "v1", SomeApp(), 0), Patch("a", "v2", SomeApp(), 0)];
    var second := [List("h", "a", "v3"), Patch("a", "v3", SomeApp(), 0), Read("h")];
    var third := [CheckTraffic("h"), Delete("h")];
    hide Run, IsRun, Step;
    TwoVersions();
    LateFound(Run(START, first));
    RunAppend(START, first, second);
    LateRemoved(Run(START, first + second));
    RunAppend(START, first + second, third);
  }
}

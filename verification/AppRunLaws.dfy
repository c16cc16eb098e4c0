/**
 What requests to AppRun record and remove, told on the versions themselves: the
 fields a new version has, what falls out of the window, and that nothing else
 changes.
 */
module AppRunLaws {
  import opened Prelude
  import opened KeyedMaps
  import opened OrderLists
  import opened AppRunConfig
  import opened AppRunStore
  import D = AppRunDeletes

  /** The new version goes last, and the oldest of five before it goes out. */
  predicate Recorded(vs: seq<Version>, vs': seq<Version>, v: Version) {
    vs' == (if |vs| >= 5 then vs[|vs| - 4..] else vs) + [v]
  }

  predicate GivenOrKept(given: Option<int>, before: int, after: int) {
    (given.Some? ==> after == given.value) && (given.None? ==> after == before)
  }

  /** `value` is the first one stored for the key under a component of the name. */
  ghost predicate FirstStored(comps: seq<Component>, name: string, key: string, value: string) {
    exists i, j {:trigger comps[i].secrets[j]} ::
      && 0 <= i < |comps| && 0 <= j < |comps[i].secrets|
      && comps[i].name == name && comps[i].secrets[j] == EnvVar(key, value)
      && (forall k :: 0 <= k < j ==> comps[i].secrets[k].key != key)
      && (forall k, x :: 0 <= k < i && comps[k].name == name && x in comps[k].secrets ==> x.key != key)
  }

  ghost predicate Stored(comps: seq<Component>, name: string, key: string) {
    exists c, x :: c in comps && c.name == name && x in c.secrets && x.key == key
  }

  lemma {:induction false} FirstValue(secrets: seq<EnvVar>, key: string)
    ensures ValueOf(secrets, key).None? ==> forall x :: x in secrets ==> x.key != key
    ensures ValueOf(secrets, key).Some? ==>
              exists j :: 0 <= j < |secrets| && secrets[j] == EnvVar(key, ValueOf(secrets, key).value)
                          && forall k :: 0 <= k < j ==> secrets[k].key != key
  {
    if secrets != [] {
      FirstValue(secrets[1..], key);
      if secrets[0].key == key {
        assert secrets[0] == EnvVar(key, ValueOf(secrets, key).value);
      } else if ValueOf(secrets, key).Some? {
        var j :| 0 <= j < |secrets[1..]| && secrets[1..][j] == EnvVar(key, ValueOf(secrets, key).value)
                 && forall k :: 0 <= k < j ==> secrets[1..][k].key != key;
        assert secrets[j + 1] == secrets[1..][j];
        forall k | 0 <= k < j + 1 ensures secrets[k].key != key {
          assert k > 0 ==> secrets[k] == secrets[1..][k - 1];
        }
      }
    }
  }

  lemma {:induction false} StoredIsFirst(comps: seq<Component>, name: string, key: string)
    ensures StoredSecret(comps, name, key).Some? ==> FirstStored(comps, name, key, StoredSecret(comps, name, key).value)
    ensures StoredSecret(comps, name, key).Some? <==> Stored(comps, name, key)
  {
    SecretIsStored(comps, name, key);
    if comps != [] {
      FirstValue(comps[0].secrets, key);
      StoredIsFirst(comps[1..], name, key);
      var v := StoredSecret(comps, name, key);
      if comps[0].name == name && ValueOf(comps[0].secrets, key).Some? {
        var j :| 0 <= j < |comps[0].secrets| && comps[0].secrets[j] == EnvVar(key, v.value)
                 && forall k :: 0 <= k < j ==> comps[0].secrets[k].key != key;
        assert FirstStored(comps, name, key, v.value);
      } else if v.Some? {
        LaterIsFirst(comps, name, key, v.value);
      }
    }
  }

  lemma LaterIsFirst(comps: seq<Component>, name: string, key: string, value: string)
    requires comps != [] && FirstStored(comps[1..], name, key, value)
    requires comps[0].name == name ==> forall x :: x in comps[0].secrets ==> x.key != key
    ensures FirstStored(comps, name, key, value)
  {
    var rest := comps[1..];
    var i, j :| && 0 <= i < |rest| && 0 <= j < |rest[i].secrets|
                && rest[i].name == name && rest[i].secrets[j] == EnvVar(key, value)
                && (forall k :: 0 <= k < j ==> rest[i].secrets[k].key != key)
                && (forall k, x :: 0 <= k < i && rest[k].name == name && x in rest[k].secrets ==> x.key != key);
    assert comps[i + 1].secrets[j] == rest[i].secrets[j];
    forall k, x | 0 <= k < i + 1 && comps[k].name == name && x in comps[k].secrets ensures x.key != key {
      assert k > 0 ==> comps[k] == rest[k - 1];
    }
  }

  /** The component asked for: every secret with the value given, or with the one already stored. */
  ghost predicate FilledIn(ask: ComponentAsk, before: seq<Component>, c: Component) {
    && c.name == ask.name && c.cpu == ask.cpu && c.memory == ask.memory && c.env == ask.env
    && |c.secrets| == |ask.secrets|
    && forall j :: 0 <= j < |ask.secrets| ==>
         && c.secrets[j].key == ask.secrets[j].key
         && (ask.secrets[j].value.Some? ==> c.secrets[j].value == ask.secrets[j].value.value)
         && (ask.secrets[j].value.None? ==> FirstStored(before, ask.name, ask.secrets[j].key, c.secrets[j].value))
  }

  lemma FilledInWhenGiven(ask: ComponentAsk, before: seq<Component>)
    requires AllGiven(ResolvedAsk(ask, before))
    ensures FilledIn(ask, before, FromAsk(ResolvedAsk(ask, before)))
  {
    var r := ResolvedAsk(ask, before);
    forall j | 0 <= j < |ask.secrets|
      ensures ask.secrets[j].value.None? ==>
                r.secrets[j].value.Some? && FirstStored(before, ask.name, ask.secrets[j].key, r.secrets[j].value.value)
    {
      assert r.secrets[j] in r.secrets;
      StoredIsFirst(before, ask.name, ask.secrets[j].key);
    }
    hide FirstStored;
  }

  /** A size from the list, at most fifty keys, none twice, each well formed, with values as long as they may be. */
  ghost predicate ComponentAdmitted(c: ComponentAsk) {
    && (c.cpu, c.memory) in {("0.5", "1Gi"), ("1", "1Gi"), ("1", "2Gi"), ("2", "2Gi"), ("2", "4Gi")}
    && |c.env| + |c.secrets| <= 50
    && (forall e :: e in c.env ==> KeyAdmitted(e.key) && 1 <= |e.value| <= 512)
    && (forall x :: x in c.secrets ==> KeyAdmitted(x.key) && (x.value.Some? ==> 1 <= |x.value.value| <= 512))
    && (forall i, j :: 0 <= i < j < |c.env| ==> c.env[i].key != c.env[j].key)
    && (forall i, j :: 0 <= i < j < |c.secrets| ==> c.secrets[i].key != c.secrets[j].key)
    && (forall i, j :: 0 <= i < |c.env| && 0 <= j < |c.secrets| ==> c.env[i].key != c.secrets[j].key)
  }

  predicate KeyAdmitted(key: string) {
    1 <= |key| <= 128 && key !in {"K_SERVICE", "K_CONFIGURATION", "K_REVISION", "PORT"}
  }

  lemma ComponentAdmittedExactly(c: ComponentAsk)
    ensures ValidAsk(c) <==> ComponentAdmitted(c)
  {
    hide Distinct, ValidEnv, ValidSecret, KeyAdmitted, EnvKeys, AskKeys, CPU_MEMORY;
    SizesListed();
    KeysApart(c.env, c.secrets);
    EntriesAdmitted(c);
  }

  lemma SizesListed()
    ensures CPU_MEMORY == {("0.5", "1Gi"), ("1", "1Gi"), ("1", "2Gi"), ("2", "2Gi"), ("2", "4Gi")}
  {
  }

  lemma EntriesAdmitted(c: ComponentAsk)
    ensures (forall e :: e in c.env ==> ValidEnv(e)) <==>
            forall e :: e in c.env ==> KeyAdmitted(e.key) && 1 <= |e.value| <= 512
    ensures (forall x :: x in c.secrets ==> ValidSecret(x)) <==>
            forall x :: x in c.secrets ==> KeyAdmitted(x.key) && (x.value.Some? ==> 1 <= |x.value.value| <= 512)
  {
  }

  lemma KeysApart(env: seq<EnvVar>, secrets: seq<SecretAsk>)
    ensures Distinct(EnvKeys(env) + AskKeys(secrets)) <==>
            && (forall i, j :: 0 <= i < j < |env| ==> env[i].key != env[j].key)
            && (forall i, j :: 0 <= i < j < |secrets| ==> secrets[i].key != secrets[j].key)
            && (forall i, j :: 0 <= i < |env| && 0 <= j < |secrets| ==> env[i].key != secrets[j].key)
  {
    EnvApart(env);
    SecretsApart(secrets);
    KindsApart(env, secrets);
    hide *;
    if Distinct(EnvKeys(env)) {
      JoinDistinct(EnvKeys(env), AskKeys(secrets));
    } else {
      PrefixDistinct(EnvKeys(env), AskKeys(secrets));
    }
  }

  lemma EnvApart(env: seq<EnvVar>)
    ensures Distinct(EnvKeys(env)) <==> forall i, j :: 0 <= i < j < |env| ==> env[i].key != env[j].key
  {
    hide EnvKeys;
  }

  lemma SecretsApart(secrets: seq<SecretAsk>)
    ensures Distinct(AskKeys(secrets)) <==> forall i, j :: 0 <= i < j < |secrets| ==> secrets[i].key != secrets[j].key
  {
    hide AskKeys;
  }

  lemma KindsApart(env: seq<EnvVar>, secrets: seq<SecretAsk>)
    ensures KeySet(AskKeys(secrets)) !! KeySet(EnvKeys(env)) <==>
            forall i, j :: 0 <= i < |env| && 0 <= j < |secrets| ==> env[i].key != secrets[j].key
  {
    var a, b := EnvKeys(env), AskKeys(secrets);
    hide EnvKeys, AskKeys;
    if KeySet(b) !! KeySet(a) {
      forall i, j | 0 <= i < |env| && 0 <= j < |secrets| ensures env[i].key != secrets[j].key {
        assert a[i] in a && b[j] in b;
        assert a[i] in KeySet(a) && b[j] in KeySet(b);
      }
    } else {
      var k :| k in KeySet(a) && k in KeySet(b);
      var i :| 0 <= i < |a| && a[i] == k;
      var j :| 0 <= j < |b| && b[j] == k;
      assert env[i].key == secrets[j].key;
    }
  }

  /** The checks of a patch against the newest version. */
  ghost predicate PatchAdmitted(before: App, ask: PatchAsk) {
    && (if ask.port.Some? then ask.port.value else before.port) !in {8008, 8012, 8013, 8022, 8443, 9090, 9091}
    && (if ask.minScale.Some? then ask.minScale.value else before.minScale)
       <= (if ask.maxScale.Some? then ask.maxScale.value else before.maxScale)
    && |ask.components| <= 1
    && forall c :: c in ask.components ==>
         && ComponentAdmitted(c)
         && forall x :: x in c.secrets && x.value.None? ==> Stored(before.components, c.name, x.key)
  }

  lemma FillableExactly(c: ComponentAsk, before: seq<Component>)
    ensures AllGiven(ResolvedAsk(c, before)) <==>
            forall x :: x in c.secrets && x.value.None? ==> Stored(before, c.name, x.key)
  {
    var r := ResolvedAsk(c, before);
    forall j | 0 <= j < |c.secrets|
      ensures r.secrets[j].value.Some? <==> c.secrets[j].value.Some? || Stored(before, c.name, c.secrets[j].key)
    {
      StoredIsFirst(before, c.name, c.secrets[j].key);
    }
    hide Stored;
    if AllGiven(r) {
      forall x | x in c.secrets && x.value.None? ensures Stored(before, c.name, x.key) {
        var j :| 0 <= j < |c.secrets| && c.secrets[j] == x;
        assert r.secrets[j] in r.secrets;
      }
    }
    forall x | x in r.secrets && x.value.None?
      ensures exists y :: y in c.secrets && y.value.None? && !Stored(before, c.name, y.key)
    {
      var j :| 0 <= j < |r.secrets| && r.secrets[j] == x;
      assert c.secrets[j] in c.secrets;
    }
  }

  lemma PatchGoesThroughExactly(s: State, id: string, ask: PatchAsk)
    ensures PatchGoesThrough(s, id, ask) <==>
            id in s.apps && s.apps[id] != [] && PatchAdmitted(Last(s.apps[id]).app, ask)
  {
    if id in s.apps && s.apps[id] != [] {
      var before := Last(s.apps[id]).app;
      var filled := Filled(ask.components, before.components);
      hide ValidAsk, ComponentAdmitted, Stored, AllGiven, ResolvedAsk, Filled;
      forall i | 0 <= i < |ask.components|
        ensures ValidAsk(ask.components[i]) <==> ComponentAdmitted(ask.components[i])
        ensures AllGiven(filled[i]) <==>
                forall x :: x in ask.components[i].secrets && x.value.None? ==>
                  Stored(before.components, ask.components[i].name, x.key)
        ensures filled[i] in filled && ask.components[i] in ask.components
      {
        ComponentAdmittedExactly(ask.components[i]);
        FillableExactly(ask.components[i], before.components);
      }
    }
  }

  /**
   An accepted patch within the schema's ranges records a version in which every
   field is the one given or that of the version before, and the components are
   those asked for, their omitted secrets filled in, or the old ones if none are.
   */
  lemma PatchRecorded(s: State, id: string, vid: string, ask: PatchAsk, now: int)
    requires PatchInRange(ask)
    ensures var s' := Step(s, Patching(id, vid, ask), now);
            && (!(id in s.apps && s.apps[id] != [] && PatchAdmitted(Last(s.apps[id]).app, ask)) ==> s' == s)
            && (id in s.apps && s.apps[id] != [] && PatchAdmitted(Last(s.apps[id]).app, ask) ==>
                  && id in s'.apps && s'.apps[id] != []
                  && var before, v := Last(s.apps[id]).app, Last(s'.apps[id]);
                     && Recorded(s.apps[id], s'.apps[id], v)
                     && v.id == vid && v.number == s.versionSeq + 1 && v.createdAt == now
                     && v.app.name == before.name
                     && GivenOrKept(ask.timeout, before.timeout, v.app.timeout)
                     && GivenOrKept(ask.port, before.port, v.app.port)
                     && GivenOrKept(ask.minScale, before.minScale, v.app.minScale)
                     && GivenOrKept(ask.maxScale, before.maxScale, v.app.maxScale)
                     && GivenOrKept(ask.scaleTarget, before.scaleTarget, v.app.scaleTarget)
                     && (ask.components == [] ==> v.app.components == before.components)
                     && (ask.components != [] ==>
                           && |v.app.components| == |ask.components|
                           && forall i :: 0 <= i < |ask.components| ==>
                                FilledIn(ask.components[i], before.components, v.app.components[i]))
                     && OthersSame(s.apps, s'.apps, id) && s'.versionSeq == s.versionSeq + 1)
  {
    PatchGoesThroughExactly(s, id, ask);
    hide PatchAdmitted, FilledIn, Filled, AllGiven, ResolvedAsk, PatchAccepted;
    if PatchGoesThrough(s, id, ask) {
      var before := Last(s.apps[id]).app;
      var filled := Filled(ask.components, before.components);
      PatchedFields(before, ask);
      forall i | 0 <= i < |ask.components|
        ensures FilledIn(ask.components[i], before.components, FromAsks(filled)[i])
      {
        assert filled[i] in filled;
        FilledInWhenGiven(ask.components[i], before.components);
      }
    }
  }

  lemma PatchedFields(before: App, ask: PatchAsk)
    requires PatchInRange(ask)
    ensures Patched(before, ask) == MergeGiven(before, ask, FromAsks(Filled(ask.components, before.components)))
  {
    MergesAgreeExactly(before, ask, FromAsks(Filled(ask.components, before.components)));
  }

  /** Outside those ranges the version has the meaning of the patch exactly when no value is mistaken for an absent one. */
  lemma PatchMeansGivenExactly(s: State, id: string, vid: string, ask: PatchAsk, now: int)
    requires id in s.apps && s.apps[id] != [] && PatchAdmitted(Last(s.apps[id]).app, ask)
    ensures var s' := Step(s, Patching(id, vid, ask), now);
            var before := Last(s.apps[id]).app;
            && id in s'.apps && s'.apps[id] != []
            && (Last(s'.apps[id]).app == MergeGiven(before, ask, FromAsks(Filled(ask.components, before.components))) <==>
                  Unmistakable(before, ask))
  {
    PatchGoesThroughExactly(s, id, ask);
    var before := Last(s.apps[id]).app;
    MergesAgreeExactly(before, ask, FromAsks(Filled(ask.components, before.components)));
    hide PatchAdmitted, MergeGiven, MergeSentinels, Encoded, Unmistakable, PatchGoesThrough;
  }

  /** A creation is refused at five applications that have a version. */
  ghost predicate CreateAdmitted(s: State, ask: CreateAsk) {
    && ask.port !in {8008, 8012, 8013, 8022, 8443, 9090, 9091} && ask.minScale <= ask.maxScale
    && |ask.components| == 1 && ComponentAdmitted(ask.components[0])
    && |set a | a in s.apps && s.apps[a] != []| < 5
  }

  /** An accepted creation records a first version with the fields given; a scale target left at zero is 100. */
  lemma CreateRecorded(s: State, id: string, vid: string, ask: CreateAsk, now: int)
    requires CreateInRange(ask)
    ensures var s' := Step(s, Creating(id, vid, ask), now);
            && (!CreateAdmitted(s, ask) ==> s' == s)
            && (CreateAdmitted(s, ask) ==>
                  && id in s'.apps && |s'.apps[id]| == 1
                  && var v := s'.apps[id][0];
                     && v.id == vid && v.number == s.versionSeq + 1 && v.createdAt == now
                     && v.app.name == ask.name && v.app.timeout == ask.timeout && v.app.port == ask.port
                     && v.app.minScale == ask.minScale && v.app.maxScale == ask.maxScale
                     && (ask.scaleTarget != 0 ==> v.app.scaleTarget == ask.scaleTarget)
                     && (ask.scaleTarget == 0 ==> v.app.scaleTarget == 100)
                     && |v.app.components| == 1 && FilledIn(ask.components[0], [], v.app.components[0])
                     && OthersSame(s.apps, s'.apps, id) && s'.versionSeq == s.versionSeq + 1)
  {
    hide ValidAsk, ComponentAdmitted;
    assert Live(s.apps) == set a | a in s.apps && s.apps[a] != [];
    if |ask.components| == 1 {
      var c := ask.components[0];
      ComponentAdmittedExactly(c);
      assert c in ask.components;
      assert ResolvedAsk(c, []).secrets == c.secrets by {
        forall j | 0 <= j < |c.secrets| ensures c.secrets[j].value.Some? {
          assert c.secrets[j] in c.secrets;
        }
      }
      FilledInWhenGiven(c, []);
    }
    hide FilledIn;
  }

  /** The first version with the identifier is taken out of the application's; all else stays. */
  lemma VersionRemoved(s: State, id: string, vid: string, now: int)
    ensures var s' := Step(s, RemovingVersion(id, vid), now);
            && ((id in s.apps ==> forall k :: 0 <= k < |s.apps[id]| ==> s.apps[id][k].id != vid) ==> s' == s)
            && (forall k :: id in s.apps && FirstIs(s.apps[id], vid, k) ==>
                  && id in s'.apps && s'.apps[id] == s.apps[id][..k] + s.apps[id][k + 1..]
                  && OthersSame(s.apps, s'.apps, id) && s'.versionSeq == s.versionSeq)
  {
    if id in s.apps {
      CutAt(s.apps[id], vid);
    }
    hide Cut, FirstIs, Has;
  }

  /** `k` is the position of the first version with the identifier. */
  predicate FirstIs(vs: seq<Version>, vid: string, k: int) {
    0 <= k < |vs| && vs[k].id == vid && forall j :: 0 <= j < k ==> vs[j].id != vid
  }

  lemma CutAt(vs: seq<Version>, vid: string)
    ensures Has(vs, vid) || forall k :: 0 <= k < |vs| ==> vs[k].id != vid
    ensures (forall k :: 0 <= k < |vs| ==> vs[k].id != vid) ==> !Has(vs, vid) && Cut(vs, IdOf, vid) == vs
    ensures forall k :: FirstIs(vs, vid, k) ==>
              0 <= k < |vs| && Has(vs, vid) && Cut(vs, IdOf, vid) == vs[..k] + vs[k + 1..]
  {
    CutIs(vs, IdOf, vid);
    hide Cut;
    forall k | FirstIs(vs, vid, k) ensures FirstWith(vs, IdOf, vid) == k {}
  }

  lemma AppRemoved(s: State, id: string, now: int)
    ensures var s' := Step(s, RemovingApp(id), now);
            id !in s'.apps && OthersSame(s.apps, s'.apps, id) && s'.versionSeq == s.versionSeq
  {
  }

  // ---------------------------------------------------------------- between the steps of delete handlers

  /** A creation gives the application one version, the newest, with all its traffic. */
  lemma EventCreates(w: D.World, app: string, vid: string, config: App, at: int)
    requires D.Enabled(w, D.Create(app, vid, config, at)) && app !in w.apps
    ensures var w' := D.Step(w, D.Create(app, vid, config, at));
            && app in w'.apps && w'.apps[app] == [Version(vid, w.versionSeq + 1, at, config)]
            && OthersSame(w.apps, w'.apps, app)
            && app in w'.traffic && w'.traffic[app] == [vid] && OthersSame(w.traffic, w'.traffic, app)
            && app in w'.newest && w'.newest[app] == vid && OthersSame(w.newest, w'.newest, app)
            && vid in w'.created && w'.created[vid] == Version(vid, w.versionSeq + 1, at, config)
            && OthersSame(w.created, w'.created, vid) && w'.handlers == w.handlers
  {
  }

  /** A patch adds a version last and moves no traffic; without a version to patch it does nothing. */
  lemma EventPatches(w: D.World, app: string, vid: string, config: App, at: int)
    requires D.Enabled(w, D.Patch(app, vid, config, at))
    ensures var w' := D.Step(w, D.Patch(app, vid, config, at));
            && (!(app in w.apps && w.apps[app] != []) ==> w' == w)
            && (app in w.apps && w.apps[app] != [] ==>
                  && app in w'.apps && Recorded(w.apps[app], w'.apps[app], Version(vid, w.versionSeq + 1, at, config))
                  && OthersSame(w.apps, w'.apps, app) && w'.traffic == w.traffic
                  && app in w'.newest && w'.newest[app] == vid && OthersSame(w.newest, w'.newest, app)
                  && vid in w'.created && w'.created[vid] == Version(vid, w.versionSeq + 1, at, config)
                  && OthersSame(w.created, w'.created, vid) && w'.handlers == w.handlers)
  {
  }

  lemma EventDeletesApp(w: D.World, app: string)
    ensures var w' := D.Step(w, D.DeleteApp(app));
            && app !in w'.apps && OthersSame(w.apps, w'.apps, app)
            && app !in w'.traffic && OthersSame(w.traffic, w'.traffic, app)
            && w' == w.(apps := w'.apps, traffic := w'.traffic)
  {
  }

  lemma EventPutsTraffic(w: D.World, app: string, targets: seq<string>)
    ensures var w' := D.Step(w, D.PutTraffic(app, targets));
            && (app !in w.apps ==> w' == w)
            && (app in w.apps ==>
                  && app in w'.traffic && w'.traffic[app] == targets && OthersSame(w.traffic, w'.traffic, app)
                  && w' == w.(traffic := w'.traffic))
  {
  }

  /** What a handler does next. */
  function Next(h: string, stage: D.Stage): D.Event
    requires !stage.Ended?
  {
    match stage
    case Listed(_, _, _, _, _) => D.Read(h)
    case Found(_, _, _) => D.CheckTraffic(h)
    case Cleared(_, _, _) => D.Delete(h)
  }

  function StepsLeft(stage: D.Stage): nat {
    match stage
    case Listed(_, _, _, _, _) => 3
    case Found(_, _, _) => 2
    case Cleared(_, _, _) => 1
    case Ended => 0
  }

  /** The handler runs to its end with nothing in between. */
  function Finished(w: D.World, h: string): D.World
    requires h in w.handlers
    decreases StepsLeft(w.handlers[h])
  {
    if w.handlers[h].Ended? then w else Finished(D.Step(w, Next(h, w.handlers[h])), h)
  }

  /** The world when the handler has ended, its target cut out or not. */
  function Ending(w: D.World, h: string, app: string, target: string, cut: bool): D.World {
    w.(apps := if cut && app in w.apps then w.apps[app := Cut(w.apps[app], IdOf, target)] else w.apps,
       handlers := w.handlers[h := D.Ended])
  }

  predicate Blocked(w: D.World, app: string, target: string) {
    app in w.traffic && target in w.traffic[app]
  }

  lemma Overwritten(w: D.World, h: string, stage: D.Stage, app: string, target: string, cut: bool)
    ensures Ending(w.(handlers := w.handlers[h := stage]), h, app, target, cut) == Ending(w, h, app, target, cut)
  {
    assert w.handlers[h := stage][h := D.Ended] == w.handlers[h := D.Ended];
  }

  lemma FoundFinishes(w: D.World, h: string)
    requires h in w.handlers && w.handlers[h].Found?
    ensures var s := w.handlers[h]; Finished(w, h) == Ending(w, h, s.app, s.target, !Blocked(w, s.app, s.target))
  {
    hide Cut;
    var s := w.handlers[h];
    var w1 := D.Step(w, D.CheckTraffic(h));
    Overwritten(w, h, w1.handlers[h], s.app, s.target, !Blocked(w, s.app, s.target));
    if w1.handlers[h].Cleared? {
      assert Finished(w1, h) == Finished(D.Step(w1, D.Delete(h)), h) == D.Step(w1, D.Delete(h));
    }
    assert Finished(w, h) == Finished(w1, h);
  }

  lemma ListedFinishes(w: D.World, h: string, app: string, target: string)
    requires D.Enabled(w, D.List(h, app, target))
    ensures var vs := D.VersionsOf(w, app);
            Finished(D.Step(w, D.List(h, app, target)), h) ==
            Ending(w, h, app, target, |vs| >= 2 && Has(vs, target) && Last(vs).id != target && !Blocked(w, app, target))
  {
    hide Has, Cut, Ending;
    var vs := D.VersionsOf(w, app);
    var cut := Has(vs, target) && !Blocked(w, app, target);
    var w1 := D.Step(w, D.List(h, app, target));
    assert w1 == w.(handlers := w.handlers[h := w1.handlers[h]]);
    EndedHere(w1, h);
    EndedHere(w, h);
    if |vs| >= 2 {
      var w2 := D.Step(w1, D.Read(h));
      assert w2 == w1.(handlers := w1.handlers[h := w2.handlers[h]]);
      assert Finished(w1, h) == Finished(w2, h);
      EndedHere(w2, h);
      if w2.handlers[h].Found? {
        FoundFinishes(w2, h);
      }
      Overwritten(w1, h, w2.handlers[h], app, target, !Blocked(w, app, target));
      Overwritten(w1, h, w2.handlers[h], app, target, false);
    }
    Overwritten(w, h, w1.handlers[h], app, target, !Blocked(w, app, target));
    Overwritten(w, h, w1.handlers[h], app, target, false);
  }

  lemma EndedHere(w: D.World, h: string)
    ensures h in w.handlers && w.handlers[h].Ended? ==>
              Finished(w, h) == w && forall app, target :: Ending(w, h, app, target, false) == w
  {
    if h in w.handlers && w.handlers[h].Ended? {
      assert w.handlers[h := D.Ended] == w.handlers;
    }
  }

  /**
   A deletion that nothing interrupts takes its target out exactly when the
   application has another version, the target is there, is not the newest and
   gets no traffic; otherwise no version goes.
   */
  lemma DeletionAlone(w: D.World, h: string, app: string, target: string)
    requires D.Enabled(w, D.List(h, app, target))
    ensures var w' := Finished(D.Step(w, D.List(h, app, target)), h);
            var vs := if app in w.apps then w.apps[app] else [];
            && w' == w.(apps := w'.apps, handlers := w'.handlers)
            && h in w'.handlers && w'.handlers[h].Ended? && OthersSame(w.handlers, w'.handlers, h)
            && (forall k :: FirstIs(vs, target, k) && |vs| >= 2 && Last(vs).id != target
                            && !(app in w.traffic && target in w.traffic[app]) ==>
                  app in w'.apps && w'.apps[app] == vs[..k] + vs[k + 1..] && OthersSame(w.apps, w'.apps, app))
            && (|vs| < 2 || (forall k :: 0 <= k < |vs| ==> vs[k].id != target) || Last(vs).id == target
                || (app in w.traffic && target in w.traffic[app]) ==>
                  w'.apps == w.apps)
  {
    var vs := D.VersionsOf(w, app);
    CutAt(vs, target);
    ListedFinishes(w, h, app, target);
    hide D.Step, Cut, FirstIs, Has, Finished;
  }
}

/**
 The whole control plane and its runs: what every reachable state satisfies,
 which refused calls have an effect, and which promises one call can break.
 */
module GatewayRuns {
  import opened Prelude
  import opened OrderLists
  import opened KeyedMaps
  import opened GatewayState
  import S = GatewayServices
  import R = GatewayRoutes
  import A = GatewayAccess
  import D = GatewayDomains

  datatype State = State(
    bindings: S.Bindings, routes: map<string, Route>, users: map<string, User>, groups: map<string, Group>, names: D.Names)

  const EMPTY := State(S.Bindings(map[], map[], map[]), map[], map[], map[], D.Names(map[], map[]))

  datatype Op = OnServices(service: S.Op) | OnRoutes(route: R.Op) | OnAccess(access: A.Op) | OnDomains(domain: D.Op)

  ghost predicate Inv(s: State) {
    && S.Inv(s.bindings)
    && R.Inv(s.routes, s.bindings.services, s.names.domains, s.groups)
    && A.DirectoryInv(s.users, s.groups)
    && D.NamesInv(s.names)
  }

  predicate Fresh(s: State, op: Op) {
    match op
    case OnServices(o) => S.Fresh(s.bindings, o)
    case OnRoutes(o) => R.Fresh(s.routes, o)
    case OnAccess(o) => A.FreshID(A.Directory(s.users, s.groups, s.routes), o)
    case OnDomains(o) => D.FreshName(s.names, o)
  }

  ghost function Step(plans: seq<string>, s: State, op: Op): Outcome<State>
    requires Fresh(s, op)
  {
    match op
    case OnServices(o) =>
      var r := S.Step(s.bindings, plans, s.routes, o);
      Outcome(s.(bindings := r.state), r.status)
    case OnRoutes(o) =>
      var r := R.Step(s.routes, s.bindings.services, s.names.domains, s.groups, o);
      Outcome(s.(routes := r.state), r.status)
    case OnAccess(o) =>
      var r := A.StepDirectory(A.Directory(s.users, s.groups, s.routes), o);
      Outcome(s.(users := r.state.users, groups := r.state.groups, routes := r.state.routes), r.status)
    case OnDomains(o) =>
      var r := D.StepNames(s.names, s.routes, o);
      Outcome(s.(names := r.state), r.status)
  }

  // ---------------------------------------------------------------- one step

  /** Services keep their hostname for life, and one with routes is not deleted. */
  lemma ServicesKeepRoutes(b: S.Bindings, plans: seq<string>, routes: map<string, Route>, op: S.Op)
    requires S.Fresh(b, op) && R.Routed(routes, b.services)
    ensures R.Routed(routes, S.Step(b, plans, routes, op).state.services)
  {
    var services' := S.Step(b, plans, routes, op).state.services;
    forall r | r in routes
      ensures routes[r].serviceID in services' && routes[r].host == services'[routes[r].serviceID].routeHost
    {
      assert op.DeletingService? && op.id == routes[r].serviceID ==> S.HasRoutes(routes, op.id);
    }
  }

  lemma AccessKeepsRoutes(
    routes: map<string, Route>, routes': map<string, Route>, services: map<string, Service>, domains: map<string, Domain>,
    groups: map<string, Group>, groups': map<string, Group>)
    requires R.Inv(routes, services, domains, groups) && A.SameButAcl(routes, routes') && R.AclLive(routes', groups')
    ensures R.Inv(routes', services, domains, groups')
  {
    hide Unique, R.AclLive, R.HostsAllowed;
    UniqueSameKeys(routes, routes', RouteKey);
    forall r | r in routes' ensures R.HostsAllowed(domains, routes'[r].host, routes'[r].hosts) {
      assert R.HostsAllowed(domains, routes[r].host, routes[r].hosts);
    }
  }

  lemma StepKeepsInv(plans: seq<string>, s: State, op: Op)
    requires Inv(s) && Fresh(s, op)
    ensures Inv(Step(plans, s, op).state)
  {
    hide S.Inv, S.Step, R.Step, A.StepDirectory, D.StepNames, A.DirectoryInv, D.NamesInv;
    hide R.Routed, R.HostsKnown, R.AclLive, R.AllEffective, Unique, S.Fresh, R.Fresh, A.FreshID, D.FreshName;
    match op
    case OnServices(o) =>
      S.StepKeepsInv(s.bindings, plans, s.routes, o);
      ServicesKeepRoutes(s.bindings, plans, s.routes, o);
    case OnRoutes(o) =>
      R.StepKeepsInv(s.routes, s.bindings.services, s.names.domains, s.groups, o);
    case OnAccess(o) =>
      var d := A.Directory(s.users, s.groups, s.routes);
      var d' := A.StepDirectory(d, o).state;
      A.DirectoryStepKeepsInv(d, o);
      AccessKeepsRoutes(s.routes, d'.routes, s.bindings.services, s.names.domains, s.groups, d'.groups);
    case OnDomains(o) =>
      D.StepKeepsNames(s.names, s.routes, o);
      D.StepKeepsHosts(s.names, s.routes, o);
  }

  /** The one kind of refused call with an effect. */
  predicate DanglingUpdate(s: State, op: Op) {
    op.OnDomains? && D.RefusedUpdate(s.names, op.domain)
  }

  /** A refused call leaves the store as it was, but for pointing a domain at a missing certificate. */
  lemma RefusedCallsChangeNothing(plans: seq<string>, s: State, op: Op)
    requires Fresh(s, op)
    ensures var o := Step(plans, s, op);
            o.status != Done ==>
              (o.state != s <==> DanglingUpdate(s, op) && s.names.domains[op.domain.id].certificateID != op.domain.certificateID)
  {
    hide S.Step, R.Step, A.StepDirectory, D.StepNames;
    match op
    case OnServices(o) => S.RefusedChangesNothing(s.bindings, plans, s.routes, o);
    case OnRoutes(o) => R.RefusedChangesNothing(s.routes, s.bindings.services, s.names.domains, s.groups, o);
    case OnAccess(o) => A.RefusedLeavesDirectory(A.Directory(s.users, s.groups, s.routes), o);
    case OnDomains(o) => D.RefusedNamesChange(s.names, s.routes, o);
  }

  // ---------------------------------------------------------------- runs

  ghost predicate IsRun(plans: seq<string>, s: State, ops: seq<Op>)
    decreases |ops|
  {
    ops == [] || (Fresh(s, ops[0]) && IsRun(plans, Step(plans, s, ops[0]).state, ops[1..]))
  }

  ghost function Run(plans: seq<string>, s: State, ops: seq<Op>): State
    requires IsRun(plans, s, ops)
    decreases |ops|
  {
    if ops == [] then s else Run(plans, Step(plans, s, ops[0]).state, ops[1..])
  }

  lemma EmptyHoldsInv()
    ensures Inv(EMPTY) && D.AllCertified(EMPTY.names) && StorageReads(EMPTY)
  {
  }

  lemma {:induction false} RunKeepsInv(plans: seq<string>, s: State, ops: seq<Op>)
    requires Inv(s) && IsRun(plans, s, ops)
    ensures Inv(Run(plans, s, ops))
    decreases |ops|
  {
    if ops != [] {
      hide Inv, Step, Fresh;
      StepKeepsInv(plans, s, ops[0]);
      RunKeepsInv(plans, Step(plans, s, ops[0]).state, ops[1..]);
    }
  }

  /** Every route has a live service, its hostname, registered hosts, and an allow-list of live groups by current name. */
  lemma EveryRouteIsSound(plans: seq<string>, ops: seq<Op>, r: string)
    requires IsRun(plans, EMPTY, ops) && r in Run(plans, EMPTY, ops).routes
    ensures var s := Run(plans, EMPTY, ops);
            var rt := s.routes[r];
            && rt.serviceID in s.bindings.services
            && rt.host == s.bindings.services[rt.serviceID].routeHost
            && (forall h :: h in rt.hosts && h != rt.host ==>
                  exists d :: d in s.names.domains && s.names.domains[d].domainName == h)
            && (rt.acl.Some? ==>
                  forall e :: e in rt.acl.value.groups ==> e.id in s.groups && e.name == s.groups[e.id].name)
  {
    EmptyHoldsInv();
    RunKeepsInv(plans, EMPTY, ops);
    var s := Run(plans, EMPTY, ops);
    assert R.HostsAllowed(s.names.domains, s.routes[r].host, s.routes[r].hosts);
    forall h | h in s.routes[r].hosts && h != s.routes[r].host
      ensures exists d :: d in s.names.domains && s.names.domains[d].domainName == h
    {
      assert R.Registered(s.names.domains, h);
    }
  }

  /** Services and bound subscriptions correspond one to one, under current names, and there are at most ten. */
  lemma BindingIsOneToOne(plans: seq<string>, ops: seq<Op>)
    requires IsRun(plans, EMPTY, ops)
    ensures var b := Run(plans, EMPTY, ops).bindings;
            && (forall x :: x in b.services ==>
                  && b.services[x].subscriptionID in b.subscriptions
                  && b.subscriptions[b.services[x].subscriptionID].boundServiceID == x)
            && (forall u :: u in b.subscriptions ==>
                  var sub := b.subscriptions[u];
                  && (sub.service.Some? <==> sub.boundServiceID != "")
                  && (sub.boundServiceID != "" ==>
                        && sub.boundServiceID in b.services
                        && b.services[sub.boundServiceID].subscriptionID == u
                        && sub.service.value == Summary(sub.boundServiceID, b.services[sub.boundServiceID].name)))
            && |b.subscriptions| <= 10
  {
    EmptyHoldsInv();
    RunKeepsInv(plans, EMPTY, ops);
  }

  /** Authentication by OIDC has a live configuration, under its current name. */
  lemma OidcIsLive(plans: seq<string>, ops: seq<Op>, x: string)
    requires IsRun(plans, EMPTY, ops) && x in Run(plans, EMPTY, ops).bindings.services
    ensures var b := Run(plans, EMPTY, ops).bindings;
            var svc := b.services[x];
            && (svc.authentication == "oidc" ==> svc.oidc.Some?)
            && (svc.oidc.Some? ==> svc.oidc.value.id in b.oidcs && svc.oidc.value.name == b.oidcs[svc.oidc.value.id].name)
  {
    EmptyHoldsInv();
    RunKeepsInv(plans, EMPTY, ops);
  }

  /** Memberships are distinct and live, and no two consumers share a credential identifier. */
  lemma ConsumersAreSound(plans: seq<string>, ops: seq<Op>)
    requires IsRun(plans, EMPTY, ops)
    ensures var s := Run(plans, EMPTY, ops);
            && (forall u :: u in s.users ==>
                  Distinct(s.users[u].groupIDs) && forall g :: g in s.users[u].groupIDs ==> g in s.groups)
            && (forall u, v :: u in s.users && v in s.users && u != v ==>
                  && (BasicKey(s.users[u]).Some? ==> BasicKey(s.users[u]) != BasicKey(s.users[v]))
                  && (JwtKey(s.users[u]).Some? ==> JwtKey(s.users[u]) != JwtKey(s.users[v]))
                  && (HmacKey(s.users[u]).Some? ==> HmacKey(s.users[u]) != HmacKey(s.users[v])))
  {
    EmptyHoldsInv();
    RunKeepsInv(plans, EMPTY, ops);
  }

  // ---------------------------------------------------------------- certificates

  ghost predicate NoDanglingUpdate(plans: seq<string>, s: State, ops: seq<Op>)
    requires IsRun(plans, s, ops)
    decreases |ops|
  {
    ops == [] || (!DanglingUpdate(s, ops[0]) && NoDanglingUpdate(plans, Step(plans, s, ops[0]).state, ops[1..]))
  }

  lemma StepKeepsCertified(plans: seq<string>, s: State, op: Op)
    requires Inv(s) && Fresh(s, op) && D.AllCertified(s.names)
    ensures D.AllCertified(Step(plans, s, op).state.names) <==> !DanglingUpdate(s, op)
  {
    if op.OnDomains? {
      D.StepKeepsCertified(s.names, s.routes, op.domain);
    }
  }

  /** Domains carry the names of live certificates in every run in which no update of a domain is refused for its certificate. */
  lemma {:induction false} CertifiedWithoutDanglingUpdates(plans: seq<string>, s: State, ops: seq<Op>)
    requires Inv(s) && D.AllCertified(s.names) && IsRun(plans, s, ops) && NoDanglingUpdate(plans, s, ops)
    ensures D.AllCertified(Run(plans, s, ops).names)
    decreases |ops|
  {
    if ops != [] {
      hide Inv, Step, Fresh, D.AllCertified, DanglingUpdate;
      StepKeepsInv(plans, s, ops[0]);
      StepKeepsCertified(plans, s, ops[0]);
      CertifiedWithoutDanglingUpdates(plans, Step(plans, s, ops[0]).state, ops[1..]);
    }
  }

  // ---------------------------------------------------------------- storage-backed services

  predicate OnStorage(s: State, r: string)
    requires r in s.routes
  {
    s.routes[r].serviceID in s.bindings.services && s.bindings.services[s.routes[r].serviceID].storage.Some?
  }

  /** The routes of a storage-backed service allow only GET, HEAD and OPTIONS. */
  ghost predicate StorageReads(s: State) {
    forall r :: r in s.routes && OnStorage(s, r) ==> R.ReadOnly(s.routes[r].methods)
  }

  ghost predicate HasWritingRoute(s: State, id: string) {
    exists r :: r in s.routes && s.routes[r].serviceID == id && !R.ReadOnly(s.routes[r].methods)
  }

  /** An update of a service that goes through: the service is there, its new name is free, and its reference is live. */
  ghost predicate Acceptable(s: State, id: string, svc: Service) {
    && id in s.bindings.services
    && !Taken(s.bindings.services, ServiceKey, Some(svc.name), {id})
    && S.ResolveOidc(s.bindings.oidcs, svc).status == Done
  }

  /** Gives storage to a service that has a route with another method. */
  ghost predicate GivesStorage(s: State, op: Op) {
    && op.OnServices? && op.service.UpdatingService? && op.service.service.storage.Some?
    && Acceptable(s, op.service.id, op.service.service) && HasWritingRoute(s, op.service.id)
  }

  lemma RoutesStepReads(plans: seq<string>, s: State, op: Op)
    requires StorageReads(s) && Fresh(s, op) && op.OnRoutes?
    ensures StorageReads(Step(plans, s, op).state)
  {
    var s' := Step(plans, s, op).state;
    var routes' := s'.routes;
    forall r | r in routes' && OnStorage(s', r)
      ensures R.ReadOnly(routes'[r].methods)
    {
      hide R.ReadOnly;
      if r in s.routes && routes'[r].methods == s.routes[r].methods && routes'[r].serviceID == s.routes[r].serviceID {
      } else {
        assert op.route.CreatingRoute? || op.route.UpdatingRoute?;
        R.CheckedIsRight(s.routes, s.bindings.services[routes'[r].serviceID], s.names.domains, Asked(s, op.route),
                         if op.route.CreatingRoute? then {} else {op.route.id});
      }
    }
  }

  function Asked(s: State, op: R.Op): Route
    requires op.CreatingRoute? ==> op.serviceID in s.bindings.services
    requires op.UpdatingRoute? ==> op.id in s.routes
    requires op.CreatingRoute? || op.UpdatingRoute?
  {
    if op.CreatingRoute? then op.route.(serviceID := op.serviceID, host := s.bindings.services[op.serviceID].routeHost)
    else
      var cur := s.routes[op.id];
      op.route.(serviceID := cur.serviceID, host := cur.host, createdAt := cur.createdAt, acl := cur.acl)
  }

  /**
   The method rule is checked when a route is stored, not when its service is: a
   call breaks it exactly when it gives storage to a service that already has a
   route with another method.
   */
  lemma StorageRuleBreaksExactly(plans: seq<string>, s: State, op: Op)
    requires Inv(s) && StorageReads(s) && Fresh(s, op)
    ensures StorageReads(Step(plans, s, op).state) <==> !GivesStorage(s, op)
  {
    var s' := Step(plans, s, op).state;
    if Step(plans, s, op).status != Done {
      RefusedCallKeepsRule(plans, s, op);
    } else if op.OnRoutes? {
      RoutesStepReads(plans, s, op);
    } else if op.OnAccess? {
      A.DirectoryStepKeepsInv(A.Directory(s.users, s.groups, s.routes), op.access);
      hide S.Step, A.StepDirectory, R.ReadOnly, A.DirectoryInv, S.Inv, R.Inv, D.NamesInv;
      assert StorageReads(s');
    } else if op.OnServices? {
      ServiceStepReads(plans, s, op);
    }
  }

  lemma RefusedCallKeepsRule(plans: seq<string>, s: State, op: Op)
    requires StorageReads(s) && Fresh(s, op) && Step(plans, s, op).status != Done
    ensures StorageReads(Step(plans, s, op).state) && !GivesStorage(s, op)
  {
    assert !GivesStorage(s, op) by {
      hide Taken, StorageReads, S.ResolveOidc, HasWritingRoute;
    }
    RefusedCallsChangeNothing(plans, s, op);
    hide S.Step, R.Step, A.StepDirectory, D.StepNames, GivesStorage;
    assert op.OnDomains? || Step(plans, s, op).state == s;
  }

  lemma ServiceStepReads(plans: seq<string>, s: State, op: Op)
    requires Inv(s) && StorageReads(s) && Fresh(s, op) && op.OnServices? && Step(plans, s, op).status == Done
    ensures StorageReads(Step(plans, s, op).state) <==> !GivesStorage(s, op)
  {
    hide R.ReadOnly, S.Inv, R.AclLive, R.HostsKnown, R.AllEffective, Unique, A.DirectoryInv, D.NamesInv, Taken;
    var s' := Step(plans, s, op).state;
    if GivesStorage(s, op) {
      var r :| r in s.routes && s.routes[r].serviceID == op.service.id && !R.ReadOnly(s.routes[r].methods);
      assert s'.bindings.services[op.service.id].storage.Some?;
    } else {
      forall r | r in s'.routes && OnStorage(s', r)
        ensures R.ReadOnly(s'.routes[r].methods)
      {
        assert s.routes[r].serviceID in s.bindings.services;
      }
    }
  }

  ghost predicate NeverGivesStorage(plans: seq<string>, s: State, ops: seq<Op>)
    requires IsRun(plans, s, ops)
    decreases |ops|
  {
    ops == [] || (!GivesStorage(s, ops[0]) && NeverGivesStorage(plans, Step(plans, s, ops[0]).state, ops[1..]))
  }

  /** The routes of storage-backed services only read in every run that never gives storage to a service with other routes. */
  lemma {:induction false} StorageReadsWithoutSuchUpdates(plans: seq<string>, s: State, ops: seq<Op>)
    requires Inv(s) && StorageReads(s) && IsRun(plans, s, ops) && NeverGivesStorage(plans, s, ops)
    ensures StorageReads(Run(plans, s, ops))
    decreases |ops|
  {
    if ops != [] {
      hide Inv, Step, Fresh, StorageReads, GivesStorage;
      StepKeepsInv(plans, s, ops[0]);
      StorageRuleBreaksExactly(plans, s, ops[0]);
      StorageReadsWithoutSuchUpdates(plans, Step(plans, s, ops[0]).state, ops[1..]);
    }
  }

  /** From the empty store on. */
  lemma RunsReadFromStorage(plans: seq<string>, ops: seq<Op>)
    requires IsRun(plans, EMPTY, ops) && NeverGivesStorage(plans, EMPTY, ops)
    ensures StorageReads(Run(plans, EMPTY, ops))
  {
    EmptyHoldsInv();
    hide Inv, StorageReads;
    StorageReadsWithoutSuchUpdates(plans, EMPTY, ops);
  }

  function SomeService(name: string, storage: Option<Storage>): Service {
    Service(name, "http", "", 0, None, 0, 0, 0, "", None, storage, "", "")
  }

  function PostRoute(): Route {
    Route(0, "", "post", "/", "", [], ["POST"], 0, 0, None, None)
  }

  const SERVICE_ID := "0123456789ab"

  const SUBSCRIBE := OnServices(S.CreatingSubscription("u", "plan", "sub"))

  const ADD_SERVICE := OnServices(S.CreatingService(SERVICE_ID, SomeService("svc", None), "u"))

  const ADD_ROUTE := OnRoutes(R.CreatingRoute("r", SERVICE_ID, PostRoute()))

  const GIVE_STORAGE := OnServices(S.UpdatingService(SERVICE_ID, SomeService("svc", Some(Storage("bucket", None)))))

  lemma Subscribed()
    ensures Fresh(EMPTY, SUBSCRIBE)
    ensures Step(["plan"], EMPTY, SUBSCRIBE).state ==
            EMPTY.(bindings := S.Bindings(map[], map["u" := Subscription("sub", "plan", "", None)], map[]))
  {
  }

  lemma IdIsLongEnough()
    ensures SERVICE_ID != "" && |S.Digits(SERVICE_ID)| >= 12
  {
  }

  lemma ServiceAdded(s: State)
    requires s == EMPTY.(bindings := S.Bindings(map[], map["u" := Subscription("sub", "plan", "", None)], map[]))
    ensures Fresh(s, ADD_SERVICE)
    ensures var s' := Step(["plan"], s, ADD_SERVICE).state;
            && s'.routes == map[] && s'.bindings.services.Keys == {SERVICE_ID}
            && s'.bindings.services[SERVICE_ID].storage.None?
  {
    IdIsLongEnough();
    hide SERVICE_ID, S.Digits;
  }

  lemma RouteAdded(s: State)
    requires s.routes == map[] && s.bindings.services.Keys == {SERVICE_ID}
    requires s.bindings.services[SERVICE_ID].storage.None?
    ensures Fresh(s, ADD_ROUTE)
    ensures var s' := Step(["plan"], s, ADD_ROUTE).state;
            && s'.bindings == s.bindings && "r" in s'.routes
            && s'.routes["r"].serviceID == SERVICE_ID && s'.routes["r"].methods == ["POST"]
  {
  }

  lemma StorageGiven(s: State)
    requires s.bindings.services.Keys == {SERVICE_ID} && "r" in s.routes
    requires s.routes["r"].serviceID == SERVICE_ID && s.routes["r"].methods == ["POST"]
    ensures Fresh(s, GIVE_STORAGE) && Step(["plan"], s, GIVE_STORAGE).status == Done
    ensures !StorageReads(Step(["plan"], s, GIVE_STORAGE).state)
  {
    var s' := Step(["plan"], s, GIVE_STORAGE).state;
    assert "POST" in s'.routes["r"].methods && "POST" !in R.STORAGE_METHODS;
    assert OnStorage(s', "r");
  }

  lemma RunCons(plans: seq<string>, s: State, op: Op, ops: seq<Op>, all: seq<Op>)
    requires Fresh(s, op) && IsRun(plans, Step(plans, s, op).state, ops) && all == [op] + ops
    ensures IsRun(plans, s, all) && Run(plans, s, all) == Run(plans, Step(plans, s, op).state, ops)
  {
    hide Fresh, Step;
    assert all[1..] == ops;
  }

  lemma RunOfFour(plans: seq<string>, s: State, s1: State, s2: State, s3: State, s4: State, a: Op, b: Op, c: Op, d: Op)
    requires Fresh(s, a) && s1 == Step(plans, s, a).state
    requires Fresh(s1, b) && s2 == Step(plans, s1, b).state
    requires Fresh(s2, c) && s3 == Step(plans, s2, c).state
    requires Fresh(s3, d) && s4 == Step(plans, s3, d).state
    ensures IsRun(plans, s, [a, b, c, d]) && Run(plans, s, [a, b, c, d]) == s4
  {
    assert IsRun(plans, s4, []) && Run(plans, s4, []) == s4;
    hide *;
    RunCons(plans, s3, d, [], [d]);
    RunCons(plans, s2, c, [d], [c, d]);
    RunCons(plans, s1, b, [c, d], [b, c, d]);
    RunCons(plans, s, a, [b, c, d], [a, b, c, d]);
  }

  /**
   From the empty store on: a service without storage, a route of it that posts,
   and an update that goes through and gives the service storage.
   */
  lemma StorageRuleBreaksExample()
    ensures var ops := [SUBSCRIBE, ADD_SERVICE, ADD_ROUTE, GIVE_STORAGE];
            IsRun(["plan"], EMPTY, ops) && !StorageReads(Run(["plan"], EMPTY, ops))
  {
    hide *;
    var plans := ["plan"];
    Subscribed();
    var s1 := Step(plans, EMPTY, SUBSCRIBE).state;
    ServiceAdded(s1);
    var s2 := Step(plans, s1, ADD_SERVICE).state;
    RouteAdded(s2);
    var s3 := Step(plans, s2, ADD_ROUTE).state;
    StorageGiven(s3);
    var s4 := Step(plans, s3, GIVE_STORAGE).state;
    RunOfFour(plans, EMPTY, s1, s2, s3, s4, SUBSCRIBE, ADD_SERVICE, ADD_ROUTE, GIVE_STORAGE);
  }
}

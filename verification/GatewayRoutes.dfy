/**
 Routes: each belongs to a live service, answers on that service's hostname or
 on registered domains, and may carry an allow-list of groups.
 */
module GatewayRoutes {
  import opened Prelude
  import opened KeyedMaps
  import opened GatewayState

  // ---------------------------------------------------------------- what holds

  ghost predicate Registered(domains: map<string, Domain>, host: string) {
    exists d :: d in domains && domains[d].domainName == host
  }

  ghost predicate HostsAllowed(domains: map<string, Domain>, routeHost: string, hosts: seq<string>) {
    forall h :: h in hosts ==> h == routeHost || Registered(domains, h)
  }

  /** Every route's service is live, and `host` is that service's hostname. */
  ghost predicate Routed(routes: map<string, Route>, services: map<string, Service>) {
    forall r :: r in routes ==>
      routes[r].serviceID in services && routes[r].host == services[routes[r].serviceID].routeHost
  }

  ghost predicate HostsKnown(routes: map<string, Route>, domains: map<string, Domain>) {
    forall r :: r in routes ==> HostsAllowed(domains, routes[r].host, routes[r].hosts)
  }

  /** Every listed group is live and listed under its current name. */
  ghost predicate EntriesLive(entries: seq<AclEntry>, groups: map<string, Group>) {
    forall e :: e in entries ==> e.id in groups && e.name == groups[e.id].name
  }

  ghost predicate AclLive(routes: map<string, Route>, groups: map<string, Group>) {
    forall r :: r in routes && routes[r].acl.Some? ==> EntriesLive(routes[r].acl.value.groups, groups)
  }

  predicate Effective(rt: Route) {
    rt.redirectStatus != 0 && rt.stripPath.Some? && rt.methods != []
  }

  ghost predicate AllEffective(routes: map<string, Route>) {
    forall r :: r in routes ==> Effective(routes[r])
  }

  ghost predicate Inv(
    routes: map<string, Route>, services: map<string, Service>, domains: map<string, Domain>, groups: map<string, Group>)
  {
    && Unique(routes, RouteKey)
    && Routed(routes, services)
    && HostsKnown(routes, domains)
    && AclLive(routes, groups)
    && AllEffective(routes)
  }

  // ---------------------------------------------------------------- operations

  const ALL_METHODS := ["GET", "POST", "PUT", "DELETE", "PATCH", "OPTIONS", "HEAD", "CONNECT", "TRACE"]

  const STORAGE_METHODS := ["GET", "HEAD", "OPTIONS"]

  function WithDefaults(rt: Route): Route {
    rt.(redirectStatus := if rt.redirectStatus == 0 then 426 else rt.redirectStatus,
        stripPath := if rt.stripPath.None? then Some(true) else rt.stripPath,
        methods := if rt.methods == [] then ALL_METHODS else rt.methods)
  }

  predicate ReadOnly(methods: seq<string>) {
    forall m :: m in methods ==> m in STORAGE_METHODS
  }

  /** A route of a storage-backed service only reads, also when it names no method. */
  function StorageRules(svc: Service, rt: Route): Outcome<Route> {
    if svc.storage.None? then Outcome(rt, Done)
    else if rt.methods == [] then Outcome(rt.(methods := STORAGE_METHODS), Done)
    else if ReadOnly(rt.methods) then Outcome(rt, Done)
    else Outcome(rt, BadRequest)
  }

  /** The checks a route passes before it is stored, and what is stored. */
  ghost function Checked(
    routes: map<string, Route>, svc: Service, domains: map<string, Domain>, rt: Route, except: set<string>): Outcome<Route>
  {
    if Taken(routes, RouteKey, RouteKey(rt), except) then Outcome(rt, Conflict)
    else if !HostsAllowed(domains, svc.routeHost, rt.hosts) then Outcome(rt, BadRequest)
    else
      var ruled := StorageRules(svc, rt);
      if ruled.status != Done then ruled else Outcome(WithDefaults(ruled.state), Done)
  }

  ghost function CreateRoute(
    routes: map<string, Route>, services: map<string, Service>, domains: map<string, Domain>,
    id: string, serviceID: string, rt: Route): Outcome<map<string, Route>>
  {
    if serviceID !in services then Outcome(routes, NotFound)
    else
      var asked := rt.(serviceID := serviceID, host := services[serviceID].routeHost);
      var checked := Checked(routes, services[serviceID], domains, asked, {});
      if checked.status != Done then Outcome(routes, checked.status)
      else Outcome(routes[id := checked.state], Done)
  }

  predicate Owns(routes: map<string, Route>, services: map<string, Service>, serviceID: string, id: string) {
    serviceID in services && id in routes && routes[id].serviceID == serviceID
  }

  /** The new values, with the stored route's origin and authorization. */
  ghost function UpdateRoute(
    routes: map<string, Route>, services: map<string, Service>, domains: map<string, Domain>,
    serviceID: string, id: string, rt: Route): Outcome<map<string, Route>>
  {
    if !Owns(routes, services, serviceID, id) then Outcome(routes, NotFound)
    else
      var cur := routes[id];
      var asked := rt.(serviceID := cur.serviceID, host := cur.host, createdAt := cur.createdAt, acl := cur.acl);
      var checked := Checked(routes, services[serviceID], domains, asked, {id});
      if checked.status != Done then Outcome(routes, checked.status)
      else Outcome(routes[id := checked.state], Done)
  }

  function DeleteRoute(
    routes: map<string, Route>, services: map<string, Service>, serviceID: string, id: string): Outcome<map<string, Route>>
  {
    if !Owns(routes, services, serviceID, id) then Outcome(routes, NotFound) else Outcome(routes - {id}, Done)
  }

  /** The entries under the current names of their groups. */
  function Named(entries: seq<AclEntry>, groups: map<string, Group>): (named: seq<AclEntry>)
    requires forall e :: e in entries ==> e.id in groups
    ensures EntriesLive(named, groups)
    ensures |named| == |entries|
    ensures forall i :: 0 <= i < |entries| ==> named[i] == entries[i].(name := groups[entries[i].id].name)
  {
    if entries == [] then []
    else [entries[0].(name := groups[entries[0].id].name)] + Named(entries[1..], groups)
  }

  function SetAuthorization(
    routes: map<string, Route>, services: map<string, Service>, groups: map<string, Group>,
    serviceID: string, id: string, acl: Option<Acl>): Outcome<map<string, Route>>
  {
    if !Owns(routes, services, serviceID, id) then Outcome(routes, NotFound)
    else if acl.None? then Outcome(routes[id := routes[id].(acl := None)], Done)
    else if exists e :: e in acl.value.groups && e.id !in groups then Outcome(routes, NotFound)
    else
      var named := acl.value.(groups := Named(acl.value.groups, groups));
      Outcome(routes[id := routes[id].(acl := Some(named))], Done)
  }

  // ---------------------------------------------------------------- one step

  datatype Op =
    | CreatingRoute(id: string, serviceID: string, route: Route)
    | UpdatingRoute(serviceID: string, id: string, route: Route)
    | DeletingRoute(serviceID: string, id: string)
    | Authorizing(serviceID: string, id: string, acl: Option<Acl>)

  /** A created route comes without an authorization: that is set by its own call. */
  predicate Fresh(routes: map<string, Route>, op: Op) {
    op.CreatingRoute? ==> op.id !in routes && op.route.acl.None?
  }

  ghost function Step(
    routes: map<string, Route>, services: map<string, Service>, domains: map<string, Domain>, groups: map<string, Group>,
    op: Op): Outcome<map<string, Route>>
  {
    match op
    case CreatingRoute(id, serviceID, rt) => CreateRoute(routes, services, domains, id, serviceID, rt)
    case UpdatingRoute(serviceID, id, rt) => UpdateRoute(routes, services, domains, serviceID, id, rt)
    case DeletingRoute(serviceID, id) => DeleteRoute(routes, services, serviceID, id)
    case Authorizing(serviceID, id, acl) => SetAuthorization(routes, services, groups, serviceID, id, acl)
  }

  // ---------------------------------------------------------------- every step keeps it

  /** Storing one route that is right on its own keeps all of them right. */
  lemma PlacedKeepsInv(
    routes: map<string, Route>, services: map<string, Service>, domains: map<string, Domain>, groups: map<string, Group>,
    id: string, rt: Route)
    requires Inv(routes, services, domains, groups)
    requires !Taken(routes, RouteKey, RouteKey(rt), {id})
    requires rt.serviceID in services && rt.host == services[rt.serviceID].routeHost
    requires HostsAllowed(domains, rt.host, rt.hosts) && Effective(rt)
    requires rt.acl.Some? ==> EntriesLive(rt.acl.value.groups, groups)
    ensures Inv(routes[id := rt], services, domains, groups)
  {
    hide HostsAllowed, EntriesLive;
    UniqueUpdate(routes, RouteKey, id, rt);
  }

  lemma CheckedIsRight(
    routes: map<string, Route>, svc: Service, domains: map<string, Domain>, rt: Route, except: set<string>)
    ensures var c := Checked(routes, svc, domains, rt, except);
            c.status == Done ==>
              && !Taken(routes, RouteKey, RouteKey(c.state), except)
              && c.state == rt.(methods := c.state.methods, redirectStatus := c.state.redirectStatus, stripPath := c.state.stripPath)
              && HostsAllowed(domains, svc.routeHost, c.state.hosts) && Effective(c.state)
              && (svc.storage.Some? ==> ReadOnly(c.state.methods))
  {
  }

  lemma CreateRouteKeepsInv(
    routes: map<string, Route>, services: map<string, Service>, domains: map<string, Domain>, groups: map<string, Group>,
    id: string, serviceID: string, rt: Route)
    requires Inv(routes, services, domains, groups) && id !in routes && rt.acl.None?
    ensures Inv(CreateRoute(routes, services, domains, id, serviceID, rt).state, services, domains, groups)
  {
    if CreateRoute(routes, services, domains, id, serviceID, rt).status == Done {
      hide Checked, Taken, HostsAllowed, Inv;
      var asked := rt.(serviceID := serviceID, host := services[serviceID].routeHost);
      CheckedIsRight(routes, services[serviceID], domains, asked, {});
      var stored := Checked(routes, services[serviceID], domains, asked, {}).state;
      FreshTaken(routes, RouteKey, RouteKey(stored), id);
      PlacedKeepsInv(routes, services, domains, groups, id, stored);
    }
  }

  lemma UpdateRouteKeepsInv(
    routes: map<string, Route>, services: map<string, Service>, domains: map<string, Domain>, groups: map<string, Group>,
    serviceID: string, id: string, rt: Route)
    requires Inv(routes, services, domains, groups)
    ensures Inv(UpdateRoute(routes, services, domains, serviceID, id, rt).state, services, domains, groups)
  {
    if UpdateRoute(routes, services, domains, serviceID, id, rt).status == Done {
      hide Checked, Taken, HostsAllowed;
      var cur := routes[id];
      var asked := rt.(serviceID := cur.serviceID, host := cur.host, createdAt := cur.createdAt, acl := cur.acl);
      CheckedIsRight(routes, services[serviceID], domains, asked, {id});
      PlacedKeepsInv(routes, services, domains, groups, id, Checked(routes, services[serviceID], domains, asked, {id}).state);
    }
  }

  /** An update keeps where the route comes from and who may use it, and no call touches another route. */
  lemma UpdateKeepsOrigin(
    routes: map<string, Route>, services: map<string, Service>, domains: map<string, Domain>,
    serviceID: string, id: string, rt: Route)
    ensures var o := UpdateRoute(routes, services, domains, serviceID, id, rt);
            o.status == Done ==>
              && id in routes && id in o.state
              && o.state[id].serviceID == routes[id].serviceID == serviceID
              && o.state[id].host == routes[id].host && o.state[id].createdAt == routes[id].createdAt
              && o.state[id].acl == routes[id].acl
              && o.state[id].name == rt.name && o.state[id].path == rt.path && o.state[id].hosts == rt.hosts
              && o.state[id].regexPriority == rt.regexPriority
              && (rt.methods != [] ==> o.state[id].methods == rt.methods)
  {
    if UpdateRoute(routes, services, domains, serviceID, id, rt).status == Done {
      var cur := routes[id];
      var asked := rt.(serviceID := cur.serviceID, host := cur.host, createdAt := cur.createdAt, acl := cur.acl);
      CheckedIsRight(routes, services[serviceID], domains, asked, {id});
    }
  }

  lemma OthersUntouched(
    routes: map<string, Route>, services: map<string, Service>, domains: map<string, Domain>, groups: map<string, Group>,
    op: Op, r: string)
    requires r != op.id
    ensures var routes' := Step(routes, services, domains, groups, op).state;
            (r in routes' <==> r in routes) && (r in routes ==> routes'[r] == routes[r])
  {
  }

  lemma DeleteRouteKeepsInv(
    routes: map<string, Route>, services: map<string, Service>, domains: map<string, Domain>, groups: map<string, Group>,
    serviceID: string, id: string)
    requires Inv(routes, services, domains, groups)
    ensures Inv(DeleteRoute(routes, services, serviceID, id).state, services, domains, groups)
  {
    hide HostsAllowed, EntriesLive;
    UniqueSameKeys(routes, DeleteRoute(routes, services, serviceID, id).state, RouteKey);
  }

  lemma AclPlacedKeepsInv(
    routes: map<string, Route>, services: map<string, Service>, domains: map<string, Domain>, groups: map<string, Group>,
    id: string, acl: Option<Acl>)
    requires Inv(routes, services, domains, groups) && id in routes
    requires acl.Some? ==> EntriesLive(acl.value.groups, groups)
    ensures Inv(routes[id := routes[id].(acl := acl)], services, domains, groups)
  {
    hide HostsAllowed, EntriesLive, Unique;
    UniqueSameKeys(routes, routes[id := routes[id].(acl := acl)], RouteKey);
  }

  lemma SetAuthorizationKeepsInv(
    routes: map<string, Route>, services: map<string, Service>, domains: map<string, Domain>, groups: map<string, Group>,
    serviceID: string, id: string, acl: Option<Acl>)
    requires Inv(routes, services, domains, groups)
    ensures Inv(SetAuthorization(routes, services, groups, serviceID, id, acl).state, services, domains, groups)
  {
    if SetAuthorization(routes, services, groups, serviceID, id, acl).status == Done {
      hide Inv, EntriesLive;
      AclPlacedKeepsInv(routes, services, domains, groups, id,
                        SetAuthorization(routes, services, groups, serviceID, id, acl).state[id].acl);
    }
  }

  lemma StepKeepsInv(
    routes: map<string, Route>, services: map<string, Service>, domains: map<string, Domain>, groups: map<string, Group>, op: Op)
    requires Inv(routes, services, domains, groups) && Fresh(routes, op)
    ensures Inv(Step(routes, services, domains, groups, op).state, services, domains, groups)
  {
    match op
    case CreatingRoute(id, serviceID, rt) => CreateRouteKeepsInv(routes, services, domains, groups, id, serviceID, rt);
    case UpdatingRoute(serviceID, id, rt) => UpdateRouteKeepsInv(routes, services, domains, groups, serviceID, id, rt);
    case DeletingRoute(serviceID, id) => DeleteRouteKeepsInv(routes, services, domains, groups, serviceID, id);
    case Authorizing(serviceID, id, acl) => SetAuthorizationKeepsInv(routes, services, domains, groups, serviceID, id, acl);
  }

  lemma RefusedChangesNothing(
    routes: map<string, Route>, services: map<string, Service>, domains: map<string, Domain>, groups: map<string, Group>, op: Op)
    ensures var o := Step(routes, services, domains, groups, op);
            o.status != Done ==> o.state == routes
  {
  }
}

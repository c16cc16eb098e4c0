/**
 The control plane's store: eight maps that every call updates in place, with
 the scans, cascades and early refusals in the order the calls make them. Each
 call is a step of `GatewayRuns`.
 */
module GatewayStore {
  import opened Prelude
  import opened OrderLists
  import opened KeyedMaps
  import opened GatewayState
  import S = GatewayServices
  import R = GatewayRoutes
  import A = GatewayAccess
  import D = GatewayDomains
  import opened GatewayRuns

  // ---------------------------------------------------------------- loops over lists

  method RenameEntries(entries: seq<AclEntry>, id: string, name: string) returns (r: seq<AclEntry>)
    ensures r == A.EntriesRenamed(entries, id, name)
  {
    r := entries;
    var i := 0;
    while i < |r|
      invariant 0 <= i <= |r| == |entries|
      invariant forall k :: 0 <= k < |r| ==>
                  r[k] == if k < i && entries[k].id == id then entries[k].(name := name) else entries[k]
    {
      if r[i].id == id {
        r := r[i := r[i].(name := name)];
      }
      i := i + 1;
    }
  }

  /** The filter's outcome; that it writes over the front of its own array is modelled by `Slices`. */
  method DropEntries(entries: seq<AclEntry>, id: string) returns (r: seq<AclEntry>)
    ensures r == A.EntriesWithout(entries, id)
  {
    r := [];
    var i := 0;
    while i < |entries|
      invariant 0 <= i <= |entries|
      invariant A.EntriesWithout(entries, id) == r + A.EntriesWithout(entries[i..], id)
    {
      assert entries[i..] == [entries[i]] + entries[i + 1..];
      if entries[i].id != id {
        r := r + [entries[i]];
      }
      i := i + 1;
    }
  }

  method NameEntries(entries: seq<AclEntry>, groups: map<string, Group>) returns (ok: bool, r: seq<AclEntry>)
    ensures ok == forall e :: e in entries ==> e.id in groups
    ensures ok ==> r == R.Named(entries, groups)
  {
    r := entries;
    var i := 0;
    while i < |entries|
      invariant 0 <= i <= |entries| == |r|
      invariant forall k :: 0 <= k < i ==> entries[k].id in groups
      invariant forall k :: 0 <= k < |r| ==>
                  r[k] == if k < i then entries[k].(name := groups[entries[k].id].name) else entries[k]
    {
      if entries[i].id !in groups {
        return false, r;
      }
      r := r[i := r[i].(name := groups[r[i].id].name)];
      i := i + 1;
    }
    ok := true;
  }

  /** Every host is the service's own or a registered domain's. */
  method HostsKnown(domains: map<string, Domain>, routeHost: string, hosts: seq<string>) returns (ok: bool)
    ensures ok == R.HostsAllowed(domains, routeHost, hosts)
  {
    var i := 0;
    while i < |hosts|
      invariant 0 <= i <= |hosts|
      invariant forall k :: 0 <= k < i ==> hosts[k] == routeHost || R.Registered(domains, hosts[k])
    {
      var h := hosts[i];
      if h != routeHost {
        var found := Any(domains, (d: Domain) => d.domainName == h);
        if !found {
          assert !R.Registered(domains, h) && h in hosts;
          return false;
        }
        assert R.Registered(domains, h);
      }
      i := i + 1;
    }
    ok := true;
  }

  /** The scan of an update of credentials: any clash refuses, whichever consumer is met first. */
  method CredentialClash(users: map<string, User>, userID: string, auth: Credentials) returns (clash: bool)
    ensures clash == A.CredentialTaken(users, userID, auth)
  {
    var todo := users.Keys;
    while todo != {}
      invariant todo <= users.Keys
      invariant forall x :: x in users && x != userID && Clashes(users[x], auth) ==> x in todo
      decreases |todo|
    {
      var x :| x in todo;
      if x != userID && users[x].auth.Some? {
        var other := users[x].auth.value;
        if auth.basic.Some? && other.basic.Some? && other.basic.value.userName == auth.basic.value.userName {
          ClashIsTaken(users, userID, auth, x);
          return true;
        }
        if auth.hmac.Some? && other.hmac.Some? && other.hmac.value.userName == auth.hmac.value.userName {
          ClashIsTaken(users, userID, auth, x);
          return true;
        }
        if auth.jwt.Some? && other.jwt.Some? && other.jwt.value.key == auth.jwt.value.key {
          ClashIsTaken(users, userID, auth, x);
          return true;
        }
      }
      todo := todo - {x};
    }
    clash := false;
  }

  predicate Clashes(u: User, auth: Credentials) {
    || (auth.basic.Some? && BasicKey(u) == A.AskedBasic(auth))
    || (auth.jwt.Some? && JwtKey(u) == A.AskedJwt(auth))
    || (auth.hmac.Some? && HmacKey(u) == A.AskedHmac(auth))
  }

  lemma ClashIsTaken(users: map<string, User>, userID: string, auth: Credentials, x: string)
    requires x in users && x != userID && Clashes(users[x], auth)
    ensures A.CredentialTaken(users, userID, auth)
  {
    assert x !in {userID};
  }

  // ---------------------------------------------------------------- the store

  class MemoryStore {
    var services: map<string, Service>
    var routes: map<string, Route>
    var users: map<string, User>
    var groups: map<string, Group>
    var domains: map<string, Domain>
    var certificates: map<string, Certificate>
    var subscriptions: map<string, Subscription>
    var oidcs: map<string, Oidc>
    const plans: seq<string>

    ghost function Contents(): State
      reads this
    {
      State(S.Bindings(services, subscriptions, oidcs), routes, users, groups, D.Names(domains, certificates))
    }

    ghost predicate Valid()
      reads this
    {
      Inv(Contents())
    }

    constructor (plans: seq<string>)
      ensures Valid() && Contents() == EMPTY && this.plans == plans
    {
      services, routes, users, groups := map[], map[], map[], map[];
      domains, certificates, subscriptions, oidcs := map[], map[], map[], map[];
      this.plans := plans;
      new;
      EmptyHoldsInv();
    }

    // -------------------------------------------------------------- services

    method ResolveOidc(svc: Service) returns (status: Status, resolved: Service)
      ensures S.ResolveOidc(oidcs, svc) == Outcome(resolved, status)
    {
      resolved := svc;
      if svc.oidc.None? || svc.oidc.value.id == "" {
        if svc.authentication == "oidc" {
          return BadRequest, svc;
        }
        resolved := resolved.(oidc := None);
        return Done, resolved;
      }
      if svc.oidc.value.id !in oidcs {
        return NotFound, svc;
      }
      var o := oidcs[svc.oidc.value.id];
      resolved := resolved.(oidc := Some(OidcRef(svc.oidc.value.id, o.name)));
      status := Done;
    }

    method CreateService(id: string, svc: Service, subscriptionID: string) returns (status: Status)
      requires Valid() && S.Fresh(Contents().bindings, S.CreatingService(id, svc, subscriptionID))
      modifies this`services, this`subscriptions
      ensures Valid()
      ensures Outcome(Contents(), status) ==
              Step(plans, old(Contents()), OnServices(S.CreatingService(id, svc, subscriptionID)))
    {
      hide Inv, Taken;
      StepKeepsInv(plans, Contents(), OnServices(S.CreatingService(id, svc, subscriptionID)));
      if subscriptionID !in subscriptions {
        return NotFound;
      }
      var sub := subscriptions[subscriptionID];
      if sub.boundServiceID != "" {
        return Conflict;
      }
      var taken := IsTaken(services, ServiceKey, Some(svc.name), {});
      if taken {
        return Conflict;
      }
      var resolved;
      status, resolved := ResolveOidc(svc);
      if status != Done {
        return;
      }
      resolved := resolved.(routeHost := S.RouteHostOf(id), subscriptionID := subscriptionID);
      services := services[id := S.WithDefaults(resolved)];
      sub := sub.(boundServiceID := id);
      sub := sub.(service := Some(Summary(id, svc.name)));
      subscriptions := subscriptions[subscriptionID := sub];
    }

    method UpdateService(id: string, svc: Service) returns (status: Status)
      requires Valid()
      modifies this`services, this`subscriptions
      ensures Valid()
      ensures Outcome(Contents(), status) == Step(plans, old(Contents()), OnServices(S.UpdatingService(id, svc)))
    {
      hide Inv, Taken;
      StepKeepsInv(plans, Contents(), OnServices(S.UpdatingService(id, svc)));
      if id !in services {
        return NotFound;
      }
      var cur := services[id];
      var taken := IsTaken(services, ServiceKey, Some(svc.name), {id});
      if taken {
        return Conflict;
      }
      var resolved;
      status, resolved := ResolveOidc(svc);
      if status != Done {
        return;
      }
      resolved := resolved.(routeHost := cur.routeHost, subscriptionID := cur.subscriptionID);
      services := services[id := S.WithDefaults(resolved)];
      var u := cur.subscriptionID;
      if u in subscriptions && subscriptions[u].service.Some? {
        var summary := subscriptions[u].service.value.(name := svc.name);
        subscriptions := subscriptions[u := subscriptions[u].(service := Some(summary))];
      }
    }

    method DeleteService(id: string) returns (status: Status)
      requires Valid()
      modifies this`services, this`subscriptions
      ensures Valid()
      ensures Outcome(Contents(), status) == Step(plans, old(Contents()), OnServices(S.DeletingService(id)))
    {
      hide Inv;
      StepKeepsInv(plans, Contents(), OnServices(S.DeletingService(id)));
      if id !in services {
        return NotFound;
      }
      var used := Any(routes, (rt: Route) => rt.serviceID == id);
      if used {
        return BadRequest;
      }
      var u := services[id].subscriptionID;
      if u in subscriptions {
        subscriptions := subscriptions[u := subscriptions[u].(boundServiceID := "", service := None)];
      }
      services := services - {id};
      status := Done;
    }

    method CreateSubscription(id: string, planID: string, name: string) returns (status: Status)
      requires Valid() && id !in subscriptions
      modifies this`subscriptions
      ensures Valid()
      ensures Outcome(Contents(), status) == Step(plans, old(Contents()), OnServices(S.CreatingSubscription(id, planID, name)))
    {
      hide Inv, Taken;
      StepKeepsInv(plans, Contents(), OnServices(S.CreatingSubscription(id, planID, name)));
      var i := 0;
      while i < |plans| && plans[i] != planID
        invariant 0 <= i <= |plans| && planID !in plans[..i]
      {
        i := i + 1;
      }
      if i == |plans| {
        assert plans[..i] == plans;
        return BadRequest;
      }
      assert planID in plans;
      if |subscriptions| >= S.MAX_SUBSCRIPTIONS {
        return BadRequest;
      }
      var taken := IsTaken(subscriptions, SubscriptionKey, Some(name), {});
      if taken {
        return BadRequest;
      }
      subscriptions := subscriptions[id := Subscription(name, planID, "", None)];
      status := Done;
    }

    method UpdateSubscription(id: string, name: string) returns (status: Status)
      requires Valid()
      modifies this`subscriptions
      ensures Valid()
      ensures Outcome(Contents(), status) == Step(plans, old(Contents()), OnServices(S.UpdatingSubscription(id, name)))
    {
      hide Inv, Taken;
      StepKeepsInv(plans, Contents(), OnServices(S.UpdatingSubscription(id, name)));
      if id !in subscriptions {
        return BadRequest;
      }
      var taken := IsTaken(subscriptions, SubscriptionKey, Some(name), {id});
      if taken {
        return BadRequest;
      }
      subscriptions := subscriptions[id := subscriptions[id].(name := name)];
      status := Done;
    }

    method DeleteSubscription(id: string) returns (status: Status)
      requires Valid()
      modifies this`subscriptions
      ensures Valid()
      ensures Outcome(Contents(), status) == Step(plans, old(Contents()), OnServices(S.DeletingSubscription(id)))
    {
      hide Inv;
      StepKeepsInv(plans, Contents(), OnServices(S.DeletingSubscription(id)));
      if id !in subscriptions {
        return NotFound;
      }
      if subscriptions[id].boundServiceID != "" {
        return BadRequest;
      }
      subscriptions := subscriptions - {id};
      status := Done;
    }

    method CreateOidc(id: string, o: Oidc) returns (status: Status)
      requires Valid() && id != "" && id !in oidcs
      modifies this`oidcs
      ensures Valid()
      ensures Outcome(Contents(), status) == Step(plans, old(Contents()), OnServices(S.CreatingOidc(id, o)))
    {
      hide Inv, Taken;
      StepKeepsInv(plans, Contents(), OnServices(S.CreatingOidc(id, o)));
      var taken := IsTaken(oidcs, OidcKey, Some(o.name), {});
      if taken {
        return Conflict;
      }
      oidcs := oidcs[id := o];
      status := Done;
    }

    method UpdateOidc(id: string, o: Oidc) returns (status: Status)
      requires Valid()
      modifies this`oidcs, this`services
      ensures Valid()
      ensures Outcome(Contents(), status) == Step(plans, old(Contents()), OnServices(S.UpdatingOidc(id, o)))
    {
      hide Inv, Taken;
      StepKeepsInv(plans, Contents(), OnServices(S.UpdatingOidc(id, o)));
      if id !in oidcs {
        return NotFound;
      }
      var taken := IsTaken(oidcs, OidcKey, Some(o.name), {id});
      if taken {
        return Conflict;
      }
      oidcs := oidcs[id := o];
      services := Rewrite(services, (svc: Service) => S.OidcRenamed(svc, id, o.name));
      assert services == map x | x in old(services) :: S.OidcRenamed(old(services)[x], id, o.name);
      status := Done;
    }

    method DeleteOidc(id: string) returns (status: Status)
      requires Valid()
      modifies this`oidcs
      ensures Valid()
      ensures Outcome(Contents(), status) == Step(plans, old(Contents()), OnServices(S.DeletingOidc(id)))
    {
      hide Inv;
      StepKeepsInv(plans, Contents(), OnServices(S.DeletingOidc(id)));
      if id !in oidcs {
        return NotFound;
      }
      var used := Any(services, (svc: Service) => svc.oidc.Some? && svc.oidc.value.id == id);
      if used {
        return Conflict;
      }
      oidcs := oidcs - {id};
      status := Done;
    }

    // -------------------------------------------------------------- routes

    /** The checks shared by creating and updating a route, in order, and the defaults. */
    method CheckRoute(svc: Service, rt: Route, except: set<string>) returns (status: Status, stored: Route)
      ensures R.Checked(routes, svc, domains, rt, except).status == status
      ensures status == Done ==> R.Checked(routes, svc, domains, rt, except).state == stored
    {
      stored := rt;
      var taken := IsTaken(routes, RouteKey, RouteKey(rt), except);
      if taken {
        return Conflict, rt;
      }
      var known := HostsKnown(domains, svc.routeHost, rt.hosts);
      if !known {
        return BadRequest, rt;
      }
      if svc.storage.Some? {
        if rt.methods == [] {
          stored := stored.(methods := R.STORAGE_METHODS);
        } else {
          var i := 0;
          while i < |rt.methods|
            invariant 0 <= i <= |rt.methods|
            invariant forall k :: 0 <= k < i ==> rt.methods[k] in R.STORAGE_METHODS
          {
            if rt.methods[i] !in R.STORAGE_METHODS {
              return BadRequest, rt;
            }
            i := i + 1;
          }
          assert R.ReadOnly(rt.methods);
        }
      }
      stored := R.WithDefaults(stored);
      status := Done;
    }

    method CreateRoute(id: string, serviceID: string, rt: Route) returns (status: Status)
      requires Valid() && id !in routes && rt.acl.None?
      modifies this`routes
      ensures Valid()
      ensures Outcome(Contents(), status) == Step(plans, old(Contents()), OnRoutes(R.CreatingRoute(id, serviceID, rt)))
    {
      hide Inv, R.Checked;
      StepKeepsInv(plans, Contents(), OnRoutes(R.CreatingRoute(id, serviceID, rt)));
      if serviceID !in services {
        return NotFound;
      }
      var svc := services[serviceID];
      var stored;
      status, stored := CheckRoute(svc, rt.(serviceID := serviceID, host := svc.routeHost), {});
      if status == Done {
        routes := routes[id := stored];
      }
    }

    method UpdateRoute(serviceID: string, id: string, rt: Route) returns (status: Status)
      requires Valid()
      modifies this`routes
      ensures Valid()
      ensures Outcome(Contents(), status) == Step(plans, old(Contents()), OnRoutes(R.UpdatingRoute(serviceID, id, rt)))
    {
      hide Inv, R.Checked;
      StepKeepsInv(plans, Contents(), OnRoutes(R.UpdatingRoute(serviceID, id, rt)));
      if serviceID !in services || id !in routes || routes[id].serviceID != serviceID {
        return NotFound;
      }
      var cur := routes[id];
      var asked := rt.(serviceID := cur.serviceID, host := cur.host, createdAt := cur.createdAt, acl := cur.acl);
      var stored;
      status, stored := CheckRoute(services[serviceID], asked, {id});
      if status == Done {
        routes := routes[id := stored];
      }
    }

    method DeleteRoute(serviceID: string, id: string) returns (status: Status)
      requires Valid()
      modifies this`routes
      ensures Valid()
      ensures Outcome(Contents(), status) == Step(plans, old(Contents()), OnRoutes(R.DeletingRoute(serviceID, id)))
    {
      hide Inv;
      StepKeepsInv(plans, Contents(), OnRoutes(R.DeletingRoute(serviceID, id)));
      if serviceID !in services || id !in routes || routes[id].serviceID != serviceID {
        return NotFound;
      }
      routes := routes - {id};
      status := Done;
    }

    method SetRouteAuthorization(serviceID: string, id: string, acl: Option<Acl>) returns (status: Status)
      requires Valid()
      modifies this`routes
      ensures Valid()
      ensures Outcome(Contents(), status) == Step(plans, old(Contents()), OnRoutes(R.Authorizing(serviceID, id, acl)))
    {
      hide Inv;
      StepKeepsInv(plans, Contents(), OnRoutes(R.Authorizing(serviceID, id, acl)));
      if serviceID !in services || id !in routes || routes[id].serviceID != serviceID {
        return NotFound;
      }
      var stored := acl;
      if acl.Some? {
        var ok, named := NameEntries(acl.value.groups, groups);
        if !ok {
          return NotFound;
        }
        stored := Some(acl.value.(groups := named));
      }
      routes := routes[id := routes[id].(acl := stored)];
      status := Done;
    }

    // -------------------------------------------------------------- consumers and groups

    method CreateUser(id: string, p: Profile) returns (status: Status)
      requires Valid() && id !in users
      modifies this`users
      ensures Valid()
      ensures Outcome(Contents(), status) == Step(plans, old(Contents()), OnAccess(A.CreatingUser(id, p)))
    {
      hide Inv, Taken;
      StepKeepsInv(plans, Contents(), OnAccess(A.CreatingUser(id, p)));
      var taken := IsTaken(users, UserKey, Some(p.name), {});
      if taken {
        return Conflict;
      }
      users := users[id := User(p.name, p.customID, p.tags, p.restriction, [], None)];
      status := Done;
    }

    method UpdateUser(id: string, p: Profile) returns (status: Status)
      requires Valid()
      modifies this`users
      ensures Valid()
      ensures Outcome(Contents(), status) == Step(plans, old(Contents()), OnAccess(A.UpdatingUser(id, p)))
    {
      hide Inv, Taken;
      StepKeepsInv(plans, Contents(), OnAccess(A.UpdatingUser(id, p)));
      if id !in users {
        return NotFound;
      }
      var taken := IsTaken(users, UserKey, Some(p.name), {id});
      if taken {
        return Conflict;
      }
      users := users[id := users[id].(
        name := p.name, customID := p.customID, tags := p.tags, restriction := p.restriction)];
      status := Done;
    }

    method DeleteUser(id: string) returns (status: Status)
      requires Valid()
      modifies this`users
      ensures Valid()
      ensures Outcome(Contents(), status) == Step(plans, old(Contents()), OnAccess(A.DeletingUser(id)))
    {
      hide Inv;
      StepKeepsInv(plans, Contents(), OnAccess(A.DeletingUser(id)));
      if id !in users {
        return NotFound;
      }
      users := users - {id};
      status := Done;
    }

    /** Adds the consumer to a group or takes it out; the group is named by identifier or by name. */
    method AssignUserGroup(userID: string, key: string, member: bool) returns (status: Status)
      requires Valid()
      modifies this`users
      ensures Valid()
      ensures Outcome(Contents(), status) == Step(plans, old(Contents()), OnAccess(A.Assigning(userID, key, member)))
    {
      hide Distinct;
      StepKeepsInv(plans, Contents(), OnAccess(A.Assigning(userID, key, member)));
      if userID !in users {
        return NotFound;
      }
      var group := if key in groups then Some(key) else None;
      if group.None? {
        group := Find(groups, GroupKey, key);
      }
      if group.None? {
        NoAddress(groups, key);
        return NotFound;
      }
      A.AssignIs(A.Directory(users, groups, routes), userID, key, member, group.value);
      MembershipsDistinct(Contents());
      var groupIDs := users[userID].groupIDs;
      hide Inv;
      if member {
        if group.value !in groupIDs {
          groupIDs := groupIDs + [group.value];
        }
      } else {
        groupIDs := RemoveFromOrder(groupIDs, group.value);
      }
      users := users[userID := users[userID].(groupIDs := groupIDs)];
      status := Done;
    }

    method UpsertUserAuthentication(userID: string, auth: Credentials) returns (status: Status)
      requires Valid()
      modifies this`users
      ensures Valid()
      ensures Outcome(Contents(), status) == Step(plans, old(Contents()), OnAccess(A.Upserting(userID, auth)))
    {
      hide Inv, A.CredentialTaken;
      StepKeepsInv(plans, Contents(), OnAccess(A.Upserting(userID, auth)));
      if userID !in users {
        return NotFound;
      }
      var clash := CredentialClash(users, userID, auth);
      if clash {
        return BadRequest;
      }
      var cur := if users[userID].auth.Some? then users[userID].auth.value else Credentials(None, None, None);
      if auth.basic.Some? {
        var b := auth.basic.value;
        cur := cur.(basic := Some(if cur.basic.Some? then b.(id := cur.basic.value.id) else b));
      }
      if auth.jwt.Some? {
        var j := auth.jwt.value;
        cur := cur.(jwt := Some(if cur.jwt.Some? then j.(id := cur.jwt.value.id) else j));
      }
      if auth.hmac.Some? {
        var h := auth.hmac.value;
        cur := cur.(hmac := Some(if cur.hmac.Some? then h.(id := cur.hmac.value.id) else h));
      }
      users := users[userID := users[userID].(auth := Some(cur))];
      status := Done;
    }

    method CreateGroup(id: string, g: Group) returns (status: Status)
      requires Valid() && id !in groups
      modifies this`groups
      ensures Valid()
      ensures Outcome(Contents(), status) == Step(plans, old(Contents()), OnAccess(A.CreatingGroup(id, g)))
    {
      hide Inv, Taken;
      StepKeepsInv(plans, Contents(), OnAccess(A.CreatingGroup(id, g)));
      var taken := IsTaken(groups, GroupKey, Some(g.name), {});
      if taken {
        return Conflict;
      }
      groups := groups[id := g];
      status := Done;
    }

    method UpdateGroup(id: string, name: string) returns (status: Status)
      requires Valid()
      modifies this`groups, this`routes
      ensures Valid()
      ensures Outcome(Contents(), status) == Step(plans, old(Contents()), OnAccess(A.UpdatingGroup(id, name)))
    {
      hide Inv, Taken;
      StepKeepsInv(plans, Contents(), OnAccess(A.UpdatingGroup(id, name)));
      if id !in groups {
        return NotFound;
      }
      var taken := IsTaken(groups, GroupKey, Some(name), {id});
      if taken {
        return Conflict;
      }
      groups := groups[id := groups[id].(name := name)];
      RenameInRoutes(id, name);
      status := Done;
    }

    method RenameInRoutes(id: string, name: string)
      modifies this`routes
      ensures routes == map r | r in old(routes) :: A.RouteRenamed(old(routes)[r], id, name)
    {
      var todo := routes.Keys;
      while todo != {}
        invariant todo <= old(routes).Keys == routes.Keys
        invariant forall r :: r in routes ==>
                    routes[r] == if r in todo then old(routes)[r] else A.RouteRenamed(old(routes)[r], id, name)
        decreases |todo|
      {
        var r :| r in todo;
        todo := todo - {r};
        if routes[r].acl.Some? {
          var entries := RenameEntries(routes[r].acl.value.groups, id, name);
          routes := routes[r := routes[r].(acl := Some(routes[r].acl.value.(groups := entries)))];
        }
      }
    }

    /** The cascade removes one entry per consumer and stops: memberships hold no duplicates. */
    method DeleteGroup(id: string) returns (status: Status)
      requires Valid()
      modifies this`groups, this`users, this`routes
      ensures Valid()
      ensures Outcome(Contents(), status) == Step(plans, old(Contents()), OnAccess(A.DeletingGroup(id)))
    {
      hide Inv, Distinct;
      StepKeepsInv(plans, Contents(), OnAccess(A.DeletingGroup(id)));
      MembershipsDistinct(Contents());
      if id !in groups {
        return NotFound;
      }
      groups := groups - {id};
      DropFromUsers(id);
      DropFromRoutes(id);
      status := Done;
    }

    method DropFromUsers(id: string)
      requires forall u :: u in users ==> Distinct(users[u].groupIDs)
      modifies this`users
      ensures users == map u | u in old(users) :: A.UserWithout(old(users)[u], id)
    {
      hide Distinct;
      var todo := users.Keys;
      while todo != {}
        invariant todo <= old(users).Keys == users.Keys
        invariant forall u :: u in users ==>
                    users[u] == if u in todo then old(users)[u] else A.UserWithout(old(users)[u], id)
        decreases |todo|
      {
        var u :| u in todo;
        todo := todo - {u};
        var groupIDs := RemoveFromOrder(users[u].groupIDs, id);
        users := users[u := users[u].(groupIDs := groupIDs)];
      }
    }

    method DropFromRoutes(id: string)
      modifies this`routes
      ensures routes == map r | r in old(routes) :: A.RouteWithout(old(routes)[r], id)
    {
      var todo := routes.Keys;
      while todo != {}
        invariant todo <= old(routes).Keys == routes.Keys
        invariant forall r :: r in routes ==>
                    routes[r] == if r in todo then old(routes)[r] else A.RouteWithout(old(routes)[r], id)
        decreases |todo|
      {
        var r :| r in todo;
        todo := todo - {r};
        if routes[r].acl.Some? {
          var entries := DropEntries(routes[r].acl.value.groups, id);
          routes := routes[r := routes[r].(acl := Some(routes[r].acl.value.(groups := entries)))];
        }
      }
    }

    /** The consumer a credential identifies: the same one, whatever order the map is walked in. */
    method UserByBasicUserName(name: string) returns (found: Option<string>)
      requires Valid()
      ensures found.Some? ==> found.value in users && BasicKey(users[found.value]) == Some(name)
      ensures forall u :: u in users && BasicKey(users[u]) == Some(name) ==> found == Some(u)
    {
      found := Find(users, BasicKey, name);
      FoundIsOnly(users, BasicKey, name, found);
    }

    method UserByHmacUserName(name: string) returns (found: Option<string>)
      requires Valid()
      ensures found.Some? ==> found.value in users && HmacKey(users[found.value]) == Some(name)
      ensures forall u :: u in users && HmacKey(users[u]) == Some(name) ==> found == Some(u)
    {
      found := Find(users, HmacKey, name);
      FoundIsOnly(users, HmacKey, name, found);
    }

    method UserByJwtKey(key: string) returns (found: Option<string>)
      requires Valid()
      ensures found.Some? ==> found.value in users && JwtKey(users[found.value]) == Some(key)
      ensures forall u :: u in users && JwtKey(users[u]) == Some(key) ==> found == Some(u)
    {
      found := Find(users, JwtKey, key);
      FoundIsOnly(users, JwtKey, key, found);
    }

    /** A consumer's groups: none of its memberships is skipped for want of a group. */
    method UserGroups(id: string) returns (gs: seq<Group>)
      requires Valid() && id in users
      ensures |gs| == |users[id].groupIDs|
      ensures forall i :: 0 <= i < |gs| ==> users[id].groupIDs[i] in groups && gs[i] == groups[users[id].groupIDs[i]]
    {
      var ids := users[id].groupIDs;
      assert forall g :: g in ids ==> g in groups;
      hide Inv;
      gs := [];
      var i := 0;
      while i < |ids|
        invariant 0 <= i <= |ids| && |gs| == i
        invariant forall k :: 0 <= k < i ==> ids[k] in groups && gs[k] == groups[ids[k]]
      {
        assert ids[i] in ids;
        if ids[i] in groups {
          gs := gs + [groups[ids[i]]];
        }
        i := i + 1;
      }
    }

    // -------------------------------------------------------------- domains and certificates

    method ResolveCertificate(d: Domain) returns (status: Status, resolved: Domain)
      ensures D.ResolveCertificate(certificates, d) == Outcome(resolved, status)
    {
      if d.certificateID == "" {
        return Done, d.(certificateName := "");
      }
      if d.certificateID !in certificates {
        return NotFound, d;
      }
      status, resolved := Done, d.(certificateName := certificates[d.certificateID].name);
    }

    method CreateDomain(id: string, d: Domain) returns (status: Status)
      requires Valid() && id !in domains
      modifies this`domains
      ensures Valid()
      ensures Outcome(Contents(), status) == Step(plans, old(Contents()), OnDomains(D.CreatingDomain(id, d)))
    {
      hide Inv, Taken;
      StepKeepsInv(plans, Contents(), OnDomains(D.CreatingDomain(id, d)));
      var taken := IsTaken(domains, DomainKey, Some(d.domainName), {});
      if taken {
        return Conflict;
      }
      var resolved;
      status, resolved := ResolveCertificate(d);
      if status == Done {
        domains := domains[id := resolved];
      }
    }

    /** Writes the identifier, then checks it. */
    method UpdateDomain(id: string, certificateID: string) returns (status: Status)
      requires Valid()
      modifies this`domains
      ensures Valid()
      ensures Outcome(Contents(), status) == Step(plans, old(Contents()), OnDomains(D.UpdatingDomain(id, certificateID)))
    {
      hide Inv;
      StepKeepsInv(plans, Contents(), OnDomains(D.UpdatingDomain(id, certificateID)));
      if id !in domains {
        return NotFound;
      }
      domains := domains[id := domains[id].(certificateID := certificateID)];
      var resolved;
      status, resolved := ResolveCertificate(domains[id]);
      domains := domains[id := resolved];
      assert domains == old(domains)[id := resolved];
    }

    method DeleteDomain(id: string) returns (status: Status)
      requires Valid()
      modifies this`domains
      ensures Valid()
      ensures Outcome(Contents(), status) == Step(plans, old(Contents()), OnDomains(D.DeletingDomain(id)))
    {
      hide Inv;
      StepKeepsInv(plans, Contents(), OnDomains(D.DeletingDomain(id)));
      if id !in domains {
        return NotFound;
      }
      var host := domains[id].domainName;
      var used := Any(routes, (rt: Route) => host in rt.hosts);
      if used {
        return BadRequest;
      }
      domains := domains - {id};
      status := Done;
    }

    method CreateCertificate(id: string, c: Certificate) returns (status: Status)
      requires Valid() && id != "" && id !in certificates
      modifies this`certificates
      ensures Valid()
      ensures Outcome(Contents(), status) == Step(plans, old(Contents()), OnDomains(D.CreatingCertificate(id, c)))
    {
      hide Inv, Taken;
      StepKeepsInv(plans, Contents(), OnDomains(D.CreatingCertificate(id, c)));
      var taken := IsTaken(certificates, CertificateKey, Some(c.name), {});
      if taken {
        return Conflict;
      }
      certificates := certificates[id := c];
      status := Done;
    }

    method UpdateCertificate(id: string, c: Certificate) returns (status: Status)
      requires Valid()
      modifies this`certificates, this`domains
      ensures Valid()
      ensures Outcome(Contents(), status) == Step(plans, old(Contents()), OnDomains(D.UpdatingCertificate(id, c)))
    {
      hide Inv, Taken, D.DomainRenamed;
      StepKeepsInv(plans, Contents(), OnDomains(D.UpdatingCertificate(id, c)));
      if id !in certificates {
        return NotFound;
      }
      var taken := IsTaken(certificates, CertificateKey, Some(c.name), {id});
      if taken {
        return Conflict;
      }
      var cur := certificates[id].(name := c.name);
      if c.rsa.Some? {
        cur := cur.(rsa := c.rsa);
      }
      if c.ecdsa.Some? {
        cur := cur.(ecdsa := c.ecdsa);
      }
      certificates := certificates[id := cur];
      domains := Rewrite(domains, (d: Domain) => D.DomainRenamed(d, id, c.name));
      assert domains == map d | d in old(domains) :: D.DomainRenamed(old(domains)[d], id, c.name);
      status := Done;
    }

    method DeleteCertificate(id: string) returns (status: Status)
      requires Valid()
      modifies this`certificates
      ensures Valid()
      ensures Outcome(Contents(), status) == Step(plans, old(Contents()), OnDomains(D.DeletingCertificate(id)))
    {
      hide Inv;
      StepKeepsInv(plans, Contents(), OnDomains(D.DeletingCertificate(id)));
      if id !in certificates {
        return NotFound;
      }
      var used := Any(domains, (d: Domain) => d.certificateID == id);
      if used {
        return BadRequest;
      }
      certificates := certificates - {id};
      status := Done;
    }
  }

  lemma MembershipsDistinct(s: State)
    requires Inv(s)
    ensures forall u :: u in s.users ==> Distinct(s.users[u].groupIDs)
  {
  }

  lemma NoAddress(groups: map<string, Group>, key: string)
    requires key !in groups && !Taken(groups, GroupKey, Some(key), {})
    ensures !exists g :: A.Addresses(groups, key, g)
  {
    forall g | g in groups ensures groups[g].name != key {
      assert g !in {} && (groups[g].name == key ==> GroupKey(groups[g]) == Some(key));
    }
  }

  lemma FoundIsOnly(users: map<string, User>, keyOf: User -> Option<string>, key: string, found: Option<string>)
    requires Unique(users, keyOf)
    requires found.None? <==> !Taken(users, keyOf, Some(key), {})
    requires found.Some? ==> found.value in users && keyOf(users[found.value]) == Some(key)
    ensures forall u :: u in users && keyOf(users[u]) == Some(key) ==> found == Some(u)
  {
    forall u | u in users && keyOf(users[u]) == Some(key) ensures found == Some(u) {
      assert u !in {};
    }
  }
}

/**
 What each call of the control plane leaves behind, told on the maps: when it is
 done, what its entry then says, and that nothing else changes.
 */
module GatewayLaws {
  import opened Prelude
  import opened KeyedMaps
  import opened GatewayState
  import opened GatewayRuns
  import S = GatewayServices
  import R = GatewayRoutes
  import A = GatewayAccess
  import D = GatewayDomains
  import L = OrderLists

  /** No entry but that of `id` has the name. */
  ghost predicate NameFree<V(!new)>(m: map<string, V>, nameOf: V -> string, name: string, id: string) {
    forall k :: k in m && k != id ==> nameOf(m[k]) != name
  }

  // ---------------------------------------------------------------- services

  predicate Unreferenced(svc: Service) {
    svc.oidc.None? || svc.oidc.value.id == ""
  }

  /** A reference is live, and authentication by OIDC has one. */
  predicate ReferenceOk(s: State, svc: Service) {
    if Unreferenced(svc) then svc.authentication != "oidc" else svc.oidc.value.id in s.bindings.oidcs
  }

  /** What is given is stored; what is not is filled in. */
  ghost predicate StoredAs(s: State, v: Service, svc: Service) {
    && v.name == svc.name && v.protocol == svc.protocol
    && (svc.path != "" ==> v.path == svc.path) && (svc.path == "" ==> v.path == "/")
    && (svc.port != 0 ==> v.port == svc.port)
    && (svc.port == 0 && svc.protocol == "https" ==> v.port == 443)
    && (svc.port == 0 && svc.protocol != "https" ==> v.port == 80)
    && (svc.retries.Some? ==> v.retries == svc.retries) && (svc.retries.None? ==> v.retries == Some(5))
    && GivenOr(v.connectTimeout, svc.connectTimeout) && GivenOr(v.writeTimeout, svc.writeTimeout)
    && GivenOr(v.readTimeout, svc.readTimeout)
    && (svc.authentication != "" ==> v.authentication == svc.authentication)
    && (svc.authentication == "" ==> v.authentication == "none")
    && (Unreferenced(svc) ==> v.oidc.None?)
    && (!Unreferenced(svc) ==>
          svc.oidc.value.id in s.bindings.oidcs
          && v.oidc == Some(OidcRef(svc.oidc.value.id, s.bindings.oidcs[svc.oidc.value.id].name)))
    && (svc.storage.None? ==> v.storage.None?)
    && (svc.storage.Some? ==>
          && v.storage.Some? && v.storage.value.bucket == svc.storage.value.bucket
          && (svc.storage.value.useDocumentIndex.Some? ==>
                v.storage.value.useDocumentIndex == svc.storage.value.useDocumentIndex)
          && (svc.storage.value.useDocumentIndex.None? ==> v.storage.value.useDocumentIndex == Some(true)))
  }

  predicate GivenOr(stored: int, given: int) {
    stored == if given == 0 then 60000 else given
  }

  lemma ServiceCreated(plans: seq<string>, s: State, id: string, svc: Service, u: string)
    requires Fresh(s, OnServices(S.CreatingService(id, svc, u)))
    ensures var o := Step(plans, s, OnServices(S.CreatingService(id, svc, u)));
            var b, b' := s.bindings, o.state.bindings;
            && (o.status == Done <==>
                  && u in b.subscriptions && b.subscriptions[u].boundServiceID == ""
                  && NameFree(b.services, (v: Service) => v.name, svc.name, id) && ReferenceOk(s, svc))
            && (o.status == Done ==>
                  && id in b'.services && StoredAs(s, b'.services[id], svc)
                  && b'.services[id].subscriptionID == u && b'.services[id].routeHost == S.RouteHostOf(id)
                  && u in b'.subscriptions && b'.subscriptions[u].boundServiceID == id
                  && b'.subscriptions[u].service == Some(Summary(id, svc.name))
                  && b'.subscriptions[u].name == b.subscriptions[u].name
                  && b'.subscriptions[u].planID == b.subscriptions[u].planID
                  && OthersSame(b.services, b'.services, id) && OthersSame(b.subscriptions, b'.subscriptions, u)
                  && b'.oidcs == b.oidcs && o.state == s.(bindings := b'))
  {
    hide S.Digits;
  }

  lemma ServiceUpdated(plans: seq<string>, s: State, id: string, svc: Service)
    ensures var o := Step(plans, s, OnServices(S.UpdatingService(id, svc)));
            var b, b' := s.bindings, o.state.bindings;
            && (o.status == Done <==>
                  && id in b.services && NameFree(b.services, (v: Service) => v.name, svc.name, id) && ReferenceOk(s, svc))
            && (o.status == Done ==>
                  && id in b'.services && StoredAs(s, b'.services[id], svc)
                  && b'.services[id].subscriptionID == b.services[id].subscriptionID
                  && b'.services[id].routeHost == b.services[id].routeHost
                  && OthersSame(b.services, b'.services, id)
                  && b'.subscriptions.Keys == b.subscriptions.Keys
                  && (forall u :: u in b.subscriptions ==>
                        && b'.subscriptions[u] == b.subscriptions[u].(service := b'.subscriptions[u].service)
                        && b'.subscriptions[u].service ==
                           if u == b.services[id].subscriptionID && b.subscriptions[u].service.Some?
                           then Some(Summary(b.subscriptions[u].service.value.id, svc.name)) else b.subscriptions[u].service)
                  && b'.oidcs == b.oidcs && o.state == s.(bindings := b'))
  {
    ServiceUpdatable(s, id, svc);
    if id in s.bindings.services && S.UpdateService(s.bindings, id, svc).status == Done {
      WithDefaultsStores(s, svc, s.bindings.services[id]);
    }
    hide Taken, NameFree, S.WithDefaults, StoredAs, ReferenceOk, S.ResolveOidc;
  }

  lemma ServiceUpdatable(s: State, id: string, svc: Service)
    ensures S.UpdateService(s.bindings, id, svc).status == Done <==>
            id in s.bindings.services && NameFree(s.bindings.services, (v: Service) => v.name, svc.name, id) && ReferenceOk(s, svc)
  {
    hide S.WithDefaults;
  }

  lemma WithDefaultsStores(s: State, svc: Service, cur: Service)
    requires S.ResolveOidc(s.bindings.oidcs, svc).status == Done
    ensures var v := S.WithDefaults(S.ResolveOidc(s.bindings.oidcs, svc).state.(
                       routeHost := cur.routeHost, subscriptionID := cur.subscriptionID));
            StoredAs(s, v, svc) && v.routeHost == cur.routeHost && v.subscriptionID == cur.subscriptionID
  {
  }

  lemma ServiceDeleted(plans: seq<string>, s: State, id: string)
    requires Inv(s)
    ensures var o := Step(plans, s, OnServices(S.DeletingService(id)));
            var b, b' := s.bindings, o.state.bindings;
            && (o.status == Done <==> id in b.services && forall r :: r in s.routes ==> s.routes[r].serviceID != id)
            && (o.status == Done ==>
                  && id !in b'.services && b'.services == b.services - {id}
                  && var u := b.services[id].subscriptionID;
                     && u in b'.subscriptions && b'.subscriptions[u].boundServiceID == "" && b'.subscriptions[u].service == None
                     && b'.subscriptions[u].name == b.subscriptions[u].name
                     && b'.subscriptions[u].planID == b.subscriptions[u].planID
                     && OthersSame(b.subscriptions, b'.subscriptions, u)
                     && b'.oidcs == b.oidcs && o.state == s.(bindings := b'))
  {
    hide R.Inv, A.DirectoryInv, D.NamesInv;
  }

  lemma SubscriptionCreated(plans: seq<string>, s: State, id: string, planID: string, name: string)
    requires Fresh(s, OnServices(S.CreatingSubscription(id, planID, name)))
    ensures var o := Step(plans, s, OnServices(S.CreatingSubscription(id, planID, name)));
            var b, b' := s.bindings, o.state.bindings;
            && (o.status == Done <==>
                  planID in plans && |b.subscriptions| < 10 && NameFree(b.subscriptions, (v: Subscription) => v.name, name, id))
            && (o.status == Done ==>
                  && id in b'.subscriptions && b'.subscriptions[id] == Subscription(name, planID, "", None)
                  && OthersSame(b.subscriptions, b'.subscriptions, id)
                  && o.state == s.(bindings := b.(subscriptions := b'.subscriptions)))
  {
  }

  lemma SubscriptionUpdated(plans: seq<string>, s: State, id: string, name: string)
    ensures var o := Step(plans, s, OnServices(S.UpdatingSubscription(id, name)));
            var b, b' := s.bindings, o.state.bindings;
            && (o.status == Done <==>
                  id in b.subscriptions && NameFree(b.subscriptions, (v: Subscription) => v.name, name, id))
            && (o.status == Done ==>
                  && id in b'.subscriptions && b'.subscriptions[id].name == name
                  && b'.subscriptions[id].planID == b.subscriptions[id].planID
                  && b'.subscriptions[id].boundServiceID == b.subscriptions[id].boundServiceID
                  && b'.subscriptions[id].service == b.subscriptions[id].service
                  && OthersSame(b.subscriptions, b'.subscriptions, id)
                  && o.state == s.(bindings := b.(subscriptions := b'.subscriptions)))
  {
  }

  lemma SubscriptionDeleted(plans: seq<string>, s: State, id: string)
    ensures var o := Step(plans, s, OnServices(S.DeletingSubscription(id)));
            var b, b' := s.bindings, o.state.bindings;
            && (o.status == Done <==> id in b.subscriptions && b.subscriptions[id].boundServiceID == "")
            && (o.status == Done ==>
                  && id !in b'.subscriptions && OthersSame(b.subscriptions, b'.subscriptions, id)
                  && o.state == s.(bindings := b.(subscriptions := b'.subscriptions)))
  {
  }

  lemma OidcCreated(plans: seq<string>, s: State, id: string, c: Oidc)
    requires Fresh(s, OnServices(S.CreatingOidc(id, c)))
    ensures var o := Step(plans, s, OnServices(S.CreatingOidc(id, c)));
            var b, b' := s.bindings, o.state.bindings;
            && (o.status == Done <==> NameFree(b.oidcs, (v: Oidc) => v.name, c.name, id))
            && (o.status == Done ==>
                  && id in b'.oidcs && b'.oidcs[id] == c && OthersSame(b.oidcs, b'.oidcs, id)
                  && o.state == s.(bindings := b.(oidcs := b'.oidcs)))
  {
  }

  /** Every service that refers to it shows the new name, and is otherwise as before. */
  lemma OidcUpdated(plans: seq<string>, s: State, id: string, c: Oidc)
    ensures var o := Step(plans, s, OnServices(S.UpdatingOidc(id, c)));
            var b, b' := s.bindings, o.state.bindings;
            && (o.status == Done <==> id in b.oidcs && NameFree(b.oidcs, (v: Oidc) => v.name, c.name, id))
            && (o.status == Done ==>
                  && id in b'.oidcs && b'.oidcs[id] == c && OthersSame(b.oidcs, b'.oidcs, id)
                  && b'.services.Keys == b.services.Keys
                  && (forall x :: x in b.services ==>
                        && b'.services[x] == b.services[x].(oidc := b'.services[x].oidc)
                        && b'.services[x].oidc ==
                           if b.services[x].oidc.Some? && b.services[x].oidc.value.id == id then Some(OidcRef(id, c.name))
                           else b.services[x].oidc)
                  && b'.subscriptions == b.subscriptions && o.state == s.(bindings := b'))
  {
  }

  lemma OidcDeleted(plans: seq<string>, s: State, id: string)
    ensures var o := Step(plans, s, OnServices(S.DeletingOidc(id)));
            var b, b' := s.bindings, o.state.bindings;
            && (o.status == Done <==>
                  id in b.oidcs && forall x :: x in b.services && b.services[x].oidc.Some? ==> b.services[x].oidc.value.id != id)
            && (o.status == Done ==>
                  && id !in b'.oidcs && OthersSame(b.oidcs, b'.oidcs, id)
                  && o.state == s.(bindings := b.(oidcs := b'.oidcs)))
  {
  }

  // ---------------------------------------------------------------- routes

  /** The name is free in the service, every host is the service's or a registered domain, and a storage-backed service's methods read. */
  ghost predicate RouteOk(s: State, serviceID: string, id: string, rt: Route)
    requires serviceID in s.bindings.services
  {
    var svc := s.bindings.services[serviceID];
    && (forall r :: r in s.routes && r != id && s.routes[r].serviceID == serviceID ==> s.routes[r].name != rt.name)
    && (forall h :: h in rt.hosts ==>
          h == svc.routeHost || exists d :: d in s.names.domains && s.names.domains[d].domainName == h)
    && (svc.storage.Some? ==> forall m :: m in rt.methods ==> m in ["GET", "HEAD", "OPTIONS"])
  }

  ghost predicate RouteStoredAs(svc: Service, v: Route, rt: Route) {
    && v.name == rt.name && v.path == rt.path && v.hosts == rt.hosts && v.regexPriority == rt.regexPriority
    && (rt.methods != [] ==> v.methods == rt.methods)
    && (rt.methods == [] && svc.storage.Some? ==> v.methods == ["GET", "HEAD", "OPTIONS"])
    && (rt.methods == [] && svc.storage.None? ==>
          v.methods == ["GET", "POST", "PUT", "DELETE", "PATCH", "OPTIONS", "HEAD", "CONNECT", "TRACE"])
    && (rt.redirectStatus != 0 ==> v.redirectStatus == rt.redirectStatus)
    && (rt.redirectStatus == 0 ==> v.redirectStatus == 426)
    && (rt.stripPath.Some? ==> v.stripPath == rt.stripPath) && (rt.stripPath.None? ==> v.stripPath == Some(true))
  }

  lemma RouteCreated(plans: seq<string>, s: State, id: string, serviceID: string, rt: Route)
    requires Fresh(s, OnRoutes(R.CreatingRoute(id, serviceID, rt)))
    ensures var o := Step(plans, s, OnRoutes(R.CreatingRoute(id, serviceID, rt)));
            && (o.status == Done <==> serviceID in s.bindings.services && RouteOk(s, serviceID, id, rt))
            && (o.status == Done ==>
                  && id in o.state.routes && RouteStoredAs(s.bindings.services[serviceID], o.state.routes[id], rt)
                  && o.state.routes[id].serviceID == serviceID
                  && o.state.routes[id].host == s.bindings.services[serviceID].routeHost
                  && o.state.routes[id].createdAt == rt.createdAt && o.state.routes[id].acl == None
                  && OthersSame(s.routes, o.state.routes, id) && o.state == s.(routes := o.state.routes))
  {
  }

  lemma RouteUpdated(plans: seq<string>, s: State, serviceID: string, id: string, rt: Route)
    requires Inv(s)
    ensures var o := Step(plans, s, OnRoutes(R.UpdatingRoute(serviceID, id, rt)));
            && (o.status == Done <==>
                  && serviceID in s.bindings.services && id in s.routes && s.routes[id].serviceID == serviceID
                  && RouteOk(s, serviceID, id, rt))
            && (o.status == Done ==>
                  && id in o.state.routes && RouteStoredAs(s.bindings.services[serviceID], o.state.routes[id], rt)
                  && o.state.routes[id].serviceID == serviceID && o.state.routes[id].host == s.routes[id].host
                  && o.state.routes[id].createdAt == s.routes[id].createdAt && o.state.routes[id].acl == s.routes[id].acl
                  && OthersSame(s.routes, o.state.routes, id) && o.state == s.(routes := o.state.routes))
  {
    hide Inv;
    if id in s.routes {
      RouteHasHost(s, id);
    }
  }

  lemma RouteHasHost(s: State, id: string)
    requires Inv(s) && id in s.routes
    ensures s.routes[id].serviceID in s.bindings.services
    ensures s.routes[id].host == s.bindings.services[s.routes[id].serviceID].routeHost
  {
    hide S.Inv, A.DirectoryInv, D.NamesInv, R.AclLive, R.AllEffective, R.HostsKnown, Unique;
  }

  lemma RouteDeleted(plans: seq<string>, s: State, serviceID: string, id: string)
    ensures var o := Step(plans, s, OnRoutes(R.DeletingRoute(serviceID, id)));
            && (o.status == Done <==> serviceID in s.bindings.services && id in s.routes && s.routes[id].serviceID == serviceID)
            && (o.status == Done ==>
                  id !in o.state.routes && OthersSame(s.routes, o.state.routes, id) && o.state == s.(routes := o.state.routes))
  {
  }

  /** The allow-list given is stored, every entry under its group's current name. */
  lemma RouteAuthorized(plans: seq<string>, s: State, serviceID: string, id: string, acl: Option<Acl>)
    ensures var o := Step(plans, s, OnRoutes(R.Authorizing(serviceID, id, acl)));
            && (o.status == Done <==>
                  && serviceID in s.bindings.services && id in s.routes && s.routes[id].serviceID == serviceID
                  && (acl.Some? ==> forall e :: e in acl.value.groups ==> e.id in s.groups))
            && (o.status == Done ==>
                  && id in o.state.routes && o.state.routes[id] == s.routes[id].(acl := o.state.routes[id].acl)
                  && (acl.None? ==> o.state.routes[id].acl == None)
                  && (acl.Some? ==>
                        && o.state.routes[id].acl.Some?
                        && var stored := o.state.routes[id].acl.value;
                           && stored.isEnabled == acl.value.isEnabled && |stored.groups| == |acl.value.groups|
                           && forall i :: 0 <= i < |stored.groups| ==>
                                var e := acl.value.groups[i];
                                e.id in s.groups && stored.groups[i] == AclEntry(e.id, s.groups[e.id].name, e.enabled))
                  && OthersSame(s.routes, o.state.routes, id) && o.state == s.(routes := o.state.routes))
  {
  }

  // ---------------------------------------------------------------- consumers and groups

  lemma UserCreated(plans: seq<string>, s: State, id: string, p: Profile)
    requires Fresh(s, OnAccess(A.CreatingUser(id, p)))
    ensures var o := Step(plans, s, OnAccess(A.CreatingUser(id, p)));
            && (o.status == Done <==> NameFree(s.users, (v: User) => v.name, p.name, id))
            && (o.status == Done ==>
                  && id in o.state.users
                  && o.state.users[id] == User(p.name, p.customID, p.tags, p.restriction, [], None)
                  && OthersSame(s.users, o.state.users, id) && o.state == s.(users := o.state.users))
  {
  }

  lemma UserUpdated(plans: seq<string>, s: State, id: string, p: Profile)
    ensures var o := Step(plans, s, OnAccess(A.UpdatingUser(id, p)));
            && (o.status == Done <==> id in s.users && NameFree(s.users, (v: User) => v.name, p.name, id))
            && (o.status == Done ==>
                  && id in o.state.users
                  && o.state.users[id] ==
                     User(p.name, p.customID, p.tags, p.restriction, s.users[id].groupIDs, s.users[id].auth)
                  && OthersSame(s.users, o.state.users, id) && o.state == s.(users := o.state.users))
  {
  }

  lemma UserDeleted(plans: seq<string>, s: State, id: string)
    ensures var o := Step(plans, s, OnAccess(A.DeletingUser(id)));
            && (o.status == Done <==> id in s.users)
            && (o.status == Done ==>
                  id !in o.state.users && OthersSame(s.users, o.state.users, id) && o.state == s.(users := o.state.users))
  {
  }

  /** A new membership comes last; a membership taken away leaves the others in order. */
  lemma GroupAssigned(plans: seq<string>, s: State, userID: string, key: string, member: bool, g: string)
    requires Inv(s) && g in s.groups && (g == key || (key !in s.groups && s.groups[g].name == key))
    ensures var o := Step(plans, s, OnAccess(A.Assigning(userID, key, member)));
            && (o.status == Done <==> userID in s.users)
            && (o.status == Done ==>
                  && userID in o.state.users
                  && o.state.users[userID] == s.users[userID].(groupIDs := o.state.users[userID].groupIDs)
                  && var was, now := s.users[userID].groupIDs, o.state.users[userID].groupIDs;
                     && (member ==> now == if g in was then was else was + [g])
                     && (!member ==> g !in now && now == Without(was, g))
                     && OthersSame(s.users, o.state.users, userID) && o.state == s.(users := o.state.users))
  {
    hide Inv, A.AssignUserGroup, Without, IndexOf;
    if userID in s.users {
      AssignmentIs(s, userID, key, member, g);
    } else {
      NoUserNoAssignment(s, userID, key, member);
    }
  }

  lemma NoUserNoAssignment(s: State, userID: string, key: string, member: bool)
    requires userID !in s.users
    ensures A.AssignUserGroup(A.Directory(s.users, s.groups, s.routes), userID, key, member).status == NotFound
  {
  }

  lemma AssignmentIs(s: State, userID: string, key: string, member: bool, g: string)
    requires Inv(s) && g in s.groups && (g == key || (key !in s.groups && s.groups[g].name == key)) && userID in s.users
    ensures var was := s.users[userID].groupIDs;
            var now := if !member then Without(was, g) else if g in was then was else was + [g];
            && A.AssignUserGroup(A.Directory(s.users, s.groups, s.routes), userID, key, member) ==
               Outcome(A.Directory(s.users[userID := s.users[userID].(groupIDs := now)], s.groups, s.routes), Done)
            && (!member ==> g !in now)
  {
    assert A.Addresses(s.groups, key, g);
    A.AssignIs(A.Directory(s.users, s.groups, s.routes), userID, key, member, g);
    assert L.Distinct(s.users[userID].groupIDs) by {
      hide S.Inv, R.Inv, D.NamesInv, A.CredentialsUnique, Unique;
    }
    hide Inv, Without, L.Kept, L.Distinct;
    L.KeptIsWithout(s.users[userID].groupIDs, g);
  }

  /** Without a group of that identifier or name the call is refused. */
  lemma NoGroupNoAssignment(plans: seq<string>, s: State, userID: string, key: string, member: bool)
    requires key !in s.groups && forall g :: g in s.groups ==> s.groups[g].name != key
    ensures var o := Step(plans, s, OnAccess(A.Assigning(userID, key, member)));
            o.status == NotFound && o.state == s
  {
  }

  /** A given kind is stored as given, under the identifier its predecessor had; a kind not given stays. */
  lemma CredentialsUpserted(plans: seq<string>, s: State, userID: string, auth: Credentials)
    ensures var o := Step(plans, s, OnAccess(A.Upserting(userID, auth)));
            && (o.status == Done <==>
                  && userID in s.users
                  && (forall u :: u in s.users && u != userID && s.users[u].auth.Some? ==>
                        var other := s.users[u].auth.value;
                        && (auth.basic.Some? && other.basic.Some? ==> other.basic.value.userName != auth.basic.value.userName)
                        && (auth.jwt.Some? && other.jwt.Some? ==> other.jwt.value.key != auth.jwt.value.key)
                        && (auth.hmac.Some? && other.hmac.Some? ==> other.hmac.value.userName != auth.hmac.value.userName)))
            && (o.status == Done ==>
                  && userID in o.state.users && o.state.users[userID].auth.Some?
                  && o.state.users[userID] == s.users[userID].(auth := o.state.users[userID].auth)
                  && var now := o.state.users[userID].auth.value;
                     var was := if s.users[userID].auth.Some? then s.users[userID].auth.value else Credentials(None, None, None);
                     && (auth.basic.None? ==> now.basic == was.basic)
                     && (auth.basic.Some? ==>
                           now.basic ==
                           Some(auth.basic.value.(id := if was.basic.Some? then was.basic.value.id else auth.basic.value.id)))
                     && (auth.jwt.None? ==> now.jwt == was.jwt)
                     && (auth.jwt.Some? ==>
                           now.jwt ==
                           Some(auth.jwt.value.(id := if was.jwt.Some? then was.jwt.value.id else auth.jwt.value.id)))
                     && (auth.hmac.None? ==> now.hmac == was.hmac)
                     && (auth.hmac.Some? ==>
                           now.hmac ==
                           Some(auth.hmac.value.(id := if was.hmac.Some? then was.hmac.value.id else auth.hmac.value.id)))
                     && OthersSame(s.users, o.state.users, userID) && o.state == s.(users := o.state.users))
  {
  }

  lemma GroupCreated(plans: seq<string>, s: State, id: string, g: Group)
    requires Fresh(s, OnAccess(A.CreatingGroup(id, g)))
    ensures var o := Step(plans, s, OnAccess(A.CreatingGroup(id, g)));
            && (o.status == Done <==> NameFree(s.groups, (v: Group) => v.name, g.name, id))
            && (o.status == Done ==>
                  && id in o.state.groups && o.state.groups[id] == g
                  && OthersSame(s.groups, o.state.groups, id) && o.state == s.(groups := o.state.groups))
  {
  }

  /** Routes that differ in their allow-lists' entries alone. */
  ghost predicate AclsChanged(s: State, s': State, related: (seq<AclEntry>, seq<AclEntry>) -> bool) {
    && s'.routes.Keys == s.routes.Keys
    && forall r :: r in s.routes ==>
         && s'.routes[r] == s.routes[r].(acl := s'.routes[r].acl)
         && (s.routes[r].acl.None? ==> s'.routes[r].acl.None?)
         && (s.routes[r].acl.Some? ==>
               && s'.routes[r].acl.Some? && s'.routes[r].acl.value.isEnabled == s.routes[r].acl.value.isEnabled
               && related(s.routes[r].acl.value.groups, s'.routes[r].acl.value.groups))
  }

  /** The same entries, those of the group under the name. */
  predicate Relabelled(was: seq<AclEntry>, now: seq<AclEntry>, id: string, name: string) {
    && |now| == |was|
    && forall i :: 0 <= i < |was| ==>
         now[i].id == was[i].id && now[i].enabled == was[i].enabled && now[i].name == if was[i].id == id then name else was[i].name
  }

  /** The entries of all other groups, in their order: `at` says where each stood. */
  ghost predicate Thinned(was: seq<AclEntry>, now: seq<AclEntry>, id: string) {
    exists at: seq<nat> :: ThinnedAt(was, now, id, at)
  }

  ghost predicate ThinnedAt(was: seq<AclEntry>, now: seq<AclEntry>, id: string, at: seq<nat>) {
    && |at| == |now|
    && (forall i :: 0 <= i < |at| ==> at[i] < |was| && now[i] == was[at[i]] && now[i].id != id)
    && (forall i, j :: 0 <= i < j < |at| ==> at[i] < at[j])
    && forall k :: 0 <= k < |was| && was[k].id != id ==> k in at
  }

  lemma {:induction false} WithoutLast(was: seq<AclEntry>, e: AclEntry, id: string)
    ensures A.EntriesWithout(was + [e], id) == A.EntriesWithout(was, id) + if e.id == id then [] else [e]
  {
    if was == [] {
      assert was + [e] == [e];
    } else {
      assert (was + [e])[1..] == was[1..] + [e];
      WithoutLast(was[1..], e, id);
    }
  }

  lemma ThinnedMore(was: seq<AclEntry>, now: seq<AclEntry>, id: string, at: seq<nat>, e: AclEntry)
    requires ThinnedAt(was, now, id, at)
    ensures e.id == id ==> ThinnedAt(was + [e], now, id, at)
    ensures e.id != id ==> ThinnedAt(was + [e], now + [e], id, at + [|was|])
  {
    if e.id != id {
      assert (at + [|was|])[|at|] == |was|;
      assert forall k :: k in at ==> k in at + [|was|];
    }
  }

  lemma ThinnedStep(front: seq<AclEntry>, e: AclEntry, id: string, at: seq<nat>) returns (at': seq<nat>)
    requires ThinnedAt(front, A.EntriesWithout(front, id), id, at)
    ensures ThinnedAt(front + [e], A.EntriesWithout(front + [e], id), id, at')
  {
    hide ThinnedAt, A.EntriesWithout;
    WithoutLast(front, e, id);
    ThinnedMore(front, A.EntriesWithout(front, id), id, at, e);
    if e.id == id {
      assert A.EntriesWithout(front, id) + [] == A.EntriesWithout(front, id);
      at' := at;
    } else {
      at' := at + [|front|];
    }
  }

  lemma {:induction false} WithoutIsThinned(was: seq<AclEntry>, id: string) returns (at: seq<nat>)
    ensures ThinnedAt(was, A.EntriesWithout(was, id), id, at)
    decreases |was|
  {
    if was == [] {
      at := [];
    } else {
      hide ThinnedAt, A.EntriesWithout;
      at := WithoutIsThinned(Front(was), id);
      at := ThinnedStep(Front(was), Last(was), id, at);
      assert was == Front(was) + [Last(was)];
    }
  }

  /** The new name reaches the group and every entry of it. */
  lemma GroupUpdated(plans: seq<string>, s: State, id: string, name: string)
    ensures var o := Step(plans, s, OnAccess(A.UpdatingGroup(id, name)));
            && (o.status == Done <==> id in s.groups && NameFree(s.groups, (v: Group) => v.name, name, id))
            && (o.status == Done ==>
                  && id in o.state.groups && o.state.groups[id].name == name && OthersSame(s.groups, o.state.groups, id)
                  && AclsChanged(s, o.state, (was, now) => Relabelled(was, now, id, name))
                  && o.state == s.(groups := o.state.groups, routes := o.state.routes))
  {
    var d := A.Directory(s.users, s.groups, s.routes);
    GroupUpdatable(d, id, name);
    RoutesRelabelled(s, id, name);
    hide Taken, NameFree, AclsChanged, A.RouteRenamed;
  }

  lemma GroupUpdatable(d: A.Directory, id: string, name: string)
    ensures A.UpdateGroup(d, id, name).status == Done <==> id in d.groups && NameFree(d.groups, (v: Group) => v.name, name, id)
  {
  }

  lemma RoutesRelabelled(s: State, id: string, name: string)
    ensures forall s': State :: s'.routes == (map r | r in s.routes :: A.RouteRenamed(s.routes[r], id, name)) ==>
              AclsChanged(s, s', (was, now) => Relabelled(was, now, id, name))
  {
  }

  /** The group is gone, from every membership and from every allow-list, and nothing else is. */
  lemma GroupDeleted(plans: seq<string>, s: State, id: string)
    requires Inv(s)
    ensures var o := Step(plans, s, OnAccess(A.DeletingGroup(id)));
            && (o.status == Done <==> id in s.groups)
            && (o.status == Done ==>
                  && id !in o.state.groups && OthersSame(s.groups, o.state.groups, id)
                  && o.state.users.Keys == s.users.Keys
                  && (forall u :: u in s.users ==>
                        && o.state.users[u] == s.users[u].(groupIDs := o.state.users[u].groupIDs)
                        && id !in o.state.users[u].groupIDs
                        && o.state.users[u].groupIDs == Without(s.users[u].groupIDs, id))
                  && AclsChanged(s, o.state, (was, now) => Thinned(was, now, id))
                  && o.state == s.(groups := o.state.groups, users := o.state.users, routes := o.state.routes))
  {
    hide Inv, AclsChanged, A.RouteWithout, A.UserWithout, Without, IndexOf;
    UsersCut(s, id);
    RoutesCut(s, id);
  }

  lemma UsersCut(s: State, id: string)
    requires Inv(s)
    ensures forall u :: u in s.users ==>
              var v := A.UserWithout(s.users[u], id);
              && v == s.users[u].(groupIDs := v.groupIDs) && id !in v.groupIDs
              && v.groupIDs == Without(s.users[u].groupIDs, id)
  {
    hide S.Inv, R.Inv, D.NamesInv, A.CredentialsUnique, Unique, Without, L.Kept;
    forall u | u in s.users ensures A.UserWithout(s.users[u], id).groupIDs == Without(s.users[u].groupIDs, id) {
      L.KeptIsWithout(s.users[u].groupIDs, id);
    }
  }

  lemma RoutesCut(s: State, id: string)
    ensures forall s': State :: s'.routes == (map r | r in s.routes :: A.RouteWithout(s.routes[r], id)) ==>
              AclsChanged(s, s', (was, now) => Thinned(was, now, id))
  {
    hide ThinnedAt, A.EntriesWithout;
    RoutesThinned(s, id);
  }

  lemma RoutesThinned(s: State, id: string)
    ensures forall r :: r in s.routes && s.routes[r].acl.Some? ==>
              Thinned(s.routes[r].acl.value.groups, A.EntriesWithout(s.routes[r].acl.value.groups, id), id)
  {
    forall r | r in s.routes && s.routes[r].acl.Some?
      ensures Thinned(s.routes[r].acl.value.groups, A.EntriesWithout(s.routes[r].acl.value.groups, id), id)
    {
      var at := WithoutIsThinned(s.routes[r].acl.value.groups, id);
    }
  }

  // ---------------------------------------------------------------- domains and certificates

  predicate CertificateOk(s: State, certificateID: string) {
    certificateID == "" || certificateID in s.names.certificates
  }

  function CertificateName(s: State, certificateID: string): string
    requires CertificateOk(s, certificateID)
  {
    if certificateID == "" then "" else s.names.certificates[certificateID].name
  }

  lemma DomainCreated(plans: seq<string>, s: State, id: string, d: Domain)
    requires Fresh(s, OnDomains(D.CreatingDomain(id, d)))
    ensures var o := Step(plans, s, OnDomains(D.CreatingDomain(id, d)));
            var n, n' := s.names, o.state.names;
            && (o.status == Done <==>
                  NameFree(n.domains, (v: Domain) => v.domainName, d.domainName, id) && CertificateOk(s, d.certificateID))
            && (o.status == Done ==>
                  && id in n'.domains
                  && n'.domains[id] == Domain(d.domainName, d.certificateID, CertificateName(s, d.certificateID))
                  && OthersSame(n.domains, n'.domains, id) && o.state == s.(names := n.(domains := n'.domains)))
  {
  }

  /** Done or refused, the domain takes the identifier; its certificate's name follows only when the call is done. */
  lemma DomainUpdated(plans: seq<string>, s: State, id: string, certificateID: string)
    ensures var o := Step(plans, s, OnDomains(D.UpdatingDomain(id, certificateID)));
            var n, n' := s.names, o.state.names;
            && (o.status == Done <==> id in n.domains && CertificateOk(s, certificateID))
            && (id in n.domains ==>
                  && id in n'.domains && n'.domains[id].domainName == n.domains[id].domainName
                  && n'.domains[id].certificateID == certificateID
                  && n'.domains[id].certificateName ==
                     if CertificateOk(s, certificateID) then CertificateName(s, certificateID) else n.domains[id].certificateName)
            && OthersSame(n.domains, n'.domains, id) && o.state == s.(names := n.(domains := n'.domains))
  {
  }

  lemma DomainDeleted(plans: seq<string>, s: State, id: string)
    ensures var o := Step(plans, s, OnDomains(D.DeletingDomain(id)));
            var n, n' := s.names, o.state.names;
            && (o.status == Done <==>
                  id in n.domains && forall r :: r in s.routes ==> n.domains[id].domainName !in s.routes[r].hosts)
            && (o.status == Done ==>
                  && id !in n'.domains && OthersSame(n.domains, n'.domains, id)
                  && o.state == s.(names := n.(domains := n'.domains)))
  {
  }

  lemma CertificateCreated(plans: seq<string>, s: State, id: string, c: Certificate)
    requires Fresh(s, OnDomains(D.CreatingCertificate(id, c)))
    ensures var o := Step(plans, s, OnDomains(D.CreatingCertificate(id, c)));
            var n, n' := s.names, o.state.names;
            && (o.status == Done <==> NameFree(n.certificates, (v: Certificate) => v.name, c.name, id))
            && (o.status == Done ==>
                  && id in n'.certificates && n'.certificates[id] == c
                  && OthersSame(n.certificates, n'.certificates, id) && o.state == s.(names := n.(certificates := n'.certificates)))
  {
  }

  /** Key pairs not given stay, and the new name reaches every domain that uses the certificate. */
  lemma CertificateUpdated(plans: seq<string>, s: State, id: string, c: Certificate)
    ensures var o := Step(plans, s, OnDomains(D.UpdatingCertificate(id, c)));
            var n, n' := s.names, o.state.names;
            && (o.status == Done <==> id in n.certificates && NameFree(n.certificates, (v: Certificate) => v.name, c.name, id))
            && (o.status == Done ==>
                  && id in n'.certificates && n'.certificates[id].name == c.name
                  && (c.rsa.Some? ==> n'.certificates[id].rsa == c.rsa)
                  && (c.rsa.None? ==> n'.certificates[id].rsa == n.certificates[id].rsa)
                  && (c.ecdsa.Some? ==> n'.certificates[id].ecdsa == c.ecdsa)
                  && (c.ecdsa.None? ==> n'.certificates[id].ecdsa == n.certificates[id].ecdsa)
                  && OthersSame(n.certificates, n'.certificates, id)
                  && n'.domains.Keys == n.domains.Keys
                  && (forall d :: d in n.domains ==>
                        n'.domains[d] == Domain(n.domains[d].domainName, n.domains[d].certificateID,
                                                if n.domains[d].certificateID == id then c.name else n.domains[d].certificateName))
                  && o.state == s.(names := n'))
  {
  }

  lemma CertificateDeleted(plans: seq<string>, s: State, id: string)
    ensures var o := Step(plans, s, OnDomains(D.DeletingCertificate(id)));
            var n, n' := s.names, o.state.names;
            && (o.status == Done <==>
                  id in n.certificates && forall d :: d in n.domains ==> n.domains[d].certificateID != id)
            && (o.status == Done ==>
                  && id !in n'.certificates && OthersSame(n.certificates, n'.certificates, id)
                  && o.state == s.(names := n.(certificates := n'.certificates)))
  {
  }

  // ---------------------------------------------------------------- refusals

  /** What is missing is not found, a name in use conflicts, and what is still used or not allowed is a bad request. */
  ghost predicate RefusedServices(plans: seq<string>, s: State, op: S.Op, status: Status) {
    var b := s.bindings;
    match op
    case CreatingService(id, svc, u) =>
      if u !in b.subscriptions then status == NotFound
      else if b.subscriptions[u].boundServiceID != "" || !NameFree(b.services, (v: Service) => v.name, svc.name, id)
      then status == Conflict
      else status == Done || status == BadReference(svc)
    case UpdatingService(id, svc) =>
      if id !in b.services then status == NotFound
      else if !NameFree(b.services, (v: Service) => v.name, svc.name, id) then status == Conflict
      else status == Done || status == BadReference(svc)
    case DeletingService(id) =>
      if id !in b.services then status == NotFound else status == Done || status == BadRequest
    case CreatingSubscription(_, _, _) => status == Done || status == BadRequest
    case UpdatingSubscription(_, _) => status == Done || status == BadRequest
    case DeletingSubscription(id) =>
      if id !in b.subscriptions then status == NotFound else status == Done || status == BadRequest
    case CreatingOidc(_, _) => status == Done || status == Conflict
    case UpdatingOidc(id, _) => if id !in b.oidcs then status == NotFound else status == Done || status == Conflict
    case DeletingOidc(id) => if id !in b.oidcs then status == NotFound else status == Done || status == Conflict
  }

  /** A reference that is given but unknown is not found; one that OIDC needs and lacks is a bad request. */
  function BadReference(svc: Service): Status {
    if Unreferenced(svc) then BadRequest else NotFound
  }

  ghost predicate RefusedRoutes(s: State, op: R.Op, status: Status) {
    match op
    case CreatingRoute(id, serviceID, rt) =>
      if serviceID !in s.bindings.services then status == NotFound
      else if exists r :: r in s.routes && r != id && s.routes[r].serviceID == serviceID && s.routes[r].name == rt.name
      then status == Conflict
      else status == Done || status == BadRequest
    case UpdatingRoute(serviceID, id, rt) =>
      if !R.Owns(s.routes, s.bindings.services, serviceID, id) then status == NotFound
      else if exists r :: r in s.routes && r != id && s.routes[r].serviceID == serviceID && s.routes[r].name == rt.name
      then status == Conflict
      else status == Done || status == BadRequest
    case DeletingRoute(_, _) => status == Done || status == NotFound
    case Authorizing(_, _, _) => status == Done || status == NotFound
  }

  ghost predicate RefusedAccess(s: State, op: A.Op, status: Status) {
    match op
    case CreatingUser(_, _) => status == Done || status == Conflict
    case UpdatingUser(id, _) => if id !in s.users then status == NotFound else status == Done || status == Conflict
    case DeletingUser(_) => status == Done || status == NotFound
    case Assigning(_, _, _) => status == Done || status == NotFound
    case Upserting(userID, _) => if userID !in s.users then status == NotFound else status == Done || status == BadRequest
    case CreatingGroup(_, _) => status == Done || status == Conflict
    case UpdatingGroup(id, _) => if id !in s.groups then status == NotFound else status == Done || status == Conflict
    case DeletingGroup(_) => status == Done || status == NotFound
  }

  ghost predicate RefusedDomains(s: State, op: D.Op, status: Status) {
    var n := s.names;
    match op
    case CreatingDomain(id, d) =>
      if !NameFree(n.domains, (v: Domain) => v.domainName, d.domainName, id) then status == Conflict
      else status == Done || status == NotFound
    case UpdatingDomain(_, _) => status == Done || status == NotFound
    case DeletingDomain(id) => if id !in n.domains then status == NotFound else status == Done || status == BadRequest
    case CreatingCertificate(_, _) => status == Done || status == Conflict
    case UpdatingCertificate(id, _) => if id !in n.certificates then status == NotFound else status == Done || status == Conflict
    case DeletingCertificate(id) => if id !in n.certificates then status == NotFound else status == Done || status == BadRequest
  }

  /** With which status a call is refused, by the first of its checks to fail. */
  lemma RefusalsAreTold(plans: seq<string>, s: State, op: Op)
    requires Fresh(s, op)
    ensures var status := Step(plans, s, op).status;
            match op
            case OnServices(o) => RefusedServices(plans, s, o, status)
            case OnRoutes(o) => RefusedRoutes(s, o, status)
            case OnAccess(o) => RefusedAccess(s, o, status)
            case OnDomains(o) => RefusedDomains(s, o, status)
  {
    match op
    case OnServices(o) => ServicesRefuse(plans, s, o);
    case OnRoutes(o) => RoutesRefuse(plans, s, o);
    case OnAccess(o) => AccessRefuses(plans, s, o);
    case OnDomains(o) => DomainsRefuse(plans, s, o);
  }

  lemma ServicesRefuse(plans: seq<string>, s: State, op: S.Op)
    requires Fresh(s, OnServices(op))
    ensures RefusedServices(plans, s, op, Step(plans, s, OnServices(op)).status)
  {
    hide S.Digits, S.WithDefaults, S.Renamed;
  }

  lemma RoutesRefuse(plans: seq<string>, s: State, op: R.Op)
    requires Fresh(s, OnRoutes(op))
    ensures RefusedRoutes(s, op, Step(plans, s, OnRoutes(op)).status)
  {
    hide R.HostsAllowed, R.WithDefaults, R.ReadOnly, R.Named;
  }

  lemma AccessRefuses(plans: seq<string>, s: State, op: A.Op)
    requires Fresh(s, OnAccess(op))
    ensures RefusedAccess(s, op, Step(plans, s, OnAccess(op)).status)
  {
    hide A.Addresses, A.Assigned, A.Merged, Taken;
  }

  lemma DomainsRefuse(plans: seq<string>, s: State, op: D.Op)
    requires Fresh(s, OnDomains(op))
    ensures RefusedDomains(s, op, Step(plans, s, OnDomains(op)).status)
  {
  }
}

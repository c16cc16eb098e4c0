/**
 Services, the subscriptions they are bound to one-to-one, and the OIDC
 configurations they refer to.
 */
module GatewayServices {
  import opened Prelude
  import opened KeyedMaps
  import opened GatewayState

  const MAX_SUBSCRIPTIONS := 10

  datatype Bindings = Bindings(
    services: map<string, Service>, subscriptions: map<string, Subscription>, oidcs: map<string, Oidc>)

  // ---------------------------------------------------------------- what holds

  /** Binding is mutual, and a subscription summarises exactly the service it is bound to. */
  ghost predicate Bound(services: map<string, Service>, subscriptions: map<string, Subscription>) {
    && "" !in services
    && (forall x :: x in services ==>
          && services[x].subscriptionID in subscriptions
          && subscriptions[services[x].subscriptionID].boundServiceID == x)
    && (forall u :: u in subscriptions && subscriptions[u].boundServiceID == "" ==> subscriptions[u].service == None)
    && (forall u :: u in subscriptions && subscriptions[u].boundServiceID != "" ==>
          && subscriptions[u].boundServiceID in services
          && services[subscriptions[u].boundServiceID].subscriptionID == u
          && subscriptions[u].service ==
             Some(Summary(subscriptions[u].boundServiceID, services[subscriptions[u].boundServiceID].name)))
  }

  /** An OIDC reference is live and carries the current name; authentication by OIDC has one. */
  ghost predicate OidcLive(services: map<string, Service>, oidcs: map<string, Oidc>) {
    forall x :: x in services ==>
      && (services[x].authentication == "oidc" ==> services[x].oidc.Some?)
      && (services[x].oidc.Some? ==>
            services[x].oidc.value.id in oidcs && services[x].oidc.value.name == oidcs[services[x].oidc.value.id].name)
  }

  predicate Effective(svc: Service) {
    && svc.path != "" && svc.port != 0 && svc.retries.Some? && svc.authentication != ""
    && svc.connectTimeout != 0 && svc.writeTimeout != 0 && svc.readTimeout != 0
    && (svc.storage.Some? ==> svc.storage.value.useDocumentIndex.Some?)
  }

  ghost predicate NamesInv(b: Bindings) {
    Unique(b.services, ServiceKey) && Unique(b.subscriptions, SubscriptionKey) && Unique(b.oidcs, OidcKey)
  }

  ghost predicate Inv(b: Bindings) {
    && NamesInv(b)
    && "" !in b.oidcs
    && |b.subscriptions| <= MAX_SUBSCRIPTIONS
    && Bound(b.services, b.subscriptions)
    && OidcLive(b.services, b.oidcs)
    && AllEffective(b.services)
  }

  ghost predicate AllEffective(services: map<string, Service>) {
    forall x :: x in services ==> Effective(services[x])
  }

  // ---------------------------------------------------------------- operations

  function WithDefaults(svc: Service): Service {
    svc.(path := if svc.path == "" then "/" else svc.path,
         port := if svc.port != 0 then svc.port else if svc.protocol == "https" then 443 else 80,
         retries := if svc.retries.None? then Some(5) else svc.retries,
         connectTimeout := if svc.connectTimeout == 0 then 60000 else svc.connectTimeout,
         writeTimeout := if svc.writeTimeout == 0 then 60000 else svc.writeTimeout,
         readTimeout := if svc.readTimeout == 0 then 60000 else svc.readTimeout,
         authentication := if svc.authentication == "" then "none" else svc.authentication,
         storage := match svc.storage
                    case None => None
                    case Some(st) => Some(st.(useDocumentIndex :=
                                             if st.useDocumentIndex.None? then Some(true) else st.useDocumentIndex)))
  }

  /** A missing or empty reference is dropped; a present one must be live and takes the current name. */
  function ResolveOidc(oidcs: map<string, Oidc>, svc: Service): Outcome<Service> {
    if svc.oidc.None? || svc.oidc.value.id == "" then
      if svc.authentication == "oidc" then Outcome(svc, BadRequest) else Outcome(svc.(oidc := None), Done)
    else if svc.oidc.value.id !in oidcs then Outcome(svc, NotFound)
    else Outcome(svc.(oidc := Some(OidcRef(svc.oidc.value.id, oidcs[svc.oidc.value.id].name))), Done)
  }

  /** The auto-issued hostname: the identifier's first twelve hexadecimal digits. */
  function Digits(id: string): string {
    if id == "" then "" else (if id[0] == '-' then "" else [id[0]]) + Digits(id[1..])
  }

  function RouteHostOf(id: string): string
    requires |Digits(id)| >= 12
  {
    "site-" + Digits(id)[..12] + ".localhost"
  }

  /** Only twelve digits of the identifier show, so hostnames coincide exactly when those do. */
  lemma RouteHostsCoincide(a: string, b: string)
    requires |Digits(a)| >= 12 && |Digits(b)| >= 12
    ensures RouteHostOf(a) == RouteHostOf(b) <==> Digits(a)[..12] == Digits(b)[..12]
  {
    assert RouteHostOf(a)[5..17] == Digits(a)[..12] && RouteHostOf(b)[5..17] == Digits(b)[..12];
  }

  ghost function CreateService(b: Bindings, id: string, svc: Service, subscriptionID: string): Outcome<Bindings>
    requires |Digits(id)| >= 12
  {
    if subscriptionID !in b.subscriptions then Outcome(b, NotFound)
    else if b.subscriptions[subscriptionID].boundServiceID != "" then Outcome(b, Conflict)
    else if Taken(b.services, ServiceKey, Some(svc.name), {}) then Outcome(b, Conflict)
    else
      var resolved := ResolveOidc(b.oidcs, svc);
      if resolved.status != Done then Outcome(b, resolved.status)
      else
        var stored := WithDefaults(resolved.state.(routeHost := RouteHostOf(id), subscriptionID := subscriptionID));
        var sub := b.subscriptions[subscriptionID].(boundServiceID := id, service := Some(Summary(id, svc.name)));
        Outcome(b.(services := b.services[id := stored],
                   subscriptions := b.subscriptions[subscriptionID := sub]), Done)
  }

  ghost function UpdateService(b: Bindings, id: string, svc: Service): Outcome<Bindings> {
    if id !in b.services then Outcome(b, NotFound)
    else if Taken(b.services, ServiceKey, Some(svc.name), {id}) then Outcome(b, Conflict)
    else
      var resolved := ResolveOidc(b.oidcs, svc);
      if resolved.status != Done then Outcome(b, resolved.status)
      else
        var cur := b.services[id];
        var stored := WithDefaults(resolved.state.(routeHost := cur.routeHost, subscriptionID := cur.subscriptionID));
        Outcome(b.(services := b.services[id := stored],
                   subscriptions := Renamed(b.subscriptions, cur.subscriptionID, svc.name)), Done)
  }

  /** The summary's name follows, if there is a summary. */
  function Renamed(subscriptions: map<string, Subscription>, u: string, name: string): map<string, Subscription> {
    if u in subscriptions && subscriptions[u].service.Some? then
      subscriptions[u := subscriptions[u].(service := Some(subscriptions[u].service.value.(name := name)))]
    else subscriptions
  }

  ghost predicate HasRoutes(routes: map<string, Route>, id: string) {
    exists r :: r in routes && routes[r].serviceID == id
  }

  ghost function DeleteService(b: Bindings, routes: map<string, Route>, id: string): Outcome<Bindings> {
    if id !in b.services then Outcome(b, NotFound)
    else if HasRoutes(routes, id) then Outcome(b, BadRequest)
    else
      var u := b.services[id].subscriptionID;
      Outcome(b.(services := b.services - {id},
                 subscriptions := if u in b.subscriptions
                                  then b.subscriptions[u := b.subscriptions[u].(boundServiceID := "", service := None)]
                                  else b.subscriptions), Done)
  }

  ghost function CreateSubscription(b: Bindings, plans: seq<string>, id: string, planID: string, name: string): Outcome<Bindings> {
    if planID !in plans then Outcome(b, BadRequest)
    else if |b.subscriptions| >= MAX_SUBSCRIPTIONS then Outcome(b, BadRequest)
    else if Taken(b.subscriptions, SubscriptionKey, Some(name), {}) then Outcome(b, BadRequest)
    else Outcome(b.(subscriptions := b.subscriptions[id := Subscription(name, planID, "", None)]), Done)
  }

  /** An unknown identifier is a bad request here: the interface declares no 404. */
  ghost function UpdateSubscription(b: Bindings, id: string, name: string): Outcome<Bindings> {
    if id !in b.subscriptions then Outcome(b, BadRequest)
    else if Taken(b.subscriptions, SubscriptionKey, Some(name), {id}) then Outcome(b, BadRequest)
    else Outcome(b.(subscriptions := b.subscriptions[id := b.subscriptions[id].(name := name)]), Done)
  }

  function DeleteSubscription(b: Bindings, id: string): Outcome<Bindings> {
    if id !in b.subscriptions then Outcome(b, NotFound)
    else if b.subscriptions[id].boundServiceID != "" then Outcome(b, BadRequest)
    else Outcome(b.(subscriptions := b.subscriptions - {id}), Done)
  }

  ghost function CreateOidc(b: Bindings, id: string, o: Oidc): Outcome<Bindings> {
    if Taken(b.oidcs, OidcKey, Some(o.name), {}) then Outcome(b, Conflict)
    else Outcome(b.(oidcs := b.oidcs[id := o]), Done)
  }

  /** Every service that refers to the configuration takes its new name. */
  function OidcRenamed(svc: Service, id: string, name: string): Service {
    if svc.oidc.Some? && svc.oidc.value.id == id then svc.(oidc := Some(OidcRef(id, name))) else svc
  }

  ghost function UpdateOidc(b: Bindings, id: string, o: Oidc): Outcome<Bindings> {
    if id !in b.oidcs then Outcome(b, NotFound)
    else if Taken(b.oidcs, OidcKey, Some(o.name), {id}) then Outcome(b, Conflict)
    else Outcome(b.(oidcs := b.oidcs[id := o],
                    services := map x | x in b.services :: OidcRenamed(b.services[x], id, o.name)), Done)
  }

  ghost predicate OidcInUse(services: map<string, Service>, id: string) {
    exists x :: x in services && services[x].oidc.Some? && services[x].oidc.value.id == id
  }

  ghost function DeleteOidc(b: Bindings, id: string): Outcome<Bindings> {
    if id !in b.oidcs then Outcome(b, NotFound)
    else if OidcInUse(b.services, id) then Outcome(b, Conflict)
    else Outcome(b.(oidcs := b.oidcs - {id}), Done)
  }

  // ---------------------------------------------------------------- one step

  datatype Op =
    | CreatingService(id: string, service: Service, subscriptionID: string)
    | UpdatingService(id: string, service: Service)
    | DeletingService(id: string)
    | CreatingSubscription(id: string, planID: string, name: string)
    | UpdatingSubscription(id: string, name: string)
    | DeletingSubscription(id: string)
    | CreatingOidc(id: string, oidc: Oidc)
    | UpdatingOidc(id: string, oidc: Oidc)
    | DeletingOidc(id: string)

  /** New identifiers are non-empty, not in use, and have the digits a hostname needs. */
  predicate Fresh(b: Bindings, op: Op) {
    match op
    case CreatingService(id, _, _) => id != "" && id !in b.services && |Digits(id)| >= 12
    case CreatingSubscription(id, _, _) => id !in b.subscriptions
    case CreatingOidc(id, _) => id != "" && id !in b.oidcs
    case _ => true
  }

  ghost function Step(b: Bindings, plans: seq<string>, routes: map<string, Route>, op: Op): Outcome<Bindings>
    requires Fresh(b, op)
  {
    match op
    case CreatingService(id, svc, u) => CreateService(b, id, svc, u)
    case UpdatingService(id, svc) => UpdateService(b, id, svc)
    case DeletingService(id) => DeleteService(b, routes, id)
    case CreatingSubscription(id, planID, name) => CreateSubscription(b, plans, id, planID, name)
    case UpdatingSubscription(id, name) => UpdateSubscription(b, id, name)
    case DeletingSubscription(id) => DeleteSubscription(b, id)
    case CreatingOidc(id, o) => CreateOidc(b, id, o)
    case UpdatingOidc(id, o) => UpdateOidc(b, id, o)
    case DeletingOidc(id) => DeleteOidc(b, id)
  }

  // ---------------------------------------------------------------- every step keeps it

  lemma DefaultsAreEffective(svc: Service)
    ensures Effective(WithDefaults(svc))
    ensures Effective(svc) ==> WithDefaults(svc) == svc
    ensures WithDefaults(svc).name == svc.name && WithDefaults(svc).oidc == svc.oidc
    ensures WithDefaults(svc).authentication == "oidc" <==> svc.authentication == "oidc"
    ensures WithDefaults(svc).routeHost == svc.routeHost && WithDefaults(svc).subscriptionID == svc.subscriptionID
  {
  }

  lemma BindKeepsBound(services: map<string, Service>, subscriptions: map<string, Subscription>, id: string, svc: Service)
    requires Bound(services, subscriptions) && id != "" && id !in services
    requires svc.subscriptionID in subscriptions && subscriptions[svc.subscriptionID].boundServiceID == ""
    ensures var u := svc.subscriptionID;
            Bound(services[id := svc],
                  subscriptions[u := subscriptions[u].(boundServiceID := id, service := Some(Summary(id, svc.name)))])
  {
  }

  lemma RenameKeepsBound(services: map<string, Service>, subscriptions: map<string, Subscription>, id: string, svc: Service)
    requires Bound(services, subscriptions) && id in services
    requires svc.subscriptionID == services[id].subscriptionID
    ensures Bound(services[id := svc], Renamed(subscriptions, svc.subscriptionID, svc.name))
  {
  }

  lemma UnbindKeepsBound(services: map<string, Service>, subscriptions: map<string, Subscription>, id: string)
    requires Bound(services, subscriptions) && id in services
    ensures var u := services[id].subscriptionID;
            && u in subscriptions
            && Bound(services - {id}, subscriptions[u := subscriptions[u].(boundServiceID := "", service := None)])
  {
  }

  /** A service that passed the check refers to a live configuration by its current name. */
  lemma ResolvedIsLive(oidcs: map<string, Oidc>, svc: Service)
    ensures var r := ResolveOidc(oidcs, svc);
            r.status == Done ==>
              && r.state == svc.(oidc := r.state.oidc)
              && (svc.authentication == "oidc" ==> r.state.oidc.Some?)
              && (r.state.oidc.Some? ==>
                    r.state.oidc.value.id in oidcs && r.state.oidc.value.name == oidcs[r.state.oidc.value.id].name)
  {
  }

  /** What a checked service may be stored as. */
  predicate Storable(oidcs: map<string, Oidc>, svc: Service) {
    && Effective(svc)
    && (svc.authentication == "oidc" ==> svc.oidc.Some?)
    && (svc.oidc.Some? ==> svc.oidc.value.id in oidcs && svc.oidc.value.name == oidcs[svc.oidc.value.id].name)
  }

  lemma CheckedIsStorable(oidcs: map<string, Oidc>, svc: Service, routeHost: string, u: string)
    requires ResolveOidc(oidcs, svc).status == Done
    ensures var stored := WithDefaults(ResolveOidc(oidcs, svc).state.(routeHost := routeHost, subscriptionID := u));
            Storable(oidcs, stored) && stored.name == svc.name && stored.routeHost == routeHost && stored.subscriptionID == u
  {
    ResolvedIsLive(oidcs, svc);
    DefaultsAreEffective(ResolveOidc(oidcs, svc).state.(routeHost := routeHost, subscriptionID := u));
  }

  lemma PlacedKeepsInv(b: Bindings, id: string, svc: Service)
    requires Inv(b) && id != "" && id !in b.services && Storable(b.oidcs, svc)
    requires !Taken(b.services, ServiceKey, Some(svc.name), {})
    requires svc.subscriptionID in b.subscriptions && b.subscriptions[svc.subscriptionID].boundServiceID == ""
    ensures var u := svc.subscriptionID;
            Inv(b.(services := b.services[id := svc],
                   subscriptions := b.subscriptions[u := b.subscriptions[u].(boundServiceID := id, service := Some(Summary(id, svc.name)))]))
  {
    var u := svc.subscriptionID;
    hide Unique, Bound;
    BindKeepsBound(b.services, b.subscriptions, id, svc);
    NewNameIsUnique(b.services, ServiceKey, id, svc);
    SubscriptionsKept(b.subscriptions,
                      b.subscriptions[u := b.subscriptions[u].(boundServiceID := id, service := Some(Summary(id, svc.name)))]);
  }

  lemma ReplacedKeepsInv(b: Bindings, id: string, svc: Service)
    requires Inv(b) && id in b.services && Storable(b.oidcs, svc)
    requires !Taken(b.services, ServiceKey, Some(svc.name), {id})
    requires svc.subscriptionID == b.services[id].subscriptionID
    ensures Inv(b.(services := b.services[id := svc], subscriptions := Renamed(b.subscriptions, svc.subscriptionID, svc.name)))
  {
    hide Unique, Bound;
    RenameKeepsBound(b.services, b.subscriptions, id, svc);
    UniqueUpdate(b.services, ServiceKey, id, svc);
    SubscriptionsKept(b.subscriptions, Renamed(b.subscriptions, svc.subscriptionID, svc.name));
  }

  lemma CreateServiceKeepsInv(b: Bindings, id: string, svc: Service, u: string)
    requires Inv(b) && Fresh(b, CreatingService(id, svc, u))
    ensures Inv(CreateService(b, id, svc, u).state)
  {
    if CreateService(b, id, svc, u).status == Done {
      CheckedIsStorable(b.oidcs, svc, RouteHostOf(id), u);
      PlacedKeepsInv(b, id, CreateService(b, id, svc, u).state.services[id]);
    }
  }

  lemma SubscriptionsKept(subs: map<string, Subscription>, subs': map<string, Subscription>)
    requires Unique(subs, SubscriptionKey) && subs'.Keys == subs.Keys
    requires forall u :: u in subs ==> subs'[u].name == subs[u].name
    ensures Unique(subs', SubscriptionKey) && |subs'| == |subs|
  {
    UniqueSameKeys(subs, subs', SubscriptionKey);
    assert |subs'| == |subs'.Keys| && |subs| == |subs.Keys|;
  }

  lemma UpdateServiceKeepsInv(b: Bindings, id: string, svc: Service)
    requires Inv(b)
    ensures Inv(UpdateService(b, id, svc).state)
  {
    if UpdateService(b, id, svc).status == Done {
      CheckedIsStorable(b.oidcs, svc, b.services[id].routeHost, b.services[id].subscriptionID);
      ReplacedKeepsInv(b, id, UpdateService(b, id, svc).state.services[id]);
    }
  }

  lemma DeleteServiceKeepsInv(b: Bindings, routes: map<string, Route>, id: string)
    requires Inv(b)
    ensures Inv(DeleteService(b, routes, id).state)
  {
    var o := DeleteService(b, routes, id);
    if o.status == Done {
      UnbindKeepsBound(b.services, b.subscriptions, id);
      UniqueSameKeys(b.services, o.state.services, ServiceKey);
      SubscriptionsKept(b.subscriptions, o.state.subscriptions);
    }
  }

  lemma CreateSubscriptionKeepsInv(b: Bindings, plans: seq<string>, id: string, planID: string, name: string)
    requires Inv(b) && id !in b.subscriptions
    ensures Inv(CreateSubscription(b, plans, id, planID, name).state)
  {
    var o := CreateSubscription(b, plans, id, planID, name);
    if o.status == Done {
      var sub := Subscription(name, planID, "", None);
      NewNameIsUnique(b.subscriptions, SubscriptionKey, id, sub);
      UnboundKeepsBound(b.services, b.subscriptions, id, sub);
      OneMore(b.subscriptions, id, sub);
    }
  }

  lemma UnboundKeepsBound(services: map<string, Service>, subscriptions: map<string, Subscription>, id: string, sub: Subscription)
    requires Bound(services, subscriptions)
    requires id !in subscriptions && sub.boundServiceID == "" && sub.service == None
    ensures Bound(services, subscriptions[id := sub])
  {
  }

  lemma UpdateSubscriptionKeepsInv(b: Bindings, id: string, name: string)
    requires Inv(b)
    ensures Inv(UpdateSubscription(b, id, name).state)
  {
    var o := UpdateSubscription(b, id, name);
    if o.status == Done {
      UniqueUpdate(b.subscriptions, SubscriptionKey, id, o.state.subscriptions[id]);
      assert o.state.subscriptions.Keys == b.subscriptions.Keys;
      RenamedKeepsBound(b.services, b.subscriptions, id, name);
    }
  }

  lemma RenamedKeepsBound(services: map<string, Service>, subscriptions: map<string, Subscription>, id: string, name: string)
    requires Bound(services, subscriptions) && id in subscriptions
    ensures Bound(services, subscriptions[id := subscriptions[id].(name := name)])
  {
  }

  lemma DeleteSubscriptionKeepsInv(b: Bindings, id: string)
    requires Inv(b)
    ensures Inv(DeleteSubscription(b, id).state)
  {
    var o := DeleteSubscription(b, id);
    if o.status == Done {
      UniqueSameKeys(b.subscriptions, o.state.subscriptions, SubscriptionKey);
      assert b.subscriptions.Keys == o.state.subscriptions.Keys + {id};
    }
  }

  lemma CreateOidcKeepsInv(b: Bindings, id: string, c: Oidc)
    requires Inv(b) && id != "" && id !in b.oidcs
    ensures Inv(CreateOidc(b, id, c).state)
  {
    if CreateOidc(b, id, c).status == Done {
      NewNameIsUnique(b.oidcs, OidcKey, id, c);
    }
  }

  /** The renaming reaches every reference, so all stay live and current. */
  lemma RenamedStaysLive(services: map<string, Service>, oidcs: map<string, Oidc>, id: string, c: Oidc)
    requires OidcLive(services, oidcs) && id in oidcs && AllEffective(services)
    ensures OidcLive(map x | x in services :: OidcRenamed(services[x], id, c.name), oidcs[id := c])
    ensures AllEffective(map x | x in services :: OidcRenamed(services[x], id, c.name))
  {
  }

  lemma UpdateOidcKeepsInv(b: Bindings, id: string, c: Oidc)
    requires Inv(b)
    ensures Inv(UpdateOidc(b, id, c).state)
  {
    var o := UpdateOidc(b, id, c);
    if o.status == Done {
      RenamedStaysLive(b.services, b.oidcs, id, c);
      UniqueUpdate(b.oidcs, OidcKey, id, c);
      UniqueSameKeys(b.services, o.state.services, ServiceKey);
      SameBindingsBound(b.services, o.state.services, b.subscriptions);
      hide Unique, Bound, OidcLive, AllEffective;
    }
  }

  lemma SameBindingsBound(services: map<string, Service>, services': map<string, Service>, subscriptions: map<string, Subscription>)
    requires Bound(services, subscriptions) && services'.Keys == services.Keys
    requires forall x :: x in services ==>
               services'[x].name == services[x].name && services'[x].subscriptionID == services[x].subscriptionID
    ensures Bound(services', subscriptions)
  {
  }

  lemma DeleteOidcKeepsInv(b: Bindings, id: string)
    requires Inv(b)
    ensures Inv(DeleteOidc(b, id).state)
  {
    var o := DeleteOidc(b, id);
    if o.status == Done {
      UniqueSameKeys(b.oidcs, o.state.oidcs, OidcKey);
    }
  }

  lemma StepKeepsInv(b: Bindings, plans: seq<string>, routes: map<string, Route>, op: Op)
    requires Inv(b) && Fresh(b, op)
    ensures Inv(Step(b, plans, routes, op).state)
  {
    match op
    case CreatingService(id, svc, u) => CreateServiceKeepsInv(b, id, svc, u);
    case UpdatingService(id, svc) => UpdateServiceKeepsInv(b, id, svc);
    case DeletingService(id) => DeleteServiceKeepsInv(b, routes, id);
    case CreatingSubscription(id, planID, name) => CreateSubscriptionKeepsInv(b, plans, id, planID, name);
    case UpdatingSubscription(id, name) => UpdateSubscriptionKeepsInv(b, id, name);
    case DeletingSubscription(id) => DeleteSubscriptionKeepsInv(b, id);
    case CreatingOidc(id, o) => CreateOidcKeepsInv(b, id, o);
    case UpdatingOidc(id, o) => UpdateOidcKeepsInv(b, id, o);
    case DeletingOidc(id) => DeleteOidcKeepsInv(b, id);
  }

  lemma RefusedChangesNothing(b: Bindings, plans: seq<string>, routes: map<string, Route>, op: Op)
    requires Fresh(b, op)
    ensures Step(b, plans, routes, op).status != Done ==> Step(b, plans, routes, op).state == b
  {
  }

  /** The subscription whose binding or name a call concerns. */
  function Concerned(b: Bindings, op: Op): Option<string> {
    match op
    case CreatingService(_, _, u) => Some(u)
    case UpdatingService(id, _) => if id in b.services then Some(b.services[id].subscriptionID) else None
    case DeletingService(id) => if id in b.services then Some(b.services[id].subscriptionID) else None
    case CreatingSubscription(id, _, _) => Some(id)
    case UpdatingSubscription(id, _) => Some(id)
    case DeletingSubscription(id) => Some(id)
    case _ => None
  }

  /** No call touches another service than its own, but for a configuration's new name, nor a subscription it does not concern. */
  lemma OthersUntouched(b: Bindings, plans: seq<string>, routes: map<string, Route>, op: Op)
    requires Fresh(b, op)
    ensures var b' := Step(b, plans, routes, op).state;
            && (forall x :: x in b.services && x != op.id ==>
                  x in b'.services
                  && b'.services[x] == if op.UpdatingOidc? && b' != b then OidcRenamed(b.services[x], op.id, op.oidc.name)
                                       else b.services[x])
            && (forall x :: x in b'.services && x !in b.services ==> op.CreatingService? && x == op.id)
            && (forall u :: Some(u) != Concerned(b, op) ==>
                  (u in b'.subscriptions <==> u in b.subscriptions)
                  && (u in b.subscriptions ==> b'.subscriptions[u] == b.subscriptions[u]))
  {
    hide Taken, WithDefaults, ResolveOidc;
  }
}

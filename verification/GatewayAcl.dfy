/**
 The data plane's allow-list check, against what the control-plane calls mean:
 a membership relation and, per restricted route, a set of enabled groups.
 */
module GatewayAcl {
  import opened Prelude
  import opened OrderLists
  import opened KeyedMaps
  import opened GatewayState
  import R = GatewayRoutes
  import A = GatewayAccess
  import opened GatewayRuns

  datatype Verdict = Pass | Unauthorized | Forbidden

  /** The check on the stored lists: OIDC consumers are outside the store, so no list applies to them. */
  ghost function Verdicted(acl: Option<Acl>, service: Service, user: Option<User>): Verdict {
    if acl.None? || !acl.value.isEnabled then Pass
    else if service.authentication == "oidc" then Pass
    else if user.None? then Unauthorized
    else if exists e :: e in acl.value.groups && e.enabled && e.id in user.value.groupIDs then Pass
    else Forbidden
  }

  method CheckAcl(acl: Option<Acl>, service: Service, user: Option<User>) returns (v: Verdict)
    ensures v == Verdicted(acl, service, user)
  {
    if acl.None? || !acl.value.isEnabled {
      return Pass;
    }
    if service.authentication == "oidc" {
      return Pass;
    }
    if user.None? {
      return Unauthorized;
    }
    var i := 0;
    while i < |acl.value.groups|
      invariant 0 <= i <= |acl.value.groups|
      invariant forall k :: 0 <= k < i ==> !(acl.value.groups[k].enabled && acl.value.groups[k].id in user.value.groupIDs)
    {
      if acl.value.groups[i].enabled && acl.value.groups[i].id in user.value.groupIDs {
        return Pass;
      }
      i := i + 1;
    }
    v := Forbidden;
  }

  // ---------------------------------------------------------------- the abstract view

  /** Who is in which group, and which groups each restricted route lets in. */
  datatype Access = Access(member: set<(string, string)>, enabled: map<string, set<string>>)

  ghost function EnabledOf(entries: seq<AclEntry>): set<string> {
    set e | e in entries && e.enabled :: e.id
  }

  predicate Restricted(rt: Route) {
    rt.acl.Some? && rt.acl.value.isEnabled
  }

  ghost function MembersOf(users: map<string, User>): set<(string, string)> {
    set u, g | u in users && g in users[u].groupIDs :: (u, g)
  }

  ghost function EnabledBy(routes: map<string, Route>): map<string, set<string>> {
    map r | r in routes && Restricted(routes[r]) :: EnabledOf(routes[r].acl.value.groups)
  }

  ghost function AccessOf(s: State): Access {
    Access(MembersOf(s.users), EnabledBy(s.routes))
  }

  /** What a successful call says about access. */
  datatype Call =
    | Assign(user: string, group: string, member: bool)
    | Restrict(route: string, enabled: set<string>)
    | Unrestrict(route: string)
    | ForgetGroup(group: string)
    | ForgetUser(user: string)
    | Nothing

  ghost function Apply(a: Access, c: Call): Access {
    match c
    case Assign(u, g, true) => a.(member := a.member + {(u, g)})
    case Assign(u, g, false) => a.(member := a.member - {(u, g)})
    case Restrict(r, gs) => a.(enabled := a.enabled[r := gs])
    case Unrestrict(r) => a.(enabled := a.enabled - {r})
    case ForgetGroup(g) => Access(set p | p in a.member && p.1 != g, map r | r in a.enabled :: a.enabled[r] - {g})
    case ForgetUser(u) => a.(member := set p | p in a.member && p.0 != u)
    case Nothing => a
  }

  ghost function Meaning(plans: seq<string>, s: State, op: Op): Call
    requires Fresh(s, op)
  {
    if Step(plans, s, op).status != Done then Nothing
    else match op
      case OnAccess(Assigning(u, key, member)) =>
        if exists g :: A.Addresses(s.groups, key, g) then
          var g :| A.Addresses(s.groups, key, g);
          Assign(u, g, member)
        else Nothing
      case OnAccess(DeletingUser(u)) => ForgetUser(u)
      case OnAccess(DeletingGroup(g)) => ForgetGroup(g)
      case OnRoutes(Authorizing(_, r, acl)) =>
        if acl.Some? && acl.value.isEnabled then Restrict(r, EnabledOf(acl.value.groups)) else Unrestrict(r)
      case OnRoutes(DeletingRoute(_, r)) => Unrestrict(r)
      case _ => Nothing
  }

  // ---------------------------------------------------------------- refinement

  lemma AssignMeans(users: map<string, User>, u: string, g: string, member: bool)
    requires u in users && Distinct(users[u].groupIDs)
    ensures MembersOf(users[u := users[u].(groupIDs := A.Assigned(users[u].groupIDs, g, member))])
            == if member then MembersOf(users) + {(u, g)} else MembersOf(users) - {(u, g)}
  {
    A.AssignedKeeps(users[u].groupIDs, g, member);
    var users' := users[u := users[u].(groupIDs := A.Assigned(users[u].groupIDs, g, member))];
    forall v, h
      ensures (v, h) in MembersOf(users') <==>
              if v == u && h == g then member else (v, h) in MembersOf(users)
    {
    }
  }

  lemma NamedEnabled(entries: seq<AclEntry>, named: seq<AclEntry>)
    requires |named| == |entries|
    requires forall i :: 0 <= i < |entries| ==> named[i].id == entries[i].id && named[i].enabled == entries[i].enabled
    ensures EnabledOf(named) == EnabledOf(entries)
  {
    forall id | id in EnabledOf(entries) ensures id in EnabledOf(named) {
      var i :| 0 <= i < |entries| && entries[i].enabled && entries[i].id == id;
      assert named[i] in named;
    }
    forall id | id in EnabledOf(named) ensures id in EnabledOf(entries) {
      var i :| 0 <= i < |named| && named[i].enabled && named[i].id == id;
      assert entries[i] in entries;
    }
  }

  /** Only what is restricted, and to which enabled groups, shows. */
  lemma SameEnabled(routes: map<string, Route>, routes': map<string, Route>)
    requires forall r :: r in routes && Restricted(routes[r]) ==>
               r in routes' && Restricted(routes'[r])
               && EnabledOf(routes'[r].acl.value.groups) == EnabledOf(routes[r].acl.value.groups)
    requires forall r :: r in routes' && Restricted(routes'[r]) ==> r in routes && Restricted(routes[r])
    ensures EnabledBy(routes') == EnabledBy(routes)
  {
  }

  function GroupsOf(users: map<string, User>, u: string): seq<string> {
    if u in users then users[u].groupIDs else []
  }

  lemma SameMembers(users: map<string, User>, users': map<string, User>)
    requires forall u :: u in users || u in users' ==> GroupsOf(users, u) == GroupsOf(users', u)
    ensures MembersOf(users') == MembersOf(users)
  {
    forall u, g ensures (u, g) in MembersOf(users') <==> (u, g) in MembersOf(users) {
      assert (u, g) in MembersOf(users) <==> g in GroupsOf(users, u);
      assert (u, g) in MembersOf(users') <==> g in GroupsOf(users', u);
    }
  }

  lemma RenameMeansNothing(routes: map<string, Route>, id: string, name: string)
    ensures EnabledBy(map r | r in routes :: A.RouteRenamed(routes[r], id, name)) == EnabledBy(routes)
  {
    var routes' := map r | r in routes :: A.RouteRenamed(routes[r], id, name);
    forall r | r in routes && Restricted(routes[r])
      ensures EnabledOf(routes'[r].acl.value.groups) == EnabledOf(routes[r].acl.value.groups)
    {
      NamedEnabled(routes[r].acl.value.groups, routes'[r].acl.value.groups);
    }
    SameEnabled(routes, routes');
  }

  /** The cascade forgets the group on both sides, and nothing else. */
  lemma DeleteGroupMeans(users: map<string, User>, routes: map<string, Route>, id: string)
    ensures MembersOf(map u | u in users :: A.UserWithout(users[u], id)) == set p | p in MembersOf(users) && p.1 != id
    ensures EnabledBy(map r | r in routes :: A.RouteWithout(routes[r], id)) ==
            map r | r in EnabledBy(routes) :: EnabledBy(routes)[r] - {id}
  {
    var users' := map u | u in users :: A.UserWithout(users[u], id);
    forall u, g ensures (u, g) in MembersOf(users') <==> (u, g) in MembersOf(users) && g != id {
    }
    forall r | r in routes && Restricted(routes[r])
      ensures EnabledOf(A.RouteWithout(routes[r], id).acl.value.groups) == EnabledOf(routes[r].acl.value.groups) - {id}
    {
      var entries := routes[r].acl.value.groups;
      var kept := A.EntriesWithout(entries, id);
      A.EntriesLeft(entries, id);
      forall g ensures g in EnabledOf(kept) <==> g in EnabledOf(entries) && g != id {
        if g in EnabledOf(entries) && g != id {
          var e :| e in entries && e.enabled && e.id == g;
          assert e in kept;
        }
      }
    }
  }

  lemma AssigningRefines(plans: seq<string>, s: State, u: string, key: string, member: bool)
    requires Inv(s)
    ensures var op := OnAccess(A.Assigning(u, key, member));
            AccessOf(Step(plans, s, op).state) == Apply(AccessOf(s), Meaning(plans, s, op))
  {
    var op := OnAccess(A.Assigning(u, key, member));
    var d := A.Directory(s.users, s.groups, s.routes);
    if A.AssignUserGroup(d, u, key, member).status == Done {
      var g := Meaning(plans, s, op).group;
      var h :| A.Addresses(s.groups, key, h)
        && A.AssignUserGroup(d, u, key, member).state.users
           == s.users[u := s.users[u].(groupIDs := A.Assigned(s.users[u].groupIDs, h, member))];
      A.AddressIsUnique(s.groups, key, g, h);
      AssignMeans(s.users, u, g, member);
    }
  }

  lemma AccessStepRefines(plans: seq<string>, s: State, op: Op)
    requires Inv(s) && Fresh(s, op) && op.OnAccess?
    ensures AccessOf(Step(plans, s, op).state) == Apply(AccessOf(s), Meaning(plans, s, op))
  {
    hide Inv, Unique, Taken, MembersOf, EnabledBy;
    var s' := Step(plans, s, op).state;
    match op.access
    case CreatingUser(_, _) => SameMembers(s.users, s'.users);
    case UpdatingUser(_, _) => SameMembers(s.users, s'.users);
    case DeletingUser(u) => DeleteUserMeans(s.users, u);
    case Assigning(u, key, member) => AssigningRefines(plans, s, u, key, member);
    case Upserting(_, _) => SameMembers(s.users, s'.users);
    case CreatingGroup(_, _) =>
    case UpdatingGroup(id, name) => RenameMeansNothing(s.routes, id, name);
    case DeletingGroup(id) => DeleteGroupMeans(s.users, s.routes, id);
  }

  lemma DeleteUserMeans(users: map<string, User>, u: string)
    ensures MembersOf(users - {u}) == set p | p in MembersOf(users) && p.0 != u
  {
  }

  lemma PlacedEnabled(routes: map<string, Route>, id: string, rt: Route)
    ensures EnabledBy(routes[id := rt]) ==
            if Restricted(rt) then EnabledBy(routes)[id := EnabledOf(rt.acl.value.groups)] else EnabledBy(routes) - {id}
    ensures EnabledBy(routes - {id}) == EnabledBy(routes) - {id}
    ensures id !in routes ==> EnabledBy(routes) - {id} == EnabledBy(routes)
    ensures id in routes && rt.acl == routes[id].acl ==> EnabledBy(routes[id := rt]) == EnabledBy(routes)
  {
    hide EnabledOf;
  }

  lemma RouteStepRefines(plans: seq<string>, s: State, op: Op)
    requires Inv(s) && Fresh(s, op) && op.OnRoutes?
    ensures AccessOf(Step(plans, s, op).state) == Apply(AccessOf(s), Meaning(plans, s, op))
  {
    hide Inv, Unique, Taken, MembersOf, EnabledOf, EnabledBy, R.HostsAllowed, R.StorageRules, R.WithDefaults;
    var s' := Step(plans, s, op).state;
    match op.route
    case CreatingRoute(id, serviceID, rt) =>
      if s' != s {
        R.CheckedIsRight(s.routes, s.bindings.services[serviceID], s.names.domains, Asked(s, op.route), {});
        PlacedEnabled(s.routes, id, s'.routes[id]);
      }
    case UpdatingRoute(serviceID, id, rt) =>
      if s' != s {
        R.CheckedIsRight(s.routes, s.bindings.services[serviceID], s.names.domains, Asked(s, op.route), {id});
        PlacedEnabled(s.routes, id, s'.routes[id]);
      }
    case DeletingRoute(_, r) =>
      if r in s.routes {
        PlacedEnabled(s.routes, r, s.routes[r]);
      }
    case Authorizing(_, r, acl) =>
      if Step(plans, s, op).status == Done {
        PlacedEnabled(s.routes, r, s'.routes[r]);
        if acl.Some? {
          NamedEnabled(acl.value.groups, R.Named(acl.value.groups, s.groups));
        }
      }
  }

  lemma StepRefines(plans: seq<string>, s: State, op: Op)
    requires Inv(s) && Fresh(s, op)
    ensures AccessOf(Step(plans, s, op).state) == Apply(AccessOf(s), Meaning(plans, s, op))
  {
    if op.OnAccess? {
      AccessStepRefines(plans, s, op);
    } else if op.OnRoutes? {
      RouteStepRefines(plans, s, op);
    }
  }

  /** The access that a history of calls leaves. */
  ghost function AccessAfter(plans: seq<string>, s: State, a: Access, ops: seq<Op>): Access
    requires IsRun(plans, s, ops)
    decreases |ops|
  {
    if ops == [] then a
    else AccessAfter(plans, Step(plans, s, ops[0]).state, Apply(a, Meaning(plans, s, ops[0])), ops[1..])
  }

  lemma {:induction false} RunRefines(plans: seq<string>, s: State, ops: seq<Op>)
    requires Inv(s) && IsRun(plans, s, ops)
    ensures AccessOf(Run(plans, s, ops)) == AccessAfter(plans, s, AccessOf(s), ops)
    decreases |ops|
  {
    if ops != [] {
      hide Inv, Step, Fresh, Meaning, Apply, AccessOf;
      StepKeepsInv(plans, s, ops[0]);
      StepRefines(plans, s, ops[0]);
      RunRefines(plans, Step(plans, s, ops[0]).state, ops[1..]);
    }
  }

  /**
   After every run, a stored consumer passes a route's check exactly when the
   history of calls lets it: the route is unrestricted, or some group enabled on
   it has the consumer as a member. Anyone else passes an unrestricted route only;
   behind OIDC no list applies.
   */
  lemma CheckAgreesWithHistory(plans: seq<string>, ops: seq<Op>, r: string, u: string)
    requires IsRun(plans, EMPTY, ops)
    requires r in Run(plans, EMPTY, ops).routes && u in Run(plans, EMPTY, ops).users
    ensures var s := Run(plans, EMPTY, ops);
            var a := AccessAfter(plans, EMPTY, Access({}, map[]), ops);
            && s.routes[r].serviceID in s.bindings.services
            && (s.bindings.services[s.routes[r].serviceID].authentication != "oidc" ==>
                  && Verdicted(s.routes[r].acl, s.bindings.services[s.routes[r].serviceID], Some(s.users[u])) ==
                     (if r !in a.enabled || exists g :: g in a.enabled[r] && (u, g) in a.member then Pass else Forbidden)
                  && Verdicted(s.routes[r].acl, s.bindings.services[s.routes[r].serviceID], None) ==
                     if r !in a.enabled then Pass else Unauthorized)
            && (s.bindings.services[s.routes[r].serviceID].authentication == "oidc" ==>
                  forall user :: Verdicted(s.routes[r].acl, s.bindings.services[s.routes[r].serviceID], user) == Pass)
  {
    hide Run, IsRun, AccessAfter, Inv, MembersOf, EnabledBy, Verdicted;
    EmptyHoldsInv();
    EmptyAccess();
    RunRefines(plans, EMPTY, ops);
    EveryRouteIsSound(plans, ops, r);
    var s := Run(plans, EMPTY, ops);
    VerdictOnViews(s.users, s.routes, r, u, s.bindings.services[s.routes[r].serviceID]);
  }

  lemma EmptyAccess()
    ensures AccessOf(EMPTY) == Access({}, map[])
  {
    assert MembersOf(map[]) == {};
    assert EnabledBy(map[]) == map[];
  }

  lemma VerdictOnViews(users: map<string, User>, routes: map<string, Route>, r: string, u: string, service: Service)
    requires r in routes && u in users
    ensures service.authentication != "oidc" ==>
              && Verdicted(routes[r].acl, service, Some(users[u])) ==
                 (if r !in EnabledBy(routes) || exists g :: g in EnabledBy(routes)[r] && (u, g) in MembersOf(users)
                  then Pass else Forbidden)
              && Verdicted(routes[r].acl, service, None) == if r !in EnabledBy(routes) then Pass else Unauthorized
    ensures service.authentication == "oidc" ==> forall user :: Verdicted(routes[r].acl, service, user) == Pass
  {
    if r in EnabledBy(routes) {
      var entries := routes[r].acl.value.groups;
      if e :| e in entries && e.enabled && e.id in users[u].groupIDs {
        assert e.id in EnabledBy(routes)[r] && (u, e.id) in MembersOf(users);
      }
      if g :| g in EnabledBy(routes)[r] && (u, g) in MembersOf(users) {
        var e :| e in entries && e.enabled && e.id == g;
      }
    }
  }
}

/**
 The store over records that are written in place. Every call of the control
 plane comes to at most one write here, and no write reaches a consumer or a
 route that was handed out before.
 */
module RecordStore {
  import opened Prelude
  import opened KeyedMaps
  import opened OrderLists
  import opened GatewayState
  import opened Records
  import A = GatewayAccess
  import R = GatewayRoutes
  import S = GatewayServices
  import D = GatewayDomains
  import G = GatewayRuns

  // ---------------------------------------------------------------- what the store writes

  /** What a call writes once its checks have passed. */
  datatype Write =
    | AddUser(id: string, p: Profile)
    | SetProfile(id: string, p: Profile)
    | RemoveUser(id: string)
    | Assign(id: string, group: string, member: bool)
    | MergeCredentials(id: string, auth: Credentials)
    | AddRoute(id: string, route: Route)
    | ReplaceRoute(id: string, route: Route)
    | RemoveRoute(id: string)
    | SetAllowList(id: string, acl: Option<Acl>)
    | RenameGroup(group: string, name: string)
    | DropGroup(group: string)

  function UserCut(u: User, g: string): User {
    u.(groupIDs := Without(u.groupIDs, g))
  }

  function WrittenUsers(users: map<string, User>, w: Write): map<string, User> {
    match w
    case AddUser(id, p) => users[id := A.NewUser(p)]
    case SetProfile(id, p) => if id in users then users[id := A.Profiled(users[id], p)] else users
    case RemoveUser(id) => users - {id}
    case Assign(id, g, member) =>
      if id in users then users[id := users[id].(groupIDs := AssignedInPlace(users[id].groupIDs, g, member))] else users
    case MergeCredentials(id, auth) =>
      if id in users then users[id := users[id].(auth := Some(A.Merged(users[id].auth, auth)))] else users
    case DropGroup(g) => map id | id in users :: UserCut(users[id], g)
    case _ => users
  }

  function WrittenRoutes(routes: map<string, Route>, w: Write): map<string, Route> {
    match w
    case AddRoute(id, rt) => routes[id := rt.(acl := None)]
    case ReplaceRoute(id, rt) => if id in routes then routes[id := rt.(acl := routes[id].acl)] else routes
    case RemoveRoute(id) => routes - {id}
    case SetAllowList(id, acl) => if id in routes then routes[id := routes[id].(acl := acl)] else routes
    case RenameGroup(g, name) => map id | id in routes :: A.RouteRenamed(routes[id], g, name)
    case DropGroup(g) => map id | id in routes :: A.RouteWithout(routes[id], g)
    case _ => routes
  }

  function UsersAfter(users: map<string, User>, ws: seq<Write>): map<string, User>
    decreases |ws|
  {
    if ws == [] then users else UsersAfter(WrittenUsers(users, ws[0]), ws[1..])
  }

  function RoutesAfter(routes: map<string, Route>, ws: seq<Write>): map<string, Route>
    decreases |ws|
  {
    if ws == [] then routes else RoutesAfter(WrittenRoutes(routes, ws[0]), ws[1..])
  }

  /** A walk over all entries that has changed those not in `todo`. */
  ghost predicate ChangedBut<T>(was: map<string, T>, now: map<string, T>, todo: set<string>, f: T -> T) {
    && todo <= was.Keys == now.Keys
    && (forall k :: k in todo ==> now[k] == was[k])
    && forall k :: k in was && k !in todo ==> now[k] == f(was[k])
  }

  lemma NothingChanged<T>(was: map<string, T>, f: T -> T)
    ensures ChangedBut(was, was, was.Keys, f)
  {
  }

  lemma OneChanged<T>(was: map<string, T>, now: map<string, T>, todo: set<string>, f: T -> T, k: string)
    requires ChangedBut(was, now, todo, f) && k in todo
    ensures k in now && ChangedBut(was, now[k := f(now[k])], todo - {k}, f)
  {
  }

  lemma AllChanged<T>(was: map<string, T>, now: map<string, T>, f: T -> T)
    requires ChangedBut(was, now, {}, f)
    ensures now == map k | k in was :: f(was[k])
  {
  }

  // ---------------------------------------------------------------- the store

  /** Every entry's objects are among `all`, and no two entries share any. */
  ghost predicate Apart(owns: map<string, set<object>>, all: set<object>) {
    && (forall k :: k in owns ==> owns[k] <= all)
    && forall j, k :: j in owns && k in owns && j != k ==> owns[j] !! owns[k]
  }

  lemma ApartUpdate(owns: map<string, set<object>>, all: set<object>, k: string, own: set<object>)
    requires Apart(owns, all) && forall o :: o in own && o in all ==> k in owns && o in owns[k]
    ensures Apart(owns[k := own], all + own)
  {
    var owns' := owns[k := own];
    forall j, i | j in owns' && i in owns' && j != i ensures owns'[j] !! owns'[i] {
      if j == k {
        forall o | o in own ensures o !in owns[i] {}
      } else if i == k {
        forall o | o in own ensures o !in owns[j] {}
      }
    }
  }

  ghost predicate UsersRead(
    users: map<string, UserRecord>, owns: map<string, set<object>>, views: map<string, User>, all: set<object>)
    reads all
  {
    && owns.Keys == users.Keys == views.Keys && Apart(owns, all)
    && forall k :: k in users ==> IsUser(users[k], owns[k], views[k])
  }

  ghost predicate RoutesRead(
    routes: map<string, RouteRecord>, owns: map<string, set<object>>, views: map<string, Route>, all: set<object>)
    reads all
  {
    && owns.Keys == routes.Keys == views.Keys && Apart(owns, all)
    && forall k :: k in routes ==> IsRoute(routes[k], owns[k], views[k])
  }

  lemma UsersReadParts(
    users: map<string, UserRecord>, owns: map<string, set<object>>, views: map<string, User>, all: set<object>, id: string)
    requires UsersRead(users, owns, views, all)
    ensures owns.Keys == users.Keys == views.Keys && Apart(owns, all)
    ensures forall k :: k in users ==> owns[k] <= all && IsUser(users[k], owns[k], views[k])
    ensures id in users ==> forall k :: k in users && k != id ==> owns[k] !! owns[id]
  {
  }

  lemma RoutesReadParts(
    routes: map<string, RouteRecord>, owns: map<string, set<object>>, views: map<string, Route>, all: set<object>, id: string)
    requires RoutesRead(routes, owns, views, all)
    ensures owns.Keys == routes.Keys == views.Keys && Apart(owns, all)
    ensures forall k :: k in routes ==> owns[k] <= all && IsRoute(routes[k], owns[k], views[k])
    ensures id in routes ==> forall k :: k in routes && k != id ==> owns[k] !! owns[id]
  {
  }

  lemma UsersReadUpdate(
    users: map<string, UserRecord>, owns: map<string, set<object>>, views: map<string, User>, all: set<object>,
    id: string, own: set<object>, v: User)
    requires id in users && owns.Keys == views.Keys && users.Keys == owns.Keys + {id}
    requires Apart(owns, all) && forall o :: o in own && o in all ==> id in owns && o in owns[id]
    requires forall j :: j in users && j != id ==> IsUser(users[j], owns[j], views[j])
    requires IsUser(users[id], own, v)
    ensures UsersRead(users, owns[id := own], views[id := v], all + own)
  {
    hide IsUser, Apart;
    ApartUpdate(owns, all, id, own);
  }

  lemma UsersReadRemove(
    users: map<string, UserRecord>, owns: map<string, set<object>>, views: map<string, User>, all: set<object>, id: string)
    requires UsersRead(users, owns, views, all)
    ensures UsersRead(users - {id}, owns - {id}, views - {id}, all)
  {
    hide IsUser;
  }

  lemma RoutesReadUpdate(
    routes: map<string, RouteRecord>, owns: map<string, set<object>>, views: map<string, Route>, all: set<object>,
    id: string, own: set<object>, v: Route)
    requires id in routes && owns.Keys == views.Keys && routes.Keys == owns.Keys + {id}
    requires Apart(owns, all) && forall o :: o in own && o in all ==> id in owns && o in owns[id]
    requires forall j :: j in routes && j != id ==> IsRoute(routes[j], owns[j], views[j])
    requires IsRoute(routes[id], own, v)
    ensures RoutesRead(routes, owns[id := own], views[id := v], all + own)
  {
    hide IsRoute, Apart;
    ApartUpdate(owns, all, id, own);
  }

  lemma RoutesReadRemove(
    routes: map<string, RouteRecord>, owns: map<string, set<object>>, views: map<string, Route>, all: set<object>, id: string)
    requires RoutesRead(routes, owns, views, all)
    ensures RoutesRead(routes - {id}, owns - {id}, views - {id}, all)
  {
    hide IsRoute;
  }

  class Store {
    var users: map<string, UserRecord>
    var routes: map<string, RouteRecord>

    // What the records read as, what belongs to each, and everything that ever did.
    ghost var userViews: map<string, User>
    ghost var userOwns: map<string, set<object>>
    ghost var usersAll: set<object>
    ghost var routeViews: map<string, Route>
    ghost var routeOwns: map<string, set<object>>
    ghost var routesAll: set<object>

    ghost predicate Valid()
      reads this, usersAll, routesAll
    {
      && this !in usersAll && this !in routesAll && usersAll !! routesAll
      && UsersRead(users, userOwns, userViews, usersAll)
      && RoutesRead(routes, routeOwns, routeViews, routesAll)
    }

    constructor ()
      ensures Valid() && userViews == map[] && routeViews == map[] && usersAll == {} && routesAll == {}
    {
      users, routes := map[], map[];
      userViews, userOwns, usersAll := map[], map[], {};
      routeViews, routeOwns, routesAll := map[], map[], {};
    }

    /** Takes down that the record of `k` now reads as `v` and owns `own`. */
    ghost method NoteUser(k: string, own: set<object>, v: User)
      requires this !in usersAll + own && k in users && userOwns.Keys == userViews.Keys && users.Keys == userOwns.Keys + {k}
      requires Apart(userOwns, usersAll) && forall o :: o in own && o in usersAll ==> k in userOwns && o in userOwns[k]
      requires forall j :: j in users && j != k ==> IsUser(users[j], userOwns[j], userViews[j])
      requires IsUser(users[k], own, v)
      modifies this`userViews, this`userOwns, this`usersAll
      ensures UsersRead(users, userOwns, userViews, usersAll)
      ensures userViews == old(userViews)[k := v] && usersAll == old(usersAll) + own
      ensures userOwns == old(userOwns)[k := own]
    {
      hide IsUser, Apart, UsersRead;
      UsersReadUpdate(users, userOwns, userViews, usersAll, k, own, v);
      userViews, userOwns, usersAll := userViews[k := v], userOwns[k := own], usersAll + own;
    }

    ghost method NoteRoute(k: string, own: set<object>, v: Route)
      requires this !in routesAll + own && k in routes && routeOwns.Keys == routeViews.Keys && routes.Keys == routeOwns.Keys + {k}
      requires Apart(routeOwns, routesAll) && forall o :: o in own && o in routesAll ==> k in routeOwns && o in routeOwns[k]
      requires forall j :: j in routes && j != k ==> IsRoute(routes[j], routeOwns[j], routeViews[j])
      requires IsRoute(routes[k], own, v)
      modifies this`routeViews, this`routeOwns, this`routesAll
      ensures RoutesRead(routes, routeOwns, routeViews, routesAll)
      ensures routeViews == old(routeViews)[k := v] && routesAll == old(routesAll) + own
      ensures routeOwns == old(routeOwns)[k := own]
    {
      hide IsRoute, Apart, RoutesRead;
      RoutesReadUpdate(routes, routeOwns, routeViews, routesAll, k, own, v);
      routeViews, routeOwns, routesAll := routeViews[k := v], routeOwns[k := own], routesAll + own;
    }

    method AddUser(id: string, p: Profile)
      requires Valid()
      modifies this`users, this`userViews, this`userOwns, this`usersAll
      ensures Valid() && fresh(usersAll - old(usersAll)) && old(usersAll) <= usersAll
      ensures userViews == WrittenUsers(old(userViews), Write.AddUser(id, p))
    {
      hide IsUser, IsRoute, Apart, UsersRead, RoutesRead;
      UsersReadParts(users, userOwns, userViews, usersAll, id);
      var u := new UserRecord(p);
      users := users[id := u];
      forall k | k in users && k != id ensures IsUser(users[k], userOwns[k], userViews[k]) {
        assert old(IsUser(users[k], userOwns[k], userViews[k]));
      }
      NoteUser(id, {u, u.groupIDs, u.groupIDs.arr}, A.NewUser(p));
    }

    method SetProfile(id: string, p: Profile)
      requires Valid()
      modifies this`userViews, this`userOwns, this`usersAll, usersAll
      ensures Valid() && usersAll == old(usersAll)
      ensures userViews == WrittenUsers(old(userViews), Write.SetProfile(id, p))
    {
      hide IsUser, IsRoute, Apart, UsersRead, RoutesRead;
      UsersReadParts(users, userOwns, userViews, usersAll, id);
      if id in users {
        users[id].SetProfile(p, userOwns[id], userViews[id]);
        forall k | k in users && k != id ensures IsUser(users[k], userOwns[k], userViews[k]) {
          assert old(IsUser(users[k], userOwns[k], userViews[k]));
        }
        NoteUser(id, userOwns[id], A.Profiled(userViews[id], p));
      }
    }

    method RemoveUser(id: string)
      requires Valid()
      modifies this`users, this`userViews, this`userOwns
      ensures Valid() && userViews == WrittenUsers(old(userViews), Write.RemoveUser(id))
    {
      hide UsersRead, RoutesRead;
      UsersReadRemove(users, userOwns, userViews, usersAll, id);
      users, userViews, userOwns := users - {id}, userViews - {id}, userOwns - {id};
    }

    method Assign(id: string, g: string, member: bool)
      requires Valid()
      modifies this`userViews, this`userOwns, this`usersAll, usersAll
      ensures Valid() && fresh(usersAll - old(usersAll)) && old(usersAll) <= usersAll
      ensures !member ==> usersAll == old(usersAll)
      ensures userViews == WrittenUsers(old(userViews), Write.Assign(id, g, member))
    {
      hide IsUser, IsRoute, Apart, UsersRead, RoutesRead;
      UsersReadParts(users, userOwns, userViews, usersAll, id);
      if id in users {
        ghost var own := users[id].Assign(g, member, userOwns[id], userViews[id]);
        forall k | k in users && k != id ensures IsUser(users[k], userOwns[k], userViews[k]) {
          assert old(IsUser(users[k], userOwns[k], userViews[k]));
        }
        NoteUser(id, own, userViews[id].(groupIDs := AssignedInPlace(userViews[id].groupIDs, g, member)));
      }
    }

    method MergeCredentials(id: string, auth: Credentials)
      requires Valid()
      modifies this`userViews, this`userOwns, this`usersAll, usersAll
      ensures Valid() && fresh(usersAll - old(usersAll)) && old(usersAll) <= usersAll
      ensures userViews == WrittenUsers(old(userViews), Write.MergeCredentials(id, auth))
    {
      hide IsUser, IsRoute, Apart, UsersRead, RoutesRead;
      UsersReadParts(users, userOwns, userViews, usersAll, id);
      if id in users {
        ghost var own := users[id].Merge(auth, userOwns[id], userViews[id]);
        forall k | k in users && k != id ensures IsUser(users[k], userOwns[k], userViews[k]) {
          assert old(IsUser(users[k], userOwns[k], userViews[k]));
        }
        NoteUser(id, own, userViews[id].(auth := Some(A.Merged(userViews[id].auth, auth))));
      }
    }

    /** Takes the group out of one consumer's list after the other, each in its own array. */
    method DropFromUsers(g: string)
      requires Valid()
      modifies this`userViews, this`userOwns, this`usersAll, usersAll
      ensures Valid() && usersAll == old(usersAll)
      ensures userViews == WrittenUsers(old(userViews), Write.DropGroup(g))
    {
      hide IsUser, IsRoute, Apart, UsersRead, RoutesRead, ChangedBut;
      var todo := users.Keys;
      ghost var was, f := userViews, (u: User) => UserCut(u, g);
      UsersReadParts(users, userOwns, userViews, usersAll, "");
      NothingChanged(was, f);
      hide Valid;
      while todo != {}
        invariant Valid() && usersAll == old(usersAll)
        invariant ChangedBut(was, userViews, todo, f)
        decreases |todo|
      {
        var k :| k in todo;
        OneChanged(was, userViews, todo, f, k);
        todo := todo - {k};
        DropFromUser(k, g);
      }
      AllChanged(was, userViews, f);
    }

    method DropFromUser(id: string, g: string)
      requires Valid() && id in userViews
      modifies this`userViews, this`userOwns, this`usersAll, usersAll
      ensures Valid() && usersAll == old(usersAll)
      ensures userViews == old(userViews)[id := UserCut(old(userViews)[id], g)]
    {
      hide UsersRead, RoutesRead;
      Assign(id, g, false);
    }

    /** A new route comes without an allow-list. */
    method AddRoute(id: string, rt: Route)
      requires Valid()
      modifies this`routes, this`routeViews, this`routeOwns, this`routesAll
      ensures Valid() && fresh(routesAll - old(routesAll)) && old(routesAll) <= routesAll
      ensures routeViews == WrittenRoutes(old(routeViews), Write.AddRoute(id, rt))
    {
      hide IsUser, Apart, UsersRead, RoutesRead;
      RoutesReadParts(routes, routeOwns, routeViews, routesAll, id);
      var r := new RouteRecord(rt.(acl := None), null);
      PlaceRoute(id, r, {r}, rt.(acl := None));
    }

    /** The new record's allow-list is a copy of the old one's. */
    method ReplaceRoute(id: string, rt: Route)
      requires Valid()
      modifies this`routes, this`routeViews, this`routeOwns, this`routesAll
      ensures Valid() && fresh(routesAll - old(routesAll)) && old(routesAll) <= routesAll
      ensures routeViews == WrittenRoutes(old(routeViews), Write.ReplaceRoute(id, rt))
    {
      hide IsUser, IsRoute, Apart, UsersRead, RoutesRead;
      RoutesReadParts(routes, routeOwns, routeViews, routesAll, id);
      if id in routes {
        var r, own := routes[id].CopyWith(rt, routeOwns[id], routeViews[id]);
        PlaceRoute(id, r, own, rt.(acl := routeViews[id].acl));
      }
    }

    /** A record that nothing else refers to takes the place of the stored one. */
    method PlaceRoute(id: string, r: RouteRecord, ghost own: set<object>, ghost v: Route)
      requires Valid() && this !in own && own !! usersAll && own !! routesAll && IsRoute(r, own, v)
      modifies this`routes, this`routeViews, this`routeOwns, this`routesAll
      ensures Valid() && routesAll == old(routesAll) + own && routeViews == old(routeViews)[id := v]
    {
      hide IsUser, IsRoute, Apart, UsersRead, RoutesRead;
      RoutesReadParts(routes, routeOwns, routeViews, routesAll, id);
      routes := routes[id := r];
      forall k | k in routes && k != id ensures IsRoute(routes[k], routeOwns[k], routeViews[k]) {
        assert old(IsRoute(routes[k], routeOwns[k], routeViews[k]));
      }
      NoteRoute(id, own, v);
    }

    method RemoveRoute(id: string)
      requires Valid()
      modifies this`routes, this`routeViews, this`routeOwns
      ensures Valid() && routeViews == WrittenRoutes(old(routeViews), Write.RemoveRoute(id))
    {
      hide UsersRead, RoutesRead;
      RoutesReadRemove(routes, routeOwns, routeViews, routesAll, id);
      routes, routeViews, routeOwns := routes - {id}, routeViews - {id}, routeOwns - {id};
    }

    /** The request's own list becomes the route's, without a copy. */
    method SetAllowList(id: string, given: AllowList?, ghost mine: set<object>, ghost acl: Option<Acl>)
      requires Valid() && this !in mine && mine !! usersAll && mine !! routesAll && IsAllowList(given, mine, acl)
      modifies this`routeViews, this`routeOwns, this`routesAll, routesAll
      ensures Valid() && old(routesAll) <= routesAll <= old(routesAll) + mine
      ensures routeViews == WrittenRoutes(old(routeViews), Write.SetAllowList(id, acl))
    {
      hide IsUser, IsRoute, IsAllowList, Apart, UsersRead, RoutesRead;
      RoutesReadParts(routes, routeOwns, routeViews, routesAll, id);
      if id in routes {
        routes[id].SetAllowList(given, routeOwns[id], routeViews[id], mine, acl);
        forall k | k in routes && k != id ensures IsRoute(routes[k], routeOwns[k], routeViews[k]) {
          assert old(IsRoute(routes[k], routeOwns[k], routeViews[k]));
        }
        NoteRoute(id, routeOwns[id] + mine, routeViews[id].(acl := acl));
      }
    }

    method RenameInRoutes(g: string, name: string)
      requires Valid()
      modifies this`routeViews, this`routeOwns, this`routesAll, routesAll
      ensures Valid() && routesAll == old(routesAll)
      ensures routeViews == WrittenRoutes(old(routeViews), Write.RenameGroup(g, name))
    {
      hide IsUser, IsRoute, Apart, UsersRead, RoutesRead, ChangedBut;
      var todo := routes.Keys;
      ghost var was, f := routeViews, (r: Route) => A.RouteRenamed(r, g, name);
      RoutesReadParts(routes, routeOwns, routeViews, routesAll, "");
      NothingChanged(was, f);
      hide Valid;
      while todo != {}
        invariant Valid() && routesAll == old(routesAll)
        invariant ChangedBut(was, routeViews, todo, f)
        decreases |todo|
      {
        var k :| k in todo;
        OneChanged(was, routeViews, todo, f, k);
        todo := todo - {k};
        RenameIn(k, g, name);
      }
      AllChanged(was, routeViews, f);
    }

    method RenameIn(id: string, g: string, name: string)
      requires Valid() && id in routeViews
      modifies this`routeViews, this`routeOwns, this`routesAll, routesAll
      ensures Valid() && routesAll == old(routesAll)
      ensures routeViews == old(routeViews)[id := A.RouteRenamed(old(routeViews)[id], g, name)]
    {
      hide IsUser, IsRoute, Apart, UsersRead, RoutesRead;
      RoutesReadParts(routes, routeOwns, routeViews, routesAll, id);
      routes[id].RenameGroup(g, name, routeOwns[id], routeViews[id]);
      forall k | k in routes && k != id ensures IsRoute(routes[k], routeOwns[k], routeViews[k]) {
        assert old(IsRoute(routes[k], routeOwns[k], routeViews[k]));
      }
      NoteRoute(id, routeOwns[id], A.RouteRenamed(routeViews[id], g, name));
    }

    method DropFromRoutes(g: string)
      requires Valid()
      modifies this`routeViews, this`routeOwns, this`routesAll, routesAll
      ensures Valid() && routesAll == old(routesAll)
      ensures routeViews == WrittenRoutes(old(routeViews), Write.DropGroup(g))
    {
      hide IsUser, IsRoute, Apart, UsersRead, RoutesRead, ChangedBut;
      var todo := routes.Keys;
      ghost var was, f := routeViews, (r: Route) => A.RouteWithout(r, g);
      RoutesReadParts(routes, routeOwns, routeViews, routesAll, "");
      NothingChanged(was, f);
      hide Valid;
      while todo != {}
        invariant Valid() && routesAll == old(routesAll)
        invariant ChangedBut(was, routeViews, todo, f)
        decreases |todo|
      {
        var k :| k in todo;
        OneChanged(was, routeViews, todo, f, k);
        todo := todo - {k};
        DropIn(k, g);
      }
      AllChanged(was, routeViews, f);
    }

    method DropIn(id: string, g: string)
      requires Valid() && id in routeViews
      modifies this`routeViews, this`routeOwns, this`routesAll, routesAll
      ensures Valid() && routesAll == old(routesAll)
      ensures routeViews == old(routeViews)[id := A.RouteWithout(old(routeViews)[id], g)]
    {
      hide IsUser, IsRoute, Apart, UsersRead, RoutesRead;
      RoutesReadParts(routes, routeOwns, routeViews, routesAll, id);
      routes[id].DropGroup(g, routeOwns[id], routeViews[id]);
      forall k | k in routes && k != id ensures IsRoute(routes[k], routeOwns[k], routeViews[k]) {
        assert old(IsRoute(routes[k], routeOwns[k], routeViews[k]));
      }
      NoteRoute(id, routeOwns[id], A.RouteWithout(routeViews[id], g));
    }

    /** What a reader is given. */
    method GetUser(id: string) returns (u: UserRecord?, ghost mine: set<object>)
      requires Valid()
      ensures u == null <==> id !in users
      ensures u != null ==> id in userViews && fresh(mine) && IsUser(u, mine, userViews[id])
    {
      hide IsUser, IsRoute, Apart, UsersRead, RoutesRead;
      UsersReadParts(users, userOwns, userViews, usersAll, id);
      if id !in users {
        return null, {};
      }
      u, mine := users[id].Copy(userOwns[id], userViews[id]);
    }

    method GetRoute(id: string) returns (r: RouteRecord?, ghost mine: set<object>)
      requires Valid()
      ensures r == null <==> id !in routes
      ensures r != null ==> id in routeViews && fresh(mine) && IsRoute(r, mine, routeViews[id])
    {
      hide IsUser, IsRoute, Apart, UsersRead, RoutesRead;
      RoutesReadParts(routes, routeOwns, routeViews, routesAll, id);
      if id !in routes {
        return null, {};
      }
      r, mine := routes[id].Copy(routeOwns[id], routeViews[id]);
    }

    /** What a write means for the consumers. */
    method WriteUsers(w: Write)
      requires Valid()
      modifies this`users, this`userViews, this`userOwns, this`usersAll, usersAll
      ensures Valid() && fresh(usersAll - old(usersAll))
      ensures userViews == WrittenUsers(old(userViews), w)
    {
      hide Valid;
      match w
      case AddUser(id, p) => AddUser(id, p);
      case SetProfile(id, p) => SetProfile(id, p);
      case RemoveUser(id) => RemoveUser(id);
      case Assign(id, g, member) => Assign(id, g, member);
      case MergeCredentials(id, auth) => MergeCredentials(id, auth);
      case DropGroup(g) => DropFromUsers(g);
      case _ =>
    }

    /** What it means for the routes; a list to be set arrives in a record of its own. */
    method WriteRoutes(w: Write)
      requires Valid()
      modifies this`routes, this`routeViews, this`routeOwns, this`routesAll, routesAll
      ensures Valid() && fresh(routesAll - old(routesAll))
      ensures routeViews == WrittenRoutes(old(routeViews), w)
    {
      hide Valid;
      match w
      case AddRoute(id, rt) => AddRoute(id, rt);
      case ReplaceRoute(id, rt) => ReplaceRoute(id, rt);
      case RemoveRoute(id) => RemoveRoute(id);
      case SetAllowList(id, acl) => SetCopied(id, acl);
      case RenameGroup(g, name) => RenameInRoutes(g, name);
      case DropGroup(g) => DropFromRoutes(g);
      case _ =>
    }

    method SetCopied(id: string, acl: Option<Acl>)
      requires Valid()
      modifies this`routes, this`routeViews, this`routeOwns, this`routesAll, routesAll
      ensures Valid() && fresh(routesAll - old(routesAll))
      ensures routeViews == WrittenRoutes(old(routeViews), Write.SetAllowList(id, acl))
    {
      hide Apart, UsersRead, RoutesRead;
      if acl.None? {
        SetAllowList(id, null, {}, None);
      } else {
        var given := new AllowList(acl.value);
        hide IsAllowList;
        SetAllowList(id, given, {given, given.groups, given.groups.arr}, acl);
      }
    }

    method Apply(w: Write)
      requires Valid()
      modifies this, usersAll, routesAll
      ensures Valid() && fresh(usersAll - old(usersAll)) && fresh(routesAll - old(routesAll))
      ensures userViews == WrittenUsers(old(userViews), w) && routeViews == WrittenRoutes(old(routeViews), w)
    {
      hide UsersRead, RoutesRead, WrittenUsers, WrittenRoutes;
      WriteUsers(w);
      WriteRoutes(w);
    }
  }

  // ---------------------------------------------------------------- what a reader holds

  method Run(s: Store, ws: seq<Write>)
    requires s.Valid()
    modifies s, s.usersAll, s.routesAll
    ensures s.Valid() && fresh(s.usersAll - old(s.usersAll)) && fresh(s.routesAll - old(s.routesAll))
    ensures s.userViews == UsersAfter(old(s.userViews), ws) && s.routeViews == RoutesAfter(old(s.routeViews), ws)
  {
    hide UsersRead, RoutesRead, WrittenUsers, WrittenRoutes;
    var i := 0;
    while i < |ws|
      invariant 0 <= i <= |ws| && s.Valid()
      invariant UsersAfter(s.userViews, ws[i..]) == UsersAfter(old(s.userViews), ws)
      invariant RoutesAfter(s.routeViews, ws[i..]) == RoutesAfter(old(s.routeViews), ws)
      invariant fresh(s.usersAll - old(s.usersAll)) && fresh(s.routesAll - old(s.routesAll))
    {
      assert ws[i..][0] == ws[i] && ws[i..][1..] == ws[i + 1..];
      s.Apply(ws[i]);
      i := i + 1;
    }
  }

  /**
   However many writes follow, of whatever kind and to whatever consumers and
   routes, a consumer and a route handed out before read as they did when they
   were taken, and nothing of them ever becomes the store's.
   */
  method SnapshotsSurvive(s: Store, userID: string, routeID: string, ws: seq<Write>)
    returns (u: UserRecord?, r: RouteRecord?, ghost mine: set<object>)
    requires s.Valid()
    modifies s, s.usersAll, s.routesAll
    ensures s.Valid()
    ensures s.userViews == UsersAfter(old(s.userViews), ws) && s.routeViews == RoutesAfter(old(s.routeViews), ws)
    ensures fresh(mine) && s !in mine && mine !! s.usersAll && mine !! s.routesAll
    ensures (u != null <==> userID in old(s.userViews)) && (r != null <==> routeID in old(s.routeViews))
    ensures u != null ==> IsUser(u, mine, old(s.userViews)[userID])
    ensures r != null ==> IsRoute(r, mine, old(s.routeViews)[routeID])
  {
    hide IsUser, IsRoute, UsersRead, RoutesRead, UsersAfter, RoutesAfter;
    ghost var mineU, mineR;
    UsersReadParts(s.users, s.userOwns, s.userViews, s.usersAll, userID);
    RoutesReadParts(s.routes, s.routeOwns, s.routeViews, s.routesAll, routeID);
    u, mineU := s.GetUser(userID);
    r, mineR := s.GetRoute(routeID);
    mineU, mineR := if u == null then {} else mineU, if r == null then {} else mineR;
    mine := mineU + mineR;
    if u != null {
      LargerUser(u, mineU, mine, s.userViews[userID]);
    }
    if r != null {
      LargerRoute(r, mineR, mine, s.routeViews[routeID]);
    }

    Run(s, ws);
  }

  lemma LargerUser(u: UserRecord, own: set<object>, more: set<object>, v: User)
    requires IsUser(u, own, v) && own <= more
    ensures IsUser(u, more, v)
  {
  }

  lemma LargerRoute(r: RouteRecord, own: set<object>, more: set<object>, v: Route)
    requires IsRoute(r, own, v) && own <= more
    ensures IsRoute(r, more, v)
  {
  }

  /** Nor does what a caller writes into its copy reach the store: no object of the store is written. */
  method CallerWritesStayOutside(s: Store, id: string, g: string, member: bool, auth: Credentials)
    returns (u: UserRecord?, ghost mine: set<object>)
    requires s.Valid()
    ensures s.Valid() && unchanged(s) && unchanged(s.usersAll) && unchanged(s.routesAll)
    ensures u != null <==> id in s.userViews
    ensures u != null ==>
              fresh(mine)
              && var v := s.userViews[id].(groupIDs := AssignedInPlace(s.userViews[id].groupIDs, g, member));
                 IsUser(u, mine, v.(auth := Some(A.Merged(v.auth, auth))))
  {
    hide IsUser, UsersRead, RoutesRead;
    UsersReadParts(s.users, s.userOwns, s.userViews, s.usersAll, id);
    u, mine := s.GetUser(id);
    if u != null {
      var v := s.userViews[id].(groupIDs := AssignedInPlace(s.userViews[id].groupIDs, g, member));
      mine := u.Assign(g, member, mine, s.userViews[id]);
      mine := u.Merge(auth, mine, v);
    }
  }

  // ---------------------------------------------------------------- every call is such a write

  /** What a call of the control plane does to consumers and routes is one write, or nothing. */
  ghost predicate Writes(s: G.State, s': G.State, w: Option<Write>) {
    && s'.users == (if w.Some? then WrittenUsers(s.users, w.value) else s.users)
    && s'.routes == (if w.Some? then WrittenRoutes(s.routes, w.value) else s.routes)
  }

  lemma MembershipsCut(users: map<string, User>, groups: map<string, Group>, g: string)
    requires A.Members(users, groups)
    ensures (map u | u in users :: A.UserWithout(users[u], g)) == WrittenUsers(users, DropGroup(g))
  {
    forall u | u in users ensures A.UserWithout(users[u], g) == UserCut(users[u], g) {
      KeptIsWithout(users[u].groupIDs, g);
    }
  }

  lemma AssignIsWrite(d: A.Directory, id: string, key: string, member: bool) returns (w: Option<Write>)
    requires A.DirectoryInv(d.users, d.groups) && A.AssignUserGroup(d, id, key, member).status == Done
    ensures w.Some? && A.AssignUserGroup(d, id, key, member).state.users == WrittenUsers(d.users, w.value)
    ensures A.AssignUserGroup(d, id, key, member).state.routes == WrittenRoutes(d.routes, w.value)
  {
    var g :| A.Addresses(d.groups, key, g);
    A.AssignIs(d, id, key, member, g);
    KeptIsWithout(d.users[id].groupIDs, g);
    w := Some(Assign(id, g, member));
  }

  lemma AccessIsWrite(d: A.Directory, op: A.Op) returns (w: Option<Write>)
    requires A.DirectoryInv(d.users, d.groups)
    ensures var d' := A.StepDirectory(d, op).state;
            && d'.users == (if w.Some? then WrittenUsers(d.users, w.value) else d.users)
            && d'.routes == (if w.Some? then WrittenRoutes(d.routes, w.value) else d.routes)
  {
    if A.StepDirectory(d, op).status != Done {
      A.RefusedLeavesDirectory(d, op);
      return None;
    }
    hide Unique, Taken, Distinct, A.CredentialTaken;
    match op
    case CreatingUser(id, p) => w := Some(AddUser(id, p));
    case UpdatingUser(id, p) => w := Some(SetProfile(id, p));
    case DeletingUser(id) => w := Some(RemoveUser(id));
    case Assigning(id, key, member) => w := AssignIsWrite(d, id, key, member);
    case Upserting(id, auth) => w := Some(MergeCredentials(id, auth));
    case CreatingGroup(id, g) => w := None;
    case UpdatingGroup(id, name) => w := Some(RenameGroup(id, name));
    case DeletingGroup(id) =>
      MembershipsCut(d.users, d.groups, id);
      w := Some(DropGroup(id));
  }

  lemma RouteCallIsWrite(s: G.State, op: R.Op) returns (w: Option<Write>)
    requires R.Fresh(s.routes, op)
    ensures var routes' := R.Step(s.routes, s.bindings.services, s.names.domains, s.groups, op).state;
            routes' == if w.Some? then WrittenRoutes(s.routes, w.value) else s.routes
    ensures w.Some? ==> WrittenUsers(s.users, w.value) == s.users
  {
    var r := R.Step(s.routes, s.bindings.services, s.names.domains, s.groups, op);
    if r.status != Done {
      R.RefusedChangesNothing(s.routes, s.bindings.services, s.names.domains, s.groups, op);
      return None;
    }
    match op
    case CreatingRoute(id, _, _) => w := Some(AddRoute(id, r.state[id]));
    case UpdatingRoute(_, id, _) => w := Some(ReplaceRoute(id, r.state[id]));
    case DeletingRoute(_, id) => w := Some(RemoveRoute(id));
    case Authorizing(_, id, _) => w := Some(SetAllowList(id, r.state[id].acl));
  }

  lemma StepIsWrite(plans: seq<string>, s: G.State, op: G.Op) returns (w: Option<Write>)
    requires G.Inv(s) && G.Fresh(s, op)
    ensures Writes(s, G.Step(plans, s, op).state, w)
  {
    hide A.DirectoryInv, A.StepDirectory, R.Step, S.Step, D.StepNames, WrittenUsers, WrittenRoutes, R.Fresh;
    hide R.Inv, S.Inv, D.NamesInv, S.Fresh, A.FreshID, D.FreshName;
    match op
    case OnRoutes(o) => w := RouteCallIsWrite(s, o);
    case OnAccess(o) => w := AccessIsWrite(A.Directory(s.users, s.groups, s.routes), o);
    case _ => w := None;
  }

  /** So the writes of `SnapshotsSurvive` cover every run of the control plane. */
  lemma {:induction false} RunIsWrites(plans: seq<string>, s: G.State, ops: seq<G.Op>) returns (ws: seq<Write>)
    requires G.Inv(s) && G.IsRun(plans, s, ops)
    ensures G.Run(plans, s, ops).users == UsersAfter(s.users, ws)
    ensures G.Run(plans, s, ops).routes == RoutesAfter(s.routes, ws)
    decreases |ops|
  {
    if ops == [] {
      return [];
    }
    hide G.Inv, G.Step, G.Fresh, WrittenUsers, WrittenRoutes;
    var w := StepIsWrite(plans, s, ops[0]);
    G.StepKeepsInv(plans, s, ops[0]);
    ws := RunIsWrites(plans, G.Step(plans, s, ops[0]).state, ops[1..]);
    if w.Some? {
      assert ([w.value] + ws)[1..] == ws;
      ws := [w.value] + ws;
    }
  }
}

/**
 Consumers, their credentials and groups, and the group names routes carry.
 Deleting a group cascades into memberships and allow-lists.
 */
module GatewayAccess {
  import opened Prelude
  import opened OrderLists
  import opened KeyedMaps
  import opened GatewayState
  import opened GatewayRoutes

  datatype Directory = Directory(users: map<string, User>, groups: map<string, Group>, routes: map<string, Route>)

  // ---------------------------------------------------------------- what holds

  /** No membership is held twice, and every one is of a live group. */
  ghost predicate Members(users: map<string, User>, groups: map<string, Group>) {
    forall u :: u in users ==> Distinct(users[u].groupIDs) && forall g :: g in users[u].groupIDs ==> g in groups
  }

  /** Whatever identifies a consumer identifies one consumer only. */
  ghost predicate CredentialsUnique(users: map<string, User>) {
    Unique(users, BasicKey) && Unique(users, JwtKey) && Unique(users, HmacKey)
  }

  ghost predicate DirectoryInv(users: map<string, User>, groups: map<string, Group>) {
    && Unique(users, UserKey) && Unique(groups, GroupKey)
    && CredentialsUnique(users)
    && Members(users, groups)
  }

  // ---------------------------------------------------------------- operations

  /** A new consumer starts without groups and credentials. */
  function NewUser(p: Profile): User {
    User(p.name, p.customID, p.tags, p.restriction, [], None)
  }

  function Profiled(u: User, p: Profile): User {
    u.(name := p.name, customID := p.customID, tags := p.tags, restriction := p.restriction)
  }

  ghost function CreateUser(d: Directory, id: string, p: Profile): Outcome<Directory> {
    if Taken(d.users, UserKey, Some(p.name), {}) then Outcome(d, Conflict)
    else Outcome(d.(users := d.users[id := NewUser(p)]), Done)
  }

  ghost function UpdateUser(d: Directory, id: string, p: Profile): Outcome<Directory> {
    if id !in d.users then Outcome(d, NotFound)
    else if Taken(d.users, UserKey, Some(p.name), {id}) then Outcome(d, Conflict)
    else Outcome(d.(users := d.users[id := Profiled(d.users[id], p)]), Done)
  }

  function DeleteUser(d: Directory, id: string): Outcome<Directory> {
    if id !in d.users then Outcome(d, NotFound) else Outcome(d.(users := d.users - {id}), Done)
  }

  /** A group is addressed by identifier or, failing that, by name. */
  ghost predicate Addresses(groups: map<string, Group>, key: string, id: string) {
    id in groups && if key in groups then id == key else groups[id].name == key
  }

  function Assigned(groupIDs: seq<string>, id: string, member: bool): seq<string> {
    if member then (if id in groupIDs then groupIDs else groupIDs + [id]) else Kept(groupIDs, {id})
  }

  ghost function AssignUserGroup(d: Directory, userID: string, key: string, member: bool): Outcome<Directory> {
    if userID !in d.users then Outcome(d, NotFound)
    else if !exists g :: Addresses(d.groups, key, g) then Outcome(d, NotFound)
    else
      var g :| Addresses(d.groups, key, g);
      var u := d.users[userID];
      Outcome(d.(users := d.users[userID := u.(groupIDs := Assigned(u.groupIDs, g, member))]), Done)
  }

  /** A given credential replaces the stored one of its kind under the same identifier; the others stay. */
  function Merged(stored: Option<Credentials>, auth: Credentials): Credentials {
    var cur := if stored.Some? then stored.value else Credentials(None, None, None);
    Credentials(
      match auth.basic
      case None => cur.basic
      case Some(b) => Some(if cur.basic.Some? then b.(id := cur.basic.value.id) else b),
      match auth.jwt
      case None => cur.jwt
      case Some(j) => Some(if cur.jwt.Some? then j.(id := cur.jwt.value.id) else j),
      match auth.hmac
      case None => cur.hmac
      case Some(h) => Some(if cur.hmac.Some? then h.(id := cur.hmac.value.id) else h))
  }

  function AskedBasic(auth: Credentials): Option<string> {
    if auth.basic.Some? then Some(auth.basic.value.userName) else None
  }

  function AskedJwt(auth: Credentials): Option<string> {
    if auth.jwt.Some? then Some(auth.jwt.value.key) else None
  }

  function AskedHmac(auth: Credentials): Option<string> {
    if auth.hmac.Some? then Some(auth.hmac.value.userName) else None
  }

  ghost predicate CredentialTaken(users: map<string, User>, userID: string, auth: Credentials) {
    || Taken(users, BasicKey, AskedBasic(auth), {userID})
    || Taken(users, JwtKey, AskedJwt(auth), {userID})
    || Taken(users, HmacKey, AskedHmac(auth), {userID})
  }

  /** New credentials carry fresh identifiers; they are used only where none was stored. */
  ghost function UpsertUserAuthentication(d: Directory, userID: string, auth: Credentials): Outcome<Directory> {
    if userID !in d.users then Outcome(d, NotFound)
    else if CredentialTaken(d.users, userID, auth) then Outcome(d, BadRequest)
    else
      var u := d.users[userID];
      Outcome(d.(users := d.users[userID := u.(auth := Some(Merged(u.auth, auth)))]), Done)
  }

  ghost function CreateGroup(d: Directory, id: string, g: Group): Outcome<Directory> {
    if Taken(d.groups, GroupKey, Some(g.name), {}) then Outcome(d, Conflict)
    else Outcome(d.(groups := d.groups[id := g]), Done)
  }

  function EntriesRenamed(entries: seq<AclEntry>, id: string, name: string): (r: seq<AclEntry>)
    ensures |r| == |entries|
    ensures forall i :: 0 <= i < |entries| ==> r[i] == if entries[i].id == id then entries[i].(name := name) else entries[i]
  {
    if entries == [] then []
    else [if entries[0].id == id then entries[0].(name := name) else entries[0]] + EntriesRenamed(entries[1..], id, name)
  }

  function EntriesWithout(entries: seq<AclEntry>, id: string): seq<AclEntry> {
    if entries == [] then []
    else if entries[0].id == id then EntriesWithout(entries[1..], id)
    else [entries[0]] + EntriesWithout(entries[1..], id)
  }

  lemma {:induction false} EntriesLeft(entries: seq<AclEntry>, id: string)
    ensures forall e :: e in EntriesWithout(entries, id) <==> e in entries && e.id != id
  {
    if entries != [] {
      EntriesLeft(entries[1..], id);
    }
  }

  function RouteRenamed(rt: Route, id: string, name: string): Route {
    if rt.acl.None? then rt
    else rt.(acl := Some(rt.acl.value.(groups := EntriesRenamed(rt.acl.value.groups, id, name))))
  }

  function RouteWithout(rt: Route, id: string): Route {
    if rt.acl.None? then rt
    else rt.(acl := Some(rt.acl.value.(groups := EntriesWithout(rt.acl.value.groups, id))))
  }

  ghost function UpdateGroup(d: Directory, id: string, name: string): Outcome<Directory> {
    if id !in d.groups then Outcome(d, NotFound)
    else if Taken(d.groups, GroupKey, Some(name), {id}) then Outcome(d, Conflict)
    else Outcome(d.(groups := d.groups[id := d.groups[id].(name := name)],
                    routes := map r | r in d.routes :: RouteRenamed(d.routes[r], id, name)), Done)
  }

  function UserWithout(u: User, id: string): User {
    u.(groupIDs := Kept(u.groupIDs, {id}))
  }

  /** The group goes from every membership and every allow-list. */
  function DeleteGroup(d: Directory, id: string): Outcome<Directory> {
    if id !in d.groups then Outcome(d, NotFound)
    else Outcome(d.(groups := d.groups - {id},
                    users := map u | u in d.users :: UserWithout(d.users[u], id),
                    routes := map r | r in d.routes :: RouteWithout(d.routes[r], id)), Done)
  }

  // ---------------------------------------------------------------- one step

  datatype Op =
    | CreatingUser(id: string, profile: Profile)
    | UpdatingUser(id: string, profile: Profile)
    | DeletingUser(id: string)
    | Assigning(userID: string, key: string, member: bool)
    | Upserting(userID: string, auth: Credentials)
    | CreatingGroup(id: string, group: Group)
    | UpdatingGroup(id: string, name: string)
    | DeletingGroup(id: string)

  predicate FreshID(d: Directory, op: Op) {
    match op
    case CreatingUser(id, _) => id !in d.users
    case CreatingGroup(id, _) => id !in d.groups
    case _ => true
  }

  ghost function StepDirectory(d: Directory, op: Op): Outcome<Directory> {
    match op
    case CreatingUser(id, p) => CreateUser(d, id, p)
    case UpdatingUser(id, p) => UpdateUser(d, id, p)
    case DeletingUser(id) => DeleteUser(d, id)
    case Assigning(userID, key, member) => AssignUserGroup(d, userID, key, member)
    case Upserting(userID, auth) => UpsertUserAuthentication(d, userID, auth)
    case CreatingGroup(id, g) => CreateGroup(d, id, g)
    case UpdatingGroup(id, name) => UpdateGroup(d, id, name)
    case DeletingGroup(id) => DeleteGroup(d, id)
  }

  // ---------------------------------------------------------------- every step keeps it

  /** Among groups with unique names an address means one group. */
  lemma AddressIsUnique(groups: map<string, Group>, key: string, g: string, h: string)
    requires Unique(groups, GroupKey) && Addresses(groups, key, g) && Addresses(groups, key, h)
    ensures g == h
  {
    assert GroupKey(groups[g]).Some? && (groups[g].name == groups[h].name ==> GroupKey(groups[g]) == GroupKey(groups[h]));
  }

  /** Whichever addressed group is taken, the call comes to the same. */
  lemma AssignIs(d: Directory, userID: string, key: string, member: bool, g: string)
    requires Unique(d.groups, GroupKey) && userID in d.users && Addresses(d.groups, key, g)
    ensures AssignUserGroup(d, userID, key, member) ==
            Outcome(d.(users := d.users[userID := d.users[userID].(groupIDs := Assigned(d.users[userID].groupIDs, g, member))]), Done)
  {
    var h :| Addresses(d.groups, key, h)
      && AssignUserGroup(d, userID, key, member).state.users
         == d.users[userID := d.users[userID].(groupIDs := Assigned(d.users[userID].groupIDs, h, member))];
    AddressIsUnique(d.groups, key, g, h);
  }

  lemma UserPlaced(users: map<string, User>, groups: map<string, Group>, id: string, u: User)
    requires DirectoryInv(users, groups)
    requires !Taken(users, UserKey, UserKey(u), {id})
    requires !Taken(users, BasicKey, BasicKey(u), {id}) && !Taken(users, JwtKey, JwtKey(u), {id}) && !Taken(users, HmacKey, HmacKey(u), {id})
    requires Distinct(u.groupIDs) && forall g :: g in u.groupIDs ==> g in groups
    ensures DirectoryInv(users[id := u], groups)
  {
    hide Unique, Taken, UserKey, BasicKey, JwtKey, HmacKey, Distinct;
    UniqueUpdate(users, UserKey, id, u);
    UniqueUpdate(users, BasicKey, id, u);
    UniqueUpdate(users, JwtKey, id, u);
    UniqueUpdate(users, HmacKey, id, u);
  }

  /** A consumer's own key, where it has one, is taken by no other. */
  lemma OwnKeyIsFree<K>(users: map<string, User>, keyOf: User -> Option<K>, id: string)
    requires Unique(users, keyOf) && id in users
    ensures !Taken(users, keyOf, keyOf(users[id]), {id})
  {
  }

  lemma OwnKeysAreFree(users: map<string, User>, groups: map<string, Group>, id: string)
    requires DirectoryInv(users, groups) && id in users
    ensures !Taken(users, UserKey, UserKey(users[id]), {id})
    ensures !Taken(users, BasicKey, BasicKey(users[id]), {id})
    ensures !Taken(users, JwtKey, JwtKey(users[id]), {id})
    ensures !Taken(users, HmacKey, HmacKey(users[id]), {id})
  {
    hide Unique, Taken, UserKey, BasicKey, JwtKey, HmacKey, Members;
    OwnKeyIsFree(users, UserKey, id);
    OwnKeyIsFree(users, BasicKey, id);
    OwnKeyIsFree(users, JwtKey, id);
    OwnKeyIsFree(users, HmacKey, id);
  }

  lemma CreateUserKeepsInv(d: Directory, id: string, p: Profile)
    requires DirectoryInv(d.users, d.groups) && id !in d.users
    ensures DirectoryInv(CreateUser(d, id, p).state.users, CreateUser(d, id, p).state.groups)
  {
    if CreateUser(d, id, p).status == Done {
      hide Unique, Members;
      var u := NewUser(p);
      FreshTaken(d.users, UserKey, Some(p.name), id);
      UserPlaced(d.users, d.groups, id, u);
    }
  }

  lemma UpdateUserKeepsInv(d: Directory, id: string, p: Profile)
    requires DirectoryInv(d.users, d.groups)
    ensures DirectoryInv(UpdateUser(d, id, p).state.users, UpdateUser(d, id, p).state.groups)
  {
    if UpdateUser(d, id, p).status == Done {
      var u := Profiled(d.users[id], p);
      assert Distinct(u.groupIDs) && forall g :: g in u.groupIDs ==> g in d.groups;
      hide Unique, Members, Taken, Distinct;
      OwnKeysAreFree(d.users, d.groups, id);
      UserPlaced(d.users, d.groups, id, u);
    }
  }

  lemma AssignedKeeps(groupIDs: seq<string>, id: string, member: bool)
    requires Distinct(groupIDs)
    ensures Distinct(Assigned(groupIDs, id, member))
    ensures forall g :: g in Assigned(groupIDs, id, member) <==> if g == id then member else g in groupIDs
  {
    KeptDistinct(groupIDs, {id});
  }

  lemma AssignUserGroupKeepsInv(d: Directory, userID: string, key: string, member: bool)
    requires DirectoryInv(d.users, d.groups)
    ensures DirectoryInv(AssignUserGroup(d, userID, key, member).state.users, d.groups)
    ensures AssignUserGroup(d, userID, key, member).state.groups == d.groups
  {
    if AssignUserGroup(d, userID, key, member).status == Done {
      var g :| Addresses(d.groups, key, g)
        && AssignUserGroup(d, userID, key, member).state.users
           == d.users[userID := d.users[userID].(groupIDs := Assigned(d.users[userID].groupIDs, g, member))];
      var u := d.users[userID].(groupIDs := Assigned(d.users[userID].groupIDs, g, member));
      AssignedKeeps(d.users[userID].groupIDs, g, member);
      hide Unique, Taken, Distinct;
      OwnKeysAreFree(d.users, d.groups, userID);
      UserPlaced(d.users, d.groups, userID, u);
    }
  }

  lemma MergedKeys(u: User, auth: Credentials)
    ensures var v := u.(auth := Some(Merged(u.auth, auth)));
            && BasicKey(v) == (if auth.basic.Some? then AskedBasic(auth) else BasicKey(u))
            && JwtKey(v) == (if auth.jwt.Some? then AskedJwt(auth) else JwtKey(u))
            && HmacKey(v) == (if auth.hmac.Some? then AskedHmac(auth) else HmacKey(u))
  {
  }

  /** What is given is stored, under the identifier the kind already had; what is not given is not touched. */
  lemma MergeReplacesGivenKinds(stored: Option<Credentials>, auth: Credentials)
    ensures var m := Merged(stored, auth);
            && (auth.basic.Some? ==>
                  m.basic.Some? && m.basic.value.userName == auth.basic.value.userName
                  && m.basic.value.password == auth.basic.value.password
                  && (stored.Some? && stored.value.basic.Some? ==> m.basic.value.id == stored.value.basic.value.id))
            && (auth.jwt.Some? ==>
                  m.jwt.Some? && m.jwt.value.key == auth.jwt.value.key && m.jwt.value.secret == auth.jwt.value.secret
                  && m.jwt.value.algorithm == auth.jwt.value.algorithm
                  && (stored.Some? && stored.value.jwt.Some? ==> m.jwt.value.id == stored.value.jwt.value.id))
            && (auth.hmac.Some? ==>
                  m.hmac.Some? && m.hmac.value.userName == auth.hmac.value.userName
                  && m.hmac.value.secret == auth.hmac.value.secret
                  && (stored.Some? && stored.value.hmac.Some? ==> m.hmac.value.id == stored.value.hmac.value.id))
            && (stored.Some? ==>
                  && (auth.basic.None? ==> m.basic == stored.value.basic)
                  && (auth.jwt.None? ==> m.jwt == stored.value.jwt)
                  && (auth.hmac.None? ==> m.hmac == stored.value.hmac))
  {
  }

  lemma UpsertKeepsInv(d: Directory, userID: string, auth: Credentials)
    requires DirectoryInv(d.users, d.groups)
    ensures DirectoryInv(UpsertUserAuthentication(d, userID, auth).state.users, d.groups)
    ensures UpsertUserAuthentication(d, userID, auth).state.groups == d.groups
  {
    if UpsertUserAuthentication(d, userID, auth).status == Done {
      var u := d.users[userID];
      var v := u.(auth := Some(Merged(u.auth, auth)));
      assert Distinct(v.groupIDs) && forall g :: g in v.groupIDs ==> g in d.groups;
      hide Unique, Taken, Members, Merged, BasicKey, JwtKey, HmacKey, Distinct;
      MergedKeys(u, auth);
      OwnKeysAreFree(d.users, d.groups, userID);
      UserPlaced(d.users, d.groups, userID, v);
    }
  }

  lemma DeleteUserKeepsInv(d: Directory, id: string)
    requires DirectoryInv(d.users, d.groups)
    ensures DirectoryInv(DeleteUser(d, id).state.users, d.groups)
  {
    hide Unique;
    var users := DeleteUser(d, id).state.users;
    UniqueSameKeys(d.users, users, UserKey);
    UniqueSameKeys(d.users, users, BasicKey);
    UniqueSameKeys(d.users, users, JwtKey);
    UniqueSameKeys(d.users, users, HmacKey);
  }

  lemma CreateGroupKeepsInv(d: Directory, id: string, g: Group)
    requires DirectoryInv(d.users, d.groups) && AclLive(d.routes, d.groups) && id !in d.groups
    ensures DirectoryInv(d.users, CreateGroup(d, id, g).state.groups)
    ensures AclLive(d.routes, CreateGroup(d, id, g).state.groups)
  {
    if CreateGroup(d, id, g).status == Done {
      hide Unique;
      NewNameIsUnique(d.groups, GroupKey, id, g);
    }
  }

  lemma UpdateGroupKeepsInv(d: Directory, id: string, name: string)
    requires DirectoryInv(d.users, d.groups) && AclLive(d.routes, d.groups)
    ensures DirectoryInv(d.users, UpdateGroup(d, id, name).state.groups)
    ensures AclLive(UpdateGroup(d, id, name).state.routes, UpdateGroup(d, id, name).state.groups)
  {
    if UpdateGroup(d, id, name).status == Done {
      hide Unique;
      UniqueUpdate(d.groups, GroupKey, id, d.groups[id].(name := name));
    }
  }

  lemma UsersWithoutKept(users: map<string, User>, groups: map<string, Group>, id: string)
    requires Members(users, groups)
    ensures Members(map u | u in users :: UserWithout(users[u], id), groups - {id})
  {
    forall u | u in users ensures Distinct(UserWithout(users[u], id).groupIDs) {
      KeptDistinct(users[u].groupIDs, {id});
    }
  }

  lemma RoutesWithoutLive(routes: map<string, Route>, groups: map<string, Group>, id: string)
    requires AclLive(routes, groups)
    ensures AclLive(map r | r in routes :: RouteWithout(routes[r], id), groups - {id})
  {
    forall r | r in routes && routes[r].acl.Some?
      ensures EntriesLive(RouteWithout(routes[r], id).acl.value.groups, groups - {id})
    {
      EntriesLeft(routes[r].acl.value.groups, id);
    }
  }

  lemma DeleteGroupKeepsInv(d: Directory, id: string)
    requires DirectoryInv(d.users, d.groups) && AclLive(d.routes, d.groups)
    ensures DirectoryInv(DeleteGroup(d, id).state.users, DeleteGroup(d, id).state.groups)
    ensures AclLive(DeleteGroup(d, id).state.routes, DeleteGroup(d, id).state.groups)
  {
    if id in d.groups {
      hide Unique, Members, AclLive, RouteWithout, Kept;
      var d' := DeleteGroup(d, id).state;
      UsersWithoutKept(d.users, d.groups, id);
      RoutesWithoutLive(d.routes, d.groups, id);
      UniqueSameKeys(d.users, d'.users, UserKey);
      UniqueSameKeys(d.users, d'.users, BasicKey);
      UniqueSameKeys(d.users, d'.users, JwtKey);
      UniqueSameKeys(d.users, d'.users, HmacKey);
      UniqueSameKeys(d.groups, d'.groups, GroupKey);
    }
  }

  /** Only the allow-lists of routes change here; everything else about a route stays. */
  ghost predicate SameButAcl(routes: map<string, Route>, routes': map<string, Route>) {
    routes'.Keys == routes.Keys && forall r :: r in routes ==> routes'[r] == routes[r].(acl := routes'[r].acl)
  }

  lemma DirectoryStepKeepsInv(d: Directory, op: Op)
    requires DirectoryInv(d.users, d.groups) && AclLive(d.routes, d.groups) && FreshID(d, op)
    ensures var d' := StepDirectory(d, op).state;
            DirectoryInv(d'.users, d'.groups) && AclLive(d'.routes, d'.groups) && SameButAcl(d.routes, d'.routes)
  {
    hide DirectoryInv, AclLive;
    match op
    case CreatingUser(id, p) => CreateUserKeepsInv(d, id, p);
    case UpdatingUser(id, p) => UpdateUserKeepsInv(d, id, p);
    case DeletingUser(id) => DeleteUserKeepsInv(d, id);
    case Assigning(userID, key, member) => AssignUserGroupKeepsInv(d, userID, key, member);
    case Upserting(userID, auth) => UpsertKeepsInv(d, userID, auth);
    case CreatingGroup(id, g) => CreateGroupKeepsInv(d, id, g);
    case UpdatingGroup(id, name) => UpdateGroupKeepsInv(d, id, name);
    case DeletingGroup(id) => DeleteGroupKeepsInv(d, id);
  }

  lemma RefusedLeavesDirectory(d: Directory, op: Op)
    ensures StepDirectory(d, op).status != Done ==> StepDirectory(d, op).state == d
  {
  }

  /** A rename changes no list but the names in it, and leaves no old name behind. */
  lemma RenameReachesEveryEntry(d: Directory, id: string, name: string)
    requires UpdateGroup(d, id, name).status == Done
    ensures var d' := UpdateGroup(d, id, name).state;
            && d'.groups[id].name == name
            && forall r :: r in d.routes && d.routes[r].acl.Some? ==>
                 && d'.routes[r].acl.Some? && |d'.routes[r].acl.value.groups| == |d.routes[r].acl.value.groups|
                 && forall i :: 0 <= i < |d.routes[r].acl.value.groups| ==>
                      var e, e' := d.routes[r].acl.value.groups[i], d'.routes[r].acl.value.groups[i];
                      e'.id == e.id && e'.enabled == e.enabled && e'.name == if e.id == id then name else e.name
  {
  }
}

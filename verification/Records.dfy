/**
 Consumers and routes as the store keeps them: records behind pointers, with
 membership lists and allow-lists over arrays and with credentials behind
 pointers of their own, all of which are written in place; and the copies of
 them that are handed out, which share none of these.
 */
module Records {
  import opened Prelude
  import opened GatewayState
  import opened Slices
  import A = GatewayAccess

  // ---------------------------------------------------------------- a consumer's record

  class Credential<T> {
    var value: T

    constructor (value: T)
      ensures this.value == value
    {
      this.value := value;
    }
  }

  /** What is behind the pointer, all of it within `own`. */
  ghost predicate IsCredential<T>(p: Credential?<T>, own: set<object>, v: Option<T>)
    reads own
  {
    if p == null then v.None? else p in own && v == Some(p.value)
  }

  ghost predicate IsAuthentication(p: Authentication?, own: set<object>, v: Option<Credentials>)
    reads own
  {
    if p == null then v.None?
    else
      && p in own && v.Some?
      && IsCredential(p.basic, own, v.value.basic)
      && IsCredential(p.jwt, own, v.value.jwt)
      && IsCredential(p.hmac, own, v.value.hmac)
  }

  ghost predicate IsList<T(0)>(p: Slice<T>, own: set<object>, v: seq<T>)
    reads own
  {
    p in own && p.arr in own && p.Valid() && p.Value().View() == v
  }

  /** The record reads as the consumer `v`, and its list, array and credentials are all within `own`. */
  ghost predicate IsUser(u: UserRecord, own: set<object>, v: User)
    reads own
  {
    && u in own
    && u.name == v.name && u.customID == v.customID && u.tags == v.tags && u.restriction == v.restriction
    && IsList(u.groupIDs, own, v.groupIDs)
    && IsAuthentication(u.auth, own, v.auth)
  }

  /** A copy of one credential, or none of none. */
  method CopyCredential<T>(p: Credential?<T>, ghost v: Option<T>) returns (c: Credential?<T>)
    requires p == null <==> v.None?
    requires p != null ==> v == Some(p.value)
    ensures c == null <==> v.None?
    ensures c != null ==> fresh(c) && v == Some(c.value)
  {
    if p == null {
      return null;
    }
    c := new Credential(p.value);
  }

  class Authentication {
    var basic: Credential?<Basic>
    var jwt: Credential?<Jwt>
    var hmac: Credential?<Hmac>

    constructor ()
      ensures IsAuthentication(this, {this}, Some(Credentials(None, None, None)))
    {
      basic, jwt, hmac := null, null, null;
    }

    /** Writes the given credential over the stored one, which keeps its identifier, or stores a new one. */
    method PutBasic(b: Basic, ghost own: set<object>, ghost v: Credentials) returns (ghost own': set<object>)
      requires IsAuthentication(this, own, Some(v))
      modifies this`basic, basic
      ensures own <= own' && fresh(own' - own)
      ensures IsAuthentication(this, own', Some(A.Merged(Some(v), Credentials(Some(b), None, None))))
    {
      if basic == null {
        basic := new Credential(b);
      } else {
        basic.value := basic.value.(userName := b.userName, password := b.password);
      }
      own' := own + {basic};
    }

    method PutJwt(j: Jwt, ghost own: set<object>, ghost v: Credentials) returns (ghost own': set<object>)
      requires IsAuthentication(this, own, Some(v))
      modifies this`jwt, jwt
      ensures own <= own' && fresh(own' - own)
      ensures IsAuthentication(this, own', Some(A.Merged(Some(v), Credentials(None, Some(j), None))))
    {
      if jwt == null {
        jwt := new Credential(j);
      } else {
        jwt.value := jwt.value.(key := j.key, secret := j.secret, algorithm := j.algorithm);
      }
      own' := own + {jwt};
    }

    method PutHmac(h: Hmac, ghost own: set<object>, ghost v: Credentials) returns (ghost own': set<object>)
      requires IsAuthentication(this, own, Some(v))
      modifies this`hmac, hmac
      ensures own <= own' && fresh(own' - own)
      ensures IsAuthentication(this, own', Some(A.Merged(Some(v), Credentials(None, None, Some(h)))))
    {
      if hmac == null {
        hmac := new Credential(h);
      } else {
        hmac.value := hmac.value.(userName := h.userName, secret := h.secret);
      }
      own' := own + {hmac};
    }

    /** Only the kinds given are written. */
    method Merge(given: Credentials, ghost own: set<object>, ghost v: Credentials) returns (ghost own': set<object>)
      requires IsAuthentication(this, own, Some(v))
      modifies this, basic, jwt, hmac
      ensures own <= own' && fresh(own' - own)
      ensures IsAuthentication(this, own', Some(A.Merged(Some(v), given)))
    {
      hide IsAuthentication;
      ghost var now := v;
      own' := own;
      if given.basic.Some? {
        own' := PutBasic(given.basic.value, own', now);
        now := A.Merged(Some(now), Credentials(given.basic, None, None));
      }
      if given.jwt.Some? {
        own' := PutJwt(given.jwt.value, own', now);
        now := A.Merged(Some(now), Credentials(None, given.jwt, None));
      }
      if given.hmac.Some? {
        own' := PutHmac(given.hmac.value, own', now);
        now := A.Merged(Some(now), Credentials(None, None, given.hmac));
      }
      assert now == A.Merged(Some(v), given);
    }

    /** The same credentials behind pointers of their own. */
    method Copy(ghost own: set<object>, ghost v: Credentials) returns (c: Authentication, ghost mine: set<object>)
      requires IsAuthentication(this, own, Some(v))
      ensures fresh(mine) && IsAuthentication(c, mine, Some(v))
    {
      c := new Authentication();
      c.basic := CopyCredential(basic, v.basic);
      c.jwt := CopyCredential(jwt, v.jwt);
      c.hmac := CopyCredential(hmac, v.hmac);
      mine := {c};
      mine := if c.basic == null then mine else mine + {c.basic};
      mine := if c.jwt == null then mine else mine + {c.jwt};
      mine := if c.hmac == null then mine else mine + {c.hmac};
    }
  }

  class UserRecord {
    var name: string
    var customID: string
    var tags: seq<string>
    var restriction: Option<Restriction>
    var groupIDs: Slice<string>
    var auth: Authentication?

    /** A consumer starts without groups and credentials. */
    constructor (p: Profile)
      ensures fresh(groupIDs) && fresh(groupIDs.arr)
      ensures IsUser(this, {this, groupIDs, groupIDs.arr}, A.NewUser(p))
    {
      name, customID, tags, restriction := p.name, p.customID, p.tags, p.restriction;
      groupIDs := new Slice([]);
      auth := null;
    }

    method SetProfile(p: Profile, ghost own: set<object>, ghost v: User)
      requires IsUser(this, own, v)
      modifies own
      ensures IsUser(this, own, A.Profiled(v, p))
    {
      name, customID, tags, restriction := p.name, p.customID, p.tags, p.restriction;
    }

    /** Adds a membership behind the end, or takes the first one out in place. */
    method Assign(g: string, member: bool, ghost own: set<object>, ghost v: User) returns (ghost own': set<object>)
      requires IsUser(this, own, v)
      modifies own
      ensures own <= own' && fresh(own' - own)
      ensures !member ==> own' == own
      ensures IsUser(this, own', v.(groupIDs := AssignedInPlace(v.groupIDs, g, member)))
    {
      var arr, len := groupIDs.arr, groupIDs.len;
      if member {
        var listed := false;
        var i := 0;
        while i < len && !listed
          invariant 0 <= i <= len
          invariant listed <==> g in v.groupIDs[..i]
        {
          assert v.groupIDs[..i + 1] == v.groupIDs[..i] + [arr[i]];
          listed := arr[i] == g;
          i := i + 1;
        }
        if !listed {
          assert v.groupIDs[..i] == v.groupIDs;
          groupIDs.Append(g);
        }
      } else {
        RemovedReads(groupIDs.Value(), g);
        groupIDs.RemoveFirst(g);
      }
      own' := own + {groupIDs.arr};
    }

    /** Writes what is given into the stored credentials, which keep their identifiers; a kind not stored yet is new. */
    method Merge(given: Credentials, ghost own: set<object>, ghost v: User) returns (ghost own': set<object>)
      requires IsUser(this, own, v)
      modifies own
      ensures own <= own' && fresh(own' - own)
      ensures IsUser(this, own', v.(auth := Some(A.Merged(v.auth, given))))
    {
      ghost var before := if v.auth.Some? then v.auth.value else Credentials(None, None, None);
      ghost var mine := own;
      if auth == null {
        auth := new Authentication();
        mine := own + {auth};
      }
      assert A.Merged(v.auth, given) == A.Merged(Some(before), given);
      own' := auth.Merge(given, mine, before);
    }

    /** A record that reads the same and shares no list, array or credential. */
    method Copy(ghost own: set<object>, ghost v: User) returns (c: UserRecord, ghost mine: set<object>)
      requires IsUser(this, own, v)
      ensures fresh(mine) && IsUser(c, mine, v)
    {
      c := new UserRecord(Profile(name, customID, tags, restriction));
      c.groupIDs := groupIDs.Clone();
      mine := {c, c.groupIDs, c.groupIDs.arr};
      if auth != null {
        ghost var creds;
        c.auth, creds := auth.Copy(own, v.auth.value);
        mine := mine + creds;
      }
    }
  }

  function AssignedInPlace(groupIDs: seq<string>, g: string, member: bool): seq<string> {
    if member then (if g in groupIDs then groupIDs else groupIDs + [g]) else Without(groupIDs, g)
  }

  // ---------------------------------------------------------------- a route's record

  class AllowList {
    var isEnabled: bool
    var groups: Slice<AclEntry>

    /** As a request brings it: a list of its own. */
    constructor (v: Acl)
      ensures fresh(groups) && fresh(groups.arr)
      ensures IsAllowList(this, {this, groups, groups.arr}, Some(v))
    {
      isEnabled := v.isEnabled;
      groups := new Slice(v.groups);
    }
  }

  ghost predicate IsAllowList(p: AllowList?, own: set<object>, v: Option<Acl>)
    reads own
  {
    if p == null then v.None?
    else p in own && v.Some? && p.isEnabled == v.value.isEnabled && IsList(p.groups, own, v.value.groups)
  }

  /** The fields other than the allow-list are only ever replaced together with the record. */
  ghost predicate IsRoute(rt: RouteRecord, own: set<object>, v: Route)
    reads own
  {
    rt in own && rt.fields.(acl := None) == v.(acl := None) && IsAllowList(rt.acl, own, v.acl)
  }

  class RouteRecord {
    var fields: Route
    var acl: AllowList?

    constructor (fields: Route, acl: AllowList?)
      ensures this.fields == fields && this.acl == acl
    {
      this.fields, this.acl := fields, acl;
    }

    /** Another allow-list, or none, takes the place of this one: the pointer is taken over. */
    method SetAllowList(given: AllowList?, ghost own: set<object>, ghost v: Route, ghost mine: set<object>, ghost acl: Option<Acl>)
      requires IsRoute(this, own, v) && IsAllowList(given, mine, acl)
      modifies own
      ensures IsRoute(this, own + mine, v.(acl := acl))
    {
      this.acl := given;
    }

    /** The name is written into every entry of the group, in place. */
    method RenameGroup(id: string, name: string, ghost own: set<object>, ghost v: Route)
      requires IsRoute(this, own, v)
      modifies own
      ensures IsRoute(this, own, A.RouteRenamed(v, id, name))
    {
      if acl != null {
        var rename := (e: AclEntry) => if e.id == id then e.(name := name) else e;
        RewrittenReads(acl.groups.Value(), rename);
        RenamedIsMapped(v.acl.value.groups, id, name, rename);
        acl.groups.Rewrite(rename);
      }
    }

    /** The filter reuses the front of the list's own array. */
    method DropGroup(id: string, ghost own: set<object>, ghost v: Route)
      requires IsRoute(this, own, v)
      modifies own
      ensures IsRoute(this, own, A.RouteWithout(v, id))
    {
      if acl != null {
        var gone := (e: AclEntry) => e.id == id;
        CompactedReads(acl.groups.Value(), gone);
        WithoutIsDropped(v.acl.value.groups, id, gone);
        acl.groups.Drop(gone);
      }
    }

    /** A record that reads the same and shares no list or array. */
    method Copy(ghost own: set<object>, ghost v: Route) returns (c: RouteRecord, ghost mine: set<object>)
      requires IsRoute(this, own, v)
      ensures fresh(mine) && IsRoute(c, mine, v)
    {
      c, mine := CopyWith(fields, own, v);
    }

    /** The fields given with a copy of this record's allow-list. */
    method CopyWith(fields: Route, ghost own: set<object>, ghost v: Route)
      returns (c: RouteRecord, ghost mine: set<object>)
      requires IsRoute(this, own, v)
      ensures fresh(mine) && IsRoute(c, mine, fields.(acl := v.acl))
    {
      c := new RouteRecord(fields, null);
      mine := {c};
      if acl != null {
        var cloned := acl.groups.Clone();
        c.acl := new AllowList(Acl(acl.isEnabled, []));
        c.acl.groups := cloned;
        mine := {c, c.acl, cloned, cloned.arr};
      }
    }
  }

  lemma RenamedIsMapped(entries: seq<AclEntry>, id: string, name: string, f: AclEntry -> AclEntry)
    requires forall e :: f(e) == if e.id == id then e.(name := name) else e
    ensures Mapped(entries, f) == A.EntriesRenamed(entries, id, name)
  {
  }

  lemma {:induction false} WithoutIsDropped(entries: seq<AclEntry>, id: string, test: AclEntry -> bool)
    requires forall e :: test(e) <==> e.id == id
    ensures Dropped(entries, test) == A.EntriesWithout(entries, id)
  {
    if entries != [] {
      WithoutIsDropped(entries[1..], id, test);
    }
  }
}

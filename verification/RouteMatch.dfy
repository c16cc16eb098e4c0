/**
 Choosing the route of a request: the store's per-host list, the path match, and
 the two sorts, over a map that is walked in any order. Regular expressions and
 hostname folding are uninterpreted functions.
 */
module RouteMatch {
  import opened Prelude
  import opened Sorting
  import opened GatewayState
  import GatewayRoutes

  /** Where an expression first matches a text. */
  datatype Span = Span(start: nat, end: nat)

  /**
   What the library gives: a pattern compiles or not, a compiled one finds its
   leftmost match or none, and two hostnames are the same up to case or not.
   */
  datatype Library = Library(
    find: (string, string) -> Option<Span>, compiles: string -> bool, sameHost: (string, string) -> bool)
  {
    ghost predicate Valid() {
      forall p, text {:trigger find(p, text)} :: find(p, text).Some? ==> find(p, text).value.start <= find(p, text).value.end <= |text|
    }
  }

  datatype Entry = Entry(id: string, route: Route)

  // ---------------------------------------------------------------- creation order

  predicate StringLess(a: string, b: string) {
    if b == "" then false
    else if a == "" then true
    else if a[0] != b[0] then a[0] < b[0]
    else StringLess(a[1..], b[1..])
  }

  lemma {:induction false} StringLessIsTotal(a: string, b: string)
    ensures !(StringLess(a, b) && StringLess(b, a))
    ensures a != b ==> StringLess(a, b) || StringLess(b, a)
  {
    if a != "" && b != "" && a[0] == b[0] {
      StringLessIsTotal(a[1..], b[1..]);
      assert a == [a[0]] + a[1..] && b == [b[0]] + b[1..];
    }
  }

  lemma {:induction false} StringLessComposes(a: string, b: string, c: string)
    requires StringLess(a, b) && !StringLess(c, b)
    ensures StringLess(a, c)
  {
    if a != "" && c != "" && a[0] == b[0] == c[0] {
      StringLessComposes(a[1..], b[1..], c[1..]);
    }
  }

  /** Identifiers compare at the first place where they differ; an end comes before any character. */
  lemma {:induction false} StringLessMeans(a: string, b: string)
    ensures StringLess(a, b) <==>
            exists k {:trigger a[..k]} :: 0 <= k <= |a| && k < |b| && a[..k] == b[..k] && (k == |a| || a[k] < b[k])
  {
    if a != "" && b != "" && a[0] == b[0] {
      var a', b' := a[1..], b[1..];
      StringLessMeans(a', b');
      if StringLess(a', b') {
        var k :| 0 <= k <= |a'| && k < |b'| && a'[..k] == b'[..k] && (k == |a'| || a'[k] < b'[k]);
        assert a[..k + 1] == [a[0]] + a'[..k] && b[..k + 1] == [b[0]] + b'[..k];
      }
      forall k | 0 <= k <= |a| && k < |b| && a[..k] == b[..k] && (k == |a| || a[k] < b[k])
        ensures StringLess(a', b')
      {
        assert k > 0 && a'[..k - 1] == a[..k][1..] && b'[..k - 1] == b[..k][1..];
      }
    } else if b != "" {
      assert a[..0] == b[..0];
      forall k | 0 < k <= |a| && k < |b| ensures a[..k][0] == a[0] && b[..k][0] == b[0] {}
    }
  }

  predicate CreatedBefore(a: Entry, b: Entry) {
    if a.route.createdAt != b.route.createdAt then a.route.createdAt < b.route.createdAt else StringLess(a.id, b.id)
  }

  lemma CreationIsOrder()
    ensures StrictWeak(CreatedBefore)
    ensures forall a: Entry, b: Entry :: a.id != b.id ==> CreatedBefore(a, b) || CreatedBefore(b, a)
  {
    forall a: Entry, b: Entry
      ensures CreatedBefore(a, b) ==> !CreatedBefore(b, a)
      ensures a.id != b.id ==> CreatedBefore(a, b) || CreatedBefore(b, a)
    {
      StringLessIsTotal(a.id, b.id);
    }
    forall a: Entry, b: Entry, c: Entry | CreatedBefore(a, b) && !CreatedBefore(c, b) ensures CreatedBefore(a, c) {
      if a.route.createdAt == b.route.createdAt == c.route.createdAt {
        StringLessComposes(a.id, b.id, c.id);
      }
    }
  }

  // ---------------------------------------------------------------- the host's routes

  /** The hosts the route lists, or the auto-issued one if it lists none. */
  function EffectiveHosts(rt: Route): seq<string> {
    if rt.hosts == [] then [rt.host] else rt.hosts
  }

  ghost predicate Answers(lib: Library, rt: Route, host: string) {
    exists h :: h in EffectiveHosts(rt) && lib.sameHost(h, host)
  }

  method AnswersOn(lib: Library, rt: Route, host: string) returns (yes: bool)
    ensures yes == Answers(lib, rt, host)
  {
    var hosts := rt.hosts;
    if |hosts| == 0 {
      hosts := [rt.host];
    }
    assert hosts == EffectiveHosts(rt);
    var i := 0;
    while i < |hosts|
      invariant 0 <= i <= |hosts|
      invariant forall k :: 0 <= k < i ==> !lib.sameHost(hosts[k], host)
    {
      if lib.sameHost(hosts[i], host) {
        assert hosts[i] in hosts;
        return true;
      }
      i := i + 1;
    }
    yes := false;
  }

  /** In order of creation, each earlier one strictly before each later one. */
  ghost predicate InCreationOrder(entries: seq<Entry>) {
    forall i, j :: 0 <= i < j < |entries| ==> CreatedBefore(entries[i], entries[j])
  }

  /** Exactly the routes on the host, oldest first, whatever order the map is walked in. */
  method RoutesByHost(lib: Library, routes: map<string, Route>, host: string) returns (out: seq<Entry>)
    ensures forall e :: e in out <==> e.id in routes && e.route == routes[e.id] && Answers(lib, e.route, host)
    ensures InCreationOrder(out)
  {
    var found: seq<Entry> := [];
    var todo := routes.Keys;
    while todo != {}
      invariant todo <= routes.Keys
      invariant forall e :: e in found <==>
                  e.id in routes && e.id !in todo && e.route == routes[e.id] && Answers(lib, e.route, host)
      invariant forall i, j :: 0 <= i < j < |found| ==> found[i].id != found[j].id
      decreases |todo|
    {
      var r :| r in todo;
      todo := todo - {r};
      var yes := AnswersOn(lib, routes[r], host);
      if yes {
        found := found + [Entry(r, routes[r])];
      }
    }
    CreationIsOrder();
    ghost var from;
    out, from := Sort(found, CreatedBefore);
    SortedById(found, out, from);
  }

  /** Sorting entries of distinct routes by creation leaves no room for ties. */
  lemma SortedById(found: seq<Entry>, out: seq<Entry>, from: seq<nat>)
    requires forall i, j :: 0 <= i < j < |found| ==> found[i].id != found[j].id
    requires Rearranged(found, out, from) && Sorted(out, CreatedBefore)
    ensures forall e :: e in out <==> e in found
    ensures InCreationOrder(out)
  {
    forall e ensures e in out <==> e in found {
      assert e in multiset(out) <==> e in multiset(found);
    }
    forall i, j | 0 <= i < j < |out| ensures CreatedBefore(out[i], out[j]) {
      assert out[i].id != out[j].id;
      CreationIsOrder();
    }
  }

  // ---------------------------------------------------------------- the path

  /** What is left of the path, how much of it was matched, and whether by an expression. */
  datatype Hit = Hit(stripped: string, matched: nat, regex: bool)

  predicate HasPrefix(s: string, prefix: string) {
    |prefix| <= |s| && s[..|prefix|] == prefix
  }

  function EnsureLeadingSlash(p: string): (r: string)
    ensures r != "" && r[0] == '/'
    ensures p != "" && p[0] == '/' ==> r == p
  {
    if p == "" then "/" else if p[0] != '/' then "/" + p else p
  }

  /** A path with a leading tilde is an expression that must match from the start; any other is a literal prefix. */
  function MatchPath(lib: Library, rt: Route, path: string): Option<Hit>
    requires lib.Valid()
  {
    var routePath := if rt.path == "" then "/" else rt.path;
    if HasPrefix(routePath, "~/") then
      if !lib.compiles(routePath[1..]) then None
      else
        var loc := lib.find(routePath[1..], path);
        if loc.None? || loc.value.start != 0 then None
        else Some(Hit(EnsureLeadingSlash(path[loc.value.end..]), loc.value.end, true))
    else if !HasPrefix(path, routePath) then None
    else Some(Hit(EnsureLeadingSlash(path[|routePath|..]), |routePath|, false))
  }

  /** What is sent upstream: the rest of the path, unless the route keeps the whole. */
  function UpstreamPath(rt: Route, hit: Hit, path: string): string {
    if rt.stripPath == Some(false) then path else hit.stripped
  }

  predicate MethodAllowed(methods: seq<string>, verb: string) {
    methods == [] || verb in methods
  }

  // ---------------------------------------------------------------- what is promised of a selection

  datatype Request = Request(host: string, path: string, verb: string)

  /** The path of a route is an expression when it begins with a tilde and a slash. */
  predicate IsExpression(rt: Route) {
    "~/" <= rt.path
  }

  /** The literal prefix a route that is not an expression asks for. */
  function Prefix(rt: Route): string {
    if rt.path == "" then "/" else rt.path
  }

  /** The request's host is one of the route's, its method is allowed, and its path begins as the route's says. */
  ghost predicate Takes(lib: Library, rt: Route, req: Request) {
    && (exists h :: h in (if rt.hosts == [] then [rt.host] else rt.hosts) && lib.sameHost(h, req.host))
    && (rt.methods == [] || req.verb in rt.methods)
    && if IsExpression(rt)
       then lib.compiles(rt.path[1..]) && lib.find(rt.path[1..], req.path).Some? && lib.find(rt.path[1..], req.path).value.start == 0
       else Prefix(rt) <= req.path
  }

  ghost predicate NotYounger(a: Entry, b: Entry) {
    a.route.createdAt < b.route.createdAt ||
    (a.route.createdAt == b.route.createdAt && (a.id == b.id || StringLess(a.id, b.id)))
  }

  /**
   An expression loses only to one of a lower priority, a prefix to any
   expression and to a longer prefix; equal ones only to an older route.
   */
  ghost predicate Wins(a: Entry, b: Entry) {
    && (IsExpression(b.route) ==>
          && IsExpression(a.route) && a.route.regexPriority <= b.route.regexPriority
          && (a.route.regexPriority == b.route.regexPriority ==> NotYounger(a, b)))
    && (!IsExpression(a.route) ==>
          && |Prefix(a.route)| >= |Prefix(b.route)|
          && (|Prefix(a.route)| == |Prefix(b.route)| ==> NotYounger(a, b)))
  }

  /** The part of the path that the route's own matched. */
  function MatchedPart(lib: Library, rt: Route, path: string): nat {
    if !IsExpression(rt) then |Prefix(rt)|
    else if lib.find(rt.path[1..], path).Some? then lib.find(rt.path[1..], path).value.end else 0
  }

  /** What goes upstream: the whole path, or what the route left of it behind a slash. */
  ghost predicate Forwards(lib: Library, rt: Route, path: string, upstream: string) {
    && (rt.stripPath == Some(false) ==> upstream == path)
    && (rt.stripPath != Some(false) ==>
          && MatchedPart(lib, rt, path) <= |path|
          && var rest := path[MatchedPart(lib, rt, path)..];
             upstream == if "/" <= rest then rest else "/" + rest)
  }

  // ---------------------------------------------------------------- the choice

  datatype Candidate = Candidate(entry: Entry, hit: Hit)

  /** The route answers on the host, matches the path and allows the method. */
  ghost predicate Eligible(lib: Library, routes: map<string, Route>, req: Request, c: Candidate)
    requires lib.Valid()
  {
    && c.entry.id in routes && c.entry.route == routes[c.entry.id]
    && Answers(lib, c.entry.route, req.host)
    && MatchPath(lib, c.entry.route, req.path) == Some(c.hit)
    && MethodAllowed(c.entry.route.methods, req.verb)
  }

  /** The comparison of the second sort: kinds first, then each kind by its own measure. */
  predicate RanksAbove(a: Candidate, b: Candidate) {
    if a.hit.regex != b.hit.regex then a.hit.regex
    else if a.hit.regex then a.entry.route.regexPriority < b.entry.route.regexPriority
    else a.hit.matched > b.hit.matched
  }

  lemma RankIsOrder()
    ensures StrictWeak(RanksAbove)
  {
  }

  /** Expressions first, by lowest priority; prefixes by greatest length; then the older; then the smaller identifier. */
  predicate Precedes(a: Candidate, b: Candidate) {
    RanksAbove(a, b) || (!RanksAbove(b, a) && CreatedBefore(a.entry, b.entry))
  }

  /** The candidate that precedes every other one. */
  ghost predicate IsBest(lib: Library, routes: map<string, Route>, req: Request, c: Candidate)
    requires lib.Valid()
  {
    && Eligible(lib, routes, req, c)
    && forall d :: Eligible(lib, routes, req, d) && d != c ==> Precedes(c, d)
  }

  /** There is at most one best candidate: the choice is a function of the routes. */
  lemma BestIsUnique(lib: Library, routes: map<string, Route>, req: Request, c: Candidate, d: Candidate)
    requires lib.Valid() && IsBest(lib, routes, req, c) && IsBest(lib, routes, req, d)
    ensures c == d
  {
    CreationIsOrder();
    assert c != d ==> Precedes(c, d) && Precedes(d, c);
  }

  /** A route is a candidate exactly when it takes the request; its hit then says what of the path it matched and left. */
  lemma EligibleMeans(lib: Library, routes: map<string, Route>, req: Request, c: Candidate)
    requires lib.Valid()
    ensures Eligible(lib, routes, req, c) ==> c.entry.id in routes && c.entry.route == routes[c.entry.id]
    ensures c.entry.id in routes && c.entry.route == routes[c.entry.id] ==>
              (Takes(lib, c.entry.route, req) <==>
                 exists hit :: Eligible(lib, routes, req, Candidate(c.entry, hit)))
    ensures Eligible(lib, routes, req, c) ==>
              && c.hit.regex == IsExpression(c.entry.route)
              && c.hit.matched == MatchedPart(lib, c.entry.route, req.path) <= |req.path|
              && Forwards(lib, c.entry.route, req.path, UpstreamPath(c.entry.route, c.hit, req.path))
  {
    MatchMeans(lib, c.entry.route, req.path);
    hide MatchPath, IsExpression, Forwards, MatchedPart, UpstreamPath;
    var hit := MatchPath(lib, c.entry.route, req.path);
    if c.entry.id in routes && c.entry.route == routes[c.entry.id] && Takes(lib, c.entry.route, req) {
      assert Eligible(lib, routes, req, Candidate(c.entry, hit.value));
    }
  }

  lemma TakerIsEligible(lib: Library, routes: map<string, Route>, req: Request, r: string) returns (c: Candidate)
    requires lib.Valid() && r in routes && Takes(lib, routes[r], req)
    ensures c.entry == Entry(r, routes[r]) && Eligible(lib, routes, req, c)
  {
    MatchMeans(lib, routes[r], req.path);
    c := Candidate(Entry(r, routes[r]), MatchPath(lib, routes[r], req.path).value);
  }

  lemma MatchMeans(lib: Library, rt: Route, path: string)
    requires lib.Valid()
    ensures MatchPath(lib, rt, path).Some? <==>
            if IsExpression(rt)
            then lib.compiles(rt.path[1..]) && lib.find(rt.path[1..], path).Some? && lib.find(rt.path[1..], path).value.start == 0
            else Prefix(rt) <= path
    ensures MatchPath(lib, rt, path).Some? ==>
              var hit := MatchPath(lib, rt, path).value;
              && hit.regex == IsExpression(rt)
              && hit.matched == MatchedPart(lib, rt, path) <= |path|
              && Forwards(lib, rt, path, UpstreamPath(rt, hit, path))
  {
    assert HasPrefix(Prefix(rt), "~/") == IsExpression(rt);
  }

  /** What precedes in the order of the two sorts is what the selection promises. */
  lemma PrecedingWins(lib: Library, routes: map<string, Route>, req: Request, c: Candidate, d: Candidate)
    requires lib.Valid() && Eligible(lib, routes, req, c) && Eligible(lib, routes, req, d)
    requires d != c ==> Precedes(c, d)
    ensures Wins(c.entry, d.entry)
  {
    EligibleMeans(lib, routes, req, c);
    EligibleMeans(lib, routes, req, d);
    hide Eligible, Takes, Forwards, StringLess;
  }

  method Candidates(lib: Library, routes: map<string, Route>, req: Request) returns (matched: seq<Candidate>)
    requires lib.Valid()
    ensures forall c :: c in matched <==> Eligible(lib, routes, req, c)
    ensures forall i, j :: 0 <= i < j < |matched| ==> CreatedBefore(matched[i].entry, matched[j].entry)
  {
    hide CreatedBefore, MatchPath, MethodAllowed, Answers, Library.Valid;
    var entries := RoutesByHost(lib, routes, req.host);
    matched := [];
    var i := 0;
    while i < |entries|
      invariant 0 <= i <= |entries|
      invariant forall c :: c in matched <==>
                  c.entry in entries[..i]
                  && MatchPath(lib, c.entry.route, req.path) == Some(c.hit)
                  && MethodAllowed(c.entry.route.methods, req.verb)
      invariant forall j, k :: 0 <= j < k < |matched| ==> CreatedBefore(matched[j].entry, matched[k].entry)
    {
      assert entries[..i + 1] == entries[..i] + [entries[i]];
      forall j | 0 <= j < |matched| ensures CreatedBefore(matched[j].entry, entries[i]) {
        assert matched[j] in matched;
        var k :| 0 <= k < i && entries[..i][k] == matched[j].entry;
        assert CreatedBefore(entries[k], entries[i]);
      }
      var hit := MatchPath(lib, entries[i].route, req.path);
      if hit.Some? && MethodAllowed(entries[i].route.methods, req.verb) {
        matched := matched + [Candidate(entries[i], hit.value)];
      }
      i := i + 1;
    }
    assert entries[..i] == entries;
  }

  /** The selection: none exactly when no route is eligible, and otherwise the one that precedes all others. */
  method Choose(lib: Library, routes: map<string, Route>, req: Request) returns (best: Option<Candidate>)
    requires lib.Valid()
    ensures best.None? ==> forall c :: !Eligible(lib, routes, req, c)
    ensures best.Some? ==> IsBest(lib, routes, req, best.value)
    ensures best.Some? ==> forall c :: Eligible(lib, routes, req, c) ==> Wins(best.value.entry, c.entry)
  {
    var matched := Candidates(lib, routes, req);
    if |matched| == 0 {
      return None;
    }
    RankIsOrder();
    var sorted;
    ghost var from;
    sorted, from := SortStable(matched, RanksAbove);
    FirstPrecedes(matched, sorted, from);
    best := Some(sorted[0]);
    hide Eligible, Wins, Precedes;
    forall c | Eligible(lib, routes, req, c) ensures Wins(sorted[0].entry, c.entry) {
      PrecedingWins(lib, routes, req, sorted[0], c);
    }
  }

  /** The stable sort over the creation order puts first what precedes everything. */
  lemma FirstPrecedes(matched: seq<Candidate>, sorted: seq<Candidate>, from: seq<nat>)
    requires matched != []
    requires forall i, j :: 0 <= i < j < |matched| ==> CreatedBefore(matched[i].entry, matched[j].entry)
    requires Rearranged(matched, sorted, from) && Sorted(sorted, RanksAbove) && Stable(sorted, from, RanksAbove)
    ensures sorted[0] in matched
    ensures forall d :: d in matched && d != sorted[0] ==> Precedes(sorted[0], d)
  {
    forall d | d in matched && d != sorted[0] ensures Precedes(sorted[0], d) {
      assert d in multiset(sorted);
      var j :| 0 <= j < |sorted| && sorted[j] == d;
      assert !RanksAbove(sorted[j], sorted[0]);
      if !RanksAbove(sorted[0], sorted[j]) {
        assert from[0] < from[j];
        assert CreatedBefore(matched[from[0]].entry, matched[from[j]].entry);
      }
    }
  }

  // ---------------------------------------------------------------- the match result

  datatype Match = NoRoute | NoService | Matched(entry: Entry, service: Service, upstreamPath: string)

  /**
   A request is turned away exactly when no route takes it. Otherwise it goes to
   one that wins over every other that takes it, with what of the path that route
   forwards; over a consistent store the route's service is always found.
   */
  method SelectRoute(lib: Library, routes: map<string, Route>, services: map<string, Service>, req: Request) returns (m: Match)
    requires lib.Valid()
    ensures m.NoRoute? <==> forall r :: r in routes ==> !Takes(lib, routes[r], req)
    ensures m.Matched? ==>
              && m.entry.id in routes && m.entry.route == routes[m.entry.id] && Takes(lib, m.entry.route, req)
              && (forall r :: r in routes && Takes(lib, routes[r], req) ==> Wins(m.entry, Entry(r, routes[r])))
              && Forwards(lib, m.entry.route, req.path, m.upstreamPath)
    ensures m.Matched? ==> m.entry.route.serviceID in services && m.service == services[m.entry.route.serviceID]
    ensures GatewayRoutes.Routed(routes, services) ==> !m.NoService?
  {
    var best := Choose(lib, routes, req);
    hide Eligible, Wins, Takes, Forwards;
    forall r | r in routes && Takes(lib, routes[r], req)
      ensures best.Some? && Wins(best.value.entry, Entry(r, routes[r]))
    {
      var c := TakerIsEligible(lib, routes, req, r);
    }
    if best.None? {
      return NoRoute;
    }
    var c := best.value;
    EligibleMeans(lib, routes, req, c);
    assert c == Candidate(c.entry, c.hit);
    if c.entry.route.serviceID !in services {
      return NoService;
    }
    m := Matched(c.entry, services[c.entry.route.serviceID], UpstreamPath(c.entry.route, c.hit, req.path));
  }

  /** For a literal prefix, what is stripped and what is left make up the path again, but for the slash put in front. */
  lemma StrippedPrefix(lib: Library, rt: Route, path: string)
    requires lib.Valid() && MatchPath(lib, rt, path).Some? && !MatchPath(lib, rt, path).value.regex
    ensures var hit := MatchPath(lib, rt, path).value;
            && path == (if rt.path == "" then "/" else rt.path) + path[hit.matched..]
            && (hit.stripped == path[hit.matched..] || hit.stripped == "/" + path[hit.matched..])
            && hit.stripped != "" && hit.stripped[0] == '/'
  {
  }

  predicate EndsWith(s: string, suffix: string) {
    |suffix| <= |s| && s[|s| - |suffix|..] == suffix
  }

  function TrimSlash(base: string): string {
    if EndsWith(base, "/") then base[..|base| - 1] else base
  }

  /** The service's base path, less one final slash, followed by the request's. */
  function JoinURLPath(base: string, p: string): string {
    TrimSlash(base) + if p == "" then "/" else p
  }

  /**
   The base, less a final slash, comes first and the path after it. As one slash
   is trimmed, the seam is doubled exactly when the base ends in two.
   */
  lemma SeamDoubledExactly(base: string, p: string)
    requires p == "" || p[0] == '/'
    ensures var k := if base != "" && base[|base| - 1] == '/' then |base| - 1 else |base|;
            && k < |JoinURLPath(base, p)| && JoinURLPath(base, p)[..k] == base[..k]
            && JoinURLPath(base, p)[k..] == (if p == "" then "/" else p)
            && JoinURLPath(base, p)[k] == '/'
            && (k > 0 && JoinURLPath(base, p)[k - 1] == '/' <==> EndsWith(base, "//"))
  {
    if base != "" {
      assert base[|base| - 1..] == [base[|base| - 1]];
    }
    if |base| >= 2 {
      assert base[|base| - 2..] == [base[|base| - 2], base[|base| - 1]];
    }
  }

  /** A base path that the schema admits. */
  lemma SeamDoubledExample()
    ensures JoinURLPath("/a//", "/b") == "/a//b"
  {
    assert EndsWith("/a//", "/");
    assert "/a//"[..3] == "/a/";
  }

  // ---------------------------------------------------------------- retries

  datatype Attempt = Answered(response: string) | Failed(error: string)

  /**
   Sends once; resends only a request without a body after a failure, at most
   `retries` times and not once its context is done. The first answer is
   returned, or the first failure if there is none.
   */
  method RoundTrip(network: nat -> Attempt, done: nat -> bool, hasBody: bool, retries: int) returns (r: Attempt, sent: nat)
    ensures 1 <= sent <= 1 + if retries > 0 then retries else 0
    ensures hasBody ==> sent == 1
    ensures r.Answered? ==> r == network(sent - 1) && forall k :: 0 <= k < sent - 1 ==> network(k).Failed?
    ensures r.Failed? ==> r == network(0) && forall k :: 0 <= k < sent ==> network(k).Failed?
    ensures r.Failed? && !hasBody && sent < 1 + retries ==> done(sent)
    ensures forall k :: 1 <= k < sent ==> !done(k)
  {
    r, sent := network(0), 1;
    if r.Answered? || hasBody {
      return;
    }
    var i := 0;
    while i < retries
      invariant 0 <= i && (retries > 0 ==> i <= retries) && sent == 1 + i && (retries <= 0 ==> i == 0)
      invariant r == network(0) && r.Failed?
      invariant forall k :: 0 <= k < sent ==> network(k).Failed?
      invariant forall k :: 1 <= k < sent ==> !done(k)
    {
      if done(sent) {
        break;
      }
      sent := sent + 1;
      if network(sent - 1).Answered? {
        r := network(sent - 1);
        return;
      }
      i := i + 1;
    }
  }
}

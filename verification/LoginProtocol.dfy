/**
 The authorization-code login: two maps under one lock, and handlers that hold
 the lock only for single accesses, so their steps interleave. Tokens are fresh,
 the clock does not go back, and what the identity provider answers is arbitrary.
 */
module LoginProtocol {
  import opened Prelude
  import opened KeyedMaps

  const SECOND := 1_000_000_000

  const LOGIN_STATE_TTL := 600 * SECOND

  const SESSION_FALLBACK_TTL := 3600 * SECOND

  const SWEEP_THRESHOLD := 1000

  datatype Pending = Pending(nonce: string, redirectURI: string, expires: int)

  datatype Session = Session(expires: int)

  function PendingExpiry(p: Pending): int { p.expires }

  function SessionExpiry(s: Session): int { s.expires }

  // ---------------------------------------------------------------- the locked sections

  /** What is past its time goes, once the map has grown to the threshold. */
  function Swept<V>(m: map<string, V>, expiry: V -> int, now: int): map<string, V> {
    if |m| < SWEEP_THRESHOLD then m else map k | k in m && now <= expiry(m[k]) :: m[k]
  }

  method SweepExpired<V>(m: map<string, V>, expiry: V -> int, now: int) returns (r: map<string, V>)
    ensures r == Swept(m, expiry, now)
    ensures |m| < 1000 ==> r == m
    ensures |m| >= 1000 ==> forall k :: k in r <==> k in m && now <= expiry(m[k])
    ensures forall k :: k in r ==> k in m && r[k] == m[k]
  {
    r := m;
    if |m| < SWEEP_THRESHOLD {
      return;
    }
    var todo := m.Keys;
    while todo != {}
      invariant todo <= m.Keys
      invariant forall k :: k in r <==> k in m && (k in todo || now <= expiry(m[k]))
      invariant forall k :: k in r ==> r[k] == m[k]
      decreases |todo|
    {
      var k :| k in todo;
      todo := todo - {k};
      if now > expiry(m[k]) {
        r := r - {k};
      }
    }
  }

  predicate Live(sessions: map<string, Session>, id: string, now: int) {
    id in sessions && now <= sessions[id].expires
  }

  function ExpiryOf(claimed: Option<int>, now: int): int {
    if claimed.None? || claimed.value - now <= 0 then now + SESSION_FALLBACK_TTL else claimed.value
  }

  class LoginStore {
    var pendingLogins: map<string, Pending>
    var sessions: map<string, Session>

    constructor ()
      ensures pendingLogins == map[] && sessions == map[]
    {
      pendingLogins, sessions := map[], map[];
    }

    method BeginLogin(state: string, nonce: string, redirectURI: string, now: int)
      modifies this`pendingLogins
      ensures pendingLogins ==
              Swept(old(pendingLogins), PendingExpiry, now)[state := Pending(nonce, redirectURI, now + LOGIN_STATE_TTL)]
    {
      pendingLogins := SweepExpired(pendingLogins, PendingExpiry, now);
      pendingLogins := pendingLogins[state := Pending(nonce, redirectURI, now + LOGIN_STATE_TTL)];
    }

    /** Reading and removing are one step: whoever comes second finds nothing. */
    method TakeLogin(state: string) returns (pending: Option<Pending>)
      modifies this`pendingLogins
      ensures pendingLogins == old(pendingLogins) - {state}
      ensures pending == Lookup(old(pendingLogins), state)
    {
      pending := if state in pendingLogins then Some(pendingLogins[state]) else None;
      pendingLogins := pendingLogins - {state};
    }

    method AddSession(id: string, expires: int, now: int)
      modifies this`sessions
      ensures sessions == Swept(old(sessions), SessionExpiry, now)[id := Session(expires)]
    {
      sessions := SweepExpired(sessions, SessionExpiry, now);
      sessions := sessions[id := Session(expires)];
    }

    method ValidSession(id: string, now: int) returns (ok: bool)
      modifies this`sessions
      ensures ok == Live(old(sessions), id, now)
      ensures sessions == if ok then old(sessions) else old(sessions) - {id}
    {
      if id !in sessions {
        return false;
      }
      if now > sessions[id].expires {
        sessions := sessions - {id};
        return false;
      }
      ok := true;
    }
  }

  /** One callback handled without interruption: the atomic accesses in order, each at its own time. */
  method FinishLogin(store: LoginStore, state: string, checkedAt: int, token: Option<Token>, computedAt: int,
                     session: string, insertedAt: int) returns (granted: Option<int>)
    modifies store
    ensures store.pendingLogins == old(store.pendingLogins) - {state}
    ensures granted.Some? <==>
            && Lookup(old(store.pendingLogins), state).Some?
            && checkedAt <= old(store.pendingLogins)[state].expires
            && token.Some? && token.value.nonce == old(store.pendingLogins)[state].nonce
    ensures granted.Some? && token.value.expiry.Some? && token.value.expiry.value > computedAt ==>
              granted.value == token.value.expiry.value
    ensures granted.Some? && !(token.value.expiry.Some? && token.value.expiry.value > computedAt) ==>
              granted.value == computedAt + 3600 * SECOND
    ensures store.sessions == if granted.None? then old(store.sessions)
                              else Swept(old(store.sessions), SessionExpiry, insertedAt)[session := Session(granted.value)]
  {
    var pending := store.TakeLogin(state);
    if pending.None? || checkedAt > pending.value.expires {
      return None;
    }
    if token.None? || token.value.nonce != pending.value.nonce {
      return None;
    }
    var expires := ExpiryOf(token.value.expiry, computedAt);
    store.AddSession(session, expires, insertedAt);
    granted := Some(expires);
  }

  function Lookup<V>(m: map<string, V>, k: string): Option<V> {
    if k in m then Some(m[k]) else None
  }

  // ---------------------------------------------------------------- the interleaved system

  /** Where a callback handler has got to. */
  datatype Stage =
    | Took(state: string, found: Option<Pending>)
    | Accepted(state: string, pending: Pending)
    | Verified(state: string, pending: Pending, token: Token)
    | Ready(state: string, pending: Pending, token: Token, expires: int, computedAt: int)
    | Finished(state: string, session: string)
    | Rejected(consumed: Option<string>)

  /** What a session was granted for: the state that its handler consumed, and the token that it was shown. */
  datatype Grant = Grant(handler: string, state: string, token: Token, expires: int, computedAt: int)

  /** `issued` and `grants` record every state and session ever handed out. */
  datatype World = World(
    pendingLogins: map<string, Pending>, sessions: map<string, Session>, now: int,
    handlers: map<string, Stage>, issued: map<string, Pending>, grants: map<string, Grant>)

  const START := World(map[], map[], 0, map[], map[], map[])

  datatype Token = Token(nonce: string, expiry: Option<int>)

  /** One lock-delimited step of one handler, or the clock. */
  datatype Event =
    | Tick(to: int)
    | Redirect(state: string, nonce: string, redirectURI: string)
    | Take(handler: string, state: string)
    | CheckState(handler: string)
    | Exchange(handler: string, token: Option<Token>)
    | ComputeExpiry(handler: string)
    | Establish(handler: string, session: string)
    | Present(session: string)

  predicate Enabled(w: World, e: Event) {
    match e
    case Tick(to) => w.now <= to
    case Redirect(state, _, _) => state !in w.issued
    case Take(h, _) => h !in w.handlers
    case CheckState(h) => h in w.handlers && w.handlers[h].Took?
    case Exchange(h, _) => h in w.handlers && w.handlers[h].Accepted?
    case ComputeExpiry(h) => h in w.handlers && w.handlers[h].Verified?
    case Establish(h, session) => h in w.handlers && w.handlers[h].Ready? && session !in w.grants
    case Present(_) => true
  }

  predicate StateAccepted(s: Stage, now: int)
    requires s.Took?
  {
    s.found.Some? && now <= s.found.value.expires
  }

  predicate TokenAccepted(s: Stage, token: Option<Token>)
    requires s.Accepted?
  {
    token.Some? && token.value.nonce == s.pending.nonce
  }

  /** What the step tells its client, if anything. */
  function Answer(w: World, e: Event): Option<bool>
    requires Enabled(w, e)
  {
    match e
    case CheckState(h) => Some(StateAccepted(w.handlers[h], w.now))
    case Exchange(h, token) => Some(TokenAccepted(w.handlers[h], token))
    case Present(session) => Some(Live(w.sessions, session, w.now))
    case _ => None
  }

  function SweptIf<V>(sweeps: bool, m: map<string, V>, expiry: V -> int, now: int): map<string, V> {
    if sweeps then Swept(m, expiry, now) else m
  }

  function Step(sweeps: bool, w: World, e: Event): World
    requires Enabled(w, e)
  {
    match e
    case Tick(to) => w.(now := to)
    case Redirect(state, nonce, uri) =>
      var p := Pending(nonce, uri, w.now + LOGIN_STATE_TTL);
      w.(pendingLogins := SweptIf(sweeps, w.pendingLogins, PendingExpiry, w.now)[state := p], issued := w.issued[state := p])
    case Take(h, state) =>
      w.(pendingLogins := w.pendingLogins - {state}, handlers := w.handlers[h := Took(state, Lookup(w.pendingLogins, state))])
    case CheckState(h) =>
      var s := w.handlers[h];
      var next := if StateAccepted(s, w.now) then Accepted(s.state, s.found.value)
                  else Rejected(if s.found.Some? then Some(s.state) else None);
      w.(handlers := w.handlers[h := next])
    case Exchange(h, token) =>
      var s := w.handlers[h];
      var next := if TokenAccepted(s, token) then Verified(s.state, s.pending, token.value) else Rejected(Some(s.state));
      w.(handlers := w.handlers[h := next])
    case ComputeExpiry(h) =>
      var s := w.handlers[h];
      w.(handlers := w.handlers[h := Ready(s.state, s.pending, s.token, ExpiryOf(s.token.expiry, w.now), w.now)])
    case Establish(h, session) =>
      var s := w.handlers[h];
      w.(sessions := SweptIf(sweeps, w.sessions, SessionExpiry, w.now)[session := Session(s.expires)],
         handlers := w.handlers[h := Finished(s.state, session)],
         grants := w.grants[session := Grant(h, s.state, s.token, s.expires, s.computedAt)])
    case Present(session) =>
      w.(sessions := if Live(w.sessions, session, w.now) then w.sessions else w.sessions - {session})
  }

  predicate IsRun(sweeps: bool, w: World, events: seq<Event>)
    decreases |events|
  {
    events == [] || (Enabled(w, events[0]) && IsRun(sweeps, Step(sweeps, w, events[0]), events[1..]))
  }

  function Run(sweeps: bool, w: World, events: seq<Event>): World
    requires IsRun(sweeps, w, events)
    decreases |events|
  {
    if events == [] then w else Run(sweeps, Step(sweeps, w, events[0]), events[1..])
  }

  function Answers(sweeps: bool, w: World, events: seq<Event>): seq<Option<bool>>
    requires IsRun(sweeps, w, events)
    decreases |events|
  {
    if events == [] then []
    else [Answer(w, events[0])] + Answers(sweeps, Step(sweeps, w, events[0]), events[1..])
  }

  // ---------------------------------------------------------------- single use

  /** The state a handler has consumed, whatever became of it. */
  function Consumed(s: Stage): Option<string> {
    match s
    case Took(state, found) => if found.Some? then Some(state) else None
    case Rejected(consumed) => consumed
    case _ => Some(s.state)
  }

  /** A login in hand is one that was issued, and a token in hand carries its nonce. */
  predicate Genuine(s: Stage, issued: map<string, Pending>) {
    match s
    case Took(state, Some(p)) => state in issued && issued[state] == p
    case Accepted(state, p) => state in issued && issued[state] == p
    case Verified(state, p, token) => state in issued && issued[state] == p && token.nonce == p.nonce
    case Ready(state, p, token, expires, computedAt) =>
      state in issued && issued[state] == p && token.nonce == p.nonce && expires > computedAt
    case _ => Consumed(s).Some? ==> Consumed(s).value in issued
  }

  ghost predicate HandlersInv(w: World) {
    && Unique(w.handlers, Consumed)
    && (forall h :: h in w.handlers ==> Genuine(w.handlers[h], w.issued))
    && (forall h :: h in w.handlers && Consumed(w.handlers[h]).Some? ==> Consumed(w.handlers[h]).value !in w.pendingLogins)
  }

  ghost predicate PendingInv(w: World) {
    forall s :: s in w.pendingLogins ==> s in w.issued && w.issued[s] == w.pendingLogins[s]
  }

  /** Every session was granted by a finished handler, for the state it consumed and a token with that login's nonce. */
  ghost predicate GrantsInv(w: World) {
    && (forall x :: x in w.grants ==>
          var g := w.grants[x];
          && g.handler in w.handlers && w.handlers[g.handler] == Finished(g.state, x)
          && g.state in w.issued && g.token.nonce == w.issued[g.state].nonce
          && g.expires > g.computedAt)
    && (forall x :: x in w.sessions ==> x in w.grants && w.sessions[x].expires == w.grants[x].expires)
  }

  ghost predicate Inv(w: World) {
    HandlersInv(w) && PendingInv(w) && GrantsInv(w)
  }

  /** Moving one handler on keeps the rest, if what it consumed stays its own. */
  lemma HandlerMoves(w: World, h: string, next: Stage)
    requires HandlersInv(w) && h in w.handlers && Genuine(next, w.issued)
    requires Consumed(next) == Consumed(w.handlers[h])
    ensures HandlersInv(w.(handlers := w.handlers[h := next]))
  {
    hide Genuine;
    UniqueSameKeys(w.handlers, w.handlers[h := next], Consumed);
  }

  lemma TakeKeepsHandlers(w: World, h: string, state: string)
    requires HandlersInv(w) && PendingInv(w) && h !in w.handlers
    ensures HandlersInv(w.(pendingLogins := w.pendingLogins - {state},
                           handlers := w.handlers[h := Took(state, Lookup(w.pendingLogins, state))]))
  {
    var next := Took(state, Lookup(w.pendingLogins, state));
    assert !Taken(w.handlers, Consumed, Consumed(next), {h});
    UniqueUpdate(w.handlers, Consumed, h, next);
  }

  lemma IssuingKeepsGrants(w: World, pendingLogins: map<string, Pending>, state: string, p: Pending)
    requires GrantsInv(w) && state !in w.issued
    ensures GrantsInv(w.(pendingLogins := pendingLogins, issued := w.issued[state := p]))
  {
  }

  lemma IssuingKeepsHandlers(w: World, pendingLogins: map<string, Pending>, state: string, p: Pending)
    requires HandlersInv(w) && state !in w.issued
    requires forall s :: s in pendingLogins ==> s in w.pendingLogins || s == state
    ensures HandlersInv(w.(pendingLogins := pendingLogins, issued := w.issued[state := p]))
  {
    hide Unique;
    forall h | h in w.handlers
      ensures Genuine(w.handlers[h], w.issued[state := p])
      ensures Consumed(w.handlers[h]).Some? ==> Consumed(w.handlers[h]).value !in pendingLogins
    {
      assert Genuine(w.handlers[h], w.issued);
    }
  }

  lemma SweepingOnlyRemoves<V>(sweeps: bool, m: map<string, V>, expiry: V -> int, now: int)
    ensures forall k :: k in SweptIf(sweeps, m, expiry, now) ==> k in m && SweptIf(sweeps, m, expiry, now)[k] == m[k]
  {
  }

  lemma IssuingKeepsPending(w: World, kept: map<string, Pending>, state: string, p: Pending)
    requires PendingInv(w) && state !in w.issued
    requires forall s :: s in kept ==> s in w.pendingLogins && kept[s] == w.pendingLogins[s]
    ensures PendingInv(w.(pendingLogins := kept[state := p], issued := w.issued[state := p]))
  {
  }

  lemma RedirectKeepsInv(sweeps: bool, w: World, state: string, nonce: string, uri: string)
    requires Inv(w) && state !in w.issued
    ensures Inv(Step(sweeps, w, Redirect(state, nonce, uri)))
  {
    hide HandlersInv, PendingInv, GrantsInv, SweptIf;
    var p := Pending(nonce, uri, w.now + LOGIN_STATE_TTL);
    var kept := SweptIf(sweeps, w.pendingLogins, PendingExpiry, w.now);
    SweepingOnlyRemoves(sweeps, w.pendingLogins, PendingExpiry, w.now);
    IssuingKeepsPending(w, kept, state, p);
    IssuingKeepsHandlers(w, kept[state := p], state, p);
    IssuingKeepsGrants(w, kept[state := p], state, p);
  }

  /** A handler that is not finished has no grant to lose. */
  lemma GrantsUnmoved(w: World, h: string, next: Stage)
    requires GrantsInv(w) && (h in w.handlers ==> !w.handlers[h].Finished?)
    ensures GrantsInv(w.(handlers := w.handlers[h := next]))
  {
  }

  lemma MoveKeepsInv(w: World, h: string, next: Stage)
    requires Inv(w) && h in w.handlers && !w.handlers[h].Finished?
    requires Genuine(next, w.issued) && Consumed(next) == Consumed(w.handlers[h])
    ensures Inv(w.(handlers := w.handlers[h := next]))
  {
    hide HandlersInv, GrantsInv, Genuine, Consumed;
    HandlerMoves(w, h, next);
    GrantsUnmoved(w, h, next);
  }

  /** The finished handler's session joins the grants; sweeping only takes sessions away. */
  lemma GrantAdded(w: World, kept: map<string, Session>, x: string, g: Grant)
    requires GrantsInv(w) && x !in w.grants
    requires g.handler in w.handlers && w.handlers[g.handler].Ready?
    requires g.state in w.issued && g.token.nonce == w.issued[g.state].nonce && g.expires > g.computedAt
    requires forall k :: k in kept ==> k in w.sessions && kept[k] == w.sessions[k]
    ensures GrantsInv(w.(sessions := kept[x := Session(g.expires)],
                         handlers := w.handlers[g.handler := Finished(g.state, x)],
                         grants := w.grants[x := g]))
  {
  }

  lemma GrantsExtended(sweeps: bool, w: World, h: string, session: string)
    requires GrantsInv(w) && Enabled(w, Establish(h, session)) && Genuine(w.handlers[h], w.issued)
    ensures GrantsInv(Step(sweeps, w, Establish(h, session)))
  {
    var s := w.handlers[h];
    SweepingOnlyRemoves(sweeps, w.sessions, SessionExpiry, w.now);
    hide SweptIf, GrantsInv;
    GrantAdded(w, SweptIf(sweeps, w.sessions, SessionExpiry, w.now), session,
               Grant(h, s.state, s.token, s.expires, s.computedAt));
  }

  lemma EstablishKeepsInv(sweeps: bool, w: World, h: string, session: string)
    requires Inv(w) && Enabled(w, Establish(h, session))
    ensures Inv(Step(sweeps, w, Establish(h, session)))
  {
    hide Unique, Swept, GrantsInv;
    assert Genuine(w.handlers[h], w.issued);
    HandlerMoves(w, h, Finished(w.handlers[h].state, session));
    GrantsExtended(sweeps, w, h, session);
  }

  lemma StepKeepsInv(sweeps: bool, w: World, e: Event)
    requires Inv(w) && Enabled(w, e)
    ensures Inv(Step(sweeps, w, e))
  {
    match e
    case Tick(_) =>
    case Redirect(state, nonce, uri) => RedirectKeepsInv(sweeps, w, state, nonce, uri);
    case Take(h, state) =>
      hide HandlersInv, GrantsInv;
      TakeKeepsHandlers(w, h, state);
      GrantsTaken(w, h, state);
    case CheckState(h) => MoveOnKeepsInv(sweeps, w, e, h);
    case Exchange(h, _) => MoveOnKeepsInv(sweeps, w, e, h);
    case ComputeExpiry(h) => MoveOnKeepsInv(sweeps, w, e, h);
    case Establish(h, session) => EstablishKeepsInv(sweeps, w, h, session);
    case Present(_) => hide HandlersInv;
  }

  lemma GrantsTaken(w: World, h: string, state: string)
    requires GrantsInv(w) && h !in w.handlers
    ensures GrantsInv(w.(pendingLogins := w.pendingLogins - {state},
                         handlers := w.handlers[h := Took(state, Lookup(w.pendingLogins, state))]))
  {
  }

  lemma MoveOnKeepsInv(sweeps: bool, w: World, e: Event, h: string)
    requires Inv(w) && Enabled(w, e)
    requires e == CheckState(h) || e == ComputeExpiry(h) || (e.Exchange? && e.handler == h)
    ensures Inv(Step(sweeps, w, e))
  {
    assert Genuine(w.handlers[h], w.issued);
    hide Inv;
    MoveKeepsInv(w, h, Step(sweeps, w, e).handlers[h]);
  }

  lemma {:induction false} RunKeepsInv(sweeps: bool, w: World, events: seq<Event>)
    requires Inv(w) && IsRun(sweeps, w, events)
    ensures Inv(Run(sweeps, w, events))
    decreases |events|
  {
    if events != [] {
      hide Inv, Step, Enabled;
      StepKeepsInv(sweeps, w, events[0]);
      RunKeepsInv(sweeps, Step(sweeps, w, events[0]), events[1..]);
    }
  }

  /**
   In every interleaving a state is consumed by at most one callback and yields
   at most one session; and every session stands for an issued login that its
   finished handler consumed, for a token that carried the login's nonce, with
   an expiry ahead when it was computed.
   */
  lemma StatesAreSingleUse(sweeps: bool, events: seq<Event>)
    requires IsRun(sweeps, START, events)
    ensures var w := Run(sweeps, START, events);
            && (forall h, k :: h in w.handlers && k in w.handlers && h != k && Consumed(w.handlers[h]).Some? ==>
                  Consumed(w.handlers[h]) != Consumed(w.handlers[k]))
            && (forall x, y :: x in w.grants && y in w.grants && w.grants[x].state == w.grants[y].state ==> x == y)
            && (forall x :: x in w.sessions ==>
                  && x in w.grants
                  && var g := w.grants[x];
                     && g.handler in w.handlers && w.handlers[g.handler] == Finished(g.state, x)
                     && g.state in w.issued && g.state !in w.pendingLogins
                     && g.token.nonce == w.issued[g.state].nonce
                     && w.sessions[x].expires == g.expires > g.computedAt)
  {
    assert Inv(START);
    RunKeepsInv(sweeps, START, events);
    var w := Run(sweeps, START, events);
    forall x, y | x in w.grants && y in w.grants && w.grants[x].state == w.grants[y].state ensures x == y {
      assert Consumed(w.handlers[w.grants[x].handler]) == Consumed(w.handlers[w.grants[y].handler]);
    }
  }

  // ---------------------------------------------------------------- where a session comes from

  /** The state was handed out for this login. */
  ghost predicate Redirected(past: seq<Event>, state: string, p: Pending) {
    exists i :: 0 <= i < |past| && past[i] == Redirect(state, p.nonce, p.redirectURI)
  }

  /** After that, the callback took the state. */
  ghost predicate PickedUp(past: seq<Event>, h: string, state: string, p: Pending) {
    exists i :: 0 <= i < |past| && past[i] == Take(h, state) && Redirected(past[..i], state, p)
  }

  /** After that, the callback was shown the token. */
  ghost predicate Shown(past: seq<Event>, h: string, state: string, p: Pending, token: Token) {
    exists i :: 0 <= i < |past| && past[i] == Exchange(h, Some(token)) && PickedUp(past[..i], h, state, p)
  }

  /** After that, the callback was granted the session. */
  ghost predicate Granted(past: seq<Event>, h: string, state: string, p: Pending, token: Token, session: string) {
    exists i :: 0 <= i < |past| && past[i] == Establish(h, session) && Shown(past[..i], h, state, p, token)
  }

  /** What brought the handler where it is did happen, in that order. */
  ghost predicate Witnessed(past: seq<Event>, h: string, s: Stage) {
    match s
    case Took(state, Some(p)) => PickedUp(past, h, state, p)
    case Accepted(state, p) => PickedUp(past, h, state, p)
    case Verified(state, p, token) => token.nonce == p.nonce && Shown(past, h, state, p, token)
    case Ready(state, p, token, _, _) => token.nonce == p.nonce && Shown(past, h, state, p, token)
    case _ => true
  }

  ghost predicate Earned(past: seq<Event>, session: string, g: Grant) {
    exists p: Pending :: g.token.nonce == p.nonce && Granted(past, g.handler, g.state, p, g.token, session)
  }

  ghost predicate History(w: World, past: seq<Event>) {
    && (forall s :: s in w.pendingLogins ==> Redirected(past, s, w.pendingLogins[s]))
    && (forall h :: h in w.handlers ==> Witnessed(past, h, w.handlers[h]))
    && (forall x :: x in w.grants ==> Earned(past, x, w.grants[x]))
  }

  // What happened stays so, and a step is its own witness.

  lemma RedirectedStays(past: seq<Event>, e: Event, state: string, p: Pending)
    ensures Redirected(past, state, p) ==> Redirected(past + [e], state, p)
    ensures e == Redirect(state, p.nonce, p.redirectURI) ==> Redirected(past + [e], state, p)
  {
    assert (past + [e])[|past|] == e;
    if i :| 0 <= i < |past| && past[i] == Redirect(state, p.nonce, p.redirectURI) {
      assert (past + [e])[i] == past[i];
    }
  }

  lemma PickedUpStays(past: seq<Event>, e: Event, h: string, state: string, p: Pending)
    ensures PickedUp(past, h, state, p) ==> PickedUp(past + [e], h, state, p)
    ensures e == Take(h, state) && Redirected(past, state, p) ==> PickedUp(past + [e], h, state, p)
  {
    hide Redirected;
    assert (past + [e])[|past|] == e && (past + [e])[..|past|] == past;
    if i :| 0 <= i < |past| && past[i] == Take(h, state) && Redirected(past[..i], state, p) {
      assert (past + [e])[i] == past[i] && (past + [e])[..i] == past[..i];
    }
  }

  lemma ShownStays(past: seq<Event>, e: Event, h: string, state: string, p: Pending, token: Token)
    ensures Shown(past, h, state, p, token) ==> Shown(past + [e], h, state, p, token)
    ensures e == Exchange(h, Some(token)) && PickedUp(past, h, state, p) ==> Shown(past + [e], h, state, p, token)
  {
    hide PickedUp;
    assert (past + [e])[|past|] == e && (past + [e])[..|past|] == past;
    if i :| 0 <= i < |past| && past[i] == Exchange(h, Some(token)) && PickedUp(past[..i], h, state, p) {
      assert (past + [e])[i] == past[i] && (past + [e])[..i] == past[..i];
    }
  }

  lemma GrantedStays(past: seq<Event>, e: Event, h: string, state: string, p: Pending, token: Token, session: string)
    ensures Granted(past, h, state, p, token, session) ==> Granted(past + [e], h, state, p, token, session)
    ensures e == Establish(h, session) && Shown(past, h, state, p, token) ==>
              Granted(past + [e], h, state, p, token, session)
  {
    hide Shown;
    assert (past + [e])[|past|] == e && (past + [e])[..|past|] == past;
    if i :| 0 <= i < |past| && past[i] == Establish(h, session) && Shown(past[..i], h, state, p, token) {
      assert (past + [e])[i] == past[i] && (past + [e])[..i] == past[..i];
    }
  }

  lemma WitnessedStays(past: seq<Event>, e: Event, h: string, s: Stage)
    requires Witnessed(past, h, s)
    ensures Witnessed(past + [e], h, s)
  {
    hide PickedUp, Shown;
    match s
    case Took(state, Some(p)) => PickedUpStays(past, e, h, state, p);
    case Accepted(state, p) => PickedUpStays(past, e, h, state, p);
    case Verified(state, p, token) => ShownStays(past, e, h, state, p, token);
    case Ready(state, p, token, _, _) => ShownStays(past, e, h, state, p, token);
    case _ =>
  }

  lemma HistoryGrows(w: World, past: seq<Event>, e: Event)
    requires History(w, past)
    ensures History(w, past + [e])
  {
    hide Redirected, Witnessed, Granted;
    forall s | s in w.pendingLogins ensures Redirected(past + [e], s, w.pendingLogins[s]) {
      RedirectedStays(past, e, s, w.pendingLogins[s]);
    }
    forall h | h in w.handlers ensures Witnessed(past + [e], h, w.handlers[h]) {
      WitnessedStays(past, e, h, w.handlers[h]);
    }
    forall x | x in w.grants ensures Earned(past + [e], x, w.grants[x]) {
      var g := w.grants[x];
      var p: Pending :| g.token.nonce == p.nonce && Granted(past, g.handler, g.state, p, g.token, x);
      GrantedStays(past, e, g.handler, g.state, p, g.token, x);
    }
  }

  /** The stage a handler moves on to is witnessed by the step. */
  lemma MoveIsWitnessed(sweeps: bool, w: World, past: seq<Event>, e: Event, h: string)
    requires History(w, past) && Enabled(w, e)
    requires e.Take? || e.CheckState? || e.Exchange? || e.ComputeExpiry? || e.Establish?
    requires h == e.handler
    ensures h in Step(sweeps, w, e).handlers && Witnessed(past + [e], h, Step(sweeps, w, e).handlers[h])
  {
    hide Redirected, PickedUp, Shown, Earned, SweptIf;
    match e
    case Take(_, state) =>
      if state in w.pendingLogins {
        PickedUpStays(past, e, h, state, w.pendingLogins[state]);
      }
    case CheckState(_) => WitnessedStays(past, e, h, w.handlers[h]);
    case Exchange(_, token) =>
      var s := w.handlers[h];
      assert Witnessed(past, h, s);
      if TokenAccepted(s, token) {
        ShownStays(past, e, h, s.state, s.pending, token.value);
      }
    case ComputeExpiry(_) => WitnessedStays(past, e, h, w.handlers[h]);
    case Establish(_, _) =>
  }

  lemma GrantIsEarned(w: World, past: seq<Event>, h: string, session: string)
    requires History(w, past) && Enabled(w, Establish(h, session))
    ensures var s := w.handlers[h];
            Earned(past + [Establish(h, session)], session, Grant(h, s.state, s.token, s.expires, s.computedAt))
  {
    hide Redirected, Shown, Granted;
    var s := w.handlers[h];
    assert Witnessed(past, h, s);
    GrantedStays(past, Establish(h, session), h, s.state, s.pending, s.token, session);
  }

  /** A world whose entries are those of another or are witnessed themselves. */
  lemma HistoryMoves(w: World, w': World, past: seq<Event>)
    requires History(w, past)
    requires forall s :: s in w'.pendingLogins ==>
               (s in w.pendingLogins && w'.pendingLogins[s] == w.pendingLogins[s]) || Redirected(past, s, w'.pendingLogins[s])
    requires forall h :: h in w'.handlers ==>
               (h in w.handlers && w'.handlers[h] == w.handlers[h]) || Witnessed(past, h, w'.handlers[h])
    requires forall x :: x in w'.grants ==>
               (x in w.grants && w'.grants[x] == w.grants[x]) || Earned(past, x, w'.grants[x])
    ensures History(w', past)
  {
    hide Redirected, Witnessed, Earned;
  }

  lemma RedirectKeepsHistory(sweeps: bool, w: World, past: seq<Event>, state: string, nonce: string, uri: string)
    requires History(w, past + [Redirect(state, nonce, uri)]) && Enabled(w, Redirect(state, nonce, uri))
    ensures History(Step(sweeps, w, Redirect(state, nonce, uri)), past + [Redirect(state, nonce, uri)])
  {
    var e := Redirect(state, nonce, uri);
    SweepingOnlyRemoves(sweeps, w.pendingLogins, PendingExpiry, w.now);
    RedirectedStays(past, e, state, Pending(nonce, uri, w.now + LOGIN_STATE_TTL));
    hide SweptIf, Redirected, Witnessed, Earned, History;
    HistoryMoves(w, Step(sweeps, w, e), past + [e]);
  }

  lemma MoveKeepsHistory(sweeps: bool, w: World, past: seq<Event>, e: Event, h: string)
    requires History(w, past) && History(w, past + [e]) && Enabled(w, e)
    requires (e.Take? || e.CheckState? || e.Exchange? || e.ComputeExpiry? || e.Establish?) && h == e.handler
    ensures History(Step(sweeps, w, e), past + [e])
  {
    hide SweptIf, Redirected, Witnessed, Earned, History, StateAccepted, TokenAccepted, ExpiryOf;
    MoveIsWitnessed(sweeps, w, past, e, h);
    if e.Establish? {
      GrantIsEarned(w, past, h, e.session);
    }
    HistoryMoves(w, Step(sweeps, w, e), past + [e]);
  }

  lemma StepKeepsHistory(sweeps: bool, w: World, past: seq<Event>, e: Event)
    requires History(w, past) && Enabled(w, e)
    ensures History(Step(sweeps, w, e), past + [e])
  {
    HistoryGrows(w, past, e);
    match e
    case Redirect(state, nonce, uri) => RedirectKeepsHistory(sweeps, w, past, state, nonce, uri);
    case Take(h, _) => MoveKeepsHistory(sweeps, w, past, e, h);
    case CheckState(h) => MoveKeepsHistory(sweeps, w, past, e, h);
    case Exchange(h, _) => MoveKeepsHistory(sweeps, w, past, e, h);
    case ComputeExpiry(h) => MoveKeepsHistory(sweeps, w, past, e, h);
    case Establish(h, _) => MoveKeepsHistory(sweeps, w, past, e, h);
    case _ => hide Redirected, Witnessed, Earned;
  }

  lemma {:induction false} RunKeepsHistory(sweeps: bool, w: World, past: seq<Event>, events: seq<Event>)
    requires History(w, past) && IsRun(sweeps, w, events)
    ensures History(Run(sweeps, w, events), past + events)
    decreases |events|
  {
    if events == [] {
      assert past + events == past;
    } else {
      hide History, Step, Enabled;
      StepKeepsHistory(sweeps, w, past, events[0]);
      RunKeepsHistory(sweeps, Step(sweeps, w, events[0]), past + [events[0]], events[1..]);
      assert past + [events[0]] + events[1..] == past + events;
    }
  }

  /** A redirect, the taking of its state, the showing of a token with its nonce, and a grant, in this order. */
  predicate InOrder(
    events: seq<Event>, i: nat, j: nat, k: nat, l: nat, h: string, state: string, token: Token, uri: string, session: string)
  {
    && i < j < k < l < |events|
    && events[i] == Redirect(state, token.nonce, uri)
    && events[j] == Take(h, state)
    && events[k] == Exchange(h, Some(token))
    && events[l] == Establish(h, session)
  }

  lemma GrantedInOrder(events: seq<Event>, h: string, state: string, p: Pending, token: Token, session: string)
    requires Granted(events, h, state, p, token, session) && token.nonce == p.nonce
    ensures exists i, j, k, l :: InOrder(events, i, j, k, l, h, state, token, p.redirectURI, session)
  {
    var l :| 0 <= l < |events| && events[l] == Establish(h, session) && Shown(events[..l], h, state, p, token);
    var upToL := events[..l];
    var k :| 0 <= k < |upToL| && upToL[k] == Exchange(h, Some(token)) && PickedUp(upToL[..k], h, state, p);
    var upToK := upToL[..k];
    var j :| 0 <= j < |upToK| && upToK[j] == Take(h, state) && Redirected(upToK[..j], state, p);
    var upToJ := upToK[..j];
    var i :| 0 <= i < |upToJ| && upToJ[i] == Redirect(state, p.nonce, p.redirectURI);
    assert InOrder(events, i, j, k, l, h, state, token, p.redirectURI, session);
  }

  /**
   Told by the events alone: behind every session there are, in this order, a
   redirect that handed out a state and a nonce, a callback that took the state,
   a token shown to that callback with that nonce, and the granting of the
   session to it.
   */
  lemma EverySessionWasEarned(sweeps: bool, events: seq<Event>, x: string)
    requires IsRun(sweeps, START, events) && x in Run(sweeps, START, events).sessions
    ensures exists i, j, k, l, h, state, token, uri :: InOrder(events, i, j, k, l, h, state, token, uri, x)
  {
    StatesAreSingleUse(sweeps, events);
    RunKeepsHistory(sweeps, START, [], events);
    assert [] + events == events;
    var g := Run(sweeps, START, events).grants[x];
    assert Earned(events, x, g);
    hide IsRun, Run, Granted, InOrder;
    var p: Pending :| g.token.nonce == p.nonce && Granted(events, g.handler, g.state, p, g.token, x);
    GrantedInOrder(events, g.handler, g.state, p, g.token, x);
  }

  // ---------------------------------------------------------------- sweeping is invisible

  /** `a` lacks only what is past its time in `b`. */
  ghost predicate SameButExpired<V>(a: map<string, V>, b: map<string, V>, expiry: V -> int, now: int) {
    && (forall k :: k in a ==> k in b && a[k] == b[k])
    && (forall k :: k in b && k !in a ==> now > expiry(b[k]))
  }

  /** The handlers stand alike, but that one may hold a login past its time where the other found none. */
  predicate AlikeAt(a: Stage, b: Stage, now: int) {
    || a == b
    || (a.Took? && b.Took? && a.state == b.state && a.found.None? && b.found.Some? && now > b.found.value.expires)
    || (a.Rejected? && b.Rejected?)
  }

  ghost predicate Alike(a: World, b: World) {
    && a.now == b.now && a.issued == b.issued && a.grants == b.grants
    && SameButExpired(a.pendingLogins, b.pendingLogins, PendingExpiry, a.now)
    && SameButExpired(a.sessions, b.sessions, SessionExpiry, a.now)
    && a.handlers.Keys == b.handlers.Keys
    && forall h :: h in a.handlers ==> AlikeAt(a.handlers[h], b.handlers[h], a.now)
  }

  lemma SweptIsAlike<V>(sweeps: bool, a: map<string, V>, b: map<string, V>, expiry: V -> int, now: int, k: string, v: V)
    requires SameButExpired(a, b, expiry, now)
    ensures SameButExpired(SweptIf(sweeps, a, expiry, now)[k := v], b[k := v], expiry, now)
  {
  }

  lemma AlikeMove(a: World, b: World, h: string, next: Stage, next': Stage)
    requires Alike(a, b) && AlikeAt(next, next', a.now)
    ensures Alike(a.(handlers := a.handlers[h := next]), b.(handlers := b.handlers[h := next']))
  {
    hide SameButExpired, AlikeAt;
  }

  lemma AlikeTake(a: World, b: World, h: string, state: string)
    requires Alike(a, b)
    ensures Alike(Step(true, a.(handlers := a.handlers - {h}), Take(h, state)),
                  Step(false, b.(handlers := b.handlers - {h}), Take(h, state)))
  {
  }

  lemma AlikeMoveOn(a: World, b: World, e: Event)
    requires Alike(a, b) && Enabled(a, e) && (e.CheckState? || e.Exchange? || e.ComputeExpiry?)
    ensures Enabled(b, e) && Answer(a, e) == Answer(b, e)
    ensures Alike(Step(true, a, e), Step(false, b, e))
  {
    assert AlikeAt(a.handlers[e.handler], b.handlers[e.handler], a.now);
    AlikeMove(a, b, e.handler, Step(true, a, e).handlers[e.handler], Step(false, b, e).handlers[e.handler]);
  }

  lemma AlikeInsert(a: World, b: World, e: Event)
    requires Alike(a, b) && Enabled(a, e) && (e.Redirect? || e.Establish?)
    ensures Enabled(b, e) && Answer(a, e) == Answer(b, e)
    ensures Alike(Step(true, a, e), Step(false, b, e))
  {
    hide SameButExpired, Swept;
    match e
    case Redirect(state, nonce, uri) =>
      SweptIsAlike(true, a.pendingLogins, b.pendingLogins, PendingExpiry, a.now, state,
                   Pending(nonce, uri, a.now + LOGIN_STATE_TTL));
    case Establish(h, session) =>
      assert AlikeAt(a.handlers[h], b.handlers[h], a.now);
      SweptIsAlike(true, a.sessions, b.sessions, SessionExpiry, a.now, session, Session(a.handlers[h].expires));
      AlikeMove(a, b, h, Finished(a.handlers[h].state, session), Finished(a.handlers[h].state, session));
  }

  lemma AlikeStep(a: World, b: World, e: Event)
    requires Alike(a, b) && Enabled(a, e)
    ensures Enabled(b, e) && Answer(a, e) == Answer(b, e)
    ensures Alike(Step(true, a, e), Step(false, b, e))
  {
    if e.Redirect? || e.Establish? {
      AlikeInsert(a, b, e);
    } else if e.CheckState? || e.Exchange? || e.ComputeExpiry? {
      AlikeMoveOn(a, b, e);
    } else if e.Take? {
      AlikeTake(a, b, e.handler, e.state);
      assert a.handlers - {e.handler} == a.handlers && b.handlers - {e.handler} == b.handlers;
    }
  }

  lemma {:induction false} AlikeRuns(a: World, b: World, events: seq<Event>)
    requires Alike(a, b) && IsRun(true, a, events)
    ensures IsRun(false, b, events) && Answers(true, a, events) == Answers(false, b, events)
    decreases |events|
  {
    if events != [] {
      hide Alike, Step, Enabled, Answer;
      AlikeStep(a, b, events[0]);
      AlikeRuns(Step(true, a, events[0]), Step(false, b, events[0]), events[1..]);
    }
  }

  /** In every interleaving every callback and every session check is answered as if nothing were ever swept. */
  lemma SweepingIsInvisible(events: seq<Event>)
    requires IsRun(true, START, events)
    ensures IsRun(false, START, events) && Answers(true, START, events) == Answers(false, START, events)
  {
    AlikeRuns(START, START, events);
  }

  // ---------------------------------------------------------------- no revival

  ghost predicate Grants(events: seq<Event>, id: string) {
    exists e :: e in events && e.Establish? && e.session == id
  }

  /** A session that is refused once, expired or unknown, is refused for ever unless it is granted later. */
  lemma {:induction false} NeverRevived(sweeps: bool, w: World, events: seq<Event>, id: string)
    requires IsRun(sweeps, w, events) && !Live(w.sessions, id, w.now) && !Grants(events, id)
    ensures var w' := Run(sweeps, w, events); !Live(w'.sessions, id, w'.now)
    decreases |events|
  {
    if events != [] {
      var w1 := Step(sweeps, w, events[0]);
      assert events[0] in events;
      assert !Live(w1.sessions, id, w1.now);
      assert forall e :: e in events[1..] ==> e in events;
      NeverRevived(sweeps, w1, events[1..], id);
    }
  }

  /** An identifier that was granted once is never granted again, so an expired session stays dead. */
  lemma {:induction false} ExpiredStaysDead(sweeps: bool, w: World, events: seq<Event>, id: string)
    requires IsRun(sweeps, w, events) && id in w.grants && !Live(w.sessions, id, w.now)
    ensures var w' := Run(sweeps, w, events); !Live(w'.sessions, id, w'.now)
  {
    NotGrantedAgain(sweeps, w, events, id);
    NeverRevived(sweeps, w, events, id);
  }

  lemma {:induction false} NotGrantedAgain(sweeps: bool, w: World, events: seq<Event>, id: string)
    requires IsRun(sweeps, w, events) && id in w.grants
    ensures !Grants(events, id)
    decreases |events|
  {
    if events != [] {
      NotGrantedAgain(sweeps, Step(sweeps, w, events[0]), events[1..], id);
      assert events == [events[0]] + events[1..];
    }
  }
}

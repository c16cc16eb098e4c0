/**
 That a login succeeds: what waits in the login store stays while it is in time,
 whatever other handlers do, so a callback that brings a state back in time with
 a token for it gets a session that is accepted until it expires.
 */
module LoginLaws {
  import opened Prelude
  import opened LoginProtocol

  // ---------------------------------------------------------------- what lasts

  predicate Taking(e: Event, state: string) {
    e.Take? && e.state == state
  }

  /** The handler that the step is of, if it is one of a callback. */
  predicate Moves(e: Event, h: string) {
    (e.Take? || e.CheckState? || e.Exchange? || e.ComputeExpiry? || e.Establish?) && e.handler == h
  }

  predicate Quiet(events: seq<Event>, h: string) {
    forall e :: e in events ==> !Moves(e, h)
  }

  predicate NoneTakes(events: seq<Event>, state: string) {
    forall e :: e in events ==> !Taking(e, state)
  }

  lemma {:induction false} ClockAdvances(sweeps: bool, w: World, events: seq<Event>)
    requires IsRun(sweeps, w, events)
    ensures Run(sweeps, w, events).now >= w.now
    decreases |events|
  {
    if events != [] {
      hide SweptIf;
      ClockAdvances(sweeps, Step(sweeps, w, events[0]), events[1..]);
    }
  }

  lemma SweptKeeps<V>(sweeps: bool, m: map<string, V>, expiry: V -> int, now: int, k: string)
    requires k in m && now <= expiry(m[k])
    ensures k in SweptIf(sweeps, m, expiry, now) && SweptIf(sweeps, m, expiry, now)[k] == m[k]
  {
  }

  lemma PendingStays(sweeps: bool, w: World, e: Event, state: string)
    requires Enabled(w, e) && !Taking(e, state)
    requires state in w.pendingLogins && state in w.issued && w.now <= w.pendingLogins[state].expires
    ensures var w' := Step(sweeps, w, e);
            state in w'.pendingLogins && w'.pendingLogins[state] == w.pendingLogins[state] && state in w'.issued
  {
    SweptKeeps(sweeps, w.pendingLogins, PendingExpiry, w.now, state);
    hide SweptIf, Live;
  }

  /** A login waits for its callback until it expires. */
  lemma {:induction false} PendingLasts(sweeps: bool, w: World, events: seq<Event>, state: string)
    requires IsRun(sweeps, w, events) && NoneTakes(events, state)
    requires state in w.pendingLogins && state in w.issued
    requires Run(sweeps, w, events).now <= w.pendingLogins[state].expires
    ensures var w' := Run(sweeps, w, events);
            state in w'.pendingLogins && w'.pendingLogins[state] == w.pendingLogins[state]
    decreases |events|
  {
    if events != [] {
      ClockAdvances(sweeps, w, events);
      hide Step, Enabled;
      assert events[0] in events && forall e :: e in events[1..] ==> e in events;
      PendingStays(sweeps, w, events[0], state);
      PendingLasts(sweeps, Step(sweeps, w, events[0]), events[1..], state);
    }
  }

  /** A callback stays where it is while others move. */
  lemma {:induction false} HandlerWaits(sweeps: bool, w: World, events: seq<Event>, h: string)
    requires IsRun(sweeps, w, events) && Quiet(events, h) && h in w.handlers
    ensures var w' := Run(sweeps, w, events); h in w'.handlers && w'.handlers[h] == w.handlers[h]
    decreases |events|
  {
    if events != [] {
      assert events[0] in events && forall e :: e in events[1..] ==> e in events;
      HandlerStays(sweeps, w, events[0], h);
      hide Step, Enabled;
      HandlerWaits(sweeps, Step(sweeps, w, events[0]), events[1..], h);
    }
  }

  lemma HandlerStays(sweeps: bool, w: World, e: Event, h: string)
    requires Enabled(w, e) && !Moves(e, h) && h in w.handlers
    ensures var w' := Step(sweeps, w, e); h in w'.handlers && w'.handlers[h] == w.handlers[h]
  {
    hide SweptIf, Live;
  }

  lemma SessionStays(sweeps: bool, w: World, e: Event, session: string)
    requires Enabled(w, e) && session in w.grants
    ensures var w' := Step(sweeps, w, e);
            && session in w'.grants
            && (session in w'.sessions ==> session in w.sessions && w'.sessions[session] == w.sessions[session])
            && (session in w.sessions && w.now <= w.sessions[session].expires ==> session in w'.sessions)
  {
    SweepingOnlyRemoves(sweeps, w.sessions, SessionExpiry, w.now);
    if session in w.sessions && w.now <= w.sessions[session].expires {
      SweptKeeps(sweeps, w.sessions, SessionExpiry, w.now, session);
    }
    hide SweptIf;
  }

  /** A session stays until it expires, and keeps its expiry for as long as it stays. */
  lemma {:induction false} SessionsLast(sweeps: bool, w: World, events: seq<Event>, session: string)
    requires IsRun(sweeps, w, events) && session in w.grants && session in w.sessions
    ensures var w' := Run(sweeps, w, events);
            && (session in w'.sessions ==> w'.sessions[session] == w.sessions[session])
            && (w'.now <= w.sessions[session].expires ==> session in w'.sessions)
    decreases |events|
  {
    if events != [] {
      ClockAdvances(sweeps, w, events);
      SessionStays(sweeps, w, events[0], session);
      var w1 := Step(sweeps, w, events[0]);
      hide Step, Enabled;
      if session in w1.sessions {
        SessionsLast(sweeps, w1, events[1..], session);
      } else {
        GoneStaysGone(sweeps, w1, events[1..], session);
      }
    }
  }

  lemma {:induction false} GoneStaysGone(sweeps: bool, w: World, events: seq<Event>, session: string)
    requires IsRun(sweeps, w, events) && session in w.grants && session !in w.sessions
    ensures session !in Run(sweeps, w, events).sessions
    decreases |events|
  {
    if events != [] {
      SessionStays(sweeps, w, events[0], session);
      hide Step, Enabled;
      GoneStaysGone(sweeps, Step(sweeps, w, events[0]), events[1..], session);
    }
  }

  // ---------------------------------------------------------------- a login

  /** From `w` other things happen, and then the step leads to `w'`. */
  ghost predicate Then(sweeps: bool, w: World, others: seq<Event>, e: Event, w': World) {
    && IsRun(sweeps, w, others)
    && Enabled(Run(sweeps, w, others), e)
    && w' == Step(sweeps, Run(sweeps, w, others), e)
  }

  /** The state is found, at any time before it expires. */
  lemma StateIsFound(sweeps: bool, w0: World, w1: World, w2: World, a: seq<Event>,
                     state: string, nonce: string, uri: string, h: string)
    requires Then(sweeps, w0, [], Redirect(state, nonce, uri), w1)
    requires NoneTakes(a, state) && Then(sweeps, w1, a, Take(h, state), w2) && w2.now <= w0.now + 600 * SECOND
    ensures h in w2.handlers && w2.handlers[h] == Took(state, Some(Pending(nonce, uri, w0.now + 600 * SECOND)))
  {
    assert w1 == Step(sweeps, w0, Redirect(state, nonce, uri));
    hide SweptIf, IsRun, Run;
    PendingLasts(sweeps, w1, a, state);
  }

  /** A state that was found is accepted exactly when it has not expired, and one that was not never. */
  lemma StateIsAccepted(sweeps: bool, w: World, w': World, others: seq<Event>, h: string, state: string, found: Option<Pending>)
    requires h in w.handlers && w.handlers[h] == Took(state, found) && Quiet(others, h)
    requires Then(sweeps, w, others, CheckState(h), w')
    ensures h in w'.handlers && (w'.handlers[h].Accepted? || w'.handlers[h].Rejected?)
    ensures w'.handlers[h].Accepted? <==> found.Some? && w'.now <= found.value.expires
    ensures w'.handlers[h].Accepted? ==> w'.handlers[h] == Accepted(state, found.value)
  {
    hide IsRun, Run;
    HandlerWaits(sweeps, w, others, h);
  }

  /** A token is accepted exactly when there is one and it has the login's nonce. */
  lemma TokenIsAccepted(sweeps: bool, w: World, w': World, others: seq<Event>, h: string, state: string, p: Pending, token: Option<Token>)
    requires h in w.handlers && w.handlers[h] == Accepted(state, p) && Quiet(others, h)
    requires Then(sweeps, w, others, Exchange(h, token), w')
    ensures h in w'.handlers && (w'.handlers[h].Verified? || w'.handlers[h].Rejected?)
    ensures w'.handlers[h].Verified? <==> token.Some? && token.value.nonce == p.nonce
    ensures w'.handlers[h].Verified? ==> w'.handlers[h] == Verified(state, p, token.value)
  {
    hide IsRun, Run;
    HandlerWaits(sweeps, w, others, h);
  }

  /** A callback that was turned away stays so, and no session is ever its own. */
  lemma {:induction false} RejectedForGood(sweeps: bool, w: World, events: seq<Event>, h: string)
    requires Inv(w) && IsRun(sweeps, w, events) && h in w.handlers && w.handlers[h].Rejected?
    ensures var w' := Run(sweeps, w, events);
            && h in w'.handlers && w'.handlers[h].Rejected?
            && forall x :: x in w'.sessions ==> x in w'.grants && w'.grants[x].handler != h
    decreases |events|
  {
    if events == [] {
      hide HandlersInv, PendingInv;
    } else {
      StepKeepsInv(sweeps, w, events[0]);
      assert !Moves(events[0], h);
      HandlerStays(sweeps, w, events[0], h);
      hide Inv, Step, Enabled;
      RejectedForGood(sweeps, Step(sweeps, w, events[0]), events[1..], h);
    }
  }

  /** The session's expiry is the token's if that is still ahead, and otherwise an hour from now. */
  ghost predicate ExpiresAs(token: Token, now: int, expires: int) {
    && (token.expiry.Some? && token.expiry.value > now ==> expires == token.expiry.value)
    && (token.expiry.None? || token.expiry.value <= now ==> expires == now + 3600 * SECOND)
  }

  lemma ExpiryIsComputed(sweeps: bool, w: World, w': World, others: seq<Event>, h: string, state: string, p: Pending, token: Token)
    requires h in w.handlers && w.handlers[h] == Verified(state, p, token) && Quiet(others, h)
    requires Then(sweeps, w, others, ComputeExpiry(h), w')
    ensures h in w'.handlers && w'.handlers[h].Ready? && ExpiresAs(token, w'.now, w'.handlers[h].expires)
  {
    hide IsRun, Run;
    HandlerWaits(sweeps, w, others, h);
  }

  lemma SessionIsGranted(sweeps: bool, w: World, w': World, others: seq<Event>, h: string, session: string)
    requires h in w.handlers && w.handlers[h].Ready? && Quiet(others, h)
    requires Then(sweeps, w, others, Establish(h, session), w')
    ensures session in w'.sessions && w'.sessions[session].expires == w.handlers[h].expires && session in w'.grants
  {
    hide IsRun, Run;
    HandlerWaits(sweeps, w, others, h);
  }

  /** A session that was granted is accepted exactly until its expiry, whatever happens meanwhile. */
  lemma SessionIsAccepted(sweeps: bool, w: World, events: seq<Event>, session: string)
    requires IsRun(sweeps, w, events) && session in w.grants && session in w.sessions
    ensures var w' := Run(sweeps, w, events);
            Answer(w', Present(session)) == Some(w'.now <= w.sessions[session].expires)
  {
    SessionsLast(sweeps, w, events, session);
  }

  /**
   A login whose state comes back within its ten minutes, to a callback that is
   then shown a token with its nonce, gives a session with the token's expiry, or
   an hour's if that is not ahead; and the session is accepted exactly until then.
   Other redirects, callbacks, requests and the clock run in between.
   */
  lemma LoginSucceeds(
    sweeps: bool, state: string, nonce: string, uri: string, h: string, token: Token, session: string,
    w0: World, w1: World, a: seq<Event>, w2: World, b: seq<Event>, w3: World, c: seq<Event>, w4: World,
    d: seq<Event>, w5: World, e: seq<Event>, w6: World, f: seq<Event>)
    requires Then(sweeps, w0, [], Redirect(state, nonce, uri), w1)
    requires NoneTakes(a, state) && Then(sweeps, w1, a, Take(h, state), w2)
    requires Quiet(b, h) && Then(sweeps, w2, b, CheckState(h), w3) && w3.now <= w0.now + 600 * SECOND
    requires Quiet(c, h) && Then(sweeps, w3, c, Exchange(h, Some(token)), w4) && token.nonce == nonce
    requires Quiet(d, h) && Then(sweeps, w4, d, ComputeExpiry(h), w5)
    requires Quiet(e, h) && Then(sweeps, w5, e, Establish(h, session), w6)
    requires IsRun(sweeps, w6, f)
    ensures session in w6.sessions && ExpiresAs(token, w5.now, w6.sessions[session].expires)
    ensures var w := Run(sweeps, w6, f);
            Answer(w, Present(session)) == Some(w.now <= w6.sessions[session].expires)
  {
    assert w2.now <= w3.now by {
      ClockAdvances(sweeps, w2, b);
      hide SweptIf;
    }
    hide Then, Run, IsRun, Step, Answer, ExpiresAs;
    var p := Pending(nonce, uri, w0.now + 600 * SECOND);
    StateIsFound(sweeps, w0, w1, w2, a, state, nonce, uri, h);
    StateIsAccepted(sweeps, w2, w3, b, h, state, Some(p));
    TokenIsAccepted(sweeps, w3, w4, c, h, state, p, Some(token));
    ExpiryIsComputed(sweeps, w4, w5, d, h, state, p, token);
    SessionIsGranted(sweeps, w5, w6, e, h, session);
    SessionIsAccepted(sweeps, w6, f, session);
  }
}

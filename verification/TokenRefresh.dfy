/**
  The session callback and its single-flight token refresh.

  Requests that find their access token about to expire refresh it.  Those that present the same
  refresh token while a refresh is outstanding wait for that one response.  Whatever the age of
  its access token, a session older than thirty days must log in again.

  Requests, responses and the hand-over of a response to each waiting request are separate steps,
  so `Run` covers every interleaving.  A refresh token is minted by the backend once and never
  again; a client may present any cookie it was ever given, stale ones included.
 */
module TokenRefresh {

  import opened Options

  const ABSOLUTE_SESSION_MAX_AGE_SECONDS: int := 30 * 24 * 60 * 60
  const REFRESH_BUFFER_SECONDS: int := 60

  // The session cookie.  A number that is absent in the source is 0 here; both are falsy there.
  datatype Jwt = Jwt(access: int, refresh: Option<nat>, expires: int, startedAt: int, expired: bool)

  // A cookie in a client's hands, and the login it descends from.
  datatype Cookie = Cookie(token: Jwt, session: nat)

  datatype Outcome =
    | Refused                                     // 401 or 403
    | Unavailable                                 // any other status, or a network error
    | Granted(access: int, refresh: nat, expires: int)

  // A refresh request: who leads it, and its settled value.
  datatype Flight = Flight(leader: Cookie, result: Option<Jwt>)

  datatype Call = Call(presented: Cookie, flight: Option<nat>, result: Option<Jwt>)

  datatype State = State(
    now: int,
    inFlight: map<nat, nat>,                      // refreshInFlight: refresh token to flight
    flights: seq<Flight>,
    calls: seq<Call>,
    logins: seq<int>,                             // when each session began
    owner: map<nat, nat>,                         // refresh tokens minted so far, and for whom
    cookies: set<Cookie>)

  datatype Event =
    | Tick(seconds: nat)
    | Login(access: int, refresh: Option<nat>, expires: int)
    | Callback(cookie: Cookie)
    | Respond(flight: nat, outcome: Outcome)
    | Deliver(call: nat)

  function Initial(now: int): State { State(now, map[], [], [], [], map[], {}) }

  // ---------- the callback ----------

  predicate PastMaxAge(t: Jwt, now: int) {
    t.startedAt != 0 && now - t.startedAt > ABSOLUTE_SESSION_MAX_AGE_SECONDS
  }

  predicate NeedsRefresh(t: Jwt, now: int) {
    t.expires != 0 && t.refresh.Some? && t.expires - now < REFRESH_BUFFER_SECONDS
  }

  // jwt(): what the callback does with a token, for the client that presented `c`.
  function HandleToken(st: State, c: Cookie): State {
    if PastMaxAge(c.token, st.now) then
      Answer(st, c, c.token.(expired := true))
    else if NeedsRefresh(c.token, st.now) then
      var rt := c.token.refresh.value;
      if rt in st.inFlight then
        st.(calls := st.calls + [Call(c, Some(st.inFlight[rt]), None)])
      else
        st.(inFlight := st.inFlight[rt := |st.flights|],
            flights := st.flights + [Flight(c, None)],
            calls := st.calls + [Call(c, Some(|st.flights|), None)])
    else Answer(st, c, c.token)
  }

  function Answer(st: State, c: Cookie, t: Jwt): State {
    st.(calls := st.calls + [Call(c, None, Some(t))], cookies := st.cookies + {Cookie(t, c.session)})
  }

  function Refreshed(t: Jwt, o: Outcome): Jwt {
    match o
    case Refused => t.(expired := true)
    case Unavailable => t
    case Granted(access, refresh, expires) =>
      t.(access := access, refresh := Some(refresh), expires := expires, expired := false)
  }

  predicate Mintable(st: State, o: Outcome) {
    o.Granted? ==> o.refresh !in st.owner
  }

  function Step(st: State, ev: Event): State {
    match ev
    case Tick(s) => st.(now := st.now + s)
    case Login(access, refresh, expires) =>
      if st.now <= 0 || (refresh.Some? && refresh.value in st.owner) then st
      else
        var session := |st.logins|;
        var st1 := st.(logins := st.logins + [st.now],
                       owner := if refresh.Some? then st.owner[refresh.value := session] else st.owner);
        HandleToken(st1, Cookie(Jwt(access, refresh, expires, st.now, false), session))
    case Callback(c) => if c in st.cookies then HandleToken(st, c) else st
    case Respond(f, o) =>
      if f < |st.flights| && st.flights[f].result.None? && Mintable(st, o)
         && st.flights[f].leader.token.refresh.Some? then
        var leader := st.flights[f].leader;
        st.(inFlight := st.inFlight - {leader.token.refresh.value},
            flights := st.flights[f := Flight(leader, Some(Refreshed(leader.token, o)))],
            owner := if o.Granted? then st.owner[o.refresh := leader.session] else st.owner)
      else st
    case Deliver(i) =>
      if i < |st.calls| && st.calls[i].result.None? && st.calls[i].flight.Some?
         && st.calls[i].flight.value < |st.flights| && st.flights[st.calls[i].flight.value].result.Some? then
        var t := st.flights[st.calls[i].flight.value].result.value;
        st.(calls := st.calls[i := st.calls[i].(result := Some(t))],
            cookies := st.cookies + {Cookie(t, st.calls[i].presented.session)})
      else st
  }

  function Run(now: int, evs: seq<Event>): State
    decreases |evs|
  {
    if evs == [] then Initial(now)
    else Step(Run(now, evs[..|evs| - 1]), evs[|evs| - 1])
  }

  // ---------- the invariant ----------

  predicate Outstanding(st: State, f: nat) { f < |st.flights| && st.flights[f].result.None? }

  // The map and the requests on the wire are the same thing.
  ghost predicate MapIsExact(st: State) {
    && (forall f: nat :: Outstanding(st, f) ==>
          && st.flights[f].leader.token.refresh.Some?
          && st.flights[f].leader.token.refresh.value in st.inFlight
          && st.inFlight[st.flights[f].leader.token.refresh.value] == f)
    && (forall rt :: rt in st.inFlight ==>
          && Outstanding(st, st.inFlight[rt])
          && st.flights[st.inFlight[rt]].leader.token.refresh == Some(rt))
  }

  // A token belongs to a session: the session's start is in it, and so is a refresh token of the
  // session, if any.
  ghost predicate Belongs(st: State, t: Jwt, session: nat) {
    && session < |st.logins|
    && t.startedAt == st.logins[session]
    && (t.refresh.Some? ==> t.refresh.value in st.owner && st.owner[t.refresh.value] == session)
  }

  ghost predicate Sessions(st: State) {
    && (forall s :: 0 <= s < |st.logins| ==> 0 < st.logins[s] <= st.now)
    && (forall c :: c in st.cookies ==> Belongs(st, c.token, c.session))
  }

  ghost predicate Flights(st: State) {
    forall f :: 0 <= f < |st.flights| ==>
      && Belongs(st, st.flights[f].leader.token, st.flights[f].leader.session)
      && (st.flights[f].result.Some? ==>
            && Belongs(st, st.flights[f].result.value, st.flights[f].leader.session)
            && RefreshOf(st.flights[f].leader.token, st.flights[f].result.value))
  }

  // The three things a refresh may return: the same token, the same token marked expired, or a
  // token with a new access and refresh token and no error.
  ghost predicate RefreshOf(t: Jwt, r: Jwt) {
    || r == t
    || r == t.(expired := true)
    || (r.refresh.Some? && r == t.(access := r.access, refresh := r.refresh, expires := r.expires, expired := false))
  }

  ghost predicate Calls(st: State) {
    forall i :: 0 <= i < |st.calls| ==> CallOk(st, st.calls[i])
  }

  ghost predicate CallOk(st: State, c: Call) {
    && Belongs(st, c.presented.token, c.presented.session)
    && (c.result.Some? ==> Belongs(st, c.result.value, c.presented.session))
    && (c.flight.Some? ==>
          && c.flight.value < |st.flights|
          && st.flights[c.flight.value].leader.session == c.presented.session
          && c.presented.token.refresh.Some?
          && st.flights[c.flight.value].leader.token.refresh == c.presented.token.refresh
          && (c.result.Some? ==> c.result == st.flights[c.flight.value].result))
    && (c.flight.None? ==> c.result.Some?)
  }

  ghost predicate Inv(st: State) {
    MapIsExact(st) && Sessions(st) && Flights(st) && Calls(st)
  }

  lemma HandleTokenKeepsInv(st: State, c: Cookie)
    requires Inv(st) && Belongs(st, c.token, c.session)
    ensures Inv(HandleToken(st, c))
  {
    var st' := HandleToken(st, c);
    assert forall t, s :: Belongs(st, t, s) ==> Belongs(st', t, s);
    if !PastMaxAge(c.token, st.now) && NeedsRefresh(c.token, st.now) {
      var rt := c.token.refresh.value;
      forall f: nat | Outstanding(st', f)
        ensures st'.flights[f].leader.token.refresh.Some?
          && st'.flights[f].leader.token.refresh.value in st'.inFlight
          && st'.inFlight[st'.flights[f].leader.token.refresh.value] == f
      {
        if f < |st.flights| { assert Outstanding(st, f); }
      }
      forall r | r in st'.inFlight
        ensures Outstanding(st', st'.inFlight[r]) && st'.flights[st'.inFlight[r]].leader.token.refresh == Some(r)
      {
        if r in st.inFlight { assert Outstanding(st, st.inFlight[r]); }
      }
    } else {
      assert forall f: nat :: Outstanding(st', f) <==> Outstanding(st, f);
    }
    forall i | 0 <= i < |st'.calls| ensures CallOk(st', st'.calls[i]) {
      if i < |st.calls| { assert CallOk(st, st.calls[i]); }
      else if st'.calls[i].flight.Some? && c.token.refresh.value in st.inFlight {
        assert Outstanding(st, st.inFlight[c.token.refresh.value]);
      }
    }
  }

  lemma RespondKeepsInv(st: State, f: nat, o: Outcome)
    requires Inv(st)
    ensures Inv(Step(st, Respond(f, o)))
  {
    var st' := Step(st, Respond(f, o));
    if st' != st {
      var leader := st.flights[f].leader;
      assert Outstanding(st, f);
      assert forall t, s :: Belongs(st, t, s) ==> Belongs(st', t, s);
      assert Belongs(st', st'.flights[f].result.value, leader.session);
      forall g: nat | Outstanding(st', g)
        ensures st'.flights[g].leader.token.refresh.Some?
          && st'.flights[g].leader.token.refresh.value in st'.inFlight
          && st'.inFlight[st'.flights[g].leader.token.refresh.value] == g
      {
        assert Outstanding(st, g) && g != f;
      }
      forall r | r in st'.inFlight
        ensures Outstanding(st', st'.inFlight[r]) && st'.flights[st'.inFlight[r]].leader.token.refresh == Some(r)
      {
        assert Outstanding(st, st.inFlight[r]) && st.inFlight[r] != f;
      }
      forall i | 0 <= i < |st'.calls| ensures CallOk(st', st'.calls[i]) {
        assert CallOk(st, st.calls[i]);
      }
    }
  }

  lemma LoginKeepsInv(st: State, access: int, refresh: Option<nat>, expires: int)
    requires Inv(st)
    ensures Inv(Step(st, Login(access, refresh, expires)))
  {
    if st.now > 0 && (refresh.Some? ==> refresh.value !in st.owner) {
      var session := |st.logins|;
      var st1 := st.(logins := st.logins + [st.now],
                     owner := if refresh.Some? then st.owner[refresh.value := session] else st.owner);
      assert forall f: nat :: Outstanding(st1, f) <==> Outstanding(st, f);
      assert forall t, s :: Belongs(st, t, s) ==> Belongs(st1, t, s);
      forall i | 0 <= i < |st1.calls| ensures CallOk(st1, st1.calls[i]) { assert CallOk(st, st.calls[i]); }
      HandleTokenKeepsInv(st1, Cookie(Jwt(access, refresh, expires, st.now, false), session));
    }
  }

  lemma StepKeepsInv(st: State, ev: Event)
    requires Inv(st)
    ensures Inv(Step(st, ev))
  {
    var st' := Step(st, ev);
    match ev
    case Tick(_) =>
      assert forall f: nat :: Outstanding(st', f) <==> Outstanding(st, f);
      assert forall t, s :: Belongs(st, t, s) <==> Belongs(st', t, s);
      forall i | 0 <= i < |st'.calls| ensures CallOk(st', st'.calls[i]) { assert CallOk(st, st.calls[i]); }
    case Login(access, refresh, expires) => LoginKeepsInv(st, access, refresh, expires);
    case Callback(c) => if c in st.cookies { HandleTokenKeepsInv(st, c); }
    case Respond(f, o) => RespondKeepsInv(st, f, o);
    case Deliver(k) =>
      if st' != st {
        assert CallOk(st, st.calls[k]);
        assert forall f: nat :: Outstanding(st', f) <==> Outstanding(st, f);
        assert forall t, s :: Belongs(st, t, s) <==> Belongs(st', t, s);
        forall i | 0 <= i < |st'.calls| ensures CallOk(st', st'.calls[i]) { assert CallOk(st, st.calls[i]); }
      }
  }

  lemma {:induction false} RunKeepsInv(now: int, evs: seq<Event>)
    ensures Inv(Run(now, evs))
    decreases |evs|
  {
    if evs != [] {
      RunKeepsInv(now, evs[..|evs| - 1]);
      StepKeepsInv(Run(now, evs[..|evs| - 1]), evs[|evs| - 1]);
    }
  }

  // ---------- main results ----------

  /** Under every interleaving the in-flight map holds exactly the refresh tokens of the requests
      on the wire, and no two of those carry the same token. */
  lemma AtMostOneRefreshPerToken(now: int, evs: seq<Event>)
    ensures var st := Run(now, evs);
      && (forall rt :: rt in st.inFlight <==>
            exists f: nat :: Outstanding(st, f) && st.flights[f].leader.token.refresh == Some(rt))
      && (forall f: nat, g: nat :: Outstanding(st, f) && Outstanding(st, g) && f != g ==>
            st.flights[f].leader.token.refresh != st.flights[g].leader.token.refresh)
  {
    RunKeepsInv(now, evs);
  }

  /** A refresh token never serves two sessions, which is what makes sharing a refresh safe. */
  lemma RefreshTokenNamesItsSession(now: int, evs: seq<Event>, c: Cookie, d: Cookie)
    requires c in Run(now, evs).cookies && d in Run(now, evs).cookies
    requires c.token.refresh.Some? && c.token.refresh == d.token.refresh
    ensures c.session == d.session && c.token.startedAt == d.token.startedAt
  {
    RunKeepsInv(now, evs);
    assert Belongs(Run(now, evs), c.token, c.session) && Belongs(Run(now, evs), d.token, d.session);
  }

  /** Every caller that joined a refresh gets the result of its leader, who presented the same
      refresh token for the same session. */
  lemma JoinedCallersShareTheResult(now: int, evs: seq<Event>, i: nat)
    requires i < |Run(now, evs).calls| && Run(now, evs).calls[i].flight.Some?
    ensures var st := Run(now, evs);
      var c := st.calls[i];
      && c.flight.value < |st.flights|
      && var f := st.flights[c.flight.value];
         && f.leader.session == c.presented.session
         && f.leader.token.refresh == c.presented.token.refresh
         && (c.result.Some? ==> c.result == f.result && RefreshOf(f.leader.token, f.result.value))
  {
    RunKeepsInv(now, evs);
    assert CallOk(Run(now, evs), Run(now, evs).calls[i]);
  }

  /** No callback, alone or through a shared refresh, ever changes when the session began. */
  lemma SessionStartNeverChanges(now: int, evs: seq<Event>, i: nat)
    requires i < |Run(now, evs).calls| && Run(now, evs).calls[i].result.Some?
    ensures var st := Run(now, evs);
      var c := st.calls[i];
      && c.presented.session < |st.logins|
      && c.result.value.startedAt == c.presented.token.startedAt == st.logins[c.presented.session] > 0
  {
    RunKeepsInv(now, evs);
    assert CallOk(Run(now, evs), Run(now, evs).calls[i]);
  }

  /** A session past its thirty days gets the expired error at once from whichever of its cookies
      is presented, and no request goes out.  A younger one is refreshed exactly when its access
      token is about to expire, with a new request only if none is under way for it. */
  lemma OldSessionMustLogInAgain(now: int, evs: seq<Event>, c: Cookie)
    requires c in Run(now, evs).cookies
    ensures var st := Run(now, evs);
      && c.session < |st.logins|
      && var tooOld := st.now - st.logins[c.session] > 2_592_000;
         var due := c.token.refresh.Some? && c.token.expires != 0 && c.token.expires - st.now < 60;
         var st' := Step(st, Callback(c));
         && (tooOld ==>
               && st'.flights == st.flights && st'.inFlight == st.inFlight
               && st'.calls == st.calls + [Call(c, None, Some(c.token.(expired := true)))])
         && (!tooOld && !due ==>
               st'.flights == st.flights && st'.calls == st.calls + [Call(c, None, Some(c.token))])
         && (!tooOld && due ==>
               && c.token.refresh.value in st'.inFlight
               && st'.calls == st.calls + [Call(c, Some(st'.inFlight[c.token.refresh.value]), None)]
               && |st'.flights| == |st.flights| + (if c.token.refresh.value in st.inFlight then 0 else 1))
  {
    RunKeepsInv(now, evs);
    assert Belongs(Run(now, evs), c.token, c.session);
  }

  /** Nobody waits for a request that is not on the wire or already answered: one response, if it
      is still due, and one hand-over complete any waiting call; and the map entry is gone, so the
      next refresh of that token can start. */
  lemma WaitingCallCompletes(now: int, evs: seq<Event>, i: nat, o: Outcome)
    requires i < |Run(now, evs).calls| && Run(now, evs).calls[i].result.None?
    requires Mintable(Run(now, evs), o)
    ensures var st := Run(now, evs);
      && st.calls[i].flight.Some? && st.calls[i].presented.token.refresh.Some?
      && var answered := Step(st, Respond(st.calls[i].flight.value, o));
         && Step(answered, Deliver(i)).calls[i].result.Some?
         && (Outstanding(st, st.calls[i].flight.value) ==>
               && st.calls[i].presented.token.refresh.value in st.inFlight
               && answered.inFlight == st.inFlight - {st.calls[i].presented.token.refresh.value})
  {
    RunKeepsInv(now, evs);
    var st := Run(now, evs);
    assert CallOk(st, st.calls[i]);
    var f := st.calls[i].flight.value;
    if st.flights[f].result.None? { assert Outstanding(st, f); }
  }

  // Every refresh was begun for a token that needed it, and time only makes that truer.
  lemma {:induction false} LeadersAreDue(now: int, evs: seq<Event>, f: nat)
    requires f < |Run(now, evs).flights|
    ensures NeedsRefresh(Run(now, evs).flights[f].leader.token, Run(now, evs).now)
    decreases |evs|
  {
    var before := Run(now, evs[..|evs| - 1]);
    if f < |before.flights| { LeadersAreDue(now, evs[..|evs| - 1], f); }
    LeaderStaysDue(before, evs[|evs| - 1], f);
  }

  lemma LeaderStaysDue(st: State, ev: Event, f: nat)
    requires f < |Step(st, ev).flights|
    requires f < |st.flights| ==> NeedsRefresh(st.flights[f].leader.token, st.now)
    ensures NeedsRefresh(Step(st, ev).flights[f].leader.token, Step(st, ev).now)
  {
  }

  // Right after a response no request is on the wire for the token it left the session with.
  lemma NothingOnTheWireAfter(st: State, f: nat, o: Outcome)
    requires Inv(st) && Outstanding(st, f) && Mintable(st, o)
    ensures var answered := Step(st, Respond(f, o));
      && answered.flights[f].result == Some(Refreshed(st.flights[f].leader.token, o))
      && Refreshed(st.flights[f].leader.token, o).refresh.Some?
      && Refreshed(st.flights[f].leader.token, o).refresh.value !in answered.inFlight
  {
    InFlightIsMinted(st);
  }

  lemma InFlightIsMinted(st: State)
    requires Inv(st)
    ensures forall rt :: rt in st.inFlight ==> rt in st.owner
  {
    forall rt | rt in st.inFlight ensures rt in st.owner {
      var g := st.inFlight[rt];
      assert Outstanding(st, g);
      assert Belongs(st, st.flights[g].leader.token, st.flights[g].leader.session);
    }
  }

  /** What a response is worth to whoever waited for it, leader or not, when it calls again with the
      cookie it was handed: past the thirty days nothing; granted and not yet due, the new token as
      it is, without error and without a request; in every other case, refused, unavailable or due
      again, a request of its own, because none is left on the wire to join. */
  lemma NextCallbackAfterResponse(now: int, evs: seq<Event>, i: nat, o: Outcome)
    requires var st := Run(now, evs);
      && i < |st.calls| && st.calls[i].result.None? && Mintable(st, o)
      && st.calls[i].flight.Some? && Outstanding(st, st.calls[i].flight.value)
    ensures var st := Run(now, evs);
      var done := Step(Step(st, Respond(st.calls[i].flight.value, o)), Deliver(i));
      && i < |done.calls| && done.calls[i].result.Some?
      && var t := done.calls[i].result.value;
         var c := Cookie(t, st.calls[i].presented.session);
         var next := Step(done, Callback(c));
         && c in done.cookies
         && (o.Unavailable? ==> t == st.flights[st.calls[i].flight.value].leader.token)
         && (o.Refused? ==> t == st.flights[st.calls[i].flight.value].leader.token.(expired := true))
         && (PastMaxAge(t, st.now) ==>
               next.flights == done.flights && next.calls == done.calls + [Call(c, None, Some(t.(expired := true)))])
         && (!PastMaxAge(t, st.now) && GoodFor(o, st.now) ==>
               && t == Jwt(o.access, Some(o.refresh), o.expires, t.startedAt, false)
               && next.flights == done.flights && next.calls == done.calls + [Call(c, None, Some(t))])
         && (!PastMaxAge(t, st.now) && !GoodFor(o, st.now) ==>
               && next.flights == done.flights + [Flight(c, None)]
               && next.calls == done.calls + [Call(c, Some(|done.flights|), None)])
  {
    RunKeepsInv(now, evs);
    var st := Run(now, evs);
    LeadersAreDue(now, evs, st.calls[i].flight.value);
    NothingOnTheWireAfter(st, st.calls[i].flight.value, o);
    NextAfterDelivery(Step(st, Respond(st.calls[i].flight.value, o)), i);
  }

  // A granted token that needs no refresh yet.
  predicate GoodFor(o: Outcome, now: int) {
    o.Granted? && (o.expires == 0 || o.expires - now >= 60)
  }

  lemma NextAfterDelivery(st: State, i: nat)
    requires i < |st.calls| && st.calls[i].result.None? && st.calls[i].flight.Some?
    requires st.calls[i].flight.value < |st.flights| && st.flights[st.calls[i].flight.value].result.Some?
    requires var t := st.flights[st.calls[i].flight.value].result.value;
      t.refresh.Some? && t.refresh.value !in st.inFlight
    ensures var t := st.flights[st.calls[i].flight.value].result.value;
      var done := Step(st, Deliver(i));
      var c := Cookie(t, st.calls[i].presented.session);
      var next := Step(done, Callback(c));
      && |done.calls| == |st.calls| && done.calls[i].result == Some(t) && c in done.cookies
      && done.flights == st.flights
      && (if PastMaxAge(t, st.now) then
            next.flights == done.flights && next.calls == done.calls + [Call(c, None, Some(t.(expired := true)))]
          else if NeedsRefresh(t, st.now) then
            && next.flights == done.flights + [Flight(c, None)]
            && next.calls == done.calls + [Call(c, Some(|done.flights|), None)]
          else next.flights == done.flights && next.calls == done.calls + [Call(c, None, Some(t))])
  {
  }

  lemma MintedIsNotOnTheWire(st: State, refresh: Option<nat>)
    requires Inv(st) && (refresh.Some? ==> refresh.value !in st.owner)
    ensures refresh.Some? ==> refresh.value !in st.inFlight
  {
    InFlightIsMinted(st);
  }

  /** A login that is taken presents what the sign-in gave and the time it happened, and is answered
      with it at once and without a request, unless it already has to be refreshed; then exactly one
      request starts. */
  lemma LoginPresentsTheSignIn(now: int, evs: seq<Event>, access: int, refresh: Option<nat>, expires: int)
    requires Run(now, evs).now > 0 && (refresh.Some? ==> refresh.value !in Run(now, evs).owner)
    ensures var st := Run(now, evs);
      var st' := Step(st, Login(access, refresh, expires));
      && |st'.calls| == |st.calls| + 1 && st'.logins == st.logins + [st.now] && st'.now == st.now
      && var c := st'.calls[|st.calls|];
         && c.presented.session == |st.logins|
         && c.presented.token.access == access && c.presented.token.refresh == refresh
         && c.presented.token.expires == expires && c.presented.token.startedAt == st.now
         && !c.presented.token.expired
         && (if refresh.None? || expires == 0 || expires - st.now >= 60
             then c.result == Some(c.presented.token) && c.presented in st'.cookies && st'.flights == st.flights
             else && c.result == None && c.flight == Some(|st.flights|)
                  && st'.flights == st.flights + [Flight(c.presented, None)])
  {
    RunKeepsInv(now, evs);
    MintedIsNotOnTheWire(Run(now, evs), refresh);
  }

  function Elapsed(evs: seq<Event>): nat
    decreases |evs|
  {
    if evs == [] then 0
    else Elapsed(evs[..|evs| - 1]) + match evs[|evs| - 1] case Tick(s) => s case _ => 0
  }

  /** Nothing but the clock moves the time, so a session of any client is past its thirty days after
      more than 2 592 000 seconds of it, whatever happened in between. */
  lemma {:induction false} TimePasses(now: int, evs: seq<Event>)
    ensures Run(now, evs).now == now + Elapsed(evs)
    decreases |evs|
  {
    if evs != [] { TimePasses(now, evs[..|evs| - 1]); }
  }

  lemma ThirtyDaysEndEverySession(now: int, evs: seq<Event>, c: Cookie)
    requires c in Run(now, evs).cookies && c.session < |Run(now, evs).logins|
    requires now + Elapsed(evs) - Run(now, evs).logins[c.session] > 2_592_000
    ensures var st := Run(now, evs);
      var st' := Step(st, Callback(c));
      st'.flights == st.flights && st'.calls == st.calls + [Call(c, None, Some(c.token.(expired := true)))]
  {
    TimePasses(now, evs);
    OldSessionMustLogInAgain(now, evs, c);
  }

  // ---------- the module ----------

  class Auth {
    var now: int
    var refreshInFlight: map<nat, nat>
    var flights: seq<Flight>
    var calls: seq<Call>
    var logins: seq<int>
    var owner: map<nat, nat>
    var cookies: set<Cookie>

    function Current(): State reads this {
      State(now, refreshInFlight, flights, calls, logins, owner, cookies)
    }

    // A promise that is already settled.
    method Return(c: Cookie, t: Jwt)
      modifies this`calls, this`cookies
      ensures Current() == Answer(old(Current()), c, t)
    {
      calls := calls + [Call(c, None, Some(t))];
      cookies := cookies + {Cookie(t, c.session)};
    }

    method RefreshAccessToken(c: Cookie)
      requires !PastMaxAge(c.token, now) && NeedsRefresh(c.token, now)
      modifies this
      ensures Current() == HandleToken(old(Current()), c)
    {
      var refreshToken := c.token.refresh.value;
      if refreshToken in refreshInFlight {
        calls := calls + [Call(c, Some(refreshInFlight[refreshToken]), None)];
        return;
      }
      var refreshPromise := |flights|;
      flights := flights + [Flight(c, None)];
      refreshInFlight := refreshInFlight[refreshToken := refreshPromise];
      calls := calls + [Call(c, Some(refreshPromise), None)];
    }

    method CheckToken(c: Cookie)
      modifies this
      ensures Current() == HandleToken(old(Current()), c)
    {
      var token := c.token;
      if token.startedAt != 0 {
        if now - token.startedAt > ABSOLUTE_SESSION_MAX_AGE_SECONDS {
          Return(c, token.(expired := true));
          return;
        }
      }
      if token.expires != 0 && token.refresh.Some? {
        var timeUntilExpiry := token.expires - now;
        if timeUntilExpiry < REFRESH_BUFFER_SECONDS {
          RefreshAccessToken(c);
          return;
        }
      }
      Return(c, token);
    }

    // jwt() right after a sign-in: the fields are filled in, then the checks run as always.
    method JwtAtLogin(access: int, refresh: Option<nat>, expires: int)
      requires now > 0 && (refresh.Some? ==> refresh.value !in owner)
      modifies this
      ensures Current() == Step(old(Current()), Login(access, refresh, expires))
    {
      var token := Jwt(access, refresh, expires, now, false);
      var session := |logins|;
      logins := logins + [now];
      if refresh.Some? { owner := owner[refresh.value := session]; }
      CheckToken(Cookie(token, session));
    }

    method JwtCallback(c: Cookie)
      requires c in cookies
      modifies this
      ensures Current() == Step(old(Current()), Callback(c))
    {
      CheckToken(c);
    }

    // What the leader does with its response; the finally block clears the map entry.
    method OnResponse(f: nat, o: Outcome)
      requires Inv(Current()) && Outstanding(Current(), f) && Mintable(Current(), o)
      modifies this
      ensures Current() == Step(old(Current()), Respond(f, o))
    {
      var leader := flights[f].leader;
      var token := leader.token;
      match o {
        case Refused => token := token.(expired := true);
        case Unavailable =>
        case Granted(access, refresh, expires) =>
          token := token.(access := access, refresh := Some(refresh), expires := expires);
          token := token.(expired := false);
          owner := owner[refresh := leader.session];
      }
      flights := flights[f := Flight(leader, Some(token))];
      refreshInFlight := refreshInFlight - {leader.token.refresh.value};
    }
  }
}

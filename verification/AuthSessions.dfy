/** Signed-in identity: the JWT a browser holds and the security session that keeps it alive. */
module AuthSessions {
  import opened Basics

  datatype User = User(id: string, role: string, adminRoles: seq<string>, sid: string)

  datatype TokenValue = TokenValue(
    id: Option<string>, role: Option<string>, adminRoles: Option<seq<string>>, sid: Option<string>)

  const Anonymous := TokenValue(None, None, None, None)

  /** The jwt callback: `user` on sign-in, otherwise `active` is what validating the session answered. */
  function JwtStep(t: TokenValue, user: Option<User>, active: bool): TokenValue {
    match user
    case Some(u) => TokenValue(Some(u.id), Some(u.role), Some(u.adminRoles), Some(u.sid))
    case None => if t.id.Some? && t.sid.Some? && !active then Anonymous else t
  }

  class Token {
    var id: Option<string>
    var role: Option<string>
    var adminRoles: Option<seq<string>>
    var sid: Option<string>

    function Value(): TokenValue
      reads this
    {
      TokenValue(id, role, adminRoles, sid)
    }

    method Jwt(user: Option<User>, active: bool)
      modifies this
      ensures Value() == JwtStep(old(Value()), user, active)
      ensures match user
        case Some(u) => Value() == TokenValue(Some(u.id), Some(u.role), Some(u.adminRoles), Some(u.sid))
        case None =>
          Value() == if old(id).Some? && old(sid).Some? && !active then TokenValue(None, None, None, None)
                     else old(Value())
    {
      if user.Some? {
        id, role := Some(user.value.id), Some(user.value.role);
        adminRoles, sid := Some(user.value.adminRoles), Some(user.value.sid);
        return;
      }
      if id.Some? && sid.Some? {
        if !active {
          id := None;
          role := None;
          adminRoles := None;
          sid := None;
        }
      }
    }
  }

  /** What the session callback hands to the application; `user` fields are filled only from the token. */
  class Session {
    var userId: Option<string>
    var role: Option<string>
    var adminRoles: Option<seq<string>>
    var sid: Option<string>

    constructor ()
      ensures userId.None? && role.None? && adminRoles.None? && sid.None?
    {
      userId, role, adminRoles, sid := None, None, None, None;
    }

    method Fill(token: TokenValue)
      requires userId.None? && role.None? && adminRoles.None?
      modifies this
      ensures TokenValue(userId, role, adminRoles, sid) == token
    {
      if token.id.Some? {
        userId := token.id;
      }
      if token.role.Some? {
        role := token.role;
      }
      if token.adminRoles.Some? {
        adminRoles := token.adminRoles;
      }
      sid := token.sid;
    }
  }

  // ---------------------------------------------------------------- the world

  datatype Record = Record(user: string, device: string, revoked: bool, expires: nat)

  /** Security sessions by id, the token each browser holds, and the clock. */
  datatype World = World(sessions: map<string, Record>, tokens: map<string, TokenValue>, now: nat)

  const Empty := World(map[], map[], 0)

  predicate Active(w: World, sid: string, user: string) {
    sid in w.sessions && w.sessions[sid].user == user && !w.sessions[sid].revoked && w.sessions[sid].expires > w.now
  }

  datatype Event =
    | Login(browser: string, user: User, device: string, lifetime: nat)
    | Request(browser: string)
    | SignOut(browser: string)
    | Revoke(actor: string, sid: string)
    | RevokeAll(actor: string, keep: Option<string>)
    | Copy(from: string, to: string)
    | Tick(now: nat)

  function TokenOf(w: World, browser: string): TokenValue {
    if browser in w.tokens then w.tokens[browser] else Anonymous
  }

  function RevokeOne(w: World, actor: string, sid: string): map<string, Record> {
    if sid in w.sessions && w.sessions[sid].user == actor then w.sessions[sid := w.sessions[sid].(revoked := true)]
    else w.sessions
  }

  /** The token a request continues with. */
  function Validated(w: World, browser: string): TokenValue {
    var t := TokenOf(w, browser);
    JwtStep(t, None, t.id.Some? && t.sid.Some? && Active(w, t.sid.value, t.id.value))
  }

  function Step(w: World, e: Event): World {
    match e
    case Login(browser, user, device, lifetime) =>
      if user.sid in w.sessions then w  // session ids are random and never reused
      else
        var superseded := map s | s in w.sessions ::
          if w.sessions[s].user == user.id && w.sessions[s].device == device
          then w.sessions[s].(revoked := true) else w.sessions[s];
        w.(sessions := superseded[user.sid := Record(user.id, device, false, w.now + lifetime)],
           tokens := w.tokens[browser := JwtStep(TokenOf(w, browser), Some(user), false)])
    case Request(browser) => w.(tokens := w.tokens[browser := Validated(w, browser)])
    case SignOut(browser) =>
      var t := TokenOf(w, browser);
      w.(sessions := if t.id.Some? && t.sid.Some? then RevokeOne(w, t.id.value, t.sid.value) else w.sessions,
         tokens := w.tokens - {browser})
    case Revoke(actor, sid) => w.(sessions := RevokeOne(w, actor, sid))
    case RevokeAll(actor, keep) =>
      w.(sessions := map s | s in w.sessions ::
           if w.sessions[s].user == actor && keep != Some(s) then w.sessions[s].(revoked := true) else w.sessions[s])
    case Copy(from, to) => w.(tokens := w.tokens[to := TokenOf(w, from)])
    case Tick(now) => if now >= w.now then w.(now := now) else w
  }

  /** The identity the application sees while serving an event. */
  function Exposed(w: World, e: Event): TokenValue {
    match e
    case Request(browser) => Validated(w, browser)
    case _ => Anonymous
  }

  function Run(w: World, events: seq<Event>): World
    decreases |events|
  {
    if events == [] then w else Run(Step(w, events[0]), events[1..])
  }

  // ---------------------------------------------------------------- what every run keeps

  /** Every token carries user and session together or neither, and the session is that user's. */
  ghost predicate Consistent(w: World) {
    forall b :: b in w.tokens ==> TokenConsistent(w, w.tokens[b])
  }

  ghost predicate TokenConsistent(w: World, t: TokenValue) {
    && (t.id.Some? <==> t.sid.Some?)
    && (t.id.None? ==> t == Anonymous)
    && (t.id.Some? ==> t.sid.value in w.sessions && w.sessions[t.sid.value].user == t.id.value)
  }

  /** Sessions are only added, keep their user, and once dead stay dead. */
  ghost predicate Ages(v: World, w: World) {
    && v.now <= w.now
    && forall s :: s in v.sessions ==>
         && s in w.sessions && w.sessions[s].user == v.sessions[s].user
         && w.sessions[s].expires == v.sessions[s].expires
         && (v.sessions[s].revoked ==> w.sessions[s].revoked)
  }

  lemma StepAges(w: World, e: Event)
    ensures Ages(w, Step(w, e))
  {
  }

  lemma StepConsistent(w: World, e: Event)
    requires Consistent(w)
    ensures Consistent(Step(w, e))
  {
    StepAges(w, e);
    var w' := Step(w, e);
    forall b | b in w'.tokens ensures TokenConsistent(w', w'.tokens[b]) {
      if b in w.tokens {
        assert TokenConsistent(w, w.tokens[b]);
      }
      if e.Copy? && e.from in w.tokens {
        assert TokenConsistent(w, w.tokens[e.from]);
      }
    }
  }

  lemma {:induction false} RunConsistent(w: World, events: seq<Event>)
    requires Consistent(w)
    ensures Consistent(Run(w, events)) && Ages(w, Run(w, events))
    decreases |events|
  {
    if events != [] {
      StepConsistent(w, events[0]);
      StepAges(w, events[0]);
      RunConsistent(Step(w, events[0]), events[1..]);
    }
  }

  /** In every reachable world a request shows a user exactly when the token's session is that user's and alive. */
  lemma ExposedIffActive(events: seq<Event>, browser: string)
    ensures var w := Run(Empty, events);
      var t, x := TokenOf(w, browser), Exposed(w, Request(browser));
      && (x.id.Some? <==> t.id.Some? && t.sid.Some? && Active(w, t.sid.value, t.id.value))
      && (x.id.Some? ==> x == t)
      && (x.id.None? ==> x == Anonymous)
  {
    RunConsistent(Empty, events);
    var w := Run(Empty, events);
    if browser in w.tokens {
      assert TokenConsistent(w, w.tokens[browser]);
    }
  }

  /** Signing in with a new session shows exactly that user at the next request. */
  lemma SignInIsSeen(events: seq<Event>, browser: string, user: User, device: string, lifetime: nat)
    requires user.sid !in Run(Empty, events).sessions && lifetime > 0
    ensures Exposed(Run(Empty, events + [Login(browser, user, device, lifetime)]), Request(browser))
      == TokenValue(Some(user.id), Some(user.role), Some(user.adminRoles), Some(user.sid))
  {
    RunSnoc(Empty, events, Login(browser, user, device, lifetime));
  }

  /** In any world whatever, a token that names another user's session is refused and cleared. */
  lemma ForeignSessionIsRefused(w: World, browser: string)
    requires var t := TokenOf(w, browser);
      t.id.Some? && t.sid.Some? && t.sid.value in w.sessions && w.sessions[t.sid.value].user != t.id.value
    ensures Exposed(w, Request(browser)) == Anonymous && TokenOf(Step(w, Request(browser)), browser) == Anonymous
  {
  }

  /** Whoever is handed a copy of a token is shown what its owner is, until either gets another. */
  lemma CopyShowsTheSame(w: World, from: string, to: string, events: seq<Event>)
    requires Consistent(w) && TokenOf(w, from).sid.Some?
    requires forall e :: e in events ==> !Replaces(e, from) && !Replaces(e, to)
    ensures var v := Run(Step(w, Copy(from, to)), events);
      Exposed(v, Request(to)) == Exposed(v, Request(from))
  {
    StepConsistent(w, Copy(from, to));
    ShownUntilKilled(Step(w, Copy(from, to)), from, events);
    ShownUntilKilled(Step(w, Copy(from, to)), to, events);
  }

  // ---------------------------------------------------------------- how sessions end

  ghost predicate Dead(w: World, sid: string) {
    sid in w.sessions && (w.sessions[sid].revoked || w.sessions[sid].expires <= w.now)
  }

  /** The events that revoke a session: its owner naming it, its owner revoking all but another, its owner signing
      in anew on the same device, and a browser that holds its token signing out. */
  ghost predicate Kills(w: World, e: Event, sid: string)
    requires sid in w.sessions
  {
    match e
    case Revoke(actor, named) => actor == w.sessions[sid].user && named == sid
    case RevokeAll(actor, keep) => actor == w.sessions[sid].user && keep != Some(sid)
    case Login(_, user, device, _) =>
      user.id == w.sessions[sid].user && device == w.sessions[sid].device && user.sid !in w.sessions
    case SignOut(browser) => browser in w.tokens && w.tokens[browser].sid == Some(sid)
    case _ => false
  }

  /** An event revokes exactly the sessions it kills; their owner, device and expiry stay. */
  lemma StepRevokesIff(w: World, e: Event, sid: string)
    requires Consistent(w) && sid in w.sessions
    ensures var w' := Step(w, e);
      && sid in w'.sessions
      && (w'.sessions[sid].revoked <==> w.sessions[sid].revoked || Kills(w, e, sid))
      && w'.sessions[sid] == w.sessions[sid].(revoked := w'.sessions[sid].revoked)
  {
    if e.SignOut? && e.browser in w.tokens {
      assert TokenConsistent(w, w.tokens[e.browser]);
    }
  }

  ghost predicate KilledIn(w: World, events: seq<Event>, sid: string)
    requires sid in w.sessions
    decreases |events|
  {
    if events == [] then false
    else
      StepAges(w, events[0]);
      Kills(w, events[0], sid) || KilledIn(Step(w, events[0]), events[1..], sid)
  }

  /** Over every run, a session is revoked if and only if it was before or some event on the way kills it. */
  lemma {:induction false} RevokedIff(w: World, events: seq<Event>, sid: string)
    requires Consistent(w) && sid in w.sessions
    ensures var v := Run(w, events);
      && sid in v.sessions
      && (v.sessions[sid].revoked <==> w.sessions[sid].revoked || KilledIn(w, events, sid))
      && v.sessions[sid] == w.sessions[sid].(revoked := v.sessions[sid].revoked)
    decreases |events|
  {
    if events != [] {
      StepRevokesIff(w, events[0], sid);
      StepConsistent(w, events[0]);
      hide Step, Kills, Consistent;
      RevokedIff(Step(w, events[0]), events[1..], sid);
    }
  }

  /** An event that gives a browser a token. */
  predicate Touches(e: Event, browser: string) {
    (e.Login? && e.browser == browser) || (e.Copy? && e.to == browser)
  }

  /** An event that gives a browser another token, or takes the one it has. */
  predicate Replaces(e: Event, browser: string) {
    Touches(e, browser) || (e.SignOut? && e.browser == browser)
  }

  /** The clock after some events: the latest time told. */
  function Latest(now: nat, events: seq<Event>): nat
    decreases |events|
  {
    if events == [] then now
    else Latest(if events[0].Tick? && events[0].now > now then events[0].now else now, events[1..])
  }

  lemma {:induction false} RunClock(w: World, events: seq<Event>)
    ensures Run(w, events).now == Latest(w.now, events)
    decreases |events|
  {
    if events != [] {
      RunClock(Step(w, events[0]), events[1..]);
    }
  }

  /** What a browser shows once it holds a token of a session, and does not get another: the same identity at every
      request until an event kills the session or the clock reaches its expiry, and nothing after that. */
  lemma {:induction false} ShownUntilKilled(w: World, browser: string, events: seq<Event>)
    requires Consistent(w) && TokenOf(w, browser).sid.Some?
    requires forall e :: e in events ==> !Replaces(e, browser)
    ensures var t, x := TokenOf(w, browser), Exposed(Run(w, events), Request(browser));
      && t.sid.value in w.sessions
      && var record := w.sessions[t.sid.value];
      x == if record.revoked || KilledIn(w, events, t.sid.value) || record.expires <= Latest(w.now, events)
           then Anonymous else t
    decreases |events|
  {
    var t := TokenOf(w, browser);
    assert TokenConsistent(w, t);
    if events != [] {
      var e, v := events[0], Step(w, events[0]);
      assert e in events && forall f :: f in events[1..] ==> f in events;
      StepConsistent(w, e);
      StepRevokesIff(w, e, t.sid.value);
      if TokenOf(v, browser) == t {
        assert Latest(w.now, events) == Latest(v.now, events[1..]);
        ShownUntilKilled(v, browser, events[1..]);
      } else {
        ClearedStaysAnonymous(w, browser, e, events[1..]);
        LatestGrows(w.now, events);
      }
    }
  }

  /** Only a request changes the token of a browser that is not handed another, and only when its session is dead. */
  lemma ClearedStaysAnonymous(w: World, browser: string, e: Event, later: seq<Event>)
    requires Consistent(w) && TokenOf(w, browser).sid.Some? && !Replaces(e, browser)
    requires TokenOf(Step(w, e), browser) != TokenOf(w, browser)
    requires forall f :: f in later ==> !Replaces(f, browser)
    ensures Exposed(Run(Step(w, e), later), Request(browser)) == Anonymous
    ensures e == Request(browser) && Dead(w, TokenOf(w, browser).sid.value)
  {
    assert TokenConsistent(w, TokenOf(w, browser));
    AnonymousStays(Step(w, e), browser, later);
  }

  lemma {:induction false} LatestGrows(now: nat, events: seq<Event>)
    ensures Latest(now, events) >= now
    decreases |events|
  {
    if events != [] {
      LatestGrows(if events[0].Tick? && events[0].now > now then events[0].now else now, events[1..]);
    }
  }

  /** From a sign-in on: exactly the signed-in identity, exactly until the session is killed or expires. */
  lemma SignInLastsUntilKilled(before: seq<Event>, browser: string, user: User, device: string, lifetime: nat,
                               later: seq<Event>)
    requires user.sid !in Run(Empty, before).sessions
    requires forall e :: e in later ==> !Replaces(e, browser)
    ensures var v := Run(Empty, before);
      var w := Step(v, Login(browser, user, device, lifetime));
      && user.sid in w.sessions
      && Exposed(Run(w, later), Request(browser))
         == if KilledIn(w, later, user.sid) || v.now + lifetime <= Latest(v.now, later) then Anonymous
            else TokenValue(Some(user.id), Some(user.role), Some(user.adminRoles), Some(user.sid))
  {
    RunConsistent(Empty, before);
    var v := Run(Empty, before);
    StepConsistent(v, Login(browser, user, device, lifetime));
    ShownUntilKilled(Step(v, Login(browser, user, device, lifetime)), browser, later);
  }

  /** Once revoked or expired, a session is never shown again: in no browser, after no events, however tokens are
      copied. */
  lemma DeadIsNeverExposed(before: seq<Event>, sid: string, later: seq<Event>, browser: string)
    requires Dead(Run(Empty, before), sid)
    ensures var x := Exposed(Run(Run(Empty, before), later), Request(browser)); x.sid != Some(sid)
  {
    var v := Run(Empty, before);
    RunConsistent(Empty, before);
    RunConsistent(v, later);
    var w := Run(v, later);
    if browser in w.tokens {
      assert TokenConsistent(w, w.tokens[browser]);
    }
    assert Dead(w, sid);
  }

  /** A session killed by whichever event is shown in no browser afterwards: by its owner's revocation, by a
      revocation of all others, by a new sign-in on its device, or by a sign-out. */
  lemma KilledIsNeverExposed(before: seq<Event>, e: Event, sid: string, later: seq<Event>, browser: string)
    requires sid in Run(Empty, before).sessions && Kills(Run(Empty, before), e, sid)
    ensures Exposed(Run(Run(Empty, before + [e]), later), Request(browser)).sid != Some(sid)
  {
    RunConsistent(Empty, before);
    StepRevokesIff(Run(Empty, before), e, sid);
    RunSnoc(Empty, before, e);
    DeadIsNeverExposed(before + [e], sid, later, browser);
  }

  /** A browser whose token lost its identity stays anonymous until it signs in (or is handed a token) again. */
  lemma {:induction false} AnonymousStays(w: World, browser: string, events: seq<Event>)
    requires TokenOf(w, browser) == Anonymous
    requires forall e :: e in events ==> !Touches(e, browser)
    ensures TokenOf(Run(w, events), browser) == Anonymous
    decreases |events|
  {
    if events != [] {
      assert events[0] in events;
      AnonymousStays(Step(w, events[0]), browser, events[1..]);
    }
  }

  /** A dead session costs its token the identity at the next request. */
  lemma DeadTokenIsCleared(before: seq<Event>, browser: string)
    requires var w := Run(Empty, before); var t := TokenOf(w, browser); t.sid.Some? && Dead(w, t.sid.value)
    ensures TokenOf(Run(Empty, before + [Request(browser)]), browser) == Anonymous
  {
    RunConsistent(Empty, before);
    RunSnoc(Empty, before, Request(browser));
    var w := Run(Empty, before);
    assert TokenConsistent(w, w.tokens[browser]);
  }

  /** So the browser that holds the token of a session an event kills is anonymous after its next request. */
  lemma RevokedTokenIsCleared(before: seq<Event>, e: Event, sid: string, browser: string)
    requires var w := Run(Empty, before); sid in w.sessions && Kills(w, e, sid)
    requires TokenOf(Run(Empty, before + [e]), browser).sid == Some(sid)
    ensures TokenOf(Run(Empty, before + [e] + [Request(browser)]), browser) == Anonymous
  {
    RunConsistent(Empty, before);
    StepRevokesIff(Run(Empty, before), e, sid);
    RunSnoc(Empty, before, e);
    DeadTokenIsCleared(before + [e], browser);
  }

  lemma {:induction false} RunSnoc(w: World, events: seq<Event>, e: Event)
    ensures Run(w, events + [e]) == Step(Run(w, events), e)
    decreases |events|
  {
    if events == [] {
      assert events + [e] == [e] && [e][1..] == [];
    } else {
      assert (events + [e])[1..] == events[1..] + [e];
      RunSnoc(Step(w, events[0]), events[1..], e);
    }
  }

  /** Signing out kills the session for every copy of the token. */
  lemma SignOutKills(before: seq<Event>, browser: string, later: seq<Event>, other: string)
    requires TokenOf(Run(Empty, before), browser).sid.Some?
    ensures var sid := TokenOf(Run(Empty, before), browser).sid;
      && TokenOf(Run(Empty, before + [SignOut(browser)]), browser) == Anonymous
      && Exposed(Run(Run(Empty, before + [SignOut(browser)]), later), Request(other)).sid != sid
  {
    RunConsistent(Empty, before);
    var w := Run(Empty, before);
    assert TokenConsistent(w, w.tokens[browser]);
    RunSnoc(Empty, before, SignOut(browser));
    KilledIsNeverExposed(before, SignOut(browser), w.tokens[browser].sid.value, later, other);
  }
}

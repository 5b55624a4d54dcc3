/**
 * The credential-lifecycle decision procedure of the script
 * (`ecobee_connect` with its helpers), as functions on an explicit state:
 * the in-memory client record, the shelf, the trace of actions issued and
 * the replies the vendor's API is still going to give.
 */
module Lifecycle {
  import opened Optional
  import opened Credentials

  /** The three vendor API calls the procedure can issue. */
  datatype Call = Authorize | RequestTokens | Refresh

  /** What the procedure does, in order: API calls that returned, shelf writes, operator waits. */
  datatype Action =
    | Api(call: Call)
    | Persist(bundle: Bundle)
    | AwaitOperator(pin: string)

  /** Reply to `authorize()`: the pin shown to the operator and the authorization code kept. */
  datatype AuthorizeReply = AuthorizeReply(pin: string, code: string)

  /** Reply to `request_tokens()` or `refresh_tokens()`. */
  datatype TokenGrant = TokenGrant(
    accessToken: string,
    refreshToken: string,
    accessTokenExpiresOn: int,
    refreshTokenExpiresOn: int)

  /**
   * The vendor API as seen from the script: for each endpoint, the replies
   * it will give, call by call. A call to an endpoint with no reply left
   * raises. Every behaviour of the API is one value of this type.
   */
  datatype Library = Library(
    authorizations: seq<AuthorizeReply>,
    tokenGrants: seq<TokenGrant>,
    refreshGrants: seq<TokenGrant>)

  datatype State = State(service: Bundle, store: Store, trace: seq<Action>, library: Library)

  /** A step either returns normally or an API call raises out of it. */
  datatype Step = Done(state: State) | Raised(call: Call, state: State)

  // ---------------------------------------------------------------------
  // Effects of the API calls on the client record

  /** The record once `Authorize` returned: only the authorization token changes. */
  function Authorized(b: Bundle, reply: AuthorizeReply): (r: Bundle)
    ensures ChangedBy(Authorize, b, r)
    ensures r.authorizationToken == Some(reply.code)
  {
    b.(authorizationToken := Some(reply.code))
  }

  /** The record once a token call returned: only the two tokens and their expiries change. */
  function Granted(b: Bundle, g: TokenGrant): (r: Bundle)
    ensures ChangedBy(RequestTokens, b, r) && ChangedBy(Refresh, b, r)
    ensures r.accessTokenExpiresOn == g.accessTokenExpiresOn
    ensures r.refreshTokenExpiresOn == g.refreshTokenExpiresOn
  {
    b.(accessToken := Some(g.accessToken), refreshToken := Some(g.refreshToken),
       accessTokenExpiresOn := g.accessTokenExpiresOn,
       refreshTokenExpiresOn := g.refreshTokenExpiresOn)
  }

  // ---------------------------------------------------------------------
  // The helpers and the procedure

  /** `ecobee_authorize`: authorize, persist, then wait for the operator. */
  function EcobeeAuthorize(s: State): (r: Step)
    ensures r.Raised? <==> s.library.authorizations == []
    ensures r.Raised? ==> r.call == Authorize && r.state == s
    ensures r.Done? ==>
      && ChangedBy(Authorize, s.service, r.state.service)
      && r.state.store == PersistToShelf(s.store, r.state.service)
      && r.state.service.authorizationToken == Some(s.library.authorizations[0].code)
      && r.state.trace == s.trace + [Api(Authorize), Persist(r.state.service),
                                     AwaitOperator(s.library.authorizations[0].pin)]
  {
    if s.library.authorizations == [] then Raised(Authorize, s)
    else
      var reply := s.library.authorizations[0];
      var b := Authorized(s.service, reply);
      Done(State(b, PersistToShelf(s.store, b),
                 s.trace + [Api(Authorize), Persist(b), AwaitOperator(reply.pin)],
                 s.library.(authorizations := s.library.authorizations[1..])))
  }

  /** `ecobee_request_tokens`: request tokens, then persist. */
  function EcobeeRequestTokens(s: State): (r: Step)
    ensures r.Raised? <==> s.library.tokenGrants == []
    ensures r.Raised? ==> r.call == RequestTokens && r.state == s
    ensures r.Done? ==>
      && ChangedBy(RequestTokens, s.service, r.state.service)
      && r.state.store == PersistToShelf(s.store, r.state.service)
      && r.state.trace == s.trace + [Api(RequestTokens), Persist(r.state.service)]
  {
    if s.library.tokenGrants == [] then Raised(RequestTokens, s)
    else
      var b := Granted(s.service, s.library.tokenGrants[0]);
      Done(State(b, PersistToShelf(s.store, b), s.trace + [Api(RequestTokens), Persist(b)],
                 s.library.(tokenGrants := s.library.tokenGrants[1..])))
  }

  /** `ecobee_refresh_tokens`: refresh tokens, then persist. */
  function EcobeeRefreshTokens(s: State): (r: Step)
    ensures r.Raised? <==> s.library.refreshGrants == []
    ensures r.Raised? ==> r.call == Refresh && r.state == s
    ensures r.Done? ==>
      && ChangedBy(Refresh, s.service, r.state.service)
      && r.state.store == PersistToShelf(s.store, r.state.service)
      && r.state.trace == s.trace + [Api(Refresh), Persist(r.state.service)]
  {
    if s.library.refreshGrants == [] then Raised(Refresh, s)
    else
      var b := Granted(s.service, s.library.refreshGrants[0]);
      Done(State(b, PersistToShelf(s.store, b), s.trace + [Api(Refresh), Persist(b)],
                 s.library.(refreshGrants := s.library.refreshGrants[1..])))
  }

  /** Requests tokens on the state of `r`, unless `r` raised. */
  function AndThenRequest(r: Step): Step {
    if r.Raised? then r else EcobeeRequestTokens(r.state)
  }

  /** The start of `ecobee_connect`: the record loaded (or created), nothing done yet. */
  function Initial(store: Store, name: string, key: string, library: Library): (r: State)
    ensures Tracks(r.service, store, r) && r.trace == []
    ensures r.service == Load(store, name, key) && r.store == store && r.library == library
    ensures name !in store ==> r.service.authorizationToken == None && r.service.accessToken == None
  {
    State(Load(store, name, key), store, [], library)
  }

  /**
   * The two independent checks for missing tokens: unless a call raised,
   * both tokens are present afterwards, and a record holding both is left alone.
   */
  function AcquireTokens(s: State): (r: Step)
    ensures r.Done? ==> r.state.service.authorizationToken.Some? && r.state.service.accessToken.Some?
    ensures s.service.authorizationToken.Some? && s.service.accessToken.Some? ==> r == Done(s)
  {
    var r := if s.service.authorizationToken == None then EcobeeAuthorize(s) else Done(s);
    if r.Raised? then r
    else if r.state.service.accessToken == None then EcobeeRequestTokens(r.state)
    else r
  }

  /**
   * The time comparison with the clock value `now`: strict, refresh token
   * first. With neither expiry passed nothing happens; when one has passed
   * and no call raised, the record holds newly granted tokens: those of the
   * next token grant after a new authorization when the refresh token has
   * expired, those of the next refresh grant when only the access token has.
   */
  function CheckExpiry(s: State, now: int): (r: Step)
    ensures now <= s.service.refreshTokenExpiresOn && now <= s.service.accessTokenExpiresOn ==> r == Done(s)
    ensures r.Done? && (now > s.service.refreshTokenExpiresOn || now > s.service.accessTokenExpiresOn) ==>
      r.state.service.accessToken.Some? && r.state.service.refreshToken.Some?
    ensures r.Done? && s.service.authorizationToken.Some? ==> r.state.service.authorizationToken.Some?
    ensures r.Done? && now > s.service.refreshTokenExpiresOn ==>
      s.library.authorizations != [] && s.library.tokenGrants != [] &&
      r.state.service == Granted(Authorized(s.service, s.library.authorizations[0]), s.library.tokenGrants[0])
    ensures r.Done? && now <= s.service.refreshTokenExpiresOn && now > s.service.accessTokenExpiresOn ==>
      s.library.refreshGrants != [] && r.state.service == Granted(s.service, s.library.refreshGrants[0])
  {
    if now > s.service.refreshTokenExpiresOn then AndThenRequest(EcobeeAuthorize(s))
    else if now > s.service.accessTokenExpiresOn then EcobeeRefreshTokens(s)
    else Done(s)
  }

  /**
   * `ecobee_connect`, with `now` the clock value read before the time
   * comparison. Whatever the API replies, every call that returns is
   * followed by a write of the changed record, the client record keeps its
   * name and key, and the shelf ends either untouched (record unchanged)
   * or holding exactly the final record under its name.
   */
  function Connect(store: Store, name: string, key: string, now: int, library: Library): (r: Step)
    ensures PersistsEveryCall(Load(store, name, key), r.state.trace)
    ensures r.state.service.thermostatName == Load(store, name, key).thermostatName
    ensures r.state.service.applicationKey == Load(store, name, key).applicationKey
    ensures LastPersisted(r.state.trace) == None ==>
      r.state.service == Load(store, name, key) && r.state.store == store
    ensures LastPersisted(r.state.trace) != None ==>
      LastPersisted(r.state.trace) == Some(r.state.service) &&
      r.state.store == PersistToShelf(store, r.state.service)
  {
    var s := Initial(store, name, key, library);
    var a := AcquireTokens(s);
    AcquireTracks(s.service, store, s);
    if a.Raised? then a
    else
      CheckExpiryTracks(s.service, store, a.state, now);
      CheckExpiry(a.state, now)
  }

  // ---------------------------------------------------------------------
  // Trace observations

  /** The API calls that returned, in order. */
  function Calls(t: seq<Action>): seq<Call> {
    if t == [] then [] else (if t[0].Api? then [t[0].call] else []) + Calls(t[1..])
  }

  /** The API calls issued by a run, in order: those that returned, then the one that raised. */
  function Attempted(r: Step): seq<Call> {
    Calls(r.state.trace) + (if r.Raised? then [r.call] else [])
  }

  /** The record carried by the last shelf write of a trace. */
  function LastPersisted(t: seq<Action>): Option<Bundle> {
    if t == [] then None
    else if t[|t| - 1].Persist? then Some(t[|t| - 1].bundle)
    else LastPersisted(t[..|t| - 1])
  }

  /** The client record after the trace `t`, starting from `loaded`: the last one written, if any. */
  function Current(loaded: Bundle, t: seq<Action>): Bundle {
    match LastPersisted(t)
    case None => loaded
    case Some(b) => b
  }

  /**
   * `after` is `before` with only the fields `c` sets changed, and those
   * tokens present: the authorization token for `Authorize`; both tokens and
   * both expiries for the token calls. Name and key never change.
   */
  predicate ChangedBy(c: Call, before: Bundle, after: Bundle) {
    match c
    case Authorize =>
      after.authorizationToken.Some? && after == before.(authorizationToken := after.authorizationToken)
    case _ =>
      after.accessToken.Some? && after.refreshToken.Some? &&
      after == before.(accessToken := after.accessToken, refreshToken := after.refreshToken,
                       accessTokenExpiresOn := after.accessTokenExpiresOn,
                       refreshTokenExpiresOn := after.refreshTokenExpiresOn)
  }

  /**
   * Starting from the record `loaded`, every API call is immediately followed
   * by a shelf write of the record as that call left it (the record before
   * the call, changed only in the call's fields), and an authorization's
   * write comes before the operator wait.
   */
  predicate PersistsEveryCall(loaded: Bundle, t: seq<Action>) {
    forall i {:trigger t[i]} :: 0 <= i < |t| && t[i].Api? ==>
      i + 1 < |t| && t[i + 1].Persist? && ChangedBy(t[i].call, Current(loaded, t[..i]), t[i + 1].bundle) &&
      (t[i].call == Authorize ==> i + 2 < |t| && t[i + 2].AwaitOperator?)
  }

  /**
   * What holds of a state reached from the record `loaded` and the shelf
   * `store` by the procedure's steps.
   */
  ghost predicate Tracks(loaded: Bundle, store: Store, s: State) {
    && PersistsEveryCall(loaded, s.trace)
    && s.service.thermostatName == loaded.thermostatName
    && s.service.applicationKey == loaded.applicationKey
    && (LastPersisted(s.trace) == None ==> s.service == loaded && s.store == store)
    && (LastPersisted(s.trace) != None ==>
          LastPersisted(s.trace) == Some(s.service) && s.store == PersistToShelf(store, s.service))
  }

  // ---------------------------------------------------------------------
  // Lemmas: the steps keep Tracks

  lemma {:induction false} CallsAppend(a: seq<Action>, b: seq<Action>)
    ensures Calls(a + b) == Calls(a) + Calls(b)
  {
    if a == [] {
      assert a + b == b;
    } else {
      var head := if a[0].Api? then [a[0].call] else [];
      assert (a + b)[0] == a[0];
      assert (a + b)[1..] == a[1..] + b;
      assert Calls(a + b) == head + Calls(a[1..] + b);
      CallsAppend(a[1..], b);
      assert Calls(a) == head + Calls(a[1..]);
    }
  }

  lemma {:induction false} CurrentAppend(loaded: Bundle, t: seq<Action>, u: seq<Action>)
    ensures Current(loaded, t + u) == Current(Current(loaded, t), u)
    decreases |u|
  {
    if u == [] {
      assert t + u == t;
    } else {
      var n := |t + u| - 1;
      assert (t + u)[n] == u[|u| - 1];
      if !u[|u| - 1].Persist? {
        assert (t + u)[..n] == t + u[..|u| - 1];
        CurrentAppend(loaded, t, u[..|u| - 1]);
      }
    }
  }

  lemma AppendPersistsEveryCall(loaded: Bundle, t: seq<Action>, d: seq<Action>)
    requires PersistsEveryCall(loaded, t) && PersistsEveryCall(Current(loaded, t), d)
    ensures PersistsEveryCall(loaded, t + d)
  {
    forall i | 0 <= i < |t + d| && (t + d)[i].Api?
      ensures i + 1 < |t + d| && (t + d)[i + 1].Persist? &&
              ChangedBy((t + d)[i].call, Current(loaded, (t + d)[..i]), (t + d)[i + 1].bundle) &&
              ((t + d)[i].call == Authorize ==> i + 2 < |t + d| && (t + d)[i + 2].AwaitOperator?)
    {
      if i >= |t| {
        var j := i - |t|;
        assert (t + d)[i] == d[j] && d[j].Api?;
        assert j + 1 < |d| && (t + d)[i + 1] == d[j + 1];
        assert (t + d)[..i] == t + d[..j];
        CurrentAppend(loaded, t, d[..j]);
        if d[j].call == Authorize {
          assert j + 2 < |d| && (t + d)[i + 2] == d[j + 2];
        }
      } else {
        assert (t + d)[i] == t[i] && i + 1 < |t| && (t + d)[i + 1] == t[i + 1];
        assert (t + d)[..i] == t[..i];
        if t[i].call == Authorize {
          assert i + 2 < |t| && (t + d)[i + 2] == t[i + 2];
        }
      }
    }
  }

  lemma LastPersistedAfterWrite(t: seq<Action>, b: Bundle)
    ensures LastPersisted(t + [Persist(b)]) == Some(b)
  {
  }

  lemma LastPersistedAfterWait(t: seq<Action>, pin: string)
    ensures LastPersisted(t + [AwaitOperator(pin)]) == LastPersisted(t)
  {
    assert (t + [AwaitOperator(pin)])[..|t|] == t;
  }

  lemma AuthorizeTracks(loaded: Bundle, store: Store, s: State)
    requires Tracks(loaded, store, s)
    ensures Tracks(loaded, store, EcobeeAuthorize(s).state)
  {
    if s.library.authorizations != [] {
      var reply := s.library.authorizations[0];
      var b := Authorized(s.service, reply);
      var d := [Api(Authorize), Persist(b), AwaitOperator(reply.pin)];
      assert [Api(Authorize)][..0] == [];
      AppendPersistsEveryCall(loaded, s.trace, d);
      assert s.trace + d == (s.trace + [Api(Authorize)]) + [Persist(b)] + [AwaitOperator(reply.pin)];
      LastPersistedAfterWrite(s.trace + [Api(Authorize)], b);
      LastPersistedAfterWait((s.trace + [Api(Authorize)]) + [Persist(b)], reply.pin);
    }
  }

  lemma GrantTracks(loaded: Bundle, store: Store, s: State, c: Call, g: TokenGrant)
    requires Tracks(loaded, store, s) && c != Authorize
    ensures
      var b := Granted(s.service, g);
      Tracks(loaded, store, State(b, PersistToShelf(s.store, b), s.trace + [Api(c), Persist(b)], s.library))
  {
    var b := Granted(s.service, g);
    assert [Api(c), Persist(b)][..0] == [];
    AppendPersistsEveryCall(loaded, s.trace, [Api(c), Persist(b)]);
  }

  lemma RequestTracks(loaded: Bundle, store: Store, s: State)
    requires Tracks(loaded, store, s)
    ensures Tracks(loaded, store, EcobeeRequestTokens(s).state)
  {
    if s.library.tokenGrants != [] {
      GrantTracks(loaded, store, s, RequestTokens, s.library.tokenGrants[0]);
    }
  }

  lemma RefreshTracks(loaded: Bundle, store: Store, s: State)
    requires Tracks(loaded, store, s)
    ensures Tracks(loaded, store, EcobeeRefreshTokens(s).state)
  {
    if s.library.refreshGrants != [] {
      GrantTracks(loaded, store, s, Refresh, s.library.refreshGrants[0]);
    }
  }

  lemma AcquireTracks(loaded: Bundle, store: Store, s: State)
    requires Tracks(loaded, store, s)
    ensures Tracks(loaded, store, AcquireTokens(s).state)
  {
    AuthorizeTracks(loaded, store, s);
    var r := if s.service.authorizationToken == None then EcobeeAuthorize(s) else Done(s);
    if r.Done? {
      RequestTracks(loaded, store, r.state);
    }
  }

  lemma CheckExpiryTracks(loaded: Bundle, store: Store, s: State, now: int)
    requires Tracks(loaded, store, s)
    ensures Tracks(loaded, store, CheckExpiry(s, now).state)
  {
    AuthorizeTracks(loaded, store, s);
    RequestTracks(loaded, store, EcobeeAuthorize(s).state);
    RefreshTracks(loaded, store, s);
  }

  // ---------------------------------------------------------------------
  // Lemmas: which calls each step issues

  lemma CallsOfWrite(t: seq<Action>, c: Call, b: Bundle)
    ensures Calls(t + [Api(c), Persist(b)]) == Calls(t) + [c]
  {
    CallsAppend(t, [Api(c), Persist(b)]);
    assert [Api(c), Persist(b)][1..] == [Persist(b)];
    assert [Persist(b)][1..] == [];
    assert Calls([Persist(b)]) == [];
    assert Calls([Api(c), Persist(b)]) == [c];
  }

  lemma AuthorizeCalls(s: State)
    ensures Attempted(EcobeeAuthorize(s)) == Calls(s.trace) + [Authorize]
  {
    if s.library.authorizations != [] {
      var reply := s.library.authorizations[0];
      var b := Authorized(s.service, reply);
      CallsOfWrite(s.trace, Authorize, b);
      CallsAppend(s.trace + [Api(Authorize), Persist(b)], [AwaitOperator(reply.pin)]);
      assert s.trace + [Api(Authorize), Persist(b), AwaitOperator(reply.pin)]
          == (s.trace + [Api(Authorize), Persist(b)]) + [AwaitOperator(reply.pin)];
    }
  }

  lemma RequestCalls(s: State)
    ensures Attempted(EcobeeRequestTokens(s)) == Calls(s.trace) + [RequestTokens]
  {
    if s.library.tokenGrants != [] {
      CallsOfWrite(s.trace, RequestTokens, Granted(s.service, s.library.tokenGrants[0]));
    }
  }

  lemma RefreshCalls(s: State)
    ensures Attempted(EcobeeRefreshTokens(s)) == Calls(s.trace) + [Refresh]
  {
    if s.library.refreshGrants != [] {
      CallsOfWrite(s.trace, Refresh, Granted(s.service, s.library.refreshGrants[0]));
    }
  }

  /**
   * The calls the missing-token checks issue: `Authorize` exactly when the
   * authorization token is absent, then `RequestTokens` exactly when the
   * access token is absent, unless the authorization raised.
   */
  lemma AcquireCalls(s: State)
    ensures var r := AcquireTokens(s);
      var auth := if s.service.authorizationToken == None then [Authorize] else [];
      var request := if s.service.accessToken == None then [RequestTokens] else [];
      if s.service.authorizationToken == None && EcobeeAuthorize(s).Raised?
      then r == EcobeeAuthorize(s) && Attempted(r) == Calls(s.trace) + [Authorize]
      else Attempted(r) == Calls(s.trace) + auth + request
  {
    AuthorizeCalls(s);
    if s.service.authorizationToken == None {
      if EcobeeAuthorize(s).Done? {
        RequestCalls(EcobeeAuthorize(s).state);
      }
    } else {
      RequestCalls(s);
    }
  }

  /**
   * The calls the time comparison issues: re-authorization and a token
   * request when the refresh token has expired, otherwise a refresh when
   * the access token has expired, otherwise none. Both comparisons are strict.
   */
  lemma CheckExpiryCalls(s: State, now: int)
    ensures var r := CheckExpiry(s, now);
      if now > s.service.refreshTokenExpiresOn then
        if EcobeeAuthorize(s).Raised? then Attempted(r) == Calls(s.trace) + [Authorize]
        else Attempted(r) == Calls(s.trace) + [Authorize, RequestTokens]
      else if now > s.service.accessTokenExpiresOn then Attempted(r) == Calls(s.trace) + [Refresh]
      else r == Done(s) && Attempted(r) == Calls(s.trace)
  {
    AuthorizeCalls(s);
    RefreshCalls(s);
    var a := EcobeeAuthorize(s);
    if a.Done? {
      RequestCalls(a.state);
      assert Calls(a.state.trace) == Calls(s.trace) + [Authorize];
      assert Calls(s.trace) + [Authorize] + [RequestTokens] == Calls(s.trace) + [Authorize, RequestTokens];
    }
  }

  // ---------------------------------------------------------------------
  // The lifecycle standing of a record and the properties of Connect

  /** Where a record stands at clock value `now`, checked in the procedure's order. */
  datatype Standing = NoAuthorization | AwaitingTokens | RefreshExpired | AccessExpired | Valid

  function Classify(b: Bundle, now: int): (r: Standing)
    ensures r == Valid <==>
      b.authorizationToken.Some? && b.accessToken.Some? &&
      now <= b.refreshTokenExpiresOn && now <= b.accessTokenExpiresOn
    ensures r == NoAuthorization <==> b.authorizationToken == None
  {
    if b.authorizationToken == None then NoAuthorization
    else if b.accessToken == None then AwaitingTokens
    else if now > b.refreshTokenExpiresOn then RefreshExpired
    else if now > b.accessTokenExpiresOn then AccessExpired
    else Valid
  }

  /** The missing-token checks on a record with neither token: one reply of each kind consumed. */
  lemma AcquireFromNothing(s: State)
    requires s.service.authorizationToken == None && s.service.accessToken == None
    requires |s.library.authorizations| >= 1 && |s.library.tokenGrants| >= 1
    ensures var a := AcquireTokens(s);
      && a.Done?
      && Calls(a.state.trace) == Calls(s.trace) + [Authorize, RequestTokens]
      && a.state.service.refreshTokenExpiresOn == s.library.tokenGrants[0].refreshTokenExpiresOn
      && a.state.library.authorizations == s.library.authorizations[1..]
      && a.state.library.tokenGrants == s.library.tokenGrants[1..]
  {
    AcquireCalls(s);
    var s1 := EcobeeAuthorize(s).state;
    assert s1.library.tokenGrants == s.library.tokenGrants;
    assert AcquireTokens(s) == EcobeeRequestTokens(s1);
    assert Attempted(AcquireTokens(s)) == Calls(s.trace) + [Authorize] + [RequestTokens];
    assert Calls(s.trace) + [Authorize] + [RequestTokens] == Calls(s.trace) + [Authorize, RequestTokens];
  }

  /**
   * The time comparison is not skipped after the missing-token checks: a
   * record with neither token that is granted a refresh token already
   * expired at `now` is authorized, given tokens, and authorized again.
   * With only one authorization reply the second authorization raises.
   */
  lemma TimeCheckRunsAfterFreshTokens(store: Store, name: string, key: string, now: int, library: Library)
    requires Load(store, name, key).authorizationToken == None
    requires Load(store, name, key).accessToken == None
    requires |library.authorizations| >= 1 && |library.tokenGrants| >= 1
    requires now > library.tokenGrants[0].refreshTokenExpiresOn
    ensures var r := Connect(store, name, key, now, library);
      (|library.authorizations| == 1 ==>
        r.Raised? && r.call == Authorize && Attempted(r) == [Authorize, RequestTokens, Authorize]) &&
      (|library.authorizations| >= 2 && |library.tokenGrants| >= 2 ==>
        r.Done? && Attempted(r) == [Authorize, RequestTokens, Authorize, RequestTokens])
  {
    var s := Initial(store, name, key, library);
    AcquireFromNothing(s);
    var a := AcquireTokens(s);
    assert Calls(a.state.trace) == [Authorize, RequestTokens];
    var r := CheckExpiry(a.state, now);
    assert Connect(store, name, key, now, library) == r;
    CheckExpiryCalls(a.state, now);
    var b := EcobeeAuthorize(a.state);
    if |library.authorizations| == 1 {
      assert b.Raised?;
    } else if |library.tokenGrants| >= 2 {
      assert b.Done? && b.state.library.tokenGrants == a.state.library.tokenGrants;
      assert r.Done?;
    }
  }

  /** With no authorization token on entry, the first call issued is `Authorize`. */
  lemma AuthorizeComesFirst(store: Store, name: string, key: string, now: int, library: Library)
    requires Load(store, name, key).authorizationToken == None
    ensures var cs := Attempted(Connect(store, name, key, now, library));
      |cs| >= 1 && cs[0] == Authorize
  {
    var s := Initial(store, name, key, library);
    AcquireCalls(s);
    var a := AcquireTokens(s);
    if a.Done? {
      CheckExpiryCalls(a.state, now);
    }
  }

  /**
   * With no access token on entry, `RequestTokens` is issued right after the
   * authorization when there is one, or first when there is none, unless
   * that authorization raised.
   */
  lemma RequestTokensWhenNoAccess(store: Store, name: string, key: string, now: int, library: Library)
    requires Load(store, name, key).accessToken == None
    ensures var r := Connect(store, name, key, now, library);
      var cs := Attempted(r);
      var k := if Load(store, name, key).authorizationToken == None then 1 else 0;
      (|cs| > k && cs[k] == RequestTokens) || (r.Raised? && r.call == Authorize && cs == [Authorize])
  {
    var s := Initial(store, name, key, library);
    AcquireCalls(s);
    var a := AcquireTokens(s);
    if a.Done? {
      CheckExpiryCalls(a.state, now);
      var pre := Calls(a.state.trace);
      assert pre == Attempted(a);
      var k := if s.service.authorizationToken == None then 1 else 0;
      assert |pre| > k && pre[k] == RequestTokens;
      var cs := Attempted(CheckExpiry(a.state, now));
      assert cs[..|pre|] == pre;
      assert cs[k] == pre[k];
    }
  }

  /**
   * When the refresh token has expired at the time comparison, the run
   * ends by authorizing again and requesting tokens, each followed by its
   * write, and no refresh is issued.
   */
  lemma RefreshExpiredReauthorizes(s: State, now: int)
    requires now > s.service.refreshTokenExpiresOn
    ensures var r := CheckExpiry(s, now);
      (Attempted(r) == Calls(s.trace) + [Authorize] ||
       Attempted(r) == Calls(s.trace) + [Authorize, RequestTokens]) &&
      (r.Done? ==>
        var t := r.state.trace;
        Attempted(r) == Calls(s.trace) + [Authorize, RequestTokens] &&
        |t| >= |s.trace| + 5 &&
        t[|t| - 5] == Api(Authorize) && t[|t| - 4].Persist? &&
        ChangedBy(Authorize, s.service, t[|t| - 4].bundle) && t[|t| - 3].AwaitOperator? &&
        t[|t| - 2] == Api(RequestTokens) && t[|t| - 1] == Persist(r.state.service))
  {
    CheckExpiryCalls(s, now);
    var a := EcobeeAuthorize(s);
    if a.Done? {
      assert |a.state.trace| == |s.trace| + 3;
      assert a.state.trace[|s.trace|] == Api(Authorize);
    }
  }

  /**
   * `Refresh` is issued exactly when, at the time comparison, the refresh
   * token has not expired and the access token has (strict comparisons).
   */
  lemma RefreshIssuedIff(store: Store, name: string, key: string, now: int, library: Library)
    ensures var a := AcquireTokens(Initial(store, name, key, library));
      Refresh in Attempted(Connect(store, name, key, now, library)) <==>
        a.Done? && now <= a.state.service.refreshTokenExpiresOn &&
        now > a.state.service.accessTokenExpiresOn
  {
    var s := Initial(store, name, key, library);
    AcquireCalls(s);
    var a := AcquireTokens(s);
    assert Calls(s.trace) == [];
    if a.Done? {
      CheckExpiryCalls(a.state, now);
      assert Calls(a.state.trace) == Attempted(a);
      assert Refresh !in Calls(a.state.trace);
    }
  }

  /** For a record holding both tokens, the time comparison sees the loaded expiries. */
  lemma RefreshIssuedIffLoaded(store: Store, name: string, key: string, now: int, library: Library)
    requires Load(store, name, key).authorizationToken != None
    requires Load(store, name, key).accessToken != None
    ensures var b := Load(store, name, key);
      Refresh in Attempted(Connect(store, name, key, now, library)) <==>
        now <= b.refreshTokenExpiresOn && now > b.accessTokenExpiresOn
  {
    RefreshIssuedIff(store, name, key, now, library);
  }

  /**
   * A run issues nothing and changes nothing exactly when the loaded record
   * is valid: both tokens present and neither expiry passed.
   */
  lemma NoOpIffValid(store: Store, name: string, key: string, now: int, library: Library)
    ensures var r := Connect(store, name, key, now, library);
      (r.Done? && Attempted(r) == []) <==> Classify(Load(store, name, key), now) == Valid
    ensures Classify(Load(store, name, key), now) == Valid ==>
      Connect(store, name, key, now, library) == Done(Initial(store, name, key, library))
  {
    var s := Initial(store, name, key, library);
    AcquireCalls(s);
    var a := AcquireTokens(s);
    if a.Done? {
      CheckExpiryCalls(a.state, now);
    }
  }

  /** At exactly the expiry instant of the access token, a valid record is left alone. */
  lemma NoActionAtExpiryInstant(store: Store, name: string, key: string, now: int, library: Library)
    requires Load(store, name, key).authorizationToken != None
    requires Load(store, name, key).accessToken != None
    requires now == Load(store, name, key).accessTokenExpiresOn
    requires now <= Load(store, name, key).refreshTokenExpiresOn
    ensures Connect(store, name, key, now, library) == Done(Initial(store, name, key, library))
  {
    NoOpIffValid(store, name, key, now, library);
  }

  /**
   * The standing of the loaded record decides the calls a run attempts:
   * `Authorize` first without an authorization token, `RequestTokens` first
   * when only the access token is missing, re-authorization (and a token
   * request unless it raised) when the refresh token has expired, a single
   * `Refresh` when only the access token has, and nothing when valid.
   */
  lemma StandingDecidesCalls(store: Store, name: string, key: string, now: int, library: Library)
    ensures var cs := Attempted(Connect(store, name, key, now, library));
      match Classify(Load(store, name, key), now)
      case NoAuthorization => |cs| >= 1 && cs[0] == Authorize
      case AwaitingTokens => |cs| >= 1 && cs[0] == RequestTokens
      case RefreshExpired => cs == [Authorize] || cs == [Authorize, RequestTokens]
      case AccessExpired => cs == [Refresh]
      case Valid => cs == []
  {
    var b := Load(store, name, key);
    match Classify(b, now)
    case NoAuthorization =>
      AuthorizeComesFirst(store, name, key, now, library);
    case AwaitingTokens =>
      RequestTokensWhenNoAccess(store, name, key, now, library);
    case RefreshExpired =>
      var s := Initial(store, name, key, library);
      assert AcquireTokens(s) == Done(s);
      CheckExpiryCalls(s, now);
    case AccessExpired =>
      var s := Initial(store, name, key, library);
      assert AcquireTokens(s) == Done(s);
      CheckExpiryCalls(s, now);
    case Valid =>
      NoOpIffValid(store, name, key, now, library);
  }

  /** On a valid record, running the procedure twice is the same as running it once. */
  lemma ValidRunIdempotent(store: Store, name: string, key: string, now: int, library: Library)
    requires Classify(Load(store, name, key), now) == Valid
    ensures var r := Connect(store, name, key, now, library);
      Connect(r.state.store, name, key, now, r.state.library) == r
  {
    NoOpIffValid(store, name, key, now, library);
  }

  /** A run keeps every shelf record under its own name. */
  lemma ConnectKeepsWellKeyed(store: Store, name: string, key: string, now: int, library: Library)
    requires WellKeyed(store)
    ensures WellKeyed(Connect(store, name, key, now, library).state.store)
  {
    var r := Connect(store, name, key, now, library);
    PersistKeepsWellKeyed(store, r.state.service);
  }

  /**
   * On a well-keyed shelf, a run that completes and leaves a valid record
   * makes the next run (same name, same clock value) issue nothing: the
   * shelf now yields exactly the record in memory.
   */
  lemma SettledAfterRun(store: Store, name: string, key: string, now: int, library: Library, next: Library)
    requires WellKeyed(store)
    requires Connect(store, name, key, now, library).Done?
    requires Classify(Connect(store, name, key, now, library).state.service, now) == Valid
    ensures var r := Connect(store, name, key, now, library);
      Load(r.state.store, name, key) == r.state.service &&
      Connect(r.state.store, name, key, now, next) == Done(State(r.state.service, r.state.store, [], next))
  {
    var r := Connect(store, name, key, now, library);
    LoadIsNamed(store, name, key);
    if LastPersisted(r.state.trace) != None {
      PersistThenLoad(store, r.state.service, key);
    }
    NoOpIffValid(r.state.store, name, key, now, next);
  }
}

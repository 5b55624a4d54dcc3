/**
 * The script's mutable state, as it is changed in place: the client object
 * `ecobee_service` whose fields the vendor library updates, and the
 * module-level globals (the client, the shelf). Every method is proved to
 * do what the matching function of `Lifecycle` describes.
 */
module Connection {
  import opened Optional
  import opened Credentials
  import opened Lifecycle

  /** The vendor library's client object; its API methods update its fields. */
  class EcobeeService {
    var thermostatName: string
    var applicationKey: string
    var authorizationToken: Option<string>
    var accessToken: Option<string>
    var refreshToken: Option<string>
    var accessTokenExpiresOn: int
    var refreshTokenExpiresOn: int

    /** The record this object pickles to. */
    function Value(): Bundle
      reads this
    {
      Bundle(thermostatName, applicationKey, authorizationToken, accessToken, refreshToken,
             accessTokenExpiresOn, refreshTokenExpiresOn)
    }

    /** An object with the fields of `b` (a fresh client, or one unpickled from the shelf). */
    constructor (b: Bundle)
      ensures Value() == b
    {
      thermostatName := b.thermostatName;
      applicationKey := b.applicationKey;
      authorizationToken := b.authorizationToken;
      accessToken := b.accessToken;
      refreshToken := b.refreshToken;
      accessTokenExpiresOn := b.accessTokenExpiresOn;
      refreshTokenExpiresOn := b.refreshTokenExpiresOn;
    }

    /** `authorize()` returning `reply`: the authorization code becomes the token. */
    method Authorize(reply: AuthorizeReply)
      modifies this
      ensures Value() == Authorized(old(Value()), reply)
    {
      authorizationToken := Some(reply.code);
    }

    /** `request_tokens()` or `refresh_tokens()` returning `g`. */
    method AcceptGrant(g: TokenGrant)
      modifies this
      ensures Value() == Granted(old(Value()), g)
    {
      accessToken := Some(g.accessToken);
      refreshToken := Some(g.refreshToken);
      accessTokenExpiresOn := g.accessTokenExpiresOn;
      refreshTokenExpiresOn := g.refreshTokenExpiresOn;
    }
  }

  /** The script's globals, the vendor API's pending replies and the trace of what was done. */
  class Script {
    var service: EcobeeService?
    var shelf: Store
    var library: Library
    ghost var trace: seq<Action>

    ghost function Snapshot(): State
      requires service != null
      reads this, service
    {
      State(service.Value(), shelf, trace, library)
    }

    constructor (shelf: Store, library: Library)
      ensures this.shelf == shelf && this.library == library && trace == [] && service == null
    {
      this.shelf := shelf;
      this.library := library;
      trace := [];
      service := null;
    }

    /** `persist_to_shelf`: store a copy of `svc` under its thermostat name. */
    method PersistToShelf(svc: EcobeeService)
      modifies this
      ensures shelf == Credentials.PersistToShelf(old(shelf), svc.Value())
      ensures trace == old(trace) + [Persist(svc.Value())]
      ensures service == old(service) && library == old(library)
    {
      shelf := shelf[svc.thermostatName := svc.Value()];
      trace := trace + [Persist(svc.Value())];
    }

    /** `ecobee_authorize`; `raised` when the API call raises. */
    method EcobeeAuthorize() returns (raised: bool)
      requires service != null
      modifies this, service
      ensures service == old(service)
      ensures Snapshot() == Lifecycle.EcobeeAuthorize(old(Snapshot())).state
      ensures raised == Lifecycle.EcobeeAuthorize(old(Snapshot())).Raised?
    {
      if library.authorizations == [] {
        return true;
      }
      var reply := library.authorizations[0];
      library := library.(authorizations := library.authorizations[1..]);
      service.Authorize(reply);
      trace := trace + [Api(Authorize)];
      PersistToShelf(service);
      // the operator completes the authorization on the vendor portal
      trace := trace + [AwaitOperator(reply.pin)];
      raised := false;
    }

    /** `ecobee_request_tokens`; `raised` when the API call raises. */
    method EcobeeRequestTokens() returns (raised: bool)
      requires service != null
      modifies this, service
      ensures service == old(service)
      ensures Snapshot() == Lifecycle.EcobeeRequestTokens(old(Snapshot())).state
      ensures raised == Lifecycle.EcobeeRequestTokens(old(Snapshot())).Raised?
    {
      if library.tokenGrants == [] {
        return true;
      }
      var grant := library.tokenGrants[0];
      library := library.(tokenGrants := library.tokenGrants[1..]);
      service.AcceptGrant(grant);
      trace := trace + [Api(RequestTokens)];
      PersistToShelf(service);
      raised := false;
    }

    /** `ecobee_refresh_tokens`; `raised` when the API call raises. */
    method EcobeeRefreshTokens() returns (raised: bool)
      requires service != null
      modifies this, service
      ensures service == old(service)
      ensures Snapshot() == Lifecycle.EcobeeRefreshTokens(old(Snapshot())).state
      ensures raised == Lifecycle.EcobeeRefreshTokens(old(Snapshot())).Raised?
    {
      if library.refreshGrants == [] {
        return true;
      }
      var grant := library.refreshGrants[0];
      library := library.(refreshGrants := library.refreshGrants[1..]);
      service.AcceptGrant(grant);
      trace := trace + [Api(Refresh)];
      PersistToShelf(service);
      raised := false;
    }

    /** The two independent checks for missing tokens at the start of `ecobee_connect`. */
    method AcquireTokens() returns (raised: Option<Call>)
      requires service != null
      modifies this, service
      ensures service == old(service)
      ensures var r := Lifecycle.AcquireTokens(old(Snapshot()));
        Snapshot() == r.state && raised == (if r.Raised? then Some(r.call) else None)
    {
      ghost var s0 := Snapshot();
      var failed := false;
      if service.authorizationToken == None {
        failed := EcobeeAuthorize();
        if failed {
          return Some(Authorize);
        }
      }
      assert Snapshot() == (if s0.service.authorizationToken == None
                            then Lifecycle.EcobeeAuthorize(s0) else Done(s0)).state;
      if service.accessToken == None {
        failed := EcobeeRequestTokens();
        if failed {
          return Some(RequestTokens);
        }
      }
      raised := None;
    }

    /** The time comparison of `ecobee_connect`, with the clock value `now`. */
    method CheckExpiry(now: int) returns (raised: Option<Call>)
      requires service != null
      modifies this, service
      ensures service == old(service)
      ensures var r := Lifecycle.CheckExpiry(old(Snapshot()), now);
        Snapshot() == r.state && raised == (if r.Raised? then Some(r.call) else None)
    {
      var failed := false;
      if now > service.refreshTokenExpiresOn {
        failed := EcobeeAuthorize();
        if failed {
          return Some(Authorize);
        }
        failed := EcobeeRequestTokens();
        if failed {
          return Some(RequestTokens);
        }
      } else if now > service.accessTokenExpiresOn {
        failed := EcobeeRefreshTokens();
        if failed {
          return Some(Refresh);
        }
      }
      raised := None;
    }

    /**
     * `ecobee_connect` for thermostat `name` with application key `key`;
     * `now` is the clock value read before the time comparison. `raised`
     * names the API call that raised, if one did. The new state is the one
     * `Lifecycle.Connect` computes, so every property proved of it holds here.
     */
    method EcobeeConnect(name: string, key: string, now: int) returns (raised: Option<Call>)
      modifies this
      ensures service != null && fresh(service)
      ensures var r := Lifecycle.Connect(old(shelf), name, key, now, old(library));
        Snapshot() == r.state && raised == (if r.Raised? then Some(r.call) else None)
    {
      trace := [];
      if name in shelf {
        service := new EcobeeService(shelf[name]);
      } else {
        service := new EcobeeService(Fresh(name, key));
      }
      ghost var s0 := Snapshot();
      assert s0 == Initial(old(shelf), name, key, old(library));
      raised := AcquireTokens();
      if raised != None {
        return;
      }
      ghost var s1 := Snapshot();
      assert Lifecycle.Connect(old(shelf), name, key, now, old(library)) == Lifecycle.CheckExpiry(s1, now);
      raised := CheckExpiry(now);
    }
  }
}

# py-ecobee-mqtt: credential lifecycle and sensor topics, in Dafny

This project models the two pieces of logic that `py-ecobee-mqtt.py` owns.

1. **The credential lifecycle run at start-up (`ecobee_connect`).** The
   script loads the thermostat's credential record from its shelf, or
   creates a fresh one when the shelf has none under that name. It then runs
   two independent checks: no authorization token means it authorizes, and
   no access token means it requests tokens. After that comes one time
   comparison: an expired refresh token means authorize again and request
   tokens, otherwise an expired access token means refresh. Every API call
   that returns is followed by a write of the record to the shelf.
   Authorization writes the record before it waits for the operator.
2. **The per-sensor topics and messages of `ecobee_log`.** For every remote
   sensor of every thermostat in a successful response, the room name is the
   sensor name with spaces turned into hyphens, then lower-cased. The topic
   is `prefix + room + "/" + type`. A message `{room, code, type, value}` is
   built for each capability, in order.

Files and modules:

- `optional.dfy`, module `Optional`: the `Option` type, used for Python's `None`.
- `credentials.dfy`, module `Credentials`: the credential record `Bundle`,
  the shelf as a `map` from thermostat name to record, load-or-create, and
  `persist_to_shelf` as a map update.
- `lifecycle.dfy`, module `Lifecycle`: `ecobee_connect` and its helpers as
  functions on an explicit state. The state holds the in-memory record, the
  shelf, the trace of actions and the API's pending replies. The properties
  of the procedure are proved here.
- `connection.dfy`, module `Connection`: the same procedure in the script's
  own imperative form. `EcobeeService` is the client object whose fields the
  API calls update in place. `Script` holds the module-level globals. Each
  method is proved to produce exactly the state that the `Lifecycle` function
  computes, so every lemma about those functions also holds of the methods.
- `sensors.dfy`, module `Sensors`: room names, topics and messages, as
  functions over sequences of thermostats, sensors and capabilities.

How the outside world is represented:

- **The vendor API (pyecobee).** A `Library` value holds, for each endpoint
  (`authorize`, `request_tokens`, `refresh_tokens`), the replies it will give,
  one per call, in call order. A call to an endpoint with no reply left
  raises. Nothing in the script catches that exception, so the procedure
  stops there; the model reports this as `Raised(call, state)`. Every
  behaviour of the API is one `Library` value, so a lemma over all `Library`
  values covers all behaviours. A reply's effect on the record is fixed:
  - `authorize` stores the reply's code as the authorization token;
  - `request_tokens` and `refresh_tokens` store the access token, the refresh
    token and both expiry instants of the grant.
- **The trace.** It lists, in order:
  - `Api(c)`: an API call that returned;
  - `Persist(b)`: a shelf write of record `b`;
  - `AwaitOperator(pin)`: the blocking `input()` after authorization, which
    does nothing else in the model.
- **The clock.** `now` is the integer value read at line 134, after the
  missing-token checks. It is a parameter.
- **The thermostat response** of `ecobee_log` is an input value: a status
  code and the list of thermostats.

Three facts about the script shape the model:

- The checks in `ecobee_connect` are not one chain. Two independent `if`s
  handle the missing tokens (lines 124-132). A separate `if`/`elif` then
  compares the clock with the expiries (lines 134-139). So after a fresh
  authorization and token request, the time comparison still runs on the
  new expiries. `Lifecycle.CheckExpiry` is therefore applied to the state
  the token steps leave, and `Lifecycle.TimeCheckRunsAfterFreshTokens` shows
  a run that authorizes twice.
- The topic is `prefix + room + '/' + type` (lines 161 and 164). It has no
  separate `sensor/` segment and no separator is added after the prefix.
- Each message carries the capability's raw value string (line 170), and
  the messages are only logged. `Sensors.MyDenMessages` shows `"215"` and
  `"true"` passed through unchanged.

## Model

| member | source | states |
|---|---|---|
| Credentials.Fresh | py-ecobee-mqtt.py:120 | a new client record has the given thermostat name and application key and no authorization, access or refresh token |
| Credentials.Load | py-ecobee-mqtt.py:114-122 | a name present on the shelf yields the stored record unchanged; an absent name yields a record with that name and key and no tokens |
| Credentials.PersistToShelf | py-ecobee-mqtt.py:223-226 | the record is written under its own thermostat name; the shelf's keys gain only that name; every other key keeps its record |
| Credentials.PersistThenLoad | py-ecobee-mqtt.py:118 | loading by a record's name right after persisting it returns exactly that record |
| Credentials.PersistThenLoadOther | py-ecobee-mqtt.py:223-226 | persisting a record does not change what any other name loads |
| Credentials.PersistKeepsWellKeyed | py-ecobee-mqtt.py:225 | if every record is stored under its own name, that stays true after a persist |
| Credentials.LoadIsNamed | py-ecobee-mqtt.py:117-120 | on such a shelf, loading by a name yields a record carrying that name |
| Lifecycle.Connect | py-ecobee-mqtt.py:110-139 | for every API behaviour: every call that returns is immediately followed by a write of the record as that call left it (the record before the call, with only the authorization token, or only the two tokens and their expiries, changed and now present, so the same name and key as the loaded record), and an authorization's write comes before the operator wait; the record keeps its name and key; with no write, record and shelf are untouched; otherwise the last write carries the final record, and the shelf equals the old shelf with that record under its name |
| Lifecycle.Authorized | py-ecobee-mqtt.py:94 | once `authorize` returns, only the authorization token has changed, and it is the reply's code |
| Lifecycle.Granted | py-ecobee-mqtt.py:180-193 | once a token call returns, only the two tokens and their expiries have changed; the tokens are present and the expiries are the grant's |
| Lifecycle.EcobeeAuthorize | py-ecobee-mqtt.py:93-107 | raises at `Authorize`, changing nothing, exactly when no reply is left; otherwise only the authorization token changes and becomes the first reply's code, the shelf receives the new record under its name, and the trace gains the `Authorize` call, the write of the new record and the operator wait for the reply's PIN, in that order |
| Lifecycle.EcobeeRequestTokens | py-ecobee-mqtt.py:188-193 | raises at `RequestTokens`, changing nothing, exactly when no grant is left; otherwise only tokens and expiries change, the shelf receives the new record, and the trace gains the call and the write of that record |
| Lifecycle.EcobeeRefreshTokens | py-ecobee-mqtt.py:180-185 | the same for `Refresh` and the refresh grants |
| Lifecycle.Initial | py-ecobee-mqtt.py:114-122 | the start record is the loaded one (the stored record for a present name, a fresh one otherwise), the shelf and replies are untouched and the trace is empty; the tracking invariant holds; a thermostat absent from the shelf starts with no authorization and no access token |
| Lifecycle.AcquireTokens | py-ecobee-mqtt.py:124-132 | unless a call raised, both the authorization and the access token are present afterwards; a record already holding both is left alone |
| Lifecycle.CheckExpiry | py-ecobee-mqtt.py:134-139 | with neither expiry passed (strictly), nothing happens; when one has passed and no call raised, the record holds newly granted access and refresh tokens: after an expired refresh token, the next token grant applied to the newly authorized record; after an expired access token only, the next refresh grant applied to the record; an authorization token present before stays present |
| Lifecycle.Classify | py-ecobee-mqtt.py:124-139 | a record is `Valid` exactly when both tokens are present and neither expiry has passed; `NoAuthorization` exactly when the authorization token is absent |
| Lifecycle.AuthorizeTracks | py-ecobee-mqtt.py:93-107 | `ecobee_authorize` keeps the write-after-every-call invariant and the shelf/record agreement |
| Lifecycle.RequestTracks | py-ecobee-mqtt.py:188-193 | `ecobee_request_tokens` keeps the same invariant |
| Lifecycle.RefreshTracks | py-ecobee-mqtt.py:180-185 | `ecobee_refresh_tokens` keeps the same invariant |
| Lifecycle.AcquireTracks | py-ecobee-mqtt.py:124-132 | the two missing-token checks keep the same invariant |
| Lifecycle.CheckExpiryTracks | py-ecobee-mqtt.py:134-139 | the time comparison keeps the same invariant |
| Lifecycle.AuthorizeCalls | py-ecobee-mqtt.py:93-98 | `ecobee_authorize` issues exactly one `Authorize`, whether it returns or raises |
| Lifecycle.RequestCalls | py-ecobee-mqtt.py:188-193 | `ecobee_request_tokens` issues exactly one `RequestTokens` |
| Lifecycle.RefreshCalls | py-ecobee-mqtt.py:180-185 | `ecobee_refresh_tokens` issues exactly one `Refresh` |
| Lifecycle.AcquireCalls | py-ecobee-mqtt.py:124-132 | the missing-token checks issue `Authorize` exactly when the authorization token is absent, then `RequestTokens` exactly when the access token is absent; an authorization that raises stops the run |
| Lifecycle.CheckExpiryCalls | py-ecobee-mqtt.py:134-139 | refresh token expired (strictly): `Authorize` then `RequestTokens`, or `Authorize` alone if it raised; else access token expired (strictly): `Refresh`; else nothing, and the state is unchanged |
| Lifecycle.AcquireFromNothing | py-ecobee-mqtt.py:124-132 | for a record with neither token and at least one reply of each kind, the missing-token checks complete, issue `Authorize` then `RequestTokens`, consume one reply of each, and leave the granted refresh expiry |
| Lifecycle.TimeCheckRunsAfterFreshTokens | py-ecobee-mqtt.py:124-139 | the time comparison still runs after the missing-token checks: for a record with neither token granted a refresh expiry already passed, a run issues `Authorize, RequestTokens, Authorize` and raises at the second `Authorize` when only one authorization reply exists, and issues `Authorize, RequestTokens, Authorize, RequestTokens` and completes when two of each exist |
| Lifecycle.AuthorizeComesFirst | py-ecobee-mqtt.py:124-125 | with no authorization token on entry, the first call issued is `Authorize`, so it comes before any `RequestTokens` |
| Lifecycle.RequestTokensWhenNoAccess | py-ecobee-mqtt.py:129-130 | with no access token on entry, `RequestTokens` is the next call after that authorization (or the first call when there is none), unless the authorization raised |
| Lifecycle.RefreshExpiredReauthorizes | py-ecobee-mqtt.py:135-137 | when now > refresh expiry, the calls added are `Authorize, RequestTokens` (or `Authorize` alone if it raised), never `Refresh`; a completed run ends with `Authorize`, its write (the old record with only a new authorization token), the operator wait, `RequestTokens`, and the write of the final record |
| Lifecycle.StandingDecidesCalls | py-ecobee-mqtt.py:124-139 | the loaded record's standing decides the calls: no authorization token, `Authorize` first; only the access token missing, `RequestTokens` first; refresh token expired, `Authorize` then `RequestTokens` (or `Authorize` alone if it raised); only the access token expired, exactly `Refresh`; valid, nothing |
| Lifecycle.RefreshIssuedIff | py-ecobee-mqtt.py:134-139 | `Refresh` is issued if and only if the token steps completed and, at the time check, now <= refresh expiry and now > access expiry |
| Lifecycle.RefreshIssuedIffLoaded | py-ecobee-mqtt.py:135-139 | for a loaded record holding both tokens, `Refresh` is issued if and only if now <= its refresh expiry and now > its access expiry |
| Lifecycle.NoOpIffValid | py-ecobee-mqtt.py:124-139 | a run completes having issued nothing if and only if the loaded record has both tokens and neither expiry has passed; in that case record, shelf and API replies are untouched and nothing is written |
| Lifecycle.NoActionAtExpiryInstant | py-ecobee-mqtt.py:138 | at exactly the access token's expiry instant (comparisons are strict), a record with both tokens and an unexpired refresh token is left alone |
| Lifecycle.ValidRunIdempotent | py-ecobee-mqtt.py:124-139 | on a valid record, running the procedure again on the resulting state gives the same result |
| Lifecycle.ConnectKeepsWellKeyed | py-ecobee-mqtt.py:223-226 | a run keeps every shelf record under its own name |
| Lifecycle.SettledAfterRun | py-ecobee-mqtt.py:118 | on a well-keyed shelf, after a run that completes with a valid record, loading by the name yields that record, and the next run issues nothing and changes nothing |
| Connection.EcobeeService.constructor | py-ecobee-mqtt.py:118-120 | the client object holds exactly the fields of the given record |
| Connection.EcobeeService.Authorize | py-ecobee-mqtt.py:94 | the object's authorization token becomes the reply's code and nothing else changes |
| Connection.EcobeeService.AcceptGrant | py-ecobee-mqtt.py:181 | the object's access token, refresh token and both expiries become the grant's; name, key and authorization token stay |
| Connection.Script.constructor | py-ecobee-mqtt.py:56 | the script starts with no client object, the given shelf and API replies, and an empty trace |
| Connection.Script.PersistToShelf | py-ecobee-mqtt.py:223-226 | the shelf becomes the old shelf with a copy of the object's record under its name; a `Persist` of that record is appended to the trace |
| Connection.Script.EcobeeAuthorize | py-ecobee-mqtt.py:93-107 | in place: authorize, write the record, wait for the operator; the new state is what `Lifecycle.EcobeeAuthorize` gives, and `raised` says whether the call raised |
| Connection.Script.EcobeeRequestTokens | py-ecobee-mqtt.py:188-193 | in place: request tokens, write the record; new state as `Lifecycle.EcobeeRequestTokens` |
| Connection.Script.EcobeeRefreshTokens | py-ecobee-mqtt.py:180-185 | in place: refresh tokens, write the record; new state as `Lifecycle.EcobeeRefreshTokens` |
| Connection.Script.AcquireTokens | py-ecobee-mqtt.py:124-132 | the two independent missing-token checks, in place; new state as `Lifecycle.AcquireTokens` |
| Connection.Script.CheckExpiry | py-ecobee-mqtt.py:134-139 | the `if`/`elif` on time, in place; new state as `Lifecycle.CheckExpiry` |
| Connection.Script.EcobeeConnect | py-ecobee-mqtt.py:110-139 | load or create a fresh client object, then run the checks; the new globals and trace are exactly `Lifecycle.Connect`'s result, and `raised` names the call that raised, if any |
| Sensors.AsciiLower | py-ecobee-mqtt.py:160 | the result is never an upper-case ASCII letter; capitals move down by 32; every other character is kept |
| Sensors.Replace | py-ecobee-mqtt.py:160 | same length; every occurrence of the character is replaced and every other character is kept |
| Sensors.Lower | py-ecobee-mqtt.py:160 | same length; each character is lower-cased |
| Sensors.RoomName | py-ecobee-mqtt.py:160 | the room name contains no space and no upper-case ASCII letter; it is as long as the sensor name; each space becomes `-` and each other character is lower-cased; a name already in that form is returned unchanged |
| Sensors.RoomNameIdempotent | py-ecobee-mqtt.py:160 | deriving a room name from a room name changes nothing |
| Sensors.PublicationFor | py-ecobee-mqtt.py:161-171 | the topic is prefix + room + "/" + capability type; the message carries the room name, `sensor.code`, `cap.type` and `cap.value` unchanged |
| Sensors.CapabilityPublications | py-ecobee-mqtt.py:163-171 | exactly one publication per capability, the i-th built from the i-th capability |
| Sensors.ThermostatPublications | py-ecobee-mqtt.py:158-171 | as many publications as the sensors have capabilities, each with a well-formed topic and room |
| Sensors.ThermostatPublicationAt | py-ecobee-mqtt.py:158-171 | the i-th capability of the j-th sensor is published at position (capabilities of the sensors before it) + i, so the order is sensor by sensor, capability by capability |
| Sensors.ResponsePublications | py-ecobee-mqtt.py:157-171 | as many publications as all sensors of all thermostats have capabilities, each with a well-formed topic and room |
| Sensors.ResponsePublicationAt | py-ecobee-mqtt.py:157-171 | the i-th capability of the j-th sensor of the k-th thermostat is published at position (capabilities of earlier thermostats) + (capabilities of earlier sensors on its thermostat) + i, built from exactly that sensor and capability |
| Sensors.SingleThermostatResponse | py-ecobee-mqtt.py:157-158 | a response with one thermostat yields exactly that thermostat's sensor publications |
| Sensors.ResponsePublicationsAppend | py-ecobee-mqtt.py:157 | thermostats are processed one after another: the publications of a + b are those of a followed by those of b |
| Sensors.SingleSensorResponse | py-ecobee-mqtt.py:157-158 | a response with one thermostat holding one sensor yields exactly that sensor's publications |
| Sensors.EcobeeLog | py-ecobee-mqtt.py:150-171 | the status assertion fails if and only if the status code is not 0; on success the publications are those of all thermostats in order, one per capability, each well formed |
| Sensors.MyDenRoom | py-ecobee-mqtt.py:160 | "My Den" becomes "my-den" |
| Sensors.MyDenPublication | py-ecobee-mqtt.py:160-171 | any capability of a sensor named "My Den" is published under "ecobee/my-den/" + its type, with room "my-den" |
| Sensors.MyDenTopics | py-ecobee-mqtt.py:157-171 | the example sensor with two capabilities yields two topics, "ecobee/my-den/temperature" then "ecobee/my-den/occupancy" |
| Sensors.MyDenMessages | py-ecobee-mqtt.py:166-171 | the example's messages carry the raw values "215" and "true" unchanged |

## Left out

- The pyecobee library itself (`authorize`, `request_tokens`, `refresh_tokens`, `request_thermostats`, the `Selection` constant at lines 142-149). It is foreign code. Its replies are the `Library` input, and the thermostat response is the input of `Sensors.EcobeeLog`.
- HTTP-level detail of the library, such as scopes or how it computes expiry instants. Each grant's expiries are arbitrary integers in the model.
- `Credentials.Fresh`: the expiries of a new record are the constant `UNSET_EXPIRY` (0), not the library's default. They are never compared: the time check runs only when an access token is present, and every access token arrives with both expiries.
- shelve file mechanics. The shelf is one `map`. Not modelled:
  - opening and closing files;
  - a record that cannot be unpickled;
  - the unbound `pyecobee_db` in the `finally` at line 122 when `shelve.open` itself fails.
- The two shelf paths. Line 98 writes to `'pyecobee_db'`, relative to the working directory. Lines 185 and 193 write to `dbFile`, next to the script. When the two differ, the authorization's write goes to another file. The model uses a single shelf.
- The operator's keypress at line 107. It becomes the `AwaitOperator(pin)` trace entry and changes nothing. An end-of-input error there is not modelled.
- Time zones. `datetime.now(pytz.utc)` and the expiry datetimes are integer timestamps.
- Exceptions other than an API call raising. Examples: a pickling error, an I/O error, a missing attribute.
- The MQTT client and its callbacks at lines 79-91 and 211-220. They are network plumbing, and `sys.exit()` at line 75 makes them unreachable.
- `main`, logging setup and every log call. The messages built in `ecobee_log` are only logged; the model returns them instead.
- Config parsing (`read_config`, lines 229-242), including the quote stripping. The thermostat name and application key are parameters of `Connection.Script.EcobeeConnect`. Line 242 assigns `nameEcobee` without a `global` declaration, so the script actually passes the initial value `'not loaded'` as the name. The model takes the name as given.
- `Sensors.Lower`: lower-cases ASCII letters only. Python's `str.lower` also maps non-ASCII capitals, and a few of them expand to several characters.
- `Sensors.EcobeeLog`: the status assertion is modelled as always active. Under `python -O` it is stripped.

/**
 * The credential record of one thermostat (the pickled `EcobeeService`
 * object) and the shelf that stores such records keyed by thermostat name.
 * Expiry instants are integer timestamps in seconds.
 */
module Credentials {
  import opened Optional

  datatype Bundle = Bundle(
    thermostatName: string,
    applicationKey: string,
    authorizationToken: Option<string>,
    accessToken: Option<string>,
    refreshToken: Option<string>,
    accessTokenExpiresOn: int,
    refreshTokenExpiresOn: int)

  /** The shelf: one record per thermostat name. */
  type Store = map<string, Bundle>

  /**
   * Expiry given to a record that has never received tokens. It is never
   * compared: the time check runs only once an access token is present,
   * and every access token arrives together with both expiries.
   */
  const UNSET_EXPIRY: int := 0

  /** `EcobeeService(thermostat_name=..., application_key=...)`: no tokens yet. */
  function Fresh(name: string, key: string): (b: Bundle)
    ensures b.thermostatName == name && b.applicationKey == key
    ensures b.authorizationToken == None && b.accessToken == None && b.refreshToken == None
  {
    Bundle(name, key, None, None, None, UNSET_EXPIRY, UNSET_EXPIRY)
  }

  /**
   * Load-or-create: the stored record for `name` when there is one (whatever
   * name it carries inside), otherwise a fresh record for `name` and `key`.
   */
  function Load(store: Store, name: string, key: string): (b: Bundle)
    ensures name in store ==> b == store[name]
    ensures name !in store ==>
      b.thermostatName == name && b.applicationKey == key &&
      b.authorizationToken == None && b.accessToken == None && b.refreshToken == None
  {
    if name in store then store[name] else Fresh(name, key)
  }

  /** `persist_to_shelf`: write the record under its own thermostat name. */
  function PersistToShelf(store: Store, b: Bundle): (r: Store)
    ensures r.Keys == store.Keys + {b.thermostatName}
    ensures r[b.thermostatName] == b
    ensures forall k :: k in store && k != b.thermostatName ==> r[k] == store[k]
  {
    store[b.thermostatName := b]
  }

  /** Every record is stored under the name it carries. */
  ghost predicate WellKeyed(store: Store) {
    forall k :: k in store ==> store[k].thermostatName == k
  }

  /** A persisted record is what a later load by its name returns. */
  lemma PersistThenLoad(store: Store, b: Bundle, key: string)
    ensures Load(PersistToShelf(store, b), b.thermostatName, key) == b
  {
  }

  /** Persisting one record does not change what any other name loads. */
  lemma PersistThenLoadOther(store: Store, b: Bundle, name: string, key: string)
    requires name != b.thermostatName
    ensures Load(PersistToShelf(store, b), name, key) == Load(store, name, key)
  {
  }

  /** Persisting keeps every record under its own name. */
  lemma PersistKeepsWellKeyed(store: Store, b: Bundle)
    requires WellKeyed(store)
    ensures WellKeyed(PersistToShelf(store, b))
  {
  }

  /** In a well-keyed shelf, loading by `name` yields a record named `name`. */
  lemma LoadIsNamed(store: Store, name: string, key: string)
    requires WellKeyed(store)
    ensures Load(store, name, key).thermostatName == name
  {
  }
}

/**
  The session snapshot (core/state/auth-state.service.ts): each emission of
  the subject is modelled as the new snapshot returned.
 */
module AuthState {
  import opened Wrappers
  import opened Names
  import AuthService
  import Jwt

  datatype Snapshot = Snapshot(isLogged: bool, token: Option<string>, role: Option<string>, name: Option<string>)

  /** The subject's initial value, and what `clear` emits. */
  const LOGGED_OUT := Snapshot(false, None, None, None)

  /** A `Partial<AuthSnapshot>`: `None` is a missing, `null` or `undefined` field. */
  datatype Partial = Partial(isLogged: Option<bool>, token: Option<string>, role: Option<string>, name: Option<string>)

  const NO_CHANGE := Partial(None, None, None, None)

  /** `setAuth`: each field from the partial when present, otherwise the current value (`??`). */
  function SetAuth(current: Snapshot, p: Partial): (r: Snapshot)
    ensures r.isLogged == (if p.isLogged.Some? then p.isLogged.value else current.isLogged)
    ensures r.token == (if p.token.Some? then p.token else current.token)
    ensures r.role == (if p.role.Some? then p.role else current.role)
    ensures r.name == (if p.name.Some? then p.name else current.name)
  {
    Snapshot(
      p.isLogged.GetOr(current.isLogged),
      if p.token.Some? then p.token else current.token,
      if p.role.Some? then p.role else current.role,
      if p.name.Some? then p.name else current.name)
  }

  /** No field can be cleared through `setAuth`: a present value stays present. */
  lemma SetAuthCannotClear(current: Snapshot, p: Partial)
    ensures current.token.Some? ==> SetAuth(current, p).token.Some?
    ensures current.role.Some? ==> SetAuth(current, p).role.Some?
    ensures current.name.Some? ==> SetAuth(current, p).name.Some?
  {
  }

  /** Applying the same partial twice is applying it once; the empty partial changes nothing. */
  lemma SetAuthIdempotent(current: Snapshot, p: Partial)
    ensures SetAuth(SetAuth(current, p), p) == SetAuth(current, p)
    ensures SetAuth(current, NO_CHANGE) == current
  {
  }

  /** `isLogged` is not derived from the token: a token alone leaves the snapshot logged out. */
  lemma TokenDoesNotLogIn(t: string)
    ensures SetAuth(LOGGED_OUT, Partial(None, Some(t), None, None)) == Snapshot(false, Some(t), None, None)
  {
  }

  /** `clear`. */
  function Clear(current: Snapshot): (r: Snapshot)
    ensures !r.isLogged && r.token.None? && r.role.None? && r.name.None?
  {
    LOGGED_OUT
  }

  /** `localStorage.getItem(key)`. */
  function Get(store: map<string, string>, key: string): Option<string> {
    if key in store then Some(store[key]) else None
  }

  /**
    `refreshFromStorage`: outside a browser nothing is emitted and the
    snapshot stays; otherwise the stored token (even an empty one) with
    `isLogged` exactly when it is non-empty, and empty role or name as null.
   */
  function RefreshFromStorage(browser: bool, store: map<string, string>, current: Snapshot): (r: Snapshot)
    ensures !browser ==> r == current
    ensures browser ==> r.token == Get(store, "token")
    ensures browser ==> (r.isLogged <==> "token" in store && store["token"] != "")
    ensures browser ==> r.role == Truthy(Get(store, "role")) && r.name == Truthy(Get(store, "name"))
  {
    if !browser then current
    else
      var token := Get(store, "token");
      Snapshot(Truthy(token).Some?, token, Truthy(Get(store, "role")), Truthy(Get(store, "name")))
  }

  /** Refreshing does not depend on the snapshot it replaces. */
  lemma RefreshForgetsCurrent(store: map<string, string>, a: Snapshot, b: Snapshot)
    ensures RefreshFromStorage(true, store, a) == RefreshFromStorage(true, store, b)
  {
  }

  /**
    After a login persists a token, refreshing shows a logged-in session with
    that token and the claimed role when it is truthy; a payload without a
    role keeps the role an earlier session stored.
   */
  lemma RefreshAfterPersist(token: string, store: map<string, string>, decode: Jwt.Decoder, current: Snapshot)
    requires token != ""
    ensures var p := AuthService.Persist(true, Some(token), store, decode);
      var r := RefreshFromStorage(true, p.store, current);
      && r.isLogged && r.token == Some(token)
      && (Truthy(p.role).Some? ==> r.role == p.role)
      && (Truthy(p.role).None? ==> r.role == Truthy(Get(store, "role")))
  {
    AuthService.PersistRole(token, store, decode);
  }
}

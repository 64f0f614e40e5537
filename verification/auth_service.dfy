/**
  Logging in (services/auth.service.ts): the fallback chain over five
  candidate endpoints and `persist`, which stores the token and the role and
  name read from its payload. The server is a function from endpoint to
  outcome; storage is a string map.
 */
module AuthService {
  import opened Wrappers
  import opened Text
  import opened Jwt

  /** The endpoints `login` tries, in order. */
  const CANDIDATES: seq<string> := [
    "https://la-morada-back-production.up.railway.app/auth/login",
    "https://la-morada-back-production.up.railway.app/user/login",
    "https://la-morada-back-production.up.railway.app/auth/sign-in",
    "https://la-morada-back-production.up.railway.app/user/sign-in",
    "https://la-morada-back-production.up.railway.app/login"]

  /** What one POST yields: a body whose `token` may be missing, or an HTTP error status. */
  datatype Outcome = Body(token: Option<string>) | HttpError(status: int)

  /** The server as seen from the client: the outcome of posting the credentials to an endpoint. */
  type Server = string -> Outcome

  datatype LoginResult =
    | LoggedIn(index: nat, token: string)
    | NotFound                  // `LOGIN_NOT_FOUND`
    | Propagated(status: int)   // any error other than 404 and 405

  /** The result together with the endpoints posted to, in order. */
  datatype LoginRun = LoginRun(result: LoginResult, tried: seq<string>)

  /** A body whose `token` is truthy. */
  predicate HasToken(o: Outcome) {
    o.Body? && o.token.Some? && o.token.value != ""
  }

  /** The outcomes that make `tryAt` move on: a body without token, or 404/405. */
  predicate MovesOn(o: Outcome) {
    (o.Body? && !HasToken(o)) || (o.HttpError? && (o.status == 404 || o.status == 405))
  }

  /**
    `tryAt(i)` over a list of endpoints: they are tried in order from `i`;
    every one tried before the last moved the chain on; the result is
    not-found exactly when all of them do, and otherwise comes from the last
    one tried (its token, or its status other than 404 and 405). `RunSound`
    spells this out.
   */
  function TryAt(cands: seq<string>, i: nat, server: Server): (run: LoginRun)
    requires i <= |cands|
    ensures RunSound(cands, i, server, run)
    decreases |cands| - i
  {
    if i >= |cands| then
      EndRun(cands, i, server);
      LoginRun(NotFound, [])
    else
      var url := cands[i];
      var o := server(url);
      if HasToken(o) then
        TokenRun(cands, i, server);
        LoginRun(LoggedIn(i, o.token.value), [url])
      else if MovesOn(o) then
        var rest := TryAt(cands, i + 1, server);
        MoveOnRun(cands, i, server, rest);
        LoginRun(rest.result, [url] + rest.tried)
      else
        ErrorRun(cands, i, server);
        LoginRun(Propagated(o.status), [url])
  }

  /** Everything `TryAt` promises about a run that starts at candidate `i`. */
  predicate RunSound(cands: seq<string>, i: nat, server: Server, run: LoginRun)
    requires i <= |cands|
  {
    && (i < |cands| ==> |run.tried| >= 1)
    && |run.tried| <= |cands| - i
    && run.tried == cands[i..i + |run.tried|]
    && (forall j | i <= j < i + |run.tried| - 1 :: MovesOn(server(cands[j])))
    && (run.result == NotFound <==> forall j | i <= j < |cands| :: MovesOn(server(cands[j])))
    && (run.result == NotFound ==> |run.tried| == |cands| - i)
    && (run.result.LoggedIn? ==>
      && |run.tried| >= 1
      && run.result.index == i + |run.tried| - 1
      && server(cands[run.result.index]) == Body(Some(run.result.token))
      && run.result.token != "")
    && (run.result.Propagated? ==>
      && |run.tried| >= 1
      && server(cands[i + |run.tried| - 1]) == HttpError(run.result.status)
      && run.result.status != 404 && run.result.status != 405)
  }

  /** Past the last candidate nothing is tried and nothing was found. */
  lemma EndRun(cands: seq<string>, i: nat, server: Server)
    requires i == |cands|
    ensures RunSound(cands, i, server, LoginRun(NotFound, []))
  {
  }

  /** A token at candidate `i` ends the run there. */
  lemma TokenRun(cands: seq<string>, i: nat, server: Server)
    requires i < |cands| && HasToken(server(cands[i]))
    ensures RunSound(cands, i, server, LoginRun(LoggedIn(i, server(cands[i]).token.value), [cands[i]]))
  {
    assert !MovesOn(server(cands[i]));
  }

  /** An error other than 404 and 405 at candidate `i` ends the run there. */
  lemma ErrorRun(cands: seq<string>, i: nat, server: Server)
    requires i < |cands| && !HasToken(server(cands[i])) && !MovesOn(server(cands[i]))
    ensures server(cands[i]).HttpError?
    ensures RunSound(cands, i, server, LoginRun(Propagated(server(cands[i]).status), [cands[i]]))
  {
  }

  /** Moving on from candidate `i` puts it in front of the run from `i + 1`. */
  lemma MoveOnRun(cands: seq<string>, i: nat, server: Server, rest: LoginRun)
    requires i < |cands| && MovesOn(server(cands[i]))
    requires RunSound(cands, i + 1, server, rest)
    ensures RunSound(cands, i, server, LoginRun(rest.result, [cands[i]] + rest.tried))
  {
    MoveOnShift(cands, i, server, |rest.tried|);
  }

  /** Moving on from candidate `i` prepends it to what is tried next, and "every later one moves on" extends to it. */
  lemma MoveOnShift(cands: seq<string>, i: nat, server: Server, n: nat)
    requires i < |cands| && i + 1 + n <= |cands| && MovesOn(server(cands[i]))
    ensures cands[i..i + 1 + n] == [cands[i]] + cands[i + 1..i + 1 + n]
    ensures (forall j | i <= j < |cands| :: MovesOn(server(cands[j])))
      <==> (forall j | i + 1 <= j < |cands| :: MovesOn(server(cands[j])))
  {
  }

  /** `login`: the chain from the first candidate. */
  function Login(server: Server): (run: LoginRun)
    ensures 1 <= |run.tried| <= |CANDIDATES|
    ensures run.tried == CANDIDATES[..|run.tried|]
    ensures run.result == NotFound <==> forall j | 0 <= j < |CANDIDATES| :: MovesOn(server(CANDIDATES[j]))
  {
    TryAt(CANDIDATES, 0, server)
  }

  /**
    The first endpoint that answers with a token wins, provided every
    earlier one moved the chain on.
   */
  lemma {:induction false} FirstTokenWins(cands: seq<string>, i: nat, k: nat, server: Server)
    requires i <= k < |cands|
    requires forall j | i <= j < k :: MovesOn(server(cands[j]))
    requires HasToken(server(cands[k]))
    ensures TryAt(cands, i, server).result == LoggedIn(k, server(cands[k]).token.value)
    ensures |TryAt(cands, i, server).tried| == k - i + 1
    decreases k - i
  {
    if i < k {
      FirstTokenWins(cands, i + 1, k, server);
    }
  }

  /**
    Any error other than 404 and 405 stops the chain at once: no later
    endpoint is tried.
   */
  lemma {:induction false} OtherErrorStops(cands: seq<string>, i: nat, k: nat, server: Server)
    requires i <= k < |cands|
    requires forall j | i <= j < k :: MovesOn(server(cands[j]))
    requires server(cands[k]).HttpError? && !MovesOn(server(cands[k]))
    ensures TryAt(cands, i, server).result == Propagated(server(cands[k]).status)
    ensures TryAt(cands, i, server).tried == cands[i..k + 1]
    decreases k - i
  {
    if i < k {
      OtherErrorStops(cands, i + 1, k, server);
    }
  }

  // ---------------------------------------------------------------------------
  // persist
  // ---------------------------------------------------------------------------

  /** The role and name `persist` returns, with the storage it leaves. */
  datatype Persisted = Persisted(role: Option<string>, name: Option<string>, store: map<string, string>)

  /**
    The service's own `decode`: the second segment translated from base64url
    but not padded, then `atob`, UTF-8 decoding and `JSON.parse`. A token
    without a dot has no second segment and `undefined.replace` throws.
   */
  function ServiceDecode(token: string, decode: Decoder): (r: Option<Claims>)
    ensures '.' !in token ==> r.None?
    ensures |Split(token, '.')| >= 2 ==> r == decode(UrlToStd(Split(token, '.')[1]))
  {
    var parts := Split(token, '.');
    SplitMany(token, '.');
    if |parts| < 2 then None else decode(UrlToStd(parts[1]))
  }

  /** `p?.role ?? p?.user?.role ?? null`. */
  function ClaimedRole(p: Option<Claims>): (r: Option<string>)
    ensures p.Some? && p.value.role.Some? ==> r == p.value.role
    ensures p.Some? && p.value.role.None? && p.value.user.Some? ==> r == p.value.user.value.role
    ensures p.None? || (p.value.role.None? && p.value.user.None?) ==> r.None?
  {
    if p.None? then None
    else if p.value.role.Some? then p.value.role
    else if p.value.user.Some? then p.value.user.value.role
    else None
  }

  /** `p?.name ?? p?.user?.name ?? null`. */
  function ClaimedName(p: Option<Claims>): (r: Option<string>)
    ensures p.Some? && p.value.name.Some? ==> r == p.value.name
    ensures p.Some? && p.value.name.None? && p.value.user.Some? ==> r == p.value.user.value.name
    ensures p.None? || (p.value.name.None? && p.value.user.None?) ==> r.None?
  {
    if p.None? then None
    else if p.value.name.Some? then p.value.name
    else if p.value.user.Some? then p.value.user.value.name
    else None
  }

  /** `if (x) localStorage.setItem(key, x)`: written only when truthy. */
  function PutIfTruthy(store: map<string, string>, key: string, v: Option<string>): (r: map<string, string>)
    ensures v.Some? && v.value != "" ==> r == store[key := v.value]
    ensures v.None? || v.value == "" ==> r == store
  {
    if v.Some? && v.value != "" then store[key := v.value] else store
  }

  /**
    `persist`: outside a browser or without a token nothing is written and
    both answers are null; otherwise the token is stored and the role and
    name are stored when they are truthy.
   */
  function Persist(browser: bool, token: Option<string>, store: map<string, string>, decode: Decoder): (r: Persisted)
    ensures !browser || token.None? || token.value == "" ==> r == Persisted(None, None, store)
    ensures browser && token.Some? && token.value != "" ==>
      && "token" in r.store && r.store["token"] == token.value
      && r.role == ClaimedRole(ServiceDecode(token.value, decode))
      && r.name == ClaimedName(ServiceDecode(token.value, decode))
    ensures browser && token.Some? && token.value != "" ==>
      && (r.role.Some? && r.role.value != "" ==> "role" in r.store && r.store["role"] == r.role.value)
      && (r.name.Some? && r.name.value != "" ==> "name" in r.store && r.store["name"] == r.name.value)
      && (r.role.None? || r.role.value == "" ==> ("role" in r.store <==> "role" in store))
      && (r.name.None? || r.name.value == "" ==> ("name" in r.store <==> "name" in store))
    ensures forall k | k in store && k != "token" && k != "role" && k != "name" :: k in r.store && r.store[k] == store[k]
    ensures forall k | k in r.store && k != "token" && k != "role" && k != "name" :: k in store
  {
    if !browser || token.None? || token.value == "" then Persisted(None, None, store)
    else
      var p := ServiceDecode(token.value, decode);
      var role := ClaimedRole(p);
      var name := ClaimedName(p);
      var s1 := store["token" := token.value];
      var s2 := PutIfTruthy(s1, "role", role);
      var s3 := PutIfTruthy(s2, "name", name);
      Persisted(role, name, s3)
  }

  /** The stored role is the claimed one when truthy, and otherwise whatever an earlier login left. */
  lemma PersistRole(token: string, store: map<string, string>, decode: Decoder)
    requires token != ""
    ensures var r := Persist(true, Some(token), store, decode);
      && (r.role.Some? && r.role.value != "" ==> "role" in r.store && r.store["role"] == r.role.value)
      && (r.role.None? || r.role.value == "" ==> ("role" in r.store <==> "role" in store))
      && (r.role.None? || r.role.value == "" ==> "role" in store ==> r.store["role"] == store["role"])
  {
  }

  /** The stored name is the claimed one when truthy, and otherwise whatever an earlier login left. */
  lemma PersistName(token: string, store: map<string, string>, decode: Decoder)
    requires token != ""
    ensures var r := Persist(true, Some(token), store, decode);
      && (r.name.Some? && r.name.value != "" ==> "name" in r.store && r.store["name"] == r.name.value)
      && (r.name.None? || r.name.value == "" ==> ("name" in r.store <==> "name" in store))
      && (r.name.None? || r.name.value == "" ==> "name" in store ==> r.store["name"] == store["name"])
  {
  }

  /** A successful login stores the winning token. */
  lemma LoginStoresToken(server: Server, store: map<string, string>, decode: Decoder)
    requires Login(server).result.LoggedIn?
    ensures var t := Login(server).result.token;
      Persist(true, Some(t), store, decode).store["token"] == t
  {
  }
}

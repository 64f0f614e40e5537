/**
  The route guard (guards/auth-role.guard.ts) and the route table it guards
  (app.routes.ts). The guard reads the stored token, decodes its payload
  with a decoder of its own, and compares the role with the list under the
  route data key `roles`; the table declares its lists under
  `expectedRoles`.
 */
module Guard {
  import opened Wrappers
  import opened Text
  import opened Jwt

  datatype Decision = Admit | Redirect(path: string)

  /** A route's `data`: only string-list entries are modelled. */
  type RouteData = map<string, seq<string>>

  datatype Route = Route(path: string, guarded: bool, data: RouteData)

  const PATIENT_OR_PSYCHOLOGIST: RouteData := map["expectedRoles" := ["patient", "psychologist"]]
  const PSYCHOLOGIST_ONLY: RouteData := map["expectedRoles" := ["psychologist"]]
  const PUBLIC: RouteData := map[]

  /** The route table in declaration order, without the two redirects to `home`. */
  const ROUTES: seq<Route> := [
    Route("sign-in", false, PUBLIC),
    Route("sign-up", false, PUBLIC),
    Route("home", false, PUBLIC),
    Route("product", false, PUBLIC),
    Route("post", false, PUBLIC),
    Route("podcast", false, PUBLIC),
    Route("product/create", true, PSYCHOLOGIST_ONLY),
    Route("cart", true, PATIENT_OR_PSYCHOLOGIST),
    Route("appointment", true, PATIENT_OR_PSYCHOLOGIST),
    Route("availability", false, PUBLIC),
    Route("availability/manage", true, PSYCHOLOGIST_ONLY),
    Route("profile", false, PUBLIC),
    Route("profile/edit", true, PATIENT_OR_PSYCHOLOGIST),
    Route("payment", true, PATIENT_OR_PSYCHOLOGIST),
    Route("checkout", true, PATIENT_OR_PSYCHOLOGIST),
    Route("post/editor", true, PSYCHOLOGIST_ONLY)]

  /** Where navigating to `/path` ends up: the route itself, or `home` through the `**` redirect. */
  function Resolve(path: string): (r: string)
    ensures (exists k | 0 <= k < |ROUTES| :: ROUTES[k].path == path) ==> r == path
    ensures (forall k | 0 <= k < |ROUTES| :: ROUTES[k].path != path) ==> r == "home"
  {
    if exists k | 0 <= k < |ROUTES| :: ROUTES[k].path == path then path else "home"
  }

  /**
    `decodeToken`: the raw second segment straight to `atob` and
    `JSON.parse`, with no alphabet translation and no padding. A token
    without a dot has no second segment; `atob(undefined)` reads the
    nine-character `"undefined"`, whose length is not valid base64, and
    throws, so the result is `None`.
   */
  function DecodeToken(token: string, decode: Decoder): (r: Option<Claims>)
    ensures '.' !in token ==> r.None?
    ensures |Split(token, '.')| >= 2 ==> r == decode(Split(token, '.')[1])
  {
    var parts := Split(token, '.');
    SplitMany(token, '.');
    if |parts| < 2 then None else decode(parts[1])
  }

  /** `expectedRoles.includes(userData.role)`: a missing role is never included. */
  predicate RoleAllowed(roles: seq<string>, role: Option<string>) {
    role.Some? && role.value in roles
  }

  /**
    The decision of `canActivate`, given the route-data key it reads the
    allowed roles from and the page it sends users without a usable token to.
   */
  function Decide(stored: Option<string>, data: RouteData, decode: Decoder, key: string, signIn: string): (r: Decision)
    ensures stored.None? || stored.value == "" || DecodeToken(stored.value, decode).None? ==> r == Redirect(signIn)
    ensures r == Admit <==>
      && stored.Some? && stored.value != ""
      && DecodeToken(stored.value, decode).Some?
      && (key in data ==> RoleAllowed(data[key], DecodeToken(stored.value, decode).value.role))
    ensures
      && stored.Some? && stored.value != ""
      && DecodeToken(stored.value, decode).Some? && key in data
      && !RoleAllowed(data[key], DecodeToken(stored.value, decode).value.role)
      ==> r == Redirect("/unauthorized")
  {
    if stored.None? || stored.value == "" then Redirect(signIn)
    else match DecodeToken(stored.value, decode)
      case None => Redirect(signIn)
      case Some(user) =>
        if key in data && !RoleAllowed(data[key], user.role) then Redirect("/unauthorized")
        else Admit
  }

  /**
    `canActivate` as written: no token or an undecodable payload sends the
    user to `/login`; a `roles` list without the payload's role sends them
    to `/unauthorized`; everything else is admitted.
   */
  function CanActivate(stored: Option<string>, data: RouteData, decode: Decoder): (r: Decision)
    ensures stored.None? || stored.value == "" ==> r == Redirect("/login")
    ensures stored.Some? && stored.value != "" && DecodeToken(stored.value, decode).None? ==> r == Redirect("/login")
    ensures r == Admit <==>
      && stored.Some? && stored.value != ""
      && DecodeToken(stored.value, decode).Some?
      && ("roles" in data ==> RoleAllowed(data["roles"], DecodeToken(stored.value, decode).value.role))
    ensures r == Redirect("/unauthorized") <==>
      && stored.Some? && stored.value != ""
      && DecodeToken(stored.value, decode).Some? && "roles" in data
      && !RoleAllowed(data["roles"], DecodeToken(stored.value, decode).value.role)
  {
    Decide(stored, data, decode, "roles", "/login")
  }

  /** No route of the table declares `roles`. */
  lemma NoRouteDeclaresRoles()
    ensures forall k | 0 <= k < |ROUTES| :: "roles" !in ROUTES[k].data
  {
  }

  /** Every guarded route declares `expectedRoles`. */
  lemma GuardedRoutesDeclareExpectedRoles()
    ensures forall k | 0 <= k < |ROUTES| :: ROUTES[k].guarded ==> "expectedRoles" in ROUTES[k].data
  {
  }

  /**
    As written, the role check never fires: on every route of the table, any
    stored token whose payload decodes is admitted, whatever its role.
   */
  lemma AnyDecodableTokenAdmitted(k: nat, token: string, decode: Decoder)
    requires k < |ROUTES| && token != ""
    requires DecodeToken(token, decode).Some?
    ensures CanActivate(Some(token), ROUTES[k].data, decode) == Admit
  {
    NoRouteDeclaresRoles();
  }

  /** For instance, a patient's token opens the psychologist-only schedule editor. */
  lemma PatientOpensScheduleEditor(token: string, decode: Decoder)
    requires token != "" && DecodeToken(token, decode).Some?
    requires DecodeToken(token, decode).value.role == Some("patient")
    ensures ROUTES[10].path == "availability/manage" && ROUTES[10].data == PSYCHOLOGIST_ONLY
    ensures !RoleAllowed(PSYCHOLOGIST_ONLY["expectedRoles"], Some("patient"))
    ensures CanActivate(Some(token), ROUTES[10].data, decode) == Admit
  {
    AnyDecodableTokenAdmitted(10, token, decode);
  }

  /** `/login` is not a route, so both login redirects end on `home`. */
  lemma LoginRedirectUnrouted()
    ensures Resolve("login") == "home"
    ensures Resolve("unauthorized") == "home"
  {
    assert forall k | 0 <= k < |ROUTES| :: ROUTES[k].path != "login" && ROUTES[k].path != "unauthorized";
  }

  /**
    The guard reads the raw segment, so with an `atob` that refuses the
    URL-safe characters `-` and `_` it turns away a token that `decodeJwt`
    reads, as long as the payload segment contains one of them.
   */
  lemma UrlSafePayloadRejected(header: string, payload: string, signature: string, decode: Decoder)
    requires '.' !in header && '.' !in payload && '.' !in signature
    requires '-' in payload || '_' in payload
    requires forall s :: '-' in s || '_' in s ==> decode(s).None?
    ensures CanActivate(Some(header + "." + payload + "." + signature), PUBLIC, decode) == Redirect("/login")
    ensures DecodeJwt(Some(header + "." + payload + "." + signature), decode) == decode(Prepared(payload))
  {
    var t := header + "." + payload + "." + signature;
    assert t == header + ['.'] + (payload + ['.'] + signature);
    SplitAfterHead(header, '.', payload + ['.'] + signature);
    SplitAfterHead(payload, '.', signature);
    assert Split(t, '.')[1] == payload;
    assert decode(payload).None?;
    DecodeCompact(header, payload, signature, decode);
  }

  // ---------------------------------------------------------------------------
  // The guard as the route table expects it
  // ---------------------------------------------------------------------------

  /**
    `canActivate` reading the key the routes declare, `expectedRoles`, and
    sending users without a token or with an undecodable one to the sign-in
    page the application has; a refused role still goes to `/unauthorized`.
   */
  function CanActivateFixed(stored: Option<string>, data: RouteData, decode: Decoder): (r: Decision)
    ensures stored.None? || stored.value == "" ==> r == Redirect("/sign-in")
    ensures stored.Some? && stored.value != "" && DecodeToken(stored.value, decode).None? ==> r == Redirect("/sign-in")
    ensures r == Admit <==>
      && stored.Some? && stored.value != ""
      && DecodeToken(stored.value, decode).Some?
      && ("expectedRoles" in data ==> RoleAllowed(data["expectedRoles"], DecodeToken(stored.value, decode).value.role))
    ensures r == Redirect("/unauthorized") <==>
      && stored.Some? && stored.value != ""
      && DecodeToken(stored.value, decode).Some? && "expectedRoles" in data
      && !RoleAllowed(data["expectedRoles"], DecodeToken(stored.value, decode).value.role)
  {
    Decide(stored, data, decode, "expectedRoles", "/sign-in")
  }

  /** On every guarded route the corrected guard admits exactly the decodable tokens with a listed role. */
  lemma ExpectedRolesEnforced(k: nat, stored: Option<string>, decode: Decoder)
    requires k < |ROUTES| && ROUTES[k].guarded
    ensures CanActivateFixed(stored, ROUTES[k].data, decode) == Admit <==>
      && stored.Some? && stored.value != ""
      && DecodeToken(stored.value, decode).Some?
      && RoleAllowed(ROUTES[k].data["expectedRoles"], DecodeToken(stored.value, decode).value.role)
  {
    GuardedRoutesDeclareExpectedRoles();
  }

  /** The corrected guard's sign-in redirect lands on a declared route. */
  lemma SignInRedirectRouted(decode: Decoder)
    ensures CanActivateFixed(None, PUBLIC, decode) == Redirect("/sign-in")
    ensures Resolve("sign-in") == "sign-in"
  {
    assert ROUTES[0].path == "sign-in";
  }
}

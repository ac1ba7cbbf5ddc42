/**
 * The session wrapper around the Keycloak identity client: whether the user
 * is logged in, whether the token grants the parking-pass client a role,
 * which identity provider issued the token, where a login should return to,
 * and the client id used when the client is configured.
 *
 * The decoding of a token into its claims is done by a utility outside this
 * model; every decision that decodes takes that decoder as a parameter
 * (`None` standing for a falsy decoding result).
 */
module Keycloak {
  import opened JsValues

  /** The `resource_access` entry of one client: its `roles` array, when truthy. */
  datatype ClientAccess = ClientAccess(roles: Option<seq<string>>)

  /**
   * The decoded JWT payload, reduced to the claims read here. A marker claim
   * is absent when it is `undefined`; `resource_access` is `None` when it is falsy.
   */
  datatype Claims = Claims(
    idirUserid: JsValue,
    bceidUserid: JsValue,
    preferredUsername: JsValue,
    resourceAccess: Option<map<string, ClientAccess>>)

  /** The identity-provider hints the service knows (its `idpHintEnum`). */
  datatype IdpHint = Idir | Bceid | Bcsc {
    function Value(): (v: string)
      ensures v in HintValues
    {
      match this
      case Idir => "idir"
      case Bceid => "bceid-basic-and-business"
      case Bcsc => "bcsc"
    }
  }

  const HintValues: set<string> := {"idir", "bceid-basic-and-business", "bcsc"}

  const ParkingPassClient := "parking-pass"
  const DefaultClientId := "nrpti-admin"
  const LoginSuffix := "/login"

  /** What `new Keycloak(config)` is given. */
  datatype KeycloakConfig = KeycloakConfig(url: JsValue, realm: JsValue, clientId: JsValue)

  /** The identity client's visible state: its configuration, `.token` and `.authenticated`. */
  datatype Adapter = Adapter(config: KeycloakConfig, token: Option<string>, authenticated: JsValue)

  /** The argument of `keycloakAuth.login(...)`. */
  datatype LoginRequest = LoginRequest(idpHint: string, redirectUri: string)

  /**
   * The roles of the parking-pass client, following the chain
   * `jwt.resource_access['parking-pass'].roles`; `None` as soon as one link is missing.
   */
  function ParkingPassRoles(jwt: Option<Claims>): (roles: Option<seq<string>>)
    ensures jwt.None? ==> roles.None?
    ensures jwt.Some? && jwt.value.resourceAccess.None? ==> roles.None?
    ensures jwt.Some? && jwt.value.resourceAccess.Some? && ParkingPassClient !in jwt.value.resourceAccess.value
            ==> roles.None?
    ensures jwt.Some? && jwt.value.resourceAccess.Some? && ParkingPassClient in jwt.value.resourceAccess.value
            ==> roles == jwt.value.resourceAccess.value[ParkingPassClient].roles
  {
    if jwt.Some? && jwt.value.resourceAccess.Some? && ParkingPassClient in jwt.value.resourceAccess.value
    then jwt.value.resourceAccess.value[ParkingPassClient].roles
    else None
  }

  /**
   * The authorization test on decoded claims: every link of the chain must be
   * truthy, and then the roles array must hold at least one role.
   */
  function RolesAuthorize(jwt: Option<Claims>): (r: bool)
    ensures r <==> ParkingPassRoles(jwt).Some? && |ParkingPassRoles(jwt).value| >= 1
    ensures ParkingPassRoles(jwt) == Some([]) ==> !r
  {
    match jwt
    case None => false
    case Some(c) =>
      match c.resourceAccess
      case None => false
      case Some(access) =>
        if ParkingPassClient !in access then false
        else
          match access[ParkingPassClient].roles
          case None => false
          case Some(roles) => |roles| >= 1
  }

  /** The part of `s` after its first `@`. */
  function AfterAt(s: string): (r: string)
    requires '@' in s
  {
    s[IndexOf(s, '@') + 1..]
  }

  /** The part of `s` before its first `@`, or all of `s`. */
  function BeforeAt(s: string): (r: string)
    ensures '@' !in r
  {
    var j := IndexOf(s, '@');
    if j == -1 then s else s[..j]
  }

  /** The segment of `u` between its first `@` and the next `@` (or the end). */
  function DomainPart(u: string): (d: string)
    requires '@' in u
    ensures '@' !in d
  {
    BeforeAt(AfterAt(u))
  }

  /** A username of the form `name@bceid...`, the domain compared case-insensitively. */
  predicate IsBceidUsername(u: string) {
    '@' in u && StartsWith(ToLowerCase(DomainPart(u)), "bceid")
  }

  /** The second piece of `u.split('@')` is the domain part. */
  lemma SplitSecondPiece(u: string)
    requires '@' in u
    ensures |Split(u, '@')| > 1
    ensures Split(u, '@')[1] == DomainPart(u)
  {
    var rest := AfterAt(u);
    SplitStep(u, '@');
    var tail := Split(rest, '@');
    assert Split(u, '@') == [u[..IndexOf(u, '@')]] + tail;
    assert Split(u, '@')[1] == tail[0];
    if '@' in rest {
      SplitStep(rest, '@');
    } else {
      assert tail == [rest];
    }
  }

  /**
   * The identity provider inferred from decoded claims, in priority order:
   * an `idir_userid` claim, a `bceid_userid` claim, a `bceid` domain in
   * `preferred_username`, else BC Services Card. Reading a claim of a null
   * decoding, or splitting a `preferred_username` that is not a string, throws.
   */
  function IdpFromClaims(jwt: Option<Claims>): (r: Completion<IdpHint>)
    ensures jwt.None? ==> r == Throw(TypeError)
    ensures jwt.Some? && jwt.value.idirUserid != Undefined ==> r == Normal(Idir)
    ensures jwt.Some? && jwt.value.idirUserid == Undefined && jwt.value.bceidUserid != Undefined
            ==> r == Normal(Bceid)
    ensures jwt.Some? && jwt.value.idirUserid == Undefined && jwt.value.bceidUserid == Undefined
            ==> (r.Throw? <==> !jwt.value.preferredUsername.Str?)
    ensures jwt.Some? && jwt.value.idirUserid == Undefined && jwt.value.bceidUserid == Undefined
            && jwt.value.preferredUsername.Str?
            ==> r == Normal(if IsBceidUsername(jwt.value.preferredUsername.s) then Bceid else Bcsc)
  {
    match jwt
    case None => Throw(TypeError)
    case Some(c) =>
      if c.idirUserid != Undefined then Normal(Idir)
      else if c.bceidUserid != Undefined then Normal(Bceid)
      else
        match c.preferredUsername
        case Str(u) =>
          var parts := Split(u, '@');
          if |parts| > 1 then
            SplitSecondPiece(u);
            var domainPart := ToLowerCase(parts[1]);
            if StartsWith(domainPart, "bceid") then Normal(Bceid) else Normal(Bcsc)
          else Normal(Bcsc)
        case _ => Throw(TypeError)
  }

  /** Lower-casing commutes with AfterAt. */
  lemma AfterAtLowerCase(s: string)
    requires '@' in s
    ensures '@' in ToLowerCase(s)
    ensures AfterAt(ToLowerCase(s)) == ToLowerCase(AfterAt(s))
  {
    LowerCaseKeepsNonLetter(s, '@');
    var i := IndexOf(s, '@');
    LowerCaseSuffix(s, i + 1);
  }

  /** Lower-casing commutes with BeforeAt. */
  lemma BeforeAtLowerCase(s: string)
    ensures BeforeAt(ToLowerCase(s)) == ToLowerCase(BeforeAt(s))
  {
    LowerCaseKeepsNonLetter(s, '@');
    var j := IndexOf(s, '@');
    if j != -1 {
      LowerCasePrefix(s, j);
    }
  }

  /** The domain of the lower-cased username is the lower-cased domain. */
  lemma DomainPartLowerCase(u: string)
    requires '@' in u
    ensures '@' in ToLowerCase(u)
    ensures DomainPart(ToLowerCase(u)) == ToLowerCase(DomainPart(u))
  {
    AfterAtLowerCase(u);
    BeforeAtLowerCase(AfterAt(u));
  }

  /** The domain test ignores the case of the username. */
  lemma BceidIgnoresCase(u: string, v: string)
    requires ToLowerCase(u) == ToLowerCase(v)
    ensures IsBceidUsername(u) == IsBceidUsername(v)
  {
    LowerCaseKeepsNonLetter(u, '@');
    LowerCaseKeepsNonLetter(v, '@');
    if '@' in u {
      DomainPartLowerCase(u);
      DomainPartLowerCase(v);
    }
  }

  /**
   * The URI a login returns to: the current address, except that an address
   * ending in `/login` is cut at its last `/`, so the login page is not reopened.
   */
  function RedirectUri(href: string): (r: string)
    ensures r <= href
    ensures !EndsWith(href, LoginSuffix) ==> r == href
    ensures EndsWith(href, LoginSuffix) ==> r + LoginSuffix == href
  {
    if EndsWith(href, LoginSuffix) then
      var cut := LastIndexOf(href, '/');
      assert cut == |href| - |LoginSuffix| by {
        assert href[|href| - 6..] == "/login";
        assert href[|href| - 6] == '/';
        assert '/' !in href[|href| - 5..] by {
          assert href[|href| - 5..] == "login";
        }
      }
      SliceTo(href, cut)
    else href
  }

  /** The client id given to the identity client: the configured one when truthy, else `nrpti-admin`. */
  function ClientIdOrDefault(configured: JsValue): (r: JsValue)
    ensures Truthy(r)
    ensures Truthy(configured) ==> r == configured
    ensures !Truthy(configured) ==> r == Str(DefaultClientId)
  {
    if !Truthy(configured) then Str(DefaultClientId) else configured
  }

  class KeycloakService {
    var keycloakAuth: Option<Adapter>
    var keycloakEnabled: JsValue
    var keycloakUrl: JsValue
    var keycloakRealm: JsValue

    constructor ()
      ensures keycloakAuth.None?
      ensures keycloakEnabled == Undefined && keycloakUrl == Undefined && keycloakRealm == Undefined
    {
      keycloakAuth := None;
      keycloakEnabled, keycloakUrl, keycloakRealm := Undefined, Undefined, Undefined;
    }

    /** There is a client and its token is a non-empty string. */
    predicate HasToken()
      reads this
    {
      keycloakAuth.Some? && keycloakAuth.value.token.Some? && keycloakAuth.value.token.value != ""
    }

    /**
     * Reads the configuration; when Keycloak is enabled, builds the client with
     * the configured URL and realm and the client id (defaulted). The client
     * starts with no token. When disabled, no client is built and the previous
     * one, if any, is kept.
     */
    method Init(config: map<string, JsValue>)
      modifies this
      ensures keycloakEnabled == Lookup(config, "KEYCLOAK_ENABLED")
      ensures keycloakUrl == Lookup(config, "KEYCLOAK_URL")
      ensures keycloakRealm == Lookup(config, "KEYCLOAK_REALM")
      ensures !Truthy(keycloakEnabled) ==> keycloakAuth == old(keycloakAuth)
      ensures Truthy(keycloakEnabled) ==> keycloakAuth == Some(Adapter(
        KeycloakConfig(keycloakUrl, keycloakRealm, ClientIdOrDefault(Lookup(config, "KEYCLOAK_CLIENT_ID"))),
        None, Undefined))
      ensures Truthy(keycloakEnabled) ==> !HasToken() && !IsAuthenticated()
    {
      keycloakEnabled := Lookup(config, "KEYCLOAK_ENABLED");
      keycloakUrl := Lookup(config, "KEYCLOAK_URL");
      keycloakRealm := Lookup(config, "KEYCLOAK_REALM");
      if Truthy(keycloakEnabled) {
        var clientId := Lookup(config, "KEYCLOAK_CLIENT_ID");
        var kcConfig := KeycloakConfig(keycloakUrl, keycloakRealm, ClientIdOrDefault(clientId));
        keycloakAuth := Some(Adapter(kcConfig, None, Undefined));
      }
    }

    /** `keycloakAuth && keycloakAuth.token`: `undefined` without a client or a token. */
    function GetToken(): (r: JsValue)
      reads this
      ensures r == Undefined || r.Str?
      ensures Truthy(r) <==> HasToken()
      ensures HasToken() ==> r == Str(keycloakAuth.value.token.value)
    {
      match keycloakAuth
      case None => Undefined
      case Some(auth) =>
        match auth.token
        case None => Undefined
        case Some(t) => Str(t)
    }

    /** Logged in: a non-empty token, and the client's flag is exactly `true`. */
    function IsAuthenticated(): (r: bool)
      reads this
      ensures r <==> HasToken() && keycloakAuth.value.authenticated == Bool(true)
    {
      var token := GetToken();
      if !Truthy(token) then false
      else keycloakAuth.Some? && keycloakAuth.value.authenticated == Bool(true)
    }

    /**
     * Has a parking-pass role: a non-empty token whose decoded claims carry at
     * least one role for that client. The session flag is not consulted.
     */
    function IsAuthorized(decode: string -> Option<Claims>): (r: bool)
      reads this
      ensures !HasToken() ==> !r
      ensures HasToken() ==> (r <==> RolesAuthorize(decode(keycloakAuth.value.token.value)))
    {
      var token := GetToken();
      if !Truthy(token) then false
      else RolesAuthorize(decode(token.s))
    }

    /** The hint of the provider that issued the token, or `''` without a token. */
    function GetIdpFromToken(decode: string -> Option<Claims>): (r: Completion<string>)
      reads this
      ensures !HasToken() ==> r == Normal("")
      ensures HasToken() ==>
        var idp := IdpFromClaims(decode(keycloakAuth.value.token.value));
        (r.Throw? <==> idp.Throw?) && (r.Normal? ==> r.value == idp.value.Value())
      ensures r.Normal? ==> r.value == "" || r.value in HintValues
    {
      var token := GetToken();
      if !Truthy(token) then Normal("")
      else
        match IdpFromClaims(decode(token.s))
        case Normal(hint) => Normal(hint.Value())
        case Throw(e) => Throw(e)
    }

    /**
     * Sends the browser to the identity provider with the hint and the return
     * address computed from the current address `href`; nothing happens
     * without a client.
     */
    method Login(idpHint: string, href: string) returns (request: Option<LoginRequest>)
      ensures request.None? <==> keycloakAuth.None?
      ensures request.Some? ==> request.value.idpHint == idpHint
      ensures request.Some? ==> request.value.redirectUri <= href
      ensures request.Some? && !EndsWith(href, LoginSuffix) ==> request.value.redirectUri == href
      ensures request.Some? && EndsWith(href, LoginSuffix) ==> request.value.redirectUri + LoginSuffix == href
    {
      var redirectUri := RedirectUri(href);
      if keycloakAuth.Some? {
        request := Some(LoginRequest(idpHint, redirectUri));
      } else {
        request := None;
      }
    }
  }

  /** In `name@domain`, with no other `@`, the domain part is `domain`. */
  lemma DomainPartOfUsername(name: string, domain: string)
    requires '@' !in name && '@' !in domain
    ensures '@' in name + "@" + domain
    ensures DomainPart(name + "@" + domain) == domain
  {
    var u := name + "@" + domain;
    assert u[|name|] == '@';
    assert forall k :: 0 <= k < |name| ==> u[k] == name[k];
    IndexOfIs(u, '@', |name|);
    assert AfterAt(u) == domain;
  }

  /**
   * Without markers, a username `name@domain` (no other `@`) is a BCeID
   * username exactly when `domain`, lower-cased, starts with `bceid`.
   */
  lemma UsernameDomainDecides(name: string, domain: string, access: Option<map<string, ClientAccess>>)
    requires '@' !in name && '@' !in domain
    ensures IdpFromClaims(Some(Claims(Undefined, Undefined, Str(name + "@" + domain), access)))
            == Normal(if StartsWith(ToLowerCase(domain), "bceid") then Bceid else Bcsc)
  {
    DomainPartOfUsername(name, domain);
  }
}

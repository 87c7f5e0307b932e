/**
 The two ways a bearer token becomes a caller: the legacy `Auth` middleware
 (internal/middleware/middleware.go:73-196) and the composite of authenticators that is to replace
 it (internal/middleware/authenticator.go, internal/middleware/principal.go).
 */
module Auth {
  import opened Text

  // ---- The world outside ----

  /** An error and a missing row are told apart by the database, not by the callers here. */
  datatype Lookup<+T> = Failed | Absent | Found(value: T)

  datatype User = User(id: string, username: string, roleID: string, roleName: string, enabled: bool)

  datatype ApiKey = ApiKey(userID: string, accountID: Option<string>, expiresAt: Option<string>, enabled: bool)

  /**
   The stores, the clock and the cryptography at the moment of a request. `subject(secret, token)`
   is the subject of a token that the JWT library accepts under a secret, `instant` reads an
   RFC 3339 time.
   */
  datatype World = World(
    subject: (string, string) -> Option<string>,
    user: string -> Lookup<User>,
    permissions: string -> Lookup<seq<string>>,
    hash: string -> string,
    key: string -> Lookup<ApiKey>,
    instant: string -> Option<int>,
    now: int)

  /** A request: its headers as delivered, "" for none, and the account scope already in its context. */
  datatype Request = Request(authorization: string, cookie: string, scope: string)

  datatype Identity = Identity(userID: string, username: string, roleName: string, permissions: seq<string>)

  datatype Principal = Principal(
    userID: string, username: string, roles: seq<string>, scopes: seq<string>,
    authn: string, scopedAccount: Option<string>, roleName: string)

  /** What the next handler finds in the request's context. */
  datatype Context = Context(identity: Identity, principal: Option<Principal>, scope: string)

  datatype Status = Unauthorized | Forbidden | InternalError

  datatype Decision = Refused(status: Status) | Served(context: Context)

  // ---- The header ----

  function LowerASCII(c: char): char {
    if 'A' <= c <= 'Z' then c + 32 as char else c
  }

  predicate IsBearer(scheme: string) {
    |scheme| == 6 && forall i :: 0 <= i < 6 ==> LowerASCII(scheme[i]) == "bearer"[i]
  }

  function FirstSpace(s: string): (n: nat)
    ensures n <= |s|
    ensures forall i :: 0 <= i < n ==> s[i] != ' '
    ensures n < |s| ==> s[n] == ' '
  {
    if s == "" || s[0] == ' ' then 0 else 1 + FirstSpace(s[1..])
  }

  /** The token as `Auth` reads it: what follows the first space after the scheme. */
  function LegacyToken(header: string): Option<string> {
    var n := FirstSpace(header);
    if n < |header| && IsBearer(header[..n]) then Some(header[n + 1..]) else None
  }

  /** `bearerToken` refuses the empty token as well. */
  function BearerToken(header: string): Option<string> {
    if LegacyToken(header) == Some("") then None else LegacyToken(header)
  }

  lemma LegacyTokenOfBearer(token: string)
    ensures LegacyToken("Bearer " + token) == Some(token)
  {
    var header := "Bearer " + token;
    assert header[..6] == "Bearer" && header[6] == ' ' && header[7..] == token;
    var n := FirstSpace(header);
    assert forall i :: 0 <= i < 6 ==> header[i] != ' ';
    assert n == 6;
  }

  function Dots(token: string): nat {
    if token == "" then 0 else (if token[0] == '.' then 1 else 0) + Dots(token[1..])
  }

  // ---- The users behind a token ----

  function Caller(u: User, permissions: seq<string>): Identity {
    Identity(u.id, u.username, u.roleName, permissions)
  }

  const SYSTEM_CALLER: Identity := Identity("system", "system", "admin", ["*"])

  function Expired(w: World, key: ApiKey): bool {
    key.expiresAt.Some? && w.instant(key.expiresAt.value).Some? && w.instant(key.expiresAt.value).value < w.now
  }

  // ---- The legacy path ----

  function LegacyUser(w: World, userID: string, scope: string): Decision {
    var found := w.user(userID);
    if !found.Found? then Refused(Unauthorized)
    else if !found.value.enabled then Refused(Forbidden)
    else
      var permissions := w.permissions(found.value.roleID);
      if !permissions.Found? then Refused(InternalError)
      else Served(Context(Caller(found.value, permissions.value), None, scope))
  }

  function BoundScope(key: ApiKey, scope: string): string {
    if key.accountID.Some? && key.accountID.value != "" then key.accountID.value else scope
  }

  function LegacyKey(w: World, token: string, scope: string): Decision {
    var found := w.key(w.hash(token));
    if !found.Found? || !found.value.enabled || Expired(w, found.value) then Refused(Unauthorized)
    else LegacyUser(w, found.value.userID, BoundScope(found.value, scope))
  }

  function Legacy(w: World, secret: string, r: Request): Decision {
    match LegacyToken(r.authorization)
    case None => Refused(Unauthorized)
    case Some(token) =>
      if token == secret then Served(Context(SYSTEM_CALLER, None, r.scope))
      else
        match w.subject(secret, token)
        case Some(userID) => if userID == "" then Refused(Unauthorized) else LegacyUser(w, userID, r.scope)
        case None => if HasPrefix(token, "notalk_") then LegacyKey(w, token, r.scope) else Refused(Unauthorized)
  }

  // ---- The authenticators ----

  datatype Authenticator =
    | SecretAuthenticator(secret: string)
    | JWTAuthenticator(secret: string)
    | APIKeyAuthenticator
    | SessionAuthenticator(secret: string)

  /** No credential of this kind, one that is recognized but wrong, or a caller. */
  datatype Answer = NoCredentials | InvalidCredentials | Authenticated(principal: Principal)

  function AsPrincipal(w: World, userID: string, authn: string, scoped: Option<string>): Answer {
    var found := w.user(userID);
    if !found.Found? || !found.value.enabled then InvalidCredentials
    else
      var u, permissions := found.value, w.permissions(found.value.roleID);
      if !permissions.Found? then InvalidCredentials
      else Authenticated(Principal(u.id, u.username, [u.roleName], permissions.value, authn, scoped, u.roleName))
  }

  function NonEmpty(s: string): Option<string> {
    if s == "" then None else Some(s)
  }

  function SignedBy(w: World, secret: string, token: string, authn: string, scoped: Option<string>): Answer {
    match w.subject(secret, token)
    case None => InvalidCredentials
    case Some(userID) => if userID == "" then InvalidCredentials else AsPrincipal(w, userID, authn, scoped)
  }

  function ByKey(w: World, token: string): Answer {
    var found := w.key(w.hash(token));
    if !found.Found? || !found.value.enabled || Expired(w, found.value) then InvalidCredentials
    else AsPrincipal(w, found.value.userID, "api_key", NonEmpty(BoundScope(found.value, "")))
  }

  function Authenticate(w: World, a: Authenticator, r: Request): Answer {
    var bearer := BearerToken(r.authorization);
    match a
    case SecretAuthenticator(secret) =>
      if bearer != Some(secret) then NoCredentials
      else Authenticated(Principal("system", "system", ["admin"], ["*"], "secret", None, "admin"))
    case JWTAuthenticator(secret) =>
      if bearer.None? || Dots(bearer.value) != 2 then NoCredentials
      else SignedBy(w, secret, bearer.value, "jwt", NonEmpty(r.scope))
    case APIKeyAuthenticator =>
      if bearer.None? || !HasPrefix(bearer.value, "notalk_") then NoCredentials
      else ByKey(w, bearer.value)
    case SessionAuthenticator(secret) =>
      if r.cookie == "" then NoCredentials else SignedBy(w, secret, r.cookie, "session", None)
  }

  /** The first authenticator that recognizes a credential decides. */
  function Composite(w: World, all: seq<Authenticator>, r: Request): Answer {
    if all == [] then NoCredentials
    else
      match Authenticate(w, all[0], r)
      case NoCredentials => Composite(w, all[1..], r)
      case answer => answer
  }

  /** `withPrincipal`: the principal, its mirror image as an identity, and the account it is bound to. */
  function WithPrincipal(p: Principal, scope: string): Context {
    Context(Identity(p.userID, p.username, p.roleName, p.scopes), Some(p),
            if p.scopedAccount.Some? && p.scopedAccount.value != "" then p.scopedAccount.value else scope)
  }

  function ThroughComposite(w: World, all: seq<Authenticator>, r: Request): Decision {
    match Composite(w, all, r)
    case Authenticated(p) => Served(WithPrincipal(p, r.scope))
    case _ => Refused(Unauthorized)
  }

  function Bearers(secret: string): seq<Authenticator> {
    [SecretAuthenticator(secret), JWTAuthenticator(secret), APIKeyAuthenticator]
  }

  // ---- The composite never falls back ----

  /** Every authenticator before the first that recognizes the request is without effect, and every later one too. */
  lemma {:induction false} FirstRecognizedDecides(w: World, all: seq<Authenticator>, r: Request, k: nat)
    requires k < |all| && Authenticate(w, all[k], r) != NoCredentials
    requires forall j :: 0 <= j < k ==> Authenticate(w, all[j], r) == NoCredentials
    ensures Composite(w, all, r) == Authenticate(w, all[k], r)
  {
    if k > 0 {
      FirstRecognizedDecides(w, all[1..], r, k - 1);
    }
  }

  lemma {:induction false} NoCredentialsIffNoneRecognizes(w: World, all: seq<Authenticator>, r: Request)
    ensures Composite(w, all, r) == NoCredentials
       <==> forall j :: 0 <= j < |all| ==> Authenticate(w, all[j], r) == NoCredentials
  {
    if all != [] {
      NoCredentialsIffNoneRecognizes(w, all[1..], r);
      assert forall j :: 1 <= j < |all| ==> all[j] == all[1..][j - 1];
      assert forall j :: 0 <= j < |all[1..]| ==> all[1..][j] == all[j + 1];
    }
  }

  /** The three bearer authenticators in a row. */
  lemma BearersInARow(w: World, secret: string, r: Request)
    ensures var bearer := BearerToken(r.authorization);
            Composite(w, Bearers(secret), r)
              == if bearer.None? then NoCredentials
                 else if bearer.value == secret then Authenticate(w, SecretAuthenticator(secret), r)
                 else if Dots(bearer.value) == 2 then SignedBy(w, secret, bearer.value, "jwt", NonEmpty(r.scope))
                 else if HasPrefix(bearer.value, "notalk_") then ByKey(w, bearer.value)
                 else NoCredentials
  {
    hide Dots, HasPrefix, SignedBy, ByKey, BearerToken;
    var all := Bearers(secret);
    assert all[1..] == [JWTAuthenticator(secret), APIKeyAuthenticator];
    assert all[1..][1..] == [APIKeyAuthenticator];
    assert all[1..][1..][1..] == [];
    SignedIsRecognized(w, secret, r);
    CompositeOfNone(w, r);
    assert Composite(w, [APIKeyAuthenticator], r) == Authenticate(w, APIKeyAuthenticator, r);
    assert Composite(w, all[1..], r)
        == match Authenticate(w, JWTAuthenticator(secret), r)
           case NoCredentials => Authenticate(w, APIKeyAuthenticator, r)
           case answer => answer;
  }

  lemma CompositeOfNone(w: World, r: Request)
    ensures Composite(w, [], r) == NoCredentials
  {
  }

  lemma SignedIsRecognized(w: World, secret: string, r: Request)
    ensures forall token, authn, scoped :: SignedBy(w, secret, token, authn, scoped) != NoCredentials
    ensures forall token :: ByKey(w, token) != NoCredentials
  {
  }

  // ---- Both paths make the same decision ----

  predicate SameCaller(a: Decision, b: Decision) {
    (a.Served? <==> b.Served?)
    && (a.Served? && b.Served? ==>
          a.context.identity == b.context.identity && a.context.scope == b.context.scope)
  }

  /** A signed token is in compact form: three parts with two dots between them. */
  ghost predicate CompactTokens(w: World, secret: string) {
    forall token :: w.subject(secret, token).Some? ==> Dots(token) == 2
  }

  lemma SameUser(w: World, userID: string, authn: string, scoped: Option<string>, scope: string)
    ensures var answer := AsPrincipal(w, userID, authn, scoped);
            LegacyUser(w, userID, if scoped.Some? && scoped.value != "" then scoped.value else scope).Served?
              == answer.Authenticated?
            && SameCaller(
                 LegacyUser(w, userID, if scoped.Some? && scoped.value != "" then scoped.value else scope),
                 if answer.Authenticated? then Served(WithPrincipal(answer.principal, scope)) else Refused(Unauthorized))
  {
  }

  /** A token that only one path can take: it has two dots like a JWT, yet is a usable API key. */
  predicate DottedKey(w: World, secret: string, token: string) {
    token != secret && Dots(token) == 2 && w.subject(secret, token).None?
    && HasPrefix(token, "notalk_") && LegacyKey(w, token, "").Served?
  }

  lemma ScopeDecidesNothing(w: World, token: string, scope: string)
    ensures LegacyKey(w, token, scope).Served? <==> LegacyKey(w, token, "").Served?
  {
  }

  /**
   The two paths accept the same headers and name the same user, role, permissions and account,
   unless the token is empty and so is the secret, or the token is a key with two dots.
   */
  lemma PathsAgreeIff(w: World, secret: string, r: Request)
    requires CompactTokens(w, secret)
    ensures SameCaller(Legacy(w, secret, r), ThroughComposite(w, Bearers(secret), r))
       <==> match LegacyToken(r.authorization)
            case None => true
            case Some(token) => !(token == "" && secret == "") && !DottedKey(w, secret, token)
  {
    BearersInARow(w, secret, r);
    hide LegacyToken, HasPrefix, Bearers, Composite;
    var parsed := LegacyToken(r.authorization);
    if parsed.Some? {
      var token := parsed.value;
      ScopeDecidesNothing(w, token, r.scope);
      EmptyTokens(w, secret);
      if w.subject(secret, token).Some? {
        SameUser(w, w.subject(secret, token).value, "jwt", NonEmpty(r.scope), r.scope);
      } else if w.key(w.hash(token)).Found? {
        var key := w.key(w.hash(token)).value;
        SameUser(w, key.userID, "api_key", NonEmpty(BoundScope(key, "")), r.scope);
      }
      hide LegacyUser, AsPrincipal, WithPrincipal, Expired, SameCaller, CompactTokens;
    }
  }

  lemma EmptyTokens(w: World, secret: string)
    requires CompactTokens(w, secret)
    ensures w.subject(secret, "").None? && Dots("") == 0 && !HasPrefix("", "notalk_")
  {
    assert Dots("") == 0;
  }

  // ---- Whole deployments ----

  /**
   The paths agree on every request there can be, exactly when the secret is not empty and no
   usable key has two dots.
   */
  lemma AgreeOnAllRequestsIff(w: World, secret: string)
    requires CompactTokens(w, secret)
    ensures (forall r :: SameCaller(Legacy(w, secret, r), ThroughComposite(w, Bearers(secret), r)))
       <==> secret != "" && forall token :: !DottedKey(w, secret, token)
  {
    hide Legacy, ThroughComposite, SameCaller, DottedKey, LegacyToken, CompactTokens, Bearers;
    forall r: Request
      ensures secret != "" && (forall token :: !DottedKey(w, secret, token))
        ==> SameCaller(Legacy(w, secret, r), ThroughComposite(w, Bearers(secret), r))
    {
      PathsAgreeIff(w, secret, r);
    }
    forall token: string
      ensures var r := Request("Bearer " + token, "", "");
        ((token == "" && secret == "") || DottedKey(w, secret, token))
        ==> !SameCaller(Legacy(w, secret, r), ThroughComposite(w, Bearers(secret), r))
    {
      LegacyTokenOfBearer(token);
      PathsAgreeIff(w, secret, Request("Bearer " + token, "", ""));
    }
    if secret == "" {
      var r := Request("Bearer " + "", "", "");
      assert !SameCaller(Legacy(w, secret, r), ThroughComposite(w, Bearers(secret), r));
    }
  }

  /** An empty bearer token is the system caller's to one path and no credential to the other, when the secret is empty. */
  lemma EmptySecretDiffers(w: World)
    ensures var r := Request("Bearer ", "", "");
      Legacy(w, "", r) == Served(Context(SYSTEM_CALLER, None, ""))
      && ThroughComposite(w, Bearers(""), r) == Refused(Unauthorized)
  {
    var r := Request("Bearer ", "", "");
    assert "Bearer " + "" == "Bearer ";
    LegacyTokenOfBearer("");
    BearersInARow(w, "", r);
    hide LegacyToken, Bearers, Composite;
  }

  /** A world with one user and one stored key, whatever token it is asked about. */
  function AnyKeyWorld(): World {
    World((secret: string, token: string) => None,
          (id: string) => Found(User("u", "user", "r", "role", true)),
          (role: string) => Found([]),
          (token: string) => token,
          (hash: string) => Found(ApiKey("u", None, None, true)),
          (text: string) => None,
          0)
  }

  /** A usable key with two dots is taken by one path and refused by the other. */
  lemma DottedKeyDiffers(secret: string)
    requires secret != "notalk_.."
    ensures CompactTokens(AnyKeyWorld(), secret) && DottedKey(AnyKeyWorld(), secret, "notalk_..")
    ensures var r := Request("Bearer " + "notalk_..", "", "");
      !SameCaller(Legacy(AnyKeyWorld(), secret, r), ThroughComposite(AnyKeyWorld(), Bearers(secret), r))
  {
    var w, token := AnyKeyWorld(), "notalk_..";
    DotsOfDottedKey();
    PrefixOfDottedKey();
    hide Dots, HasPrefix;
    assert CompactTokens(w, secret) && DottedKey(w, secret, token);
    hide *;
    LegacyTokenOfBearer(token);
    PathsAgreeIff(w, secret, Request("Bearer " + token, "", ""));
  }

  lemma PrefixOfDottedKey()
    ensures HasPrefix("notalk_..", "notalk_")
  {
    assert "notalk_.."[..7] == "notalk_";
  }

  lemma DotsOfDottedKey()
    ensures Dots("notalk_..") == 2
  {
    DotsAppend("notalk_", "..");
    NoDots("notalk_");
    assert "notalk_" + ".." == "notalk_..";
    assert ".."[1..] == "." && "."[1..] == "";
    assert Dots("") == 0 && Dots(".") == 1;
  }

  lemma {:induction false} DotsAppend(a: string, b: string)
    ensures Dots(a + b) == Dots(a) + Dots(b)
  {
    if a == "" {
      assert a + b == b;
    } else {
      DotsAppend(a[1..], b);
      assert (a + b)[1..] == a[1..] + b;
    }
  }

  predicate IsHex(s: string) {
    forall i :: 0 <= i < |s| ==> '0' <= s[i] <= '9' || 'a' <= s[i] <= 'f'
  }

  /** A key as it is made: the prefix and sixty-four hexadecimal digits. */
  predicate IsMinted(token: string) {
    |token| == 71 && HasPrefix(token, "notalk_") && IsHex(token[7..])
  }

  lemma {:induction false} NoDots(s: string)
    requires forall i :: 0 <= i < |s| ==> s[i] != '.'
    ensures Dots(s) == 0
  {
    if s != "" {
      NoDots(s[1..]);
    }
  }

  lemma MintedHasNoDots(token: string)
    requires IsMinted(token)
    ensures Dots(token) == 0
  {
    assert forall i :: 0 <= i < 7 ==> token[i] == token[..7][i];
    assert forall i :: 7 <= i < |token| ==> token[i] == token[7..][i - 7];
    NoDots(token);
  }

  /** Only keys made by the program are stored, and no other string has the hash of one. */
  ghost predicate OnlyMintedKeys(w: World) {
    forall token :: w.key(w.hash(token)).Found? ==> IsMinted(token)
  }

  lemma StoredHashesAreOfMinted(w: World, minted: set<string>)
    requires forall m :: m in minted ==> IsMinted(m)
    requires forall h :: w.key(h).Found? ==> exists m :: m in minted && w.hash(m) == h
    requires forall m, token :: m in minted && w.hash(token) == w.hash(m) ==> token == m
    ensures OnlyMintedKeys(w)
  {
    hide IsMinted;
  }

  /** In a deployment with a secret and only minted keys, the paths agree on every request. */
  lemma DeploymentsAgree(w: World, secret: string, r: Request)
    requires CompactTokens(w, secret) && OnlyMintedKeys(w) && secret != ""
    ensures SameCaller(Legacy(w, secret, r), ThroughComposite(w, Bearers(secret), r))
  {
    forall token: string
      ensures !DottedKey(w, secret, token)
    {
      if w.key(w.hash(token)).Found? {
        MintedHasNoDots(token);
      }
    }
    hide Legacy, ThroughComposite, SameCaller, DottedKey, CompactTokens, Bearers;
    AgreeOnAllRequestsIff(w, secret);
  }

  // ---- The principal that handlers read ----

  function RolesFromName(name: string): seq<string> {
    if name == "" then [] else [name]
  }

  /** `GetPrincipal`: the stored principal, or the legacy identity promoted to one. */
  function GetPrincipal(c: Context): Principal {
    match c.principal
    case Some(p) => p
    case None =>
      var id := c.identity;
      Principal(id.userID, id.username, RolesFromName(id.roleName), id.permissions, "",
                NonEmpty(c.scope), id.roleName)
  }

  /**
   Where both paths serve a request that carries no account scope yet, handlers read the same
   principal but for how it was authenticated, exactly when the role has a name.
   */
  lemma PrincipalsAgreeIff(w: World, secret: string, r: Request)
    requires CompactTokens(w, secret) && r.scope == ""
    requires Legacy(w, secret, r).Served? && ThroughComposite(w, Bearers(secret), r).Served?
    ensures var legacy := GetPrincipal(Legacy(w, secret, r).context);
            var composite := GetPrincipal(ThroughComposite(w, Bearers(secret), r).context);
            (legacy == composite.(authn := "") <==> composite.roleName != "")
            && legacy == composite.(authn := "", roles := RolesFromName(composite.roleName))
  {
    BearersInARow(w, secret, r);
    EmptyTokens(w, secret);
    hide LegacyToken, HasPrefix, Bearers, Composite, Expired;
  }

  // ---- The documented trap ----

  function WithSession(secret: string): seq<Authenticator> {
    Bearers(secret) + [SessionAuthenticator(secret)]
  }

  lemma {:induction false} CompositeAppend(w: World, a: seq<Authenticator>, b: Authenticator, r: Request)
    ensures Composite(w, a + [b], r)
         == if Composite(w, a, r) == NoCredentials then Authenticate(w, b, r) else Composite(w, a, r)
  {
    hide Authenticate;
    if a == [] {
      assert a + [b] == [b] && [b][1..] == [];
      assert Composite(w, [], r) == NoCredentials;
    } else {
      CompositeAppend(w, a[1..], b, r);
      assert (a + [b])[1..] == a[1..] + [b];
    }
  }

  /**
   With a session authenticator last, a request whose bearer token is accepted by no other means is
   still served by its cookie exactly when the token neither has two dots nor the key prefix.
   */
  lemma CookieServesIff(w: World, secret: string, r: Request)
    requires BearerToken(r.authorization).Some? && BearerToken(r.authorization).value != secret
    requires Authenticate(w, SessionAuthenticator(secret), r).Authenticated?
    ensures var token := BearerToken(r.authorization).value;
            var answer := Composite(w, WithSession(secret), r);
            (answer.Authenticated? && answer.principal.authn == "session")
              <==> Dots(token) != 2 && !HasPrefix(token, "notalk_")
  {
    CompositeAppend(w, Bearers(secret), SessionAuthenticator(secret), r);
    BearersInARow(w, secret, r);
    hide BearerToken, Dots, HasPrefix, Composite, Expired;
  }

  /** So the comment's own example is served: a bearer token "garbage" beside a valid cookie. */
  lemma GarbageReachesTheCookie(w: World, secret: string, cookie: string)
    requires secret != "garbage"
    requires Authenticate(w, SessionAuthenticator(secret), Request("Bearer " + "garbage", cookie, "")).Authenticated?
    ensures Composite(w, WithSession(secret), Request("Bearer " + "garbage", cookie, "")).Authenticated?
  {
    var token := "garbage";
    assert token[0] == 'g' && "notalk_"[0] == 'n';
    NoDots(token);
    hide Dots, LegacyToken, Authenticate;
    LegacyTokenOfBearer(token);
    CookieServesIff(w, secret, Request("Bearer " + "garbage", cookie, ""));
  }

  // ---- Permissions ----

  /** One entry of `hasPermission`, principal.go. */
  predicate Grants(p: string, required: string) {
    p == "*" || p == required
    || (|p| > 2 && p[|p| - 2] == ':' && p[|p| - 1] == '*' && HasPrefix(required, p[..|p| - 1]))
  }

  predicate HasPermission(scopes: seq<string>, required: string) {
    scopes != [] && (Grants(scopes[0], required) || HasPermission(scopes[1..], required))
  }

  function TrimSuffix(s: string, suffix: string): string {
    if HasSuffix(s, suffix) then s[..|s| - |suffix|] else s
  }

  /** One entry of `Identity.HasPermission`, middleware.go. */
  predicate LegacyGrants(p: string, required: string) {
    p == "*" || p == required
    || (HasSuffix(p, ":*") && HasPrefix(required, TrimSuffix(p, "*")))
  }

  predicate LegacyHasPermission(permissions: seq<string>, required: string) {
    permissions != [] && (LegacyGrants(permissions[0], required) || LegacyHasPermission(permissions[1..], required))
  }

  lemma {:induction false} SomeEntryGrants(scopes: seq<string>, required: string)
    ensures HasPermission(scopes, required) <==> exists p :: p in scopes && Grants(p, required)
    ensures LegacyHasPermission(scopes, required) <==> exists p :: p in scopes && LegacyGrants(p, required)
  {
    hide Grants, LegacyGrants;
    if scopes != [] {
      SomeEntryGrants(scopes[1..], required);
      assert forall p :: p in scopes <==> p == scopes[0] || p in scopes[1..];
    }
  }

  /** What a list of scopes means: everything, the permission itself, or every action on its resource. */
  ghost predicate Allowed(scopes: seq<string>, required: string) {
    "*" in scopes || required in scopes
    || exists resource: string, action: string ::
         resource != "" && (resource + ":*") in scopes && required == resource + ":" + action
  }

  lemma WildcardGrants(resource: string, action: string)
    requires resource != ""
    ensures Grants(resource + ":*", resource + ":" + action)
  {
    var p := resource + ":*";
    assert p[|p| - 2] == ':' && p[|p| - 1] == '*';
    assert p[..|p| - 1] == resource + ":";
    assert (resource + ":" + action)[..|resource| + 1] == resource + ":";
  }

  lemma GrantsByWildcard(p: string, required: string) returns (resource: string, action: string)
    requires Grants(p, required) && p != "*" && p != required
    ensures resource != "" && p == resource + ":*" && required == resource + ":" + action
  {
    resource, action := p[..|p| - 2], required[|p| - 1..];
    assert p == p[..|p| - 2] + [p[|p| - 2]] + [p[|p| - 1]];
    assert p[..|p| - 1] == resource + ":";
    assert required == required[..|p| - 1] + action;
  }

  /** `hasPermission` decides the meaning. */
  lemma PermissionMeans(scopes: seq<string>, required: string)
    ensures HasPermission(scopes, required) <==> Allowed(scopes, required)
  {
    SomeEntryGrants(scopes, required);
    if HasPermission(scopes, required) {
      var p :| p in scopes && Grants(p, required);
      if p != "*" && p != required {
        var resource, action := GrantsByWildcard(p, required);
      }
    }
    if Allowed(scopes, required) && "*" !in scopes && required !in scopes {
      var resource: string, action: string :|
        resource != "" && (resource + ":*") in scopes && required == resource + ":" + action;
      WildcardGrants(resource, action);
    }
  }

  lemma GrantsDifferOnlyAtColon(p: string, required: string)
    ensures LegacyGrants(p, required) <==> Grants(p, required) || (p == ":*" && HasPrefix(required, ":"))
  {
    SuffixEnds(p, "*");
    if HasSuffix(p, ":*") {
      SuffixAt(p, ":*", 0);
      SuffixAt(p, ":*", 1);
      assert p[|p| - 1..] == "*";
      if |p| == 2 {
        assert p == ":*";
        assert TrimSuffix(p, "*") == ":";
      }
    } else if |p| >= 2 {
      assert p[|p| - 2..] == [p[|p| - 2], p[|p| - 1]];
    }
  }

  /** The two matchers differ only in the entry ":*", which the older one lets grant ":…". */
  lemma {:induction false} MatchersAgreeIff(scopes: seq<string>, required: string)
    ensures LegacyHasPermission(scopes, required)
       <==> HasPermission(scopes, required) || (":*" in scopes && HasPrefix(required, ":"))
  {
    SomeEntryGrants(scopes, required);
    forall p: string
      ensures LegacyGrants(p, required) <==> Grants(p, required) || (p == ":*" && HasPrefix(required, ":"))
    {
      GrantsDifferOnlyAtColon(p, required);
    }
    hide Grants, LegacyGrants, HasPrefix;
  }

  /** Such a list exists: the older matcher grants ":x" to the entry ":*", the newer does not. */
  lemma ColonWildcardDiffers()
    ensures LegacyHasPermission([":*"], ":x") && !HasPermission([":*"], ":x")
  {
    assert ":x"[..1] == ":" && ":*"[0..] == ":*";
    MatchersAgreeIff([":*"], ":x");
    assert !Grants(":*", ":x") by {
      assert ":*"[0] != "*"[0] && ":*"[1] != ":x"[1];
    }
    assert [":*"][1..] == [];
    hide Grants;
  }
}

/**
 Who is served: the headers, users and API keys that each authentication path accepts, in terms of
 what the stores hold (internal/middleware/middleware.go:73-196,
 internal/middleware/authenticator.go:48-225).
 */
module AuthCallers {
  import opened Text
  import opened Auth
  import opened Phone

  // ---- Headers ----

  /** Six letters, each as in "bearer" but for its case. */
  predicate NamesBearer(scheme: string) {
    |scheme| == 6 && forall i :: 0 <= i < 6 ==> scheme[i] == "bearer"[i] || scheme[i] == "BEARER"[i]
  }

  lemma {:induction false} FirstSpaceAfter(scheme: string, rest: string)
    requires forall i :: 0 <= i < |scheme| ==> scheme[i] != ' '
    ensures FirstSpace(scheme + (" " + rest)) == |scheme|
  {
    if scheme == "" {
      assert scheme + (" " + rest) == " " + rest;
    } else {
      FirstSpaceAfter(scheme[1..], rest);
      assert (scheme + (" " + rest))[1..] == scheme[1..] + (" " + rest);
    }
  }

  lemma SameScheme(scheme: string)
    ensures IsBearer(scheme) <==> NamesBearer(scheme)
    ensures NamesBearer(scheme) ==> forall i :: 0 <= i < |scheme| ==> scheme[i] != ' '
  {
    var small, big := "bearer", "BEARER";
    assert forall i :: 0 <= i < 6 ==> small[i] as int == big[i] as int + 32 && 'A' <= big[i] <= 'Z';
    assert forall c: char, i :: 0 <= i < 6 ==> (LowerASCII(c) == small[i] <==> c == small[i] || c == big[i]);
  }

  /** A header gives a token exactly when it is "bearer" in any case, one space, and that token. */
  lemma HeaderMeans(header: string, token: string)
    ensures LegacyToken(header) == Some(token) <==>
      exists scheme :: NamesBearer(scheme) && header == scheme + (" " + token)
    ensures BearerToken(header) == Some(token) <==> LegacyToken(header) == Some(token) && token != ""
  {
    hide IsBearer, NamesBearer, FirstSpace;
    if LegacyToken(header) == Some(token) {
      var n := FirstSpace(header);
      SameScheme(header[..n]);
      assert header == header[..n] + (" " + header[n + 1..]);
    }
    forall scheme | NamesBearer(scheme) && header == scheme + (" " + token)
      ensures LegacyToken(header) == Some(token)
    {
      SameScheme(scheme);
      FirstSpaceAfter(scheme, token);
      assert header[..|scheme|] == scheme && header[|scheme| + 1..] == token;
    }
  }

  /** `strings.Count(token, ".")`. */
  lemma {:induction false} DotsCount(token: string)
    ensures Dots(token) == multiset(token)['.']
  {
    if token != "" {
      DotsCount(token[1..]);
      assert token == [token[0]] + token[1..];
    }
  }

  // ---- Users and keys ----

  /** The user is found and enabled, and the permissions of its role can be read. */
  predicate CanAct(w: World, userID: string) {
    && w.user(userID).Found? && w.user(userID).value.enabled
    && w.permissions(w.user(userID).value.roleID).Found?
  }

  /** The token's key is found and enabled, and its expiry is missing, unreadable or not before now. */
  predicate HasKey(w: World, token: string) {
    var found := w.key(w.hash(token));
    && found.Found? && found.value.enabled
    && (found.value.expiresAt.None? || w.instant(found.value.expiresAt.value).None?
        || w.now <= w.instant(found.value.expiresAt.value).value)
  }

  ghost predicate HasKeyPrefix(token: string) {
    exists rest :: token == "notalk_" + rest
  }

  lemma KeyPrefixIff(token: string)
    ensures HasPrefix(token, "notalk_") <==> exists rest :: token == "notalk_" + rest
  {
    if HasPrefix(token, "notalk_") {
      assert token == "notalk_" + token[7..];
    }
    forall rest | token == "notalk_" + rest
      ensures HasPrefix(token, "notalk_")
    {
      assert token[..7] == "notalk_";
    }
  }

  /** The user as the next handler sees it. */
  predicate IsUser(id: Identity, w: World, userID: string)
    requires CanAct(w, userID)
  {
    var u := w.user(userID).value;
    && id.userID == u.id && id.username == u.username && id.roleName == u.roleName
    && id.permissions == w.permissions(u.roleID).value
  }

  /** The account a key is bound to, or else the one the request already has. */
  predicate IsScopeOf(scope: string, key: ApiKey, before: string) {
    if key.accountID.Some? && key.accountID.value != "" then scope == key.accountID.value else scope == before
  }

  // ---- The legacy path ----

  lemma LegacyRefusesOthers(w: World, secret: string, r: Request)
    requires LegacyToken(r.authorization).None?
    ensures Legacy(w, secret, r) == Refused(Unauthorized)
  {
  }

  /** The secret is the system administrator's. */
  lemma LegacySecret(w: World, secret: string, r: Request)
    requires LegacyToken(r.authorization) == Some(secret)
    ensures Legacy(w, secret, r) == Served(Context(Identity("system", "system", "admin", ["*"]), None, r.scope))
  {
  }

  /** A signed token serves its subject, if that user can act. */
  lemma LegacySignedIff(w: World, secret: string, r: Request, token: string)
    requires LegacyToken(r.authorization) == Some(token) && token != secret && w.subject(secret, token).Some?
    ensures var userID := w.subject(secret, token).value;
      && (Legacy(w, secret, r).Served? <==> userID != "" && CanAct(w, userID))
      && (userID != "" && CanAct(w, userID) ==>
            var c := Legacy(w, secret, r).context;
            IsUser(c.identity, w, userID) && c.scope == r.scope)
  {
    hide LegacyToken;
  }

  /** Any other token serves the user of its key, if the key is good and that user can act. */
  lemma LegacyKeyIff(w: World, secret: string, r: Request, token: string)
    requires LegacyToken(r.authorization) == Some(token) && token != secret && w.subject(secret, token).None?
    ensures Legacy(w, secret, r).Served? <==>
      HasKeyPrefix(token) && HasKey(w, token) && CanAct(w, w.key(w.hash(token)).value.userID)
    ensures HasKeyPrefix(token) && HasKey(w, token) && CanAct(w, w.key(w.hash(token)).value.userID) ==>
      var c, key := Legacy(w, secret, r).context, w.key(w.hash(token)).value;
      IsUser(c.identity, w, key.userID) && IsScopeOf(c.scope, key, r.scope)
  {
    KeyPrefixIff(token);
    hide LegacyToken, HasPrefix;
  }

  /** A user that is disabled is forbidden, unreadable permissions are an error, anything else is unauthorized. */
  lemma LegacyStatuses(w: World, userID: string, scope: string)
    ensures LegacyUser(w, userID, scope) == Refused(Forbidden)
       <==> w.user(userID).Found? && !w.user(userID).value.enabled
    ensures LegacyUser(w, userID, scope) == Refused(InternalError) <==>
      && w.user(userID).Found? && w.user(userID).value.enabled
      && !w.permissions(w.user(userID).value.roleID).Found?
    ensures LegacyUser(w, userID, scope) == Refused(Unauthorized) <==> !w.user(userID).Found?
  {
  }

  // ---- The composite ----

  lemma CompositeSecret(w: World, secret: string, r: Request)
    requires BearerToken(r.authorization) == Some(secret)
    ensures Composite(w, Bearers(secret), r)
         == Authenticated(Principal("system", "system", ["admin"], ["*"], "secret", None, "admin"))
  {
    BearersInARow(w, secret, r);
    hide BearerToken, Composite, Bearers, Dots;
  }

  /** A token with two dots is taken for a signed one, and serves its subject if that user can act. */
  lemma CompositeSignedIff(w: World, secret: string, r: Request, token: string)
    requires BearerToken(r.authorization) == Some(token) && token != secret && Dots(token) == 2
    ensures var subject, decision := w.subject(secret, token), ThroughComposite(w, Bearers(secret), r);
      && (decision.Served? <==> subject.Some? && subject.value != "" && CanAct(w, subject.value))
      && (decision.Served? ==>
            && IsUser(decision.context.identity, w, subject.value) && decision.context.scope == r.scope
            && decision.context.principal.Some? && decision.context.principal.value.authn == "jwt")
  {
    BearersInARow(w, secret, r);
    hide BearerToken, Composite, Bearers, Dots, HasPrefix, ByKey;
  }

  /** A token without two dots serves the user of its key, if the key is good and that user can act. */
  lemma CompositeKeyIff(w: World, secret: string, r: Request, token: string)
    requires BearerToken(r.authorization) == Some(token) && token != secret && Dots(token) != 2
    ensures var decision := ThroughComposite(w, Bearers(secret), r);
      && (decision.Served? <==>
            HasKeyPrefix(token) && HasKey(w, token) && CanAct(w, w.key(w.hash(token)).value.userID))
      && (decision.Served? ==>
            && IsUser(decision.context.identity, w, w.key(w.hash(token)).value.userID)
            && IsScopeOf(decision.context.scope, w.key(w.hash(token)).value, r.scope)
            && decision.context.principal.Some? && decision.context.principal.value.authn == "api_key")
  {
    KeyPrefixIff(token);
    BearersInARow(w, secret, r);
    hide BearerToken, Composite, Bearers, Dots, HasPrefix, SignedBy;
  }

  /** Without a bearer token there are no credentials. */
  lemma CompositeRefusesOthers(w: World, secret: string, r: Request)
    requires BearerToken(r.authorization).None?
    ensures Composite(w, Bearers(secret), r) == NoCredentials
  {
    BearersInARow(w, secret, r);
    hide BearerToken, Composite, Bearers, Dots;
  }

  /** A cookie, if there is one, serves the subject it is signed for, if that user can act. */
  lemma SessionIff(w: World, secret: string, r: Request)
    ensures var answer := Authenticate(w, SessionAuthenticator(secret), r);
      var subject := w.subject(secret, r.cookie);
      && (answer == NoCredentials <==> r.cookie == "")
      && (answer.Authenticated? <==>
            r.cookie != "" && subject.Some? && subject.value != "" && CanAct(w, subject.value))
      && (answer.Authenticated? ==>
            IsUser(WithPrincipal(answer.principal, r.scope).identity, w, subject.value)
            && answer.principal.authn == "session" && answer.principal.scopedAccount == None)
  {
    hide BearerToken;
  }

  // ---- Minted keys ----

  function HexDigit(n: int): char
    requires 0 <= n < 16
  {
    "0123456789abcdef"[n]
  }

  function HexByte(b: byte): string {
    [HexDigit(b as int / 16), HexDigit(b as int % 16)]
  }

  /** `hex.EncodeToString`. */
  function Hex(bytes: seq<byte>): string {
    if bytes == [] then "" else HexByte(bytes[0]) + Hex(bytes[1..])
  }

  predicate IsHexDigit(c: char) {
    '0' <= c <= '9' || 'a' <= c <= 'f'
  }

  lemma DigitsAreHex(n: int)
    requires 0 <= n < 16
    ensures IsHexDigit(HexDigit(n))
  {
  }

  lemma {:induction false} HexIsHex(bytes: seq<byte>)
    ensures |Hex(bytes)| == 2 * |bytes| && IsHex(Hex(bytes))
  {
    if bytes != [] {
      HexIsHex(bytes[1..]);
      DigitsAreHex(bytes[0] as int / 16);
      DigitsAreHex(bytes[0] as int % 16);
      hide HexDigit;
      assert forall i :: 0 <= i < |Hex(bytes)| ==> IsHexDigit(Hex(bytes)[i]);
    }
  }

  lemma DigitValue(c: char) returns (n: int)
    requires IsHexDigit(c)
    ensures 0 <= n < 16 && HexDigit(n) == c
  {
    n := if c <= '9' then c as int - '0' as int else c as int - 'a' as int + 10;
  }

  lemma ByteOfDigits(high: char, low: char) returns (b: byte)
    requires IsHexDigit(high) && IsHexDigit(low)
    ensures HexByte(b) == [high, low]
  {
    var h := DigitValue(high);
    var l := DigitValue(low);
    hide HexDigit, IsHexDigit;
    assert (h * 16 + l) / 16 == h && (h * 16 + l) % 16 == l;
    b := (h * 16 + l) as byte;
  }

  lemma {:induction false} HexDecodes(s: string) returns (bytes: seq<byte>)
    requires IsHex(s) && |s| % 2 == 0
    ensures Hex(bytes) == s
  {
    if s == "" {
      bytes := [];
    } else {
      var b := ByteOfDigits(s[0], s[1]);
      var rest := HexDecodes(s[2..]);
      bytes := [b] + rest;
      hide HexByte;
      assert bytes[1..] == rest && s == [s[0], s[1]] + s[2..];
    }
  }

  /** A key is minted exactly when it is the prefix and 32 bytes in hexadecimal. */
  lemma MintedIff(token: string)
    ensures IsMinted(token) <==> exists bytes: seq<byte> :: |bytes| == 32 && token == "notalk_" + Hex(bytes)
  {
    hide Hex, IsHex;
    if IsMinted(token) {
      var bytes := HexDecodes(token[7..]);
      HexIsHex(bytes);
      assert token == "notalk_" + Hex(bytes);
    }
    forall bytes: seq<byte> | |bytes| == 32 && token == "notalk_" + Hex(bytes)
      ensures IsMinted(token)
    {
      HexIsHex(bytes);
      assert token[..7] == "notalk_" && token[7..] == Hex(bytes);
    }
  }
}

/** The web app's NextAuth configuration: which OAuth providers are
    registered from the environment, and the `authorized`, `signIn`, `jwt`
    and `session` callbacks. The providers themselves, the adapter and
    nanoid are outside the model; a fresh id is a parameter. */
module AuthConfig {
  import opened Js

  /** The process.env variables the configuration reads. */
  datatype EnvVar =
    | ClientId(provider: ProviderKind)
    | ClientSecret(provider: ProviderKind)
    | MicrosoftTenantId

  /** Each variable's name in process.env. */
  function VarName(v: EnvVar): string {
    match v
    case ClientId(Google) => "GOOGLE_CLIENT_ID"
    case ClientSecret(Google) => "GOOGLE_CLIENT_SECRET"
    case ClientId(GitHub) => "GITHUB_CLIENT_ID"
    case ClientSecret(GitHub) => "GITHUB_CLIENT_SECRET"
    case ClientId(Apple) => "APPLE_CLIENT_ID"
    case ClientSecret(Apple) => "APPLE_CLIENT_SECRET"
    case ClientId(AzureAD) => "MICROSOFT_CLIENT_ID"
    case ClientSecret(AzureAD) => "MICROSOFT_CLIENT_SECRET"
    case MicrosoftTenantId => "MICROSOFT_TENANT_ID"
  }

  /** The variables that are set, with their values. */
  type Env = map<EnvVar, string>

  /** `process.env[name]` is truthy: set and not empty. */
  predicate EnvSet(env: Env, v: EnvVar) {
    v in env && env[v] != ""
  }

  datatype ProviderKind = Google | GitHub | Apple | AzureAD

  datatype Provider = Provider(kind: ProviderKind, clientId: string, clientSecret: string, tenantId: Option<string>)

  predicate Configured(env: Env, k: ProviderKind) {
    EnvSet(env, ClientId(k)) && EnvSet(env, ClientSecret(k))
  }

  /** The position of a provider in the registration order. */
  function Rank(k: ProviderKind): nat {
    match k
    case Google => 0
    case GitHub => 1
    case Apple => 2
    case AzureAD => 3
  }

  /** What a registered provider is built from: its two variables, and for
      Microsoft the tenant, "common" unless MICROSOFT_TENANT_ID is set. */
  predicate BuiltFrom(env: Env, p: Provider) {
    && Configured(env, p.kind)
    && p.clientId == env[ClientId(p.kind)] && p.clientSecret == env[ClientSecret(p.kind)]
    && p.tenantId == (if p.kind == AzureAD then
                        Some(if EnvSet(env, MicrosoftTenantId) then env[MicrosoftTenantId] else "common")
                      else None)
  }

  /** The provider a configured kind is built as. */
  function Build(env: Env, k: ProviderKind): (p: Provider)
    requires Configured(env, k)
    ensures BuiltFrom(env, p) && p.kind == k
  {
    var tenant := if k == AzureAD then
      Some(if EnvSet(env, MicrosoftTenantId) then env[MicrosoftTenantId] else "common")
    else None;
    Provider(k, env[ClientId(k)], env[ClientSecret(k)], tenant)
  }

  /** What the `if (ID && SECRET) providers.push(...)` blocks for `kinds`
      add, in order. */
  function ProvidersOf(env: Env, kinds: seq<ProviderKind>): seq<Provider>
    decreases |kinds|
  {
    if kinds == [] then []
    else (if Configured(env, kinds[0]) then [Build(env, kinds[0])] else []) + ProvidersOf(env, kinds[1..])
  }

  /** The order of the four blocks. */
  const Order := [Google, GitHub, Apple, AzureAD]

  /** The providers array. */
  function Providers(env: Env): seq<Provider> {
    ProvidersOf(env, Order)
  }

  /** One `if (ID && SECRET) providers.push(...)` block. */
  method PushIfConfigured(providers: seq<Provider>, env: Env, k: ProviderKind) returns (after: seq<Provider>)
    ensures after == providers + ProvidersOf(env, [k])
  {
    after := providers;
    if Configured(env, k) {
      after := after + [Build(env, k)];
    }
    assert [k][1..] == [];
  }

  /** The module-level code that fills the providers array. */
  method BuildProviders(env: Env) returns (providers: seq<Provider>)
    ensures providers == Providers(env)
  {
    providers := PushIfConfigured([], env, Google);
    providers := PushIfConfigured(providers, env, GitHub);
    providers := PushIfConfigured(providers, env, Apple);
    providers := PushIfConfigured(providers, env, AzureAD);
    OrderUnfolds(env);
  }

  lemma OrderUnfolds(env: Env)
    ensures Providers(env) ==
      [] + ProvidersOf(env, [Google]) + ProvidersOf(env, [GitHub]) + ProvidersOf(env, [Apple]) + ProvidersOf(env, [AzureAD])
  {
    var g, h, a, m := ProvidersOf(env, [Google]), ProvidersOf(env, [GitHub]), ProvidersOf(env, [Apple]), ProvidersOf(env, [AzureAD]);
    calc {
      Providers(env);
      { assert Order == [Google] + [GitHub, Apple, AzureAD]; ProvidersCons(env, Google, [GitHub, Apple, AzureAD]); }
      g + ProvidersOf(env, [GitHub, Apple, AzureAD]);
      { assert [GitHub, Apple, AzureAD] == [GitHub] + [Apple, AzureAD]; ProvidersCons(env, GitHub, [Apple, AzureAD]); }
      g + (h + ProvidersOf(env, [Apple, AzureAD]));
      { assert [Apple, AzureAD] == [Apple] + [AzureAD]; ProvidersCons(env, Apple, [AzureAD]); }
      g + (h + (a + m));
      [] + g + h + a + m;
    }
  }

  /** The blocks of a list of kinds are the first block and then the rest. */
  lemma ProvidersCons(env: Env, k: ProviderKind, ks: seq<ProviderKind>)
    ensures ProvidersOf(env, [k] + ks) == ProvidersOf(env, [k]) + ProvidersOf(env, ks)
  {
    assert ([k] + ks)[0] == k && ([k] + ks)[1..] == ks && [k][1..] == [];
  }

  predicate Increasing(kinds: seq<ProviderKind>) {
    forall i, j :: 0 <= i < j < |kinds| ==> Rank(kinds[i]) < Rank(kinds[j])
  }

  /** Every registered provider is built from the environment, and comes
      from one of the blocks. */
  lemma {:induction false} ProvidersBuilt(env: Env, kinds: seq<ProviderKind>)
    ensures |ProvidersOf(env, kinds)| <= |kinds|
    ensures forall p :: p in ProvidersOf(env, kinds) ==> BuiltFrom(env, p) && p.kind in kinds
    decreases |kinds|
  {
    if kinds != [] {
      ProvidersBuilt(env, kinds[1..]);
    }
  }

  /** Blocks in increasing order register providers in increasing order. */
  lemma {:induction false} ProvidersInOrder(env: Env, kinds: seq<ProviderKind>)
    requires Increasing(kinds)
    ensures forall i, j :: 0 <= i < j < |ProvidersOf(env, kinds)| ==>
      Rank(ProvidersOf(env, kinds)[i].kind) < Rank(ProvidersOf(env, kinds)[j].kind)
    decreases |kinds|
  {
    if kinds != [] {
      var rest := ProvidersOf(env, kinds[1..]);
      ProvidersInOrder(env, kinds[1..]);
      ProvidersBuilt(env, kinds[1..]);
      if Configured(env, kinds[0]) {
        var ps := [Build(env, kinds[0])] + rest;
        assert ps == ProvidersOf(env, kinds);
        forall j | 0 < j < |ps| ensures Rank(ps[0].kind) < Rank(ps[j].kind) {
          assert ps[j] == rest[j - 1] && rest[j - 1] in rest;
          var m :| 0 <= m < |kinds[1..]| && kinds[1..][m] == rest[j - 1].kind;
          assert kinds[m + 1] == rest[j - 1].kind;
        }
      }
    }
  }

  /** A kind's provider is registered exactly when its block is there and
      both its variables are set. */
  lemma {:induction false} ProvidersPresent(env: Env, kinds: seq<ProviderKind>, k: ProviderKind)
    ensures (k in kinds && Configured(env, k)) <==> exists p :: p in ProvidersOf(env, kinds) && p.kind == k
    decreases |kinds|
  {
    if kinds != [] {
      var rest := ProvidersOf(env, kinds[1..]);
      ProvidersPresent(env, kinds[1..], k);
      var head := if Configured(env, kinds[0]) then [Build(env, kinds[0])] else [];
      var ps := head + rest;
      assert ps == ProvidersOf(env, kinds);
      assert kinds == [kinds[0]] + kinds[1..];
      if k == kinds[0] && Configured(env, k) {
        assert ps[0].kind == k && ps[0] in ps;
      }
      if exists p :: p in rest && p.kind == k {
        var p :| p in rest && p.kind == k;
        assert p in ps;
      }
    }
  }

  /** A provider is registered exactly when both its client id and its
      secret are set, at most once, built from those values; the order is
      Google, GitHub, Apple, Microsoft. */
  lemma ProvidersRegistered(env: Env)
    ensures |Providers(env)| <= 4
    ensures forall p :: p in Providers(env) ==> BuiltFrom(env, p)
    ensures forall i, j :: 0 <= i < j < |Providers(env)| ==> Rank(Providers(env)[i].kind) < Rank(Providers(env)[j].kind)
    ensures forall k :: Configured(env, k) <==> exists p :: p in Providers(env) && p.kind == k
  {
    var o := Order;
    assert Increasing(o);
    ProvidersBuilt(env, o);
    ProvidersInOrder(env, o);
    forall k ensures Configured(env, k) <==> exists p :: p in Providers(env) && p.kind == k {
      assert o[Rank(k)] == k;
      ProvidersPresent(env, o, k);
    }
  }

  // ---------------------------------------------------------------------
  // authorized

  /** `request.nextUrl` */
  datatype NextUrl = NextUrl(origin: string, pathname: string)

  /** What `authorized` returns: true, false (which sends the visitor to the
      sign-in page), or a redirect response. */
  datatype Authorization = Allow | Deny | Redirect(location: string)

  /** authorized; `loggedIn` is `!!auth?.user`. */
  function Authorized(loggedIn: bool, nextUrl: NextUrl): Authorization {
    if StartsWith(nextUrl.pathname, "/dashboard") then
      if loggedIn then Allow else Deny
    else if loggedIn && StartsWith(nextUrl.pathname, "/signin") then
      Redirect(nextUrl.origin + "/")
    else Allow
  }

  /** The dashboard is open exactly to signed-in users; a signed-in user on
      the sign-in page is sent home; nothing else is ever refused. */
  lemma AuthorizedCases(loggedIn: bool, nextUrl: NextUrl)
    ensures StartsWith(nextUrl.pathname, "/dashboard") ==> (Authorized(loggedIn, nextUrl) == Allow <==> loggedIn)
    ensures Authorized(loggedIn, nextUrl) == Deny <==> StartsWith(nextUrl.pathname, "/dashboard") && !loggedIn
    ensures Authorized(loggedIn, nextUrl).Redirect? <==> loggedIn && StartsWith(nextUrl.pathname, "/signin")
    ensures Authorized(loggedIn, nextUrl).Redirect? ==> Authorized(loggedIn, nextUrl).location == nextUrl.origin + "/"
  {
    DashboardIsNotSignin(nextUrl.pathname);
  }

  lemma DashboardIsNotSignin(p: string)
    ensures !(StartsWith(p, "/dashboard") && StartsWith(p, "/signin"))
  {
    if StartsWith(p, "/dashboard") {
      assert p[1] == 'd' by {
        assert p[..10][1] == p[1];
      }
      if |p| >= 7 {
        assert p[..7][1] == 'd';
      }
    }
  }

  // ---------------------------------------------------------------------
  // signIn, jwt, session

  /** `user?.id` is truthy. */
  predicate HasId(id: Option<string>) {
    id.Some? && id.value != ""
  }

  /** The user object signIn receives (and may give an id). */
  class SignInUser {
    var id: Option<string>

    constructor(id: Option<string>)
      ensures this.id == id
    {
      this.id := id;
    }
  }

  /** signIn: always allows the sign-in; a user without an id gets the
      fresh one, and an id already there is kept. */
  method SignIn(user: SignInUser?, freshId: string) returns (allowed: bool)
    modifies user
    ensures allowed
    ensures user != null && HasId(old(user.id)) ==> user.id == old(user.id)
    ensures user != null && !HasId(old(user.id)) ==> user.id == Some(freshId)
  {
    if user != null && !HasId(user.id) {
      user.id := Some(freshId);
    }
    allowed := true;
  }

  /** The JWT the callbacks carry between requests. */
  class Token {
    var id: Option<string>
    var accessToken: Option<string>

    constructor(id: Option<string>, accessToken: Option<string>)
      ensures this.id == id && this.accessToken == accessToken
    {
      this.id := id;
      this.accessToken := accessToken;
    }
  }

  /** The OAuth account of a fresh sign-in; its access token may be absent. */
  datatype Account = Account(accessToken: Option<string>)

  /** jwt: token.id becomes the user's id whenever the user has one and is
      kept otherwise; the second `!token.id && user?.id` check can then
      never change anything. The account's access token, present or
      not, replaces the old one when an account is given. */
  method Jwt(token: Token, userId: Option<string>, account: Option<Account>) returns (result: Token)
    modifies token
    ensures result == token
    ensures token.id == if HasId(userId) then userId else old(token.id)
    ensures token.accessToken == if account.Some? then account.value.accessToken else old(token.accessToken)
  {
    if HasId(userId) {
      token.id := userId;
    }
    if account.Some? {
      token.accessToken := account.value.accessToken;
    }
    if !HasId(token.id) && HasId(userId) {
      // the source assigns user.id again here; the first check already did
      assert false;
    }
    result := token;
  }

  class SessionUser {
    var id: string

    constructor(id: string)
      ensures this.id == id
    {
      this.id := id;
    }
  }

  class Session {
    var user: SessionUser?

    constructor(user: SessionUser?)
      ensures this.user == user
    {
      this.user := user;
    }
  }

  /** `(token?.id as string) || user?.id || ""` */
  function SessionId(tokenId: Option<string>, userId: Option<string>): (id: string)
    ensures id != "" <==> HasId(tokenId) || HasId(userId)
    ensures HasId(tokenId) ==> id == tokenId.value
    ensures !HasId(tokenId) && HasId(userId) ==> id == userId.value
  {
    if HasId(tokenId) then tokenId.value
    else if HasId(userId) then userId.value
    else ""
  }

  /** session: when the session has a user, its id is set from the token,
      else from the database user, else to ""; nothing else changes. */
  method SessionCallback(session: Session?, tokenId: Option<string>, userId: Option<string>) returns (result: Session?)
    modifies if session != null && session.user != null then {session.user} else {}
    ensures result == session
    ensures session != null && session.user != null ==> session.user.id == SessionId(tokenId, userId)
  {
    if session != null && session.user != null {
      session.user.id := SessionId(tokenId, userId);
    }
    result := session;
  }
}

/**
 The OAuth grant types of an agent: client credentials for every client with a secret, and for a delegated agent at
 least one grant that lets it act for a user. What is stored has passed the inbound client service's rules.
 */
module GrantTypes {
  import opened Wrappers

  datatype Grant =
    | ClientCredentials | AuthorizationCode | RefreshToken | Ciba | TokenExchange | DeviceCode | JwtBearer
    | OtherGrant(name: string)

  const DEFAULT_GRANTS: seq<Grant> := [ClientCredentials]

  /** The grants that let an agent act for a user. */
  const DELEGATION_GRANTS: set<Grant> := {AuthorizationCode, Ciba, TokenExchange, JwtBearer}

  const DEFAULT_DELEGATED_GRANTS: seq<Grant> := [AuthorizationCode, RefreshToken]

  /** The grants that can issue a refresh token. */
  const REFRESHABLE_GRANTS: set<Grant> := {AuthorizationCode, Ciba, DeviceCode}

  const NO_AUTHENTICATION := "none"
  const CLIENT_SECRET_BASIC := "client_secret_basic"
  const CLIENT_SECRET_POST := "client_secret_post"
  const PRIVATE_KEY_JWT := "private_key_jwt"
  const AUTH_METHODS: set<string> := {CLIENT_SECRET_BASIC, CLIENT_SECRET_POST, PRIVATE_KEY_JWT, NO_AUTHENTICATION}
  const CODE := "code"

  /**
   The OAuth settings of a request: `redirects` and `certificate` say whether it names any, and `rest` stands for every
   setting these rules do not look at.
   */
  datatype OAuthConfig = OAuthConfig(
    publicClient: bool, authMethod: string, grants: seq<Grant>, responseTypes: seq<string>, pkceRequired: bool,
    redirects: bool, certificate: bool, rest: string)

  const EMPTY_CONFIG := OAuthConfig(false, "", [], [], false, false, false, "")

  /** An inbound authentication entry of a request; entries of other protocols carry no OAuth configuration. */
  datatype Inbound = Inbound(isOAuth: bool, config: Option<OAuthConfig>, rest: string)

  /** None stands for the error that no requested grant acts for a user. */
  type Resolution = Option<seq<Inbound>>

  predicate IsPublic(c: OAuthConfig) {
    c.publicClient || c.authMethod == NO_AUTHENTICATION
  }

  /** The position of the first OAuth entry, the number of entries when there is none. */
  function OAuthIndex(configs: seq<Inbound>): (i: nat)
    ensures i <= |configs| && (i < |configs| ==> configs[i].isOAuth)
    ensures forall j :: 0 <= j < i ==> !configs[j].isOAuth
  {
    if configs == [] || configs[0].isOAuth then 0 else
    var i := OAuthIndex(configs[1..]);
    assert forall j :: 0 < j < i + 1 ==> configs[j] == configs[1..][j - 1];
    i + 1
  }

  predicate HasOnlyClientCredentials(grants: seq<Grant>) {
    forall g <- grants :: g == ClientCredentials
  }

  predicate ActsForUser(grants: seq<Grant>) {
    exists g <- grants :: g in DELEGATION_GRANTS
  }

  function WithDefaults(c: OAuthConfig): OAuthConfig {
    if ClientCredentials !in c.grants && !IsPublic(c) then c.(grants := DEFAULT_GRANTS + c.grants) else c
  }

  /** The authorization code flow a delegated agent gets when it asks for nothing else. */
  function WithDelegation(c: OAuthConfig): OAuthConfig {
    c.(grants := c.grants + DEFAULT_DELEGATED_GRANTS,
       responseTypes := (if c.responseTypes == [] then [CODE] else c.responseTypes),
       pkceRequired := true)
  }

  function ResolveConfig(c: OAuthConfig, delegated: bool): Option<OAuthConfig> {
    var d := WithDefaults(c);
    if !delegated then Some(d)
    else if HasOnlyClientCredentials(d.grants) then Some(WithDelegation(d))
    else if ActsForUser(d.grants) then Some(d)
    else None
  }

  /** The entry that is resolved; an agent that needs a client and asks for none gets one at the end. */
  function Requested(configs: seq<Inbound>): OAuthConfig {
    var i := OAuthIndex(configs);
    if i < |configs| && configs[i].config.Some? then configs[i].config.value else EMPTY_CONFIG
  }

  function Resolve(configs: seq<Inbound>, delegated: bool): Resolution {
    var i := OAuthIndex(configs);
    if i == |configs| && !delegated then Some(configs) else
    match ResolveConfig(Requested(configs), delegated)
    case None => None
    case Some(c) =>
      Some(if i == |configs| then configs + [Inbound(true, Some(c), "")]
          else configs[i := configs[i].(config := Some(c))])
  }

  // What resolution does

  /**
   Client credentials come first for a confidential client that does not name them; a delegated agent that names nothing
   else gets the authorization code flow, and one that names nothing that acts for a user is refused.
   */
  lemma ResolvedExactly(c: OAuthConfig, delegated: bool)
    ensures var confidential := !c.publicClient && c.authMethod != "none";
            var added := confidential && ClientCredentials !in c.grants;
            var given := (if added then [ClientCredentials] else []) + c.grants;
            var asks := exists g <- c.grants :: g != ClientCredentials;
            var acts := exists g <- c.grants :: g in {AuthorizationCode, Ciba, TokenExchange, JwtBearer};
            ResolveConfig(c, delegated) ==
            if delegated && !asks then
              Some(c.(grants := given + [AuthorizationCode, RefreshToken],
                      responseTypes := (if c.responseTypes == [] then ["code"] else c.responseTypes),
                      pkceRequired := true))
            else if delegated && !acts then None
            else Some(c.(grants := given))
  {
    var d := WithDefaults(c);
    if d != c {
      assert d.grants == [ClientCredentials] + c.grants;
      assert forall g :: g in d.grants <==> g == ClientCredentials || g in c.grants;
    } else {
      assert [] + c.grants == c.grants;
    }
  }

  /** The first OAuth entry is resolved in place; without one a delegated agent gets an entry of its own. */
  lemma ResolvedEntries(configs: seq<Inbound>, delegated: bool, i: nat)
    requires i <= |configs| && forall j :: 0 <= j < i ==> !configs[j].isOAuth
    requires i < |configs| ==> configs[i].isOAuth
    ensures var asked := if i < |configs| && configs[i].config.Some? then configs[i].config.value
                         else OAuthConfig(false, "", [], [], false, false, false, "");
            var config := ResolveConfig(asked, delegated);
            Resolve(configs, delegated) ==
            if i == |configs| && !delegated then Some(configs)
            else if config.None? then None
            else if i == |configs| then Some(configs + [Inbound(true, config, "")])
            else Some(configs[i := Inbound(true, config, configs[i].rest)])
  {
    if i < |configs| {
      IndexOfPrefix(configs, i);
    } else {
      assert OAuthIndex(configs) == |configs|;
    }
  }

  // What resolution promises

  lemma {:induction false} IndexOfPrefix(configs: seq<Inbound>, i: nat)
    requires i < |configs| && configs[i].isOAuth && forall j :: 0 <= j < i ==> !configs[j].isOAuth
    ensures OAuthIndex(configs) == i
  {
    var k := OAuthIndex(configs);
    assert k < |configs| ==> configs[k].isOAuth;
  }

  lemma ConfigIsIdempotent(c: OAuthConfig, delegated: bool)
    ensures var r := ResolveConfig(c, delegated); r.Some? ==> ResolveConfig(r.value, delegated) == r
  {
    var d := WithDefaults(c);
    if ClientCredentials !in c.grants && !IsPublic(c) { assert d.grants[0] == ClientCredentials; }
    if delegated && HasOnlyClientCredentials(d.grants) {
      var e := WithDelegation(d);
      assert e.grants[|d.grants|] == AuthorizationCode;
      assert AuthorizationCode in e.grants && AuthorizationCode in DELEGATION_GRANTS;
      assert ClientCredentials in d.grants ==> ClientCredentials in e.grants;
    }
  }

  /** Resolving again changes nothing. */
  lemma ResolveIsIdempotent(configs: seq<Inbound>, delegated: bool)
    requires Resolve(configs, delegated).Some?
    ensures Resolve(Resolve(configs, delegated).value, delegated) == Resolve(configs, delegated)
  {
    var i := OAuthIndex(configs);
    if i < |configs| || delegated {
      var resolved := Resolve(configs, delegated).value;
      ConfigIsIdempotent(Requested(configs), delegated);
      IndexOfPrefix(resolved, i);
      assert resolved[i := resolved[i].(config := resolved[i].config)] == resolved;
    }
  }

  /** What a config keeps: every grant asked for, in place, and every setting but the two the defaults set up. */
  ghost predicate Extends(r: OAuthConfig, c: OAuthConfig) {
    && (exists before, after :: r.grants == before + c.grants + after)
    && r.publicClient == c.publicClient && r.authMethod == c.authMethod
    && r.redirects == c.redirects && r.certificate == c.certificate && r.rest == c.rest
    && (c.responseTypes != [] ==> r.responseTypes == c.responseTypes)
    && (c.pkceRequired ==> r.pkceRequired)
  }

  lemma ConfigExtends(c: OAuthConfig, delegated: bool)
    requires ResolveConfig(c, delegated).Some?
    ensures Extends(ResolveConfig(c, delegated).value, c)
  {
    var r := ResolveConfig(c, delegated).value;
    var d := WithDefaults(c);
    var before := if d == c then [] else DEFAULT_GRANTS;
    var after := if r == d then [] else DEFAULT_DELEGATED_GRANTS;
    assert d.grants == before + c.grants;
    assert r.grants == before + c.grants + after;
  }

  /** Every entry but the first OAuth one stays, and that one keeps what it asked for. */
  lemma ResolveKeepsTheRest(configs: seq<Inbound>, delegated: bool)
    requires Resolve(configs, delegated).Some? && Resolve(configs, delegated).value != configs
    ensures var r, i := Resolve(configs, delegated).value, OAuthIndex(configs);
            && i < |r| && |r| <= |configs| + 1
            && (forall j :: 0 <= j < |configs| && j != i ==> r[j] == configs[j])
            && r[i].isOAuth && r[i].config.Some? && Extends(r[i].config.value, Requested(configs))
            && (i < |configs| ==> |r| == |configs| && r[i].rest == configs[i].rest)
  {
    ConfigExtends(Requested(configs), delegated);
  }

  /**
   It fails exactly for a delegated agent that asks for more than client credentials but nothing that acts for a user.
   */
  lemma ResolveFailsExactly(configs: seq<Inbound>, delegated: bool)
    ensures Resolve(configs, delegated).None? <==>
            delegated && !HasOnlyClientCredentials(Requested(configs).grants) && !ActsForUser(Requested(configs).grants)
  {
    var c := Requested(configs);
    var d := WithDefaults(c);
    if d != c {
      assert d.grants == [ClientCredentials] + c.grants;
      assert forall g :: g in d.grants <==> g == ClientCredentials || g in c.grants;
    }
  }

  // The profile that is built

  function OAuthCount(configs: seq<Inbound>): nat {
    if configs == [] then 0 else (if configs[0].isOAuth then 1 else 0) + OAuthCount(configs[1..])
  }

  lemma {:induction false} CountFromIndex(configs: seq<Inbound>)
    ensures OAuthIndex(configs) == |configs| <==> OAuthCount(configs) == 0
  {
    if configs != [] && !configs[0].isOAuth { CountFromIndex(configs[1..]); }
  }

  lemma {:induction false} CountAppends(a: seq<Inbound>, b: seq<Inbound>)
    ensures OAuthCount(a + b) == OAuthCount(a) + OAuthCount(b)
  {
    if a == [] {
      assert a + b == b;
    } else {
      CountAppends(a[1..], b);
      assert (a + b)[1..] == a[1..] + b;
    }
  }

  /** The one OAuth configuration of a request; more than one OAuth entry is an error. */
  method PickOAuthConfig(configs: seq<Inbound>) returns (found: Option<OAuthConfig>, ambiguous: bool)
    ensures ambiguous <==> OAuthCount(configs) > 1
    ensures !ambiguous ==> found == Picked(configs)
    ensures ambiguous ==> found == None
  {
    found, ambiguous := None, false;
    var seen := false;
    var i := 0;
    while i < |configs|
      invariant 0 <= i <= |configs|
      invariant OAuthCount(configs[..i]) == if seen then 1 else 0
      invariant seen <==> OAuthIndex(configs) < i
      invariant found == if seen then configs[OAuthIndex(configs)].config else None
    {
      CountAppends(configs[..i], [configs[i]]);
      assert configs[..i] + [configs[i]] == configs[..i + 1];
      assert [configs[i]][1..] == [];
      if configs[i].isOAuth {
        if seen {
          CountAppends(configs[..i + 1], configs[i + 1..]);
          assert configs == configs[..i + 1] + configs[i + 1..];
          return None, true;
        }
        seen := true;
        if configs[i].config.Some? { found := configs[i].config; }
      }
      i := i + 1;
    }
    assert configs[..i] == configs;
  }

  function Picked(configs: seq<Inbound>): Option<OAuthConfig> {
    var i := OAuthIndex(configs);
    if i == |configs| then None else configs[i].config
  }

  /** The profile built from a request: basic authentication and client credentials where it names nothing. */
  function BuildProfile(configs: seq<Inbound>): Option<OAuthConfig> {
    if OAuthCount(configs) > 1 then None
    else match Picked(configs)
      case None => None
      case Some(c) =>
        Some(c.(authMethod := (if c.authMethod == "" then CLIENT_SECRET_BASIC else c.authMethod),
                grants := (if c.grants == [] then DEFAULT_GRANTS else c.grants)))
  }

  lemma {:induction false} CountOfUpdate(configs: seq<Inbound>, i: nat, entry: Inbound)
    requires i < |configs| && configs[i].isOAuth && entry.isOAuth
    ensures OAuthCount(configs[i := entry]) == OAuthCount(configs)
  {
    if i > 0 {
      CountOfUpdate(configs[1..], i - 1, entry);
      assert configs[i := entry][1..] == configs[1..][i - 1 := entry];
    } else {
      assert configs[i := entry][1..] == configs[1..];
    }
  }

  lemma ResolvedCount(configs: seq<Inbound>, delegated: bool)
    requires Resolve(configs, delegated).Some?
    ensures OAuthCount(Resolve(configs, delegated).value)
            == if delegated && OAuthCount(configs) == 0 then 1 else OAuthCount(configs)
  {
    var i, r := OAuthIndex(configs), Resolve(configs, delegated).value;
    CountFromIndex(configs);
    if i < |configs| {
      CountOfUpdate(configs, i, r[i]);
    } else if delegated {
      CountAppends(configs, [r[i]]);
      assert r == configs + [r[i]] && [r[i]][1..] == [];
    }
  }

  lemma {:induction false} ResolvedConfig(configs: seq<Inbound>, delegated: bool)
    requires Resolve(configs, delegated).Some? && (delegated || OAuthIndex(configs) < |configs|)
    ensures Picked(Resolve(configs, delegated).value) == ResolveConfig(Requested(configs), delegated)
  {
    IndexOfPrefix(Resolve(configs, delegated).value, OAuthIndex(configs));
  }

  lemma DelegatedConfigActs(c: OAuthConfig)
    requires ResolveConfig(c, true).Some?
    ensures ActsForUser(ResolveConfig(c, true).value.grants)
  {
    var d := WithDefaults(c);
    if HasOnlyClientCredentials(d.grants) {
      var e := WithDelegation(d);
      assert e.grants[|d.grants|] == AuthorizationCode && AuthorizationCode in e.grants;
    }
  }

  lemma BuiltProfile(configs: seq<Inbound>, delegated: bool)
    requires Resolve(configs, delegated).Some? && OAuthCount(configs) <= 1 && (delegated || OAuthCount(configs) == 1)
    ensures var r := ResolveConfig(Requested(configs), delegated);
            r.Some? &&
            BuildProfile(Resolve(configs, delegated).value) ==
            Some(r.value.(authMethod := (if r.value.authMethod == "" then CLIENT_SECRET_BASIC else r.value.authMethod),
                          grants := (if r.value.grants == [] then DEFAULT_GRANTS else r.value.grants)))
  {
    CountFromIndex(configs);
    ResolvedCount(configs, delegated);
    ResolvedConfig(configs, delegated);
  }

  lemma {:induction false} CountIsOne(configs: seq<Inbound>, i: nat)
    requires i < |configs| && configs[i].isOAuth && forall j :: 0 <= j < |configs| && configs[j].isOAuth ==> j == i
    ensures OAuthCount(configs) == 1
  {
    if i > 0 {
      CountIsOne(configs[1..], i - 1);
    } else {
      assert forall j :: 0 <= j < |configs[1..]| ==> configs[1..][j] == configs[j + 1];
      NoneCounted(configs[1..]);
    }
  }

  lemma {:induction false} NoneCounted(configs: seq<Inbound>)
    requires forall j :: 0 <= j < |configs| ==> !configs[j].isOAuth
    ensures OAuthCount(configs) == 0
  {
    if configs != [] { NoneCounted(configs[1..]); }
  }

  /** From a request's one OAuth entry: basic authentication and client credentials where it names nothing. */
  lemma BuiltFromTheEntry(configs: seq<Inbound>, i: nat)
    requires i < |configs| && configs[i].isOAuth && forall j :: 0 <= j < |configs| && configs[j].isOAuth ==> j == i
    ensures BuildProfile(configs) ==
            if configs[i].config.None? then None
            else var c := configs[i].config.value;
                 Some(c.(authMethod := (if c.authMethod == "" then "client_secret_basic" else c.authMethod),
                         grants := (if c.grants == [] then [ClientCredentials] else c.grants)))
  {
    CountIsOne(configs, i);
    IndexOfPrefix(configs, i);
  }

  // The profile that is stored: the inbound client service's rules

  /** Grant types, response types and redirect URIs that go together. */
  predicate GrantRules(p: OAuthConfig) {
    && (AuthorizationCode in p.grants ==> p.redirects && CODE in p.responseTypes)
    && (forall g <- p.grants :: !g.OtherGrant?)
    && (forall t <- p.responseTypes :: t == CODE)
    && (p.grants == DEFAULT_GRANTS ==> p.responseTypes == [])
    && (RefreshToken in p.grants ==> exists g <- p.grants :: g in REFRESHABLE_GRANTS)
    && (p.pkceRequired ==> AuthorizationCode in p.grants)
    && (p.responseTypes != [] ==> AuthorizationCode in p.grants)
  }

  /** How the client authenticates; without authentication it has neither a secret nor a grant bound to one. */
  predicate AuthenticationRules(p: OAuthConfig, hasSecret: bool) {
    && p.authMethod in AUTH_METHODS
    && (p.authMethod == PRIVATE_KEY_JWT ==> p.certificate && !hasSecret)
    && (p.authMethod == NO_AUTHENTICATION ==>
          p.publicClient && !hasSecret && ClientCredentials !in p.grants && JwtBearer !in p.grants)
  }

  predicate PublicClientRules(p: OAuthConfig) {
    p.publicClient ==> p.authMethod == NO_AUTHENTICATION && p.pkceRequired
  }

  predicate Acceptable(p: OAuthConfig, hasSecret: bool) {
    GrantRules(p) && AuthenticationRules(p, hasSecret) && PublicClientRules(p)
  }

  /** Each way a profile can be refused; whatever shows none of them is accepted. */
  lemma RefusedExactly(p: OAuthConfig, hasSecret: bool)
    ensures !Acceptable(p, hasSecret) <==>
            || (exists g <- p.grants :: g.OtherGrant?)
            || (exists t <- p.responseTypes :: t != "code")
            || (AuthorizationCode in p.grants && (!p.redirects || "code" !in p.responseTypes))
            || (AuthorizationCode !in p.grants && (p.pkceRequired || p.responseTypes != []))
            || (p.grants == [ClientCredentials] && p.responseTypes != [])
            || (RefreshToken in p.grants
                && AuthorizationCode !in p.grants && Ciba !in p.grants && DeviceCode !in p.grants)
            || p.authMethod !in {"client_secret_basic", "client_secret_post", "private_key_jwt", "none"}
            || (p.authMethod == "private_key_jwt" && (!p.certificate || hasSecret))
            || (p.authMethod == "none" && (hasSecret || ClientCredentials in p.grants || JwtBearer in p.grants))
            || (p.publicClient && (p.authMethod != "none" || !p.pkceRequired))
            || (p.authMethod == "none" && !p.publicClient)
  {
  }

  /**
   The profile stored for a request, none when it is refused. `otherRules` is the verdict of the rules not modelled:
   deployment allow-lists, the form of URIs and certificates, token settings and client metadata documents.
   */
  function StoredProfile(configs: seq<Inbound>, delegated: bool, hasSecret: bool, otherRules: bool)
    : Option<OAuthConfig>
  {
    match Resolve(configs, delegated)
    case None => None
    case Some(resolved) =>
      match BuildProfile(resolved)
      case None => None
      case Some(p) => if Acceptable(p, hasSecret) && otherRules then Some(p) else None
  }

  lemma {:induction false} StoredIsBuilt(configs: seq<Inbound>, delegated: bool, hasSecret: bool, otherRules: bool)
    requires StoredProfile(configs, delegated, hasSecret, otherRules).Some?
    ensures OAuthCount(configs) <= 1 && (delegated || OAuthCount(configs) == 1)
  {
    CountFromIndex(configs);
    ResolvedCount(configs, delegated);
    if OAuthCount(configs) == 0 && !delegated { CountFromIndex(Resolve(configs, delegated).value); }
  }

  lemma ConfidentialHoldsClientCredentials(c: OAuthConfig, delegated: bool)
    requires ResolveConfig(c, delegated).Some? && !IsPublic(c)
    ensures ClientCredentials in ResolveConfig(c, delegated).value.grants
  {
    var d := WithDefaults(c);
    if ClientCredentials !in c.grants { assert d.grants[0] == ClientCredentials; }
  }

  /** A delegated agent is stored only with a grant that acts for a user. */
  lemma DelegatedProfileActs(configs: seq<Inbound>, hasSecret: bool, otherRules: bool)
    ensures var p := StoredProfile(configs, true, hasSecret, otherRules); p.Some? ==> ActsForUser(p.value.grants)
  {
    if StoredProfile(configs, true, hasSecret, otherRules).Some? {
      StoredIsBuilt(configs, true, hasSecret, otherRules);
      BuiltProfile(configs, true);
      DelegatedConfigActs(Requested(configs));
    }
  }

  /** Even before the rules, what is built for a delegated agent with at most one OAuth entry acts for a user. */
  lemma DelegatedIsBuiltToAct(configs: seq<Inbound>)
    requires Resolve(configs, true).Some? && OAuthCount(configs) <= 1
    ensures var p := BuildProfile(Resolve(configs, true).value); p.Some? && ActsForUser(p.value.grants)
  {
    BuiltProfile(configs, true);
    DelegatedConfigActs(Requested(configs));
  }

  /** A stored profile holds client credentials exactly if its client is not public. */
  lemma StoredHoldsClientCredentialsExactly(configs: seq<Inbound>, delegated: bool, hasSecret: bool, otherRules: bool)
    requires StoredProfile(configs, delegated, hasSecret, otherRules).Some?
    ensures var p := StoredProfile(configs, delegated, hasSecret, otherRules).value;
            && (ClientCredentials in p.grants <==> !p.publicClient)
            && (p.publicClient <==> IsPublic(Requested(configs)))
  {
    StoredIsBuilt(configs, delegated, hasSecret, otherRules);
    BuiltProfile(configs, delegated);
    ConfigExtends(Requested(configs), delegated);
    if !IsPublic(Requested(configs)) { ConfidentialHoldsClientCredentials(Requested(configs), delegated); }
  }

  /**
   A public client's request is built with client credentials if it names them, or if it names nothing and is not
   delegated.
   */
  lemma PublicIsBuiltWithClientCredentialsExactly(configs: seq<Inbound>, delegated: bool)
    requires Resolve(configs, delegated).Some? && OAuthCount(configs) == 1 && IsPublic(Requested(configs))
    ensures var c, p := Requested(configs), BuildProfile(Resolve(configs, delegated).value);
            p.Some? &&
            (ClientCredentials in p.value.grants <==> ClientCredentials in c.grants || (c.grants == [] && !delegated))
  {
    BuiltProfile(configs, delegated);
  }

  /** What a public client must look like, apart from the rule on client credentials. */
  predicate PublicButForClientCredentials(p: OAuthConfig, hasSecret: bool) {
    && GrantRules(p) && p.publicClient && p.authMethod == NO_AUTHENTICATION && p.pkceRequired
    && !hasSecret && JwtBearer !in p.grants
  }

  /**
   Exactly which requests of public clients are stored once they are resolved: those that meet every other rule, name
   no client credentials, and name another grant or are delegated.
   */
  lemma PublicIsStoredExactly(configs: seq<Inbound>, delegated: bool, hasSecret: bool, otherRules: bool)
    requires Resolve(configs, delegated).Some? && OAuthCount(configs) == 1 && IsPublic(Requested(configs))
    ensures var c, p := Requested(configs), BuildProfile(Resolve(configs, delegated).value);
            && p.Some?
            && (StoredProfile(configs, delegated, hasSecret, otherRules).Some? <==>
                otherRules && PublicButForClientCredentials(p.value, hasSecret)
                && ClientCredentials !in c.grants && (c.grants != [] || delegated))
  {
    BuiltProfile(configs, delegated);
    PublicIsBuiltWithClientCredentialsExactly(configs, delegated);
    ConfigExtends(Requested(configs), delegated);
  }

  // The code on the objects it works on

  /** The OAuth configuration of a request, an object its callers hold on to. */
  class ConfigObject {
    var publicClient: bool
    var authMethod: string
    var grants: seq<Grant>
    var responseTypes: seq<string>
    var pkceRequired: bool
    var redirects: bool
    var certificate: bool
    var rest: string

    function Value(): OAuthConfig
      reads this
    {
      OAuthConfig(publicClient, authMethod, grants, responseTypes, pkceRequired, redirects, certificate, rest)
    }

    constructor (c: OAuthConfig)
      ensures Value() == c
    {
      publicClient, authMethod, grants, responseTypes := c.publicClient, c.authMethod, c.grants, c.responseTypes;
      pkceRequired, redirects, certificate, rest := c.pkceRequired, c.redirects, c.certificate, c.rest;
    }
  }

  datatype Entry = Entry(isOAuth: bool, config: ConfigObject?, rest: string)

  function ConfigsOf(entries: seq<Entry>): set<ConfigObject> {
    set e <- entries | e.config != null :: e.config
  }

  function Shown(e: Entry): Inbound
    reads if e.config != null then {e.config} else {}
  {
    Inbound(e.isOAuth, if e.config == null then None else Some(e.config.Value()), e.rest)
  }

  /** The request as a value. */
  function View(entries: seq<Entry>): (v: seq<Inbound>)
    reads ConfigsOf(entries)
    ensures |v| == |entries| && forall i :: 0 <= i < |v| ==> v[i] == Shown(entries[i])
  {
    seq(|entries|, i requires 0 <= i < |entries| reads ConfigsOf(entries) => Shown(entries[i]))
  }

  lemma SameView(entries: seq<Entry>, v: seq<Inbound>)
    requires |v| == |entries| && forall i :: 0 <= i < |v| ==> v[i] == Shown(entries[i])
    ensures View(entries) == v
  {
  }

  lemma ResolvedAt(v: seq<Inbound>, i: nat, c: OAuthConfig, delegated: bool)
    requires i == OAuthIndex(v) && (i < |v| || delegated) && ResolveConfig(Requested(v), delegated) == Some(c)
    ensures Resolve(v, delegated)
            == Some(if i < |v| then v[i := Inbound(true, Some(c), v[i].rest)] else v + [Inbound(true, Some(c), "")])
  {
  }

  /** The copied entries with the resolved configuration in place are the resolved request. */
  lemma {:induction false} PlacedIsResolved(
      given: seq<Entry>, copied: seq<Entry>, i: nat, config: ConfigObject, delegated: bool)
    requires i == OAuthIndex(View(given)) && (i < |given| || delegated)
    requires copied == given + (if i == |given| then [Entry(true, null, "")] else [])
    requires ResolveConfig(Requested(View(given)), delegated) == Some(config.Value())
    ensures Resolve(View(given), delegated) == Some(View(copied[i := copied[i].(config := config)]))
  {
    var v, placed := View(given), copied[i := copied[i].(config := config)];
    ResolvedAt(v, i, config.Value(), delegated);
    SameView(placed, Resolve(v, delegated).value);
  }

  /** An agent being created; resolution works on copies and assigns the configuration only when it succeeds. */
  class Agent {
    var inboundAuthConfig: array<Entry>
    const delegated: bool

    constructor (configs: array<Entry>, delegated: bool)
      ensures inboundAuthConfig == configs && this.delegated == delegated
    {
      inboundAuthConfig := configs;
      this.delegated := delegated;
    }

    /** The position of the OAuth entry, the number of entries when there is none. */
    static method FindOAuth(configs: array<Entry>) returns (index: nat)
      ensures index == OAuthIndex(View(configs[..]))
    {
      index := 0;
      while index < configs.Length && !configs[index].isOAuth
        invariant index <= configs.Length
        invariant forall j :: 0 <= j < index ==> !configs[j].isOAuth
      {
        index := index + 1;
      }
      ghost var v := View(configs[..]);
      if index < configs.Length { IndexOfPrefix(v, index); }
    }

    /** A copy of the entries, with one more when there is no OAuth entry; the configurations are still shared. */
    static method CloneEntries(given: array<Entry>, index: nat) returns (configs: array<Entry>)
      requires index <= given.Length
      ensures fresh(configs)
      ensures configs[..] == given[..] + (if index == given.Length then [Entry(true, null, "")] else [])
    {
      var length := if index == given.Length then given.Length + 1 else given.Length;
      configs := new Entry[length](_ => Entry(true, null, ""));
      var i := 0;
      while i < given.Length
        invariant 0 <= i <= given.Length
        invariant configs[..i] == given[..i]
        invariant forall j :: i <= j < configs.Length ==> configs[j] == Entry(true, null, "")
      {
        configs[i] := given[i];
        i := i + 1;
      }
    }

    /** The configuration worked on: a copy, on which the defaults are set. */
    static method ResolveCopy(given: ConfigObject?, delegated: bool) returns (r: ConfigObject?)
      ensures r == null || fresh(r)
      ensures var c := if given == null then EMPTY_CONFIG else given.Value();
              (if r == null then None else Some(r.Value())) == ResolveConfig(c, delegated)
    {
      var config := new ConfigObject(if given == null then EMPTY_CONFIG else given.Value());
      var grants := config.grants;
      if ClientCredentials !in grants && !IsPublic(config.Value()) { grants := DEFAULT_GRANTS + grants; }
      if delegated {
        if HasOnlyClientCredentials(grants) {
          grants := grants + DEFAULT_DELEGATED_GRANTS;
          if config.responseTypes == [] { config.responseTypes := [CODE]; }
          config.pkceRequired := true;
        } else if !ActsForUser(grants) {
          return null;
        }
      }
      config.grants := grants;
      r := config;
    }

    /** Resolution once the OAuth entry is found or is to be added. */
    static method ResolveEntry(given: array<Entry>, index: nat, delegated: bool)
      returns (ok: bool, resolved: array<Entry>)
      requires index == OAuthIndex(View(given[..])) && (index < given.Length || delegated)
      ensures View(given[..]) == old(View(given[..]))
      ensures Resolve(old(View(given[..])), delegated) == if ok then Some(View(resolved[..])) else None
      ensures resolved == given || fresh(resolved)
    {
      ghost var entries, v := given[..], View(given[..]);
      var configs := CloneEntries(given, index);
      var config := ResolveCopy(configs[index].config, delegated);
      SameView(entries, v);
      if config == null { return false, given; }
      ghost var copied := configs[..];
      PlacedIsResolved(entries, copied, index, config, delegated);
      ghost var placed := copied[index := copied[index].(config := config)];
      ghost var r := View(placed);
      configs[index] := configs[index].(config := config);
      ok, resolved := true, configs;
      assert resolved[..] == placed && given[..] == entries;
      SameView(entries, v);
      SameView(placed, r);
    }

    /** Nothing the caller holds changes: neither its entries nor their configurations. */
    static method ResolveGrantTypes(given: array<Entry>, delegated: bool) returns (ok: bool, resolved: array<Entry>)
      ensures View(given[..]) == old(View(given[..]))
      ensures Resolve(old(View(given[..])), delegated) == if ok then Some(View(resolved[..])) else None
      ensures resolved == given || fresh(resolved)
    {
      var index := FindOAuth(given);
      if index == given.Length && !delegated { return true, given; }
      ok, resolved := ResolveEntry(given, index, delegated);
    }

    method ApplyGrantTypes() returns (ok: bool)
      modifies this`inboundAuthConfig
      ensures ok <==> Resolve(old(View(inboundAuthConfig[..])), delegated).Some?
      ensures ok ==> View(inboundAuthConfig[..]) == Resolve(old(View(inboundAuthConfig[..])), delegated).value
      ensures !ok ==> inboundAuthConfig == old(inboundAuthConfig)
    {
      ghost var was := Resolve(View(inboundAuthConfig[..]), delegated);
      var resolved;
      ok, resolved := ResolveGrantTypes(inboundAuthConfig, delegated);
      if !ok { return; }
      ghost var entries, r := resolved[..], View(resolved[..]);
      assert was == Some(r);
      inboundAuthConfig := resolved;
      assert forall i :: 0 <= i < |r| ==> r[i] == Shown(entries[i]);
      SameView(entries, r);
    }
  }
}

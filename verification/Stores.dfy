/**
 The stores the application service writes, seen as one value.

 Entities, inbound clients, sharing policies, dependents and localized keys live in different stores
 with no transaction across them. Tokens, revocation cutoffs and the clock belong to the token side:
 a token is revoked when its client id has a cutoff at or after its issue time.
 */
module Stores {
  import opened Wrappers

  datatype Category = Application | Agent | User

  datatype AuthMethod = ClientSecretBasic | ClientSecretPost | PrivateKeyJwt | NoAuthentication

  datatype OAuthProfile = OAuthProfile(publicClient: bool, authMethod: AuthMethod)

  /** The part of an entity these modules read: its client id is a system attribute, its secret a credential. */
  datatype Entity = Entity(category: Category, declared: bool, clientId: Option<string>, secret: Option<string>)

  /** An issued token names its application, the client id it was issued to and the secret it was obtained with. */
  datatype Token = Token(app: string, clientId: string, secret: Option<string>, issuedAt: nat)

  datatype Policy = Policy(id: string, app: string)

  datatype Dependent = Dependent(app: string, name: string, blocking: bool)

  datatype LocalizedKey = LocalizedKey(app: string, field: string)

  datatype Stores = Stores(
    entities: map<string, Entity>,
    clients: map<string, Option<OAuthProfile>>,
    policies: set<Policy>,
    dependents: set<Dependent>,
    keys: set<LocalizedKey>,
    tokens: set<Token>,
    cutoffs: map<string, nat>,
    now: nat,
    flowsOn: bool)

  const LOCALIZED_FIELDS: set<string> := {"name", "logo_uri", "tos_uri", "policy_uri"}

  /** Whether a client authenticating this way holds a client secret. */
  predicate UsesSecret(p: OAuthProfile) {
    !p.publicClient && p.authMethod != PrivateKeyJwt && p.authMethod != NoAuthentication
  }

  predicate ClientUsesSecret(s: Stores, id: string) {
    id in s.clients && s.clients[id].Some? && UsesSecret(s.clients[id].value)
  }

  predicate SecretStored(s: Stores, id: string) {
    id in s.entities && s.entities[id].secret.Some?
  }

  predicate Revoked(s: Stores, t: Token) {
    t.clientId in s.cutoffs && t.issuedAt <= s.cutoffs[t.clientId]
  }

  /** The application of the token still exists and still holds the client id the token was issued to. */
  predicate Held(s: Stores, t: Token) {
    t.app in s.entities && s.entities[t.app].clientId == Some(t.clientId)
  }

  predicate SharedWith(s: Stores, id: string) {
    exists p :: p in s.policies && p.app == id
  }

  predicate Blocked(s: Stores, id: string) {
    exists d :: d in s.dependents && d.app == id && d.blocking
  }

  // Store calls

  function PutEntity(s: Stores, id: string, e: Entity): Stores {
    s.(entities := s.entities[id := e])
  }

  function DropEntity(s: Stores, id: string): Stores {
    s.(entities := s.entities - {id})
  }

  function PutClient(s: Stores, id: string, p: Option<OAuthProfile>): Stores {
    s.(clients := s.clients[id := p])
  }

  function DropClient(s: Stores, id: string): Stores {
    s.(clients := s.clients - {id})
  }

  function DropPolicies(s: Stores, id: string): Stores {
    s.(policies := set p | p in s.policies && p.app != id)
  }

  function DropDependents(s: Stores, id: string): Stores {
    s.(dependents := set d | d in s.dependents && d.app != id)
  }

  /** A cascade that stopped part of the way removed only the dependents its providers reached. */
  function DropSomeDependents(s: Stores, id: string, names: set<string>): Stores {
    s.(dependents := set d | d in s.dependents && !(d.app == id && d.name in names))
  }

  function DropKeys(s: Stores, id: string, fields: set<string>): Stores {
    s.(keys := set k | k in s.keys && !(k.app == id && k.field in fields))
  }

  /** The revocation upsert: a cutoff never moves back. */
  function AdvanceCutoff(s: Stores, clientId: string): Stores {
    var cutoff := if clientId in s.cutoffs && s.cutoffs[clientId] > s.now then s.cutoffs[clientId] else s.now;
    s.(cutoffs := s.cutoffs[clientId := cutoff])
  }

  /** A system flow that revokes what the plan names; with flows off, or nothing to revoke, it writes nothing. */
  function Revoke(s: Stores, plan: Option<string>): Stores {
    if s.flowsOn && plan.Some? then AdvanceCutoff(s, plan.value) else s
  }

  /** The token endpoint issues to a client whose entity, client id and OAuth profile are all there. */
  predicate CanIssue(s: Stores, id: string) {
    && id in s.entities && s.entities[id].clientId.Some?
    && id in s.clients && s.clients[id].Some?
    && (UsesSecret(s.clients[id].value) ==> s.entities[id].secret.Some?)
  }

  function IssuedToken(s: Stores, id: string): Token
    requires CanIssue(s, id)
  {
    var secret := if UsesSecret(s.clients[id].value) then s.entities[id].secret else None;
    Token(id, s.entities[id].clientId.value, secret, s.now)
  }

  /** Which clients hold a client secret: those that authenticate with it, in either way. */
  lemma SecretMethods(p: OAuthProfile)
    ensures UsesSecret(p) <==> !p.publicClient && p.authMethod in {ClientSecretBasic, ClientSecretPost}
  {
  }

  /** A revocation reaches exactly the tokens of the planned client id issued so far, and none issued later. */
  lemma RevokesExactly(s: Stores, plan: Option<string>, t: Token)
    ensures Revoked(Revoke(s, plan), t) <==>
            Revoked(s, t) || (s.flowsOn && plan == Some(t.clientId) && t.issuedAt <= s.now)
    ensures Revoke(s, plan) == s.(cutoffs := Revoke(s, plan).cutoffs)
  {
  }
}

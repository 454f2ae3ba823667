/**
 The application operations as sequences of store calls.

 A job is one operation in progress: what it still has to do, and what it learned on the way. StepJob makes
 its next store call; FailJob is that call answering with an error. Between two calls anything else may run.
 */
module ApplicationJobs {
  import opened Wrappers
  import opened Stores
  import opened ClientIds
  import opened GoText

  /** The OAuth part of a create or update request; "" leaves the client id or the secret to the service. */
  datatype OAuthRequest = OAuthRequest(clientId: string, secret: string, profile: OAuthProfile)

  /** Values the service generates when the request leaves them out. */
  datatype Generated = Generated(clientId: string, secret: string)

  /** What an update does with the client secret. */
  datatype SecretChange = Unchanged | Set | Rotated

  datatype Stage =
    | Load | Pre | Cascade | Policies | Client | Post | EntityRow | Keys
    | Attributes | Credentials | Compensate | Grant

  datatype Kind = Create | Update | Delete | Share | Regenerate

  /**
   One operation in progress. `request` and `generated` belong to a create, an update or a regeneration, `policy` and
   `own` to a share, which is `own` when the owning organization unit gives it; `change`, `ranPre` and `plan` are what
   an update or a delete has learned so far.
   */
  datatype Job = Job(
    kind: Kind,
    id: string,
    stage: Stage,
    request: Option<OAuthRequest>,
    generated: Generated,
    policy: string,
    own: bool,
    change: SecretChange,
    ranPre: bool,
    plan: Option<string>)

  const NOTHING_GENERATED := Generated("", "")

  function NewCreate(id: string, request: Option<OAuthRequest>, generated: Generated): Job {
    Job(Create, id, Load, request, generated, "", false, Unchanged, false, None)
  }

  function NewUpdate(id: string, request: Option<OAuthRequest>, generated: Generated): Job {
    Job(Update, id, Load, request, generated, "", false, Unchanged, false, None)
  }

  function NewDelete(id: string): Job {
    Job(Delete, id, Load, None, NOTHING_GENERATED, "", false, Unchanged, false, None)
  }

  function NewShare(id: string, policy: string, own: bool): Job {
    Job(Share, id, Load, None, NOTHING_GENERATED, policy, own, Unchanged, false, None)
  }

  function NewRegenerate(id: string, generated: Generated): Job {
    Job(Regenerate, id, Load, None, generated, "", false, Unchanged, false, None)
  }

  /** The jobs a caller can start: at their first call, with nothing learned yet. */
  predicate Fresh(j: Job) {
    j.stage == Load && j.change == Unchanged && !j.ranPre && j.plan.None?
  }

  /** NotFoundNoop is a delete that found nothing to remove: a success without an audit event. */
  datatype Result = Succeeded | NotFoundNoop | Refused | Failed

  datatype Progress = Continue(job: Job) | Done(result: Result)

  /** Only white space, which the credential store refuses. */
  predicate Blank(text: string) {
    TrimSpace(text) == ""
  }

  // Secret decisions

  /** A basic or post client that names no secret keeps the one it has, or gets a generated one. */
  function ResolveSecret(request: OAuthRequest, current: Option<OAuthProfile>, generated: Generated): OAuthRequest {
    if request.profile.authMethod !in {ClientSecretBasic, ClientSecretPost} || request.secret != "" then request
    else if current.Some? && !current.value.publicClient
            && current.value.authMethod in {ClientSecretBasic, ClientSecretPost} then request
    else request.(secret := generated.secret)
  }

  /** What an update does with the supplied secret, comparing it with the stored one as the token endpoint would. */
  function Disposition(s: Stores, id: string, request: Option<OAuthRequest>): SecretChange
    requires id in s.entities
  {
    if request.None? || request.value.secret == "" || !UsesSecret(request.value.profile) then Unchanged
    else if !ClientUsesSecret(s, id) then Set
    else if s.entities[id].secret == Some(request.value.secret) then Unchanged
    else Rotated
  }

  /** The update writes the client secret as the entity's credential. */
  predicate WritesSecret(request: Option<OAuthRequest>, change: SecretChange) {
    request.Some? && UsesSecret(request.value.profile) && request.value.secret != "" && change != Unchanged
  }

  /** Rules of the inbound client service: a public client authenticates with none, and only a public client does. */
  predicate ValidProfile(request: OAuthRequest) {
    && (request.profile.publicClient <==> request.profile.authMethod == NoAuthentication)
    && (!UsesSecret(request.profile) ==> request.secret == "")
  }

  function NewProfile(request: Option<OAuthRequest>): Option<OAuthProfile> {
    if request.None? then None else Some(request.value.profile)
  }

  function NewClientId(request: Option<OAuthRequest>): Option<string> {
    if request.None? then None else Some(request.value.clientId)
  }

  function WithClientId(request: OAuthRequest, generated: Generated): OAuthRequest {
    if request.clientId == "" then request.(clientId := generated.clientId) else request
  }

  // Create: the entity, then the inbound client, and the entity removed again when that fails

  function StepCreate(s: Stores, j: Job): (Stores, Progress)
  {
    match j.stage
    case Load =>
      if j.request.None? then (s, Continue(j.(stage := EntityRow))) else
      var named := WithClientId(j.request.value, j.generated);
      if j.request.value.clientId != ""
          && IsTaken(s.entities, named.clientId, j.id) != Free then (s, Done(Refused)) else
      var request := ResolveSecret(named, None, j.generated);
      if !ValidProfile(request) then (s, Done(Refused))
      else (s, Continue(j.(request := Some(request), stage := EntityRow)))
    case EntityRow =>
      if j.id in s.entities then (s, Done(Refused)) else
      var secret := if j.request.Some? && j.request.value.secret != "" then Some(j.request.value.secret) else None;
      (PutEntity(s, j.id, Entity(Application, false, NewClientId(j.request), secret)), Continue(j.(stage := Client)))
    case Client =>
      if j.id in s.clients then (s, Continue(j.(stage := Compensate)))
      else (PutClient(s, j.id, NewProfile(j.request)), Done(Succeeded))
    case Compensate => (DropEntity(s, j.id), Done(Failed))
    case _ => (s, Done(Failed))
  }

  // Update: the inbound client, then the entity's attributes, then its credentials

  function StepUpdate(s: Stores, j: Job): (Stores, Progress)
  {
    match j.stage
    case Load => StepUpdateLoad(s, j)
    case Pre =>
      // The flow validates that the client has a secret to rotate, and plans against its current client id.
      if !s.flowsOn then (s, Continue(j.(stage := Client)))
      else if j.id !in s.entities || s.entities[j.id].clientId.None? || !ClientUsesSecret(s, j.id)
          then (s, Done(Refused))
      else
        var plan := s.entities[j.id].clientId;
        (Revoke(s, plan), Continue(j.(plan := plan, stage := Client)))
    case Client =>
      if j.id !in s.clients then (s, Done(Failed))
      else (PutClient(s, j.id, NewProfile(j.request)), Continue(j.(stage := Attributes)))
    case Attributes =>
      if j.id !in s.entities then (s, Done(Failed)) else
      var written := PutEntity(s, j.id, s.entities[j.id].(clientId := NewClientId(j.request)));
      (written, if WritesSecret(j.request, j.change) then Continue(j.(stage := Credentials)) else Done(Succeeded))
    case Credentials =>
      if j.id !in s.entities || j.request.None? || Blank(j.request.value.secret) then (s, Done(Failed)) else
      var written := PutEntity(s, j.id, s.entities[j.id].(secret := Some(j.request.value.secret)));
      (written, if j.change == Rotated then Continue(j.(stage := Post)) else Done(Succeeded))
    case Post => (Revoke(s, j.plan), Done(Succeeded))
    case _ => (s, Done(Failed))
  }

  function StepUpdateLoad(s: Stores, j: Job): (Stores, Progress)
  {
    if j.id !in s.entities || j.id !in s.clients || s.entities[j.id].category != Application then (s, Done(Refused))
    else if s.entities[j.id].declared then (s, Done(Refused))
    else if j.request.None? then (s, Continue(j.(stage := Client, change := Unchanged))) else
    // The current client id is read with the OAuth profile, and is empty without one.
    var current := if s.clients[j.id].Some? then s.entities[j.id].clientId else None;
    var named := WithClientId(j.request.value, j.generated);
    if j.request.value.clientId != "" && current != Some(named.clientId)
       && IsTaken(s.entities, named.clientId, j.id) != Free then (s, Done(Refused)) else
    var request := ResolveSecret(named, s.clients[j.id], j.generated);
    if !ValidProfile(request) then (s, Done(Refused)) else
    var change := Disposition(s, j.id, Some(request));
    (s, Continue(j.(request := Some(request), change := change, stage := if change == Rotated then Pre else Client)))
  }

  // Delete: dependents, sharing policies, the inbound client, the cutoff, the entity, the localized keys

  function StepDelete(s: Stores, j: Job): (Stores, Progress)
  {
    match j.stage
    case Load =>
      if j.id !in s.entities then (s, Continue(j.(stage := Cascade, ranPre := false)))
      else if s.entities[j.id].category != Application || s.entities[j.id].declared then (s, Done(Refused))
      else (s, Continue(j.(stage := Pre)))
    case Pre =>
      if !s.flowsOn then (s, Continue(j.(stage := Cascade, ranPre := true)))
      else if j.id !in s.entities || Blocked(s, j.id) then (s, Done(Refused))
      else
        var plan := s.entities[j.id].clientId;
        (Revoke(s, plan), Continue(j.(stage := Cascade, ranPre := true, plan := plan)))
    case Cascade => (DropDependents(s, j.id), Continue(j.(stage := Policies)))
    case Policies => (DropPolicies(s, j.id), Continue(j.(stage := Client)))
    case Client => (DropClient(s, j.id), Continue(j.(stage := Post)))
    case Post => (if j.ranPre then Revoke(s, j.plan) else s, Continue(j.(stage := EntityRow)))
    case EntityRow => (DropEntity(s, j.id), Continue(j.(stage := Keys)))
    case Keys => (DropKeys(s, j.id, LOCALIZED_FIELDS), Done(if j.ranPre then Succeeded else NotFoundNoop))
    case _ => (s, Done(Failed))
  }

  // Share and credential regeneration: a check, then one write

  /** An application with an inbound client; the sharing of a declared one by its own unit is declared with it. */
  predicate Shareable(s: Stores, id: string, own: bool) {
    && id in s.clients
    && (id in s.entities ==> s.entities[id].category == Application && !(own && s.entities[id].declared))
  }

  function StepShare(s: Stores, j: Job): (Stores, Progress)
  {
    if j.stage == Load then
      if Shareable(s, j.id, j.own) then (s, Continue(j.(stage := Grant))) else (s, Done(Refused))
    else if j.stage == Grant then (s.(policies := s.policies + {Policy(j.policy, j.id)}), Done(Succeeded))
    else (s, Done(Failed))
  }

  function StepRegenerate(s: Stores, j: Job): (Stores, Progress)
  {
    if j.stage == Load then
      if j.id in s.entities && s.entities[j.id].category == Application && !s.entities[j.id].declared
         && s.entities[j.id].clientId.Some? && ClientUsesSecret(s, j.id)
      then (s, Continue(j.(stage := Credentials)))
      else (s, Done(Refused))
    else if j.stage == Credentials && j.id in s.entities && !Blank(j.generated.secret)
    then (PutEntity(s, j.id, s.entities[j.id].(secret := Some(j.generated.secret))), Done(Succeeded))
    else (s, Done(Failed))
  }

  function StepJob(s: Stores, j: Job): (Stores, Progress) {
    match j.kind
    case Create => StepCreate(s, j)
    case Update => StepUpdate(s, j)
    case Delete => StepDelete(s, j)
    case Share => StepShare(s, j)
    case Regenerate => StepRegenerate(s, j)
  }

  /**
   The next store call fails. A call in one transaction leaves nothing behind; the cascade and the localized
   keys may have removed what `reached` names. A create whose inbound client fails goes on to compensate.
   */
  function FailJob(s: Stores, j: Job, reached: set<string>): (Stores, Progress) {
    if j.kind == Create && j.stage == Client then (s, Continue(j.(stage := Compensate)))
    else if j.kind == Delete && j.stage == Cascade then (DropSomeDependents(s, j.id, reached), Done(Failed))
    else if j.kind == Delete && j.stage == Keys then (DropKeys(s, j.id, reached * LOCALIZED_FIELDS), Done(Failed))
    else (s, Done(Failed))
  }
}

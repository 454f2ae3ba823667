/** What creating, sharing and regenerating leave behind, wherever their store calls fail. */
module ApplicationCreation {
  import opened Wrappers
  import opened Stores
  import opened ApplicationJobs
  import opened ApplicationCalls
  import opened ApplicationRequests

  /** The client id is free, and the profile with its secret is one the inbound client service accepts. */
  ghost predicate Creatable(s: Stores, id: string, request: Option<OAuthRequest>) {
    request.Some? ==>
      && (request.value.clientId == "" || NobodyElseHolds(s, id, request.value.clientId))
      && ProfileAllowed(request.value)
  }

  /** The request with what the service adds: a client id when none is named, a secret for a basic or post client. */
  function Resolved(request: OAuthRequest, generated: Generated): OAuthRequest {
    OAuthRequest(
      if request.clientId == "" then generated.clientId else request.clientId,
      if request.secret == "" && request.profile.authMethod in {ClientSecretBasic, ClientSecretPost}
      then generated.secret
      else request.secret,
      request.profile)
  }

  function NewEntity(request: Option<OAuthRequest>, generated: Generated): Entity {
    match request
    case None => Entity(Application, false, None, None)
    case Some(r) =>
      var resolved := Resolved(r, generated);
      Entity(Application, false, Some(resolved.clientId), if resolved.secret == "" then None else Some(resolved.secret))
  }

  function Created(s: Stores, id: string, request: Option<OAuthRequest>, generated: Generated): Stores {
    s.(entities := s.entities[id := NewEntity(request, generated)],
       clients := s.clients[id := (if request.Some? then Some(request.value.profile) else None)])
  }

  predicate FaultAt(faults: Faults, i: nat) {
    i < |faults| && faults[i].Some?
  }

  lemma CreateLoads(s: Stores, id: string, request: Option<OAuthRequest>, generated: Generated)
    ensures var (s', progress) := StepCreate(s, NewCreate(id, request, generated));
            && s' == s
            && (progress.Continue? <==> Creatable(s, id, request))
            && (progress.Done? ==> progress.result == Refused)
            && (progress.Continue? ==>
                  var resolved := if request.None? then None else Some(Resolved(request.value, generated));
                  progress.job == NewCreate(id, resolved, generated).(stage := EntityRow))
  {
    if request.Some? {
      FreeExactly(s, id, request.value.clientId);
      SecretMethods(request.value.profile);
    }
  }

  /** The last two calls: the inbound client, or else the compensation. */
  lemma ClientOnwards(s: Stores, j: Job, faults: Faults)
    requires j.kind == Create && j.stage == Client
    ensures Drive(s, j, faults) ==
            if !FaultAt(faults, 0) && j.id !in s.clients then (PutClient(s, j.id, NewProfile(j.request)), Succeeded)
            else if FaultAt(faults, 1) then (s, Failed)
            else (DropEntity(s, j.id), Failed)
  {
    if FaultAt(faults, 0) || j.id in s.clients {
      var undo := j.(stage := Compensate);
      assert Drive(s, j, faults) == Drive(s, undo, Rest(faults));
      assert FaultAt(faults, 1) <==> Faulty(Rest(faults));
    }
  }

  lemma EntityOnwards(s: Stores, j: Job, faults: Faults)
    requires j.kind == Create && j.stage == EntityRow
    ensures var named := j.request.Some? && j.request.value.secret != "";
            var secret := if named then Some(j.request.value.secret) else None;
            var stored := PutEntity(s, j.id, Entity(Application, false, NewClientId(j.request), secret));
            Drive(s, j, faults) ==
            if FaultAt(faults, 0) then (s, Failed)
            else if j.id in s.entities then (s, Refused)
            else Drive(stored, j.(stage := Client), Rest(faults))
  {
  }

  /**
   A create stores everything or nothing, wherever it fails, except exactly when the inbound client cannot be
   created and removing the entity again fails too: then the entity stays, without a client. It succeeds exactly
   for a creatable request under an id that is free in both stores when neither write fails.
   */
  lemma CreateIsAllOrNothing(s: Stores, id: string, request: Option<OAuthRequest>, generated: Generated, faults: Faults)
    ensures var (s', result) := Drive(s, NewCreate(id, request, generated), faults);
            var possible := !FaultAt(faults, 0) && Creatable(s, id, request)
                            && !FaultAt(faults, 1) && id !in s.entities;
            var clientFails := FaultAt(faults, 2) || id in s.clients;
            && (result == Succeeded <==> possible && !clientFails)
            && s' == if possible && !clientFails then Created(s, id, request, generated)
                     else if possible && FaultAt(faults, 3) then PutEntity(s, id, NewEntity(request, generated))
                     else s
  {
    var j := NewCreate(id, request, generated);
    CreateLoads(s, id, request, generated);
    if !FaultAt(faults, 0) && Creatable(s, id, request) {
      var next := StepCreate(s, j).1.job;
      assert Drive(s, j, faults) == Drive(s, next, Rest(faults));
      RestFaults(faults);
      EntityOnwards(s, next, Rest(faults));
      if !FaultAt(faults, 1) && id !in s.entities {
        var stored := PutEntity(s, id, NewEntity(request, generated));
        ClientOnwards(stored, next.(stage := Client), Rest(Rest(faults)));
        assert DropEntity(stored, id).entities == s.entities;
      }
    }
  }

  lemma RestFaults(faults: Faults)
    ensures forall i: nat :: FaultAt(Rest(faults), i) <==> FaultAt(faults, i + 1)
    ensures forall i: nat :: FaultAt(Rest(Rest(faults)), i) <==> FaultAt(faults, i + 2)
  {
  }

  /**
   A share records its policy exactly for an application with an inbound client, unless a declared application's own
   unit gives it, and writes nothing else.
   */
  lemma ShareOutcome(s: Stores, id: string, policy: string, own: bool)
    ensures var (s', result) := Drive(s, NewShare(id, policy, own), []);
            var foreign := id in s.entities && s.entities[id].category != Application;
            var declared := own && id in s.entities && s.entities[id].declared;
            && (result == Succeeded <==> id in s.clients && !foreign && !declared)
            && s' == if result == Succeeded then s.(policies := s.policies + {Policy(policy, id)}) else s
  {
    var j := NewShare(id, policy, own);
    if StepShare(s, j).1.Continue? {
      assert Drive(s, j, []) == Drive(s, j.(stage := Grant), []);
    }
  }

  /** Regenerating replaces the secret of a client that uses one, and nothing else; it revokes nothing by itself. */
  lemma RegenerateOutcome(s: Stores, id: string, generated: Generated)
    requires !Blank(generated.secret)
    ensures var (s', result) := Drive(s, NewRegenerate(id, generated), []);
            var allowed := && id in s.entities && s.entities[id].category == Application && !s.entities[id].declared
                           && s.entities[id].clientId.Some? && ClientUsesSecret(s, id);
            && (result == Succeeded <==> allowed)
            && s' == if allowed then PutEntity(s, id, s.entities[id].(secret := Some(generated.secret))) else s
  {
    var j := NewRegenerate(id, generated);
    if StepRegenerate(s, j).1.Continue? {
      assert Drive(s, j, []) == Drive(s, j.(stage := Credentials), []);
    }
  }
}

/** What an update of an application leaves behind: when it succeeds, and every row it then has written. */
module ApplicationUpdates {
  import opened Wrappers
  import opened GoText
  import opened Stores
  import opened ApplicationJobs
  import opened ApplicationCalls
  import opened ApplicationRequests

  /** The update as it stands once its request is resolved against the application. */
  function Loaded(s: Stores, j: Job): Option<Job> {
    match StepUpdateLoad(s, j).1
    case Continue(next) => Some(next)
    case Done(_) => None
  }

  lemma SecretOnwards(s: Stores, j: Job)
    requires j.kind == Update && j.stage == Credentials && j.id in s.entities
    requires j.request.Some? && WritesSecret(j.request, j.change)
    ensures var (s', result) := Drive(s, j, []);
            var stored := PutEntity(s, j.id, s.entities[j.id].(secret := Some(j.request.value.secret)));
            if Blank(j.request.value.secret) then result == Failed
            else (s', result) == (if j.change == Rotated then Revoke(stored, j.plan) else stored, Succeeded)
  {
    if !Blank(j.request.value.secret) && j.change == Rotated {
      var stored := PutEntity(s, j.id, s.entities[j.id].(secret := Some(j.request.value.secret)));
      assert Drive(s, j, []) == Drive(stored, j.(stage := Post), []);
    }
  }

  /** The stores after the writes of the inbound client and the system attributes. */
  function Attributed(s: Stores, j: Job): Stores
    requires j.id in s.entities
  {
    PutEntity(PutClient(s, j.id, NewProfile(j.request)), j.id, s.entities[j.id].(clientId := NewClientId(j.request)))
  }

  function Stored(s: Stores, id: string, secret: string): Stores
    requires id in s.entities
  {
    PutEntity(s, id, s.entities[id].(secret := Some(secret)))
  }

  lemma WritesOnwards(s: Stores, j: Job)
    requires j.kind == Update && j.stage == Client && j.id in s.entities && j.request.Some?
    ensures var (s', result) := Drive(s, j, []);
            var writes := WritesSecret(j.request, j.change);
            && (result == Succeeded <==> j.id in s.clients && (writes ==> !Blank(j.request.value.secret)))
            && (result == Succeeded || result == Failed)
            && (result == Succeeded ==>
                  s' == if !writes then Attributed(s, j)
                        else var stored := Stored(Attributed(s, j), j.id, j.request.value.secret);
                             if j.change == Rotated then Revoke(stored, j.plan) else stored)
  {
    if j.id in s.clients {
      var s1, j1 := PutClient(s, j.id, NewProfile(j.request)), j.(stage := Attributes);
      var s2, j2 := Attributed(s, j), j.(stage := Credentials);
      assert Drive(s, j, []) == Drive(s1, j1, []);
      if WritesSecret(j.request, j.change) {
        assert Drive(s1, j1, []) == Drive(s2, j2, []);
        SecretOnwards(s2, j2);
      }
    }
  }

  lemma WithoutOAuth(s: Stores, j: Job)
    requires j.kind == Update && j.stage == Client && j.id in s.entities && j.id in s.clients && j.request.None?
    ensures Drive(s, j, []) == (Attributed(s, j), Succeeded)
  {
    var s1, j1 := PutClient(s, j.id, NewProfile(j.request)), j.(stage := Attributes);
    assert Drive(s, j, []) == Drive(s1, j1, []);
  }

  // When an update succeeds

  /** The application authenticates with a secret before the update. */
  predicate HadSecretMethod(s: Stores, id: string) {
    id in s.clients && s.clients[id].Some? && HasSecretMethod(s.clients[id].value)
  }

  predicate OwnApplication(s: Stores, id: string) {
    && id in s.entities && s.entities[id].category == Application && !s.entities[id].declared
    && id in s.clients
  }

  /** The request names a client id that is free, or the application's own, or none. */
  ghost predicate ClientIdAllowed(s: Stores, id: string, r: OAuthRequest)
    requires id in s.entities && id in s.clients
  {
    || r.clientId == ""
    || (s.clients[id].Some? && s.entities[id].clientId == Some(r.clientId))
    || NobodyElseHolds(s, id, r.clientId)
  }

  /** The request names a secret other than the one the client has been authenticating with. */
  predicate Replaces(s: Stores, id: string, r: OAuthRequest)
    requires id in s.entities
  {
    HadSecretMethod(s, id) && HasSecretMethod(r.profile) && r.secret != "" && s.entities[id].secret != Some(r.secret)
  }

  /** The secret a client is given that did not use one: the named one, or else the generated one. */
  function FirstSecret(s: Stores, id: string, r: OAuthRequest, generated: Generated): Option<string> {
    if HadSecretMethod(s, id) || !HasSecretMethod(r.profile) then None
    else if r.secret != "" then Some(r.secret)
    else if generated.secret != "" then Some(generated.secret)
    else None
  }

  function SecretAfter(s: Stores, id: string, r: OAuthRequest, generated: Generated): Option<string>
    requires id in s.entities
  {
    if Replaces(s, id, r) then Some(r.secret)
    else if FirstSecret(s, id, r, generated).Some? then FirstSecret(s, id, r, generated)
    else s.entities[id].secret
  }

  /** What is written is not blank, and a client that rotates its secret has a client id to revoke. */
  predicate SecretAllowed(s: Stores, id: string, r: OAuthRequest, generated: Generated)
    requires id in s.entities
  {
    && (Replaces(s, id, r) ==> TrimSpace(r.secret) != "" && (s.flowsOn ==> s.entities[id].clientId.Some?))
    && (FirstSecret(s, id, r, generated).Some? ==> TrimSpace(FirstSecret(s, id, r, generated).value) != "")
  }

  function ClientIdAfter(request: Option<OAuthRequest>, generated: Generated): Option<string> {
    if request.None? then None
    else Some(if request.value.clientId == "" then generated.clientId else request.value.clientId)
  }

  /** The update as it is loaded. */
  function LoadedJob(s: Stores, id: string, request: Option<OAuthRequest>, generated: Generated): Job
    requires id in s.entities
  {
    var j := NewUpdate(id, request, generated);
    if request.None? then j.(stage := Client) else
    var r := request.value;
    var first := FirstSecret(s, id, r, generated);
    var secret := if first.Some? then first.value else r.secret;
    j.(request := Some(OAuthRequest(ClientIdAfter(request, generated).value, secret, r.profile)),
       change := (if Replaces(s, id, r) then Rotated else if first.Some? then Set else Unchanged),
       stage := (if Replaces(s, id, r) then Pre else Client))
  }

  lemma LoadsExactly(s: Stores, id: string, request: Option<OAuthRequest>, generated: Generated)
    ensures var loaded := Loaded(s, NewUpdate(id, request, generated));
            && (loaded.Some? <==>
                  && OwnApplication(s, id)
                  && (request.Some? ==> ClientIdAllowed(s, id, request.value) && ProfileAllowed(request.value)))
            && (loaded.Some? ==> loaded.value == LoadedJob(s, id, request, generated))
  {
    if OwnApplication(s, id) && request.Some? {
      FreeExactly(s, id, request.value.clientId);
      SecretMethods(request.value.profile);
      if s.clients[id].Some? { SecretMethods(s.clients[id].value); }
    }
  }

  lemma LoadRefuses(s: Stores, id: string, request: Option<OAuthRequest>, generated: Generated)
    ensures var (s', progress) := StepUpdateLoad(s, NewUpdate(id, request, generated));
            s' == s && (progress.Done? ==> progress.result == Refused)
  {
  }

  /** The rows an update leaves. */
  function Updated(s: Stores, id: string, request: Option<OAuthRequest>, generated: Generated): Stores
    requires id in s.entities
  {
    var secret := if request.Some? then SecretAfter(s, id, request.value, generated) else s.entities[id].secret;
    s.(clients := s.clients[id := (if request.Some? then Some(request.value.profile) else None)],
       entities := s.entities[id := s.entities[id].(clientId := ClientIdAfter(request, generated), secret := secret)])
  }

  ghost predicate Succeeds(s: Stores, id: string, request: Option<OAuthRequest>, generated: Generated) {
    && OwnApplication(s, id)
    && (request.Some? ==>
          && ClientIdAllowed(s, id, request.value) && ProfileAllowed(request.value)
          && SecretAllowed(s, id, request.value, generated))
  }

  /** What becomes of the stores and of the tokens. */
  ghost predicate IsUpdated(
      s: Stores, s': Stores, id: string, request: Option<OAuthRequest>, generated: Generated)
    requires id in s.entities
  {
    && s' == Updated(s, id, request, generated).(cutoffs := s'.cutoffs)
    && forall t :: Revoked(s', t) <==>
         || Revoked(s, t)
         || (s.flowsOn && request.Some? && Replaces(s, id, request.value)
             && s.entities[id].clientId == Some(t.clientId) && t.issuedAt <= s.now)
  }

  lemma RowsAreUpdated(s: Stores, id: string, request: OAuthRequest, generated: Generated, j: Job)
    requires OwnApplication(s, id) && j == LoadedJob(s, id, Some(request), generated).(stage := Client, plan := j.plan)
    ensures WritesSecret(j.request, j.change) <==> j.change != Unchanged
    ensures Updated(s, id, Some(request), generated) ==
            if j.change == Unchanged then Attributed(s, j)
            else Stored(Attributed(s, j), id, j.request.value.secret)
  {
    SecretMethods(request.profile);
  }

  lemma WithOAuth(s: Stores, id: string, request: OAuthRequest, generated: Generated, j: Job)
    requires OwnApplication(s, id) && j == LoadedJob(s, id, Some(request), generated).(stage := Client, plan := j.plan)
    ensures var (s', result) := Drive(s, j, []);
            && (result == Succeeded <==> (j.change != Unchanged ==> TrimSpace(j.request.value.secret) != ""))
            && result != Refused
            && (result == Succeeded ==>
                  s' == if j.change == Rotated then Revoke(Updated(s, id, Some(request), generated), j.plan)
                        else Updated(s, id, Some(request), generated))
  {
    RowsAreUpdated(s, id, request, generated, j);
    WritesOnwards(s, j);
  }

  /**
   An update that no call fails, from any state: exactly when it succeeds, the client row, client id and secret it then
   leaves, that nothing else is written, and which tokens it revokes. A refused one writes nothing.
   */
  lemma UpdateOutcome(s: Stores, id: string, request: Option<OAuthRequest>, generated: Generated)
    ensures var (s', result) := Drive(s, NewUpdate(id, request, generated), []);
            && (result == Succeeded <==> Succeeds(s, id, request, generated))
            && (result == Succeeded ==> IsUpdated(s, s', id, request, generated))
            && (result == Refused ==> s' == s)
  {
    var j := NewUpdate(id, request, generated);
    LoadsExactly(s, id, request, generated);
    LoadRefuses(s, id, request, generated);
    if Loaded(s, j).Some? {
      var loaded := LoadedJob(s, id, request, generated);
      assert Drive(s, j, []) == Drive(s, loaded, []);
      if request.None? {
        WithoutOAuth(s, loaded);
      } else if loaded.stage == Client {
        WithOAuth(s, id, request.value, generated, loaded);
      } else {
        RotationOutcome(s, id, request.value, generated);
      }
    }
  }

  lemma RotationOutcome(s: Stores, id: string, request: OAuthRequest, generated: Generated)
    requires OwnApplication(s, id) && Replaces(s, id, request)
    ensures var (s', result) := Drive(s, LoadedJob(s, id, Some(request), generated), []);
            && (result == Succeeded <==> SecretAllowed(s, id, request, generated))
            && (result == Succeeded ==> IsUpdated(s, s', id, Some(request), generated))
            && (result == Refused ==> s' == s)
  {
    var loaded := LoadedJob(s, id, Some(request), generated);
    SecretMethods(s.clients[id].value);
    if !s.flowsOn {
      assert Drive(s, loaded, []) == Drive(s, loaded.(stage := Client), []);
      WithOAuth(s, id, request, generated, loaded.(stage := Client));
    } else if s.entities[id].clientId.Some? {
      var plan := s.entities[id].clientId;
      var revoked := Revoke(s, plan);
      var next := loaded.(stage := Client, plan := plan);
      assert Drive(s, loaded, []) == Drive(revoked, next, []);
      assert LoadedJob(revoked, id, Some(request), generated) == loaded;
      WithOAuth(revoked, id, request, generated, next);
      RevokedTwice(s, revoked, id, request, generated, plan);
    }
  }

  lemma RevokedTwice(
      s: Stores, revoked: Stores, id: string, request: OAuthRequest, generated: Generated, plan: Option<string>)
    requires OwnApplication(s, id) && Replaces(s, id, request) && s.flowsOn && plan == s.entities[id].clientId
    requires plan.Some? && revoked == Revoke(s, plan)
    ensures IsUpdated(s, Revoke(Updated(revoked, id, Some(request), generated), plan), id, Some(request), generated)
  {
    var updated := Updated(revoked, id, Some(request), generated);
    forall t
      ensures Revoked(Revoke(updated, plan), t) <==>
              Revoked(s, t) || (plan == Some(t.clientId) && t.issuedAt <= s.now)
    {
      RevokesExactly(s, plan, t);
      RevokesExactly(updated, plan, t);
    }
    assert Revoke(updated, plan) ==
           Updated(s, id, Some(request), generated).(cutoffs := Revoke(updated, plan).cutoffs);
  }
}

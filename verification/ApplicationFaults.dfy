/**
 What a delete and an update leave behind when one of their store calls fails: exactly what the calls before it have
 written, in their order, and what the failing call itself had reached.
 */
module ApplicationFaults {
  import opened Wrappers
  import opened Stores
  import opened ApplicationJobs
  import opened ApplicationCalls
  import opened ApplicationCreation
  import opened ApplicationDeletion
  import opened ApplicationUpdates

  function From(faults: Faults, n: nat): Faults {
    if n <= |faults| then faults[n..] else []
  }

  lemma FromRest(faults: Faults, n: nat)
    ensures Rest(From(faults, n)) == From(faults, n + 1)
    ensures Faulty(From(faults, n)) <==> FaultAt(faults, n)
    ensures Faulty(From(faults, n)) ==> From(faults, n)[0] == faults[n]
  {
  }

  predicate FirstFault(faults: Faults, i: nat) {
    FaultAt(faults, i) && forall k :: 0 <= k < i ==> !FaultAt(faults, k)
  }

  // Delete

  /** The calls of a delete that finds its application. */
  const DELETE_CALLS: seq<Stage> := [Load, Pre, Cascade, Policies, Client, Post, EntityRow, Keys]

  /** The cutoffs before call `k`: the pre flow has recorded one from call 2 on, and the post flow once more. */
  function RevokedBefore(s: Stores, id: string, k: nat): Stores {
    var plan := CurrentPlan(s, id);
    if k <= 1 then s else if k <= 5 then Revoke(s, plan) else Revoke(Revoke(s, plan), plan)
  }

  /** The stores before call `k` of a delete. */
  function DeletedUpTo(s: Stores, id: string, k: nat): Stores {
    s.(dependents := (if k > 2 then DropDependents(s, id).dependents else s.dependents),
       policies := (if k > 3 then DropPolicies(s, id).policies else s.policies),
       clients := (if k > 4 then s.clients - {id} else s.clients),
       entities := (if k > 6 then s.entities - {id} else s.entities),
       cutoffs := RevokedBefore(s, id, k).cutoffs)
  }

  function DeleteUpTo(s: Stores, id: string, k: nat): Job
    requires k < 8
  {
    var j := NewDelete(id).(stage := DELETE_CALLS[k]);
    if k > 1 then j.(ranPre := true, plan := CurrentPlan(s, id)) else j
  }

  lemma DeleteStep(s: Stores, id: string, k: nat)
    requires id in s.entities && !Refusable(s, id) && k < 7
    ensures StepDelete(DeletedUpTo(s, id, k), DeleteUpTo(s, id, k)) ==
            (DeletedUpTo(s, id, k + 1), Continue(DeleteUpTo(s, id, k + 1)))
  {
  }

  lemma {:induction false} DeleteReaches(s: Stores, id: string, faults: Faults, k: nat)
    requires id in s.entities && !Refusable(s, id) && k < 8 && forall i :: 0 <= i < k ==> !FaultAt(faults, i)
    ensures Drive(s, NewDelete(id), faults) == Drive(DeletedUpTo(s, id, k), DeleteUpTo(s, id, k), From(faults, k))
  {
    if k == 0 {
      assert From(faults, 0) == faults;
    } else {
      DeleteReaches(s, id, faults, k - 1);
      DeleteStep(s, id, k - 1);
      FromRest(faults, k - 1);
      CallSucceeds(DeletedUpTo(s, id, k - 1), DeleteUpTo(s, id, k - 1), From(faults, k - 1),
                   DeletedUpTo(s, id, k), DeleteUpTo(s, id, k));
    }
  }

  /** What is left when call `i` fails: the rows by the calls before it, the tokens by whether the pre flow has run. */
  ghost predicate LeftByDelete(s: Stores, s': Stores, id: string, i: nat, reached: set<string>)
    requires id in s.entities
  {
    && s'.entities == (if i > 6 then s.entities - {id} else s.entities)
    && s'.clients == (if i > 4 then s.clients - {id} else s.clients)
    && s'.policies == (set p | p in s.policies && !(i > 3 && p.app == id))
    && s'.dependents == (set d | d in s.dependents && !(d.app == id && (i > 2 || (i == 2 && d.name in reached))))
    && s'.keys == (set k | k in s.keys && !(i == 7 && k.app == id && k.field in reached
                                            && k.field in {"name", "logo_uri", "tos_uri", "policy_uri"}))
    && s'.tokens == s.tokens && s'.now == s.now && s'.flowsOn == s.flowsOn
    && forall t :: Revoked(s', t) <==>
         Revoked(s, t) || (i > 1 && s.flowsOn && s.entities[id].clientId == Some(t.clientId) && t.issuedAt <= s.now)
  }

  lemma RevokedUpTo(s: Stores, id: string, k: nat, t: Token)
    requires id in s.entities
    ensures Revoked(DeletedUpTo(s, id, k), t) <==>
            Revoked(s, t) || (k > 1 && s.flowsOn && s.entities[id].clientId == Some(t.clientId) && t.issuedAt <= s.now)
  {
    var plan := CurrentPlan(s, id);
    RevokesExactly(s, plan, t);
    RevokesExactly(Revoke(s, plan), plan, t);
  }

  /** A delete stopped by the failure of its call `i` leaves exactly what the calls before it have left. */
  lemma DeleteStopsWhereItFails(s: Stores, id: string, faults: Faults, i: nat)
    requires id in s.entities && !Refusable(s, id) && i < 8 && FirstFault(faults, i)
    ensures var (s', result) := Drive(s, NewDelete(id), faults);
            result == Failed && LeftByDelete(s, s', id, i, faults[i].value)
  {
    DeleteReaches(s, id, faults, i);
    FromRest(faults, i);
    var d, j, reached := DeletedUpTo(s, id, i), DeleteUpTo(s, id, i), faults[i].value;
    var s' := FailJob(d, j, reached).0;
    assert Drive(d, j, From(faults, i)) == (s', Failed);
    assert s' == d.(dependents := s'.dependents, keys := s'.keys);
    forall t ensures Revoked(s', t) <==> Revoked(d, t) {
    }
    forall t
      ensures Revoked(s', t) <==>
              || Revoked(s, t)
              || (i > 1 && s.flowsOn && s.entities[id].clientId == Some(t.clientId) && t.issuedAt <= s.now)
    {
      RevokedUpTo(s, id, i, t);
    }
  }

  // Update

  /** The calls of an update that succeeds when none of them fails. */
  function UpdateCalls(s: Stores, id: string, request: Option<OAuthRequest>, generated: Generated): seq<Stage>
    requires id in s.entities
  {
    var rotates := request.Some? && Replaces(s, id, request.value);
    var writes := rotates || (request.Some? && FirstSecret(s, id, request.value, generated).Some?);
    [Load] + (if rotates then [Pre] else []) + [Client, Attributes] + (if writes then [Credentials] else [])
    + (if rotates then [Post] else [])
  }

  /** The rows that are left when the call of a stage fails. */
  ghost predicate LeftRows(
      s: Stores, s': Stores, id: string, request: Option<OAuthRequest>, generated: Generated, stage: Stage)
    requires id in s.entities
  {
    var e := s.entities[id];
    && s' == s.(clients := s'.clients, entities := s'.entities, cutoffs := s'.cutoffs)
    && s'.clients == (if stage in {Load, Pre, Client} then s.clients
                      else s.clients[id := (if request.Some? then Some(request.value.profile) else None)])
    && s'.entities ==
       s.entities[id := e.(
         clientId := (if stage in {Credentials, Post} then ClientIdAfter(request, generated) else e.clientId),
         secret := (if stage == Post && request.Some? then SecretAfter(s, id, request.value, generated) else e.secret))]
  }

  /** The rows, and the tokens by whether the pre flow of a rotation has run. */
  ghost predicate LeftByUpdate(
      s: Stores, s': Stores, id: string, request: Option<OAuthRequest>, generated: Generated, stage: Stage)
    requires id in s.entities
  {
    && LeftRows(s, s', id, request, generated, stage)
    && forall t :: Revoked(s', t) <==>
         || Revoked(s, t)
         || (request.Some? && Replaces(s, id, request.value) && stage !in {Load, Pre} && s.flowsOn
             && s.entities[id].clientId == Some(t.clientId) && t.issuedAt <= s.now)
  }

  function UpdatedBefore(s: Stores, id: string, request: Option<OAuthRequest>, generated: Generated, stage: Stage)
    : Stores
    requires id in s.entities
  {
    var j := LoadedJob(s, id, request, generated);
    var revoked := if j.stage == Pre && stage !in {Load, Pre} then Revoke(s, s.entities[id].clientId) else s;
    match stage
    case Attributes => PutClient(revoked, id, NewProfile(j.request))
    case Credentials => Attributed(revoked, j)
    case Post => if j.request.Some? then Stored(Attributed(revoked, j), id, j.request.value.secret) else s
    case _ => revoked
  }

  function UpdateBefore(s: Stores, id: string, request: Option<OAuthRequest>, generated: Generated, stage: Stage): Job
    requires id in s.entities
  {
    var j := LoadedJob(s, id, request, generated);
    if stage == Load then NewUpdate(id, request, generated)
    else if j.stage == Pre && stage != Pre && s.flowsOn then j.(stage := stage, plan := s.entities[id].clientId)
    else j.(stage := stage)
  }

  lemma FirstStep(s: Stores, id: string, request: Option<OAuthRequest>, generated: Generated, k: nat)
    requires id in s.entities && Succeeds(s, id, request, generated)
    requires k == 0 && k + 1 < |UpdateCalls(s, id, request, generated)|
    ensures var calls := UpdateCalls(s, id, request, generated);
            StepUpdate(UpdatedBefore(s, id, request, generated, calls[k]),
                       UpdateBefore(s, id, request, generated, calls[k]))
            == (UpdatedBefore(s, id, request, generated, calls[k + 1]),
                Continue(UpdateBefore(s, id, request, generated, calls[k + 1])))
  {
    LoadsExactly(s, id, request, generated);
    LoadRefuses(s, id, request, generated);
  }

  /** What the loaded job is about to write. */
  lemma WritesLoaded(s: Stores, id: string, request: Option<OAuthRequest>, generated: Generated)
    requires id in s.entities && Succeeds(s, id, request, generated)
    ensures var j, calls := LoadedJob(s, id, request, generated), UpdateCalls(s, id, request, generated);
            && (WritesSecret(j.request, j.change) <==> Credentials in calls)
            && (j.change == Rotated <==> Post in calls) && (j.stage == Pre <==> Post in calls)
            && (Post in calls ==> ClientUsesSecret(s, id))
  {
    if request.Some? {
      SecretMethods(request.value.profile);
      if s.clients[id].Some? { SecretMethods(s.clients[id].value); }
    }
  }

  lemma PreStep(s: Stores, id: string, request: Option<OAuthRequest>, generated: Generated)
    requires id in s.entities && Succeeds(s, id, request, generated)
    requires Pre in UpdateCalls(s, id, request, generated)
    ensures StepUpdate(UpdatedBefore(s, id, request, generated, Pre),
                       UpdateBefore(s, id, request, generated, Pre))
            == (UpdatedBefore(s, id, request, generated, Client),
                Continue(UpdateBefore(s, id, request, generated, Client)))
  {
    WritesLoaded(s, id, request, generated);
  }

  lemma ClientStep(s: Stores, id: string, request: Option<OAuthRequest>, generated: Generated)
    requires id in s.entities && Succeeds(s, id, request, generated)
    ensures StepUpdate(UpdatedBefore(s, id, request, generated, Client),
                       UpdateBefore(s, id, request, generated, Client))
            == (UpdatedBefore(s, id, request, generated, Attributes),
                Continue(UpdateBefore(s, id, request, generated, Attributes)))
  {
    WritesLoaded(s, id, request, generated);
  }

  lemma AttributesStep(s: Stores, id: string, request: Option<OAuthRequest>, generated: Generated)
    requires id in s.entities && Succeeds(s, id, request, generated)
    requires Credentials in UpdateCalls(s, id, request, generated)
    ensures StepUpdate(UpdatedBefore(s, id, request, generated, Attributes),
                       UpdateBefore(s, id, request, generated, Attributes))
            == (UpdatedBefore(s, id, request, generated, Credentials),
                Continue(UpdateBefore(s, id, request, generated, Credentials)))
  {
    WritesLoaded(s, id, request, generated);
  }

  lemma CredentialsStep(s: Stores, id: string, request: Option<OAuthRequest>, generated: Generated)
    requires id in s.entities && Succeeds(s, id, request, generated)
    requires Post in UpdateCalls(s, id, request, generated)
    ensures StepUpdate(UpdatedBefore(s, id, request, generated, Credentials),
                       UpdateBefore(s, id, request, generated, Credentials))
            == (UpdatedBefore(s, id, request, generated, Post),
                Continue(UpdateBefore(s, id, request, generated, Post)))
  {
    WritesLoaded(s, id, request, generated);
  }

  lemma StagesFollow(s: Stores, id: string, request: Option<OAuthRequest>, generated: Generated, k: nat)
    requires id in s.entities && k + 1 < |UpdateCalls(s, id, request, generated)|
    ensures var calls := UpdateCalls(s, id, request, generated);
            && calls[k] in calls && calls[k + 1] in calls && (k == 0 <==> calls[k] == Load)
            && (calls[k] == Pre ==> calls[k + 1] == Client) && (calls[k] == Client ==> calls[k + 1] == Attributes)
            && (calls[k] == Attributes ==> calls[k + 1] == Credentials)
            && (calls[k] == Credentials ==> calls[k + 1] == Post)
            && calls[k] in {Load, Pre, Client, Attributes, Credentials}
  {
  }

  lemma UpdateStep(s: Stores, id: string, request: Option<OAuthRequest>, generated: Generated, k: nat)
    requires id in s.entities && Succeeds(s, id, request, generated)
    requires k + 1 < |UpdateCalls(s, id, request, generated)|
    ensures var stage, next := UpdateCalls(s, id, request, generated)[k], UpdateCalls(s, id, request, generated)[k + 1];
            StepUpdate(UpdatedBefore(s, id, request, generated, stage), UpdateBefore(s, id, request, generated, stage))
            == (UpdatedBefore(s, id, request, generated, next),
                Continue(UpdateBefore(s, id, request, generated, next)))
  {
    StagesFollow(s, id, request, generated, k);
    if k == 0 {
      FirstStep(s, id, request, generated, k);
    } else {
      BetweenStages(s, id, request, generated, UpdateCalls(s, id, request, generated)[k],
                    UpdateCalls(s, id, request, generated)[k + 1]);
    }
  }

  lemma BetweenStages(
      s: Stores, id: string, request: Option<OAuthRequest>, generated: Generated, stage: Stage, next: Stage)
    requires id in s.entities && Succeeds(s, id, request, generated)
    requires stage in UpdateCalls(s, id, request, generated) && next in UpdateCalls(s, id, request, generated)
    requires (stage, next) in {(Pre, Client), (Client, Attributes), (Attributes, Credentials), (Credentials, Post)}
    ensures StepUpdate(UpdatedBefore(s, id, request, generated, stage), UpdateBefore(s, id, request, generated, stage))
            == (UpdatedBefore(s, id, request, generated, next),
                Continue(UpdateBefore(s, id, request, generated, next)))
  {
    match stage {
      case Pre => PreStep(s, id, request, generated);
      case Client => ClientStep(s, id, request, generated);
      case Attributes => AttributesStep(s, id, request, generated);
      case _ => CredentialsStep(s, id, request, generated);
    }
  }

  lemma {:induction false} UpdateReaches(
      s: Stores, id: string, request: Option<OAuthRequest>, generated: Generated, faults: Faults, k: nat)
    requires id in s.entities && Succeeds(s, id, request, generated)
    requires k < |UpdateCalls(s, id, request, generated)| && forall i :: 0 <= i < k ==> !FaultAt(faults, i)
    ensures var stage := UpdateCalls(s, id, request, generated)[k];
            Drive(s, NewUpdate(id, request, generated), faults) ==
            Drive(UpdatedBefore(s, id, request, generated, stage), UpdateBefore(s, id, request, generated, stage),
                  From(faults, k))
  {
    if k == 0 {
      assert From(faults, 0) == faults;
    } else {
      var calls := UpdateCalls(s, id, request, generated);
      UpdateReaches(s, id, request, generated, faults, k - 1);
      UpdateStep(s, id, request, generated, k - 1);
      FromRest(faults, k - 1);
      OneCallOn(UpdatedBefore(s, id, request, generated, calls[k - 1]),
                UpdateBefore(s, id, request, generated, calls[k - 1]), faults, k - 1,
                UpdatedBefore(s, id, request, generated, calls[k]), UpdateBefore(s, id, request, generated, calls[k]));
    }
  }

  lemma OneCallOn(s: Stores, j: Job, faults: Faults, k: nat, s': Stores, next: Job)
    requires j.kind == Update && StepUpdate(s, j) == (s', Continue(next)) && !FaultAt(faults, k)
    ensures Drive(s, j, From(faults, k)) == Drive(s', next, From(faults, k + 1))
  {
    FromRest(faults, k);
    CallSucceeds(s, j, From(faults, k), s', next);
  }

  lemma EarlyRows(s: Stores, id: string, request: Option<OAuthRequest>, generated: Generated, stage: Stage)
    requires id in s.entities && Succeeds(s, id, request, generated)
    requires stage in UpdateCalls(s, id, request, generated) && stage in {Load, Pre, Client}
    ensures LeftRows(s, UpdatedBefore(s, id, request, generated, stage), id, request, generated, stage)
  {
    assert s.entities[id := s.entities[id]] == s.entities;
  }

  lemma MiddleRows(s: Stores, id: string, request: Option<OAuthRequest>, generated: Generated, stage: Stage)
    requires id in s.entities && Succeeds(s, id, request, generated)
    requires stage in UpdateCalls(s, id, request, generated) && stage in {Attributes, Credentials}
    ensures LeftRows(s, UpdatedBefore(s, id, request, generated, stage), id, request, generated, stage)
  {
    assert s.entities[id := s.entities[id]] == s.entities;
  }

  lemma LastRows(s: Stores, id: string, request: Option<OAuthRequest>, generated: Generated, stage: Stage)
    requires id in s.entities && Succeeds(s, id, request, generated)
    requires stage in UpdateCalls(s, id, request, generated) && stage in {Post}
    ensures LeftRows(s, UpdatedBefore(s, id, request, generated, stage), id, request, generated, stage)
  {
  }

  lemma CutoffsBefore(s: Stores, id: string, request: Option<OAuthRequest>, generated: Generated, stage: Stage)
    requires id in s.entities && Succeeds(s, id, request, generated)
    requires stage in UpdateCalls(s, id, request, generated)
    ensures var rotates := request.Some? && Replaces(s, id, request.value) && stage !in {Load, Pre};
            UpdatedBefore(s, id, request, generated, stage).cutoffs ==
            if rotates then Revoke(s, s.entities[id].clientId).cutoffs else s.cutoffs
  {
  }

  lemma LeftBefore(s: Stores, id: string, request: Option<OAuthRequest>, generated: Generated, stage: Stage)
    requires id in s.entities && Succeeds(s, id, request, generated)
    requires stage in UpdateCalls(s, id, request, generated)
    ensures LeftByUpdate(s, UpdatedBefore(s, id, request, generated, stage), id, request, generated, stage)
  {
    var before := UpdatedBefore(s, id, request, generated, stage);
    match stage {
      case Post => LastRows(s, id, request, generated, stage);
      case Attributes => MiddleRows(s, id, request, generated, stage);
      case Credentials => MiddleRows(s, id, request, generated, stage);
      case _ => EarlyRows(s, id, request, generated, stage);
    }
    CutoffsBefore(s, id, request, generated, stage);
    var revoked := Revoke(s, s.entities[id].clientId);
    forall t
      ensures Revoked(before, t) <==>
              || Revoked(s, t)
              || (request.Some? && Replaces(s, id, request.value) && stage !in {Load, Pre} && s.flowsOn
                  && s.entities[id].clientId == Some(t.clientId) && t.issuedAt <= s.now)
    {
      RevokesExactly(s, s.entities[id].clientId, t);
    }
  }

  /** An update stopped by the failure of its call `i` leaves exactly what the calls before it have written. */
  lemma UpdateStopsWhereItFails(
      s: Stores, id: string, request: Option<OAuthRequest>, generated: Generated, faults: Faults, i: nat)
    requires id in s.entities && Succeeds(s, id, request, generated)
    requires i < |UpdateCalls(s, id, request, generated)| && FirstFault(faults, i)
    ensures var (s', result) := Drive(s, NewUpdate(id, request, generated), faults);
            result == Failed && LeftByUpdate(s, s', id, request, generated, UpdateCalls(s, id, request, generated)[i])
  {
    var stage := UpdateCalls(s, id, request, generated)[i];
    UpdateReaches(s, id, request, generated, faults, i);
    FromRest(faults, i);
    LeftBefore(s, id, request, generated, stage);
  }

  // Calls that find something else than the checks before them did

  /**
   What an update under way refuses or fails on, whatever others did since it was loaded: the flow of a rotation needs
   the entity with a client id and a client that still uses a secret, and each write its row.
   */
  lemma UpdateFindsOtherwise(s: Stores, j: Job)
    requires j.kind == Update && j.stage in {Pre, Client, Attributes, Credentials, Post}
    ensures var (s', progress) := StepUpdate(s, j);
            var refuses := j.stage == Pre && s.flowsOn &&
                           (j.id !in s.entities || s.entities[j.id].clientId == None || !HadSecretMethod(s, j.id));
            var fails := || (j.stage == Client && j.id !in s.clients)
                         || (j.stage == Attributes && j.id !in s.entities)
                         || (j.stage == Credentials &&
                             (j.id !in s.entities || j.request == None || Blank(j.request.value.secret)));
            && (progress == Done(Refused) <==> refuses) && (progress == Done(Failed) <==> fails)
            && (refuses || fails ==> s' == s)
  {
    if j.id in s.clients && s.clients[j.id].Some? { SecretMethods(s.clients[j.id].value); }
  }

  /** A delete whose application is gone or blocked by now when its pre flow runs stops there; no later call looks. */
  lemma DeleteFindsOtherwise(s: Stores, j: Job)
    requires j.kind == Delete && j.stage in {Pre, Cascade, Policies, Client, Post, EntityRow, Keys}
    ensures var (s', progress) := StepDelete(s, j);
            var blocked := exists d :: d in s.dependents && d.app == j.id && d.blocking;
            var refuses := j.stage == Pre && s.flowsOn && (j.id !in s.entities || blocked);
            && (progress == Done(Refused) <==> refuses) && progress != Done(Failed)
            && (refuses ==> s' == s)
  {
  }

  /** A create finds its id taken by an entity or by a client; a new secret its entity gone; a share looks no more. */
  lemma OthersFindOtherwise(s: Stores, j: Job)
    requires (j.kind == Create && j.stage in {EntityRow, Client}) || (j.kind == Regenerate && j.stage == Credentials)
             || (j.kind == Share && j.stage == Grant)
    ensures var (s', progress) := StepJob(s, j);
            && (progress == Done(Refused) <==> j.stage == EntityRow && j.id in s.entities)
            && (progress == Continue(j.(stage := Compensate)) <==> j.stage == Client && j.id in s.clients)
            && (progress == Done(Failed) <==>
                  j.stage == Credentials && (j.id !in s.entities || Blank(j.generated.secret)))
            && (progress in {Done(Refused), Done(Failed), Continue(j.(stage := Compensate))} ==> s' == s)
  {
  }
}

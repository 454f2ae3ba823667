/**
 The application service over its stores, written the way the service runs: one store call after the other,
 each of which may fail. Every method is proved to do what driving the corresponding job does.
 */
module ApplicationServices {
  import opened Wrappers
  import opened Stores
  import opened ClientIds
  import opened ApplicationJobs
  import opened ApplicationCalls

  datatype Action = CreateAction | UpdateAction | DeleteAction

  /** The audit event of one attempt on an application. */
  datatype AuditEvent = AuditEvent(action: Action, app: string, succeeded: bool)

  class ApplicationService {
    var entities: map<string, Entity>
    var clients: map<string, Option<OAuthProfile>>
    var policies: set<Policy>
    var dependents: set<Dependent>
    var keys: set<LocalizedKey>
    var tokens: set<Token>
    var cutoffs: map<string, nat>
    var now: nat
    const flowsOn: bool
    var audit: seq<AuditEvent>

    function Snapshot(): Stores
      reads this
    {
      Stores(entities, clients, policies, dependents, keys, tokens, cutoffs, now, flowsOn)
    }

    constructor (flowsOn: bool)
      ensures Snapshot() == Stores(map[], map[], {}, {}, {}, {}, map[], 0, flowsOn) && audit == []
    {
      entities, clients := map[], map[];
      policies, dependents, keys, tokens := {}, {}, {}, {};
      cutoffs, now, audit := map[], 0, [];
      this.flowsOn := flowsOn;
    }

    method Publish(action: Action, app: string, result: Result)
      modifies this`audit
      ensures audit == old(audit) + [AuditEvent(action, app, result == Succeeded)]
    {
      audit := audit + [AuditEvent(action, app, result == Succeeded)];
    }

    /** Runs a system flow that revokes what the plan names. */
    method RunRevocation(plan: Option<string>)
      modifies this`cutoffs
      ensures Snapshot() == Revoke(old(Snapshot()), plan)
      ensures forall t: Token ::
                Revoked(Snapshot(), t) <==>
                Revoked(old(Snapshot()), t) || (flowsOn && plan == Some(t.clientId) && t.issuedAt <= now)
    {
      forall t: Token { RevokesExactly(Snapshot(), plan, t); }
      if flowsOn && plan.Some? {
        var clientId := plan.value;
        if clientId !in cutoffs || cutoffs[clientId] <= now {
          cutoffs := cutoffs[clientId := now];
        }
      }
    }

    /** A delete that found nothing to remove succeeds without an event. */
    method DeleteApplication(appID: string, faults: Faults) returns (result: Result)
      modifies this
      ensures (Snapshot(), result) == Drive(old(Snapshot()), NewDelete(appID), faults)
      ensures audit == if result == NotFoundNoop then old(audit)
                       else old(audit) + [AuditEvent(DeleteAction, appID, result == Succeeded)]
    {
      result := RemoveApplication(appID, faults);
      if result != NotFoundNoop {
        Publish(DeleteAction, appID, result);
      }
    }

    method RemoveApplication(appID: string, faults: Faults) returns (result: Result)
      modifies this
      ensures (Snapshot(), result) == Drive(old(Snapshot()), NewDelete(appID), faults)
      ensures audit == old(audit)
    {
      ghost var whole := Drive(Snapshot(), NewDelete(appID), faults);
      ghost var job := NewDelete(appID);
      var calls, ranPre, plan := faults, false, None;

      if Faulty(calls) { return Failed; }
      if appID in entities {
        if entities[appID].category != Application || entities[appID].declared { return Refused; }
        calls, job := Rest(calls), job.(stage := Pre);
        assert whole == Drive(Snapshot(), job, calls);
        if Faulty(calls) { return Failed; }
        if flowsOn {
          if Blocked(Snapshot(), appID) { return Refused; }
          plan := entities[appID].clientId;
          RunRevocation(plan);
        }
        ranPre := true;
      }
      calls, job := Rest(calls), job.(stage := Cascade, ranPre := ranPre, plan := plan);
      assert whole == Drive(Snapshot(), job, calls);

      if Faulty(calls) {
        var reached := calls[0].value;
        dependents := set d | d in dependents && !(d.app == appID && d.name in reached);
        return Failed;
      }
      dependents := set d | d in dependents && d.app != appID;
      calls, job := Rest(calls), job.(stage := Policies);
      assert whole == Drive(Snapshot(), job, calls);

      result := RemoveRows(appID, ranPre, plan, calls, job);
    }

    /** The policies and the inbound client, after which nothing more can be issued. */
    method RemoveRows(appID: string, ranPre: bool, plan: Option<string>, faults: Faults, ghost start: Job)
      returns (result: Result)
      requires start == NewDelete(appID).(stage := Policies, ranPre := ranPre, plan := plan)
      modifies this
      ensures (Snapshot(), result) == Drive(old(Snapshot()), start, faults)
      ensures audit == old(audit)
    {
      if Faulty(faults) { return Failed; }
      ghost var shared := Snapshot();
      policies := set p | p in policies && p.app != appID;
      ghost var atClient := start.(stage := Client);
      CallSucceeds(shared, start, faults, Snapshot(), atClient);

      var calls := Rest(faults);
      if Faulty(calls) { return Failed; }
      ghost var reachable := Snapshot();
      clients := clients - {appID};
      ghost var atPost := start.(stage := Post);
      CallSucceeds(reachable, atClient, calls, Snapshot(), atPost);
      result := RemoveEntity(appID, ranPre, plan, Rest(calls), atPost);
    }

    /** The cutoff past the client, while the entity still exists; then the entity and its localized keys. */
    method RemoveEntity(appID: string, ranPre: bool, plan: Option<string>, faults: Faults, ghost start: Job)
      returns (result: Result)
      requires start == NewDelete(appID).(stage := Post, ranPre := ranPre, plan := plan)
      modifies this
      ensures (Snapshot(), result) == Drive(old(Snapshot()), start, faults)
      ensures audit == old(audit)
    {
      if Faulty(faults) { return Failed; }
      ghost var unreachable := Snapshot();
      if ranPre { RunRevocation(plan); }
      ghost var atEntity := start.(stage := EntityRow);
      CallSucceeds(unreachable, start, faults, Snapshot(), atEntity);

      var calls := Rest(faults);
      if Faulty(calls) { return Failed; }
      ghost var revoked := Snapshot();
      entities := entities - {appID};
      ghost var atKeys := start.(stage := Keys);
      CallSucceeds(revoked, atEntity, calls, Snapshot(), atKeys);

      calls := Rest(calls);
      result := RemoveLocalizedKeys(appID, if Faulty(calls) then Some(calls[0].value) else None);
      if result == Succeeded && !ranPre { result := NotFoundNoop; }
    }

    /** All fields are attempted; the call fails when one of them could not be removed. */
    method RemoveLocalizedKeys(appID: string, fault: Option<set<string>>) returns (result: Result)
      modifies this`keys
      ensures result == if fault.Some? then Failed else Succeeded
      ensures Snapshot() == DropKeys(old(Snapshot()), appID,
                                     if fault.Some? then fault.value * LOCALIZED_FIELDS else LOCALIZED_FIELDS)
    {
      var fields := ["name", "logo_uri", "tos_uri", "policy_uri"];
      ghost var before := keys;
      result := Succeeded;
      for i := 0 to |fields|
        invariant keys == set k | k in before &&
            !(k.app == appID && k.field in fields[..i] && (fault.None? || k.field in fault.value))
      {
        if fault.None? || fields[i] in fault.value {
          keys := set k | k in keys && !(k.app == appID && k.field == fields[i]);
        }
      }
      assert fields[..|fields|] == fields;
      if fault.Some? { result := Failed; }
    }

    method CreateApplication(appID: string, request: Option<OAuthRequest>, generated: Generated, faults: Faults)
      returns (result: Result)
      modifies this
      ensures (Snapshot(), result) == Drive(old(Snapshot()), NewCreate(appID, request, generated), faults)
      ensures audit == old(audit) +
                       [AuditEvent(CreateAction, if result == Succeeded then appID else "", result == Succeeded)]
    {
      result := AddApplication(appID, request, generated, faults);
      Publish(CreateAction, if result == Succeeded then appID else "", result);
    }

    method AddApplication(appID: string, request: Option<OAuthRequest>, generated: Generated, faults: Faults)
      returns (result: Result)
      modifies this
      ensures (Snapshot(), result) == Drive(old(Snapshot()), NewCreate(appID, request, generated), faults)
      ensures audit == old(audit)
    {
      ghost var start := NewCreate(appID, request, generated);
      var resolved := request;
      if Faulty(faults) { return Failed; }
      if request.Some? {
        var named := request.value;
        if named.clientId == "" {
          named := named.(clientId := generated.clientId);
        } else if IsTaken(entities, named.clientId, appID) != Free {
          return Refused;
        }
        named := ResolveSecret(named, None, generated);
        if !ValidProfile(named) { return Refused; }
        resolved := Some(named);
      }
      ghost var atEntity := start.(request := resolved, stage := EntityRow);
      CallSucceeds(Snapshot(), start, faults, Snapshot(), atEntity);
      result := WriteApplication(appID, resolved, Rest(faults), atEntity);
    }

    /** The entity, then its inbound client; the entity is removed again when the client cannot be created. */
    method WriteApplication(appID: string, request: Option<OAuthRequest>, faults: Faults, ghost start: Job)
      returns (result: Result)
      requires start.kind == Create && start.id == appID && start.stage == EntityRow && start.request == request
      modifies this
      ensures (Snapshot(), result) == Drive(old(Snapshot()), start, faults)
      ensures audit == old(audit)
    {
      if Faulty(faults) { return Failed; }
      if appID in entities { return Refused; }
      ghost var before := Snapshot();
      var secret := None;
      if request.Some? && request.value.secret != "" { secret := Some(request.value.secret); }
      entities := entities[appID := Entity(Application, false, NewClientId(request), secret)];
      ghost var atClient := start.(stage := Client);
      CallSucceeds(before, start, faults, Snapshot(), atClient);

      var calls := Rest(faults);
      if Faulty(calls) || appID in clients {
        ghost var compensating := start.(stage := Compensate);
        assert Drive(Snapshot(), atClient, calls) == Drive(Snapshot(), compensating, Rest(calls));
        if !Faulty(Rest(calls)) { entities := entities - {appID}; }
        return Failed;
      }
      clients := clients[appID := NewProfile(request)];
      return Succeeded;
    }

    method UpdateApplication(appID: string, request: Option<OAuthRequest>, generated: Generated, faults: Faults)
      returns (result: Result)
      modifies this
      ensures (Snapshot(), result) == Drive(old(Snapshot()), NewUpdate(appID, request, generated), faults)
      ensures audit == old(audit) + [AuditEvent(UpdateAction, appID, result == Succeeded)]
    {
      result := ChangeApplication(appID, request, generated, faults);
      Publish(UpdateAction, appID, result);
    }

    method ChangeApplication(appID: string, request: Option<OAuthRequest>, generated: Generated, faults: Faults)
      returns (result: Result)
      modifies this
      ensures (Snapshot(), result) == Drive(old(Snapshot()), NewUpdate(appID, request, generated), faults)
      ensures audit == old(audit)
    {
      ghost var whole := Drive(Snapshot(), NewUpdate(appID, request, generated), faults);
      ghost var job := NewUpdate(appID, request, generated);
      var calls, resolved, change, plan := faults, request, Unchanged, None;

      if Faulty(calls) { return Failed; }
      if appID !in entities || appID !in clients || entities[appID].category != Application { return Refused; }
      if entities[appID].declared { return Refused; }
      if request.Some? {
        var current := if clients[appID].Some? then entities[appID].clientId else None;
        var named := request.value;
        if named.clientId == "" {
          named := named.(clientId := generated.clientId);
        } else if current != Some(named.clientId) && IsTaken(entities, named.clientId, appID) != Free {
          return Refused;
        }
        named := ResolveSecret(named, clients[appID], generated);
        if !ValidProfile(named) { return Refused; }
        resolved := Some(named);
        change := Disposition(Snapshot(), appID, resolved);
      }
      calls := Rest(calls);
      if change == Rotated {
        job := job.(request := resolved, change := change, stage := Pre);
        assert whole == Drive(Snapshot(), job, calls);
        if Faulty(calls) { return Failed; }
        if flowsOn {
          if entities[appID].clientId.None? { return Refused; }
          plan := entities[appID].clientId;
          RunRevocation(plan);
        }
        calls := Rest(calls);
      }
      job := job.(request := resolved, change := change, plan := plan, stage := Client);
      assert whole == Drive(Snapshot(), job, calls);
      result := WriteUpdate(appID, resolved, change, plan, calls, job);
    }

    /** The writes of an update: the inbound client, the entity's attributes, its secret, the cutoff past it. */
    method WriteUpdate(appID: string, request: Option<OAuthRequest>, change: SecretChange, plan: Option<string>,
                       faults: Faults, ghost start: Job) returns (result: Result)
      requires start.kind == Update && start.id == appID && start.stage == Client
      requires start.request == request && start.change == change && start.plan == plan
      requires appID in entities && appID in clients
      modifies this
      ensures (Snapshot(), result) == Drive(old(Snapshot()), start, faults)
      ensures audit == old(audit)
    {
      if Faulty(faults) { return Failed; }
      ghost var before := Snapshot();
      clients := clients[appID := NewProfile(request)];
      ghost var atAttributes := start.(stage := Attributes);
      CallSucceeds(before, start, faults, Snapshot(), atAttributes);

      var calls := Rest(faults);
      if Faulty(calls) { return Failed; }
      ghost var switched := Snapshot();
      entities := entities[appID := entities[appID].(clientId := NewClientId(request))];
      if !WritesSecret(request, change) { return Succeeded; }
      ghost var atCredentials := start.(stage := Credentials);
      CallSucceeds(switched, atAttributes, calls, Snapshot(), atCredentials);
      result := WriteSecret(appID, request.value.secret, change, plan, Rest(calls), atCredentials);
    }

    /** The credential, and the cutoff past it when it replaces one. */
    method WriteSecret(appID: string, secret: string, change: SecretChange, plan: Option<string>,
                       faults: Faults, ghost start: Job) returns (result: Result)
      requires start.kind == Update && start.id == appID && start.stage == Credentials
      requires start.request.Some? && start.request.value.secret == secret
      requires start.change == change && start.plan == plan && appID in entities
      modifies this
      ensures (Snapshot(), result) == Drive(old(Snapshot()), start, faults)
      ensures audit == old(audit)
    {
      if Faulty(faults) || Blank(secret) { return Failed; }
      ghost var before := Snapshot();
      entities := entities[appID := entities[appID].(secret := Some(secret))];
      if change != Rotated { return Succeeded; }
      ghost var atPost := start.(stage := Post);
      CallSucceeds(before, start, faults, Snapshot(), atPost);

      if Faulty(Rest(faults)) { return Failed; }
      RunRevocation(plan);
      return Succeeded;
    }

    /** Generates a new client secret; the returned value is the only time it is readable. */
    method RegenerateSecret(appID: string, generated: Generated, faults: Faults)
      returns (result: Result, secret: string)
      modifies this
      ensures (Snapshot(), result) == Drive(old(Snapshot()), NewRegenerate(appID, generated), faults)
      ensures result == Succeeded ==> SecretStored(Snapshot(), appID) && entities[appID].secret == Some(secret)
      ensures audit == old(audit)
    {
      ghost var job := NewRegenerate(appID, generated).(stage := Credentials);
      secret := "";
      if Faulty(faults) { return Failed, secret; }
      if appID !in entities || entities[appID].category != Application || entities[appID].declared
         || entities[appID].clientId.None? || !ClientUsesSecret(Snapshot(), appID) {
        return Refused, secret;
      }
      assert Drive(Snapshot(), NewRegenerate(appID, generated), faults) == Drive(Snapshot(), job, Rest(faults));
      if Faulty(Rest(faults)) || Blank(generated.secret) { return Failed, secret; }
      secret := generated.secret;
      entities := entities[appID := entities[appID].(secret := Some(secret))];
      return Succeeded, secret;
    }
  }
}

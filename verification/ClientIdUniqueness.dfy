/** No two entities hold the same client id, across applications and agents. */
module ClientIdUniqueness {
  import opened Wrappers
  import opened Stores
  import opened ClientIds
  import opened ApplicationJobs
  import opened ApplicationCalls
  import opened ApplicationRequests

  ghost predicate Unique(entities: map<string, Entity>) {
    forall a, b :: a in entities && b in entities && a != b && entities[a].clientId.Some? ==>
      entities[a].clientId != entities[b].clientId
  }

  /** Nobody but `id` holds the client id. */
  ghost predicate FreeFor(entities: map<string, Entity>, clientId: string, id: string) {
    forall other :: other in entities && entities[other].clientId == Some(clientId) ==> other == id
  }

  /** On unique client ids, the availability check answers for the entity it excludes and for nobody else. */
  lemma CheckIsExact(entities: map<string, Entity>, clientId: string, excludeId: string)
    requires Unique(entities)
    ensures IsTaken(entities, clientId, excludeId) == Free <==>
              Holders(entities, clientId) == {} || (excludeId != "" && Holders(entities, clientId) == {excludeId})
  {
    if id :| id in Holders(entities, clientId) {
      assert forall other :: other in Holders(entities, clientId) ==> other == id;
      assert Holders(entities, clientId) == {id};
    }
  }

  lemma FreeMeansFreeFor(entities: map<string, Entity>, clientId: string, id: string)
    requires Unique(entities) && IsTaken(entities, clientId, id) == Free
    ensures FreeFor(entities, clientId, id)
  {
    CheckIsExact(entities, clientId, id);
    forall other | other in entities && entities[other].clientId == Some(clientId) ensures other == id {
      assert other in Holders(entities, clientId);
    }
  }

  // Applications

  /** The client id a job is about to write is free for its application. */
  ghost predicate ClaimHolds(s: Stores, j: Job) {
    j.kind in {Create, Update} ==>
      if j.stage == Load
      then Holders(s.entities, j.generated.clientId) == {}
      else j.request.Some? ==> FreeFor(s.entities, j.request.value.clientId, j.id)
  }

  lemma LoadClaims(s: Stores, j: Job)
    requires Unique(s.entities) && ClaimHolds(s, j) && j.stage == Load && j.kind in {Create, Update}
    ensures StepJob(s, j).0 == s
    ensures StepJob(s, j).1.Continue? ==> StepJob(s, j).1.job.stage != Load && ClaimHolds(s, StepJob(s, j).1.job)
  {
    if j.request.Some? {
      var named := WithClientId(j.request.value, j.generated).clientId;
      if j.request.value.clientId == "" {
        assert forall other :: other in s.entities && s.entities[other].clientId == Some(named) ==>
            other in Holders(s.entities, named);
      } else if IsTaken(s.entities, named, j.id) == Free {
        FreeMeansFreeFor(s.entities, named, j.id);
      }
    }
  }

  /** A call writes at most one entity, and gives it at most the client id its job has claimed. */
  ghost predicate WritesClaim(s: Stores, s': Stores, j: Job) {
    && (forall id :: id in s'.entities && id != j.id ==> id in s.entities && s'.entities[id] == s.entities[id])
    && (j.id in s'.entities && s'.entities[j.id].clientId.Some? ==>
          || (j.id in s.entities && s'.entities[j.id].clientId == s.entities[j.id].clientId)
          || (j.request.Some? && s'.entities[j.id].clientId == Some(j.request.value.clientId)
              && j.kind in {Create, Update} && j.stage != Load))
  }

  lemma CreateWritesClaim(s: Stores, j: Job)
    requires j.kind == Create
    ensures WritesClaim(s, StepCreate(s, j).0, j)
  {
  }

  lemma UpdateWritesClaim(s: Stores, j: Job)
    requires j.kind == Update
    ensures WritesClaim(s, StepUpdate(s, j).0, j)
  {
  }

  lemma OthersWriteClaim(s: Stores, j: Job)
    requires j.kind in {Delete, Share, Regenerate}
    ensures WritesClaim(s, StepJob(s, j).0, j)
    ensures StepJob(s, j).1.Continue? ==> StepJob(s, j).1.job.kind == j.kind
  {
  }

  lemma ClaimIsCarried(s: Stores, j: Job)
    requires j.kind in {Create, Update} && j.stage != Load && StepJob(s, j).1.Continue?
    ensures var next := StepJob(s, j).1.job;
            next.stage != Load && next.id == j.id && next.request == j.request && next.kind == j.kind
  {
  }

  lemma CallKeepsUnique(s: Stores, j: Job)
    requires Unique(s.entities) && ClaimHolds(s, j)
    ensures Unique(StepJob(s, j).0.entities)
    ensures StepJob(s, j).1.Continue? ==> ClaimHolds(StepJob(s, j).0, StepJob(s, j).1.job)
  {
    var (s', progress) := StepJob(s, j);
    if j.kind == Create { CreateWritesClaim(s, j); }
    else if j.kind == Update { UpdateWritesClaim(s, j); }
    else { OthersWriteClaim(s, j); }
    assert WritesClaim(s, s', j);
    if j.kind in {Create, Update} {
      if j.stage == Load { LoadClaims(s, j); } else if progress.Continue? { ClaimIsCarried(s, j); }
    }
  }

  /** A call of the application service, stopped anywhere, keeps client ids unique. */
  lemma {:induction false} ApplicationCallKeepsUnique(s: Stores, j: Job, faults: Faults)
    requires Unique(s.entities) && ClaimHolds(s, j)
    ensures Unique(Drive(s, j, faults).0.entities)
    decreases Rank(j)
  {
    var (s', progress) := NextCall(s, j, faults);
    RankFalls(s, j, if Faulty(faults) then faults[0].value else {});
    CallKeepsUnique(s, j);
    if progress.Continue? {
      ApplicationCallKeepsUnique(s', progress.job, Rest(faults));
    }
  }

  // Agents

  /** The client id an agent is created with, None when the request is refused. */
  function AgentCreateClaim(entities: map<string, Entity>, id: string, requested: Option<string>, generated: string)
    : Option<Option<string>>
  {
    if requested.None? then Some(None)
    else if requested.value == "" then Some(Some(generated))
    else if IsTaken(entities, requested.value, "") != Free then None
    else Some(requested)
  }

  /**
   The client id an agent is updated to. The check for a new one is told to exclude the entity whose id is the
   agent's current client id.
   */
  function AgentUpdateClaim(entities: map<string, Entity>, id: string, requested: Option<string>, generated: string)
    : Option<Option<string>>
    requires id in entities
  {
    var current := if entities[id].clientId.Some? then entities[id].clientId.value else "";
    if requested.None? then Some(None) else
    var wanted := if requested.value == "" then current else requested.value;
    if wanted == "" then Some(Some(generated))
    else if wanted != current && IsTaken(entities, wanted, current) != Free then None
    else Some(Some(wanted))
  }

  function WithAgent(entities: map<string, Entity>, id: string, claim: Option<Option<string>>): map<string, Entity> {
    if claim.None? then entities
    else if id in entities then entities[id := entities[id].(clientId := claim.value)]
    else entities[id := Entity(Agent, false, claim.value, None)]
  }

  /** An agent is created with the client id it names if nobody holds it, with a generated one, or without a client. */
  lemma CreateClaims(s: Stores, id: string, requested: Option<string>, generated: string)
    ensures AgentCreateClaim(s.entities, id, requested, generated) ==
            match requested
            case None => Some(None)
            case Some(named) =>
              if named == "" then Some(Some(generated))
              else if exists other :: other in s.entities && s.entities[other].clientId == Some(named) then None
              else Some(Some(named))
  {
    if requested.Some? {
      FreeExactly(s, "", requested.value);
      if NobodyElseHolds(s, "", requested.value) {
        assert forall other :: !(other in s.entities && s.entities[other].clientId == Some(requested.value));
      }
    }
  }

  /**
   An agent keeps its client id when it names none or the same, gets a generated one when it has none, and another one
   if nobody holds it but the entity that has the current client id for its id.
   */
  lemma UpdateClaims(s: Stores, id: string, requested: Option<string>, generated: string)
    requires id in s.entities
    ensures var current := if s.entities[id].clientId.Some? then s.entities[id].clientId.value else "";
            AgentUpdateClaim(s.entities, id, requested, generated) ==
            match requested
            case None => Some(None)
            case Some(named) =>
              if named in {"", current} then Some(Some(if current == "" then generated else current))
              else if NobodyElseHolds(s, current, named) then Some(Some(named))
              else None
  {
    var current := if s.entities[id].clientId.Some? then s.entities[id].clientId.value else "";
    if requested.Some? { FreeExactly(s, current, requested.value); }
  }

  /**
   Exactly when an agent update can hand out a client id twice: the agent's current client id is also the id of
   another entity, and that entity is the one holding the requested client id.
   */
  lemma AgentUpdateKeepsUniqueIff(entities: map<string, Entity>, id: string, requested: Option<string>,
      generated: string)
    requires Unique(entities) && id in entities && Holders(entities, generated) == {}
    ensures var current := if entities[id].clientId.Some? then entities[id].clientId.value else "";
            Unique(WithAgent(entities, id, AgentUpdateClaim(entities, id, requested, generated))) <==>
            !(requested.Some? && requested.value !in {"", current} && current != "" && current != id
              && Holds(entities, current, requested.value))
  {
    var current := if entities[id].clientId.Some? then entities[id].clientId.value else "";
    var claim := AgentUpdateClaim(entities, id, requested, generated);
    var entities' := WithAgent(entities, id, claim);
    if requested.Some? {
      var wanted := if requested.value == "" then current else requested.value;
      CheckIsExact(entities, wanted, current);
      forall other | other in entities && other != id && claim.Some? && claim.value.Some?
                     && entities[other].clientId == claim.value
        ensures requested.value !in {"", current} && other == current && current != "" && claim.value == Some(wanted)
      {
        assert other in Holders(entities, generated) || other in Holders(entities, wanted);
      }
      if requested.value !in {"", current} && current != "" && current != id && Holds(entities, current, wanted) {
        assert current in Holders(entities, wanted);
        forall other | other in Holders(entities, wanted) ensures other == current {}
        assert Holders(entities, wanted) == {current} && claim == Some(Some(wanted));
        assert current in entities' && id in entities' && entities'[id].clientId == Some(wanted);
        assert entities'[current].clientId == entities'[id].clientId;
      } else {
        OneClaimStaysUnique(entities, id, claim);
      }
    } else {
      OneClaimStaysUnique(entities, id, claim);
    }
  }

  lemma OneClaimStaysUnique(entities: map<string, Entity>, id: string, claim: Option<Option<string>>)
    requires Unique(entities)
    requires forall other :: other in entities && other != id && claim.Some? && claim.value.Some? ==>
               entities[other].clientId != claim.value
    ensures Unique(WithAgent(entities, id, claim))
  {
  }

  /** An agent whose client id is the id of another entity is given that entity's client id. */
  lemma AgentUpdateHandsOutTwice()
    ensures var entities := map["x" := Entity(Agent, false, Some("y"), None),
                                "y" := Entity(Agent, false, Some("c"), None)];
            var updated := WithAgent(entities, "x", AgentUpdateClaim(entities, "x", Some("c"), "generated"));
            Unique(entities) && Holds(updated, "x", "c") && Holds(updated, "y", "c")
  {
    var entities := map["x" := Entity(Agent, false, Some("y"), None), "y" := Entity(Agent, false, Some("c"), None)];
    assert Holders(entities, "c") == {"y"};
    CheckIsExact(entities, "c", "y");
  }

  // Any sequence of operations

  datatype Operation =
    | ApplicationCall(job: Job, faults: Faults)
    | AgentCreate(id: string, requested: Option<string>, generated: string, written: bool)
    | AgentUpdate(id: string, requested: Option<string>, generated: string, written: bool)
    | EntityDelete(id: string)

  /** `written` is false when a store failure, or the compensation after one, leaves no trace of the write. */
  function Apply(s: Stores, op: Operation): Stores {
    match op
    case ApplicationCall(job, faults) => Drive(s, job, faults).0
    case AgentCreate(id, requested, generated, written) =>
      if !written || id in s.entities then s
      else s.(entities := WithAgent(s.entities, id, AgentCreateClaim(s.entities, id, requested, generated)))
    case AgentUpdate(id, requested, generated, written) =>
      if !written || id !in s.entities then s
      else s.(entities := WithAgent(s.entities, id, AgentUpdateClaim(s.entities, id, requested, generated)))
    case EntityDelete(id) => DropEntity(s, id)
  }

  /** Generated client ids are new, and no entity's id is a client id in use. */
  ghost predicate Assumed(s: Stores, op: Operation) {
    && (forall id :: id in s.entities && s.entities[id].clientId.Some? ==> s.entities[id].clientId.value !in s.entities)
    && match op
       case ApplicationCall(job, _) => job.stage == Load && Holders(s.entities, job.generated.clientId) == {}
       case AgentCreate(_, _, generated, _) => Holders(s.entities, generated) == {}
       case AgentUpdate(_, _, generated, _) => Holders(s.entities, generated) == {}
       case EntityDelete(_) => true
  }

  ghost predicate AssumedThroughout(s: Stores, ops: seq<Operation>)
    decreases |ops|
  {
    ops == [] || (Assumed(s, ops[0]) && AssumedThroughout(Apply(s, ops[0]), ops[1..]))
  }

  function ApplyAll(s: Stores, ops: seq<Operation>): Stores
    decreases |ops|
  {
    if ops == [] then s else ApplyAll(Apply(s, ops[0]), ops[1..])
  }

  lemma OperationKeepsUnique(s: Stores, op: Operation)
    requires Unique(s.entities) && Assumed(s, op)
    ensures Unique(Apply(s, op).entities)
  {
    match op {
      case ApplicationCall(job, faults) => ApplicationCallKeepsUnique(s, job, faults);
      case AgentCreate(id, requested, generated, written) =>
        if requested.Some? && requested.value != "" {
          CheckIsExact(s.entities, requested.value, "");
        }
        forall other, clientId | other in s.entities && s.entities[other].clientId == Some(clientId)
          ensures other in Holders(s.entities, clientId) {}
      case AgentUpdate(id, requested, generated, written) =>
        if id in s.entities { AgentUpdateKeepsUniqueIff(s.entities, id, requested, generated); }
      case EntityDelete(id) =>
    }
  }

  /** Over any sequence of application and agent operations, no two entities ever hold the same client id. */
  lemma {:induction false} ClientIdsStayUnique(s: Stores, ops: seq<Operation>)
    requires Unique(s.entities) && AssumedThroughout(s, ops)
    ensures Unique(ApplyAll(s, ops).entities)
    decreases |ops|
  {
    if ops != [] {
      OperationKeepsUnique(s, ops[0]);
      ClientIdsStayUnique(Apply(s, ops[0]), ops[1..]);
    }
  }
}

/**
 The stored lifespans of all agents and the log of lifespan events, across whole runs of the agent service. Every
 store call can fail. The log alone tells what is stored, except after a registration that could neither finish nor
 be undone.
 */
module AgentLifespans {
  import opened Wrappers
  import opened Lifespans
  import opened LifespanUpdates

  datatype Agent = Agent(lifespan: Stored, readOnly: bool)

  datatype State = State(agents: map<string, Agent>, log: seq<Event>)

  /** Why another part of an update refused it. */
  datatype Refusal = Unauthorized | OtherReason

  /** Where the transaction of an update fails, if it does. */
  datatype WriteFault = NoFault | EntityUpdateFails | SetterFails | ReadBackFails | CommitFails

  /**
   What an update meets on its way: `early` is a refusal or failure before the agent is known, `credentialFails` the
   failure to store a new client secret once the update is committed.
   */
  datatype UpdateContext = UpdateContext(
    early: bool, restore: bool, now: int, access: Option<Refusal>, preparation: Option<Refusal>, write: WriteFault,
    credentialFails: bool)

  /** What a registration meets on its way; `undoFails` matters only once the inbound client has failed. */
  datatype CreateContext = CreateContext(
    restore: bool, now: int, refused: bool, entityFails: bool, inboundFails: bool, undoFails: bool)

  datatype Operation =
    | Create(created: string, validUntil: Option<string>, createContext: CreateContext)
    | Update(updated: string, requested: Requested, updateContext: UpdateContext)
    | Delete(deleted: string, entityDeleted: bool)

  function FailureOf(refusal: Refusal): Failure {
    if refusal.Unauthorized? then NotAuthorized else OperationFailed
  }

  predicate WriteFails(u: LifespanUpdate, fault: WriteFault) {
    fault in {EntityUpdateFails, CommitFails} || (u.changing && fault in {SetterFails, ReadBackFails})
  }

  /** The first reason an update fails, none when it commits. */
  function Verdict(agent: Agent, u: LifespanUpdate, c: UpdateContext): Option<Failure> {
    if agent.readOnly then Some(ReadOnly)
    else if c.access.Some? then Some(FailureOf(c.access.value))
    else if u.changing && Refused(u, c.restore, c.now) then Some(InvalidLifespan)
    else if c.preparation.Some? then Some(FailureOf(c.preparation.value))
    else if WriteFails(u, c.write) then Some(OperationFailed)
    else None
  }

  function Failed(id: string, u: LifespanUpdate, failure: Failure): seq<Event> {
    if u.changing then [Event(id, UPDATE_FAILED(failure), StoredForm(u.previous), u.next.Text())] else []
  }

  /** Publishes the failure of an update, or writes and publishes its change. */
  function Applied(s: State, id: string, u: LifespanUpdate, verdict: Option<Failure>, now: int): State
    requires id in s.agents
  {
    if verdict.Some? then s.(log := s.log + Failed(id, u, verdict.value))
    else if !u.changing then s
    else State(s.agents[id := s.agents[id].(lifespan := Text(u.next.Text()))],
               s.log + ChangeEvents(id, u.previous, u.next, now))
  }

  function AfterUpdate(s: State, id: string, requested: Requested, c: UpdateContext): State {
    if c.early || id !in s.agents then s else
    var u := NewUpdate(s.agents[id].lifespan, requested);
    Applied(s, id, u, Verdict(s.agents[id], u, c), c.now)
  }

  /** The end a registration asks for: unbounded when it asks for none, and in the future unless it restores. */
  function RegisteredEnd(validUntil: Option<string>, restore: bool, now: int): Option<LifespanEnd> {
    if validUntil.None? then Some(UNBOUNDED)
    else match ParseEnd(validUntil.value)
      case None => None
      case Some(end) => if !restore && end.bounded && !(end.at > now) then None else Some(end)
  }

  /** Storing the entity, then its inbound client, then undoing the entity if that failed. */
  function Registered(s: State, id: string, text: string, c: CreateContext): State {
    var agents := s.agents[id := Agent(Text(text), false)];
    if !c.inboundFails then State(agents, s.log + [Event(id, SET, "", text)])
    else if c.undoFails then s.(agents := agents)
    else s
  }

  function AfterCreate(s: State, id: string, validUntil: Option<string>, c: CreateContext): State {
    var end := RegisteredEnd(validUntil, c.restore, c.now);
    if c.refused || end.None? || c.entityFails || id in s.agents then s else Registered(s, id, end.value.Text(), c)
  }

  function AfterDelete(s: State, id: string, entityDeleted: bool): State {
    if id in s.agents && !s.agents[id].readOnly && entityDeleted then s.(agents := s.agents - {id}) else s
  }

  function Step(s: State, op: Operation): State {
    match op
    case Create(id, validUntil, c) => AfterCreate(s, id, validUntil, c)
    case Update(id, requested, c) => AfterUpdate(s, id, requested, c)
    case Delete(id, entityDeleted) => AfterDelete(s, id, entityDeleted)
  }

  function Run(s: State, ops: seq<Operation>): State
    decreases |ops|
  {
    if ops == [] then s else Run(Step(s, ops[0]), ops[1..])
  }

  // What the log says

  predicate IsSuccess(e: Event) {
    !e.kind.UPDATE_FAILED?
  }

  /** The end of an agent according to the log, starting from what it was before the log began. */
  function Replay(base: Option<LifespanEnd>, log: seq<Event>, id: string): Option<LifespanEnd> {
    if log == [] then base else
    var last := log[|log| - 1];
    if last.agent == id && IsSuccess(last) then StoredEnd(Text(last.next)) else Replay(base, log[..|log| - 1], id)
  }

  function End(s: State, id: string): Option<LifespanEnd> {
    if id in s.agents then StoredEnd(s.agents[id].lifespan) else None
  }

  /** The log tells what is stored for an agent that exists. */
  predicate Faithful(s: State, base: Option<LifespanEnd>, id: string) {
    id in s.agents ==> Replay(base, s.log, id) == End(s, id)
  }

  /** A registration that stored the agent and then could neither finish nor be undone. */
  predicate Stuck(s: State, op: Operation, id: string) {
    op.Create? && op.created == id && id !in s.agents && id in Step(s, op).agents && op.createContext.inboundFails
  }

  lemma ReplayAppends(base: Option<LifespanEnd>, log: seq<Event>, e: Event, id: string)
    ensures Replay(base, log + [e], id) ==
            if e.agent == id && IsSuccess(e) then StoredEnd(Text(e.next)) else Replay(base, log, id)
  {
    assert (log + [e])[..|log|] == log;
  }

  lemma ReplayFailed(base: Option<LifespanEnd>, log: seq<Event>, agent: string, u: LifespanUpdate, f: Failure,
      id: string)
    ensures Replay(base, log + Failed(agent, u, f), id) == Replay(base, log, id)
  {
    if u.changing {
      ReplayAppends(base, log, Failed(agent, u, f)[0], id);
    } else {
      assert log + [] == log;
    }
  }

  lemma ReplayChange(base: Option<LifespanEnd>, log: seq<Event>, agent: string, previous: Option<LifespanEnd>,
                     next: LifespanEnd, now: int, id: string)
    ensures Replay(base, log + ChangeEvents(agent, previous, next, now), id)
            == if agent == id then StoredEnd(Text(next.Text())) else Replay(base, log, id)
  {
    var events := ChangeEvents(agent, previous, next, now);
    ReplayAppends(base, log, events[0], id);
    if |events| == 2 {
      ReplayAppends(base, log + [events[0]], events[1], id);
      assert log + events == log + [events[0]] + [events[1]];
    } else {
      assert events == [events[0]];
    }
  }

  lemma AppliedIsFaithful(s: State, agent: string, u: LifespanUpdate, verdict: Option<Failure>, now: int,
                          base: Option<LifespanEnd>, id: string)
    requires Faithful(s, base, id) && agent in s.agents && Storable(u.next)
    ensures Faithful(Applied(s, agent, u, verdict, now), base, id)
  {
    if verdict.Some? {
      ReplayFailed(base, s.log, agent, u, verdict.value, id);
    } else {
      ReplayChange(base, s.log, agent, u.previous, u.next, now, id);
      StoredReadsBack(u.next);
    }
  }

  lemma UpdateIsFaithful(s: State, agent: string, requested: Requested, c: UpdateContext,
      base: Option<LifespanEnd>, id: string)
    requires Faithful(s, base, id)
    ensures Faithful(AfterUpdate(s, agent, requested, c), base, id)
  {
    if agent in s.agents {
      var u := NewUpdate(s.agents[agent].lifespan, requested);
      NextIsStorable(s.agents[agent].lifespan, requested);
      AppliedIsFaithful(s, agent, u, Verdict(s.agents[agent], u, c), c.now, base, id);
    }
  }

  lemma RegisteredIsStorable(validUntil: Option<string>, restore: bool, now: int)
    ensures RegisteredEnd(validUntil, restore, now).Some? ==> Storable(RegisteredEnd(validUntil, restore, now).value)
  {
    if validUntil.Some? { ParsedIsStorable(validUntil.value); }
  }

  /** A registration leaves the log faithful exactly when it is not stuck, or the log happens to end on its end. */
  lemma CreateIsFaithfulExactly(s: State, op: Operation, base: Option<LifespanEnd>, id: string)
    requires op.Create? && Faithful(s, base, id)
    ensures Faithful(Step(s, op), base, id) <==> !Stuck(s, op, id) || Replay(base, s.log, id) == End(Step(s, op), id)
  {
    RegisteredIsStorable(op.validUntil, op.createContext.restore, op.createContext.now);
    var end := RegisteredEnd(op.validUntil, op.createContext.restore, op.createContext.now);
    if end.Some? {
      StoredReadsBack(end.value);
      ReplayAppends(base, s.log, Event(op.created, SET, "", end.value.Text()), id);
    }
  }

  /** Over any run, the events alone give the stored end of every agent whose registration was not stuck. */
  lemma {:induction false} LogRefinesStore(s: State, ops: seq<Operation>, base: Option<LifespanEnd>, id: string)
    requires Faithful(s, base, id)
    requires forall i :: 0 <= i < |ops| ==> !Stuck(Run(s, ops[..i]), ops[i], id)
    ensures Faithful(Run(s, ops), base, id)
    decreases |ops|
  {
    if ops != [] {
      var next := Step(s, ops[0]);
      assert Run(s, ops[..0]) == s;
      match ops[0] {
        case Create(_, _, _) => CreateIsFaithfulExactly(s, ops[0], base, id);
        case Update(agent, requested, c) => UpdateIsFaithful(s, agent, requested, c, base, id);
        case Delete(_, _) =>
      }
      forall i | 0 <= i < |ops| - 1 ensures !Stuck(Run(next, ops[1..][..i]), ops[1..][i], id) {
        assert ops[..i + 1][1..] == ops[1..][..i] && ops[..i + 1][0] == ops[0];
        assert Run(s, ops[..i + 1]) == Run(next, ops[1..][..i]);
        assert !Stuck(Run(s, ops[..i + 1]), ops[i + 1], id);
      }
      LogRefinesStore(next, ops[1..], base, id);
    }
  }

  /**
   Every event carries the end stored before the change, and on success the end stored after it; a success is
   published exactly when the end changed.
   */
  predicate Tells(events: seq<Event>, id: string, before: Option<LifespanEnd>, after: Option<LifespanEnd>) {
    && (forall e <- events :: e.agent == id && e.previous == StoredForm(before))
    && (forall e <- events | IsSuccess(e) :: e.next == StoredForm(after))
    && ((exists e <- events :: IsSuccess(e)) <==> after != before)
  }

  lemma ChangeTells(id: string, previous: Option<LifespanEnd>, next: LifespanEnd, now: int)
    requires Some(next) != previous
    ensures Tells(ChangeEvents(id, previous, next, now), id, previous, Some(next))
    ensures forall e <- ChangeEvents(id, previous, next, now) :: IsSuccess(e)
  {
    var events := ChangeEvents(id, previous, next, now);
    assert IsSuccess(events[0]) && events[0] in events;
  }

  lemma UnequalEnds(stored: Stored, requested: Requested)
    ensures var u := NewUpdate(stored, requested); u.changing && u.accepted ==> Some(u.next) != u.previous
  {
  }

  /** What an update did to the store and the log, in one statement. */
  predicate Explained(s: State, after: State, id: string) {
    && s.log <= after.log
    && Tells(after.log[|s.log|..], id, End(s, id), End(after, id))
    && ((exists e <- after.log[|s.log|..] :: !IsSuccess(e)) ==> after.agents == s.agents && |after.log| == |s.log| + 1)
    && after.agents.Keys == s.agents.Keys
    && (forall other <- s.agents | other != id :: after.agents[other] == s.agents[other])
  }

  lemma FailureIsExplained(s: State, id: string, u: LifespanUpdate, failure: Failure)
    requires id in s.agents && u.previous == End(s, id)
    ensures Explained(s, s.(log := s.log + Failed(id, u, failure)), id)
  {
    var events := Failed(id, u, failure);
    assert Tells(events, id, u.previous, u.previous);
    assert (s.log + events)[|s.log|..] == events;
  }

  lemma CommitIsExplained(s: State, after: State, id: string, events: seq<Event>)
    requires Tells(events, id, End(s, id), End(after, id)) && forall e <- events :: IsSuccess(e)
    requires after.log == s.log + events
    requires id in s.agents && id in after.agents && after.agents == s.agents[id := after.agents[id]]
    ensures Explained(s, after, id)
  {
    assert after.log[|s.log|..] == events;
  }

  lemma AppliedIsExplained(s: State, id: string, u: LifespanUpdate, verdict: Option<Failure>, now: int)
    requires id in s.agents && u.previous == End(s, id)
    requires u.changing && verdict.None? ==> Storable(u.next) && Some(u.next) != u.previous
    ensures Explained(s, Applied(s, id, u, verdict, now), id)
  {
    if verdict.Some? {
      FailureIsExplained(s, id, u, verdict.value);
    } else if u.changing {
      StoredReadsBack(u.next);
      ChangeTells(id, u.previous, u.next, now);
      CommitIsExplained(s, Applied(s, id, u, verdict, now), id, ChangeEvents(id, u.previous, u.next, now));
    }
  }

  /** Commits tell the change and touch no other agent; failures touch no agent and publish at most one event. */
  lemma EventsTellTheUpdate(s: State, id: string, requested: Requested, c: UpdateContext)
    ensures Explained(s, AfterUpdate(s, id, requested, c), id)
  {
    if id in s.agents {
      var u := NewUpdate(s.agents[id].lifespan, requested);
      var verdict := Verdict(s.agents[id], u, c);
      NextIsStorable(s.agents[id].lifespan, requested);
      if verdict.None? && u.changing { UnequalEnds(s.agents[id].lifespan, requested); }
      AppliedIsExplained(s, id, u, verdict, c.now);
    }
  }

  /** The end an update reports to its caller. */
  function ReportedEnd(u: LifespanUpdate): Option<LifespanEnd> {
    if u.changing then Some(u.next) else u.previous
  }

  /** A committed update reports what a later read finds stored. */
  lemma ReportedIsStored(s: State, id: string, requested: Requested, c: UpdateContext)
    requires id in s.agents && !c.early
    requires Verdict(s.agents[id], NewUpdate(s.agents[id].lifespan, requested), c).None?
    ensures End(AfterUpdate(s, id, requested, c), id) == ReportedEnd(NewUpdate(s.agents[id].lifespan, requested))
  {
    NextIsStorable(s.agents[id].lifespan, requested);
    StoredReadsBack(NewUpdate(s.agents[id].lifespan, requested).next);
  }

  /** A registration stores exactly the end it was asked for. */
  lemma RegisteredIsStored(s: State, id: string, validUntil: Option<string>, c: CreateContext)
    requires id !in s.agents && id in AfterCreate(s, id, validUntil, c).agents
    ensures End(AfterCreate(s, id, validUntil, c), id) == RegisteredEnd(validUntil, c.restore, c.now)
  {
    RegisteredIsStorable(validUntil, c.restore, c.now);
    StoredReadsBack(RegisteredEnd(validUntil, c.restore, c.now).value);
  }

  /**
   Registering and then failing at the inbound client and at undoing it leaves an agent with a lifespan that no event
   reports.
   */
  lemma StuckRegistrationIsUnreported()
    ensures exists s: State, op: Operation ::
              Stuck(s, op, "a") && s == State(map[], []) && !Faithful(Step(s, op), None, "a")
  {
    var s := State(map[], []);
    var op := Create("a", None, CreateContext(false, 0, false, false, true, true));
    StoredReadsBack(UNBOUNDED);
    assert Step(s, op).agents == map["a" := Agent(Text(UNBOUNDED.Text()), false)];
    assert Stuck(s, op, "a") && !Faithful(Step(s, op), None, "a");
  }
}

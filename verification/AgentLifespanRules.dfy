/**
 When the agent service changes a lifespan, and why it does not: each rule in terms of the request, the agent and what
 the call meets on its way.
 */
module AgentLifespanRules {
  import opened Wrappers
  import opened Timestamps
  import opened Lifespans
  import opened LifespanUpdates
  import opened AgentLifespans

  /** The end a request names: null is no end at all, and neither a missing field nor any other value names one. */
  function Named(requested: Requested): Option<LifespanEnd> {
    match requested
    case Null => Some(UNBOUNDED)
    case Value(text) => ParseEnd(text)
    case NoField => None
    case Other => None
  }

  /** An end that may be given now: never, later, or restored from an export. */
  predicate Allowed(end: LifespanEnd, restore: bool, now: int) {
    !end.bounded || now < end.at || restore
  }

  /** The request is about the lifespan, and would not leave it as it is. */
  predicate AsksForChange(s: State, id: string, requested: Requested) {
    requested != NoField && (Named(requested) == None || Named(requested) != End(s, id))
  }

  predicate AsksForAllowed(requested: Requested, restore: bool, now: int) {
    Named(requested).Some? && Allowed(Named(requested).value, restore, now)
  }

  lemma AskedIsNamed(s: State, id: string, requested: Requested, restore: bool, now: int)
    requires id in s.agents
    ensures var u := NewUpdate(s.agents[id].lifespan, requested);
            && u.previous == End(s, id)
            && (u.changing <==> AsksForChange(s, id, requested))
            && (requested != NoField && Named(requested).Some? ==> u.next == Named(requested).value)
            && (u.changing ==> (Refused(u, restore, now) <==> !AsksForAllowed(requested, restore, now)))
  {
  }

  /** An update commits exactly if nothing objects: what is asked is allowed, or nothing is asked of the lifespan. */
  lemma CommitsExactly(s: State, id: string, requested: Requested, c: UpdateContext)
    requires id in s.agents
    ensures Verdict(s.agents[id], NewUpdate(s.agents[id].lifespan, requested), c).None? <==>
            && !s.agents[id].readOnly && c.access == None && c.preparation == None
            && (AsksForChange(s, id, requested) ==> AsksForAllowed(requested, c.restore, c.now))
            && (c.write == NoFault ||
                (!AsksForChange(s, id, requested) && c.write in {SetterFails, ReadBackFails}))
  {
    AskedIsNamed(s, id, requested, c.restore, c.now);
  }

  /** Exactly when an update changes the stored end, and what it becomes. */
  lemma ChangesExactly(s: State, id: string, requested: Requested, c: UpdateContext)
    requires id in s.agents
    ensures var before, after := End(s, id), End(AfterUpdate(s, id, requested, c), id);
            && (after != before <==>
                  && !c.early && !s.agents[id].readOnly && c.access == None && c.preparation == None
                  && c.write == NoFault
                  && Named(requested).Some? && Named(requested) != before
                  && Allowed(Named(requested).value, c.restore, c.now))
            && (after != before ==> after == Named(requested))
  {
    AskedIsNamed(s, id, requested, c.restore, c.now);
    CommitsExactly(s, id, requested, c);
    NextIsStorable(s.agents[id].lifespan, requested);
    StoredReadsBack(NewUpdate(s.agents[id].lifespan, requested).next);
  }

  /** Null that commits leaves a lifespan that never ends, whatever was stored. */
  lemma NullLiftsTheBound(s: State, id: string, c: UpdateContext)
    requires id in s.agents && !c.early && !s.agents[id].readOnly
    requires c.access == None && c.preparation == None && c.write == NoFault
    ensures var end := End(AfterUpdate(s, id, Null, c), id); end.Some? && !end.value.bounded
  {
    ChangesExactly(s, id, Null, c);
  }

  /** A request without the field leaves the stored value alone, character by character. */
  lemma NoFieldChangesNothing(s: State, id: string, c: UpdateContext)
    ensures AfterUpdate(s, id, NoField, c) == s
  {
    if id in s.agents { assert s.log + [] == s.log; }
  }

  /** What a failure says was asked for: what cannot be read is reported like a lifespan that never ends. */
  function AskedForm(requested: Requested): string {
    if Named(requested).Some? then Named(requested).value.Text() else "9999-12-31T23:59:59Z"
  }

  /** The update published one event, a failure of this class, with the end stored and the end asked for. */
  predicate Published(s: State, after: State, id: string, asked: string, failure: Failure) {
    after.log == s.log + [Event(id, UPDATE_FAILED(failure), StoredForm(End(s, id)), asked)]
  }

  lemma AppliedPublishes(
      s: State, id: string, u: LifespanUpdate, verdict: Option<Failure>, now: int, asked: string, failure: Failure)
    requires id in s.agents && u.previous == End(s, id)
    ensures Published(s, Applied(s, id, u, verdict, now), id, asked, failure) <==>
            u.changing && verdict == Some(failure) && asked == u.next.Text()
  {
    var after := Applied(s, id, u, verdict, now);
    if Published(s, after, id, asked, failure) {
      assert after.log[|s.log|] == Event(id, UPDATE_FAILED(failure), StoredForm(End(s, id)), asked);
    }
  }

  lemma AskedFormIsNext(s: State, id: string, requested: Requested)
    requires id in s.agents
    ensures var u := NewUpdate(s.agents[id].lifespan, requested); u.changing ==> u.next.Text() == AskedForm(requested)
  {
    assert UNBOUNDED_TEXT == "9999-12-31T23:59:59Z";
  }

  /** `allowed` says whether the end asked for may be given. */
  lemma VerdictInOrder(agent: Agent, u: LifespanUpdate, c: UpdateContext, allowed: bool)
    requires u.changing && (Refused(u, c.restore, c.now) <==> !allowed)
    ensures Verdict(agent, u, c) ==
            if agent.readOnly then Some(ReadOnly)
            else if c.access == Some(Unauthorized) then Some(NotAuthorized)
            else if c.access == Some(OtherReason) then Some(OperationFailed)
            else if !allowed then Some(InvalidLifespan)
            else if c.preparation == Some(Unauthorized) then Some(NotAuthorized)
            else if c.preparation == Some(OtherReason) || c.write != NoFault then Some(OperationFailed)
            else None
  {
  }

  /**
   A failure of a class is published exactly for an update that reached the agent, asked for a change, and met a reason
   of that class before any other: read-only, access, the end itself, the preparation, the write.
   */
  lemma FailuresInOrder(s: State, id: string, requested: Requested, c: UpdateContext, failure: Failure)
    requires id in s.agents
    ensures Published(s, AfterUpdate(s, id, requested, c), id, AskedForm(requested), failure) <==>
            && !c.early && AsksForChange(s, id, requested)
            && Some(failure) ==
               if s.agents[id].readOnly then Some(ReadOnly)
               else if c.access == Some(Unauthorized) then Some(NotAuthorized)
               else if c.access == Some(OtherReason) then Some(OperationFailed)
               else if !AsksForAllowed(requested, c.restore, c.now) then Some(InvalidLifespan)
               else if c.preparation == Some(Unauthorized) then Some(NotAuthorized)
               else if c.preparation == Some(OtherReason) || c.write != NoFault then Some(OperationFailed)
               else None
  {
    var u := NewUpdate(s.agents[id].lifespan, requested);
    AskedIsNamed(s, id, requested, c.restore, c.now);
    AskedFormIsNext(s, id, requested);
    AppliedPublishes(s, id, u, Verdict(s.agents[id], u, c), c.now, AskedForm(requested), failure);
    if u.changing { VerdictInOrder(s.agents[id], u, c, AsksForAllowed(requested, c.restore, c.now)); }
  }

  /** Exactly when a registration leaves an agent, with which end, and which event it publishes. */
  lemma RegistersExactly(s: State, id: string, validUntil: Option<string>, c: CreateContext)
    requires id !in s.agents
    ensures var after := AfterCreate(s, id, validUntil, c);
            var end := if validUntil == None then Some(UNBOUNDED) else ParseEnd(validUntil.value);
            var stored := !c.refused && !c.entityFails && end.Some? && Allowed(end.value, c.restore, c.now);
            && (id in after.agents <==> stored && (c.inboundFails ==> c.undoFails))
            && (id in after.agents ==> End(after, id) == end && !after.agents[id].readOnly)
            && (forall other :: other != id ==> (other in after.agents <==> other in s.agents))
            && (forall other <- s.agents :: after.agents[other] == s.agents[other])
            && after.log == s.log + if stored && !c.inboundFails then [Event(id, SET, "", end.value.Text())] else []
  {
    if id in AfterCreate(s, id, validUntil, c).agents { RegisteredIsStored(s, id, validUntil, c); }
    assert s.log + [] == s.log;
  }

  /** A delete removes exactly an agent that is not read-only, when its entity is deleted, and publishes nothing. */
  lemma DeletesExactly(s: State, id: string, entityDeleted: bool)
    ensures var after := AfterDelete(s, id, entityDeleted);
            && (id in after.agents <==> id in s.agents && (s.agents[id].readOnly || !entityDeleted))
            && (forall other :: other != id ==> (other in after.agents <==> other in s.agents))
            && (forall other <- after.agents :: after.agents[other] == s.agents[other])
            && after.log == s.log
  {
  }

  /** What a stored value means: absent and the reserved timestamp never end, and what cannot be read has no meaning. */
  lemma StoredMeans(stored: Stored)
    ensures StoredEnd(stored) ==
            match stored
            case Absent => Some(LifespanEnd(ZERO_TIME, false))
            case NotText => None
            case Text(text) =>
              if text == "9999-12-31T23:59:59Z" then Some(LifespanEnd(ZERO_TIME, false))
              else if Read(text) == None then None
              else Some(LifespanEnd(Read(text).value - Read(text).value % 1_000_000_000, true))
  {
    assert UNBOUNDED_TEXT == "9999-12-31T23:59:59Z";
  }
}

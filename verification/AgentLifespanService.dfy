/**
 The agent service's lifespan code as it runs: stores and event log are changed step by step, and any call can fail.
 */
module AgentLifespanServices {
  import opened Wrappers
  import opened Lifespans
  import opened LifespanUpdates
  import opened AgentLifespans

  class AgentLifespanService {
    var agents: map<string, Agent>
    var log: seq<Event>

    function Current(): State
      reads this
    {
      State(agents, log)
    }

    constructor ()
      ensures Current() == State(map[], [])
    {
      agents, log := map[], [];
    }

    method Publish(e: Event)
      modifies this`log
      ensures log == old(log) + [e]
    {
      log := log + [e];
    }

    /** A refused or failed update is published only when it carried a lifespan change. */
    method Refuse(id: string, u: LifespanUpdate, failure: Failure)
      modifies this`log
      ensures log == old(log) + Failed(id, u, failure)
    {
      if u.changing {
        Publish(Event(id, UPDATE_FAILED(failure), StoredForm(u.previous), u.next.Text()));
      }
    }

    /** Whether the update's lifespan may be written; a refusal is published. */
    method CheckUpdate(id: string, u: LifespanUpdate, restore: bool, now: int) returns (ok: bool)
      modifies this`log
      ensures ok <==> !(u.changing && Refused(u, restore, now))
      ensures log == old(log) + (if ok then [] else Failed(id, u, InvalidLifespan))
    {
      if !u.changing { return true; }
      var refused := !u.accepted;
      if !refused && !restore {
        refused := u.next.bounded && !(u.next.at > now);
      }
      if refused { Refuse(id, u, InvalidLifespan); }
      ok := !refused;
    }

    /** One transaction: the generic update carries the lifespan forward, then the change is set and read again. */
    method WriteUpdate(id: string, u: LifespanUpdate, fault: WriteFault) returns (ok: bool)
      requires id in agents
      modifies this`agents
      ensures ok <==> !WriteFails(u, fault)
      ensures agents == if ok && u.changing then old(agents)[id := old(agents)[id].(lifespan := Text(u.next.Text()))]
                        else old(agents)
    {
      if fault == EntityUpdateFails { return false; }
      var committed := agents;
      if u.changing {
        if fault == SetterFails { return false; }
        agents := agents[id := agents[id].(lifespan := Text(u.next.Text()))];
        if fault == ReadBackFails {
          agents := committed;
          return false;
        }
      }
      if fault == CommitFails {
        agents := committed;
        return false;
      }
      ok := true;
    }

    method PublishChanged(id: string, previous: Option<LifespanEnd>, next: LifespanEnd, now: int)
      modifies this`log
      ensures log == old(log) + ChangeEvents(id, previous, next, now)
    {
      var was, will := StoredForm(previous), next.Text();
      if previous.None? {
        Publish(Event(id, SET, was, will));
      } else if next.EndsAfter(previous.value) {
        Publish(Event(id, EXTENDED, was, will));
        if previous.value.Expired(now) && !next.Expired(now) {
          Publish(Event(id, REACTIVATED, was, will));
        }
      } else {
        Publish(Event(id, REDUCED, was, will));
      }
    }

    /** Publishes a committed change and answers the agent's end. */
    method CompleteUpdate(id: string, u: LifespanUpdate, now: int) returns (reported: Option<LifespanEnd>)
      modifies this`log
      ensures log == old(log) + (if u.changing then ChangeEvents(id, u.previous, u.next, now) else [])
      ensures reported == ReportedEnd(u)
    {
      if !u.changing { return u.previous; }
      PublishChanged(id, u.previous, u.next, now);
      reported := Some(u.next);
    }

    /** The update of an agent already read, its checks in order, up to its commit. */
    method ApplyUpdate(id: string, u: LifespanUpdate, c: UpdateContext)
      returns (committed: bool, reported: Option<LifespanEnd>)
      requires id in agents
      modifies this
      ensures Current() == Applied(old(Current()), id, u, Verdict(old(agents)[id], u, c), c.now)
      ensures committed <==> Verdict(old(agents)[id], u, c).None?
      ensures committed ==> reported == ReportedEnd(u)
    {
      committed, reported := false, None;
      if agents[id].readOnly {
        Refuse(id, u, ReadOnly);
        return;
      }
      if c.access.Some? {
        Refuse(id, u, FailureOf(c.access.value));
        return;
      }
      var ok := CheckUpdate(id, u, c.restore, c.now);
      if !ok { return; }
      if c.preparation.Some? {
        Refuse(id, u, FailureOf(c.preparation.value));
        return;
      }
      ok := WriteUpdate(id, u, c.write);
      if !ok {
        Refuse(id, u, OperationFailed);
        return;
      }
      reported := CompleteUpdate(id, u, c.now);
      committed := true;
    }

    /**
     The whole update. What is refused before the agent is known publishes nothing; a new client secret is stored after
     the commit, and when that fails the lifespan change stays made and published.
     */
    method UpdateAgent(id: string, requested: Requested, c: UpdateContext)
      returns (ok: bool, reported: Option<LifespanEnd>)
      modifies this
      ensures Current() == AfterUpdate(old(Current()), id, requested, c)
      ensures ok <==> !c.early && id in old(agents) && !c.credentialFails &&
                      Verdict(old(agents)[id], NewUpdate(old(agents)[id].lifespan, requested), c).None?
      ensures ok ==> reported == ReportedEnd(NewUpdate(old(agents)[id].lifespan, requested))
    {
      ok, reported := false, None;
      if c.early || id !in agents { return; }
      var u := NewUpdate(agents[id].lifespan, requested);
      ok, reported := ApplyUpdate(id, u, c);
      if c.credentialFails { ok, reported := false, None; }
    }

    method ResolveValidUntil(validUntil: Option<string>, restore: bool, now: int) returns (end: Option<LifespanEnd>)
      ensures end == RegisteredEnd(validUntil, restore, now)
    {
      if validUntil.None? { return Some(UNBOUNDED); }
      end := ParseEnd(validUntil.value);
      if end.Some? && !restore && end.value.bounded && !(end.value.at > now) { end := None; }
    }

    /** Stores a new agent; when its inbound client cannot be created the entity is deleted again, if that works. */
    method Register(id: string, text: string, c: CreateContext) returns (ok: bool)
      requires id !in agents
      modifies this
      ensures Current() == Registered(old(Current()), id, text, c)
      ensures ok ==> id in agents
    {
      ghost var before := agents;
      agents := agents[id := Agent(Text(text), false)];
      if c.inboundFails {
        if !c.undoFails {
          agents := agents - {id};
          assert agents == before;
        }
        return false;
      }
      Publish(Event(id, SET, "", text));
      ok := true;
    }

    method CreateAgent(id: string, validUntil: Option<string>, c: CreateContext) returns (ok: bool)
      modifies this
      ensures Current() == AfterCreate(old(Current()), id, validUntil, c)
      ensures ok ==> id !in old(agents) && id in agents
    {
      ok := false;
      if c.refused { return; }
      var end := ResolveValidUntil(validUntil, c.restore, c.now);
      if end.None? || c.entityFails || id in agents { return; }
      ok := Register(id, end.value.Text(), c);
    }

    /** Deleting an agent publishes no lifespan event. */
    method DeleteAgent(id: string, entityDeleted: bool)
      modifies this`agents
      ensures Current() == AfterDelete(old(Current()), id, entityDeleted)
    {
      if id in agents && !agents[id].readOnly && entityDeleted {
        agents := agents - {id};
      }
    }
  }
}

/** What deleting an application guarantees, over all runs and for one call. */
module ApplicationDeletion {
  import opened Wrappers
  import opened Stores
  import opened ApplicationJobs
  import opened ApplicationMachine
  import opened ApplicationCalls

  // Over every admissible run

  lemma EmptyIsSound(flowsOn: bool)
    ensures Quiet(Empty(flowsOn))
  {
  }

  /** In every reachable state a shared application has a client, and an application with a client has an entity. */
  lemma LayersHold(flowsOn: bool, es: seq<Event>)
    requires AdmissibleRun(Empty(flowsOn), es, BESIDE_DELETE)
    ensures Layered(Run(Empty(flowsOn), es).s)
  {
    EmptyIsSound(flowsOn);
    RunIsSound(Empty(flowsOn), es);
  }

  /**
   With system flows on, however deletes fail, are retried and overlap with issuance: once the entity of an
   application is gone, every token ever issued to it is revoked, unless an update had moved the application
   away from the client id the token was issued to, for good. Only deletes and regenerations overlap with a delete.
   */
  lemma NoTokenOutlivesItsApplication(es: seq<Event>, t: Token)
    requires AdmissibleRun(Empty(true), es, BESIDE_DELETE)
    requires var m := Run(Empty(true), es); t in m.s.tokens && t.app !in m.s.entities
    ensures var m := Run(Empty(true), es); Revoked(m.s, t) || (t.app, t.clientId) in m.moved
  {
    EmptyIsSound(true);
    RunIsSound(Empty(true), es);
    FlowsStayOn(Empty(true), es);
    assert TokenAccounted(Run(Empty(true), es), t);
  }

  /** What deletion promises of every state. */
  ghost predicate Promised(m: Machine) {
    && Layered(m.s)
    && (forall t :: t in m.s.tokens && t.app !in m.s.entities ==> Revoked(m.s, t) || (t.app, t.clientId) in m.moved)
  }

  lemma PromisesHold(es: seq<Event>)
    requires AdmissibleRun(Empty(true), es, BESIDE_DELETE)
    ensures Promised(Run(Empty(true), es))
  {
    LayersHold(true, es);
    var m := Run(Empty(true), es);
    forall t | t in m.s.tokens && t.app !in m.s.entities ensures Revoked(m.s, t) || (t.app, t.clientId) in m.moved {
      NoTokenOutlivesItsApplication(es, t);
    }
  }

  lemma {:induction false} FlowsStayOn(m: Machine, es: seq<Event>)
    ensures Run(m, es).s.flowsOn == m.s.flowsOn
    decreases |es|
  {
    if es != [] {
      if es[0].Advance? && es[0].pid in m.jobs {
        CallsAreFramed(m.s, m.jobs[es[0].pid]);
      }
      FlowsStayOn(Next(m, es[0]), es[1..]);
    }
  }

  /** An application about to be created again under an old id is neither shared nor reachable by an old token. */
  lemma NewApplicationStartsBare(es: seq<Event>, id: string)
    requires AdmissibleRun(Empty(true), es, BESIDE_DELETE)
    requires id !in Run(Empty(true), es).s.entities
    ensures var m := Run(Empty(true), es);
            !SharedWith(m.s, id) && id !in m.s.clients && Spent(m, id)
  {
    EmptyIsSound(true);
    RunIsSound(Empty(true), es);
    var m := Run(Empty(true), es);
    forall t | t in m.s.tokens && t.app == id ensures Revoked(m.s, t) || (id, t.clientId) in m.moved {
      NoTokenOutlivesItsApplication(es, t);
    }
  }

  // What revocation leaves alone

  predicate NoneAhead(s: Stores) {
    forall k <- s.cutoffs :: s.cutoffs[k] <= s.now
  }

  lemma DeleteKeepsNoneAhead(s: Stores, j: Job)
    requires NoneAhead(s)
    ensures NoneAhead(StepDelete(s, j).0)
  {
  }

  lemma UpdateKeepsNoneAhead(s: Stores, j: Job)
    requires NoneAhead(s)
    ensures NoneAhead(StepUpdate(s, j).0)
  {
  }

  lemma CallsKeepNoneAhead(s: Stores, j: Job)
    requires NoneAhead(s)
    ensures NoneAhead(StepJob(s, j).0) && StepJob(s, j).0.now == s.now
  {
    CallsAreFramed(s, j);
    match j.kind {
      case Delete => DeleteKeepsNoneAhead(s, j);
      case Update => UpdateKeepsNoneAhead(s, j);
      case _ =>
    }
  }

  /** No cutoff ever lies ahead of the time it was recorded at. */
  lemma {:induction false} RunKeepsNoneAhead(m: Machine, es: seq<Event>)
    requires NoneAhead(m.s)
    ensures NoneAhead(Run(m, es).s)
    decreases |es|
  {
    if es != [] {
      if es[0].Advance? && es[0].pid in m.jobs { CallsKeepNoneAhead(m.s, m.jobs[es[0].pid]); }
      if es[0].Fail? && es[0].pid in m.jobs { FailIsFramed(m.s, m.jobs[es[0].pid], es[0].reached); }
      RunKeepsNoneAhead(Next(m, es[0]), es[1..]);
    }
  }

  /** Whatever was updated, rotated and deleted before, a token issued once time has passed is live. */
  lemma LaterTokensAreLive(flowsOn: bool, es: seq<Event>, id: string, elapsed: nat)
    requires elapsed > 0
    requires CanIssue(Next(Run(Empty(flowsOn), es), Tick(elapsed)).s, id)
    ensures var later := Next(Run(Empty(flowsOn), es), Tick(elapsed));
            var issued := Next(later, Issue(id));
            IssuedToken(later.s, id) in issued.s.tokens && !Revoked(issued.s, IssuedToken(later.s, id))
  {
    RunKeepsNoneAhead(Empty(flowsOn), es);
  }

  /** Exactly whom a token is issued to, and what it says. */
  lemma IssuesExactly(m: Machine, id: string)
    ensures Next(m, Issue(id)) ==
            if id in m.s.entities && m.s.entities[id].clientId.Some? && id in m.s.clients && m.s.clients[id].Some? then
              var e, profile := m.s.entities[id], m.s.clients[id].value;
              var secretly := !profile.publicClient && profile.authMethod in {ClientSecretBasic, ClientSecretPost};
              if secretly && e.secret.None? then m
              else
                var token := Token(id, e.clientId.value, if secretly then e.secret else None, m.s.now);
                m.(s := m.s.(tokens := m.s.tokens + {token}))
            else m
  {
    if id in m.s.clients && m.s.clients[id].Some? { SecretMethods(m.s.clients[id].value); }
  }

  /** A client id is left exactly by an event after which the application is there and holds another one. */
  lemma LeavesExactly(m: Machine, e: Event, id: string, clientId: string)
    requires (id, clientId) !in m.moved
    ensures (id, clientId) in Next(m, e).moved <==>
            && ClientIdIn(m.s, id) == Some(clientId)
            && id in Next(m, e).s.entities && Next(m, e).s.entities[id].clientId != Some(clientId)
  {
    if e.Advance? && e.pid in m.jobs {
      CallsAreFramed(m.s, m.jobs[e.pid]);
    } else if e.Fail? && e.pid in m.jobs {
      FailIsFramed(m.s, m.jobs[e.pid], e.reached);
    }
  }

  // One uninterrupted call

  predicate Refusable(s: Stores, id: string) {
    id in s.entities &&
    (s.entities[id].category != Application || s.entities[id].declared ||
     (s.flowsOn && exists d :: d in s.dependents && d.app == id && d.blocking))
  }

  /** Nothing is stored for the id: not the entity, its client, a policy, a dependent or a localized key. */
  ghost predicate Gone(s: Stores, id: string) {
    && id !in s.entities && id !in s.clients && !SharedWith(s, id)
    && (forall d :: d in s.dependents ==> d.app != id)
    && (forall k :: k in s.keys && k.app == id ==> k.field !in {"name", "logo_uri", "tos_uri", "policy_uri"})
  }

  /** Everything stored for other applications is as it was. */
  ghost predicate OthersKept(s: Stores, s': Stores, id: string) {
    && s'.entities == s.entities - {id} && s'.clients == s.clients - {id}
    && (forall p :: p in s.policies && p.app != id <==> p in s'.policies)
    && (forall d :: d in s.dependents && d.app != id <==> d in s'.dependents)
    && (forall k :: k in s'.keys ==> k in s.keys)
    && (forall k :: k in s.keys && (k.app != id || k.field !in {"name", "logo_uri", "tos_uri", "policy_uri"}) ==>
          k in s'.keys)
    && s'.tokens == s.tokens && s'.now == s.now
  }

  function CurrentPlan(s: Stores, id: string): Option<string> {
    if s.flowsOn && id in s.entities then s.entities[id].clientId else None
  }

  /** The stores after the six removals of a delete and its two cutoff writes. */
  function Removed(s: Stores, id: string): Stores {
    var plan := CurrentPlan(s, id);
    var stripped := DropClient(DropPolicies(DropDependents(Revoke(s, plan), id), id), id);
    DropKeys(DropEntity(Revoke(stripped, plan), id), id, LOCALIZED_FIELDS)
  }

  lemma CascadeOnwards(s: Stores, j: Job)
    requires j.kind == Delete && j.stage == Cascade
    ensures var stripped := DropClient(DropPolicies(DropDependents(s, j.id), j.id), j.id);
            var revoked := if j.ranPre then Revoke(stripped, j.plan) else stripped;
            Drive(s, j, []) == (DropKeys(DropEntity(revoked, j.id), j.id, LOCALIZED_FIELDS),
                                if j.ranPre then Succeeded else NotFoundNoop)
  {
    var s1, j1 := DropDependents(s, j.id), j.(stage := Policies);
    var s2, j2 := DropPolicies(s1, j.id), j.(stage := Client);
    var s3, j3 := DropClient(s2, j.id), j.(stage := Post);
    var s4, j4 := if j.ranPre then Revoke(s3, j.plan) else s3, j.(stage := EntityRow);
    assert Drive(s, j, []) == Drive(s1, j1, []);
    assert Drive(s1, j1, []) == Drive(s2, j2, []);
    assert Drive(s2, j2, []) == Drive(s3, j3, []);
    assert Drive(s3, j3, []) == Drive(s4, j4, []);
    assert Drive(s4, j4, []) == Drive(DropEntity(s4, j.id), j.(stage := Keys), []);
  }

  lemma DeleteOutcome(s: Stores, id: string)
    ensures Drive(s, NewDelete(id), []) ==
            if Refusable(s, id) then (s, Refused)
            else (Removed(s, id), if id in s.entities then Succeeded else NotFoundNoop)
  {
    var j := NewDelete(id);
    if id !in s.entities {
      assert Drive(s, j, []) == Drive(s, j.(stage := Cascade), []);
      CascadeOnwards(s, j.(stage := Cascade));
    } else if s.entities[id].category == Application && !s.entities[id].declared {
      var atPre := j.(stage := Pre);
      assert Drive(s, j, []) == Drive(s, atPre, []);
      if !s.flowsOn || !Blocked(s, id) {
        var plan := CurrentPlan(s, id);
        var next := atPre.(stage := Cascade, ranPre := true, plan := plan);
        assert Drive(s, atPre, []) == Drive(Revoke(s, plan), next, []);
        CascadeOnwards(Revoke(s, plan), next);
      }
    }
  }

  /** Where nothing is left, removing changes nothing. */
  lemma RemovedIsRemoved(s: Stores, id: string)
    requires Gone(s, id)
    ensures Removed(s, id) == s
  {
    assert s.entities - {id} == s.entities && s.clients - {id} == s.clients;
    assert DropPolicies(s, id).policies == s.policies;
    assert DropDependents(s, id).dependents == s.dependents;
    assert DropKeys(s, id, LOCALIZED_FIELDS).keys == s.keys;
  }

  /**
   One failure-free delete, from any state whatever earlier deletes left behind: unless it is refused before
   anything is written, nothing is left for the id, nothing else changed, and deleting again is a no-op.
   */
  lemma DeleteConverges(s: Stores, id: string)
    ensures var (s', result) := Drive(s, NewDelete(id), []);
            && (result == Refused <==> Refusable(s, id))
            && (result == Refused ==> s' == s)
            && (result != Refused ==> Gone(s', id) && OthersKept(s, s', id))
            && (result != Refused ==> Drive(s', NewDelete(id), []) == (s', NotFoundNoop))
            && (result == NotFoundNoop <==> id !in s.entities)
  {
    DeleteOutcome(s, id);
    if !Refusable(s, id) {
      var s' := Removed(s, id);
      DeleteOutcome(s', id);
      RemovedIsRemoved(s', id);
    }
  }

  /**
   The cutoff a delete records covers every token issued so far to the client id the entity names, and no token issued
   later.
   */
  lemma DeleteRevokes(s: Stores, id: string, t: Token)
    requires !Refusable(s, id) && id in s.entities && s.flowsOn
    ensures var s' := Drive(s, NewDelete(id), []).0;
            Revoked(s', t) <==>
            Revoked(s, t) || (s.entities[id].clientId == Some(t.clientId) && t.issuedAt <= s.now)
  {
    DeleteOutcome(s, id);
    RevokedTwice(s, id, t);
  }

  lemma RevokedTwice(s: Stores, id: string, t: Token)
    ensures Revoked(Removed(s, id), t) <==>
            Revoked(s, t) || (s.flowsOn && CurrentPlan(s, id) == Some(t.clientId) && t.issuedAt <= s.now)
  {
    var plan := CurrentPlan(s, id);
    RevokesExactly(s, plan, t);
    RevokesExactly(DropClient(DropPolicies(DropDependents(Revoke(s, plan), id), id), id), plan, t);
  }

  /**
   Exactly when a delete leaves no live token of its application: every token still live before the call was
   issued to the client id the application holds now.
   */
  lemma DeleteRevokesAllExactly(s: Stores, id: string)
    requires !Refusable(s, id) && id in s.entities && s.flowsOn
    requires forall t :: t in s.tokens ==> t.issuedAt <= s.now
    ensures var s' := Drive(s, NewDelete(id), []).0;
            (forall t :: t in s'.tokens && t.app == id ==> Revoked(s', t)) <==>
            (forall t :: t in s.tokens && t.app == id && !Revoked(s, t) ==> s.entities[id].clientId == Some(t.clientId))
  {
    DeleteOutcome(s, id);
    var s' := Drive(s, NewDelete(id), []).0;
    forall t | t in s.tokens
      ensures Revoked(s', t) <==> Revoked(s, t) || s.entities[id].clientId == Some(t.clientId)
    {
      DeleteRevokes(s, id, t);
    }
    assert s'.tokens == s.tokens;
  }
}

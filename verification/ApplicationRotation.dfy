/**
 Replacing a client secret. A rotation revokes what the old secret issued before the new one is stored, and
 again after; in between, other operations and the token endpoint go on in the machine.
 */
module ApplicationRotation {
  import opened Wrappers
  import opened Stores
  import opened ApplicationJobs
  import opened ApplicationMachine
  import opened ApplicationCalls
  import opened ApplicationRaces
  import opened ApplicationUpdates
  import opened ApplicationRequests
  import opened GoText

  // One uninterrupted update

  /**
   The three classes of a secret change, told from the request and what is stored. A secret is rotated exactly
   when the client already authenticated with one and the request names a different one; a generated secret
   never rotates, it is only ever a first one.
   */
  lemma SecretClasses(s: Stores, id: string, request: OAuthRequest, generated: Generated)
    requires Loaded(s, NewUpdate(id, Some(request), generated)).Some? && generated.secret != ""
    ensures var j := Loaded(s, NewUpdate(id, Some(request), generated)).value;
            && (j.change == Rotated <==>
                  ClientUsesSecret(s, id) && UsesSecret(request.profile) && request.secret != ""
                  && s.entities[id].secret != Some(request.secret))
            && (j.change == Set <==> !ClientUsesSecret(s, id) && UsesSecret(request.profile))
            && (j.change == Rotated ==> j.request.value.secret == request.secret)
            && (j.change == Set ==>
                  j.request.value.secret == if request.secret != "" then request.secret else generated.secret)
            && (j.change != Unchanged ==> WritesSecret(j.request, j.change))
  {
  }

  /**
   A client left without its secret by an update cut short stays without one until an update names one:
   repeating an update that leaves the secret to the service finds the client already switched and generates none.
   */
  lemma RetryRepairsOnlyWithASecret(s: Stores, id: string, request: OAuthRequest, generated: Generated)
    requires ClientUsesSecret(s, id) && !SecretStored(s, id) && UsesSecret(request.profile)
    requires Drive(s, NewUpdate(id, Some(request), generated), []).1 == Succeeded
    ensures var s' := Drive(s, NewUpdate(id, Some(request), generated), []).0;
            ClientUsesSecret(s', id) && (SecretStored(s', id) <==> request.secret != "")
  {
    SecretMethods(request.profile);
    SecretMethods(s.clients[id].value);
    UpdateOutcome(s, id, Some(request), generated);
  }

  // An update in a run of the machine

  /**
   The event is none of the update's own, and does not change the client id of its application. Other operations may
   overlap, fail and die, tokens be issued and time pass.
   */
  predicate Beside(m: Machine, e: Event, pid: nat)
    requires pid in m.jobs
  {
    && !((e.Advance? || e.Fail? || e.Crash?) && e.pid == pid)
    && ClientIdIn(Next(m, e).s, m.jobs[pid].id) == ClientIdIn(m.s, m.jobs[pid].id)
  }

  /** The run takes the job from where it stands to its successful end, with only such events between its calls. */
  ghost predicate Completes(m: Machine, es: seq<Event>, pid: nat)
    decreases |es|
  {
    && es != [] && pid in m.jobs
    && if es[0] == Advance(pid)
       then match StepJob(m.s, m.jobs[pid]).1
            case Done(result) => result == Succeeded && |es| == 1
            case Continue(_) => Completes(Next(m, es[0]), es[1..], pid)
       else Beside(m, es[0], pid) && Completes(Next(m, es[0]), es[1..], pid)
  }

  /** What may happen to an application while its client id stays the same. */
  ghost predicate Rely(s: Stores, s': Stores, id: string) {
    && ClientIdIn(s', id) == ClientIdIn(s, id)
    && (forall k :: k in s.cutoffs ==> k in s'.cutoffs && s.cutoffs[k] <= s'.cutoffs[k])
    && s.now <= s'.now && s'.flowsOn == s.flowsOn
    && s.tokens <= s'.tokens
    && (forall t :: t in s'.tokens && t !in s.tokens && t.app == id ==>
          ClientIdIn(s, id) == Some(t.clientId) && t.issuedAt <= s'.now)
  }

  /** Every such event is one the update can rely on, and leaves its job where it is. */
  lemma OthersRespectRely(m: Machine, e: Event, pid: nat)
    requires pid in m.jobs && Beside(m, e, pid)
    ensures Rely(m.s, Next(m, e).s, m.jobs[pid].id)
    ensures pid in Next(m, e).jobs && Next(m, e).jobs[pid] == m.jobs[pid]
  {
    if e.Advance? && e.pid in m.jobs {
      CallsAreFramed(m.s, m.jobs[e.pid]);
    } else if e.Fail? && e.pid in m.jobs {
      FailIsFramed(m.s, m.jobs[e.pid], e.reached);
    }
  }

  /** Live tokens obtained with this secret are for the client id the cutoff will be recorded against. */
  ghost predicate Settled(s: Stores, id: string, secret: Option<string>, clientId: string) {
    forall t :: t in s.tokens && t.app == id && t.secret == secret ==> Revoked(s, t) || t.clientId == clientId
  }

  ghost predicate TimedFor(s: Stores, id: string) {
    forall t :: t in s.tokens && t.app == id ==> t.issuedAt <= s.now
  }

  ghost predicate AllRevoked(s: Stores, id: string, secret: Option<string>) {
    forall t :: t in s.tokens && t.app == id && t.secret == secret ==> Revoked(s, t)
  }

  /** Where a rotation of `previous` on the client `clientId` stands before each of its calls. */
  ghost predicate Rotating(s: Stores, j: Job, previous: Option<string>, clientId: string) {
    && j.kind == Update && j.change == Rotated && s.flowsOn && j.stage in {Pre, Client, Attributes, Credentials, Post}
    && WritesSecret(j.request, j.change) && j.request.value.clientId == clientId
    && ClientIdIn(s, j.id) == Some(clientId) && (j.stage != Pre ==> j.plan == Some(clientId))
    && TimedFor(s, j.id) && Settled(s, j.id, previous, clientId)
  }

  lemma InterferenceKeepsRotating(s: Stores, s': Stores, j: Job, previous: Option<string>, clientId: string)
    requires Rotating(s, j, previous, clientId) && Rely(s, s', j.id)
    ensures Rotating(s', j, previous, clientId)
  {
    forall t | t in s'.tokens && t.app == j.id
      ensures t.issuedAt <= s'.now && (t.secret == previous ==> Revoked(s', t) || t.clientId == clientId)
    {
      assert t in s.tokens ==> t.issuedAt <= s.now;
    }
  }

  lemma RotatingCall(s: Stores, j: Job, previous: Option<string>, clientId: string)
    requires Rotating(s, j, previous, clientId)
    ensures var (s', progress) := StepJob(s, j);
            && s'.tokens == s.tokens && s'.now == s.now && s'.flowsOn
            && (progress.Continue? || progress == Done(Succeeded) ==>
                  s'.cutoffs == (if j.stage in {Pre, Post} then Revoke(s, Some(clientId)) else s).cutoffs)
            && ClientIdIn(s', j.id) == Some(clientId)
            && (progress == Done(Succeeded) ==> j.stage == Post)
            && (progress.Continue? ==>
                  && progress.job == j.(stage := progress.job.stage, plan := Some(clientId))
                  && progress.job.stage in {Client, Attributes, Credentials, Post})
  {
  }

  lemma CallKeepsRotating(s: Stores, j: Job, previous: Option<string>, clientId: string)
    requires Rotating(s, j, previous, clientId)
    ensures var (s', progress) := StepJob(s, j);
            && (progress.Continue? ==> progress.job.id == j.id && Rotating(s', progress.job, previous, clientId))
            && (progress == Done(Succeeded) ==> AllRevoked(s', j.id, previous))
  {
    RotatingCall(s, j, previous, clientId);
    var (s', progress) := StepJob(s, j);
    if progress.Continue? || progress == Done(Succeeded) {
      RevocationSpreads(s, s', j.stage in {Pre, Post}, clientId);
    }
  }

  lemma RevocationSpreads(s: Stores, s': Stores, revokes: bool, clientId: string)
    requires s'.tokens == s.tokens && s'.cutoffs == (if revokes then Revoke(s, Some(clientId)) else s).cutoffs
    requires s.flowsOn
    ensures forall t: Token :: Revoked(s, t) ==> Revoked(s', t)
    ensures revokes ==> forall t: Token :: t.clientId == clientId && t.issuedAt <= s.now ==> Revoked(s', t)
  {
  }

  /** In any such run a rotation that keeps the client id leaves nothing live of the old secret. */
  lemma {:induction false} RotationRevokes(
      m: Machine, es: seq<Event>, pid: nat, previous: Option<string>, clientId: string)
    requires pid in m.jobs && Rotating(m.s, m.jobs[pid], previous, clientId) && Completes(m, es, pid)
    ensures AllRevoked(Run(m, es).s, m.jobs[pid].id, previous)
    decreases |es|
  {
    var next := Next(m, es[0]);
    if es[0] == Advance(pid) {
      CallKeepsRotating(m.s, m.jobs[pid], previous, clientId);
      if StepJob(m.s, m.jobs[pid]).1.Continue? {
        RotationRevokes(next, es[1..], pid, previous, clientId);
      } else {
        assert es[1..] == [];
      }
    } else {
      OthersRespectRely(m, es[0], pid);
      InterferenceKeepsRotating(m.s, next.s, m.jobs[pid], previous, clientId);
      RotationRevokes(next, es[1..], pid, previous, clientId);
    }
  }

  // When a rotation is not enough

  /** The stores after the calls up to the one that writes the client id. */
  function Renamed(s: Stores, loaded: Job, clientId: string): Stores
    requires loaded.id in s.entities
  {
    var s2 := PutClient(Revoke(s, Some(clientId)), loaded.id, NewProfile(loaded.request));
    PutEntity(s2, loaded.id, s2.entities[loaded.id].(clientId := NewClientId(loaded.request)))
  }

  /** The stores after the last two calls: the new secret, and the cutoff once more. */
  function Finished(s: Stores, loaded: Job, clientId: string): Stores
    requires loaded.id in s.entities && loaded.request.Some?
  {
    Revoke(PutEntity(s, loaded.id, s.entities[loaded.id].(secret := Some(loaded.request.value.secret))), Some(clientId))
  }

  ghost predicate ReadyToRotate(s: Stores, loaded: Job, clientId: string) {
    && loaded.kind == Update && loaded.stage == Pre && loaded.change == Rotated && s.flowsOn
    && loaded.id in s.entities && s.entities[loaded.id].clientId == Some(clientId)
    && ClientUsesSecret(s, loaded.id)
    && WritesSecret(loaded.request, loaded.change) && !Blank(loaded.request.value.secret)
  }

  /** An event before a run that completes. */
  lemma CompletesFrom(m: Machine, e: Event, es: seq<Event>, pid: nat)
    requires pid in m.jobs && Completes(Next(m, e), es, pid)
    requires if e == Advance(pid) then StepJob(m.s, m.jobs[pid]).1.Continue? else Beside(m, e, pid)
    ensures Completes(m, [e] + es, pid) && Run(m, [e] + es) == Run(Next(m, e), es)
  {
    assert ([e] + es)[1..] == es;
  }

  /** The last two calls of a rotation, with nothing between them. */
  lemma RotationTail(m: Machine, pid: nat, clientId: string) returns (es: seq<Event>)
    requires pid in m.jobs
    requires var j := m.jobs[pid];
             && j.kind == Update && j.stage == Credentials && j.change == Rotated && j.plan == Some(clientId)
             && j.id in m.s.entities && j.request.Some? && !Blank(j.request.value.secret)
    ensures Completes(m, es, pid) && Run(m, es).s == Finished(m.s, m.jobs[pid], clientId)
  {
    var j := m.jobs[pid];
    var atPost := Next(m, Advance(pid));
    var s4 := PutEntity(m.s, j.id, m.s.entities[j.id].(secret := Some(j.request.value.secret)));
    assert StepJob(m.s, j) == (s4, Continue(j.(stage := Post)));
    assert StepJob(s4, j.(stage := Post)) == (Finished(m.s, j, clientId), Done(Succeeded));
    var last := [Advance(pid)];
    assert last[1..] == [];
    assert Run(atPost, last) == Run(Next(atPost, Advance(pid)), []);
    CompletesFrom(m, Advance(pid), last, pid);
    es := [Advance(pid)] + last;
  }

  /** The machine before the credentials are written, after the first calls of a loaded rotation. */
  lemma RotationHead(m: Machine, pid: nat, clientId: string)
    returns (atClient: Machine, atAttributes: Machine, m3: Machine)
    requires pid in m.jobs && ReadyToRotate(m.s, m.jobs[pid], clientId) && m.jobs[pid].id in m.s.clients
    ensures atClient == Next(m, Advance(pid)) && StepJob(m.s, m.jobs[pid]).1.Continue?
    ensures pid in atClient.jobs && StepJob(atClient.s, atClient.jobs[pid]).1.Continue?
    ensures atAttributes == Next(atClient, Advance(pid))
    ensures pid in atAttributes.jobs && StepJob(atAttributes.s, atAttributes.jobs[pid]).1.Continue?
    ensures m3 == Next(atAttributes, Advance(pid)) && m3.s == Renamed(m.s, m.jobs[pid], clientId)
    ensures pid in m3.jobs && m3.jobs[pid] == m.jobs[pid].(plan := Some(clientId), stage := Credentials)
  {
    var loaded, plan := m.jobs[pid], Some(clientId);
    atClient := Next(m, Advance(pid));
    var j1 := loaded.(plan := plan, stage := Client);
    assert StepJob(m.s, loaded) == (Revoke(m.s, plan), Continue(j1));
    atAttributes := Next(atClient, Advance(pid));
    var s2 := PutClient(Revoke(m.s, plan), loaded.id, NewProfile(loaded.request));
    assert StepJob(atClient.s, j1) == (s2, Continue(loaded.(plan := plan, stage := Attributes)));
    m3 := Next(atAttributes, Advance(pid));
    assert StepJob(s2, loaded.(plan := plan, stage := Attributes)) ==
           (Renamed(m.s, loaded, clientId), Continue(loaded.(plan := plan, stage := Credentials)));
  }

  /** A run that completes from before the credentials completes from the loaded rotation too. */
  lemma FromLoaded(m: Machine, pid: nat, clientId: string, m3: Machine, tail: seq<Event>) returns (es: seq<Event>)
    requires pid in m.jobs && ReadyToRotate(m.s, m.jobs[pid], clientId) && m.jobs[pid].id in m.s.clients
    requires m3 == Next(Next(Next(m, Advance(pid)), Advance(pid)), Advance(pid)) && Completes(m3, tail, pid)
    ensures Completes(m, es, pid) && Run(m, es) == Run(m3, tail)
  {
    var atClient, atAttributes, _ := RotationHead(m, pid, clientId);
    CompletesFrom(atAttributes, Advance(pid), tail, pid);
    CompletesFrom(atClient, Advance(pid), [Advance(pid)] + tail, pid);
    CompletesFrom(m, Advance(pid), [Advance(pid)] + ([Advance(pid)] + tail), pid);
    es := [Advance(pid)] + ([Advance(pid)] + ([Advance(pid)] + tail));
  }

  /** Until the new secret is stored the old one works under the new client id, whose cutoff nobody moves. */
  lemma WindowUnderNewClientId(m: Machine, pid: nat, clientId: string) returns (es: seq<Event>)
    requires pid in m.jobs && ReadyToRotate(m.s, m.jobs[pid], clientId) && m.jobs[pid].id in m.s.clients
    requires SecretStored(m.s, m.jobs[pid].id) && m.jobs[pid].request.value.clientId != clientId
    ensures Completes(m, es, pid)
    ensures !AllRevoked(Run(m, es).s, m.jobs[pid].id, m.s.entities[m.jobs[pid].id].secret)
  {
    var id, newId := m.jobs[pid].id, m.jobs[pid].request.value.clientId;
    var _, _, m3 := RotationHead(m, pid, clientId);
    var elapsed := (if newId in m3.s.cutoffs then m3.s.cutoffs[newId] else 0) + 1;
    var m4 := Next(m3, Tick(elapsed));
    assert CanIssue(m4.s, id);
    var t := IssuedToken(m4.s, id);
    assert t == Token(id, newId, m.s.entities[id].secret, m3.s.now + elapsed);
    var m5 := Next(m4, Issue(id));
    var tail := RotationTail(m5, pid, clientId);
    CompletesFrom(m4, Issue(id), tail, pid);
    CompletesFrom(m3, Tick(elapsed), [Issue(id)] + tail, pid);
    es := FromLoaded(m, pid, clientId, m3, [Tick(elapsed)] + ([Issue(id)] + tail));
    assert t in Run(m, es).s.tokens && !Revoked(Run(m, es).s, t);
  }

  /** A live token under a client id the application has left is out of reach of the rotation's cutoff. */
  lemma UnsettledTokenSurvives(m: Machine, pid: nat, clientId: string, t: Token) returns (es: seq<Event>)
    requires pid in m.jobs && ReadyToRotate(m.s, m.jobs[pid], clientId) && m.jobs[pid].id in m.s.clients
    requires t in m.s.tokens && t.clientId != clientId && !Revoked(m.s, t)
    ensures Completes(m, es, pid) && t in Run(m, es).s.tokens && !Revoked(Run(m, es).s, t)
  {
    var _, _, m3 := RotationHead(m, pid, clientId);
    var tail := RotationTail(m3, pid, clientId);
    es := FromLoaded(m, pid, clientId, m3, tail);
  }

  /** The runs of an update that break the guarantee, from before it loads. */
  lemma RotationBreaks(m: Machine, pid: nat, clientId: string) returns (es: seq<Event>)
    requires pid in m.jobs && m.jobs[pid].kind == Update && m.jobs[pid].stage == Load
    requires Loaded(m.s, m.jobs[pid]).Some? && ReadyToRotate(m.s, Loaded(m.s, m.jobs[pid]).value, clientId)
    requires SecretStored(m.s, m.jobs[pid].id)
    requires Loaded(m.s, m.jobs[pid]).value.request.value.clientId != clientId
             || !Settled(m.s, m.jobs[pid].id, m.s.entities[m.jobs[pid].id].secret, clientId)
    ensures Completes(m, es, pid) && es[0] == Advance(pid)
    ensures !AllRevoked(Run(m, es).s, m.jobs[pid].id, m.s.entities[m.jobs[pid].id].secret)
  {
    var j := m.jobs[pid];
    var loaded, previous := Loaded(m.s, j).value, m.s.entities[j.id].secret;
    assert StepJob(m.s, j) == (m.s, Continue(loaded));
    var m0 := Next(m, Advance(pid));
    if loaded.request.value.clientId != clientId {
      es := WindowUnderNewClientId(m0, pid, clientId);
    } else {
      var t :| t in m.s.tokens && t.app == j.id && t.secret == previous && !Revoked(m.s, t) && t.clientId != clientId;
      es := UnsettledTokenSurvives(m0, pid, clientId, t);
    }
    CompletesFrom(m, Advance(pid), es, pid);
    es := [Advance(pid)] + es;
  }

  /**
   Exactly when a rotation leaves nothing live of the old secret, in every run of the machine that takes it from its
   first call to its successful end: the update keeps the client id, and no live token of the old secret is under a
   client id left earlier. A caller can check both before the call; leaving the client id empty asks for a new one.
   */
  lemma RotationIsSafeExactly(
      m: Machine, pid: nat, id: string, request: OAuthRequest, generated: Generated, clientId: string)
    requires pid in m.jobs && m.jobs[pid] == NewUpdate(id, Some(request), generated)
    requires OwnApplication(m.s, id) && ClientIdAllowed(m.s, id, request) && ProfileAllowed(request)
    requires Replaces(m.s, id, request) && TrimSpace(request.secret) != ""
    requires m.s.flowsOn && m.s.entities[id].clientId == Some(clientId) && SecretStored(m.s, id) && TimedFor(m.s, id)
    ensures var previous := m.s.entities[id].secret;
            (forall es :: Completes(m, es, pid) && es[0] == Advance(pid) ==>
               AllRevoked(Run(m, es).s, id, previous)) <==>
            (ClientIdAfter(Some(request), generated) == Some(clientId) && Settled(m.s, id, previous, clientId))
  {
    var j, previous := m.jobs[pid], m.s.entities[id].secret;
    LoadsExactly(m.s, id, Some(request), generated);
    SecretMethods(request.profile);
    SecretMethods(m.s.clients[id].value);
    var loaded := LoadedJob(m.s, id, Some(request), generated);
    assert ReadyToRotate(m.s, loaded, clientId);
    if loaded.request.value.clientId == clientId && Settled(m.s, id, previous, clientId) {
      assert Rotating(m.s, loaded, previous, clientId);
      assert StepJob(m.s, j) == (m.s, Continue(loaded));
      forall es | Completes(m, es, pid) && es[0] == Advance(pid) ensures AllRevoked(Run(m, es).s, id, previous) {
        RotationRevokes(Next(m, es[0]), es[1..], pid, previous, clientId);
      }
    } else {
      var es := RotationBreaks(m, pid, clientId);
    }
  }

  // When another update changes the client id

  const ROTATE := NewUpdate("a", Some(OAuthRequest("k1", "new", BASIC)), GENERATED)

  /** The rotation once its pre flow has revoked what the old secret issued to k1. */
  const ROTATING := ROTATE.(change := Rotated, stage := Client, plan := Some("k1"))

  lemma RotateStarts(pre: Job)
    requires pre == ROTATE.(change := Rotated, stage := Pre)
    ensures StepJob(STORED, ROTATE) == (STORED, Continue(pre))
    ensures StepJob(STORED, pre) == (REVOKED, Continue(ROTATING))
  {
  }

  lemma ThenRotating() returns (es: seq<Event>)
    ensures AdmissibleRun(Empty(true), es, {})
    ensures Run(Empty(true), es) == Machine(REVOKED, map[0 := ROTATING], {})
  {
    var m0, pre := Empty(true), ROTATE.(change := Rotated, stage := Pre);
    CreateStores();
    RotateStarts(pre);
    es := ThenCall(m0, [], 0, CREATE, [], {});
    es := ThenEvent(m0, es, Start(0, ROTATE), {});
    es := ThenEvent(m0, es, Advance(0), {});
    assert Run(m0, es) == Machine(STORED, map[0 := pre], {});
    es := ThenEvent(m0, es, Advance(0), {});
  }

  /**
   A rotation that keeps the client id is not enough when another update gives the application a different one in
   between: the old secret serves that one, and a token issued under it is live when both have succeeded.
   */
  lemma RenameDuringRotationLeavesLiveToken() returns (es: seq<Event>, issued: Machine)
    ensures AdmissibleRun(Empty(true), es, {}) && Run(Empty(true), es).jobs == map[]
    ensures var s := Run(Empty(true), es).s;
            Live(s, T2) && "a" in s.entities && s.entities["a"].secret == Some("new") && T2.secret != Some("new")
    ensures issued.jobs == map[0 := ROTATING] && Drive(issued.s, ROTATING, []) == (Run(Empty(true), es).s, Succeeded)
  {
    var m0 := Empty(true);
    es := ThenRotating();
    es := ThenRename(es, ROTATING, {});
    assert CanIssue(RENAMED, "a") && IssuedToken(RENAMED, "a") == T2;
    es := ThenEvent(m0, es, Issue("a"), {});
    issued := Run(m0, es);
    WritesOnwards(issued.s, ROTATING);
    es := ThenRest(m0, es, 0, [], {});
    assert !Blank("new");
  }
}

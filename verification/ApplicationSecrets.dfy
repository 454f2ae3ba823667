/**
 Client secrets: a client that authenticates with a secret has one stored.

 An update that turns secret authentication on writes the inbound client before the credential, so between the
 two calls it owes a secret. While at most two updates of an application are in progress and only deletes,
 regenerations and shares overlap with a delete of it, the guarantee survives exactly the events that do not drop the
 last job in debt. What holds of one application here does not depend on any other.
 */
module ApplicationSecrets {
  import opened Stores
  import opened ApplicationJobs
  import opened ApplicationMachine

  /** What may overlap with a delete without a client secret being lost, and how many updates may overlap. */
  const SPARING_SECRETS: set<Kind> := {Delete, Regenerate, Share}
  const UPDATES_AT_ONCE: nat := 2

  /** The updates of an application in progress. */
  function UpdatesOf(m: Machine, id: string): set<nat> {
    set pid | pid in m.jobs && m.jobs[pid].kind == Update && m.jobs[pid].id == id
  }

  /** The job has yet to store the secret of a client it may already have switched to secret authentication. */
  predicate Owes(j: Job) {
    j.kind == Update && j.stage in {Attributes, Credentials} && WritesSecret(j.request, j.change)
  }

  ghost predicate OwedByOther(m: Machine, pid: nat, id: string) {
    exists q :: q in m.jobs && q != pid && m.jobs[q].id == id && Owes(m.jobs[q])
  }

  ghost predicate Owed(m: Machine, id: string) {
    exists pid :: pid in m.jobs && m.jobs[pid].id == id && Owes(m.jobs[pid])
  }

  predicate Missing(s: Stores, id: string) {
    ClientUsesSecret(s, id) && !SecretStored(s, id)
  }

  ghost predicate KeptFor(m: Machine, id: string) {
    Missing(m.s, id) ==> Owed(m, id)
  }

  /** Every client that authenticates with a secret has one stored, or a job in progress is about to store it. */
  ghost predicate SecretsKept(m: Machine) {
    forall id :: KeptFor(m, id)
  }

  /** What may happen: overlaps as permitted, and generated secrets are not empty. */
  ghost predicate Permitted(m: Machine, e: Event, beside: set<Kind>, updates: nat) {
    && Admissible(m, e, beside)
    && (e.Start? ==>
          && (e.job.kind == Update ==> |UpdatesOf(m, e.job.id)| < updates)
          && (e.job.kind in {Create, Update} ==> e.job.generated.secret != ""))
  }

  /** The job owes a secret that is missing, and nobody else does. */
  ghost predicate InDebt(m: Machine, pid: nat) {
    && pid in m.jobs && Owes(m.jobs[pid])
    && Missing(m.s, m.jobs[pid].id) && !OwedByOther(m, pid, m.jobs[pid].id)
  }

  /** The event ends the last job that owes the secret: its call fails, its process dies, or the secret is blank. */
  ghost predicate Forsakes(m: Machine, e: Event) {
    match e
    case Fail(pid, _) => InDebt(m, pid)
    case Crash(pid) => InDebt(m, pid)
    case Advance(pid) =>
      InDebt(m, pid) && m.jobs[pid].stage == Credentials && Blank(m.jobs[pid].request.value.secret)
    case _ => false
  }

  // What jobs rely on

  predicate AsksForSecret(j: Job) {
    j.request.Some? && UsesSecret(j.request.value.profile)
  }

  /** The update is going to write a client that uses a secret, and counts on one it found or another update owes. */
  predicate Leans(j: Job) {
    j.kind == Update && j.stage in {Pre, Client} && AsksForSecret(j) && j.change != Set
  }

  predicate CreateSecretOnTrack(s: Stores, j: Job) {
    && (j.stage == Load ==> j.generated.secret != "")
    && (j.stage == EntityRow && AsksForSecret(j) ==> j.request.value.secret != "")
    && (HalfCreated(j) ==> j.id in s.entities && j.id !in s.clients)
    && (j.stage == Client && AsksForSecret(j) ==> SecretStored(s, j.id))
  }

  predicate UpdateSecretOnTrack(s: Stores, j: Job) {
    && (if j.stage == Load then j.generated.secret != "" else j.id in s.clients)
    && (j.stage in {Pre, Client} && AsksForSecret(j) && j.change == Set ==> j.request.value.secret != "")
    && (Leans(j) ==> SecretStored(s, j.id) || ClientUsesSecret(s, j.id))
  }

  predicate SecretOnTrack(s: Stores, j: Job) {
    match j.kind
    case Create => CreateSecretOnTrack(s, j)
    case Update => UpdateSecretOnTrack(s, j)
    case Delete => j.stage in {Post, EntityRow, Keys} ==> j.id !in s.clients
    case _ => true
  }

  predicate HasEntity(s: Stores, id: string) {
    id in s.clients ==> id in s.entities
  }

  /** Jobs on one application that may be in progress together. */
  ghost predicate Together(m: Machine, id: string) {
    && (forall p, q :: p in m.jobs && q in m.jobs && p != q && m.jobs[p].id == m.jobs[q].id == id ==>
          && Compatible(m.jobs[p].kind, m.jobs[q].kind, SPARING_SECRETS)
          && !(HalfCreated(m.jobs[p]) && HalfCreated(m.jobs[q])))
    && |UpdatesOf(m, id)| <= UPDATES_AT_ONCE
  }

  ghost predicate SoundFor(m: Machine, id: string) {
    && HasEntity(m.s, id) && Together(m, id) && KeptFor(m, id)
    && (forall pid :: pid in m.jobs && m.jobs[pid].id == id ==> SecretOnTrack(m.s, m.jobs[pid]))
  }

  ghost predicate SecretSound(m: Machine) {
    forall id :: SoundFor(m, id)
  }

  // One call and its own application

  /** The call of a job leaves its application's secret missing only with somebody to store it. */
  ghost predicate Covers(s: Stores, progress: Progress, id: string, other: bool) {
    Missing(s, id) ==> other || (progress.Continue? && Owes(progress.job))
  }

  ghost predicate OwnSideKept(s: Stores, progress: Progress, j: Job) {
    && HasEntity(s, j.id)
    && (progress.Continue? ==>
          && progress.job.id == j.id && progress.job.kind == j.kind && SecretOnTrack(s, progress.job))
  }

  /** `other` says whether another job owes the secret. */
  lemma LoadKeepsSecret(s: Stores, j: Job, other: bool)
    requires j.kind == Update && j.stage == Load && HasEntity(s, j.id) && SecretOnTrack(s, j)
    requires Missing(s, j.id) ==> other
    ensures var (s', progress) := StepUpdate(s, j);
            s' == s && OwnSideKept(s', progress, j) && Covers(s', progress, j.id, other)
  {
  }

  lemma UpdateKeepsSecret(s: Stores, j: Job, other: bool)
    requires j.kind == Update && j.stage != Load && HasEntity(s, j.id) && SecretOnTrack(s, j)
    requires Missing(s, j.id) ==> other || Owes(j)
    ensures var (s', progress) := StepUpdate(s, j);
            && OwnSideKept(s', progress, j)
            && (Covers(s', progress, j.id, other) <==>
                !(Owes(j) && Missing(s, j.id) && !other && j.stage == Credentials && Blank(j.request.value.secret)))
  {
  }

  lemma CreateKeepsSecret(s: Stores, j: Job, other: bool)
    requires j.kind == Create && HasEntity(s, j.id) && SecretOnTrack(s, j) && (Missing(s, j.id) ==> other)
    ensures var (s', progress) := StepCreate(s, j);
            OwnSideKept(s', progress, j) && Covers(s', progress, j.id, other)
  {
  }

  lemma DeleteKeepsSecret(s: Stores, j: Job, other: bool)
    requires j.kind == Delete && HasEntity(s, j.id) && SecretOnTrack(s, j) && (Missing(s, j.id) ==> other)
    ensures var (s', progress) := StepDelete(s, j);
            OwnSideKept(s', progress, j) && Covers(s', progress, j.id, other)
  {
  }

  lemma LightCallsKeepSecret(s: Stores, j: Job, other: bool)
    requires j.kind in {Share, Regenerate} && HasEntity(s, j.id) && (Missing(s, j.id) ==> other)
    ensures var (s', progress) := StepJob(s, j);
            OwnSideKept(s', progress, j) && Covers(s', progress, j.id, other)
  {
  }

  lemma CallKeepsSecret(s: Stores, j: Job, other: bool)
    requires HasEntity(s, j.id) && SecretOnTrack(s, j) && (Missing(s, j.id) ==> other || Owes(j))
    ensures var (s', progress) := StepJob(s, j);
            && OwnSideKept(s', progress, j)
            && (Covers(s', progress, j.id, other) <==>
                !(Owes(j) && Missing(s, j.id) && !other && j.stage == Credentials && Blank(j.request.value.secret)))
  {
    match j.kind {
      case Create => CreateKeepsSecret(s, j, other);
      case Update => if j.stage == Load { LoadKeepsSecret(s, j, other); } else { UpdateKeepsSecret(s, j, other); }
      case Delete => DeleteKeepsSecret(s, j, other);
      case _ => LightCallsKeepSecret(s, j, other);
    }
  }

  // The other jobs on the application

  /** The update writes a client that no longer uses a secret. */
  predicate TurnsBack(j: Job) {
    j.kind == Update && j.stage == Client && !AsksForSecret(j)
  }

  lemma UpdateSparesSecrets(s: Stores, j: Job, q: Job)
    requires j.kind == Update && q.id == j.id && SecretOnTrack(s, j) && SecretOnTrack(s, q) && HasEntity(s, j.id)
    requires Compatible(j.kind, q.kind, SPARING_SECRETS)
    requires TurnsBack(j) && Leans(q) ==> SecretStored(s, j.id)
    ensures SecretOnTrack(StepUpdate(s, j).0, q)
  {
    UpdateEffect(s, j);
  }

  lemma CreateSparesSecrets(s: Stores, j: Job, q: Job)
    requires j.kind == Create && q.id == j.id && SecretOnTrack(s, j) && SecretOnTrack(s, q)
    requires Compatible(j.kind, q.kind, SPARING_SECRETS) && !(HalfCreated(j) && HalfCreated(q))
    ensures SecretOnTrack(StepCreate(s, j).0, q)
  {
  }

  lemma DeleteSparesSecrets(s: Stores, j: Job, q: Job)
    requires j.kind == Delete && q.id == j.id && SecretOnTrack(s, q) && Compatible(j.kind, q.kind, SPARING_SECRETS)
    ensures SecretOnTrack(StepDelete(s, j).0, q)
  {
  }

  lemma LightCallsSpareSecrets(s: Stores, j: Job, q: Job)
    requires j.kind in {Share, Regenerate} && q.id == j.id && SecretOnTrack(s, q)
    ensures SecretOnTrack(StepJob(s, j).0, q)
  {
  }

  /** Turning a client back takes the ground from a leaning update only when a third one owes what it leans on. */
  lemma NobodyIsLetDown(m: Machine, pid: nat, q: nat)
    requires pid in m.jobs && q in m.jobs && q != pid && m.jobs[q].id == m.jobs[pid].id
    requires SoundFor(m, m.jobs[pid].id) && TurnsBack(m.jobs[pid]) && Leans(m.jobs[q])
    ensures SecretStored(m.s, m.jobs[pid].id)
  {
    var id := m.jobs[pid].id;
    assert SecretOnTrack(m.s, m.jobs[q]);
    if !SecretStored(m.s, id) {
      var r :| r in m.jobs && m.jobs[r].id == id && Owes(m.jobs[r]);
      ThreeAreThree(UpdatesOf(m, id), pid, q, r);
    }
  }

  lemma ThreeAreThree(pids: set<nat>, p: nat, q: nat, r: nat)
    requires p in pids && q in pids && r in pids && p != q && q != r && p != r
    ensures |pids| >= 3
  {
    assert |{p, q, r}| == 3;
    SubsetIsSmaller({p, q, r}, pids);
  }

  lemma {:induction false} SubsetIsSmaller(a: set<nat>, b: set<nat>)
    requires a <= b
    ensures |a| <= |b|
  {
    if a != {} {
      var x :| x in a;
      SubsetIsSmaller(a - {x}, b - {x});
    }
  }

  lemma CallsSpareSecrets(m: Machine, pid: nat, q: nat)
    requires pid in m.jobs && q in m.jobs && q != pid && m.jobs[q].id == m.jobs[pid].id
    requires SoundFor(m, m.jobs[pid].id)
    ensures SecretOnTrack(StepJob(m.s, m.jobs[pid]).0, m.jobs[q])
  {
    var j := m.jobs[pid];
    assert SecretOnTrack(m.s, j) && SecretOnTrack(m.s, m.jobs[q]);
    match j.kind {
      case Create => CreateSparesSecrets(m.s, j, m.jobs[q]);
      case Update =>
        if TurnsBack(j) && Leans(m.jobs[q]) { NobodyIsLetDown(m, pid, q); }
        UpdateSparesSecrets(m.s, j, m.jobs[q]);
      case Delete => DeleteSparesSecrets(m.s, j, m.jobs[q]);
      case _ => LightCallsSpareSecrets(m.s, j, m.jobs[q]);
    }
  }

  // The application after the event

  /** The machine after a call, or the end, of a job. */
  ghost predicate Follows(m: Machine, pid: nat, progress: Progress, m': Machine) {
    pid in m.jobs &&
    match progress
    case Continue(next) => m'.jobs == m.jobs[pid := next]
    case Done(_) => m'.jobs == m.jobs - {pid}
  }

  lemma OwedAfter(m: Machine, pid: nat, progress: Progress, m': Machine)
    requires Follows(m, pid, progress, m') && (progress.Continue? ==> progress.job.id == m.jobs[pid].id)
    ensures var id, other := m.jobs[pid].id, OwedByOther(m, pid, m.jobs[pid].id);
            && (Owed(m, id) <==> other || Owes(m.jobs[pid]))
            && (Owed(m', id) <==> other || (progress.Continue? && Owes(progress.job)))
  {
    var id := m.jobs[pid].id;
    if OwedByOther(m, pid, id) {
      var q :| q in m.jobs && q != pid && m.jobs[q].id == id && Owes(m.jobs[q]);
      assert m'.jobs[q] == m.jobs[q];
    }
    if Owed(m', id) {
      var q :| q in m'.jobs && m'.jobs[q].id == id && Owes(m'.jobs[q]);
      assert q != pid ==> m.jobs[q] == m'.jobs[q];
    }
    if progress.Continue? { assert m'.jobs[pid] == progress.job; }
  }

  lemma StillTogether(m: Machine, pid: nat, progress: Progress, m': Machine)
    requires Follows(m, pid, progress, m') && Together(m, m.jobs[pid].id)
    requires progress.Continue? ==> progress.job.id == m.jobs[pid].id && progress.job.kind == m.jobs[pid].kind
    requires progress.Continue? && HalfCreated(progress.job) && !HalfCreated(m.jobs[pid]) ==>
               forall q :: q in m.jobs && m.jobs[q].id == m.jobs[pid].id ==> !HalfCreated(m.jobs[q])
    ensures Together(m', m.jobs[pid].id)
  {
    var id := m.jobs[pid].id;
    assert UpdatesOf(m', id) <= UpdatesOf(m, id);
    SubsetIsSmaller(UpdatesOf(m', id), UpdatesOf(m, id));
  }

  lemma OwnApplicationIff(m: Machine, pid: nat)
    requires pid in m.jobs && SoundFor(m, m.jobs[pid].id)
    ensures var m', id := Next(m, Advance(pid)), m.jobs[pid].id;
            && (KeptFor(m', id) <==> !Forsakes(m, Advance(pid)))
            && (!Forsakes(m, Advance(pid)) ==> SoundFor(m', id))
  {
    var j := m.jobs[pid];
    var (s', progress) := StepJob(m.s, j);
    var m' := Next(m, Advance(pid));
    assert SecretOnTrack(m.s, j);
    KindIsKept(m.s, j);
    OwedAfter(m, pid, progress, m');
    CallKeepsSecret(m.s, j, OwedByOther(m, pid, j.id));
    if progress.Continue? && HalfCreated(progress.job) { EntityComesFirst(m.s, j); }
    forall q | q in m.jobs && m.jobs[q].id == j.id && HalfCreated(m.jobs[q]) ensures j.id in m.s.entities {
      assert SecretOnTrack(m.s, m.jobs[q]);
    }
    StillTogether(m, pid, progress, m');
    forall q | q in m'.jobs && m'.jobs[q].id == j.id ensures SecretOnTrack(m'.s, m'.jobs[q]) {
      if q != pid { CallsSpareSecrets(m, pid, q); }
    }
  }

  /** A job that fails or dies changes nothing that secrets depend on but what is owed. */
  lemma EndedApplicationIff(m: Machine, e: Event)
    requires (e.Fail? || e.Crash?) && e.pid in m.jobs && SoundFor(m, m.jobs[e.pid].id)
    ensures var m', id := Next(m, e), m.jobs[e.pid].id;
            && (KeptFor(m', id) <==> !Forsakes(m, e))
            && (!Forsakes(m, e) ==> SoundFor(m', id))
  {
    var j, m' := m.jobs[e.pid], Next(m, e);
    var progress := if e.Fail? then FailJob(m.s, j, e.reached).1 else Done(Failed);
    if e.Fail? { FailIsFramed(m.s, j, e.reached); }
    assert SecretOnTrack(m.s, j);
    OwedAfter(m, e.pid, progress, m');
    StillTogether(m, e.pid, progress, m');
    forall q | q in m'.jobs && m'.jobs[q].id == j.id ensures SecretOnTrack(m'.s, m'.jobs[q]) {
      if q != e.pid { assert SecretOnTrack(m.s, m.jobs[q]); }
    }
  }

  // The other applications

  ghost predicate SameRows(s: Stores, s': Stores, id: string) {
    && (id in s'.entities <==> id in s.entities) && (id in s.entities ==> s'.entities[id] == s.entities[id])
    && (id in s'.clients <==> id in s.clients) && (id in s.clients ==> s'.clients[id] == s.clients[id])
  }

  ghost predicate SameJobs(m: Machine, m': Machine, id: string) {
    && (forall p :: p in m.jobs && m.jobs[p].id == id ==> p in m'.jobs && m'.jobs[p] == m.jobs[p])
    && (forall p :: p in m'.jobs && m'.jobs[p].id == id ==> p in m.jobs && m.jobs[p] == m'.jobs[p])
  }

  lemma UntouchedIsSound(m: Machine, m': Machine, id: string)
    requires SoundFor(m, id) && SameRows(m.s, m'.s, id) && SameJobs(m, m', id)
    ensures SoundFor(m', id)
  {
    assert UpdatesOf(m', id) == UpdatesOf(m, id);
    if p :| p in m.jobs && m.jobs[p].id == id && Owes(m.jobs[p]) { assert m'.jobs[p] == m.jobs[p]; }
    forall p | p in m'.jobs && m'.jobs[p].id == id ensures SecretOnTrack(m'.s, m'.jobs[p]) {
      assert SecretOnTrack(m.s, m.jobs[p]);
    }
  }

  lemma CallsTouchOneApplication(s: Stores, j: Job, i: string)
    requires i != j.id
    ensures SameRows(s, StepJob(s, j).0, i)
  {
    CallsAreFramed(s, j);
  }

  /** An event of a job on another application, or one that starts none on this one, leaves this one as it is. */
  lemma OtherApplicationsStay(m: Machine, e: Event, id: string)
    requires SoundFor(m, id)
    requires (e.Advance? || e.Fail? || e.Crash?) && e.pid in m.jobs ==> m.jobs[e.pid].id != id
    requires e.Start? ==> e.job.id != id
    ensures SoundFor(Next(m, e), id)
  {
    if e.Advance? && e.pid in m.jobs {
      CallsTouchOneApplication(m.s, m.jobs[e.pid], id);
      KindIsKept(m.s, m.jobs[e.pid]);
    } else if e.Fail? && e.pid in m.jobs {
      FailIsFramed(m.s, m.jobs[e.pid], e.reached);
    }
    UntouchedIsSound(m, Next(m, e), id);
  }

  lemma StartedUpdates(m: Machine, pid: nat, job: Job)
    requires Permitted(m, Start(pid, job), SPARING_SECRETS, UPDATES_AT_ONCE)
    requires |UpdatesOf(m, job.id)| <= UPDATES_AT_ONCE
    ensures |UpdatesOf(Next(m, Start(pid, job)), job.id)| <= UPDATES_AT_ONCE
  {
    var m', id := Next(m, Start(pid, job)), job.id;
    if m' != m {
      assert UpdatesOf(m', id) == if job.kind == Update then UpdatesOf(m, id) + {pid} else UpdatesOf(m, id);
    }
  }

  lemma StartedTogether(m: Machine, pid: nat, job: Job)
    requires Together(m, job.id) && Permitted(m, Start(pid, job), SPARING_SECRETS, UPDATES_AT_ONCE)
    ensures Together(Next(m, Start(pid, job)), job.id)
  {
    var m', id := Next(m, Start(pid, job)), job.id;
    StartedUpdates(m, pid, job);
    forall p, q | p in m'.jobs && q in m'.jobs && p != q && m'.jobs[p].id == m'.jobs[q].id == id
      ensures Compatible(m'.jobs[p].kind, m'.jobs[q].kind, SPARING_SECRETS)
      ensures !(HalfCreated(m'.jobs[p]) && HalfCreated(m'.jobs[q]))
    {
      assert p in m.jobs ==> m'.jobs[p] == m.jobs[p];
      assert q in m.jobs ==> m'.jobs[q] == m.jobs[q];
    }
  }

  lemma StartedIsSound(m: Machine, pid: nat, job: Job)
    requires SoundFor(m, job.id) && Permitted(m, Start(pid, job), SPARING_SECRETS, UPDATES_AT_ONCE)
    ensures SoundFor(Next(m, Start(pid, job)), job.id)
  {
    var m', id := Next(m, Start(pid, job)), job.id;
    StartedTogether(m, pid, job);
    if p :| p in m.jobs && m.jobs[p].id == id && Owes(m.jobs[p]) { assert m'.jobs[p] == m.jobs[p]; }
    forall p | p in m'.jobs && m'.jobs[p].id == id ensures SecretOnTrack(m'.s, m'.jobs[p]) {
      if p in m.jobs { assert SecretOnTrack(m.s, m.jobs[p]) && m'.jobs[p] == m.jobs[p]; }
    }
  }

  // The whole machine

  /** The exact condition: one event keeps every secret in place if and only if it does not forsake a debt. */
  lemma EventKeepsSecretsIff(m: Machine, e: Event)
    requires SecretSound(m) && Permitted(m, e, SPARING_SECRETS, UPDATES_AT_ONCE)
    ensures SecretsKept(Next(m, e)) <==> !Forsakes(m, e)
    ensures !Forsakes(m, e) ==> SecretSound(Next(m, e))
  {
    var m' := Next(m, e);
    forall id ensures KeptFor(m', id) || Forsakes(m, e)
      ensures !Forsakes(m, e) ==> SoundFor(m', id)
    {
      assert SoundFor(m, id);
      if e.Advance? && e.pid in m.jobs && m.jobs[e.pid].id == id {
        OwnApplicationIff(m, e.pid);
      } else if (e.Fail? || e.Crash?) && e.pid in m.jobs && m.jobs[e.pid].id == id {
        EndedApplicationIff(m, e);
      } else if e.Start? && e.job.id == id {
        StartedIsSound(m, e.pid, e.job);
      } else {
        OtherApplicationsStay(m, e, id);
      }
    }
    if Forsakes(m, e) {
      assert SoundFor(m, m.jobs[e.pid].id);
      if e.Advance? { OwnApplicationIff(m, e.pid); } else { EndedApplicationIff(m, e); }
      assert !KeptFor(m', m.jobs[e.pid].id);
    }
  }

  /** A run in which only what is permitted happens and no debt is forsaken. */
  ghost predicate SteadfastRun(m: Machine, es: seq<Event>, beside: set<Kind>, updates: nat)
    decreases |es|
  {
    es == [] ||
    (Permitted(m, es[0], beside, updates) && !Forsakes(m, es[0])
     && SteadfastRun(Next(m, es[0]), es[1..], beside, updates))
  }

  lemma {:induction false} PermitMore(
      m: Machine, es: seq<Event>, beside: set<Kind>, updates: nat, moreBeside: set<Kind>, moreUpdates: nat)
    requires SteadfastRun(m, es, beside, updates) && beside <= moreBeside && updates <= moreUpdates
    ensures SteadfastRun(m, es, moreBeside, moreUpdates)
    decreases |es|
  {
    if es != [] { PermitMore(Next(m, es[0]), es[1..], beside, updates, moreBeside, moreUpdates); }
  }

  lemma {:induction false} RunKeepsSecrets(m: Machine, es: seq<Event>)
    requires SecretSound(m) && SteadfastRun(m, es, SPARING_SECRETS, UPDATES_AT_ONCE)
    ensures SecretSound(Run(m, es))
    decreases |es|
  {
    if es != [] {
      EventKeepsSecretsIff(m, es[0]);
      RunKeepsSecrets(Next(m, es[0]), es[1..]);
    }
  }

  lemma EmptyIsSecretSound(flowsOn: bool)
    ensures SecretSound(Empty(flowsOn))
  {
    forall id ensures SoundFor(Empty(flowsOn), id) {
      assert UpdatesOf(Empty(flowsOn), id) == {};
    }
  }

  /**
   After any run from empty stores with at most two updates of one application at a time, in which a delete overlaps
   only with deletes, regenerations and shares of its application and no last debt is forsaken: once the jobs are done
   every client that authenticates with a secret has one stored.
   */
  lemma SecretsAreStored(flowsOn: bool, es: seq<Event>, id: string)
    requires SteadfastRun(Empty(flowsOn), es, SPARING_SECRETS, UPDATES_AT_ONCE)
    requires var m := Run(Empty(flowsOn), es); m.jobs == map[] && ClientUsesSecret(m.s, id)
    ensures SecretStored(Run(Empty(flowsOn), es).s, id)
  {
    EmptyIsSecretSound(flowsOn);
    RunKeepsSecrets(Empty(flowsOn), es);
    assert SoundFor(Run(Empty(flowsOn), es), id);
  }
}

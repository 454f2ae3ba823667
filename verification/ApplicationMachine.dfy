/**
 Application operations, token issuance and time, interleaved call by call.

 Any number of jobs are in progress; an event makes the next store call of one of them, fails that call,
 kills the process that ran the job, issues a token, or lets time pass. A run is a sequence of events.
 */
module ApplicationMachine {
  import opened Wrappers
  import opened Stores
  import opened ApplicationJobs

  /** `moved` holds the client ids an application has held and an update has replaced, until it holds them again. */
  datatype Machine = Machine(s: Stores, jobs: map<nat, Job>, moved: set<(string, string)>)

  datatype Event =
    | Start(pid: nat, job: Job)
    | Advance(pid: nat)
    | Fail(pid: nat, reached: set<string>)
    | Crash(pid: nat)
    | Issue(id: string)
    | Tick(elapsed: nat)
    | AddDependent(dependent: Dependent)
    | AddKey(key: LocalizedKey)

  function Empty(flowsOn: bool): Machine {
    Machine(Stores(map[], map[], {}, {}, {}, {}, map[], 0, flowsOn), map[], {})
  }

  function ClientIdIn(s: Stores, id: string): Option<string> {
    if id in s.entities then s.entities[id].clientId else None
  }

  /** `moved` after a call on `id`: a replaced client id is added, and the one a client is reached by is taken out. */
  function MovedAfter(moved: set<(string, string)>, id: string, s: Stores, s': Stores): set<(string, string)> {
    var before, after := ClientIdIn(s, id), ClientIdIn(s', id);
    var left := if id in s'.entities && before.Some? && after != before then moved + {(id, before.value)} else moved;
    if id in s'.clients && after.Some? then left - {(id, after.value)} else left
  }

  function Settle(m: Machine, pid: nat, s: Stores, progress: Progress): Machine
    requires pid in m.jobs
  {
    var moved := MovedAfter(m.moved, m.jobs[pid].id, m.s, s);
    match progress
    case Continue(next) => Machine(s, m.jobs[pid := next], moved)
    case Done(_) => Machine(s, m.jobs - {pid}, moved)
  }

  /** An event that is not possible in the state changes nothing. */
  function Next(m: Machine, e: Event): Machine {
    match e
    case Start(pid, job) => if pid !in m.jobs && Fresh(job) then m.(jobs := m.jobs[pid := job]) else m
    case Advance(pid) =>
      if pid !in m.jobs then m else
      var (s, progress) := StepJob(m.s, m.jobs[pid]);
      Settle(m, pid, s, progress)
    case Fail(pid, reached) =>
      if pid !in m.jobs then m else
      var (s, progress) := FailJob(m.s, m.jobs[pid], reached);
      Settle(m, pid, s, progress)
    case Crash(pid) => m.(jobs := m.jobs - {pid})
    case Issue(id) =>
      if CanIssue(m.s, id) then m.(s := m.s.(tokens := m.s.tokens + {IssuedToken(m.s, id)})) else m
    case Tick(elapsed) => m.(s := m.s.(now := m.s.now + elapsed))
    case AddDependent(d) => if d.app in m.s.entities then m.(s := m.s.(dependents := m.s.dependents + {d})) else m
    case AddKey(k) => m.(s := m.s.(keys := m.s.keys + {k}))
  }

  /** The operations that may run on an application while it is being deleted. */
  const BESIDE_DELETE: set<Kind> := {Delete, Regenerate}

  /** Operations that may overlap on one application, when only those in `beside` may overlap with a delete. */
  predicate Compatible(a: Kind, b: Kind, beside: set<Kind>) {
    (a == Delete ==> b in beside) && (b == Delete ==> a in beside)
  }

  /** A job starts only while every other job in progress on the same id is one it may overlap with. */
  ghost predicate Admissible(m: Machine, e: Event, beside: set<Kind>) {
    e.Start? ==>
      forall pid :: pid in m.jobs && m.jobs[pid].id == e.job.id ==> Compatible(m.jobs[pid].kind, e.job.kind, beside)
  }

  function Run(m: Machine, es: seq<Event>): Machine
    decreases |es|
  {
    if es == [] then m else Run(Next(m, es[0]), es[1..])
  }

  ghost predicate AdmissibleRun(m: Machine, es: seq<Event>, beside: set<Kind>)
    decreases |es|
  {
    es == [] || (Admissible(m, es[0], beside) && AdmissibleRun(Next(m, es[0]), es[1..], beside))
  }

  /** A run may always be allowed more. */
  lemma {:induction false} AllowMore(m: Machine, es: seq<Event>, beside: set<Kind>, more: set<Kind>)
    requires AdmissibleRun(m, es, beside) && beside <= more
    ensures AdmissibleRun(m, es, more)
    decreases |es|
  {
    if es != [] { AllowMore(Next(m, es[0]), es[1..], beside, more); }
  }

  // What every admissible run keeps

  /** A sharing policy needs an inbound client, and an inbound client needs an entity. */
  ghost predicate Layered(s: Stores) {
    && (forall p :: p in s.policies ==> p.app in s.clients)
    && (forall id :: id in s.clients ==> id in s.entities)
  }

  /** Nothing live is left of the tokens of an application, but those of client ids it has left. */
  ghost predicate Spent(m: Machine, id: string) {
    forall t :: t in m.s.tokens && t.app == id ==> Revoked(m.s, t) || (id, t.clientId) in m.moved
  }

  ghost predicate TokenAccounted(m: Machine, t: Token) {
    t.issuedAt <= m.s.now && (Revoked(m.s, t) || Held(m.s, t) || (t.app, t.clientId) in m.moved)
  }

  /** Every live token belongs to an application that still holds its client id, or has moved away from it. */
  ghost predicate NoOrphans(m: Machine) {
    forall t :: t in m.s.tokens ==> TokenAccounted(m, t)
  }

  /** What a delete has removed and planned by the time it reaches each stage. */
  ghost predicate DeleteProgressed(s: Stores, j: Job) {
    && j.stage in {Load, Pre, Cascade, Policies, Client, Post, EntityRow, Keys}
    && (j.stage in {Cascade, Policies, Client, Post, EntityRow, Keys} && !j.ranPre ==> j.id !in s.entities)
    && (j.stage in {Cascade, Policies, Client, Post, EntityRow} && j.ranPre && s.flowsOn && j.id in s.entities ==>
          j.plan == s.entities[j.id].clientId)
    && (j.stage in {Client, Post, EntityRow, Keys} ==> !SharedWith(s, j.id))
    && (j.stage in {Post, EntityRow, Keys} ==> j.id !in s.clients)
    && (j.stage == Keys ==> j.id !in s.entities)
  }

  /** With its second cutoff a delete has revoked what is left. */
  ghost predicate DeleteOnTrack(m: Machine, j: Job) {
    DeleteProgressed(m.s, j) && (j.stage == EntityRow && m.s.flowsOn ==> Spent(m, j.id))
  }

  ghost predicate CreateOnTrack(m: Machine, j: Job) {
    j.stage in {Client, Compensate} ==>
      && j.id in m.s.entities && j.id !in m.s.clients
      && (m.s.flowsOn ==> Spent(m, j.id))
  }

  ghost predicate OnTrack(m: Machine, j: Job) {
    match j.kind
    case Delete => DeleteOnTrack(m, j)
    case Create => CreateOnTrack(m, j)
    case Update => j.stage != Load ==> j.id in m.s.clients
    case Share => j.stage == Grant ==> j.id in m.s.clients
    case Regenerate => true
  }

  /** Only deletes and regenerations of an id overlap with a delete of it. */
  ghost predicate NoClash(m: Machine) {
    forall p, q :: p in m.jobs && q in m.jobs && p != q && m.jobs[p].id == m.jobs[q].id ==>
      Compatible(m.jobs[p].kind, m.jobs[q].kind, BESIDE_DELETE)
  }

  /** A create that has stored its entity and not yet its inbound client. */
  predicate HalfCreated(j: Job) {
    j.kind == Create && j.stage in {Client, Compensate}
  }

  /** Of the creates of one id at most one has got past the entity. */
  ghost predicate OneCreate(m: Machine) {
    forall p, q :: p in m.jobs && q in m.jobs && p != q && m.jobs[p].id == m.jobs[q].id ==>
      !(HalfCreated(m.jobs[p]) && HalfCreated(m.jobs[q]))
  }

  ghost predicate Sound(m: Machine) {
    && Layered(m.s)
    && NoClash(m) && OneCreate(m)
    && (m.s.flowsOn ==> NoOrphans(m))
    && (forall pid :: pid in m.jobs ==> OnTrack(m, m.jobs[pid]))
  }

  // One store call

  /** A call of a job on `id` leaves every other application alone and never moves a cutoff back. */
  ghost predicate Framed(s: Stores, s': Stores, id: string) {
    && s'.tokens == s.tokens && s'.now == s.now && s'.flowsOn == s.flowsOn
    && (forall k :: k in s.cutoffs ==> k in s'.cutoffs && s.cutoffs[k] <= s'.cutoffs[k])
    && (forall i :: i != id && i in s.entities ==> i in s'.entities && s'.entities[i] == s.entities[i])
    && (forall i :: i != id && i in s'.entities ==> i in s.entities)
    && (forall i :: i != id ==> (i in s.clients <==> i in s'.clients))
    && (forall p :: p in s'.policies && p.app != id ==> p in s.policies)
  }

  /** Nothing is added to the stores a delete removes from. */
  ghost predicate Shrinks(s: Stores, s': Stores) {
    && (forall i :: i in s'.entities ==> i in s.entities && s'.entities[i].clientId == s.entities[i].clientId)
    && (forall i :: i in s'.clients ==> i in s.clients)
    && (forall p :: p in s'.policies ==> p in s.policies)
  }

  lemma RevokeIsFramed(s: Stores, plan: Option<string>, id: string)
    ensures Framed(s, Revoke(s, plan), id) && Shrinks(s, Revoke(s, plan))
    ensures Revoke(s, plan).(cutoffs := s.cutoffs) == s
  {
  }

  lemma DeleteIsFramed(s: Stores, j: Job)
    ensures Framed(s, StepDelete(s, j).0, j.id) && Shrinks(s, StepDelete(s, j).0)
  {
    match j.stage {
      case Pre => if j.id in s.entities { RevokeIsFramed(s, s.entities[j.id].clientId, j.id); }
      case Post => RevokeIsFramed(s, j.plan, j.id);
      case _ =>
    }
  }

  lemma UpdateIsFramed(s: Stores, j: Job)
    ensures Framed(s, StepUpdate(s, j).0, j.id)
  {
    match j.stage {
      case Pre => if j.id in s.entities { RevokeIsFramed(s, s.entities[j.id].clientId, j.id); }
      case Post => RevokeIsFramed(s, j.plan, j.id);
      case _ =>
    }
  }

  lemma CreateIsFramed(s: Stores, j: Job)
    ensures Framed(s, StepCreate(s, j).0, j.id)
  {
  }

  lemma CallsAreFramed(s: Stores, j: Job)
    ensures Framed(s, StepJob(s, j).0, j.id)
  {
    match j.kind {
      case Delete => DeleteIsFramed(s, j);
      case Update => UpdateIsFramed(s, j);
      case Create => CreateIsFramed(s, j);
      case Share =>
      case Regenerate =>
    }
  }

  /** A client id leaves `moved` only when the application of the call holds it again, with a client. */
  ghost predicate MovedKept(m: Machine, m': Machine, id: string) {
    forall left :: left in m.moved ==> left in m'.moved || (left.0 == id && id in m'.s.clients)
  }

  /** A framed call keeps what jobs on other applications rely on. */
  lemma OthersStayOnTrack(m: Machine, m': Machine, id: string, other: Job)
    requires Framed(m.s, m'.s, id) && MovedKept(m, m', id)
    requires OnTrack(m, other) && other.id != id
    ensures OnTrack(m', other)
  {
    if other.kind in {Delete, Create} && m.s.flowsOn && Spent(m, other.id) {
      assert Spent(m', other.id);
    }
  }

  /** Deletes of one id do not disturb each other, and regenerations do not disturb deletes. */
  lemma DeletesShareTheTrack(m: Machine, m': Machine, id: string, other: Job)
    requires Framed(m.s, m'.s, id) && Shrinks(m.s, m'.s) && MovedKept(m, m', id)
    requires other.kind == Delete && DeleteOnTrack(m, other)
    ensures DeleteOnTrack(m', other)
  {
    if other.stage == EntityRow && m.s.flowsOn {
      assert Spent(m', other.id);
    }
  }

  /** The call touched neither which applications and clients there are nor who holds which client id. */
  ghost predicate SameShape(s: Stores, s': Stores) {
    && s'.clients.Keys == s.clients.Keys && s'.entities.Keys == s.entities.Keys
    && (forall i :: i in s.entities ==> s'.entities[i].clientId == s.entities[i].clientId)
    && s'.tokens == s.tokens && s'.now == s.now && s'.flowsOn == s.flowsOn
    && (forall k :: k in s.cutoffs ==> k in s'.cutoffs && s.cutoffs[k] <= s'.cutoffs[k])
  }

  /** Such a call disturbs no other job, unless it shares an application that is being deleted. */
  lemma ShapeKeepsTrack(m: Machine, m': Machine, id: string, other: Job)
    requires SameShape(m.s, m'.s) && MovedKept(m, m', id) && OnTrack(m, other)
    requires other.kind == Delete ==> m'.s.policies <= m.s.policies
    ensures OnTrack(m', other)
  {
    var leaving := other.kind == Delete && other.stage == EntityRow;
    if (leaving || HalfCreated(other)) && m.s.flowsOn {
      assert Spent(m', other.id);
    }
  }

  /** What a call of a create does to the other jobs on its id, none of which is a delete. */
  lemma CreateSparesOthers(m: Machine, pid: nat, q: nat)
    requires Sound(m) && pid in m.jobs && q in m.jobs && pid != q
    requires m.jobs[pid].kind == Create && m.jobs[q].id == m.jobs[pid].id
    ensures var (s', progress) := StepCreate(m.s, m.jobs[pid]);
            OnTrack(Settle(m, pid, s', progress), m.jobs[q])
  {
    assert OnTrack(m, m.jobs[pid]) && OnTrack(m, m.jobs[q]);
    var (s', progress) := StepCreate(m.s, m.jobs[pid]);
    if HalfCreated(m.jobs[q]) { ShapeKeepsTrack(m, Settle(m, pid, s', progress), m.jobs[pid].id, m.jobs[q]); }
  }

  lemma UpdateSparesOthers(m: Machine, pid: nat, q: nat)
    requires Sound(m) && pid in m.jobs && q in m.jobs && pid != q
    requires m.jobs[pid].kind == Update && m.jobs[q].id == m.jobs[pid].id
    ensures var (s', progress) := StepUpdate(m.s, m.jobs[pid]);
            OnTrack(Settle(m, pid, s', progress), m.jobs[q])
  {
    assert OnTrack(m, m.jobs[pid]) && OnTrack(m, m.jobs[q]);
    var (s', progress) := StepUpdate(m.s, m.jobs[pid]);
    UpdateEffect(m.s, m.jobs[pid]);
    if HalfCreated(m.jobs[q]) { assert s' == m.s; }
  }

  /** Shares and regenerations disturb nobody they may overlap with. */
  lemma LightCallsSpareOthers(m: Machine, pid: nat, q: nat)
    requires Sound(m) && pid in m.jobs && q in m.jobs && pid != q
    requires m.jobs[pid].kind in {Share, Regenerate} && m.jobs[q].id == m.jobs[pid].id
    ensures var (s', progress) := StepJob(m.s, m.jobs[pid]);
            OnTrack(Settle(m, pid, s', progress), m.jobs[q])
  {
    var (s', progress) := StepJob(m.s, m.jobs[pid]);
    ShapeKeepsTrack(m, Settle(m, pid, s', progress), m.jobs[pid].id, m.jobs[q]);
  }

  lemma DeleteSparesOthers(m: Machine, pid: nat, q: nat)
    requires Sound(m) && pid in m.jobs && q in m.jobs && pid != q
    requires m.jobs[pid].kind == Delete && m.jobs[q].id == m.jobs[pid].id
    ensures var (s', progress) := StepDelete(m.s, m.jobs[pid]);
            OnTrack(Settle(m, pid, s', progress), m.jobs[q])
  {
    assert OnTrack(m, m.jobs[q]);
    var (s', progress) := StepDelete(m.s, m.jobs[pid]);
    DeleteIsFramed(m.s, m.jobs[pid]);
    if m.jobs[q].kind == Delete {
      DeletesShareTheTrack(m, Settle(m, pid, s', progress), m.jobs[pid].id, m.jobs[q]);
    }
  }

  lemma CallsSpareOthers(m: Machine, pid: nat, q: nat)
    requires Sound(m) && pid in m.jobs && q in m.jobs && pid != q && m.jobs[q].id == m.jobs[pid].id
    ensures var (s', progress) := StepJob(m.s, m.jobs[pid]);
            OnTrack(Settle(m, pid, s', progress), m.jobs[q])
  {
    match m.jobs[pid].kind {
      case Create => CreateSparesOthers(m, pid, q);
      case Update => UpdateSparesOthers(m, pid, q);
      case Delete => DeleteSparesOthers(m, pid, q);
      case _ => LightCallsSpareOthers(m, pid, q);
    }
  }

  /** The new state of the job's own application: its layers, its tokens, and the job itself, still on track. */
  ghost predicate OwnSideSound(m: Machine, m': Machine, id: string, progress: Progress) {
    && (forall p :: p in m'.s.policies && p.app == id ==> id in m'.s.clients)
    && (id in m'.s.clients ==> id in m'.s.entities)
    && (m.s.flowsOn ==> forall t :: t in m.s.tokens && t.app == id ==> TokenAccounted(m', t))
    && (progress.Continue? ==> progress.job.id == id && OnTrack(m', progress.job))
  }

  /** The second cutoff of a delete reaches all that is still live under the client id the entity names. */
  lemma DeleteAccounts(m: Machine, pid: nat, t: Token)
    requires Sound(m) && pid in m.jobs && m.jobs[pid].kind == Delete
    requires t in m.s.tokens && t.app == m.jobs[pid].id && m.s.flowsOn
    ensures var (s', progress) := StepDelete(m.s, m.jobs[pid]);
            var m' := Settle(m, pid, s', progress);
            && TokenAccounted(m', t)
            && (m.jobs[pid].stage == Post ==> Revoked(m'.s, t) || (t.app, t.clientId) in m'.moved)
  {
    var j := m.jobs[pid];
    assert TokenAccounted(m, t) && OnTrack(m, j);
    var (s', progress) := StepDelete(m.s, j);
    DeleteIsFramed(m.s, j);
    if j.stage == EntityRow {
      assert Spent(m, j.id);
    } else {
      MovedTokensAreAccounted(m, pid, s', progress, t);
    }
  }

  /** A delete takes away its application's layers from the top. */
  lemma DeleteProgresses(s: Stores, j: Job)
    requires j.kind == Delete && DeleteProgressed(s, j) && Layered(s)
    ensures var (s', progress) := StepDelete(s, j);
            && (forall p :: p in s'.policies && p.app == j.id ==> j.id in s'.clients)
            && (j.id in s'.clients ==> j.id in s'.entities)
            && s'.flowsOn == s.flowsOn
            && (progress.Continue? ==>
                  && progress.job.id == j.id && progress.job.kind == Delete && DeleteProgressed(s', progress.job)
                  && (progress.job.stage == EntityRow ==> j.stage == Post))
  {
  }

  lemma DeleteKeepsOwnSide(m: Machine, pid: nat)
    requires Sound(m) && pid in m.jobs && m.jobs[pid].kind == Delete
    ensures var (s', progress) := StepDelete(m.s, m.jobs[pid]);
            OwnSideSound(m, Settle(m, pid, s', progress), m.jobs[pid].id, progress)
  {
    var j := m.jobs[pid];
    var (s', progress) := StepDelete(m.s, j);
    var m' := Settle(m, pid, s', progress);
    assert DeleteOnTrack(m, j) by { assert OnTrack(m, j); }
    DeleteIsFramed(m.s, j);
    DeleteProgresses(m.s, j);
    forall t | t in m.s.tokens && t.app == j.id && m.s.flowsOn
      ensures TokenAccounted(m', t)
      ensures j.stage == Post ==> Revoked(m'.s, t) || (j.id, t.clientId) in m'.moved
    {
      DeleteAccounts(m, pid, t);
    }
  }

  lemma CreateKeepsOwnSide(m: Machine, pid: nat)
    requires Sound(m) && pid in m.jobs && m.jobs[pid].kind == Create
    ensures var (s', progress) := StepCreate(m.s, m.jobs[pid]);
            OwnSideSound(m, Settle(m, pid, s', progress), m.jobs[pid].id, progress)
  {
    var j := m.jobs[pid];
    var (s', progress) := StepCreate(m.s, j);
    var m' := Settle(m, pid, s', progress);
    assert CreateOnTrack(m, j) by { assert OnTrack(m, j); }
    forall t | t in m.s.tokens && t.app == j.id && m.s.flowsOn
      ensures TokenAccounted(m', t)
      ensures j.stage == EntityRow && progress.Continue? ==> Revoked(m'.s, t) || (j.id, t.clientId) in m'.moved
    {
      assert TokenAccounted(m, t);
    }
  }

  lemma UpdateEffect(s: Stores, j: Job)
    ensures var s' := StepUpdate(s, j).0;
            && (j.id in s'.clients <==> j.id in s.clients) && (j.id in s'.entities <==> j.id in s.entities)
            && s'.policies == s.policies
    ensures var progress := StepUpdate(s, j).1;
            progress.Continue? ==> progress.job.id == j.id && progress.job.kind == j.kind
  {
  }

  /** The call of an update that replaces the client id accounts for the tokens of the old one as moved. */
  lemma UpdateKeepsOwnSide(m: Machine, pid: nat)
    requires Sound(m) && pid in m.jobs && m.jobs[pid].kind == Update
    ensures var (s', progress) := StepUpdate(m.s, m.jobs[pid]);
            OwnSideSound(m, Settle(m, pid, s', progress), m.jobs[pid].id, progress)
  {
    var j := m.jobs[pid];
    var (s', progress) := StepUpdate(m.s, j);
    var m' := Settle(m, pid, s', progress);
    UpdateIsFramed(m.s, j);
    UpdateEffect(m.s, j);
    forall t | t in m.s.tokens && t.app == j.id && m.s.flowsOn
      ensures TokenAccounted(m', t)
    {
      MovedTokensAreAccounted(m, pid, s', progress, t);
    }
  }

  lemma MovedTokensAreAccounted(m: Machine, pid: nat, s': Stores, progress: Progress, t: Token)
    requires pid in m.jobs && Framed(m.s, s', m.jobs[pid].id)
    requires m.jobs[pid].id in m.s.entities ==> m.jobs[pid].id in s'.entities
    requires t.app == m.jobs[pid].id && TokenAccounted(m, t)
    ensures TokenAccounted(Settle(m, pid, s', progress), t)
  {
  }

  lemma OtherKindsKeepOwnSide(m: Machine, pid: nat)
    requires Sound(m) && pid in m.jobs && m.jobs[pid].kind in {Share, Regenerate}
    ensures var (s', progress) := StepJob(m.s, m.jobs[pid]);
            OwnSideSound(m, Settle(m, pid, s', progress), m.jobs[pid].id, progress)
  {
    var j := m.jobs[pid];
    var (s', progress) := StepJob(m.s, j);
    var m' := Settle(m, pid, s', progress);
    assert OnTrack(m, j);
    forall t | t in m.s.tokens && t.app == j.id && m.s.flowsOn
      ensures TokenAccounted(m', t)
    {
      assert TokenAccounted(m, t);
    }
  }

  /** What one call does to its own application and leaves to the others adds up to a sound machine. */
  lemma CallsAddUp(m: Machine, pid: nat, s': Stores, progress: Progress)
    requires Sound(m) && pid in m.jobs
    requires Framed(m.s, s', m.jobs[pid].id)
    requires progress.Continue? ==> progress.job.kind == m.jobs[pid].kind && progress.job.id == m.jobs[pid].id
    requires progress.Continue? && HalfCreated(progress.job) ==>
               HalfCreated(m.jobs[pid]) || m.jobs[pid].id !in m.s.entities
    requires OwnSideSound(m, Settle(m, pid, s', progress), m.jobs[pid].id, progress)
    requires forall q :: q in m.jobs && q != pid && m.jobs[q].id == m.jobs[pid].id ==>
               OnTrack(Settle(m, pid, s', progress), m.jobs[q])
    ensures Sound(Settle(m, pid, s', progress))
  {
    var id := m.jobs[pid].id;
    var m' := Settle(m, pid, s', progress);
    forall p | p in m'.jobs ensures OnTrack(m', m'.jobs[p]) {
      if p != pid && m.jobs[p].id != id {
        OthersStayOnTrack(m, m', id, m.jobs[p]);
      }
    }
    forall q | q in m.jobs && q != pid && m.jobs[q].id == id && HalfCreated(m.jobs[q]) ensures id in m.s.entities {
      assert OnTrack(m, m.jobs[q]);
    }
    if m.s.flowsOn {
      forall t | t in m'.s.tokens ensures TokenAccounted(m', t) {
        assert TokenAccounted(m, t);
      }
    }
  }

  lemma KindIsKept(s: Stores, j: Job)
    ensures StepJob(s, j).1.Continue? ==> StepJob(s, j).1.job.kind == j.kind && StepJob(s, j).1.job.id == j.id
  {
  }

  lemma EntityComesFirst(s: Stores, j: Job)
    requires StepJob(s, j).1.Continue? && HalfCreated(StepJob(s, j).1.job)
    ensures HalfCreated(j) || j.id !in s.entities
  {
  }

  lemma AdvanceIsSound(m: Machine, pid: nat)
    requires Sound(m) && pid in m.jobs
    ensures Sound(Next(m, Advance(pid)))
  {
    var j := m.jobs[pid];
    var (s', progress) := StepJob(m.s, j);
    CallsAreFramed(m.s, j);
    KindIsKept(m.s, j);
    if progress.Continue? && HalfCreated(progress.job) { EntityComesFirst(m.s, j); }
    match j.kind {
      case Delete => DeleteKeepsOwnSide(m, pid);
      case Create => CreateKeepsOwnSide(m, pid);
      case Update => UpdateKeepsOwnSide(m, pid);
      case _ => OtherKindsKeepOwnSide(m, pid);
    }
    forall q | q in m.jobs && q != pid && m.jobs[q].id == j.id
      ensures OnTrack(Settle(m, pid, s', progress), m.jobs[q])
    {
      CallsSpareOthers(m, pid, q);
    }
    CallsAddUp(m, pid, s', progress);
  }

  lemma FailIsFramed(s: Stores, j: Job, reached: set<string>)
    ensures var s' := FailJob(s, j, reached).0;
            s' == s.(dependents := s'.dependents, keys := s'.keys)
  {
  }

  lemma FailIsSound(m: Machine, pid: nat, reached: set<string>)
    requires Sound(m) && pid in m.jobs
    ensures Sound(Next(m, Fail(pid, reached)))
  {
    var j := m.jobs[pid];
    var (s', progress) := FailJob(m.s, j, reached);
    assert OnTrack(m, j);
    var m' := Settle(m, pid, s', progress);
    FailIsFramed(m.s, j, reached);
    forall t | t in m.s.tokens && t.app == j.id && m.s.flowsOn ensures TokenAccounted(m', t) {
      assert TokenAccounted(m, t);
      MovedTokensAreAccounted(m, pid, s', progress, t);
    }
    if progress.Continue? { ShapeKeepsTrack(m, m', j.id, j); }
    forall q | q in m.jobs && q != pid && m.jobs[q].id == j.id ensures OnTrack(m', m.jobs[q]) {
      ShapeKeepsTrack(m, m', j.id, m.jobs[q]);
    }
    CallsAddUp(m, pid, s', progress);
  }

  // The environment

  lemma StartIsSound(m: Machine, pid: nat, job: Job)
    requires Sound(m) && Admissible(m, Start(pid, job), BESIDE_DELETE)
    ensures Sound(Next(m, Start(pid, job)))
  {
    var m' := Next(m, Start(pid, job));
    forall p | p in m'.jobs ensures OnTrack(m', m'.jobs[p]) {
      if p in m.jobs && m'.jobs[p] == m.jobs[p] {
        SameStoresSameTrack(m, m', m.jobs[p]);
      }
    }
    forall t | t in m'.s.tokens && m.s.flowsOn ensures TokenAccounted(m', t) {
      assert TokenAccounted(m, t);
    }
  }

  lemma SameStoresSameTrack(m: Machine, m': Machine, j: Job)
    requires OnTrack(m, j) && m'.s == m.s && m'.moved == m.moved
    ensures OnTrack(m', j)
  {
    if m.s.flowsOn && Spent(m, j.id) {
      assert Spent(m', j.id);
    }
  }

  /** A token can only be issued to an application no delete has stripped of its client. */
  lemma IssueIsSound(m: Machine, id: string)
    requires Sound(m)
    ensures Sound(Next(m, Issue(id)))
  {
    var m' := Next(m, Issue(id));
    forall p | p in m'.jobs ensures OnTrack(m', m'.jobs[p]) {
      var j := m.jobs[p];
      assert OnTrack(m, j);
      if m.s.flowsOn && j.id != id && Spent(m, j.id) {
        assert Spent(m', j.id);
      }
    }
    forall t | t in m'.s.tokens && m.s.flowsOn ensures TokenAccounted(m', t) {
      assert t in m.s.tokens ==> TokenAccounted(m, t);
    }
  }

  lemma TickIsSound(m: Machine, e: Event)
    requires Sound(m) && (e.Tick? || e.AddDependent? || e.AddKey? || e.Crash?)
    ensures Sound(Next(m, e))
  {
    var m' := Next(m, e);
    forall p | p in m'.jobs ensures OnTrack(m', m'.jobs[p]) {
      assert OnTrack(m, m.jobs[p]);
      if m.s.flowsOn && Spent(m, m.jobs[p].id) {
        assert Spent(m', m.jobs[p].id);
      }
    }
    forall t | t in m'.s.tokens && m.s.flowsOn ensures TokenAccounted(m', t) {
      assert TokenAccounted(m, t);
    }
  }

  /** Every event an admissible run can take keeps the machine sound. */
  lemma NextIsSound(m: Machine, e: Event)
    requires Sound(m) && Admissible(m, e, BESIDE_DELETE)
    ensures Sound(Next(m, e))
  {
    match e {
      case Start(pid, job) => StartIsSound(m, pid, job);
      case Advance(pid) => if pid in m.jobs { AdvanceIsSound(m, pid); }
      case Fail(pid, reached) => if pid in m.jobs { FailIsSound(m, pid, reached); }
      case Issue(id) => IssueIsSound(m, id);
      case _ => TickIsSound(m, e);
    }
  }

  lemma {:induction false} RunIsSound(m: Machine, es: seq<Event>)
    requires Sound(m) && AdmissibleRun(m, es, BESIDE_DELETE)
    ensures Sound(Run(m, es))
    decreases |es|
  {
    if es != [] {
      NextIsSound(m, es[0]);
      RunIsSound(Next(m, es[0]), es[1..]);
    }
  }
}

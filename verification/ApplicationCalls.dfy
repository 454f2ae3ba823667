/**
 A call of the application service that nothing else interrupts, and that may be stopped by a failing store.

 Drive makes the store calls of a job one after the other; `faults` says which of them fail. Each such call is
 also a run of the interleaved machine, so whatever every run keeps, every call keeps.
 */
module ApplicationCalls {
  import opened Wrappers
  import opened Stores
  import opened ApplicationJobs
  import opened ApplicationMachine

  /** One entry for each store call, None where it succeeds; calls past the end succeed. */
  type Faults = seq<Option<set<string>>>

  predicate Faulty(faults: Faults) {
    |faults| > 0 && faults[0].Some?
  }

  function Rest(faults: Faults): Faults {
    if faults == [] then [] else faults[1..]
  }

  function Rank(j: Job): nat {
    if j.kind == Create then
      match j.stage case Load => 4 case EntityRow => 3 case Client => 2 case _ => 1
    else if j.kind == Delete then
      match j.stage
      case Load => 8 case Pre => 7 case Cascade => 6 case Policies => 5 case Client => 4 case Post => 3
      case EntityRow => 2 case _ => 1
    else
      match j.stage case Load => 6 case Pre => 5 case Client => 4 case Attributes => 3 case Credentials => 2 case _ => 1
  }

  lemma CreateRankFalls(s: Stores, j: Job)
    requires j.kind == Create
    ensures StepCreate(s, j).1.Continue? ==> Rank(StepCreate(s, j).1.job) < Rank(j)
  {
  }

  lemma UpdateRankFalls(s: Stores, j: Job)
    requires j.kind == Update
    ensures StepUpdate(s, j).1.Continue? ==> Rank(StepUpdate(s, j).1.job) < Rank(j)
  {
  }

  lemma DeleteRankFalls(s: Stores, j: Job)
    requires j.kind == Delete
    ensures StepDelete(s, j).1.Continue? ==> Rank(StepDelete(s, j).1.job) < Rank(j)
  {
  }

  lemma RankFalls(s: Stores, j: Job, reached: set<string>)
    ensures StepJob(s, j).1.Continue? ==> Rank(StepJob(s, j).1.job) < Rank(j)
    ensures FailJob(s, j, reached).1.Continue? ==> Rank(FailJob(s, j, reached).1.job) < Rank(j)
  {
    match j.kind {
      case Create => CreateRankFalls(s, j);
      case Update => UpdateRankFalls(s, j);
      case Delete => DeleteRankFalls(s, j);
      case _ =>
    }
  }

  function NextCall(s: Stores, j: Job, faults: Faults): (Stores, Progress) {
    if Faulty(faults) then FailJob(s, j, faults[0].value) else StepJob(s, j)
  }

  function Drive(s: Stores, j: Job, faults: Faults): (Stores, Result)
    decreases Rank(j)
  {
    var (s', progress) := NextCall(s, j, faults);
    RankFalls(s, j, if Faulty(faults) then faults[0].value else {});
    match progress
    case Done(result) => (s', result)
    case Continue(next) => Drive(s', next, Rest(faults))
  }

  /** A store call that succeeds hands over to the rest of the job. */
  lemma CallSucceeds(s: Stores, j: Job, faults: Faults, s': Stores, next: Job)
    requires !Faulty(faults) && StepJob(s, j) == (s', Continue(next))
    ensures Drive(s, j, faults) == Drive(s', next, Rest(faults))
  {
  }

  /** The events of an uninterrupted call. */
  ghost function DriveEvents(pid: nat, s: Stores, j: Job, faults: Faults): seq<Event>
    decreases Rank(j)
  {
    var (s', progress) := NextCall(s, j, faults);
    RankFalls(s, j, if Faulty(faults) then faults[0].value else {});
    var event := if Faulty(faults) then Fail(pid, faults[0].value) else Advance(pid);
    match progress
    case Done(_) => [event]
    case Continue(next) => [event] + DriveEvents(pid, s', next, Rest(faults))
  }

  /** Calling the service is running the machine with one job, whichever store calls fail. */
  lemma {:induction false} CallIsARun(m: Machine, pid: nat, j: Job, faults: Faults)
    requires pid in m.jobs && m.jobs[pid] == j
    ensures var m' := Run(m, DriveEvents(pid, m.s, j, faults));
            m'.s == Drive(m.s, j, faults).0 && m'.jobs == m.jobs - {pid}
    ensures AdmissibleRun(m, DriveEvents(pid, m.s, j, faults), {})
    decreases Rank(j)
  {
    var (s', progress) := NextCall(m.s, j, faults);
    RankFalls(m.s, j, if Faulty(faults) then faults[0].value else {});
    var event := if Faulty(faults) then Fail(pid, faults[0].value) else Advance(pid);
    var events := DriveEvents(pid, m.s, j, faults);
    var next := Next(m, event);
    assert next == Settle(m, pid, s', progress);
    assert events[0] == event;
    match progress {
      case Done(_) =>
        assert events[1..] == [];
        assert Run(next, []) == next;
      case Continue(job) =>
        assert events[1..] == DriveEvents(pid, s', job, Rest(faults));
        CallIsARun(next, pid, job, Rest(faults));
        assert m.jobs[pid := job] - {pid} == m.jobs - {pid};
    }
  }

  /** Only an update makes an application leave a client id. */
  lemma {:induction false} OtherCallsMoveNothing(m: Machine, pid: nat, faults: Faults)
    requires pid in m.jobs && m.jobs[pid].kind != Update
    ensures Run(m, DriveEvents(pid, m.s, m.jobs[pid], faults)).moved <= m.moved
    decreases Rank(m.jobs[pid])
  {
    var j := m.jobs[pid];
    var (s', progress) := NextCall(m.s, j, faults);
    RankFalls(m.s, j, if Faulty(faults) then faults[0].value else {});
    var event := if Faulty(faults) then Fail(pid, faults[0].value) else Advance(pid);
    var events := DriveEvents(pid, m.s, j, faults);
    var next := Next(m, event);
    assert events[0] == event && next == Settle(m, pid, s', progress);
    OtherCallsKeepClientIds(m.s, j, if Faulty(faults) then faults[0].value else {});
    if progress.Continue? {
      KindIsKept(m.s, j);
      assert events[1..] == DriveEvents(pid, s', progress.job, Rest(faults));
      OtherCallsMoveNothing(next, pid, Rest(faults));
    } else {
      assert events[1..] == [];
    }
  }

  lemma OtherCallsKeepClientIds(s: Stores, j: Job, reached: set<string>)
    requires j.kind != Update
    ensures var s' := StepJob(s, j).0;
            j.id in s.entities && j.id in s'.entities ==> s'.entities[j.id].clientId == s.entities[j.id].clientId
    ensures FailJob(s, j, reached).0.entities == s.entities
    ensures FailJob(s, j, reached).1.Continue? ==> FailJob(s, j, reached).1.job.kind == j.kind
  {
  }

  // Runs put together

  lemma {:induction false} RunsAppend(m: Machine, es: seq<Event>, more: seq<Event>, beside: set<Kind>)
    ensures Run(m, es + more) == Run(Run(m, es), more)
    ensures AdmissibleRun(m, es, beside) && AdmissibleRun(Run(m, es), more, beside) ==>
            AdmissibleRun(m, es + more, beside)
    decreases |es|
  {
    if es == [] {
      assert es + more == more;
    } else {
      assert (es + more)[1..] == es[1..] + more && (es + more)[0] == es[0];
      RunsAppend(Next(m, es[0]), es[1..], more, beside);
    }
  }

  /** One event more. */
  lemma ThenEvent(m0: Machine, es: seq<Event>, e: Event, beside: set<Kind>) returns (more: seq<Event>)
    requires AdmissibleRun(m0, es, beside) && Admissible(Run(m0, es), e, beside)
    ensures more == es + [e] && AdmissibleRun(m0, more, beside)
    ensures Run(m0, more) == Next(Run(m0, es), e)
  {
    more := es + [e];
    RunsAppend(m0, es, [e], beside);
    var m := Run(m0, es);
    assert [e][1..] == [];
    assert Run(m, [e]) == Run(Next(m, e), []);
    assert AdmissibleRun(m, [e], beside);
  }

  /** The rest of a job, with nothing in between. */
  lemma ThenRest(m0: Machine, es: seq<Event>, pid: nat, faults: Faults, beside: set<Kind>) returns (more: seq<Event>)
    requires AdmissibleRun(m0, es, beside) && pid in Run(m0, es).jobs
    ensures var m := Run(m0, es);
            && AdmissibleRun(m0, more, beside)
            && Run(m0, more).s == Drive(m.s, m.jobs[pid], faults).0
            && Run(m0, more).jobs == m.jobs - {pid}
            && (m.jobs[pid].kind != Update ==> Run(m0, more).moved <= m.moved)
  {
    var m := Run(m0, es);
    var rest := DriveEvents(pid, m.s, m.jobs[pid], faults);
    CallIsARun(m, pid, m.jobs[pid], faults);
    if m.jobs[pid].kind != Update { OtherCallsMoveNothing(m, pid, faults); }
    AllowMore(m, rest, {}, beside);
    more := es + rest;
    RunsAppend(m0, es, rest, beside);
  }

  /** A whole call, started now. */
  lemma ThenCall(m0: Machine, es: seq<Event>, pid: nat, j: Job, faults: Faults, beside: set<Kind>)
    returns (more: seq<Event>)
    requires AdmissibleRun(m0, es, beside) && pid !in Run(m0, es).jobs && Fresh(j)
    requires Admissible(Run(m0, es), Start(pid, j), beside)
    ensures var m := Run(m0, es);
            && AdmissibleRun(m0, more, beside)
            && Run(m0, more).s == Drive(m.s, j, faults).0
            && Run(m0, more).jobs == m.jobs
            && (j.kind != Update ==> Run(m0, more).moved <= m.moved)
  {
    var m := Run(m0, es);
    more := ThenEvent(m0, es, Start(pid, j), beside);
    var started := Run(m0, more);
    assert started.jobs[pid] == j && started.s == m.s;
    more := ThenRest(m0, more, pid, faults, beside);
    assert started.jobs - {pid} == m.jobs;
  }

  /** No job is in progress, and the stores are as sound as a run leaves them. */
  ghost predicate Quiet(m: Machine) {
    Sound(m) && m.jobs == map[]
  }

  /** The bookkeeping of `moved` after an uninterrupted call. */
  ghost function AfterCall(m: Machine, j: Job, faults: Faults): Machine {
    Run(Next(m, Start(0, j)), DriveEvents(0, m.s, j, faults))
  }

  /** A call on quiet stores leaves them quiet, wherever its store calls fail. */
  lemma CallStaysSound(m: Machine, j: Job, faults: Faults)
    requires Quiet(m) && Fresh(j)
    ensures Quiet(AfterCall(m, j, faults))
    ensures AfterCall(m, j, faults).s == Drive(m.s, j, faults).0
  {
    var started := Next(m, Start(0, j));
    NextIsSound(m, Start(0, j));
    CallIsARun(started, 0, j, faults);
    AllowMore(started, DriveEvents(0, m.s, j, faults), {}, BESIDE_DELETE);
    RunIsSound(started, DriveEvents(0, m.s, j, faults));
  }
}

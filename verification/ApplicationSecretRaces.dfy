/**
 Why client secrets need what they ask for: runs from empty stores that lose a secret because an update is cut short,
 because three updates of one application overlap, or because an update or a create overlaps with a delete. Everything
 else may overlap.
 */
module ApplicationSecretRaces {
  import opened Wrappers
  import opened Stores
  import opened ClientIds
  import opened ApplicationJobs
  import opened ApplicationMachine
  import opened ApplicationCalls
  import opened ApplicationCreation
  import opened ApplicationDeletion
  import opened ApplicationSecrets
  import opened ApplicationRaces

  const KEYED_APP := Entity(Application, false, Some("k1"), None)

  /** The application with a key, and once its client is switched to a secret it does not have. */
  function Keyed(cutoffs: map<string, nat>): Stores {
    NOTHING.(entities := map["a" := KEYED_APP], clients := map["a" := Some(KEYED)], cutoffs := cutoffs)
  }

  function Switched(cutoffs: map<string, nat>): Stores {
    NOTHING.(entities := map["a" := KEYED_APP], clients := map["a" := Some(BASIC)], cutoffs := cutoffs)
  }

  const CREATE_KEYED := NewCreate("a", Some(OAuthRequest("k1", "", KEYED)), GENERATED)

  /** Updates to a client secret, left to the service, and back to a key. */
  const SWITCH := NewUpdate("a", Some(OAuthRequest("k1", "", BASIC)), GENERATED)
  const BACK := NewUpdate("a", Some(OAuthRequest("k1", "", KEYED)), GENERATED)

  /** The switch once it has loaded: a secret was generated, to be stored as the first one. */
  const SWITCHING :=
    SWITCH.(request := Some(OAuthRequest("k1", "generated", BASIC)), change := Set, stage := Client)

  /** A switch that finds a client with a secret leaves the secret alone; the way back needs none. */
  const LEANING := SWITCH.(stage := Client)
  const GOING_BACK := BACK.(stage := Client)

  lemma SwitchLoads(cutoffs: map<string, nat>)
    ensures StepJob(Keyed(cutoffs), SWITCH) == (Keyed(cutoffs), Continue(SWITCHING))
  {
  }

  lemma SwitchWrites(cutoffs: map<string, nat>)
    ensures StepJob(Keyed(cutoffs), SWITCHING) == (Switched(cutoffs), Continue(SWITCHING.(stage := Attributes)))
  {
    assert Keyed(cutoffs).clients["a" := Some(BASIC)] == Switched(cutoffs).clients;
  }

  lemma OtherUpdatesLoad(s: Stores)
    requires s == STORED || s == Switched(map[])
    ensures StepJob(s, SWITCH) == (s, Continue(LEANING))
    ensures StepJob(s, BACK) == (s, Continue(GOING_BACK))
  {
  }

  lemma LeaningWrites(cutoffs: map<string, nat>)
    ensures StepJob(Keyed(cutoffs), LEANING) == (Switched(cutoffs), Continue(LEANING.(stage := Attributes)))
    ensures StepJob(Switched(cutoffs), LEANING.(stage := Attributes)) == (Switched(cutoffs), Done(Succeeded))
  {
    assert Keyed(cutoffs).clients["a" := Some(BASIC)] == Switched(cutoffs).clients;
    assert Switched(cutoffs).entities["a" := KEYED_APP] == Switched(cutoffs).entities;
  }

  lemma GoingBackWrites(cutoffs: map<string, nat>)
    ensures StepJob(Switched(cutoffs), GOING_BACK) == (Keyed(cutoffs), Continue(GOING_BACK.(stage := Attributes)))
    ensures StepJob(Keyed(cutoffs), GOING_BACK.(stage := Attributes)) == (Keyed(cutoffs), Done(Succeeded))
  {
    assert Switched(cutoffs).clients["a" := Some(KEYED)] == Keyed(cutoffs).clients;
    assert Keyed(cutoffs).entities["a" := KEYED_APP] == Keyed(cutoffs).entities;
  }

  lemma CreateKeyedStores(cutoffs: map<string, nat>)
    ensures Drive(NOTHING.(cutoffs := cutoffs), CREATE_KEYED, []) == (Keyed(cutoffs), Succeeded)
  {
    assert Holders(NOTHING.entities, "k1") == {};
    CreateIsAllOrNothing(NOTHING.(cutoffs := cutoffs), "a", CREATE_KEYED.request, GENERATED, []);
  }

  // Runs put together

  lemma {:induction false} SteadyAppends(
      m: Machine, es: seq<Event>, more: seq<Event>, beside: set<Kind>, updates: nat)
    requires SteadfastRun(m, es, beside, updates) && SteadfastRun(Run(m, es), more, beside, updates)
    ensures SteadfastRun(m, es + more, beside, updates) && Run(m, es + more) == Run(Run(m, es), more)
    decreases |es|
  {
    if es == [] {
      assert es + more == more;
    } else {
      assert (es + more)[1..] == es[1..] + more && (es + more)[0] == es[0];
      SteadyAppends(Next(m, es[0]), es[1..], more, beside, updates);
    }
  }

  /** One event more. */
  lemma ThenSteady(m0: Machine, es: seq<Event>, e: Event, beside: set<Kind>, updates: nat) returns (more: seq<Event>)
    requires SteadfastRun(m0, es, beside, updates)
    requires Permitted(Run(m0, es), e, beside, updates) && !Forsakes(Run(m0, es), e)
    ensures SteadfastRun(m0, more, beside, updates) && Run(m0, more) == Next(Run(m0, es), e)
  {
    var m := Run(m0, es);
    assert [e][1..] == [];
    assert Run(m, [e]) == Run(Next(m, e), []);
    assert SteadfastRun(m, [e], beside, updates);
    more := es + [e];
    SteadyAppends(m0, es, [e], beside, updates);
  }

  /** Only updates owe secrets. */
  lemma {:induction false} CallIsSteady(m: Machine, pid: nat, faults: Faults, beside: set<Kind>, updates: nat)
    requires pid in m.jobs && m.jobs[pid].kind != Update
    ensures SteadfastRun(m, DriveEvents(pid, m.s, m.jobs[pid], faults), beside, updates)
    decreases Rank(m.jobs[pid])
  {
    var j := m.jobs[pid];
    var (s', progress) := NextCall(m.s, j, faults);
    RankFalls(m.s, j, if Faulty(faults) then faults[0].value else {});
    KindIsKept(m.s, j);
    var event := if Faulty(faults) then Fail(pid, faults[0].value) else Advance(pid);
    var events := DriveEvents(pid, m.s, j, faults);
    var next := Next(m, event);
    assert events[0] == event && next == Settle(m, pid, s', progress);
    if progress.Continue? {
      assert events[1..] == DriveEvents(pid, s', progress.job, Rest(faults));
      CallIsSteady(next, pid, Rest(faults), beside, updates);
    } else {
      assert events[1..] == [];
    }
  }

  /** The rest of a job that is no update, with nothing in between. */
  lemma ThenSteadyRest(m0: Machine, es: seq<Event>, pid: nat, beside: set<Kind>, updates: nat)
    returns (more: seq<Event>)
    requires SteadfastRun(m0, es, beside, updates) && pid in Run(m0, es).jobs && Run(m0, es).jobs[pid].kind != Update
    ensures var m := Run(m0, es);
            && SteadfastRun(m0, more, beside, updates)
            && Run(m0, more).s == Drive(m.s, m.jobs[pid], []).0
            && Run(m0, more).jobs == m.jobs - {pid} && Run(m0, more).moved <= m.moved
  {
    var m := Run(m0, es);
    var rest := DriveEvents(pid, m.s, m.jobs[pid], []);
    CallIsARun(m, pid, m.jobs[pid], []);
    OtherCallsMoveNothing(m, pid, []);
    CallIsSteady(m, pid, [], beside, updates);
    more := es + rest;
    SteadyAppends(m0, es, rest, beside, updates);
  }

  /** A whole call that is no update, started now. */
  lemma ThenSteadyCall(m0: Machine, es: seq<Event>, pid: nat, j: Job, beside: set<Kind>, updates: nat)
    returns (more: seq<Event>)
    requires SteadfastRun(m0, es, beside, updates) && pid !in Run(m0, es).jobs && Fresh(j) && j.kind != Update
    requires Permitted(Run(m0, es), Start(pid, j), beside, updates)
    ensures var m := Run(m0, es);
            && SteadfastRun(m0, more, beside, updates)
            && Run(m0, more).s == Drive(m.s, j, []).0
            && Run(m0, more).jobs == m.jobs && Run(m0, more).moved <= m.moved
  {
    var m := Run(m0, es);
    more := ThenSteady(m0, es, Start(pid, j), beside, updates);
    var started := Run(m0, more);
    assert started.jobs[pid] == j && started.s == m.s && started.moved == m.moved;
    more := ThenSteadyRest(m0, more, pid, beside, updates);
    assert started.jobs - {pid} == m.jobs;
  }

  /** A call of one of the jobs, when it leaves its client id alone. */
  lemma JobAdvances(s: Stores, jobs: map<nat, Job>, pid: nat, s': Stores, progress: Progress)
    requires pid in jobs && jobs[pid].id == "a" && StepJob(s, jobs[pid]) == (s', progress)
    requires ClientIdIn(s, "a") == ClientIdIn(s', "a")
    ensures var m := Machine(s, jobs, {});
            Next(m, Advance(pid)) ==
            Machine(s', if progress.Continue? then jobs[pid := progress.job] else jobs - {pid}, {})
  {
  }

  /** An update starts and loads beside other updates. */
  lemma ThenLoaded(
      m0: Machine, es: seq<Event>, s: Stores, jobs: map<nat, Job>, pid: nat, update: Job, loaded: Job,
      beside: set<Kind>, updates: nat)
    returns (more: seq<Event>)
    requires SteadfastRun(m0, es, beside, updates) && Run(m0, es) == Machine(s, jobs, {})
    requires pid !in jobs && |jobs.Keys| < updates && forall q :: q in jobs ==> jobs[q].kind == Update
    requires Fresh(update) && update.kind == Update && update.id == "a" && update.generated == GENERATED
    requires StepJob(s, update) == (s, Continue(loaded))
    ensures SteadfastRun(m0, more, beside, updates) && Run(m0, more) == Machine(s, jobs[pid := loaded], {})
  {
    SubsetIsSmaller(UpdatesOf(Machine(s, jobs, {}), "a"), jobs.Keys);
    more := ThenSteady(m0, es, Start(pid, update), beside, updates);
    JobAdvances(s, jobs[pid := update], pid, s, Continue(loaded));
    more := ThenSteady(m0, more, Advance(pid), beside, updates);
    assert jobs[pid := update][pid := loaded] == jobs[pid := loaded];
  }

  // An update cut short

  /** A create with a key, and an update to a client secret up to its client. */
  lemma FirstSwitches(beside: set<Kind>, updates: nat) returns (es: seq<Event>)
    requires updates >= 1
    ensures SteadfastRun(Empty(true), es, beside, updates)
    ensures Run(Empty(true), es) == Machine(Switched(map[]), map[0 := SWITCHING.(stage := Attributes)], {})
  {
    var m0 := Empty(true);
    CreateKeyedStores(map[]);
    SwitchLoads(map[]);
    SwitchWrites(map[]);
    es := ThenSteadyCall(m0, [], 0, CREATE_KEYED, beside, updates);
    es := ThenLoaded(m0, es, Keyed(map[]), map[], 0, SWITCH, SWITCHING, beside, updates);
    JobAdvances(Keyed(map[]), map[0 := SWITCHING], 0, Switched(map[]), Continue(SWITCHING.(stage := Attributes)));
    es := ThenSteady(m0, es, Advance(0), beside, updates);
  }

  /**
   A create with a key and then an update to a client secret that dies after writing the client: nothing overlaps, no
   job is left, and the client authenticates with a secret it does not have.
   */
  lemma UpdateCutShortLosesTheSecret() returns (es: seq<Event>, e: Event)
    ensures SteadfastRun(Empty(true), es, {}, 1) && Permitted(Run(Empty(true), es), e, {}, 1)
    ensures Forsakes(Run(Empty(true), es), e)
    ensures var m := Next(Run(Empty(true), es), e); m.jobs == map[] && Missing(m.s, "a")
  {
    es := FirstSwitches({}, 1);
    e := Crash(0);
  }

  // Three updates

  lemma OthersLoad(beside: set<Kind>, updates: nat) returns (es: seq<Event>)
    requires updates >= 3
    ensures SteadfastRun(Empty(true), es, beside, updates)
    ensures Run(Empty(true), es) ==
            Machine(Switched(map[]), map[0 := SWITCHING.(stage := Attributes), 1 := LEANING, 2 := GOING_BACK], {})
  {
    var m0, s, first := Empty(true), Switched(map[]), SWITCHING.(stage := Attributes);
    OtherUpdatesLoad(s);
    es := FirstSwitches(beside, updates);
    es := ThenLoaded(m0, es, s, map[0 := first], 1, SWITCH, LEANING, beside, updates);
    assert map[0 := first][1 := LEANING].Keys == {0, 1};
    es := ThenLoaded(m0, es, s, map[0 := first, 1 := LEANING], 2, BACK, GOING_BACK, beside, updates);
  }

  lemma OthersGoOn(beside: set<Kind>, updates: nat) returns (es: seq<Event>)
    requires updates >= 3
    ensures SteadfastRun(Empty(true), es, beside, updates)
    ensures Run(Empty(true), es) ==
            Machine(Keyed(map[]),
                    map[0 := SWITCHING.(stage := Attributes), 1 := LEANING, 2 := GOING_BACK.(stage := Attributes)], {})
  {
    var first := SWITCHING.(stage := Attributes);
    es := OthersLoad(beside, updates);
    GoingBackWrites(map[]);
    JobAdvances(Switched(map[]), map[0 := first, 1 := LEANING, 2 := GOING_BACK], 2, Keyed(map[]),
                Continue(GOING_BACK.(stage := Attributes)));
    es := ThenSteady(Empty(true), es, Advance(2), beside, updates);
  }

  /** An update that leans on a secret writes its client after everybody else is done. */
  lemma LeaningGoesOn(beside: set<Kind>, updates: nat, es: seq<Event>, cutoffs: map<string, nat>)
    returns (more: seq<Event>)
    requires SteadfastRun(Empty(true), es, beside, updates)
    requires Run(Empty(true), es) == Machine(Keyed(cutoffs), map[1 := LEANING], {})
    ensures SteadfastRun(Empty(true), more, beside, updates)
    ensures Run(Empty(true), more) == Machine(Switched(cutoffs), map[], {})
  {
    LeaningWrites(cutoffs);
    JobAdvances(Keyed(cutoffs), map[1 := LEANING], 1, Switched(cutoffs), Continue(LEANING.(stage := Attributes)));
    more := ThenSteady(Empty(true), es, Advance(1), beside, updates);
    JobAdvances(Switched(cutoffs), map[1 := LEANING.(stage := Attributes)], 1, Switched(cutoffs), Done(Succeeded));
    more := ThenSteady(Empty(true), more, Advance(1), beside, updates);
    assert Run(Empty(true), more).jobs == map[];
  }

  /**
   Three overlapping updates lose a secret although none of them is cut short while it owes one: the second finds the
   first one's unpaid debt and takes it for a secret, and the third turns the client back to a key before the first one
   dies.
   */
  lemma ThreeUpdatesLoseTheSecret(beside: set<Kind>, updates: nat) returns (es: seq<Event>)
    requires updates >= 3
    ensures SteadfastRun(Empty(true), es, beside, updates)
    ensures var m := Run(Empty(true), es); m.jobs == map[] && Missing(m.s, "a")
  {
    var m0 := Empty(true);
    es := OthersGoOn(beside, updates);
    es := ThenSteady(m0, es, Crash(0), beside, updates);
    assert Run(m0, es).jobs == map[1 := LEANING, 2 := GOING_BACK.(stage := Attributes)];
    GoingBackWrites(map[]);
    JobAdvances(Keyed(map[]), map[1 := LEANING, 2 := GOING_BACK.(stage := Attributes)], 2, Keyed(map[]),
                Done(Succeeded));
    es := ThenSteady(m0, es, Advance(2), beside, updates);
    assert Run(m0, es).jobs == map[1 := LEANING];
    es := LeaningGoesOn(beside, updates, es, map[]);
  }

  // A delete and an update

  const REVOKED_AT_ONCE: map<string, nat> := map["k1" := 0]

  lemma DeleteEmpties()
    ensures Drive(STORED, DELETE, []).0 == NOTHING.(cutoffs := REVOKED_AT_ONCE)
  {
    DeleteOutcome(STORED, "a");
    assert STORED.entities - {"a"} == map[] && STORED.clients - {"a"} == map[];
  }

  /** A create, and an update that leaves its secret alone. */
  lemma UpdateFindsTheSecret(beside: set<Kind>, updates: nat) returns (es: seq<Event>)
    requires updates >= 1
    ensures SteadfastRun(Empty(true), es, beside, updates)
    ensures Run(Empty(true), es) == Machine(STORED, map[1 := LEANING], {})
  {
    CreateStores();
    OtherUpdatesLoad(STORED);
    es := ThenSteadyCall(Empty(true), [], 0, CREATE, beside, updates);
    es := ThenLoaded(Empty(true), es, STORED, map[], 1, SWITCH, LEANING, beside, updates);
  }

  /**
   A delete and a new create with a key take the secret an update had found; the update then goes on and turns secret
   authentication on without one.
   */
  lemma DeleteDuringUpdateLosesTheSecret(beside: set<Kind>, updates: nat) returns (es: seq<Event>)
    requires Update in beside && updates >= 1
    ensures SteadfastRun(Empty(true), es, beside, updates)
    ensures var m := Run(Empty(true), es); m.jobs == map[] && Missing(m.s, "a")
  {
    var m0 := Empty(true);
    es := UpdateFindsTheSecret(beside, updates);
    DeleteEmpties();
    es := ThenSteadyCall(m0, es, 0, DELETE, beside, updates);
    CreateKeyedStores(REVOKED_AT_ONCE);
    es := ThenSteadyCall(m0, es, 0, CREATE_KEYED, beside, updates);
    es := LeaningGoesOn(beside, updates, es, REVOKED_AT_ONCE);
  }

  // A delete and a create

  const HALF_STORED := NOTHING.(entities := map["a" := APP])

  lemma CreateGoesHalfway()
    ensures StepJob(NOTHING, CREATE) == (NOTHING, Continue(CREATE.(stage := EntityRow)))
    ensures StepJob(NOTHING, CREATE.(stage := EntityRow)) == (HALF_STORED, Continue(CREATE.(stage := Client)))
  {
    assert Holders(NOTHING.entities, "k1") == {};
  }

  lemma DeleteTakesTheHalf(delete: Job)
    requires delete == DELETE.(stage := Cascade)
    ensures Drive(HALF_STORED, delete, []).0 == NOTHING
  {
    CascadeOnwards(HALF_STORED, delete);
    assert HALF_STORED.entities - {"a"} == map[] && HALF_STORED.clients - {"a"} == map[];
  }

  /** A delete removes the entity, and with it the secret, before the create stores the client that needs it. */
  lemma DeleteDuringCreateLosesTheSecret(beside: set<Kind>, updates: nat) returns (es: seq<Event>)
    requires Create in beside
    ensures SteadfastRun(Empty(true), es, beside, updates)
    ensures var m := Run(Empty(true), es); m.jobs == map[] && Missing(m.s, "a")
  {
    var m0, deleting := Empty(true), DELETE.(stage := Cascade);
    CreateGoesHalfway();
    es := ThenSteady(m0, [], Start(0, DELETE), beside, updates);
    JobAdvances(NOTHING, map[0 := DELETE], 0, NOTHING, Continue(deleting));
    es := ThenSteady(m0, es, Advance(0), beside, updates);
    es := ThenSteady(m0, es, Start(1, CREATE), beside, updates);
    JobAdvances(NOTHING, map[0 := deleting, 1 := CREATE], 1, NOTHING, Continue(CREATE.(stage := EntityRow)));
    es := ThenSteady(m0, es, Advance(1), beside, updates);
    es := ThenSteady(m0, es, Advance(1), beside, updates);
    assert Run(m0, es).s == HALF_STORED && Run(m0, es).jobs == map[0 := deleting, 1 := CREATE.(stage := Client)];
    DeleteTakesTheHalf(deleting);
    es := ThenSteadyRest(m0, es, 0, beside, updates);
    ClientOnwards(NOTHING, CREATE.(stage := Client), []);
    es := ThenSteadyRest(m0, es, 1, beside, updates);
  }

  /**
   Exactly what may overlap on one application: every run that forsakes no debt keeps the secrets, if and only if a
   delete overlaps with deletes, regenerations and shares at most, and no more than two updates are in progress at a
   time. With anything else there is a run from empty stores that loses a secret.
   */
  lemma SecretsAreSafeExactly(beside: set<Kind>, updates: nat)
    requires updates >= 1
    ensures (forall flowsOn, es :: SteadfastRun(Empty(flowsOn), es, beside, updates) ==>
               SecretsKept(Run(Empty(flowsOn), es))) <==>
            beside <= SPARING_SECRETS && updates <= UPDATES_AT_ONCE
  {
    if beside <= SPARING_SECRETS && updates <= UPDATES_AT_ONCE {
      forall flowsOn, es | SteadfastRun(Empty(flowsOn), es, beside, updates)
        ensures SecretsKept(Run(Empty(flowsOn), es))
      {
        PermitMore(Empty(flowsOn), es, beside, updates, SPARING_SECRETS, UPDATES_AT_ONCE);
        EmptyIsSecretSound(flowsOn);
        RunKeepsSecrets(Empty(flowsOn), es);
        SoundIsKept(Run(Empty(flowsOn), es));
      }
    } else {
      var es := SecretIsLost(beside, updates);
      assert !KeptFor(Run(Empty(true), es), "a");
    }
  }

  lemma SoundIsKept(m: Machine)
    requires SecretSound(m)
    ensures SecretsKept(m)
  {
    forall id ensures KeptFor(m, id) { assert SoundFor(m, id); }
  }

  lemma SecretIsLost(beside: set<Kind>, updates: nat) returns (es: seq<Event>)
    requires updates >= 1 && !(beside <= SPARING_SECRETS && updates <= UPDATES_AT_ONCE)
    ensures SteadfastRun(Empty(true), es, beside, updates)
    ensures var m := Run(Empty(true), es); m.jobs == map[] && Missing(m.s, "a")
  {
    if updates > UPDATES_AT_ONCE {
      es := ThreeUpdatesLoseTheSecret(beside, updates);
    } else if Create in beside {
      es := DeleteDuringCreateLosesTheSecret(beside, updates);
    } else {
      var kind :| kind in beside && kind !in SPARING_SECRETS;
      assert kind == Update;
      es := DeleteDuringUpdateLosesTheSecret(beside, updates);
    }
  }
}

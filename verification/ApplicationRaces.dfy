/**
 Why deletion needs what it asks for: runs from empty stores that break its promises when a delete overlaps with a
 create, an update or a share of the same application, and what an update to another client id leaves behind.
 */
module ApplicationRaces {
  import opened Wrappers
  import opened Stores
  import opened ClientIds
  import opened ApplicationJobs
  import opened ApplicationMachine
  import opened ApplicationCalls
  import opened ApplicationCreation
  import opened ApplicationDeletion

  const BASIC := OAuthProfile(false, ClientSecretBasic)
  const KEYED := OAuthProfile(false, PrivateKeyJwt)
  const APP := Entity(Application, false, Some("k1"), Some("secret"))
  const GENERATED := Generated("k", "generated")

  const CREATE := NewCreate("a", Some(OAuthRequest("k1", "secret", BASIC)), GENERATED)
  const RENAME := NewUpdate("a", Some(OAuthRequest("k2", "", BASIC)), GENERATED)
  const SHARE := NewShare("a", "p", true)
  const DELETE := NewDelete("a")

  const T1 := Token("a", "k1", Some("secret"), 0)
  const T2 := Token("a", "k2", Some("secret"), 0)

  /** Empty stores, and the stores with the one application. */
  const NOTHING := Stores(map[], map[], {}, {}, {}, {}, map[], 0, true)
  const STORED := NOTHING.(entities := map["a" := APP], clients := map["a" := Some(BASIC)])

  ghost predicate Live(s: Stores, t: Token) {
    t in s.tokens && !Revoked(s, t)
  }

  lemma CreateStores()
    ensures Drive(NOTHING, CREATE, []) == (STORED, Succeeded)
  {
    assert Holders(NOTHING.entities, "k1") == {};
    CreateIsAllOrNothing(NOTHING, "a", CREATE.request, GENERATED, []);
  }

  // A delete and a create

  /**
   A delete that found no entity runs no flow. When the same id is created meanwhile, the delete then removes the new
   application, answers that there was nothing to remove, and leaves a token of it live.
   */
  lemma CreateDuringDeleteLeavesLiveToken(beside: set<Kind>) returns (es: seq<Event>, issued: Machine)
    requires Create in beside
    ensures AdmissibleRun(Empty(true), es, beside) && !Promised(Run(Empty(true), es))
    ensures Live(Run(Empty(true), es).s, T1) && "a" !in Run(Empty(true), es).s.entities
    ensures 0 in issued.jobs && Drive(issued.s, issued.jobs[0], []) == (Run(Empty(true), es).s, NotFoundNoop)
  {
    var m0 := Empty(true);
    es := ThenEvent(m0, [], Start(0, DELETE), beside);
    es := ThenEvent(m0, es, Advance(0), beside);
    var loaded := DELETE.(stage := Cascade);
    assert Run(m0, es) == Machine(NOTHING, map[0 := loaded], {});
    CreateStores();
    es := ThenCall(m0, es, 1, CREATE, [], beside);
    assert CanIssue(STORED, "a") && IssuedToken(STORED, "a") == T1;
    es := ThenEvent(m0, es, Issue("a"), beside);
    issued := Run(m0, es);
    CascadeOnwards(issued.s, loaded);
    es := ThenRest(m0, es, 0, [], beside);
    assert T1 in Run(m0, es).s.tokens;
  }

  // A delete and an update

  /** The stores once the delete has run its pre flow, and once the update has written both stores. */
  const REVOKED := STORED.(cutoffs := map["k1" := 0])
  const RENAMED := REVOKED.(entities := map["a" := APP.(clientId := Some("k2"))])

  lemma RenameLoads()
    ensures StepJob(REVOKED, RENAME) == (REVOKED, Continue(RENAME.(stage := Client)))
  {
    assert Holders(REVOKED.entities, "k2") == {};
  }

  lemma RenameWrites()
    ensures StepJob(REVOKED, RENAME.(stage := Client)) == (REVOKED, Continue(RENAME.(stage := Attributes)))
    ensures StepJob(REVOKED, RENAME.(stage := Attributes)) == (RENAMED, Done(Succeeded))
  {
    assert REVOKED.clients["a" := Some(BASIC)] == REVOKED.clients;
    assert REVOKED.entities["a" := APP.(clientId := Some("k2"))] == RENAMED.entities;
  }

  /** The update in the machine: it leaves the client id k1 and takes k2. */
  lemma ThenRename(es: seq<Event>, other: Job, beside: set<Kind>) returns (more: seq<Event>)
    requires AdmissibleRun(Empty(true), es, beside) && Compatible(other.kind, Update, beside)
    requires Run(Empty(true), es) == Machine(REVOKED, map[0 := other], {})
    ensures AdmissibleRun(Empty(true), more, beside)
    ensures Run(Empty(true), more) == Machine(RENAMED, map[0 := other], {("a", "k1")})
  {
    var m0 := Empty(true);
    RenameLoads();
    RenameWrites();
    more := ThenEvent(m0, es, Start(1, RENAME), beside);
    more := ThenEvent(m0, more, Advance(1), beside);
    assert Run(m0, more) == Machine(REVOKED, map[0 := other, 1 := RENAME.(stage := Client)], {});
    more := ThenEvent(m0, more, Advance(1), beside);
    assert Run(m0, more) == Machine(REVOKED, map[0 := other, 1 := RENAME.(stage := Attributes)], {});
    more := ThenEvent(m0, more, Advance(1), beside);
    assert Run(m0, more).jobs == map[0 := other];
  }

  lemma ThenRevoked(beside: set<Kind>) returns (es: seq<Event>)
    ensures AdmissibleRun(Empty(true), es, beside)
    ensures Run(Empty(true), es) ==
            Machine(REVOKED, map[0 := DELETE.(stage := Cascade, ranPre := true, plan := Some("k1"))], {})
  {
    var m0 := Empty(true);
    CreateStores();
    es := ThenCall(m0, [], 0, CREATE, [], beside);
    es := ThenEvent(m0, es, Start(0, DELETE), beside);
    es := ThenEvent(m0, es, Advance(0), beside);
    assert Run(m0, es) == Machine(STORED, map[0 := DELETE.(stage := Pre)], {});
    es := ThenEvent(m0, es, Advance(0), beside);
  }

  /**
   A delete plans its cutoff before it removes anything. When an update then gives the application another client id,
   a token issued under that one is live after the delete, which has succeeded like the update.
   */
  lemma UpdateDuringDeleteLeavesLiveToken(beside: set<Kind>) returns (es: seq<Event>, issued: Machine)
    requires Update in beside
    ensures AdmissibleRun(Empty(true), es, beside) && !Promised(Run(Empty(true), es))
    ensures Live(Run(Empty(true), es).s, T2) && "a" !in Run(Empty(true), es).s.entities
    ensures 0 in issued.jobs && Drive(issued.s, issued.jobs[0], []) == (Run(Empty(true), es).s, Succeeded)
  {
    var m0 := Empty(true);
    var revoked := DELETE.(stage := Cascade, ranPre := true, plan := Some("k1"));
    es := ThenRevoked(beside);
    es := ThenRename(es, revoked, beside);
    assert CanIssue(RENAMED, "a") && IssuedToken(RENAMED, "a") == T2;
    es := ThenEvent(m0, es, Issue("a"), beside);
    issued := Run(m0, es);
    CascadeOnwards(issued.s, revoked);
    es := ThenRest(m0, es, 0, [], beside);
    assert T2 in Run(m0, es).s.tokens;
  }

  // A delete and a share

  /** A share that checked its application before a whole delete leaves a policy after it, and nothing else. */
  lemma ShareDuringDeleteIsLeftBehind(beside: set<Kind>) returns (es: seq<Event>)
    requires Share in beside
    ensures AdmissibleRun(Empty(true), es, beside) && !Promised(Run(Empty(true), es))
    ensures var s := Run(Empty(true), es).s;
            SharedWith(s, "a") && "a" !in s.clients && "a" !in s.entities
  {
    var m0 := Empty(true);
    CreateStores();
    es := ThenCall(m0, [], 0, CREATE, [], beside);
    es := ThenEvent(m0, es, Start(1, SHARE), beside);
    es := ThenEvent(m0, es, Advance(1), beside);
    assert Run(m0, es).jobs == map[1 := SHARE.(stage := Grant)] && Run(m0, es).s == STORED;
    DeleteConverges(STORED, "a");
    es := ThenCall(m0, es, 0, DELETE, [], beside);
    es := ThenEvent(m0, es, Advance(1), beside);
    assert Policy("p", "a") in Run(m0, es).s.policies;
  }

  /**
   Exactly which operations may overlap with a delete of the same application: other deletes and regenerations. With
   any other kind there is a run from empty stores that breaks a promise; all other overlaps are harmless.
   */
  lemma OverlapIsSafeExactly(beside: set<Kind>)
    ensures (forall es :: AdmissibleRun(Empty(true), es, beside) ==> Promised(Run(Empty(true), es))) <==>
            beside <= BESIDE_DELETE
  {
    if beside <= BESIDE_DELETE {
      forall es | AdmissibleRun(Empty(true), es, beside) ensures Promised(Run(Empty(true), es)) {
        AllowMore(Empty(true), es, beside, BESIDE_DELETE);
        PromisesHold(es);
      }
    } else if Create in beside {
      var es, _ := CreateDuringDeleteLeavesLiveToken(beside);
    } else if Update in beside {
      var es, _ := UpdateDuringDeleteLeavesLiveToken(beside);
    } else {
      var kind :| kind in beside && kind !in BESIDE_DELETE;
      assert kind == Share;
      var es := ShareDuringDeleteIsLeftBehind(beside);
    }
  }

  // One call after the other

  /** One application with a basic client, and one token issued to it a moment ago. */
  const USED := STORED.(tokens := {T1}, now := 1)

  const MOVED := USED.(entities := map["a" := APP.(clientId := Some("k2"))])

  lemma UsedIsRenamed()
    ensures Drive(USED, RENAME, []) == (MOVED, Succeeded)
  {
    var atClient := RENAME.(stage := Client);
    assert Holders(USED.entities, "k2") == {};
    CallSucceeds(USED, RENAME, [], USED, atClient);
    assert USED.clients["a" := Some(BASIC)] == USED.clients;
    CallSucceeds(USED, atClient, [], USED, atClient.(stage := Attributes));
    assert USED.entities["a" := APP.(clientId := Some("k2"))] == MOVED.entities;
    assert Drive(USED, atClient.(stage := Attributes), []) == (MOVED, Succeeded);
  }

  lemma UsedIsQuiet()
    ensures Quiet(Machine(USED, map[], {}))
  {
    assert TokenAccounted(Machine(USED, map[], {}), T1);
  }

  lemma MovedIsDeleted()
    ensures var (deleted, result) := Drive(MOVED, DELETE, []);
            result == Succeeded && Gone(deleted, "a") && T1 in deleted.tokens && !Revoked(deleted, T1)
  {
    DeleteConverges(MOVED, "a");
    DeleteRevokes(MOVED, "a", T1);
  }

  /**
   Two successful calls in a row: an update that gives the application another client id, then its deletion.
   The token issued under the old client id is still live when the application is gone.
   */
  lemma ClientIdChangeLeavesLiveTokens()
    ensures var (updated, result) := Drive(USED, RENAME, []);
            var (deleted, result') := Drive(updated, DELETE, []);
            && Quiet(Machine(USED, map[], {}))
            && result == Succeeded && result' == Succeeded && Gone(deleted, "a")
            && exists t :: t in deleted.tokens && t.app == "a" && !Revoked(deleted, t)
  {
    UsedIsQuiet();
    UsedIsRenamed();
    MovedIsDeleted();
  }
}

/**
 A recorded verification is about the contact its user holds now: over all interleavings of record calls, updates and
 schema changes, and exactly which schema changes leave it so.
 */
module VerificationMarks {
  import opened Wrappers
  import opened GoText
  import opened ContactValues
  import opened AttributeVerification

  /** Every verification was recorded for what its user holds now. */
  predicate MarksAreCurrent(s: State) {
    forall id <- s.users :: UserIsCurrent(s, s.users[id])
  }

  predicate UserIsCurrent(s: State, user: User) {
    forall name <- user.verified ::
      && user.kind in s.schemas
      && user.verified[name] == ComparedValue(user, LastContact(s.schemas[user.kind], name), name)
  }

  /** Every text whose comparison as `was` gives the value gives it as `becomes` too. */
  predicate Outlasts(value: string, was: Option<ContactKind>, becomes: Option<ContactKind>) {
    || was == None
    || (was == Some(Email) <==> becomes == Some(Email))
    || (becomes == Some(Email) <==> Canonical(Some(Email), value) == value)
  }

  /** The comparison a call is about to make is still as good as one by the schema of now. */
  predicate IsFresh(s: State, call: Call) {
    call.stage.WriteMark? ==>
      && call.stage.kind in s.schemas
      && Outlasts(call.pin.value, LastContact(call.stage.contacts, call.pin.attribute),
                  LastContact(s.schemas[call.stage.kind], call.pin.attribute))
  }

  predicate CallsAreFresh(s: State) {
    forall call <- s.calls :: IsFresh(s, call)
  }

  /** Two different texts that compare the same as emails. */
  predicate Rival(value: string, text: string) {
    value != text && Canonical(Some(Email), value) == Canonical(Some(Email), text)
  }

  /** The update stores a text for the attribute that is not blank. */
  predicate Fills(w: Write, name: string) {
    name in w.values && w.values[name].Text? && TrimSpace(w.values[name].text) != ""
  }

  predicate RivalMark(s: State, w: Write, name: string)
    requires Fills(w, name)
  {
    && w.id in s.users && s.users[w.id].kind == w.kind && name in s.users[w.id].verified
    && Rival(s.users[w.id].verified[name], w.values[name].text)
  }

  /** A call is about to record a rival as a mobile number. */
  predicate RivalCall(w: Write, name: string, call: Call)
    requires Fills(w, name)
  {
    && call.stage.WriteMark? && call.stage.kind == w.kind && call.pin.subject == w.id && call.pin.attribute == name
    && LastContact(call.stage.contacts, name) == Some(Mobile) && Rival(call.pin.value, w.values[name].text)
  }

  /**
   The update has read that the attribute is an email, which it no longer is, and would take a verified rival of the
   text it stores for the same contact; while the attribute is a mobile number any rival may still be verified.
   */
  ghost predicate Misleads(s: State, w: Write, attributes: seq<Attribute>, name: string) {
    && LastContact(w.contacts, name) == Some(Email) && LastContact(attributes, name) != Some(Email) && Fills(w, name)
    && (LastContact(attributes, name).Some? || RivalMark(s, w, name) ||
        exists call <- s.calls :: RivalCall(w, name, call))
  }

  ghost predicate WriteIsFresh(s: State, w: Write, attributes: seq<Attribute>) {
    forall name :: !Misleads(s, w, attributes, name)
  }

  /** No update in progress is misled by what it has read. */
  ghost predicate WritesAreFresh(s: State) {
    forall w :: w in s.writes ==>
      s.writes[w].kind in s.schemas && WriteIsFresh(s, s.writes[w], s.schemas[s.writes[w].kind])
  }

  /** Nothing blank is verified, or about to be. */
  predicate NothingBlank(s: State) {
    && (forall id <- s.users :: forall name <- s.users[id].verified :: TrimSpace(s.users[id].verified[name]) != "")
    && (forall call <- s.calls :: call.stage.ReadContacts? || call.stage.WriteMark? ==> TrimSpace(call.pin.value) != "")
  }

  /** Every verification is about its user's value now, and what is in progress will not make it otherwise. */
  ghost predicate MarksAreSafe(s: State) {
    MarksAreCurrent(s) && NothingBlank(s) && CallsAreFresh(s) && WritesAreFresh(s)
  }

  lemma OutlastsExactly(value: string, was: Option<ContactKind>, becomes: Option<ContactKind>)
    ensures Outlasts(value, was, becomes) <==>
            was.Some? ==> forall text :: Canonical(was, text) == value ==> Canonical(becomes, text) == value
  {
    forall text | Outlasts(value, was, becomes) && was.Some? && Canonical(was, text) == value
      ensures Canonical(becomes, text) == value
    {
      CanonicalIsIdempotent(was, text);
    }
    if !Outlasts(value, was, becomes) { LostTextIsLost(value, was, becomes); }
  }

  /** A text that compares as the value only as long as its attribute stays the kind of contact it was. */
  function LostText(value: string, was: Option<ContactKind>): (text: string)
    ensures was != Some(Email) ==> text == value
    ensures was == Some(Email) ==> text != value && Canonical(was, text) == Canonical(was, value)
  {
    if was == Some(Email) then
      assert (" " + value)[1..] == value;
      " " + value
    else value
  }

  lemma LostTextIsLost(value: string, was: Option<ContactKind>, becomes: Option<ContactKind>)
    requires !Outlasts(value, was, becomes)
    ensures was.Some? && Canonical(was, LostText(value, was)) == value
    ensures Canonical(becomes, LostText(value, was)) != value
  {
  }

  lemma OneUserChanges(s: State, id: string, user: User)
    requires MarksAreCurrent(s) && UserIsCurrent(s, user)
    ensures MarksAreCurrent(s.(users := s.users[id := user]))
  {
    var after := s.(users := s.users[id := user]);
    forall other <- after.users ensures UserIsCurrent(after, after.users[other]) {
      assert other != id ==> UserIsCurrent(s, s.users[other]);
    }
  }

  lemma AdvanceKeepsFresh(s: State, i: nat, fault: bool)
    requires CallsAreFresh(s) && i < |s.calls|
    ensures CallsAreFresh(Advance(s, i, fault))
  {
    var call, after := s.calls[i], Advance(s, i, fault);
    assert IsFresh(s, call);
    var next := Call(call.pin, Next(s, call, fault));
    assert IsFresh(s, next);
    forall other <- after.calls ensures IsFresh(after, other) {
      assert other in s.calls || other == next;
      assert IsFresh(s, other);
    }
  }

  lemma AppliedIsCurrent(s: State, call: Call)
    requires call.stage.WriteMark? && IsFresh(s, call)
    requires Applies(s, call.pin, call.stage.kind, call.stage.contacts)
    ensures ComparedValue(s.users[call.pin.subject], LastContact(s.schemas[call.stage.kind], call.pin.attribute),
                          call.pin.attribute) == call.pin.value
  {
    OutlastsExactly(call.pin.value, LastContact(call.stage.contacts, call.pin.attribute),
                    LastContact(s.schemas[call.stage.kind], call.pin.attribute));
  }

  lemma AdvanceKeepsMarks(s: State, i: nat, fault: bool)
    requires MarksAreCurrent(s) && CallsAreFresh(s) && i < |s.calls|
    ensures MarksAreCurrent(Advance(s, i, fault))
  {
    var call, after := s.calls[i], Advance(s, i, fault);
    assert IsFresh(s, call);
    if !call.stage.Done? && Next(s, call, fault) == Done(Verified) {
      AppliedIsCurrent(s, call);
      assert UserIsCurrent(s, s.users[call.pin.subject]);
      OneUserChanges(s, call.pin.subject, Marked(s.users, call.pin)[call.pin.subject]);
    }
    assert MarksAreCurrent(s.(users := after.users));
    forall id <- after.users ensures UserIsCurrent(after, after.users[id]) {
      assert UserIsCurrent(s.(users := after.users), after.users[id]);
    }
  }

  /** No recorded value of the type's users compares differently after a schema change. */
  predicate MarksCompareTheSame(s: State, schema: string, attributes: seq<Attribute>) {
    schema in s.schemas ==>
      forall id <- s.users | s.users[id].kind == schema :: forall name <- s.users[id].verified ::
        ComparedValue(s.users[id], LastContact(attributes, name), name)
        == ComparedValue(s.users[id], LastContact(s.schemas[schema], name), name)
  }

  /** A schema change keeps that exactly when no recorded value of the type's users compares differently afterwards. */
  lemma SchemaKeepsMarksExactly(s: State, schema: string, attributes: seq<Attribute>)
    requires MarksAreCurrent(s)
    ensures MarksAreCurrent(Happen(s, SetSchema(schema, attributes))) <==>
            MarksCompareTheSame(s, schema, attributes)
  {
    var after := Happen(s, SetSchema(schema, attributes));
    forall id <- s.users ensures UserIsCurrent(s, s.users[id]) {
    }
    if MarksAreCurrent(after) {
      forall id <- s.users ensures UserIsCurrent(after, s.users[id]) {
        assert after.users[id] == s.users[id];
      }
    }
  }

  /** A schema change that no recorded verification and nothing in progress depends on. */
  ghost predicate Harmless(s: State, step: Step) {
    step.SetSchema? ==>
      && MarksCompareTheSame(s, step.schema, step.attributes)
      && (forall call <- s.calls | call.stage.WriteMark? && call.stage.kind == step.schema ::
            Outlasts(call.pin.value, LastContact(call.stage.contacts, call.pin.attribute),
                     LastContact(step.attributes, call.pin.attribute)))
      && (forall w :: w in s.writes && s.writes[w].kind == step.schema ==>
            WriteIsFresh(s, s.writes[w], step.attributes))
  }

  ghost predicate HarmlessRun(s: State, steps: seq<Step>)
    decreases |steps|
  {
    steps == [] || (Harmless(s, steps[0]) && HarmlessRun(Happen(s, steps[0]), steps[1..]))
  }

  lemma BlankIsCanonical(text: string)
    ensures Canonical(Some(Email), text) == "" <==> TrimSpace(text) == ""
  {
  }

  lemma KeptMarkIsCurrent(s: State, w: Write, name: string)
    requires NothingBlank(s) && w.id in s.users && s.users[w.id].kind == w.kind && UserIsCurrent(s, s.users[w.id])
    requires w.kind in s.schemas && !Misleads(s, w, s.schemas[w.kind], name)
    requires name in Kept(s.users[w.id], w.contacts, w.values)
    ensures var kind := LastContact(s.schemas[w.kind], name);
            ComparedValue(s.users[w.id].(values := w.values), kind, name) == s.users[w.id].verified[name]
  {
    var user := s.users[w.id];
    BlankIsCanonical("");
    if LastContact(w.contacts, name) == Some(Email) && LastContact(s.schemas[w.kind], name) != Some(Email) {
      var value := user.verified[name];
      BlankIsCanonical(value);
      assert StoredText(user, name) == Some(value);
      var text := w.values[name].text;
      BlankIsCanonical(text);
      assert Fills(w, name) && !RivalMark(s, w, name);
    }
  }

  /** By the schema it read before the lock, an update invalidates all it must unless it is misled. */
  lemma WriteKeepsMarks(s: State, w: Write)
    requires MarksAreCurrent(s) && NothingBlank(s)
    requires w.kind in s.schemas && WriteIsFresh(s, w, s.schemas[w.kind])
    ensures MarksAreCurrent(s.(users := Written(s.users, w)))
  {
    if w.id in s.users {
      var user := s.users[w.id];
      assert UserIsCurrent(s, user);
      if user.kind == w.kind {
        var written := user.(values := w.values, verified := Kept(user, w.contacts, w.values));
        forall name <- written.verified
          ensures ComparedValue(written, LastContact(s.schemas[w.kind], name), name) == written.verified[name]
        {
          KeptMarkIsCurrent(s, w, name);
        }
        OneUserChanges(s, w.id, written);
      } else if w.changesType {
        OneUserChanges(s, w.id, user.(kind := w.kind, values := w.values, verified := map[]));
      }
    }
  }

  /** Whether verifications are current depends on the users and the schemas only. */
  lemma SameUsersStayCurrent(s: State, s': State)
    requires MarksAreCurrent(s) && s'.users == s.users && s'.schemas == s.schemas
    ensures MarksAreCurrent(s')
  {
    forall id <- s'.users ensures UserIsCurrent(s', s'.users[id]) { assert UserIsCurrent(s, s.users[id]); }
  }

  /** A mark that a call records was one it was about to record. */
  lemma NewMarkWasCalledFor(s: State, i: nat, fault: bool, w: Write, name: string)
    requires i < |s.calls| && IsFresh(s, s.calls[i]) && w.kind in s.schemas && Fills(w, name)
    requires LastContact(s.schemas[w.kind], name).None?
    requires RivalMark(Advance(s, i, fault), w, name) && !RivalMark(s, w, name)
    ensures RivalCall(w, name, s.calls[i])
  {
    var call := s.calls[i];
    assert Applies(s, call.pin, call.stage.kind, call.stage.contacts) && call.stage.kind == w.kind;
    var was := LastContact(call.stage.contacts, name);
    CanonicalIsIdempotent(was, s.users[w.id].values[name].text);
    assert was.value == Email || was.value == Mobile;
  }

  lemma NewCallIsNoRival(s: State, i: nat, fault: bool, w: Write, name: string)
    requires i < |s.calls| && w.kind in s.schemas && Fills(w, name)
    requires LastContact(s.schemas[w.kind], name).None?
    ensures !RivalCall(w, name, Call(s.calls[i].pin, Next(s, s.calls[i], fault)))
  {
  }

  /** What a call newly records or is about to record misleads no update. */
  lemma AdvanceMisleadsNobody(s: State, i: nat, fault: bool, w: Write, name: string)
    requires CallsAreFresh(s) && i < |s.calls| && w.kind in s.schemas
    requires Misleads(Advance(s, i, fault), w, s.schemas[w.kind], name)
    ensures Misleads(s, w, s.schemas[w.kind], name)
  {
    var call, after := s.calls[i], Advance(s, i, fault);
    assert IsFresh(s, call);
    if LastContact(s.schemas[w.kind], name).None? && !RivalMark(s, w, name) {
      if RivalMark(after, w, name) {
        NewMarkWasCalledFor(s, i, fault, w, name);
      } else {
        var other :| other in after.calls && RivalCall(w, name, other);
        NewCallIsNoRival(s, i, fault, w, name);
        assert other in s.calls || other == Call(call.pin, Next(s, call, fault));
      }
    }
  }

  lemma CallStepsKeepFresh(s: State, i: nat, fault: bool)
    requires CallsAreFresh(s) && WritesAreFresh(s) && NothingBlank(s)
    ensures var after := Happen(s, Work(i, fault));
            CallsAreFresh(after) && WritesAreFresh(after) && NothingBlank(after)
  {
    if i < |s.calls| {
      var after := Advance(s, i, fault);
      AdvanceKeepsFresh(s, i, fault);
      AdvanceKeepsText(s, i, fault);
      forall w, name | w in after.writes
        ensures !Misleads(after, after.writes[w], s.schemas[after.writes[w].kind], name)
      {
        assert WriteIsFresh(s, s.writes[w], s.schemas[s.writes[w].kind]);
        if Misleads(after, s.writes[w], s.schemas[s.writes[w].kind], name) {
          AdvanceMisleadsNobody(s, i, fault, s.writes[w], name);
        }
      }
    }
  }

  lemma AdvanceKeepsText(s: State, i: nat, fault: bool)
    requires NothingBlank(s) && i < |s.calls|
    ensures NothingBlank(Advance(s, i, fault))
  {
    var call, after := s.calls[i], Advance(s, i, fault);
    assert call in s.calls;
    var next := Call(call.pin, Next(s, call, fault));
    assert forall other <- after.calls :: other in s.calls || other == next;
    assert forall id <- after.users :: id in s.users;
  }

  lemma OtherStepsKeepFresh(s: State, step: Step)
    requires CallsAreFresh(s) && WritesAreFresh(s) && NothingBlank(s) && Harmless(s, step) && !step.Work?
    ensures var after := Happen(s, step);
            CallsAreFresh(after) && WritesAreFresh(after) && NothingBlank(after)
  {
    var after := Happen(s, step);
    forall call <- after.calls ensures IsFresh(after, call) { assert call in s.calls ==> IsFresh(s, call); }
    forall w | w in after.writes
      ensures after.writes[w].kind in after.schemas
      ensures WriteIsFresh(after, after.writes[w], after.schemas[after.writes[w].kind])
    {
      if w in s.writes { WriteStaysFresh(s, step, w); }
    }
  }

  /** Only calls record verifications and are about to record them. */
  lemma OtherStepsMarkNothing(s: State, step: Step, id: string, name: string)
    requires !step.Work? && HasMark(Happen(s, step), id, name)
    ensures HasMark(s, id, name) && s.users[id].verified[name] == Happen(s, step).users[id].verified[name]
    ensures s.users[id].kind == Happen(s, step).users[id].kind
  {
  }

  lemma StaysUnmisled(s: State, s': State, w: Write, attributes: seq<Attribute>, name: string)
    requires !Misleads(s, w, attributes, name)
    requires HasMark(s', w.id, name) ==>
               HasMark(s, w.id, name) && s'.users[w.id].verified[name] == s.users[w.id].verified[name]
               && s'.users[w.id].kind == s.users[w.id].kind
    requires forall call <- s'.calls :: call in s.calls || !call.stage.WriteMark?
    ensures !Misleads(s', w, attributes, name)
  {
  }

  lemma WriteStaysFresh(s: State, step: Step, w: nat)
    requires WritesAreFresh(s) && Harmless(s, step) && !step.Work? && w in s.writes && w in Happen(s, step).writes
    ensures var after, write := Happen(s, step), s.writes[w];
            && after.writes[w] == write && write.kind in after.schemas
            && WriteIsFresh(after, write, after.schemas[write.kind])
  {
    var after, write := Happen(s, step), s.writes[w];
    assert WriteIsFresh(s, write, s.schemas[write.kind]);
    assert WriteIsFresh(s, write, after.schemas[write.kind]);
    assert forall call <- after.calls :: call in s.calls || !call.stage.WriteMark?;
    forall name ensures !Misleads(after, write, after.schemas[write.kind], name) {
      if HasMark(after, write.id, name) { OtherStepsMarkNothing(s, step, write.id, name); }
      StaysUnmisled(s, after, write, after.schemas[write.kind], name);
    }
  }

  lemma StepKeepsMarks(s: State, step: Step)
    requires MarksAreSafe(s) && Harmless(s, step)
    ensures MarksAreSafe(Happen(s, step))
  {
    if step.Work? { CallStepsKeepFresh(s, step.call, step.fault); } else { OtherStepsKeepFresh(s, step); }
    match step
    case AddUser(id, user) => OneUserChanges(s, id, user.(verified := map[]));
    case BeginWrite(_, _, _, _, _) => SameUsersStayCurrent(s, Happen(s, step));
    case EndWrite(w, writeFault) =>
      if w in s.writes {
        WriteKeepsMarks(s, s.writes[w]);
        SameUsersStayCurrent(if writeFault then s else s.(users := Written(s.users, s.writes[w])), Happen(s, step));
      }
    case RemoveUser(id) =>
      forall other <- s.users - {id} ensures UserIsCurrent(Happen(s, step), s.users[other]) {
        assert UserIsCurrent(s, s.users[other]);
      }
    case Begin(pin) => SameUsersStayCurrent(s, Happen(s, step));
    case SetSchema(schema, attributes) => SchemaKeepsMarksExactly(s, schema, attributes);
    case Work(i, fault) => if i < |s.calls| { AdvanceKeepsMarks(s, i, fault); }
  }

  /** A verification never outlives the value it was recorded for, in any interleaving of harmless steps. */
  lemma {:induction false} RunKeepsMarks(s: State, steps: seq<Step>)
    requires MarksAreSafe(s) && HarmlessRun(s, steps)
    ensures MarksAreSafe(Run(s, steps))
    decreases |steps|
  {
    if steps != [] {
      StepKeepsMarks(s, steps[0]);
      RunKeepsMarks(Happen(s, steps[0]), steps[1..]);
    }
  }

  predicate NoSchemaChanges(steps: seq<Step>) {
    forall step <- steps :: !step.SetSchema?
  }

  lemma {:induction false} OtherStepsAreHarmless(s: State, steps: seq<Step>)
    requires NoSchemaChanges(steps)
    ensures HarmlessRun(s, steps)
    decreases |steps|
  {
    if steps != [] { OtherStepsAreHarmless(Happen(s, steps[0]), steps[1..]); }
  }

  // When a schema change is not harmless

  lemma {:induction false} RunAppends(s: State, steps: seq<Step>, more: seq<Step>)
    ensures Run(s, steps + more) == Run(Run(s, steps), more)
    decreases |steps|
  {
    if steps == [] {
      assert steps + more == more;
    } else {
      assert (steps + more)[1..] == steps[1..] + more && (steps + more)[0] == steps[0];
      RunAppends(Happen(s, steps[0]), steps[1..], more);
    }
  }

  lemma OneStep(s: State, step: Step)
    ensures Run(s, [step]) == Happen(s, step)
  {
    assert [step][1..] == [];
    assert Run(Happen(s, step), []) == Happen(s, step);
  }

  /** The user who holds exactly this text, whoever held the id before. */
  function Holder(kind: string, name: string, text: string): User {
    User(true, false, kind, map[name := Text(text)], map[])
  }

  lemma Placed(s: State, id: string, user: User) returns (steps: seq<Step>)
    requires user.verified == map[]
    ensures NoSchemaChanges(steps) && Run(s, steps) == s.(users := s.users[id := user])
  {
    var first := RemoveUser(id);
    steps := [first] + [AddUser(id, user)];
    OneStep(s, first);
    OneStep(Happen(s, first), AddUser(id, user));
    RunAppends(s, [first], [AddUser(id, user)]);
    assert (s.users - {id})[id := user] == s.users[id := user];
    assert user.(verified := map[]) == user;
  }

  /** A call that is not fresh records its pin for a user who holds a text that no longer compares as the pin. */
  lemma StaleCallMarks(s: State, i: nat)
    requires i < |s.calls| && s.calls[i].stage.WriteMark? && s.calls[i].stage.kind in s.schemas
    requires !IsFresh(s, s.calls[i])
    requires var call := s.calls[i];
             var text := LostText(call.pin.value, LastContact(call.stage.contacts, call.pin.attribute));
             && call.pin.subject in s.users
             && s.users[call.pin.subject] == Holder(call.stage.kind, call.pin.attribute, text)
    ensures !MarksAreCurrent(Happen(s, Work(i, false)))
  {
    var call := s.calls[i];
    var after := Happen(s, Work(i, false));
    LostTextIsLost(call.pin.value, LastContact(call.stage.contacts, call.pin.attribute),
                   LastContact(s.schemas[call.stage.kind], call.pin.attribute));
    assert Applies(s, call.pin, call.stage.kind, call.stage.contacts);
    assert !UserIsCurrent(after, after.users[call.pin.subject]);
  }

  lemma StaleCallMisleads(s: State, i: nat) returns (steps: seq<Step>)
    requires i < |s.calls| && s.calls[i].stage.WriteMark? && s.calls[i].stage.kind in s.schemas
    requires !IsFresh(s, s.calls[i])
    ensures NoSchemaChanges(steps) && !MarksAreCurrent(Run(s, steps))
  {
    var call := s.calls[i];
    var text := LostText(call.pin.value, LastContact(call.stage.contacts, call.pin.attribute));
    var placed := Placed(s, call.pin.subject, Holder(call.stage.kind, call.pin.attribute, text));
    var s1 := Run(s, placed);
    steps := placed + [Work(i, false)];
    RunAppends(s, placed, [Work(i, false)]);
    OneStep(s1, Work(i, false));
    StaleCallMarks(s1, i);
  }

  /** The user holds a verified rival of the text the update stores, which the update keeps. */
  ghost predicate Trapped(s: State, w: nat, name: string, value: string) {
    && w in s.writes && Fills(s.writes[w], name) && Rival(value, s.writes[w].values[name].text)
    && s.writes[w].kind in s.schemas && LastContact(s.schemas[s.writes[w].kind], name) != Some(Email)
    && LastContact(s.writes[w].contacts, name) == Some(Email)
    && s.writes[w].id in s.users && s.users[s.writes[w].id].kind == s.writes[w].kind
    && StoredText(s.users[s.writes[w].id], name) == Some(value)
    && name in s.users[s.writes[w].id].verified && s.users[s.writes[w].id].verified[name] == value
  }

  lemma TrappedWriteMisleads(s: State, w: nat, name: string, value: string)
    requires Trapped(s, w, name, value)
    ensures !MarksAreCurrent(Happen(s, EndWrite(w, false)))
  {
    var write, after := s.writes[w], Happen(s, EndWrite(w, false));
    assert name in after.users[write.id].verified && after.users[write.id].verified[name] == value;
    assert !UserIsCurrent(after, after.users[write.id]);
  }

  /** From there the update ends. */
  lemma ThenMisled(s: State, steps: seq<Step>, w: nat, name: string, value: string) returns (more: seq<Step>)
    requires NoSchemaChanges(steps) && Trapped(Run(s, steps), w, name, value)
    ensures NoSchemaChanges(more) && !MarksAreCurrent(Run(s, more))
  {
    more := steps + [EndWrite(w, false)];
    RunAppends(s, steps, [EndWrite(w, false)]);
    OneStep(Run(s, steps), EndWrite(w, false));
    TrappedWriteMisleads(Run(s, steps), w, name, value);
  }

  /** A call about to record a rival records it for a user who holds it. */
  lemma RivalCallMarks(s: State, w: Write, name: string, i: nat)
    requires Fills(w, name) && i < |s.calls| && RivalCall(w, name, s.calls[i])
    requires w.id in s.users && s.users[w.id] == Holder(w.kind, name, s.calls[i].pin.value)
    ensures var value, after := s.calls[i].pin.value, Happen(s, Work(i, false));
            && after.users == s.users[w.id := Holder(w.kind, name, value).(verified := map[name := value])]
            && after.writes == s.writes && after.schemas == s.schemas
  {
    assert Applies(s, s.calls[i].pin, w.kind, s.calls[i].stage.contacts);
  }

  lemma RivalCallMisleads(s: State, w: nat, name: string, i: nat) returns (steps: seq<Step>)
    requires w in s.writes && s.writes[w].kind in s.schemas && Fills(s.writes[w], name)
    requires LastContact(s.writes[w].contacts, name) == Some(Email)
    requires LastContact(s.schemas[s.writes[w].kind], name) != Some(Email)
    requires i < |s.calls| && RivalCall(s.writes[w], name, s.calls[i])
    ensures NoSchemaChanges(steps) && !MarksAreCurrent(Run(s, steps))
  {
    var write, value := s.writes[w], s.calls[i].pin.value;
    var placed := Placed(s, write.id, Holder(write.kind, name, value));
    var s1 := Run(s, placed);
    RunAppends(s, placed, [Work(i, false)]);
    OneStep(s1, Work(i, false));
    RivalCallMarks(s1, write, name, i);
    steps := ThenMisled(s, placed + [Work(i, false)], w, name, value);
  }

  lemma RivalPinIsRecorded(s: State, pin: Pin, kind: string)
    requires kind != "" && kind in s.schemas && UniqueNames(s.schemas[kind])
    requires pin.subject in s.users && s.users[pin.subject] == Holder(kind, pin.attribute, pin.value)
    requires LastContact(s.schemas[kind], pin.attribute) == Some(Mobile) && TrimSpace(pin.value) != ""
    requires pin.channel == Mobile
    ensures RecordResult(s, pin, [false, false, false, false]) == Verified
  {
    ContactsAgree(s.schemas[kind], pin.attribute);
    assert pin.value != "";
  }

  /** While the attribute is a mobile number, a rival is pinned and recorded for a user who holds it. */
  lemma MobileMisleads(s: State, w: nat, name: string) returns (steps: seq<Step>)
    requires w in s.writes && s.writes[w].kind in s.schemas && Fills(s.writes[w], name) && s.writes[w].kind != ""
    requires LastContact(s.writes[w].contacts, name) == Some(Email)
    requires LastContact(s.schemas[s.writes[w].kind], name) == Some(Mobile)
    requires UniqueNames(s.schemas[s.writes[w].kind])
    ensures NoSchemaChanges(steps) && !MarksAreCurrent(Run(s, steps))
  {
    var write := s.writes[w];
    var value := LostText(write.values[name].text, Some(Email));
    BlankIsCanonical(value);
    BlankIsCanonical(write.values[name].text);
    var pin, faults := Pin(write.id, name, value, Mobile), [false, false, false, false];
    var placed := Placed(s, write.id, Holder(write.kind, name, value));
    var s1 := Run(s, placed);
    RivalPinIsRecorded(s1, pin, write.kind);
    RecordIsOneStep(s1, pin, faults);
    var i := |s1.calls|;
    var record := [Begin(pin), Work(i, false), Work(i, false), Work(i, false), Work(i, false)];
    RunAppends(s, placed, record);
    steps := ThenMisled(s, placed + record, w, name, value);
  }

  lemma RivalMarkMisleads(s: State, w: nat, name: string) returns (steps: seq<Step>)
    requires MarksAreCurrent(s) && NothingBlank(s)
    requires w in s.writes && s.writes[w].kind in s.schemas && Fills(s.writes[w], name)
    requires LastContact(s.writes[w].contacts, name) == Some(Email)
    requires LastContact(s.schemas[s.writes[w].kind], name) != Some(Email)
    requires RivalMark(s, s.writes[w], name)
    ensures NoSchemaChanges(steps) && !MarksAreCurrent(Run(s, steps))
  {
    var user := s.users[s.writes[w].id];
    assert UserIsCurrent(s, user);
    assert Run(s, []) == s && TrimSpace(user.verified[name]) != "";
    steps := ThenMisled(s, [], w, name, user.verified[name]);
  }

  lemma MisledWriteMisleads(s: State, w: nat, name: string) returns (steps: seq<Step>)
    requires MarksAreCurrent(s) && NothingBlank(s) && w in s.writes && s.writes[w].kind in s.schemas
    requires UniqueNames(s.schemas[s.writes[w].kind]) && s.writes[w].kind != ""
    requires Misleads(s, s.writes[w], s.schemas[s.writes[w].kind], name)
    ensures NoSchemaChanges(steps) && !MarksAreCurrent(Run(s, steps))
  {
    var write := s.writes[w];
    if LastContact(s.schemas[write.kind], name).Some? {
      assert LastContact(s.schemas[write.kind], name).value == Mobile;
      steps := MobileMisleads(s, w, name);
    } else if RivalMark(s, write, name) {
      steps := RivalMarkMisleads(s, w, name);
    } else {
      var call :| call in s.calls && RivalCall(write, name, call);
      var i: nat :| i < |s.calls| && s.calls[i] == call;
      steps := RivalCallMisleads(s, w, name, i);
    }
  }

  /**
   A schema change is harmless exactly if, after it, every verification stays about the value its user holds now
   whatever then happens, other schema changes apart.
   */
  lemma HarmlessExactly(s: State, schema: string, attributes: seq<Attribute>)
    requires MarksAreSafe(s) && schema != "" && UniqueNames(attributes)
    ensures var step := SetSchema(schema, attributes);
            Harmless(s, step) <==>
            forall steps | NoSchemaChanges(steps) :: MarksAreCurrent(Run(Happen(s, step), steps))
  {
    var step := SetSchema(schema, attributes);
    SchemaKeepsMarksExactly(s, schema, attributes);
    if Harmless(s, step) {
      StepKeepsMarks(s, step);
      forall steps | NoSchemaChanges(steps) ensures MarksAreCurrent(Run(Happen(s, step), steps)) {
        OtherStepsAreHarmless(Happen(s, step), steps);
        RunKeepsMarks(Happen(s, step), steps);
      }
    } else {
      var steps := HarmIsDone(s, schema, attributes);
    }
  }

  lemma HarmIsDone(s: State, schema: string, attributes: seq<Attribute>) returns (steps: seq<Step>)
    requires MarksAreSafe(s) && schema != "" && UniqueNames(attributes)
    requires !Harmless(s, SetSchema(schema, attributes))
    ensures NoSchemaChanges(steps) && !MarksAreCurrent(Run(Happen(s, SetSchema(schema, attributes)), steps))
  {
    var after := Happen(s, SetSchema(schema, attributes));
    SchemaKeepsMarksExactly(s, schema, attributes);
    if !MarksCompareTheSame(s, schema, attributes) {
      steps := [];
    } else if call :| call in s.calls && call.stage.WriteMark? && call.stage.kind == schema && !IsFresh(after, call) {
      var i: nat :| i < |s.calls| && s.calls[i] == call;
      steps := StaleCallMisleads(after, i);
    } else {
      var w :| w in s.writes && s.writes[w].kind == schema && !WriteIsFresh(s, s.writes[w], attributes);
      var name :| Misleads(s, s.writes[w], attributes, name);
      assert Misleads(after, s.writes[w], attributes, name);
      steps := MisledWriteMisleads(after, w, name);
    }
  }
}

/**
 Verifying a contact as an optimistic compare-and-set. A record call reads the user, then the schema, then the schema
 again inside the entity service, and writes under the entity's lock; between any two of these others may write. A
 write of a user's attributes reads the schema before it takes the lock, too.
 */
module AttributeVerification {
  import opened Wrappers
  import opened GoText
  import opened ContactValues

  /** An attribute of a user type; most are no contacts. */
  datatype Attribute = Attribute(name: string, kind: Option<ContactKind>)

  /** A stored attribute value, as far as verification tells values apart. */
  datatype Json = Text(text: string) | NotText

  /**
   `verified` holds the recorded verifications. Only their time is stored; the value each one was recorded for is
   kept here to speak about.
   */
  datatype User = User(
    isUser: bool, readOnly: bool, kind: string, values: map<string, Json>, verified: map<string, string>)

  datatype Pin = Pin(subject: string, attribute: string, value: string, channel: ContactKind)

  datatype Outcome = Verified | Refused | ServerError

  /** How far a record call has come, with what it has read so far. */
  datatype Stage =
    | ReadUser
    | ReadSchema(kind: string, text: string)
    | ReadContacts(kind: string)
    | WriteMark(kind: string, contacts: seq<Attribute>)
    | Done(outcome: Outcome)

  datatype Call = Call(pin: Pin, stage: Stage)

  /** The outcome events; `call` tells which record call published it. */
  datatype Event = Event(call: nat, pin: Pin, verified: bool)

  /** An update of a user that has read the schema and not yet taken the lock; only some may change the type. */
  datatype Write = Write(
    id: string, kind: string, values: map<string, Json>, contacts: seq<Attribute>, changesType: bool)

  datatype State = State(
    users: map<string, User>, schemas: map<string, seq<Attribute>>, writes: map<nat, Write>, calls: seq<Call>,
    log: seq<Event>)

  /** The contact a name stands for: a pin takes the first that fits, the entity service keeps the last. */
  function FirstContact(attributes: seq<Attribute>, name: string): Option<ContactKind> {
    if attributes == [] then None
    else if attributes[0].name == name && attributes[0].kind.Some? then attributes[0].kind
    else FirstContact(attributes[1..], name)
  }

  function LastContact(attributes: seq<Attribute>, name: string): Option<ContactKind>
    decreases |attributes|
  {
    if attributes == [] then None else
    var last := attributes[|attributes| - 1];
    if last.name == name && last.kind.Some? then last.kind else LastContact(attributes[..|attributes| - 1], name)
  }

  function StoredText(user: User, name: string): Option<string> {
    if name in user.values && user.values[name].Text? then Some(user.values[name].text) else None
  }

  /** The value invalidation compares, empty when there is none. */
  function ComparedValue(user: User, kind: Option<ContactKind>, name: string): string {
    match StoredText(user, name)
    case None => ""
    case Some(text) => Canonical(kind, text)
  }

  /** The pin of a contact value, none when the attribute is no contact of the type or its value is blank. */
  function PinOf(attributes: seq<Attribute>, subject: string, name: string, text: string): Option<Pin> {
    match FirstContact(attributes, name)
    case None => None
    case Some(kind) =>
      var value := Canonical(Some(kind), text);
      if TrimSpace(value) == "" then None else Some(Pin(subject, name, value, kind))
  }

  // One step of a record call

  function AfterReadUser(s: State, pin: Pin): Stage {
    if pin.subject !in s.users then Done(Refused) else
    var user := s.users[pin.subject];
    if !user.isUser || user.readOnly then Done(Refused)
    else match StoredText(user, pin.attribute)
      case None => Done(Refused)
      case Some(text) => ReadSchema(user.kind, text)
  }

  function AfterReadSchema(s: State, pin: Pin, kind: string, text: string): Stage {
    if kind == "" || kind !in s.schemas then Done(Refused)
    else if PinOf(s.schemas[kind], pin.subject, pin.attribute, text) != Some(pin) then Done(Refused)
    else ReadContacts(kind)
  }

  function AfterReadContacts(s: State, pin: Pin, kind: string): Stage {
    if pin.value == "" then Done(Refused)
    else if kind !in s.schemas then Done(ServerError)
    else WriteMark(kind, s.schemas[kind])
  }

  /** The comparison under the entity's lock. */
  predicate Applies(s: State, pin: Pin, kind: string, contacts: seq<Attribute>) {
    && pin.subject in s.users
    && s.users[pin.subject].isUser
    && s.users[pin.subject].kind == kind
    && LastContact(contacts, pin.attribute).Some?
    && ComparedValue(s.users[pin.subject], LastContact(contacts, pin.attribute), pin.attribute) == pin.value
  }

  function Next(s: State, call: Call, fault: bool): Stage {
    if call.stage.Done? then call.stage
    else if fault then Done(ServerError)
    else match call.stage
      case ReadUser => AfterReadUser(s, call.pin)
      case ReadSchema(kind, text) => AfterReadSchema(s, call.pin, kind, text)
      case ReadContacts(kind) => AfterReadContacts(s, call.pin, kind)
      case WriteMark(kind, contacts) => Done(if Applies(s, call.pin, kind, contacts) then Verified else Refused)
  }

  /** The user with one more recorded verification. */
  function Marked(users: map<string, User>, pin: Pin): map<string, User>
    requires pin.subject in users
  {
    var user := users[pin.subject];
    users[pin.subject := user.(verified := user.verified[pin.attribute := pin.value])]
  }

  /** One step of call `i`: the write and its event belong to the step that ends the call. */
  function Advance(s: State, i: nat, fault: bool): State
    requires i < |s.calls|
  {
    var call := s.calls[i];
    if call.stage.Done? then s else
    var stage := Next(s, call, fault);
    var writes := stage == Done(Verified) && call.pin.subject in s.users;
    State(if writes then Marked(s.users, call.pin) else s.users,
          s.schemas,
          s.writes,
          s.calls[i := Call(call.pin, stage)],
          s.log + OutcomeEvents(i, call.pin, stage))
  }

  function OutcomeEvents(i: nat, pin: Pin, stage: Stage): seq<Event> {
    if stage == Done(Verified) then [Event(i, pin, true)]
    else if stage == Done(Refused) then [Event(i, pin, false)]
    else []
  }

  // Everybody else

  /** Updates of users by the entity service, in two steps; changes of schemas; and new record calls. */
  datatype Step =
    | AddUser(id: string, user: User)
    | BeginWrite(write: nat, id: string, kind: string, values: map<string, Json>, changesType: bool)
    | EndWrite(write: nat, writeFault: bool)
    | RemoveUser(id: string)
    | SetSchema(schema: string, attributes: seq<Attribute>)
    | Begin(pin: Pin)
    | Work(call: nat, fault: bool)

  /** A verification survives a write exactly when the value it compares is the same before and after. */
  function Kept(user: User, attributes: seq<Attribute>, values: map<string, Json>): map<string, string> {
    var after := user.(values := values);
    map name | name in user.verified
      && ComparedValue(user, LastContact(attributes, name), name)
          == ComparedValue(after, LastContact(attributes, name), name)
      :: user.verified[name]
  }

  /** The users after an update took the lock: invalidation compares by the schema that was read before. */
  function Written(users: map<string, User>, w: Write): map<string, User> {
    if w.id !in users then users else
    var user := users[w.id];
    if user.kind == w.kind then
      users[w.id := user.(values := w.values, verified := Kept(user, w.contacts, w.values))]
    else if w.changesType then users[w.id := user.(kind := w.kind, values := w.values, verified := map[])]
    else users
  }

  function Happen(s: State, step: Step): State {
    match step
    case AddUser(id, user) =>
      if id in s.users then s else s.(users := s.users[id := user.(verified := map[])])
    case BeginWrite(w, id, kind, values, changesType) =>
      if w in s.writes || kind !in s.schemas then s
      else s.(writes := s.writes[w := Write(id, kind, values, s.schemas[kind], changesType)])
    case EndWrite(w, writeFault) =>
      if w !in s.writes then s else
      var written := if writeFault then s.users else Written(s.users, s.writes[w]);
      s.(users := written, writes := s.writes - {w})
    case RemoveUser(id) => s.(users := s.users - {id})
    case SetSchema(schema, attributes) => s.(schemas := s.schemas[schema := attributes])
    case Begin(pin) => s.(calls := s.calls + [Call(pin, ReadUser)])
    case Work(i, fault) => if i < |s.calls| then Advance(s, i, fault) else s
  }

  function Run(s: State, steps: seq<Step>): State
    decreases |steps|
  {
    if steps == [] then s else Run(Happen(s, steps[0]), steps[1..])
  }

  // Only the pinned and current value is recorded

  predicate HasMark(s: State, id: string, name: string) {
    id in s.users && name in s.users[id].verified
  }

  /** In any state and whatever came before, a step records a verification only by this comparison. */
  lemma RecordedIsPinnedAndCurrent(s: State, step: Step, id: string, name: string)
    requires HasMark(Happen(s, step), id, name)
    requires HasMark(s, id, name) ==> s.users[id].verified[name] != Happen(s, step).users[id].verified[name]
    ensures step.Work? && step.call < |s.calls| && s.calls[step.call].stage.WriteMark?
    ensures var call, after := s.calls[step.call], Happen(s, step);
            var kind := LastContact(call.stage.contacts, name);
            && call.pin.subject == id && call.pin.attribute == name
            && kind.Some? && s.users[id].isUser && s.users[id].kind == call.stage.kind
            && after.users[id].verified[name] == call.pin.value == ComparedValue(s.users[id], kind, name)
            && after.log == s.log + [Event(step.call, call.pin, true)]
  {
  }

  /** Conversely, a call that publishes a verified event has recorded its pin in the same step. */
  lemma VerifiedIsRecorded(s: State, i: nat, fault: bool)
    requires i < |s.calls| && !s.calls[i].stage.Done?
    ensures var pin, after := s.calls[i].pin, Advance(s, i, fault);
            after.log == s.log + [Event(i, pin, true)] <==>
            after.calls[i].stage == Done(Verified) && HasMark(after, pin.subject, pin.attribute)
            && after.users[pin.subject].verified[pin.attribute] == pin.value
  {
    var pin := s.calls[i].pin;
    assert (s.log + [Event(i, pin, true)])[|s.log|] == Event(i, pin, true);
  }

  /** A step publishes what the call ends with, and nothing when it goes on or ends in a server error. */
  lemma OutcomeIsPublished(s: State, i: nat, fault: bool)
    requires i < |s.calls| && !s.calls[i].stage.Done?
    ensures var pin, after := s.calls[i].pin, Advance(s, i, fault);
            after.log == match after.calls[i].stage
                         case Done(Verified) => s.log + [Event(i, pin, true)]
                         case Done(Refused) => s.log + [Event(i, pin, false)]
                         case _ => s.log
  {
    assert s.log + [] == s.log;
  }

  /** A call ends in a server error exactly when its store call fails, or the type it has read is gone. */
  lemma ServerErrorsExactly(s: State, call: Call, fault: bool)
    requires !call.stage.Done?
    ensures Next(s, call, fault) == Done(ServerError) <==>
            fault || (call.stage.ReadContacts? && call.pin.value != "" && call.stage.kind !in s.schemas)
  {
  }

  /** A step of a call changes nothing but the one verification it records. */
  lemma CallTouchesItsMarkOnly(s: State, i: nat, fault: bool, id: string)
    requires i < |s.calls| && id in s.users
    ensures var after := Advance(s, i, fault);
            && id in after.users && after.users.Keys == s.users.Keys && after.schemas == s.schemas
            && after.writes == s.writes
            && after.users[id] == s.users[id].(verified := after.users[id].verified)
            && (forall name :: (s.calls[i].pin.subject, s.calls[i].pin.attribute) != (id, name) ==>
                  (name in after.users[id].verified <==> name in s.users[id].verified)
                  && (name in s.users[id].verified ==> after.users[id].verified[name] == s.users[id].verified[name]))
  {
  }

  /** What every record call has published: one event once it has ended without a server error, none before. */
  predicate Reported(s: State, i: nat)
    requires i < |s.calls|
  {
    EventsOf(s.log, i) == OutcomeEvents(i, s.calls[i].pin, s.calls[i].stage)
  }

  function EventsOf(log: seq<Event>, i: nat): seq<Event>
    decreases |log|
  {
    if log == [] then []
    else EventsOf(log[..|log| - 1], i) + (if log[|log| - 1].call == i then [log[|log| - 1]] else [])
  }

  lemma EventsAppend(log: seq<Event>, e: Event, i: nat)
    ensures EventsOf(log + [e], i) == EventsOf(log, i) + (if e.call == i then [e] else [])
  {
    assert (log + [e])[..|log|] == log;
  }

  predicate NoEventsYet(s: State) {
    forall e <- s.log :: e.call < |s.calls|
  }

  lemma {:induction false} UnknownCallHasNoEvents(log: seq<Event>, i: nat)
    requires forall e <- log :: e.call < i
    ensures EventsOf(log, i) == []
    decreases |log|
  {
    if log != [] {
      UnknownCallHasNoEvents(log[..|log| - 1], i);
      assert log[|log| - 1] in log;
    }
  }

  predicate AllReported(s: State) {
    NoEventsYet(s) && forall i :: 0 <= i < |s.calls| ==> Reported(s, i)
  }

  lemma AdvanceReports(s: State, i: nat, fault: bool)
    requires AllReported(s) && i < |s.calls|
    ensures AllReported(Advance(s, i, fault))
  {
    var call := s.calls[i];
    if !call.stage.Done? {
      var after := Advance(s, i, fault);
      var events := OutcomeEvents(i, call.pin, Next(s, call, fault));
      forall j | 0 <= j < |after.calls| ensures Reported(after, j) {
        assert Reported(s, j);
        if events != [] {
          EventsAppend(s.log, events[0], j);
          assert events == [events[0]];
        } else {
          assert s.log + events == s.log;
        }
      }
    }
  }

  lemma StepReports(s: State, step: Step)
    requires AllReported(s)
    ensures AllReported(Happen(s, step))
  {
    match step
    case Work(i, fault) => if i < |s.calls| { AdvanceReports(s, i, fault); }
    case Begin(pin) =>
      var after := Happen(s, step);
      UnknownCallHasNoEvents(s.log, |s.calls|);
      forall j | 0 <= j < |after.calls| ensures Reported(after, j) {
        if j < |s.calls| { assert Reported(s, j); }
      }
    case _ =>
      var after := Happen(s, step);
      assert after.calls == s.calls && after.log == s.log;
      forall j | 0 <= j < |after.calls| ensures Reported(after, j) { assert Reported(s, j); }
  }

  /** In every interleaving each call publishes exactly one event, or none when it ends in a server error. */
  lemma {:induction false} RunReports(s: State, steps: seq<Step>)
    requires AllReported(s)
    ensures AllReported(Run(s, steps))
    decreases |steps|
  {
    if steps != [] {
      StepReports(s, steps[0]);
      RunReports(Happen(s, steps[0]), steps[1..]);
    }
  }

  // A call nobody interrupts

  /** A whole record call with the faults its four store calls meet. */
  function Record(s: State, pin: Pin, faults: seq<bool>): State
    requires |faults| == 4
  {
    var i := |s.calls|;
    Run(s, [Begin(pin), Work(i, faults[0]), Work(i, faults[1]), Work(i, faults[2]), Work(i, faults[3])])
  }

  predicate UniqueNames(attributes: seq<Attribute>) {
    forall i, j :: 0 <= i < j < |attributes| ==> attributes[i].name != attributes[j].name
  }

  lemma {:induction false} FirstContactIsIt(attributes: seq<Attribute>, name: string, i: nat)
    requires UniqueNames(attributes) && i < |attributes| && attributes[i].name == name
    ensures FirstContact(attributes, name) == attributes[i].kind
  {
    if i > 0 {
      FirstContactIsIt(attributes[1..], name, i - 1);
    } else if attributes[0].kind.None? {
      NoFirstContact(attributes[1..], name);
    }
  }

  lemma {:induction false} NoFirstContact(attributes: seq<Attribute>, name: string)
    requires forall i :: 0 <= i < |attributes| ==> attributes[i].name != name
    ensures FirstContact(attributes, name) == None
  {
    if attributes != [] { NoFirstContact(attributes[1..], name); }
  }

  lemma {:induction false} LastContactIsIt(attributes: seq<Attribute>, name: string, i: nat)
    requires UniqueNames(attributes) && i < |attributes| && attributes[i].name == name
    ensures LastContact(attributes, name) == attributes[i].kind
    decreases |attributes|
  {
    if i < |attributes| - 1 {
      LastContactIsIt(attributes[..|attributes| - 1], name, i);
    } else if attributes[i].kind.None? {
      NoLastContact(attributes[..i], name);
    }
  }

  lemma {:induction false} NoLastContact(attributes: seq<Attribute>, name: string)
    requires forall i :: 0 <= i < |attributes| ==> attributes[i].name != name
    ensures LastContact(attributes, name) == None
    decreases |attributes|
  {
    if attributes != [] { NoLastContact(attributes[..|attributes| - 1], name); }
  }

  /** The pin and the entity service agree on what kind of contact a name stands for. */
  lemma ContactsAgree(attributes: seq<Attribute>, name: string)
    requires UniqueNames(attributes)
    ensures FirstContact(attributes, name) == LastContact(attributes, name)
  {
    if i: nat :| i < |attributes| && attributes[i].name == name {
      FirstContactIsIt(attributes, name, i);
      LastContactIsIt(attributes, name, i);
    } else {
      NoFirstContact(attributes, name);
      NoLastContact(attributes, name);
    }
  }

  /** The pin prepared for a stored contact, none when it cannot be verified. */
  function Prepared(s: State, subject: string, name: string): Option<Pin> {
    if subject !in s.users || !s.users[subject].isUser || s.users[subject].readOnly then None else
    var user := s.users[subject];
    match StoredText(user, name)
    case None => None
    case Some(text) =>
      if user.kind == "" || user.kind !in s.schemas then None else PinOf(s.schemas[user.kind], subject, name, text)
  }

  /**
   Uninterrupted and without faults, a record call verifies exactly the pin that preparing would give now. So a pin
   is recorded if nothing it was prepared from has changed, and refused if its value, its channel or its eligibility
   has.
   */
  lemma RecordVerifiesExactlyThePrepared(s: State, pin: Pin)
    requires forall kind <- s.schemas :: UniqueNames(s.schemas[kind])
    ensures var after := Record(s, pin, [false, false, false, false]);
            && |after.calls| == |s.calls| + 1
            && after.calls[|s.calls|].stage ==
               Done(if Prepared(s, pin.subject, pin.attribute) == Some(pin) then Verified else Refused)
  {
    RecordIsOneStep(s, pin, [false, false, false, false]);
    if Prepared(s, pin.subject, pin.attribute) == Some(pin) {
      ContactsAgree(s.schemas[s.users[pin.subject].kind], pin.attribute);
      assert pin.value != "";
    }
  }

  lemma ContactNamed(attributes: seq<Attribute>, name: string, kind: ContactKind)
    requires UniqueNames(attributes)
    ensures FirstContact(attributes, name) == Some(kind) <==> exists a <- attributes :: a == Attribute(name, Some(kind))
  {
    if a :| a in attributes && a.name == name {
      var i: nat :| i < |attributes| && attributes[i] == a;
      FirstContactIsIt(attributes, name, i);
      assert forall b <- attributes :: b.name == name ==> b == a;
    } else {
      NoFirstContact(attributes, name);
    }
  }

  /**
   Exactly which pins an uninterrupted record call without faults verifies: those of a user of its own, whose type has
   a contact of that name and channel, and who holds a text that is not blank and compares as the pin.
   */
  lemma VerifiedExactly(s: State, pin: Pin)
    requires forall kind <- s.schemas :: UniqueNames(s.schemas[kind])
    ensures RecordResult(s, pin, [false, false, false, false]) ==
            (if && pin.subject in s.users && s.users[pin.subject].isUser && !s.users[pin.subject].readOnly
                && s.users[pin.subject].kind != "" && s.users[pin.subject].kind in s.schemas
                && Attribute(pin.attribute, Some(pin.channel)) in s.schemas[s.users[pin.subject].kind]
                && pin.attribute in s.users[pin.subject].values && s.users[pin.subject].values[pin.attribute].Text?
                && Canonical(Some(pin.channel), s.users[pin.subject].values[pin.attribute].text) == pin.value
                && TrimSpace(pin.value) != ""
             then Verified else Refused)
  {
    RecordIsOneStep(s, pin, [false, false, false, false]);
    RecordVerifiesExactlyThePrepared(s, pin);
    if pin.subject in s.users && s.users[pin.subject].kind in s.schemas {
      ContactNamed(s.schemas[s.users[pin.subject].kind], pin.attribute, pin.channel);
    }
  }

  /** A user who holds an address with another local part is not verified. */
  lemma OtherMailboxIsRefused(
      s: State, pin: Pin, local: string, domain: string, held: string, other: string, at: string)
    requires forall kind <- s.schemas :: UniqueNames(s.schemas[kind])
    requires pin.channel == Email && IsAddress(pin.value, local, domain)
    requires pin.subject in s.users && pin.attribute in s.users[pin.subject].values
    requires s.users[pin.subject].values[pin.attribute] == Text(held)
    requires IsAddress(TrimSpace(held), other, at) && other != local
    ensures RecordResult(s, pin, [false, false, false, false]) == Refused
  {
    VerifiedExactly(s, pin);
    AddressIsLowered(TrimSpace(held), other, at);
    AddressIsLowered(pin.value, local, domain);
    LowerKeepsDomain(TrimSpace(held));
    assert (other + ToLower(at))[..|other|] == other && (local + domain)[..|local|] == local;
  }

  lemma FourSteps(s: State, pin: Pin, faults: seq<bool>)
    requires |faults| == 4
    ensures var i := |s.calls|;
            var s2 := Happen(Happen(Happen(s, Begin(pin)), Work(i, faults[0])), Work(i, faults[1]));
            Record(s, pin, faults) == Happen(Happen(s2, Work(i, faults[2])), Work(i, faults[3]))
  {
    var i := |s.calls|;
    var steps := [Begin(pin), Work(i, faults[0]), Work(i, faults[1]), Work(i, faults[2]), Work(i, faults[3])];
    var s0 := Happen(s, steps[0]);
    var s1 := Happen(s0, steps[1]);
    var s2 := Happen(s1, steps[2]);
    var s3 := Happen(s2, steps[3]);
    assert steps[1..][1..] == steps[2..] && steps[2..][1..] == steps[3..] && steps[3..][1..] == steps[4..];
    assert steps[4..][1..] == [];
    assert Run(s3, steps[4..]) == Happen(s3, steps[4]);
    assert Run(s2, steps[3..]) == Run(s3, steps[4..]);
    assert Run(s1, steps[2..]) == Run(s2, steps[3..]);
    assert Run(s0, steps[1..]) == Run(s1, steps[2..]);
  }

  /** What the two reads of an uninterrupted call lead to. */
  function ReadResult(s: State, pin: Pin, userFault: bool, schemaFault: bool): Stage {
    var read := if userFault then Done(ServerError) else AfterReadUser(s, pin);
    if !read.ReadSchema? then read
    else if schemaFault then Done(ServerError)
    else AfterReadSchema(s, pin, read.kind, read.text)
  }

  /** What the entity service then answers. */
  function WriteResult(s: State, pin: Pin, kind: string, contactsFault: bool, writeFault: bool): Outcome {
    var read := if contactsFault then Done(ServerError) else AfterReadContacts(s, pin, kind);
    if read.Done? then read.outcome
    else if writeFault then ServerError
    else if Applies(s, pin, kind, read.contacts) then Verified
    else Refused
  }

  function RecordResult(s: State, pin: Pin, faults: seq<bool>): Outcome
    requires |faults| == 4
  {
    var read := ReadResult(s, pin, faults[0], faults[1]);
    if read.Done? then read.outcome else WriteResult(s, pin, read.kind, faults[2], faults[3])
  }

  /** The state a record call leaves: its outcome, the event of it and, when verified, the mark. */
  function Ended(s: State, pin: Pin, outcome: Outcome): State {
    State(if outcome == Verified && pin.subject in s.users then Marked(s.users, pin) else s.users,
          s.schemas,
          s.writes,
          s.calls + [Call(pin, Done(outcome))],
          s.log + OutcomeEvents(|s.calls|, pin, Done(outcome)))
  }

  /** A call that is under way and has written and published nothing, or has just ended. */
  function Underway(s: State, pin: Pin, stage: Stage): State {
    if stage.Done? then Ended(s, pin, stage.outcome) else s.(calls := s.calls + [Call(pin, stage)])
  }

  lemma WorkUnderway(s: State, pin: Pin, stage: Stage, fault: bool)
    ensures var i := |s.calls|;
            Happen(Underway(s, pin, stage), Work(i, fault)) ==
            Underway(s, pin, if stage.Done? then stage else Next(s, Call(pin, stage), fault))
  {
    var i, t := |s.calls|, Underway(s, pin, stage);
    if !stage.Done? {
      var next := Next(s, Call(pin, stage), fault);
      assert t.calls[i] == Call(pin, stage) && Next(t, Call(pin, stage), fault) == next;
      assert t.calls[i := Call(pin, next)] == s.calls + [Call(pin, next)];
      assert s.log + [] == s.log;
    }
  }

  /** Uninterrupted, the four steps of a call are one. */
  lemma RecordIsOneStep(s: State, pin: Pin, faults: seq<bool>)
    requires |faults| == 4
    ensures Record(s, pin, faults) == Ended(s, pin, RecordResult(s, pin, faults))
  {
    FourSteps(s, pin, faults);
    var stage0 := ReadUser;
    WorkUnderway(s, pin, stage0, faults[0]);
    var stage1 := Next(s, Call(pin, stage0), faults[0]);
    WorkUnderway(s, pin, stage1, faults[1]);
    var stage2 := if stage1.Done? then stage1 else Next(s, Call(pin, stage1), faults[1]);
    assert stage2 == ReadResult(s, pin, faults[0], faults[1]);
    WorkUnderway(s, pin, stage2, faults[2]);
    var stage3 := if stage2.Done? then stage2 else Next(s, Call(pin, stage2), faults[2]);
    WorkUnderway(s, pin, stage3, faults[3]);
    LastTwoSteps(s, pin, stage2, faults[2], faults[3]);
  }

  lemma LastTwoSteps(s: State, pin: Pin, stage: Stage, contactsFault: bool, writeFault: bool)
    requires stage.Done? || stage.ReadContacts?
    ensures var third := if stage.Done? then stage else Next(s, Call(pin, stage), contactsFault);
            var fourth := if third.Done? then third else Next(s, Call(pin, third), writeFault);
            fourth == Done(if stage.Done? then stage.outcome
                else WriteResult(s, pin, stage.kind, contactsFault, writeFault))
  {
  }

  /** A pin prepared before its user exists is recorded once the user holds the value it was prepared from. */
  lemma PendingPinIsPrepared(s: State, subject: string, name: string, text: string)
    requires subject in s.users && s.users[subject].isUser && !s.users[subject].readOnly
    requires s.users[subject].kind != "" && s.users[subject].kind in s.schemas
    requires PinOf(s.schemas[s.users[subject].kind], "", name, text).Some?
    requires StoredText(s.users[subject], name).Some?
    ensures var pin := PinOf(s.schemas[s.users[subject].kind], "", name, text).value;
            var kind := FirstContact(s.schemas[s.users[subject].kind], name);
            var stored := StoredText(s.users[subject], name).value;
            Prepared(s, subject, name) == Some(pin.(subject := subject)) <==>
              Canonical(kind, stored) == Canonical(kind, text)
  {
  }
}

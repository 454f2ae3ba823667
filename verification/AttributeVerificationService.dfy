/** The attribute verification service as it runs: one call after another, with the store calls that can fail. */
module AttributeVerificationServices {
  import opened Wrappers
  import opened GoText
  import opened ContactValues
  import opened AttributeVerification

  class AttributeVerificationService {
    var users: map<string, User>
    var schemas: map<string, seq<Attribute>>
    /** The record calls made so far, kept to speak about; `log` holds what they published. */
    var calls: seq<Call>
    var log: seq<Event>
    var requested: seq<Pin>

    function Current(): State
      reads this
    {
      State(users, schemas, map[], calls, log)
    }

    constructor (users: map<string, User>, schemas: map<string, seq<Attribute>>)
      ensures Current() == State(users, schemas, map[], [], []) && requested == []
    {
      this.users, this.schemas, calls, log, requested := users, schemas, [], [], [];
    }

    /** The first attribute of that name that is a contact decides. */
    static method PrepareContact(attributes: seq<Attribute>, subject: string, name: string, text: string)
      returns (pin: Option<Pin>)
      ensures pin == PinOf(attributes, subject, name, text)
    {
      var i := 0;
      while i < |attributes|
        invariant 0 <= i <= |attributes|
        invariant FirstContact(attributes, name) == FirstContact(attributes[i..], name)
      {
        var contact := attributes[i];
        if contact.name == name && contact.kind.Some? {
          var value := Canonical(contact.kind, text);
          if TrimSpace(value) == "" { return None; }
          return Some(Pin(subject, name, value, contact.kind.value));
        }
        assert attributes[i..][1..] == attributes[i + 1..];
        i := i + 1;
      }
      pin := None;
    }

    /** Pins the stored contact of a user and publishes the request; nothing is written. */
    method PrepareAttributeVerification(subject: string, name: string) returns (pin: Option<Pin>)
      modifies this`requested
      ensures pin == Prepared(Current(), subject, name)
      ensures requested == old(requested) + (if pin.Some? then [pin.value] else [])
    {
      if subject !in users || !users[subject].isUser || users[subject].readOnly { return None; }
      var user := users[subject];
      if name !in user.values || !user.values[name].Text? { return None; }
      if user.kind == "" || user.kind !in schemas { return None; }
      pin := PrepareContact(schemas[user.kind], subject, name, user.values[name].text);
      if pin.Some? { requested := requested + [pin.value]; }
    }

    /** Publishes the outcome of a record call, unless the server failed. */
    method Finish(pin: Pin, outcome: Outcome)
      modifies this`calls, this`log
      ensures calls == old(calls) + [Call(pin, Done(outcome))]
      ensures log == old(log) + OutcomeEvents(|old(calls)|, pin, Done(outcome))
    {
      if outcome != ServerError { log := log + [Event(|calls|, pin, outcome == Verified)]; }
      calls := calls + [Call(pin, Done(outcome))];
    }

    /** Reads the contact again and compares pins: refused, a server error, or the type to write for. */
    method ReadStoredContact(pin: Pin, userFault: bool, schemaFault: bool) returns (stage: Stage)
      ensures stage == ReadResult(Current(), pin, userFault, schemaFault)
    {
      if userFault { return Done(ServerError); }
      if pin.subject !in users { return Done(Refused); }
      var user := users[pin.subject];
      if !user.isUser || user.readOnly { return Done(Refused); }
      if pin.attribute !in user.values || !user.values[pin.attribute].Text? { return Done(Refused); }
      if schemaFault { return Done(ServerError); }
      if user.kind == "" || user.kind !in schemas { return Done(Refused); }
      var current := PrepareContact(schemas[user.kind], pin.subject, pin.attribute, user.values[pin.attribute].text);
      stage := if current == Some(pin) then ReadContacts(user.kind) else Done(Refused);
    }

    /** The entity service's write: the stored value is compared again before the verification is recorded. */
    method WriteVerification(pin: Pin, kind: string, contactsFault: bool, writeFault: bool) returns (outcome: Outcome)
      modifies this`users
      ensures outcome == WriteResult(old(Current()), pin, kind, contactsFault, writeFault)
      ensures users == if outcome == Verified && pin.subject in old(users) then Marked(old(users), pin) else old(users)
    {
      if contactsFault { return ServerError; }
      if pin.value == "" { return Refused; }
      if kind !in schemas { return ServerError; }
      if writeFault { return ServerError; }
      if pin.subject !in users { return Refused; }
      var user := users[pin.subject];
      if !user.isUser || user.kind != kind { return Refused; }
      var contact := LastContact(schemas[kind], pin.attribute);
      if contact.None? || ComparedValue(user, contact, pin.attribute) != pin.value { return Refused; }
      users := users[pin.subject := user.(verified := user.verified[pin.attribute := pin.value])];
      outcome := Verified;
    }

    method RecordAttributeVerification(pin: Pin, faults: seq<bool>) returns (outcome: Outcome)
      requires |faults| == 4
      modifies this`users, this`calls, this`log
      ensures Current() == Record(old(Current()), pin, faults)
      ensures calls == old(calls) + [Call(pin, Done(outcome))]
    {
      RecordIsOneStep(Current(), pin, faults);
      var stage := ReadStoredContact(pin, faults[0], faults[1]);
      if stage.Done? {
        outcome := stage.outcome;
      } else {
        outcome := WriteVerification(pin, stage.kind, faults[2], faults[3]);
      }
      Finish(pin, outcome);
    }
  }
}

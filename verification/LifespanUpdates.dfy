/**
 What an agent's stored lifespan means, and what an update request asks of it. Each change of a lifespan is an
 administration event carrying the end before it and the end after it, both in stored form.
 */
module LifespanUpdates {
  import opened Wrappers
  import opened Timestamps
  import opened Lifespans

  /** The value of the agent's validUntil system attribute. */
  datatype Stored = Absent | NotText | Text(value: string)

  /** The end a stored value names: none when it cannot be read, so a corrupt value never lifts the bound. */
  function StoredEnd(stored: Stored): (end: Option<LifespanEnd>)
    ensures end.Some? ==> end.value.Constructible()
  {
    match stored
    case Absent => Some(UNBOUNDED)
    case NotText => None
    case Text(value) =>
      if value == UNBOUNDED_TEXT then Some(UNBOUNDED)
      else match Read(value)
        case None => None
        case Some(instant) => Some(Bounded(instant))
  }

  /** The validUntil of an update request; `Other` is any JSON value that is neither null nor a string. */
  datatype Requested = NoField | Null | Value(text: string) | Other

  /** `accepted` is false when the requested value is no lifespan end; `next` is then the zero value. */
  datatype LifespanUpdate = LifespanUpdate(
    previous: Option<LifespanEnd>, next: LifespanEnd, changing: bool, accepted: bool)

  function RequestedEnd(requested: Requested): Option<LifespanEnd> {
    match requested
    case NoField => Some(UNBOUNDED)
    case Null => Some(UNBOUNDED)
    case Value(text) => ParseEnd(text)
    case Other => None
  }

  function NewUpdate(stored: Stored, requested: Requested): LifespanUpdate {
    var previous := StoredEnd(stored);
    var end := RequestedEnd(requested);
    var next := if end.Some? then end.value else UNBOUNDED;
    LifespanUpdate(
      previous, next,
      !requested.NoField? && (end.None? || previous.None? || !next.Equal(previous.value)),
      end.Some?)
  }

  /** A bounded end must lie in the future, unless the update restores an exported agent. */
  predicate Refused(u: LifespanUpdate, restore: bool, now: int) {
    !u.accepted || (!restore && u.next.bounded && !(u.next.at > now))
  }

  /** What an update changes is in a form that reads back. */
  lemma NextIsStorable(stored: Stored, requested: Requested)
    ensures Storable(NewUpdate(stored, requested).next)
  {
    if requested.Value? { ParsedIsStorable(requested.text); }
  }

  /** Exactly the storable ends are read back from where they were stored. */
  lemma StoredReadsBack(e: LifespanEnd)
    requires Storable(e)
    ensures StoredEnd(Text(e.Text())) == Some(e)
  {
    TextRoundTripsExactly(e);
    if e.bounded {
      ReservedIsUnbounded(UNBOUNDED_TEXT);
      assert e.Text() != UNBOUNDED_TEXT;
      StoredInstant(e.Text(), e);
    }
  }

  lemma StoredInstant(text: string, e: LifespanEnd)
    requires e.bounded
    ensures ParseEnd(text) == Some(e) ==> Read(text).Some? && Bounded(Read(text).value) == e
  {
  }

  datatype Failure = ReadOnly | NotAuthorized | InvalidLifespan | OperationFailed

  datatype Kind = SET | EXTENDED | REDUCED | REACTIVATED | UPDATE_FAILED(failure: Failure)

  datatype Event = Event(agent: string, kind: Kind, previous: string, next: string)

  function StoredForm(end: Option<LifespanEnd>): string {
    if end.Some? then end.value.Text() else ""
  }

  /** The events of a committed change. A change from an unreadable value is published as the lifespan being set. */
  function ChangeEvents(agent: string, previous: Option<LifespanEnd>, next: LifespanEnd, now: int): seq<Event> {
    var was, will := StoredForm(previous), next.Text();
    if previous.None? then [Event(agent, SET, was, will)]
    else if next.EndsAfter(previous.value) then
      [Event(agent, EXTENDED, was, will)]
      + (if previous.value.Expired(now) && !next.Expired(now) then [Event(agent, REACTIVATED, was, will)] else [])
    else [Event(agent, REDUCED, was, will)]
  }

  /** From a value that cannot be read the lifespan is set. */
  lemma UnreadableIsSet(agent: string, next: LifespanEnd, now: int)
    ensures ChangeEvents(agent, None, next, now) == [Event(agent, SET, "", next.Text())]
  {
  }

  /** What the kinds of the published events say of a change between readable ends. */
  predicate Reports(events: seq<Event>, kind: Kind) {
    exists i :: 0 <= i < |events| && events[i].kind == kind
  }

  /**
   A change between readable ends is exactly one of an extension, to a later end, and a reduction, to an earlier
   one; and it brings an expired agent back to life exactly when a reactivation is published as well.
   */
  lemma ChangeIsClassified(agent: string, previous: LifespanEnd, next: LifespanEnd, now: int)
    requires previous.Constructible() && next.Constructible() && !next.Equal(previous)
    ensures var events := ChangeEvents(agent, Some(previous), next, now);
            && (Reports(events, EXTENDED) <==> next.EndsAfter(previous))
            && (Reports(events, REDUCED) <==> previous.EndsAfter(next))
            && (Reports(events, EXTENDED) <==> !Reports(events, REDUCED))
            && (Reports(events, REACTIVATED) <==> previous.Expired(now) && !next.Expired(now))
  {
    var events := ChangeEvents(agent, Some(previous), next, now);
    OrderIsTotal(previous, next);
    assert events[0].kind == if next.EndsAfter(previous) then EXTENDED else REDUCED;
    if previous.Expired(now) && !next.Expired(now) {
      RevivalIsAnExtension(previous, next, now);
      assert events[1].kind == REACTIVATED;
    }
  }
}

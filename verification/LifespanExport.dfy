/**
 Exporting an agent's lifespan and bringing it back: as a restore of a new agent, onto an existing agent, through a
 declarative file, or only for display. They agree on exactly the ends whose stored form reads back.
 */
module LifespanExport {
  import opened Wrappers
  import opened Timestamps
  import opened Lifespans
  import opened LifespanUpdates
  import opened AgentLifespans

  datatype Phase = Unbounded | Active | Expired

  /** What a read reports; an empty date is left out. */
  datatype View = View(validUntil: string, phase: Option<Phase>)

  function LifespanView(end: Option<LifespanEnd>, now: int): View {
    if end.None? then View("", None)
    else if !end.value.bounded then View("", Some(Unbounded))
    else View(end.value.Text(), Some(if end.value.Expired(now) then Expired else Active))
  }

  /** An unbounded lifespan is exported as its reserved timestamp, since an absent one means no change on import. */
  function Export(end: Option<LifespanEnd>, now: int): string {
    var view := LifespanView(end, now);
    if view.phase == Some(Unbounded) then UNBOUNDED_TEXT else view.validUntil
  }

  /** An exported document shown as a read of it; the document carries the date only. */
  function ViewExported(validUntil: string, now: int): View {
    if validUntil != "" && ParseEnd(validUntil).Some? then LifespanView(ParseEnd(validUntil), now)
    else View(validUntil, None)
  }

  /** The stored value of a declarative agent; an absent date is stored as absent. */
  function Declared(validUntil: string): Option<Stored> {
    if validUntil == "" then Some(Absent)
    else match ParseEnd(validUntil)
      case None => None
      case Some(end) => Some(Text(end.Text()))
  }

  /** The validUntil an import puts into its requests; an absent date is not requested. */
  function ImportedDate(validUntil: string): Option<string> {
    if validUntil == "" then None else Some(validUntil)
  }

  function ImportedField(validUntil: string): Requested {
    if validUntil == "" then NoField else Value(validUntil)
  }

  /** The stored value of an agent newly created by an import, which restores and so accepts a date in the past. */
  function Restored(validUntil: string, now: int): Option<Stored> {
    match RegisteredEnd(ImportedDate(validUntil), true, now)
    case None => None
    case Some(end) => Some(Text(end.Text()))
  }

  /** What a read shows: the phase at that moment, and the date of a lifespan that ends. */
  lemma ViewShows(end: Option<LifespanEnd>, now: int)
    ensures var view := LifespanView(end, now);
            && (view.phase == None <==> end == None)
            && (view.phase == Some(Unbounded) <==> end.Some? && !end.value.bounded)
            && (view.phase == Some(Active) <==> end.Some? && end.value.bounded && now < end.value.at)
            && (view.phase == Some(Expired) <==> end.Some? && end.value.bounded && end.value.at <= now)
            && view.validUntil == if end.Some? && end.value.bounded then Write(end.value.at) else ""
  {
  }

  /** An export that names no end is shown as it is, without a phase. */
  lemma OtherTextIsShown(text: string, now: int)
    requires text == "" || ParseEnd(text).None?
    ensures ViewExported(text, now) == View(text, None)
  {
  }

  lemma ExportIsText(e: LifespanEnd, now: int)
    requires e.Constructible()
    ensures Export(Some(e), now) == e.Text()
  {
  }

  lemma TextIsNotEmpty(e: LifespanEnd)
    ensures e.Text() != ""
  {
  }

  /** An exported end parses back to itself exactly when it is storable. */
  lemma ExportParses(e: LifespanEnd, now: int)
    requires e.Constructible()
    ensures Export(Some(e), now) != ""
    ensures ParseEnd(Export(Some(e), now)) == Some(e) <==> Storable(e)
  {
    ExportIsText(e, now);
    TextIsNotEmpty(e);
    TextRoundTripsExactly(e);
  }

  /** Parsing never leads back to an end that is not itself stored readably. */
  lemma StoredAsParsed(text: string, e: LifespanEnd)
    requires e.Constructible()
    ensures ParseEnd(text).Some? && StoredEnd(Text(ParseEnd(text).value.Text())) == Some(e)
        <==> ParseEnd(text) == Some(e)
  {
    if ParseEnd(text).Some? {
      ParsedIsStorable(text);
      StoredReadsBack(ParseEnd(text).value);
    }
  }

  /** Restoring an export, an expired one included, gives an equal end exactly for the storable ends. */
  lemma RestoreRoundTrips(e: LifespanEnd, exported: int, now: int)
    requires e.Constructible()
    ensures var restored := Restored(Export(Some(e), exported), now);
            restored.Some? && StoredEnd(restored.value) == Some(e) <==> Storable(e)
  {
    ExportParses(e, exported);
    StoredAsParsed(Export(Some(e), exported), e);
  }

  /** A declarative file made from an export loads to an equal end exactly for the storable ends. */
  lemma DeclarativeRoundTrips(e: LifespanEnd, exported: int)
    requires e.Constructible()
    ensures var declared := Declared(Export(Some(e), exported));
            declared.Some? && StoredEnd(declared.value) == Some(e) <==> Storable(e)
  {
    ExportParses(e, exported);
    StoredAsParsed(Export(Some(e), exported), e);
  }

  lemma ReimportedUpdate(stored: Stored, text: string)
    requires StoredEnd(stored).Some?
    ensures NewUpdate(stored, Value(text)).changing <==> ParseEnd(text) != StoredEnd(stored)
  {
  }

  /** Importing an export onto the agent it came from is no change exactly when its end is storable. */
  lemma ReimportIsNoChange(stored: Stored, exported: int)
    requires StoredEnd(stored).Some?
    ensures !NewUpdate(stored, ImportedField(Export(StoredEnd(stored), exported))).changing
            <==> Storable(StoredEnd(stored).value)
  {
    ExportParses(StoredEnd(stored).value, exported);
    ReimportedUpdate(stored, Export(StoredEnd(stored), exported));
  }

  lemma UnstorableParses(at: int)
    requires at % SECOND == 0 && !(0 <= at < UNBOUNDED_AT)
    ensures ParseEnd(Write(at)).Some? ==> ParseEnd(Write(at)) == Some(UNBOUNDED)
  {
    LateIsUnbounded();
    if 0 <= at < YEAR_10000 {
      WrittenIsParsed(at);
      EndOfInstant(at);
    } else {
      UnreadableIsNotParsed(at);
    }
  }

  /** Viewing an export shows what reading the agent shows, exactly when its end is storable. */
  lemma ViewAgrees(e: LifespanEnd, now: int)
    requires e.Constructible()
    ensures ViewExported(Export(Some(e), now), now) == LifespanView(Some(e), now) <==> Storable(e)
  {
    ExportParses(e, now);
    if !Storable(e) { UnstorableParses(e.at); }
  }

  /** Every readable stored end reads back from an export. */
  predicate AllStorable(s: State) {
    forall id <- s.agents :: End(s, id).Some? ==> Storable(End(s, id).value)
  }

  lemma OneAgentChanges(s: State, after: State, id: string)
    requires AllStorable(s) && after.agents - {id} == s.agents - {id}
    requires End(after, id).Some? ==> Storable(End(after, id).value)
    ensures AllStorable(after)
  {
    forall other <- after.agents ensures End(after, other).Some? ==> Storable(End(after, other).value) {
      if other != id { assert other in after.agents - {id} && (after.agents - {id})[other] == after.agents[other]; }
    }
  }

  lemma CreateKeepsStorable(s: State, id: string, validUntil: Option<string>, c: CreateContext)
    requires AllStorable(s)
    ensures AllStorable(AfterCreate(s, id, validUntil, c))
  {
    var after := AfterCreate(s, id, validUntil, c);
    if id !in s.agents && id in after.agents {
      RegisteredIsStorable(validUntil, c.restore, c.now);
      RegisteredIsStored(s, id, validUntil, c);
      OneAgentChanges(s, after, id);
    } else {
      assert after.agents == s.agents;
      assert forall other <- after.agents :: End(after, other) == End(s, other);
    }
  }

  lemma AppliedKeepsStorable(s: State, id: string, u: LifespanUpdate, verdict: Option<Failure>, now: int)
    requires AllStorable(s) && id in s.agents && Storable(u.next)
    ensures AllStorable(Applied(s, id, u, verdict, now))
  {
    StoredReadsBack(u.next);
    OneAgentChanges(s, Applied(s, id, u, verdict, now), id);
  }

  lemma StepKeepsStorable(s: State, op: Operation)
    requires AllStorable(s)
    ensures AllStorable(Step(s, op))
  {
    match op
    case Create(id, validUntil, c) => CreateKeepsStorable(s, id, validUntil, c);
    case Update(id, requested, c) =>
      if id in s.agents {
        NextIsStorable(s.agents[id].lifespan, requested);
        var u := NewUpdate(s.agents[id].lifespan, requested);
        AppliedKeepsStorable(s, id, u, Verdict(s.agents[id], u, c), c.now);
      }
    case Delete(id, entityDeleted) => OneAgentChanges(s, AfterDelete(s, id, entityDeleted), id);
  }

  /** Whatever the service does, every agent can be exported, shown, restored and imported again without change. */
  lemma {:induction false} RunKeepsStorable(s: State, ops: seq<Operation>)
    requires AllStorable(s)
    ensures AllStorable(Run(s, ops))
    decreases |ops|
  {
    if ops != [] {
      StepKeepsStorable(s, ops[0]);
      RunKeepsStorable(Step(s, ops[0]), ops[1..]);
    }
  }

  /** An unreadable lifespan is exported as absent: it is left alone on the agent itself, and lifted on a new one. */
  lemma UnreadableIsLostOnANewAgent(stored: Stored, exported: int, now: int)
    requires StoredEnd(stored).None?
    ensures var text := Export(StoredEnd(stored), exported);
            && !NewUpdate(stored, ImportedField(text)).changing
            && Restored(text, now) == Some(Text(UNBOUNDED_TEXT))
            && Declared(text) == Some(Absent)
  {
  }
}

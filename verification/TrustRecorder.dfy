/** The trust-state recorder: usage reports run concurrently, in sections between which any other
    call may act, over tables and an event log that one transaction changes together. */
module TrustRecorder {
  import opened Options
  import opened TrustRecords

  const DEFAULT_WORKSPACE_ID: Id := "trust-state"

  datatype Event =
    | DeliveryReported(
        id: Id, deliveryId: Id, workspaceId: Id, runId: Option<Id>, causedBy: string, objectIds: seq<Id>, at: string)
    | UsageReported(
        id: Id, deliveryId: Id, workspaceId: Id, runId: Option<Id>, causedBy: string, state: UsageState,
        trustMode: TrustMode, objectIds: seq<Id>, anchors: Option<seq<AnchorUsage>>, reason: Option<string>, at: string)

  datatype Db = Db(deliveries: map<Id, Delivery>, usages: seq<UsageRecord>, events: seq<Event>)

  /** `Recorded` and `Replayed` both return their record to the caller: the one it wrote itself, as
      it was given, or the stored one, as it reads back. */
  datatype Outcome =
    | Recorded(record: UsageRecord)
    | Replayed(record: UsageRecord)
    | NotReady
    | UnknownDelivery
    | InvalidProof
    | Conflict
    | Failed

  datatype Expected = Expected(workspaceId: Option<Id>, agentTarget: Option<string>, runId: Option<Id>)

  /** Where a call waits. */
  datatype Phase =
    | Entered
    | Checking(delivery: Delivery)
    | Writing(delivery: Delivery)
    | Rereading
    | Done(outcome: Outcome)

  datatype Call = Call(input: UsageRecord, expected: Expected, phase: Phase)

  // ---------- the tables ----------

  function ResolveWorkspaceId(workspaceId: Option<Id>): Id
  {
    if workspaceId.Some? then workspaceId.value else DEFAULT_WORKSPACE_ID
  }

  function FindUsage(usages: seq<UsageRecord>, id: Id): (r: Option<UsageRecord>)
    ensures r.Some? ==> r.value in usages && r.value.deliveryId == id
    ensures r.None? ==> forall u :: u in usages ==> u.deliveryId != id
  {
    if usages == [] then None
    else
      assert usages == [usages[0]] + usages[1..];
      if usages[0].deliveryId == id then Some(usages[0]) else FindUsage(usages[1..], id)
  }

  predicate HasEvent(events: seq<Event>, id: Id)
  {
    exists e :: e in events && e.id == id
  }

  /** The table's constraints: the delivery exists, and neither it nor the event has a row yet. */
  predicate CanCreate(db: Db, r: UsageRecord)
  {
    r.deliveryId in db.deliveries && forall u :: u in db.usages ==>
      u.deliveryId != r.deliveryId && u.auditEventId != r.auditEventId
  }

  function UsageEvent(r: UsageRecord, d: Delivery, eventId: Id): Event
  {
    UsageReported(
      eventId, r.deliveryId, ResolveWorkspaceId(d.workspaceId), d.runId, d.agentTarget, r.state,
      if r.trustMode.Some? then r.trustMode.value else Automatic, r.objectIds, r.anchors, r.reason, r.reportedAt)
  }

  function DeliveryEvent(d: Delivery, eventId: Id): Event
  {
    DeliveryReported(eventId, d.deliveryId, ResolveWorkspaceId(d.workspaceId), d.runId, d.agentTarget, d.objectIds,
      d.deliveredAt)
  }

  datatype Written = Committed(db: Db) | RolledBack

  /** Event and row in one transaction; a refused row takes its event with it. */
  function AppendUsage(db: Db, r: UsageRecord, d: Delivery, eventId: Id): Written
  {
    var final := r.(auditEventId := eventId);
    if CanCreate(db, final) then
      Committed(db.(events := db.events + [UsageEvent(r, d, eventId)], usages := db.usages + [AsRead(final)]))
    else RolledBack
  }

  function AppendDelivery(db: Db, d: Delivery, eventId: Id): Written
  {
    if d.deliveryId in db.deliveries || HasEvent(db.events, eventId) then RolledBack
    else
      Committed(db.(events := db.events + [DeliveryEvent(d, eventId)],
                    deliveries := db.deliveries[d.deliveryId := DeliveryAsRead(d.(auditEventId := eventId))]))
  }

  // ---------- one call, section by section ----------

  predicate Belongs(d: Delivery, x: Expected)
  {
    && (x.workspaceId.Some? ==> d.workspaceId == x.workspaceId)
    && (x.agentTarget.Some? ==> Some(d.agentTarget) == x.agentTarget)
    && (x.runId.Some? ==> d.runId == x.runId)
  }

  function RequireMatchingUsageReplay(existing: UsageRecord, incoming: UsageRecord): Outcome
  {
    if RelevantOf(existing) == RelevantOf(incoming) then Replayed(existing) else Conflict
  }

  function Resolved(db: Db, c: Call): Phase
  {
    if c.input.deliveryId !in db.deliveries then Done(UnknownDelivery)
    else
      var d := db.deliveries[c.input.deliveryId];
      if !Belongs(d, c.expected) then Done(UnknownDelivery)
      else if !ValidUsageProof(c.input, d) then Done(InvalidProof)
      else Checking(d)
  }

  /** What a call does until it next waits. A fault is any error of the storage itself, a repeated
      event id among them; the transaction then leaves nothing behind. */
  function Section(db: Db, c: Call, eventId: Id, fault: bool): (Db, Call)
  {
    if c.phase.Done? then (db, c)
    else if fault then (db, c.(phase := Done(Failed)))
    else
      match c.phase
      case Entered => (db, c.(phase := Resolved(db, c)))
      case Checking(d) =>
        var existing := FindUsage(db.usages, c.input.deliveryId);
        (db, c.(phase := if existing.Some? then Done(RequireMatchingUsageReplay(existing.value, c.input))
          else Writing(d)))
      case Writing(d) =>
        if HasEvent(db.events, eventId) then (db, c.(phase := Done(Failed)))
        else
          var written := AppendUsage(db, c.input, d, eventId);
          if written.Committed? then (written.db, c.(phase := Done(Recorded(c.input.(auditEventId := eventId)))))
          else (db, c.(phase := Rereading))
      case Rereading =>
        var raced := FindUsage(db.usages, c.input.deliveryId);
        (db, c.(phase := Done(if raced.Some? then RequireMatchingUsageReplay(raced.value, c.input) else Conflict)))
  }

  // ---------- every interleaving ----------

  datatype State = State(db: Db, calls: seq<Call>, ready: bool)

  datatype Action =
    | MarkReady
    | Deliver(delivery: Delivery, eventId: Id)
    | Enter(input: UsageRecord, expected: Expected)
    | Proceed(call: nat, eventId: Id, fault: bool)

  function Step(s: State, a: Action): State
  {
    match a
    case MarkReady => s.(ready := true)
    case Deliver(d, eventId) =>
      if !s.ready then s
      else
        var written := AppendDelivery(s.db, d, eventId);
        if written.Committed? then s.(db := written.db) else s
    case Enter(input, expected) =>
      s.(calls := s.calls + [Call(input, expected, if s.ready then Entered else Done(NotReady))])
    case Proceed(i, eventId, fault) =>
      if i < |s.calls| then
        var (db, c) := Section(s.db, s.calls[i], eventId, fault);
        s.(db := db, calls := s.calls[i := c])
      else s
  }

  const EMPTY: State := State(Db(map[], [], []), [], false)

  function RunFrom(s: State, actions: seq<Action>): State
  {
    if actions == [] then s else Step(RunFrom(s, actions[..|actions| - 1]), actions[|actions| - 1])
  }

  function Run(actions: seq<Action>): State
  {
    RunFrom(EMPTY, actions)
  }

  // ---------- rows and their events ----------

  function UsageEvents(events: seq<Event>, id: Id): seq<Event>
  {
    if events == [] then []
    else
      var e := events[|events| - 1];
      UsageEvents(events[..|events| - 1], id) + if e.UsageReported? && e.deliveryId == id then [e] else []
  }

  function DeliveryEvents(events: seq<Event>, id: Id): seq<Event>
  {
    if events == [] then []
    else
      var e := events[|events| - 1];
      DeliveryEvents(events[..|events| - 1], id) + if e.DeliveryReported? && e.deliveryId == id then [e] else []
  }

  lemma EventsSnoc(events: seq<Event>, e: Event, id: Id)
    ensures UsageEvents(events + [e], id) ==
      UsageEvents(events, id) + if e.UsageReported? && e.deliveryId == id then [e] else []
    ensures DeliveryEvents(events + [e], id) ==
      DeliveryEvents(events, id) + if e.DeliveryReported? && e.deliveryId == id then [e] else []
  {
    assert (events + [e])[..|events|] == events;
  }

  lemma {:induction false} FindSnoc(usages: seq<UsageRecord>, u: UsageRecord, id: Id)
    ensures FindUsage(usages + [u], id) ==
      if FindUsage(usages, id).Some? then FindUsage(usages, id) else if u.deliveryId == id then Some(u) else None
    decreases |usages|
  {
    if usages == [] {
      assert usages + [u] == [u] && [u][1..] == [];
    } else {
      assert (usages + [u])[1..] == usages[1..] + [u];
      FindSnoc(usages[1..], u, id);
    }
  }

  /** The event says what the row says; ids are compared as sets, since the row derives its own. */
  ghost predicate Describes(e: Event, u: UsageRecord, d: Delivery)
  {
    && e.UsageReported? && e.id == u.auditEventId && e.deliveryId == u.deliveryId
    && e.workspaceId == (if d.workspaceId.Some? then d.workspaceId.value else "trust-state")
    && e.runId == d.runId && e.causedBy == d.agentTarget
    && e.state == u.state && e.trustMode == (if u.trustMode.Some? then u.trustMode.value else Automatic)
    && (forall id :: id in e.objectIds <==> id in u.objectIds)
    && (if e.anchors.Some? then e.anchors.value else []) == Anchors(u)
    && e.reason == u.reason && e.at == u.reportedAt
  }

  ghost predicate OneUsageEvent(events: seq<Event>, u: UsageRecord, d: Delivery)
  {
    var found := UsageEvents(events, u.deliveryId);
    |found| == 1 && Describes(found[0], u, d)
  }

  ghost predicate RowOk(db: Db, u: UsageRecord)
  {
    && u.deliveryId in db.deliveries
    && CitesOnlyDelivered(u, db.deliveries[u.deliveryId])
    && AsRead(u) == u
    && HasEvent(db.events, u.auditEventId)
    && OneUsageEvent(db.events, u, db.deliveries[u.deliveryId])
  }

  /** The event says what the stored delivery says; a delivery that lists objects derives its ids. */
  ghost predicate DescribesDelivery(e: Event, d: Delivery)
  {
    && e.DeliveryReported? && e.id == d.auditEventId && e.deliveryId == d.deliveryId
    && e.workspaceId == (if d.workspaceId.Some? then d.workspaceId.value else "trust-state")
    && e.runId == d.runId && e.causedBy == d.agentTarget && e.at == d.deliveredAt
  }

  ghost predicate DeliveryOk(db: Db, id: Id)
  {
    var found := DeliveryEvents(db.events, id);
    if id in db.deliveries then
      |found| == 1 && db.deliveries[id].deliveryId == id && DescribesDelivery(found[0], db.deliveries[id])
    else found == []
  }

  ghost predicate OneRowEach(usages: seq<UsageRecord>)
  {
    forall i, j :: 0 <= i < j < |usages| ==> usages[i].deliveryId != usages[j].deliveryId
  }

  ghost predicate DbInv(db: Db)
  {
    && OneRowEach(db.usages)
    && (forall u :: u in db.usages ==> RowOk(db, u))
    && (forall id :: FindUsage(db.usages, id).None? ==> UsageEvents(db.events, id) == [])
    && (forall id :: DeliveryOk(db, id))
  }

  // ---------- what a call may rely on ----------

  ghost predicate Admitted(db: Db, c: Call)
  {
    && c.input.deliveryId in db.deliveries && Belongs(db.deliveries[c.input.deliveryId], c.expected)
    && ValidUsageProof(c.input, db.deliveries[c.input.deliveryId])
  }

  ghost predicate OutcomeOk(db: Db, c: Call, o: Outcome)
  {
    var row := FindUsage(db.usages, c.input.deliveryId);
    match o
    case Recorded(r) => Admitted(db, c) && row == Some(AsRead(r)) && r == c.input.(auditEventId := r.auditEventId)
    case Replayed(r) => Admitted(db, c) && row == Some(r) && RelevantOf(r) == RelevantOf(c.input)
    case Conflict => Admitted(db, c) && row.Some? && RelevantOf(row.value) != RelevantOf(c.input)
    case InvalidProof =>
      c.input.deliveryId in db.deliveries && !ValidUsageProof(c.input, db.deliveries[c.input.deliveryId])
    case _ => true
  }

  ghost predicate CallOk(db: Db, c: Call)
  {
    match c.phase
    case Entered => true
    case Checking(d) => Admitted(db, c) && d == db.deliveries[c.input.deliveryId]
    case Writing(d) => Admitted(db, c) && d == db.deliveries[c.input.deliveryId]
    case Rereading => Admitted(db, c) && FindUsage(db.usages, c.input.deliveryId).Some?
    case Done(o) => OutcomeOk(db, c, o)
  }

  ghost predicate Wrote(c: Call)
  {
    c.phase.Done? && c.phase.outcome.Recorded?
  }

  ghost predicate WroteRow(c: Call, u: UsageRecord)
  {
    Wrote(c) && AsRead(c.phase.outcome.record) == u
  }

  ghost predicate OneWriterEach(calls: seq<Call>)
  {
    forall i, j :: 0 <= i < j < |calls| && Wrote(calls[i]) && Wrote(calls[j]) ==>
      calls[i].input.deliveryId != calls[j].input.deliveryId
  }

  ghost predicate RowsHaveWriters(s: State)
  {
    forall u :: u in s.db.usages ==> exists i :: 0 <= i < |s.calls| && WroteRow(s.calls[i], u)
  }

  ghost predicate Inv(s: State)
  {
    && DbInv(s.db) && (forall i :: 0 <= i < |s.calls| ==> CallOk(s.db, s.calls[i]))
    && OneWriterEach(s.calls) && RowsHaveWriters(s)
  }

  /** Rows are only ever added. */
  ghost predicate Grows(a: Db, b: Db)
  {
    && (forall id :: id in a.deliveries ==> id in b.deliveries && b.deliveries[id] == a.deliveries[id])
    && (forall id :: FindUsage(a.usages, id).Some? ==> FindUsage(b.usages, id) == FindUsage(a.usages, id))
    && a.usages <= b.usages && a.events <= b.events
  }

  lemma CallKept(a: Db, b: Db, c: Call)
    requires Grows(a, b) && CallOk(a, c)
    ensures CallOk(b, c)
  {
    hide ValidUsageProof, AsRead, RelevantOf, Belongs, FindUsage;
  }

  // ---------- writing keeps the tables ----------

  lemma HasEventSnoc(events: seq<Event>, e: Event, id: Id)
    requires HasEvent(events, id)
    ensures HasEvent(events + [e], id)
  {
    var x :| x in events && x.id == id;
    assert x in events + [e];
  }

  /** A new usage row is described by the event written with it. */
  lemma EventDescribes(r: UsageRecord, d: Delivery, eventId: Id)
    requires ValidUsageProof(r, d)
    ensures Describes(UsageEvent(r, d, eventId), AsRead(r.(auditEventId := eventId)), d)
  {
    hide ValidAnchors, ValidWitness;
    if r.objects.Some? {
      forall id
        ensures id in r.objectIds <==> id in Dedup(ObjectIds(r.objects.value))
      {
        ObjectIdsOf(r.objects.value, id);
        ProjectedId(r, id);
      }
    }
  }

  lemma ProjectedId(r: UsageRecord, id: Id)
    requires r.objects.Some? && IdProjectionMatches(r)
    ensures id in r.objectIds <==> exists o :: o in r.objects.value && o.objectId == Some(id)
  {
    assert id in (set x | x in r.objectIds) <==> id in ProjectedIds(r.objects.value);
  }

  lemma AuditIdCites(r: UsageRecord, d: Delivery, eventId: Id)
    requires ValidUsageProof(r, d)
    ensures CitesOnlyDelivered(AsRead(r.(auditEventId := eventId)), d)
  {
    AuditIdValid(r, d, eventId);
    ValidCitesDelivered(r.(auditEventId := eventId), d);
  }

  lemma AuditIdValid(r: UsageRecord, d: Delivery, eventId: Id)
    requires ValidUsageProof(r, d)
    ensures ValidUsageProof(r.(auditEventId := eventId), d)
  {
    var f := r.(auditEventId := eventId);
    hide DeliveredIdentity, IdentityKeys, ValidWitness;
    assert forall key :: ReportedAsUsed(r, key) <==> ReportedAsUsed(f, key);
    assert Anchors(f) == Anchors(r) && Witnesses(f) == Witnesses(r);
  }

  /** An older row keeps its one event when another delivery's row is written. */
  lemma RowKept(db: Db, db': Db, u: UsageRecord, e: Event)
    requires RowOk(db, u) && db'.events == db.events + [e] && (e.UsageReported? ==> e.deliveryId != u.deliveryId)
    requires u.deliveryId in db'.deliveries && db'.deliveries[u.deliveryId] == db.deliveries[u.deliveryId]
    ensures RowOk(db', u)
  {
    hide CitesOnlyDelivered, AsRead, Describes, UsageEvents;
    EventsSnoc(db.events, e, u.deliveryId);
    HasEventSnoc(db.events, e, u.auditEventId);
  }

  lemma NewRowOk(db: Db, db': Db, r: UsageRecord, eventId: Id)
    requires r.deliveryId in db.deliveries && ValidUsageProof(r, db.deliveries[r.deliveryId])
    requires db'.deliveries == db.deliveries && UsageEvents(db.events, r.deliveryId) == []
    requires db'.events == db.events + [UsageEvent(r, db.deliveries[r.deliveryId], eventId)]
    ensures RowOk(db', AsRead(r.(auditEventId := eventId)))
  {
    hide CitesOnlyDelivered, Describes, UsageEvents, ValidUsageProof;
    var d := db.deliveries[r.deliveryId];
    var e := UsageEvent(r, d, eventId);
    EventsSnoc(db.events, e, r.deliveryId);
    EventDescribes(r, d, eventId);
    AuditIdCites(r, d, eventId);
    AsReadAgain(r.(auditEventId := eventId));
    assert e in db'.events;
    assert UsageEvents(db'.events, r.deliveryId) == [e];
  }

  lemma UsageWritten(db: Db, r: UsageRecord, eventId: Id)
    requires DbInv(db) && r.deliveryId in db.deliveries && ValidUsageProof(r, db.deliveries[r.deliveryId])
    requires AppendUsage(db, r, db.deliveries[r.deliveryId], eventId).Committed?
    ensures var db' := AppendUsage(db, r, db.deliveries[r.deliveryId], eventId).db;
      && DbInv(db') && Grows(db, db')
      && FindUsage(db'.usages, r.deliveryId) == Some(AsRead(r.(auditEventId := eventId)))
  {
    hide CitesOnlyDelivered, UsageEvents, DeliveryEvents, ValidUsageProof, AsRead, FindUsage, RowOk, DeliveryOk;
    var d := db.deliveries[r.deliveryId];
    var db' := AppendUsage(db, r, d, eventId).db;
    var row, e := AsRead(r.(auditEventId := eventId)), UsageEvent(r, d, eventId);
    RowNamesDelivery(r, eventId);
    NotYetReported(db, r, eventId);
    NewRowOk(db, db', r, eventId);
    forall u | u in db'.usages
      ensures RowOk(db', u)
    {
      if u in db.usages {
        RowDelivered(db, u);
        RowKept(db, db', u, e);
      }
    }
    forall id
      ensures FindUsage(db'.usages, id) ==
        if FindUsage(db.usages, id).Some? then FindUsage(db.usages, id)
        else if row.deliveryId == id then Some(row) else None
      ensures FindUsage(db'.usages, id).None? ==> UsageEvents(db'.events, id) == []
      ensures DeliveryOk(db', id)
    {
      FindSnoc(db.usages, row, id);
      EventsSnoc(db.events, e, id);
      DeliveryKept(db, db', e, id);
    }
  }

  lemma RowNamesDelivery(r: UsageRecord, eventId: Id)
    ensures AsRead(r.(auditEventId := eventId)).deliveryId == r.deliveryId
  {
  }

  lemma NotYetReported(db: Db, r: UsageRecord, eventId: Id)
    requires DbInv(db) && CanCreate(db, r.(auditEventId := eventId))
    ensures FindUsage(db.usages, r.deliveryId).None? && UsageEvents(db.events, r.deliveryId) == []
  {
    hide RowOk, DeliveryOk, UsageEvents;
  }

  lemma DeliveryKept(db: Db, db': Db, e: Event, id: Id)
    requires DeliveryOk(db, id) && db'.deliveries == db.deliveries && db'.events == db.events + [e] && e.UsageReported?
    ensures DeliveryOk(db', id)
  {
    hide DeliveryEvents;
    EventsSnoc(db.events, e, id);
  }

  lemma DeliveryWritten(db: Db, d: Delivery, eventId: Id)
    requires DbInv(db) && AppendDelivery(db, d, eventId).Committed?
    ensures var db' := AppendDelivery(db, d, eventId).db; DbInv(db') && Grows(db, db')
  {
    hide CitesOnlyDelivered, UsageEvents, DeliveryEvents, DeliveryAsRead, FindUsage, RowOk, DeliveryOk;
    var db' := AppendDelivery(db, d, eventId).db;
    var e := DeliveryEvent(d, eventId);
    forall u | u in db'.usages
      ensures RowOk(db', u)
    {
      RowDelivered(db, u);
      RowKept(db, db', u, e);
    }
    forall id
      ensures FindUsage(db'.usages, id).None? ==> UsageEvents(db'.events, id) == []
      ensures DeliveryOk(db', id)
    {
      EventsSnoc(db.events, e, id);
      DeliveryAdded(db, d, eventId, id);
    }
  }

  lemma RowDelivered(db: Db, u: UsageRecord)
    requires RowOk(db, u)
    ensures u.deliveryId in db.deliveries
  {
  }

  lemma DeliveryAdded(db: Db, d: Delivery, eventId: Id, id: Id)
    requires DeliveryOk(db, id) && AppendDelivery(db, d, eventId).Committed?
    ensures DeliveryOk(AppendDelivery(db, d, eventId).db, id)
  {
    hide DeliveryEvents;
    EventsSnoc(db.events, DeliveryEvent(d, eventId), id);
  }

  /** A stored delivery is the one given, with its event's id: the objects if it lists any, else the
      ids; ids beside objects are exactly those of the objects. */
  lemma DeliveryStored(db: Db, d: Delivery, eventId: Id)
    requires AppendDelivery(db, d, eventId).Committed?
    ensures var s := AppendDelivery(db, d, eventId).db.deliveries;
      && s.Keys == db.deliveries.Keys + {d.deliveryId} && d.deliveryId !in db.deliveries
      && (forall id :: id in db.deliveries ==> s[id] == db.deliveries[id])
      && var t := s[d.deliveryId];
      && t.deliveryId == d.deliveryId && t.agentTarget == d.agentTarget && t.workspaceId == d.workspaceId
      && t.runId == d.runId && t.exposures == d.exposures && t.deliveredAt == d.deliveredAt && t.auditEventId == eventId
      && t.objects == (if d.objects.Some? && d.objects.value != [] then d.objects else None)
      && (d.objects.None? ==> t.objectIds == d.objectIds)
      && (d.objects.Some? ==> forall id :: id in t.objectIds <==>
            exists o :: o in d.objects.value && o.objectId == Some(id))
  {
    if d.objects.Some? {
      forall id
        ensures id in Dedup(ObjectIds(d.objects.value)) <==> exists o :: o in d.objects.value && o.objectId == Some(id)
      {
        ObjectIdsOf(d.objects.value, id);
      }
    }
    hide Dedup, ObjectIds, HasEvent;
  }

  // ---------- every section keeps the invariant ----------

  lemma GrowsRefl(db: Db)
    ensures Grows(db, db)
  {
    hide FindUsage;
  }

  /** A refused transaction means a row was already there: the event id is fresh and the delivery
      exists, so only the delivery's own row can stand in the way. */
  lemma RefusedMeansRaced(db: Db, c: Call, d: Delivery, eventId: Id)
    requires DbInv(db) && Admitted(db, c) && !HasEvent(db.events, eventId)
    requires AppendUsage(db, c.input, d, eventId).RolledBack?
    ensures FindUsage(db.usages, c.input.deliveryId).Some?
  {
    hide ValidUsageProof, CitesOnlyDelivered, DeliveryOk, OneUsageEvent;
    var final := c.input.(auditEventId := eventId);
    var u :| u in db.usages && !(u.deliveryId != final.deliveryId && u.auditEventId != final.auditEventId);
    assert RowOk(db, u);
  }

  lemma ReplayOk(db: Db, c: Call, row: UsageRecord)
    requires DbInv(db) && Admitted(db, c) && FindUsage(db.usages, c.input.deliveryId) == Some(row)
    ensures OutcomeOk(db, c, RequireMatchingUsageReplay(row, c.input))
  {
    hide ValidUsageProof, CitesOnlyDelivered, DeliveryOk, OneUsageEvent, RelevantOf, FindUsage, AsRead;
    FoundIsRow(db.usages, c.input.deliveryId);
    assert RowOk(db, row);
  }

  lemma FoundIsRow(usages: seq<UsageRecord>, id: Id)
    requires FindUsage(usages, id).Some?
    ensures FindUsage(usages, id).value in usages
  {
  }

  lemma WritingKeeps(db: Db, c: Call, eventId: Id)
    requires DbInv(db) && CallOk(db, c) && c.phase.Writing?
    ensures var (db', c') := Section(db, c, eventId, false); DbInv(db') && CallOk(db', c') && Grows(db, db')
  {
    hide ValidUsageProof, FindUsage, RelevantOf, AsRead, DbInv, Grows, HasEvent, AppendUsage;
    GrowsRefl(db);
    var d := c.phase.delivery;
    if !HasEvent(db.events, eventId) {
      if AppendUsage(db, c.input, d, eventId).Committed? {
        UsageWritten(db, c.input, eventId);
        AdmittedKept(db, AppendUsage(db, c.input, d, eventId).db, c);
      } else {
        RefusedMeansRaced(db, c, d, eventId);
      }
    }
  }

  lemma AdmittedKept(db: Db, db': Db, c: Call)
    requires Grows(db, db') && Admitted(db, c)
    ensures Admitted(db', c)
  {
    hide ValidUsageProof, Belongs, FindUsage;
  }

  lemma ResolvedOk(db: Db, c: Call)
    requires c.phase.Entered?
    ensures CallOk(db, c.(phase := Resolved(db, c)))
  {
    hide ValidUsageProof, Belongs, FindUsage;
  }

  lemma CheckedOk(db: Db, c: Call)
    requires DbInv(db) && CallOk(db, c) && (c.phase.Checking? || c.phase.Rereading?)
    ensures var row := FindUsage(db.usages, c.input.deliveryId);
      && (row.Some? ==> CallOk(db, c.(phase := Done(RequireMatchingUsageReplay(row.value, c.input)))))
      && (row.None? ==> c.phase.Checking? && CallOk(db, c.(phase := Writing(c.phase.delivery))))
  {
    hide ValidUsageProof, FindUsage, RelevantOf, AsRead, DbInv, RequireMatchingUsageReplay, Belongs;
    var row := FindUsage(db.usages, c.input.deliveryId);
    if row.Some? { ReplayOk(db, c, row.value); }
  }

  lemma SectionKeeps(db: Db, c: Call, eventId: Id, fault: bool)
    requires DbInv(db) && CallOk(db, c)
    ensures var (db', c') := Section(db, c, eventId, fault); DbInv(db') && CallOk(db', c') && Grows(db, db')
  {
    GrowsRefl(db);
    if c.phase.Done? {
    } else if fault {
      FailedOk(db, c);
    } else if c.phase.Entered? {
      ResolvedOk(db, c);
    } else if c.phase.Writing? {
      WritingKeeps(db, c, eventId);
    } else {
      CheckedOk(db, c);
    }
    hide CallOk, FindUsage, DbInv, Grows, HasEvent, AppendUsage, RequireMatchingUsageReplay, Resolved;
  }

  lemma FailedOk(db: Db, c: Call)
    ensures CallOk(db, c.(phase := Done(Failed)))
  {
  }

  /** A section writes at most one row, for a delivery that had none, and its call is then the one
      that wrote it. */
  lemma SectionWritesOnce(db: Db, c: Call, eventId: Id, fault: bool)
    requires DbInv(db) && CallOk(db, c)
    ensures var (db', c') := Section(db, c, eventId, fault);
      && c'.input == c.input
      && (Wrote(c) ==> c' == c)
      && (Wrote(c') && !Wrote(c) ==> (
        && FindUsage(db.usages, c.input.deliveryId).None?
        && db'.usages == db.usages + [AsRead(c'.phase.outcome.record)]))
      && (!(Wrote(c') && !Wrote(c)) ==> db'.usages == db.usages)
  {
    hide ValidUsageProof, FindUsage, RelevantOf, AsRead, HasEvent, Belongs, DbInv, CanCreate, UsageEvent;
    if c.phase.Writing? && CanCreate(db, c.input.(auditEventId := eventId)) { NotYetReported(db, c.input, eventId); }
  }

  /** The writers' side of one step of a call. */
  lemma WritersKept(s: State, k: nat, db: Db, c: Call)
    requires k < |s.calls| && OneWriterEach(s.calls) && RowsHaveWriters(s)
    requires forall i :: 0 <= i < |s.calls| ==> CallOk(s.db, s.calls[i])
    requires c.input == s.calls[k].input && (Wrote(s.calls[k]) ==> c == s.calls[k])
    requires Wrote(c) && !Wrote(s.calls[k]) ==>
      && FindUsage(s.db.usages, c.input.deliveryId).None? && db.usages == s.db.usages + [AsRead(c.phase.outcome.record)]
    requires !(Wrote(c) && !Wrote(s.calls[k])) ==> db.usages == s.db.usages
    ensures OneWriterEach(s.calls[k := c]) && RowsHaveWriters(s.(db := db, calls := s.calls[k := c]))
  {
    hide FindUsage, AsRead, Admitted, RelevantOf;
    var calls := s.calls[k := c];
    forall i, j | 0 <= i < j < |calls| && Wrote(calls[i]) && Wrote(calls[j])
      ensures calls[i].input.deliveryId != calls[j].input.deliveryId
    {
      assert i != k ==> CallOk(s.db, s.calls[i]);
      assert j != k ==> CallOk(s.db, s.calls[j]);
    }
    forall u | u in db.usages
      ensures exists i :: 0 <= i < |calls| && WroteRow(calls[i], u)
    {
      if u in s.db.usages {
        var i :| 0 <= i < |s.calls| && WroteRow(s.calls[i], u);
        assert WroteRow(calls[i], u);
      } else {
        assert WroteRow(calls[k], u);
      }
    }
  }

  lemma WritersAppended(s: State, c: Call)
    requires OneWriterEach(s.calls) && RowsHaveWriters(s) && !Wrote(c)
    ensures OneWriterEach(s.calls + [c]) && RowsHaveWriters(s.(calls := s.calls + [c]))
  {
    hide AsRead;
    forall u | u in s.db.usages
      ensures exists i :: 0 <= i < |s.calls + [c]| && WroteRow((s.calls + [c])[i], u)
    {
      var i :| 0 <= i < |s.calls| && WroteRow(s.calls[i], u);
      assert WroteRow((s.calls + [c])[i], u);
    }
  }

  lemma DeliveriesKeepRows(s: State, d: Delivery, eventId: Id)
    requires AppendDelivery(s.db, d, eventId).Committed? && RowsHaveWriters(s)
    ensures RowsHaveWriters(s.(db := AppendDelivery(s.db, d, eventId).db))
  {
    hide WroteRow;
  }

  lemma StepKeeps(s: State, a: Action)
    requires Inv(s)
    ensures Inv(Step(s, a)) && Grows(s.db, Step(s, a).db)
  {
    hide DbInv, CallOk, Grows, Section, AppendDelivery, OneWriterEach, RowsHaveWriters, Wrote;
    var s' := Step(s, a);
    GrowsRefl(s.db);
    match a
    case MarkReady =>
      ReadyKeepsRows(s);
    case Enter(input, expected) =>
      var c := s'.calls[|s.calls|];
      EnteredOk(s.db, c);
      WritersAppended(s, c);
    case Deliver(d, eventId) =>
      if s.ready && AppendDelivery(s.db, d, eventId).Committed? {
        DeliveryWritten(s.db, d, eventId);
        DeliveriesKeepRows(s, d, eventId);
      }
      forall i | 0 <= i < |s'.calls| ensures CallOk(s'.db, s'.calls[i]) { CallKept(s.db, s'.db, s.calls[i]); }
    case Proceed(k, eventId, fault) =>
      if k < |s.calls| {
        SectionKeeps(s.db, s.calls[k], eventId, fault);
        SectionWritesOnce(s.db, s.calls[k], eventId, fault);
        WritersKept(s, k, s'.db, s'.calls[k]);
        forall i | 0 <= i < |s'.calls| ensures CallOk(s'.db, s'.calls[i]) {
          if i != k { CallKept(s.db, s'.db, s.calls[i]); }
        }
      }
  }

  lemma ReadyKeepsRows(s: State)
    requires RowsHaveWriters(s)
    ensures RowsHaveWriters(s.(ready := true))
  {
    hide WroteRow;
  }

  lemma EnteredOk(db: Db, c: Call)
    requires c.phase == Entered || c.phase == Done(NotReady)
    ensures CallOk(db, c) && !Wrote(c)
  {
  }

  lemma EmptyInv()
    ensures Inv(EMPTY)
  {
  }

  lemma GrowsTrans(a: Db, b: Db, c: Db)
    requires Grows(a, b) && Grows(b, c)
    ensures Grows(a, c)
  {
    hide FindUsage;
  }

  lemma {:induction false} RunKeeps(s: State, actions: seq<Action>)
    requires Inv(s)
    ensures Inv(RunFrom(s, actions)) && Grows(s.db, RunFrom(s, actions).db)
    decreases |actions|
  {
    hide Inv, Step, Grows;
    if actions == [] {
      GrowsRefl(s.db);
    } else {
      var before := RunFrom(s, actions[..|actions| - 1]);
      RunKeeps(s, actions[..|actions| - 1]);
      StepKeeps(before, actions[|actions| - 1]);
      GrowsTrans(s.db, before.db, RunFrom(s, actions).db);
    }
  }

  lemma RunInv(actions: seq<Action>)
    ensures Inv(Run(actions))
  {
    hide Inv, Step;
    EmptyInv();
    RunKeeps(EMPTY, actions);
  }

  // ---------- what holds of every run ----------

  /** Whatever the interleaving: a delivery has at most one usage row, a row has exactly one usage
      event and says what it says, a delivery without a row has none, and a row names only what its
      delivery contained. */
  lemma OneRowOneEvent(actions: seq<Action>)
    ensures var db := Run(actions).db;
      && OneRowEach(db.usages)
      && (forall u :: u in db.usages ==> (
        && u.deliveryId in db.deliveries && OneUsageEvent(db.events, u, db.deliveries[u.deliveryId])
        && CitesOnlyDelivered(u, db.deliveries[u.deliveryId])))
      && (forall id :: (forall u :: u in db.usages ==> u.deliveryId != id) ==> UsageEvents(db.events, id) == [])
  {
    RunInv(actions);
    hide Run, OneUsageEvent, CitesOnlyDelivered, DeliveryOk, CallOk, UsageEvents;
    var db := Run(actions).db;
    forall u | u in db.usages
      ensures u.deliveryId in db.deliveries && OneUsageEvent(db.events, u, db.deliveries[u.deliveryId])
      ensures CitesOnlyDelivered(u, db.deliveries[u.deliveryId])
    {
      assert RowOk(db, u);
    }
    forall id | forall u :: u in db.usages ==> u.deliveryId != id
      ensures UsageEvents(db.events, id) == []
    {
      assert FindUsage(db.usages, id).None?;
    }
  }

  /** The call wrote the delivery's row and returned `r`, its own report with the event's id. */
  ghost predicate WriterOf(s: State, i: nat, r: UsageRecord)
  {
    i < |s.calls| && s.calls[i].phase == Done(Recorded(r))
  }

  /** The call found the delivery's row and returned it as `r`. */
  ghost predicate ReplayerOf(s: State, i: nat, r: UsageRecord)
  {
    i < |s.calls| && s.calls[i].phase == Done(Replayed(r))
  }

  ghost predicate SameDelivery(s: State, i: nat, j: nat)
  {
    i < |s.calls| && j < |s.calls| && s.calls[i].input.deliveryId == s.calls[j].input.deliveryId
  }

  /** Every row was written by exactly one call. */
  lemma RowHasOneWriter(actions: seq<Action>, u: UsageRecord)
    requires u in Run(actions).db.usages
    ensures var s := Run(actions);
      exists i: nat, r :: WriterOf(s, i, r) && AsRead(r) == u &&
        forall j: nat, q :: WriterOf(s, j, q) && q.deliveryId == u.deliveryId ==> j == i
  {
    RunInv(actions);
    hide Run, DbInv, AsRead, Admitted, FindUsage;
    var s := Run(actions);
    var i: nat :| i < |s.calls| && WroteRow(s.calls[i], u);
    var r := s.calls[i].phase.outcome.record;
    assert WriterOf(s, i, r) && CallOk(s.db, s.calls[i]);
    RowNamesItsDelivery(r);
    forall j: nat, q | WriterOf(s, j, q) && q.deliveryId == u.deliveryId
      ensures j == i
    {
      assert CallOk(s.db, s.calls[j]) && Wrote(s.calls[j]) && Wrote(s.calls[i]);
      assert s.calls[j].input.deliveryId == s.calls[i].input.deliveryId;
    }
  }

  lemma RowNamesItsDelivery(r: UsageRecord)
    ensures AsRead(r).deliveryId == r.deliveryId
  {
  }

  /** A caller that found the row passed the checks, returns the row itself, and reported what the
      row says. */
  lemma ReplayerHasTheRow(actions: seq<Action>, j: nat, b: UsageRecord)
    requires ReplayerOf(Run(actions), j, b)
    ensures var s := Run(actions); var c := s.calls[j];
      && Admitted(s.db, c) && b in s.db.usages && b.deliveryId == c.input.deliveryId && AsRead(b) == b
      && Agrees(b, c.input)
  {
    RunInv(actions);
    hide Agrees, Run, Admitted, AsRead, RelevantOf, DeliveryOk, OneUsageEvent, CitesOnlyDelivered;
    var s := Run(actions);
    assert CallOk(s.db, s.calls[j]);
    FoundIsRow(s.db.usages, s.calls[j].input.deliveryId);
    assert RowOk(s.db, b);
    AgreesExact(b, s.calls[j].input);
  }

  /** The caller that wrote the row passed the checks and returns its report as given; the row is
      what that report reads back as, so the caller holds the row itself exactly when the report
      names the ids of its objects in order and leaves out an empty anchor list. */
  lemma WriterHasTheRow(actions: seq<Action>, i: nat, a: UsageRecord)
    requires WriterOf(Run(actions), i, a)
    ensures var s := Run(actions); var c := s.calls[i];
      && Admitted(s.db, c) && a == c.input.(auditEventId := a.auditEventId) && AsRead(a) in s.db.usages
      && (a in s.db.usages <==> ReadsBackAlike(c.input) && c.input.anchors != Some([]))
  {
    RunInv(actions);
    hide Run, Admitted, DeliveryOk, OneUsageEvent, CitesOnlyDelivered, ReadsBackAlike, AsRead;
    var s := Run(actions);
    var c := s.calls[i];
    assert CallOk(s.db, c);
    FoundIsRow(s.db.usages, c.input.deliveryId);
    StoredAsIs(a);
    AuditIdIrrelevant(c.input, a.auditEventId);
    if a in s.db.usages { assert RowOk(s.db, a); }
  }

  lemma OnlyRow(actions: seq<Action>, u: UsageRecord, v: UsageRecord)
    requires var rows := Run(actions).db.usages; u in rows && v in rows && u.deliveryId == v.deliveryId
    ensures u == v
  {
    RunInv(actions);
    hide Run, RowOk, DeliveryOk, CallOk, OneWriterEach, RowsHaveWriters;
    var rows := Run(actions).db.usages;
    assert OneRowEach(rows);
    var m :| 0 <= m < |rows| && rows[m] == u;
    var n :| 0 <= n < |rows| && rows[n] == v;
    assert m == n || m < n || n < m;
  }

  /** Two callers that found the row return the same record, and their reports agree. */
  lemma ReplayersAgree(actions: seq<Action>, i: nat, j: nat, a: UsageRecord, b: UsageRecord)
    requires var s := Run(actions); ReplayerOf(s, i, a) && ReplayerOf(s, j, b) && SameDelivery(s, i, j)
    ensures a == b && Agrees(Run(actions).calls[i].input, Run(actions).calls[j].input)
  {
    hide Run, Admitted, AsRead;
    ReplayerHasTheRow(actions, i, a);
    ReplayerHasTheRow(actions, j, b);
    OnlyRow(actions, a, b);
  }

  /** The writer and a caller that found its row: their reports agree, as the code compares them,
      exactly when the writer's report reads back alike; they return the same record exactly when it
      also leaves out an empty anchor list. */
  lemma WriterAndReplayer(actions: seq<Action>, i: nat, j: nat, a: UsageRecord, b: UsageRecord)
    requires var s := Run(actions); WriterOf(s, i, a) && ReplayerOf(s, j, b) && SameDelivery(s, i, j)
    ensures var s := Run(actions); var x, y := s.calls[i].input, s.calls[j].input;
      && b == AsRead(a)
      && (Agrees(x, y) <==> ReadsBackAlike(x))
      && (a == b <==> ReadsBackAlike(x) && x.anchors != Some([]))
      && Agrees(AsRead(x), AsRead(y))
  {
    hide Run, Admitted, AsRead, RelevantOf, ReadsBackAlike, Agrees;
    var x, y := Run(actions).calls[i].input, Run(actions).calls[j].input;
    WriterHasTheRow(actions, i, a);
    ReplayerHasTheRow(actions, j, b);
    RowNamesItsDelivery(a);
    OnlyRow(actions, AsRead(a), b);
    ReplayExact(a);
    StoredAsIs(a);
    AuditIdIrrelevant(x, a.auditEventId);
    AgreesExact(b, y);
    RelevantAsRead(x, a);
    RelevantAsRead(y, b);
    AgreesExact(x, y);
    AgreesExact(AsRead(x), AsRead(y));
  }

  /** All successful calls for a delivery: one at most wrote its row, and two of their reports
      disagree, as the code compares them, exactly when one is the writer's and does not read back
      alike. As they read back, all their reports agree. */
  lemma SuccessesAgree(actions: seq<Action>, i: nat, j: nat)
    requires var s := Run(actions); SameDelivery(s, i, j) && i != j
    requires var s := Run(actions);
      && (exists a :: WriterOf(s, i, a) || ReplayerOf(s, i, a)) &&
            (exists b :: WriterOf(s, j, b) || ReplayerOf(s, j, b))
    ensures var s := Run(actions); var x, y := s.calls[i].input, s.calls[j].input;
      && !(Wrote(s.calls[i]) && Wrote(s.calls[j]))
      && (!Agrees(x, y) <==>
        (Wrote(s.calls[i]) && !ReadsBackAlike(x)) || (Wrote(s.calls[j]) && !ReadsBackAlike(y)))
      && Agrees(AsRead(x), AsRead(y))
  {
    var s := Run(actions);
    WritersDiffer(actions, i, j);
    hide Run, RelevantOf, ReadsBackAlike, AsRead, Agrees;
    var a :| WriterOf(s, i, a) || ReplayerOf(s, i, a);
    var b :| WriterOf(s, j, b) || ReplayerOf(s, j, b);
    if WriterOf(s, i, a) {
      WriterAndReplayer(actions, i, j, a, b);
    } else if WriterOf(s, j, b) {
      WriterAndReplayer(actions, j, i, b, a);
      AgreesSymmetric(s.calls[i].input, s.calls[j].input);
      AgreesSymmetric(AsRead(s.calls[i].input), AsRead(s.calls[j].input));
    } else {
      ReplayersAgree(actions, i, j, a, b);
      AgreesExact(s.calls[i].input, s.calls[j].input);
      RelevantAsRead(s.calls[i].input, s.calls[j].input);
      AgreesExact(AsRead(s.calls[i].input), AsRead(s.calls[j].input));
    }
  }

  lemma AgreesSymmetric(a: UsageRecord, b: UsageRecord)
    ensures Agrees(a, b) <==> Agrees(b, a)
  {
  }

  lemma WritersDiffer(actions: seq<Action>, i: nat, j: nat)
    requires SameDelivery(Run(actions), i, j) && i != j
    ensures !(Wrote(Run(actions).calls[i]) && Wrote(Run(actions).calls[j]))
  {
    RunInv(actions);
    hide Run, DbInv, CallOk, RowsHaveWriters, Wrote;
    assert i < j || j < i;
  }

  /** A conflict is reported only to a caller whose report disagrees with the stored row, and a
      proof is refused only where it fails the checks: the re-read after a lost race always finds
      the winner's row. */
  lemma RefusalsAreEarned(actions: seq<Action>, i: nat)
    requires i < |Run(actions).calls|
    ensures var s := Run(actions); var c := s.calls[i];
      && (c.phase == Done(Conflict) ==>
            exists u :: u in s.db.usages && u.deliveryId == c.input.deliveryId && !Agrees(u, c.input))
      && (c.phase == Done(InvalidProof) ==>
            c.input.deliveryId in s.db.deliveries && !ValidUsageProof(c.input, s.db.deliveries[c.input.deliveryId]))
  {
    RunInv(actions);
    hide Run, DbInv, Admitted, AsRead, RelevantOf, ValidUsageProof, Agrees;
    var s := Run(actions);
    assert CallOk(s.db, s.calls[i]);
    var row := FindUsage(s.db.usages, s.calls[i].input.deliveryId);
    if row.Some? { AgreesExact(row.value, s.calls[i].input); }
  }

  /** Rows, deliveries and events are never changed or removed by anything that follows. */
  lemma NothingLost(actions: seq<Action>, more: seq<Action>)
    ensures Grows(Run(actions).db, RunFrom(Run(actions), more).db)
  {
    hide Run, Grows, Inv, RunFrom;
    RunInv(actions);
    RunKeeps(Run(actions), more);
  }

  // ---------- every call ends ----------

  function Rank(p: Phase): nat
  {
    match p
    case Entered => 0
    case Checking(_) => 1
    case Writing(_) => 2
    case Rereading => 3
    case Done(_) => 4
  }

  /** How often a run lets call `i` proceed. */
  function Turns(actions: seq<Action>, i: nat): nat
  {
    if actions == [] then 0
    else
      var a := actions[|actions| - 1];
      Turns(actions[..|actions| - 1], i) + if a.Proceed? && a.call == i then 1 else 0
  }

  lemma SectionAdvances(db: Db, c: Call, eventId: Id, fault: bool)
    ensures var c' := Section(db, c, eventId, fault).1;
      (c.phase.Done? ==> c' == c) && (!c.phase.Done? ==> Rank(c'.phase) > Rank(c.phase))
  {
    hide ValidUsageProof, FindUsage, RelevantOf, AsRead, HasEvent, AppendUsage, RequireMatchingUsageReplay, Belongs;
  }

  lemma {:induction false} TurnsAdvance(s: State, actions: seq<Action>, i: nat)
    requires i < |s.calls|
    ensures var t := RunFrom(s, actions);
      i < |t.calls| && (t.calls[i].phase.Done? || Rank(t.calls[i].phase) >= Turns(actions, i))
    decreases |actions|
  {
    if actions != [] {
      hide Section, AppendDelivery;
      var before, a := RunFrom(s, actions[..|actions| - 1]), actions[|actions| - 1];
      TurnsAdvance(s, actions[..|actions| - 1], i);
      if a.Proceed? && a.call == i { SectionAdvances(before.db, before.calls[i], a.eventId, a.fault); }
    }
  }

  /** Four turns end a call, whatever happens in between. */
  lemma FourTurnsEnd(s: State, actions: seq<Action>, i: nat)
    requires i < |s.calls| && Turns(actions, i) >= 4
    ensures i < |RunFrom(s, actions).calls| && RunFrom(s, actions).calls[i].phase.Done?
  {
    hide RunFrom, Turns;
    TurnsAdvance(s, actions, i);
  }

  // ---------- the recorder on its own ----------

  /** A call that nothing interrupts. */
  function Alone(db: Db, c: Call, eventId: Id): (Db, Call)
  {
    var (db1, c1) := Section(db, c, eventId, false);
    var (db2, c2) := Section(db1, c1, eventId, false);
    var (db3, c3) := Section(db2, c2, eventId, false);
    Section(db3, c3, eventId, false)
  }

  class TrustStateRecorder {
    var deliveries: map<Id, Delivery>
    var usages: seq<UsageRecord>
    var events: seq<Event>
    var ready: bool

    ghost function Now(): Db
      reads this
    {
      Db(deliveries, usages, events)
    }

    ghost predicate Valid()
      reads this
    {
      DbInv(Now())
    }

    constructor (ready: bool)
      ensures Valid() && Now() == EMPTY.db && this.ready == ready
    {
      deliveries, usages, events := map[], [], [];
      this.ready := ready;
    }

    method MarkReady()
      modifies this
      ensures ready && Now() == old(Now())
    {
      ready := true;
    }

    method RecordDelivery(d: Delivery, eventId: Id) returns (ok: bool)
      requires Valid()
      modifies this
      ensures Valid() && ready == old(ready)
      ensures ok <==> ready && AppendDelivery(old(Now()), d, eventId).Committed?
      ensures Now() == if ok then AppendDelivery(old(Now()), d, eventId).db else old(Now())
    {
      if !ready || d.deliveryId in deliveries || HasEvent(events, eventId) { return false; }
      DeliveryWritten(Now(), d, eventId);
      events := events + [DeliveryEvent(d, eventId)];
      deliveries := deliveries[d.deliveryId := DeliveryAsRead(d.(auditEventId := eventId))];
      ok := true;
    }

    /** One report with nothing in between: the run of its sections. */
    method RecordUsage(input: UsageRecord, expected: Expected, eventId: Id) returns (o: Outcome)
      requires Valid()
      modifies this
      ensures Valid() && ready == old(ready)
      ensures var call := Call(input, expected, if ready then Entered else Done(NotReady));
        var (db, c) := Alone(old(Now()), call, eventId);
        Now() == db && c.phase == Done(o)
    {
      hide ValidUsageProof, RelevantOf, AsRead, DbInv, HasEvent, CanCreate, FindUsage, Belongs;
      if !ready { return NotReady; }
      if input.deliveryId !in deliveries { return UnknownDelivery; }
      var d := deliveries[input.deliveryId];
      if !Belongs(d, expected) { return UnknownDelivery; }
      if !ValidUsageProof(input, d) { return InvalidProof; }
      var existing := FindUsage(usages, input.deliveryId);
      if existing.Some? { return RequireMatchingUsageReplay(existing.value, input); }
      if HasEvent(events, eventId) { return Failed; }
      var final := input.(auditEventId := eventId);
      if CanCreate(Db(deliveries, usages, events), final) {
        UsageWritten(Now(), input, eventId);
        events := events + [UsageEvent(input, d, eventId)];
        usages := usages + [AsRead(final)];
        return Recorded(final);
      }
      // Nothing came between the look-up and the write: the re-read still finds no row.
      o := Conflict;
    }
  }

  /** Alone, an admitted first report is recorded with its event; a later one gets the stored row
      exactly when it agrees with it. */
  lemma AloneExact(db: Db, c: Call, eventId: Id)
    requires DbInv(db) && Admitted(db, c) && c.phase == Entered && !HasEvent(db.events, eventId)
    ensures var (db', c') := Alone(db, c, eventId);
      var row := FindUsage(db.usages, c.input.deliveryId);
      if row.None? then
        && c'.phase == Done(Recorded(c.input.(auditEventId := eventId)))
        && FindUsage(db'.usages, c.input.deliveryId) == Some(AsRead(c.input.(auditEventId := eventId)))
        && db'.deliveries == db.deliveries
        && db'.events == db.events + [UsageEvent(c.input, db.deliveries[c.input.deliveryId], eventId)] && DbInv(db')
      else
        && db' == db
        && c'.phase == Done(if Agrees(row.value, c.input) then Replayed(row.value) else Conflict)
  {
    hide ValidUsageProof, RelevantOf, Agrees, AsRead, FindUsage, HasEvent, DbInv, Section, AppendUsage;
    var d := db.deliveries[c.input.deliveryId];
    SectionResolves(db, c, eventId);
    var checking := c.(phase := Checking(d));
    SectionChecks(db, checking, eventId);
    var row := FindUsage(db.usages, c.input.deliveryId);
    if row.Some? {
      var done := c.(phase := Done(RequireMatchingUsageReplay(row.value, c.input)));
      ReplayDecision(row.value, c.input);
      SectionRests(db, done, eventId);
    } else {
      var writing := c.(phase := Writing(d));
      if AppendUsage(db, c.input, d, eventId).RolledBack? {
        RefusedMeansRaced(db, c, d, eventId);
      } else {
        UsageWritten(db, c.input, eventId);
        AppendedEvent(db, c.input, d, eventId);
        SectionWrites(db, writing, eventId);
        SectionRests(AppendUsage(db, c.input, d, eventId).db,
          c.(phase := Done(Recorded(c.input.(auditEventId := eventId)))), eventId);
      }
    }
  }

  /** A later report is taken for a replay exactly when it agrees with the stored one, field by field,
      and then the stored one is returned. */
  lemma ReplayDecision(existing: UsageRecord, incoming: UsageRecord)
    ensures RequireMatchingUsageReplay(existing, incoming) ==
      if Agrees(existing, incoming) then Replayed(existing) else Conflict
  {
    hide RelevantOf, Agrees;
    AgreesExact(existing, incoming);
  }

  /** The delivery is of another workspace, agent or run than the caller expects. */
  ghost predicate Foreign(d: Delivery, x: Expected)
  {
    || (x.workspaceId.Some? && d.workspaceId != x.workspaceId)
    || (x.agentTarget.Some? && d.agentTarget != x.agentTarget.value)
    || (x.runId.Some? && d.runId != x.runId)
  }

  /** Alone, a report is refused as unknown exactly when there is no such delivery or it belongs
      elsewhere, and as invalid exactly when it is known and fails the checks; nothing is written. */
  lemma AloneRefuses(db: Db, c: Call, eventId: Id)
    requires c.phase == Entered
    ensures var (db', c') := Alone(db, c, eventId); var id := c.input.deliveryId;
      && (c'.phase == Done(UnknownDelivery) <==> id !in db.deliveries || Foreign(db.deliveries[id], c.expected))
      && (c'.phase == Done(InvalidProof) <==>
        id in db.deliveries && !Foreign(db.deliveries[id], c.expected) && !ValidUsageProof(c.input, db.deliveries[id]))
      && (c'.phase in {Done(UnknownDelivery), Done(InvalidProof)} ==> db' == db)
  {
    hide ValidUsageProof;
    var first := Section(db, c, eventId, false).1;
    assert first == c.(phase := Resolved(db, c));
    if first.phase.Done? {
      hide Section;
      SectionRests(db, first, eventId);
    } else {
      AcceptedNotRefused(db, first, eventId);
    }
  }

  ghost predicate Refused(p: Phase)
  {
    p == Done(UnknownDelivery) || p == Done(InvalidProof)
  }

  lemma PastChecks(db: Db, c: Call, eventId: Id)
    requires !c.phase.Entered? && !Refused(c.phase)
    ensures var c' := Section(db, c, eventId, false).1; !c'.phase.Entered? && !Refused(c'.phase)
  {
    hide FindUsage, HasEvent, AppendUsage, RelevantOf;
  }

  lemma AcceptedNotRefused(db: Db, c: Call, eventId: Id)
    requires !c.phase.Entered? && !Refused(c.phase)
    ensures var (db1, c1) := Section(db, c, eventId, false);
      var (db2, c2) := Section(db1, c1, eventId, false);
      !Refused(Section(db2, c2, eventId, false).1.phase)
  {
    hide Section, Refused;
    PastChecks(db, c, eventId);
    var (db1, c1) := Section(db, c, eventId, false);
    PastChecks(db1, c1, eventId);
    var (db2, c2) := Section(db1, c1, eventId, false);
    PastChecks(db2, c2, eventId);
  }

  /** A call made before the recorder is ready ends at once and never does anything. */
  lemma NotReadyRefused(s: State, input: UsageRecord, expected: Expected, eventId: Id, fault: bool)
    requires !s.ready
    ensures var t := Step(s, Enter(input, expected));
      && t.db == s.db && |t.calls| == |s.calls| + 1 && t.calls[|s.calls|].phase == Done(NotReady)
      && Step(t, Proceed(|s.calls|, eventId, fault)) == t
  {
  }

  /** A storage fault fails the call and leaves nothing behind. */
  lemma FaultLeavesNothing(db: Db, c: Call, eventId: Id)
    requires !c.phase.Done?
    ensures Section(db, c, eventId, true) == (db, c.(phase := Done(Failed)))
  {
  }

  lemma SectionResolves(db: Db, c: Call, eventId: Id)
    requires Admitted(db, c) && c.phase == Entered
    ensures Section(db, c, eventId, false) == (db, c.(phase := Checking(db.deliveries[c.input.deliveryId])))
  {
    hide ValidUsageProof, Belongs;
  }

  lemma SectionChecks(db: Db, c: Call, eventId: Id)
    requires c.phase.Checking?
    ensures var row := FindUsage(db.usages, c.input.deliveryId);
      Section(db, c, eventId, false) ==
        (db, c.(phase := if row.Some? then Done(RequireMatchingUsageReplay(row.value, c.input))
          else Writing(c.phase.delivery)))
  {
    hide FindUsage, RequireMatchingUsageReplay;
  }

  lemma SectionWrites(db: Db, c: Call, eventId: Id)
    requires c.phase.Writing? && !HasEvent(db.events, eventId) &&
      AppendUsage(db, c.input, c.phase.delivery, eventId).Committed?
    ensures Section(db, c, eventId, false) ==
      (AppendUsage(db, c.input, c.phase.delivery, eventId).db,
        c.(phase := Done(Recorded(c.input.(auditEventId := eventId)))))
  {
    hide AppendUsage, HasEvent;
  }

  lemma SectionRests(db: Db, c: Call, eventId: Id)
    requires c.phase.Done?
    ensures Section(db, c, eventId, false) == (db, c)
  {
  }

  lemma AppendedEvent(db: Db, r: UsageRecord, d: Delivery, eventId: Id)
    requires AppendUsage(db, r, d, eventId).Committed?
    ensures var db' := AppendUsage(db, r, d, eventId).db;
      db'.deliveries == db.deliveries && db'.events == db.events + [UsageEvent(r, d, eventId)]
  {
  }

  // ---------- the writer's report need not agree ----------

  const ANYONE: Expected := Expected(None, None, None)

  /** Two reports of the same objects with their ids in either order disagree, yet both succeed if
      the one out of order comes first: it is stored in order, where the other finds it. Their
      callers then hold different records. */
  lemma DisagreeingBothSucceed(db: Db, e: Id, f: Id)
    requires DbInv(db) && "d" in db.deliveries && FindUsage(db.usages, "d").None?
    requires db.deliveries["d"].objects == Some([LegacyIdentity("a"), LegacyIdentity("b")])
    requires !HasEvent(db.events, e) && !HasEvent(db.events, f) && e != f
    ensures var x, y := TwoEntries(["b", "a"]), TwoEntries(["a", "b"]);
      var (db1, c1) := Alone(db, Call(x, ANYONE, Entered), e);
      var (db2, c2) := Alone(db1, Call(y, ANYONE, Entered), f);
      && !Agrees(x, y)
      && Wrote(c1) && c2.phase.Done? && c2.phase.outcome.Replayed?
      && c1.phase.outcome.record != c2.phase.outcome.record
  {
    hide ValidUsageProof, AsRead, FindUsage, HasEvent, DbInv, Alone, RelevantOf, Agrees;
    var d := db.deliveries["d"];
    var x, y := TwoEntries(["b", "a"]), TwoEntries(["a", "b"]);
    BothOrders();
    TwoEntriesValid(d, ["b", "a"]);
    TwoEntriesValid(d, ["a", "b"]);
    AloneExact(db, Call(x, ANYONE, Entered), e);
    NotTheEvent(db.events, UsageEvent(x, d, e), f);
    var db1 := Alone(db, Call(x, ANYONE, Entered), e).0;
    AloneExact(db1, Call(y, ANYONE, Entered), f);
    OtherOrderStored(e);
  }

  lemma NotTheEvent(events: seq<Event>, e: Event, id: Id)
    requires !HasEvent(events, id) && e.id != id
    ensures !HasEvent(events + [e], id)
  {
  }

  lemma OtherOrderStored(e: Id)
    ensures var x, y := TwoEntries(["b", "a"]), TwoEntries(["a", "b"]);
      && !Agrees(x, y) && Agrees(AsRead(x.(auditEventId := e)), y)
      && AsRead(x.(auditEventId := e)) != x.(auditEventId := e)
  {
    hide Dedup, ObjectIds;
    BothOrders();
    TwoEntriesIds();
  }

  // ---------- a call on its own is a run ----------

  function Turn(i: nat, eventId: Id): Action
  {
    Proceed(i, eventId, false)
  }

  lemma RunTurn(s: State, actions: seq<Action>, i: nat, eventId: Id)
    requires var t := RunFrom(s, actions); i < |t.calls|
    ensures var t := RunFrom(s, actions); var (db, c) := Section(t.db, t.calls[i], eventId, false);
      RunFrom(s, actions + [Turn(i, eventId)]) == t.(db := db, calls := t.calls[i := c])
  {
    hide Section;
    assert (actions + [Turn(i, eventId)])[..|actions|] == actions;
  }

  /** What the recorder does alone is one of the runs the theorems are about. */
  lemma AloneIsARun(s: State, input: UsageRecord, expected: Expected, eventId: Id)
    requires s.ready
    ensures var i := |s.calls|; var turn := Turn(i, eventId);
      var (db, c) := Alone(s.db, Call(input, expected, Entered), eventId);
      RunFrom(s, [Enter(input, expected)] + [turn] + [turn] + [turn] + [turn]) == s.(db := db, calls := s.calls + [c])
  {
    hide Section;
    var i := |s.calls|;
    var turn := Turn(i, eventId);
    var a := [Enter(input, expected)];
    assert a[..0] == [];
    assert RunFrom(s, a) == s.(calls := s.calls + [Call(input, expected, Entered)]);
    hide RunFrom;
    RunTurn(s, a, i, eventId);
    RunTurn(s, a + [turn], i, eventId);
    RunTurn(s, a + [turn] + [turn], i, eventId);
    RunTurn(s, a + [turn] + [turn] + [turn], i, eventId);
  }
}

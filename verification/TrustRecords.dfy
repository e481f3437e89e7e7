/** Deliveries, usage reports, what a report may cite, and what a stored report reads back as. */
module TrustRecords {
  import opened Options

  type Id = string

  /** The fields of a target other than its kind, as its canonical text. */
  datatype Target = MemoryEntryTarget(fields: string) | SourceEvidenceTarget(fields: string)

  datatype Identity = Identity(objectId: Option<Id>, objectKind: Option<string>, target: Option<Target>)

  datatype AnchorRole = SourceAnchor | TargetAnchor

  datatype AnchorUsage = AnchorUsage(
    objectId: Option<Id>, objectKind: Option<string>, target: Option<Target>, role: AnchorRole)

  datatype Grain = ObjectGrain | OutputGrain | WitnessGrain | ActionGrain

  datatype Exposure = Exposed | Nonexposure | UnknownExposure

  datatype UsageReport = UsageReport(
    grain: Grain, exposure: Exposure, witnessId: Option<Id>, queryId: Option<Id>, snapshotId: Option<Id>,
    interpretationId: Option<Id>, asOf: Option<string>, other: string)

  datatype UsageState = Used | Skipped | NotApplicable

  datatype TrustMode = Manual | Automatic

  datatype Delivery = Delivery(
    deliveryId: Id, agentTarget: string, workspaceId: Option<Id>, runId: Option<Id>,
    objectIds: seq<Id>, objects: Option<seq<Identity>>, exposures: Option<seq<UsageReport>>,
    deliveredAt: string, auditEventId: Id)

  datatype UsageRecord = UsageRecord(
    deliveryId: Id, state: UsageState, objectIds: seq<Id>, objects: Option<seq<Identity>>,
    witnesses: Option<seq<UsageReport>>, anchors: Option<seq<AnchorUsage>>, trustMode: Option<TrustMode>,
    reason: Option<string>, reportedAt: string, auditEventId: Id)

  const MEMORY_ENTRY: string := "memory_entry"

  predicate SupportedKind(kind: string)
  {
    kind in {"memory_entry", "synthesis_capsule", "evidence_capsule", "source_evidence", "semantic_proof"}
  }

  // ---------- checking a report against its delivery ----------

  /** By target where both have one, else by object id. */
  predicate Matches(o: Identity, wanted: Identity)
  {
    if wanted.target.Some? && o.target.Some? then o.target == wanted.target
    else wanted.objectId.Some? && o.objectId == wanted.objectId
  }

  function MatchesIn(objects: seq<Identity>, wanted: Identity): (r: seq<Identity>)
    ensures forall o :: o in r <==> o in objects && Matches(o, wanted)
  {
    if objects == [] then []
    else
      assert objects == [objects[0]] + objects[1..];
      (if Matches(objects[0], wanted) then [objects[0]] else []) + MatchesIn(objects[1..], wanted)
  }

  predicate DeliveredIdentity(d: Delivery, wanted: Identity, legacyProof: bool)
  {
    && wanted.objectKind.Some? && SupportedKind(wanted.objectKind.value)
    && if d.objects.None? then
        wanted.objectKind.value == MEMORY_ENTRY && wanted.objectId.Some? && wanted.objectId.value in d.objectIds
      else
        var matches := MatchesIn(d.objects.value, wanted);
        if legacyProof then |matches| == 1 && matches[0].objectKind == Some(MEMORY_ENTRY)
        else exists o :: o in matches && o.objectKind == wanted.objectKind
  }

  function LegacyIdentity(id: Id): Identity
  {
    Identity(Some(id), Some(MEMORY_ENTRY), None)
  }

  function ProjectedIds(objects: seq<Identity>): set<Id>
  {
    set o | o in objects && o.objectId.Some? :: o.objectId.value
  }

  predicate IdProjectionMatches(r: UsageRecord)
    requires r.objects.Some?
  {
    (set id | id in r.objectIds) == ProjectedIds(r.objects.value)
  }

  predicate ValidUsedObjects(r: UsageRecord, d: Delivery)
  {
    if r.objects.None? then forall id :: id in r.objectIds ==> DeliveredIdentity(d, LegacyIdentity(id), true)
    else IdProjectionMatches(r) && forall o :: o in r.objects.value ==> DeliveredIdentity(d, o, false)
  }

  function AnchorIdentity(a: AnchorUsage): Identity
  {
    var kind :=
      if a.objectKind.Some? then a.objectKind.value
      else if a.target.Some? && a.target.value.SourceEvidenceTarget? then "source_evidence"
      else MEMORY_ENTRY;
    Identity(a.objectId, Some(kind), a.target)
  }

  datatype IdentityKey = TargetKey(target: Target) | ObjectKey(kind: string, id: Id)

  function IdentityKeys(i: Identity): set<IdentityKey>
  {
    (if i.target.Some? then {TargetKey(i.target.value)} else {})
    + (if i.objectId.Some? then {ObjectKey(if i.objectKind.Some? then i.objectKind.value
      else MEMORY_ENTRY, i.objectId.value)} else {})
  }

  predicate ReportedAsUsed(r: UsageRecord, key: IdentityKey)
  {
    if r.objects.Some? then exists o :: o in r.objects.value && key in IdentityKeys(o)
    else exists id :: id in r.objectIds && key in IdentityKeys(LegacyIdentity(id))
  }

  function Anchors(r: UsageRecord): seq<AnchorUsage>
  {
    if r.anchors.Some? then r.anchors.value else []
  }

  predicate ValidAnchors(r: UsageRecord, d: Delivery)
  {
    forall a :: a in Anchors(r) ==> (
      && DeliveredIdentity(d, AnchorIdentity(a), r.objects.None?)
      && (r.state.Used? ==> exists key :: key in IdentityKeys(AnchorIdentity(a)) && ReportedAsUsed(r, key)))
  }

  predicate SameEpoch(candidate: UsageReport, report: UsageReport)
  {
    && candidate.grain.WitnessGrain? && candidate.witnessId == report.witnessId && candidate.queryId == report.queryId
    && candidate.snapshotId == report.snapshotId && candidate.interpretationId == report.interpretationId
    && candidate.asOf == report.asOf
  }

  function FirstExposure(exposures: seq<UsageReport>, report: UsageReport): (r: Option<UsageReport>)
    ensures r.Some? ==> r.value in exposures && SameEpoch(r.value, report)
    ensures r.None? ==> forall e :: e in exposures ==> !SameEpoch(e, report)
  {
    if exposures == [] then None
    else if SameEpoch(exposures[0], report) then Some(exposures[0])
    else
      assert exposures == [exposures[0]] + exposures[1..];
      FirstExposure(exposures[1..], report)
  }

  function Witnesses(r: UsageRecord): seq<UsageReport>
  {
    if r.witnesses.Some? then r.witnesses.value else []
  }

  predicate ValidWitness(report: UsageReport, d: Delivery)
  {
    var first := FirstExposure(if d.exposures.Some? then d.exposures.value else [], report);
    report.grain.WitnessGrain? && first.Some? && (report.exposure.Exposed? ==> first.value.exposure.Exposed?)
  }

  predicate ValidUsageProof(r: UsageRecord, d: Delivery)
  {
    ValidUsedObjects(r, d) && ValidAnchors(r, d) && forall w :: w in Witnesses(r) ==> ValidWitness(w, d)
  }

  // ---------- storing and reading back ----------

  function ObjectIds(objects: seq<Identity>): seq<Id>
  {
    if objects == [] then []
    else
      var last := objects[|objects| - 1];
      ObjectIds(objects[..|objects| - 1]) + if last.objectId.Some? then [last.objectId.value] else []
  }

  /** First occurrences, in order. */
  function Dedup(ids: seq<Id>): (r: seq<Id>)
    ensures forall id :: id in r <==> id in ids
  {
    if ids == [] then []
    else
      var before := Dedup(ids[..|ids| - 1]);
      assert ids == ids[..|ids| - 1] + [ids[|ids| - 1]];
      if ids[|ids| - 1] in before then before else before + [ids[|ids| - 1]]
  }

  lemma {:induction false} ObjectIdsOf(objects: seq<Identity>, id: Id)
    ensures id in ObjectIds(objects) <==> exists o :: o in objects && o.objectId == Some(id)
    decreases |objects|
  {
    if objects != [] {
      var rest, last := objects[..|objects| - 1], objects[|objects| - 1];
      assert objects == rest + [last];
      ObjectIdsOf(rest, id);
    }
  }

  /** `r` takes from `ids` exactly the first occurrences, in order; `places` are their indices. */
  ghost predicate FirstsAt(ids: seq<Id>, r: seq<Id>, places: seq<int>)
  {
    && |places| == |r|
    && (forall i, j :: 0 <= i < j < |places| ==> places[i] < places[j])
    && (forall j :: 0 <= j < |places| ==> 0 <= places[j] < |ids| && r[j] == ids[places[j]])
    && (forall k :: 0 <= k < |ids| ==> (k in places <==> ids[k] !in ids[..k]))
  }

  lemma FirstsNext(ids: seq<Id>, r: seq<Id>, places: seq<int>, x: Id)
    requires FirstsAt(ids, r, places)
    ensures x in ids ==> FirstsAt(ids + [x], r, places)
    ensures x !in ids ==> FirstsAt(ids + [x], r + [x], places + [|ids|])
  {
    var more := ids + [x];
    forall k | 0 <= k < |more|
      ensures more[..k] == ids[..k] && (k < |ids| ==> more[k] == ids[k])
    {
    }
    assert ids[..|ids|] == ids;
    forall k | k in places
      ensures k < |ids|
    {
    }
  }

  lemma {:induction false} DedupFirsts(ids: seq<Id>) returns (places: seq<int>)
    ensures FirstsAt(ids, Dedup(ids), places)
    decreases |ids|
  {
    if ids == [] {
      places := [];
    } else {
      hide FirstsAt;
      var rest, last := ids[..|ids| - 1], ids[|ids| - 1];
      places := DedupFirsts(rest);
      FirstsNext(rest, Dedup(rest), places, last);
      assert ids == rest + [last];
      if last !in rest { places := places + [|rest|]; }
    }
  }

  /** One column holds the objects where there are any, else the ids; an empty list reads back as
      ids, and ids beside objects are derived from them. */
  function ObjectsAsRead(objects: Option<seq<Identity>>): Option<seq<Identity>>
  {
    if objects == Some([]) then None else objects
  }

  function IdsAsRead(ids: seq<Id>, objects: Option<seq<Identity>>): seq<Id>
  {
    if objects.None? then ids else Dedup(ObjectIds(objects.value))
  }

  /** The report as the usage table gives it back. */
  function AsRead(r: UsageRecord): UsageRecord
  {
    r.(objectIds := IdsAsRead(r.objectIds, r.objects), objects := ObjectsAsRead(r.objects),
       anchors := if r.anchors == Some([]) then None else r.anchors)
  }

  function DeliveryAsRead(d: Delivery): Delivery
  {
    d.(objectIds := IdsAsRead(d.objectIds, d.objects), objects := ObjectsAsRead(d.objects))
  }

  lemma AsReadAgain(r: UsageRecord)
    ensures AsRead(AsRead(r)) == AsRead(r)
  {
  }

  // ---------- comparing a report with the stored one ----------

  /** What two reports must agree on: everything but the report time and the audit event. */
  datatype Relevant = Relevant(
    deliveryId: Id, state: UsageState, objectIds: seq<Id>, objects: Option<seq<Identity>>,
    witnesses: Option<seq<UsageReport>>, anchors: Option<seq<AnchorUsage>>, trustMode: Option<TrustMode>,
      reason: Option<string>)

  function RelevantOf(r: UsageRecord): Relevant
  {
    Relevant(r.deliveryId, r.state, r.objectIds, r.objects, r.witnesses,
             if r.anchors.Some? && r.anchors.value != [] then r.anchors else None, r.trustMode, r.reason)
  }

  /** Two reports agree: the same delivery, state, ids, objects, witnesses, trust mode and reason, and
      the same anchors, where an empty anchor list is as good as none. */
  ghost predicate Agrees(a: UsageRecord, b: UsageRecord)
  {
    && a.deliveryId == b.deliveryId && a.state == b.state && a.objectIds == b.objectIds && a.objects == b.objects
    && a.witnesses == b.witnesses && a.trustMode == b.trustMode && a.reason == b.reason
    && (if a.anchors.Some? then a.anchors.value else []) == (if b.anchors.Some? then b.anchors.value else [])
  }

  /** What the code compares is exactly whether two reports agree. */
  lemma AgreesExact(a: UsageRecord, b: UsageRecord)
    ensures RelevantOf(a) == RelevantOf(b) <==> Agrees(a, b)
  {
  }

  lemma RelevantAsRead(a: UsageRecord, b: UsageRecord)
    requires RelevantOf(a) == RelevantOf(b)
    ensures RelevantOf(AsRead(a)) == RelevantOf(AsRead(b))
  {
  }

  /** Whether a report survives storage unchanged in what matters. */
  predicate ReadsBackAlike(r: UsageRecord)
  {
    r.objects.Some? ==> r.objects.value != [] && r.objectIds == Dedup(ObjectIds(r.objects.value))
  }

  /** Reporting once more exactly what was stored is accepted as a replay if and only if the report
      lists no objects, or lists some and names their ids in the same order without repeats. */
  lemma ReplayExact(r: UsageRecord)
    ensures Agrees(AsRead(r), r) <==> ReadsBackAlike(r)
    ensures RelevantOf(AsRead(r)) == RelevantOf(r) <==> ReadsBackAlike(r)
  {
  }

  /** A report reads back as itself, byte for byte, exactly when it also leaves out an empty anchor
      list. */
  lemma StoredAsIs(r: UsageRecord)
    ensures AsRead(r) == r <==> ReadsBackAlike(r) && r.anchors != Some([])
  {
  }

  lemma AuditIdIrrelevant(r: UsageRecord, eventId: Id)
    ensures RelevantOf(r.(auditEventId := eventId)) == RelevantOf(r)
    ensures ReadsBackAlike(r.(auditEventId := eventId)) <==> ReadsBackAlike(r)
    ensures AsRead(r.(auditEventId := eventId)) == AsRead(r).(auditEventId := eventId)
  {
  }

  function TwoEntries(ids: seq<Id>): UsageRecord
  {
    UsageRecord("d", Used, ids, Some([LegacyIdentity("a"), LegacyIdentity("b")]), None, None, None, None, "t", "f")
  }

  lemma DedupSnoc(ids: seq<Id>, id: Id)
    ensures Dedup(ids + [id]) == if id in ids then Dedup(ids) else Dedup(ids) + [id]
  {
    assert (ids + [id])[..|ids|] == ids;
  }

  lemma ObjectIdsSnoc(objects: seq<Identity>, id: Id)
    ensures ObjectIds(objects + [LegacyIdentity(id)]) == ObjectIds(objects) + [id]
  {
    assert (objects + [LegacyIdentity(id)])[..|objects|] == objects;
  }

  lemma TwoEntriesIds()
    ensures Dedup(ObjectIds([LegacyIdentity("a"), LegacyIdentity("b")])) == ["a", "b"]
  {
    assert "a"[0] != "b"[0];
    ObjectIdsSnoc([], "a");
    ObjectIdsSnoc([LegacyIdentity("a")], "b");
    DedupSnoc([], "a");
    DedupSnoc(["a"], "b");
    assert [] + [LegacyIdentity("a")] == [LegacyIdentity("a")] && [] + ["a"] == ["a"];
    assert [LegacyIdentity("a")] + [LegacyIdentity("b")] == [LegacyIdentity("a"), LegacyIdentity("b")];
    assert ["a"] + ["b"] == ["a", "b"];
    assert ObjectIds([]) == [] && Dedup([]) == [];
    hide ObjectIds, Dedup;
  }

  lemma TwoEntriesProjected()
    ensures ProjectedIds([LegacyIdentity("a"), LegacyIdentity("b")]) == {"a", "b"}
  {
    var a, b := LegacyIdentity("a"), LegacyIdentity("b");
    assert a in [a, b] && b in [a, b];
  }

  lemma EntryDelivered(d: Delivery, id: Id)
    requires d.objects.Some? && LegacyIdentity(id) in d.objects.value
    ensures DeliveredIdentity(d, LegacyIdentity(id), false)
  {
    assert LegacyIdentity(id) in MatchesIn(d.objects.value, LegacyIdentity(id));
    hide MatchesIn;
  }

  lemma TwoEntriesMatch(ids: seq<Id>)
    requires (set id | id in ids) == {"a", "b"}
    ensures IdProjectionMatches(TwoEntries(ids))
  {
    hide ProjectedIds;
    TwoEntriesProjected();
  }

  lemma TwoEntriesValid(d: Delivery, ids: seq<Id>)
    requires d.objects == Some([LegacyIdentity("a"), LegacyIdentity("b")]) && (set id | id in ids) == {"a", "b"}
    ensures ValidUsageProof(TwoEntries(ids), d)
  {
    TwoEntriesMatch(ids);
    EntryDelivered(d, "a");
    EntryDelivered(d, "b");
    hide DeliveredIdentity, IdProjectionMatches, ReportedAsUsed, IdentityKeys, ValidWitness, AnchorIdentity;
  }

  lemma BothOrders()
    ensures (set id | id in ["a", "b"]) == {"a", "b"} == (set id | id in ["b", "a"])
    ensures ["a", "b"] != ["b", "a"]
  {
    assert "a"[0] != "b"[0];
    assert ["a", "b"][0] != ["b", "a"][0];
  }

  /** A valid report whose own repetition is refused: its ids come in the other order. */
  lemma ReplayRefused(d: Delivery)
    requires d.objects == Some([LegacyIdentity("a"), LegacyIdentity("b")])
    ensures var r := TwoEntries(["b", "a"]); ValidUsageProof(r, d) && !Agrees(AsRead(r), r)
  {
    hide ValidUsageProof, Dedup, ObjectIds;
    BothOrders();
    TwoEntriesValid(d, ["b", "a"]);
    TwoEntriesIds();
  }

  // ---------- what a stored report cites ----------

  /** Two identities stand for one object: they have the same target, or one of them has none and they
      have the same object id. */
  ghost predicate SameObject(o: Identity, wanted: Identity)
  {
    || (o.target.Some? && wanted.target.Some? && o.target == wanted.target)
    || ((o.target.None? || wanted.target.None?) && o.objectId.Some? && wanted.objectId.Some? &&
      o.objectId == wanted.objectId)
  }

  /** The delivery contained this identity, under this kind. */
  ghost predicate Cites(d: Delivery, wanted: Identity)
  {
    if d.objects.None? then
      wanted.objectKind == Some(MEMORY_ENTRY) && wanted.objectId.Some? && wanted.objectId.value in d.objectIds
    else exists o :: o in d.objects.value && SameObject(o, wanted) && o.objectKind == wanted.objectKind
  }

  /** The delivery contained this identity as a memory entry, whatever kind is claimed for it. */
  ghost predicate CitesEntry(d: Delivery, wanted: Identity)
  {
    d.objects.Some? && exists o :: o in d.objects.value && SameObject(o, wanted) && o.objectKind == Some(MEMORY_ENTRY)
  }

  ghost predicate CitesWitness(d: Delivery, report: UsageReport)
  {
    && d.exposures.Some?
    && exists e ::
         && e in d.exposures.value && e.grain == report.grain == WitnessGrain && e.witnessId == report.witnessId
         && e.queryId == report.queryId && e.snapshotId == report.snapshotId
         && e.interpretationId == report.interpretationId && e.asOf == report.asOf
         && (report.exposure.Exposed? ==> e.exposure.Exposed?)
  }

  /** A report without objects that is not of the state "used" names a delivered memory entry under
      another kind. */
  ghost predicate Mislabels(r: UsageRecord, d: Delivery, a: AnchorUsage)
  {
    && r.objects.None? && !r.state.Used? && AnchorIdentity(a).objectKind != Some(MEMORY_ENTRY)
    && CitesEntry(d, AnchorIdentity(a))
  }

  /** Everything a report names was in the delivery, if only a mislabelled anchor as another kind. */
  ghost predicate CitesOnlyDelivered(r: UsageRecord, d: Delivery)
  {
    && (r.objects.Some? ==> forall o :: o in r.objects.value ==> Cites(d, o))
    && (forall id :: id in r.objectIds ==>
          if r.objects.None? then Cites(d, LegacyIdentity(id))
          else exists o :: o in r.objects.value && o.objectId == Some(id))
    && (forall a :: a in Anchors(r) ==> Cites(d, AnchorIdentity(a)) || Mislabels(r, d, a))
    && (forall w :: w in Witnesses(r) ==> CitesWitness(d, w))
  }

  /** An accepted identity is in the delivery under its own kind exactly when the proof lists
      objects or the kind is a memory entry; otherwise it is there as a memory entry. */
  lemma IdentityCited(d: Delivery, wanted: Identity, legacyProof: bool)
    requires DeliveredIdentity(d, wanted, legacyProof)
    ensures Cites(d, wanted) <==> !legacyProof || wanted.objectKind == Some(MEMORY_ENTRY)
    ensures !Cites(d, wanted) ==> CitesEntry(d, wanted)
  {
    if d.objects.Some? {
      var matches := MatchesIn(d.objects.value, wanted);
      if legacyProof { assert matches[0] in matches; }
    }
  }

  /** The kinds a report may name. */
  ghost predicate KnownKind(kind: Option<string>)
  {
    || kind == Some("memory_entry") || kind == Some("synthesis_capsule") || kind == Some("evidence_capsule")
    || kind == Some("source_evidence") || kind == Some("semantic_proof")
  }

  /** An identity of a report with objects is accepted exactly when its kind is known and the delivery
      contained it under that kind. */
  lemma AcceptedExactly(d: Delivery, wanted: Identity)
    ensures DeliveredIdentity(d, wanted, false) <==> KnownKind(wanted.objectKind) && Cites(d, wanted)
  {
    if d.objects.Some? && wanted.objectKind.Some? {
      var matches := MatchesIn(d.objects.value, wanted);
      assert forall o :: o in matches <==> o in d.objects.value && SameObject(o, wanted);
    }
  }

  /** What a report without objects may name: of a known kind, and a memory entry among the delivered
      ids or, if the delivery lists objects, the same as exactly one of them, which is a memory entry. */
  ghost predicate LegacyCites(d: Delivery, wanted: Identity)
  {
    && KnownKind(wanted.objectKind)
    && if d.objects.None? then
        wanted.objectKind == Some("memory_entry") && wanted.objectId.Some? && wanted.objectId.value in d.objectIds
      else exists i :: EntryOnlyAt(d.objects.value, wanted, i)
  }

  lemma LegacyAcceptedExactly(d: Delivery, wanted: Identity)
    ensures DeliveredIdentity(d, wanted, true) <==> LegacyCites(d, wanted)
  {
    if d.objects.Some? {
      var objects := d.objects.value;
      if DeliveredIdentity(d, wanted, true) {
        var i := OneMatchFound(objects, wanted);
        assert EntryOnlyAt(objects, wanted, i);
      }
      if i :| EntryOnlyAt(objects, wanted, i) { OneMatch(objects, wanted, i); }
    }
  }

  /** Exactly the object at `i` is the wanted one. */
  ghost predicate OnlyAt(objects: seq<Identity>, wanted: Identity, i: int)
  {
    0 <= i < |objects| && forall j :: 0 <= j < |objects| ==> (SameObject(objects[j], wanted) <==> j == i)
  }

  /** It is a memory entry. */
  ghost predicate EntryOnlyAt(objects: seq<Identity>, wanted: Identity, i: int)
  {
    OnlyAt(objects, wanted, i) && objects[i].objectKind == Some("memory_entry")
  }

  lemma NoMatch(objects: seq<Identity>, wanted: Identity)
    ensures MatchesIn(objects, wanted) == [] <==> forall j :: 0 <= j < |objects| ==> !SameObject(objects[j], wanted)
  {
    var m := MatchesIn(objects, wanted);
    hide MatchesIn;
    if m != [] {
      assert m[0] in m;
      var j :| 0 <= j < |objects| && objects[j] == m[0];
    }
    forall j | 0 <= j < |objects| && SameObject(objects[j], wanted)
      ensures m != []
    {
      assert objects[j] in m;
    }
  }

  lemma {:induction false} OneMatch(objects: seq<Identity>, wanted: Identity, i: int)
    requires OnlyAt(objects, wanted, i)
    ensures MatchesIn(objects, wanted) == [objects[i]]
    decreases |objects|
  {
    var rest := objects[1..];
    forall j | 0 <= j < |rest|
      ensures rest[j] == objects[j + 1]
    {
    }
    if i == 0 { NoMatch(rest, wanted); } else { OneMatch(rest, wanted, i - 1); }
  }

  lemma {:induction false} OneMatchFound(objects: seq<Identity>, wanted: Identity) returns (i: int)
    requires |MatchesIn(objects, wanted)| == 1
    ensures OnlyAt(objects, wanted, i) && MatchesIn(objects, wanted)[0] == objects[i]
    decreases |objects|
  {
    var rest := objects[1..];
    forall j | 0 <= j < |rest|
      ensures rest[j] == objects[j + 1]
    {
    }
    if Matches(objects[0], wanted) {
      NoMatch(rest, wanted);
      i := 0;
      assert forall j :: 0 < j < |objects| ==> objects[j] == rest[j - 1];
    } else {
      i := OneMatchFound(rest, wanted);
      i := i + 1;
      assert forall j :: 0 < j < |objects| ==> objects[j] == rest[j - 1];
    }
  }

  /** The same target, or the same id under the same kind, where a missing kind is memory entry. */
  ghost predicate UsedBy(o: Identity, anchor: Identity)
  {
    || (o.target.Some? && o.target == anchor.target)
    || (&& o.objectId.Some? && o.objectId == anchor.objectId
        && anchor.objectKind == Some(if o.objectKind.Some? then o.objectKind.value else "memory_entry"))
  }

  /** Every anchor of a valid report of the state "used" has the target, or the kind and id, of an
      object the report names as used. */
  lemma UsedAnchorsReported(r: UsageRecord, d: Delivery, a: AnchorUsage)
    requires ValidAnchors(r, d) && a in Anchors(r) && r.state.Used?
    ensures var i := AnchorIdentity(a);
      if r.objects.None? then i.objectKind == Some(MEMORY_ENTRY) && i.objectId.Some? && i.objectId.value in r.objectIds
      else exists o :: o in r.objects.value && UsedBy(o, i)
  {
    hide DeliveredIdentity;
    var key :| key in IdentityKeys(AnchorIdentity(a)) && ReportedAsUsed(r, key);
  }

  /** The identity an anchor names: its id and target, and its kind, which by default is source evidence
      for a source target and memory entry else. */
  ghost predicate Names(a: AnchorUsage, i: Identity)
  {
    && i.objectId == a.objectId && i.target == a.target
    && i.objectKind == Some(
         if a.objectKind.Some? then a.objectKind.value
         else match a.target
           case Some(SourceEvidenceTarget(_)) => "source_evidence"
           case _ => "memory_entry")
  }

  lemma AnchorNames(a: AnchorUsage)
    ensures Names(a, AnchorIdentity(a))
  {
  }

  /** What the checks demand of one anchor. */
  ghost predicate AnchorAllowed(r: UsageRecord, d: Delivery, i: Identity)
  {
    if r.objects.None? then
      && LegacyCites(d, i)
      && (r.state.Used? ==>
            i.objectKind == Some("memory_entry") && i.objectId.Some? && i.objectId.value in r.objectIds)
    else
      && KnownKind(i.objectKind) && Cites(d, i)
      && (r.state.Used? ==> exists o :: o in r.objects.value && UsedBy(o, i))
  }

  /** A report passes the checks exactly when its ids are those of its objects and all of these were
      delivered, or without objects all its ids were; every anchor is allowed; and every witness report
      meets the first exposure of its epoch, which is an exposed one if the report says so. */
  ghost predicate Passes(r: UsageRecord, d: Delivery)
  {
    && (if r.objects.None? then forall id :: id in r.objectIds ==> LegacyCites(d, LegacyIdentity(id))
        else
          && (forall id :: id in r.objectIds <==> exists o :: o in r.objects.value && o.objectId == Some(id))
          && (forall o :: o in r.objects.value ==> KnownKind(o.objectKind) && Cites(d, o)))
    && (forall a :: a in Anchors(r) ==> forall i :: Names(a, i) ==> AnchorAllowed(r, d, i))
    && (forall w :: w in Witnesses(r) ==>
          w.grain == WitnessGrain && d.exposures.Some? && FirstMeets(d.exposures.value, w))
  }

  ghost predicate SameWitness(e: UsageReport, w: UsageReport)
  {
    && e.grain == WitnessGrain && e.witnessId == w.witnessId && e.queryId == w.queryId && e.snapshotId == w.snapshotId
    && e.interpretationId == w.interpretationId && e.asOf == w.asOf
  }

  ghost predicate FirstMeets(exposures: seq<UsageReport>, w: UsageReport)
  {
    exists i :: 0 <= i < |exposures| && FirstWitness(exposures, w, i) &&
      (w.exposure == Exposed ==> exposures[i].exposure == Exposed)
  }

  ghost predicate FirstWitness(exposures: seq<UsageReport>, w: UsageReport, i: int)
    requires 0 <= i < |exposures|
  {
    SameWitness(exposures[i], w) && forall j :: 0 <= j < i ==> !SameWitness(exposures[j], w)
  }

  lemma {:induction false} FirstFound(exposures: seq<UsageReport>, w: UsageReport)
    ensures var f := FirstExposure(exposures, w);
      && (f.Some? ==> exists i :: 0 <= i < |exposures| && FirstWitness(exposures, w, i) && f.value == exposures[i])
      && (forall i :: 0 <= i < |exposures| && FirstWitness(exposures, w, i) ==> f == Some(exposures[i]))
    decreases |exposures|
  {
    if exposures != [] {
      var rest := exposures[1..];
      assert SameEpoch(exposures[0], w) <==> SameWitness(exposures[0], w);
      if SameEpoch(exposures[0], w) {
        assert FirstWitness(exposures, w, 0);
      } else {
        hide SameEpoch, SameWitness;
        FirstFound(rest, w);
        forall i | 0 <= i < |rest|
          ensures FirstWitness(rest, w, i) <==> FirstWitness(exposures, w, i + 1)
        {
          FirstShift(exposures, w, i);
        }
        forall i | 0 <= i < |exposures| && FirstWitness(exposures, w, i)
          ensures FirstExposure(exposures, w) == Some(exposures[i])
        {
          var k := i - 1;
          assert i > 0 && FirstWitness(rest, w, k) && rest[k] == exposures[i];
        }
        if i :| 0 <= i < |rest| && FirstWitness(rest, w, i) && FirstExposure(rest, w) == Some(rest[i]) {
          var k := i + 1;
          assert FirstWitness(exposures, w, k) && exposures[k] == rest[i];
        }
      }
    }
  }

  lemma FirstShift(exposures: seq<UsageReport>, w: UsageReport, i: int)
    requires 0 <= i < |exposures| - 1 && !SameWitness(exposures[0], w)
    ensures FirstWitness(exposures[1..], w, i) <==> FirstWitness(exposures, w, i + 1)
  {
    hide SameWitness;
    var rest := exposures[1..];
    assert forall j :: 0 <= j < |rest| ==> rest[j] == exposures[j + 1];
    if FirstWitness(rest, w, i) {
      forall j | 0 <= j < i + 1
        ensures !SameWitness(exposures[j], w)
      {
        var k := j - 1;
        assert j > 0 ==> exposures[j] == rest[k] && !SameWitness(rest[k], w);
      }
    }
    if FirstWitness(exposures, w, i + 1) {
      forall j | 0 <= j < i
        ensures !SameWitness(rest[j], w)
      {
        var k := j + 1;
        assert exposures[k] == rest[j];
      }
    }
  }

  lemma WitnessExactly(w: UsageReport, d: Delivery)
    ensures ValidWitness(w, d) <==> w.grain == WitnessGrain && d.exposures.Some? && FirstMeets(d.exposures.value, w)
  {
    hide FirstExposure, FirstWitness;
    FirstFound(if d.exposures.Some? then d.exposures.value else [], w);
  }

  lemma UsedExactly(r: UsageRecord, i: Identity)
    requires i.objectKind.Some?
    ensures (exists key :: key in IdentityKeys(i) && ReportedAsUsed(r, key)) <==>
      if r.objects.None? then i.objectKind == Some("memory_entry") && i.objectId.Some? &&
        i.objectId.value in r.objectIds
      else exists o :: o in r.objects.value && UsedBy(o, i)
  {
    if r.objects.Some? {
      if o :| o in r.objects.value && UsedBy(o, i) {
        var key := if o.target.Some? && o.target == i.target then TargetKey(i.target.value)
          else ObjectKey(i.objectKind.value, i.objectId.value);
        assert key in IdentityKeys(i) && key in IdentityKeys(o);
        assert ReportedAsUsed(r, key);
      }
    } else if i.objectKind == Some("memory_entry") && i.objectId.Some? && i.objectId.value in r.objectIds {
      var key := ObjectKey("memory_entry", i.objectId.value);
      assert key in IdentityKeys(i) && key in IdentityKeys(LegacyIdentity(i.objectId.value));
      assert ReportedAsUsed(r, key);
    }
  }

  ghost predicate AnchorChecked(r: UsageRecord, d: Delivery, i: Identity)
  {
    && DeliveredIdentity(d, i, r.objects.None?)
    && (r.state.Used? ==> exists key :: key in IdentityKeys(i) && ReportedAsUsed(r, key))
  }

  lemma AnchorExactly(r: UsageRecord, d: Delivery, i: Identity)
    requires i.objectKind.Some?
    ensures AnchorChecked(r, d, i) <==> AnchorAllowed(r, d, i)
  {
    hide DeliveredIdentity, Cites, LegacyCites, UsedBy, KnownKind, IdentityKeys, ReportedAsUsed;
    UsedExactly(r, i);
    AcceptedExactly(d, i);
    LegacyAcceptedExactly(d, i);
  }

  lemma ObjectsExactly(r: UsageRecord, d: Delivery)
    ensures ValidUsedObjects(r, d) <==>
      if r.objects.None? then forall id :: id in r.objectIds ==> LegacyCites(d, LegacyIdentity(id))
      else
        && (forall id :: id in r.objectIds <==> exists o :: o in r.objects.value && o.objectId == Some(id))
        && (forall o :: o in r.objects.value ==> KnownKind(o.objectKind) && Cites(d, o))
  {
    hide DeliveredIdentity, Cites, LegacyCites, KnownKind;
    forall i: Identity
      ensures DeliveredIdentity(d, i, false) <==> KnownKind(i.objectKind) && Cites(d, i)
      ensures DeliveredIdentity(d, i, true) <==> LegacyCites(d, i)
    {
      AcceptedExactly(d, i);
      LegacyAcceptedExactly(d, i);
    }
    if r.objects.Some? { ProjectionExactly(r); }
  }

  lemma ProjectionExactly(r: UsageRecord)
    requires r.objects.Some?
    ensures IdProjectionMatches(r) <==>
      forall id :: id in r.objectIds <==> exists o :: o in r.objects.value && o.objectId == Some(id)
  {
    var ids, projected := (set id | id in r.objectIds), ProjectedIds(r.objects.value);
    assert forall id :: id in ids <==> id in r.objectIds;
    assert forall id :: id in projected <==> exists o :: o in r.objects.value && o.objectId == Some(id);
  }

  /** The checks of a report against its delivery, in full. */
  lemma ValidExactly(r: UsageRecord, d: Delivery)
    ensures ValidUsageProof(r, d) <==> Passes(r, d)
  {
    ObjectsExactly(r, d);
    forall w
      ensures ValidWitness(w, d) <==> w.grain == WitnessGrain && d.exposures.Some? && FirstMeets(d.exposures.value, w)
    {
      WitnessExactly(w, d);
    }
    forall a
      ensures AnchorChecked(r, d, AnchorIdentity(a)) <==> forall i :: Names(a, i) ==> AnchorAllowed(r, d, i)
    {
      AnchorNames(a);
      AnchorExactly(r, d, AnchorIdentity(a));
    }
    assert ValidAnchors(r, d) <==> forall a :: a in Anchors(r) ==> AnchorChecked(r, d, AnchorIdentity(a));
    hide ValidUsedObjects, ValidAnchors, ValidWitness, AnchorChecked, AnchorAllowed, Names, FirstMeets, LegacyCites,
      Cites;
  }

  /** A used anchor without objects is one of the reported ids, so a memory entry. */
  lemma UsedAnchorKind(r: UsageRecord, a: AnchorUsage, key: IdentityKey)
    requires r.objects.None? && key in IdentityKeys(AnchorIdentity(a)) && ReportedAsUsed(r, key)
    ensures AnchorIdentity(a).objectKind == Some(MEMORY_ENTRY)
  {
  }

  /** An anchor of a valid report is in the delivery under its kind exactly when the report lists
      objects or the anchor's kind resolves to a memory entry. Otherwise the report is not of the
      state "used", and the delivery has the object as a memory entry. */
  lemma AnchorCited(r: UsageRecord, d: Delivery, a: AnchorUsage)
    requires ValidAnchors(r, d) && a in Anchors(r)
    ensures Cites(d, AnchorIdentity(a)) <==> r.objects.Some? || AnchorIdentity(a).objectKind == Some(MEMORY_ENTRY)
    ensures !Cites(d, AnchorIdentity(a)) ==> !r.state.Used? && CitesEntry(d, AnchorIdentity(a))
  {
    IdentityCited(d, AnchorIdentity(a), r.objects.None?);
    if r.objects.None? && r.state.Used? {
      var key :| key in IdentityKeys(AnchorIdentity(a)) && ReportedAsUsed(r, key);
      UsedAnchorKind(r, a, key);
    }
  }

  lemma IdsCited(r: UsageRecord, d: Delivery, id: Id)
    requires ValidUsedObjects(r, d) && id in AsRead(r).objectIds
    ensures if AsRead(r).objects.None? then Cites(d, LegacyIdentity(id))
      else exists o :: o in AsRead(r).objects.value && o.objectId == Some(id)
  {
    if r.objects.Some? {
      ObjectIdsOf(r.objects.value, id);
    } else {
      IdentityCited(d, LegacyIdentity(id), true);
    }
  }

  /** A report that passes the checks cites only what was delivered, also as it reads back. */
  lemma ValidCitesDelivered(r: UsageRecord, d: Delivery)
    requires ValidUsageProof(r, d)
    ensures CitesOnlyDelivered(AsRead(r), d)
  {
    var row := AsRead(r);
    if row.objects.Some? {
      forall o | o in row.objects.value
        ensures Cites(d, o)
      {
        IdentityCited(d, o, false);
      }
    }
    forall id | id in row.objectIds
      ensures if row.objects.None? then Cites(d, LegacyIdentity(id))
        else exists o :: o in row.objects.value && o.objectId == Some(id)
    {
      IdsCited(r, d, id);
    }
    forall a | a in Anchors(row)
      ensures Cites(d, AnchorIdentity(a)) || Mislabels(row, d, a)
    {
      AnchorCited(r, d, a);
    }
    forall w | w in Witnesses(row)
      ensures CitesWitness(d, w)
    {
      assert ValidWitness(w, d);
    }
    hide Cites, CitesEntry, CitesWitness;
  }

  /** The exception is real: a skipped report may name a delivered memory entry as a capsule. */
  lemma AnchorKindUnchecked()
    ensures var entry := Identity(Some("a"), Some(MEMORY_ENTRY), None);
      var d := Delivery("d", "agent", None, None, ["a"], Some([entry]), None, "t", "e");
      var anchor := AnchorUsage(Some("a"), Some("synthesis_capsule"), None, SourceAnchor);
      var r := UsageRecord("d", Skipped, [], None, None, Some([anchor]), None, None, "t", "f");
      ValidUsageProof(r, d) && !Cites(d, AnchorIdentity(anchor))
  {
    var entry := Identity(Some("a"), Some(MEMORY_ENTRY), None);
    var anchor := AnchorUsage(Some("a"), Some("synthesis_capsule"), None, SourceAnchor);
    var wanted := AnchorIdentity(anchor);
    assert MatchesIn([entry], wanted) == [entry] + MatchesIn([entry][1..], wanted);
    assert "synthesis_capsule"[0] != MEMORY_ENTRY[0];
  }
}

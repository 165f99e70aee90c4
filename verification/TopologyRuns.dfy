/** What the admin's edits mean for the parsed records, and what survives any run of them. */
module TopologyRuns {
  import opened Wrappers
  import opened RawRecords
  import opened RoomTopology
  import opened TopologyValidity
  import opened Actuators
  import opened TopologyEdits

  // ----- edits on raw lists refine edits on records

  datatype Records = Records(openings: seq<Opening>, connections: seq<Connection>, actuators: seq<Actuator>)

  function RecordsOf(options: Options): Records {
    Records(ParseOpenings(options), ParseConnections(options), ParseActuators(options))
  }

  function EditRecords(r: Records, e: Edit): Records {
    match e
    case SetRoomFields(_, _, _) => r
    case UpsertOpening(id, newId, room, kind, orientation, entity) =>
      r.(openings := Without(r.openings, OPENING_ID, IdOr(id, newId))
                     + [Opening(IdOr(id, newId), room, kind, orientation, NonEmpty(entity))])
    case DeleteOpening(id) =>
      r.(openings := Without(r.openings, OPENING_ID, id))
    case UpsertConnection(id, newId, opening, roomB, access, override) =>
      r.(connections := Without(r.connections, CONNECTION_ID, IdOr(id, newId))
                        + [Connection(IdOr(id, newId), opening, roomB, if access.Some? then access.value else "direct",
                             if override.Some? then ConnectionTypeNamed(override.value) else None)])
    case DeleteConnection(id) =>
      r.(connections := Without(r.connections, CONNECTION_ID, id))
    case UpsertActuator(id, newId, entity, room, opening, name) =>
      r.(actuators := Without(r.actuators, ACTUATOR_ID, IdOr(id, newId))
                      + [Actuator(IdOr(id, newId), entity, room, NonEmpty(opening), NonEmpty(name))])
    case DeleteActuator(id) =>
      r.(actuators := Without(r.actuators, ACTUATOR_ID, id))
  }

  lemma OpeningEntryDecodes(options: Options, e: Edit)
    requires e.UpsertOpening? && HasFreshId(e) && Attempt(options, e).Accepted?
    ensures Get(OpeningEntry(e), OpeningId) == IdOr(e.id, e.newId)
    ensures DecodeOpening(OpeningEntry(e))
         == Some(Opening(IdOr(e.id, e.newId), e.room, e.openingKind, e.orientation, NonEmpty(e.entity)))
  {
    hide IfTopologyAllows;
  }

  lemma ConnectionEntryDecodes(options: Options, e: Edit)
    requires e.UpsertConnection? && HasFreshId(e) && Attempt(options, e).Accepted?
    ensures Get(ConnectionEntry(e), ConnectionId) == IdOr(e.id, e.newId)
    ensures DecodeConnection(ConnectionEntry(e))
         == Some(Connection(IdOr(e.id, e.newId), e.opening, e.roomB, if e.access.Some? then e.access.value else "direct",
              if e.override.Some? then ConnectionTypeNamed(e.override.value) else None))
  {
    hide IfTopologyAllows;
  }

  lemma ActuatorEntryDecodes(options: Options, e: Edit)
    requires e.UpsertActuator? && HasFreshId(e) && Attempt(options, e).Accepted?
    ensures Get(ActuatorEntry(e), ActuatorId) == IdOr(e.id, e.newId)
    ensures DecodeActuator(ActuatorEntry(e))
         == Some(Actuator(IdOr(e.id, e.newId), e.actuatorEntity, e.room, NonEmpty(e.actuatorOpening), NonEmpty(e.name)))
  {
    hide IfActuatorsAllow;
  }

  /** An accepted edit of the raw lists, whatever duplicates and malformed entries they hold, is the
      plain edit of the parsed records. */
  lemma RawEditsRefineRecordEdits(options: Options, e: Edit)
    requires HasFreshId(e) && Attempt(options, e).Accepted?
    ensures RecordsOf(Attempt(options, e).options) == EditRecords(RecordsOf(options), e)
  {
    hide ValidateTopology, ValidateActuators, DecodeOpening, DecodeConnection, DecodeActuator, Parse, Without, WithoutEntries,
      OpeningEntry, ConnectionEntry, ActuatorEntry, DecodesId;
    DecodersTakeTheId();
    DecoderTakesTheId();
    match e {
      case SetRoomFields(_, _, _) =>
      case UpsertOpening(_, _, _, _, _, _) =>
        OpeningEntryDecodes(options, e);
        UpsertRefines(options.openings, DecodeOpening, OPENING_ID, OpeningId, OpeningEntry(e));
      case DeleteOpening(id) =>
        DeleteRefines(options.openings, DecodeOpening, OPENING_ID, OpeningId, id);
      case UpsertConnection(_, _, _, _, _, _) =>
        ConnectionEntryDecodes(options, e);
        UpsertRefines(options.connections, DecodeConnection, CONNECTION_ID, ConnectionId, ConnectionEntry(e));
      case DeleteConnection(id) =>
        DeleteRefines(options.connections, DecodeConnection, CONNECTION_ID, ConnectionId, id);
      case UpsertActuator(_, _, _, _, _, _) =>
        ActuatorEntryDecodes(options, e);
        UpsertRefines(options.actuators, DecodeActuator, ACTUATOR_ID, ActuatorId, ActuatorEntry(e));
      case DeleteActuator(id) =>
        DeleteRefines(options.actuators, DecodeActuator, ACTUATOR_ID, ActuatorId, id);
    }
  }

  // ----- the validator's guarantee over runs

  lemma ActuatorsDoNotMatter(options: Options, actuators: seq<Raw>)
    ensures IsErrorFree(options.(actuators := actuators)) <==> IsErrorFree(options)
  {
    assert ValidateTopology(options.(actuators := actuators)) == ValidateTopology(options);
  }

  lemma ErrorFreeIsKept(options: Options, e: Edit)
    requires IsErrorFree(options)
    ensures IsErrorFree(Next(options, e))
  {
    hide ValidateTopology, ValidateActuators, WithoutEntries, RoomsWithFields, IsOpeningReferenced, OpeningEntry, ConnectionEntry,
      ActuatorEntry, IsStored;
    var mutation := Attempt(options, e);
    if mutation.Accepted? {
      if e.UpsertActuator? || e.DeleteActuator? {
        ActuatorsDoNotMatter(options, mutation.options.actuators);
      } else {
        AllowedMeansErrorFree(mutation.options);
      }
    }
  }

  /** From an error-free topology no run of edits, accepted or refused, leads to one with errors. */
  lemma {:induction false} RunsStayErrorFree(options: Options, edits: seq<Edit>)
    requires IsErrorFree(options)
    ensures IsErrorFree(After(options, edits))
    decreases |edits|
  {
    hide ValidateTopology, Next;
    if edits != [] {
      ErrorFreeIsKept(options, edits[0]);
      RunsStayErrorFree(Next(options, edits[0]), edits[1..]);
    }
  }

  // ----- deleting openings

  predicate IsConnected(options: Options, opening: string) {
    exists c <- ParseConnections(options) :: c.opening == opening
  }

  lemma {:induction false} ResolveAllAgrees(rooms: map<string, Raw>, byId: map<string, Opening>, byId': map<string, Opening>,
                                            connections: seq<Connection>)
    requires forall c :: c in connections ==> ResolveOne(rooms, byId, c) == ResolveOne(rooms, byId', c)
    ensures ResolveAll(rooms, byId, connections) == ResolveAll(rooms, byId', connections)
  {
    if connections != [] {
      ResolveAllAgrees(rooms, byId, byId', connections[..|connections| - 1]);
    }
  }

  lemma FewerBoundaries(openings: seq<Opening>, openings': seq<Opening>, types: map<string, ConnectionType>,
                        types': map<string, ConnectionType>, entity: string)
    requires forall o :: o in openings' ==> o in openings
    requires forall id :: id in types' ==> id in types && types'[id] == types[id]
    ensures |BoundariesOf(openings', types', entity)| <= |BoundariesOf(openings, types, entity)|
  {
    var fewer, more := BoundariesOf(openings', types', entity), BoundariesOf(openings, types, entity);
    assert fewer <= more;
    SubsetIsNoLarger(fewer, more);
  }

  function WithoutOpening(options: Options, id: string): Options {
    options.(openings := WithoutEntries(options.openings, OpeningId, id))
  }

  lemma OpeningsWithout(options: Options, id: string)
    ensures forall o :: o in ParseOpenings(WithoutOpening(options, id)) <==> o in ParseOpenings(options) && o.id != id
  {
    hide Parse, Without, WithoutEntries, DecodeOpening, DecodeConnection;
    DecodersTakeTheId();
    DeleteRefines(options.openings, DecodeOpening, OPENING_ID, OpeningId, id);
    WithoutContains(ParseOpenings(options), OPENING_ID, id);
  }

  lemma RemainingLookups(options: Options, id: string, c: Connection)
    requires c.opening != id
    ensures c.opening in ById(options) <==> c.opening in ById(WithoutOpening(options, id))
    ensures c.opening in ById(options) ==> ById(options)[c.opening] == ById(WithoutOpening(options, id))[c.opening]
  {
    hide ParseOpenings, OpeningsById;
    var candidate := WithoutOpening(options, id);
    OpeningsWithout(options, id);
    LookupMeansParsed(options, c);
    LookupMeansParsed(candidate, c);
    if c.opening in ById(options) {
      assert IsOpeningOf(candidate, c, ById(options)[c.opening]);
    }
    if c.opening in ById(candidate) {
      assert IsOpeningOf(options, c, ById(candidate)[c.opening]);
    }
  }

  lemma UnconnectedOpeningsCanGo(options: Options, id: string)
    requires IsConsistent(options) && !IsConnected(options, id)
    ensures IsConsistent(WithoutOpening(options, id))
  {
    hide ParseOpenings, ParseConnections, RoomsById, OpeningsById, BoundariesOf, TypeByOpening, ResolveOne, WithoutEntries;
    var candidate := WithoutOpening(options, id);
    OpeningsWithout(options, id);
    assert ParseConnections(candidate) == ParseConnections(options) by { SameConnections(options, id); }
    forall c | c in ParseConnections(options)
      ensures ResolveOne(RoomsById(options.rooms), ById(options), c) == ResolveOne(RoomsById(options.rooms), ById(candidate), c)
      ensures exists o :: IsOpeningOf(candidate, c, o) && o.IsDoorLike()
    {
      RemainingLookups(options, id, c);
      SameResolution(RoomsById(options.rooms), ById(options), ById(candidate), c);
      var o :| IsOpeningOf(options, c, o) && o.IsDoorLike();
      assert IsOpeningOf(candidate, c, o);
    }
    ResolveAllAgrees(RoomsById(options.rooms), ById(options), ById(candidate), ParseConnections(options));
    var types := TypeByOpening(Resolved(options));
    forall e ensures |BoundariesOf(ParseOpenings(candidate), types, e)| <= 1 {
      FewerBoundaries(ParseOpenings(options), ParseOpenings(candidate), types, types, e);
    }
  }

  lemma SameConnections(options: Options, id: string)
    ensures ParseConnections(WithoutOpening(options, id)) == ParseConnections(options)
  {}

  lemma SameResolution(rooms: map<string, Raw>, byId: map<string, Opening>, byId': map<string, Opening>, c: Connection)
    requires c.opening in byId <==> c.opening in byId'
    requires c.opening in byId ==> byId[c.opening] == byId'[c.opening]
    ensures ResolveOne(rooms, byId, c) == ResolveOne(rooms, byId', c)
  {}

  /** From an error-free topology a stored opening can be deleted exactly when neither a connection
      nor an actuator refers to it. */
  lemma OpeningDeletionIsCharacterised(options: Options, id: string)
    requires IsErrorFree(options) && id != "" && IsStored(options.openings, OpeningId, id)
    ensures Attempt(options, DeleteOpening(id)).Accepted? <==> !IsConnected(options, id) && !IsOpeningReferenced(options, id)
  {
    hide ValidateTopology, ParseOpenings, ParseConnections, WithoutEntries;
    var candidate := WithoutOpening(options, id);
    AllowedMeansErrorFree(candidate);
    ErrorFreeMeansConsistent(options);
    ErrorFreeMeansConsistent(candidate);
    if IsConnected(options, id) {
      var c :| c in ParseConnections(options) && c.opening == id;
      SameConnections(options, id);
      OpeningsWithout(options, id);
      assert forall o :: !IsOpeningOf(candidate, c, o);
    } else {
      UnconnectedOpeningsCanGo(options, id);
    }
  }

  // ----- deleting connections

  function WithoutConnection(options: Options, id: string): Options {
    options.(connections := WithoutEntries(options.connections, ConnectionId, id))
  }

  lemma ConnectionsWithout(options: Options, id: string)
    ensures forall c :: c in ParseConnections(WithoutConnection(options, id)) <==> c in ParseConnections(options) && c.id != id
    ensures ParseOpenings(WithoutConnection(options, id)) == ParseOpenings(options)
  {
    hide Parse, Without, WithoutEntries, DecodeOpening, DecodeConnection;
    DecodersTakeTheId();
    DeleteRefines(options.connections, DecodeConnection, CONNECTION_ID, ConnectionId, id);
    WithoutContains(ParseConnections(options), CONNECTION_ID, id);
  }

  lemma ConsistentWithoutConnection(options: Options, id: string)
    requires IsConsistent(options)
    ensures var candidate := WithoutConnection(options, id);
            IsConsistent(candidate) <==>
            forall e :: |BoundariesOf(ParseOpenings(candidate), TypeByOpening(Resolved(candidate)), e)| <= 1
  {
    hide ParseOpenings, ParseConnections, WithoutEntries, BoundariesOf, TypeByOpening, Resolved, RoomsById;
    var candidate := WithoutConnection(options, id);
    ConnectionsWithout(options, id);
    var rooms := RoomsById(candidate.rooms);
    assert forall o <- ParseOpenings(candidate) :: o.room in rooms;
    forall c | c in ParseConnections(candidate)
      ensures (exists o :: IsOpeningOf(candidate, c, o) && o.IsDoorLike()) && (c.roomB == OUTSIDE || c.roomB in rooms)
    {
      var o :| IsOpeningOf(options, c, o) && o.IsDoorLike();
      assert IsOpeningOf(candidate, c, o);
    }
    if forall e :: |BoundariesOf(ParseOpenings(candidate), TypeByOpening(Resolved(candidate)), e)| <= 1 {
      assert IsConsistent(candidate);
    }
  }

  /** Deleting a connection can be refused only because it exposes a conflict at a shared entity. */
  lemma ConnectionDeletionFailsOnlyInConflict(options: Options, id: string)
    requires IsErrorFree(options) && id != "" && IsStored(options.connections, ConnectionId, id)
    ensures var candidate := WithoutConnection(options, id);
            Attempt(options, DeleteConnection(id)).Accepted? <==>
            (forall e :: |BoundariesOf(ParseOpenings(candidate), TypeByOpening(Resolved(candidate)), e)| <= 1)
  {
    hide ValidateTopology, ParseOpenings, ParseConnections, WithoutEntries, BoundariesOf, TypeByOpening, Resolved, RoomsById, IsConsistent;
    var candidate := WithoutConnection(options, id);
    AllowedMeansErrorFree(candidate);
    ErrorFreeMeansConsistent(options);
    ErrorFreeMeansConsistent(candidate);
    ConsistentWithoutConnection(options, id);
  }

  predicate HasOneConnectionPerOpening(options: Options) {
    forall c, d :: c in ParseConnections(options) && d in ParseConnections(options) && c.opening == d.opening ==> c == d
  }

  lemma {:induction false} TypesComeFromConnections(resolved: seq<ResolvedConnection>)
    ensures forall o :: o in TypeByOpening(resolved) ==>
      exists r :: r in resolved && r.connection.opening == o && r.kind == TypeByOpening(resolved)[o]
    ensures forall r :: r in resolved ==> r.connection.opening in TypeByOpening(resolved)
  {
    if resolved != [] {
      var init, last := resolved[..|resolved| - 1], resolved[|resolved| - 1];
      TypesComeFromConnections(init);
      assert forall r :: r in resolved <==> r in init || r == last;
    }
  }

  /** With one connection per opening every stored connection can be deleted: no conflict appears. */
  lemma ConnectionDeletionAlwaysSucceeds(options: Options, id: string)
    requires IsErrorFree(options) && id != "" && IsStored(options.connections, ConnectionId, id)
    requires HasOneConnectionPerOpening(options)
    ensures Attempt(options, DeleteConnection(id)).Accepted?
  {
    hide ValidateTopology, ParseOpenings, ParseConnections, WithoutEntries, BoundariesOf, ResolveAll, ResolveOne, OpeningsById, RoomsById,
      TypeByOpening;
    var candidate := WithoutConnection(options, id);
    ConnectionDeletionFailsOnlyInConflict(options, id);
    ConnectionsWithout(options, id);
    ErrorFreeMeansConsistent(options);
    ResolvedAre(RoomsById(options.rooms), ById(options), ParseConnections(options));
    ResolvedAre(RoomsById(options.rooms), ById(options), ParseConnections(candidate));
    var types, types' := TypeByOpening(Resolved(options)), TypeByOpening(Resolved(candidate));
    TypesComeFromConnections(Resolved(options));
    TypesComeFromConnections(Resolved(candidate));
    forall o | o in types' ensures o in types && types'[o] == types[o] {
      var r' :| r' in Resolved(candidate) && r'.connection.opening == o && r'.kind == types'[o];
      assert r' in Resolved(options);
      var r :| r in Resolved(options) && r.connection.opening == o && r.kind == types[o];
      assert r.connection == r'.connection;
    }
    forall e ensures |BoundariesOf(ParseOpenings(candidate), types', e)| <= 1 {
      FewerBoundaries(ParseOpenings(options), ParseOpenings(candidate), types, types', e);
    }
  }

  // ----- actuators

  /** The only fault that blocks an actuator edit: an opening that belongs to another room. */
  ghost predicate StandsInOtherRoom(options: Options, a: Actuator) {
    a in ParseActuators(options) && a.opening.Some?
    && exists o :: o in ParseOpenings(options) && o.id == a.opening.value && o.room != a.room
  }

  lemma {:induction false} NoActuatorErrors(issues: seq<ActuatorIssue>)
    ensures ActuatorErrors(issues) == [] <==> forall issue :: issue in issues ==> !IsActuatorError(issue)
  {
    if issues != [] {
      var init, last := issues[..|issues| - 1], issues[|issues| - 1];
      NoActuatorErrors(init);
      assert forall issue :: issue in issues <==> issue in init || issue == last;
    }
  }

  lemma {:induction false} OwnActuatorIssuesAre(rooms: map<string, Raw>, byId: map<string, Opening>, actuators: seq<Actuator>)
    ensures forall issue :: issue in OwnActuatorIssues(rooms, byId, actuators) <==>
      exists a :: a in actuators && issue in ActuatorIssuesOf(rooms, byId, a)
  {
    if actuators != [] {
      var init, last := actuators[..|actuators| - 1], actuators[|actuators| - 1];
      OwnActuatorIssuesAre(rooms, byId, init);
      assert forall a :: a in actuators <==> a in init || a == last;
    }
  }

  lemma {:induction false} SharedEntitiesAreWarnings(actuators: seq<Actuator>, entities: seq<string>)
    ensures forall issue :: issue in SharedEntityIssues(actuators, entities) ==> !IsActuatorError(issue)
  {
    if entities != [] {
      SharedEntitiesAreWarnings(actuators, entities[..|entities| - 1]);
    }
  }

  lemma ActuatorErrorMeansOtherRoom(options: Options, a: Actuator)
    requires a in ParseActuators(options)
    ensures (exists issue :: issue in ActuatorIssuesOf(RoomsById(options.rooms), ById(options), a) && IsActuatorError(issue))
      <==> StandsInOtherRoom(options, a)
  {
    hide ParseOpenings, ParseActuators, OpeningsById, RoomsById;
    var byId, issues := ById(options), ActuatorIssuesOf(RoomsById(options.rooms), ById(options), a);
    if a.opening.Some? {
      var c := Connection("", a.opening.value, "", "", None);
      LookupMeansParsed(options, c);
      if c.opening in byId {
        assert IsOpeningOf(options, c, byId[c.opening]);
      }
      forall o | o in ParseOpenings(options) && o.id == a.opening.value ensures c.opening in byId && byId[c.opening] == o {
        assert IsOpeningOf(options, c, o);
      }
      if StandsInOtherRoom(options, a) {
        assert ActuatorInOtherRoom(a.id) in issues;
      }
    }
  }

  /** An actuator edit passes validation exactly when no actuator's opening belongs to another room. */
  lemma ActuatorEditsAllowed(candidate: Options)
    ensures IfActuatorsAllow(candidate).Accepted? <==> forall a :: !StandsInOtherRoom(candidate, a)
  {
    hide ParseOpenings, ParseActuators, OpeningsById, RoomsById, ActuatorIssuesOf, StandsInOtherRoom;
    var rooms, byId, actuators := RoomsById(candidate.rooms), ById(candidate), ParseActuators(candidate);
    var own, shared := OwnActuatorIssues(rooms, byId, actuators), SharedEntityIssues(actuators, FirstOccurrences(ActuatorEntities(actuators)));
    NoActuatorErrors(ValidateActuators(candidate));
    OwnActuatorIssuesAre(rooms, byId, actuators);
    SharedEntitiesAreWarnings(actuators, FirstOccurrences(ActuatorEntities(actuators)));
    assert ValidateActuators(candidate) == own + shared;
    assert forall issue :: issue in own + shared <==> issue in own || issue in shared;
    forall a ensures StandsInOtherRoom(candidate, a) <==>
      a in actuators && exists issue :: issue in ActuatorIssuesOf(rooms, byId, a) && IsActuatorError(issue)
    {
      if a in actuators {
        ActuatorErrorMeansOtherRoom(candidate, a);
      } else {
        OtherRoomNeedsStored(candidate, a);
      }
    }
  }

  lemma OtherRoomNeedsStored(options: Options, a: Actuator)
    ensures StandsInOtherRoom(options, a) ==> a in ParseActuators(options)
  {}

  /** Actuator `a` is stored, and the opening it refers to exists. */
  predicate ReferenceResolves(options: Options, a: Actuator) {
    a in ParseActuators(options) && a.opening.Some? && exists o <- ParseOpenings(options) :: o.id == a.opening.value
  }

  /** The edit rewrites or deletes the actuator itself. */
  predicate Rewrites(e: Edit, actuator: string) {
    (e.UpsertActuator? && IdOr(e.id, e.newId) == actuator) || e == DeleteActuator(actuator)
  }

  lemma ReferenceSurvivesStep(options: Options, e: Edit, a: Actuator)
    requires ReferenceResolves(options, a) && HasFreshId(e) && !Rewrites(e, a.id)
    ensures ReferenceResolves(Next(options, e), a)
  {
    hide ParseOpenings, ParseConnections, ParseActuators, Without, IfTopologyAllows, IfActuatorsAllow, IsOpeningReferenced;
    var mutation := Attempt(options, e);
    if mutation.Accepted? {
      RawEditsRefineRecordEdits(options, e);
      var o :| o in ParseOpenings(options) && o.id == a.opening.value;
      if e.UpsertActuator? || e.DeleteActuator? {
        WithoutContains(ParseActuators(options), ACTUATOR_ID, if e.UpsertActuator? then IdOr(e.id, e.newId) else e.id);
        assert a in ParseActuators(mutation.options);
      } else if e.UpsertOpening? || e.DeleteOpening? {
        var id := if e.UpsertOpening? then IdOr(e.id, e.newId) else e.id;
        WithoutContains(ParseOpenings(options), OPENING_ID, id);
        if o.id == id {
          ReferencedOpeningsStay(options, e, a);
          var last := ParseOpenings(mutation.options)[|ParseOpenings(mutation.options)| - 1];
          assert last in ParseOpenings(mutation.options) && last.id == id;
        } else {
          assert o in ParseOpenings(mutation.options);
        }
      }
    }
  }

  lemma ReferencedOpeningsStay(options: Options, e: Edit, a: Actuator)
    requires a in ParseActuators(options) && a.opening.Some?
    requires Attempt(options, e).Accepted?
    ensures e.DeleteOpening? ==> e.id != a.opening.value
  {}

  /** Over any run of edits of rooms, openings, connections and actuators, an actuator's reference to
      its opening keeps resolving until that actuator is itself rewritten or deleted. */
  lemma {:induction false} ActuatorReferencesSurvive(options: Options, edits: seq<Edit>, a: Actuator)
    requires ReferenceResolves(options, a)
    requires forall i :: 0 <= i < |edits| ==> HasFreshId(edits[i]) && !Rewrites(edits[i], a.id)
    ensures ReferenceResolves(After(options, edits), a)
    decreases |edits|
  {
    hide Next, ReferenceResolves;
    if edits != [] {
      ReferenceSurvivesStep(options, edits[0], a);
      ActuatorReferencesSurvive(Next(options, edits[0]), edits[1..], a);
    }
  }
}

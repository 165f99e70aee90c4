/** The graph, the report and the edits, said on the stored texts. */
module TopologyMeaning {
  import opened Wrappers
  import opened RawRecords
  import opened RoomTopology
  import opened TopologyValidity
  import opened Actuators
  import opened TopologyEdits
  import opened TopologyRuns

  // ----- decoding

  /** A stored entry is an opening if it has an id, a room and a kind; unknown orientations are dropped. */
  lemma OpeningEntriesDecode(raw: Raw)
    ensures DecodeOpening(raw).Some? <==>
      raw.Dict? && Get(raw, OpeningId) != "" && Get(raw, RoomId) != "" && Get(raw, OpeningKind) in {"door", "window", "door_window"}
    ensures DecodeOpening(raw).Some? ==>
      var o := DecodeOpening(raw).value;
      && o.id == Get(raw, OpeningId) && o.room == Get(raw, RoomId) && o.kind == Get(raw, OpeningKind)
      && (o.orientation.Some? <==> Get(raw, Orientation) in {"north", "northeast", "east", "southeast", "south", "southwest", "west",
                                                             "northwest"})
      && (o.orientation.Some? ==> o.orientation.value == Get(raw, Orientation))
      && (if Get(raw, EntityId) == "" then o.entity.None? else o.entity == Some(Get(raw, EntityId)))
  {}

  /** A connection needs an id, an opening and another room; unknown ways of access are direct, and
      unknown overrides are none. */
  lemma ConnectionEntriesDecode(raw: Raw)
    ensures DecodeConnection(raw).Some? <==>
      raw.Dict? && Get(raw, ConnectionId) != "" && Get(raw, OpeningId) != "" && Get(raw, RoomB) != ""
    ensures DecodeConnection(raw).Some? ==>
      var c, access, override := DecodeConnection(raw).value, Get(raw, AccessType), Get(raw, ConnectionTypeOverride);
      && c.id == Get(raw, ConnectionId) && c.opening == Get(raw, OpeningId) && c.roomB == Get(raw, RoomB)
      && c.access == (if access == "stairs" || access == "elevator" then access else "direct")
      && (c.override == Some(IndoorConnection) <==> override == "indoor")
      && (c.override == Some(OutdoorConnection) <==> override == "outdoor")
      && (c.override == Some(SeparateConnection) <==> override == "separate")
  {
    WordsDiffer();
  }

  lemma WordsDiffer()
    ensures "indoor" != "outdoor" && "indoor" != "separate" && "outdoor" != "separate"
    ensures "direct" != "stairs" && "direct" != "elevator"
  {
    assert |"indoor"| == 6 && |"outdoor"| == 7 && |"separate"| == 8 && |"direct"| == 6 && |"stairs"| == 6 && |"elevator"| == 8;
    assert "direct"[0] != "stairs"[0];
  }

  lemma ActuatorEntriesDecode(raw: Raw)
    ensures DecodeActuator(raw).Some? <==>
      raw.Dict? && Get(raw, ActuatorId) != "" && Get(raw, EntityId) != "" && Get(raw, RoomId) != ""
    ensures DecodeActuator(raw).Some? ==>
      var a := DecodeActuator(raw).value;
      && a.id == Get(raw, ActuatorId) && a.entity == Get(raw, EntityId) && a.room == Get(raw, RoomId)
      && (if Get(raw, OpeningId) == "" then a.opening.None? else a.opening == Some(Get(raw, OpeningId)))
      && (if Get(raw, DisplayName) == "" then a.name.None? else a.name == Some(Get(raw, DisplayName)))
  {}

  // ----- the graph

  /** The room type as it is stored. */
  function TypeText(rooms: map<string, Raw>, room: string): string {
    if room in rooms then Get(rooms[room], RoomKind) else ""
  }

  predicate IsApart(text: string) {
    text in {"external", "garage", "basement"}
  }

  predicate IsOutside(text: string) {
    text in {"balcony", "outdoor"}
  }

  lemma TypesOfTexts(room: Raw)
    ensures RoomTypeOf(room) in {External, Garage, Basement} <==> IsApart(Get(room, RoomKind))
    ensures RoomTypeOf(room) in {Balcony, Outdoor} <==> IsOutside(Get(room, RoomKind))
    ensures RoomTypeOf(room) in {Garage, Basement, Outdoor, External} <==> Get(room, RoomKind) in {"garage", "basement", "outdoor", "external"}
  {
    assert |"indoor"| == 6 && |"balcony"| == 7 && |"garage"| == 6 && |"basement"| == 8 && |"outdoor"| == 7 && |"external"| == 8
        && |"transit"| == 7;
    assert "indoor"[0] != "garage"[0] && "balcony"[0] != "outdoor"[0] && "balcony"[0] != "transit"[0] && "outdoor"[0] != "transit"[0]
        && "basement"[0] != "external"[0];
  }

  /** A connection of the graph goes from the room of its opening, which is a door, and its boundary
      is the override; or separate when it leads outside or a side is a garage, a basement or
      external; or else outdoor when a side is a balcony or outdoors; or else indoor. */
  lemma ConnectionsOfTheGraph(options: Options, r: ResolvedConnection)
    requires r in BuildGraph(options).connections
    ensures r.connection in ParseConnections(options)
    ensures exists o :: && IsOpeningOf(options, r.connection, o) && o.kind in {"door", "door_window"} && o.room == r.roomA
    ensures r.roomA in RoomsById(options.rooms)
    ensures r.connection.roomB == "outside" || r.connection.roomB in RoomsById(options.rooms)
    ensures var rooms, c := RoomsById(options.rooms), r.connection;
            if c.override.Some? then r.kind == c.override.value
            else if c.roomB == "outside" || IsApart(TypeText(rooms, r.roomA)) || IsApart(TypeText(rooms, c.roomB)) then
              r.kind == SeparateConnection
            else if IsOutside(TypeText(rooms, r.roomA)) || IsOutside(TypeText(rooms, c.roomB)) then r.kind == OutdoorConnection
            else r.kind == IndoorConnection
  {
    hide ParseOpenings, ParseConnections, RoomsById, OpeningsById, RoomTypeOf, Exposure;
    var rooms, byId := RoomsById(options.rooms), ById(options);
    ResolvedAre(rooms, byId, ParseConnections(options));
    LookupMeansParsed(options, r.connection);
    assert ResolveOne(rooms, byId, r.connection) == Some(r);
    TypesOfTexts(rooms[r.roomA]);
    if r.connection.roomB != OUTSIDE {
      TypesOfTexts(rooms[r.connection.roomB]);
    }
  }

  /** A room is exposed to a direction exactly when it has a window that way. */
  lemma ExposureOfRooms(options: Options, room: string, direction: string)
    ensures BuildGraph(options).exposure.Keys == RoomsById(options.rooms).Keys
    ensures room in RoomsById(options.rooms) ==>
      (direction in BuildGraph(options).exposure[room] <==>
         exists o :: o in ParseOpenings(options) && o.room == room && o.kind in {"window", "door_window"} && o.orientation == Some(direction))
  {
    hide ParseOpenings, ParseConnections, RoomsById, ResolveAll, OpeningsById;
  }

  /** A room is warned about exactly if topology has been declared, it is not stored as a garage, a
      basement, outdoor or external, and it is at neither end of any connection of the graph. */
  lemma IsolationOnTexts(options: Options, room: string)
    ensures RoomIsolated(room) in ValidateTopology(options) <==>
      && (ParseOpenings(options) != [] || ParseConnections(options) != [])
      && room in RoomsById(options.rooms)
      && TypeText(RoomsById(options.rooms), room) !in {"garage", "basement", "outdoor", "external"}
      && forall r :: r in BuildGraph(options).connections ==> r.roomA != room && (r.connection.roomB != room || room == "outside")
  {
    hide ValidateTopology, RoomsById, BuildGraph, RoomTypeOf, ParseOpenings, ParseConnections;
    IsolationIsWarranted(options, room);
    if room in RoomsById(options.rooms) {
      TypesOfTexts(RoomsById(options.rooms)[room]);
    }
  }

  // ----- entities at several openings

  /** The boundary of an opening is that of the last connection resolved through it. */
  lemma {:induction false} BoundaryIsOfTheLast(resolved: seq<ResolvedConnection>, i: nat)
    requires i < |resolved|
    requires forall k :: i < k < |resolved| ==> resolved[k].connection.opening != resolved[i].connection.opening
    ensures resolved[i].connection.opening in TypeByOpening(resolved)
    ensures TypeByOpening(resolved)[resolved[i].connection.opening] == resolved[i].kind
  {
    if i < |resolved| - 1 {
      BoundaryIsOfTheLast(resolved[..|resolved| - 1], i);
    }
  }

  lemma SeveralMeansTwo<T>(s: set<T>)
    ensures |s| > 1 <==> exists x, y :: x in s && y in s && x != y
  {
    if |s| > 1 {
      var x :| x in s;
      assert |s - {x}| > 0;
      var y :| y in s - {x};
    }
    if x, y :| x in s && y in s && x != y {
      assert |s - {x}| == |s| - 1 && y in s - {x};
    }
  }

  /** Opening `o` of the entity has boundary `kind`. */
  predicate HasBoundary(openings: seq<Opening>, types: map<string, ConnectionType>, entity: string, o: Opening, kind: ConnectionType) {
    o in openings && o.entity == Some(entity) && o.id in types && types[o.id] == kind
  }

  lemma BoundaryHasOpening(openings: seq<Opening>, types: map<string, ConnectionType>, entity: string, kind: ConnectionType)
    ensures kind in BoundariesOf(openings, types, entity) <==> exists o :: HasBoundary(openings, types, entity, o, kind)
  {
    if o :| HasBoundary(openings, types, entity, o, kind) {
      assert o.id in OpeningsOf(openings, entity);
    }
    if kind in BoundariesOf(openings, types, entity) {
      var id :| id in OpeningsOf(openings, entity) && id in types && types[id] == kind;
      var o :| o in openings && o.entity == Some(entity) && o.id == id;
      assert HasBoundary(openings, types, entity, o, kind);
    }
  }

  /** Two openings of the entity have boundaries that differ. */
  ghost predicate GuardsTwoBoundaries(openings: seq<Opening>, types: map<string, ConnectionType>, entity: string) {
    exists o, p, x, y :: HasBoundary(openings, types, entity, o, x) && HasBoundary(openings, types, entity, p, y) && x != y
  }

  lemma SeveralBoundariesAreTwo(openings: seq<Opening>, types: map<string, ConnectionType>, entity: string)
    ensures |BoundariesOf(openings, types, entity)| > 1 <==> GuardsTwoBoundaries(openings, types, entity)
  {
    hide BoundariesOf, HasBoundary;
    var boundaries := BoundariesOf(openings, types, entity);
    SeveralMeansTwo(boundaries);
    if |boundaries| > 1 {
      var x, y :| x in boundaries && y in boundaries && x != y;
      BoundaryHasOpening(openings, types, entity, x);
      BoundaryHasOpening(openings, types, entity, y);
    }
    if o, p, x, y :| HasBoundary(openings, types, entity, o, x) && HasBoundary(openings, types, entity, p, y) && x != y {
      BoundaryHasOpening(openings, types, entity, x);
      BoundaryHasOpening(openings, types, entity, y);
    }
  }

  /** An entity is in conflict exactly when two of its openings have boundaries that differ. */
  lemma ConflictMeansTwoBoundaries(options: Options, entity: string)
    ensures EntitySharedInConflict(entity) in ValidateTopology(options) <==>
      GuardsTwoBoundaries(ParseOpenings(options), TypeByOpening(Resolved(options)), entity)
  {
    hide ValidateTopology, ParseOpenings, Resolved, TypeByOpening, BoundariesOf, GuardsTwoBoundaries;
    ErrorsAreFaults(options, EntitySharedInConflict(entity));
    SeveralBoundariesAreTwo(ParseOpenings(options), TypeByOpening(Resolved(options)), entity);
  }

  lemma {:induction false} SharedIssuesAre(openings: seq<Opening>, types: map<string, ConnectionType>, entities: seq<string>, entity: string)
    ensures EntityShared(entity) in EntityIssues(openings, types, entities) <==>
      entity in entities && |OpeningsOf(openings, entity)| >= 2 && |BoundariesOf(openings, types, entity)| <= 1
  {
    hide OpeningsOf, BoundariesOf;
    if entities != [] {
      var init, last := entities[..|entities| - 1], entities[|entities| - 1];
      SharedIssuesAre(openings, types, init, entity);
      assert entity in entities <==> entity in init || entity == last;
    }
  }

  /** Several openings of one entity without conflict are warned about, and nothing else is so. */
  lemma SharingIsWarnedAbout(options: Options, entity: string)
    ensures EntityShared(entity) in ValidateTopology(options) <==>
      && |OpeningsOf(ParseOpenings(options), entity)| >= 2
      && EntitySharedInConflict(entity) !in ValidateTopology(options)
  {
    hide ParseOpenings, ParseConnections, TypeByOpening, ResolveAll, OpeningsById, RoomsById, OpeningIssues, ConnectionIssues,
      IsolationIssues, EntityIssues, FirstOccurrences, EntitiesIn, RoomIdsIn, OpeningsOf, BoundariesOf;
    var rooms, openings, connections := RoomsById(options.rooms), ParseOpenings(options), ParseConnections(options);
    var types := TypeByOpening(Resolved(options));
    var entities, ids := FirstOccurrences(EntitiesIn(openings)), FirstOccurrences(RoomIdsIn(options.rooms));
    var ofRooms := if openings == [] && connections == [] then [] else IsolationIssues(rooms, Resolved(options), ids);
    OpeningIssuesAre(rooms, openings);
    IsolationIssuesAreWarnings(rooms, Resolved(options), ids);
    if EntityShared(entity) in ConnectionIssues(rooms, ById(options), connections) {
      OnlyConnectionIssues(rooms, ById(options), connections, EntityShared(entity));
    }
    InOneOfFour(OpeningIssues(rooms, openings), ConnectionIssues(rooms, ById(options), connections), ofRooms,
      EntityIssues(openings, types, entities), EntityShared(entity));
    SharedIssuesAre(openings, types, entities, entity);
    EntityIsListed(openings, entity);
    assert EntitySharedInConflict(entity) in ValidateTopology(options) <==> |BoundariesOf(openings, types, entity)| > 1 by {
      ErrorsAreFaults(options, EntitySharedInConflict(entity));
    }
  }

  lemma EntityIsListed(openings: seq<Opening>, entity: string)
    ensures |OpeningsOf(openings, entity)| >= 2 ==> entity in FirstOccurrences(EntitiesIn(openings))
  {
    FirstOccurrencesContain(EntitiesIn(openings));
    EntitiesInContain(openings);
    if |OpeningsOf(openings, entity)| >= 2 {
      var id :| id in OpeningsOf(openings, entity);
    }
  }

  // ----- which edits are accepted

  predicate IsRoomWord(s: string) {
    s in {"indoor", "balcony", "garage", "basement", "outdoor", "external", "transit"}
  }

  predicate IsDirectionWord(s: string) {
    s in {"north", "northeast", "east", "southeast", "south", "southwest", "west", "northwest"}
  }

  /** The request makes sense by itself, and is about a stored record where it has to be. */
  predicate IsSensible(options: Options, e: Edit) {
    match e
    case SetRoomFields(room, roomKind, _) =>
      && room != "" && (exists raw <- options.rooms :: raw.Dict? && Get(raw, RoomId) == room)
      && (roomKind.None? || IsRoomWord(roomKind.value))
    case UpsertOpening(_, _, room, kind, orientation, _) =>
      room != "" && kind in {"door", "window", "door_window"} && (orientation.None? || IsDirectionWord(orientation.value))
    case DeleteOpening(id) => id != "" && exists raw <- options.openings :: raw.Dict? && Get(raw, OpeningId) == id
    case UpsertConnection(_, _, opening, roomB, access, override) =>
      && opening != "" && roomB != "" && (access.None? || access.value in {"direct", "stairs", "elevator"})
      && (override.None? || override.value in {"indoor", "outdoor", "separate"})
    case DeleteConnection(id) => id != "" && exists raw <- options.connections :: raw.Dict? && Get(raw, ConnectionId) == id
    case UpsertActuator(_, _, entity, room, _, _) => entity != "" && room != ""
    case DeleteActuator(id) => id != "" && exists raw <- options.actuators :: raw.Dict? && Get(raw, ActuatorId) == id
  }

  /** The options with the edit made. */
  function Candidate(options: Options, e: Edit): Options {
    match e
    case SetRoomFields(room, roomKind, floor) => options.(rooms := RoomsWithFields(options.rooms, room, roomKind, floor))
    case UpsertOpening(id, newId, _, _, _, _) =>
      options.(openings := WithoutEntries(options.openings, OpeningId, IdOr(id, newId)) + [OpeningEntry(e)])
    case DeleteOpening(id) => options.(openings := WithoutEntries(options.openings, OpeningId, id))
    case UpsertConnection(id, newId, _, _, _, _) =>
      options.(connections := WithoutEntries(options.connections, ConnectionId, IdOr(id, newId)) + [ConnectionEntry(e)])
    case DeleteConnection(id) => options.(connections := WithoutEntries(options.connections, ConnectionId, id))
    case UpsertActuator(id, newId, _, _, _, _) =>
      options.(actuators := WithoutEntries(options.actuators, ActuatorId, IdOr(id, newId)) + [ActuatorEntry(e)])
    case DeleteActuator(id) => options.(actuators := WithoutEntries(options.actuators, ActuatorId, id))
  }

  predicate IsActuatorEdit(e: Edit) {
    e.UpsertActuator? || e.DeleteActuator?
  }

  lemma RoomWordsAreNamed(s: string)
    ensures RoomTypeNamed(s).Some? <==> IsRoomWord(s)
    ensures ConnectionTypeNamed(s).Some? <==> s in {"indoor", "outdoor", "separate"}
  {}

  /** An edit is accepted exactly when it makes sense, takes no opening from under an actuator, and
      leaves options that are consistent, or, for an actuator, no actuator at another room's opening. */
  lemma EditsAreCharacterised(options: Options, e: Edit)
    ensures Attempt(options, e).Accepted? <==>
      && IsSensible(options, e)
      && (e.DeleteOpening? ==> forall a :: a in ParseActuators(options) ==> a.opening != Some(e.id))
      && (if IsActuatorEdit(e) then forall a :: !StandsInOtherRoom(Candidate(options, e), a)
          else IsConsistent(Candidate(options, e)))
  {
    hide ValidateTopology, ValidateActuators, IsConsistent, StandsInOtherRoom, WithoutEntries, RoomsWithFields, OpeningEntry,
      ConnectionEntry, ActuatorEntry, RoomTypeNamed, ConnectionTypeNamed, IfTopologyAllows, IfActuatorsAllow, ParseActuators;
    var candidate := Candidate(options, e);
    if IsActuatorEdit(e) {
      ActuatorEditsAllowed(candidate);
    } else {
      AllowedMeansErrorFree(candidate);
      ErrorFreeMeansConsistent(candidate);
    }
    if e.SetRoomFields? && e.roomKind.Some? {
      RoomWordsAreNamed(e.roomKind.value);
    }
    if e.UpsertConnection? && e.override.Some? {
      RoomWordsAreNamed(e.override.value);
    }
  }

  // ----- new openings and actuators

  /** From an error-free topology an opening under a new id is accepted exactly when its words are
      known and its room exists: it cannot break a connection or cause a conflict. */
  lemma NewOpeningsAreAccepted(options: Options, e: Edit)
    requires IsErrorFree(options) && e.UpsertOpening? && HasFreshId(e)
    requires forall o :: o in ParseOpenings(options) ==> o.id != IdOr(e.id, e.newId)
    ensures Attempt(options, e).Accepted? <==>
      && e.openingKind in {"door", "window", "door_window"} && (e.orientation.None? || IsDirectionWord(e.orientation.value))
      && e.room != "" && e.room in RoomsById(options.rooms)
  {
    hide IsConsistent, ValidateTopology, Attempt, ParseOpenings, ParseConnections, RoomsById, OpeningEntry, WithoutEntries, Candidate;
    EditsAreCharacterised(options, e);
    ErrorFreeMeansConsistent(options);
    if IsSensible(options, e) {
      NewOpeningCandidate(options, e);
    }
  }

  lemma NewOpeningCandidate(options: Options, e: Edit)
    requires IsConsistent(options) && e.UpsertOpening? && HasFreshId(e) && IsSensible(options, e)
    requires forall o :: o in ParseOpenings(options) ==> o.id != IdOr(e.id, e.newId)
    ensures IsConsistent(Candidate(options, e)) <==> e.room in RoomsById(options.rooms)
  {
    hide ParseOpenings, ParseConnections, RoomsById, OpeningsById, BoundariesOf, TypeByOpening, ResolveOne, WithoutEntries, Resolved;
    var candidate := Candidate(options, e);
    var added := Opening(IdOr(e.id, e.newId), e.room, e.openingKind, e.orientation, NonEmpty(e.entity));
    NewOpeningParsed(options, e, added);
    var openings := ParseOpenings(options);
    assert ParseOpenings(candidate) == openings + [added];
    assert added in ParseOpenings(candidate);
    forall c | c in ParseConnections(options)
      ensures ResolveOne(RoomsById(options.rooms), ById(options), c) == ResolveOne(RoomsById(options.rooms), ById(candidate), c)
      ensures exists o :: IsOpeningOf(candidate, c, o) && o.IsDoorLike()
    {
      var o :| IsOpeningOf(options, c, o) && o.IsDoorLike();
      assert IsOpeningOf(candidate, c, o);
      LookupMeansParsed(options, c);
      LookupMeansParsed(candidate, c);
      SameResolution(RoomsById(options.rooms), ById(options), ById(candidate), c);
    }
    ResolveAllAgrees(RoomsById(options.rooms), ById(options), ById(candidate), ParseConnections(options));
    assert Resolved(candidate) == Resolved(options) by { SameResolved(options, candidate); }
    NewOpeningHasNoBoundary(options, added);
    forall entity
      ensures |BoundariesOf(openings + [added], TypeByOpening(Resolved(options)), entity)| <= 1
    {
      SameBoundaries(openings, added, TypeByOpening(Resolved(options)), entity);
    }
  }

  lemma SameResolved(options: Options, candidate: Options)
    requires candidate.rooms == options.rooms && ParseConnections(candidate) == ParseConnections(options)
    requires ResolveAll(RoomsById(options.rooms), ById(options), ParseConnections(options))
          == ResolveAll(RoomsById(options.rooms), ById(candidate), ParseConnections(options))
    ensures Resolved(candidate) == Resolved(options)
  {}

  lemma NewOpeningParsed(options: Options, e: Edit, added: Opening)
    requires e.UpsertOpening? && HasFreshId(e) && IsSensible(options, e)
    requires added == Opening(IdOr(e.id, e.newId), e.room, e.openingKind, e.orientation, NonEmpty(e.entity))
    requires forall o :: o in ParseOpenings(options) ==> o.id != added.id
    ensures ParseOpenings(Candidate(options, e)) == ParseOpenings(options) + [added]
    ensures Candidate(options, e).rooms == options.rooms
    ensures ParseConnections(Candidate(options, e)) == ParseConnections(options)
  {
    hide Parse, Without, WithoutEntries, DecodeConnection, DecodeOpening;
    DecodersTakeTheId();
    EntryOfOpening(e, added);
    UpsertRefines(options.openings, DecodeOpening, OPENING_ID, OpeningId, OpeningEntry(e));
    NothingWithout(ParseOpenings(options), added.id);
  }

  lemma EntryOfOpening(e: Edit, added: Opening)
    requires e.UpsertOpening? && HasFreshId(e)
    requires e.room != "" && e.openingKind in {"door", "window", "door_window"} && (e.orientation.None? || IsDirectionWord(e.orientation.value))
    requires added == Opening(IdOr(e.id, e.newId), e.room, e.openingKind, e.orientation, NonEmpty(e.entity))
    ensures DecodeOpening(OpeningEntry(e)) == Some(added) && Get(OpeningEntry(e), OpeningId) == added.id
  {}

  lemma {:induction false} NothingWithout(openings: seq<Opening>, id: string)
    requires forall o :: o in openings ==> o.id != id
    ensures Without(openings, OPENING_ID, id) == openings
  {
    if openings != [] {
      assert openings[|openings| - 1] in openings;
      NothingWithout(openings[..|openings| - 1], id);
    }
  }

  lemma NewOpeningHasNoBoundary(options: Options, added: Opening)
    requires IsConsistent(options) && forall o :: o in ParseOpenings(options) ==> o.id != added.id
    ensures added.id !in TypeByOpening(Resolved(options))
  {
    hide ParseOpenings, ParseConnections, RoomsById, OpeningsById, BoundariesOf, ResolveOne, TypeByOpening;
    TypesComeFromConnections(Resolved(options));
    ResolvedAre(RoomsById(options.rooms), ById(options), ParseConnections(options));
    forall r | r in Resolved(options) ensures r.connection.opening != added.id {
      var o :| IsOpeningOf(options, r.connection, o);
    }
  }

  lemma SameBoundaries(openings: seq<Opening>, added: Opening, types: map<string, ConnectionType>, entity: string)
    requires added.id !in types && |BoundariesOf(openings, types, entity)| <= 1
    ensures |BoundariesOf(openings + [added], types, entity)| <= 1
  {
    assert forall o :: o in openings + [added] <==> o in openings || o == added;
    assert BoundariesOf(openings + [added], types, entity) == BoundariesOf(openings, types, entity);
  }

  /** Where no actuator is at another room's opening, one under a new id is accepted exactly when it
      has an entity and a room and its opening, if that exists, is in this room. */
  lemma NewActuatorsAreAccepted(options: Options, e: Edit)
    requires e.UpsertActuator? && HasFreshId(e)
    requires forall a :: a in ParseActuators(options) ==> a.id != IdOr(e.id, e.newId)
    requires forall a :: !StandsInOtherRoom(options, a)
    ensures Attempt(options, e).Accepted? <==>
      && e.actuatorEntity != "" && e.room != ""
      && forall o :: o in ParseOpenings(options) && o.id == e.actuatorOpening && o.id != "" ==> o.room == e.room
  {
    hide Attempt, ParseOpenings, ParseActuators, StandsInOtherRoom, ActuatorEntry, WithoutEntries, Candidate, ValidateTopology, IsConsistent;
    EditsAreCharacterised(options, e);
    if IsSensible(options, e) {
      var added := Actuator(IdOr(e.id, e.newId), e.actuatorEntity, e.room, NonEmpty(e.actuatorOpening), NonEmpty(e.name));
      NewActuatorParsed(options, e, added);
      forall a ensures StandsInOtherRoom(Candidate(options, e), a) <==>
        a == added && exists o :: o in ParseOpenings(options) && o.id == e.actuatorOpening && o.id != "" && o.room != e.room
      {
        OneActuatorMore(options, Candidate(options, e), added, a);
        OpeningsHaveIds(options);
      }
      assert StandsInOtherRoom(Candidate(options, e), added) <==>
        exists o :: o in ParseOpenings(options) && o.id == e.actuatorOpening && o.id != "" && o.room != e.room;
    }
  }

  lemma OpeningsHaveIds(options: Options)
    ensures forall o :: o in ParseOpenings(options) ==> o.id != ""
  {
    forall o | o in ParseOpenings(options) ensures o.id != "" {
      ParsedFromAnEntry(options.openings, DecodeOpening, OPENING_ID, o);
    }
  }

  lemma OneActuatorMore(options: Options, candidate: Options, added: Actuator, a: Actuator)
    requires ParseActuators(candidate) == ParseActuators(options) + [added] && ParseOpenings(candidate) == ParseOpenings(options)
    requires !StandsInOtherRoom(options, a) && added !in ParseActuators(options)
    ensures StandsInOtherRoom(candidate, a) <==>
      a == added && added.opening.Some? && exists o :: o in ParseOpenings(options) && o.id == added.opening.value && o.room != added.room
  {
    hide ParseOpenings, ParseActuators;
  }

  lemma NewActuatorParsed(options: Options, e: Edit, added: Actuator)
    requires e.UpsertActuator? && HasFreshId(e) && e.actuatorEntity != "" && e.room != ""
    requires added == Actuator(IdOr(e.id, e.newId), e.actuatorEntity, e.room, NonEmpty(e.actuatorOpening), NonEmpty(e.name))
    requires forall a :: a in ParseActuators(options) ==> a.id != added.id
    ensures ParseActuators(Candidate(options, e)) == ParseActuators(options) + [added]
    ensures ParseOpenings(Candidate(options, e)) == ParseOpenings(options)
  {
    hide Parse, Without, WithoutEntries, DecodeActuator;
    DecoderTakesTheId();
    EntryOfActuator(e, added);
    UpsertRefines(options.actuators, DecodeActuator, ACTUATOR_ID, ActuatorId, ActuatorEntry(e));
    NoActuatorWithout(ParseActuators(options), added.id);
  }

  lemma EntryOfActuator(e: Edit, added: Actuator)
    requires e.UpsertActuator? && HasFreshId(e) && e.actuatorEntity != "" && e.room != ""
    requires added == Actuator(IdOr(e.id, e.newId), e.actuatorEntity, e.room, NonEmpty(e.actuatorOpening), NonEmpty(e.name))
    ensures DecodeActuator(ActuatorEntry(e)) == Some(added) && Get(ActuatorEntry(e), ActuatorId) == added.id
  {}

  lemma {:induction false} NoActuatorWithout(actuators: seq<Actuator>, id: string)
    requires forall a :: a in actuators ==> a.id != id
    ensures Without(actuators, ACTUATOR_ID, id) == actuators
  {
    if actuators != [] {
      assert actuators[|actuators| - 1] in actuators;
      NoActuatorWithout(actuators[..|actuators| - 1], id);
    }
  }

  // ----- what a refusal says

  lemma {:induction false} TopologyRefusals(issues: seq<Issue>)
    ensures forall reason :: reason in TopologyErrors(issues) <==>
      reason.TopologyError? && reason.issue in issues && IsError(reason.issue)
  {
    if issues != [] {
      var init, last := issues[..|issues| - 1], issues[|issues| - 1];
      TopologyRefusals(init);
      assert forall issue :: issue in issues <==> issue in init || issue == last;
    }
  }

  lemma {:induction false} ActuatorRefusals(issues: seq<ActuatorIssue>)
    ensures forall reason :: reason in ActuatorErrors(issues) <==>
      reason.ActuatorError? && reason.actuatorIssue in issues && IsActuatorError(reason.actuatorIssue)
  {
    if issues != [] {
      var init, last := issues[..|issues| - 1], issues[|issues| - 1];
      ActuatorRefusals(init);
      assert forall issue :: issue in issues <==> issue in init || issue == last;
    }
  }

  lemma ActuatorErrorsAre(options: Options, issue: ActuatorIssue)
    ensures IsActuatorError(issue) && issue in ValidateActuators(options) <==>
      issue.ActuatorInOtherRoom? && exists a :: StandsInOtherRoom(options, a) && a.id == issue.actuator
  {
    hide ParseOpenings, ParseActuators, OpeningsById, RoomsById, StandsInOtherRoom;
    var rooms, byId, actuators := RoomsById(options.rooms), ById(options), ParseActuators(options);
    var own, shared := OwnActuatorIssues(rooms, byId, actuators), SharedEntityIssues(actuators, FirstOccurrences(ActuatorEntities(actuators)));
    OwnActuatorIssuesAre(rooms, byId, actuators);
    SharedEntitiesAreWarnings(actuators, FirstOccurrences(ActuatorEntities(actuators)));
    assert ValidateActuators(options) == own + shared;
    assert issue in own + shared <==> issue in own || issue in shared;
    forall a | a in actuators
      ensures IsActuatorError(issue) && issue in ActuatorIssuesOf(rooms, byId, a) <==>
        issue == ActuatorInOtherRoom(a.id) && StandsInOtherRoom(options, a)
    {
      ActuatorErrorMeansOtherRoom(options, a);
      OneActuatorError(rooms, byId, a, issue);
    }
    forall a ensures StandsInOtherRoom(options, a) ==> a in actuators {
      OtherRoomNeedsStored(options, a);
    }
  }

  lemma OneActuatorError(rooms: map<string, Raw>, byId: map<string, Opening>, a: Actuator, issue: ActuatorIssue)
    ensures IsActuatorError(issue) && issue in ActuatorIssuesOf(rooms, byId, a) ==> issue == ActuatorInOtherRoom(a.id)
    ensures (exists i :: i in ActuatorIssuesOf(rooms, byId, a) && IsActuatorError(i)) ==>
      ActuatorInOtherRoom(a.id) in ActuatorIssuesOf(rooms, byId, a)
  {}

  /** A refusal names every fault that the edit would leave, the actuators' reference that forbids a
      deletion, or nothing when the request makes no sense. */
  lemma RefusalsSayWhy(options: Options, e: Edit)
    requires Attempt(options, e).Refused?
    ensures var reasons := Attempt(options, e).reasons;
            if e.DeleteOpening? && e.id != "" && (exists a :: a in ParseActuators(options) && a.opening == Some(e.id)) then
              reasons == [ReferencedByActuator(e.id)]
            else if !IsSensible(options, e) then reasons == []
            else if IsActuatorEdit(e) then
              forall reason :: reason in reasons <==>
                reason.ActuatorError? && reason.actuatorIssue.ActuatorInOtherRoom?
                && exists a :: StandsInOtherRoom(Candidate(options, e), a) && a.id == reason.actuatorIssue.actuator
            else
              forall reason :: reason in reasons <==>
                reason.TopologyError? && IsError(reason.issue) && IsFault(Candidate(options, e), reason.issue)
  {
    hide ValidateTopology, ValidateActuators, IsConsistent, StandsInOtherRoom, WithoutEntries, RoomsWithFields, OpeningEntry,
      ConnectionEntry, ActuatorEntry, RoomTypeNamed, ConnectionTypeNamed, ParseActuators, IsFault, TopologyErrors, ActuatorErrors;
    var candidate := Candidate(options, e);
    TopologyRefusals(ValidateTopology(candidate));
    ActuatorRefusals(ValidateActuators(candidate));
    forall issue: Issue | IsError(issue) ensures issue in ValidateTopology(candidate) <==> IsFault(candidate, issue) {
      ErrorsAreFaults(candidate, issue);
    }
    forall issue: ActuatorIssue
      ensures IsActuatorError(issue) && issue in ValidateActuators(candidate) <==>
        issue.ActuatorInOtherRoom? && exists a :: StandsInOtherRoom(candidate, a) && a.id == issue.actuator
    {
      ActuatorErrorsAre(candidate, issue);
    }
    if e.SetRoomFields? && e.roomKind.Some? {
      RoomWordsAreNamed(e.roomKind.value);
    }
    if e.UpsertConnection? && e.override.Some? {
      RoomWordsAreNamed(e.override.value);
    }
  }

  // ----- warnings about actuators

  lemma {:induction false} SharedActuatorsAre(actuators: seq<Actuator>, entities: seq<string>, entity: string)
    ensures ActuatorEntityShared(entity) in SharedEntityIssues(actuators, entities) <==>
      entity in entities && |ActuatorsOf(actuators, entity)| >= 2
    ensures forall issue :: issue in SharedEntityIssues(actuators, entities) ==> issue.ActuatorEntityShared?
  {
    hide ActuatorsOf;
    if entities != [] {
      var init, last := entities[..|entities| - 1], entities[|entities| - 1];
      SharedActuatorsAre(actuators, init, entity);
      assert entity in entities <==> entity in init || entity == last;
    }
  }

  lemma {:induction false} ActuatorEntitiesContain(actuators: seq<Actuator>, entity: string)
    ensures entity in ActuatorEntities(actuators) <==> exists a :: a in actuators && a.entity == entity
  {
    if actuators != [] {
      var init, last := actuators[..|actuators| - 1], actuators[|actuators| - 1];
      ActuatorEntitiesContain(init, entity);
      assert forall a :: a in actuators <==> a in init || a == last;
    }
  }

  lemma OneActuatorsWarnings(rooms: map<string, Raw>, byId: map<string, Opening>, a: Actuator, id: string)
    ensures ActuatorInMissingRoom(id) in ActuatorIssuesOf(rooms, byId, a) <==> a.id == id && a.room !in rooms
    ensures ActuatorAtMissingOpening(id) in ActuatorIssuesOf(rooms, byId, a) <==>
      a.id == id && a.opening.Some? && a.opening.value !in byId
    ensures forall issue :: issue in ActuatorIssuesOf(rooms, byId, a) ==> !issue.ActuatorEntityShared?
  {}

  /** The validator warns of exactly the actuators whose room or opening does not exist, and of the
      entities that several actuators have. */
  lemma ActuatorWarningsAre(options: Options, id: string, entity: string)
    ensures var report, actuators := ValidateActuators(options), ParseActuators(options);
            && (ActuatorInMissingRoom(id) in report <==>
                  exists a :: a in actuators && a.id == id && a.room !in RoomsById(options.rooms))
            && (ActuatorAtMissingOpening(id) in report <==>
                  exists a :: a in actuators && a.id == id && a.opening.Some? && a.opening.value !in ById(options))
            && (ActuatorEntityShared(entity) in report <==> |ActuatorsOf(actuators, entity)| >= 2)
  {
    hide ParseOpenings, ParseActuators, OpeningsById, RoomsById, ActuatorIssuesOf, ActuatorsOf;
    var rooms, byId, actuators := RoomsById(options.rooms), ById(options), ParseActuators(options);
    var entities := FirstOccurrences(ActuatorEntities(actuators));
    var own, shared := OwnActuatorIssues(rooms, byId, actuators), SharedEntityIssues(actuators, entities);
    OwnActuatorIssuesAre(rooms, byId, actuators);
    SharedActuatorsAre(actuators, entities, entity);
    assert ValidateActuators(options) == own + shared;
    assert forall issue :: issue in own + shared <==> issue in own || issue in shared;
    forall a ensures
      && (ActuatorInMissingRoom(id) in ActuatorIssuesOf(rooms, byId, a) <==> a.id == id && a.room !in rooms)
      && (ActuatorAtMissingOpening(id) in ActuatorIssuesOf(rooms, byId, a) <==> a.id == id && a.opening.Some? && a.opening.value !in byId)
      && ActuatorEntityShared(entity) !in ActuatorIssuesOf(rooms, byId, a)
    {
      OneActuatorsWarnings(rooms, byId, a, id);
    }
    SharedEntityIsListed(actuators, entity);
  }

  lemma SharedEntityIsListed(actuators: seq<Actuator>, entity: string)
    ensures |ActuatorsOf(actuators, entity)| >= 2 ==> entity in FirstOccurrences(ActuatorEntities(actuators))
  {
    FirstOccurrencesContain(ActuatorEntities(actuators));
    ActuatorEntitiesContain(actuators, entity);
    if |ActuatorsOf(actuators, entity)| >= 2 {
      var id :| id in ActuatorsOf(actuators, entity);
    }
  }

  /** Editing a list drops the entries of the id, and the ones that are no dictionaries, and no others. */
  lemma {:induction false} EntriesKept(raws: seq<Raw>, field: Field, id: string)
    ensures forall raw :: raw in WithoutEntries(raws, field, id) <==> raw in raws && raw.Dict? && Get(raw, field) != id
  {
    if raws != [] {
      var init, last := raws[..|raws| - 1], raws[|raws| - 1];
      EntriesKept(init, field, id);
      assert forall raw :: raw in raws <==> raw in init || raw == last;
    }
  }
}

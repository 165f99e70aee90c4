/** What the topology validator's verdict means, stated without the validator. */
module TopologyValidity {
  import opened Wrappers
  import opened RawRecords
  import opened RoomTopology

  // ----- looking records up by id

  lemma {:induction false} OpeningsByIdFindsThem(openings: seq<Opening>)
    requires HaveDistinctIds(openings, OPENING_ID)
    ensures forall o :: o in openings ==> o.id in OpeningsById(openings) && OpeningsById(openings)[o.id] == o
    ensures forall id :: id in OpeningsById(openings) ==> OpeningsById(openings)[id] in openings && OpeningsById(openings)[id].id == id
  {
    if openings != [] {
      var init, last := openings[..|openings| - 1], openings[|openings| - 1];
      OpeningsByIdFindsThem(init);
      forall o | o in init ensures o.id != last.id {
        var i :| 0 <= i < |init| && init[i] == o;
        assert OPENING_ID(openings[i]) != OPENING_ID(openings[|openings| - 1]);
      }
    }
  }

  /** The opening a connection refers to, if it was parsed. */
  predicate IsOpeningOf(options: Options, c: Connection, o: Opening) {
    o in ParseOpenings(options) && o.id == c.opening
  }

  lemma LookupMeansParsed(options: Options, c: Connection)
    ensures var byId := OpeningsById(ParseOpenings(options));
            && (c.opening in byId ==> IsOpeningOf(options, c, byId[c.opening]))
            && (forall o :: IsOpeningOf(options, c, o) ==> c.opening in byId && byId[c.opening] == o)
  {
    ParsedIdsAreDistinct(options.openings, DecodeOpening, OPENING_ID);
    OpeningsByIdFindsThem(ParseOpenings(options));
  }

  // ----- which issues are reported

  lemma {:induction false} OpeningIssuesAre(rooms: map<string, Raw>, openings: seq<Opening>)
    ensures forall issue :: issue in OpeningIssues(rooms, openings) <==>
      issue.OpeningInMissingRoom? && exists o :: o in openings && o.id == issue.opening && o.room !in rooms
  {
    if openings != [] {
      var init, last := openings[..|openings| - 1], openings[|openings| - 1];
      OpeningIssuesAre(rooms, init);
      assert forall o :: o in openings <==> o in init || o == last;
    }
  }

  lemma {:induction false} ConnectionIssuesAre(rooms: map<string, Raw>, byId: map<string, Opening>,
                                               connections: seq<Connection>)
    ensures forall issue :: issue in ConnectionIssues(rooms, byId, connections) <==>
      exists c :: c in connections && issue in IssuesOf(rooms, byId, c)
  {
    if connections != [] {
      var init, last := connections[..|connections| - 1], connections[|connections| - 1];
      ConnectionIssuesAre(rooms, byId, init);
      assert forall c :: c in connections <==> c in init || c == last;
    }
  }

  lemma {:induction false} IsolationIssuesAreWarnings(rooms: map<string, Raw>, resolved: seq<ResolvedConnection>,
                                                      ids: seq<string>)
    ensures forall issue :: issue in IsolationIssues(rooms, resolved, ids) ==> issue.RoomIsolated?
  {
    if ids != [] {
      IsolationIssuesAreWarnings(rooms, resolved, ids[..|ids| - 1]);
    }
  }

  lemma {:induction false} EntityIssuesAre(openings: seq<Opening>, types: map<string, ConnectionType>, entities: seq<string>)
    ensures forall issue :: issue in EntityIssues(openings, types, entities) && IsError(issue) ==>
      issue.EntitySharedInConflict? && |BoundariesOf(openings, types, issue.entity)| > 1
    ensures forall e :: e in entities && |OpeningsOf(openings, e)| >= 2 && |BoundariesOf(openings, types, e)| > 1 ==>
      EntitySharedInConflict(e) in EntityIssues(openings, types, entities)
    ensures forall issue :: issue in EntityIssues(openings, types, entities) ==>
      issue.EntitySharedInConflict? || issue.EntityShared?
  {
    if entities != [] {
      var init, last := entities[..|entities| - 1], entities[|entities| - 1];
      EntityIssuesAre(openings, types, init);
      assert forall e :: e in entities <==> e in init || e == last;
    }
  }

  lemma {:induction false} FirstOccurrencesContain(s: seq<string>)
    ensures forall x :: x in FirstOccurrences(s) <==> x in s
  {
    if s != [] {
      var init, last := s[..|s| - 1], s[|s| - 1];
      FirstOccurrencesContain(init);
      assert forall x :: x in s <==> x in init || x == last;
    }
  }

  lemma {:induction false} EntitiesInContain(openings: seq<Opening>)
    ensures forall e :: e in EntitiesIn(openings) <==> exists o :: o in openings && o.entity == Some(e)
  {
    if openings != [] {
      var init, last := openings[..|openings| - 1], openings[|openings| - 1];
      EntitiesInContain(init);
      assert forall o :: o in openings <==> o in init || o == last;
    }
  }

  /** More boundaries than one need more openings than one. */
  lemma BoundariesNeedOpenings(openings: seq<Opening>, types: map<string, ConnectionType>, entity: string)
    ensures |BoundariesOf(openings, types, entity)| <= |OpeningsOf(openings, entity)|
    ensures BoundariesOf(openings, types, entity) != {} ==> exists o :: o in openings && o.entity == Some(entity)
  {
    var ids := OpeningsOf(openings, entity);
    ImageIsNoLarger(ids, types);
    assert BoundariesOf(openings, types, entity) == set id | id in ids && id in types :: types[id];
  }

  lemma ImageIsNoLarger(ids: set<string>, types: map<string, ConnectionType>)
    ensures |set id | id in ids && id in types :: types[id]| <= |ids|
  {
    if ids != {} {
      var x :| x in ids;
      var rest := ids - {x};
      ImageIsNoLarger(rest, types);
      var image, restImage := set id | id in ids && id in types :: types[id], set id | id in rest && id in types :: types[id];
      if x in types {
        assert image == restImage + {types[x]};
      } else {
        assert image == restImage;
      }
    }
  }

  // ----- nothing is both hidden and unreported

  function ById(options: Options): map<string, Opening> {
    OpeningsById(ParseOpenings(options))
  }

  function Resolved(options: Options): seq<ResolvedConnection> {
    ResolveAll(RoomsById(options.rooms), ById(options), ParseConnections(options))
  }

  lemma {:induction false} ResolvedAre(rooms: map<string, Raw>, byId: map<string, Opening>, connections: seq<Connection>)
    ensures forall r :: r in ResolveAll(rooms, byId, connections) <==>
      r.connection in connections && ResolveOne(rooms, byId, r.connection) == Some(r)
  {
    if connections != [] {
      var init, last := connections[..|connections| - 1], connections[|connections| - 1];
      ResolvedAre(rooms, byId, init);
      assert forall c :: c in connections <==> c in init || c == last;
    }
  }

  /** The fault that an error stands for. */
  ghost predicate IsFault(options: Options, issue: Issue) {
    var rooms, byId := RoomsById(options.rooms), ById(options);
    match issue
    case OpeningInMissingRoom(id) =>
      exists o :: o in ParseOpenings(options) && o.id == id && o.room !in rooms
    case ConnectionToMissingOpening(id) =>
      exists c :: c in ParseConnections(options) && c.id == id && c.opening !in byId
    case ConnectionThroughNonDoor(id) =>
      exists c :: c in ParseConnections(options) && c.id == id && c.opening in byId && !byId[c.opening].IsDoorLike()
    case ConnectionToMissingRoom(id) =>
      exists c :: c in ParseConnections(options) && c.id == id && c.roomB != OUTSIDE && c.roomB !in rooms
    case EntitySharedInConflict(entity) =>
      |BoundariesOf(ParseOpenings(options), TypeByOpening(Resolved(options)), entity)| > 1
    case RoomIsolated(_) => false
    case EntityShared(_) => false
  }

  predicate IsConnectionIssue(issue: Issue) {
    issue.ConnectionToMissingOpening? || issue.ConnectionThroughNonDoor? || issue.ConnectionToMissingRoom?
  }

  lemma OnlyConnectionIssues(rooms: map<string, Raw>, byId: map<string, Opening>, connections: seq<Connection>, issue: Issue)
    requires issue in ConnectionIssues(rooms, byId, connections)
    ensures IsConnectionIssue(issue)
  {
    ConnectionIssuesAre(rooms, byId, connections);
  }

  lemma InOneOfFour(a: seq<Issue>, b: seq<Issue>, c: seq<Issue>, d: seq<Issue>, issue: Issue)
    ensures issue in a + b + c + d <==> issue in a || issue in b || issue in c || issue in d
  {}

  /** In which part of the validator's report an error can be. */
  lemma WhereErrorsAre(options: Options, issue: Issue)
    requires IsError(issue)
    ensures var rooms, openings := RoomsById(options.rooms), ParseOpenings(options);
      issue in ValidateTopology(options) <==>
        if issue.OpeningInMissingRoom? then issue in OpeningIssues(rooms, openings)
        else if issue.EntitySharedInConflict? then
          issue in EntityIssues(openings, TypeByOpening(Resolved(options)), FirstOccurrences(EntitiesIn(openings)))
        else issue in ConnectionIssues(rooms, ById(options), ParseConnections(options))
  {
    hide ParseOpenings, ParseConnections, TypeByOpening, ResolveAll, OpeningsById, RoomsById, OpeningIssues, ConnectionIssues,
      IsolationIssues, EntityIssues, IssuesOf, FirstOccurrences, EntitiesIn, RoomIdsIn;
    var rooms, openings, connections := RoomsById(options.rooms), ParseOpenings(options), ParseConnections(options);
    var types := TypeByOpening(Resolved(options));
    var entities, ids := FirstOccurrences(EntitiesIn(openings)), FirstOccurrences(RoomIdsIn(options.rooms));
    var ofRooms := if openings == [] && connections == [] then [] else IsolationIssues(rooms, Resolved(options), ids);
    OpeningIssuesAre(rooms, openings);
    IsolationIssuesAreWarnings(rooms, Resolved(options), ids);
    EntityIssuesAre(openings, types, entities);
    if issue in ConnectionIssues(rooms, ById(options), connections) {
      OnlyConnectionIssues(rooms, ById(options), connections, issue);
    }
    InOneOfFour(OpeningIssues(rooms, openings), ConnectionIssues(rooms, ById(options), connections), ofRooms,
      EntityIssues(openings, types, entities), issue);
  }

  /** The errors reported are exactly the faults present. */
  lemma ErrorsAreFaults(options: Options, issue: Issue)
    requires IsError(issue)
    ensures issue in ValidateTopology(options) <==> IsFault(options, issue)
  {
    hide ValidateTopology, ParseOpenings, ParseConnections, BoundariesOf, TypeByOpening, ResolveAll, OpeningsById, RoomsById,
      OpeningIssues, ConnectionIssues, EntityIssues, FirstOccurrences, EntitiesIn;
    var rooms, openings, connections := RoomsById(options.rooms), ParseOpenings(options), ParseConnections(options);
    WhereErrorsAre(options, issue);
    OpeningIssuesAre(rooms, openings);
    ConnectionIssuesAre(rooms, ById(options), connections);
    if issue.EntitySharedInConflict? {
      EntityConflictsAre(openings, TypeByOpening(Resolved(options)), issue.entity);
    }
  }

  lemma {:induction false} IsolationIssuesAre(rooms: map<string, Raw>, resolved: seq<ResolvedConnection>,
                                              ids: seq<string>, room: string)
    ensures RoomIsolated(room) in IsolationIssues(rooms, resolved, ids) <==>
      room in ids && room in rooms && CanBeIsolated(rooms[room]) && !IsReferenced(resolved, room)
  {
    if ids != [] {
      var init, last := ids[..|ids| - 1], ids[|ids| - 1];
      IsolationIssuesAre(rooms, resolved, init, room);
      assert room in ids <==> room in init || room == last;
    }
  }

  predicate CanBeIsolated(room: Raw) {
    RoomTypeOf(room) !in {Garage, Basement, Outdoor, External}
  }

  lemma {:induction false} RoomIdsInAreRooms(raws: seq<Raw>, room: string)
    ensures room in RoomIdsIn(raws) <==> room in RoomsById(raws)
  {
    if raws != [] {
      RoomIdsInAreRooms(raws[..|raws| - 1], room);
    }
  }

  /** A room is warned about exactly when topology has been declared at all, the room is of a kind
      that belongs to the house, and no connection in the graph has it at either end. */
  lemma IsolationIsWarranted(options: Options, room: string)
    ensures RoomIsolated(room) in ValidateTopology(options) <==>
      && (ParseOpenings(options) != [] || ParseConnections(options) != [])
      && room in RoomsById(options.rooms) && CanBeIsolated(RoomsById(options.rooms)[room])
      && !IsReferenced(BuildGraph(options).connections, room)
  {
    hide ParseOpenings, ParseConnections, TypeByOpening, ResolveAll, OpeningsById, RoomsById, OpeningIssues, ConnectionIssues,
      IsolationIssues, EntityIssues, FirstOccurrences, EntitiesIn, RoomIdsIn, CanBeIsolated, IsReferenced, Exposure;
    var rooms, openings, connections := RoomsById(options.rooms), ParseOpenings(options), ParseConnections(options);
    var types := TypeByOpening(Resolved(options));
    var entities, ids := FirstOccurrences(EntitiesIn(openings)), FirstOccurrences(RoomIdsIn(options.rooms));
    var ofRooms := if openings == [] && connections == [] then [] else IsolationIssues(rooms, Resolved(options), ids);
    OpeningIssuesAre(rooms, openings);
    EntityIssuesAre(openings, types, entities);
    if RoomIsolated(room) in ConnectionIssues(rooms, ById(options), connections) {
      OnlyConnectionIssues(rooms, ById(options), connections, RoomIsolated(room));
    }
    InOneOfFour(OpeningIssues(rooms, openings), ConnectionIssues(rooms, ById(options), connections), ofRooms,
      EntityIssues(openings, types, entities), RoomIsolated(room));
    IsolationIssuesAre(rooms, Resolved(options), ids, room);
    FirstOccurrencesContain(RoomIdsIn(options.rooms));
    RoomIdsInAreRooms(options.rooms, room);
  }

  lemma EntityConflictsAre(openings: seq<Opening>, types: map<string, ConnectionType>, entity: string)
    ensures EntitySharedInConflict(entity) in EntityIssues(openings, types, FirstOccurrences(EntitiesIn(openings)))
      <==> |BoundariesOf(openings, types, entity)| > 1
  {
    var entities := FirstOccurrences(EntitiesIn(openings));
    EntityIssuesAre(openings, types, entities);
    FirstOccurrencesContain(EntitiesIn(openings));
    EntitiesInContain(openings);
    BoundariesNeedOpenings(openings, types, entity);
  }

  /** An error on the connection itself, or on the room its opening is in. */
  predicate IsReported(options: Options, c: Connection) {
    var issues := ValidateTopology(options);
    || ConnectionToMissingOpening(c.id) in issues
    || ConnectionThroughNonDoor(c.id) in issues
    || ConnectionToMissingRoom(c.id) in issues
    || OpeningInMissingRoom(c.opening) in issues
  }

  lemma SameConnection(options: Options, c: Connection, d: Connection)
    requires c in ParseConnections(options) && d in ParseConnections(options) && c.id == d.id
    ensures c == d
  {
    var parsed := ParseConnections(options);
    ParsedIdsAreDistinct(options.connections, DecodeConnection, CONNECTION_ID);
    var i :| 0 <= i < |parsed| && parsed[i] == c;
    var j :| 0 <= j < |parsed| && parsed[j] == d;
    assert CONNECTION_ID(parsed[i]) == CONNECTION_ID(parsed[j]);
  }

  lemma OwnIssuesAre(options: Options, c: Connection)
    requires c in ParseConnections(options)
    ensures ConnectionToMissingOpening(c.id) in ValidateTopology(options) <==> c.opening !in ById(options)
    ensures ConnectionThroughNonDoor(c.id) in ValidateTopology(options) <==>
      c.opening in ById(options) && !ById(options)[c.opening].IsDoorLike()
    ensures ConnectionToMissingRoom(c.id) in ValidateTopology(options) <==>
      c.roomB != OUTSIDE && c.roomB !in RoomsById(options.rooms)
  {
    hide ValidateTopology, ParseOpenings, ParseConnections, ById, RoomsById;
    ErrorsAreFaults(options, ConnectionToMissingOpening(c.id));
    ErrorsAreFaults(options, ConnectionThroughNonDoor(c.id));
    ErrorsAreFaults(options, ConnectionToMissingRoom(c.id));
    forall d | d in ParseConnections(options) && d.id == c.id ensures d == c {
      SameConnection(options, c, d);
    }
  }

  /** A parsed connection is missing from the graph if and only if an error is reported for it. */
  lemma HiddenIffReported(options: Options, c: Connection)
    requires c in ParseConnections(options)
    ensures (exists r :: r in BuildGraph(options).connections && r.connection == c) <==> !IsReported(options, c)
  {
    hide ValidateTopology, ParseOpenings, ParseConnections, RoomsById, OpeningsById, RoomTypeOf, DeriveConnectionType;
    var rooms, byId := RoomsById(options.rooms), ById(options);
    ResolvedAre(rooms, byId, ParseConnections(options));
    OwnIssuesAre(options, c);
    ErrorsAreFaults(options, OpeningInMissingRoom(c.opening));
    LookupMeansParsed(options, c);
    var one := ResolveOne(rooms, byId, c);
    assert (exists r :: r in BuildGraph(options).connections && r.connection == c) <==> one.Some? by {
      if one.Some? {
        assert one.value in BuildGraph(options).connections;
      }
    }
    if c.opening in byId {
      assert IsOpeningOf(options, c, byId[c.opening]);
      forall o | o in ParseOpenings(options) && o.id == c.opening ensures o == byId[c.opening] {
        assert IsOpeningOf(options, c, o);
      }
      assert OpeningInMissingRoom(c.opening) in ValidateTopology(options) <==> byId[c.opening].room !in rooms;
    }
  }

  /** Without errors every parsed connection is in the graph, in order. */
  lemma {:induction false} ErrorFreeResolvesEverything(options: Options)
    requires IsErrorFree(options)
    ensures |BuildGraph(options).connections| == |ParseConnections(options)|
    ensures forall i :: 0 <= i < |ParseConnections(options)| ==>
      BuildGraph(options).connections[i].connection == ParseConnections(options)[i]
  {
    hide ValidateTopology;
    var connections := ParseConnections(options);
    forall c | c in connections ensures ResolveOne(RoomsById(options.rooms), ById(options), c).Some? {
      HiddenIffReported(options, c);
      ResolvedAre(RoomsById(options.rooms), ById(options), connections);
    }
    AllResolved(RoomsById(options.rooms), ById(options), connections);
  }

  lemma {:induction false} AllResolved(rooms: map<string, Raw>, byId: map<string, Opening>, connections: seq<Connection>)
    requires forall c :: c in connections ==> ResolveOne(rooms, byId, c).Some?
    ensures var resolved := ResolveAll(rooms, byId, connections);
            |resolved| == |connections| && forall i :: 0 <= i < |connections| ==> resolved[i].connection == connections[i]
  {
    if connections != [] {
      AllResolved(rooms, byId, connections[..|connections| - 1]);
    }
  }

  // ----- the verdict

  /** All references resolve, connections go through doors, and no entity guards two boundaries. */
  ghost predicate IsConsistent(options: Options) {
    var rooms := RoomsById(options.rooms);
    && (forall o <- ParseOpenings(options) :: o.room in rooms)
    && (forall c <- ParseConnections(options) ::
          && (exists o :: IsOpeningOf(options, c, o) && o.IsDoorLike())
          && (c.roomB == OUTSIDE || c.roomB in rooms))
    && (forall entity :: |BoundariesOf(ParseOpenings(options), TypeByOpening(Resolved(options)), entity)| <= 1)
  }

  /** The validator reports no error exactly on the consistent options. */
  lemma ErrorFreeMeansConsistent(options: Options)
    ensures IsErrorFree(options) <==> IsConsistent(options)
  {
    hide ValidateTopology, ParseOpenings, ParseConnections, BoundariesOf, TypeByOpening, Resolved, OpeningsById, RoomsById;
    forall issue: Issue | IsError(issue) ensures issue in ValidateTopology(options) <==> IsFault(options, issue) {
      ErrorsAreFaults(options, issue);
    }
    forall c | c in ParseConnections(options) ensures
      (exists o :: IsOpeningOf(options, c, o) && o.IsDoorLike()) <==>
      c.opening in ById(options) && ById(options)[c.opening].IsDoorLike()
    {
      LookupMeansParsed(options, c);
    }
    if IsErrorFree(options) {
      ErrorFreeIsConsistent(options);
    } else {
      var issue :| issue in ValidateTopology(options) && IsError(issue);
      assert IsFault(options, issue);
    }
  }

  lemma ErrorFreeIsConsistent(options: Options)
    requires IsErrorFree(options)
    ensures IsConsistent(options)
  {
    hide ValidateTopology, ParseOpenings, ParseConnections, BoundariesOf, TypeByOpening, Resolved, OpeningsById, RoomsById;
    forall o | o in ParseOpenings(options) ensures o.room in RoomsById(options.rooms) {
      ErrorsAreFaults(options, OpeningInMissingRoom(o.id));
    }
    forall c | c in ParseConnections(options)
      ensures exists o :: IsOpeningOf(options, c, o) && o.IsDoorLike()
      ensures c.roomB == OUTSIDE || c.roomB in RoomsById(options.rooms)
    {
      OwnIssuesAre(options, c);
      LookupMeansParsed(options, c);
      assert IsOpeningOf(options, c, ById(options)[c.opening]);
    }
    forall e ensures |BoundariesOf(ParseOpenings(options), TypeByOpening(Resolved(options)), e)| <= 1 {
      ErrorsAreFaults(options, EntitySharedInConflict(e));
    }
  }

  // ----- boundaries

  /** How far apart a room lies from the inside of the house. */
  function Remoteness(room: RoomType): nat {
    match room
    case Indoor => 0
    case Transit => 0
    case Balcony => 1
    case Outdoor => 1
    case Garage => 2
    case Basement => 2
    case External => 2
  }

  function RemotenessOf(kind: ConnectionType): nat {
    match kind
    case IndoorConnection => 0
    case OutdoorConnection => 1
    case SeparateConnection => 2
  }

  /** Without an override a boundary is as remote as the more remote of its two sides, in whichever
      direction the connection was entered; outside is as remote as can be. */
  lemma BoundaryIsTheMoreRemoteSide(a: RoomType, b: RoomType, override: ConnectionType)
    ensures RemotenessOf(DeriveConnectionType(a, Some(b), None))
         == if Remoteness(a) >= Remoteness(b) then Remoteness(a) else Remoteness(b)
    ensures DeriveConnectionType(a, Some(b), None) == DeriveConnectionType(b, Some(a), None)
    ensures RemotenessOf(DeriveConnectionType(a, None, None)) == 2
    ensures DeriveConnectionType(a, Some(b), Some(override)) == DeriveConnectionType(a, None, Some(override)) == override
  {}
}

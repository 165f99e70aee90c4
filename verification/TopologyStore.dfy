/** The step-by-step side of the registry: the loops that build and validate the topology, the
    coordinator's entry points that store accepted edits, and the caches. */
module TopologyStore {
  import opened Wrappers
  import opened RawRecords
  import opened RoomTopology
  import opened Actuators
  import opened TopologyEdits

  method CollectRooms(raws: seq<Raw>) returns (rooms: map<string, Raw>)
    ensures rooms == RoomsById(raws)
  {
    rooms := map[];
    for i := 0 to |raws|
      invariant rooms == RoomsById(raws[..i])
    {
      assert raws[..i + 1][..i] == raws[..i];
      if raws[i].NotADict? {
        continue;
      }
      var id := Get(raws[i], RoomId);
      if id != "" {
        rooms := rooms[id := raws[i]];
      }
    }
    assert raws[..|raws|] == raws;
  }

  method IndexOpenings(openings: seq<Opening>) returns (byId: map<string, Opening>)
    ensures byId == OpeningsById(openings)
  {
    byId := map[];
    for i := 0 to |openings|
      invariant byId == OpeningsById(openings[..i])
    {
      assert openings[..i + 1][..i] == openings[..i];
      byId := byId[openings[i].id := openings[i]];
    }
    assert openings[..|openings|] == openings;
  }

  method ResolveTopologyGraph(rooms: map<string, Raw>, openings: seq<Opening>, connections: seq<Connection>)
    returns (graph: Graph)
    ensures graph == Graph(openings, ResolveAll(rooms, OpeningsById(openings), connections),
                           map room <- rooms :: Exposure(room, openings))
  {
    var byId := IndexOpenings(openings);
    var resolved: seq<ResolvedConnection> := [];
    for i := 0 to |connections|
      invariant resolved == ResolveAll(rooms, byId, connections[..i])
    {
      assert connections[..i + 1][..i] == connections[..i];
      var connection := connections[i];
      if connection.opening !in byId || !byId[connection.opening].IsDoorLike() {
        continue;
      }
      var roomA := byId[connection.opening].room;
      if roomA !in rooms {
        continue;
      }
      var roomBType: Option<RoomType> := None;
      if connection.roomB != OUTSIDE {
        if connection.roomB !in rooms {
          continue;
        }
        roomBType := Some(RoomTypeOf(rooms[connection.roomB]));
      }
      var kind := DeriveConnectionType(RoomTypeOf(rooms[roomA]), roomBType, connection.override);
      resolved := resolved + [ResolvedConnection(connection, roomA, kind)];
    }
    assert connections[..|connections|] == connections;
    graph := Graph(openings, resolved, map room <- rooms :: Exposure(room, openings));
  }

  method BuildTopologyGraph(options: Options) returns (graph: Graph)
    ensures graph == BuildGraph(options)
  {
    var rooms := CollectRooms(options.rooms);
    var openings := ParseRecords(options.openings, DecodeOpening, OPENING_ID);
    var connections := ParseRecords(options.connections, DecodeConnection, CONNECTION_ID);
    graph := ResolveTopologyGraph(rooms, openings, connections);
  }

  method CheckOpenings(rooms: map<string, Raw>, openings: seq<Opening>) returns (issues: seq<Issue>)
    ensures issues == OpeningIssues(rooms, openings)
  {
    issues := [];
    for i := 0 to |openings|
      invariant issues == OpeningIssues(rooms, openings[..i])
    {
      assert openings[..i + 1][..i] == openings[..i];
      if openings[i].room in rooms {
        continue;
      }
      issues := issues + [OpeningInMissingRoom(openings[i].id)];
    }
    assert openings[..|openings|] == openings;
  }

  method CheckConnections(rooms: map<string, Raw>, byId: map<string, Opening>, connections: seq<Connection>)
    returns (issues: seq<Issue>)
    ensures issues == ConnectionIssues(rooms, byId, connections)
  {
    issues := [];
    for i := 0 to |connections|
      invariant issues == ConnectionIssues(rooms, byId, connections[..i])
    {
      assert connections[..i + 1][..i] == connections[..i];
      var c := connections[i];
      ghost var before := issues;
      if c.opening !in byId {
        issues := issues + [ConnectionToMissingOpening(c.id)];
      } else if !byId[c.opening].IsDoorLike() {
        issues := issues + [ConnectionThroughNonDoor(c.id)];
      }
      if c.roomB != OUTSIDE && c.roomB !in rooms {
        issues := issues + [ConnectionToMissingRoom(c.id)];
      }
      assert issues == before + IssuesOf(rooms, byId, c);
    }
    assert connections[..|connections|] == connections;
  }

  method CheckIsolation(rooms: map<string, Raw>, resolved: seq<ResolvedConnection>,
                        ids: seq<string>) returns (issues: seq<Issue>)
    ensures issues == IsolationIssues(rooms, resolved, ids)
  {
    issues := [];
    for i := 0 to |ids|
      invariant issues == IsolationIssues(rooms, resolved, ids[..i])
    {
      assert ids[..i + 1][..i] == ids[..i];
      if ids[i] !in rooms || RoomTypeOf(rooms[ids[i]]) in {Garage, Basement, Outdoor, External} {
        continue;
      }
      if IsReferenced(resolved, ids[i]) {
        continue;
      }
      issues := issues + [RoomIsolated(ids[i])];
    }
    assert ids[..|ids|] == ids;
  }

  method CheckSharedEntities(openings: seq<Opening>, types: map<string, ConnectionType>, entities: seq<string>)
    returns (issues: seq<Issue>)
    ensures issues == EntityIssues(openings, types, entities)
  {
    issues := [];
    for i := 0 to |entities|
      invariant issues == EntityIssues(openings, types, entities[..i])
    {
      assert entities[..i + 1][..i] == entities[..i];
      if |OpeningsOf(openings, entities[i])| < 2 {
        continue;
      }
      if |BoundariesOf(openings, types, entities[i])| > 1 {
        issues := issues + [EntitySharedInConflict(entities[i])];
      } else {
        issues := issues + [EntityShared(entities[i])];
      }
    }
    assert entities[..|entities|] == entities;
  }

  method CheckTopology(options: Options) returns (issues: seq<Issue>)
    ensures issues == ValidateTopology(options)
  {
    var rooms := CollectRooms(options.rooms);
    var openings := ParseRecords(options.openings, DecodeOpening, OPENING_ID);
    var byId := IndexOpenings(openings);
    var connections := ParseRecords(options.connections, DecodeConnection, CONNECTION_ID);
    var graph := ResolveTopologyGraph(rooms, openings, connections);
    var ofOpenings := CheckOpenings(rooms, openings);
    var ofConnections := CheckConnections(rooms, byId, connections);
    var ofRooms: seq<Issue> := [];
    if openings != [] || connections != [] {
      ofRooms := CheckIsolation(rooms, graph.connections, FirstOccurrences(RoomIdsIn(options.rooms)));
    }
    var ofEntities := CheckSharedEntities(openings, TypeByOpening(graph.connections), FirstOccurrences(EntitiesIn(openings)));
    issues := ofOpenings + ofConnections + ofRooms + ofEntities;
  }

  method CheckActuatorReferences(rooms: map<string, Raw>, byId: map<string, Opening>, actuators: seq<Actuator>)
    returns (issues: seq<ActuatorIssue>)
    ensures issues == OwnActuatorIssues(rooms, byId, actuators)
  {
    issues := [];
    for i := 0 to |actuators|
      invariant issues == OwnActuatorIssues(rooms, byId, actuators[..i])
    {
      assert actuators[..i + 1][..i] == actuators[..i];
      var a := actuators[i];
      ghost var before := issues;
      if a.room !in rooms {
        issues := issues + [ActuatorInMissingRoom(a.id)];
      }
      if a.opening.Some? {
        if a.opening.value !in byId {
          issues := issues + [ActuatorAtMissingOpening(a.id)];
        } else if byId[a.opening.value].room != a.room {
          issues := issues + [ActuatorInOtherRoom(a.id)];
        }
      }
      assert issues == before + ActuatorIssuesOf(rooms, byId, a);
    }
    assert actuators[..|actuators|] == actuators;
  }

  method CheckSharedActuators(actuators: seq<Actuator>, entities: seq<string>) returns (issues: seq<ActuatorIssue>)
    ensures issues == SharedEntityIssues(actuators, entities)
  {
    issues := [];
    for i := 0 to |entities|
      invariant issues == SharedEntityIssues(actuators, entities[..i])
    {
      assert entities[..i + 1][..i] == entities[..i];
      if |ActuatorsOf(actuators, entities[i])| < 2 {
        continue;
      }
      issues := issues + [ActuatorEntityShared(entities[i])];
    }
    assert entities[..|entities|] == entities;
  }

  method CheckActuators(options: Options) returns (issues: seq<ActuatorIssue>)
    ensures issues == ValidateActuators(options)
  {
    var actuators := ParseRecords(options.actuators, DecodeActuator, ACTUATOR_ID);
    var rooms := CollectRooms(options.rooms);
    var openings := ParseRecords(options.openings, DecodeOpening, OPENING_ID);
    var byId := IndexOpenings(openings);
    var ofActuators := CheckActuatorReferences(rooms, byId, actuators);
    var ofEntities := CheckSharedActuators(actuators, FirstOccurrences(ActuatorEntities(actuators)));
    issues := ofActuators + ofEntities;
  }

  /** The coordinator's entry points: what is stored changes only by accepted edits. */
  class Registry {
    var options: Options

    constructor (options: Options)
      ensures this.options == options
    {
      this.options := options;
    }

    method ApplyMutation(mutation: Mutation) returns (ok: bool, reasons: seq<Refusal>)
      modifies this
      ensures ok <==> mutation.Accepted?
      ensures options == if mutation.Accepted? then mutation.options else old(options)
      ensures reasons == if mutation.Accepted? then [] else mutation.reasons
    {
      if mutation.Refused? {
        return false, mutation.reasons;
      }
      options := mutation.options;
      return true, [];
    }

    method EditTopology(e: Edit) returns (ok: bool, reasons: seq<Refusal>)
      requires !e.DeleteOpening?
      modifies this
      ensures options == Next(old(options), e)
      ensures ok <==> Attempt(old(options), e).Accepted?
      ensures !ok ==> reasons == Attempt(old(options), e).reasons
    {
      ok, reasons := ApplyMutation(Attempt(options, e));
    }

    /** Actuators are looked at here, because the topology validator does not know them. */
    method DeleteRoomOpening(id: string) returns (ok: bool, reasons: seq<Refusal>)
      modifies this
      ensures options == Next(old(options), DeleteOpening(id))
      ensures ok <==> Attempt(old(options), DeleteOpening(id)).Accepted?
      ensures !ok ==> reasons == Attempt(old(options), DeleteOpening(id)).reasons
    {
      if id != "" && IsOpeningReferenced(options, id) {
        return false, [ReferencedByActuator(id)];
      }
      var mutation := Refused([]);
      if id != "" {
        ShorterMeansStored(options.openings, OpeningId, id);
        var remaining := WithoutEntries(options.openings, OpeningId, id);
        if |remaining| != |Dictionaries(options.openings)| {
          mutation := IfTopologyAllows(options.(openings := remaining));
        }
      }
      ok, reasons := ApplyMutation(mutation);
    }
  }

  // ----- caches

  /** A derived value, rebuilt on the first read after it was marked stale and on no other. */
  class Cache<T> {
    const build: Options -> T
    var stale: bool
    var value: T
    ghost var builtFrom: Options

    ghost predicate Valid()
      reads this
    {
      !stale ==> value == build(builtFrom)
    }

    /** The cache as the run-level argument below sees it. */
    ghost function State(current: Options): CacheState
      reads this
    {
      CacheState(current, stale, builtFrom)
    }

    constructor (build: Options -> T, empty: T)
      ensures Valid() && stale && this.build == build
    {
      this.build, this.value, this.stale := build, empty, true;
    }

    method MarkStale()
      modifies this`stale
      ensures Valid() && forall current :: State(current) == CacheNext(old(State(current)), StaleMark)
    {
      stale := true;
    }

    method Read(options: Options) returns (r: T)
      requires Valid()
      modifies this
      ensures Valid() && State(options) == CacheNext(old(State(options)), CacheRead)
      ensures r == build(builtFrom)
    {
      if stale {
        value := build(options);
        builtFrom := options;
        stale := false;
      }
      return value;
    }
  }

  datatype CacheEvent = OptionsChange(options: Options) | StaleMark | CacheRead

  /** The current options, whether the cache is stale, and what it was built from. */
  datatype CacheState = CacheState(current: Options, stale: bool, builtFrom: Options)

  function CacheNext(s: CacheState, e: CacheEvent): CacheState {
    match e
    case OptionsChange(options) => s.(current := options)
    case StaleMark => s.(stale := true)
    case CacheRead => if s.stale then s.(stale := false, builtFrom := s.current) else s
  }

  /** What the reads of a run return is built from, in order. */
  function ReadsOf(s: CacheState, events: seq<CacheEvent>): seq<Options>
    decreases |events|
  {
    if events == [] then []
    else
      var next := CacheNext(s, events[0]);
      (if events[0].CacheRead? then [next.builtFrom] else []) + ReadsOf(next, events[1..])
  }

  /** The options in force at the reads of a run. */
  function OptionsAtReads(s: CacheState, events: seq<CacheEvent>): seq<Options>
    decreases |events|
  {
    if events == [] then []
    else (if events[0].CacheRead? then [s.current] else []) + OptionsAtReads(CacheNext(s, events[0]), events[1..])
  }

  /** `marked` tells whether the cache has been marked stale since the last change of the options. */
  predicate MarksBeforeReading(events: seq<CacheEvent>, marked: bool)
    decreases |events|
  {
    events == [] ||
    match events[0]
    case OptionsChange(_) => MarksBeforeReading(events[1..], false)
    case StaleMark => MarksBeforeReading(events[1..], true)
    case CacheRead => marked && MarksBeforeReading(events[1..], marked)
  }

  /** If every change of the options is followed by a stale mark before the next read, every read
      returns what building from the current options would. */
  lemma {:induction false} CachesAgree(s: CacheState, events: seq<CacheEvent>, marked: bool)
    requires MarksBeforeReading(events, marked)
    requires marked && !s.stale ==> s.builtFrom == s.current
    ensures ReadsOf(s, events) == OptionsAtReads(s, events)
    decreases |events|
  {
    if events != [] {
      var next := CacheNext(s, events[0]);
      CachesAgree(next, events[1..], match events[0]
        case OptionsChange(_) => false
        case StaleMark => true
        case CacheRead => marked);
    }
  }
}

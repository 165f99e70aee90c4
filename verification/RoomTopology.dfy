/** Rooms, openings and connections: decoding stored entries, resolving the graph, validating it,
    and the edits that pass through the validator. */
module RoomTopology {
  import opened Wrappers
  import opened RawRecords

  const OUTSIDE: string := "outside"

  datatype RoomType = Indoor | Balcony | Garage | Basement | Outdoor | External | Transit

  datatype ConnectionType = IndoorConnection | OutdoorConnection | SeparateConnection

  datatype Opening = Opening(id: string, room: string, kind: string, orientation: Option<string>, entity: Option<string>)
  {
    predicate IsDoorLike() {
      kind == "door" || kind == "door_window"
    }

    predicate IsWindowLike() {
      kind == "window" || kind == "door_window"
    }
  }

  datatype Connection = Connection(id: string, opening: string, roomB: string, access: string, override: Option<ConnectionType>)

  datatype ResolvedConnection = ResolvedConnection(connection: Connection, roomA: string, kind: ConnectionType)

  /** The stored options, as far as rooms are concerned; `other` holds all remaining keys. */
  datatype Options = Options(rooms: seq<Raw>, openings: seq<Raw>, connections: seq<Raw>, actuators: seq<Raw>,
                             other: map<string, string>)

  // ----- decoding

  predicate IsOpeningKind(s: string) {
    s in {"door", "window", "door_window"}
  }

  predicate IsOrientation(s: string) {
    s in {"north", "northeast", "east", "southeast", "south", "southwest", "west", "northwest"}
  }

  predicate IsAccessType(s: string) {
    s in {"direct", "stairs", "elevator"}
  }

  function ConnectionTypeNamed(s: string): Option<ConnectionType> {
    if s == "indoor" then Some(IndoorConnection)
    else if s == "outdoor" then Some(OutdoorConnection)
    else if s == "separate" then Some(SeparateConnection)
    else None
  }

  function RoomTypeNamed(s: string): Option<RoomType> {
    if s == "indoor" then Some(Indoor)
    else if s == "balcony" then Some(Balcony)
    else if s == "garage" then Some(Garage)
    else if s == "basement" then Some(Basement)
    else if s == "outdoor" then Some(Outdoor)
    else if s == "external" then Some(External)
    else if s == "transit" then Some(Transit)
    else None
  }

  /** Absent and unknown room types count as indoor. */
  function RoomTypeOf(room: Raw): RoomType {
    var named := RoomTypeNamed(Get(room, RoomKind));
    if named.Some? then named.value else Indoor
  }

  function DecodeOpening(raw: Raw): Option<Opening> {
    if raw.NotADict? || Get(raw, OpeningId) == "" || Get(raw, RoomId) == "" || !IsOpeningKind(Get(raw, OpeningKind)) then None
    else
      var orientation := Get(raw, Orientation);
      Some(Opening(Get(raw, OpeningId), Get(raw, RoomId), Get(raw, OpeningKind),
        if IsOrientation(orientation) then Some(orientation) else None, NonEmpty(Get(raw, EntityId))))
  }

  function DecodeConnection(raw: Raw): Option<Connection> {
    if raw.NotADict? || Get(raw, ConnectionId) == "" || Get(raw, OpeningId) == "" || Get(raw, RoomB) == "" then None
    else
      var access := Get(raw, AccessType);
      Some(Connection(Get(raw, ConnectionId), Get(raw, OpeningId), Get(raw, RoomB),
        if IsAccessType(access) then access else "direct", ConnectionTypeNamed(Get(raw, ConnectionTypeOverride))))
  }

  const OPENING_ID: Opening -> string := (o: Opening) => o.id
  const CONNECTION_ID: Connection -> string := (c: Connection) => c.id

  function ParseOpenings(options: Options): seq<Opening> {
    Parse(options.openings, DecodeOpening, OPENING_ID)
  }

  function ParseConnections(options: Options): seq<Connection> {
    Parse(options.connections, DecodeConnection, CONNECTION_ID)
  }

  lemma DecodersTakeTheId()
    ensures DecodesId(DecodeOpening, OPENING_ID, OpeningId)
    ensures DecodesId(DecodeConnection, CONNECTION_ID, ConnectionId)
  {}

  /** Rooms by id; of several entries with one id the last counts. */
  function RoomsById(raws: seq<Raw>): map<string, Raw> {
    if raws == [] then map[]
    else
      var earlier, last := RoomsById(raws[..|raws| - 1]), raws[|raws| - 1];
      if last.Dict? && Get(last, RoomId) != "" then earlier[Get(last, RoomId) := last] else earlier
  }

  /** Records by id; of several records with one id the last counts. */
  function OpeningsById(openings: seq<Opening>): map<string, Opening> {
    if openings == [] then map[]
    else OpeningsById(openings[..|openings| - 1])[openings[|openings| - 1].id := openings[|openings| - 1]]
  }

  // ----- the graph

  /** An override wins; otherwise the more separate side decides, and outside is separate. */
  function DeriveConnectionType(roomA: RoomType, roomB: Option<RoomType>, override: Option<ConnectionType>): ConnectionType {
    if override.Some? then override.value
    else if roomB.None? || roomA == External || roomB.value == External then SeparateConnection
    else if roomA in {Garage, Basement} || roomB.value in {Garage, Basement} then SeparateConnection
    else if roomA in {Balcony, Outdoor} || roomB.value in {Balcony, Outdoor} then OutdoorConnection
    else IndoorConnection
  }

  function ResolveOne(rooms: map<string, Raw>, openings: map<string, Opening>, c: Connection): Option<ResolvedConnection> {
    if c.opening !in openings || !openings[c.opening].IsDoorLike() then None
    else
      var roomA := openings[c.opening].room;
      if roomA !in rooms then None
      else if c.roomB != OUTSIDE && c.roomB !in rooms then None
      else
        var typeB := if c.roomB == OUTSIDE then None else Some(RoomTypeOf(rooms[c.roomB]));
        Some(ResolvedConnection(c, roomA, DeriveConnectionType(RoomTypeOf(rooms[roomA]), typeB, c.override)))
  }

  function ResolveAll(rooms: map<string, Raw>, openings: map<string, Opening>,
                      connections: seq<Connection>): seq<ResolvedConnection> {
    if connections == [] then []
    else
      var earlier := ResolveAll(rooms, openings, connections[..|connections| - 1]);
      var last := ResolveOne(rooms, openings, connections[|connections| - 1]);
      if last.Some? then earlier + [last.value] else earlier
  }

  /** The orientations a room is exposed to; the program lists them sorted. */
  function Exposure(room: string, openings: seq<Opening>): set<string> {
    set o <- openings | o.room == room && o.IsWindowLike() && o.orientation.Some? :: o.orientation.value
  }

  datatype Graph = Graph(openings: seq<Opening>, connections: seq<ResolvedConnection>, exposure: map<string, set<string>>)

  function BuildGraph(options: Options): Graph {
    var rooms, openings := RoomsById(options.rooms), ParseOpenings(options);
    Graph(openings, ResolveAll(rooms, OpeningsById(openings), ParseConnections(options)),
      map room <- rooms :: Exposure(room, openings))
  }

  // ----- validation

  datatype Issue =
    | OpeningInMissingRoom(opening: string)
    | ConnectionToMissingOpening(connection: string)
    | ConnectionThroughNonDoor(connection: string)
    | ConnectionToMissingRoom(connection: string)
    | RoomIsolated(room: string)
    | EntitySharedInConflict(entity: string)
    | EntityShared(entity: string)

  predicate IsError(issue: Issue) {
    !issue.RoomIsolated? && !issue.EntityShared?
  }

  function OpeningIssues(rooms: map<string, Raw>, openings: seq<Opening>): seq<Issue> {
    if openings == [] then []
    else
      var last := openings[|openings| - 1];
      OpeningIssues(rooms, openings[..|openings| - 1])
      + if last.room in rooms then [] else [OpeningInMissingRoom(last.id)]
  }

  function IssuesOf(rooms: map<string, Raw>, openings: map<string, Opening>, c: Connection): seq<Issue> {
    (if c.opening !in openings then [ConnectionToMissingOpening(c.id)]
     else if !openings[c.opening].IsDoorLike() then [ConnectionThroughNonDoor(c.id)]
     else [])
    + (if c.roomB != OUTSIDE && c.roomB !in rooms then [ConnectionToMissingRoom(c.id)] else [])
  }

  function ConnectionIssues(rooms: map<string, Raw>, openings: map<string, Opening>, connections: seq<Connection>): seq<Issue> {
    if connections == [] then []
    else
      ConnectionIssues(rooms, openings, connections[..|connections| - 1])
      + IssuesOf(rooms, openings, connections[|connections| - 1])
  }

  /** Strings in the order in which they first occur: the key order of a dictionary filled with them. */
  function FirstOccurrences(s: seq<string>): seq<string> {
    if s == [] then []
    else
      var earlier, last := FirstOccurrences(s[..|s| - 1]), s[|s| - 1];
      if last in earlier then earlier else earlier + [last]
  }

  function RoomIdsIn(raws: seq<Raw>): seq<string> {
    if raws == [] then []
    else
      var last := raws[|raws| - 1];
      RoomIdsIn(raws[..|raws| - 1]) + if last.Dict? && Get(last, RoomId) != "" then [Get(last, RoomId)] else []
  }

  function EntitiesIn(openings: seq<Opening>): seq<string> {
    if openings == [] then []
    else
      var last := openings[|openings| - 1];
      EntitiesIn(openings[..|openings| - 1]) + if last.entity.Some? then [last.entity.value] else []
  }

  predicate IsReferenced(resolved: seq<ResolvedConnection>, room: string) {
    exists r <- resolved :: r.roomA == room || (r.connection.roomB == room && room != OUTSIDE)
  }

  function IsolationIssues(rooms: map<string, Raw>, resolved: seq<ResolvedConnection>, ids: seq<string>): seq<Issue> {
    if ids == [] then []
    else
      var last := ids[|ids| - 1];
      var exempt := last !in rooms || RoomTypeOf(rooms[last]) in {Garage, Basement, Outdoor, External};
      IsolationIssues(rooms, resolved, ids[..|ids| - 1])
      + if exempt || IsReferenced(resolved, last) then [] else [RoomIsolated(last)]
  }

  /** The boundary each opening ends up with: that of the last connection resolved through it. */
  function TypeByOpening(resolved: seq<ResolvedConnection>): map<string, ConnectionType> {
    if resolved == [] then map[]
    else
      var last := resolved[|resolved| - 1];
      TypeByOpening(resolved[..|resolved| - 1])[last.connection.opening := last.kind]
  }

  function OpeningsOf(openings: seq<Opening>, entity: string): set<string> {
    set o <- openings | o.entity == Some(entity) :: o.id
  }

  function BoundariesOf(openings: seq<Opening>, types: map<string, ConnectionType>, entity: string): set<ConnectionType> {
    set id <- OpeningsOf(openings, entity) | id in types :: types[id]
  }

  function EntityIssues(openings: seq<Opening>, types: map<string, ConnectionType>, entities: seq<string>): seq<Issue> {
    if entities == [] then []
    else
      var last := entities[|entities| - 1];
      EntityIssues(openings, types, entities[..|entities| - 1])
      + (if |OpeningsOf(openings, last)| < 2 then []
         else if |BoundariesOf(openings, types, last)| > 1 then [EntitySharedInConflict(last)]
         else [EntityShared(last)])
  }

  function ValidateTopology(options: Options): seq<Issue> {
    var rooms, openings, connections := RoomsById(options.rooms), ParseOpenings(options), ParseConnections(options);
    var byId := OpeningsById(openings);
    var resolved := ResolveAll(rooms, byId, connections);
    OpeningIssues(rooms, openings)
    + ConnectionIssues(rooms, byId, connections)
    + (if openings == [] && connections == [] then []
       else IsolationIssues(rooms, resolved, FirstOccurrences(RoomIdsIn(options.rooms))))
    + EntityIssues(openings, TypeByOpening(resolved), FirstOccurrences(EntitiesIn(openings)))
  }

  predicate IsErrorFree(options: Options) {
    forall issue <- ValidateTopology(options) :: !IsError(issue)
  }
}

/** The admin's edits of rooms, openings, connections and actuators: each builds a candidate and is
    accepted unless validating the candidate finds an error. */
module TopologyEdits {
  import opened Wrappers
  import opened RawRecords
  import opened RoomTopology
  import opened Actuators

  datatype Refusal =
    | TopologyError(issue: Issue)
    | ActuatorError(actuatorIssue: ActuatorIssue)
    | ReferencedByActuator(opening: string)

  /** A refusal without reasons is a request that does not make sense by itself. */
  datatype Mutation = Accepted(options: Options) | Refused(reasons: seq<Refusal>)

  /** The admin's actions. An empty id asks for a new record, for which `newId` is the generated id. */
  datatype Edit =
    | SetRoomFields(room: string, roomKind: Option<string>, floor: Option<string>)
    | UpsertOpening(id: string, newId: string, room: string, openingKind: string, orientation: Option<string>, entity: string)
    | DeleteOpening(id: string)
    | UpsertConnection(id: string, newId: string, opening: string, roomB: string, access: Option<string>, override: Option<string>)
    | DeleteConnection(id: string)
    | UpsertActuator(id: string, newId: string, actuatorEntity: string, room: string, actuatorOpening: string, name: string)
    | DeleteActuator(id: string)

  function IdOr(id: string, newId: string): string {
    if id != "" then id else newId
  }

  function OrEmpty(s: Option<string>): string {
    if s.Some? then s.value else ""
  }

  // ----- validating candidates

  function TopologyErrors(issues: seq<Issue>): seq<Refusal> {
    if issues == [] then []
    else TopologyErrors(issues[..|issues| - 1])
         + if IsError(issues[|issues| - 1]) then [TopologyError(issues[|issues| - 1])] else []
  }

  function ActuatorErrors(issues: seq<ActuatorIssue>): seq<Refusal> {
    if issues == [] then []
    else ActuatorErrors(issues[..|issues| - 1])
         + if IsActuatorError(issues[|issues| - 1]) then [ActuatorError(issues[|issues| - 1])] else []
  }

  function IfTopologyAllows(candidate: Options): Mutation {
    var blocking := TopologyErrors(ValidateTopology(candidate));
    if blocking != [] then Refused(blocking) else Accepted(candidate)
  }

  function IfActuatorsAllow(candidate: Options): Mutation {
    var blocking := ActuatorErrors(ValidateActuators(candidate));
    if blocking != [] then Refused(blocking) else Accepted(candidate)
  }

  lemma {:induction false} NoTopologyErrors(issues: seq<Issue>)
    ensures TopologyErrors(issues) == [] <==> forall issue :: issue in issues ==> !IsError(issue)
  {
    if issues != [] {
      var init, last := issues[..|issues| - 1], issues[|issues| - 1];
      NoTopologyErrors(init);
      assert forall issue :: issue in issues <==> issue in init || issue == last;
    }
  }

  /** The topology edits are accepted exactly when the candidate is free of errors. */
  lemma AllowedMeansErrorFree(candidate: Options)
    ensures IfTopologyAllows(candidate) == Accepted(candidate) <==> IsErrorFree(candidate)
    ensures IfTopologyAllows(candidate).Accepted? <==> IsErrorFree(candidate)
  {
    hide ValidateTopology;
    NoTopologyErrors(ValidateTopology(candidate));
  }

  // ----- the entries that edits store

  function WithFields(room: Raw, roomKind: Option<string>, floor: Option<string>): Raw
    requires room.Dict?
  {
    var typed := if roomKind.Some? then room.fields[RoomKind := roomKind.value] else room.fields;
    Dict(if floor.Some? then typed[Floor := floor.value] else typed)
  }

  function RoomsWithFields(raws: seq<Raw>, room: string, roomKind: Option<string>, floor: Option<string>): (updated: seq<Raw>)
    ensures |updated| == |raws|
  {
    if raws == [] then []
    else
      var last := raws[|raws| - 1];
      RoomsWithFields(raws[..|raws| - 1], room, roomKind, floor)
      + [if last.Dict? && Get(last, RoomId) == room then WithFields(last, roomKind, floor) else last]
  }

  function OpeningEntry(e: Edit): Raw
    requires e.UpsertOpening?
  {
    Dict(map[OpeningId := IdOr(e.id, e.newId), RoomId := e.room, OpeningKind := e.openingKind,
             Orientation := OrEmpty(e.orientation), EntityId := e.entity])
  }

  function ConnectionEntry(e: Edit): Raw
    requires e.UpsertConnection?
  {
    Dict(map[ConnectionId := IdOr(e.id, e.newId), OpeningId := e.opening, RoomB := e.roomB,
             AccessType := if OrEmpty(e.access) != "" then OrEmpty(e.access) else "direct",
             ConnectionTypeOverride := OrEmpty(e.override)])
  }

  function ActuatorEntry(e: Edit): Raw
    requires e.UpsertActuator?
  {
    Dict(map[ActuatorId := IdOr(e.id, e.newId), EntityId := e.actuatorEntity, RoomId := e.room,
             OpeningId := e.actuatorOpening, DisplayName := e.name])
  }

  // ----- one edit

  function Attempt(options: Options, e: Edit): Mutation {
    match e
    case SetRoomFields(room, roomKind, floor) =>
      if room == "" || (roomKind.Some? && RoomTypeNamed(roomKind.value).None?) || !IsStored(options.rooms, RoomId, room) then Refused([])
      else IfTopologyAllows(options.(rooms := RoomsWithFields(options.rooms, room, roomKind, floor)))
    case UpsertOpening(id, newId, room, kind, orientation, _) =>
      if room == "" || !IsOpeningKind(kind) || (orientation.Some? && !IsOrientation(orientation.value)) then Refused([])
      else IfTopologyAllows(options.(
        openings := WithoutEntries(options.openings, OpeningId, IdOr(id, newId)) + [OpeningEntry(e)]))
    case DeleteOpening(id) =>
      if IsOpeningReferenced(options, id) then Refused([ReferencedByActuator(id)])
      else if id == "" || !IsStored(options.openings, OpeningId, id) then Refused([])
      else IfTopologyAllows(options.(openings := WithoutEntries(options.openings, OpeningId, id)))
    case UpsertConnection(id, newId, opening, roomB, access, override) =>
      if opening == "" || roomB == "" || (access.Some? && !IsAccessType(access.value))
        || (override.Some? && ConnectionTypeNamed(override.value).None?) then Refused([])
      else IfTopologyAllows(options.(
        connections := WithoutEntries(options.connections, ConnectionId, IdOr(id, newId)) + [ConnectionEntry(e)]))
    case DeleteConnection(id) =>
      if id == "" || !IsStored(options.connections, ConnectionId, id) then Refused([])
      else IfTopologyAllows(options.(connections := WithoutEntries(options.connections, ConnectionId, id)))
    case UpsertActuator(id, newId, entity, room, _, _) =>
      if entity == "" || room == "" then Refused([])
      else IfActuatorsAllow(options.(
        actuators := WithoutEntries(options.actuators, ActuatorId, IdOr(id, newId)) + [ActuatorEntry(e)]))
    case DeleteActuator(id) =>
      if id == "" || !IsStored(options.actuators, ActuatorId, id) then Refused([])
      else IfActuatorsAllow(options.(actuators := WithoutEntries(options.actuators, ActuatorId, id)))
  }

  /** Generated ids are never empty. */
  predicate HasFreshId(e: Edit) {
    match e
    case UpsertOpening(_, newId, _, _, _, _) => newId != ""
    case UpsertConnection(_, newId, _, _, _, _) => newId != ""
    case UpsertActuator(_, newId, _, _, _, _) => newId != ""
    case _ => true
  }

  function Next(options: Options, e: Edit): Options {
    var mutation := Attempt(options, e);
    if mutation.Accepted? then mutation.options else options
  }

  function After(options: Options, edits: seq<Edit>): Options
    decreases |edits|
  {
    if edits == [] then options else After(Next(options, edits[0]), edits[1..])
  }
}

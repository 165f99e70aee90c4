/** The actuator registry: which entity stands in which room, optionally at which opening. */
module Actuators {
  import opened Wrappers
  import opened RawRecords
  import opened RoomTopology

  datatype Actuator = Actuator(id: string, entity: string, room: string, opening: Option<string>, name: Option<string>)

  function DecodeActuator(raw: Raw): Option<Actuator> {
    if raw.NotADict? || Get(raw, ActuatorId) == "" || Get(raw, EntityId) == "" || Get(raw, RoomId) == "" then None
    else Some(Actuator(Get(raw, ActuatorId), Get(raw, EntityId), Get(raw, RoomId),
      NonEmpty(Get(raw, OpeningId)), NonEmpty(Get(raw, DisplayName))))
  }

  const ACTUATOR_ID: Actuator -> string := (a: Actuator) => a.id

  function ParseActuators(options: Options): seq<Actuator> {
    Parse(options.actuators, DecodeActuator, ACTUATOR_ID)
  }

  lemma DecoderTakesTheId()
    ensures DecodesId(DecodeActuator, ACTUATOR_ID, ActuatorId)
  {}

  predicate IsOpeningReferenced(options: Options, opening: string) {
    opening != "" && exists a <- ParseActuators(options) :: a.opening == Some(opening)
  }

  datatype ActuatorIssue =
    | ActuatorInMissingRoom(actuator: string)
    | ActuatorAtMissingOpening(actuator: string)
    | ActuatorInOtherRoom(actuator: string)
    | ActuatorEntityShared(entity: string)

  /** Dangling references are only warned about; a reference across rooms is an error. */
  predicate IsActuatorError(issue: ActuatorIssue) {
    issue.ActuatorInOtherRoom?
  }

  function ActuatorIssuesOf(rooms: map<string, Raw>, openings: map<string, Opening>, a: Actuator): seq<ActuatorIssue> {
    (if a.room in rooms then [] else [ActuatorInMissingRoom(a.id)])
    + (if a.opening.None? then []
       else if a.opening.value !in openings then [ActuatorAtMissingOpening(a.id)]
       else if openings[a.opening.value].room != a.room then [ActuatorInOtherRoom(a.id)]
       else [])
  }

  function OwnActuatorIssues(rooms: map<string, Raw>, openings: map<string, Opening>,
                             actuators: seq<Actuator>): seq<ActuatorIssue> {
    if actuators == [] then []
    else
      OwnActuatorIssues(rooms, openings, actuators[..|actuators| - 1])
      + ActuatorIssuesOf(rooms, openings, actuators[|actuators| - 1])
  }

  function ActuatorEntities(actuators: seq<Actuator>): seq<string> {
    if actuators == [] then []
    else ActuatorEntities(actuators[..|actuators| - 1]) + [actuators[|actuators| - 1].entity]
  }

  function ActuatorsOf(actuators: seq<Actuator>, entity: string): set<string> {
    set a <- actuators | a.entity == entity :: a.id
  }

  function SharedEntityIssues(actuators: seq<Actuator>, entities: seq<string>): seq<ActuatorIssue> {
    if entities == [] then []
    else
      var last := entities[|entities| - 1];
      SharedEntityIssues(actuators, entities[..|entities| - 1])
      + if |ActuatorsOf(actuators, last)| < 2 then [] else [ActuatorEntityShared(last)]
  }

  function ValidateActuators(options: Options): seq<ActuatorIssue> {
    var actuators := ParseActuators(options);
    OwnActuatorIssues(RoomsById(options.rooms), OpeningsById(ParseOpenings(options)), actuators)
    + SharedEntityIssues(actuators, FirstOccurrences(ActuatorEntities(actuators)))
  }
}

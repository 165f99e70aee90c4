/** The chain of options migrations that runs on every options update: legacy learning keys, room
    signals, darkness buckets, burst settings, reaction payloads. Each stage reports whether it changed anything. */
module OptionsMigration {
  import opened Wrappers
  import opened ReactionPayloads

  /** What the chain asks its surroundings: the device class of an entity, and how texts are lowered
      and read as numbers. Fixed while the options settle. */
  datatype Env = Env(deviceClass: string -> string, lower: string -> string,
                     number: string -> Option<real>, integer: string -> Option<int>,
                     texts: TextNormalizers)

  // ----- stored options

  datatype LearningKey = OutdoorLuxEntity | OutdoorTempEntity | WeatherEntity | OtherLearning(name: string)
  datatype Slot = OutdoorLux | OutdoorTemp | WeatherCondition | OtherSlot(name: string)

  datatype Learning = NoLearning | LearningDict(entries: map<LearningKey, string>)

  /** A bucket reaches up to its bound; one without bound reaches up to everything. */
  datatype Bucket = Bucket(text: string, upperBound: Option<real>)

  datatype Signal =
    | NotASignal
    | Signal(name: string, entity: string, buckets: seq<Bucket>, burstThreshold: Option<real>, burstWindow: int, burstDirection: string)

  datatype Room = NotARoom | Room(id: string, learningSources: seq<string>, signals: seq<Signal>)

  datatype Options = Options(learning: Learning, context: map<Slot, string>, rooms: seq<Room>, reactions: seq<Reaction>)

  datatype Stage = Stage(options: Options, changed: bool)

  // ----- first stage: legacy learning keys

  const LEGACY_LEARNING: seq<(LearningKey, seq<Slot>)> :=
    [(OutdoorLuxEntity, [OutdoorLux]), (OutdoorTempEntity, [OutdoorTemp]), (WeatherEntity, [WeatherCondition, OutdoorTemp])]

  const LEGACY_KEYS: set<LearningKey> := {OutdoorLuxEntity, OutdoorTempEntity, WeatherEntity}

  /** A value moves into every slot that is still empty. */
  function Filled(context: map<Slot, string>, slots: seq<Slot>, value: string): map<Slot, string> {
    if slots == [] then context
    else
      var earlier := Filled(context, slots[..|slots| - 1], value);
      if value != "" && Value(earlier, slots[|slots| - 1]) == "" then earlier[slots[|slots| - 1] := value] else earlier
  }

  function MovedContext(context: map<Slot, string>, entries: map<LearningKey, string>,
                        keys: seq<(LearningKey, seq<Slot>)>): map<Slot, string> {
    if keys == [] then context
    else
      var earlier, last := MovedContext(context, entries, keys[..|keys| - 1]), keys[|keys| - 1];
      Filled(earlier, last.1, Value(entries, last.0))
  }

  predicate HasLegacyLearning(learning: Learning) {
    learning.LearningDict? && exists key <- LEGACY_KEYS :: key in learning.entries
  }

  function MigrateLearning(o: Options): Stage {
    if !HasLegacyLearning(o.learning) then Stage(o, false)
    else Stage(o.(learning := LearningDict(o.learning.entries - LEGACY_KEYS),
                   context := MovedContext(o.context, o.learning.entries, LEGACY_LEARNING)), true)
  }

  // ----- second stage: room signals

  function SignalNameFor(deviceClass: string): string {
    if deviceClass == "illuminance" then "room_lux"
    else if deviceClass == "carbon_dioxide" then "room_co2"
    else if deviceClass == "humidity" then "room_humidity"
    else if deviceClass == "temperature" then "room_temperature"
    else ""
  }

  function DefaultBuckets(deviceClass: string): seq<Bucket> {
    if deviceClass == "illuminance" then
      [Bucket("dark", Some(30.0)), Bucket("dim", Some(100.0)), Bucket("ok", Some(300.0)), Bucket("bright", None)]
    else if deviceClass == "carbon_dioxide" then
      [Bucket("ok", Some(800.0)), Bucket("elevated", Some(1200.0)), Bucket("high", None)]
    else if deviceClass == "humidity" then
      [Bucket("low", Some(40.0)), Bucket("ok", Some(70.0)), Bucket("high", None)]
    else if deviceClass == "temperature" then
      [Bucket("cool", Some(20.0)), Bucket("ok", Some(24.0)), Bucket("warm", Some(27.0)), Bucket("hot", None)]
    else []
  }

  function Synthesized(sources: seq<string>, env: Env): seq<Signal> {
    if sources == [] then []
    else
      var entity := sources[|sources| - 1];
      var deviceClass := env.deviceClass(entity);
      Synthesized(sources[..|sources| - 1], env)
      + if SignalNameFor(deviceClass) == "" then []
        else [Signal(SignalNameFor(deviceClass), entity, DefaultBuckets(deviceClass), None, 0, "")]
  }

  predicate NeedsSignals(room: Room, env: Env) {
    room.Room? && room.signals == [] && Synthesized(room.learningSources, env) != []
  }

  function WithSignals(room: Room, env: Env): Room {
    if NeedsSignals(room, env) then room.(signals := Synthesized(room.learningSources, env)) else room
  }

  function AllWithSignals(rooms: seq<Room>, env: Env): (r: seq<Room>)
    ensures |r| == |rooms|
    ensures forall i :: 0 <= i < |rooms| ==> r[i] == WithSignals(rooms[i], env)
  {
    seq(|rooms|, i requires 0 <= i < |rooms| => WithSignals(rooms[i], env))
  }

  predicate AnyNeedsSignals(rooms: seq<Room>, env: Env) {
    exists room <- rooms :: NeedsSignals(room, env)
  }

  function Autopopulate(o: Options, env: Env): Stage {
    if AnyNeedsSignals(o.rooms, env) then Stage(o.(rooms := AllWithSignals(o.rooms, env)), true) else Stage(o, false)
  }

  // ----- third stage: darkness thresholds become buckets

  function Labelled(buckets: seq<Bucket>): (kept: seq<Bucket>)
    ensures forall i :: 0 <= i < |kept| ==> kept[i].text != ""
  {
    if buckets == [] then []
    else Labelled(buckets[..|buckets| - 1]) + if buckets[|buckets| - 1].text != "" then [buckets[|buckets| - 1]] else []
  }

  /** The buckets of a room's signal; of several signals with the same name the last counts. */
  function BucketsIn(signals: seq<Signal>, name: string): seq<Bucket> {
    if signals == [] then []
    else
      var last := signals[|signals| - 1];
      if last.Signal? && last.name == name && Labelled(last.buckets) != [] then Labelled(last.buckets)
      else BucketsIn(signals[..|signals| - 1], name)
  }

  function BucketsFor(rooms: seq<Room>, room: string, name: string): seq<Bucket> {
    if rooms == [] then []
    else
      var last := rooms[|rooms| - 1];
      if last.Room? && last.id == room && BucketsIn(last.signals, name) != [] then BucketsIn(last.signals, name)
      else BucketsFor(rooms[..|rooms| - 1], room, name)
  }

  function BucketForThreshold(buckets: seq<Bucket>, threshold: Option<real>): Option<string> {
    if threshold.None? || buckets == [] then None
    else if buckets[0].upperBound.None? || threshold.value < buckets[0].upperBound.value then Some(buckets[0].text)
    else BucketForThreshold(buckets[1..], threshold)
  }

  function Threshold(r: Reaction, env: Env): Option<real>
    requires r.Reaction?
  {
    if PrimaryThreshold in r.settings then env.number(r.settings[PrimaryThreshold]) else None
  }

  function BucketOf(rooms: seq<Room>, r: Reaction, env: Env): Option<string>
    requires r.Reaction?
  {
    if r.room == "" || r.primarySignal == "" then None
    else BucketForThreshold(BucketsFor(rooms, r.room, r.primarySignal), Threshold(r, env))
  }

  predicate NeedsBucket(rooms: seq<Room>, r: Reaction, env: Env) {
    r.Reaction? && r.kind == "room_darkness_lighting_assist" && r.primaryBucket == "" && BucketOf(rooms, r, env).Some?
  }

  function WithBucket(rooms: seq<Room>, r: Reaction, env: Env): Reaction {
    if NeedsBucket(rooms, r, env) then
      r.(primaryBucket := BucketOf(rooms, r, env).value, settings := r.settings - {PrimaryThreshold, PrimaryThresholdMode})
    else r
  }

  function AllWithBuckets(rooms: seq<Room>, reactions: seq<Reaction>, env: Env): (r: seq<Reaction>)
    ensures |r| == |reactions|
    ensures forall i :: 0 <= i < |reactions| ==> r[i] == WithBucket(rooms, reactions[i], env)
  {
    seq(|reactions|, i requires 0 <= i < |reactions| => WithBucket(rooms, reactions[i], env))
  }

  predicate AnyNeedsBucket(rooms: seq<Room>, reactions: seq<Reaction>, env: Env) {
    exists r <- reactions :: NeedsBucket(rooms, r, env)
  }

  function MigrateDarkness(o: Options, env: Env): Stage {
    if AnyNeedsBucket(o.rooms, o.reactions, env) then Stage(o.(reactions := AllWithBuckets(o.rooms, o.reactions, env)), true)
    else Stage(o, false)
  }

  // ----- fourth stage: burst settings move from cooling reactions into room signals

  function CanonicalName(name: string, env: Env): string {
    var lowered := env.lower(name);
    if lowered == "temperature" then "room_temperature"
    else if lowered == "humidity" then "room_humidity"
    else if lowered == "co2" then "room_co2"
    else if lowered == "lux" then "room_lux"
    else lowered
  }

  function CanonicalSignals(signals: seq<Signal>, env: Env): seq<Signal> {
    if signals == [] then []
    else
      var last := signals[|signals| - 1];
      CanonicalSignals(signals[..|signals| - 1], env)
      + if last.NotASignal? || CanonicalName(last.name, env) == "" then [] else [last.(name := CanonicalName(last.name, env))]
  }

  /** A room keeps its list when no signal of it has a name. */
  function CanonicalRoom(room: Room, env: Env): Room {
    if room.NotARoom? || room.id == "" || CanonicalSignals(room.signals, env) == [] then room
    else room.(signals := CanonicalSignals(room.signals, env))
  }

  function CanonicalRooms(rooms: seq<Room>, env: Env): (r: seq<Room>)
    ensures |r| == |rooms|
    ensures forall i :: 0 <= i < |rooms| ==> r[i] == CanonicalRoom(rooms[i], env)
  {
    seq(|rooms|, i requires 0 <= i < |rooms| => CanonicalRoom(rooms[i], env))
  }

  predicate HasRoom(rooms: seq<Room>, id: string) {
    id != "" && exists room <- rooms :: room.Room? && room.id == id
  }

  datatype Burst = Burst(threshold: real, window: int, direction: string)

  /** A direction that differs in case only is left as it is. */
  function WithBurst(s: Signal, burst: Burst, env: Env): Signal {
    if s.NotASignal? then s
    else s.(burstThreshold := Some(burst.threshold), burstWindow := burst.window,
            burstDirection := if env.lower(s.burstDirection) == burst.direction then s.burstDirection else burst.direction)
  }

  predicate BurstDiffers(s: Signal, burst: Burst, env: Env) {
    s.Signal? && (s.burstThreshold != Some(burst.threshold) || s.burstWindow != burst.window || env.lower(s.burstDirection) != burst.direction)
  }

  /** The signal that settings for `name` go to: the last one of that name. */
  function SignalNamed(signals: seq<Signal>, name: string): (index: Option<nat>)
    ensures index.Some? ==>
      index.value < |signals| && signals[index.value].Signal? && signals[index.value].name == name
  {
    if signals == [] then None
    else
      var last := |signals| - 1;
      if signals[last].Signal? && signals[last].name == name then Some(last) else SignalNamed(signals[..last], name)
  }

  function RoomNamed(rooms: seq<Room>, id: string): (index: Option<nat>)
    ensures index.Some? ==> index.value < |rooms| && rooms[index.value].Room? && rooms[index.value].id == id
    ensures index.Some? || id == "" || !HasRoom(rooms, id)
  {
    if rooms == [] then None
    else
      var last := |rooms| - 1;
      if rooms[last].Room? && rooms[last].id == id then Some(last) else RoomNamed(rooms[..last], id)
  }

  datatype Merge = Merge(rooms: seq<Room>, changed: bool)

  function WithRoomBurst(room: Room, name: string, burst: Burst, env: Env): Room
    requires room.Room?
  {
    var index := SignalNamed(room.signals, name);
    if index.Some? then
      room.(signals := room.signals[index.value := WithBurst(room.signals[index.value], burst, env)])
    else room
  }

  function MergeBurst(rooms: seq<Room>, room: string, name: string, burst: Option<Burst>, env: Env): (m: Merge)
    ensures |m.rooms| == |rooms|
  {
    var at := RoomNamed(rooms, room);
    if name == "" || burst.None? || at.None? then Merge(rooms, false)
    else
      var index := SignalNamed(rooms[at.value].signals, name);
      if index.None? then Merge(rooms, false)
      else if !BurstDiffers(rooms[at.value].signals[index.value], burst.value, env) then Merge(rooms, false)
      else Merge(rooms[at.value := WithRoomBurst(rooms[at.value], name, burst.value, env)], true)
  }

  function Direction(mode: string, env: Env): string {
    if env.lower(mode) == "drop" then "down" else if env.lower(mode) == "both" then "both" else "up"
  }

  function Window(r: Reaction, env: Env): int
    requires r.Reaction?
  {
    var given := env.integer(Value(r.settings, CorrelationWindow));
    if given.Some? && given.value > 0 then given.value else 600
  }

  /** The settings under `rise`, or else under `threshold`, if they hold a number. */
  function BurstIn(r: Reaction, rise: LegacyKey, threshold: LegacyKey, mode: LegacyKey, env: Env): Option<Burst>
    requires r.Reaction?
  {
    var given := if rise in r.settings then env.number(r.settings[rise])
                 else if threshold in r.settings then env.number(r.settings[threshold]) else None;
    if given.None? then None else Some(Burst(given.value, Window(r, env), Direction(Value(r.settings, mode), env)))
  }

  predicate IsCooling(r: Reaction) {
    r.Reaction? && r.kind == "room_cooling_assist"
  }

  /** Legacy settings that are stored as lists. */
  const LEGACY_LISTS: set<ListField> := {TriggerEntities, TemperatureEntities}

  predicate HasLegacySettings(r: Reaction) {
    r.Reaction? && (r.settings != map[] || exists field <- LEGACY_LISTS :: field in r.lists)
  }

  function Renamed(name: string, env: Env): string {
    if CanonicalName(name, env) != "" then CanonicalName(name, env) else name
  }

  function Cleaned(r: Reaction, env: Env): Reaction
    requires r.Reaction?
  {
    r.(primarySignal := Renamed(r.primarySignal, env), corroborationSignal := Renamed(r.corroborationSignal, env),
       settings := map[], lists := r.lists - LEGACY_LISTS)
  }

  /** What the stage has made of the rooms and of the reactions so far. */
  datatype Moved = Moved(rooms: seq<Room>, reactions: seq<Reaction>, changed: bool)

  function MoveOne(m: Moved, r: Reaction, env: Env): Moved {
    if !IsCooling(r) || !HasRoom(m.rooms, r.room) then m.(reactions := m.reactions + [r])
    else
      var primary := MergeBurst(m.rooms, r.room, CanonicalName(r.primarySignal, env),
        BurstIn(r, PrimaryRise, PrimaryThreshold, PrimaryThresholdMode, env), env);
      var second := MergeBurst(primary.rooms, r.room, CanonicalName(r.corroborationSignal, env),
        BurstIn(r, CorroborationRise, CorroborationThreshold, CorroborationThresholdMode, env), env);
      Moved(second.rooms, m.reactions + [Cleaned(r, env)],
        m.changed || primary.changed || second.changed || HasLegacySettings(r))
  }

  function MoveAll(rooms: seq<Room>, reactions: seq<Reaction>, env: Env): Moved {
    if reactions == [] then Moved(CanonicalRooms(rooms, env), [], false)
    else MoveOne(MoveAll(rooms, reactions[..|reactions| - 1], env), reactions[|reactions| - 1], env)
  }

  function MigrateBurst(o: Options, env: Env): Stage {
    var moved := MoveAll(o.rooms, o.reactions, env);
    if moved.changed then Stage(o.(rooms := moved.rooms, reactions := moved.reactions), true) else Stage(o, false)
  }

  // ----- fifth stage: reaction payloads

  predicate Survives(r: Reaction, env: Env) {
    r.Reaction? ==> !IsPruned(Normalized(r, env.texts))
  }

  function NormalizedAll(reactions: seq<Reaction>, env: Env): seq<Reaction> {
    if reactions == [] then []
    else
      var last := reactions[|reactions| - 1];
      NormalizedAll(reactions[..|reactions| - 1], env)
      + if last.NotAReaction? then [last] else if Survives(last, env) then [Normalized(last, env.texts)] else []
  }

  predicate NeedsNormalizing(r: Reaction, env: Env) {
    r.Reaction? && (IsChanged(r, env.texts) || IsPruned(Normalized(r, env.texts)))
  }

  predicate AnyNeedsNormalizing(reactions: seq<Reaction>, env: Env) {
    exists r <- reactions :: NeedsNormalizing(r, env)
  }

  function NormalizeReactions(o: Options, env: Env): Stage {
    if AnyNeedsNormalizing(o.reactions, env) then Stage(o.(reactions := NormalizedAll(o.reactions, env)), true)
    else Stage(o, false)
  }

  // ----- the chain

  function Chain(o: Options, env: Env): Stage {
    var learned := MigrateLearning(o);
    var populated := Autopopulate(learned.options, env);
    var bucketed := MigrateDarkness(populated.options, env);
    var moved := MigrateBurst(bucketed.options, env);
    var normalized := NormalizeReactions(moved.options, env);
    Stage(normalized.options, learned.changed || populated.changed || bucketed.changed || moved.changed || normalized.changed)
  }
}

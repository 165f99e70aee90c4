/** What the migrations do with the settings they move: where each value arrives. */
module OptionsMeaning {
  import opened Wrappers
  import opened ReactionPayloads
  import opened OptionsMigration

  // ----- legacy learning keys

  /** A value that is there already, or else the one that is moved. */
  function Or(first: string, second: string): string {
    if first != "" then first else second
  }

  /** A filled slot keeps its value; an empty one takes the legacy value meant for it, and for the
      outdoor temperature its own sensor comes before the weather entity. */
  lemma LegacyValuesArrive(o: Options)
    requires o.learning.LearningDict?
    ensures var before, entries, after := o.context, o.learning.entries, MigrateLearning(o).options.context;
            && Value(after, OutdoorLux) == Or(Value(before, OutdoorLux), Value(entries, OutdoorLuxEntity))
            && Value(after, OutdoorTemp)
                 == Or(Value(before, OutdoorTemp), Or(Value(entries, OutdoorTempEntity), Value(entries, WeatherEntity)))
            && Value(after, WeatherCondition) == Or(Value(before, WeatherCondition), Value(entries, WeatherEntity))
            && forall name :: Value(after, OtherSlot(name)) == Value(before, OtherSlot(name))
    ensures var rest := MigrateLearning(o).options.learning;
            && rest.LearningDict? && rest.entries == o.learning.entries - LEGACY_KEYS
  {
    var keys, entries := LEGACY_LEARNING, o.learning.entries;
    assert keys[..3] == keys && keys[..3][..2] == keys[..2] && keys[..2][..1] == keys[..1] && keys[..1][..0] == [];
    var c1 := MovedContext(o.context, entries, keys[..1]);
    var c2 := MovedContext(o.context, entries, keys[..2]);
    var c3 := MovedContext(o.context, entries, keys);
    FilledSlot(o.context, OutdoorLux, Value(entries, OutdoorLuxEntity));
    FilledSlot(c1, OutdoorTemp, Value(entries, OutdoorTempEntity));
    FilledTwoSlots(c2, Value(entries, WeatherEntity));
    assert MovedContext(o.context, entries, []) == o.context && keys[0].1 == [OutdoorLux];
    assert c1 == Filled(o.context, [OutdoorLux], Value(entries, OutdoorLuxEntity));
    assert c2 == Filled(c1, [OutdoorTemp], Value(entries, OutdoorTempEntity));
    assert c3 == Filled(c2, [WeatherCondition, OutdoorTemp], Value(entries, WeatherEntity));
  }

  lemma FilledSlot(context: map<Slot, string>, slot: Slot, value: string)
    ensures forall s :: Value(Filled(context, [slot], value), s)
                     == if s == slot then Or(Value(context, s), value) else Value(context, s)
  {
    assert [slot][..0] == [];
    assert Filled(context, [], value) == context;
  }

  lemma FilledTwoSlots(context: map<Slot, string>, value: string)
    ensures forall s :: Value(Filled(context, [WeatherCondition, OutdoorTemp], value), s)
                     == if s in {WeatherCondition, OutdoorTemp} then Or(Value(context, s), value) else Value(context, s)
  {
    assert [WeatherCondition, OutdoorTemp][..1] == [WeatherCondition];
    FilledSlot(context, WeatherCondition, value);
  }

  // ----- darkness thresholds

  /** Bucket `i` reaches beyond the threshold, and no bucket before it does. */
  predicate IsFirstAbove(buckets: seq<Bucket>, threshold: real, i: nat) {
    && i < |buckets|
    && (buckets[i].upperBound.None? || threshold < buckets[i].upperBound.value)
    && forall j :: 0 <= j < i ==> buckets[j].upperBound.Some? && buckets[j].upperBound.value <= threshold
  }

  /** A threshold is replaced by the first bucket that reaches beyond it, whenever there is one. */
  lemma {:induction false} BucketIsTheFirstAbove(buckets: seq<Bucket>, threshold: real)
    ensures var bucket := BucketForThreshold(buckets, Some(threshold));
            if bucket.Some? then exists i: nat :: IsFirstAbove(buckets, threshold, i) && buckets[i].text == bucket.value
            else forall i: nat :: !IsFirstAbove(buckets, threshold, i)
  {
    if buckets != [] {
      var first, others := buckets[0], buckets[1..];
      BucketIsTheFirstAbove(others, threshold);
      if first.upperBound.None? || threshold < first.upperBound.value {
        assert IsFirstAbove(buckets, threshold, 0);
      } else {
        forall i: nat ensures IsFirstAbove(buckets, threshold, i + 1) <==> IsFirstAbove(others, threshold, i) {
          assert forall j :: 0 <= j < |others| ==> others[j] == buckets[j + 1];
          assert forall j :: 0 < j < |buckets| ==> buckets[j] == others[j - 1];
        }
        forall i: nat ensures !IsFirstAbove(buckets, threshold, i) || (i > 0 && IsFirstAbove(others, threshold, i - 1)) {
          assert i > 0 ==> (IsFirstAbove(buckets, threshold, (i - 1) + 1) <==> IsFirstAbove(others, threshold, i - 1));
        }
        if i: nat :| IsFirstAbove(others, threshold, i) && BucketForThreshold(others, Some(threshold)) == Some(others[i].text) {
          assert IsFirstAbove(buckets, threshold, i + 1) && buckets[i + 1].text == others[i].text;
        }
      }
    }
  }

  // ----- burst settings

  /** The signal that settings for `name` in `room` go to. */
  function SignalAt(rooms: seq<Room>, room: string, name: string): Option<Signal> {
    var at := RoomNamed(rooms, room);
    if at.None? then None
    else
      var index := SignalNamed(rooms[at.value].signals, name);
      if index.None? then None else Some(rooms[at.value].signals[index.value])
  }

  /** One setting that a reaction gives to a signal. */
  datatype Write = Write(room: string, name: string, burst: Option<Burst>)

  function PrimaryWrite(r: Reaction, env: Env): Write
    requires r.Reaction?
  {
    Write(r.room, CanonicalName(r.primarySignal, env), BurstIn(r, PrimaryRise, PrimaryThreshold, PrimaryThresholdMode, env))
  }

  function CorroborationWrite(r: Reaction, env: Env): Write
    requires r.Reaction?
  {
    Write(r.room, CanonicalName(r.corroborationSignal, env),
      BurstIn(r, CorroborationRise, CorroborationThreshold, CorroborationThresholdMode, env))
  }

  /** All settings the cooling reactions hold, in their order, the primary signal's before the other's. */
  function WritesOf(reactions: seq<Reaction>, env: Env): seq<Write> {
    if reactions == [] then []
    else
      var last := reactions[|reactions| - 1];
      WritesOf(reactions[..|reactions| - 1], env)
      + if IsCooling(last) then [PrimaryWrite(last, env), CorroborationWrite(last, env)] else []
  }

  function LastWrite(writes: seq<Write>, room: string, name: string): Option<Burst> {
    if writes == [] then None
    else
      var last := writes[|writes| - 1];
      if last.room == room && last.name == name && last.burst.Some? then last.burst
      else LastWrite(writes[..|writes| - 1], room, name)
  }

  predicate Carries(s: Signal, burst: Burst, env: Env) {
    s.Signal? && s.burstThreshold == Some(burst.threshold) && s.burstWindow == burst.window
    && env.lower(s.burstDirection) == burst.direction
  }

  /** Lowering leaves the three directions as they are. */
  predicate LowersDirections(env: Env) {
    env.lower("up") == "up" && env.lower("down") == "down" && env.lower("both") == "both"
  }

  predicate IsDirection(direction: string) {
    direction in {"up", "down", "both"}
  }

  /** Signal `s'` is what has become of `s` when `burst` is the last setting for it. */
  predicate IsOutcome(s: Signal, s': Signal, burst: Option<Burst>, env: Env) {
    if burst.Some? then Carries(s', burst.value, env) else s' == s
  }

  lemma {:induction false} SameRoomFound(rooms: seq<Room>, i: nat, room: Room, id: string)
    requires i < |rooms| && rooms[i].Room? && room.Room? && room.id == rooms[i].id
    ensures RoomNamed(rooms[i := room], id) == RoomNamed(rooms, id)
  {
    var last := |rooms| - 1;
    assert rooms[i := room][..last] == if i < last then rooms[..last][i := room] else rooms[..last];
    if i < last {
      SameRoomFound(rooms[..last], i, room, id);
    }
  }

  lemma {:induction false} SameSignalFound(signals: seq<Signal>, i: nat, signal: Signal, name: string)
    requires i < |signals| && signals[i].Signal? && signal.Signal? && signal.name == signals[i].name
    ensures SignalNamed(signals[i := signal], name) == SignalNamed(signals, name)
  {
    var last := |signals| - 1;
    assert signals[i := signal][..last] == if i < last then signals[..last][i := signal] else signals[..last];
    if i < last {
      SameSignalFound(signals[..last], i, signal, name);
    }
  }

  /** A setting reaches the signal it is for and no other. */
  lemma MergeReachesItsSignal(rooms: seq<Room>, w: Write, room: string, name: string, env: Env)
    requires name != "" && SignalAt(rooms, room, name).Some?
    requires LowersDirections(env) && (w.burst.Some? ==> IsDirection(w.burst.value.direction))
    ensures var s, s' := SignalAt(rooms, room, name), SignalAt(MergeBurst(rooms, w.room, w.name, w.burst, env).rooms, room, name);
            && s'.Some?
            && IsOutcome(s.value, s'.value, if w.room == room && w.name == name then w.burst else None, env)
  {
    var at := RoomNamed(rooms, w.room);
    if w.name != "" && w.burst.Some? && at.Some? {
      var index := SignalNamed(rooms[at.value].signals, w.name);
      if index.Some? && BurstDiffers(rooms[at.value].signals[index.value], w.burst.value, env) {
        SameRoomFound(rooms, at.value, WithRoomBurst(rooms[at.value], w.name, w.burst.value, env), room);
        SameSignalFound(rooms[at.value].signals, index.value,
          WithBurst(rooms[at.value].signals[index.value], w.burst.value, env), name);
      }
    }
  }

  lemma LastWriteOneMore(writes: seq<Write>, w: Write, room: string, name: string)
    ensures LastWrite(writes + [w], room, name)
         == if w.room == room && w.name == name && w.burst.Some? then w.burst else LastWrite(writes, room, name)
  {
    assert (writes + [w])[..|writes|] == writes;
  }

  lemma OneMoreWrite(s: Signal, rooms: seq<Room>, writes: seq<Write>, w: Write, room: string, name: string, env: Env)
    requires name != "" && SignalAt(rooms, room, name).Some?
    requires IsOutcome(s, SignalAt(rooms, room, name).value, LastWrite(writes, room, name), env)
    requires LowersDirections(env) && (w.burst.Some? ==> IsDirection(w.burst.value.direction))
    ensures var s' := SignalAt(MergeBurst(rooms, w.room, w.name, w.burst, env).rooms, room, name);
            s'.Some? && IsOutcome(s, s'.value, LastWrite(writes + [w], room, name), env)
  {
    hide MergeBurst, SignalAt, LastWrite;
    MergeReachesItsSignal(rooms, w, room, name, env);
    LastWriteOneMore(writes, w, room, name);
  }

  lemma BurstsHaveDirections(r: Reaction, env: Env)
    requires r.Reaction?
    ensures PrimaryWrite(r, env).burst.Some? ==> IsDirection(PrimaryWrite(r, env).burst.value.direction)
    ensures CorroborationWrite(r, env).burst.Some? ==> IsDirection(CorroborationWrite(r, env).burst.value.direction)
  {}

  /** Every signal ends up with the settings of the last cooling reaction that has any for it, and
      keeps its own when none has: no setting gets lost on the way, and none goes astray. */
  lemma {:induction false} SettingsArrive(rooms: seq<Room>, reactions: seq<Reaction>, room: string, name: string, env: Env)
    requires LowersDirections(env) && room != "" && name != ""
    requires SignalAt(CanonicalRooms(rooms, env), room, name).Some?
    ensures var s, s' := SignalAt(CanonicalRooms(rooms, env), room, name), SignalAt(MoveAll(rooms, reactions, env).rooms, room, name);
            s'.Some? && IsOutcome(s.value, s'.value, LastWrite(WritesOf(reactions, env), room, name), env)
  {
    hide MergeBurst, BurstIn, Cleaned, CanonicalName, SignalAt, CanonicalRooms, HasRoom;
    if reactions != [] {
      var init, last := reactions[..|reactions| - 1], reactions[|reactions| - 1];
      var earlier, writes := MoveAll(rooms, init, env), WritesOf(init, env);
      SettingsArrive(rooms, init, room, name, env);
      var s := SignalAt(CanonicalRooms(rooms, env), room, name).value;
      if IsCooling(last) {
        var w, v := PrimaryWrite(last, env), CorroborationWrite(last, env);
        assert writes + [w, v] == writes + [w] + [v];
        BurstsHaveDirections(last, env);
        if HasRoom(earlier.rooms, last.room) {
          OneMoreWrite(s, earlier.rooms, writes, w, room, name, env);
          var primary := MergeBurst(earlier.rooms, w.room, w.name, w.burst, env);
          OneMoreWrite(s, primary.rooms, writes + [w], v, room, name, env);
        } else {
          FoundRoomsExist(earlier.rooms, room, name);
          LastWriteOneMore(writes, w, room, name);
          LastWriteOneMore(writes + [w], v, room, name);
        }
      } else {
        assert writes + [] == writes;
      }
    }
  }

  lemma FoundRoomsExist(rooms: seq<Room>, room: string, name: string)
    requires room != "" && SignalAt(rooms, room, name).Some?
    ensures HasRoom(rooms, room)
  {}
}

/** What the stages write, said on the stored settings: signals source by source, buckets by their
    bounds, burst settings key by key. */
module OptionsEffects {
  import opened Wrappers
  import opened ReactionPayloads
  import opened OptionsMigration
  import opened OptionsSettling
  import opened OptionsMeaning

  // ----- signals from learning sources

  lemma {:induction false} SynthesizedJoins(sources: seq<string>, more: seq<string>, env: Env)
    ensures Synthesized(sources + more, env) == Synthesized(sources, env) + Synthesized(more, env)
  {
    hide DefaultBuckets, SignalNameFor;
    if more == [] {
      assert sources + more == sources;
    } else {
      var init, last := more[..|more| - 1], more[|more| - 1];
      SynthesizedJoins(sources, init, env);
      assert (sources + more)[..|sources + more| - 1] == sources + init;
    }
  }

  /** A source gives one signal for its device class, with that class's buckets, or none. */
  lemma SignalOfSource(entity: string, env: Env)
    ensures var signals := Synthesized([entity], env);
            && (env.deviceClass(entity) == "illuminance" ==> signals == [Signal("room_lux", entity,
                  [Bucket("dark", Some(30.0)), Bucket("dim", Some(100.0)), Bucket("ok", Some(300.0)), Bucket("bright", None)], None, 0, "")])
            && (env.deviceClass(entity) == "carbon_dioxide" ==> signals == [Signal("room_co2", entity,
                  [Bucket("ok", Some(800.0)), Bucket("elevated", Some(1200.0)), Bucket("high", None)], None, 0, "")])
            && (env.deviceClass(entity) == "humidity" ==> signals == [Signal("room_humidity", entity,
                  [Bucket("low", Some(40.0)), Bucket("ok", Some(70.0)), Bucket("high", None)], None, 0, "")])
            && (env.deviceClass(entity) == "temperature" ==> signals == [Signal("room_temperature", entity,
                  [Bucket("cool", Some(20.0)), Bucket("ok", Some(24.0)), Bucket("warm", Some(27.0)), Bucket("hot", None)], None, 0, "")])
            && (env.deviceClass(entity) !in {"illuminance", "carbon_dioxide", "humidity", "temperature"} ==> signals == [])
  {
    assert [entity][..0] == [];
    assert Synthesized([], env) == [];
  }

  /** A room without signals gets those of its learning sources, in their order; a room that has
      signals, and everything else about a room, stays. */
  lemma RoomGetsItsSignals(o: Options, i: nat, env: Env)
    requires i < |o.rooms|
    ensures var rooms := Autopopulate(o, env).options.rooms;
            && |rooms| == |o.rooms|
            && if o.rooms[i].Room? && o.rooms[i].signals == [] then
                 rooms[i] == o.rooms[i].(signals := Synthesized(o.rooms[i].learningSources, env))
               else rooms[i] == o.rooms[i]
  {
    hide Synthesized;
    assert o.rooms[i] in o.rooms;
  }

  // ----- buckets for darkness reactions

  lemma {:induction false} LabelledJoins(buckets: seq<Bucket>, more: seq<Bucket>)
    ensures Labelled(buckets + more) == Labelled(buckets) + Labelled(more)
  {
    if more == [] {
      assert buckets + more == buckets;
    } else {
      var init := more[..|more| - 1];
      LabelledJoins(buckets, init);
      assert (buckets + more)[..|buckets + more| - 1] == buckets + init;
    }
  }

  lemma LabelledOne(bucket: Bucket)
    ensures Labelled([bucket]) == if bucket.text != "" then [bucket] else []
  {
    assert [bucket][..0] == [];
    assert Labelled([]) == [];
  }

  /** Signal `s` has buckets for `name`. */
  predicate Offers(s: Signal, name: string) {
    s.Signal? && s.name == name && Labelled(s.buckets) != []
  }

  lemma {:induction false} LastOfferCounts(signals: seq<Signal>, j: nat, name: string)
    requires j < |signals| && Offers(signals[j], name)
    requires forall k :: j < k < |signals| ==> !Offers(signals[k], name)
    ensures BucketsIn(signals, name) == Labelled(signals[j].buckets)
  {
    hide Labelled;
    if j < |signals| - 1 {
      assert !Offers(signals[|signals| - 1], name);
      LastOfferCounts(signals[..|signals| - 1], j, name);
    }
  }

  lemma {:induction false} NoOfferNoBuckets(signals: seq<Signal>, name: string)
    requires forall k :: 0 <= k < |signals| ==> !Offers(signals[k], name)
    ensures BucketsIn(signals, name) == []
  {
    hide Labelled;
    if signals != [] {
      assert !Offers(signals[|signals| - 1], name);
      NoOfferNoBuckets(signals[..|signals| - 1], name);
    }
  }

  predicate RoomOffers(room: Room, id: string, name: string) {
    room.Room? && room.id == id && exists s <- room.signals :: Offers(s, name)
  }

  /** Signal `j` of room `i` is the last one that offers buckets for a name. */
  predicate IsLastOffer(rooms: seq<Room>, i: nat, j: nat, id: string, name: string) {
    && i < |rooms| && rooms[i].Room? && rooms[i].id == id
    && j < |rooms[i].signals| && Offers(rooms[i].signals[j], name)
    && (forall k :: j < k < |rooms[i].signals| ==> !Offers(rooms[i].signals[k], name))
    && (forall k :: i < k < |rooms| ==> !RoomOffers(rooms[k], id, name))
  }

  /** The buckets looked up are the labelled ones of the last signal that has any. */
  lemma {:induction false} BucketsAreOfTheLastOffer(rooms: seq<Room>, i: nat, j: nat, id: string, name: string)
    requires IsLastOffer(rooms, i, j, id, name)
    ensures BucketsFor(rooms, id, name) == Labelled(rooms[i].signals[j].buckets)
  {
    hide Labelled, BucketsIn;
    var n := |rooms| - 1;
    if i < n {
      assert !RoomOffers(rooms[n], id, name);
      RoomWithoutOffer(rooms[n], id, name);
      BucketsAreOfTheLastOffer(rooms[..n], i, j, id, name);
    } else {
      LastOfferCounts(rooms[i].signals, j, name);
    }
  }

  lemma RoomWithoutOffer(room: Room, id: string, name: string)
    requires !RoomOffers(room, id, name)
    ensures room.Room? && room.id == id ==> BucketsIn(room.signals, name) == []
  {
    if room.Room? && room.id == id {
      NoOfferNoBuckets(room.signals, name);
    }
  }

  predicate HasThreshold(r: Reaction, x: real, env: Env) {
    r.Reaction? && PrimaryThreshold in r.settings && env.number(r.settings[PrimaryThreshold]) == Some(x)
  }

  /** A darkness reaction without bucket, with a threshold below the bound of some bucket of its
      signal, gets the first such bucket in place of the threshold; every other reaction stays. */
  lemma DarknessGetsItsBucket(o: Options, i: nat, x: real, k: nat, env: Env)
    requires i < |o.reactions| && HasThreshold(o.reactions[i], x, env)
    ensures var r, reactions := o.reactions[i], MigrateDarkness(o, env).options.reactions;
            var buckets := BucketsFor(o.rooms, r.room, r.primarySignal);
            && |reactions| == |o.reactions|
            && (r.kind == "room_darkness_lighting_assist" && r.primaryBucket == "" && r.room != "" && r.primarySignal != ""
                && IsFirstAbove(buckets, x, k) ==>
                  reactions[i] == r.(primaryBucket := buckets[k].text,
                                     settings := r.settings - {PrimaryThreshold, PrimaryThresholdMode}))
            && (r.kind != "room_darkness_lighting_assist" || r.primaryBucket != "" || r.room == "" || r.primarySignal == ""
                || (forall k: nat :: !IsFirstAbove(buckets, x, k)) ==>
                  reactions[i] == r)
  {
    hide BucketsFor;
    var r := o.reactions[i];
    var buckets := BucketsFor(o.rooms, r.room, r.primarySignal);
    BucketIsTheFirstAbove(buckets, x);
    assert IsFirstAbove(buckets, x, k) ==> forall l: nat :: IsFirstAbove(buckets, x, l) ==> l == k;
    assert r in o.reactions;
  }

  lemma WithoutThresholdNothingHappens(o: Options, i: nat, env: Env)
    requires i < |o.reactions|
    requires var r := o.reactions[i];
             r.Reaction? && PrimaryThreshold in r.settings ==> env.number(r.settings[PrimaryThreshold]).None?
    ensures |MigrateDarkness(o, env).options.reactions| == |o.reactions|
    ensures MigrateDarkness(o, env).options.reactions[i] == o.reactions[i]
  {
    hide BucketsFor;
  }

  // ----- names

  /** The short names of older versions become the names that new signals of the device class get;
      every other name is lowered. */
  lemma ShortNamesAreThoseOfTheirClass(name: string, env: Env)
    ensures env.lower(name) == "lux" ==> CanonicalName(name, env) == SignalNameFor("illuminance") == "room_lux"
    ensures env.lower(name) == "co2" ==> CanonicalName(name, env) == SignalNameFor("carbon_dioxide") == "room_co2"
    ensures env.lower(name) == "humidity" ==> CanonicalName(name, env) == SignalNameFor("humidity") == "room_humidity"
    ensures env.lower(name) == "temperature" ==> CanonicalName(name, env) == SignalNameFor("temperature") == "room_temperature"
    ensures env.lower(name) !in {"lux", "co2", "humidity", "temperature"} ==> CanonicalName(name, env) == env.lower(name)
  {
    assert |"illuminance"| == 11 && |"carbon_dioxide"| == 14 && |"humidity"| == 8 && |"temperature"| == 11;
    assert "illuminance"[0] != "temperature"[0];
    assert |"lux"| == 3 && |"co2"| == 3 && "lux"[0] != "co2"[0];
  }

  /** Renaming drops what has no name and changes nothing but the names of the others. */
  lemma {:induction false} RenamingKeepsTheRest(signals: seq<Signal>, env: Env)
    ensures forall t :: t in CanonicalSignals(signals, env) <==>
      exists s :: s in signals && s.Signal? && CanonicalName(s.name, env) != "" && t == s.(name := CanonicalName(s.name, env))
  {
    hide CanonicalName;
    if signals != [] {
      var init, last := signals[..|signals| - 1], signals[|signals| - 1];
      RenamingKeepsTheRest(init, env);
      assert forall s :: s in signals <==> s in init || s == last;
    }
  }

  // ----- burst settings

  /** The key of a reaction's signal and of its settings, for the primary signal or the other one. */
  function SignalOf(r: Reaction, primary: bool): string
    requires r.Reaction?
  {
    if primary then r.primarySignal else r.corroborationSignal
  }

  /** The number that reaction `r` holds: under the rise key, or under the threshold key when there is
      no rise key. */
  function NumberFor(r: Reaction, primary: bool, env: Env): Option<real>
    requires r.Reaction?
  {
    var rise, threshold := if primary then PrimaryRise else CorroborationRise, if primary then PrimaryThreshold else CorroborationThreshold;
    if rise in r.settings then env.number(r.settings[rise])
    else if threshold in r.settings then env.number(r.settings[threshold])
    else None
  }

  /** The lowered mode, or "" when there is none. */
  function ModeFor(r: Reaction, primary: bool, env: Env): string
    requires r.Reaction?
  {
    var mode := if primary then PrimaryThresholdMode else CorroborationThresholdMode;
    if mode in r.settings then env.lower(r.settings[mode]) else ""
  }

  /** Reaction `r` has something for signal `name` of `room`. */
  predicate Gives(r: Reaction, primary: bool, room: string, name: string, env: Env) {
    IsCooling(r) && r.room == room && CanonicalName(SignalOf(r, primary), env) == name && NumberFor(r, primary, env).Some?
  }

  /** Reaction `i` is the last one that has something for the signal, and `primary` says as what. */
  predicate GivesLast(reactions: seq<Reaction>, i: nat, primary: bool, room: string, name: string, env: Env) {
    && i < |reactions| && Gives(reactions[i], primary, room, name, env)
    && (primary ==> !Gives(reactions[i], false, room, name, env))
    && (forall j :: i < j < |reactions| ==> !Gives(reactions[j], true, room, name, env) && !Gives(reactions[j], false, room, name, env))
  }

  lemma WritesAreGifts(r: Reaction, room: string, name: string, env: Env)
    requires IsCooling(r)
    ensures var w := PrimaryWrite(r, env);
            w.room == room && w.name == name && w.burst.Some? <==> Gives(r, true, room, name, env)
    ensures var w := CorroborationWrite(r, env);
            w.room == room && w.name == name && w.burst.Some? <==> Gives(r, false, room, name, env)
  {
    hide CanonicalName;
  }

  lemma {:induction false} LastGiftIsWritten(reactions: seq<Reaction>, i: nat, primary: bool, room: string, name: string, env: Env)
    requires GivesLast(reactions, i, primary, room, name, env)
    ensures LastWrite(WritesOf(reactions, env), room, name)
         == if primary then PrimaryWrite(reactions[i], env).burst else CorroborationWrite(reactions[i], env).burst
  {
    hide PrimaryWrite, CorroborationWrite, LastWrite, Gives;
    var init, last := reactions[..|reactions| - 1], reactions[|reactions| - 1];
    var writes := WritesOf(init, env);
    assert IsCooling(reactions[i]) by { GiversAreCooling(reactions[i], primary, room, name, env); }
    if IsCooling(last) {
      WritesAreGifts(last, room, name, env);
      var w, v := PrimaryWrite(last, env), CorroborationWrite(last, env);
      assert writes + [w, v] == writes + [w] + [v];
      LastWriteOneMore(writes, w, room, name);
      LastWriteOneMore(writes + [w], v, room, name);
    } else {
      assert writes + [] == writes;
    }
    if i < |init| {
      LastGiftIsWritten(init, i, primary, room, name, env);
    }
  }

  lemma GiversAreCooling(r: Reaction, primary: bool, room: string, name: string, env: Env)
    requires Gives(r, primary, room, name, env)
    ensures IsCooling(r)
  {}

  lemma {:induction false} NoGiftNoWrite(reactions: seq<Reaction>, room: string, name: string, env: Env)
    requires forall j :: 0 <= j < |reactions| ==> !Gives(reactions[j], true, room, name, env) && !Gives(reactions[j], false, room, name, env)
    ensures LastWrite(WritesOf(reactions, env), room, name) == None
  {
    hide PrimaryWrite, CorroborationWrite, Gives;
    if reactions != [] {
      var init, last := reactions[..|reactions| - 1], reactions[|reactions| - 1];
      NoGiftNoWrite(init, room, name, env);
      var writes := WritesOf(init, env);
      if IsCooling(last) {
        WritesAreGifts(last, room, name, env);
        var w, v := PrimaryWrite(last, env), CorroborationWrite(last, env);
        assert writes + [w, v] == writes + [w] + [v];
        LastWriteOneMore(writes, w, room, name);
        LastWriteOneMore(writes + [w], v, room, name);
      } else {
        assert writes + [] == writes;
      }
    }
  }

  /** A positive correlation window counts; otherwise it is ten minutes. */
  function WindowOf(r: Reaction, env: Env): int
    requires r.Reaction?
  {
    if CorrelationWindow in r.settings && env.integer(r.settings[CorrelationWindow]).Some?
       && env.integer(r.settings[CorrelationWindow]).value > 0
    then env.integer(r.settings[CorrelationWindow]).value else 600
  }

  /** Texts that are not there read as nothing. */
  predicate ReadsAbsence(env: Env) {
    env.lower("") == "" && env.integer("").None?
  }

  lemma GiftReads(r: Reaction, primary: bool, room: string, name: string, env: Env)
    requires Gives(r, primary, room, name, env) && ReadsAbsence(env)
    ensures var burst := if primary then PrimaryWrite(r, env).burst else CorroborationWrite(r, env).burst;
            && burst.Some? && Some(burst.value.threshold) == NumberFor(r, primary, env)
            && burst.value.window == WindowOf(r, env)
            && (burst.value.direction == "down" <==> ModeFor(r, primary, env) == "drop")
            && (burst.value.direction == "both" <==> ModeFor(r, primary, env) == "both")
            && (burst.value.direction == "up" <==> ModeFor(r, primary, env) !in {"drop", "both"})
  {
    hide CanonicalName;
    assert |"down"| == 4 && |"both"| == 4 && |"up"| == 2 && |"drop"| == 4 && "down"[1] == "both"[1];
    assert "down"[0] != "both"[0] && "drop"[0] != "both"[0];
  }

  lemma GiftsMove(o: Options, i: nat, primary: bool, room: string, name: string, env: Env)
    requires i < |o.reactions| && Gives(o.reactions[i], primary, room, name, env) && HasRoom(o.rooms, room)
    ensures MoveAll(o.rooms, o.reactions, env).changed
  {
    hide MoveAll, CanonicalName, HasRoom;
    var r := o.reactions[i];
    assert r in o.reactions && HasLegacySettings(r);
    if !MoveAll(o.rooms, o.reactions, env).changed {
      UnchangedMeansSettled(o.rooms, o.reactions, env);
    }
  }

  /** After the burst stage a signal carries what the last cooling reaction with a number for it said:
      the number as its threshold, the correlation window or ten minutes, and the direction of the mode. */
  lemma BurstSettingArrives(o: Options, i: nat, primary: bool, room: string, name: string, env: Env)
    requires LowersDirections(env) && ReadsAbsence(env) && room != "" && name != ""
    requires GivesLast(o.reactions, i, primary, room, name, env)
    requires SignalAt(CanonicalRooms(o.rooms, env), room, name).Some?
    ensures var r, signal := o.reactions[i], SignalAt(MigrateBurst(o, env).options.rooms, room, name);
            && signal.Some? && signal.value.Signal?
            && signal.value.burstThreshold == NumberFor(r, primary, env)
            && signal.value.burstWindow == WindowOf(r, env)
            && (env.lower(signal.value.burstDirection) == "down" <==> ModeFor(r, primary, env) == "drop")
            && (env.lower(signal.value.burstDirection) == "both" <==> ModeFor(r, primary, env) == "both")
            && (env.lower(signal.value.burstDirection) == "up" <==> ModeFor(r, primary, env) !in {"drop", "both"})
  {
    hide MoveAll, CanonicalName, CanonicalRooms, SignalAt, Gives, PrimaryWrite, CorroborationWrite, WindowOf, ModeFor, NumberFor, HasRoom;
    var r := o.reactions[i];
    GiversAreCooling(r, primary, room, name, env);
    FoundRoomsExist(CanonicalRooms(o.rooms, env), room, name);
    CanonicalRoomsAreAlike(o.rooms, env);
    AlikeRoomsAreTheSameToOthers(o.rooms, CanonicalRooms(o.rooms, env), room, env);
    GiftsMove(o, i, primary, room, name, env);
    SettingsArrive(o.rooms, o.reactions, room, name, env);
    LastGiftIsWritten(o.reactions, i, primary, room, name, env);
    GiftReads(r, primary, room, name, env);
    var burst := if primary then PrimaryWrite(r, env).burst else CorroborationWrite(r, env).burst;
    assert Carries(SignalAt(MigrateBurst(o, env).options.rooms, room, name).value, burst.value, env);
  }

  /** A signal that no cooling reaction has a number for keeps its settings. */
  lemma BurstSettingStays(o: Options, room: string, name: string, env: Env)
    requires LowersDirections(env) && room != "" && name != ""
    requires forall j :: 0 <= j < |o.reactions| ==>
      !Gives(o.reactions[j], true, room, name, env) && !Gives(o.reactions[j], false, room, name, env)
    requires SignalAt(CanonicalRooms(o.rooms, env), room, name).Some?
    ensures MoveAll(o.rooms, o.reactions, env).changed ==>
      SignalAt(MigrateBurst(o, env).options.rooms, room, name) == SignalAt(CanonicalRooms(o.rooms, env), room, name)
    ensures !MoveAll(o.rooms, o.reactions, env).changed ==> MigrateBurst(o, env).options == o
  {
    hide MoveAll, CanonicalName, CanonicalRooms, SignalAt, Gives;
    SettingsArrive(o.rooms, o.reactions, room, name, env);
    NoGiftNoWrite(o.reactions, room, name, env);
  }

  lemma LegacySettingsAre(r: Reaction)
    requires r.Reaction?
    ensures HasLegacySettings(r) <==> r.settings != map[] || TriggerEntities in r.lists || TemperatureEntities in r.lists
  {}

  /** A cooling reaction in a known room is left with its signals renamed and its legacy settings gone;
      nothing else about it changes. */
  lemma CleaningKeepsTheRest(r: Reaction, env: Env)
    requires IsCooling(r)
    ensures var c := Cleaned(r, env);
            && !HasLegacySettings(c) && TriggerEntities !in c.lists && TemperatureEntities !in c.lists
            && c == r.(primarySignal := c.primarySignal, corroborationSignal := c.corroborationSignal, settings := map[],
                       lists := c.lists)
            && (forall field :: field !in {TriggerEntities, TemperatureEntities} && field in r.lists ==>
                  field in c.lists && c.lists[field] == r.lists[field])
            && c.primarySignal == (if CanonicalName(r.primarySignal, env) != "" then CanonicalName(r.primarySignal, env) else r.primarySignal)
            && c.corroborationSignal
                 == (if CanonicalName(r.corroborationSignal, env) != "" then CanonicalName(r.corroborationSignal, env) else r.corroborationSignal)
  {
    hide CanonicalName;
  }
}

/** What the first pass does to the rooms' signals, seen from the stored options: exactly when the
    listener needs a second pass, and which references to signals survive. */
module OptionsSecondPass {
  import opened Wrappers
  import opened ReactionPayloads
  import opened OptionsMigration
  import opened OptionsSettling
  import opened OptionsMeaning

  // ----- rooms that differ in burst settings only

  predicate SameName(s: Signal, t: Signal) {
    (s.Signal? <==> t.Signal?) && (s.Signal? ==> s.name == t.name && s.buckets == t.buckets)
  }

  predicate SameNames(a: seq<Signal>, b: seq<Signal>) {
    |a| == |b| && forall i :: 0 <= i < |a| ==> SameName(a[i], b[i])
  }

  predicate SameRoom(a: Room, b: Room) {
    (a.Room? <==> b.Room?) && (a.Room? ==> a.id == b.id && SameNames(a.signals, b.signals))
  }

  predicate SameRooms(a: seq<Room>, b: seq<Room>) {
    |a| == |b| && forall i :: 0 <= i < |a| ==> SameRoom(a[i], b[i])
  }

  lemma SameRoomsJoin(a: seq<Room>, b: seq<Room>, c: seq<Room>)
    requires SameRooms(a, b) && SameRooms(b, c)
    ensures SameRooms(a, c)
  {
    forall i | 0 <= i < |a| ensures SameRoom(a[i], c[i]) {
      assert SameRoom(a[i], b[i]) && SameRoom(b[i], c[i]);
      if a[i].Room? {
        forall j | 0 <= j < |a[i].signals| ensures SameName(a[i].signals[j], c[i].signals[j]) {
          assert SameName(a[i].signals[j], b[i].signals[j]) && SameName(b[i].signals[j], c[i].signals[j]);
        }
      }
    }
  }

  lemma MergingKeepsNames(rooms: seq<Room>, room: string, name: string, burst: Option<Burst>, env: Env)
    ensures SameRooms(rooms, MergeBurst(rooms, room, name, burst, env).rooms)
  {}

  lemma {:induction false} MovingKeepsNames(rooms: seq<Room>, reactions: seq<Reaction>, env: Env)
    ensures SameRooms(CanonicalRooms(rooms, env), MoveAll(rooms, reactions, env).rooms)
  {
    hide MergeBurst, BurstIn, Cleaned, CanonicalName, SameRooms, CanonicalRooms, HasRoom;
    if reactions == [] {
      SameAsItself(CanonicalRooms(rooms, env));
    } else {
      var init, r := reactions[..|reactions| - 1], reactions[|reactions| - 1];
      var earlier := MoveAll(rooms, init, env);
      MovingKeepsNames(rooms, init, env);
      if IsCooling(r) && HasRoom(earlier.rooms, r.room) {
        var w, v := PrimaryWrite(r, env), CorroborationWrite(r, env);
        var primary := MergeBurst(earlier.rooms, w.room, w.name, w.burst, env);
        MergingKeepsNames(earlier.rooms, w.room, w.name, w.burst, env);
        MergingKeepsNames(primary.rooms, v.room, v.name, v.burst, env);
        var second := MergeBurst(primary.rooms, v.room, v.name, v.burst, env);
        SameRoomsJoin(earlier.rooms, primary.rooms, second.rooms);
        SameRoomsJoin(CanonicalRooms(rooms, env), earlier.rooms, second.rooms);
      }
    }
  }

  lemma SameAsItself(rooms: seq<Room>)
    ensures SameRooms(rooms, rooms)
  {}

  lemma {:induction false} SameNamesFound(a: seq<Signal>, b: seq<Signal>, name: string)
    requires SameNames(a, b)
    ensures BucketsIn(a, name) == BucketsIn(b, name)
    ensures SignalNamed(a, name) == SignalNamed(b, name)
  {
    hide Labelled;
    if a != [] {
      var n := |a| - 1;
      assert SameName(a[n], b[n]);
      SameNamesFound(a[..n], b[..n], name);
    }
  }

  lemma {:induction false} SameRoomsFound(a: seq<Room>, b: seq<Room>, room: string, name: string)
    requires SameRooms(a, b)
    ensures BucketsFor(a, room, name) == BucketsFor(b, room, name)
    ensures RoomNamed(a, room) == RoomNamed(b, room)
  {
    hide BucketsIn, SameNames;
    if a != [] {
      var n := |a| - 1;
      assert SameRoom(a[n], b[n]);
      SameRoomsFound(a[..n], b[..n], room, name);
      if a[n].Room? {
        SameNamesFound(a[n].signals, b[n].signals, name);
      }
    }
  }

  lemma SameSignalsFound(a: seq<Room>, b: seq<Room>, room: string, name: string)
    requires SameRooms(a, b)
    ensures SignalAt(a, room, name).Some? <==> SignalAt(b, room, name).Some?
  {
    SameRoomsFound(a, b, room, name);
    var at := RoomNamed(a, room);
    if at.Some? {
      assert SameRoom(a[at.value], b[at.value]);
      SameNamesFound(a[at.value].signals, b[at.value].signals, name);
    }
  }

  // ----- the stages, seen from the stored options

  /** Some cooling reaction in a known room holds settings that are to be moved. */
  predicate BurstsWillMove(o: Options) {
    exists r <- o.reactions :: IsCooling(r) && HasRoom(o.rooms, r.room) && HasLegacySettings(r)
  }

  /** The rooms once signals have been synthesised. */
  function Populated(o: Options, env: Env): seq<Room> {
    AllWithSignals(o.rooms, env)
  }

  /** The rooms as far as names and buckets of signals go: canonical names come with the moving only. */
  function Renaming(o: Options, env: Env): seq<Room> {
    if BurstsWillMove(o) then CanonicalRooms(Populated(o, env), env) else Populated(o, env)
  }

  lemma PopulatedAre(o: Options, env: Env)
    ensures var populated := Autopopulate(MigrateLearning(o).options, env).options;
            populated.rooms == Populated(o, env) && populated.reactions == o.reactions
    ensures AllAlikeToOthers(o.rooms, Populated(o, env))
  {
    hide Synthesized, MovedContext;
  }

  /** The same rooms, as far as their ids go. */
  predicate AllAlikeToOthers(a: seq<Room>, b: seq<Room>) {
    |a| == |b| && forall i :: 0 <= i < |a| ==> (a[i].Room? <==> b[i].Room?) && (a[i].Room? ==> a[i].id == b[i].id)
  }

  lemma SameRoomIds(a: seq<Room>, b: seq<Room>, id: string)
    requires AllAlikeToOthers(a, b)
    ensures HasRoom(a, id) <==> HasRoom(b, id)
  {
    if HasRoom(a, id) {
      var i :| 0 <= i < |a| && a[i].Room? && a[i].id == id;
      assert b[i] in b;
    }
    if HasRoom(b, id) {
      var i :| 0 <= i < |b| && b[i].Room? && b[i].id == id;
      assert a[i] in a;
    }
  }

  function Bucketed(o: Options, env: Env): seq<Reaction> {
    AllWithBuckets(Populated(o, env), o.reactions, env)
  }

  lemma BucketedAre(o: Options, env: Env)
    ensures var bucketed := MigrateDarkness(Autopopulate(MigrateLearning(o).options, env).options, env).options;
            bucketed.rooms == Populated(o, env) && bucketed.reactions == Bucketed(o, env)
  {
    hide Synthesized, MovedContext, BucketOf, Populated;
    PopulatedAre(o, env);
  }

  lemma MovingMeansChange(o: Options, env: Env)
    ensures MoveAll(Populated(o, env), Bucketed(o, env), env).changed <==> BurstsWillMove(o)
  {
    hide MoveAll, BucketOf, HasLegacySettings, HasRoom, Populated;
    var rooms, reactions := Populated(o, env), Bucketed(o, env);
    PopulatedAre(o, env);
    CoolingIsNotDarkness();
    forall i | 0 <= i < |reactions|
      ensures IsCooling(reactions[i]) || IsCooling(o.reactions[i]) ==> reactions[i] == o.reactions[i]
      ensures IsCooling(o.reactions[i]) ==> (HasRoom(rooms, o.reactions[i].room) <==> HasRoom(o.rooms, o.reactions[i].room))
    {
      if IsCooling(o.reactions[i]) {
        SameRoomIds(o.rooms, rooms, o.reactions[i].room);
      }
    }
    assert BurstsWillMove(o) <==> !BurstsAreSettled(rooms, reactions) by {
      if BurstsWillMove(o) {
        var i :| 0 <= i < |o.reactions| && IsCooling(o.reactions[i]) && HasRoom(o.rooms, o.reactions[i].room)
          && HasLegacySettings(o.reactions[i]);
        assert reactions[i] in reactions;
      }
      if !BurstsAreSettled(rooms, reactions) {
        var i :| 0 <= i < |reactions| && IsCooling(reactions[i]) && HasRoom(rooms, reactions[i].room) && HasLegacySettings(reactions[i]);
        assert o.reactions[i] in o.reactions;
      }
    }
    if BurstsAreSettled(rooms, reactions) {
      NothingMoves(rooms, reactions, env);
    }
    if !MoveAll(rooms, reactions, env).changed {
      UnchangedMeansSettled(rooms, reactions, env);
    }
  }

  /** Reaction `m` after the burst stage, which touches cooling reactions only. */
  predicate IsMoved(r: Reaction, m: Reaction, env: Env) {
    m == r || (IsCooling(r) && m == Cleaned(r, env))
  }

  lemma {:induction false} MovedReactions(rooms: seq<Room>, reactions: seq<Reaction>, env: Env)
    ensures var moved := MoveAll(rooms, reactions, env).reactions;
            |moved| == |reactions| && forall i :: 0 <= i < |reactions| ==> IsMoved(reactions[i], moved[i], env)
  {
    hide MergeBurst, BurstIn, Cleaned, CanonicalName, HasRoom;
    if reactions != [] {
      MovedReactions(rooms, reactions[..|reactions| - 1], env);
    }
  }

  function Moving(o: Options, env: Env): seq<Reaction> {
    if BurstsWillMove(o) then MoveAll(Populated(o, env), Bucketed(o, env), env).reactions else Bucketed(o, env)
  }

  lemma FourStages(o: Options, env: Env)
    ensures var moved := MigrateBurst(MigrateDarkness(Autopopulate(MigrateLearning(o).options, env).options, env).options, env).options;
            && SameRooms(Renaming(o, env), moved.rooms)
            && moved.reactions == Moving(o, env)
            && Chain(o, env).options == NormalizeReactions(moved, env).options
  {
    hide MoveAll, BucketOf, MergeBurst, MigrateLearning, Autopopulate, MigrateDarkness, BurstsWillMove, NormalizeReactions, SameRooms,
      CanonicalRooms, Populated, Bucketed;
    BucketedAre(o, env);
    MovingMeansChange(o, env);
    MovingKeepsNames(Populated(o, env), Bucketed(o, env), env);
    SameAsItself(Populated(o, env));
  }

  /** The payload stage, whether or not it reports a change. */
  lemma NormalizedResults(o: Options, env: Env)
    ensures forall n :: n in NormalizeReactions(o, env).options.reactions <==> exists r :: r in o.reactions && IsResult(r, n, env)
  {
    hide IsPruned, NormalizedAll, Specialised, Filtered;
    NormalizedAre(o.reactions, env);
    if !AnyNeedsNormalizing(o.reactions, env) {
      forall r | r in o.reactions ensures forall n :: IsResult(r, n, env) <==> n == r {
        assert !NeedsNormalizing(r, env);
      }
    }
  }

  // ----- exactly when the second pass is needed

  predicate IsDarkness(r: Reaction) {
    r.Reaction? && ResolvedKind(r) == "room_darkness_lighting_assist"
  }

  /** A darkness reaction without bucket that the first pass keeps, and that gets its bucket from the
      rooms as that pass leaves them; it could not have it at once, because it was still stored
      under its legacy class, or because no signal had the canonical name that it asks for. */
  predicate GetsItsBucketLate(o: Options, r: Reaction, env: Env) {
    && IsDarkness(r) && Survives(r, env) && r.primaryBucket == ""
    && BucketOf(Renaming(o, env), r, env).Some?
    && (r.kind == "" || BucketOf(Populated(o, env), r, env).None?)
  }

  predicate NeedsSecondPass(o: Options, env: Env) {
    exists r <- o.reactions :: GetsItsBucketLate(o, r, env)
  }

  lemma SameBucketOf(a: seq<Room>, b: seq<Room>, r: Reaction, env: Env)
    requires r.Reaction? && SameRooms(a, b)
    ensures BucketOf(a, r, env) == BucketOf(b, r, env)
  {
    hide BucketsFor;
    SameRoomsFound(a, b, r.room, r.primarySignal);
  }

  /** One reaction, from the stored options to the end of the first pass. */
  lemma OneReaction(o: Options, i: nat, rooms: seq<Room>, env: Env)
    requires i < |o.reactions| && SameRooms(Renaming(o, env), rooms)
    ensures |Moving(o, env)| == |o.reactions|
    ensures var m := Moving(o, env)[i];
            m.Reaction? && Survives(m, env) && NeedsBucket(rooms, Normalized(m, env.texts), env) <==>
            GetsItsBucketLate(o, o.reactions[i], env)
  {
    hide MoveAll, MergeBurst, CanonicalName, SameRooms, CanonicalRooms, BucketOf, IsPruned, Normalized, BurstsWillMove, Populated, Renaming;
    var r, q := o.reactions[i], Bucketed(o, env)[i];
    MovedReactions(Populated(o, env), Bucketed(o, env), env);
    var m := Moving(o, env)[i];
    assert IsMoved(q, m, env);
    CoolingIsNotDarkness();
    if m.Reaction? {
      NormalizedDarkness(rooms, m, env);
      SameBucketOf(Renaming(o, env), rooms, m, env);
      BucketsHaveNames(Populated(o, env), r, env);
    }
  }

  lemma BucketsHaveNames(rooms: seq<Room>, r: Reaction, env: Env)
    requires r.Reaction?
    ensures BucketOf(rooms, r, env).Some? ==> BucketOf(rooms, r, env).value != ""
  {
    hide BucketsFor;
    BucketsForAreLabelled(rooms, r.room, r.primarySignal);
    BucketForThresholdIsLabelled(BucketsFor(rooms, r.room, r.primarySignal), Threshold(r, env));
  }

  /** The listener needs a second pass if and only if some stored darkness reaction gets its bucket
      late: a condition on the stored options alone. */
  lemma SecondPassIsNeeded(o: Options, env: Env)
    requires env.texts.AreStable()
    ensures Chain(Chain(o, env).options, env).changed <==> NeedsSecondPass(o, env)
  {
    hide Chain, MoveAll, Renaming, Moving, SameRooms, BucketOf, NeedsBucket, Normalized, Survives, GetsItsBucketLate, NormalizeReactions,
      MigrateLearning, Autopopulate, MigrateDarkness, MigrateBurst;
    var once := Chain(o, env).options;
    SecondPassChangesExactly(o, env);
    FourStages(o, env);
    var moved := MigrateBurst(MigrateDarkness(Autopopulate(MigrateLearning(o).options, env).options, env).options, env).options;
    NormalizedResults(moved, env);
    assert once.rooms == moved.rooms by { RoomsStay(moved, env); }
    if NeedsSecondPass(o, env) {
      var i :| 0 <= i < |o.reactions| && GetsItsBucketLate(o, o.reactions[i], env);
      OneReaction(o, i, moved.rooms, env);
      var m := moved.reactions[i];
      assert IsResult(m, Normalized(m, env.texts), env);
      assert Normalized(m, env.texts) in once.reactions;
    }
    if AnyNeedsBucket(once.rooms, once.reactions, env) {
      var n :| n in once.reactions && NeedsBucket(once.rooms, n, env);
      var m :| m in moved.reactions && IsResult(m, n, env);
      var i :| 0 <= i < |moved.reactions| && moved.reactions[i] == m;
      ReactionsCorrespond(o, env);
      OneReaction(o, i, moved.rooms, env);
      assert m.Reaction? by { NeedyAreReactions(once.rooms, n, env); }
      assert o.reactions[i] in o.reactions;
    }
  }

  lemma ReactionsCorrespond(o: Options, env: Env)
    ensures |Moving(o, env)| == |o.reactions|
  {
    MovedReactions(Populated(o, env), Bucketed(o, env), env);
  }

  lemma NeedyAreReactions(rooms: seq<Room>, r: Reaction, env: Env)
    ensures NeedsBucket(rooms, r, env) ==> r.Reaction?
  {}

  // ----- stored options that need it

  /** A room with one signal, and a bucket that reaches up to everything. */
  function RoomWith(signal: string): Room {
    Room("r", [], [Signal(signal, "e", [Bucket("dark", None)], None, 0, "")])
  }

  /** A usable darkness reaction over a signal, with a threshold and no bucket yet. */
  function DarknessOver(kind: string, legacyClass: Option<string>, signal: string): Reaction {
    Reaction(kind, legacyClass, "r", signal, "", "", map[PrimaryThreshold := "10"], map[PrimaryEntities := ["sensor.a"]],
      Some([EntityStep("light.a", map[])]), None, map[])
  }

  /** A cooling reaction with nothing but a setting that is to be removed. */
  const COOLING: Reaction :=
    Reaction("room_cooling_assist", None, "r", "", "", "", map[HumidityRise := "5"], map[], None, None, map[])

  lemma BucketsOfTheOnlyRoom(stored: string, asked: string)
    ensures BucketsFor([RoomWith(stored)], "r", asked) == if asked == stored then [Bucket("dark", None)] else []
  {
    var room := RoomWith(stored);
    assert room.signals[..0] == [] && [room][..0] == [] && room.signals[0].buckets[..0] == [];
    assert Labelled(room.signals[0].buckets) == [] + [Bucket("dark", None)];
    assert BucketsIn([], asked) == [] && BucketsFor([], "r", asked) == [];
  }

  lemma BucketFound(stored: string, r: Reaction, env: Env)
    requires r.Reaction? && r.room == "r" && r.primarySignal != "" && r.settings == map[PrimaryThreshold := "10"]
    requires env.number("10").Some?
    ensures BucketOf([RoomWith(stored)], r, env) == if r.primarySignal == stored then Some("dark") else None
  {
    hide BucketsFor;
    BucketsOfTheOnlyRoom(stored, r.primarySignal);
    assert PrimaryThreshold in r.settings && r.settings[PrimaryThreshold] == "10";
  }

  lemma PlainTextsAreNotRedacted(s: string)
    requires '*' !in s
    ensures !IsRedacted(s)
  {
    forall i | 0 <= i <= |s| ensures !StandsAt(s, i, MARKER) {
      if i + |MARKER| <= |s| {
        assert s[i..i + |MARKER|][0] == s[i] && MARKER[0] == '*' && s[i] in s;
      }
    }
  }

  const DARKNESS: string := "room_darkness_lighting_assist"

  lemma UsableDarknessHasNoMarker(signal: string)
    requires '*' !in signal
    ensures !HasMarker(DarknessOver(DARKNESS, None, signal))
  {
    hide IsRedacted;
    PlainTextsAreNotRedacted("sensor.a");
    PlainTextsAreNotRedacted("light.a");
    PlainTextsAreNotRedacted("10");
    PlainTextsAreNotRedacted("r");
    PlainTextsAreNotRedacted("");
    PlainTextsAreNotRedacted(signal);
    PlainTextsAreNotRedacted(DARKNESS);
  }

  lemma UsableDarknessIsNormal(r: Reaction, kind: string, legacyClass: Option<string>, signal: string, env: Env)
    requires r == DarknessOver(kind, legacyClass, signal) && ResolvedKind(r) == DARKNESS
    ensures Normalized(r, env.texts) == DarknessOver(DARKNESS, None, signal)
  {
    hide IsRedacted, Keep, ResolvedKind;
    KindsDiffer();
    PlainTextsAreNotRedacted("sensor.a");
    PlainTextsAreNotRedacted("light.a");
    AllKept(["sensor.a"], IS_NAMED);
    AllKept([EntityStep("light.a", map[])], IS_USABLE_STEP);
    assert Filtered(Typed(r)).lists == map[PrimaryEntities := ["sensor.a"]];
  }

  lemma UsableDarknessSurvives(kind: string, legacyClass: Option<string>, signal: string, env: Env)
    requires '*' !in signal
    requires || (kind == DARKNESS && legacyClass.None?)
             || (kind == "" && legacyClass == Some("RoomLightingAssistReaction"))
    ensures ResolvedKind(DarknessOver(kind, legacyClass, signal)) == DARKNESS
    ensures Survives(DarknessOver(kind, legacyClass, signal), env)
  {
    hide IsRedacted, Normalized, HasMarker;
    KindsDiffer();
    UsableDarknessIsNormal(DarknessOver(kind, legacyClass, signal), kind, legacyClass, signal, env);
    UsableDarknessHasNoMarker(signal);
    OtherKindsDiffer();
  }

  lemma OtherKindsDiffer()
    ensures DARKNESS != "lighting_scene_schedule" && DARKNESS != "room_signal_assist" && DARKNESS != "scheduled_routine"
  {
    assert |DARKNESS| == 29 && |"lighting_scene_schedule"| == 23 && |"room_signal_assist"| == 18 && |"scheduled_routine"| == 17;
  }

  lemma ChangedOnce(o: Options, env: Env)
    requires Chain(Chain(o, env).options, env).changed
    ensures Chain(o, env).changed
  {
    if !Chain(o, env).changed {
      UnchangedPassesChangeNothing(o, env);
    }
  }

  /** The first pass finds no bucket under the asked name and renames the signal; the second finds it. */
  lemma TwoPassesCanBeNeeded(stored: string, canonical: string, env: Env)
    requires CanonicalName(stored, env) == canonical && stored != canonical && canonical != "" && '*' !in canonical
    requires env.number("10").Some? && env.texts.AreStable()
    ensures var darkness := DarknessOver(DARKNESS, None, canonical);
            var o := Options(NoLearning, map[], [RoomWith(stored)], [darkness, COOLING]);
            Chain(o, env).changed && Chain(Chain(o, env).options, env).changed
  {
    hide CanonicalName, Chain, BucketOf, Survives, ResolvedKind;
    var darkness := DarknessOver(DARKNESS, None, canonical);
    var o := Options(NoLearning, map[], [RoomWith(stored)], [darkness, COOLING]);
    assert Populated(o, env) == o.rooms;
    assert o.reactions[1] == COOLING && HumidityRise in COOLING.settings && RoomWith(stored) in o.rooms;
    assert BurstsWillMove(o);
    RenamedRoom(stored, canonical, env);
    assert Renaming(o, env) == [RoomWith(canonical)];
    BucketFound(stored, darkness, env);
    BucketFound(canonical, darkness, env);
    UsableDarknessSurvives(DARKNESS, None, canonical, env);
    assert o.reactions[0] == darkness && GetsItsBucketLate(o, darkness, env);
    SecondPassIsNeeded(o, env);
    ChangedOnce(o, env);
  }

  lemma RenamedRoom(stored: string, canonical: string, env: Env)
    requires CanonicalName(stored, env) == canonical && canonical != ""
    ensures CanonicalRooms([RoomWith(stored)], env) == [RoomWith(canonical)]
  {
    hide CanonicalName;
    var room, renamed := RoomWith(stored), RoomWith(canonical);
    assert room.signals[..0] == [] && CanonicalSignals([], env) == [];
    assert CanonicalSignals(room.signals, env) == [] + [room.signals[0].(name := canonical)] == renamed.signals;
    assert CanonicalRoom(room, env) == renamed;
  }

  /** Without any renaming: the first pass gives a legacy class its type, and only then is it asked
      for its bucket. */
  lemma LegacyClassesNeedTwoPasses(signal: string, env: Env)
    requires signal != "" && '*' !in signal && env.number("10").Some? && env.texts.AreStable()
    ensures var o := Options(NoLearning, map[], [RoomWith(signal)], [DarknessOver("", Some("RoomLightingAssistReaction"), signal)]);
            Chain(o, env).changed && Chain(Chain(o, env).options, env).changed
  {
    hide Chain, BucketOf, Survives, ResolvedKind;
    var darkness := DarknessOver("", Some("RoomLightingAssistReaction"), signal);
    var o := Options(NoLearning, map[], [RoomWith(signal)], [darkness]);
    assert Populated(o, env) == o.rooms;
    assert !BurstsWillMove(o);
    BucketFound(signal, darkness, env);
    UsableDarknessSurvives("", Some("RoomLightingAssistReaction"), signal, env);
    assert o.reactions[0] == darkness && GetsItsBucketLate(o, darkness, env);
    SecondPassIsNeeded(o, env);
    ChangedOnce(o, env);
  }

  // ----- references to signals

  /** Lowering a text twice is lowering it once, loses no text, and leaves canonical names alone. */
  ghost predicate LowersWords(env: Env) {
    && (forall s :: env.lower(env.lower(s)) == env.lower(s))
    && (forall s :: env.lower(s) == "" <==> s == "")
    && (forall s <- {"room_temperature", "room_humidity", "room_co2", "room_lux"} :: env.lower(s) == s)
  }

  lemma CanonicalTwice(name: string, env: Env)
    requires LowersWords(env)
    ensures CanonicalName(CanonicalName(name, env), env) == CanonicalName(name, env)
    ensures CanonicalName(name, env) == "" <==> name == ""
  {
    var lowered := env.lower(name);
    assert |"temperature"| == 11 && |"humidity"| == 8 && |"co2"| == 3 && |"lux"| == 3;
    assert |"room_temperature"| == 16 && |"room_humidity"| == 13 && |"room_co2"| == 8 && |"room_lux"| == 8;
    assert "room_co2"[0] != "humidity"[0] && "room_lux"[0] != "humidity"[0];
    assert env.lower("room_temperature") == "room_temperature" && env.lower("room_humidity") == "room_humidity";
    assert env.lower("room_co2") == "room_co2" && env.lower("room_lux") == "room_lux";
  }

  predicate IsNamed(signals: seq<Signal>, name: string) {
    exists s <- signals :: s.Signal? && s.name == name
  }

  lemma {:induction false} NamedAreFound(signals: seq<Signal>, name: string)
    ensures SignalNamed(signals, name).Some? <==> IsNamed(signals, name)
  {
    if signals != [] {
      var init, last := signals[..|signals| - 1], signals[|signals| - 1];
      NamedAreFound(init, name);
      assert forall s :: s in signals <==> s in init || s == last;
    }
  }

  /** The names after renaming are the canonical ones of the names before. */
  lemma {:induction false} CanonicalNamesAre(signals: seq<Signal>, name: string, env: Env)
    requires name != ""
    ensures IsNamed(CanonicalSignals(signals, env), name) <==> exists s <- signals :: s.Signal? && CanonicalName(s.name, env) == name
  {
    hide CanonicalName;
    if signals != [] {
      var init, last := signals[..|signals| - 1], signals[|signals| - 1];
      CanonicalNamesAre(init, name, env);
      var added := if last.NotASignal? || CanonicalName(last.name, env) == "" then [] else [last.(name := CanonicalName(last.name, env))];
      assert forall s :: s in CanonicalSignals(signals, env) <==> s in CanonicalSignals(init, env) || s in added;
      assert forall s :: s in signals <==> s in init || s == last;
    }
  }

  lemma {:induction false} SameRoomNamed(rooms: seq<Room>, id: string, env: Env)
    ensures RoomNamed(CanonicalRooms(rooms, env), id) == RoomNamed(rooms, id)
  {
    hide CanonicalName;
    if rooms != [] {
      var init, all := rooms[..|rooms| - 1], CanonicalRooms(rooms, env);
      SameRoomNamed(init, id, env);
      assert all[..|all| - 1] == CanonicalRooms(init, env);
      assert all[|all| - 1] == CanonicalRoom(rooms[|rooms| - 1], env);
    }
  }

  /** Renaming the signals of the rooms breaks exactly the references that are not canonical, and the
      canonical form of a reference always finds its signal. */
  lemma RenamingAndReferences(rooms: seq<Room>, room: string, name: string, env: Env)
    requires LowersWords(env) && room != "" && name != "" && SignalAt(rooms, room, name).Some?
    ensures SignalAt(CanonicalRooms(rooms, env), room, name).Some? <==> CanonicalName(name, env) == name
    ensures SignalAt(CanonicalRooms(rooms, env), room, CanonicalName(name, env)).Some?
  {
    hide CanonicalName, CanonicalRooms, LowersWords;
    SameRoomNamed(rooms, room, env);
    var at := RoomNamed(rooms, room).value;
    var signals := rooms[at].signals;
    CanonicalRoomAt(rooms, at, env);
    NamedAreFound(signals, name);
    CanonicalTwice(name, env);
    forall s | s in signals && s.Signal? ensures CanonicalName(CanonicalName(s.name, env), env) == CanonicalName(s.name, env) {
      CanonicalTwice(s.name, env);
    }
    CanonicalNamesAre(signals, CanonicalName(name, env), env);
    CanonicalNamesAre(signals, name, env);
    NamedAreFound(CanonicalSignals(signals, env), name);
    NamedAreFound(CanonicalSignals(signals, env), CanonicalName(name, env));
  }

  lemma CanonicalRoomAt(rooms: seq<Room>, at: nat, env: Env)
    requires at < |rooms| && rooms[at].Room? && rooms[at].id != ""
    ensures var room := CanonicalRooms(rooms, env)[at];
            && room.Room?
            && (CanonicalSignals(rooms[at].signals, env) != [] ==> room.signals == CanonicalSignals(rooms[at].signals, env))
  {
    hide CanonicalName;
  }

  lemma {:induction false} MovedCooling(rooms: seq<Room>, reactions: seq<Reaction>, i: nat, env: Env)
    requires i < |reactions| && IsCooling(reactions[i]) && HasRoom(rooms, reactions[i].room)
    ensures |MoveAll(rooms, reactions, env).reactions| == |reactions|
    ensures MoveAll(rooms, reactions, env).reactions[i] == Cleaned(reactions[i], env)
  {
    hide MergeBurst, BurstIn, Cleaned, CanonicalName, HasRoom;
    var init := reactions[..|reactions| - 1];
    MovedReactions(rooms, reactions, env);
    MovedReactions(rooms, init, env);
    if i < |init| {
      MovedCooling(rooms, init, i, env);
    } else {
      MoveAllKeepsRoomsAlike(rooms, init, env);
      AlikeRoomsAreTheSameToOthers(rooms, MoveAll(rooms, init, env).rooms, reactions[i].room, env);
    }
  }

  /** A reference of a stored reaction to an existing signal still finds it after the first pass, if
      and only if no settings were moved, or the reaction is a cooling one and was renamed along, or
      the name was canonical already. */
  lemma ReferenceSurvives(o: Options, i: nat, env: Env)
    requires LowersWords(env) && i < |o.reactions| && o.reactions[i].Reaction?
    requires ResolvedKind(o.reactions[i]) !in {"scheduled_routine", "alarm_state_action"}
    requires o.reactions[i].room != "" && o.reactions[i].primarySignal != ""
    requires SignalAt(Populated(o, env), o.reactions[i].room, o.reactions[i].primarySignal).Some?
    ensures |Moving(o, env)| == |o.reactions| && Moving(o, env)[i].Reaction?
    ensures var r, n := o.reactions[i], Normalized(Moving(o, env)[i], env.texts);
            && n.room == r.room
            && (SignalAt(Chain(o, env).options.rooms, n.room, n.primarySignal).Some? <==>
                  !BurstsWillMove(o) || IsCooling(r) || CanonicalName(r.primarySignal, env) == r.primarySignal)
  {
    hide MoveAll, Chain, CanonicalName, SameRooms, CanonicalRooms, SignalAt, BucketOf, BurstsWillMove, Populated, LowersWords, Moving;
    var r, rooms := o.reactions[i], Populated(o, env);
    var m := MovedAt(o, i, env);
    FourStages(o, env);
    var once := Chain(o, env).options;
    var moved := MigrateBurst(MigrateDarkness(Autopopulate(MigrateLearning(o).options, env).options, env).options, env).options;
    RoomsStay(moved, env);
    var n := Normalized(m, env.texts);
    NormalizingKeepsReferences(m, env);
    SameSignalsFound(Renaming(o, env), once.rooms, n.room, n.primarySignal);
    RenamingAndReferences(rooms, r.room, r.primarySignal, env);
    CanonicalTwice(r.primarySignal, env);
  }

  /** The reaction after four stages. */
  lemma MovedAt(o: Options, i: nat, env: Env) returns (m: Reaction)
    requires i < |o.reactions| && o.reactions[i].Reaction?
    requires o.reactions[i].room != "" && SignalAt(Populated(o, env), o.reactions[i].room, o.reactions[i].primarySignal).Some?
    ensures |Moving(o, env)| == |o.reactions| && m == Moving(o, env)[i] && m.Reaction?
    ensures var r := o.reactions[i];
            && m.room == r.room && m.kind == r.kind && m.legacyClass == r.legacyClass
            && m.primarySignal == if BurstsWillMove(o) && IsCooling(r) then Renamed(r.primarySignal, env) else r.primarySignal
  {
    hide MoveAll, CanonicalName, BucketOf, BurstsWillMove, Populated, Renamed;
    var r, rooms, reactions := o.reactions[i], Populated(o, env), Bucketed(o, env);
    MovedReactions(rooms, reactions, env);
    m := Moving(o, env)[i];
    assert IsMoved(reactions[i], m, env);
    CoolingIsNotDarkness();
    if BurstsWillMove(o) && IsCooling(r) {
      FoundRoomsExist(rooms, r.room, r.primarySignal);
      MovedCooling(rooms, reactions, i, env);
    }
  }

  lemma NormalizingKeepsReferences(m: Reaction, env: Env)
    requires m.Reaction? && ResolvedKind(m) !in {"scheduled_routine", "alarm_state_action"}
    ensures var n := Normalized(m, env.texts); n.room == m.room && n.primarySignal == m.primarySignal
  {
    hide IsRedacted, Keep;
  }

  /** A darkness reaction that refers to the only signal of its room as "lux", next to a cooling
      reaction with settings to move: afterwards the signal has another name. */
  lemma ReferencesCanDangle(env: Env)
    requires LowersWords(env) && env.lower("lux") == "lux"
    ensures var o := Options(NoLearning, map[], [RoomWith("lux")], [DarknessOver(DARKNESS, None, "lux"), COOLING]);
            && SignalAt(Populated(o, env), "r", "lux").Some?
            && SignalAt(Chain(o, env).options.rooms, "r", "lux").None?
  {
    hide Chain, SignalAt, BucketOf, CanonicalName, ResolvedKind;
    var darkness := DarknessOver(DARKNESS, None, "lux");
    var o := Options(NoLearning, map[], [RoomWith("lux")], [darkness, COOLING]);
    assert Populated(o, env) == o.rooms;
    assert o.reactions[1] == COOLING && HumidityRise in COOLING.settings && RoomWith("lux") in o.rooms;
    assert BurstsWillMove(o);
    OnlySignalFound("lux");
    LuxIsRenamed(env);
    KindsDiffer();
    assert ResolvedKind(darkness) == DARKNESS by { DarknessKind("lux"); }
    CoolingIsNotDarkness();
    ReferenceSurvives(o, 0, env);
    assert Normalized(Moving(o, env)[0], env.texts).primarySignal == "lux" by { DarknessStaysPut(o, env); }
  }

  lemma OnlySignalFound(name: string)
    ensures SignalAt([RoomWith(name)], "r", name).Some?
  {
    var rooms := [RoomWith(name)];
    assert RoomNamed(rooms, "r") == Some(0);
    assert SignalNamed(rooms[0].signals, name) == Some(0);
  }

  lemma LuxIsRenamed(env: Env)
    requires env.lower("lux") == "lux"
    ensures CanonicalName("lux", env) != "lux"
  {
    assert |"lux"| == 3 && |"room_temperature"| == 16 && |"room_humidity"| == 13 && |"room_co2"| == 8 && |"room_lux"| == 8;
    assert |"temperature"| == 11 && |"humidity"| == 8;
  }

  lemma DarknessKind(signal: string)
    ensures ResolvedKind(DarknessOver(DARKNESS, None, signal)) == DARKNESS
  {
    assert |DARKNESS| == 29;
  }

  lemma DarknessStaysPut(o: Options, env: Env)
    requires o.reactions != [] && o.reactions[0] == DarknessOver(DARKNESS, None, "lux")
    ensures |Moving(o, env)| == |o.reactions|
    ensures Moving(o, env)[0].Reaction? && Normalized(Moving(o, env)[0], env.texts).primarySignal == "lux"
  {
    hide MoveAll, CanonicalName, BucketOf, BurstsWillMove, Populated, Cleaned, IsRedacted, Keep, ResolvedKind;
    MovedReactions(Populated(o, env), Bucketed(o, env), env);
    assert IsMoved(Bucketed(o, env)[0], Moving(o, env)[0], env);
    CoolingIsNotDarkness();
    KindsDiffer();
    assert ResolvedKind(Moving(o, env)[0]) == DARKNESS by { DarknessKinds(Moving(o, env)[0]); }
  }

  lemma DarknessKinds(r: Reaction)
    requires r.Reaction? && r.kind == DARKNESS
    ensures ResolvedKind(r) == DARKNESS
  {
    assert |DARKNESS| == 29;
  }
}

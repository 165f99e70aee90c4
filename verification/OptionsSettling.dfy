/** How often the options update re-enters itself: the chain settles after at most two changes. */
module OptionsSettling {
  import opened Wrappers
  import opened ReactionPayloads
  import opened OptionsMigration

  // ----- what each stage leaves settled

  ghost predicate LearningIsSettled(o: Options) {
    !HasLegacyLearning(o.learning)
  }

  ghost predicate SignalsAreSettled(o: Options, env: Env) {
    !AnyNeedsSignals(o.rooms, env)
  }

  ghost predicate BurstsAreSettled(rooms: seq<Room>, reactions: seq<Reaction>) {
    forall r :: r in reactions && IsCooling(r) && HasRoom(rooms, r.room) ==> !HasLegacySettings(r)
  }

  /** Rooms that agree in everything the other stages look at. */
  predicate Alike(a: Room, b: Room) {
    && (a.Room? <==> b.Room?)
    && (a.Room? ==> a.id == b.id && a.learningSources == b.learningSources && (a.signals == [] <==> b.signals == []))
  }

  predicate AllAlike(a: seq<Room>, b: seq<Room>) {
    |a| == |b| && forall i :: 0 <= i < |a| ==> Alike(a[i], b[i])
  }

  lemma AlikeRoomsAreTheSameToOthers(a: seq<Room>, b: seq<Room>, id: string, env: Env)
    requires AllAlike(a, b)
    ensures HasRoom(a, id) <==> HasRoom(b, id)
    ensures AnyNeedsSignals(a, env) <==> AnyNeedsSignals(b, env)
  {
    if HasRoom(a, id) {
      var i :| 0 <= i < |a| && a[i].Room? && a[i].id == id;
      assert b[i] in b && Alike(a[i], b[i]);
    }
    if HasRoom(b, id) {
      var i :| 0 <= i < |b| && b[i].Room? && b[i].id == id;
      assert a[i] in a && Alike(a[i], b[i]);
    }
    if AnyNeedsSignals(a, env) {
      var i :| 0 <= i < |a| && NeedsSignals(a[i], env);
      assert b[i] in b && Alike(a[i], b[i]);
    }
    if AnyNeedsSignals(b, env) {
      var i :| 0 <= i < |b| && NeedsSignals(b[i], env);
      assert a[i] in a && Alike(a[i], b[i]);
    }
  }

  lemma AutopopulateSettles(o: Options, env: Env)
    ensures SignalsAreSettled(Autopopulate(o, env).options, env)
  {
    hide Synthesized;
    var rooms := AllWithSignals(o.rooms, env);
    forall room | room in rooms ensures !NeedsSignals(room, env) {
      var i :| 0 <= i < |rooms| && rooms[i] == room;
    }
  }

  lemma {:induction false} BucketForThresholdIsLabelled(buckets: seq<Bucket>, threshold: Option<real>)
    requires forall i :: 0 <= i < |buckets| ==> buckets[i].text != ""
    ensures BucketForThreshold(buckets, threshold).Some? ==> BucketForThreshold(buckets, threshold).value != ""
  {
    if buckets != [] {
      BucketForThresholdIsLabelled(buckets[1..], threshold);
    }
  }

  lemma {:induction false} BucketsInAreLabelled(signals: seq<Signal>, name: string)
    ensures forall i :: 0 <= i < |BucketsIn(signals, name)| ==> BucketsIn(signals, name)[i].text != ""
  {
    if signals != [] {
      BucketsInAreLabelled(signals[..|signals| - 1], name);
    }
  }

  lemma {:induction false} BucketsForAreLabelled(rooms: seq<Room>, room: string, name: string)
    ensures forall i :: 0 <= i < |BucketsFor(rooms, room, name)| ==> BucketsFor(rooms, room, name)[i].text != ""
  {
    if rooms != [] {
      var last := rooms[|rooms| - 1];
      BucketsForAreLabelled(rooms[..|rooms| - 1], room, name);
      if last.Room? {
        BucketsInAreLabelled(last.signals, name);
      }
    }
  }

  /** A reaction that got its bucket has one, so it never needs another. */
  lemma BucketIsFinal(rooms: seq<Room>, r: Reaction, env: Env)
    ensures !NeedsBucket(rooms, WithBucket(rooms, r, env), env)
  {
    if NeedsBucket(rooms, r, env) {
      BucketsForAreLabelled(rooms, r.room, r.primarySignal);
      BucketForThresholdIsLabelled(BucketsFor(rooms, r.room, r.primarySignal), Threshold(r, env));
    }
  }

  lemma DarknessSettles(o: Options, env: Env)
    ensures var o' := MigrateDarkness(o, env).options; MigrateDarkness(o', env) == Stage(o', false)
  {
    var reactions := AllWithBuckets(o.rooms, o.reactions, env);
    forall r | r in reactions ensures !NeedsBucket(o.rooms, r, env) {
      var i :| 0 <= i < |reactions| && reactions[i] == r;
      BucketIsFinal(o.rooms, o.reactions[i], env);
    }
  }

  lemma DarknessKeepsBursts(o: Options, env: Env)
    requires BurstsAreSettled(o.rooms, o.reactions)
    ensures BurstsAreSettled(o.rooms, MigrateDarkness(o, env).options.reactions)
  {
    var reactions := AllWithBuckets(o.rooms, o.reactions, env);
    forall r | r in reactions && IsCooling(r) && HasRoom(o.rooms, r.room) ensures !HasLegacySettings(r) {
      var i :| 0 <= i < |reactions| && reactions[i] == r;
      assert o.reactions[i] in o.reactions;
      assert r == o.reactions[i] by { CoolingIsNotDarkness(); }
    }
  }

  lemma CoolingIsNotDarkness()
    ensures "room_cooling_assist" != "room_darkness_lighting_assist"
  {
    assert |"room_cooling_assist"| != |"room_darkness_lighting_assist"|;
  }

  // ----- the burst stage

  lemma MergeKeepsRoomsAlike(rooms: seq<Room>, room: string, name: string, burst: Option<Burst>, env: Env)
    ensures AllAlike(rooms, MergeBurst(rooms, room, name, burst, env).rooms)
  {}

  lemma CanonicalRoomsAreAlike(rooms: seq<Room>, env: Env)
    ensures AllAlike(rooms, CanonicalRooms(rooms, env))
  {}

  lemma AlikeIsTransitive(a: seq<Room>, b: seq<Room>, c: seq<Room>)
    requires AllAlike(a, b) && AllAlike(b, c)
    ensures AllAlike(a, c)
  {}

  lemma MoveOneKeepsRoomsAlike(m: Moved, r: Reaction, env: Env)
    ensures AllAlike(m.rooms, MoveOne(m, r, env).rooms)
  {
    hide MergeBurst, BurstIn, Cleaned, CanonicalName;
    if IsCooling(r) && HasRoom(m.rooms, r.room) {
      var primary := MergeBurst(m.rooms, r.room, CanonicalName(r.primarySignal, env),
        BurstIn(r, PrimaryRise, PrimaryThreshold, PrimaryThresholdMode, env), env);
      var name, burst := CanonicalName(r.corroborationSignal, env),
        BurstIn(r, CorroborationRise, CorroborationThreshold, CorroborationThresholdMode, env);
      MergeKeepsRoomsAlike(m.rooms, r.room, CanonicalName(r.primarySignal, env),
        BurstIn(r, PrimaryRise, PrimaryThreshold, PrimaryThresholdMode, env), env);
      MergeKeepsRoomsAlike(primary.rooms, r.room, name, burst, env);
      AlikeIsTransitive(m.rooms, primary.rooms, MergeBurst(primary.rooms, r.room, name, burst, env).rooms);
    }
  }

  lemma {:induction false} MoveAllKeepsRoomsAlike(rooms: seq<Room>, reactions: seq<Reaction>, env: Env)
    ensures AllAlike(rooms, MoveAll(rooms, reactions, env).rooms)
  {
    hide MoveOne;
    if reactions == [] {
      CanonicalRoomsAreAlike(rooms, env);
    } else {
      var init, last := reactions[..|reactions| - 1], reactions[|reactions| - 1];
      MoveAllKeepsRoomsAlike(rooms, init, env);
      MoveOneKeepsRoomsAlike(MoveAll(rooms, init, env), last, env);
      AlikeIsTransitive(rooms, MoveAll(rooms, init, env).rooms, MoveAll(rooms, reactions, env).rooms);
    }
  }

  /** Afterwards no cooling reaction in a known room holds legacy settings. */
  lemma {:induction false} MoveAllSettles(rooms: seq<Room>, reactions: seq<Reaction>, env: Env)
    ensures BurstsAreSettled(rooms, MoveAll(rooms, reactions, env).reactions)
  {
    hide MergeBurst, BurstIn, CanonicalName, HasRoom;
    if reactions != [] {
      var init, last := reactions[..|reactions| - 1], reactions[|reactions| - 1];
      MoveAllSettles(rooms, init, env);
      MoveAllKeepsRoomsAlike(rooms, init, env);
      var earlier := MoveAll(rooms, init, env);
      if last.Reaction? {
        AlikeRoomsAreTheSameToOthers(rooms, earlier.rooms, last.room, env);
      }
      var now := MoveAll(rooms, reactions, env).reactions;
      assert now == earlier.reactions + [now[|now| - 1]];
    }
  }

  /** Nothing is changed exactly when there was nothing left to move. */
  lemma {:induction false} NothingMoves(rooms: seq<Room>, reactions: seq<Reaction>, env: Env)
    requires BurstsAreSettled(rooms, reactions)
    ensures !MoveAll(rooms, reactions, env).changed
  {
    hide MergeBurst, Cleaned, CanonicalName, HasRoom;
    if reactions != [] {
      var init, last := reactions[..|reactions| - 1], reactions[|reactions| - 1];
      NothingMoves(rooms, init, env);
      MoveAllKeepsRoomsAlike(rooms, init, env);
      var earlier := MoveAll(rooms, init, env);
      if IsCooling(last) && HasRoom(earlier.rooms, last.room) {
        AlikeRoomsAreTheSameToOthers(rooms, earlier.rooms, last.room, env);
        assert last in reactions && !HasLegacySettings(last);
        NoSettingsNoBurst(earlier.rooms, last, env);
      }
    }
  }

  lemma NoSettingsNoBurst(rooms: seq<Room>, r: Reaction, env: Env)
    requires r.Reaction? && r.settings == map[]
    ensures BurstIn(r, PrimaryRise, PrimaryThreshold, PrimaryThresholdMode, env) == None
    ensures BurstIn(r, CorroborationRise, CorroborationThreshold, CorroborationThresholdMode, env) == None
    ensures forall name :: MergeBurst(rooms, r.room, name, None, env) == Merge(rooms, false)
  {}

  /** The stage reports a change exactly when some cooling reaction in a known room holds settings. */
  lemma {:induction false} UnchangedMeansSettled(rooms: seq<Room>, reactions: seq<Reaction>, env: Env)
    requires !MoveAll(rooms, reactions, env).changed
    ensures BurstsAreSettled(rooms, reactions)
  {
    hide MergeBurst, BurstIn, Cleaned, CanonicalName, HasRoom;
    if reactions != [] {
      var init, last := reactions[..|reactions| - 1], reactions[|reactions| - 1];
      UnchangedMeansSettled(rooms, init, env);
      MoveAllKeepsRoomsAlike(rooms, init, env);
      if last.Reaction? {
        AlikeRoomsAreTheSameToOthers(rooms, MoveAll(rooms, init, env).rooms, last.room, env);
      }
      assert reactions == init + [last];
    }
  }

  lemma BurstStageSettles(o: Options, env: Env)
    ensures var o' := MigrateBurst(o, env).options;
            && BurstsAreSettled(o'.rooms, o'.reactions) && AllAlike(o.rooms, o'.rooms)
            && o'.learning == o.learning && o'.context == o.context
  {
    hide MoveAll, HasRoom;
    var moved := MoveAll(o.rooms, o.reactions, env);
    if moved.changed {
      MoveAllKeepsRoomsAlike(o.rooms, o.reactions, env);
      MoveAllSettles(o.rooms, o.reactions, env);
      forall r | r in moved.reactions && IsCooling(r) && HasRoom(moved.rooms, r.room) ensures !HasLegacySettings(r) {
        AlikeRoomsAreTheSameToOthers(o.rooms, moved.rooms, r.room, env);
      }
    } else {
      UnchangedMeansSettled(o.rooms, o.reactions, env);
    }
  }

  // ----- the payload stage

  ghost predicate PayloadsAreSettled(o: Options, env: Env) {
    !AnyNeedsNormalizing(o.reactions, env)
  }

  /** What the stage leaves comes from a reaction that was kept, normalised. */
  lemma {:induction false} NormalizedAre(reactions: seq<Reaction>, env: Env)
    ensures forall n :: n in NormalizedAll(reactions, env) <==>
      exists r :: r in reactions && IsResult(r, n, env)
  {
    hide IsPruned, Normalized;
    if reactions != [] {
      var init, last := reactions[..|reactions| - 1], reactions[|reactions| - 1];
      NormalizedAre(init, env);
      var added := if last.NotAReaction? then [last] else if Survives(last, env) then [Normalized(last, env.texts)] else [];
      assert forall n :: n in added <==> IsResult(last, n, env);
      assert forall n :: n in NormalizedAll(reactions, env) <==> n in NormalizedAll(init, env) || n in added;
      assert forall r :: r in reactions <==> r in init || r == last;
    }
  }

  predicate IsResult(r: Reaction, n: Reaction, env: Env) {
    if r.NotAReaction? then n == r else Survives(r, env) && n == Normalized(r, env.texts)
  }

  lemma NormalizedSettles(reactions: seq<Reaction>, env: Env)
    requires env.texts.AreStable()
    ensures !AnyNeedsNormalizing(NormalizedAll(reactions, env), env)
  {
    hide IsPruned, Normalized, IsChanged, NormalizedAll;
    NormalizedAre(reactions, env);
    forall n | n in NormalizedAll(reactions, env) ensures !NeedsNormalizing(n, env) {
      var r :| r in reactions && IsResult(r, n, env);
      if r.Reaction? {
        NormalizedIsNormal(r, env.texts);
      }
    }
  }

  lemma PayloadsSettle(o: Options, env: Env)
    requires env.texts.AreStable()
    ensures PayloadsAreSettled(NormalizeReactions(o, env).options, env)
  {
    hide NeedsNormalizing, NormalizedAll;
    NormalizedSettles(o.reactions, env);
  }

  /** Normalising makes no reaction a cooling one, and leaves those alone that are. */
  lemma NormalizedCooling(r: Reaction, env: Env)
    requires r.Reaction? && IsCooling(Normalized(r, env.texts))
    ensures IsCooling(r) && Normalized(r, env.texts).room == r.room
    ensures HasLegacySettings(Normalized(r, env.texts)) ==> HasLegacySettings(r)
  {
    hide IsRedacted, Keep;
    KindsDiffer();
  }

  lemma TypesOfClasses()
    ensures forall c :: |TypeOfClass(c)| in {0, 16, 23, 34, 18, 11, 29, 25, 17, 28}
  {
    assert |"presence_preheat"| == 16 && |"lighting_scene_schedule"| == 23 && |"context_conditioned_lighting_scene"| == 34;
    assert |"heating_preference"| == 18 && |"heating_eco"| == 11 && |"room_signal_assist"| == 18;
    assert |"room_darkness_lighting_assist"| == 29 && |"room_vacancy_lighting_off"| == 25;
    assert |"scheduled_routine"| == 17 && |"vacation_presence_simulation"| == 28;
  }

  lemma KindsDiffer()
    ensures forall c :: TypeOfClass(c) != "room_cooling_assist"
    ensures "room_cooling_assist" != "scheduled_routine" && "room_cooling_assist" != "alarm_state_action"
    ensures "room_darkness_lighting_assist" != "scheduled_routine" && "room_darkness_lighting_assist" != "alarm_state_action"
  {
    hide TypeOfClass;
    TypesOfClasses();
    assert |"room_cooling_assist"| == 19 && |"scheduled_routine"| == 17 && |"alarm_state_action"| == 18;
    assert |"room_darkness_lighting_assist"| == 29;
  }

  lemma NormalizingKeepsBursts(o: Options, env: Env)
    requires BurstsAreSettled(o.rooms, o.reactions)
    ensures BurstsAreSettled(o.rooms, NormalizeReactions(o, env).options.reactions)
  {
    hide IsPruned, Normalized, IsChanged, NormalizedAll, HasLegacySettings;
    NormalizedAre(o.reactions, env);
    var reactions := NormalizeReactions(o, env).options.reactions;
    forall n | n in reactions && IsCooling(n) && HasRoom(o.rooms, n.room) ensures !HasLegacySettings(n) {
      if n !in o.reactions {
        var r :| r in o.reactions && IsResult(r, n, env);
        NormalizedCooling(r, env);
      }
    }
  }

  // ----- the chain

  /** Everything is settled but, perhaps, darkness reactions. */
  ghost predicate IsAlmostSettled(o: Options, env: Env) {
    && LearningIsSettled(o) && SignalsAreSettled(o, env) && BurstsAreSettled(o.rooms, o.reactions)
    && PayloadsAreSettled(o, env)
  }

  lemma OnePassAlmostSettles(o: Options, env: Env)
    requires env.texts.AreStable()
    ensures IsAlmostSettled(Chain(o, env).options, env)
  {
    hide MigrateBurst, BurstsAreSettled, AnyNeedsSignals, HasLegacyLearning, PayloadsAreSettled, AnyNeedsNormalizing, NormalizedAll;
    var learned := MigrateLearning(o).options;
    var populated := Autopopulate(learned, env).options;
    var bucketed := MigrateDarkness(populated, env).options;
    var moved := MigrateBurst(bucketed, env).options;
    assert LearningIsSettled(learned) by { LearningSettles(o); }
    AutopopulateSettles(learned, env);
    BurstStageSettles(bucketed, env);
    AlikeRoomsAreTheSameToOthers(bucketed.rooms, moved.rooms, "", env);
    PayloadsSettle(moved, env);
    NormalizingKeepsBursts(moved, env);
  }

  lemma LearningSettles(o: Options)
    ensures LearningIsSettled(MigrateLearning(o).options)
  {}

  /** On almost settled options only darkness reactions are left to do, and only those that got
      their buckets can still be removed. */
  lemma AlmostSettledPass(o: Options, env: Env)
    requires IsAlmostSettled(o, env) && env.texts.AreStable()
    ensures var bucketed := MigrateDarkness(o, env);
            && Chain(o, env).options == NormalizeReactions(bucketed.options, env).options
            && (Chain(o, env).changed <==> bucketed.changed)
    ensures IsAlmostSettled(Chain(o, env).options, env)
  {
    hide MoveAll, BurstsAreSettled, PayloadsAreSettled, NormalizedAll, AnyNeedsNormalizing, AnyNeedsBucket;
    var bucketed := MigrateDarkness(o, env).options;
    DarknessKeepsBursts(o, env);
    NothingMoves(bucketed.rooms, bucketed.reactions, env);
    NormalizingKeepsBursts(bucketed, env);
    PayloadsSettle(bucketed, env);
    assert !MigrateDarkness(o, env).changed ==> !NormalizeReactions(bucketed, env).changed by { SettledPayloads(o, env); }
  }

  lemma SettledPayloads(o: Options, env: Env)
    requires PayloadsAreSettled(o, env)
    ensures !NormalizeReactions(o, env).changed
  {}

  /** Whatever remains of reactions that have no use for a bucket has none either. */
  lemma NormalizedNeedsNoBucket(o: Options, env: Env)
    requires env.texts.AreStable() && !AnyNeedsBucket(o.rooms, o.reactions, env)
    requires forall r :: r in o.reactions && r.Reaction? ==> ResolvedKind(r) == r.kind
    ensures !AnyNeedsBucket(o.rooms, NormalizeReactions(o, env).options.reactions, env)
  {
    hide IsPruned, Normalized, IsChanged, NormalizedAll, NeedsBucket;
    NormalizedAre(o.reactions, env);
    var reactions := NormalizeReactions(o, env).options.reactions;
    forall n | n in reactions ensures !NeedsBucket(o.rooms, n, env) {
      if n !in o.reactions {
        var r :| r in o.reactions && IsResult(r, n, env);
        if r.Reaction? {
          NormalizedDarkness(o.rooms, r, env);
        }
      }
    }
  }

  /** Normalising changes nothing that the search for a bucket looks at, but the type. */
  lemma NormalizedDarkness(rooms: seq<Room>, r: Reaction, env: Env)
    requires r.Reaction?
    ensures NeedsBucket(rooms, Normalized(r, env.texts), env) <==>
      ResolvedKind(r) == "room_darkness_lighting_assist" && r.primaryBucket == "" && BucketOf(rooms, r, env).Some?
    ensures ResolvedKind(r) == r.kind ==> (NeedsBucket(rooms, Normalized(r, env.texts), env) <==> NeedsBucket(rooms, r, env))
  {
    hide IsRedacted, Keep, BucketForThreshold, BucketsFor;
    KindsDiffer();
  }

  lemma SettledKinds(o: Options, env: Env)
    requires PayloadsAreSettled(o, env)
    ensures forall r :: r in MigrateDarkness(o, env).options.reactions && r.Reaction? ==> ResolvedKind(r) == r.kind
  {
    hide BucketOf, Specialised, Filtered, IsPruned;
    forall r | r in o.reactions && r.Reaction? ensures ResolvedKind(r) == r.kind && r.legacyClass.None? {
      assert !NeedsNormalizing(r, env);
      assert Typed(r) == r;
    }
    var reactions := AllWithBuckets(o.rooms, o.reactions, env);
    forall r | r in reactions && r.Reaction? ensures ResolvedKind(r) == r.kind {
      var i :| 0 <= i < |reactions| && reactions[i] == r;
      assert o.reactions[i] in o.reactions;
    }
  }

  /** Whatever the stored options, a third pass finds nothing to change. */
  lemma TwoPassesSettle(o: Options, env: Env)
    requires env.texts.AreStable()
    ensures var twice := Chain(Chain(o, env).options, env).options; Chain(twice, env) == Stage(twice, false)
  {
    hide Chain, IsAlmostSettled, MigrateDarkness, NormalizeReactions, AnyNeedsBucket;
    var once := Chain(o, env).options;
    OnePassAlmostSettles(o, env);
    AlmostSettledPass(once, env);
    var bucketed, twice := MigrateDarkness(once, env).options, Chain(once, env).options;
    DarknessSettles(once, env);
    assert !AnyNeedsBucket(bucketed.rooms, bucketed.reactions, env) by { UnchangedNeedsNone(bucketed, env); }
    assert forall r :: r in bucketed.reactions && r.Reaction? ==> ResolvedKind(r) == r.kind by { AlmostSettledKinds(once, env); }
    NormalizedNeedsNoBucket(bucketed, env);
    RoomsStay(bucketed, env);
    AlmostSettledPass(twice, env);
    UnchangedNeedsNone(twice, env);
    UnchangedPassesChangeNothing(twice, env);
  }

  lemma AlmostSettledKinds(o: Options, env: Env)
    requires IsAlmostSettled(o, env)
    ensures forall r :: r in MigrateDarkness(o, env).options.reactions && r.Reaction? ==> ResolvedKind(r) == r.kind
  {
    SettledKinds(o, env);
  }

  lemma RoomsStay(o: Options, env: Env)
    ensures NormalizeReactions(o, env).options.rooms == o.rooms
  {}

  lemma UnchangedNeedsNone(o: Options, env: Env)
    ensures MigrateDarkness(o, env).changed <==> AnyNeedsBucket(o.rooms, o.reactions, env)
  {}

  /** A pass that reports no change returns the options as they were. */
  lemma UnchangedPassesChangeNothing(o: Options, env: Env)
    requires !Chain(o, env).changed
    ensures Chain(o, env).options == o
  {}

  /** In terms of what the first pass leaves: the second one changes something exactly when there is
      a darkness reaction for which there is a bucket now. */
  lemma SecondPassChangesExactly(o: Options, env: Env)
    requires env.texts.AreStable()
    ensures var once := Chain(o, env).options;
            Chain(once, env).changed <==> AnyNeedsBucket(once.rooms, once.reactions, env)
  {
    hide Chain, IsAlmostSettled;
    OnePassAlmostSettles(o, env);
    AlmostSettledPass(Chain(o, env).options, env);
  }
}

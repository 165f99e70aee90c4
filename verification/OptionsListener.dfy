/** The migrations as they run, and the update listener that writes their result back and is then
    called again. */
module OptionsListener {
  import opened Wrappers
  import opened ReactionPayloads
  import opened OptionsMigration
  import opened OptionsSettling
  import opened OptionsSecondPass

  method FillSlots(context: map<Slot, string>, slots: seq<Slot>, value: string) returns (filled: map<Slot, string>)
    ensures filled == Filled(context, slots, value)
    ensures value == "" ==> filled == context
  {
    filled := context;
    for i := 0 to |slots|
      invariant filled == Filled(context, slots[..i], value)
      invariant value == "" ==> filled == context
    {
      assert slots[..i + 1][..i] == slots[..i];
      if value != "" && Value(filled, slots[i]) == "" {
        filled := filled[slots[i] := value];
      }
    }
    assert slots[..|slots|] == slots;
  }

  method MoveLearningKeys(o: Options) returns (stage: Stage)
    ensures stage == MigrateLearning(o)
  {
    hide Filled;
    if o.learning.NoLearning? {
      return Stage(o, false);
    }
    var entries, context, changed := o.learning.entries, o.context, false;
    ghost var popped: set<LearningKey> := {};
    for i := 0 to |LEGACY_LEARNING|
      invariant popped == set k | 0 <= k < i :: LEGACY_LEARNING[k].0
      invariant entries == o.learning.entries - popped
      invariant context == MovedContext(o.context, o.learning.entries, LEGACY_LEARNING[..i])
      invariant changed <==> exists key :: key in popped && key in o.learning.entries
      invariant !changed ==> context == o.context
    {
      assert LEGACY_LEARNING[..i + 1][..i] == LEGACY_LEARNING[..i];
      var key, slots := LEGACY_LEARNING[i].0, LEGACY_LEARNING[i].1;
      assert key !in popped;
      var value := Value(entries, key);
      context := FillSlots(context, slots, value);
      if key in entries {
        entries := entries - {key};
        changed := true;
      }
      popped := popped + {key};
    }
    assert LEGACY_LEARNING[..|LEGACY_LEARNING|] == LEGACY_LEARNING;
    assert popped == LEGACY_KEYS by {
      assert LEGACY_LEARNING[0].0 == OutdoorLuxEntity && LEGACY_LEARNING[1].0 == OutdoorTempEntity && LEGACY_LEARNING[2].0 == WeatherEntity;
    }
    stage := if changed then Stage(o.(learning := LearningDict(entries), context := context), true) else Stage(o, false);
  }

  method PopulateSignals(o: Options, env: Env) returns (stage: Stage)
    ensures stage == Autopopulate(o, env)
  {
    hide Synthesized;
    var rooms: seq<Room>, changed := [], false;
    for i := 0 to |o.rooms|
      invariant rooms == AllWithSignals(o.rooms[..i], env)
      invariant changed <==> AnyNeedsSignals(o.rooms[..i], env)
    {
      assert o.rooms[..i + 1] == o.rooms[..i] + [o.rooms[i]];
      var room := o.rooms[i];
      if room.Room? && room.signals == [] {
        var synthesized := Synthesized(room.learningSources, env);
        if synthesized != [] {
          room := room.(signals := synthesized);
          changed := true;
        }
      }
      rooms := rooms + [room];
    }
    assert o.rooms[..|o.rooms|] == o.rooms;
    stage := if changed then Stage(o.(rooms := rooms), true) else Stage(o, false);
  }

  method ReplaceDarknessThresholds(o: Options, env: Env) returns (stage: Stage)
    ensures stage == MigrateDarkness(o, env)
  {
    hide BucketOf;
    var reactions: seq<Reaction>, changed := [], false;
    for i := 0 to |o.reactions|
      invariant reactions == AllWithBuckets(o.rooms, o.reactions[..i], env)
      invariant changed <==> AnyNeedsBucket(o.rooms, o.reactions[..i], env)
    {
      assert o.reactions[..i + 1] == o.reactions[..i] + [o.reactions[i]];
      var r := o.reactions[i];
      if r.Reaction? && r.kind == "room_darkness_lighting_assist" && r.primaryBucket == "" {
        var bucket := BucketOf(o.rooms, r, env);
        if bucket.Some? {
          r := r.(primaryBucket := bucket.value, settings := r.settings - {PrimaryThreshold, PrimaryThresholdMode});
          changed := true;
        }
      }
      reactions := reactions + [r];
    }
    assert o.reactions[..|o.reactions|] == o.reactions;
    stage := if changed then Stage(o.(reactions := reactions), true) else Stage(o, false);
  }

  method MoveBurstSettings(o: Options, env: Env) returns (stage: Stage)
    ensures stage == MigrateBurst(o, env)
  {
    hide MergeBurst, BurstIn, Cleaned, CanonicalName;
    var rooms, reactions: seq<Reaction>, changed := CanonicalRooms(o.rooms, env), [], false;
    for i := 0 to |o.reactions|
      invariant Moved(rooms, reactions, changed) == MoveAll(o.rooms, o.reactions[..i], env)
    {
      assert o.reactions[..i + 1][..i] == o.reactions[..i];
      var r := o.reactions[i];
      if !IsCooling(r) || !HasRoom(rooms, r.room) {
        reactions := reactions + [r];
        continue;
      }
      var primary := MergeBurst(rooms, r.room, CanonicalName(r.primarySignal, env),
        BurstIn(r, PrimaryRise, PrimaryThreshold, PrimaryThresholdMode, env), env);
      rooms, changed := primary.rooms, changed || primary.changed;
      var second := MergeBurst(rooms, r.room, CanonicalName(r.corroborationSignal, env),
        BurstIn(r, CorroborationRise, CorroborationThreshold, CorroborationThresholdMode, env), env);
      rooms, changed := second.rooms, changed || second.changed || HasLegacySettings(r);
      reactions := reactions + [Cleaned(r, env)];
    }
    assert o.reactions[..|o.reactions|] == o.reactions;
    stage := if changed then Stage(o.(rooms := rooms, reactions := reactions), true) else Stage(o, false);
  }

  method NormalizePayloads(o: Options, env: Env) returns (stage: Stage)
    ensures stage == NormalizeReactions(o, env)
  {
    hide IsChanged, IsPruned, Normalized;
    var reactions: seq<Reaction>, changed := [], false;
    for i := 0 to |o.reactions|
      invariant reactions == NormalizedAll(o.reactions[..i], env)
      invariant changed <==> AnyNeedsNormalizing(o.reactions[..i], env)
    {
      assert o.reactions[..i + 1][..i] == o.reactions[..i];
      assert o.reactions[..i + 1] == o.reactions[..i] + [o.reactions[i]];
      var r := o.reactions[i];
      assert AnyNeedsNormalizing(o.reactions[..i + 1], env) <==> AnyNeedsNormalizing(o.reactions[..i], env) || NeedsNormalizing(r, env);
      if r.NotAReaction? {
        reactions := reactions + [r];
        continue;
      }
      changed := changed || IsChanged(r, env.texts);
      var normalized := Normalized(r, env.texts);
      if IsPruned(normalized) {
        changed := true;
        continue;
      }
      reactions := reactions + [normalized];
    }
    assert o.reactions[..|o.reactions|] == o.reactions;
    stage := if changed then Stage(o.(reactions := reactions), true) else Stage(o, false);
  }

  /** How one call of the listener ends. */
  datatype Outcome = WrittenBack | FullReload | LightReload

  /** The config entry with its options, and the snapshot the coordinator reloaded last.
      `isStructural` tells which differences need a full reload. */
  class Entry {
    const isStructural: (Options, Options) -> bool
    var options: Options
    var snapshot: Options

    constructor (options: Options, isStructural: (Options, Options) -> bool)
      ensures this.options == options && this.snapshot == options && this.isStructural == isStructural
    {
      this.options, this.snapshot, this.isStructural := options, options, isStructural;
    }

    /** One call of the listener. If a stage changed anything, the result is written back, which has
        the listener called again; otherwise the options are compared with the snapshot, taken over
        and reloaded. */
    method Updated(env: Env) returns (outcome: Outcome)
      modifies this
      ensures outcome.WrittenBack? <==> Chain(old(options), env).changed
      ensures options == Chain(old(options), env).options
      ensures snapshot == if outcome.WrittenBack? then old(snapshot) else old(options)
      ensures !outcome.WrittenBack? ==> (outcome.FullReload? <==> isStructural(old(snapshot), old(options)))
    {
      var normalized, changed := options, false;
      var stage := MoveLearningKeys(normalized);
      normalized, changed := stage.options, stage.changed;
      stage := PopulateSignals(normalized, env);
      normalized, changed := stage.options, changed || stage.changed;
      stage := ReplaceDarknessThresholds(normalized, env);
      normalized, changed := stage.options, changed || stage.changed;
      stage := MoveBurstSettings(normalized, env);
      normalized, changed := stage.options, changed || stage.changed;
      stage := NormalizePayloads(normalized, env);
      normalized, changed := stage.options, changed || stage.changed;
      if changed {
        options := normalized;
        return WrittenBack;
      }
      UnchangedPassesChangeNothing(options, env);
      var structural := isStructural(snapshot, options);
      snapshot := options;
      return if structural then FullReload else LightReload;
    }

    /** The calls that one update of the options leads to: at most two of them write back, the second
        one exactly when some darkness reaction gets its bucket late. Then the settled options are
        compared with what was reloaded before the update, and reloaded once. */
    method Settle(env: Env) returns (writes: nat, outcome: Outcome)
      requires env.texts.AreStable()
      modifies this
      ensures writes <= 2 && (writes == 2 <==> NeedsSecondPass(old(options), env))
      ensures snapshot == options && Chain(options, env) == Stage(options, false)
      ensures outcome == if isStructural(old(snapshot), options) then FullReload else LightReload
    {
      hide Chain, NeedsSecondPass;
      ghost var o := options;
      TwoPassesSettle(o, env);
      UnchangedIsFixed(o, env);
      SecondPassIsNeeded(o, env);
      writes := 0;
      outcome := Updated(env);
      if outcome.WrittenBack? {
        writes := 1;
        UnchangedIsFixed(options, env);
        outcome := Updated(env);
        if outcome.WrittenBack? {
          writes := 2;
          outcome := Updated(env);
        }
      }
    }
  }

  lemma UnchangedIsFixed(o: Options, env: Env)
    ensures !Chain(o, env).changed ==> Chain(o, env) == Stage(o, false)
  {
    if !Chain(o, env).changed {
      UnchangedPassesChangeNothing(o, env);
    }
  }
}

/** Stored reactions, and the stage that normalises them: legacy classes become types, redacted
    entries go, and a reaction that cannot work without what has gone is removed. Texts are taken
    as trimmed. */
module ReactionPayloads {
  import opened Wrappers

  // ----- stored reactions

  type Texts = map<string, string>

  function Value<K>(m: map<K, string>, k: K): string {
    if k in m then m[k] else ""
  }

  /** Settings of older versions that migrations move or remove, unless they are stored as lists. */
  datatype LegacyKey =
    | TriggerSignals | TemperatureSignals | HumidityRise | TemperatureRise | PrimaryRise | PrimaryThreshold
    | PrimaryThresholdMode | CorroborationRise | CorroborationThreshold | CorroborationThresholdMode | CorrelationWindow

  datatype ListField =
    | PrimaryEntities | TriggerEntities | TemperatureEntities | CorroborationEntities | FollowupEntities
    | AllowedEntities | TargetEntities | EntityDomains

  const ENTITY_LISTS: set<ListField> := {PrimaryEntities, TriggerEntities, TemperatureEntities, CorroborationEntities,
    FollowupEntities, AllowedEntities, TargetEntities}

  /** A step of a lighting reaction. */
  datatype EntityStep = NotAnEntityStep | EntityStep(entity: string, other: Texts)

  /** A step of a routine or policy; `entity` and `params` are its parameters. */
  datatype ActionStep = NotAnActionStep
    | ActionStep(domain: string, target: string, action: string, entity: string, params: Texts, recovery: string, other: Texts)

  /** `legacyClass` is present in reactions of older versions; `other` holds all remaining texts. */
  datatype Reaction = NotAReaction
    | Reaction(kind: string, legacyClass: Option<string>, room: string, primarySignal: string, corroborationSignal: string,
               primaryBucket: string, settings: map<LegacyKey, string>, lists: map<ListField, seq<string>>,
               entitySteps: Option<seq<EntityStep>>, steps: Option<seq<ActionStep>>, other: Texts)

  /** How the normalisers of routines and alarm policies read numbers, flags, states and words. */
  datatype TextNormalizers = TextNormalizers(routine: Texts -> Texts, alarm: Texts -> Texts)
  {
    /** What has been read once reads the same again, and a routine switches on or off. */
    ghost predicate AreStable() {
      && (forall t :: Value(routine(t), "entity_action") in {"turn_on", "turn_off"})
      && (forall t :: routine(routine(t)) == routine(t))
      && (forall t :: alarm(alarm(t)) == alarm(t))
    }
  }

  // ----- lists

  function Keep<T(==)>(s: seq<T>, p: T -> bool): seq<T> {
    if s == [] then []
    else
      var last := s[|s| - 1];
      Keep(s[..|s| - 1], p) + if p(last) then [last] else []
  }

  lemma {:induction false} KeptAre<T>(s: seq<T>, p: T -> bool)
    ensures forall x :: x in Keep(s, p) <==> x in s && p(x)
  {
    if s != [] {
      var init, last := s[..|s| - 1], s[|s| - 1];
      KeptAre(init, p);
      assert forall x :: x in s <==> x in init || x == last;
    }
  }

  lemma {:induction false} AllKept<T>(s: seq<T>, p: T -> bool)
    requires forall x :: x in s ==> p(x)
    ensures Keep(s, p) == s
  {
    if s != [] {
      var init, last := s[..|s| - 1], s[|s| - 1];
      assert last in s && forall x :: x in init ==> x in s;
      AllKept(init, p);
      assert s == init + [last];
    }
  }

  // ----- redaction

  const MARKER: string := "**REDACTED**"

  predicate StandsAt(s: string, i: int, part: string) {
    0 <= i <= |s| - |part| && s[i..i + |part|] == part
  }

  predicate IsRedacted(s: string) {
    exists i | 0 <= i <= |s| :: StandsAt(s, i, MARKER)
  }

  const IS_NAMED: string -> bool := s => s != "" && !IsRedacted(s)

  const IS_USABLE_STEP: EntityStep -> bool := (s: EntityStep) => s.EntityStep? && IS_NAMED(s.entity)

  const IS_USABLE_ACTION: ActionStep -> bool :=
    (s: ActionStep) => s.ActionStep? && !IsRedacted(s.target) && !IsRedacted(s.entity)

  function KeepIn<T(==)>(s: Option<seq<T>>, p: T -> bool): Option<seq<T>> {
    if s.Some? then Some(Keep(s.value, p)) else None
  }

  function Filtered(r: Reaction): Reaction
    requires r.Reaction?
  {
    r.(lists := map field <- r.lists :: if field in ENTITY_LISTS then Keep(r.lists[field], IS_NAMED) else r.lists[field],
       entitySteps := KeepIn(r.entitySteps, IS_USABLE_STEP),
       steps := KeepIn(r.steps, IS_USABLE_ACTION))
  }

  predicate AnyRedacted(texts: Texts) {
    exists key <- texts :: IsRedacted(texts[key])
  }

  predicate HasMarkerInStep(s: ActionStep) {
    s.ActionStep? &&
    (|| IsRedacted(s.domain) || IsRedacted(s.target) || IsRedacted(s.action) || IsRedacted(s.entity) || IsRedacted(s.recovery)
     || AnyRedacted(s.params) || AnyRedacted(s.other))
  }

  predicate HasMarker(r: Reaction)
    requires r.Reaction?
  {
    || IsRedacted(r.kind) || IsRedacted(r.room) || IsRedacted(r.primarySignal) || IsRedacted(r.corroborationSignal)
    || IsRedacted(r.primaryBucket) || (r.legacyClass.Some? && IsRedacted(r.legacyClass.value))
    || (exists key <- r.settings :: IsRedacted(r.settings[key]))
    || (exists field <- r.lists :: exists item <- r.lists[field] :: IsRedacted(item))
    || (r.entitySteps.Some? && exists s <- r.entitySteps.value :: s.EntityStep? && (IsRedacted(s.entity) || AnyRedacted(s.other)))
    || (r.steps.Some? && exists s <- r.steps.value :: HasMarkerInStep(s))
    || AnyRedacted(r.other)
  }

  // ----- types

  function TypeOfClass(legacyClass: string): string {
    if legacyClass == "PresencePatternReaction" then "presence_preheat"
    else if legacyClass == "LightingScheduleReaction" then "lighting_scene_schedule"
    else if legacyClass == "ContextConditionedLightingReaction" then "context_conditioned_lighting_scene"
    else if legacyClass == "HeatingPreferenceReaction" then "heating_preference"
    else if legacyClass == "HeatingEcoReaction" then "heating_eco"
    else if legacyClass == "RoomSignalAssistReaction" then "room_signal_assist"
    else if legacyClass == "RoomLightingAssistReaction" then "room_darkness_lighting_assist"
    else if legacyClass == "RoomLightingVacancyOffReaction" then "room_vacancy_lighting_off"
    else if legacyClass == "ScheduledRoutineReaction" then "scheduled_routine"
    else if legacyClass == "VacationPresenceSimulationReaction" then "vacation_presence_simulation"
    else ""
  }

  function ResolvedKind(r: Reaction): string
    requires r.Reaction?
  {
    if r.kind != "" then r.kind else if r.legacyClass.Some? then TypeOfClass(r.legacyClass.value) else ""
  }

  function Typed(r: Reaction): Reaction
    requires r.Reaction?
  {
    r.(kind := ResolvedKind(r), legacyClass := None)
  }

  // ----- routines and alarm policies

  datatype Flavour = Routine | Alarm

  /** What stands before the first dot of an entity id. */
  function DomainOf(entity: string): string {
    if entity == "" || entity[0] == '.' then "" else [entity[0]] + DomainOf(entity[1..])
  }

  const SWITCHABLE: set<string> := {"light", "switch", "input_boolean"}

  /** The domains a routine may act on, in alphabetical order. */
  const DOMAINS: seq<string> := ["input_boolean", "light", "scene", "script", "switch"]

  predicate IsSupported(flavour: Flavour, domain: string, action: string) {
    if domain in SWITCHABLE then action == domain + ".turn_on" || action == domain + ".turn_off"
    else if domain == "scene" || domain == "script" then action == domain + ".turn_on"
    else flavour.Alarm? && domain == "climate" && action in {"climate.set_hvac_mode", "climate.set_preset_mode"}
  }

  /** Alarm policies say how a step recovers; routines do not keep that. */
  function Recovery(flavour: Flavour, recovery: string): string {
    if flavour.Routine? then ""
    else if recovery in {"block", "allow_when_inputs_stable", "allow_admin_command"} then recovery
    else "block"
  }

  function NormalStep(s: ActionStep, flavour: Flavour): Option<ActionStep> {
    if s.NotAnActionStep? then None
    else
      var target := if s.target != "" then s.target else s.entity;
      var domain := if s.domain != "" then s.domain else DomainOf(target);
      if '.' !in target || domain != DomainOf(target) || !IsSupported(flavour, domain, s.action) then None
      else Some(ActionStep(domain, target, s.action, target, s.params, Recovery(flavour, s.recovery), map[]))
  }

  function NormalSteps(steps: seq<ActionStep>, flavour: Flavour): seq<ActionStep> {
    if steps == [] then []
    else
      var last := NormalStep(steps[|steps| - 1], flavour);
      NormalSteps(steps[..|steps| - 1], flavour) + if last.Some? then [last.value] else []
  }

  const IS_TARGET: string -> bool := s => '.' in s && DomainOf(s) in DOMAINS

  const IS_DOMAIN: string -> bool := s => s in DOMAINS

  function ListOf(r: Reaction, field: ListField): seq<string>
    requires r.Reaction?
  {
    if field in r.lists then r.lists[field] else []
  }

  function StepsOf(r: Reaction): seq<ActionStep>
    requires r.Reaction?
  {
    if r.steps.Some? then r.steps.value else []
  }

  predicate ActsOn(routineKind: string, domain: string) {
    || (routineKind == "scene" && domain == "scene")
    || (routineKind == "script" && domain == "script")
    || (routineKind == "entity_action" && domain in SWITCHABLE)
  }

  function StepsFromTargets(targets: seq<string>, routineKind: string, entityAction: string): seq<ActionStep> {
    if targets == [] then []
    else
      var target := targets[|targets| - 1];
      var domain := DomainOf(target);
      StepsFromTargets(targets[..|targets| - 1], routineKind, entityAction)
      + if !ActsOn(routineKind, domain) then []
        else
          var verb := if routineKind == "entity_action" then entityAction else "turn_on";
          [ActionStep(domain, target, domain + "." + verb, target, map[], "", map[])]
  }

  function DomainsOf(targets: seq<string>): set<string> {
    set target <- targets :: DomainOf(target)
  }

  /** The domains a routine keeps, or else those of its targets. */
  function RoutineDomains(given: seq<string>, targets: seq<string>): seq<string> {
    var stored := Keep(given, IS_DOMAIN);
    if stored == [] && targets != [] then Keep(DOMAINS, domain => domain in DomainsOf(targets)) else stored
  }

  /** A routine keeps its own fields only; missing steps and domains are taken from the targets. */
  function NormalRoutine(r: Reaction, texts: TextNormalizers): (n: Reaction)
    requires r.Reaction?
    ensures n.Reaction? && n.kind == "scheduled_routine" && n.legacyClass.None?
  {
    var other := texts.routine(r.other);
    var targets, given := Keep(ListOf(r, TargetEntities), IS_TARGET), NormalSteps(StepsOf(r), Routine);
    var steps := if given == [] && Value(other, "routine_kind") != "" && targets != [] then
                   StepsFromTargets(targets, Value(other, "routine_kind"), Value(other, "entity_action"))
                 else given;
    Reaction("scheduled_routine", None, "", "", "", "", map[],
      map[TargetEntities := targets, EntityDomains := RoutineDomains(ListOf(r, EntityDomains), targets)],
      None, Some(steps), other)
  }

  function NormalAlarm(r: Reaction, texts: TextNormalizers): (n: Reaction)
    requires r.Reaction?
    ensures n.Reaction? && n.kind == "alarm_state_action" && n.legacyClass.None?
  {
    Reaction("alarm_state_action", None, "", "", "", "", map[], map[], None, Some(NormalSteps(StepsOf(r), Alarm)),
      texts.alarm(r.other))
  }

  function Specialised(r: Reaction, texts: TextNormalizers): Reaction
    requires r.Reaction?
  {
    if r.kind == "scheduled_routine" then NormalRoutine(r, texts)
    else if r.kind == "alarm_state_action" then NormalAlarm(r, texts)
    else r
  }

  // ----- one reaction

  function Normalized(r: Reaction, texts: TextNormalizers): (n: Reaction)
    requires r.Reaction?
    ensures n.Reaction?
  {
    Filtered(Specialised(Typed(r), texts))
  }

  /** One of the three steps changes the reaction. */
  predicate IsChanged(r: Reaction, texts: TextNormalizers)
    requires r.Reaction?
  {
    || Typed(r) != r
    || Specialised(Typed(r), texts) != Typed(r)
    || Filtered(Specialised(Typed(r), texts)) != Specialised(Typed(r), texts)
  }

  predicate IsPruned(r: Reaction)
    requires r.Reaction?
  {
    || HasMarker(r)
    || r.kind == "lighting_scene_schedule"
    || (r.kind == "scheduled_routine" && StepsOf(r) == [])
    || (r.kind in {"room_darkness_lighting_assist", "room_vacancy_lighting_off"} && (r.entitySteps.None? || r.entitySteps.value == []))
    || (r.kind == "room_darkness_lighting_assist" && ListOf(r, PrimaryEntities) == [])
    || (r.kind == "room_signal_assist" && ListOf(r, PrimaryEntities) == [] && ListOf(r, TriggerEntities) == [])
  }

  // ----- what has been normalised stays as it is

  lemma FilteredTwice(r: Reaction)
    requires r.Reaction?
    ensures Filtered(Filtered(r)) == Filtered(r)
  {
    hide IsRedacted;
    var f := Filtered(r);
    forall field | field in r.lists && field in ENTITY_LISTS ensures Keep(f.lists[field], IS_NAMED) == f.lists[field] {
      KeptAre(r.lists[field], IS_NAMED);
      AllKept(f.lists[field], IS_NAMED);
    }
    if r.entitySteps.Some? {
      KeptAre(r.entitySteps.value, IS_USABLE_STEP);
      AllKept(f.entitySteps.value, IS_USABLE_STEP);
    }
    if r.steps.Some? {
      KeptAre(r.steps.value, IS_USABLE_ACTION);
      AllKept(f.steps.value, IS_USABLE_ACTION);
    }
  }

  predicate AreNormal(steps: seq<ActionStep>, flavour: Flavour) {
    forall s <- steps :: NormalStep(s, flavour) == Some(s)
  }

  lemma NormalStepTwice(s: ActionStep, flavour: Flavour)
    requires NormalStep(s, flavour).Some?
    ensures NormalStep(NormalStep(s, flavour).value, flavour) == NormalStep(s, flavour)
  {
    hide IsSupported, DomainOf;
  }

  lemma {:induction false} NormalStepsAreNormal(steps: seq<ActionStep>, flavour: Flavour)
    ensures AreNormal(NormalSteps(steps, flavour), flavour)
  {
    hide NormalStep;
    if steps != [] {
      var init, last := steps[..|steps| - 1], NormalStep(steps[|steps| - 1], flavour);
      NormalStepsAreNormal(init, flavour);
      if last.Some? {
        NormalStepTwice(steps[|steps| - 1], flavour);
      }
      assert forall s :: s in NormalSteps(steps, flavour) ==> s in NormalSteps(init, flavour) || (last.Some? && s == last.value);
    }
  }

  lemma {:induction false} NormalStepsStay(steps: seq<ActionStep>, flavour: Flavour)
    requires AreNormal(steps, flavour)
    ensures NormalSteps(steps, flavour) == steps
  {
    hide NormalStep;
    if steps != [] {
      NormalStepsStay(steps[..|steps| - 1], flavour);
      assert steps[|steps| - 1] in steps;
    }
  }

  lemma {:induction false} StepsFromTargetsAreNormal(targets: seq<string>, routineKind: string, entityAction: string)
    requires forall t :: t in targets ==> IS_TARGET(t)
    requires entityAction in {"turn_on", "turn_off"}
    ensures AreNormal(StepsFromTargets(targets, routineKind, entityAction), Routine)
  {
    hide DomainOf;
    if targets != [] {
      var init, target := targets[..|targets| - 1], targets[|targets| - 1];
      StepsFromTargetsAreNormal(init, routineKind, entityAction);
      assert target in targets && IS_TARGET(target);
      var domain := DomainOf(target);
      if ActsOn(routineKind, domain) {
        var verb := if routineKind == "entity_action" then entityAction else "turn_on";
        TargetStepIsNormal(target, domain + "." + verb);
      }
    }
  }

  lemma TargetStepIsNormal(target: string, action: string)
    requires IS_TARGET(target) && IsSupported(Routine, DomainOf(target), action)
    ensures var s := ActionStep(DomainOf(target), target, action, target, map[], "", map[]); NormalStep(s, Routine) == Some(s)
  {
    hide DomainOf, IsSupported;
  }

  lemma FilteredStepsAreNormal(steps: seq<ActionStep>, flavour: Flavour)
    requires AreNormal(steps, flavour)
    ensures AreNormal(Keep(steps, IS_USABLE_ACTION), flavour)
    ensures NormalSteps(Keep(steps, IS_USABLE_ACTION), flavour) == Keep(steps, IS_USABLE_ACTION)
  {
    hide NormalStep, IsRedacted;
    KeptAre(steps, IS_USABLE_ACTION);
    NormalStepsStay(Keep(steps, IS_USABLE_ACTION), flavour);
  }

  lemma RoutineStepsAreNormal(r: Reaction, texts: TextNormalizers)
    requires r.Reaction? && texts.AreStable()
    ensures AreNormal(StepsOf(NormalRoutine(r, texts)), Routine)
  {
    hide NormalStep, DomainOf, AreNormal;
    var other := texts.routine(r.other);
    var targets := Keep(ListOf(r, TargetEntities), IS_TARGET);
    NormalStepsAreNormal(StepsOf(r), Routine);
    KeptAre(ListOf(r, TargetEntities), IS_TARGET);
    StepsFromTargetsAreNormal(targets, Value(other, "routine_kind"), Value(other, "entity_action"));
  }

  lemma NamedTargetsStay(entities: seq<string>)
    ensures var targets := Keep(Keep(entities, IS_TARGET), IS_NAMED); Keep(targets, IS_TARGET) == targets
  {
    hide DomainOf, IsRedacted;
    KeptAre(entities, IS_TARGET);
    KeptAre(Keep(entities, IS_TARGET), IS_NAMED);
    AllKept(Keep(Keep(entities, IS_TARGET), IS_NAMED), IS_TARGET);
  }

  lemma RoutineDomainsStay(given: seq<string>, targets: seq<string>)
    requires forall t :: t in targets ==> IS_TARGET(t)
    ensures var domains := RoutineDomains(given, targets);
            Keep(domains, IS_DOMAIN) == domains && (domains == [] ==> targets == [])
  {
    hide DomainOf;
    var domains, own := RoutineDomains(given, targets), domain => domain in DomainsOf(targets);
    KeptAre(given, IS_DOMAIN);
    KeptAre(DOMAINS, own);
    AllKept(domains, IS_DOMAIN);
    if targets != [] {
      assert targets[0] in targets && IS_TARGET(targets[0]);
      assert DomainOf(targets[0]) in DomainsOf(targets) && own(DomainOf(targets[0]));
    }
  }

  lemma RoutineListsStay(r: Reaction, texts: TextNormalizers)
    requires r.Reaction?
    ensures var n := NormalRoutine(r, texts);
            var targets := Keep(ListOf(n, TargetEntities), IS_NAMED);
            && Keep(targets, IS_TARGET) == targets
            && RoutineDomains(ListOf(n, EntityDomains), targets) == ListOf(n, EntityDomains)
  {
    hide DomainOf, IsRedacted, NormalSteps, StepsFromTargets, Keep, RoutineDomains, DomainsOf;
    var entities := ListOf(r, TargetEntities);
    var targets := Keep(entities, IS_TARGET);
    KeptAre(entities, IS_TARGET);
    NamedTargetsStay(entities);
    RoutineDomainsStay(ListOf(r, EntityDomains), targets);
    DomainsAreStored(ListOf(NormalRoutine(r, texts), EntityDomains), targets);
  }

  lemma DomainsAreStored(domains: seq<string>, all: seq<string>)
    requires Keep(domains, IS_DOMAIN) == domains && (domains == [] ==> all == [])
    ensures RoutineDomains(domains, Keep(all, IS_NAMED)) == domains
  {}

  lemma RoutineStays(r: Reaction, texts: TextNormalizers)
    requires r.Reaction? && texts.AreStable()
    requires StepsOf(Filtered(NormalRoutine(r, texts))) != []
    ensures var f := Filtered(NormalRoutine(r, texts)); NormalRoutine(f, texts) == f
  {
    hide DomainOf, IsRedacted, NormalSteps, StepsFromTargets, Keep, AreNormal, RoutineDomains;
    var n := NormalRoutine(r, texts);
    var f := Filtered(n);
    RoutineListsStay(r, texts);
    RoutineStepsAreNormal(r, texts);
    FilteredStepsAreNormal(StepsOf(n), Routine);
    assert f.lists.Keys == {TargetEntities, EntityDomains};
    assert ListOf(f, TargetEntities) == Keep(ListOf(n, TargetEntities), IS_NAMED);
    assert ListOf(f, EntityDomains) == ListOf(n, EntityDomains);
    assert StepsOf(f) == Keep(StepsOf(n), IS_USABLE_ACTION);
    assert f.other == texts.routine(r.other);
    assert NormalRoutine(f, texts).lists == f.lists;
  }

  lemma AlarmStays(r: Reaction, texts: TextNormalizers)
    requires r.Reaction? && texts.AreStable()
    ensures var f := Filtered(NormalAlarm(r, texts)); NormalAlarm(f, texts) == f
  {
    hide IsRedacted, NormalSteps, Keep, AreNormal;
    var n := NormalAlarm(r, texts);
    NormalStepsAreNormal(StepsOf(r), Alarm);
    FilteredStepsAreNormal(StepsOf(n), Alarm);
  }

  /** A reaction that has been normalised and not removed is never changed again. */
  lemma NormalizedIsNormal(r: Reaction, texts: TextNormalizers)
    requires r.Reaction? && texts.AreStable() && !IsPruned(Normalized(r, texts))
    ensures !IsChanged(Normalized(r, texts), texts)
    ensures Normalized(Normalized(r, texts), texts) == Normalized(r, texts)
  {
    hide Keep, KeepIn, IsRedacted, HasMarker, NormalRoutine, NormalAlarm;
    var typed, n := Typed(r), Normalized(r, texts);
    FilteredTwice(Specialised(typed, texts));
    if typed.kind == "scheduled_routine" {
      RoutineStays(typed, texts);
      assert Specialised(Typed(n), texts) == n;
    } else if typed.kind == "alarm_state_action" {
      AlarmStays(typed, texts);
    }
  }
}

/** What the payload stage keeps and removes, said on the texts a reaction holds, and the steps a
    routine gets from its targets. */
module PayloadEffects {
  import opened Wrappers
  import opened ReactionPayloads
  import opened OptionsMigration
  import opened OptionsSettling

  // ----- the marker

  /** The marker stands somewhere in the text. */
  ghost predicate Contains(text: string) {
    exists before: string, after: string :: text == before + "**REDACTED**" + after
  }

  lemma RedactedMeansContains(text: string)
    ensures IsRedacted(text) <==> Contains(text)
  {
    if IsRedacted(text) {
      var i :| 0 <= i <= |text| && StandsAt(text, i, MARKER);
      assert text == text[..i] + MARKER + text[i + |MARKER|..];
    }
    if Contains(text) {
      var before: string, after: string :| text == before + "**REDACTED**" + after;
      assert text[|before|..|before| + |MARKER|] == MARKER;
      assert StandsAt(text, |before|, MARKER);
    }
  }

  function TextsOfStep(s: ActionStep): set<string> {
    if s.NotAnActionStep? then {} else {s.domain, s.target, s.action, s.entity, s.recovery} + s.params.Values + s.other.Values
  }

  function TextsOfEntityStep(s: EntityStep): set<string> {
    if s.NotAnEntityStep? then {} else {s.entity} + s.other.Values
  }

  /** Every text that a reaction holds, wherever it stands. */
  function AllTexts(r: Reaction): set<string>
    requires r.Reaction?
  {
    {r.kind, r.room, r.primarySignal, r.corroborationSignal, r.primaryBucket}
    + (if r.legacyClass.Some? then {r.legacyClass.value} else {})
    + r.settings.Values + r.other.Values
    + (set field, text | field in r.lists && text in r.lists[field] :: text)
    + (if r.entitySteps.Some? then set s, text | s in r.entitySteps.value && text in TextsOfEntityStep(s) :: text else {})
    + (if r.steps.Some? then set s, text | s in r.steps.value && text in TextsOfStep(s) :: text else {})
  }

  lemma MarkedTextsOf(texts: Texts)
    ensures AnyRedacted(texts) <==> exists t :: t in texts.Values && IsRedacted(t)
  {
    hide IsRedacted;
    if AnyRedacted(texts) {
      var key :| key in texts && IsRedacted(texts[key]);
      assert texts[key] in texts.Values;
    }
  }

  lemma MarkedStep(s: ActionStep)
    ensures HasMarkerInStep(s) <==> exists t :: t in TextsOfStep(s) && IsRedacted(t)
  {
    hide IsRedacted, AnyRedacted;
    if s.ActionStep? {
      MarkedTextsOf(s.params);
      MarkedTextsOf(s.other);
      if t :| t in TextsOfStep(s) && IsRedacted(t) {
        assert t in {s.domain, s.target, s.action, s.entity, s.recovery} || t in s.params.Values || t in s.other.Values;
      }
      if HasMarkerInStep(s) && !AnyRedacted(s.params) && !AnyRedacted(s.other) {
        assert exists t :: t in {s.domain, s.target, s.action, s.entity, s.recovery} && IsRedacted(t);
      }
    }
  }

  lemma MarkedEntityStep(s: EntityStep)
    ensures s.EntityStep? && (IsRedacted(s.entity) || AnyRedacted(s.other)) <==> exists t :: t in TextsOfEntityStep(s) && IsRedacted(t)
  {
    hide IsRedacted, AnyRedacted;
    if s.EntityStep? {
      MarkedTextsOf(s.other);
      assert s.entity in TextsOfEntityStep(s);
    }
  }

  lemma MarkedPart(r: Reaction, t: string)
    requires r.Reaction? && t in AllTexts(r) && IsRedacted(t)
    ensures HasMarker(r)
  {
    hide IsRedacted, AnyRedacted, HasMarkerInStep, TextsOfStep, TextsOfEntityStep;
    MarkedTextsOf(r.other);
    if r.entitySteps.Some? {
      if s :| s in r.entitySteps.value && t in TextsOfEntityStep(s) {
        MarkedEntityStep(s);
      }
    }
    if r.steps.Some? {
      if s :| s in r.steps.value && t in TextsOfStep(s) {
        MarkedStep(s);
      }
    }
  }

  lemma MarkedSomewhere(r: Reaction)
    requires r.Reaction? && HasMarker(r)
    ensures exists t :: t in AllTexts(r) && IsRedacted(t)
  {
    hide IsRedacted, AnyRedacted, HasMarkerInStep, TextsOfStep, TextsOfEntityStep;
    MarkedTextsOf(r.other);
    if r.entitySteps.Some? {
      forall s | s in r.entitySteps.value && s.EntityStep? && (IsRedacted(s.entity) || AnyRedacted(s.other))
        ensures exists t :: t in AllTexts(r) && IsRedacted(t)
      {
        MarkedEntityStep(s);
        var t :| t in TextsOfEntityStep(s) && IsRedacted(t);
        assert t in AllTexts(r);
      }
    }
    if r.steps.Some? {
      forall s | s in r.steps.value && HasMarkerInStep(s) ensures exists t :: t in AllTexts(r) && IsRedacted(t) {
        MarkedStep(s);
        var t :| t in TextsOfStep(s) && IsRedacted(t);
        assert t in AllTexts(r);
      }
    }
    assert r.kind in AllTexts(r) && r.room in AllTexts(r) && r.primarySignal in AllTexts(r);
    assert r.corroborationSignal in AllTexts(r) && r.primaryBucket in AllTexts(r);
    assert forall key :: key in r.settings ==> r.settings[key] in AllTexts(r);
  }

  /** No reaction that the stage keeps holds the marker anywhere. */
  lemma KeptHoldNoMarker(reactions: seq<Reaction>, env: Env, n: Reaction)
    requires n in NormalizedAll(reactions, env) && n.Reaction?
    ensures forall t :: t in AllTexts(n) ==> !Contains(t)
  {
    hide AllTexts, HasMarker, NormalizedAll, Normalized;
    NormalizedAre(reactions, env);
    forall t | t in AllTexts(n) ensures !Contains(t) {
      RedactedMeansContains(t);
      if IsRedacted(t) {
        MarkedPart(n, t);
      }
    }
  }

  // ----- what is kept

  /** The stage has nothing to take out of the reaction. */
  ghost predicate IsIntact(r: Reaction)
    requires r.Reaction?
  {
    && (forall t :: t in AllTexts(Typed(r)) ==> !Contains(t))
    && (forall field, item :: field in ENTITY_LISTS && field in r.lists && item in r.lists[field] ==> item != "")
    && (r.entitySteps.Some? ==> forall s :: s in r.entitySteps.value ==> s.EntityStep? && s.entity != "")
    && (r.steps.Some? ==> forall s :: s in r.steps.value ==> s.ActionStep?)
  }

  /** The reaction has what its type works with. */
  predicate IsUsable(r: Reaction)
    requires r.Reaction?
  {
    var kind := ResolvedKind(r);
    && kind != "lighting_scene_schedule"
    && (kind == "room_darkness_lighting_assist" || kind == "room_vacancy_lighting_off" ==> r.entitySteps.Some? && r.entitySteps.value != [])
    && (kind == "room_darkness_lighting_assist" ==> ListOf(r, PrimaryEntities) != [])
    && (kind == "room_signal_assist" ==> ListOf(r, PrimaryEntities) != [] || ListOf(r, TriggerEntities) != [])
  }

  lemma IntactTexts(r: Reaction, t: string)
    requires r.Reaction? && IsIntact(r) && t in AllTexts(Typed(r))
    ensures !IsRedacted(t)
  {
    RedactedMeansContains(t);
  }

  lemma IntactLists(r: Reaction, field: ListField)
    requires r.Reaction? && IsIntact(r) && field in r.lists && field in ENTITY_LISTS
    ensures Keep(r.lists[field], IS_NAMED) == r.lists[field]
  {
    hide IsRedacted, Contains, AllTexts, ResolvedKind;
    forall item | item in r.lists[field] ensures IS_NAMED(item) {
      ListTexts(Typed(r), field, item);
      IntactTexts(r, item);
    }
    AllKept(r.lists[field], IS_NAMED);
  }

  lemma IntactSteps(r: Reaction)
    requires r.Reaction? && IsIntact(r)
    ensures KeepIn(r.entitySteps, IS_USABLE_STEP) == r.entitySteps
    ensures KeepIn(r.steps, IS_USABLE_ACTION) == r.steps
  {
    hide IsRedacted, Contains, AllTexts, ResolvedKind;
    if r.entitySteps.Some? {
      forall s | s in r.entitySteps.value ensures IS_USABLE_STEP(s) {
        EntityStepTexts(Typed(r), s);
        IntactTexts(r, s.entity);
      }
      AllKept(r.entitySteps.value, IS_USABLE_STEP);
    }
    if r.steps.Some? {
      forall s | s in r.steps.value ensures IS_USABLE_ACTION(s) {
        StepTexts(Typed(r), s);
        IntactTexts(r, s.target);
        IntactTexts(r, s.entity);
      }
      AllKept(r.steps.value, IS_USABLE_ACTION);
    }
  }

  lemma IntactIsNotFiltered(r: Reaction)
    requires r.Reaction? && IsIntact(r)
    ensures Filtered(Typed(r)) == Typed(r)
  {
    hide IsIntact, Keep, KeepIn, ResolvedKind;
    IntactSteps(r);
    forall field | field in r.lists && field in ENTITY_LISTS ensures Keep(r.lists[field], IS_NAMED) == r.lists[field] {
      IntactLists(r, field);
    }
  }

  lemma ListTexts(r: Reaction, field: ListField, item: string)
    requires r.Reaction? && field in r.lists && item in r.lists[field]
    ensures item in AllTexts(r)
  {}

  lemma EntityStepTexts(r: Reaction, s: EntityStep)
    requires r.Reaction? && r.entitySteps.Some? && s in r.entitySteps.value && s.EntityStep?
    ensures s.entity in AllTexts(r)
  {
    assert s.entity in TextsOfEntityStep(s);
  }

  lemma StepTexts(r: Reaction, s: ActionStep)
    requires r.Reaction? && r.steps.Some? && s in r.steps.value && s.ActionStep?
    ensures s.target in AllTexts(r) && s.entity in AllTexts(r)
  {
    assert s.target in TextsOfStep(s) && s.entity in TextsOfStep(s);
  }

  /** An intact reaction, other than a routine or an alarm policy, gets its type and is otherwise left
      as it is; it is kept if and only if it has what its type works with. */
  lemma IntactIsKept(r: Reaction, env: Env)
    requires r.Reaction? && IsIntact(r)
    requires ResolvedKind(r) != "scheduled_routine" && ResolvedKind(r) != "alarm_state_action"
    ensures Normalized(r, env.texts) == Typed(r)
    ensures Survives(r, env) <==> IsUsable(r)
  {
    hide Contains, AllTexts, ResolvedKind, HasMarker, IsRedacted;
    IntactIsNotFiltered(r);
    var typed := Typed(r);
    if HasMarker(typed) {
      MarkedSomewhere(typed);
      var t :| t in AllTexts(typed) && IsRedacted(t);
      RedactedMeansContains(t);
    }
    UsableWhenTyped(r);
  }

  lemma UsableWhenTyped(r: Reaction)
    requires r.Reaction? && ResolvedKind(r) != "scheduled_routine" && !HasMarker(Typed(r))
    ensures IsPruned(Typed(r)) <==> !IsUsable(r)
  {
    hide ResolvedKind, HasMarker;
  }

  /** The types of the older classes. */
  lemma ClassesHaveTypes()
    ensures TypeOfClass("PresencePatternReaction") == "presence_preheat"
    ensures TypeOfClass("LightingScheduleReaction") == "lighting_scene_schedule"
    ensures TypeOfClass("ContextConditionedLightingReaction") == "context_conditioned_lighting_scene"
    ensures TypeOfClass("HeatingPreferenceReaction") == "heating_preference"
    ensures TypeOfClass("HeatingEcoReaction") == "heating_eco"
    ensures TypeOfClass("RoomSignalAssistReaction") == "room_signal_assist"
    ensures TypeOfClass("RoomLightingAssistReaction") == "room_darkness_lighting_assist"
    ensures TypeOfClass("RoomLightingVacancyOffReaction") == "room_vacancy_lighting_off"
    ensures TypeOfClass("ScheduledRoutineReaction") == "scheduled_routine"
    ensures TypeOfClass("VacationPresenceSimulationReaction") == "vacation_presence_simulation"
  {}

  /** A type that is stored counts; a class counts only without one, and never stays. */
  lemma TypesComeFirst(r: Reaction, env: Env)
    requires r.Reaction?
    ensures r.kind != "" ==> ResolvedKind(r) == r.kind
    ensures r.kind == "" && r.legacyClass.Some? ==> ResolvedKind(r) == TypeOfClass(r.legacyClass.value)
    ensures Normalized(r, env.texts).legacyClass.None? && Normalized(r, env.texts).kind == ResolvedKind(r)
  {
    hide TypeOfClass, IsRedacted;
  }

  // ----- routines

  lemma {:induction false} TargetStepsJoin(targets: seq<string>, more: seq<string>, routineKind: string, entityAction: string)
    ensures StepsFromTargets(targets + more, routineKind, entityAction)
         == StepsFromTargets(targets, routineKind, entityAction) + StepsFromTargets(more, routineKind, entityAction)
  {
    hide DomainOf;
    if more == [] {
      assert targets + more == targets;
    } else {
      var init := more[..|more| - 1];
      TargetStepsJoin(targets, init, routineKind, entityAction);
      assert (targets + more)[..|targets + more| - 1] == targets + init;
    }
  }

  /** A target gets one step if the routine acts on its domain: scenes and scripts are turned on,
      what can be switched gets the routine's action. */
  lemma StepOfTarget(target: string, routineKind: string, entityAction: string)
    ensures var steps, domain := StepsFromTargets([target], routineKind, entityAction), DomainOf(target);
            && (routineKind == "scene" && domain == "scene" ==>
                  steps == [ActionStep("scene", target, "scene.turn_on", target, map[], "", map[])])
            && (routineKind == "script" && domain == "script" ==>
                  steps == [ActionStep("script", target, "script.turn_on", target, map[], "", map[])])
            && (routineKind == "entity_action" && domain in {"light", "switch", "input_boolean"} ==>
                  steps == [ActionStep(domain, target, domain + "." + entityAction, target, map[], "", map[])])
            && (|| (routineKind == "scene" && domain == "scene")
                || (routineKind == "script" && domain == "script")
                || (routineKind == "entity_action" && domain in {"light", "switch", "input_boolean"})
                || steps == [])
  {
    hide DomainOf;
    assert [target][..0] == [] && StepsFromTargets([], routineKind, entityAction) == [];
    assert "scene" + "." + "turn_on" == "scene.turn_on" && "script" + "." + "turn_on" == "script.turn_on";
    assert |"entity_action"| == 13 && |"scene"| == 5 && |"script"| == 6;
  }

  /** The domain of an entity id is what stands before its first dot. */
  lemma {:induction false} DomainStandsBeforeTheDot(domain: string, rest: string)
    requires '.' !in domain
    ensures DomainOf(domain + "." + rest) == domain
  {
    var entity := domain + "." + rest;
    if domain != "" {
      assert entity[0] == domain[0] && domain[0] in domain;
      assert entity[1..] == domain[1..] + "." + rest;
      assert forall c :: c in domain[1..] ==> c in domain;
      DomainStandsBeforeTheDot(domain[1..], rest);
    }
  }

  /** A routine with a usable step keeps its usable steps; one without gets those of its targets. */
  lemma RoutineStepsAre(r: Reaction, texts: TextNormalizers)
    requires r.Reaction? && texts.AreStable()
    ensures var n := NormalRoutine(r, texts);
            && (forall s :: s in StepsOf(n) ==> NormalStep(s, Routine) == Some(s))
            && (NormalSteps(StepsOf(r), Routine) != [] ==> StepsOf(n) == NormalSteps(StepsOf(r), Routine))
            && (NormalSteps(StepsOf(r), Routine) == [] && Value(texts.routine(r.other), "routine_kind") in {"scene", "script", "entity_action"} ==>
                  StepsOf(n) == StepsFromTargets(ListOf(n, TargetEntities), Value(texts.routine(r.other), "routine_kind"),
                                                 Value(texts.routine(r.other), "entity_action")))
            && ListOf(n, TargetEntities) == Keep(ListOf(r, TargetEntities), IS_TARGET)
  {
    hide NormalStep, DomainOf, IsRedacted, RoutineDomains;
    RoutineStepsAreNormal(r, texts);
    assert StepsFromTargets([], Value(texts.routine(r.other), "routine_kind"), Value(texts.routine(r.other), "entity_action")) == [];
  }

  // ----- steps of routines and alarm policies

  /** The actions that steps may have, domain by domain; only alarm policies may set a climate. */
  lemma SupportedActions(flavour: Flavour, domain: string, action: string)
    ensures IsSupported(flavour, domain, action) <==>
      || (domain == "light" && (action == "light.turn_on" || action == "light.turn_off"))
      || (domain == "switch" && (action == "switch.turn_on" || action == "switch.turn_off"))
      || (domain == "input_boolean" && (action == "input_boolean.turn_on" || action == "input_boolean.turn_off"))
      || (domain == "scene" && action == "scene.turn_on")
      || (domain == "script" && action == "script.turn_on")
      || (domain == "climate" && flavour == Alarm && (action == "climate.set_hvac_mode" || action == "climate.set_preset_mode"))
  {
    ActionWords();
    assert |"climate"| == 7 && |"light"| == 5 && |"switch"| == 6 && |"input_boolean"| == 13 && |"scene"| == 5 && |"script"| == 6;
    assert "light"[0] != "scene"[0] && "switch"[1] != "script"[1];
  }

  lemma ActionWords()
    ensures "light" + ".turn_on" == "light.turn_on" && "light" + ".turn_off" == "light.turn_off"
    ensures "switch" + ".turn_on" == "switch.turn_on" && "switch" + ".turn_off" == "switch.turn_off"
    ensures "input_boolean" + ".turn_on" == "input_boolean.turn_on" && "input_boolean" + ".turn_off" == "input_boolean.turn_off"
    ensures "scene" + ".turn_on" == "scene.turn_on" && "script" + ".turn_on" == "script.turn_on"
  {}

  /** A step is kept if its target is an entity id of its own domain and the action fits. It is
      left with domain, target, action and parameters, and in an alarm policy with the way it
      recovers, which is to block unless something else is allowed. */
  lemma NormalStepSays(s: ActionStep, flavour: Flavour)
    requires s.ActionStep?
    ensures var target, normal := if s.target == "" then s.entity else s.target, NormalStep(s, flavour);
            && (normal.Some? <==>
                  && '.' in target && (s.domain == "" || s.domain == DomainOf(target))
                  && IsSupported(flavour, DomainOf(target), s.action))
            && (normal.Some? ==>
                  && normal.value.ActionStep? && normal.value.domain == DomainOf(target)
                  && normal.value.target == normal.value.entity == target
                  && normal.value.action == s.action && normal.value.params == s.params && normal.value.other == map[]
                  && (flavour == Routine ==> normal.value.recovery == "")
                  && (flavour == Alarm ==>
                        normal.value.recovery == if s.recovery == "allow_when_inputs_stable" || s.recovery == "allow_admin_command"
                                                 then s.recovery else "block"))
  {
    hide DomainOf, IsSupported;
  }

  lemma {:induction false} NormalStepsJoin(steps: seq<ActionStep>, more: seq<ActionStep>, flavour: Flavour)
    ensures NormalSteps(steps + more, flavour) == NormalSteps(steps, flavour) + NormalSteps(more, flavour)
  {
    hide NormalStep;
    if more == [] {
      assert steps + more == steps;
    } else {
      var init := more[..|more| - 1];
      NormalStepsJoin(steps, init, flavour);
      assert (steps + more)[..|steps + more| - 1] == steps + init;
    }
  }

  lemma NormalStepsOfOne(s: ActionStep, flavour: Flavour)
    ensures NormalSteps([s], flavour) == if NormalStep(s, flavour).Some? then [NormalStep(s, flavour).value] else []
  {
    hide NormalStep;
    assert [s][..0] == [] && NormalSteps([], flavour) == [];
  }

  /** A routine is left with its targets, domains, steps and own texts: the domains that are stored, or
      else those of its targets, as far as routines act on them. */
  lemma RoutineKeeps(r: Reaction, texts: TextNormalizers, domain: string)
    requires r.Reaction?
    ensures var n := NormalRoutine(r, texts);
            && n.room == n.primarySignal == n.corroborationSignal == n.primaryBucket == "" && n.settings == map[]
            && n.entitySteps.None? && n.other == texts.routine(r.other) && n.lists.Keys == {TargetEntities, EntityDomains}
            && (domain in ListOf(n, EntityDomains) <==>
                  && domain in {"input_boolean", "light", "scene", "script", "switch"}
                  && if exists d :: d in ListOf(r, EntityDomains) && d in {"input_boolean", "light", "scene", "script", "switch"}
                     then domain in ListOf(r, EntityDomains)
                     else exists target :: target in ListOf(n, TargetEntities) && DomainOf(target) == domain)
  {
    hide DomainOf, NormalSteps, StepsFromTargets;
    var n := NormalRoutine(r, texts);
    var targets, given := ListOf(n, TargetEntities), ListOf(r, EntityDomains);
    KeptAre(given, IS_DOMAIN);
    KeptAre(DOMAINS, d => d in DomainsOf(targets));
    assert forall d :: d in DOMAINS <==> d in {"input_boolean", "light", "scene", "script", "switch"};
    if Keep(given, IS_DOMAIN) == [] {
      assert forall d :: !(d in Keep(given, IS_DOMAIN));
    } else {
      var d := Keep(given, IS_DOMAIN)[0];
      assert d in Keep(given, IS_DOMAIN);
    }
  }

  lemma AlarmPolicyKeeps(r: Reaction, texts: TextNormalizers)
    requires r.Reaction?
    ensures var n := NormalAlarm(r, texts);
            && n.room == n.primarySignal == n.corroborationSignal == n.primaryBucket == "" && n.settings == map[] && n.lists == map[]
            && n.entitySteps.None? && n.steps == Some(NormalSteps(StepsOf(r), Alarm)) && n.other == texts.alarm(r.other)
  {}

  /** A target of a routine is an entity of one of the five domains. */
  lemma TargetsOfRoutines(r: Reaction, texts: TextNormalizers, target: string)
    requires r.Reaction?
    ensures target in ListOf(NormalRoutine(r, texts), TargetEntities) <==>
      && target in ListOf(r, TargetEntities) && '.' in target
      && DomainOf(target) in {"input_boolean", "light", "scene", "script", "switch"}
  {
    hide DomainOf, NormalSteps, StepsFromTargets, RoutineDomains;
    KeptAre(ListOf(r, TargetEntities), IS_TARGET);
  }
}

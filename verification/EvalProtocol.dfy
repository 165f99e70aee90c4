/** The debounced evaluation protocol as a state machine. One step is what runs between two
    suspension points of the event loop, so that a timer firing, the start of the task it created
    and the end of an evaluation are separate steps and anything may happen in between. */
module EvalProtocol {

  datatype EntityClass =
    | Presence | Motion | DoorWindow | PowerThreshold | Calendar
    | Override | Weather | OutdoorLux | Security | PeriodicFallback

  function Name(c: EntityClass): string {
    match c
    case Presence => "presence"
    case Motion => "motion"
    case DoorWindow => "door_window"
    case PowerThreshold => "power_threshold"
    case Calendar => "calendar"
    case Override => "override"
    case Weather => "weather"
    case OutdoorLux => "outdoor_lux"
    case Security => "security"
    case PeriodicFallback => "periodic_fallback"
  }

  type TimerId = nat

  /** The coordinator's fields and the event loop's: the timers that can still fire, the trigger
      tasks created but not started, and the evaluations started but not ended. */
  datatype State = State(
    handles: map<EntityClass, TimerId>,
    reasons: map<EntityClass, string>,
    evalPending: bool,
    evalRunning: bool,
    timers: map<TimerId, EntityClass>,
    queued: multiset<EntityClass>,
    inFlight: nat,
    nextTimer: TimerId)

  const INITIAL: State := State(map[], map[], false, false, map[], multiset{}, 0, 0)

  datatype Event =
    | Schedule(c: EntityClass, reason: string)
    | TimerFires(t: TimerId)
    | TaskStarts(c: EntityClass)
    | PeriodicTick
    | EvaluationEnds
    | CancelAll

  // ----- the steps

  function Scheduled(s: State, c: EntityClass, reason: string): (s': State)
    ensures s'.evalRunning == s.evalRunning && s'.inFlight == s.inFlight
  {
    var timers := if c in s.handles then s.timers - {s.handles[c]} else s.timers;
    s.(handles := s.handles[c := s.nextTimer],
       reasons := s.reasons[c := reason],
       evalPending := true,
       timers := timers[s.nextTimer := c],
       nextTimer := s.nextTimer + 1)
  }

  function ReasonFor(s: State, c: EntityClass, given: string): string {
    if given != "" then given
    else if c in s.reasons && s.reasons[c] != "" then s.reasons[c]
    else Name(c)
  }

  /** `_trigger_eval` up to its first suspension point; `given` is "" when no reason is passed. */
  function Triggered(s: State, c: EntityClass, given: string): State {
    var popped := s.(handles := s.handles - {c});
    if s.evalRunning then
      if c == PeriodicFallback then popped else Scheduled(popped, c, ReasonFor(s, c, given))
    else
      var reasons := s.reasons - {c};
      popped.(reasons := reasons, evalPending := reasons != map[], evalRunning := true, inFlight := s.inFlight + 1)
  }

  function Cancelled(s: State): State {
    s.(timers := s.timers - s.handles.Values, handles := map[], reasons := map[], evalPending := false)
  }

  /** State changes are classified by entity, and no entity is classified as the periodic fallback. */
  predicate Enabled(s: State, e: Event) {
    match e
    case Schedule(c, _) => c != PeriodicFallback
    case TimerFires(t) => t in s.timers
    case TaskStarts(c) => c in s.queued
    case PeriodicTick => true
    case EvaluationEnds => s.inFlight > 0
    case CancelAll => true
  }

  function Next(s: State, e: Event): State
    requires Enabled(s, e)
  {
    match e
    case Schedule(c, reason) => Scheduled(s, c, reason)
    case TimerFires(t) => s.(timers := s.timers - {t}, queued := s.queued + multiset{s.timers[t]})
    case TaskStarts(c) => Triggered(s.(queued := s.queued - multiset{c}), c, "")
    case PeriodicTick => Triggered(s, PeriodicFallback, Name(PeriodicFallback))
    case EvaluationEnds => s.(evalRunning := false, inFlight := s.inFlight - 1)
    case CancelAll => Cancelled(s)
  }

  predicate Possible(s: State, events: seq<Event>)
    decreases |events|
  {
    events == [] || (Enabled(s, events[0]) && Possible(Next(s, events[0]), events[1..]))
  }

  function After(s: State, events: seq<Event>): State
    requires Possible(s, events)
    decreases |events|
  {
    if events == [] then s else After(Next(s, events[0]), events[1..])
  }

  predicate StartsEvaluation(s: State, e: Event) {
    !s.evalRunning && (e.TaskStarts? || e.PeriodicTick?)
  }

  // ----- what every step keeps

  /** The timer that the coordinator would cancel for class `c` is still going to fire. */
  predicate HasLiveTimer(s: State, c: EntityClass) {
    c in s.handles && s.handles[c] in s.timers
  }

  /** A registered handle is below the next one, and no other class owns its timer. */
  predicate OwnsHandle(s: State, c: EntityClass) {
    c in s.handles ==> s.handles[c] < s.nextTimer && (s.handles[c] in s.timers ==> s.timers[s.handles[c]] == c)
  }

  predicate WillTrigger(s: State, c: EntityClass) {
    c in s.handles ==> HasLiveTimer(s, c) || c in s.queued
  }

  ghost predicate LoopIsSound(s: State) {
    && (forall t <- s.timers :: t < s.nextTimer && s.timers[t] != PeriodicFallback)
    && PeriodicFallback !in s.queued
    && PeriodicFallback !in s.handles
    && (forall c :: OwnsHandle(s, c))
  }

  ghost predicate Invariant(s: State) {
    && LoopIsSound(s)
    && (forall c :: WillTrigger(s, c))
    && s.handles.Keys == s.reasons.Keys
    && s.evalPending == (s.reasons != map[])
    && s.inFlight == (if s.evalRunning then 1 else 0)
  }

  /** Scheduling a class repairs whatever was missing for that class alone. */
  lemma SchedulingRestores(s: State, c: EntityClass, reason: string)
    requires c != PeriodicFallback && LoopIsSound(s)
    requires forall d :: d != c ==> WillTrigger(s, d)
    requires s.handles.Keys + {c} == s.reasons.Keys + {c}
    requires s.inFlight == (if s.evalRunning then 1 else 0)
    ensures Invariant(Scheduled(s, c, reason))
  {
    var s' := Scheduled(s, c, reason);
    forall d ensures OwnsHandle(s', d) && WillTrigger(s', d) {
      assert OwnsHandle(s, d) && OwnsHandle(s, c);
      assert d != c ==> WillTrigger(s, d);
    }
    assert c in s'.reasons;
  }

  lemma TriggeringKeeps(s: State, c: EntityClass, given: string)
    requires LoopIsSound(s)
    requires forall d :: d != c ==> WillTrigger(s, d)
    requires s.handles.Keys == s.reasons.Keys
    requires s.evalPending == (s.reasons != map[])
    requires s.inFlight == (if s.evalRunning then 1 else 0)
    ensures Invariant(Triggered(s, c, given))
  {
    var popped := s.(handles := s.handles - {c});
    forall d ensures OwnsHandle(popped, d) && (d != c ==> WillTrigger(popped, d)) {
      assert OwnsHandle(s, d);
      assert d != c ==> WillTrigger(s, d);
    }
    var s' := Triggered(s, c, given);
    if s.evalRunning && c != PeriodicFallback {
      SchedulingRestores(popped, c, ReasonFor(s, c, given));
    } else {
      assert c == PeriodicFallback ==> popped.handles == s.handles;
      forall d ensures OwnsHandle(s', d) && WillTrigger(s', d) {
        assert OwnsHandle(popped, d) && (d != c ==> WillTrigger(popped, d));
      }
    }
  }

  lemma FiringKeeps(s: State, t: TimerId)
    requires Invariant(s) && t in s.timers
    ensures Invariant(Next(s, TimerFires(t)))
  {
    var s' := Next(s, TimerFires(t));
    forall d ensures OwnsHandle(s', d) && WillTrigger(s', d) {
      assert OwnsHandle(s, d) && WillTrigger(s, d);
    }
  }

  lemma StartingKeeps(s: State, c: EntityClass)
    requires Invariant(s) && c in s.queued
    ensures Invariant(Next(s, TaskStarts(c)))
  {
    hide Triggered;
    var dequeued := s.(queued := s.queued - multiset{c});
    forall d ensures OwnsHandle(dequeued, d) && (d != c ==> WillTrigger(dequeued, d)) {
      assert OwnsHandle(s, d) && WillTrigger(s, d);
    }
    TriggeringKeeps(dequeued, c, "");
  }

  lemma InvariantIsKept(s: State, e: Event)
    requires Invariant(s) && Enabled(s, e)
    ensures Invariant(Next(s, e))
  {
    hide Scheduled, Triggered;
    match e {
      case Schedule(c, reason) =>
        SchedulingRestores(s, c, reason);
      case TimerFires(t) =>
        FiringKeeps(s, t);
      case TaskStarts(c) =>
        StartingKeeps(s, c);
      case PeriodicTick =>
        TriggeringKeeps(s, PeriodicFallback, Name(PeriodicFallback));
      case EvaluationEnds =>
        forall d ensures OwnsHandle(Next(s, e), d) && WillTrigger(Next(s, e), d) {
          assert OwnsHandle(s, d) && WillTrigger(s, d);
        }
      case CancelAll =>
    }
  }

  /** Across every interleaving: at most one evaluation is in flight, each pending class has a live
      timer or a queued trigger, the two maps have the same keys and the flag tells if they have any. */
  lemma {:induction false} EveryRunIsSafe(s: State, events: seq<Event>)
    requires Invariant(s) && Possible(s, events)
    ensures Invariant(After(s, events))
    decreases |events|
  {
    if events != [] {
      InvariantIsKept(s, events[0]);
      EveryRunIsSafe(Next(s, events[0]), events[1..]);
    }
  }

  // ----- evaluations are counted

  /** A step that starts an evaluation sets the flag and counts it, the end of one clears and counts
      it, and no other step touches either. */
  lemma StepCountsEvaluations(s: State, e: Event)
    requires Enabled(s, e)
    ensures var s' := Next(s, e);
            if StartsEvaluation(s, e) then s'.evalRunning && s'.inFlight == s.inFlight + 1
            else if e.EvaluationEnds? then !s'.evalRunning && s'.inFlight == s.inFlight - 1
            else s'.evalRunning == s.evalRunning && s'.inFlight == s.inFlight
  {
    hide Name;
  }

  /** How many evaluations a run starts, and how many it ends. */
  function Starts(s: State, events: seq<Event>): nat
    requires Possible(s, events)
    decreases |events|
  {
    if events == [] then 0
    else (if StartsEvaluation(s, events[0]) then 1 else 0) + Starts(Next(s, events[0]), events[1..])
  }

  function Ends(events: seq<Event>): nat {
    if events == [] then 0 else (if events[0].EvaluationEnds? then 1 else 0) + Ends(events[1..])
  }

  lemma {:induction false} RunCountsEvaluations(s: State, events: seq<Event>)
    requires Possible(s, events)
    ensures After(s, events).inFlight == s.inFlight + Starts(s, events) - Ends(events)
    decreases |events|
  {
    hide Next, StartsEvaluation;
    if events != [] {
      StepCountsEvaluations(s, events[0]);
      assert StartsEvaluation(s, events[0]) ==> !events[0].EvaluationEnds? by { EndsStartNothing(s, events[0]); }
      RunCountsEvaluations(Next(s, events[0]), events[1..]);
    }
  }

  lemma EndsStartNothing(s: State, e: Event)
    ensures StartsEvaluation(s, e) ==> !e.EvaluationEnds?
  {}

  /** Whatever happens from the start on, at most one evaluation has been started and not ended; the
      running flag says whether there is one, and none starts while it is set. */
  lemma EvaluationsNeverOverlap(events: seq<Event>)
    requires Possible(INITIAL, events)
    ensures Starts(INITIAL, events) - Ends(events) == if After(INITIAL, events).evalRunning then 1 else 0
    ensures forall e :: Enabled(After(INITIAL, events), e) && StartsEvaluation(After(INITIAL, events), e) ==>
      Starts(INITIAL, events) == Ends(events)
  {
    EveryRunIsSafe(INITIAL, events);
    RunCountsEvaluations(INITIAL, events);
  }

  // ----- no request is lost

  /** The requests not yet served: scheduled, and since then neither cancelled nor picked up by the
      start of an evaluation for their class. */
  function Owed(s: State, owed: map<EntityClass, string>, e: Event): map<EntityClass, string> {
    match e
    case Schedule(c, reason) => owed[c := reason]
    case TaskStarts(c) => if s.evalRunning then owed else owed - {c}
    case CancelAll => map[]
    case _ => owed
  }

  function OwedAfter(s: State, owed: map<EntityClass, string>, events: seq<Event>): map<EntityClass, string>
    requires Possible(s, events)
    decreases |events|
  {
    if events == [] then owed
    else OwedAfter(Next(s, events[0]), Owed(s, owed, events[0]), events[1..])
  }

  /** Every owed request is pending, under the reason given last. */
  ghost predicate IsRemembered(s: State, owed: map<EntityClass, string>) {
    forall c <- owed :: c in s.reasons && ReasonFor(s, c, "") == if owed[c] != "" then owed[c] else Name(c)
  }

  lemma StepRemembers(s: State, owed: map<EntityClass, string>, e: Event)
    requires Invariant(s) && IsRemembered(s, owed) && Enabled(s, e)
    ensures IsRemembered(Next(s, e), Owed(s, owed, e))
  {
    assert PeriodicFallback !in owed;
  }

  /** However timers, tasks and evaluations interleave, a request that has not been served is going
      to be triggered, and the evaluation that serves it will be given the latest reason. */
  lemma {:induction false} NoRequestIsLost(s: State, owed: map<EntityClass, string>, events: seq<Event>)
    requires Invariant(s) && IsRemembered(s, owed) && Possible(s, events)
    ensures var s', owed' := After(s, events), OwedAfter(s, owed, events);
            && IsRemembered(s', owed')
            && (forall c <- owed' :: HasLiveTimer(s', c) || c in s'.queued)
            && (s'.timers == map[] && s'.queued == multiset{} ==> owed' == map[])
    decreases |events|
  {
    if events == [] {
      forall c <- owed ensures HasLiveTimer(s, c) || c in s.queued {
        assert WillTrigger(s, c);
      }
      assert s.timers == map[] && s.queued == multiset{} ==> forall c :: c !in owed;
    } else {
      InvariantIsKept(s, events[0]);
      StepRemembers(s, owed, events[0]);
      NoRequestIsLost(Next(s, events[0]), Owed(s, owed, events[0]), events[1..]);
    }
  }

  // ----- timers nobody can cancel

  /** A timer that is going to fire although the coordinator no longer holds its handle. */
  predicate IsStale(s: State, t: TimerId) {
    t in s.timers && !(s.timers[t] in s.handles && s.handles[s.timers[t]] == t)
  }

  lemma SchedulingLeavesNothingStale(s: State, c: EntityClass, reason: string, t: TimerId)
    requires LoopIsSound(s)
    ensures IsStale(Scheduled(s, c, reason), t) <==> IsStale(s, t)
  {
    assert OwnsHandle(s, c);
    if t in s.timers {
      assert OwnsHandle(s, s.timers[t]);
    }
  }

  lemma TriggeringDropsOneHandle(s: State, c: EntityClass, given: string, t: TimerId)
    requires LoopIsSound(s) && !IsStale(s, t)
    ensures IsStale(Triggered(s, c, given), t) <==> HasLiveTimer(s, c) && s.handles[c] == t
  {
    hide Scheduled;
    var popped := s.(handles := s.handles - {c});
    forall d ensures OwnsHandle(popped, d) {
      assert OwnsHandle(s, d);
    }
    assert OwnsHandle(s, c);
    SchedulingLeavesNothingStale(popped, c, ReasonFor(s, c, given), t);
  }

  /** A timer goes stale exactly when a trigger task starts after its class has been rescheduled:
      the task drops the handle of the newer timer without cancelling it. */
  lemma TimersGoStaleByLateTriggers(s: State, e: Event, t: TimerId)
    requires Invariant(s) && Enabled(s, e) && !IsStale(s, t)
    ensures IsStale(Next(s, e), t) <==> e.TaskStarts? && HasLiveTimer(s, e.c) && s.handles[e.c] == t
  {
    hide Scheduled, Triggered, WillTrigger;
    match e {
      case Schedule(c, reason) => SchedulingLeavesNothingStale(s, c, reason, t);
      case TaskStarts(c) =>
        var dequeued := s.(queued := s.queued - multiset{c});
        forall d ensures OwnsHandle(dequeued, d) {
          assert OwnsHandle(s, d);
        }
        TriggeringDropsOneHandle(dequeued, c, "", t);
      case PeriodicTick => TriggeringDropsOneHandle(s, PeriodicFallback, Name(PeriodicFallback), t);
      case TimerFires(_) =>
      case EvaluationEnds =>
      case CancelAll =>
    }
  }

  predicate Quiet(events: seq<Event>) {
    forall i :: 0 <= i < |events| ==> !events[i].Schedule? && !events[i].PeriodicTick?
  }

  predicate StartsLater(s: State, events: seq<Event>)
    requires Possible(s, events)
    decreases |events|
  {
    events != [] && (StartsEvaluation(s, events[0]) || StartsLater(Next(s, events[0]), events[1..]))
  }

  ghost predicate CanStillTrigger(s: State) {
    s.queued != multiset{} || exists t :: IsStale(s, t)
  }

  lemma {:induction false} NothingLeftStaysSilent(s: State, events: seq<Event>)
    requires s.timers == map[] && s.queued == multiset{}
    requires Quiet(events) && Possible(s, events)
    ensures !StartsLater(s, events)
    decreases |events|
  {
    if events != [] {
      var next := Next(s, events[0]);
      assert next.timers == map[] && next.queued == multiset{};
      NothingLeftStaysSilent(next, events[1..]);
    }
  }

  lemma CancellingClearsRegisteredTimers(s: State)
    requires Invariant(s) && !CanStillTrigger(s)
    ensures Cancelled(s).timers == map[]
  {
    forall t | t in s.timers ensures t in s.handles.Values {
      assert !IsStale(s, t);
    }
  }

  lemma IdleTriggers(s: State) returns (events: seq<Event>)
    requires !s.evalRunning && (s.queued != multiset{} || s.timers != map[])
    ensures Quiet(events) && Possible(s, events) && StartsLater(s, events)
  {
    hide Triggered, Scheduled;
    if s.queued != multiset{} {
      var c :| c in s.queued;
      events := [TaskStarts(c)];
    } else {
      var t :| t in s.timers;
      var fired, start := Next(s, TimerFires(t)), [TaskStarts(s.timers[t])];
      assert Possible(fired, start) && StartsLater(fired, start);
      events := [TimerFires(t), TaskStarts(s.timers[t])];
      assert events[1..] == start;
    }
  }

  /** A run of quiet steps that starts an evaluation although everything was cancelled. */
  lemma LeftoverTriggers(s: State) returns (events: seq<Event>)
    requires Invariant(s) && CanStillTrigger(s)
    ensures Quiet(events) && Possible(Cancelled(s), events) && StartsLater(Cancelled(s), events)
  {
    hide Triggered, Scheduled;
    var cancelled := Cancelled(s);
    if t :| IsStale(s, t) {
      forall c | c in s.handles ensures s.handles[c] != t {
        assert OwnsHandle(s, c);
      }
      assert t in cancelled.timers;
    }
    if s.evalRunning {
      var idle := Next(cancelled, EvaluationEnds);
      var trigger := IdleTriggers(idle);
      events := [EvaluationEnds] + trigger;
      assert events[1..] == trigger;
    } else {
      events := IdleTriggers(cancelled);
    }
  }

  /** Cancelling everything keeps evaluations from starting until something new is scheduled, if
      and only if no trigger task is queued and no timer has gone stale. */
  lemma CancelAllIsSilent(s: State)
    requires Invariant(s)
    ensures !CanStillTrigger(s) <==>
      forall events :: Quiet(events) && Possible(Cancelled(s), events) ==> !StartsLater(Cancelled(s), events)
  {
    if CanStillTrigger(s) {
      var events := LeftoverTriggers(s);
    } else {
      CancellingClearsRegisteredTimers(s);
      forall events | Quiet(events) && Possible(Cancelled(s), events) ensures !StartsLater(Cancelled(s), events) {
        NothingLeftStaysSilent(Cancelled(s), events);
      }
    }
  }

  /** Such states are reachable: a class rescheduled between the firing of its timer and the start
      of the task leaves a timer behind that cancelling does not reach. */
  lemma StaleTimersAreReachable()
    ensures var events := [Schedule(Motion, "a"), TimerFires(0), Schedule(Motion, "b"), TaskStarts(Motion)];
            Possible(INITIAL, events) && IsStale(After(INITIAL, events), 1)
  {
    var s1 := Next(INITIAL, Schedule(Motion, "a"));
    var s2 := Next(s1, TimerFires(0));
    var s3 := Next(s2, Schedule(Motion, "b"));
    var s4 := Next(s3, TaskStarts(Motion));
    var e3: seq<Event> := [TaskStarts(Motion)];
    var e2: seq<Event> := [Schedule(Motion, "b"), TaskStarts(Motion)];
    var e1: seq<Event> := [TimerFires(0), Schedule(Motion, "b"), TaskStarts(Motion)];
    var e0: seq<Event> := [Schedule(Motion, "a"), TimerFires(0), Schedule(Motion, "b"), TaskStarts(Motion)];
    assert e0[1..] == e1 && e1[1..] == e2 && e2[1..] == e3 && e3[1..] == [];
    assert Possible(s3, e3) && After(s3, e3) == s4;
    assert Possible(s2, e2) && After(s2, e2) == s4;
    assert Possible(s1, e1) && After(s1, e1) == s4;
  }

  // ----- an event loop that starts tasks at once

  /** Nothing but the start of the task comes between a timer and its trigger. */
  predicate StartsTasksAtOnce(s: State, events: seq<Event>)
    requires Possible(s, events)
    decreases |events|
  {
    events == [] ||
    ((s.queued == multiset{} || events[0].TaskStarts?) && StartsTasksAtOnce(Next(s, events[0]), events[1..]))
  }

  /** No stale timer, and at most one queued trigger, whose class has no newer timer. */
  ghost predicate IsPrompt(s: State) {
    && (forall t :: !IsStale(s, t))
    && |s.queued| <= 1
    && (forall c <- s.queued :: !HasLiveTimer(s, c))
  }

  lemma PromptStep(s: State, e: Event)
    requires Invariant(s) && IsPrompt(s) && Enabled(s, e)
    requires s.queued == multiset{} || e.TaskStarts?
    ensures IsPrompt(Next(s, e))
  {
    var s' := Next(s, e);
    forall t ensures !IsStale(s', t) {
      TimersGoStaleByLateTriggers(s, e, t);
    }
    if e.TimerFires? {
      assert !IsStale(s, e.t);
    } else if e.TaskStarts? {
      assert |s.queued - multiset{e.c}| == 0;
    }
  }

  /** If the event loop starts tasks at once, no timer ever goes stale. */
  lemma {:induction false} PromptRunsLeaveNoStaleTimer(s: State, events: seq<Event>)
    requires Invariant(s) && IsPrompt(s)
    requires Possible(s, events) && StartsTasksAtOnce(s, events)
    ensures IsPrompt(After(s, events))
    decreases |events|
  {
    if events != [] {
      InvariantIsKept(s, events[0]);
      PromptStep(s, events[0]);
      PromptRunsLeaveNoStaleTimer(Next(s, events[0]), events[1..]);
    }
  }
}

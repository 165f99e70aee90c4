/** The coordinator's scheduler methods, with the event loop they run on. Each method is one step of
    the protocol in `EvalProtocol`: its contract says so, and so every run of method calls keeps the
    protocol's invariant. */
module EvalScheduler {
  import opened EvalProtocol

  /** The event loop: timers that can still fire and trigger tasks that have been created. */
  class EventLoop {
    var timers: map<TimerId, EntityClass>
    var queued: multiset<EntityClass>
    var nextTimer: TimerId

    constructor ()
      ensures timers == map[] && queued == multiset{} && nextTimer == 0
    {
      timers, queued, nextTimer := map[], multiset{}, 0;
    }

    /** `async_call_later`: the result is the handle that cancels the call. */
    method CallLater(c: EntityClass) returns (handle: TimerId)
      modifies this`timers, this`nextTimer
      ensures handle == old(nextTimer) && nextTimer == old(nextTimer) + 1
      ensures timers == old(timers)[handle := c]
    {
      handle := nextTimer;
      timers := timers[handle := c];
      nextTimer := nextTimer + 1;
    }

    /** Calling a handle: without effect when the timer has already fired. */
    method CancelTimer(handle: TimerId)
      modifies this`timers
      ensures timers == old(timers) - {handle}
    {
      timers := timers - {handle};
    }

    method CreateTriggerTask(c: EntityClass)
      modifies this`queued
      ensures queued == old(queued) + multiset{c}
    {
      queued := queued + multiset{c};
    }
  }

  class Scheduler {
    const loop: EventLoop
    var debounceHandles: map<EntityClass, TimerId>
    var pendingEvalReasons: map<EntityClass, string>
    var evalPending: bool
    var evalRunning: bool
    ghost var inFlight: nat

    ghost function Snapshot(): State
      reads this, loop
    {
      State(debounceHandles, pendingEvalReasons, evalPending, evalRunning,
        loop.timers, loop.queued, inFlight, loop.nextTimer)
    }

    constructor ()
      ensures fresh(loop) && Snapshot() == INITIAL && Invariant(Snapshot())
    {
      loop := new EventLoop();
      debounceHandles, pendingEvalReasons := map[], map[];
      evalPending, evalRunning := false, false;
      inFlight := 0;
    }

    method ScheduleEval(c: EntityClass, reason: string)
      modifies this, loop
      ensures Snapshot() == Scheduled(old(Snapshot()), c, reason)
    {
      if c in debounceHandles {
        var handle := debounceHandles[c];
        debounceHandles := debounceHandles - {c};
        loop.CancelTimer(handle);
      }
      evalPending := true;
      pendingEvalReasons := pendingEvalReasons[c := reason];
      var handle := loop.CallLater(c);
      debounceHandles := debounceHandles[c := handle];
    }

    /** The event loop lets a timer fire: its callback creates the trigger task. */
    method FireTimer(t: TimerId)
      requires Invariant(Snapshot()) && Enabled(Snapshot(), TimerFires(t))
      modifies loop
      ensures Snapshot() == Next(old(Snapshot()), TimerFires(t)) && Invariant(Snapshot())
    {
      InvariantIsKept(Snapshot(), TimerFires(t));
      var c := loop.timers[t];
      loop.CancelTimer(t);
      loop.CreateTriggerTask(c);
    }

    /** `_trigger_eval` up to the point where it awaits the evaluation; `starts` tells whether it
        gets there, and then `evalReason` is what the evaluation is given. */
    method TriggerEval(c: EntityClass, reason: string) returns (starts: bool, evalReason: string)
      modifies this, loop
      ensures Snapshot() == Triggered(old(Snapshot()), c, reason)
      ensures starts <==> !old(evalRunning)
      ensures starts ==> evalRunning && inFlight == old(inFlight) + 1
      ensures evalReason == ReasonFor(old(Snapshot()), c, reason)
    {
      hide Scheduled, Name;
      ghost var before := Snapshot();
      debounceHandles := debounceHandles - {c};
      ghost var popped := Snapshot();
      assert popped == before.(handles := before.handles - {c});
      evalReason := reason;
      if evalReason == "" && c in pendingEvalReasons {
        evalReason := pendingEvalReasons[c];
      }
      if evalReason == "" {
        evalReason := Name(c);
      }
      if evalRunning {
        if c != PeriodicFallback {
          ScheduleEval(c, evalReason);
        }
        assert Snapshot() == if c == PeriodicFallback then popped else Scheduled(popped, c, evalReason);
        return false, evalReason;
      }
      pendingEvalReasons := pendingEvalReasons - {c};
      evalPending := pendingEvalReasons != map[];
      evalRunning := true;
      inFlight := inFlight + 1;
      return true, evalReason;
    }

    /** The event loop starts a trigger task. */
    method StartTask(c: EntityClass) returns (starts: bool, evalReason: string)
      requires Invariant(Snapshot()) && Enabled(Snapshot(), TaskStarts(c))
      modifies this, loop
      ensures Snapshot() == Next(old(Snapshot()), TaskStarts(c)) && Invariant(Snapshot())
      ensures starts <==> StartsEvaluation(old(Snapshot()), TaskStarts(c))
      ensures inFlight == old(inFlight) + if starts then 1 else 0
      ensures evalReason == ReasonFor(old(Snapshot()), c, "")
    {
      InvariantIsKept(Snapshot(), TaskStarts(c));
      loop.queued := loop.queued - multiset{c};
      starts, evalReason := TriggerEval(c, "");
    }

    /** The `finally` clause: the same whether the evaluation succeeded or raised. */
    method EndEvaluation()
      requires Invariant(Snapshot()) && Enabled(Snapshot(), EvaluationEnds)
      modifies this
      ensures Snapshot() == Next(old(Snapshot()), EvaluationEnds) && Invariant(Snapshot())
    {
      InvariantIsKept(Snapshot(), EvaluationEnds);
      evalRunning := false;
      inFlight := inFlight - 1;
    }

    method CancelEvalDebounceHandles()
      modifies this, loop
      ensures Snapshot() == Cancelled(old(Snapshot()))
    {
      var remaining := debounceHandles.Keys;
      ghost var called: set<TimerId> := {};
      while remaining != {}
        invariant remaining <= debounceHandles.Keys && debounceHandles == old(debounceHandles)
        invariant called == set c <- debounceHandles.Keys - remaining :: debounceHandles[c]
        invariant Snapshot() == old(Snapshot()).(timers := old(loop.timers) - called)
        decreases remaining
      {
        var c :| c in remaining;
        loop.CancelTimer(debounceHandles[c]);
        remaining := remaining - {c};
        called := called + {debounceHandles[c]};
      }
      assert called == debounceHandles.Values;
      debounceHandles := map[];
      pendingEvalReasons := map[];
      evalPending := false;
    }
  }
}

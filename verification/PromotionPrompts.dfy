/** What an explicit answer does to a review: when it is prompted, reminded of, revoked or left
    alone, said on the answers given and not on the tests in the order the program makes them. */
module PromotionPrompts {
  import opened Wrappers
  import opened Promotion
  import opened PromotionRuns

  /** An explicit answer about reaction `id`, and the answers with this one added. */
  predicate IsAnswer(l: Ledger, a: Action, id: ReactionId) {
    a.Record? && a.id == id && id in l.configured && IsExplicit(a.outcome)
  }

  function WithAnswer(h: seq<Answer>, a: Action): seq<Answer>
    requires a.Record?
  {
    h + [Answer(a.outcome, a.now)]
  }

  function Rules(l: Ledger, id: ReactionId, resolve: Resolver): PromotionRules
    requires id in l.configured
  {
    resolve(l.configured[id]).rules
  }

  /** A dismissed review may be prompted again. */
  ghost predicate MayReturn(l: Ledger, h: seq<Answer>, a: Action, id: ReactionId, resolve: Resolver)
    requires IsAnswer(l, a, id)
  {
    StatusAt(l, id) == Some(DismissedNotNow) ==>
      CooldownIsOver(Rules(l, id, resolve), l.reviews[id], LastN(WithAnswer(h, a), EVENT_LIMIT), a.checked)
  }

  lemma EligibleExactly(resolved: Resolved, review: Option<Review>, stats: Stats, h: seq<Answer>, checked: Time)
    requires Summarises(stats, h)
    ensures EligibilityOf(resolved, review, stats, checked) == Eligible <==>
      && HasEvidence(resolved, h)
      && (review.Some? && review.value.status == DismissedNotNow ==>
            CooldownIsOver(resolved.rules, review.value, stats.explicitEvents, checked))
  {
    hide CooldownDays, Rate, ApprovalDates;
    assert |DistinctDates(stats.approvedDates)| == |ApprovedDays(h)|;
  }

  /** The stored state behind an explicit answer. */
  lemma AnswerIsStored(l: Ledger, h: seq<Answer>, a: Action, id: ReactionId, resolve: Resolver)
    requires IsAnswer(l, a, id) && Summarises(StatsOf(l, id), h)
    ensures var stats, next := UpdatedStats(StatsOf(l, id), a.outcome, a.now), Next(l, a, resolve);
            && Summarises(stats, WithAnswer(h, a))
            && stats.explicitEvents == LastN(WithAnswer(h, a), EVENT_LIMIT)
            && Find(next.reviews, id) == UpdatedReview(resolve(l.configured[id]), Find(l.reviews, id), stats, a.now, a.checked)
  {
    hide UpdatedReview, UpdatedStats;
    ExplicitAnswerIsSummarised(StatsOf(l, id), h, a.outcome, a.now);
  }

  /** After an explicit answer a review is pending if and only if the answers are evidence enough, no
      final decision has been taken, and a dismissed review has served its cooldown. */
  lemma PromptedExactly(l: Ledger, h: seq<Answer>, a: Action, id: ReactionId, resolve: Resolver)
    requires IsAnswer(l, a, id) && Summarises(StatsOf(l, id), h)
    ensures StatusAt(Next(l, a, resolve), id) == Some(PendingAdminReview) <==>
      && HasEvidence(resolve(l.configured[id]), WithAnswer(h, a))
      && !IsFinal(StatusAt(l, id))
      && MayReturn(l, h, a, id, resolve)
  {
    hide EligibilityOf, HasEvidence, CooldownIsOver, UpdatedStats, Next, Summarises;
    var stats := UpdatedStats(StatsOf(l, id), a.outcome, a.now);
    AnswerIsStored(l, h, a, id, resolve);
    EligibleExactly(resolve(l.configured[id]), Find(l.reviews, id), stats, WithAnswer(h, a), a.checked);
  }

  function ReminderDays(rules: PromotionRules): nat {
    if rules.reminderIntervalDays < 1 then 1 else rules.reminderIntervalDays
  }

  /** A new or renewed prompt says when it was made and when to remind of it, and nothing else. */
  lemma NewPromptSays(l: Ledger, h: seq<Answer>, a: Action, id: ReactionId, resolve: Resolver)
    requires IsAnswer(l, a, id) && Summarises(StatsOf(l, id), h)
    requires StatusAt(l, id) != Some(PendingAdminReview) && StatusAt(Next(l, a, resolve), id) == Some(PendingAdminReview)
    ensures var review := Next(l, a, resolve).reviews[id];
            && review.firstPromptedAt == review.lastPromptedAt == Some(a.now)
            && review.nextReminderAfter == Some(a.now + ReminderDays(Rules(l, id, resolve)) * DAY) && !review.reminderDue
            && review.dismissCount == 0 && review.lastDismissedAt.None? && review.decidedAt.None? && review.failureReason.None?
  {
    hide EligibilityOf, Summarises, UpdatedStats, Next;
    AnswerIsStored(l, h, a, id, resolve);
  }

  /** A review that stays pending keeps its prompts; a reminder is due once the interval after the
      last prompt is over. */
  lemma PendingReviewIsRemindedOf(l: Ledger, h: seq<Answer>, a: Action, id: ReactionId, resolve: Resolver)
    requires IsAnswer(l, a, id) && Summarises(StatsOf(l, id), h)
    requires StatusAt(l, id) == StatusAt(Next(l, a, resolve), id) == Some(PendingAdminReview)
    ensures var before, review := l.reviews[id], Next(l, a, resolve).reviews[id];
            && (before.firstPromptedAt.Some? ==> review.firstPromptedAt == before.firstPromptedAt)
            && (before.lastPromptedAt.Some? ==>
                  && review.lastPromptedAt == before.lastPromptedAt
                  && (review.reminderDue <==> a.now >= before.lastPromptedAt.value + ReminderDays(Rules(l, id, resolve)) * DAY))
            && review.dismissCount == before.dismissCount && review.lastDismissedAt == before.lastDismissedAt
            && review.failureReason.None?
  {
    hide EligibilityOf, Summarises, UpdatedStats, Next;
    AnswerIsStored(l, h, a, id, resolve);
  }

  /** The first requirement that is not met. */
  ghost predicate IsReasonAgainst(reason: Reason, resolved: Resolved, h: seq<Answer>) {
    var rules := resolved.rules;
    match reason
    case UnresolvedPolicyRef => !resolved.valid
    case NotAskResidents => resolved.valid && resolved.mode == AutoApply
    case PromotionDisabled => resolved.valid && resolved.mode == AskResidents && !rules.enabled
    case InsufficientSamples => resolved.valid && resolved.mode == AskResidents && rules.enabled && |h| < rules.minSamples
    case ApprovalRateBelowThreshold =>
      && resolved.valid && resolved.mode == AskResidents && rules.enabled && |h| >= rules.minSamples
      && Rate(CountOf(h, Approved), |h|) < rules.minApprovalRate
    case InsufficientDistinctDays =>
      && resolved.valid && resolved.mode == AskResidents && rules.enabled && |h| >= rules.minSamples
      && Rate(CountOf(h, Approved), |h|) >= rules.minApprovalRate && |ApprovedDays(h)| < rules.minDistinctDays
    case _ => false
  }

  /** A pending review is revoked exactly when the evidence is gone, for the first reason there is;
      every other review that is not prompted stays as it is. */
  lemma RevokedExactly(l: Ledger, h: seq<Answer>, a: Action, id: ReactionId, resolve: Resolver)
    requires IsAnswer(l, a, id) && Summarises(StatsOf(l, id), h)
    ensures var before, after := Find(l.reviews, id), Find(Next(l, a, resolve).reviews, id);
            StatusAt(Next(l, a, resolve), id) != Some(PendingAdminReview) ==>
              if StatusAt(l, id) == Some(PendingAdminReview) then
                && StatusAt(Next(l, a, resolve), id) == Some(Revoked)
                && after.value.decidedAt == Some(a.now)
                && after.value.failureReason.Some?
                && IsReasonAgainst(after.value.failureReason.value, resolve(l.configured[id]), WithAnswer(h, a))
              else after == before
  {
    hide UpdatedStats, Next, Rate, CooldownSatisfied, ApprovalDates;
    var stats := UpdatedStats(StatsOf(l, id), a.outcome, a.now);
    AnswerIsStored(l, h, a, id, resolve);
    assert |DistinctDates(stats.approvedDates)| == |ApprovedDays(WithAnswer(h, a))|;
    OnlyDismissedReviewsCool(Rules(l, id, resolve), Find(l.reviews, id), stats, a.checked);
  }

  lemma OnlyDismissedReviewsCool(rules: PromotionRules, review: Option<Review>, stats: Stats, checked: Time)
    ensures review.Some? && review.value.status != DismissedNotNow ==>
      CooldownSatisfied(rules, review, stats, checked) == Eligible
  {}

  /** From an empty start, at any moment of any run: the next explicit answer leaves the review pending
      exactly when the answers since the last reset say so. */
  lemma PromptedExactlyInRuns(configured: map<ReactionId, Config>, actions: seq<Action>, a: Action, id: ReactionId, resolve: Resolver)
    requires var l := After(Ledger(configured, map[], map[]), actions, resolve); IsAnswer(l, a, id)
    ensures var start := Ledger(configured, map[], map[]);
            var l, h := After(start, actions, resolve), AnswersOf(HistoryAfter(start, map[], actions, resolve), id);
            StatusAt(Next(l, a, resolve), id) == Some(PendingAdminReview) <==>
              && HasEvidence(resolve(l.configured[id]), WithAnswer(h, a))
              && !IsFinal(StatusAt(l, id))
              && MayReturn(l, h, a, id, resolve)
  {
    hide HasEvidence, Next, MayReturn, After, HistoryAfter, Summarises, ReviewIsSound;
    var start := Ledger(configured, map[], map[]);
    assert IsSoundAt(start, map[], id, resolve) by { NothingIsSound(configured, id, resolve); }
    RunIsSound(start, map[], actions, resolve, id);
    var l, h := After(start, actions, resolve), HistoryAfter(start, map[], actions, resolve);
    assert Summarises(StatsOf(l, id), AnswersOf(h, id));
    PromptedExactly(l, AnswersOf(h, id), a, id, resolve);
  }

  lemma NothingIsSound(configured: map<ReactionId, Config>, id: ReactionId, resolve: Resolver)
    ensures IsSoundAt(Ledger(configured, map[], map[]), map[], id, resolve)
  {}

  // ----- what the counts and the schedule mean

  /** The positions of the answers of one kind that came after a moment. */
  ghost function LaterAnswers(events: seq<Answer>, threshold: Time, outcome: Status): set<nat> {
    set i: nat | i < |events| && events[i].outcome == outcome && events[i].ts > threshold
  }

  lemma LaterAnswersOneMore(events: seq<Answer>, last: Answer, threshold: Time, outcome: Status)
    ensures |LaterAnswers(events + [last], threshold, outcome)|
         == |LaterAnswers(events, threshold, outcome)| + if last.outcome == outcome && last.ts > threshold then 1 else 0
  {
    var all := events + [last];
    var before, after := LaterAnswers(events, threshold, outcome), LaterAnswers(all, threshold, outcome);
    assert |events| !in before && all[|events|] == last;
    assert forall i :: 0 <= i < |events| ==> all[i] == events[i];
    assert after == before + if last.outcome == outcome && last.ts > threshold then {|events|} else {};
  }

  lemma {:induction false} CountAfterOneMore(events: seq<Answer>, last: Answer, threshold: Time, outcome: Status)
    ensures CountOf(AnswersAfter(events + [last], threshold), outcome)
         == CountOf(AnswersAfter(events, threshold), outcome) + if last.outcome == outcome && last.ts > threshold then 1 else 0
  {
    var all := events + [last];
    if events == [] {
      assert all == [last];
      assert CountOf(AnswersAfter([], threshold), outcome) == 0;
      assert all[1..] == [];
    } else {
      CountAfterOneMore(events[1..], last, threshold, outcome);
      assert all[1..] == events[1..] + [last];
      var first := if events[0].ts > threshold then [events[0]] else [];
      CountJoins(first, AnswersAfter(all[1..], threshold), outcome);
      CountJoins(first, AnswersAfter(events[1..], threshold), outcome);
    }
  }

  lemma CountJoins(first: seq<Answer>, others: seq<Answer>, outcome: Status)
    requires |first| <= 1
    ensures CountOf(first + others, outcome) == CountOf(first, outcome) + CountOf(others, outcome)
  {
    if first == [] {
      assert first + others == others;
    } else {
      assert (first + others)[1..] == others;
      assert CountOf(first[1..], outcome) == 0;
    }
  }

  /** The approvals and dismissals after a moment are counted one by one, strictly after it. */
  lemma {:induction false} LaterAnswersAreCounted(events: seq<Answer>, threshold: Time, outcome: Status)
    ensures CountOf(AnswersAfter(events, threshold), outcome) == |LaterAnswers(events, threshold, outcome)|
  {
    if events == [] {
      assert LaterAnswers(events, threshold, outcome) == {};
    } else {
      var init, last := events[..|events| - 1], events[|events| - 1];
      assert events == init + [last];
      LaterAnswersAreCounted(init, threshold, outcome);
      LaterAnswersOneMore(init, last, threshold, outcome);
      CountAfterOneMore(init, last, threshold, outcome);
    }
  }

  lemma RateIsAFraction(approved: nat, all: nat)
    requires approved <= all
    ensures 0.0 <= Rate(approved, all) <= 1.0
    ensures all > 0 ==> Rate(approved, all) * all as real == approved as real
  {}

  lemma {:induction false} PositiveDaysAre(raw: seq<int>)
    ensures forall d :: d in PositiveDays(raw) <==> d in raw && d > 0
  {
    if raw != [] {
      PositiveDaysAre(raw[1..]);
      assert forall d :: d in raw <==> d == raw[0] || d in raw[1..];
    }
  }

  /** The n-th dismissal is given the n-th entry of the schedule, and the last one when there are fewer. */
  lemma CooldownEntries(rules: PromotionRules, n: nat)
    requires n > 0
    ensures var schedule := CooldownSchedule(rules);
            CooldownDays(rules, n) == if n <= |schedule| then schedule[n - 1] else schedule[|schedule| - 1]
  {}

  // ----- counters and decisions

  /** How many outcomes of one kind were recorded for a reaction since its last reset. */
  function NextRecorded(l: Ledger, a: Action, id: ReactionId, outcome: Status, n: nat): nat {
    match a
    case Record(r, o, _, _) => if r == id && o == outcome && id in l.configured then n + 1 else n
    case Decide(_, _, _) => n
    case Reset(r) => if r == id then 0 else n
  }

  function RecordedAfter(l: Ledger, actions: seq<Action>, resolve: Resolver, id: ReactionId, outcome: Status, n: nat): nat
    decreases |actions|
  {
    if actions == [] then n
    else RecordedAfter(Next(l, actions[0], resolve), actions[1..], resolve, id, outcome, NextRecorded(l, actions[0], id, outcome, n))
  }

  lemma StepCounts(l: Ledger, a: Action, resolve: Resolver, id: ReactionId, outcome: Status)
    requires IsCounted(outcome)
    ensures StatsOf(Next(l, a, resolve), id).Count(outcome) == NextRecorded(l, a, id, outcome, StatsOf(l, id).Count(outcome))
  {
    hide UpdatedReview, LastN;
  }

  /** Every counter counts its own outcomes, one by one, over every run: requests, timeouts and
      failures as well as answers. */
  lemma {:induction false} CountersCount(l: Ledger, actions: seq<Action>, resolve: Resolver, id: ReactionId, outcome: Status)
    requires IsCounted(outcome)
    ensures StatsOf(After(l, actions, resolve), id).Count(outcome)
         == RecordedAfter(l, actions, resolve, id, outcome, StatsOf(l, id).Count(outcome))
    decreases |actions|
  {
    hide Next, StatsOf;
    if actions != [] {
      StepCounts(l, actions[0], resolve, id, outcome);
      CountersCount(Next(l, actions[0], resolve), actions[1..], resolve, id, outcome);
    }
  }

  /** A recorded outcome leaves its time, and the first request its own; the other times stay. */
  lemma RecordingLeavesTimes(l: Ledger, a: Action, resolve: Resolver, id: ReactionId)
    requires a.Record? && a.id == id && id in l.configured && IsCounted(a.outcome)
    ensures var before, after := StatsOf(l, id), StatsOf(Next(l, a, resolve), id);
            && Find(after.lastAt, a.outcome) == Some(a.now)
            && (forall o :: o != a.outcome ==> Find(after.lastAt, o) == Find(before.lastAt, o))
            && after.firstRequestedAt ==
                 if a.outcome == Requested && before.firstRequestedAt.None? then Some(a.now) else before.firstRequestedAt
  {
    hide UpdatedReview, LastN;
  }

  /** A decision on a pending review writes the policy in force and the review, and nothing else:
      approving sets the mode, dismissing the review alone, disabling the prompts. */
  lemma DecisionWrites(l: Ledger, id: ReactionId, decision: Decision, now: Time, resolve: Resolver)
    requires IsDecidable(l, id)
    ensures var l' := Next(l, Decide(id, decision, now), resolve);
            var cfg, cfg', before, after := l.configured[id], l'.configured[id], l.reviews[id], l'.reviews[id];
            && l'.stats == l.stats
            && cfg'.profile == cfg.profile && cfg'.other == cfg.other && cfg'.Block().other == cfg.Block().other
            && (if cfg.profile != "" then cfg'.policy == cfg.policy else cfg'.override == cfg.override)
            && (decision == ApproveAutoApply ==>
                  && cfg'.Block().mode == Some(AutoApply) && cfg'.Block().promotedAt == Some(now)
                  && cfg'.Block().promptsDisabledAt == cfg.Block().promptsDisabledAt
                  && after.status == ReviewApproved && after.decidedAt == Some(now) && after.dismissCount == before.dismissCount)
            && (decision == DismissForNow ==>
                  && cfg' == cfg
                  && after.status == DismissedNotNow && after.lastDismissedAt == Some(now)
                  && after.dismissCount == before.dismissCount + 1 && after.nextReminderAfter.None? && !after.reminderDue)
            && (decision == DisablePrompts ==>
                  && cfg'.Block().promptsDisabledAt == Some(now) && cfg'.Block().mode == cfg.Block().mode
                  && cfg'.Block().promotedAt == cfg.Block().promotedAt
                  && after.status == DisabledFuturePrompts && after.decidedAt == Some(now)
                  && after.dismissCount == before.dismissCount)
  {}

  /** A reset leaves no trace of the reaction but its configuration. */
  lemma ResetForgetsAll(l: Ledger, id: ReactionId, resolve: Resolver)
    ensures var l' := Next(l, Reset(id), resolve);
            StatsOf(l', id) == NO_STATS && id !in l'.stats && id !in l'.reviews && l'.configured == l.configured
  {}

  /** A cancelled request, and any outcome for a reaction that is not configured, changes nothing; an
      outcome that is no answer leaves the reviews alone. */
  lemma IgnoredOutcomes(l: Ledger, a: Action, resolve: Resolver)
    requires a.Record?
    ensures a.outcome == Cancelled || a.id !in l.configured ==> Next(l, a, resolve) == l
    ensures a.outcome != Approved && a.outcome != Dismissed ==> Next(l, a, resolve).reviews == l.reviews
    ensures Next(l, a, resolve).configured == l.configured
  {
    hide UpdatedReview, UpdatedStats;
  }

  /** The log holds the last two hundred answers, or all of them. */
  lemma LogHoldsTheLastAnswers(stats: Stats, h: seq<Answer>)
    requires Summarises(stats, h)
    ensures |stats.explicitEvents| == (if |h| < 200 then |h| else 200) && stats.explicitEvents == h[|h| - |stats.explicitEvents|..]
  {}
}

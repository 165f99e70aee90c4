/** What holds over every run of recorded answers, admin decisions and resets. */
module PromotionRuns {
  import opened Wrappers
  import opened Promotion

  function After(l: Ledger, actions: seq<Action>, resolve: Resolver): Ledger
    decreases |actions|
  {
    if actions == [] then l else After(Next(l, actions[0], resolve), actions[1..], resolve)
  }

  // ----- the answers behind the statistics

  type History = map<ReactionId, seq<Answer>>

  function AnswersOf(h: History, id: ReactionId): seq<Answer> {
    if id in h then h[id] else []
  }

  /** Every explicit answer given for a configured reaction since its last reset. */
  function NextHistory(l: Ledger, h: History, a: Action): History {
    match a
    case Record(id, outcome, now, _) =>
      if id in l.configured && IsExplicit(outcome) then h[id := AnswersOf(h, id) + [Answer(outcome, now)]] else h
    case Decide(_, _, _) => h
    case Reset(id) => h - {id}
  }

  function HistoryAfter(l: Ledger, h: History, actions: seq<Action>, resolve: Resolver): History
    decreases |actions|
  {
    if actions == [] then h
    else HistoryAfter(Next(l, actions[0], resolve), NextHistory(l, h, actions[0]), actions[1..], resolve)
  }

  /** The UTC dates on which residents approved. */
  ghost function ApprovedDays(h: seq<Answer>): set<nat> {
    set a | a in h && a.outcome == Approved :: DateOf(a.ts)
  }

  lemma ApprovedDaysOneMore(h: seq<Answer>, last: Answer)
    ensures ApprovedDays(h + [last]) == ApprovedDays(h) + if last.outcome == Approved then {DateOf(last.ts)} else {}
  {
    forall a | a in h ensures a in h + [last] {}
    assert last in h + [last];
  }

  /** The dates of the approvals, each once, in the order in which they first occur. */
  function ApprovalDates(h: seq<Answer>): (dates: seq<nat>)
    ensures DistinctDates(dates) == ApprovedDays(h)
    ensures forall i, j :: 0 <= i < j < |dates| ==> dates[i] != dates[j]
    ensures |dates| <= CountOf(h, Approved)
  {
    if h == [] then []
    else
      var init, last := h[..|h| - 1], h[|h| - 1];
      assert h == init + [last];
      CountOneMore(init, last, Approved);
      ApprovedDaysOneMore(init, last);
      var dates := ApprovalDates(init);
      if last.outcome == Approved && DateOf(last.ts) !in dates then dates + [DateOf(last.ts)] else dates
  }

  lemma {:induction false} CountOneMore(h: seq<Answer>, last: Answer, outcome: Status)
    ensures CountOf(h + [last], outcome) == CountOf(h, outcome) + if last.outcome == outcome then 1 else 0
  {
    if h == [] {
      assert h + [last] == [last];
    } else {
      CountOneMore(h[1..], last, outcome);
      assert (h + [last])[1..] == h[1..] + [last];
    }
  }

  ghost predicate Summarises(stats: Stats, h: seq<Answer>) {
    && stats.Count(Approved) == CountOf(h, Approved)
    && stats.Count(Dismissed) == CountOf(h, Dismissed)
    && CountOf(h, Approved) + CountOf(h, Dismissed) == |h|
    && stats.approvedDates == ApprovalDates(h)
    && stats.explicitEvents == LastN(h, EVENT_LIMIT)
  }

  lemma ExplicitAnswerIsSummarised(stats: Stats, h: seq<Answer>, outcome: Status, now: Time)
    requires Summarises(stats, h) && IsExplicit(outcome)
    ensures Summarises(UpdatedStats(stats, outcome, now), h + [Answer(outcome, now)])
  {
    var last := Answer(outcome, now);
    var all := h + [last];
    CountOneMore(h, last, Approved);
    CountOneMore(h, last, Dismissed);
    assert all[..|all| - 1] == h;
    assert LastN(LastN(h, EVENT_LIMIT) + [last], EVENT_LIMIT) == LastN(all, EVENT_LIMIT);
  }

  lemma OtherOutcomesChangeNoEvidence(stats: Stats, h: seq<Answer>, outcome: Status, now: Time)
    requires Summarises(stats, h) && !IsExplicit(outcome)
    ensures Summarises(UpdatedStats(stats, outcome, now), h)
  {}

  // ----- what a pending review is backed by

  /** The answers themselves meet the thresholds of the policy in force. */
  ghost predicate HasEvidence(resolved: Resolved, h: seq<Answer>) {
    var rules := resolved.rules;
    && resolved.valid && resolved.mode == AskResidents && rules.enabled
    && |h| >= rules.minSamples
    && Rate(CountOf(h, Approved), |h|) >= rules.minApprovalRate
    && |ApprovedDays(h)| >= rules.minDistinctDays
  }

  ghost predicate ReviewIsSound(cfg: Config, review: Review, h: seq<Answer>, resolve: Resolver) {
    match review.status
    case PendingAdminReview => review.dismissCount == 0 && HasEvidence(resolve(cfg), h) && HasReminder(review, resolve(cfg).rules)
    case ReviewApproved => review.dismissCount == 0 && cfg.Block().mode == Some(AutoApply)
    case DismissedNotNow => review.dismissCount == 1 && review.lastDismissedAt.Some?
    case DisabledFuturePrompts => review.dismissCount == 0 && cfg.Block().promptsDisabledAt.Some?
    case Revoked => review.dismissCount == 0
  }

  predicate HasReminder(review: Review, rules: PromotionRules) {
    && review.lastPromptedAt.Some?
    && review.nextReminderAfter ==
         Some(review.lastPromptedAt.value + (if rules.reminderIntervalDays < 1 then 1 else rules.reminderIntervalDays) * DAY)
  }

  ghost predicate IsSoundAt(l: Ledger, h: History, id: ReactionId, resolve: Resolver) {
    && Summarises(StatsOf(l, id), AnswersOf(h, id))
    && (id in l.reviews ==>
          id in l.configured && ReviewIsSound(l.configured[id], l.reviews[id], AnswersOf(h, id), resolve))
  }

  lemma EligibleMeansEvidence(resolved: Resolved, review: Option<Review>, stats: Stats, h: seq<Answer>, now: Time)
    requires Summarises(stats, h) && EligibilityOf(resolved, review, stats, now) == Eligible
    ensures HasEvidence(resolved, h)
  {}

  lemma UpdatedReviewIsSound(cfg: Config, review: Option<Review>, stats: Stats, before: seq<Answer>, h: seq<Answer>,
                             now: Time, checked: Time, resolve: Resolver)
    requires Summarises(stats, h)
    requires review.Some? ==> ReviewIsSound(cfg, review.value, before, resolve)
    ensures var updated := UpdatedReview(resolve(cfg), review, stats, now, checked);
            updated.Some? ==> ReviewIsSound(cfg, updated.value, h, resolve)
  {
    hide EligibilityOf, HasEvidence, Summarises;
    if EligibilityOf(resolve(cfg), review, stats, checked) == Eligible {
      EligibleMeansEvidence(resolve(cfg), review, stats, h, checked);
    }
  }

  lemma RecordingIsSound(l: Ledger, h: History, a: Action, resolve: Resolver)
    requires a.Record? && IsSoundAt(l, h, a.id, resolve)
    ensures IsSoundAt(Next(l, a, resolve), NextHistory(l, h, a), a.id, resolve)
  {
    hide UpdatedStats, UpdatedReview, Summarises, ReviewIsSound;
    if a.id in l.configured && IsCounted(a.outcome) {
      var stats, answers := StatsOf(l, a.id), AnswersOf(h, a.id);
      if IsExplicit(a.outcome) {
        ExplicitAnswerIsSummarised(stats, answers, a.outcome, a.now);
        UpdatedReviewIsSound(l.configured[a.id], Find(l.reviews, a.id), UpdatedStats(stats, a.outcome, a.now),
          answers, answers + [Answer(a.outcome, a.now)], a.now, a.checked, resolve);
      } else {
        OtherOutcomesChangeNoEvidence(stats, answers, a.outcome, a.now);
      }
    }
  }

  /** Nothing an action does to one reaction is seen at another. */
  lemma OtherReactionsAreUntouched(l: Ledger, h: History, a: Action, resolve: Resolver, id: ReactionId)
    requires id != a.id
    ensures var l' := Next(l, a, resolve);
            && Find(l'.configured, id) == Find(l.configured, id)
            && Find(l'.stats, id) == Find(l.stats, id)
            && Find(l'.reviews, id) == Find(l.reviews, id)
            && AnswersOf(NextHistory(l, h, a), id) == AnswersOf(h, id)
  {}

  lemma StepIsSound(l: Ledger, h: History, a: Action, resolve: Resolver, id: ReactionId)
    requires IsSoundAt(l, h, id, resolve)
    ensures IsSoundAt(Next(l, a, resolve), NextHistory(l, h, a), id, resolve)
  {
    if a.id != id {
      OtherReactionsAreUntouched(l, h, a, resolve, id);
    } else if a.Record? {
      RecordingIsSound(l, h, a, resolve);
    }
  }

  lemma {:induction false} RunIsSound(l: Ledger, h: History, actions: seq<Action>, resolve: Resolver, id: ReactionId)
    requires IsSoundAt(l, h, id, resolve)
    ensures IsSoundAt(After(l, actions, resolve), HistoryAfter(l, h, actions, resolve), id, resolve)
    decreases |actions|
  {
    if actions != [] {
      StepIsSound(l, h, actions[0], resolve, id);
      RunIsSound(Next(l, actions[0], resolve), NextHistory(l, h, actions[0]), actions[1..], resolve, id);
    }
  }

  /** From an empty start, whatever happens: the statistics are exactly what the answers since the
      last reset give, and a review that is pending is backed by answers that meet the policy. */
  lemma EveryPendingReviewIsBacked(configured: map<ReactionId, Config>, actions: seq<Action>, resolve: Resolver, id: ReactionId)
    ensures var start := Ledger(configured, map[], map[]);
            var l, h := After(start, actions, resolve), AnswersOf(HistoryAfter(start, map[], actions, resolve), id);
            && Summarises(StatsOf(l, id), h)
            && (id in l.reviews && l.reviews[id].status == PendingAdminReview ==>
                  id in l.configured && HasEvidence(resolve(l.configured[id]), h))
  {
    RunIsSound(Ledger(configured, map[], map[]), map[], actions, resolve, id);
  }

  /** The cooldown schedule is meant to progress with repeated dismissals, but a renewed prompt
      starts from a fresh record: in every reachable state the count is one, and every dismissal is
      held for the first entry of the schedule only. */
  lemma CooldownNeverProgresses(configured: map<ReactionId, Config>, actions: seq<Action>, resolve: Resolver,
                                id: ReactionId, rules: PromotionRules)
    requires var l := After(Ledger(configured, map[], map[]), actions, resolve);
             id in l.reviews && l.reviews[id].status == DismissedNotNow
    ensures var review := After(Ledger(configured, map[], map[]), actions, resolve).reviews[id];
            review.dismissCount == 1 && CooldownDays(rules, review.dismissCount) == CooldownSchedule(rules)[0]
  {
    RunIsSound(Ledger(configured, map[], map[]), map[], actions, resolve, id);
  }

  // ----- how reviews move

  function StatusAt(l: Ledger, id: ReactionId): Option<ReviewStatus> {
    if id in l.reviews then Some(l.reviews[id].status) else None
  }

  /** The moves the program knows. */
  predicate MayMove(from: Option<ReviewStatus>, to: Option<ReviewStatus>, a: Action) {
    match a
    case Record(_, outcome, _, _) =>
      IsExplicit(outcome) &&
      if from == Some(PendingAdminReview) then to == Some(Revoked)
      else to == Some(PendingAdminReview) && from in {None, Some(DismissedNotNow), Some(Revoked)}
    case Decide(_, decision, _) =>
      from == Some(PendingAdminReview) &&
      to == Some(match decision
                 case ApproveAutoApply => ReviewApproved
                 case DismissForNow => DismissedNotNow
                 case DisablePrompts => DisabledFuturePrompts)
    case Reset(_) => to.None?
  }

  lemma ReviewsMoveAsCoded(l: Ledger, a: Action, resolve: Resolver, id: ReactionId)
    ensures var from, to := StatusAt(l, id), StatusAt(Next(l, a, resolve), id);
            from != to ==> a.id == id && MayMove(from, to, a)
  {}

  predicate NeverReset(actions: seq<Action>, id: ReactionId) {
    Reset(id) !in actions
  }

  predicate IsFinal(status: Option<ReviewStatus>) {
    status == Some(ReviewApproved) || status == Some(DisabledFuturePrompts)
  }

  lemma FinalReviewStep(l: Ledger, a: Action, resolve: Resolver, id: ReactionId)
    requires IsFinal(StatusAt(l, id)) && a != Reset(id)
    ensures Find(Next(l, a, resolve).reviews, id) == Find(l.reviews, id)
    ensures Find(Next(l, a, resolve).configured, id) == Find(l.configured, id)
  {
    hide EligibilityOf, WithReminder, UpdatedStats;
  }

  /** An approved or permanently disabled review is final, together with the policy it wrote. */
  lemma {:induction false} FinalReviewsStay(l: Ledger, actions: seq<Action>, resolve: Resolver, id: ReactionId)
    requires IsFinal(StatusAt(l, id)) && NeverReset(actions, id)
    ensures Find(After(l, actions, resolve).reviews, id) == Find(l.reviews, id)
    ensures Find(After(l, actions, resolve).configured, id) == Find(l.configured, id)
    decreases |actions|
  {
    hide Next;
    if actions != [] {
      assert actions[0] in actions;
      FinalReviewStep(l, actions[0], resolve, id);
      FinalReviewsStay(Next(l, actions[0], resolve), actions[1..], resolve, id);
    }
  }

  // ----- dismissals

  /** The cooldown of a dismissed review is over at time `checked`, and among the remembered
      `answers` enough approvals, at the required rate, came after the dismissal. */
  ghost predicate CooldownIsOver(rules: PromotionRules, review: Review, answers: seq<Answer>, checked: Time) {
    && review.lastDismissedAt.Some?
    && checked >= review.lastDismissedAt.value + CooldownDays(rules, review.dismissCount) * DAY
    && var later := AnswersAfter(answers, review.lastDismissedAt.value);
       && CountOf(later, Approved) >= rules.minNewApprovals
       && Rate(CountOf(later, Approved), CountOf(later, Approved) + CountOf(later, Dismissed)) >= rules.minApprovalRate
  }

  /** Record `a` reopens the dismissed review of `id`. */
  ghost predicate Reopens(l: Ledger, a: Action, id: ReactionId, resolve: Resolver)
    requires id in l.reviews
  {
    && a.Record? && a.id == id && IsExplicit(a.outcome) && id in l.configured
    && CooldownIsOver(resolve(l.configured[id]).rules, l.reviews[id],
         LastN(StatsOf(l, id).explicitEvents + [Answer(a.outcome, a.now)], EVENT_LIMIT), a.checked)
  }

  lemma DismissedStaysUnlessEligible(resolved: Resolved, review: Review, stats: Stats, now: Time, checked: Time)
    requires review.status == DismissedNotNow
    ensures UpdatedReview(resolved, Some(review), stats, now, checked) == Some(review)
         || CooldownIsOver(resolved.rules, review, stats.explicitEvents, checked)
  {
    hide CooldownDays, Rate;
  }

  lemma DismissedReviewStep(l: Ledger, a: Action, resolve: Resolver, id: ReactionId)
    requires StatusAt(l, id) == Some(DismissedNotNow)
    ensures Find(Next(l, a, resolve).reviews, id) == Find(l.reviews, id) || a == Reset(id) || Reopens(l, a, id, resolve)
  {
    hide UpdatedReview, CooldownIsOver;
    if a.Record? && a.id == id && id in l.configured && IsExplicit(a.outcome) {
      var stats := UpdatedStats(StatsOf(l, id), a.outcome, a.now);
      DismissedStaysUnlessEligible(resolve(l.configured[id]), l.reviews[id], stats, a.now, a.checked);
    }
  }

  /** Action number `i` is the one that ends the dismissal. */
  ghost predicate EndsDismissalAt(l: Ledger, actions: seq<Action>, i: nat, resolve: Resolver, id: ReactionId) {
    && i < |actions|
    && var before := After(l, actions[..i], resolve);
       && id in before.reviews && Find(before.reviews, id) == Find(l.reviews, id)
       && (actions[i] == Reset(id) || Reopens(before, actions[i], id, resolve))
  }

  /** Over any run a dismissed review stays as it is until its first reset or until an answer comes
      after the cooldown, with the required approvals since the dismissal. */
  lemma {:induction false} DismissalHolds(l: Ledger, actions: seq<Action>, resolve: Resolver, id: ReactionId)
    requires StatusAt(l, id) == Some(DismissedNotNow)
    ensures Find(After(l, actions, resolve).reviews, id) == Find(l.reviews, id)
         || exists i: nat :: EndsDismissalAt(l, actions, i, resolve, id)
    decreases |actions|
  {
    if actions != [] {
      var next := Next(l, actions[0], resolve);
      DismissedReviewStep(l, actions[0], resolve, id);
      if Find(next.reviews, id) == Find(l.reviews, id) {
        DismissalHolds(next, actions[1..], resolve, id);
        if i: nat :| EndsDismissalAt(next, actions[1..], i, resolve, id) {
          assert actions[..i + 1][1..] == actions[1..][..i];
          assert After(l, actions[..i + 1], resolve) == After(next, actions[1..][..i], resolve);
          assert EndsDismissalAt(l, actions, i + 1, resolve, id);
        }
      } else {
        assert After(l, actions[..0], resolve) == l;
        assert EndsDismissalAt(l, actions, 0, resolve, id);
      }
    }
  }

  lemma {:induction false} LaterAnswersOfASuffix(h: seq<Answer>, n: nat, threshold: Time, outcome: Status)
    ensures CountOf(AnswersAfter(LastN(h, n), threshold), outcome) <= CountOf(AnswersAfter(h, threshold), outcome)
  {
    if |h| > n {
      LaterAnswersOfASuffix(h[1..], n, threshold, outcome);
      assert LastN(h[1..], n) == LastN(h, n);
      var first := if h[0].ts > threshold then [h[0]] else [];
      assert first != [] ==> (first + AnswersAfter(h[1..], threshold))[1..] == AnswersAfter(h[1..], threshold);
      assert first == [] ==> first + AnswersAfter(h[1..], threshold) == AnswersAfter(h[1..], threshold);
    }
  }

  /** In a reachable state the approvals that reopen a dismissed review were really given: residents
      approved at least the required number of times after the dismissal. */
  lemma ReopeningNeedsNewApprovals(l: Ledger, h: History, a: Action, resolve: Resolver, id: ReactionId)
    requires IsSoundAt(l, h, id, resolve) && id in l.reviews && Reopens(l, a, id, resolve)
    ensures CountOf(AnswersAfter(AnswersOf(NextHistory(l, h, a), id), l.reviews[id].lastDismissedAt.value), Approved)
         >= resolve(l.configured[id]).rules.minNewApprovals
  {
    var last := Answer(a.outcome, a.now);
    var answers := AnswersOf(h, id);
    assert LastN(LastN(answers, EVENT_LIMIT) + [last], EVENT_LIMIT) == LastN(answers + [last], EVENT_LIMIT);
    LaterAnswersOfASuffix(answers + [last], EVENT_LIMIT, l.reviews[id].lastDismissedAt.value, Approved);
  }
}

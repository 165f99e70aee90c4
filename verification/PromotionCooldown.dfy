/** The cooldown after "not now": documented to grow with every dismissal, but counted anew with
    every prompt. */
module PromotionCooldown {
  import opened Wrappers
  import opened Promotion
  import opened PromotionRuns

  /** How often an admin has dismissed reviews of reaction `id` since its last reset. */
  function NextDismissals(l: Ledger, a: Action, id: ReactionId, dismissals: nat): nat {
    if a.id != id then dismissals
    else match a
      case Record(_, _, _, _) => dismissals
      case Decide(_, decision, _) => if decision == DismissForNow && IsDecidable(l, id) then dismissals + 1 else dismissals
      case Reset(_) => 0
  }

  function DismissalsAfter(l: Ledger, actions: seq<Action>, resolve: Resolver, id: ReactionId, dismissals: nat): nat
    decreases |actions|
  {
    if actions == [] then dismissals
    else DismissalsAfter(Next(l, actions[0], resolve), actions[1..], resolve, id, NextDismissals(l, actions[0], id, dismissals))
  }

  predicate IsDismissed(l: Ledger, id: ReactionId) {
    StatusAt(l, id) == Some(DismissedNotNow)
  }

  lemma {:induction false} DismissedMeansCounted(l: Ledger, actions: seq<Action>, resolve: Resolver, id: ReactionId, dismissals: nat)
    requires IsDismissed(l, id) ==> dismissals > 0
    requires IsDismissed(After(l, actions, resolve), id)
    ensures DismissalsAfter(l, actions, resolve, id, dismissals) > 0
    decreases |actions|
  {
    hide Next;
    if actions != [] {
      var a := actions[0];
      ReviewsMoveAsCoded(l, a, resolve, id);
      assert a.id == id && a.Decide? && !IsDecidable(l, id) ==> Next(l, a, resolve) == l by { UndecidableChangesNothing(l, a, resolve); }
      assert a == Reset(id) ==> !IsDismissed(Next(l, a, resolve), id) by { ResetForgets(l, resolve, id); }
      DismissedMeansCounted(Next(l, a, resolve), actions[1..], resolve, id, NextDismissals(l, a, id, dismissals));
    }
  }

  lemma UndecidableChangesNothing(l: Ledger, a: Action, resolve: Resolver)
    ensures a.Decide? && !IsDecidable(l, a.id) ==> Next(l, a, resolve) == l
  {}

  lemma ResetForgets(l: Ledger, resolve: Resolver, id: ReactionId)
    ensures StatusAt(Next(l, Reset(id), resolve), id).None?
  {}

  predicate IsIncreasing(schedule: seq<int>) {
    |schedule| >= 2 && forall i, j :: 0 <= i < j < |schedule| ==> schedule[i] < schedule[j]
  }

  /** With a schedule that increases, as the default one does, a dismissed review is held for the
      documented time exactly when the dismissal is the first one since the reset. */
  lemma OnlyFirstCooldownIsAsDocumented(configured: map<ReactionId, Config>, actions: seq<Action>, resolve: Resolver,
                                        id: ReactionId, rules: PromotionRules)
    requires IsDismissed(After(Ledger(configured, map[], map[]), actions, resolve), id) && IsIncreasing(CooldownSchedule(rules))
    ensures var start := Ledger(configured, map[], map[]);
            var review, dismissals := After(start, actions, resolve).reviews[id], DismissalsAfter(start, actions, resolve, id, 0);
            CooldownDays(rules, review.dismissCount) == CooldownDays(rules, dismissals) <==> dismissals == 1
  {
    hide CooldownSchedule, After, DismissalsAfter;
    var start := Ledger(configured, map[], map[]);
    assert StatusAt(start, id).None?;
    DismissedMeansCounted(start, actions, resolve, id, 0);
    CooldownNeverProgresses(configured, actions, resolve, id, rules);
  }

  lemma DefaultScheduleIncreases(rules: PromotionRules)
    requires forall i :: 0 <= i < |rules.cooldownDays| ==> rules.cooldownDays[i] <= 0
    ensures CooldownSchedule(rules) == DEFAULT_COOLDOWN && IsIncreasing(CooldownSchedule(rules))
  {
    NoPositiveDays(rules.cooldownDays);
  }

  lemma {:induction false} NoPositiveDays(raw: seq<int>)
    requires forall i :: 0 <= i < |raw| ==> raw[i] <= 0
    ensures PositiveDays(raw) == []
  {
    if raw != [] {
      NoPositiveDays(raw[1..]);
    }
  }

  // ----- a run in which the second cooldown is too short

  const LENIENT: PromotionRules := PromotionRules(true, 1, 0.0, 0, 0, 7, [14, 30])

  /** Approve, dismiss, approve again after the first cooldown, dismiss again. */
  function TwoDismissals(id: ReactionId): seq<Action> {
    [Record(id, Approved, 0, 0), Decide(id, DismissForNow, 0),
     Record(id, Approved, 14 * DAY, 14 * DAY), Decide(id, DismissForNow, 14 * DAY)]
  }

  const ASKING: Resolved := Resolved(true, AskResidents, LENIENT)

  /** Residents have answered once, with an approval at time 0. */
  predicate HasOneApproval(l: Ledger, id: ReactionId) {
    && id in l.configured
    && StatsOf(l, id).Count(Approved) == 1 && StatsOf(l, id).Count(Dismissed) == 0
    && StatsOf(l, id).explicitEvents == [Answer(Approved, 0)]
  }

  lemma FirstApprovalPrompts(l: Ledger, id: ReactionId, resolve: Resolver)
    requires id in l.configured && StatsOf(l, id) == NO_STATS && id !in l.reviews
    requires forall cfg :: resolve(cfg) == ASKING
    ensures var l' := Next(l, Record(id, Approved, 0, 0), resolve);
            HasOneApproval(l', id) && id in l'.reviews && l'.reviews[id].status == PendingAdminReview && l'.reviews[id].dismissCount == 0
  {
    hide CooldownDays;
    assert LastN([] + [Answer(Approved, 0)], EVENT_LIMIT) == [Answer(Approved, 0)];
  }

  lemma DismissingCounts(l: Ledger, id: ReactionId, now: Time, resolve: Resolver)
    requires IsDecidable(l, id)
    ensures var l' := Next(l, Decide(id, DismissForNow, now), resolve);
            && IsDismissed(l', id) && l'.stats == l.stats && l'.configured == l.configured
            && l'.reviews[id].dismissCount == l.reviews[id].dismissCount + 1 && l'.reviews[id].lastDismissedAt == Some(now)
  {}

  lemma SecondApprovalPromptsAnew(l: Ledger, id: ReactionId, resolve: Resolver)
    requires HasOneApproval(l, id) && IsDismissed(l, id)
    requires l.reviews[id].dismissCount == 1 && l.reviews[id].lastDismissedAt == Some(0)
    requires forall cfg :: resolve(cfg) == ASKING
    ensures var l' := Next(l, Record(id, Approved, 14 * DAY, 14 * DAY), resolve);
            IsDecidable(l', id) && l'.reviews[id].dismissCount == 0
  {
    var stats := UpdatedStats(StatsOf(l, id), Approved, 14 * DAY);
    assert CooldownDays(LENIENT, 1) == 14 by { LenientSchedule(); }
    hide CooldownDays, Rate;
    assert forall approved, all :: Rate(approved, all) >= 0.0 by { RatesAreNotNegative(); }
    assert EligibilityOf(ASKING, Some(l.reviews[id]), stats, 14 * DAY) == Eligible;
  }

  lemma RatesAreNotNegative()
    ensures forall approved, all :: Rate(approved, all) >= 0.0
  {}

  lemma LenientSchedule()
    ensures CooldownDays(LENIENT, 1) == 14 && CooldownDays(LENIENT, 2) == 30
  {
    var raw := LENIENT.cooldownDays;
    assert raw[1..] == [30] && raw[1..][1..] == [];
    assert PositiveDays(raw[1..]) == [30] && PositiveDays(raw) == [14, 30];
  }

  /** The second dismissal is held for 14 days again, not for the documented 30. */
  lemma SecondDismissalStartsOver(id: ReactionId, cfg: Config)
    ensures var start, resolve := Ledger(map[id := cfg], map[], map[]), (_: Config) => ASKING;
            var end := After(start, TwoDismissals(id), resolve);
            && IsDismissed(end, id)
            && DismissalsAfter(start, TwoDismissals(id), resolve, id, 0) == 2
            && CooldownDays(LENIENT, end.reviews[id].dismissCount) == 14 && CooldownDays(LENIENT, 2) == 30
  {
    hide Next, CooldownDays;
    var start, resolve := Ledger(map[id := cfg], map[], map[]), (_: Config) => ASKING;
    var all := TwoDismissals(id);
    var s1 := Next(start, all[0], resolve);
    FirstApprovalPrompts(start, id, resolve);
    var s2 := Next(s1, all[1], resolve);
    DismissingCounts(s1, id, 0, resolve);
    var s3 := Next(s2, all[2], resolve);
    SecondApprovalPromptsAnew(s2, id, resolve);
    var s4 := Next(s3, all[3], resolve);
    DismissingCounts(s3, id, 14 * DAY, resolve);
    assert all[1..][1..] == all[2..] && all[2..][1..] == all[3..] && all[3..][1..] == [];
    assert After(s3, all[3..], resolve) == s4 && DismissalsAfter(s3, all[3..], resolve, id, 1) == 2;
    assert After(s2, all[2..], resolve) == s4 && DismissalsAfter(s2, all[2..], resolve, id, 1) == 2;
    assert After(s1, all[1..], resolve) == s4 && DismissalsAfter(s1, all[1..], resolve, id, 0) == 2;
    LenientSchedule();
  }
}

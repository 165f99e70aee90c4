/** Distinct days with approvals: documented as local days, counted as UTC dates. When the two
    readings agree, and when they lead to different verdicts. */
module PromotionDays {
  import opened Wrappers
  import opened Promotion
  import opened PromotionRuns

  /** The local day of a moment, at a fixed offset from UTC. */
  function LocalDay(t: Time, offset: int): int {
    (t + offset) / DAY
  }

  function LocalDays(h: seq<Answer>, offset: int): set<int> {
    set a <- h | a.outcome == Approved :: LocalDay(a.ts, offset)
  }

  /** The verdict as documented. */
  function DocumentedEligibility(h: seq<Answer>, offset: int, resolved: Resolved, review: Option<Review>, stats: Stats, now: Time)
    : Eligibility
  {
    EligibilityOn(|LocalDays(h, offset)|, resolved, review, stats, now)
  }

  // ----- days and midnights

  predicate IsMidnight(m: int, offset: int) {
    (m + offset) % DAY == 0
  }

  predicate MidnightPasses(from: Time, to: Time, offset: int) {
    exists m: int :: from < m <= to && IsMidnight(m, offset)
  }

  lemma NewDayMeansMidnight(from: Time, to: Time, offset: int)
    requires from <= to
    ensures LocalDay(from, offset) <= LocalDay(to, offset)
    ensures MidnightPasses(from, to, offset) <==> LocalDay(from, offset) != LocalDay(to, offset)
  {
    var midnight := LocalDay(to, offset) * DAY - offset;
    assert IsMidnight(midnight, offset) && midnight <= to;
    if LocalDay(from, offset) != LocalDay(to, offset) {
      assert from < midnight;
    }
  }

  predicate AreInOrder(h: seq<Answer>) {
    forall i, j :: 0 <= i < j < |h| ==> h[i].ts <= h[j].ts
  }

  function LatestApproval(h: seq<Answer>): Option<Time> {
    if h == [] then None
    else if h[|h| - 1].outcome == Approved then Some(h[|h| - 1].ts)
    else LatestApproval(h[..|h| - 1])
  }

  /** The approval at `now` is the first one, or a midnight has passed since the latest. */
  predicate StartsDay(h: seq<Answer>, now: Time, offset: int) {
    LatestApproval(h).None? || MidnightPasses(LatestApproval(h).value, now, offset)
  }

  /** How many approvals were the first ones of their days. */
  function DayStarts(h: seq<Answer>, offset: int): nat {
    if h == [] then 0
    else
      var init, last := h[..|h| - 1], h[|h| - 1];
      DayStarts(init, offset) + if last.outcome == Approved && StartsDay(init, last.ts, offset) then 1 else 0
  }

  lemma {:induction false} LatestApprovalIsLast(h: seq<Answer>)
    requires AreInOrder(h)
    ensures LatestApproval(h).None? ==> forall a :: a in h ==> a.outcome != Approved
    ensures LatestApproval(h).Some? ==> exists a :: a in h && a.outcome == Approved && a.ts == LatestApproval(h).value
    ensures LatestApproval(h).Some? ==> forall a :: a in h && a.outcome == Approved ==> a.ts <= LatestApproval(h).value
  {
    if h != [] {
      var init, last := h[..|h| - 1], h[|h| - 1];
      LatestApprovalIsLast(init);
      assert forall a :: a in h <==> a in init || a == last;
    }
  }

  /** A day is new exactly when the latest approval lies before its midnight. */
  lemma NewDayAmongAnswers(h: seq<Answer>, now: Time, offset: int)
    requires AreInOrder(h + [Answer(Approved, now)])
    ensures StartsDay(h, now, offset) <==> LocalDay(now, offset) !in LocalDays(h, offset)
  {
    hide LocalDay, MidnightPasses;
    var all := h + [Answer(Approved, now)];
    assert AreInOrder(h) by { assert forall i :: 0 <= i < |h| ==> h[i] == all[i]; }
    LatestApprovalIsLast(h);
    forall a | a in h ensures a.ts <= now {
      var i :| 0 <= i < |h| && h[i] == a;
      assert all[i] == a && all[|h|].ts == now;
    }
    if LatestApproval(h).Some? {
      var latest := LatestApproval(h).value;
      NewDayMeansMidnight(latest, now, offset);
      forall a | a in h && a.outcome == Approved
        ensures LocalDay(a.ts, offset) <= LocalDay(latest, offset) <= LocalDay(now, offset)
      {
        NewDayMeansMidnight(a.ts, latest, offset);
      }
    }
  }

  lemma LocalDaysOneMore(h: seq<Answer>, last: Answer, offset: int)
    ensures LocalDays(h + [last], offset)
         == LocalDays(h, offset) + if last.outcome == Approved then {LocalDay(last.ts, offset)} else {}
  {
    hide LocalDay;
    assert forall a :: a in h + [last] <==> a in h || a == last;
  }

  /** Distinct days are counted by their first approvals. */
  lemma {:induction false} DaysAreDayStarts(h: seq<Answer>, offset: int)
    requires AreInOrder(h)
    ensures |LocalDays(h, offset)| == DayStarts(h, offset)
  {
    hide LocalDay, LocalDays, StartsDay;
    if h == [] {
      assert LocalDays(h, offset) == {} by { NoDays(offset); }
    } else {
      var init, last := h[..|h| - 1], h[|h| - 1];
      assert h == init + [last];
      DaysAreDayStarts(init, offset);
      if last.outcome == Approved {
        assert last == Answer(Approved, last.ts);
        OneMoreApproval(init, last.ts, offset);
      } else {
        LocalDaysOneMore(init, last, offset);
      }
    }
  }

  lemma NoDays(offset: int)
    ensures LocalDays([], offset) == {}
  {}

  /** The program's dates are the days at offset zero. */
  lemma UtcDatesAreDays(h: seq<Answer>)
    ensures LocalDays(h, 0) == ApprovedDays(h)
  {}

  // ----- when the readings agree

  /** One more approval counts alike in both readings if and only if, since the latest approval, a
      midnight has passed by both clocks or by neither. */
  lemma OneMoreApprovalCountsAlike(h: seq<Answer>, now: Time, offset: int)
    requires AreInOrder(h + [Answer(Approved, now)])
    ensures var all := h + [Answer(Approved, now)];
            |ApprovedDays(all)| - |ApprovedDays(h)| == |LocalDays(all, offset)| - |LocalDays(h, offset)| <==>
            (LatestApproval(h).None? ||
             (MidnightPasses(LatestApproval(h).value, now, 0) <==> MidnightPasses(LatestApproval(h).value, now, offset)))
  {
    hide LocalDay, LocalDays, ApprovedDays, MidnightPasses;
    UtcDatesAreDays(h);
    UtcDatesAreDays(h + [Answer(Approved, now)]);
    OneMoreApproval(h, now, 0);
    OneMoreApproval(h, now, offset);
  }

  lemma OneMoreApproval(h: seq<Answer>, now: Time, offset: int)
    requires AreInOrder(h + [Answer(Approved, now)])
    ensures |LocalDays(h + [Answer(Approved, now)], offset)|
         == |LocalDays(h, offset)| + if StartsDay(h, now, offset) then 1 else 0
  {
    hide LocalDay, LocalDays, StartsDay;
    LocalDaysOneMore(h, Answer(Approved, now), offset);
    NewDayAmongAnswers(h, now, offset);
    var days, day := LocalDays(h, offset), LocalDay(now, offset);
    assert LocalDays(h + [Answer(Approved, now)], offset) == days + {day};
    assert day in days ==> days + {day} == days;
  }

  /** The tests before the one on days are passed. */
  predicate ComesToDays(resolved: Resolved, stats: Stats) {
    var samples := stats.Count(Approved) + stats.Count(Dismissed);
    && resolved.valid && resolved.mode == AskResidents && resolved.rules.enabled
    && samples >= resolved.rules.minSamples
    && Rate(stats.Count(Approved), samples) >= resolved.rules.minApprovalRate
  }

  /** Under a given policy the verdicts differ exactly when the test on days is reached and its
      threshold lies above one of the two numbers of day starts, but not above the other. */
  lemma VerdictsDifferExactly(stats: Stats, h: seq<Answer>, offset: int, resolved: Resolved, review: Option<Review>, now: Time)
    requires Summarises(stats, h) && AreInOrder(h)
    ensures EligibilityOf(resolved, review, stats, now) != DocumentedEligibility(h, offset, resolved, review, stats, now) <==>
      && ComesToDays(resolved, stats)
      && (DayStarts(h, 0) < resolved.rules.minDistinctDays <==> DayStarts(h, offset) >= resolved.rules.minDistinctDays)
  {
    hide LocalDay, ApprovedDays, LocalDays, DayStarts, CooldownDays, Rate;
    UtcDatesAreDays(h);
    DaysAreDayStarts(h, 0);
    DaysAreDayStarts(h, offset);
    assert |DistinctDates(stats.approvedDates)| == |ApprovedDays(h)|;
  }

  lemma DemandingPolicy(stats: Stats, days: int)
    ensures ComesToDays(Resolved(true, AskResidents, PromotionRules(true, 0, 0.0, days, 0, 7, [])), stats)
  {}

  /** The readings agree under every policy if and only if as many approvals are the first ones after
      a UTC midnight as after a local one. */
  lemma ReadingsAgreeExactly(stats: Stats, h: seq<Answer>, offset: int)
    requires Summarises(stats, h) && AreInOrder(h)
    ensures (forall resolved, review, now ::
               EligibilityOf(resolved, review, stats, now) == DocumentedEligibility(h, offset, resolved, review, stats, now))
      <==> DayStarts(h, 0) == DayStarts(h, offset)
  {
    hide EligibilityOf, DocumentedEligibility, Summarises, DayStarts, ComesToDays;
    forall resolved, review, now
      ensures DayStarts(h, 0) == DayStarts(h, offset) ==>
        EligibilityOf(resolved, review, stats, now) == DocumentedEligibility(h, offset, resolved, review, stats, now)
    {
      VerdictsDifferExactly(stats, h, offset, resolved, review, now);
    }
    if DayStarts(h, 0) != DayStarts(h, offset) {
      var more := if DayStarts(h, 0) > DayStarts(h, offset) then DayStarts(h, 0) else DayStarts(h, offset);
      var demanding := Resolved(true, AskResidents, PromotionRules(true, 0, 0.0, more, 0, 7, []));
      DemandingPolicy(stats, more);
      VerdictsDifferExactly(stats, h, offset, demanding, None, 0);
      assert EligibilityOf(demanding, None, stats, 0) != DocumentedEligibility(h, offset, demanding, None, stats, 0);
    }
  }

  // ----- answers on which they do not

  const HOUR: nat := 3_600_000_000
  const TWO_DAYS_NEEDED: Resolved := Resolved(true, AskResidents, PromotionRules(true, 2, 0.0, 2, 0, 7, []))

  function AfterTwoApprovals(first: Time, second: Time): Stats {
    UpdatedStats(UpdatedStats(NO_STATS, Approved, first), Approved, second)
  }

  lemma NothingIsSummarised()
    ensures Summarises(NO_STATS, [])
  {}

  lemma TwoApprovalsCount(a: Answer, b: Answer)
    requires a.outcome == b.outcome == Approved
    ensures CountOf([a, b], Approved) == 2 && CountOf([a, b], Dismissed) == 0
  {
    assert [a, b][1..] == [b] && [b][1..] == [];
    assert CountOf([b], Approved) == 1 + CountOf([], Approved) && CountOf([b], Dismissed) == CountOf([], Dismissed);
  }

  lemma TwoApprovals(first: Time, second: Time, offset: int)
    requires first <= second
    ensures var h := [Answer(Approved, first), Answer(Approved, second)];
            && Summarises(AfterTwoApprovals(first, second), h) && AreInOrder(h)
            && |ApprovedDays(h)| == (if DateOf(first) == DateOf(second) then 1 else 2)
            && |LocalDays(h, offset)| == (if LocalDay(first, offset) == LocalDay(second, offset) then 1 else 2)
            && AfterTwoApprovals(first, second).Count(Approved) == 2 && AfterTwoApprovals(first, second).Count(Dismissed) == 0
  {
    hide UpdatedStats, LocalDay, DateOf, CountOf, ApprovalDates;
    var a, b := Answer(Approved, first), Answer(Approved, second);
    NothingIsSummarised();
    ExplicitAnswerIsSummarised(NO_STATS, [], Approved, first);
    ExplicitAnswerIsSummarised(UpdatedStats(NO_STATS, Approved, first), [] + [a], Approved, second);
    assert [] + [a] + [b] == [a, b];
    TwoApprovalsCount(a, b);
    assert LocalDays([a, b], offset) == {LocalDay(first, offset), LocalDay(second, offset)};
    assert ApprovedDays([a, b]) == {DateOf(first), DateOf(second)};
  }

  /** Two hours east of UTC, approvals at one and three in the morning make two dates out of one
      night: a review is prompted although the document asks for another day. */
  lemma OneNightIsTwoDates()
    ensures var first, second := 23 * HOUR, 25 * HOUR;
            var stats, h := AfterTwoApprovals(first, second), [Answer(Approved, first), Answer(Approved, second)];
            && EligibilityOf(TWO_DAYS_NEEDED, None, stats, second) == Eligible
            && DocumentedEligibility(h, 2 * HOUR, TWO_DAYS_NEEDED, None, stats, second) == Ineligible(InsufficientDistinctDays)
  {
    hide UpdatedStats;
    TwoApprovals(23 * HOUR, 25 * HOUR, 2 * HOUR);
  }

  /** There, approvals at eleven in the evening and one in the morning are two days but one date: a
      review that the document asks for is not prompted. */
  lemma TwoDaysAreOneDate()
    ensures var first, second := 21 * HOUR, 23 * HOUR;
            var stats, h := AfterTwoApprovals(first, second), [Answer(Approved, first), Answer(Approved, second)];
            && EligibilityOf(TWO_DAYS_NEEDED, None, stats, second) == Ineligible(InsufficientDistinctDays)
            && DocumentedEligibility(h, 2 * HOUR, TWO_DAYS_NEEDED, None, stats, second) == Eligible
  {
    hide UpdatedStats;
    TwoApprovals(21 * HOUR, 23 * HOUR, 2 * HOUR);
  }
}

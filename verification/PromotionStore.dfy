/** The coordinator's methods on the stored promotion state. Each reads the stored dictionaries,
    edits copies branch by branch and stores them back; its contract is one action of `Promotion`. */
module PromotionStore {
  import opened Wrappers
  import opened Promotion
  import opened PromotionRuns

  class Reactions {
    const resolve: Resolver
    var configured: map<ReactionId, Config>
    var confirmationStats: map<ReactionId, Stats>
    var promotionReviews: map<ReactionId, Review>

    ghost function Stored(): Ledger
      reads this
    {
      Ledger(configured, confirmationStats, promotionReviews)
    }

    constructor (configured: map<ReactionId, Config>, resolve: Resolver)
      ensures Stored() == Ledger(configured, map[], map[]) && this.resolve == resolve
    {
      this.configured, this.resolve := configured, resolve;
      confirmationStats, promotionReviews := map[], map[];
    }

    /** Counts an outcome and brings the promotion review up to date. */
    method RecordOutcome(id: ReactionId, outcome: Status, now: Time, checked: Time)
      modifies this`confirmationStats, this`promotionReviews
      ensures Stored() == Next(old(Stored()), Record(id, outcome, now, checked), resolve)
    {
      hide EligibilityOf, WithReminder;
      if id !in configured || !IsCounted(outcome) {
        return;
      }
      var stats := if id in confirmationStats then confirmationStats[id] else NO_STATS;
      stats := stats.(counts := stats.counts[outcome := stats.Count(outcome) + 1]);
      if outcome == Requested {
        if stats.firstRequestedAt.None? {
          stats := stats.(firstRequestedAt := Some(now));
        }
      }
      stats := stats.(lastAt := stats.lastAt[outcome := now]);
      if outcome == Approved {
        var approvedDate := DateOf(now);
        if approvedDate !in stats.approvedDates {
          stats := stats.(approvedDates := stats.approvedDates + [approvedDate]);
        }
      }
      if outcome == Approved || outcome == Dismissed {
        var explicitEvents := stats.explicitEvents + [Answer(outcome, now)];
        stats := stats.(explicitEvents := LastN(explicitEvents, EVENT_LIMIT));
      }
      assert stats == UpdatedStats(StatsOf(old(Stored()), id), outcome, now);
      confirmationStats := confirmationStats[id := stats];
      UpdateReview(id, stats, outcome, now, checked);
    }

    /** The review after an outcome: prompted, reminded, revoked or left alone. */
    method UpdateReview(id: ReactionId, stats: Stats, outcome: Status, now: Time, checked: Time)
      requires id in configured
      modifies this`promotionReviews
      ensures promotionReviews == Put(old(promotionReviews), id,
        if IsExplicit(outcome) then UpdatedReview(resolve(configured[id]), Find(old(promotionReviews), id), stats, now, checked)
        else Find(old(promotionReviews), id))
    {
      hide EligibilityOf, WithReminder;
      if outcome != Approved && outcome != Dismissed {
        return;
      }
      var resolved, review := resolve(configured[id]), Find(promotionReviews, id);
      var eligibility := EligibilityOf(resolved, review, stats, checked);
      if eligibility == Eligible {
        if review.None? || review.value.status !in {ReviewApproved, DisabledFuturePrompts, PendingAdminReview} {
          promotionReviews := promotionReviews[id := WithReminder(FreshReview(now), resolved.rules, now)];
        } else if review.value.status == PendingAdminReview {
          var current := review.value;
          if current.firstPromptedAt.None? {
            current := current.(firstPromptedAt := Some(now));
          }
          current := current.(failureReason := None);
          promotionReviews := promotionReviews[id := WithReminder(current, resolved.rules, now)];
        }
        return;
      }
      if review.Some? && review.value.status == PendingAdminReview {
        promotionReviews := promotionReviews[id := review.value.(status := Revoked, decidedAt := Some(now),
          failureReason := Some(eligibility.reason))];
      }
    }

    /** Applies an admin's decision; refused unless the review is pending. */
    method ReviewPromotion(id: ReactionId, decision: Decision, now: Time) returns (accepted: bool)
      modifies this`configured, this`promotionReviews
      ensures accepted <==> IsDecidable(old(Stored()), id)
      ensures Stored() == Next(old(Stored()), Decide(id, decision, now), resolve)
    {
      if id !in configured {
        return false;
      }
      if id !in promotionReviews || promotionReviews[id].status != PendingAdminReview {
        return false;
      }
      var cfg, review := configured[id], promotionReviews[id];
      match decision {
        case ApproveAutoApply =>
          configured := configured[id := Promoted(cfg, now)];
          review := review.(status := ReviewApproved, decidedAt := Some(now));
        case DismissForNow =>
          review := review.(status := DismissedNotNow, dismissCount := review.dismissCount + 1,
            lastDismissedAt := Some(now), reminderDue := false, nextReminderAfter := None);
        case DisablePrompts =>
          configured := configured[id := PromptsDisabled(cfg, now)];
          review := review.(status := DisabledFuturePrompts, decidedAt := Some(now));
      }
      promotionReviews := promotionReviews[id := review];
      return true;
    }

    /** Forgets everything about one reaction; tells whether there was anything to forget. */
    method ResetPromotionState(id: ReactionId) returns (changed: bool)
      modifies this`confirmationStats, this`promotionReviews
      ensures changed <==> id in old(confirmationStats) || id in old(promotionReviews)
      ensures Stored() == Next(old(Stored()), Reset(id), resolve)
    {
      changed := false;
      if id in confirmationStats {
        confirmationStats := confirmationStats - {id};
        changed := true;
      }
      if id in promotionReviews {
        promotionReviews := promotionReviews - {id};
        changed := true;
      }
    }
  }
}

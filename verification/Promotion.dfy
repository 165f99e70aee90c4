/** How residents' explicit answers about a reaction lead to promotion reviews, and what an admin
    may do with a review. Times are microseconds, so a UTC date is a number of days. */
module Promotion {
  import opened Wrappers

  type Time = nat
  /** Reactions have ids; a blank one is turned away before anything is looked up. */
  type ReactionId = s: string | s != "" witness "reaction"

  const DAY: nat := 86_400_000_000
  const EVENT_LIMIT: nat := 200

  // ----- configuration and policy

  datatype Mode = AutoApply | AskResidents

  /** The part of an execution policy that reviews write to; `other` is all they leave alone. */
  datatype PolicyBlock = PolicyBlock(mode: Option<Mode>, promotedAt: Option<Time>, promptsDisabledAt: Option<Time>,
                                     other: map<string, string>)

  /** A reaction either refers to a policy profile, which `override` adjusts, or has its own policy. */
  datatype Config = Config(profile: string, policy: PolicyBlock, override: PolicyBlock, other: map<string, string>)
  {
    function Block(): PolicyBlock {
      if profile != "" then override else policy
    }

    function WithBlock(block: PolicyBlock): Config {
      if profile != "" then this.(override := block) else this.(policy := block)
    }
  }

  datatype PromotionRules = PromotionRules(
    enabled: bool,
    minSamples: int,
    minApprovalRate: real,
    minDistinctDays: int,
    minNewApprovals: int,
    reminderIntervalDays: int,
    cooldownDays: seq<int>)

  /** What resolving a configuration against the policy profiles gives. */
  datatype Resolved = Resolved(valid: bool, mode: Mode, rules: PromotionRules)

  type Resolver = Config -> Resolved

  // ----- answers and their statistics

  datatype Status = Requested | Approved | Dismissed | TimeoutSkipped | TimeoutApplied | Cancelled | Failed

  predicate IsCounted(o: Status) {
    o != Cancelled
  }

  predicate IsExplicit(o: Status) {
    o == Approved || o == Dismissed
  }

  datatype Answer = Answer(outcome: Status, ts: Time)

  datatype Stats = Stats(
    counts: map<Status, nat>,
    firstRequestedAt: Option<Time>,
    lastAt: map<Status, Time>,
    approvedDates: seq<nat>,
    explicitEvents: seq<Answer>)
  {
    function Count(o: Status): nat {
      if o in counts then counts[o] else 0
    }
  }

  const NO_STATS: Stats := Stats(map[], None, map[], [], [])

  function LastN<T>(s: seq<T>, n: nat): seq<T> {
    if |s| <= n then s else s[|s| - n..]
  }

  function DateOf(t: Time): nat {
    t / DAY
  }

  function UpdatedStats(stats: Stats, outcome: Status, now: Time): Stats {
    stats.(
      counts := stats.counts[outcome := stats.Count(outcome) + 1],
      firstRequestedAt := if outcome == Requested && stats.firstRequestedAt.None? then Some(now) else stats.firstRequestedAt,
      lastAt := stats.lastAt[outcome := now],
      approvedDates :=
        if outcome == Approved && DateOf(now) !in stats.approvedDates
        then stats.approvedDates + [DateOf(now)] else stats.approvedDates,
      explicitEvents :=
        if IsExplicit(outcome) then LastN(stats.explicitEvents + [Answer(outcome, now)], EVENT_LIMIT)
        else stats.explicitEvents)
  }

  // ----- reviews and eligibility

  datatype ReviewStatus = PendingAdminReview | ReviewApproved | DismissedNotNow | DisabledFuturePrompts | Revoked

  datatype Reason =
    | UnresolvedPolicyRef | NotAskResidents | PromotionDisabled | InsufficientSamples | ApprovalRateBelowThreshold
    | InsufficientDistinctDays | MissingDismissalTimestamp | CooldownActive | InsufficientNewApprovals
    | PostDismissalRateBelowThreshold

  datatype Review = Review(
    status: ReviewStatus,
    firstPromptedAt: Option<Time>,
    lastPromptedAt: Option<Time>,
    nextReminderAfter: Option<Time>,
    reminderDue: bool,
    dismissCount: nat,
    lastDismissedAt: Option<Time>,
    decidedAt: Option<Time>,
    failureReason: Option<Reason>)

  datatype Eligibility = Eligible | Ineligible(reason: Reason)

  const DEFAULT_COOLDOWN: seq<int> := [14, 30, 60, 90, 180]

  function PositiveDays(raw: seq<int>): (days: seq<int>)
    ensures forall i :: 0 <= i < |days| ==> days[i] > 0
  {
    if raw == [] then [] else (if raw[0] > 0 then [raw[0]] else []) + PositiveDays(raw[1..])
  }

  function CooldownSchedule(rules: PromotionRules): (days: seq<int>)
    ensures days != [] && forall i :: 0 <= i < |days| ==> days[i] > 0
  {
    var days := PositiveDays(rules.cooldownDays);
    if days != [] then days else DEFAULT_COOLDOWN
  }

  /** The schedule entry for the given number of dismissals, clamped at both ends. */
  function CooldownDays(rules: PromotionRules, dismissCount: nat): (days: nat)
    ensures days > 0
  {
    var schedule := CooldownSchedule(rules);
    var index := if dismissCount == 0 then 0 else dismissCount - 1;
    schedule[if index < |schedule| then index else |schedule| - 1]
  }

  function CountOf(events: seq<Answer>, outcome: Status): nat {
    if events == [] then 0
    else (if events[0].outcome == outcome then 1 else 0) + CountOf(events[1..], outcome)
  }

  function AnswersAfter(events: seq<Answer>, threshold: Time): seq<Answer> {
    if events == [] then []
    else (if events[0].ts > threshold then [events[0]] else []) + AnswersAfter(events[1..], threshold)
  }

  function Rate(approved: nat, all: nat): real {
    if all == 0 then 0.0 else approved as real / all as real
  }

  function CooldownSatisfied(rules: PromotionRules, review: Option<Review>, stats: Stats, now: Time): Eligibility {
    if review.None? || review.value.status != DismissedNotNow then Eligible
    else if review.value.lastDismissedAt.None? then Ineligible(MissingDismissalTimestamp)
    else
      var dismissedAt := review.value.lastDismissedAt.value;
      if now < dismissedAt + CooldownDays(rules, review.value.dismissCount) * DAY then Ineligible(CooldownActive)
      else
        var later := AnswersAfter(stats.explicitEvents, dismissedAt);
        var approvals, dismissals := CountOf(later, Approved), CountOf(later, Dismissed);
        if approvals < rules.minNewApprovals then Ineligible(InsufficientNewApprovals)
        else if Rate(approvals, approvals + dismissals) < rules.minApprovalRate then Ineligible(PostDismissalRateBelowThreshold)
        else Eligible
  }

  function DistinctDates(dates: seq<nat>): set<nat> {
    set d <- dates
  }

  /** The tests in their order; `days` is the number of distinct days with approvals. */
  function EligibilityOn(days: nat, resolved: Resolved, review: Option<Review>, stats: Stats, now: Time): Eligibility {
    var rules := resolved.rules;
    var approved := stats.Count(Approved);
    var samples := approved + stats.Count(Dismissed);
    if !resolved.valid then Ineligible(UnresolvedPolicyRef)
    else if resolved.mode != AskResidents then Ineligible(NotAskResidents)
    else if !rules.enabled then Ineligible(PromotionDisabled)
    else if samples < rules.minSamples then Ineligible(InsufficientSamples)
    else if Rate(approved, samples) < rules.minApprovalRate then Ineligible(ApprovalRateBelowThreshold)
    else if days < rules.minDistinctDays then Ineligible(InsufficientDistinctDays)
    else CooldownSatisfied(rules, review, stats, now)
  }

  /** The program counts UTC dates. */
  function EligibilityOf(resolved: Resolved, review: Option<Review>, stats: Stats, now: Time): Eligibility {
    EligibilityOn(|DistinctDates(stats.approvedDates)|, resolved, review, stats, now)
  }

  function WithReminder(review: Review, rules: PromotionRules, now: Time): Review {
    var days := if rules.reminderIntervalDays < 1 then 1 else rules.reminderIntervalDays;
    var lastPrompted := if review.lastPromptedAt.Some? then review.lastPromptedAt.value else now;
    var next := lastPrompted + days * DAY;
    review.(lastPromptedAt := Some(lastPrompted), nextReminderAfter := Some(next), reminderDue := now >= next)
  }

  /** A first or renewed prompt is a new record: nothing of an earlier review is carried over. */
  function FreshReview(now: Time): Review {
    Review(PendingAdminReview, Some(now), Some(now), None, false, 0, None, None, None)
  }

  /** The review after an explicit answer; `now` is the answer's time, `checked` the slightly later
      time at which the cooldown is looked at. */
  function UpdatedReview(resolved: Resolved, review: Option<Review>, stats: Stats, now: Time, checked: Time): Option<Review> {
    match EligibilityOf(resolved, review, stats, checked)
    case Eligible =>
      if review.None? || review.value.status in {DismissedNotNow, Revoked} then
        Some(WithReminder(FreshReview(now), resolved.rules, now))
      else if review.value.status == PendingAdminReview then
        var current := review.value;
        var prompted := if current.firstPromptedAt.Some? then current.firstPromptedAt else Some(now);
        Some(WithReminder(current.(firstPromptedAt := prompted, failureReason := None), resolved.rules, now))
      else review
    case Ineligible(reason) =>
      if review.Some? && review.value.status == PendingAdminReview then
        Some(review.value.(status := Revoked, decidedAt := Some(now), failureReason := Some(reason)))
      else review
  }

  // ----- the stored state and the three actions on it

  datatype Ledger = Ledger(
    configured: map<ReactionId, Config>,
    stats: map<ReactionId, Stats>,
    reviews: map<ReactionId, Review>)

  datatype Decision = ApproveAutoApply | DismissForNow | DisablePrompts

  datatype Action =
    | Record(id: ReactionId, outcome: Status, now: Time, checked: Time)
    | Decide(id: ReactionId, decision: Decision, now: Time)
    | Reset(id: ReactionId)

  function Find<K, V>(m: map<K, V>, k: K): Option<V> {
    if k in m then Some(m[k]) else None
  }

  function Put<K, V>(m: map<K, V>, k: K, v: Option<V>): map<K, V> {
    if v.Some? then m[k := v.value] else m - {k}
  }

  function StatsOf(l: Ledger, id: ReactionId): Stats {
    if id in l.stats then l.stats[id] else NO_STATS
  }

  function Recorded(l: Ledger, id: ReactionId, outcome: Status, now: Time, checked: Time, resolve: Resolver): Ledger {
    if id !in l.configured || !IsCounted(outcome) then l
    else
      var stats := UpdatedStats(StatsOf(l, id), outcome, now);
      var review := Find(l.reviews, id);
      var updated :=
        if IsExplicit(outcome) then UpdatedReview(resolve(l.configured[id]), review, stats, now, checked) else review;
      l.(stats := l.stats[id := stats], reviews := Put(l.reviews, id, updated))
  }

  function Promoted(cfg: Config, now: Time): Config {
    cfg.WithBlock(cfg.Block().(mode := Some(AutoApply), promotedAt := Some(now)))
  }

  function PromptsDisabled(cfg: Config, now: Time): Config {
    cfg.WithBlock(cfg.Block().(promptsDisabledAt := Some(now)))
  }

  predicate IsDecidable(l: Ledger, id: ReactionId) {
    id in l.configured && id in l.reviews && l.reviews[id].status == PendingAdminReview
  }

  function Decided(l: Ledger, id: ReactionId, decision: Decision, now: Time): Ledger {
    if !IsDecidable(l, id) then l
    else
      var cfg, review := l.configured[id], l.reviews[id];
      match decision
      case ApproveAutoApply =>
        l.(configured := l.configured[id := Promoted(cfg, now)],
           reviews := l.reviews[id := review.(status := ReviewApproved, decidedAt := Some(now))])
      case DismissForNow =>
        l.(reviews := l.reviews[id := review.(status := DismissedNotNow, dismissCount := review.dismissCount + 1,
          lastDismissedAt := Some(now), nextReminderAfter := None, reminderDue := false)])
      case DisablePrompts =>
        l.(configured := l.configured[id := PromptsDisabled(cfg, now)],
           reviews := l.reviews[id := review.(status := DisabledFuturePrompts, decidedAt := Some(now))])
  }

  function WasReset(l: Ledger, id: ReactionId): Ledger {
    l.(stats := l.stats - {id}, reviews := l.reviews - {id})
  }

  function Next(l: Ledger, a: Action, resolve: Resolver): Ledger {
    match a
    case Record(id, outcome, now, checked) => Recorded(l, id, outcome, now, checked, resolve)
    case Decide(id, decision, now) => Decided(l, id, decision, now)
    case Reset(id) => WasReset(l, id)
  }
}

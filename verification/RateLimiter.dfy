/** The sliding-window limit on "why not now" requests. */
module RateLimiter {

  const WINDOW: real := 60.0
  const LIMIT: nat := 2

  function Key(entryId: string): string {
    if entryId == "" then "default" else entryId
  }

  /** The time stamps that still lie inside the window. */
  function Recent(stamps: seq<real>, now: real): (recent: seq<real>)
    ensures |recent| <= |stamps|
  {
    if stamps == [] then []
    else
      var last := stamps[|stamps| - 1];
      Recent(stamps[..|stamps| - 1], now) + if now - last < WINDOW then [last] else []
  }

  class Limiter {
    var calls: map<string, seq<real>>

    constructor ()
      ensures calls == map[]
    {
      calls := map[];
    }

    /** Grants or refuses one request. */
    method IsAllowed(entryId: string, now: real) returns (allowed: bool)
      modifies this
      ensures allowed == Grants(old(calls), Call(entryId, now))
      ensures calls == Next(old(calls), Call(entryId, now))
    {
      var key := Key(entryId);
      var stored := if key in calls then calls[key] else [];
      var recent: seq<real> := [];
      for i := 0 to |stored|
        invariant recent == Recent(stored[..i], now)
      {
        assert stored[..i + 1][..i] == stored[..i];
        if now - stored[i] < WINDOW {
          recent := recent + [stored[i]];
        }
      }
      assert stored[..|stored|] == stored;
      if |recent| >= LIMIT {
        calls := calls[key := recent];
        return false;
      }
      recent := recent + [now];
      calls := calls[key := recent];
      return true;
    }
  }

  // ----- runs of requests

  datatype Call = Call(entryId: string, now: real)

  type Log = map<string, seq<real>>

  function StoredFor(log: Log, key: string): seq<real> {
    if key in log then log[key] else []
  }

  predicate Grants(log: Log, c: Call) {
    |Recent(StoredFor(log, Key(c.entryId)), c.now)| < LIMIT
  }

  function Next(log: Log, c: Call): Log {
    var recent := Recent(StoredFor(log, Key(c.entryId)), c.now);
    log[Key(c.entryId) := if |recent| < LIMIT then recent + [c.now] else recent]
  }

  function After(calls: seq<Call>): Log {
    if calls == [] then map[] else Next(After(calls[..|calls| - 1]), calls[|calls| - 1])
  }

  /** The times of all requests ever granted for `key`, in order. */
  function Granted(calls: seq<Call>, key: string): seq<real> {
    if calls == [] then []
    else
      var init, last := calls[..|calls| - 1], calls[|calls| - 1];
      Granted(init, key) + if Key(last.entryId) == key && Grants(After(init), last) then [last.now] else []
  }

  predicate ClockNeverRunsBack(calls: seq<Call>) {
    forall i, j :: 0 <= i < j < |calls| ==> calls[i].now <= calls[j].now
  }

  predicate IsOrderedUpTo(times: seq<real>, now: real) {
    && (forall i, j :: 0 <= i < j < |times| ==> times[i] <= times[j])
    && (forall i :: 0 <= i < |times| ==> times[i] <= now)
  }

  lemma {:induction false} RecentOfRecent(times: seq<real>, earlier: real, now: real)
    requires earlier <= now
    ensures Recent(Recent(times, earlier), now) == Recent(times, now)
  {
    if times != [] {
      var init, last := times[..|times| - 1], times[|times| - 1];
      RecentOfRecent(init, earlier, now);
      var kept := Recent(init, earlier);
      assert (kept + [last])[..|kept|] == kept;
      assert kept + [] == kept;
      assert Recent(init, now) + [] == Recent(init, now);
    }
  }

  lemma RecentOneMore(times: seq<real>, now: real)
    ensures Recent(times + [now], now) == Recent(times, now) + [now]
  {
    assert (times + [now])[..|times|] == times;
  }

  /** When the second last grant is recent, so is the last: two are inside the window. */
  lemma TwoRecentGrants(times: seq<real>, now: real)
    requires |times| >= 2 && IsOrderedUpTo(times, now) && now - times[|times| - 2] < WINDOW
    ensures |Recent(times, now)| >= 2
  {
    var init := times[..|times| - 1];
    assert init[|init| - 1] == times[|times| - 2];
    assert times[|times| - 2] <= times[|times| - 1];
    assert |Recent(init, now)| >= 1;
  }

  predicate AnyThreeSpanTheWindow(times: seq<real>) {
    forall i :: 0 <= i && i + 2 < |times| ==> times[i + 2] - times[i] >= WINDOW
  }

  /** What is stored for a key is exactly the grants that were recent at its last request. */
  ghost predicate Remembers(log: Log, key: string, granted: seq<real>, now: real) {
    exists seen: real :: seen <= now && StoredFor(log, key) == Recent(granted, seen)
  }

  lemma StoredIsRecent(log: Log, key: string, granted: seq<real>, earlier: real, now: real)
    requires Remembers(log, key, granted, earlier) && earlier <= now
    ensures Recent(StoredFor(log, key), now) == Recent(granted, now)
  {
    var seen: real :| seen <= earlier && StoredFor(log, key) == Recent(granted, seen);
    RecentOfRecent(granted, seen, now);
  }

  /** One more grant, allowed because fewer than two are recent. */
  lemma GrantKeepsSpacing(granted: seq<real>, now: real)
    requires IsOrderedUpTo(granted, now) && AnyThreeSpanTheWindow(granted) && |Recent(granted, now)| < LIMIT
    ensures IsOrderedUpTo(granted + [now], now) && AnyThreeSpanTheWindow(granted + [now])
  {
    if |granted| >= 2 && now - granted[|granted| - 2] < WINDOW {
      TwoRecentGrants(granted, now);
    }
  }

  ghost predicate IsLimited(log: Log, key: string, granted: seq<real>, now: real) {
    Remembers(log, key, granted, now) && IsOrderedUpTo(granted, now) && AnyThreeSpanTheWindow(granted)
  }

  lemma TimePasses(log: Log, key: string, granted: seq<real>, earlier: real, now: real)
    requires IsLimited(log, key, granted, earlier) && earlier <= now
    ensures IsLimited(log, key, granted, now)
  {}

  lemma RequestIsLimited(log: Log, c: Call, key: string, granted: seq<real>)
    requires IsLimited(log, key, granted, c.now)
    ensures IsLimited(Next(log, c), key, granted + if Key(c.entryId) == key && Grants(log, c) then [c.now] else [], c.now)
  {
    hide Recent, AnyThreeSpanTheWindow, IsOrderedUpTo;
    assert granted + [] == granted;
    StoredIsRecent(log, key, granted, c.now, c.now);
    if Key(c.entryId) == key {
      if Grants(log, c) {
        GrantKeepsSpacing(granted, c.now);
        RecentOneMore(granted, c.now);
      }
      var granted' := granted + if Grants(log, c) then [c.now] else [];
      assert StoredFor(Next(log, c), key) == Recent(granted', c.now);
    } else {
      assert StoredFor(Next(log, c), key) == StoredFor(log, key);
    }
  }

  lemma {:induction false} RunsAreLimited(calls: seq<Call>, key: string, now: real)
    requires ClockNeverRunsBack(calls)
    requires calls != [] ==> calls[|calls| - 1].now <= now
    ensures IsLimited(After(calls), key, Granted(calls, key), now)
  {
    hide IsLimited, Next, Grants;
    if calls == [] {
      NothingGrantedYet(key, now);
    } else {
      var init, last := calls[..|calls| - 1], calls[|calls| - 1];
      RunsAreLimited(init, key, last.now);
      RequestIsLimited(After(init), last, key, Granted(init, key));
      TimePasses(After(calls), key, Granted(calls, key), last.now, now);
    }
  }

  lemma NothingGrantedYet(key: string, now: real)
    ensures IsLimited(map[], key, [], now)
  {
    assert StoredFor(map[], key) == Recent([], now);
  }

  /** Over any run with a clock that never runs back: any three consecutive grants for a key span at
      least the window, and the next request is refused exactly when two grants lie inside it. */
  lemma LimitHoldsOverRuns(calls: seq<Call>, next: Call)
    requires ClockNeverRunsBack(calls + [next])
    ensures AnyThreeSpanTheWindow(Granted(calls, Key(next.entryId)))
    ensures Grants(After(calls), next) <==> |Recent(Granted(calls, Key(next.entryId)), next.now)| < LIMIT
  {
    var all := calls + [next];
    forall i, j | 0 <= i < j < |calls| ensures calls[i].now <= calls[j].now {
      assert all[i] == calls[i] && all[j] == calls[j];
    }
    assert calls != [] ==> all[|calls| - 1].now <= all[|calls|].now;
    RunsAreLimited(calls, Key(next.entryId), next.now);
    StoredIsRecent(After(calls), Key(next.entryId), Granted(calls, Key(next.entryId)), next.now, next.now);
  }

  /** No stored list ever grows beyond the limit. */
  lemma {:induction false} StoredListsStayShort(calls: seq<Call>, key: string)
    ensures |StoredFor(After(calls), key)| <= LIMIT
  {
    if calls != [] {
      StoredListsStayShort(calls[..|calls| - 1], key);
    }
  }

  // ----- refusals and grants, without the pruned lists

  lemma {:induction false} RecentInOrder(times: seq<real>, now: real)
    requires IsOrderedUpTo(times, now)
    ensures |Recent(times, now)| >= LIMIT <==> |times| >= 2 && now - times[|times| - 2] < 60.0
  {
    var n := |times|;
    if n >= 2 {
      var init := times[..n - 1];
      assert init[..n - 2] == times[..n - 2];
      assert times[n - 2] <= times[n - 1];
      if now - times[n - 2] < 60.0 {
        TwoRecentGrants(times, now);
      } else {
        NothingRecent(init, now);
      }
    } else if n == 1 {
      assert times[..0] == [];
    }
  }

  lemma {:induction false} NothingRecent(times: seq<real>, now: real)
    requires IsOrderedUpTo(times, now) && (times != [] ==> now - times[|times| - 1] >= 60.0)
    ensures Recent(times, now) == []
  {
    if times != [] {
      var init := times[..|times| - 1];
      assert init != [] ==> init[|init| - 1] <= times[|times| - 1];
      NothingRecent(init, now);
    }
  }

  /** A request is refused exactly when the second last request granted to its entry is less than a
      minute ago. */
  lemma RefusedExactly(calls: seq<Call>, next: Call)
    requires ClockNeverRunsBack(calls + [next])
    ensures var granted := Granted(calls, Key(next.entryId));
            !Grants(After(calls), next) <==> |granted| >= 2 && next.now - granted[|granted| - 2] < 60.0
  {
    hide Recent;
    LimitHoldsOverRuns(calls, next);
    var all := calls + [next];
    forall i, j | 0 <= i < j < |calls| ensures calls[i].now <= calls[j].now {
      assert all[i] == calls[i] && all[j] == calls[j];
    }
    assert calls != [] ==> all[|calls| - 1].now <= all[|calls|].now;
    RunsAreLimited(calls, Key(next.entryId), next.now);
    RecentInOrder(Granted(calls, Key(next.entryId)), next.now);
  }

  // ----- entries do not affect each other

  /** Requests without an entry count for the entry called "default"; no two others share a limit. */
  predicate Share(a: string, b: string) {
    a == b || (a in {"", "default"} && b in {"", "default"})
  }

  lemma KeysAreShared(a: string, b: string)
    ensures Key(a) == Key(b) <==> Share(a, b)
  {}

  /** The requests that count for the entry. */
  function Sharing(calls: seq<Call>, entryId: string): seq<Call> {
    if calls == [] then []
    else
      var last := calls[|calls| - 1];
      Sharing(calls[..|calls| - 1], entryId) + if Share(last.entryId, entryId) then [last] else []
  }

  lemma {:induction false} OthersDoNotMatter(calls: seq<Call>, entryId: string)
    ensures StoredFor(After(calls), Key(entryId)) == StoredFor(After(Sharing(calls, entryId)), Key(entryId))
  {
    hide Recent, Key;
    if calls != [] {
      var init, last := calls[..|calls| - 1], calls[|calls| - 1];
      OthersDoNotMatter(init, entryId);
      KeysAreShared(last.entryId, entryId);
      var sharing := Sharing(init, entryId);
      assert (sharing + [last])[..|sharing|] == sharing;
      assert sharing + [] == sharing;
    }
  }

  /** Whether a request is granted depends on the requests of its own entry alone. */
  lemma EntriesAreIndependent(calls: seq<Call>, next: Call)
    ensures Grants(After(calls), next) <==> Grants(After(Sharing(calls, next.entryId)), next)
  {
    OthersDoNotMatter(calls, next.entryId);
  }
}

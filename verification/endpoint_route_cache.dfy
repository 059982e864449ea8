/** The route health cache (src/core/platform/endpoint_route_cache.cpp): what it tells about an endpoint is
    determined by the log of the attempts that were recorded for it. */
module EndpointRouteCache {
  import opened Basics

  /** Times are nanoseconds of the steady clock. */
  type Time = int

  const MINUTE := 60 * 1_000_000_000
  const LATENCY_FRESHNESS := 10 * MINUTE
  const RECENT_SUCCESS_WINDOW := 10 * MINUTE
  const RECENT_FAILURE_WINDOW := 5 * MINUTE
  const RECENT_FAILURE_PENALTY: U64 := 1500
  const HISTORICAL_FAILURE_PENALTY: U64 := 250
  const RECENT_SUCCESS_BONUS: U64 := 25

  datatype Stats = Stats(latency: Option<U64>, lastLatencyAt: Time, lastSuccessAt: Time, lastFailureAt: Time,
                         successCount: U32, failureCount: U32)

  const NO_STATS := Stats(None, 0, 0, 0, 0, 0)

  datatype Snapshot = Snapshot(freshLatency: bool, recentSuccess: bool, recentFailure: bool, latency: U64,
                               successCount: U32, failureCount: U32, score: U64)

  const NO_SNAPSHOT := Snapshot(false, false, false, 0, 0, 0, MAX_U64)

  // ---------------------------------------------------------------- The log

  datatype Event =
    | Success(group: string, key: string, latency: U64, at: Time)
    | Failure(group: string, key: string, at: Time)
    | Cleared

  function CacheKey(group: string, key: string): string { group + "\n" + key }

  /** The events since the last clearing that are kept under a cache key. */
  function ByCacheKey(log: seq<Event>, cacheKey: string): seq<Event> {
    if log == [] then []
    else
      var event := log[|log| - 1];
      if event.Cleared? then []
      else
        var before := ByCacheKey(log[..|log| - 1], cacheKey);
        if CacheKey(event.group, event.key) == cacheKey then before + [event] else before
  }

  /** The events since the last clearing that are about an endpoint of a group. */
  function About(log: seq<Event>, group: string, key: string): seq<Event> {
    if log == [] then []
    else
      var event := log[|log| - 1];
      if event.Cleared? then []
      else
        var before := About(log[..|log| - 1], group, key);
        if event.group == group && event.key == key then before + [event] else before
  }

  /** The longer group starts with the shorter one and a newline, and what comes after that is moved from the
      shorter one's key. */
  predicate Splits(group: string, key: string, longer: string, rest: string) {
    |group| < |longer| && longer[..|group| + 1] == group + "\n" && key == longer[|group| + 1..] + "\n" + rest
  }

  predicate Collide(group: string, key: string, otherGroup: string, otherKey: string) {
    Splits(group, key, otherGroup, otherKey) || Splits(otherGroup, otherKey, group, key)
  }

  lemma SameKeySplits(group: string, key: string, longer: string, rest: string)
    requires |group| < |longer|
    ensures CacheKey(group, key) == CacheKey(longer, rest) <==> Splits(group, key, longer, rest)
  {
    var mine, other := CacheKey(group, key), CacheKey(longer, rest);
    var n := |group|;
    if mine == other {
      assert longer[..n + 1] == other[..n + 1] == mine[..n + 1] == group + "\n";
      assert key == mine[n + 1..] == other[n + 1..] == longer[n + 1..] + "\n" + rest;
    }
    if Splits(group, key, longer, rest) {
      assert other == longer[..n + 1] + longer[n + 1..] + "\n" + rest;
      assert mine == group + "\n" + (longer[n + 1..] + "\n" + rest);
    }
  }

  /** Two endpoints have the same cache key exactly if they are the same or collide at a newline of a group. */
  lemma CacheKeysAgree(group: string, key: string, otherGroup: string, otherKey: string)
    ensures CacheKey(group, key) == CacheKey(otherGroup, otherKey)
            <==> (group == otherGroup && key == otherKey) || Collide(group, key, otherGroup, otherKey)
  {
    if |group| < |otherGroup| {
      SameKeySplits(group, key, otherGroup, otherKey);
    } else if |otherGroup| < |group| {
      SameKeySplits(otherGroup, otherKey, group, key);
    } else {
      var mine, other := CacheKey(group, key), CacheKey(otherGroup, otherKey);
      assert mine[..|group|] == group && other[..|group|] == otherGroup;
      assert mine[|group| + 1..] == key && other[|group| + 1..] == otherKey;
    }
  }

  /** Without newlines in group names, different endpoints have different cache keys. */
  lemma CacheKeysDiffer(group: string, key: string, otherGroup: string, otherKey: string)
    requires '\n' !in group && '\n' !in otherGroup
    ensures CacheKey(group, key) == CacheKey(otherGroup, otherKey) <==> group == otherGroup && key == otherKey
  {
    CacheKeysAgree(group, key, otherGroup, otherKey);
    assert |group| < |otherGroup| ==> otherGroup[..|group| + 1][|group|] in otherGroup;
    assert |otherGroup| < |group| ==> group[..|otherGroup| + 1][|otherGroup|] in group;
  }

  /** With one, they may not. */
  lemma NewlineMixesEndpoints()
    ensures CacheKey("a\nb", "c") == CacheKey("a", "b\nc")
  {
    assert "a\nb" + "\n" + "c" == "a" + "\n" + "b\nc";
  }

  predicate SinceCleared(log: seq<Event>, i: nat)
    requires i < |log|
  {
    forall j :: i <= j < |log| ==> !log[j].Cleared?
  }

  /** Since the last clearing an event of a colliding endpoint was logged. */
  predicate Mixed(log: seq<Event>, group: string, key: string) {
    exists i :: 0 <= i < |log| && SinceCleared(log, i) && Collide(group, key, log[i].group, log[i].key)
  }

  lemma MixedUnfolds(log: seq<Event>, group: string, key: string)
    requires log != []
    ensures var event := log[|log| - 1];
            Mixed(log, group, key)
            <==> !event.Cleared? && (Collide(group, key, event.group, event.key) || Mixed(log[..|log| - 1], group, key))
  {
    hide Collide;
    var before, event := log[..|log| - 1], log[|log| - 1];
    if Mixed(log, group, key) {
      var i :| 0 <= i < |log| && SinceCleared(log, i) && Collide(group, key, log[i].group, log[i].key);
      assert !log[|log| - 1].Cleared?;
      assert i < |before| ==> before[i] == log[i] && SinceCleared(before, i);
    }
    if !event.Cleared? && Mixed(before, group, key) {
      var i :| 0 <= i < |before| && SinceCleared(before, i) && Collide(group, key, before[i].group, before[i].key);
      assert forall j :: i <= j < |before| ==> !before[j].Cleared? && before[j] == log[j];
      assert log[i] == before[i] && SinceCleared(log, i);
    }
    if !event.Cleared? && Collide(group, key, event.group, event.key) {
      assert SinceCleared(log, |log| - 1);
    }
  }

  lemma {:induction false} AboutIsKept(log: seq<Event>, group: string, key: string)
    ensures |About(log, group, key)| <= |ByCacheKey(log, CacheKey(group, key))|
  {
    if log != [] && !log[|log| - 1].Cleared? {
      AboutIsKept(log[..|log| - 1], group, key);
    }
  }

  /** The events that are kept under the key of an endpoint are those about it, exactly if none of a colliding
      endpoint was logged since the last clearing. */
  lemma {:induction false} ByCacheKeyIsAbout(log: seq<Event>, group: string, key: string)
    ensures ByCacheKey(log, CacheKey(group, key)) == About(log, group, key) <==> !Mixed(log, group, key)
    ensures Mixed(log, group, key) ==> |About(log, group, key)| < |ByCacheKey(log, CacheKey(group, key))|
  {
    hide Collide, Mixed, CacheKey;
    if log == [] {
      NothingMixed(group, key);
    } else {
      var before, event := log[..|log| - 1], log[|log| - 1];
      MixedUnfolds(log, group, key);
      if !event.Cleared? {
        ByCacheKeyIsAbout(before, group, key);
        AboutIsKept(before, group, key);
        CacheKeysAgree(event.group, event.key, group, key);
        CollideIsSymmetric(event.group, event.key, group, key);
      }
    }
  }

  lemma NothingMixed(group: string, key: string)
    ensures !Mixed([], group, key)
  {}

  lemma CollideIsSymmetric(group: string, key: string, otherGroup: string, otherKey: string)
    ensures Collide(group, key, otherGroup, otherKey) == Collide(otherGroup, otherKey, group, key)
    ensures Collide(group, key, otherGroup, otherKey) ==> group != otherGroup
  {}

  predicate PlainGroups(log: seq<Event>) {
    forall i :: 0 <= i < |log| && !log[i].Cleared? ==> '\n' !in log[i].group
  }

  /** Without newlines in groups nothing is mixed. */
  lemma PlainIsNotMixed(log: seq<Event>, group: string, key: string)
    requires PlainGroups(log) && '\n' !in group
    ensures !Mixed(log, group, key)
  {
    if i :| 0 <= i < |log| && SinceCleared(log, i) && Collide(group, key, log[i].group, log[i].key) {
      CacheKeysDiffer(group, key, log[i].group, log[i].key);
      CacheKeysAgree(group, key, log[i].group, log[i].key);
      CollideIsSymmetric(group, key, log[i].group, log[i].key);
    }
  }

  // ---------------------------------------------------------------- What the events tell

  function Successes(events: seq<Event>): nat {
    if events == [] then 0 else Successes(events[..|events| - 1]) + if events[|events| - 1].Success? then 1 else 0
  }

  function Failures(events: seq<Event>): nat {
    if events == [] then 0 else Failures(events[..|events| - 1]) + if events[|events| - 1].Failure? then 1 else 0
  }

  function LastSuccess(events: seq<Event>): (r: Option<Event>)
    ensures r.Some? ==> r.value.Success?
    ensures r.Some? <==> Successes(events) > 0
  {
    if events == [] then None
    else if events[|events| - 1].Success? then Some(events[|events| - 1])
    else LastSuccess(events[..|events| - 1])
  }

  function LastFailure(events: seq<Event>): (r: Option<Event>)
    ensures r.Some? ==> r.value.Failure?
    ensures r.Some? <==> Failures(events) > 0
  {
    if events == [] then None
    else if events[|events| - 1].Failure? then Some(events[|events| - 1])
    else LastFailure(events[..|events| - 1])
  }

  function Saturated(n: nat): U32 { if n > MAX_U32 then MAX_U32 else n }

  function Wrap64(n: nat): U64 { n % (MAX_U64 + 1) }

  /** The score of a fresh latency; lower is better. */
  function Score(latency: U64, recentFailure: bool, anyFailure: bool, recentSuccess: bool): U64 {
    var penalty := if recentFailure then RECENT_FAILURE_PENALTY else if anyFailure then HISTORICAL_FAILURE_PENALTY
                   else 0;
    var score := Wrap64(latency + penalty);
    if recentSuccess && score > RECENT_SUCCESS_BONUS then score - RECENT_SUCCESS_BONUS else score
  }

  /** What is told about an endpoint at some time, given the events about it. */
  function Told(events: seq<Event>, now: Time): Snapshot {
    var success, failure := LastSuccess(events), LastFailure(events);
    var recentSuccess := success.Some? && now - success.value.at <= RECENT_SUCCESS_WINDOW;
    var recentFailure := failure.Some? && now - failure.value.at <= RECENT_FAILURE_WINDOW;
    var isFresh := success.Some? && now - success.value.at <= LATENCY_FRESHNESS;
    var latency: U64 := if success.Some? then success.value.latency else 0;
    Snapshot(isFresh, recentSuccess, recentFailure, latency, Saturated(Successes(events)), Saturated(Failures(events)),
             if isFresh then Score(latency, recentFailure, failure.Some?, recentSuccess) else MAX_U64)
  }

  /** The counters and times that are kept for the events about an endpoint. */
  ghost predicate Keeps(stats: Stats, events: seq<Event>) {
    var success, failure := LastSuccess(events), LastFailure(events);
    stats.successCount == Saturated(Successes(events)) && stats.failureCount == Saturated(Failures(events))
    && stats.latency == (if success.Some? then Some(success.value.latency) else None)
    && (success.Some? ==> stats.lastLatencyAt == stats.lastSuccessAt == success.value.at)
    && (failure.Some? ==> stats.lastFailureAt == failure.value.at)
  }

  ghost predicate Agrees(entries: map<string, Stats>, cacheKey: string, events: seq<Event>) {
    if cacheKey in entries then events != [] && Keeps(entries[cacheKey], events) else events == []
  }

  /** The steady clock: it never goes back.  How much time passes before each reading is not known. */
  class Clock {
    const waits: nat -> nat
    var readings: nat
    var now: Time

    constructor (waits: nat -> nat)
      ensures this.waits == waits && readings == 0 && now == TimeAt(waits, 0)
    {
      this.waits, readings, now := waits, 0, 0;
    }

    method Now() returns (time: Time)
      modifies this
      ensures readings == old(readings) + 1 && time == now == old(now) + waits(old(readings))
    {
      now := now + waits(readings);
      readings := readings + 1;
      time := now;
    }
  }

  /** The time at the n-th reading. */
  function TimeAt(waits: nat -> nat, n: nat): Time {
    if n == 0 then 0 else TimeAt(waits, n - 1) + waits(n - 1)
  }

  class EndpointRouteCacheStorage {
    var entries: map<string, Stats>

    /** Everything that was ever recorded or cleared. */
    ghost var log: seq<Event>

    /** The entries agree with the log. */
    ghost predicate Valid()
      reads this
    {
      forall cacheKey :: Agrees(entries, cacheKey, ByCacheKey(log, cacheKey))
    }

    constructor ()
      ensures Valid() && log == []
    {
      entries := map[];
      log := [];
      new;
      forall cacheKey ensures Agrees(entries, cacheKey, ByCacheKey(log, cacheKey)) {
      }
    }

    method TakeSnapshot(group: string, key: string, clock: Clock) returns (snapshot: Snapshot)
      requires Valid()
      modifies clock
      ensures clock.readings == old(clock.readings) + 1
      ensures clock.now == old(clock.now) + clock.waits(old(clock.readings))
      ensures snapshot == Told(ByCacheKey(log, CacheKey(group, key)), clock.now)
    {
      var now := clock.Now();
      snapshot := SnapshotAt(group, key, now);
    }

    /** The critical section; the clock was read before it, so that a later event may already be there. */
    method SnapshotAt(group: string, key: string, now: Time) returns (snapshot: Snapshot)
      requires Valid()
      ensures snapshot == Told(ByCacheKey(log, CacheKey(group, key)), now)
    {
      hide ByCacheKey, CacheKey, Successes, Failures, LastSuccess, LastFailure;
      NothingTold(now);
      var cacheKey := CacheKey(group, key);
      assert Agrees(entries, cacheKey, ByCacheKey(log, cacheKey));
      ghost var told := Told(ByCacheKey(log, cacheKey), now);
      if cacheKey !in entries {
        return NO_SNAPSHOT;
      }
      var entry := entries[cacheKey];
      snapshot := NO_SNAPSHOT.(successCount := entry.successCount, failureCount := entry.failureCount);
      snapshot := snapshot.(recentSuccess := entry.successCount != 0
                            && now - entry.lastSuccessAt <= RECENT_SUCCESS_WINDOW);
      snapshot := snapshot.(recentFailure := entry.failureCount != 0
                            && now - entry.lastFailureAt <= RECENT_FAILURE_WINDOW);
      snapshot := snapshot.(freshLatency := entry.latency.Some? && now - entry.lastLatencyAt <= LATENCY_FRESHNESS);
      snapshot := snapshot.(latency := if entry.latency.Some? then entry.latency.value else 0);
      assert snapshot == told.(score := MAX_U64);
      if !snapshot.freshLatency {
        return;
      }
      var score: U64 := snapshot.latency;
      if snapshot.recentFailure {
        score := Wrap64(score + RECENT_FAILURE_PENALTY);
      } else if snapshot.failureCount != 0 {
        score := Wrap64(score + HISTORICAL_FAILURE_PENALTY);
      }
      if snapshot.recentSuccess && score > RECENT_SUCCESS_BONUS {
        score := score - RECENT_SUCCESS_BONUS;
      }
      snapshot := snapshot.(score := score);
    }

    method RecordSuccess(group: string, key: string, latency: U64, clock: Clock)
      requires Valid()
      modifies this, clock
      ensures Valid() && clock.readings == old(clock.readings) + 1
      ensures clock.now == old(clock.now) + clock.waits(old(clock.readings))
      ensures log == old(log) + [Success(group, key, latency, clock.now)]
    {
      hide ByCacheKey, CacheKey, Successes, Failures, LastSuccess, LastFailure;
      NothingTold(clock.now);
      var cacheKey := CacheKey(group, key);
      var entry := if cacheKey in entries then entries[cacheKey] else NO_STATS;
      ghost var known := ByCacheKey(log, cacheKey);
      assert Agrees(entries, cacheKey, known);
      assert Keeps(entry, known);
      var now := clock.Now();
      entry := entry.(latency := Some(latency));
      entry := entry.(lastLatencyAt := now);
      entry := entry.(lastSuccessAt := entry.lastLatencyAt);
      if entry.successCount != MAX_U32 {
        entry := entry.(successCount := entry.successCount + 1);
      }
      entries := entries[cacheKey := entry];
      log := log + [Success(group, key, latency, now)];
      AfterEvent(known, Success(group, key, latency, now));
      assert Keeps(entry, known + [Success(group, key, latency, now)]);
      StillAgree(old(entries), old(log), cacheKey, entry, Success(group, key, latency, now));
    }

    method RecordFailure(group: string, key: string, clock: Clock)
      requires Valid()
      modifies this, clock
      ensures Valid() && clock.readings == old(clock.readings) + 1
      ensures clock.now == old(clock.now) + clock.waits(old(clock.readings))
      ensures log == old(log) + [Failure(group, key, clock.now)]
    {
      hide ByCacheKey, CacheKey, Successes, Failures, LastSuccess, LastFailure;
      NothingTold(clock.now);
      var cacheKey := CacheKey(group, key);
      var entry := if cacheKey in entries then entries[cacheKey] else NO_STATS;
      ghost var known := ByCacheKey(log, cacheKey);
      assert Agrees(entries, cacheKey, known);
      assert Keeps(entry, known);
      var now := clock.Now();
      entry := entry.(lastFailureAt := now);
      if entry.failureCount != MAX_U32 {
        entry := entry.(failureCount := entry.failureCount + 1);
      }
      entries := entries[cacheKey := entry];
      log := log + [Failure(group, key, now)];
      AfterEvent(known, Failure(group, key, now));
      assert Keeps(entry, known + [Failure(group, key, now)]);
      StillAgree(old(entries), old(log), cacheKey, entry, Failure(group, key, now));
    }

    method Clear()
      requires Valid()
      modifies this
      ensures Valid() && entries == map[] && log == old(log) + [Cleared]
    {
      entries := map[];
      log := log + [Cleared];
    }
  }

  lemma NothingTold(now: Time)
    ensures Keeps(NO_STATS, []) && Told([], now) == NO_SNAPSHOT
  {}

  lemma AppendEvent(log: seq<Event>, event: Event)
    requires !event.Cleared?
    ensures forall cacheKey :: ByCacheKey(log + [event], cacheKey)
                            == ByCacheKey(log, cacheKey) + if CacheKey(event.group, event.key) == cacheKey then [event]
                               else []
  {
    assert (log + [event])[..|log|] == log;
    forall cacheKey ensures ByCacheKey(log + [event], cacheKey)
                         == ByCacheKey(log, cacheKey) + if CacheKey(event.group, event.key) == cacheKey then [event]
                            else []
    {
      assert ByCacheKey(log, cacheKey) + [] == ByCacheKey(log, cacheKey);
    }
  }

  lemma StillAgree(entries: map<string, Stats>, log: seq<Event>, cacheKey: string, entry: Stats, event: Event)
    requires forall other :: Agrees(entries, other, ByCacheKey(log, other))
    requires !event.Cleared? && CacheKey(event.group, event.key) == cacheKey
    requires Keeps(entry, ByCacheKey(log, cacheKey) + [event])
    ensures forall other :: Agrees(entries[cacheKey := entry], other, ByCacheKey(log + [event], other))
  {
    hide ByCacheKey, Keeps;
    AppendEvent(log, event);
    forall other ensures Agrees(entries[cacheKey := entry], other, ByCacheKey(log + [event], other)) {
      assert Agrees(entries, other, ByCacheKey(log, other));
      assert ByCacheKey(log, other) + [] == ByCacheKey(log, other);
    }
  }

  lemma AfterEvent(events: seq<Event>, event: Event)
    ensures Successes(events + [event]) == Successes(events) + if event.Success? then 1 else 0
    ensures Failures(events + [event]) == Failures(events) + if event.Failure? then 1 else 0
    ensures LastSuccess(events + [event]) == if event.Success? then Some(event) else LastSuccess(events)
    ensures LastFailure(events + [event]) == if event.Failure? then Some(event) else LastFailure(events)
  {
    assert (events + [event])[..|events|] == events;
  }

  // ---------------------------------------------------------------- What is told

  /** Times do not go back along the log. */
  predicate InOrder(events: seq<Event>) {
    forall i, j :: 0 <= i < j < |events| && !events[i].Cleared? && !events[j].Cleared? ==> events[i].at <= events[j].at
  }

  predicate IsOfKind(event: Event, success: bool) { if success then event.Success? else event.Failure? }

  ghost predicate AnyWithin(events: seq<Event>, success: bool, now: Time, window: int) {
    exists i :: 0 <= i < |events| && IsOfKind(events[i], success) && now - events[i].at <= window
  }

  /** To look at the last event of a kind is to look at them all. */
  lemma {:induction false} LastDecides(events: seq<Event>, success: bool, now: Time, window: int)
    requires InOrder(events)
    ensures var last := if success then LastSuccess(events) else LastFailure(events);
            AnyWithin(events, success, now, window) <==> last.Some? && now - last.value.at <= window
  {
    if events != [] {
      var before, event := events[..|events| - 1], events[|events| - 1];
      LastDecides(before, success, now, window);
      if IsOfKind(event, success) {
        if i :| 0 <= i < |events| && IsOfKind(events[i], success) && now - events[i].at <= window {
          assert events[i].at <= event.at;
        }
      } else {
        assert forall i :: 0 <= i < |before| ==> before[i] == events[i];
      }
    }
  }

  /** A success or a failure is recent if any that was recorded since the last clearing is, and a latency is fresh
      exactly as long as a success is recent. */
  lemma ToldIsRecent(events: seq<Event>, now: Time)
    requires InOrder(events)
    ensures Told(events, now).recentSuccess <==> AnyWithin(events, true, now, 600_000_000_000)
    ensures Told(events, now).recentFailure <==> AnyWithin(events, false, now, 300_000_000_000)
    ensures Told(events, now).freshLatency == Told(events, now).recentSuccess
  {
    LastDecides(events, true, now, RECENT_SUCCESS_WINDOW);
    LastDecides(events, false, now, RECENT_FAILURE_WINDOW);
  }

  /** The latency that is told is that of the last success, zero without any, and the attempts are counted up to
      2^32 - 1. */
  lemma ToldAttempts(events: seq<Event>, now: Time)
    ensures var told, successes, failures := Told(events, now), At(events, true), At(events, false);
            told.successCount == (if |successes| > 0xFFFF_FFFF then 0xFFFF_FFFF else |successes|)
            && told.failureCount == (if |failures| > 0xFFFF_FFFF then 0xFFFF_FFFF else |failures|)
            && if successes == {} then told.latency == 0
               else exists i :: i in successes && told.latency == events[i].latency && forall j :: j in successes ==>
                   j <= i
  {
    hide At;
    AttemptsAreCounted(events, true);
    AttemptsAreCounted(events, false);
    if At(events, true) != {} {
      var i := LastSuccessAt(events);
    }
  }

  /** The positions of the successes, or of the failures. */
  function At(events: seq<Event>, success: bool): set<nat> {
    set i | 0 <= i < |events| && if success then events[i].Success? else events[i].Failure?
  }

  lemma OneMoreAttempt(events: seq<Event>, success: bool)
    requires events != []
    ensures var n := |events| - 1;
            At(events, success) == At(events[..n], success)
                + if (if success then events[n].Success? else events[n].Failure?) then {n} else {}
  {}

  lemma {:induction false} AttemptsAreCounted(events: seq<Event>, success: bool)
    ensures |At(events, success)| == if success then Successes(events) else Failures(events)
    ensures forall i :: i in At(events, success) ==> i < |events|
  {
    if events == [] {
      assert At(events, success) == {};
    } else {
      OneMoreAttempt(events, success);
      hide At;
      AttemptsAreCounted(events[..|events| - 1], success);
    }
  }

  lemma {:induction false} LastSuccessAt(events: seq<Event>) returns (i: nat)
    requires At(events, true) != {}
    ensures i in At(events, true) && LastSuccess(events) == Some(events[i]) && forall j :: j in At(events, true) ==>
            j <= i
  {
    var n := |events| - 1;
    if events[n].Success? {
      i := n;
    } else {
      var some :| some in At(events, true);
      assert some in At(events[..n], true);
      i := LastSuccessAt(events[..n]);
      assert forall j :: j in At(events, true) ==> j in At(events[..n], true);
    }
  }

  /** The greatest number of milliseconds between two 64-bit nanosecond times. */
  const MAX_ELAPSED := 0x7FFF_FFFF_FFFF_FFFF / 1_000_000

  /** Whole milliseconds, but at least one. */
  method ElapsedMilliseconds(duration: int) returns (elapsed: U64)
    requires -0x8000_0000_0000_0000 <= duration <= 0x7FFF_FFFF_FFFF_FFFF
    ensures 1 <= elapsed <= MAX_ELAPSED
    ensures duration < 2_000_000 <==> elapsed == 1
    ensures duration >= 1_000_000 ==> elapsed * 1_000_000 <= duration < (elapsed + 1) * 1_000_000
  {
    // Conversion to milliseconds drops the fraction, towards zero.
    var milliseconds := if duration >= 0 then duration / 1_000_000 else -(-duration / 1_000_000);
    elapsed := if milliseconds <= 0 then 1 else milliseconds;
  }

  /** All latencies are such as are measured. */
  predicate Measured(events: seq<Event>) {
    forall i :: 0 <= i < |events| && events[i].Success? ==> events[i].latency <= MAX_ELAPSED
  }

  lemma {:induction false} LastIsMeasured(events: seq<Event>)
    requires Measured(events) && LastSuccess(events).Some?
    ensures LastSuccess(events).value.latency <= MAX_ELAPSED
  {
    if !events[|events| - 1].Success? {
      LastIsMeasured(events[..|events| - 1]);
    }
  }

  function Penalty(recentFailure: bool, anyFailure: bool): nat {
    if recentFailure then 1500 else if anyFailure then 250 else 0
  }

  /** A measured latency with its penalty stays below the wrap-around. */
  lemma PlainScore(latency: U64, recentFailure: bool, anyFailure: bool)
    requires latency <= MAX_ELAPSED
    ensures var penalized := latency + Penalty(recentFailure, anyFailure);
            Score(latency, recentFailure, anyFailure, true) == if penalized > 25 then penalized - 25 else penalized
  {}

  /** With measured latencies the score of a fresh one never wraps around: it is the latency, and what failures
      add, less the bonus if there is more than the bonus; and it always is better than that of no fresh one. */
  lemma MeasuredScore(events: seq<Event>, now: Time)
    requires Measured(events)
    ensures var told := Told(events, now);
            var penalty := if told.recentFailure then 1500 else if told.failureCount != 0 then 250 else 0;
            var penalized := told.latency + penalty;
            told.score == (if !told.freshLatency then MAX_U64 else if penalized > 25 then penalized - 25 else penalized)
            && (told.freshLatency <==> told.score < MAX_U64)
  {
    hide Score, Penalty, LastSuccess, LastFailure, Successes, Failures;
    var told := Told(events, now);
    if LastSuccess(events).Some? {
      LastIsMeasured(events);
      PlainScore(told.latency, told.recentFailure, told.failureCount != 0);
      PenaltyIs(told.recentFailure, told.failureCount != 0);
    }
  }

  lemma PenaltyIs(recentFailure: bool, anyFailure: bool)
    ensures Penalty(recentFailure, anyFailure) == if recentFailure then 1500 else if anyFailure then 250 else 0
  {}

  /** Because of the bonus a higher latency can have a better score: for two latencies that do not wrap around,
      exactly if only the higher one gets the bonus and ends below the lower one. */
  lemma ScoreIsNotMonotone(lower: U64, higher: U64, recentFailure: bool, anyFailure: bool)
    requires lower <= higher <= MAX_ELAPSED
    ensures var penalty := Penalty(recentFailure, anyFailure);
            Score(lower, recentFailure, anyFailure, true) > Score(higher, recentFailure, anyFailure, true)
            <==> penalty == 0 && lower <= 25 < higher < lower + 25
    ensures Score(25, false, false, true) > Score(26, false, false, true)
  {
    hide Score;
    PlainScore(lower, recentFailure, anyFailure);
    PlainScore(higher, recentFailure, anyFailure);
    PlainScore(25, false, false);
    PlainScore(26, false, false);
  }

  lemma {:induction false} KeptInOrder(log: seq<Event>, cacheKey: string)
    requires InOrder(log)
    ensures InOrder(ByCacheKey(log, cacheKey))
    ensures forall i :: 0 <= i < |ByCacheKey(log, cacheKey)| ==>
              !ByCacheKey(log, cacheKey)[i].Cleared? && ByCacheKey(log, cacheKey)[i] in log
  {
    if log != [] {
      var event := log[|log| - 1];
      var before := ByCacheKey(log[..|log| - 1], cacheKey);
      KeptInOrder(log[..|log| - 1], cacheKey);
      if !event.Cleared? && CacheKey(event.group, event.key) == cacheKey {
        forall i | 0 <= i < |before| ensures before[i].at <= event.at {
          var j :| 0 <= j < |log| - 1 && log[..|log| - 1][j] == before[i];
          assert log[j] == before[i];
        }
      }
    }
  }

  // ---------------------------------------------------------------- Runs

  datatype Request =
    | Succeed(group: string, key: string, latency: U64)
    | Fail(group: string, key: string)
    | ClearAll

  /** How often the clock is read. */
  function Readings(requests: seq<Request>): nat {
    if requests == [] then 0
    else Readings(requests[..|requests| - 1]) + if requests[|requests| - 1].ClearAll? then 0 else 1
  }

  /** The log of requests, when the times between the readings of the clock are given. */
  function LogOf(requests: seq<Request>, waits: nat -> nat): (log: seq<Event>)
    ensures |log| == |requests|
  {
    if requests == [] then []
    else
      var at := TimeAt(waits, Readings(requests));
      LogOf(requests[..|requests| - 1], waits)
      + [match requests[|requests| - 1]
         case Succeed(group, key, latency) => Success(group, key, latency, at)
         case Fail(group, key) => Failure(group, key, at)
         case ClearAll => Cleared]
  }

  predicate UpTo(log: seq<Event>, now: Time) {
    forall i :: 0 <= i < |log| && !log[i].Cleared? ==> log[i].at <= now
  }

  lemma {:induction false} LogIsInOrder(requests: seq<Request>, waits: nat -> nat)
    ensures InOrder(LogOf(requests, waits)) && UpTo(LogOf(requests, waits), TimeAt(waits, Readings(requests)))
  {
    if requests != [] {
      LogIsInOrder(requests[..|requests| - 1], waits);
    }
  }

  lemma LogGrows(requests: seq<Request>, i: nat, waits: nat -> nat)
    requires i < |requests|
    ensures Readings(requests[..i + 1]) == Readings(requests[..i]) + if requests[i].ClearAll? then 0 else 1
    ensures var at := TimeAt(waits, Readings(requests[..i + 1]));
            LogOf(requests[..i + 1], waits)
            == LogOf(requests[..i], waits)
               + [match requests[i]
                  case Succeed(group, key, latency) => Success(group, key, latency, at)
                  case Fail(group, key) => Failure(group, key, at)
                  case ClearAll => Cleared]
  {
    assert requests[..i + 1][..i] == requests[..i];
  }

  /** After any requests, whatever time passes between them, what is told about an endpoint is determined by the
      log of the requests and the time: the last latency, the counts, and whether any success or failure is
      recent.  Only the requests about that endpoint count, unless a colliding one is mixed in. */
  method TellAfter(requests: seq<Request>, waits: nat -> nat, group: string, key: string) returns (snapshot: Snapshot)
    ensures var log, now := LogOf(requests, waits), TimeAt(waits, Readings(requests) + 1);
            snapshot == Told(ByCacheKey(log, CacheKey(group, key)), now)
            && (!Mixed(log, group, key) ==>
                  snapshot == Told(About(log, group, key), now)
                  && (snapshot.recentSuccess <==> AnyWithin(About(log, group, key), true, now, 600_000_000_000))
                  && (snapshot.recentFailure <==> AnyWithin(About(log, group, key), false, now, 300_000_000_000)))
  {
    hide ByCacheKey, About, Told, AnyWithin, Mixed, CacheKey, LogOf, Readings;
    var clock := new Clock(waits);
    var cache := new EndpointRouteCacheStorage();
    NothingLogged(waits);
    assert requests[..0] == [];
    for i := 0 to |requests|
      invariant fresh(clock) && fresh(cache) && cache.Valid() && clock.waits == waits
      invariant clock.readings == Readings(requests[..i]) && clock.now == TimeAt(waits, Readings(requests[..i]))
      invariant cache.log == LogOf(requests[..i], waits)
    {
      LogGrows(requests, i, waits);
      match requests[i] {
        case Succeed(group, key, latency) => cache.RecordSuccess(group, key, latency, clock);
        case Fail(group, key) => cache.RecordFailure(group, key, clock);
        case ClearAll => cache.Clear();
      }
    }
    assert requests[..|requests|] == requests;
    snapshot := cache.TakeSnapshot(group, key, clock);
    ByCacheKeyIsAbout(cache.log, group, key);
    LogIsInOrder(requests, waits);
    KeptInOrder(cache.log, CacheKey(group, key));
    if !Mixed(cache.log, group, key) {
      ToldIsRecent(About(cache.log, group, key), clock.now);
    }
  }

  lemma NothingLogged(waits: nat -> nat)
    ensures Readings([]) == 0 && LogOf([], waits) == []
  {}
}

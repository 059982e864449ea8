/** Ranking endpoints by their route health (src/core/platform/endpoint_route_cache.hpp). */
module EndpointRanking {
  import opened Basics
  import opened EndpointRouteCache

  datatype ProbeOutcome = Skipped | Succeeded(latency: U64) | Failed

  datatype Candidate<E> = Candidate(endpoint: E, key: string, snapshot: Snapshot, originalIndex: nat)

  // ---------------------------------------------------------------- The order

  /** One endpoint goes before another: no recent failure before one, a fresh latency before none, a lower score
      before a higher one, and an earlier endpoint before a later one. */
  predicate Precedes(left: Snapshot, leftIndex: nat, right: Snapshot, rightIndex: nat) {
    if left.recentFailure != right.recentFailure then right.recentFailure
    else if left.freshLatency != right.freshLatency then left.freshLatency
    else if left.score != right.score then left.score < right.score
    else leftIndex < rightIndex
  }

  lemma PrecedesIsTotalOrder()
    ensures forall a, i, b, j :: Precedes(a, i, b, j) ==> !Precedes(b, j, a, i)
    ensures forall a, i, b, j :: i != j ==> Precedes(a, i, b, j) || Precedes(b, j, a, i)
    ensures forall a, i, b, j, c, k :: Precedes(a, i, b, j) && Precedes(b, j, c, k) ==> Precedes(a, i, c, k)
  {}

  /** The endpoints, by their original indices, in the order of their snapshots: each index once, and each
      endpoint strictly before the ones after it. */
  ghost predicate IsRanking(order: seq<nat>, snapshots: seq<Snapshot>) {
    |order| == |snapshots|
    && (forall i :: 0 <= i < |order| ==> order[i] < |snapshots|)
    && (forall index :: 0 <= index < |snapshots| ==> index in order)
    && forall i, j :: 0 <= i < j < |order| ==> Precedes(snapshots[order[i]], order[i], snapshots[order[j]], order[j])
  }

  /** What comes first in a ranking: the endpoints without recent failure, of these and of the others those with a
      fresh latency, then the lower scores, and of endpoints with equal snapshots the earlier one. */
  lemma RankingOrders(order: seq<nat>, snapshots: seq<Snapshot>)
    requires IsRanking(order, snapshots)
    ensures |order| == |snapshots| && forall i :: 0 <= i < |order| ==> order[i] < |snapshots|
    ensures forall i, j :: 0 <= i < j < |order| ==>
              var s, t := snapshots[order[i]], snapshots[order[j]];
              (s.recentFailure ==> t.recentFailure)
              && (s.recentFailure == t.recentFailure && t.freshLatency ==> s.freshLatency)
              && (s.recentFailure == t.recentFailure && s.freshLatency == t.freshLatency ==>
                    s.score < t.score || (s.score == t.score && order[i] < order[j]))
  {}

  /** Where two rankings agree up to some position, the one has the other's next index there or later. */
  lemma NotEarlier(order: seq<nat>, other: seq<nat>, snapshots: seq<Snapshot>, n: nat, i: nat)
    requires IsRanking(order, snapshots) && IsRanking(other, snapshots) && n < |snapshots| && order[..n] == other[..n]
    requires i < |order| && order[i] == other[n]
    ensures n <= i && (i == n || Precedes(snapshots[order[n]], order[n], snapshots[other[n]], other[n]))
  {
    forall k | 0 <= k < n ensures order[k] != other[n] {
      assert order[k] == order[..n][k] == other[..n][k] == other[k];
      assert Precedes(snapshots[other[k]], other[k], snapshots[other[n]], other[n]);
    }
  }

  lemma {:induction false} RankingsAgree(order: seq<nat>, other: seq<nat>, snapshots: seq<Snapshot>, n: nat)
    requires IsRanking(order, snapshots) && IsRanking(other, snapshots) && n <= |snapshots|
    ensures order[..n] == other[..n]
  {
    if n > 0 {
      RankingsAgree(order, other, snapshots, n - 1);
      assert other[n - 1] in order && order[n - 1] in other;
      var i :| 0 <= i < |order| && order[i] == other[n - 1];
      var j :| 0 <= j < |other| && other[j] == order[n - 1];
      NotEarlier(order, other, snapshots, n - 1, i);
      NotEarlier(other, order, snapshots, n - 1, j);
      assert order[..n] == order[..n - 1] + [order[n - 1]] && other[..n] == other[..n - 1] + [other[n - 1]];
    }
  }

  /** There is only one ranking. */
  lemma RankingIsUnique(order: seq<nat>, other: seq<nat>, snapshots: seq<Snapshot>)
    requires IsRanking(order, snapshots) && IsRanking(other, snapshots)
    ensures order == other
  {
    RankingsAgree(order, other, snapshots, |snapshots|);
    assert order[..|snapshots|] == order && other[..|snapshots|] == other;
  }

  function Identity(n: nat): seq<nat> { seq(n, i => i) }

  /** To rank what is ranked already changes nothing. */
  lemma RankingAgain(order: seq<nat>, snapshots: seq<Snapshot>, again: seq<nat>)
    requires IsRanking(order, snapshots)
    requires IsRanking(again, seq(|order|, i requires 0 <= i < |order| => snapshots[order[i]]))
    ensures again == Identity(|order|)
  {
    var ranked := seq(|order|, i requires 0 <= i < |order| => snapshots[order[i]]);
    var identity := Identity(|order|);
    forall index | 0 <= index < |ranked| ensures index in identity {
      assert identity[index] == index;
    }
    forall i, j | 0 <= i < j < |identity| ensures Precedes(ranked[i], i, ranked[j], j) {
      assert Precedes(snapshots[order[i]], order[i], snapshots[order[j]], order[j]);
    }
    RankingIsUnique(again, identity, ranked);
  }

  // ---------------------------------------------------------------- Sorting

  predicate Sorted<E>(candidates: seq<Candidate<E>>) {
    forall i, j :: 0 <= i < j < |candidates| ==> Before(candidates[i], candidates[j])
  }

  predicate Before<E>(left: Candidate<E>, right: Candidate<E>) {
    Precedes(left.snapshot, left.originalIndex, right.snapshot, right.originalIndex)
  }

  /** Sorting by the composite key, one candidate after the other. */
  method StableSort<E>(candidates: seq<Candidate<E>>) returns (sorted: seq<Candidate<E>>)
    requires forall i, j :: 0 <= i < j < |candidates| ==> candidates[i].originalIndex != candidates[j].originalIndex
    ensures Sorted(sorted) && |sorted| == |candidates|
    ensures forall c :: c in sorted <==> c in candidates
  {
    sorted := [];
    for n := 0 to |candidates|
      invariant Sorted(sorted) && |sorted| == n
      invariant forall c :: c in sorted <==> c in candidates[..n]
    {
      assert forall c :: c in candidates[..n + 1] <==> c in candidates[..n] || c == candidates[n];
      sorted := Insert(sorted, candidates[n]);
    }
    assert candidates[..|candidates|] == candidates;
  }

  method Insert<E>(sorted: seq<Candidate<E>>, candidate: Candidate<E>) returns (result: seq<Candidate<E>>)
    requires Sorted(sorted) && forall c :: c in sorted ==> c.originalIndex != candidate.originalIndex
    ensures Sorted(result) && |result| == |sorted| + 1
    ensures forall c :: c in result <==> c in sorted || c == candidate
  {
    hide Precedes;
    PrecedesIsTotalOrder();
    var i := |sorted|;
    while i > 0 && Before(candidate, sorted[i - 1])
      invariant 0 <= i <= |sorted|
      invariant forall j :: i <= j < |sorted| ==> Before(candidate, sorted[j])
    {
      i := i - 1;
    }
    assert i > 0 ==> sorted[i - 1] in sorted;
    assert forall j :: 0 <= j < i ==> Before(sorted[j], candidate);
    result := sorted[..i] + [candidate] + sorted[i..];
    assert forall c :: c in sorted <==> c in sorted[..i] || c in sorted[i..];
  }

  // ---------------------------------------------------------------- Probing and ranking

  /** When a snapshot was taken: how much of the log there was, and the time. */
  datatype Moment = Moment(logged: nat, time: Time)

  /** The snapshot is what the log tells about the endpoint at the moment. */
  ghost predicate TakenAt(snapshot: Snapshot, moment: Moment, log: seq<Event>, cacheKey: string) {
    moment.logged <= |log| && snapshot == Told(ByCacheKey(log[..moment.logged], cacheKey), moment.time)
  }

  /** How a ranking came about: the first snapshot of each endpoint, which endpoints were probed, and the snapshots
      that the ranking goes by, with their moments. */
  datatype Trace = Trace(first: seq<Snapshot>, probed: seq<nat>, last: seq<Snapshot>, moments: seq<Moment>)

  /** The event that the outcome of a probe is recorded as. */
  ghost predicate IsOutcome(event: Event, group: string, key: string, outcome: ProbeOutcome) {
    match outcome
    case Skipped => false
    case Succeeded(latency) => event.Success? && event.group == group && event.key == key && event.latency == latency
    case Failed => event.Failure? && event.group == group && event.key == key
  }

  /** The probes go through the first `n` endpoints, in order: those without a fresh latency are probed, until the
      run is cancelled or as many as allowed have been, not counting skipped probes.  Each probe is logged, and
      its endpoint is looked up again; the others keep their first snapshots. */
  ghost predicate ProbedUpTo(n: nat, trace: Trace, before: seq<Event>, log: seq<Event>, group: string,
                             keys: seq<string>, probe: nat -> ProbeOutcome, cancelled: nat -> bool, most: nat)
  {
    |trace.first| == |trace.last| == |trace.moments| == |keys| && n <= |keys|
    && |trace.probed| <= most && before <= log && |log| == |before| + |trace.probed|
    && (forall j :: 0 <= j < |trace.probed| ==>
        trace.probed[j] < n && IsProbed(j, trace, before, log, group, keys, probe, cancelled))
    && (forall j, k :: 0 <= j < k < |trace.probed| ==> trace.probed[j] < trace.probed[k])
    && (forall i :: 0 <= i < |keys| ==> TakenAt(trace.last[i], trace.moments[i], log, CacheKey(group, keys[i])))
    && (forall i :: 0 <= i < |keys| && i !in trace.probed ==>
        trace.last[i] == trace.first[i] && trace.moments[i].logged == |before|)
    && (forall i :: 0 <= i < n && i !in trace.probed ==>
          trace.first[i].freshLatency || probe(i).Skipped? || |trace.probed| == most
          || exists c :: 0 <= c <= i && cancelled(c))
  }

  ghost predicate IsProbed(j: nat, trace: Trace, before: seq<Event>, log: seq<Event>, group: string, keys: seq<string>,
                           probe: nat -> ProbeOutcome, cancelled: nat -> bool)
    requires j < |trace.probed| && |log| == |before| + |trace.probed|
    requires |trace.first| == |trace.moments| == |keys|
  {
    var i := trace.probed[j];
    i < |keys| && !trace.first[i].freshLatency && (forall c :: 0 <= c <= i ==> !cancelled(c))
    && IsOutcome(log[|before| + j], group, keys[i], probe(i)) && trace.moments[i].logged == |before| + j + 1
  }

  /** No time passes between readings of the clock. */
  ghost predicate Stands(clock: Clock) { forall n :: clock.waits(n) == 0 }

  predicate Within(moments: seq<Moment>, since: Time, until: Time) {
    forall i :: 0 <= i < |moments| ==> since <= moments[i].time <= until
  }

  /** The first snapshots of all endpoints. */
  method Gather<E>(cache: EndpointRouteCacheStorage, clock: Clock, group: string, endpoints: seq<E>, keyOf: E -> string)
    returns (candidates: seq<Candidate<E>>, ghost moments: seq<Moment>)
    requires cache.Valid()
    modifies clock
    ensures clock.now >= old(clock.now) && (Stands(clock) ==> clock.now == old(clock.now))
    ensures |candidates| == |moments| == |endpoints| && Within(moments, old(clock.now), clock.now)
    ensures forall i :: 0 <= i < |endpoints| ==>
              candidates[i].endpoint == endpoints[i] && candidates[i].key == keyOf(endpoints[i])
                  && candidates[i].originalIndex == i
    ensures forall i :: 0 <= i < |endpoints| ==>
              moments[i].logged == |cache.log|
              && TakenAt(candidates[i].snapshot, moments[i], cache.log, CacheKey(group, candidates[i].key))
  {
    hide Told, ByCacheKey, CacheKey;
    candidates, moments := [], [];
    for index := 0 to |endpoints|
      invariant cache.Valid() && clock.now >= old(clock.now) && (Stands(clock) ==> clock.now == old(clock.now))
      invariant |candidates| == |moments| == index && Within(moments, old(clock.now), clock.now)
      invariant forall i :: 0 <= i < index ==>
                  candidates[i].endpoint == endpoints[i] && candidates[i].key == keyOf(endpoints[i])
                  && candidates[i].originalIndex == i
      invariant forall i :: 0 <= i < index ==>
                  moments[i].logged == |cache.log|
                  && TakenAt(candidates[i].snapshot, moments[i], cache.log, CacheKey(group, candidates[i].key))
    {
      var key := keyOf(endpoints[index]);
      var snapshot := cache.TakeSnapshot(group, key, clock);
      assert cache.log[..|cache.log|] == cache.log;
      candidates := candidates + [Candidate(endpoints[index], key, snapshot, index)];
      moments := moments + [Moment(|cache.log|, clock.now)];
    }
  }

  lemma NotProbed(n: nat, trace: Trace, before: seq<Event>, log: seq<Event>, group: string, keys: seq<string>,
                  probe: nat -> ProbeOutcome, cancelled: nat -> bool, most: nat)
    requires n < |keys| && ProbedUpTo(n, trace, before, log, group, keys, probe, cancelled, most)
    requires trace.first[n].freshLatency || probe(n).Skipped? || |trace.probed| == most || cancelled(n)
    ensures ProbedUpTo(n + 1, trace, before, log, group, keys, probe, cancelled, most)
    ensures cancelled(n) ==> ProbedUpTo(|keys|, trace, before, log, group, keys, probe, cancelled, most)
  {
    hide TakenAt, IsProbed;
  }

  lemma NowProbed(n: nat, trace: Trace, before: seq<Event>, log: seq<Event>, group: string, keys: seq<string>,
                  probe: nat -> ProbeOutcome, cancelled: nat -> bool, most: nat,
                  event: Event, snapshot: Snapshot, moment: Moment)
    requires n < |keys| && ProbedUpTo(n, trace, before, log, group, keys, probe, cancelled, most)
    requires |trace.probed| < most && !trace.first[n].freshLatency && forall c :: 0 <= c <= n ==> !cancelled(c)
    requires IsOutcome(event, group, keys[n], probe(n)) && moment.logged == |log| + 1
    requires TakenAt(snapshot, moment, log + [event], CacheKey(group, keys[n]))
    ensures ProbedUpTo(n + 1,
                       Trace(trace.first, trace.probed + [n], trace.last[n := snapshot], trace.moments[n := moment]),
                       before, log + [event], group, keys, probe, cancelled, most)
  {
    hide IsOutcome, TakenAt, CacheKey;
    var after := Trace(trace.first, trace.probed + [n], trace.last[n := snapshot], trace.moments[n := moment]);
    forall i | 0 <= i < |keys|
      ensures TakenAt(after.last[i], after.moments[i], log + [event], CacheKey(group, keys[i]))
    {
      TakenBefore(trace.last[i], trace.moments[i], log, event, CacheKey(group, keys[i]));
    }
    forall j | 0 <= j < |after.probed|
      ensures after.probed[j] < n + 1 && IsProbed(j, after, before, log + [event], group, keys, probe, cancelled)
    {
      assert j < |trace.probed| ==> IsProbed(j, trace, before, log, group, keys, probe, cancelled);
    }
    forall i | 0 <= i < |keys| && i !in after.probed ensures i !in trace.probed && i != n {
      assert i in trace.probed ==> i in after.probed;
      assert after.probed[|trace.probed|] == n;
    }
  }

  lemma TakenBefore(snapshot: Snapshot, moment: Moment, log: seq<Event>, event: Event, cacheKey: string)
    requires TakenAt(snapshot, moment, log, cacheKey)
    ensures TakenAt(snapshot, moment, log + [event], cacheKey)
  {
    assert (log + [event])[..moment.logged] == log[..moment.logged];
  }

  /** Probe endpoints that have no fresh latency. */
  method ProbeEndpoints<E>(cache: EndpointRouteCacheStorage, clock: Clock, group: string, candidates: seq<Candidate<E>>,
                           probe: nat -> ProbeOutcome, cancelled: nat -> bool, most: nat,
                           ghost moments: seq<Moment>, ghost since: Time)
    returns (updated: seq<Candidate<E>>, ghost trace: Trace)
    requires cache.Valid() && |moments| == |candidates| && Within(moments, since, clock.now)
    requires forall i :: 0 <= i < |candidates| ==>
               moments[i].logged == |cache.log|
               && TakenAt(candidates[i].snapshot, moments[i], cache.log, CacheKey(group, candidates[i].key))
    modifies cache, clock
    ensures cache.Valid() && clock.now >= old(clock.now) && (Stands(clock) ==> clock.now == old(clock.now))
    ensures |updated| == |candidates| && Within(trace.moments, since, clock.now)
    ensures ProbedUpTo(|candidates|, trace, old(cache.log), cache.log, group, Keys(candidates), probe, cancelled, most)
    ensures trace.first == Snapshots(candidates) && trace.last == Snapshots(updated)
    ensures forall i :: 0 <= i < |candidates| ==> updated[i] == candidates[i].(snapshot := updated[i].snapshot)
  {
    hide ProbedUpTo, TakenAt, CacheKey, IsOutcome;
    updated := candidates;
    var probesUsed := 0;
    ghost var keys := Keys(candidates);
    trace := Trace(Snapshots(candidates), [], Snapshots(candidates), moments);
    NothingProbed(trace, cache.log, group, keys, probe, cancelled, most);
    for i := 0 to |updated|
      invariant cache.Valid() && clock.now >= old(clock.now) && (Stands(clock) ==> clock.now == old(clock.now))
      invariant |updated| == |candidates| && Within(trace.moments, since, clock.now)
      invariant ProbedUpTo(i, trace, old(cache.log), cache.log, group, keys, probe, cancelled, most)
      invariant forall c :: 0 <= c < i ==> !cancelled(c)
      invariant probesUsed == |trace.probed| <= most && |trace.moments| == |candidates|
      invariant trace.first == Snapshots(candidates) && trace.last == Snapshots(updated)
      invariant forall j :: 0 <= j < |candidates| ==> updated[j] == candidates[j].(snapshot := updated[j].snapshot)
      invariant forall j :: i <= j < |candidates| ==> updated[j] == candidates[j]
    {
      if cancelled(i) {
        NotProbed(i, trace, old(cache.log), cache.log, group, keys, probe, cancelled, most);
        break;
      }
      if updated[i].snapshot.freshLatency || probesUsed >= most || probe(i).Skipped? {
        NotProbed(i, trace, old(cache.log), cache.log, group, keys, probe, cancelled, most);
        continue;
      }
      ghost var before := cache.log;
      var snapshot: Snapshot;
      ghost var moment: Moment;
      snapshot, moment := ProbeOne(cache, clock, group, updated[i].key, probe(i));
      NowProbed(i, trace, old(cache.log), before, group, keys, probe, cancelled, most,
                cache.log[|before|], snapshot, moment);
      updated := updated[i := updated[i].(snapshot := snapshot)];
      trace := Trace(trace.first, trace.probed + [i], trace.last[i := snapshot], trace.moments[i := moment]);
      probesUsed := probesUsed + 1;
    }
  }

  /** Record the outcome of a probe that was not skipped, and look the endpoint up again. */
  method ProbeOne(cache: EndpointRouteCacheStorage, clock: Clock, group: string, key: string, outcome: ProbeOutcome)
    returns (snapshot: Snapshot, ghost moment: Moment)
    requires cache.Valid() && !outcome.Skipped?
    modifies cache, clock
    ensures cache.Valid() && clock.now >= old(clock.now) && (Stands(clock) ==> clock.now == old(clock.now))
    ensures moment.time == clock.now
    ensures |cache.log| == |old(cache.log)| + 1 && cache.log == old(cache.log) + [cache.log[|old(cache.log)|]]
    ensures IsOutcome(cache.log[|old(cache.log)|], group, key, outcome)
    ensures moment.logged == |cache.log| && TakenAt(snapshot, moment, cache.log, CacheKey(group, key))
  {
    hide Told, ByCacheKey, CacheKey;
    if outcome.Succeeded? {
      cache.RecordSuccess(group, key, outcome.latency, clock);
    } else {
      cache.RecordFailure(group, key, clock);
    }
    snapshot := cache.TakeSnapshot(group, key, clock);
    moment := Moment(|cache.log|, clock.now);
    assert cache.log[..|cache.log|] == cache.log;
  }

  function Keys<E>(candidates: seq<Candidate<E>>): seq<string> {
    seq(|candidates|, i requires 0 <= i < |candidates| => candidates[i].key)
  }

  function Snapshots<E>(candidates: seq<Candidate<E>>): seq<Snapshot> {
    seq(|candidates|, i requires 0 <= i < |candidates| => candidates[i].snapshot)
  }

  lemma NothingProbed(trace: Trace, log: seq<Event>, group: string, keys: seq<string>,
                      probe: nat -> ProbeOutcome, cancelled: nat -> bool, most: nat)
    requires trace.probed == [] && trace.first == trace.last && |trace.first| == |trace.moments| == |keys|
    requires forall i :: 0 <= i < |keys| ==>
               trace.moments[i].logged == |log|
                   && TakenAt(trace.last[i], trace.moments[i], log, CacheKey(group, keys[i]))
    ensures ProbedUpTo(0, trace, log, log, group, keys, probe, cancelled, most)
  {}

  /** Rank the endpoints of a group: the result is the only ranking by the last snapshots of the endpoints. */
  method RankEndpoints<E>(cache: EndpointRouteCacheStorage, clock: Clock, group: string, endpoints: seq<E>,
                          keyOf: E -> string,
                          probe: nat -> ProbeOutcome, cancelled: nat -> bool, most: nat)
    returns (ranked: seq<E>, ghost order: seq<nat>, ghost trace: Trace)
    requires cache.Valid()
    modifies cache, clock
    ensures cache.Valid() && clock.now >= old(clock.now) && (Stands(clock) ==> clock.now == old(clock.now))
    ensures Within(trace.moments, old(clock.now), clock.now)
    ensures |endpoints| <= 1 ==> ranked == endpoints && cache.log == old(cache.log) && order == Identity(|endpoints|)
    ensures |endpoints| > 1 ==>
              ProbedUpTo(|endpoints|, trace, old(cache.log), cache.log, group, KeysOf(endpoints, keyOf), probe,
                         cancelled, most)
    ensures |endpoints| > 1 ==> |trace.last| == |endpoints| && IsRanking(order, trace.last)
    // Endpoints with a fresh latency are not probed, and all others are if they may be
    ensures |endpoints| > 1 ==>
              |trace.probed| <= most && |trace.first| == |endpoints|
              && (forall i :: i in trace.probed ==>
                    i < |endpoints| && !trace.first[i].freshLatency && !probe(i).Skipped?)
              && (forall c, i :: i in trace.probed && 0 <= c <= i ==> !cancelled(c))
    ensures |endpoints| > 1 && |trace.probed| < most && (forall c :: !cancelled(c)) ==>
            forall i :: 0 <= i < |endpoints| && !trace.first[i].freshLatency && !probe(i).Skipped? ==> i in trace.probed
    // No recent failure first, then a fresh latency, then the lower score, then the earlier endpoint
    ensures |endpoints| > 1 ==> |order| == |endpoints| && forall i :: 0 <= i < |order| ==> order[i] < |endpoints|
    ensures |endpoints| > 1 ==>
            forall i, j :: 0 <= i < j < |order| ==>
              var s, t := trace.last[order[i]], trace.last[order[j]];
              (s.recentFailure ==> t.recentFailure)
              && (s.recentFailure == t.recentFailure && t.freshLatency ==> s.freshLatency)
              && (s.recentFailure == t.recentFailure && s.freshLatency == t.freshLatency ==>
                    s.score < t.score || (s.score == t.score && order[i] < order[j]))
    ensures Arranged(ranked, endpoints, order)
  {
    hide ProbedUpTo, TakenAt, CacheKey, IsRanking, Arranged;
    order, trace := Identity(|endpoints|), Trace([], [], [], []);
    if |endpoints| <= 1 {
      ranked := endpoints;
      IdentityArranges(endpoints);
      return;
    }
    var candidates: seq<Candidate<E>>;
    ghost var moments: seq<Moment>;
    candidates, moments := Gather(cache, clock, group, endpoints, keyOf);
    assert Keys(candidates) == KeysOf(endpoints, keyOf);
    var updated;
    updated, trace := ProbeEndpoints(cache, clock, group, candidates, probe, cancelled, most, moments, old(clock.now));
    var sorted := StableSort(updated);
    order := seq(|sorted|, i requires 0 <= i < |sorted| => sorted[i].originalIndex);
    SortedIsRanking(updated, sorted, order);
    RankingOrders(order, trace.last);
    ProbedMeans(trace, old(cache.log), cache.log, group, KeysOf(endpoints, keyOf), probe, cancelled, most);
    ranked := [];
    for i := 0 to |sorted|
      invariant |ranked| == i && forall j :: 0 <= j < i ==> ranked[j] == sorted[j].endpoint
    {
      ranked := ranked + [sorted[i].endpoint];
    }
    RankedIsArranged(updated, sorted, endpoints, ranked, order);
  }

  lemma ProbedMeans(trace: Trace, before: seq<Event>, log: seq<Event>, group: string, keys: seq<string>,
                    probe: nat -> ProbeOutcome, cancelled: nat -> bool, most: nat)
    requires ProbedUpTo(|keys|, trace, before, log, group, keys, probe, cancelled, most)
    ensures |trace.probed| <= most && |trace.first| == |keys|
    ensures forall i :: i in trace.probed ==> i < |keys| && !trace.first[i].freshLatency && !probe(i).Skipped?
    ensures forall c, i :: i in trace.probed && 0 <= c <= i ==> !cancelled(c)
    ensures |trace.probed| < most && (forall c :: !cancelled(c)) ==>
            forall i :: 0 <= i < |keys| && !trace.first[i].freshLatency && !probe(i).Skipped? ==> i in trace.probed
  {
    hide TakenAt;
    forall i | i in trace.probed
      ensures i < |keys| && !trace.first[i].freshLatency && !probe(i).Skipped?
      ensures forall c :: 0 <= c <= i ==> !cancelled(c)
    {
      var j :| 0 <= j < |trace.probed| && trace.probed[j] == i;
      assert IsProbed(j, trace, before, log, group, keys, probe, cancelled);
    }
  }

  function KeysOf<E>(endpoints: seq<E>, keyOf: E -> string): seq<string> {
    seq(|endpoints|, i requires 0 <= i < |endpoints| => keyOf(endpoints[i]))
  }

  /** Each endpoint is where the order has its index. */
  ghost predicate Arranged<E>(ranked: seq<E>, endpoints: seq<E>, order: seq<nat>) {
    |ranked| == |endpoints| == |order|
    && forall i :: 0 <= i < |order| ==> order[i] < |endpoints| && ranked[i] == endpoints[order[i]]
  }

  lemma IdentityArranges<E>(endpoints: seq<E>)
    ensures Arranged(endpoints, endpoints, Identity(|endpoints|))
  {}

  lemma SortedIsRanking<E>(candidates: seq<Candidate<E>>, sorted: seq<Candidate<E>>, order: seq<nat>)
    requires forall i :: 0 <= i < |candidates| ==> candidates[i].originalIndex == i
    requires Sorted(sorted) && |sorted| == |candidates| && forall c :: c in sorted <==> c in candidates
    requires |order| == |sorted| && forall i :: 0 <= i < |order| ==> order[i] == sorted[i].originalIndex
    ensures IsRanking(order, Snapshots(candidates))
  {
    hide Precedes;
    forall i | 0 <= i < |sorted| ensures order[i] < |candidates| && sorted[i] == candidates[order[i]] {
      assert sorted[i] in candidates;
    }
    forall index | 0 <= index < |candidates| ensures index in order {
      assert candidates[index] in sorted;
      var i :| 0 <= i < |sorted| && sorted[i] == candidates[index];
      assert order[i] == index;
    }
    forall i, j | 0 <= i < j < |order|
      ensures Precedes(Snapshots(candidates)[order[i]], order[i], Snapshots(candidates)[order[j]], order[j])
    {
      assert Before(sorted[i], sorted[j]);
    }
  }

  lemma RankedIsArranged<E>(candidates: seq<Candidate<E>>, sorted: seq<Candidate<E>>, endpoints: seq<E>, ranked: seq<E>,
                            order: seq<nat>)
    requires |candidates| == |endpoints| == |sorted| == |ranked| == |order|
    requires forall i :: 0 <= i < |candidates| ==>
            candidates[i].originalIndex == i && candidates[i].endpoint == endpoints[i]
    requires forall c :: c in sorted ==> c in candidates
    requires forall i :: 0 <= i < |order| ==> order[i] == sorted[i].originalIndex && ranked[i] == sorted[i].endpoint
    ensures Arranged(ranked, endpoints, order)
  {
    forall i | 0 <= i < |order| ensures order[i] < |endpoints| && ranked[i] == endpoints[order[i]] {
      assert sorted[i] in candidates;
    }
  }

  /** The ranked endpoints are the same endpoints, each as often. */
  lemma {:induction false} ArrangedIsPermutation<E>(ranked: seq<E>, endpoints: seq<E>, order: seq<nat>,
                                                    snapshots: seq<Snapshot>)
    requires Arranged(ranked, endpoints, order) && IsRanking(order, snapshots)
    ensures multiset(ranked) == multiset(endpoints)
  {
    forall i, j | 0 <= i < j < |order| ensures order[i] != order[j] {
      assert Precedes(snapshots[order[i]], order[i], snapshots[order[j]], order[j]);
    }
    assert |endpoints| == |snapshots|;
    PickedAll(ranked, endpoints, order);
  }

  lemma {:induction false} PickedAll<E>(ranked: seq<E>, endpoints: seq<E>, order: seq<nat>)
    requires Arranged(ranked, endpoints, order)
    requires forall index :: 0 <= index < |endpoints| ==> index in order
    requires forall i, j :: 0 <= i < j < |order| ==> order[i] != order[j]
    ensures multiset(ranked) == multiset(endpoints)
    decreases |endpoints|
  {
    var n := |endpoints|;
    if n > 0 {
      assert n - 1 in order;
      var i :| 0 <= i < n && order[i] == n - 1;
      WithoutLast(ranked, endpoints, order, i);
      PickedAll(Without(ranked, i), endpoints[..n - 1], Without(order, i));
      WithoutAndWith(ranked, i);
      assert endpoints == endpoints[..n - 1] + [endpoints[n - 1]];
    }
  }

  function Without<E>(list: seq<E>, i: nat): seq<E>
    requires i < |list|
  {
    list[..i] + list[i + 1..]
  }

  lemma WithoutAndWith<E>(list: seq<E>, i: nat)
    requires i < |list|
    ensures multiset(list) == multiset(Without(list, i)) + multiset{list[i]}
  {
    assert list == list[..i] + [list[i]] + list[i + 1..];
  }

  lemma WithoutLast<E>(ranked: seq<E>, endpoints: seq<E>, order: seq<nat>, i: nat)
    requires Arranged(ranked, endpoints, order) && i < |order| && order[i] == |endpoints| - 1
    requires forall index :: 0 <= index < |endpoints| ==> index in order
    requires forall i, j :: 0 <= i < j < |order| ==> order[i] != order[j]
    ensures var fewer, rest := Without(order, i), endpoints[..|endpoints| - 1];
            Arranged(Without(ranked, i), rest, fewer)
            && (forall index :: 0 <= index < |rest| ==> index in fewer)
            && forall i, j :: 0 <= i < j < |fewer| ==> fewer[i] != fewer[j]
  {
    var fewer := Without(order, i);
    forall index | 0 <= index < |endpoints| - 1 ensures index in fewer {
      assert index in order;
      var j :| 0 <= j < |order| && order[j] == index;
      assert fewer[if j < i then j else j - 1] == index;
    }
  }

  /** To rank again, with no probes, changes nothing while the snapshots are the same; and they are as long as the
      clock stands still. */
  method RankTwice<E>(cache: EndpointRouteCacheStorage, clock: Clock, group: string, endpoints: seq<E>,
                      keyOf: E -> string,
                      cancelled: nat -> bool)
    returns (once: seq<E>, twice: seq<E>, ghost trace: Trace, ghost again: Trace, ghost order: seq<nat>)
    requires cache.Valid()
    modifies cache, clock
    ensures cache.log == old(cache.log)
    ensures |endpoints| > 1 ==> IsRanking(order, trace.last) && |order| == |again.last| == |endpoints|
    ensures |endpoints| > 1 && (forall i :: 0 <= i < |order| ==> again.last[i] == trace.last[order[i]]) ==>
            twice == once
    ensures |endpoints| > 1 && Stands(clock) ==> forall i :: 0 <= i < |order| ==> again.last[i] == trace.last[order[i]]
    ensures |endpoints| <= 1 || Stands(clock) ==> twice == once
  {
    hide IsRanking, Told, ProbedUpTo, ByCacheKey, CacheKey;
    ghost var reorder;
    once, order, trace := RankEndpoints(cache, clock, group, endpoints, keyOf, _ => Skipped, cancelled, 0);
    ghost var log := cache.log;
    twice, reorder, again := RankEndpoints(cache, clock, group, once, keyOf, _ => Skipped, cancelled, 0);
    if |endpoints| > 1 {
      NothingWasProbed(trace, old(cache.log), log, group, KeysOf(endpoints, keyOf), _ => Skipped, cancelled);
      NothingWasProbed(again, log, cache.log, group, KeysOf(once, keyOf), _ => Skipped, cancelled);
      RankingsRange(order, trace.last);
      if Stands(clock) {
        forall i | 0 <= i < |order| ensures again.last[i] == trace.last[order[i]] {
          assert once[i] == endpoints[order[i]];
          assert again.moments[i].time == trace.moments[order[i]].time;
        }
      }
      if forall i :: 0 <= i < |order| ==> again.last[i] == trace.last[order[i]] {
        assert again.last == seq(|order|, i requires 0 <= i < |order| => trace.last[order[i]]);
        RankingAgain(order, trace.last, reorder);
      }
    }
  }

  /** Without probes the log stays, and all snapshots are of the whole log. */
  lemma NothingWasProbed(trace: Trace, before: seq<Event>, log: seq<Event>, group: string, keys: seq<string>,
                         probe: nat -> ProbeOutcome, cancelled: nat -> bool)
    requires ProbedUpTo(|keys|, trace, before, log, group, keys, probe, cancelled, 0)
    ensures log == before && |trace.last| == |trace.moments| == |keys|
    ensures forall i :: 0 <= i < |keys| ==>
              trace.last[i] == Told(ByCacheKey(log, CacheKey(group, keys[i])), trace.moments[i].time)
  {
    hide Told, ByCacheKey, CacheKey;
    assert log[..|log|] == log;
  }

  lemma RankingsRange(order: seq<nat>, snapshots: seq<Snapshot>)
    requires IsRanking(order, snapshots)
    ensures |order| == |snapshots| && forall i :: 0 <= i < |order| ==> order[i] < |snapshots|
  {}
}

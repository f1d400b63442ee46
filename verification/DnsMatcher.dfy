/** The DNS probes: queries under way, matched by their responses, with latencies per address pair.
    Each handler is one atomic step. */
module DnsMatcher {
  import opened Machine
  import opened Bucketing
  import opened Sums
  import opened Folds
  import opened Options
  import opened RttValues
  import opened Addresses

  /** A query under way: the client's address and port as stored, and the server's address. */
  datatype Query = Query(clientIp: Ip, serverIp: Ip, clientPort: u16)

  datatype Pair = Pair(clientIp: Ip, serverIp: Ip)

  datatype State = State(queries: map<Query, u64>, stats: map<Pair, RttVal>)

  /** A datagram leaving or arriving, with the clock reading; `dns` tells whether its remote port is 53. */
  datatype Event =
    | Sent(query: Query, dns: bool, now: u64)
    | Received(query: Query, dns: bool, now: u64)

  /** A latency recorded into a pair's value. Sum and comparisons see all 64 bits; the bucket and the
      stored extremes only the low 32. */
  function Record(v: RttVal, latUs: u64): RttVal {
    var low := Wrap32(latUs);
    RttVal(Add64(v.sumUs, latUs), Add64(v.count, 1),
           if latUs < v.minUs || v.minUs == 0 then low else v.minUs,
           if latUs > v.maxUs then low else v.maxUs,
           v.hist[Bucket(low) := Add32(v.hist[Bucket(low)], 1)])
  }

  function FirstRecord(latUs: u64): RttVal {
    var low := Wrap32(latUs);
    RttVal(latUs, 1, low, low, ZERO.hist[Bucket(low) := 1])
  }

  function PairOf(q: Query): Pair {
    Pair(q.clientIp, q.serverIp)
  }

  function LatencyUs(s: State, q: Query, now: u64): u64
    requires q in s.queries
  {
    Sub64(now, s.queries[q]) / 1000
  }

  function AddLatency(stats: map<Pair, RttVal>, p: Pair, latUs: u64): map<Pair, RttVal> {
    if p in stats then stats[p := Record(stats[p], latUs)]
    else if |stats| < MAX_ENTRIES then stats[p := FirstRecord(latUs)]
    else stats
  }

  predicate Accepts(s: State, e: Event) {
    e.Sent? && e.dns && (e.query in s.queries || |s.queries| < MAX_ENTRIES)
  }

  predicate Matches(s: State, e: Event) {
    e.Received? && e.dns && e.query in s.queries
  }

  function Apply(s: State, e: Event): State {
    if Accepts(s, e) then s.(queries := s.queries[e.query := e.now])
    else if Matches(s, e) then
      State(s.queries - {e.query}, AddLatency(s.stats, PairOf(e.query), LatencyUs(s, e.query, e.now)))
    else s
  }

  class Probes {
    var queries: map<Query, u64>
    var stats: map<Pair, RttVal>

    function View(): State
      reads this
    {
      State(queries, stats)
    }

    constructor ()
      ensures View() == State(map[], map[])
    {
      queries, stats := map[], map[];
    }

    method KprobeUdpSendmsg(query: Query, dns: bool, now: u64)
      modifies `queries
      ensures View() == Apply(old(View()), Sent(query, dns, now))
      ensures queries == if dns && (query in old(queries) || |old(queries)| < 65536) then old(queries)[query := now]
                         else old(queries)
    {
      if !dns {
        return;
      }
      if query in queries || |queries| < MAX_ENTRIES {
        queries := queries[query := now];
      }
    }

    method KprobeUdpRcv(query: Query, dns: bool, now: u64)
      modifies this
      ensures View() == Apply(old(View()), Received(query, dns, now))
    {
      if !dns {
        return;
      }
      if query !in queries {
        return;
      }
      var latencyNs := Sub64(now, queries[query]);
      queries := queries - {query};
      var latUs: u64 := latencyNs / 1000;
      var skey := PairOf(query);
      var b := RttLog2(Wrap32(latUs));
      if b >= BUCKETS {
        b := BUCKETS - 1;
      }
      if skey in stats {
        var sv := stats[skey];
        sv := sv.(count := Add64(sv.count, 1), sumUs := Add64(sv.sumUs, latUs));
        if latUs < sv.minUs || sv.minUs == 0 {
          sv := sv.(minUs := Wrap32(latUs));
        }
        if latUs > sv.maxUs {
          sv := sv.(maxUs := Wrap32(latUs));
        }
        sv := sv.(hist := sv.hist[b := Add32(sv.hist[b], 1)]);
        stats := stats[skey := sv];
      } else if |stats| < MAX_ENTRIES {
        stats := stats[skey := RttVal(latUs, 1, Wrap32(latUs), Wrap32(latUs), ZERO.hist[b := 1])];
      }
    }
  }

  function Run(events: seq<Event>): State {
    Fold(Apply, State(map[], map[]), events)
  }

  // Conservation.

  /** How many events of a run, each in the state it met, satisfied `p`. */
  ghost function Count(events: seq<Event>, p: (State, Event) -> bool): nat {
    if events == [] then 0 else
      var init, last := events[..|events| - 1], events[|events| - 1];
      Count(init, p) + (if p(Run(init), last) then 1 else 0)
  }

  predicate IsQuery(s: State, e: Event) {
    e.Sent? && e.dns
  }

  predicate Overwrites(s: State, e: Event) {
    Accepts(s, e) && e.query in s.queries
  }

  predicate RejectedAsFull(s: State, e: Event) {
    IsQuery(s, e) && e.query !in s.queries && |s.queries| >= 65536
  }

  /** Main result: in every reachable state each query sent was matched, is pending, was overwritten
      by a later one with the same key, or was rejected by the full map; none is in two of these. */
  lemma {:induction false} QueriesConserved(events: seq<Event>)
    ensures Count(events, IsQuery) ==
            Count(events, Matches) + |Run(events).queries| + Count(events, Overwrites) + Count(events, RejectedAsFull)
    ensures |Run(events).queries| <= MAX_ENTRIES
    decreases |events|
  {
    if events != [] {
      hide AddLatency, LatencyUs;
      var init, last := events[..|events| - 1], events[|events| - 1];
      QueriesConserved(init);
      var before := Run(init).queries;
      if Accepts(Run(init), last) {
        assert before[last.query := last.now].Keys == before.Keys + {last.query};
      } else if Matches(Run(init), last) {
        assert (before - {last.query}).Keys == before.Keys - {last.query};
      }
    }
  }

  // Latencies.

  /** When the latest query with a key was sent. */
  function LatestSend(events: seq<Event>, q: Query): Option<u64> {
    if events == [] then None else
      var init, last := events[..|events| - 1], events[|events| - 1];
      if last.Sent? && last.dns && last.query == q then Some(last.now) else LatestSend(init, q)
  }

  ghost predicate ClockNeverRunsBack(events: seq<Event>) {
    forall i, j :: 0 <= i < j < |events| ==> events[i].now <= events[j].now
  }

  /** A pending query carries the time of the latest query sent on its key, rejected ones included:
      while a key is pending, no query on it can be rejected. */
  lemma {:induction false} PendingIsLatestSend(events: seq<Event>, q: Query)
    requires q in Run(events).queries
    ensures LatestSend(events, q) == Some(Run(events).queries[q])
    decreases |events|
  {
    var init, last := events[..|events| - 1], events[|events| - 1];
    hide AddLatency, LatencyUs;
    if !(last.Sent? && last.dns && last.query == q) {
      PendingIsLatestSend(init, q);
    }
  }

  lemma {:induction false} LatestSendIsEarlier(events: seq<Event>, q: Query, now: u64)
    requires LatestSend(events, q).Some?
    requires forall i :: 0 <= i < |events| ==> events[i].now <= now
    ensures LatestSend(events, q).value <= now
    decreases |events|
  {
    var init, last := events[..|events| - 1], events[|events| - 1];
    if !(last.Sent? && last.dns && last.query == q) {
      LatestSendIsEarlier(init, q, now);
    }
  }

  /** Main result: whenever a response matches, the recorded latency is the time since the latest
      query on exactly that key, in whole microseconds, and the subtraction does not wrap; the
      query is gone afterwards, so it is matched only once. */
  lemma MatchMeasuresLatestQuery(events: seq<Event>, e: Event)
    requires ClockNeverRunsBack(events + [e])
    requires Matches(Run(events), e)
    ensures LatestSend(events, e.query).Some? && LatestSend(events, e.query).value <= e.now
    ensures LatencyUs(Run(events), e.query, e.now) == (e.now - LatestSend(events, e.query).value) / 1000
    ensures e.query !in Apply(Run(events), e).queries
  {
    hide AddLatency, Run;
    PendingIsLatestSend(events, e.query);
    forall i | 0 <= i < |events| ensures events[i].now <= e.now {
      assert (events + [e])[i] == events[i] && (events + [e])[|events|] == e;
    }
    LatestSendIsEarlier(events, e.query, e.now);
  }

  // Statistics.

  /** The latencies of the responses of one pair that matched, in order of arrival. */
  ghost function Latencies(events: seq<Event>, p: Pair): seq<u64> {
    if events == [] then [] else
      var init, last := events[..|events| - 1], events[|events| - 1];
      Latencies(init, p) +
      (if Matches(Run(init), last) && PairOf(last.query) == p
        then [LatencyUs(Run(init), last.query, last.now)] else [])
  }

  function Recorded(latencies: seq<u64>): RttVal {
    Fold(Record, ZERO, latencies)
  }

  /** A response with a pending query removes it and counts for the pair of the query's own client and
      server, or is dropped if that pair is missing from a full map; no other pair changes. Any other
      arrival changes nothing. */
  lemma ResponseCounts(s: State, e: Event, p: Pair)
    requires e.Received?
    ensures
      var s' := Apply(s, e);
      if !e.dns || e.query !in s.queries then s' == s
      else
        && s'.queries == s.queries - {e.query}
        && (p.clientIp != e.query.clientIp || p.serverIp != e.query.serverIp ==>
              (p in s'.stats <==> p in s.stats) && (p in s.stats ==> s'.stats[p] == s.stats[p]))
        && (p.clientIp == e.query.clientIp && p.serverIp == e.query.serverIp ==>
              if p in s.stats then p in s'.stats && s'.stats[p].count == Wrap64(s.stats[p].count + 1)
              else if |s.stats| < 65536 then p in s'.stats && s'.stats[p].count == 1
              else s'.stats == s.stats)
  {
    hide Bucket;
    if e.dns && e.query in s.queries && p in s.stats {
      WrapSmall64(s.stats[p].count);
      WrapSmall64(1);
      WrapAdd64(s.stats[p].count, 1);
    }
  }

  /** What is stored for a pair is what recording all its latencies gives; a pair with matches is
      missing only if the statistics map is full. */
  lemma {:induction false} StatsHoldRecords(events: seq<Event>, p: Pair)
    ensures p in Run(events).stats ==>
              Latencies(events, p) != [] && Run(events).stats[p] == Recorded(Latencies(events, p))
    ensures p !in Run(events).stats && Latencies(events, p) != [] ==> |Run(events).stats| == MAX_ENTRIES
    ensures |Run(events).stats| <= MAX_ENTRIES
    decreases |events|
  {
    hide Apply, Matches, AddLatency, LatencyUs, Record, FirstRecord;
    if events != [] {
      var init, last := events[..|events| - 1], events[|events| - 1];
      StatsHoldRecords(init, p);
      StatsStep(Run(init), last);
      if Matches(Run(init), last) {
        var latUs := LatencyUs(Run(init), last.query, last.now);
        StatsAfter(Run(init).stats, PairOf(last.query), latUs, p);
        RecordedNext(Latencies(init, p), latUs);
      }
      assert Latencies(init, p) + [] == Latencies(init, p);
    }
  }

  lemma RecordedNext(latencies: seq<u64>, latUs: u64)
    ensures Recorded(latencies + [latUs]) == Record(Recorded(latencies), latUs)
    ensures Recorded([]) == ZERO
  {
    assert (latencies + [latUs])[..|latencies|] == latencies;
  }

  lemma StatsStep(s: State, e: Event)
    ensures Matches(s, e) ==>
              && e.query in s.queries
              && Apply(s, e).stats == AddLatency(s.stats, PairOf(e.query), LatencyUs(s, e.query, e.now))
    ensures !Matches(s, e) ==> Apply(s, e).stats == s.stats
  {
    hide AddLatency, LatencyUs;
  }

  /** The value of a first latency is that of a recording into an empty one. */
  lemma FirstIsRecord(latUs: u64)
    ensures FirstRecord(latUs) == Record(ZERO, latUs)
  {
    hide Bucket;
  }

  lemma StatsAfter(stats: map<Pair, RttVal>, q: Pair, latUs: u64, p: Pair)
    ensures
      var after := AddLatency(stats, q, latUs);
      && (p in after && p in stats ==> after[p] == if p == q then Record(stats[p], latUs) else stats[p])
      && (p in after && p !in stats ==> p == q && after[p] == Record(ZERO, latUs) && |stats| < MAX_ENTRIES)
      && (p !in after ==> p !in stats && (p == q ==> |stats| >= MAX_ENTRIES))
      && |stats| <= |after|
      && (|stats| <= MAX_ENTRIES ==> |after| <= MAX_ENTRIES)
  {
    hide Record, FirstRecord;
    FirstIsRecord(latUs);
    var after := AddLatency(stats, q, latUs);
    assert after.Keys == stats.Keys || after.Keys == stats.Keys + {q};
  }

  lemma {:induction false} RecordedTotals(latencies: seq<u64>)
    ensures Recorded(latencies).count == Wrap64(|latencies|)
    ensures Recorded(latencies).sumUs == Wrap64(SumSeq(latencies, Identity()))
    decreases |latencies|
  {
    hide Bucket, Wrap32, Wrap64, Add64;
    if latencies == [] {
      WrapSmall64(0);
    } else {
      var n := |latencies| - 1;
      RecordedTotals(latencies[..n]);
      WrapSmall64(1);
      WrapNext64(n, 1);
      WrapNext64(SumSeq(latencies[..n], Identity()), latencies[n]);
    }
  }

  /** Each cell counts the latencies whose low 32 bits, as microseconds, fall into its bucket. */
  lemma {:induction false} RecordedCells(latencies: seq<u64>, b: nat)
    requires b < BUCKETS
    ensures Recorded(latencies).hist[b] ==
            Wrap32(SumSeq(latencies, (x: u64) => if Bucket(x % 0x1_0000_0000) == b then 1 else 0))
    decreases |latencies|
  {
    hide Bucket, Add32;
    if latencies == [] {
      WrapZero();
    } else {
      var n := |latencies| - 1;
      RecordedCells(latencies[..n], b);
      WrapNext32(SumSeq(latencies[..n], (x: u64) => if Bucket(x % 0x1_0000_0000) == b then 1 else 0),
                 if Bucket(latencies[n] % 0x1_0000_0000) == b then 1 else 0);
      RecordCell(Recorded(latencies[..n]), latencies[n], b);
    }
  }

  lemma RecordCell(v: RttVal, latUs: u64, b: nat)
    requires b < BUCKETS
    ensures Record(v, latUs).hist[b] == Add32(v.hist[b], if Bucket(latUs % 0x1_0000_0000) == b then 1 else 0)
  {
    hide Bucket;
  }

  /** Count and sum of a pair are those of its matches, modulo 2^64, however long the latencies. */
  lemma StatsCountMatches(events: seq<Event>, p: Pair)
    ensures p in Run(events).stats ==>
              && Run(events).stats[p].count == Wrap64(|Latencies(events, p)|)
              && Run(events).stats[p].sumUs == Wrap64(SumSeq(Latencies(events, p), Identity()))
    ensures p !in Run(events).stats && Latencies(events, p) != [] ==> |Run(events).stats| == MAX_ENTRIES
  {
    hide *;
    StatsHoldRecords(events, p);
    RecordedTotals(Latencies(events, p));
  }

  /** A response whose latency finds no room in the full statistics map. */
  predicate Dropped(s: State, e: Event) {
    Matches(s, e) && PairOf(e.query) !in s.stats && |s.stats| >= MAX_ENTRIES
  }

  ghost function MatchesIn(events: seq<Event>): Pair -> int {
    p => |Latencies(events, p)|
  }

  /** Main result: in every reachable state the matches of the stored pairs add up to all matches less
      those dropped because the statistics map was full. */
  lemma {:induction false} MatchesConserved(events: seq<Event>)
    ensures SumSet(Run(events).stats.Keys, MatchesIn(events)) + Count(events, Dropped) == Count(events, Matches)
    decreases |events|
  {
    hide Apply, Matches, AddLatency, LatencyUs, SumSet;
    if events == [] {
      assert Run([]).stats.Keys == {};
      NothingSummed(MatchesIn([]));
    } else {
      var init, last := events[..|events| - 1], events[|events| - 1];
      MatchesConserved(init);
      StatsStep(Run(init), last);
      var keys := Run(init).stats.Keys;
      if Matches(Run(init), last) {
        StatsHoldRecords(init, PairOf(last.query));
        KeysAfter(Run(init).stats, PairOf(last.query), LatencyUs(Run(init), last.query, last.now));
        OneMoreMatch(keys, PairOf(last.query), MatchesIn(init), MatchesIn(events));
      } else {
        SumCongruent(keys, MatchesIn(init), MatchesIn(events));
      }
    }
  }

  lemma NothingSummed(f: Pair -> int)
    ensures SumSet({}, f) == 0
  {
  }

  lemma KeysAfter(stats: map<Pair, RttVal>, q: Pair, latUs: u64)
    ensures AddLatency(stats, q, latUs).Keys ==
            if q in stats || |stats| < MAX_ENTRIES then stats.Keys + {q} else stats.Keys
  {
    hide Record, FirstRecord;
  }

  lemma OneMoreMatch(keys: set<Pair>, q: Pair, f: Pair -> int, g: Pair -> int)
    requires g(q) == f(q) + 1 && forall p :: p != q ==> g(p) == f(p)
    ensures q in keys ==> SumSet(keys, g) == SumSet(keys, f) + 1
    ensures q !in keys ==> SumSet(keys, g) == SumSet(keys, f) && SumSet(keys + {q}, g) == SumSet(keys, f) + f(q) + 1
    ensures q in keys ==> keys + {q} == keys
  {
    hide SumSet;
    SumCongruent(keys - {q}, f, g);
    if q in keys {
      SumPick(keys, f, q);
      SumPick(keys, g, q);
    } else {
      assert keys - {q} == keys;
      SumAdd(keys, g, q);
    }
  }

  // The stored extremes.

  ghost predicate FitWords(latencies: seq<u64>) {
    forall i :: 0 <= i < |latencies| ==> latencies[i] < TWO32
  }

  /** One recording keeps the maximum exactly while latencies fit into 32 bits of microseconds. */
  lemma MaximumKeptIff(v: RttVal, latUs: u64)
    ensures Record(v, latUs).maxUs == Max(v.maxUs, latUs) <==> latUs < TWO32
  {
    hide Bucket;
  }

  /** While latencies fit into 32 bits of microseconds, recording is the accumulation of RTT samples,
      except that a latency of 0 us resets the minimum. */
  lemma {:induction false} RecordedIsAccumulation(latencies: seq<u64>)
    requires FitWords(latencies)
    ensures Recorded(latencies) == AccOf(latencies).(minUs := Recorded(latencies).minUs)
    ensures Positive(latencies) ==> Recorded(latencies) == AccOf(latencies)
    decreases |latencies|
  {
    if latencies != [] {
      hide Record, Push;
      var n := |latencies| - 1;
      RecordedIsAccumulation(latencies[..n]);
      RecordIsPush(Recorded(latencies[..n]), AccOf(latencies[..n]), latencies[n]);
    }
  }

  /** One recording, into a value that may differ in its minimum. */
  lemma RecordIsPush(v: RttVal, w: RttVal, latUs: u32)
    requires v == w.(minUs := v.minUs)
    ensures Record(v, latUs) == Push(w, latUs).(minUs := Record(v, latUs).minUs)
    ensures latUs > 0 && v == w ==> Record(v, latUs) == Push(w, latUs)
  {
    hide Bucket;
    assert Record(v, latUs).hist == Push(w, latUs).hist;
  }

  lemma RecordedMaximum(latencies: seq<u64>)
    requires latencies != []
    ensures IsMaximum(Recorded(latencies).maxUs, latencies) <==> FitWords(latencies)
  {
    if FitWords(latencies) {
      RecordedIsAccumulation(latencies);
      AccExtremes(latencies);
    }
  }

  /** Main result: over any run, the stored maximum of a pair is the longest of its latencies if and
      only if all of them are below 2^32 microseconds. */
  lemma StoredMaximumIff(events: seq<Event>, p: Pair)
    requires p in Run(events).stats
    ensures IsMaximum(Run(events).stats[p].maxUs, Latencies(events, p)) <==> FitWords(Latencies(events, p))
  {
    hide *;
    StatsHoldRecords(events, p);
    RecordedMaximum(Latencies(events, p));
  }

  /** The stored minimum is 0 exactly after a latency of 0 us: the next one replaces it. */
  lemma RecordedMinimum(latencies: seq<u64>)
    requires latencies != [] && FitWords(latencies)
    ensures IsMinimum(Recorded(latencies).minUs, latencies) <==>
            0 !in latencies || latencies[|latencies| - 1] == 0
  {
    var n := |latencies| - 1;
    if 0 !in latencies {
      RecordedIsAccumulation(latencies);
      AccExtremes(latencies);
    } else {
      LastMinimum(Recorded(latencies[..n]), latencies[n]);
    }
  }

  lemma LastMinimum(v: RttVal, latUs: u32)
    ensures Record(v, latUs).minUs == 0 <==> latUs == 0
  {
    hide Bucket;
  }

  /** Main result: below that, the stored minimum of a pair is the shortest of its latencies if and only
      if none of them is 0 us or the latest one is. */
  lemma StoredMinimumIff(events: seq<Event>, p: Pair)
    requires p in Run(events).stats && FitWords(Latencies(events, p))
    ensures Latencies(events, p) != []
    ensures IsMinimum(Run(events).stats[p].minUs, Latencies(events, p)) <==>
            var ls := Latencies(events, p); 0 !in ls || ls[|ls| - 1] == 0
  {
    hide *;
    StatsHoldRecords(events, p);
    RecordedMinimum(Latencies(events, p));
  }

  /** Main result: below 2^32 microseconds, all that is stored for a pair is the accumulation of its latencies, as
      for RTT samples; the minimum too when none of them is 0 us. */
  lemma StatsAccumulate(events: seq<Event>, p: Pair)
    requires p in Run(events).stats && FitWords(Latencies(events, p))
    ensures Run(events).stats[p] == AccOf(Latencies(events, p)).(minUs := Run(events).stats[p].minUs)
    ensures Positive(Latencies(events, p)) ==> Run(events).stats[p] == AccOf(Latencies(events, p))
  {
    hide Run, Latencies, Recorded, AccOf;
    StatsHoldRecords(events, p);
    RecordedIsAccumulation(Latencies(events, p));
  }

  // Runs in which the extremes go wrong.

  /** A query and its response. */
  function Exchange(q: Query, sent: u64, received: u64): seq<Event> {
    [Sent(q, true, sent), Received(q, true, received)]
  }

  lemma Answered(s: State, q: Query, sent: u64, received: u64)
    requires |s.queries| < MAX_ENTRIES
    ensures
      var s' := Apply(s, Sent(q, true, sent));
      && Matches(s', Received(q, true, received))
      && LatencyUs(s', q, received) == Sub64(received, sent) / 1000
      && Apply(s', Received(q, true, received)) ==
         State(s.queries - {q}, AddLatency(s.stats, PairOf(q), Sub64(received, sent) / 1000))
  {
    hide AddLatency;
    assert s.queries[q := sent] - {q} == s.queries - {q};
  }

  /** An exchange at the end of a run that left room for the query. */
  lemma Exchanged(events: seq<Event>, q: Query, sent: u64, received: u64)
    requires |Run(events).queries| < MAX_ENTRIES
    ensures
      var s, s' := Run(events), Run(events + Exchange(q, sent, received));
      var latUs, p := Sub64(received, sent) / 1000, PairOf(q);
      && s' == State(s.queries - {q}, AddLatency(s.stats, p, latUs))
      && Latencies(events + Exchange(q, sent, received), p) == Latencies(events, p) + [latUs]
  {
    hide Apply, AddLatency, Matches, LatencyUs;
    var first, both := events + [Sent(q, true, sent)], events + Exchange(q, sent, received);
    Answered(Run(events), q, sent, received);
    RunNext(events, Sent(q, true, sent), PairOf(q));
    RunNext(first, Received(q, true, received), PairOf(q));
    assert both == first + [Received(q, true, received)];
    SentMatchesNothing(Run(events), q, sent);
    assert Latencies(events, PairOf(q)) + [] == Latencies(events, PairOf(q));
  }

  lemma RunNext(events: seq<Event>, e: Event, p: Pair)
    ensures Run(events + [e]) == Apply(Run(events), e)
    ensures Latencies(events + [e], p) == Latencies(events, p) +
            (if Matches(Run(events), e) && PairOf(e.query) == p then [LatencyUs(Run(events), e.query, e.now)] else [])
  {
    hide Apply, Matches, LatencyUs;
    assert (events + [e])[..|events|] == events;
  }

  lemma SentMatchesNothing(s: State, q: Query, sent: u64)
    ensures !Matches(s, Sent(q, true, sent))
  {
  }

  lemma RunNothing(q: Query)
    ensures Run([]) == State(map[], map[]) && Latencies([], PairOf(q)) == []
  {
  }

  /** Two exchanges on the same query, one after the other. */
  lemma ExchangedTwice(q: Query, sent: u64, received: u64, sent': u64, received': u64)
    ensures
      var once := Exchange(q, sent, received);
      var twice, p := once + Exchange(q, sent', received'), PairOf(q);
      var a, b := Sub64(received, sent) / 1000, Sub64(received', sent') / 1000;
      && Run(once).stats == map[p := FirstRecord(a)]
      && Run(twice).stats == map[p := Record(FirstRecord(a), b)]
      && Latencies(twice, p) == [a, b]
  {
    hide Record, FirstRecord, Run, Latencies, Exchange;
    var once := Exchange(q, sent, received);
    RunNothing(q);
    Exchanged([], q, sent, received);
    assert [] + once == once;
    Exchanged(once, q, sent', received');
  }

  lemma LongAfterShort()
    ensures FirstRecord(100).maxUs == 100 && Record(FirstRecord(100), 0x1_0000_0001).maxUs == 1
  {
    hide Bucket;
  }

  /** A query answered after 100 us, and again after 2^32 + 1 us: the stored maximum goes down. */
  lemma MaximumCanDrop(q: Query)
    ensures
      var once := Exchange(q, 0, 100_000);
      var twice, p := once + Exchange(q, 200_000, 200_000 + 0x1_0000_0001 * 1000), PairOf(q);
      && ClockNeverRunsBack(twice)
      && p in Run(once).stats && Run(once).stats[p].maxUs == 100
      && p in Run(twice).stats && Run(twice).stats[p].maxUs == 1
  {
    hide Record, FirstRecord, Run;
    LongAfterShort();
    ExchangedTwice(q, 0, 100_000, 200_000, 200_000 + 0x1_0000_0001 * 1000);
  }

  lemma HundredAfterZero()
    ensures FirstRecord(0).minUs == 0 && Record(FirstRecord(0), 100).minUs == 100
  {
    hide Bucket;
  }

  /** A query answered within the microsecond, and again after 100 us: the stored minimum goes up. */
  lemma MinimumCanRise(q: Query)
    ensures
      var once := Exchange(q, 0, 999);
      var twice, p := once + Exchange(q, 1_000, 101_000), PairOf(q);
      && ClockNeverRunsBack(twice) && Latencies(twice, p) == [0, 100]
      && p in Run(once).stats && Run(once).stats[p].minUs == 0
      && p in Run(twice).stats && Run(twice).stats[p].minUs == 100
  {
    hide Record, FirstRecord, Run, Latencies;
    HundredAfterZero();
    ExchangedTwice(q, 0, 999, 1_000, 101_000);
  }
}

/** The benchmark scheduler (server/api/hardware.go): at most one host asked per tick, the most
    overdue first, and each left alone for a while once asked. */
module BenchmarkScheduling {
  import opened Sorting
  import opened Text
  import opened Models

  const MINUTE := 60 * 1_000_000_000
  const HOUR := 60 * MINUTE
  const BENCHMARK_MAX_AGE := 7 * 24 * HOUR
  const BENCHMARK_TICK := 2 * MINUTE
  const BENCHMARK_RETRY_AFTER := 6 * HOUR
  const BENCHMARK_SEEN_WITHIN := 15 * MINUTE

  /** The zero time, which stands for "never" and sorts before every real one. */
  const ZERO_TIME := 0

  // ---------- who is due ----------

  function LastBenchmark(s: System): int {
    if s.benchmark.Some? && s.benchmark.value.finishedAt.At? then s.benchmark.value.finishedAt.time else ZERO_TIME
  }

  predicate Stale(s: System, now: int) {
    LastBenchmark(s) == ZERO_TIME || now - LastBenchmark(s) >= BENCHMARK_MAX_AGE
  }

  predicate Seen(s: System, now: int) {
    s.lastSeen.At? && now - s.lastSeen.time <= BENCHMARK_SEEN_WITHIN
  }

  predicate Rested(asked: map<string, int>, host: string, now: int) {
    host in asked ==> now - asked[host] >= BENCHMARK_RETRY_AFTER
  }

  /** Can be asked, is up, and has no fresh benchmark. */
  predicate Eligible(s: System, now: int) {
    s.benchmarkSupported && Seen(s, now) && Stale(s, now)
  }

  predicate Due(s: System, asked: map<string, int>, now: int) {
    Eligible(s, now) && Rested(asked, s.hostname, now)
  }

  /** Who is due, from the records themselves: able to run a benchmark, seen in the last quarter of an
      hour, not asked in the last six hours, and with no benchmark of the last week. A benchmark with
      no readable date, or dated at the zero time, does not count. */
  lemma DueExactly(s: System, asked: map<string, int>, now: int)
    ensures Due(s, asked, now) <==>
      && s.benchmarkSupported
      && s.lastSeen.At? && now <= s.lastSeen.time + 15 * 60 * 1_000_000_000
      && (s.hostname in asked ==> now >= asked[s.hostname] + 6 * 3600 * 1_000_000_000)
      && (s.benchmark.Some? && s.benchmark.value.finishedAt.At? && s.benchmark.value.finishedAt.time != 0 ==>
            now >= s.benchmark.value.finishedAt.time + 7 * 24 * 3600 * 1_000_000_000)
  {}

  predicate NeverBenchmarked(s: System) {
    s.benchmark.None? || !s.benchmark.value.finishedAt.At? || s.benchmark.value.finishedAt.time == 0
  }

  /** `s` may be asked before `t`: its last benchmark is older, or they are level and its name is not
      the later. One that has none is older than any that is dated after the zero time. */
  ghost predicate MoreOverdue(s: System, t: System) {
    && (NeverBenchmarked(s) ==>
          || (NeverBenchmarked(t) && !Less(t.hostname, s.hostname))
          || (!NeverBenchmarked(t) && t.benchmark.value.finishedAt.time > 0))
    && (!NeverBenchmarked(s) && NeverBenchmarked(t) ==> s.benchmark.value.finishedAt.time < 0)
    && (!NeverBenchmarked(s) && !NeverBenchmarked(t) ==>
          var a, b := s.benchmark.value.finishedAt.time, t.benchmark.value.finishedAt.time;
          a < b || (a == b && !Less(t.hostname, s.hostname)))
  }

  datatype Candidate = Candidate(host: string, last: int)

  function CandidateOf(s: System): Candidate {
    Candidate(s.hostname, LastBenchmark(s))
  }

  /** Hosts never benchmarked come first, then the oldest; ties go by name. */
  predicate Before(a: Candidate, b: Candidate) {
    if a.last != b.last then a.last < b.last else Less(a.host, b.host)
  }

  lemma BeforeWeakOrder()
    ensures WeakOrder(Before)
  {
    LessWeakOrder();
    forall a, b, c | !Before(b, a) && !Before(c, b) ensures !Before(c, a) {
      assert !Less(b.host, a.host) && !Less(c.host, b.host) ==> !Less(c.host, a.host);
    }
    forall a, b ensures Before(a, b) ==> !Before(b, a) {
      assert Less(a.host, b.host) ==> !Less(b.host, a.host);
    }
  }

  /** The answer of one look: nobody when nobody is due, else a due host no due host comes before. */
  ghost predicate Picked(systems: seq<System>, asked: map<string, int>, now: int, host: string) {
    if host == "" then forall s :: s in systems ==> !Due(s, asked, now)
    else exists s :: s in systems && Due(s, asked, now) && s.hostname == host
                     && forall t :: t in systems && Due(t, asked, now) ==> !Before(CandidateOf(t), CandidateOf(s))
  }

  /** The same without the order the candidates are sorted by: the host asked is the most overdue of
      the due ones, and of several level ones the first by name. */
  ghost predicate PicksMostOverdue(systems: seq<System>, asked: map<string, int>, now: int, host: string) {
    host != "" ==>
      exists s :: s in systems && Due(s, asked, now) && s.hostname == host
                  && forall t :: t in systems && Due(t, asked, now) ==> MoreOverdue(s, t)
  }

  lemma PickedMostOverdue(systems: seq<System>, asked: map<string, int>, now: int, host: string)
    requires Picked(systems, asked, now, host)
    ensures PicksMostOverdue(systems, asked, now, host)
  {
    if host != "" {
      var s :| s in systems && Due(s, asked, now) && s.hostname == host
               && forall t :: t in systems && Due(t, asked, now) ==> !Before(CandidateOf(t), CandidateOf(s));
      forall t | t in systems && Due(t, asked, now) ensures MoreOverdue(s, t) {
        assert !Before(CandidateOf(t), CandidateOf(s));
      }
    }
  }

  /** On dates after the zero time, a due host that was never benchmarked goes before all that were. */
  lemma NeverBenchmarkedFirst(systems: seq<System>, asked: map<string, int>, now: int, host: string, never: System)
    requires Picked(systems, asked, now, host)
    requires never in systems && Due(never, asked, now) && NeverBenchmarked(never)
    requires forall s :: s in systems && !NeverBenchmarked(s) ==> s.benchmark.value.finishedAt.time > 0
    ensures exists s :: s in systems && s.hostname == host && Due(s, asked, now) && NeverBenchmarked(s)
  {
    PickedMostOverdue(systems, asked, now, host);
  }

  /** One tick's reading of the store and of the clock, which is read once to choose and again
      to note the time of asking. */
  datatype Tick = Tick(systems: seq<System>, chosenAt: int, askedAt: int)

  ghost predicate Ticked(asked: map<string, int>, t: Tick, host: string, after: map<string, int>) {
    && Picked(t.systems, asked, t.chosenAt, host)
    && after == if host == "" then asked else asked[host := t.askedAt]
  }

  ghost predicate AllNamed(systems: seq<System>) {
    forall s :: s in systems ==> s.hostname != ""
  }

  class BenchmarkScheduler {
    var asked: map<string, int>

    constructor ()
      ensures asked == map[]
    {
      asked := map[];
    }

    method NextDue(systems: seq<System>, now: int) returns (host: string)
      requires AllNamed(systems)
      ensures Picked(systems, asked, now, host)
      ensures host == "" <==> forall s :: s in systems ==> !Due(s, asked, now)
      ensures PicksMostOverdue(systems, asked, now, host)
    {
      var due := DueCandidates(systems, now);
      if |due| == 0 {
        assert forall s :: s in systems && Due(s, asked, now) ==> CandidateOf(s) in due;
        return "";
      }
      BeforeWeakOrder();
      var sorted := SortBy(Before, due);
      SameElements(sorted, due);
      assert sorted[0] in due;
      var s :| s in systems && Due(s, asked, now) && CandidateOf(s) == sorted[0];
      forall t | t in systems && Due(t, asked, now) ensures !Before(CandidateOf(t), CandidateOf(s)) {
        assert CandidateOf(t) in due;
        var k :| 0 <= k < |sorted| && sorted[k] == CandidateOf(t);
        LessTrichotomy(sorted[0].host, sorted[0].host);
        assert k == 0 || !Before(sorted[k], sorted[0]);
      }
      PickedMostOverdue(systems, asked, now, sorted[0].host);
      return sorted[0].host;
    }

    method DueCandidates(systems: seq<System>, now: int) returns (due: seq<Candidate>)
      ensures forall c :: c in due <==> exists s :: s in systems && Due(s, asked, now) && CandidateOf(s) == c
    {
      due := [];
      for i := 0 to |systems|
        invariant forall c :: c in due <==> exists s :: s in systems[..i] && Due(s, asked, now) && CandidateOf(s) == c
      {
        var sys := systems[i];
        assert systems[..i + 1] == systems[..i] + [sys];
        ghost var before := due;
        if !sys.benchmarkSupported {
        } else if !sys.lastSeen.At? || now - sys.lastSeen.time > BENCHMARK_SEEN_WITHIN {
        } else if sys.hostname in asked && now - asked[sys.hostname] < BENCHMARK_RETRY_AFTER {
        } else {
          var last := LastBenchmark(sys);
          if sys.benchmark.Some? && last != ZERO_TIME && now - last < BENCHMARK_MAX_AGE {
          } else {
            due := due + [Candidate(sys.hostname, last)];
          }
        }
        assert due == if Due(sys, asked, now) then before + [CandidateOf(sys)] else before;
      }
      assert systems[..|systems|] == systems;
    }

    /** Looks once and notes whom it asked. */
    method TickOnce(t: Tick) returns (host: string)
      requires AllNamed(t.systems)
      modifies this
      ensures Ticked(old(asked), t, host, asked)
    {
      host := NextDue(t.systems, t.chosenAt);
      if host != "" {
        asked := asked[host := t.askedAt];
      }
    }
  }

  // ---------- a run of ticks ----------

  /** `states[i]` is the memory before tick `i`, `hosts[i]` whom it asked. */
  ghost predicate IsRun(ticks: seq<Tick>, states: seq<map<string, int>>, hosts: seq<string>) {
    && |states| == |ticks| + 1 && |hosts| == |ticks|
    && (forall i :: 0 <= i < |ticks| ==>
          AllNamed(ticks[i].systems) && Ticked(states[i], ticks[i], hosts[i], states[i + 1]))
  }

  ghost predicate ClockRuns(ticks: seq<Tick>) {
    && (forall i :: 0 <= i < |ticks| ==> ticks[i].chosenAt <= ticks[i].askedAt)
    && (forall i, j :: 0 <= i < j < |ticks| ==> ticks[i].askedAt <= ticks[j].chosenAt)
  }

  /** The whole run fits in one back-off period. */
  ghost predicate WithinRetry(ticks: seq<Tick>) {
    ticks != [] ==> ticks[|ticks| - 1].chosenAt - ticks[0].chosenAt < BENCHMARK_RETRY_AFTER
  }

  lemma {:induction false} AskedIsRemembered(ticks: seq<Tick>, states: seq<map<string, int>>, hosts: seq<string>,
                                             i: nat, j: nat)
    requires IsRun(ticks, states, hosts) && ClockRuns(ticks)
    requires i < j <= |ticks| && hosts[i] != ""
    ensures hosts[i] in states[j] && states[j][hosts[i]] >= ticks[i].askedAt
  {
    assert Ticked(states[j - 1], ticks[j - 1], hosts[j - 1], states[j]);
    if i < j - 1 {
      AskedIsRemembered(ticks, states, hosts, i, j - 1);
    }
  }

  /** Within one back-off period no host is asked twice. */
  lemma NobodyAskedTwice(ticks: seq<Tick>, states: seq<map<string, int>>, hosts: seq<string>, i: nat, j: nat)
    requires IsRun(ticks, states, hosts) && ClockRuns(ticks) && WithinRetry(ticks)
    requires i < j < |ticks| && hosts[i] != ""
    ensures hosts[i] != hosts[j]
  {
    AskedIsRemembered(ticks, states, hosts, i, j);
    assert Ticked(states[j], ticks[j], hosts[j], states[j + 1]);
    var last := |ticks| - 1;
    assert ticks[j].chosenAt <= ticks[last].chosenAt by {
      if j < last { assert ticks[j].askedAt <= ticks[last].chosenAt; }
    }
    assert ticks[0].chosenAt <= ticks[i].askedAt by {
      if i > 0 { assert ticks[0].askedAt <= ticks[i].chosenAt; }
    }
  }

  /** As far as its own reports go, `h` could be asked at every tick until it is. */
  ghost predicate EligibleUntilAsked(ticks: seq<Tick>, hosts: seq<string>, h: string)
    requires |hosts| == |ticks|
  {
    forall i :: 0 <= i < |ticks| && h !in hosts[..i] ==>
      exists s :: s in ticks[i].systems && s.hostname == h && Eligible(s, ticks[i].chosenAt)
  }

  lemma {:induction false} UnaskedStaysDue(ticks: seq<Tick>, states: seq<map<string, int>>, hosts: seq<string>,
                                           h: string, i: nat)
    requires IsRun(ticks, states, hosts) && ClockRuns(ticks)
    requires i < |ticks| && h !in hosts && Rested(states[0], h, ticks[0].chosenAt)
    ensures Rested(states[i], h, ticks[i].chosenAt)
    ensures h in states[i] <==> h in states[0]
    ensures h in states[i] ==> states[i][h] == states[0][h]
  {
    if i > 0 {
      UnaskedStaysDue(ticks, states, hosts, h, i - 1);
      assert Ticked(states[i - 1], ticks[i - 1], hosts[i - 1], states[i]);
      assert hosts[i - 1] in hosts;
      assert ticks[0].askedAt <= ticks[i].chosenAt;
    }
  }

  lemma {:induction false} Pigeonhole(xs: seq<string>, s: set<string>)
    requires Distinct(xs) && forall x :: x in xs ==> x in s
    ensures |xs| <= |s|
  {
    if xs != [] {
      var init, last := xs[..|xs| - 1], xs[|xs| - 1];
      forall x | x in init ensures x in s - {last} {
        var k :| 0 <= k < |init| && init[k] == x;
        assert xs[k] == x;
      }
      Pigeonhole(init, s - {last});
      assert last in xs;
    }
  }

  /** Nobody starves: in a run of at least as many ticks as there are hosts, all inside one
      back-off period, every host that was rested at the start, and stays eligible until it is asked,
      is asked. */
  lemma NoStarvation(ticks: seq<Tick>, states: seq<map<string, int>>, hosts: seq<string>,
                     everyone: set<string>, h: string)
    requires IsRun(ticks, states, hosts) && ClockRuns(ticks) && WithinRetry(ticks)
    requires forall i, s :: 0 <= i < |ticks| && s in ticks[i].systems ==> s.hostname in everyone
    requires 0 < |everyone| <= |ticks|
    requires Rested(states[0], h, ticks[0].chosenAt) && EligibleUntilAsked(ticks, hosts, h)
    ensures h in hosts
  {
    if h !in hosts {
      forall i | 0 <= i < |ticks| ensures hosts[i] != "" && hosts[i] in everyone {
        UnaskedStaysDue(ticks, states, hosts, h, i);
        assert Ticked(states[i], ticks[i], hosts[i], states[i + 1]);
        var s :| s in ticks[i].systems && s.hostname == h && Eligible(s, ticks[i].chosenAt);
        assert Due(s, states[i], ticks[i].chosenAt);
      }
      forall i, j | 0 <= i < j < |hosts| ensures hosts[i] != hosts[j] {
        NobodyAskedTwice(ticks, states, hosts, i, j);
      }
      var s0 :| s0 in ticks[0].systems && s0.hostname == h && Eligible(s0, ticks[0].chosenAt);
      Pigeonhole(hosts, everyone - {h});
    }
  }

  /** Ticking every two minutes, up to 180 ticks fit in one back-off period, and 181 do not. */
  lemma RegularTicks(ticks: seq<Tick>, start: int)
    requires ticks != [] && forall i :: 0 <= i < |ticks| ==> ticks[i].chosenAt == start + i * BENCHMARK_TICK
    ensures WithinRetry(ticks) <==> |ticks| <= 180
  {
    var n := |ticks| - 1;
    assert ticks[n].chosenAt - ticks[0].chosenAt == n * BENCHMARK_TICK;
    assert BENCHMARK_RETRY_AFTER == 180 * BENCHMARK_TICK;
  }
}

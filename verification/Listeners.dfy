/** The client's reboot listener (client/remotereboot.go). */
module RebootListener {
  import opened RunSlots

  /** A reboot's marks: accepted, "rebooting" published, the command's failure published, and the
      slot freed. A reboot that succeeds never gets past its second. */
  const ANNOUNCE := 1
  const FAIL := 2
  const CLEAR := 3
  const STEPS: nat := 4

  datatype Status = Rebooting | Failed

  datatype Record = Record(id: string, status: Status)

  datatype Ack = Accepted | InProgress | UpdateRunning | NotNeeded

  /** What the trace says has gone out: one record per announcement and one per failure. */
  ghost predicate Published(trace: seq<Mark>, records: seq<Record>) {
    if trace == [] then records == []
    else
      var init, last := trace[..|trace| - 1], trace[|trace| - 1];
      if last.step == ANNOUNCE || last.step == FAIL then
        && records != [] && Published(init, records[..|records| - 1])
        && records[|records| - 1] == Record(last.id, if last.step == ANNOUNCE then Rebooting else Failed)
      else Published(init, records)
  }

  lemma PublishedSkips(trace: seq<Mark>, records: seq<Record>, m: Mark)
    requires Published(trace, records) && m.step != ANNOUNCE && m.step != FAIL
    ensures Published(trace + [m], records)
  {
    assert (trace + [m])[..|trace|] == trace;
  }

  lemma PublishedAdds(trace: seq<Mark>, records: seq<Record>, m: Mark)
    requires Published(trace, records) && (m.step == ANNOUNCE || m.step == FAIL)
    ensures Published(trace + [m], records + [Record(m.id, if m.step == ANNOUNCE then Rebooting else Failed)])
  {
    assert (trace + [m])[..|trace|] == trace;
    var more := records + [Record(m.id, if m.step == ANNOUNCE then Rebooting else Failed)];
    assert more[..|more| - 1] == records;
  }

  /** The result subject spells (rebooting id, failed id)* and at most one open rebooting: a
      record is on the wire before the host goes down, and only a failure follows it. */
  lemma {:induction false} RecordsAlternate(trace: seq<Mark>, records: seq<Record>)
    requires Spelled(trace, STEPS) && Published(trace, records)
    ensures forall k :: 0 <= k < |records| ==> (records[k].status == Rebooting <==> k % 2 == 0)
    ensures forall k :: 0 <= k < |records| && k % 2 == 1 ==> records[k].id == records[k - 1].id
    ensures |records| % 2 == 1 <==> NextStep(trace, STEPS) == FAIL
    ensures |records| % 2 == 1 ==> records[|records| - 1].id == trace[|trace| - 1].id
  {
    if trace != [] {
      var init, last := trace[..|trace| - 1], trace[|trace| - 1];
      SpelledLast(trace, STEPS);
      RecordsAlternate(init, if last.step == ANNOUNCE || last.step == FAIL then records[..|records| - 1] else records);
    }
  }

  class Listener {
    var inProgress: bool
    var published: seq<Record>
    ghost var slot: Slot
    /** The init system has taken the reboot command: nothing more happens in this process. */
    ghost var goingDown: bool

    ghost predicate Valid()
      reads this
    {
      && OneAtATime(slot, STEPS) && inProgress == slot.busy
      && Published(slot.trace, published)
      && (goingDown ==> NextStep(slot.trace, STEPS) == FAIL)
    }

    ghost predicate At(g: nat, id: string, step: nat)
      reads this
    {
      g in slot.live && slot.live[g] == Job(id, step)
    }

    constructor ()
      ensures Valid() && slot == FREE && published == [] && !goingDown
    {
      inProgress, published, slot, goingDown := false, [], FREE, false;
    }

    /** Accepts only when no reboot holds the slot, no update runs and a reboot is needed, all at
        this moment; a refusal changes nothing. Once the host is going down every request is
        refused. */
    method Decide(id: string, updateRunning: bool, rebootRequired: bool) returns (ack: Ack)
      requires Valid()
      modifies this
      ensures Valid() && published == old(published) && goingDown == old(goingDown)
      ensures ack == if old(inProgress) then InProgress else if updateRunning then UpdateRunning
                     else if !rebootRequired then NotNeeded else Accepted
      ensures slot == if ack == Accepted then Claim(old(slot), id) else old(slot)
      ensures old(goingDown) ==> ack == InProgress
    {
      if inProgress {
        return InProgress;
      }
      if updateRunning {
        return UpdateRunning;
      }
      if !rebootRequired {
        return NotNeeded;
      }
      inProgress := true;
      ClaimKeeps(slot, id, STEPS);
      PublishedSkips(slot.trace, published, Mark(id, 0));
      slot := Claim(slot, id);
      return Accepted;
    }

    method PublishRebooting(ghost g: nat, id: string)
      requires Valid() && At(g, id, ANNOUNCE)
      modifies this
      ensures Valid() && slot == Advance(old(slot), g, STEPS) && goingDown == old(goingDown)
      ensures published == old(published) + [Record(id, Rebooting)]
    {
      AdvanceKeeps(slot, g, STEPS);
      PublishedAdds(slot.trace, published, Mark(id, ANNOUNCE));
      published := published + [Record(id, Rebooting)];
      slot := Advance(slot, g, STEPS);
    }

    /** The command was accepted: the goroutine returns and the slot is never freed. */
    method CommandTaken(ghost g: nat, ghost id: string)
      requires Valid() && At(g, id, FAIL)
      modifies this`goingDown
      ensures Valid() && goingDown && inProgress
    {
      goingDown := true;
    }

    method CommandFailed(ghost g: nat, id: string)
      requires Valid() && At(g, id, FAIL) && !goingDown
      modifies this
      ensures Valid() && slot == Advance(old(slot), g, STEPS) && !goingDown
      ensures published == old(published) + [Record(id, Failed)]
    {
      AdvanceKeeps(slot, g, STEPS);
      PublishedAdds(slot.trace, published, Mark(id, FAIL));
      published := published + [Record(id, Failed)];
      slot := Advance(slot, g, STEPS);
    }

    method Clear(ghost g: nat, ghost id: string)
      requires Valid() && At(g, id, CLEAR)
      modifies this
      ensures Valid() && slot == Advance(old(slot), g, STEPS) && published == old(published)
      ensures goingDown == old(goingDown) && !inProgress
    {
      AdvanceKeeps(slot, g, STEPS);
      PublishedSkips(slot.trace, published, Mark(id, CLEAR));
      inProgress := false;
      slot := Advance(slot, g, STEPS);
    }
  }
}

/** Minimum gaps between commands: check-ins (client/remotecheckin.go) and benchmarks
    (client/remotebenchmark.go). */
module RateLimits {
  import opened Options
  import opened RunSlots

  const SECOND := 1_000_000_000
  const MIN_CHECK_IN_INTERVAL := 10 * SECOND
  const MIN_BENCHMARK_INTERVAL := 600 * SECOND
  const BUSY_LOAD_PER_CPU := 0.5

  /** The zero time: nothing accepted yet. */
  const NEVER := 0

  // ---------- the wait ----------

  function Wait(last: int, now: int, interval: int): int {
    interval - (now - last)
  }

  predicate Open(last: int, now: int, interval: int) {
    last == NEVER || Wait(last, now, interval) <= 0
  }

  /** `Duration.Truncate(time.Second)`: toward zero. */
  function TruncateToSecond(d: int): int {
    if d >= 0 then d - d % SECOND else d + (-d) % SECOND
  }

  method CeilSeconds(d: int) returns (r: int)
    ensures d > 0 ==> r % SECOND == 0 && d <= r < d + SECOND
    ensures d <= 0 ==> r == d
  {
    var truncated := TruncateToSecond(d);
    if truncated < d {
      return truncated + SECOND;
    }
    return d;
  }

  /** The whole number of seconds a refusal tells an operator to wait is enough, and the least
      that is: after it, if nothing was accepted meanwhile, a request is let in, and after any
      smaller whole number it is not. */
  lemma RetryAfterWait(last: int, now: int, interval: int, told: int, wholeSeconds: nat)
    requires !Open(last, now, interval)
    requires told % SECOND == 0 && Wait(last, now, interval) <= told < Wait(last, now, interval) + SECOND
    ensures Open(last, now + wholeSeconds * SECOND, interval) <==> wholeSeconds * SECOND >= told
  {
    var k := told / SECOND;
    assert told == k * SECOND;
    if wholeSeconds < k {
      assert wholeSeconds * SECOND <= (k - 1) * SECOND;
    } else {
      assert wholeSeconds * SECOND >= k * SECOND;
    }
  }

  // ---------- any sequence of requests ----------

  /** One request: when it came, and whether anything but the limit stood in its way. */
  datatype Ask = Ask(now: int, willing: bool)

  function LastAccepted(asks: seq<Ask>, interval: int): int {
    if asks == [] then NEVER
    else
      var last, a := LastAccepted(asks[..|asks| - 1], interval), asks[|asks| - 1];
      if Open(last, a.now, interval) && a.willing then a.now else last
  }

  function AcceptedTimes(asks: seq<Ask>, interval: int): seq<int> {
    if asks == [] then []
    else
      var init, a := asks[..|asks| - 1], asks[|asks| - 1];
      if Open(LastAccepted(init, interval), a.now, interval) && a.willing then AcceptedTimes(init, interval) + [a.now]
      else AcceptedTimes(init, interval)
  }

  ghost predicate ClockRuns(asks: seq<Ask>) {
    && (forall i :: 0 <= i < |asks| ==> asks[i].now > NEVER)
    && (forall i, j :: 0 <= i < j < |asks| ==> asks[i].now <= asks[j].now)
  }

  /** Over any sequence of requests on a clock that does not go back, accepted requests are at
      least the interval apart, every one of them. */
  lemma {:induction false} AcceptedApart(asks: seq<Ask>, interval: nat)
    requires ClockRuns(asks)
    ensures var times := AcceptedTimes(asks, interval);
      && (forall i, j :: 0 <= i < j < |times| ==> times[j] - times[i] >= interval)
      && LastAccepted(asks, interval) == (if times == [] then NEVER else times[|times| - 1])
      && (forall t :: t in times ==> t > NEVER && t <= asks[|asks| - 1].now)
  {
    if asks != [] {
      var init := asks[..|asks| - 1];
      AcceptedApart(init, interval);
      var before := AcceptedTimes(init, interval);
      if before != [] {
        assert before[|before| - 1] in before;
      }
    }
  }

  /** And none is refused for the limit that the interval would let in: a refused request that
      met no other obstacle came within the interval of the last accepted one. */
  lemma RefusedOnlyWithin(asks: seq<Ask>, interval: nat)
    requires ClockRuns(asks) && asks != []
    requires var a := asks[|asks| - 1];
      a.willing && AcceptedTimes(asks, interval) == AcceptedTimes(asks[..|asks| - 1], interval)
    ensures var times := AcceptedTimes(asks[..|asks| - 1], interval);
      times != [] && asks[|asks| - 1].now - times[|times| - 1] < interval
  {
    var init := asks[..|asks| - 1];
    AcceptedApart(init, interval);
  }

  // ---------- the listeners ----------

  datatype CheckInAck = Accepted | TooSoon(retryIn: int)

  class CheckInListener {
    const minInterval: int
    var last: int
    /** The main loop's recheck channel, which holds one request. */
    var recheck: bool
    ghost var asks: seq<Ask>

    ghost predicate Valid()
      reads this
    {
      last == LastAccepted(asks, minInterval)
    }

    constructor (minInterval: int)
      ensures Valid() && asks == [] && this.minInterval == minInterval && !recheck
    {
      this.minInterval := minInterval;
      last, recheck, asks := NEVER, false, [];
    }

    /** An accepted request leaves a recheck queued; a refused one changes nothing and is told the
        whole seconds to wait. */
    method Decide(now: int) returns (ack: CheckInAck)
      requires Valid()
      modifies this
      ensures Valid() && asks == old(asks) + [Ask(now, true)]
      ensures ack.Accepted? <==> Open(old(last), now, minInterval)
      ensures ack.Accepted? ==> last == now && recheck
      ensures ack.TooSoon? ==> last == old(last) && recheck == old(recheck)
      ensures ack.TooSoon? ==> var w := Wait(old(last), now, minInterval);
        ack.retryIn % SECOND == 0 && w <= ack.retryIn < w + SECOND
    {
      asks := asks + [Ask(now, true)];
      assert asks[..|asks| - 1] == old(asks);
      var wait := minInterval - (now - last);
      if last != NEVER && wait > 0 {
        var told := CeilSeconds(wait);
        return TooSoon(told);
      }
      last := now;
      if !recheck {
        recheck := true;
      }
      return Accepted;
    }
  }

  datatype BenchmarkAck = BenchmarkAccepted | AlreadyRunning | RanRecently(retryIn: int) | HostBusy

  /** Whether the load reading, if there is one, lets a benchmark run. */
  predicate Quiet(load: Option<real>) {
    load.None? || load.value <= BUSY_LOAD_PER_CPU
  }

  const BENCHMARK_STEPS: nat := 2

  class BenchmarkListener {
    const minInterval: int
    var last: int
    var running: bool
    ghost var asks: seq<Ask>
    ghost var slot: Slot

    ghost predicate Valid()
      reads this
    {
      && last == LastAccepted(asks, minInterval)
      && OneAtATime(slot, BENCHMARK_STEPS) && running == slot.busy
    }

    constructor (minInterval: int)
      ensures Valid() && asks == [] && slot == FREE && this.minInterval == minInterval
    {
      this.minInterval := minInterval;
      last, running, asks, slot := NEVER, false, [], FREE;
    }

    /** Accepting claims the run. A refusal changes nothing but the record of who asked. */
    method Decide(id: string, now: int, load: Option<real>) returns (ack: BenchmarkAck)
      requires Valid()
      modifies this
      ensures Valid()
      ensures asks == old(asks) + [Ask(now, !old(running) && !(load.Some? && load.value > 0.5))]
      ensures match ack
        case AlreadyRunning => old(running)
        case RanRecently(t) => !old(running) && !Open(old(last), now, minInterval)
                               && t % SECOND == 0
                               && Wait(old(last), now, minInterval) <= t < Wait(old(last), now, minInterval) + SECOND
        case HostBusy => !old(running) && Open(old(last), now, minInterval) && load.Some? && load.value > 0.5
        case BenchmarkAccepted =>
          !old(running) && Open(old(last), now, minInterval) && (load.None? || load.value <= 0.5)
      ensures slot == if ack == BenchmarkAccepted then Claim(old(slot), id) else old(slot)
      ensures last == if ack == BenchmarkAccepted then now else old(last)
    {
      asks := asks + [Ask(now, !running && Quiet(load))];
      assert asks[..|asks| - 1] == old(asks);
      if running {
        return AlreadyRunning;
      }
      var wait := minInterval - (now - last);
      if last != NEVER && wait > 0 {
        var told := CeilSeconds(wait);
        return RanRecently(told);
      }
      if load.Some? && load.value > BUSY_LOAD_PER_CPU {
        return HostBusy;
      }
      ClaimKeeps(slot, id, BENCHMARK_STEPS);
      last, running := now, true;
      slot := Claim(slot, id);
      return BenchmarkAccepted;
    }

    /** The goroutine's end, whatever became of its result. */
    method Finish(ghost g: nat)
      requires Valid() && g in slot.live
      modifies this
      ensures Valid() && !running && last == old(last) && asks == old(asks)
      ensures slot == Advance(old(slot), g, BENCHMARK_STEPS)
    {
      AdvanceKeeps(slot, g, BENCHMARK_STEPS);
      running := false;
      slot := Advance(slot, g, BENCHMARK_STEPS);
    }
  }
}

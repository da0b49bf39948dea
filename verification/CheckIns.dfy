/** What the server does with the messages hosts send (server/nats/subscriber.go,
    server/nats/reboot.go, server/nats/benchmark.go): check-ins and the results of updates, reboots
    and benchmarks. Each handler is one atomic step, with one reading of the clock, and its saves
    succeed. */
module CheckIns {
  import opened Options
  import opened Models
  import opened GroupStore
  import Text
  import Versions

  const REBOOTING := "rebooting"
  const REBOOTED := "rebooted"
  const BACK_UP := "back up and checking in"

  // ---------- when a check-in closes a reboot ----------

  /** Two's-complement arithmetic on 64 bits, in which the program keeps durations. */
  function WrapInt64(x: int): int {
    (x + 0x8000_0000_0000_0000) % 0x1_0000_0000_0000_0000 - 0x8000_0000_0000_0000
  }

  /** The server's idea of when the host booted: its own receipt time less the host's uptime. */
  function BootedAt(uptimeSeconds: nat, now: int): int {
    now + WrapInt64(-(uptimeSeconds * SECOND))
  }

  predicate Closes(r: Reboot, uptimeSeconds: nat, now: int) {
    && r.status == REBOOTING && uptimeSeconds != 0
    && r.requestedAt.At? && BootedAt(uptimeSeconds, now) > r.requestedAt.time
  }

  function Closed(r: Reboot, now: int): Reboot {
    r.(status := REBOOTED, finishedAt := At(ToSecond(now)))
  }

  method ResolveReboot(previous: Option<Reboot>, uptimeSeconds: nat, now: int) returns (r: Option<Reboot>)
    ensures r == if previous.Some? && Closes(previous.value, uptimeSeconds, now)
                 then Some(Closed(previous.value, now)) else previous
    ensures r != previous ==>
      && previous.Some? && previous.value.status == "rebooting"
      && r == Some(previous.value.(status := "rebooted", finishedAt := At(now - now % SECOND)))
  {
    if previous.None? || previous.value.status != REBOOTING || uptimeSeconds == 0 {
      return previous;
    }
    if !previous.value.requestedAt.At? {
      return previous;
    }
    var bootedAt := BootedAt(uptimeSeconds, now);
    if bootedAt <= previous.value.requestedAt.time {
      return previous;
    }
    return Some(previous.value.(status := REBOOTED, finishedAt := At(ToSecond(now))));
  }

  /** A host that booted at `boot` reads its uptime at `read`, in whole seconds, and the server
      receives it at `now`. The host has been up less than 292 years. */
  ghost predicate Report(boot: int, read: int, now: int, uptimeSeconds: nat) {
    && boot <= read <= now
    && uptimeSeconds == (read - boot) / SECOND
    && now - boot < 0x8000_0000_0000_0000
  }

  /** How much later than the truth the derived boot time is: the delivery delay and what the
      whole seconds leave out. */
  ghost function Skew(boot: int, read: int, now: int): int {
    (now - read) + (read - boot) % SECOND
  }

  lemma BootTimeSkew(boot: int, read: int, now: int, uptimeSeconds: nat)
    requires Report(boot, read, now, uptimeSeconds)
    ensures BootedAt(uptimeSeconds, now) == boot + Skew(boot, read, now)
    ensures 0 <= Skew(boot, read, now) < now - read + SECOND
  {
    var up := uptimeSeconds * SECOND;
    assert 0 <= up <= read - boot;
    assert WrapInt64(-up) == -up;
  }

  /** Exactly when a check-in closes a pending reboot, in terms of when the host really booted. So
      one from a boot after the request always does, if it reports an uptime at all, and one from
      a boot that came before the request by the delay and a second never does. */
  lemma ClosesExactly(r: Reboot, boot: int, read: int, now: int, uptimeSeconds: nat)
    requires Report(boot, read, now, uptimeSeconds)
    requires r.status == REBOOTING && r.requestedAt.At?
    ensures Closes(r, uptimeSeconds, now) <==>
            uptimeSeconds != 0 && boot + Skew(boot, read, now) > r.requestedAt.time
    ensures boot > r.requestedAt.time && uptimeSeconds != 0 ==> Closes(r, uptimeSeconds, now)
    ensures boot + (now - read) + SECOND <= r.requestedAt.time ==> !Closes(r, uptimeSeconds, now)
  {
    BootTimeSkew(boot, read, now, uptimeSeconds);
  }

  /** Inside that margin a check-in from before the reboot can close it: here the host has been up
      since a tenth of a second before the request, and nothing has rebooted. */
  lemma ClosedTooEarly(r: Reboot)
    requires r.status == REBOOTING && r.requestedAt == At(1000 * SECOND)
    ensures var boot, read, now := 1000 * SECOND - SECOND / 10, 1002 * SECOND - SECOND / 5, 1002 * SECOND;
      && Report(boot, read, now, 1) && boot < r.requestedAt.time && Closes(r, 1, now)
  {
    ClosesExactly(r, 1000 * SECOND - SECOND / 10, 1002 * SECOND - SECOND / 5, 1002 * SECOND, 1);
  }

  /** The same against the instant the request was made, which the stored record has cut to the
      second: the margin grows by up to another second. */
  lemma ClosesFromRequest(r: Reboot, asked: int, boot: int, read: int, now: int, uptimeSeconds: nat)
    requires Report(boot, read, now, uptimeSeconds)
    requires r.status == REBOOTING && r.requestedAt == At(ToSecond(asked))
    ensures Closes(r, uptimeSeconds, now) <==>
            uptimeSeconds != 0 && boot + Skew(boot, read, now) + asked % SECOND > asked
    ensures boot > asked && uptimeSeconds != 0 ==> Closes(r, uptimeSeconds, now)
    ensures boot + (now - read) + 2 * SECOND <= asked ==> !Closes(r, uptimeSeconds, now)
  {
    ClosesExactly(r, boot, read, now, uptimeSeconds);
  }

  /** Here nothing was delayed, and a host up since 1.7 seconds before the request, which was made at
      1000.9 seconds, closes it. */
  lemma ClosedTooEarlyUndelayed(r: Reboot)
    requires r.status == REBOOTING && r.requestedAt == At(ToSecond(1000 * SECOND + 9 * (SECOND / 10)))
    ensures var asked, boot := 1000 * SECOND + 9 * (SECOND / 10), 999 * SECOND + SECOND / 5;
      var read := 1002 * SECOND + SECOND / 10;
      boot < asked < read && Report(boot, read, read, 2) && Closes(r, 2, read)
  {
    ClosesFromRequest(r, 1000 * SECOND + 9 * (SECOND / 10), 999 * SECOND + SECOND / 5,
                      1002 * SECOND + SECOND / 10, 1002 * SECOND + SECOND / 10, 2);
  }

  // ---------- uptimes past what a duration holds ----------

  /** What is left of an uptime after its nanoseconds have wrapped round 64 bits. */
  function Wrapped(uptimeSeconds: nat): (d: nat)
    ensures d < 0x1_0000_0000_0000_0000
    ensures uptimeSeconds * SECOND < 0x1_0000_0000_0000_0000 ==> d == uptimeSeconds * SECOND
  {
    uptimeSeconds * SECOND % 0x1_0000_0000_0000_0000
  }

  lemma WrapNegated(x: int)
    requires x >= 0
    ensures var d := x % 0x1_0000_0000_0000_0000;
      WrapInt64(-x) == if d <= 0x8000_0000_0000_0000 then -d else 0x1_0000_0000_0000_0000 - d
  {
    var m := 0x1_0000_0000_0000_0000;
    var d, q := x % m, x / m;
    if d <= 0x8000_0000_0000_0000 {
      ModShift(0x8000_0000_0000_0000 - d, -q, m);
    } else {
      ModShift(0x8000_0000_0000_0000 - d + m, -q - 1, m);
    }
  }

  lemma ModShift(a: int, k: int, m: int)
    requires 0 <= a < m
    ensures (a + k * m) % m == a
  {
    var n := a + k * m;
    var e := k - n / m;
    assert e * m == n % m - a;
    Multiples(e, m);
  }

  lemma Multiples(e: int, m: int)
    requires m > 0
    ensures e >= 1 ==> e * m >= m
    ensures e <= -1 ==> e * m <= -m
  {}

  /** For every uptime whatever, the boot time derived: it wraps round 64 bits, and in the upper half
      of a turn it lies after the receipt of the check-in itself. So this is exactly when a check-in
      closes a reboot, above all one requested no later than the check-in came. */
  lemma UptimeWraps(r: Reboot, uptimeSeconds: nat, now: int)
    requires r.status == REBOOTING && r.requestedAt.At?
    ensures var d := Wrapped(uptimeSeconds);
      var boot := if d <= 0x8000_0000_0000_0000 then now - d else now + (0x1_0000_0000_0000_0000 - d);
      && BootedAt(uptimeSeconds, now) == boot
      && (Closes(r, uptimeSeconds, now) <==> uptimeSeconds != 0 && boot > r.requestedAt.time)
      && (r.requestedAt.time <= now ==>
            (Closes(r, uptimeSeconds, now) <==>
               uptimeSeconds != 0 && (d > 0x8000_0000_0000_0000 || d < now - r.requestedAt.time)))
  {
    WrapNegated(uptimeSeconds * SECOND);
  }

  /** The host says it has been up since before the request, yet the check-in closes it; or the other
      way round. */
  ghost predicate Misjudged(r: Reboot, uptimeSeconds: nat, now: int)
    requires r.requestedAt.At?
  {
    Closes(r, uptimeSeconds, now) != (uptimeSeconds != 0 && now - uptimeSeconds * SECOND > r.requestedAt.time)
  }

  /** Of a request in the last 292 years, a check-in is misjudged if and only if the uptime it reports
      does not fit a duration and has wrapped into the upper half of a turn or to less than the age
      of the request. */
  lemma MisjudgedExactly(r: Reboot, uptimeSeconds: nat, now: int)
    requires r.status == REBOOTING && r.requestedAt.At?
    requires now - 0x8000_0000_0000_0000 <= r.requestedAt.time <= now
    ensures var d := Wrapped(uptimeSeconds);
      Misjudged(r, uptimeSeconds, now) <==>
        uptimeSeconds * SECOND > 0x8000_0000_0000_0000
        && (d > 0x8000_0000_0000_0000 || d < now - r.requestedAt.time)
  {
    UptimeWraps(r, uptimeSeconds, now);
  }

  /** One such uptime, under a second short of a whole turn, closes any request made by now. One that
      has wrapped to 270 years closes none of the last thousand seconds. */
  lemma UptimeWrapsEitherWay(r: Reboot, now: int)
    requires r.status == REBOOTING && r.requestedAt.At? && now - 1000 * SECOND <= r.requestedAt.time <= now
    ensures Closes(r, 18_446_744_073, now) && Misjudged(r, 18_446_744_073, now)
    ensures !Closes(r, 27_000_000_000, now) && !Misjudged(r, 27_000_000_000, now)
  {
    MisjudgedExactly(r, 18_446_744_073, now);
    MisjudgedExactly(r, 27_000_000_000, now);
  }

  // ---------- the handlers ----------

  datatype State = State(systems: map<string, System>, log: seq<Operation>)

  /** What a host sends, or its deletion from the dashboard. A benchmark's scores are the text the
      log shows of them. */
  datatype Message =
    | CheckIn(system: System, now: int)
    | RebootResult(host: string, reboot: Reboot, now: int)
    | UpdateResult(host: string, run: UpdateRun, now: int)
    | BenchmarkResult(host: string, bench: Benchmark, scores: string, now: int)
    | Deleted(host: string)

  function Line(host: string, action: string, event: string, id: string, requester: string, command: string,
                detail: string): Operation
  {
    Operation(0, "", host, action, event, "", id, requester, "", command, detail)
  }

  /** A check-in as saved over what the server had: the records that travel on their own subjects
      stay, and the reboot may be over. */
  function Merged(previous: System, s: System, now: int): System {
    s.(lastUpdateRun := previous.lastUpdateRun, benchmark := previous.benchmark,
       lastReboot := if previous.lastReboot.Some? && Closes(previous.lastReboot.value, s.uptimeSeconds, now)
                     then Some(Closed(previous.lastReboot.value, now)) else previous.lastReboot,
       lastSeen := At(ToSecond(now)))
  }

  function Handled(st: State, m: Message): State {
    match m
    case CheckIn(s, now) =>
      if s.hostname == "" then st
      else if s.hostname !in st.systems then st.(systems := st.systems[s.hostname := s.(lastSeen := At(ToSecond(now)))])
      else
        var previous := st.systems[s.hostname];
        var line := Line(s.hostname, "reboot", REBOOTED,
                         if previous.lastReboot.Some? then previous.lastReboot.value.id else "",
                         if previous.lastReboot.Some? then previous.lastReboot.value.requestedBy else "", "", BACK_UP);
        var closed := previous.lastReboot.Some? && Closes(previous.lastReboot.value, s.uptimeSeconds, now);
        State(st.systems[s.hostname := Merged(previous, s, now)], if closed then st.log + [line] else st.log)
    case RebootResult(host, reboot, now) =>
      if host !in st.systems then st
      else
        var r := if reboot.requestedAt == Empty then reboot.(requestedAt := At(ToSecond(now))) else reboot;
        State(st.systems[host := st.systems[host].(lastReboot := Some(r), lastSeen := At(ToSecond(now)))],
              st.log + [Line(host, "reboot", r.status, r.id, r.requestedBy, r.command, r.error)])
    case UpdateResult(host, run, now) =>
      if host !in st.systems then st
      else
        State(st.systems[host := st.systems[host].(lastUpdateRun := Some(run), lastSeen := At(ToSecond(now)))],
              st.log + [Line(host, "update", run.status, run.id, run.requestedBy, run.command, UpdateRunDetail(run))])
    case BenchmarkResult(host, bench, scores, now) =>
      if host !in st.systems then st
      else
        var system := st.systems[host].(benchmark := Some(Dated(bench, now)), lastSeen := At(ToSecond(now)));
        State(st.systems[host := system],
              st.log + [Line(host, "benchmark", "succeeded", bench.id, bench.requestedBy, "", scores)])
    case Deleted(host) => st.(systems := st.systems - {host})
  }

  function Dated(bench: Benchmark, now: int): Benchmark {
    if bench.finishedAt == Empty then bench.(finishedAt := At(ToSecond(now))) else bench
  }

  /** How a run ended, in the words the log shows. */
  function UpdateRunDetail(run: UpdateRun): string {
    if run.status == "running" then ""
    else if run.error != "" then run.error
    else if run.status == "failed" then "exited with status " + Text.Decimal(run.exitCode)
    else ""
  }

  /** The log gains one line, of these words. */
  ghost predicate LogGains(before: seq<Operation>, after: seq<Operation>, host: string, action: string, event: string,
                           id: string, requester: string, command: string, detail: string)
  {
    && |after| == |before| + 1 && after[..|before|] == before
    && after[|before|].hostname == host && after[|before|].action == action && after[|before|].event == event
    && after[|before|].id == id && after[|before|].requestedBy == requester
    && after[|before|].command == command && after[|before|].detail == detail
  }

  /** A known host has checked in: everything it reports is stored as it reports it, its update run and
      its benchmark stay, and its reboot stays with nothing logged, or is closed with one line. */
  ghost predicate CheckedIn(before: State, after: State, s: System, now: int) {
    && s.hostname in before.systems && s.hostname in after.systems
    && var previous := before.systems[s.hostname]; var reboot := after.systems[s.hostname].lastReboot;
       && after.systems == before.systems[s.hostname :=
            s.(lastUpdateRun := previous.lastUpdateRun, benchmark := previous.benchmark, lastReboot := reboot,
               lastSeen := At(now - now % SECOND))]
       && if previous.lastReboot.Some? && Closes(previous.lastReboot.value, s.uptimeSeconds, now) then
            && reboot == Some(previous.lastReboot.value.(status := "rebooted", finishedAt := At(now - now % SECOND)))
            && LogGains(before.log, after.log, s.hostname, "reboot", "rebooted", reboot.value.id,
                        reboot.value.requestedBy, "", "back up and checking in")
          else reboot == previous.lastReboot && after.log == before.log
  }

  lemma HandledCheckIn(before: State, s: System, now: int)
    requires s.hostname != "" && s.hostname in before.systems
    ensures CheckedIn(before, Handled(before, CheckIn(s, now)), s, now)
  {}

  class Subscriber {
    const store: Storage
    var log: seq<Operation>

    ghost function View(): State
      reads this, store
    {
      State(store.systems, log)
    }

    constructor (store: Storage)
      ensures View() == State(store.systems, []) && this.store == store
    {
      this.store, log := store, [];
    }

    function Previous(host: string): Option<System>
      reads this, store
    {
      if host in store.systems then Some(store.systems[host]) else None
    }

    method HandleCheckIn(message: System, now: int)
      requires store.Valid()
      modifies this, store`systems
      ensures store.Valid() && View() == Handled(old(View()), CheckIn(message, now))
      ensures message.hostname == "" ==> View() == old(View())
      ensures message.hostname != "" && message.hostname !in old(store.systems) ==>
        && store.systems == old(store.systems)[message.hostname := message.(lastSeen := At(ToSecond(now)))]
        && log == old(log)
      ensures message.hostname in old(store.systems) ==>
        CheckedIn(old(View()), View(), message, now)
    {
      if message.hostname in store.systems {
        HandledCheckIn(View(), message, now);
      }
      var system := message;
      var previous := Previous(system.hostname);
      if previous.Some? {
        var reboot := ResolveReboot(previous.value.lastReboot, system.uptimeSeconds, now);
        system := system.(lastUpdateRun := previous.value.lastUpdateRun, lastReboot := reboot,
                          benchmark := previous.value.benchmark);
      }
      var saved := store.SaveSystem(system.hostname, system, now);
      if previous.Some? && previous.value.lastReboot != system.lastReboot && system.lastReboot.Some?
         && system.lastReboot.value.status == REBOOTED {
        log := log + [Line(system.hostname, "reboot", REBOOTED, system.lastReboot.value.id,
                           system.lastReboot.value.requestedBy, "", BACK_UP)];
      }
    }

    method HandleRebootResult(host: string, message: Reboot, now: int)
      requires store.Valid()
      modifies this, store`systems
      ensures store.Valid() && View() == Handled(old(View()), RebootResult(host, message, now))
      ensures host !in old(store.systems) ==> View() == old(View())
      ensures host in old(store.systems) ==>
        var r := if message.requestedAt == Empty then message.(requestedAt := At(ToSecond(now))) else message;
        && store.systems == old(store.systems)[host := old(store.systems)[host].(lastReboot := Some(r),
                                                                                 lastSeen := At(ToSecond(now)))]
        && LogGains(old(log), log, host, "reboot", message.status, message.id, message.requestedBy,
                    message.command, message.error)
    {
      if host == "" {
        return;
      }
      var reboot := message;
      if reboot.requestedAt == Empty {
        reboot := reboot.(requestedAt := At(ToSecond(now)));
      }
      var system := Previous(host);
      if system.None? {
        return;
      }
      var saved := store.SaveSystem(host, system.value.(lastReboot := Some(reboot)), now);
      log := log + [Line(host, "reboot", reboot.status, reboot.id, reboot.requestedBy, reboot.command, reboot.error)];
    }

    method HandleUpdateResult(host: string, run: UpdateRun, now: int)
      requires store.Valid()
      modifies this, store`systems
      ensures store.Valid() && View() == Handled(old(View()), UpdateResult(host, run, now))
      ensures host !in old(store.systems) ==> View() == old(View())
      ensures host in old(store.systems) ==>
        && store.systems == old(store.systems)[host := old(store.systems)[host].(lastUpdateRun := Some(run),
                                                                                 lastSeen := At(ToSecond(now)))]
        && LogGains(old(log), log, host, "update", run.status, run.id, run.requestedBy, run.command,
                    UpdateRunDetail(run))
    {
      var system := Previous(host);
      if host == "" || system.None? {
        return;
      }
      var saved := store.SaveSystem(host, system.value.(lastUpdateRun := Some(run)), now);
      log := log + [Line(host, "update", run.status, run.id, run.requestedBy, run.command, UpdateRunDetail(run))];
    }

    method HandleBenchmarkResult(host: string, message: Benchmark, scores: string, now: int)
      requires store.Valid()
      modifies this, store`systems
      ensures store.Valid() && View() == Handled(old(View()), BenchmarkResult(host, message, scores, now))
      ensures host !in old(store.systems) ==> View() == old(View())
      ensures host in old(store.systems) ==>
        var b := if message.finishedAt == Empty then message.(finishedAt := At(ToSecond(now))) else message;
        && store.systems == old(store.systems)[host := old(store.systems)[host].(benchmark := Some(b),
                                                                                 lastSeen := At(ToSecond(now)))]
        && LogGains(old(log), log, host, "benchmark", "succeeded", message.id, message.requestedBy, "", scores)
    {
      if host == "" {
        return;
      }
      var bench := message;
      if bench.finishedAt == Empty {
        bench := bench.(finishedAt := At(ToSecond(now)));
      }
      var system := Previous(host);
      if system.None? {
        return;
      }
      var saved := store.SaveSystem(host, system.value.(benchmark := Some(bench)), now);
      log := log + [Line(host, "benchmark", "succeeded", bench.id, bench.requestedBy, "", scores)];
    }

    /** The dashboard deletes a host. */
    method Delete(host: string)
      requires store.Valid()
      modifies store
      ensures store.Valid() && View() == Handled(old(View()), Deleted(host))
      ensures store.systems == old(store.systems) - {host} && log == old(log)
    {
      var o := store.DeleteSystem(host);
      assert o != Done ==> old(store.systems) - {host} == old(store.systems);
    }
  }

  // ---------- over whole runs ----------

  function HandledAll(st: State, messages: seq<Message>): State {
    if messages == [] then st
    else Handled(HandledAll(st, messages[..|messages| - 1]), messages[|messages| - 1])
  }

  /** The lines that say a reboot of `h` is over. */
  function BackUpLines(log: seq<Operation>, h: string): seq<Operation> {
    if log == [] then []
    else
      var init, last := BackUpLines(log[..|log| - 1], h), log[|log| - 1];
      if last.hostname == h && last.action == "reboot" && last.event == REBOOTED && last.detail == BACK_UP
      then init + [last] else init
  }

  lemma BackUpAppend(log: seq<Operation>, op: Operation, h: string)
    ensures BackUpLines(log + [op], h) ==
      if op.hostname == h && op.action == "reboot" && op.event == REBOOTED && op.detail == BACK_UP
      then BackUpLines(log, h) + [op] else BackUpLines(log, h)
  {
    assert (log + [op])[..|log|] == log;
  }

  predicate ClosesMessage(r: Reboot, h: string, m: Message) {
    m.CheckIn? && m.system.hostname == h && Closes(r, m.system.uptimeSeconds, m.now)
  }

  /** The message puts another reboot record on `h`, or removes the host. */
  predicate Replaces(m: Message, h: string) {
    (m.RebootResult? || m.Deleted?) && m.host == h
  }

  /** The first check-in that closes the reboot, or the number of messages when none does. */
  function FirstClosing(r: Reboot, h: string, messages: seq<Message>): (k: nat)
    ensures k <= |messages|
    ensures forall i :: 0 <= i < k ==> !ClosesMessage(r, h, messages[i])
    ensures k < |messages| ==> ClosesMessage(r, h, messages[k])
  {
    if messages == [] then 0
    else
      var init := messages[..|messages| - 1];
      var k := FirstClosing(r, h, init);
      if k < |init| then k
      else if ClosesMessage(r, h, messages[|messages| - 1]) then |init| else |messages|
  }

  /** A reboot under way on `h` is over exactly when some later check-in shows it, and the log says
      so exactly once: whatever else arrives, until the host's next reboot result or its deletion the
      record is as stored and unannounced up to the first closing check-in, and closed and announced
      by one line ever after. */
  lemma {:induction false} RebootClosedOnce(st: State, h: string, r: Reboot, messages: seq<Message>)
    requires h != "" && h in st.systems && st.systems[h].lastReboot == Some(r) && r.status == REBOOTING
    requires forall m :: m in messages ==> !Replaces(m, h)
    ensures var after := HandledAll(st, messages); var k := FirstClosing(r, h, messages);
      && h in after.systems
      && (k == |messages| ==>
            && after.systems[h].lastReboot == Some(r)
            && BackUpLines(after.log, h) == BackUpLines(st.log, h))
      && (k < |messages| ==>
            && after.systems[h].lastReboot == Some(Closed(r, messages[k].now))
            && BackUpLines(after.log, h) ==
               BackUpLines(st.log, h) + [Line(h, "reboot", REBOOTED, r.id, r.requestedBy, "", BACK_UP)])
  {
    if messages != [] {
      var init, m := messages[..|messages| - 1], messages[|messages| - 1];
      RebootClosedOnce(st, h, r, init);
      var before := HandledAll(st, init);
      assert m in messages;
      HandledOne(before, h, m);
    }
  }

  lemma HandledOne(st: State, h: string, m: Message)
    requires h != "" && h in st.systems && st.systems[h].lastReboot.Some?
    requires !Replaces(m, h)
    ensures var r := st.systems[h].lastReboot.value; var after := Handled(st, m);
      && h in after.systems
      && after.systems[h].lastReboot == Some(if ClosesMessage(r, h, m) then Closed(r, m.now) else r)
      && BackUpLines(after.log, h) == BackUpLines(st.log, h) +
         if ClosesMessage(r, h, m) then [Line(h, "reboot", REBOOTED, r.id, r.requestedBy, "", BACK_UP)] else []
  {
    var after := Handled(st, m);
    if |after.log| > |st.log| {
      assert after.log == st.log + [after.log[|st.log|]];
      BackUpAppend(st.log, after.log[|st.log|], h);
    }
  }

  /** A check-in never loses the records that travel on other subjects, and what it does report is what
      the dashboard shows. */
  lemma CheckInCarriesForward(st: State, s: System, now: int)
    requires s.hostname != "" && s.hostname in st.systems
    ensures var before, after := st.systems[s.hostname], Handled(st, CheckIn(s, now)).systems[s.hostname];
      && after == s.(lastUpdateRun := before.lastUpdateRun, benchmark := before.benchmark,
                     lastReboot := after.lastReboot, lastSeen := At(ToSecond(now)))
      && (after.lastReboot.Some? <==> before.lastReboot.Some?)
      && (before.lastReboot.Some? ==>
            after.lastReboot.value == before.lastReboot.value.(status := after.lastReboot.value.status,
                                                               finishedAt := after.lastReboot.value.finishedAt))
  {}

  // ---------- the last result stands ----------

  /** The last update result of `h` among the messages, or -1. */
  function LastUpdate(messages: seq<Message>, h: string): (k: int)
    ensures -1 <= k < |messages|
    ensures k >= 0 ==> messages[k].UpdateResult? && messages[k].host == h
    ensures forall i :: k < i < |messages| ==> !(messages[i].UpdateResult? && messages[i].host == h)
  {
    if messages == [] then -1
    else
      var n := |messages| - 1;
      if messages[n].UpdateResult? && messages[n].host == h then n else LastUpdate(messages[..n], h)
  }

  function LastBenchmark(messages: seq<Message>, h: string): (k: int)
    ensures -1 <= k < |messages|
    ensures k >= 0 ==> messages[k].BenchmarkResult? && messages[k].host == h
    ensures forall i :: k < i < |messages| ==> !(messages[i].BenchmarkResult? && messages[i].host == h)
  {
    if messages == [] then -1
    else
      var n := |messages| - 1;
      if messages[n].BenchmarkResult? && messages[n].host == h then n else LastBenchmark(messages[..n], h)
  }

  /** From any moment a host is known until it is deleted, whatever else arrives: its update run is the
      one of its last update result, and its benchmark the one of its last benchmark result, dated if
      it came without a date; or what they were, where none came. */
  lemma {:induction false} LastResultsStand(st: State, h: string, messages: seq<Message>)
    requires h != "" && h in st.systems && Deleted(h) !in messages
    ensures var after := HandledAll(st, messages);
      var u, b := LastUpdate(messages, h), LastBenchmark(messages, h);
      && h in after.systems
      && after.systems[h].lastUpdateRun == (if u < 0 then st.systems[h].lastUpdateRun else Some(messages[u].run))
      && (b < 0 ==> after.systems[h].benchmark == st.systems[h].benchmark)
      && (b >= 0 ==>
            && after.systems[h].benchmark.Some?
            && var bench := messages[b].bench;
               after.systems[h].benchmark.value
               == if bench.finishedAt == Empty then bench.(finishedAt := At(ToSecond(messages[b].now))) else bench)
  {
    if messages != [] {
      var init, m := messages[..|messages| - 1], messages[|messages| - 1];
      LastResultsStand(st, h, init);
      assert m in messages;
      ResultsStep(HandledAll(st, init), h, m);
    }
  }

  lemma ResultsStep(st: State, h: string, m: Message)
    requires h != "" && h in st.systems && m != Deleted(h)
    ensures var after := Handled(st, m).systems;
      && h in after
      && after[h].lastUpdateRun
         == (if m.UpdateResult? && m.host == h then Some(m.run) else st.systems[h].lastUpdateRun)
      && after[h].benchmark
         == (if m.BenchmarkResult? && m.host == h then Some(Dated(m.bench, m.now)) else st.systems[h].benchmark)
  {}

  /** A run still going has nothing to say; one that is over says its error, or its exit status if it
      failed without one. */
  lemma UpdateDetailSays(run: UpdateRun)
    ensures run.status == "running" || (run.error == "" && run.status != "failed") <==> UpdateRunDetail(run) == ""
    ensures run.status != "running" && run.error != "" ==> UpdateRunDetail(run) == run.error
    ensures run.status == "failed" && run.error == "" ==>
      UpdateRunDetail(run) == "exited with status " + Text.Decimal(run.exitCode)
  {
    assert |"exited with status " + Text.Decimal(run.exitCode)| > 0;
  }

  /** A number in a log line reads back as itself. */
  lemma {:induction false} DigitsRead(n: nat)
    ensures Text.Digits(n) != [] && Versions.AllDigits(Text.Digits(n)) && Versions.NumberValue(Text.Digits(n)) == n
  {
    var s := Text.Digits(n);
    if n >= 10 {
      DigitsRead(n / 10);
      assert s[..|s| - 1] == Text.Digits(n / 10);
    } else {
      assert s[..0] == [];
    }
  }
}

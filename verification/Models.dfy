/** The records the server keeps (server/models/models.go, groups.go, operations.go), cut to the
    fields its decisions read. A time is a number of nanoseconds; a time kept as text may be
    empty or unreadable. */
module Models {
  import opened Options

  const SECOND := 1_000_000_000

  /** A time as it reads back from RFC 3339 text: cut to the second. */
  function ToSecond(t: int): int {
    t - t % SECOND
  }

  datatype Stamp = Empty | Unreadable | At(time: int)

  datatype Reboot = Reboot(id: string, status: string, requestedBy: string, command: string,
                           requestedAt: Stamp, finishedAt: Stamp, error: string)

  datatype UpdateRun = UpdateRun(id: string, status: string, requestedBy: string, command: string,
                                 startedAt: Stamp, finishedAt: Stamp, exitCode: int, error: string, output: string)

  datatype Benchmark = Benchmark(id: string, requestedBy: string, finishedAt: Stamp)

  datatype System = System(
    hostname: string,
    architecture: string,
    os: string,
    updatesAvailable: bool,
    lastSeen: Stamp,
    uptimeSeconds: nat,
    rebootRequired: bool,
    remoteUpdatesEnabled: bool,
    remoteRebootEnabled: bool,
    benchmarkSupported: bool,
    lastUpdateRun: Option<UpdateRun>,
    lastReboot: Option<Reboot>,
    benchmark: Option<Benchmark>
  )

  datatype Group = Group(name: string, members: seq<string>, derived: bool)

  /** One line of the operations log. */
  datatype Operation = Operation(
    seqNo: nat,
    time: string,
    hostname: string,
    action: string,
    event: string,
    outcome: string,
    id: string,
    requestedBy: string,
    group: string,
    command: string,
    detail: string
  )
}

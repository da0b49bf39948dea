# Fleet dashboard: a verified model

The repository is a fleet dashboard: a client on every host reports pending packages, kernel and
hardware facts to one server over NATS, and the server keeps the records, shows them, and asks hosts
to update, check in, reboot or run a benchmark. This project models the parts of it that carry state
or an algorithm and proves what they are for, over all inputs and all runs.

How it is built. Where the program changes things in place, so does the model: a class with the
program's fields, or a method with its loop. Such a method is proved equal to a pure function of the
old state, or has its whole new state given by its `ensures`. Where several goroutines or both ends of
the wire are involved, a run is a list of atomic steps in any order, one step to each critical
section, and the theorem is about every such list.

| file | what it models |
|---|---|
| `OperationsLog.dfy` | the bounded operations log, its big-endian keys, its pruning cursor and its newest-first pager |
| `Versions.dfy` | kernel version comparison and the decision that a host needs a reboot |
| `LiveOutput.dfy` | live output of an update: writers, ticker, chunker and tail on the client, JSON on the way, bounded buffer per host on the server |
| `Groups.dfy` | group names, the group store and the deletion of a system |
| `Derived.dfy` | groups computed from what hosts report |
| `GroupsApi.dfy` | the routes over both kinds of group, and the deletion of a host |
| `Scheduler.dfy` | the benchmark scheduler, with its no-starvation bound |
| `Dispatch.dfy` | the ladder each request climbs, and the concurrent fan-out to a group |
| `CheckIns.dfy` | the server's handling of check-ins and of update, reboot and benchmark results |
| `RunSlots.dfy` | one job at a time on a client, and the update runner built on it |
| `Listeners.dfy` | the reboot listener, and the minimum gaps between check-ins and between benchmarks |
| `ClientLoop.dfy` | the settle timer and the client's main loop |
| `Text.dfy`, `Models.dfy` | strings in byte order, trimming, folding and sorting; the records |

What the proofs turned up, with the code followed in each case:

- `README.md:808-814` of the repository says a deleted host stays in its groups. The code takes it
  out of all of them in the same transaction (`server/storage/bbolt.go:194-198`).
- A group update that carries both members and a name saves the members first
  (`server/api/groups.go:202-237`). Refused for its name with 400 or 409, it has already changed who is
  in the group: exactly when the members sent name a different set (`GroupsApi.Api.UpdateGroup`,
  `GroupsApi.RefusedUpdateKeepsMembers`), as in `GroupsApi.RefusedUpdateMovesHosts`.
- A route that reads a group and writes its copy back undoes edits made in between, exactly those of
  the same group that disagree with what it writes (`GroupsApi.EditsSurviveReplacement`,
  `GroupsApi.EditsSurviveRemoval`).
- A check-in from a boot before the reboot request can close that reboot. Measured from the stored
  request time the margin is the delivery delay plus less than one second (`CheckIns.ClosesExactly`,
  `CheckIns.ClosedTooEarly`); from the instant of the request, which is stored cut to the second, it is
  up to a second more (`CheckIns.ClosesFromRequest`, `CheckIns.ClosedTooEarlyUndelayed`).
- An uptime that does not fit a 64-bit duration wraps. In the upper half of a turn it looks like a boot
  later than now and closes any reboot; in the lower half it looks like a shorter uptime and may or may
  not. `CheckIns.UptimeWraps` gives the boot time for every uptime, `CheckIns.MisjudgedExactly` exactly
  when the answer is wrong.
- A package change whose settle wait runs out while the connection is down is not looked at again when
  the connection returns (`ClientLoop.LostWhileDisconnected`), until the five-minute ticker comes round
  (`ClientLoop.TickRepairs`); an accepted request for a check-in can be lost the same way
  (`ClientLoop.RequestLostWhileDisconnected`). `ClientLoop.ReportedExactly` and
  `ClientLoop.AnsweredExactly` say exactly when; a client that stays connected loses nothing.
- Without a readable package database there is nothing to compare, and every settled signal checks
  (`client/pkgdb.go:27-30`, `client/main.go:575`). `ClientLoop.SettledWaitExact` says exactly when a
  settled wait checks, `ClientLoop.SpuriousSignalChecks` what one signal with no write behind it does.
- Output that is not ASCII can be altered on its way, where a chunk boundary cuts a character
  (`JsonText.SplitCharacter`); a viewer sees what was written if and only if every chunk is UTF-8
  (`RunLog.PipelineEndToEnd`).

## Model

| member | source | states |
|---|---|---|
| `OperationsLog.SeqKeyOrder` | server/storage/operations.go:23-29 | byte order of the keys is numeric order on every 64-bit sequence number, so cursor order is chronological order |
| `OperationsLog.SeqKeyBijection` | server/storage/operations.go:23-29 | encoding and decoding are inverse both ways between 64-bit numbers and eight-byte keys |
| `OperationsLog.AppendedExact` | server/storage/operations.go:40-76 | from any ordered log, whatever is in it, an append keeps exactly the entries within the limit of the new number, in order; the new one keeps every field of the operation but its number and a blank time |
| `OperationsLog.WindowExact` | server/storage/operations.go:40-76 | after any sequence of appends the log is exactly the last `kept` of everything ever appended, numbered contiguously up to the count of it all |
| `OperationsLog.AllNumbered` | server/storage/operations.go:40-60 | entry i is the i-th operation appended, with all its fields but its number, which is i, and a blank time, which becomes the time of the append |
| `OperationsLog.PageExact` | server/storage/operations.go:89-135 | a page is newest first, holds only what was asked for, and leaves a match out only when it is full and the match is older than its last entry |
| `OperationsLog.PagingSound` | server/storage/operations.go:89-135 | paging back while the log moves gives strictly decreasing numbers, all of them in the log at the first read and matching |
| `OperationsLog.PagingComplete` | server/storage/operations.go:89-135 | every match in the log at the first read and still there at the last read is returned |
| `OperationsLog.PagingShort` | server/storage/operations.go:89-135 | every page but the last is full, so the number of reads is fixed by the number of entries returned |
| `OperationsLog.PagingTheorem` | server/storage/operations.go:89-135 | paging to a short page is sound, free of duplicates, complete and finite, whatever is appended and pruned between pages |
| `OperationsLog.Bucket.AppendOperation` | server/storage/operations.go:34-83 | the transaction on the keyed bucket is one append of the abstract log, which stays ordered |
| `OperationsLog.Bucket.PutNext` | server/storage/operations.go:45-60 | the operation is stamped, takes the next number and lands at the end of the byte-ordered bucket |
| `OperationsLog.Bucket.Prune` | server/storage/operations.go:62-75 | re-seeking the first key and deleting ends with exactly the entries at or below the cutoff gone |
| `OperationsLog.Bucket.Seek` | server/storage/operations.go:106 | the cursor lands on the first key at or after its argument, or past the end |
| `OperationsLog.Bucket.Start` | server/storage/operations.go:102-115 | stepping back from the seek, or taking the last key, leaves exactly the entries below `before` ahead of the reader |
| `OperationsLog.Bucket.Walk` | server/storage/operations.go:117-127 | walking the cursor back collects the newest matching entries up to the limit |
| `OperationsLog.Bucket.GetOperations` | server/storage/operations.go:89-135 | the cursor walk on the bucket returns the page of the abstract log, for any host, `before` and limit; that log is ordered, so the paging theorems are about it |
| `OperationsLog.KeysOrder` | server/storage/operations.go:23-29 | byte-ordered keys put the entries of the bucket in numeric order |
| `Versions.OrderIsTotalPreorder` | client/hostinfo/version.go:21-97 | the order on versions is total, antisymmetric and transitive, and equates exactly those with the same segments |
| `Versions.SeparatorSplits` | client/hostinfo/version.go:32-38 | a separator only separates: anywhere in a version it adds no segment and joins none |
| `Versions.RunsPart` | client/hostinfo/version.go:41-55 | where a digit run meets a letter run the segments part, separator or not |
| `Versions.NumbersGoByValue` | client/hostinfo/version.go:66-82 | which way the order goes: digit strings of any length go by the numbers they stand for |
| `Versions.WordsGoByBytes` | client/hostinfo/version.go:57-82 | letter strings go by byte order, and each is below every number |
| `Versions.RestDecides` | client/hostinfo/version.go:30-97 | versions that agree up to a separator go by what follows it, and one that goes on is newer than one that stops |
| `Versions.RestDecidesAtRun` | client/hostinfo/version.go:30-82 | the same where a digit run meets a letter run |
| `Versions.HasSegments` | client/hostinfo/version.go:114-121 | a string has segments if and only if it has a letter or a digit |
| `Versions.StrippedDigitsCompare` | client/hostinfo/version.go:66-82 | without leading zeros, length first and byte order second is the order of the numbers, whatever their size |
| `Versions.CompareRuns` | client/hostinfo/version.go:66-82 | two runs of one class compare as numbers or as words |
| `Versions.SkipSeparators` | client/hostinfo/version.go:33-38 | skipping stops at an alphanumeric or the end and loses no segment |
| `Versions.EndOfRun` | client/hostinfo/version.go:45-55 | the scan ends where the maximal run of the class ends |
| `Versions.HasAlphaNum` | client/hostinfo/version.go:114-121 | it finds an alphanumeric exactly when a segment is left |
| `Versions.CompareVersions` | client/hostinfo/version.go:25-97 | the two-index scanner with its early exits is the lexicographic order of the two segment lists: words below numbers, a proper prefix smaller |
| `Versions.NewestVersion` | client/hostinfo/version.go:11-19 | the result is in the list and nothing in the list is newer, empty strings included |
| `Versions.KernelRebootNeeded` | client/hostinfo/reboot.go:133-139 | a reboot is needed if and only if the running kernel is known and some installed one is newer |
| `Versions.TenAfterNine` | client/hostinfo/reboot.go:133-139 | running 9 with 10 installed needs a reboot, and the other way round does not |
| `LiveOutput.RunFaithful` | client/remoteupdate.go:671-704 | for every interleaving of writes and flushes: chunks numbered 1, 2, 3, ...; bodies in order a prefix of all that was written, nothing missing before the cap; the marker only on the last chunk of a capped stream |
| `LiveOutput.NothingDropped` | client/remoteupdate.go:671-678 | what counts as written is everything the writers wrote, in the order in which they got the lock |
| `LiveOutput.ClosedStream` | client/remoteupdate.go:686-716 | after close, an uncapped run's chunks are its whole output; a capped one streamed at least the limit, as a prefix |
| `LiveOutput.StreamSizes` | client/remoteupdate.go:671-704 | with W writers of at most m bytes a call, no chunk exceeds limit - 1 + W*m and the marker, and the total stays below the stream limit plus that |
| `LiveOutput.TailWriter.Write` | client/remoteupdate.go:611-618 | the buffer stays exactly the last `limit` bytes of everything written, and is marked truncated exactly when more was written |
| `LiveOutput.TailWriter.String` | client/remoteupdate.go:620-625 | all that was written if that is at most 8192 bytes, and otherwise the header and exactly the last 8192 |
| `LiveOutput.OutputStreamer.AppendLocked` | client/remoteupdate.go:672-678 | the locked half of a write is one append step, and says whether the writer owes a flush |
| `LiveOutput.OutputStreamer.FlushLocked` | client/remoteupdate.go:688-704 | a flush is one flush step of the stream and keeps it faithful |
| `LiveOutput.OutputStreamer.WriteOutput` | client/remoteupdate.go:671-684 | an undisturbed write leaves less than one chunk pending and never unsends anything |
| `LiveOutput.OutputStreamer.Close` | client/remoteupdate.go:708-716 | the remainder is sent, the record's output is all that was written or a header and its last 8192 bytes, and uncapped chunks add up to all that was written |
| `RunLog.BlockStart` | server/runlog/runlog.go:69-78 | where the maximal trailing block of one run id begins in a host's history |
| `RunLog.TrailingBlockIsMaximal` | server/runlog/runlog.go:69-78 | the block built up chunk by chunk is that maximal block |
| `RunLog.ExpectedStep` | server/runlog/runlog.go:72-84 | how one more chunk changes what a viewer should see: it continues the same id and replaces another |
| `RunLog.Store.Append` | server/runlog/runlog.go:72-92 | every host's bounded buffer keeps showing what its whole history calls for; the broadcast gets the chunk or, when full, drops it |
| `RunLog.Store.Snapshot` | server/runlog/runlog.go:95-109 | the snapshot is the last 64 KB of the trailing block of one id, marked truncated if and only if more than that arrived |
| `JsonText.CarriedExact` | client/remoteupdate.go:375-388 | a text arrives through JSON as it was if and only if it is UTF-8, and otherwise longer |
| `JsonText.WellEncodedExact` | client/remoteupdate.go:375-388 | what counts as UTF-8 is exactly what spells a list of Unicode scalar values (RFC 3629, section 3) |
| `JsonText.CarriedInPieces` | client/remoteupdate.go:375-388 | chunks put together on arrival are what they were if and only if each of them is UTF-8 |
| `JsonText.AsciiPieces` | client/remoteupdate.go:375-388 | however ASCII output is cut, every chunk is UTF-8 |
| `JsonText.SplitCharacter` | client/remoteupdate.go:375-388 | a character cut by a chunk boundary arrives as two replacements |
| `RunLog.PipelineDelivers` | server/runlog/runlog.go:72-109 | for any bytes: a viewer sees exactly the last 64 KB of the run's chunks as JSON carried them, behind what came under the same id |
| `RunLog.PipelineEndToEnd` | server/runlog/runlog.go:72-109 | end to end, with in-order delivery of an uncapped run and anything from other hosts between: when every chunk is UTF-8, as in any ASCII run, the output that closing returns, less its header, is a suffix of what a viewer sees and a fresh run shows exactly the last 64 KB written; a fresh run that fits shows what was written if and only if every chunk is UTF-8 |
| `GroupNames.ValidateGroupName` | server/models/groups.go:43-66 | a name is accepted if and only if it is non-empty, at most 64 long, printable, and free of `/` and `:` |
| `GroupNames.SameNameSameKey` | server/models/groups.go:81-83 | two names the program calls the same always share a bucket key, and trimmed names share one only then |
| `GroupNames.OneKeyExactly` | server/storage/groups.go:27-29 | trimmed names share a key if and only if they have the same letters, each in whatever case |
| `Text.LowerExact` | server/storage/groups.go:27-29 | folding leaves no capital, changes nothing else, and makes two strings one exactly when their letters are the same |
| `Text.TrimExact` | server/storage/groups.go:27-29 | trimming takes the white space off both ends and nothing else |
| `GroupStore.NormalizeMembers` | server/storage/groups.go:33-46 | the result is strictly ascending and holds exactly the non-blank trimmed names of the input |
| `GroupStore.Storage.WriteGroup` | server/storage/groups.go:71-84 | a group is filed under the key of its own name in canonical form, and no other group changes |
| `GroupStore.Storage.SaveGroup` | server/storage/groups.go:157-176 | the same, as one transaction: done whole or not at all |
| `GroupStore.Storage.DeleteGroup` | server/storage/groups.go:180-205 | exactly the named group goes, if there is one |
| `GroupStore.Storage.RenameGroup` | server/storage/groups.go:212-258 | the member list moves unchanged, the number of groups and every other group stay, a change of case is no collision, and every failure leaves the store as it was |
| `GroupStore.Storage.MoveGroup` | server/storage/groups.go:240-248 | write-then-delete is a move, and a relabel in place when the key is the same |
| `GroupStore.Storage.Relabel` | server/storage/groups.go:240-243 | writing back canonical members changes none of them |
| `GroupStore.Storage.ChangeFor` | server/storage/groups.go:318-326 | what one group must become for the host to be in it or out of it, or that it needs no change |
| `GroupStore.Storage.ChangedGroups` | server/storage/groups.go:310-332 | the walk lists every group the host has to join or leave, each correctly changed |
| `GroupStore.Storage.WalkGroups` | server/storage/groups.go:308-340 | writing the list out puts the host in exactly the wanted groups and moves nobody else |
| `GroupStore.Storage.SetHostGroups` | server/storage/groups.go:271-349 | it succeeds if and only if there is a host and every named group exists; then the host is in exactly those groups and every other membership is unchanged; on failure nothing changes |
| `GroupStore.Storage.DeleteSystem` | server/storage/bbolt.go:168-209 | the host leaves every group, no other membership changes, and an unknown host changes nothing |
| `GroupStore.Storage.SaveSystem` | server/storage/bbolt.go:39-57 | one host's record is replaced and stamped with the second; the bucket refuses a blank name |
| `DerivedGroups.FirstRule` | server/models/derived.go:104-114 | a rule of the table with a needle in the text, or that there is none |
| `DerivedGroups.FirstRuleIsFirst` | server/models/derived.go:104-114 | it is the rule before which none has a needle in the text |
| `DerivedGroups.FamiliesOfFirst` | server/models/derived.go:104-133 | the OS family and the package family are both those of that first rule, and none where no rule matches |
| `Text.ContainsExact` | server/models/derived.go:104-133 | a needle is found if and only if it occurs somewhere in the text |
| `DerivedGroups.FamiliesAgree` | server/models/derived.go:104-133 | a host has an OS family if and only if it has a package family, and both are lower case |
| `DerivedGroups.InGroupNames` | server/models/derived.go:34-42 | every group a host's facts put it in is in the reserved namespace and in lower case |
| `DerivedGroups.DerivedNameExact` | server/models/derived.go:34-42 | a name is reserved if and only if, trimmed and in whatever case, it is one of the four prefixes and a rest |
| `DerivedGroups.MembersByFact` | server/models/derived.go:151-172 | fact by fact: which hosts each kind of group holds, no kind mixing with another |
| `DerivedGroups.SomeMatch` | server/models/derived.go:146-172 | a host is listed in a group if and only if some system of that name has the facts for it |
| `DerivedGroups.CollectMembers` | server/models/derived.go:141-172 | the map filled host by host lists, under each name, exactly the matching hosts in report order |
| `DerivedGroups.DeriveGroups` | server/models/derived.go:140-182 | the result is strictly sorted by name and holds exactly the non-empty groups, each with its sorted hosts |
| `DerivedGroups.GroupHolds` | server/models/derived.go:174-182 | each group is marked derived and holds, in order, exactly the named hosts whose facts put them in it |
| `DerivedGroups.FindDerivedGroup` | server/models/derived.go:186-194 | the lookup agrees with the full list, in any case and with any surrounding space |
| `GroupsApi.ResolveUnambiguous` | server/api/groups.go:63-85 | in every state the routes keep, no stored group lies in the derived namespace and no derived group outside it |
| `GroupsApi.Api.ResolveGroup` | server/api/groups.go:68-85 | a name finds the stored group of its key, or the derived group computed now |
| `GroupsApi.Api.CreateGroup` | server/api/groups.go:145-180 | status and new store for every input; a valid name conflicts if and only if a stored group has the same letters in whatever case; the names in the store stay valid, trimmed and outside the namespace |
| `GroupsApi.TakenByLetters` | server/storage/groups.go:20-29 | a key is taken if and only if some stored group has the same letters |
| `GroupsApi.CapitalsConflict` | server/api/groups.go:145-180 | "web" once created, "Web" is refused |
| `GroupsApi.Api.UpdateGroup` | server/api/groups.go:183-245 | status and new store for every input; a refused update of a stored group has left the store alone if and only if it brought no members or the same set of them |
| `GroupsApi.Api.Rename` | server/api/groups.go:211-237 | over any store: the name is validated, an unchanged one is no rename, a missing group is not found, a collision changes nothing, and members move as they are now |
| `GroupsApi.RefusedUpdateKeepsMembers` | server/api/groups.go:202-209 | saving the members sent leaves the store as it was if and only if there were none or they name the same set |
| `GroupsApi.RefusedUpdateMovesHosts` | server/api/groups.go:202-221 | one request that is refused for its name and has replaced the group's host |
| `GroupsApi.Api.WriteBack` | server/api/groups.go:202-209 | the second transaction of a route puts its copy of the group in, whatever the store holds by then, and touches no other group |
| `GroupsApi.EditsSurviveReplacement` | server/api/groups.go:196-209 | what others did between the read and the write survives exactly in other groups and where it agrees with the members written |
| `GroupsApi.EditsSurviveRemoval` | server/api/groups.go:288-303 | of the edits between the read and the removal exactly those of other groups, and the removal of the same host, survive |
| `GroupsApi.Api.DeleteGroup` | server/api/groups.go:249-273 | a derived group is refused, an unknown one not found, a stored one removed and nothing else |
| `GroupsApi.Api.RemoveGroupMember` | server/api/groups.go:280-312 | one host leaves one group, which is found only if it has that member |
| `GroupsApi.Api.SetSystemGroups` | server/api/groups.go:320-376 | a derived or unknown group refuses the whole request; otherwise the host is in exactly the groups listed |
| `GroupsApi.Api.DeleteSystem` | server/api/routes.go:153-186 | a deleted host is in no group afterwards, no other membership changes, and the names in the store stay outside the namespace; a refusal changes nothing |
| `BenchmarkScheduling.BenchmarkScheduler.DueCandidates` | server/api/hardware.go:203-222 | the list is exactly the due hosts: able, seen lately, not asked lately, and without a fresh benchmark |
| `BenchmarkScheduling.BenchmarkScheduler.NextDue` | server/api/hardware.go:195-233 | nobody if and only if nobody is due; otherwise the most overdue of the due hosts, and of level ones the first by name |
| `BenchmarkScheduling.DueExactly` | server/api/hardware.go:203-222 | who is due, from the fields of the record and the times in nanoseconds |
| `BenchmarkScheduling.PickedMostOverdue` | server/api/hardware.go:226-232 | the order of asking in terms of the benchmark dates and names of the hosts themselves |
| `BenchmarkScheduling.NeverBenchmarkedFirst` | server/api/hardware.go:191-194 | on dates after the zero time, hosts never benchmarked go before all that were |
| `BenchmarkScheduling.BenchmarkScheduler.TickOnce` | server/api/hardware.go:174-193 | one tick asks at most that one host and remembers it at the later reading of the clock |
| `BenchmarkScheduling.NobodyAskedTwice` | server/api/hardware.go:112-138 | in any run of ticks inside one back-off period no host is asked twice |
| `BenchmarkScheduling.NoStarvation` | server/api/hardware.go:174-233 | in any such run of at least as many ticks as hosts, every host rested at the start and eligible until it is asked is asked, whatever it reports afterwards |
| `BenchmarkScheduling.RegularTicks` | server/api/hardware.go:119-129 | at one tick every two minutes a run fits the back-off period if and only if it has at most 180 ticks |
| `Dispatch.Bar` | server/api/actions.go:149-177 | no bar is found if and only if the host is known, opted in and has something to do |
| `Dispatch.StatusMeaning` | server/api/actions.go:85-101 | each status if and only if its situation: the group route skips exactly what the single-host route turns away without asking, and 404 is exactly an unknown host |
| `Dispatch.ResultQuotes` | server/api/actions.go:179-221 | what a result quotes of the answer: id, command, the host's reason, the failure's message; and its code |
| `Dispatch.LineSays` | server/api/actions.go:120-136 | every word of the log line, its outcome told from whether the host was asked and what it answered |
| `Dispatch.ReasonGiven` | server/api/actions.go:139-265 | a result gives a reason if and only if it is no acceptance |
| `Dispatch.Dispatcher.Attempt` | server/api/actions.go:139-221 | the ladder and the answer give the one result, and a command is sent if and only if the host passed the ladder |
| `Dispatch.Dispatcher.DispatchOne` | server/api/actions.go:112-136 | every attempt, sent or not, adds one line to the log, which tells the outcome from whether the host was asked and what it answered |
| `Dispatch.RunTidy` | server/api/actions.go:284-300 | at every moment of every interleaving each goroutine has left exactly the trail of where it is |
| `Dispatch.RunHeard` | server/api/actions.go:284-300 | at every moment each goroutine works with what the store answered it and what its own host answered |
| `Dispatch.FanOutExact` | server/api/actions.go:284-300 | at the end: one result per member in member order, the one its own look-up and answer call for, one agreeing log line about each, its reason included, one command to each member that passed the ladder and none to the others, with the store and other requests changing in between |
| `Dispatch.Summarize` | server/api/groups.go:433-452 | requested = accepted + skipped + failed, each the number of results with that outcome, refused and unreachable counting as failed |
| `CheckIns.ResolveReboot` | server/nats/reboot.go:124-141 | the record changes only when this check-in closes it, and then only in status and finish time |
| `CheckIns.BootTimeSkew` | server/nats/reboot.go:119-135 | the derived boot time is late by the delivery delay and the cut second, never early |
| `CheckIns.ClosesExactly` | server/nats/reboot.go:124-141 | the exact condition, in terms of the real boot and the stored request time, for a check-in to close a reboot: always from a boot after the request with some uptime, never from one earlier by the delay and a second |
| `CheckIns.ClosedTooEarly` | server/nats/reboot.go:131-135 | a concrete check-in that closes a reboot which has not happened |
| `CheckIns.ClosesFromRequest` | server/nats/reboot.go:34-38 | the same against the instant of the request, which is stored cut to the second: never from a boot earlier by the delay and two seconds |
| `CheckIns.ClosedTooEarlyUndelayed` | server/nats/reboot.go:34-38 | a concrete check-in, not delayed at all, from 1.7 seconds before the request |
| `CheckIns.UptimeWraps` | server/nats/reboot.go:131-135 | for every uptime whatever, the boot time derived after wrapping round 64 bits, and exactly when it closes a reboot |
| `CheckIns.MisjudgedExactly` | server/nats/reboot.go:131-135 | of a request in the last 292 years, the answer disagrees with the uptime reported if and only if that uptime does not fit a duration and has wrapped into the upper half of a turn or below the age of the request |
| `CheckIns.UptimeWrapsEitherWay` | server/nats/reboot.go:131-135 | an uptime that closes any reboot requested in the last thousand seconds, and a longer one that closes none |
| `CheckIns.FirstClosing` | server/nats/subscriber.go:160-173 | the first check-in among any messages that closes a given reboot |
| `CheckIns.Subscriber.HandleCheckIn` | server/nats/subscriber.go:116-207 | everything a known host reports is stored as reported, what travels on other subjects stays, and one line is added if and only if this check-in closes a reboot; a new host is stored as it reports itself |
| `CheckIns.Subscriber.HandleUpdateResult` | server/nats/subscriber.go:212-254 | a known host's record then holds exactly this run, nothing else of it or of any other host changes but its last-seen time, and the log gains one line with its words; an unknown host changes nothing |
| `CheckIns.Subscriber.HandleRebootResult` | server/nats/reboot.go:72-112 | the same for a reboot, dated if it was not |
| `CheckIns.Subscriber.HandleBenchmarkResult` | server/nats/benchmark.go:71-113 | the same for a benchmark, dated if it was not |
| `CheckIns.LastResultsStand` | server/nats/subscriber.go:160-173 | from any moment a host is known until it is deleted, whatever else arrives, its update run is that of its last update result and its benchmark that of its last benchmark result, or what they were if none came |
| `CheckIns.UpdateDetailSays` | server/nats/subscriber.go:256-270 | what the log says of a run: nothing of one still going, its error, or the exit status of one that failed without an error |
| `CheckIns.Subscriber.Delete` | server/storage/bbolt.go:168-209 | a deletion drops the host's record and logs nothing |
| `CheckIns.RebootClosedOnce` | server/nats/subscriber.go:152-201 | over any messages and deletions until the host's next reboot result or its own deletion, the record stands unannounced up to the first closing check-in, and is closed and announced by exactly one line ever after |
| `CheckIns.CheckInCarriesForward` | server/nats/subscriber.go:160-173 | a check-in never loses the update run, the benchmark or the reboot record, and every other field becomes what it reports |
| `RunSlots.RunOneAtATime` | client/remoteupdate.go:208-262 | for every interleaving of requests and goroutine steps the trace spells whole jobs one after another, and the slot is busy exactly while one is unfinished |
| `RunSlots.AcceptedIsEndedPlusActive` | client/remoteupdate.go:208-369 | accepted jobs = ended jobs + the one active, and at most one goroutine is live |
| `UpdateRunner.ResultsAlternate` | client/remoteupdate.go:263-362 | the result subject spells (running id, end id)* with matching ids and at most one open running |
| `UpdateRunner.Runner.ResultsSpell` | client/remoteupdate.go:263-369 | so at every moment, and an open running record belongs to the run that holds the slot |
| `UpdateRunner.Runner.AcceptedCount` | client/remoteupdate.go:208-369 | at every moment of the runner, accepted runs = ended runs + the active one |
| `UpdateRunner.Runner.Claim` | client/remoteupdate.go:236-244 | the slot is taken if and only if it was free |
| `UpdateRunner.Runner.Release` | client/remoteupdate.go:246-250 | the slot is free again |
| `UpdateRunner.Runner.Handle` | client/remoteupdate.go:208-233 | a malformed or second command is refused and changes nothing; an accepted one starts the one goroutine |
| `UpdateRunner.Runner.Announce` | client/remoteupdate.go:266-274 | the running record goes out before anything else of the run |
| `UpdateRunner.Runner.Report` | client/remoteupdate.go:324-362 | the end record goes out under the same id |
| `UpdateRunner.Runner.AskRecheck` | client/remoteupdate.go:364-368 | after the end record and before the slot is freed a recheck is queued, whether the channel was full or not |
| `UpdateRunner.Runner.End` | client/remoteupdate.go:264 | the last step frees the slot |
| `UpdateRunner.Runner.TakeRecheck` | client/main.go:561 | the main loop takes the one queued request |
| `RebootListener.RecordsAlternate` | client/remotereboot.go:163-197 | the result subject spells (rebooting id, failed id)* and at most one open rebooting |
| `RebootListener.Listener.Decide` | client/remotereboot.go:135-159 | accepted if and only if no reboot is in progress, no update runs and a reboot is needed now; refusals change nothing; once the host goes down all is refused |
| `RebootListener.Listener.PublishRebooting` | client/remotereboot.go:164-174 | the record is on the wire before the command is given |
| `RebootListener.Listener.CommandTaken` | client/remotereboot.go:180-186 | a reboot that was taken never frees the slot |
| `RebootListener.Listener.CommandFailed` | client/remotereboot.go:188-192 | a failure is reported under the same id |
| `RebootListener.Listener.Clear` | client/remotereboot.go:194-196 | only then is the slot free for another |
| `RateLimits.CeilSeconds` | client/remotecheckin.go:161-166 | the least whole number of seconds that is no less, for any positive wait |
| `RateLimits.RetryAfterWait` | client/remotecheckin.go:115-166 | waiting a whole number of seconds is enough if and only if it is at least what the refusal said |
| `RateLimits.AcceptedApart` | client/remotecheckin.go:115-130 | over any requests on a clock that does not go back, all accepted ones are at least the interval apart |
| `RateLimits.RefusedOnlyWithin` | client/remotecheckin.go:115-130 | and a request that met no other obstacle is refused only within the interval of the last accepted one |
| `RateLimits.CheckInListener.Decide` | client/remotecheckin.go:115-143 | an accepted request leaves a recheck queued; a refusal changes nothing and tells the whole seconds to wait |
| `RateLimits.BenchmarkListener.Decide` | client/remotebenchmark.go:119-145 | each answer if and only if its reason, a busy host told from its load; only accepting claims the run and restarts the interval |
| `RateLimits.BenchmarkListener.Finish` | client/remotebenchmark.go:147-152 | the goroutine's end frees the run and nothing else |
| `SettleTimers.SettleTimer.constructor` | client/recheck.go:20-24 | a new timer is idle, even when its zero wait was over before it was disarmed |
| `SettleTimers.SettleTimer.Disarm` | client/recheck.go:38-48 | no wait and no stale tick is left, whether or not it had fired |
| `SettleTimers.SettleTimer.Arm` | client/recheck.go:30-33 | exactly one wait is under way and no tick of an earlier one can be read as its own |
| `ClientLoop.Loop.BeginCheck` | client/main.go:517-523 | the database is noted before the check collects, and nothing is noted without a connection |
| `ClientLoop.Loop.OnSignal` | client/main.go:555-560 | a signal only restarts the wait |
| `ClientLoop.Loop.OnRecheckNow` | client/main.go:561-573 | a request drops the wait and checks |
| `ClientLoop.Loop.OnSettled` | client/main.go:574-580 | a settled wait checks unless the readable database is as the last check noted it |
| `ClientLoop.RunKeeps` | client/main.go:549-582 | at every moment of every run, the database readable or not from step to step, a change not yet noted has a signal, a wait or a check pending or a check was dropped for want of a connection; likewise every recheck asked for |
| `ClientLoop.RunAccounted` | client/main.go:510-582 | at every moment, while the server is behind a look is pending or under way unless one was dropped, and one dropped leaves it behind until a check finishes |
| `ClientLoop.ReportedExactly` | client/main.go:517-523 | after any run, connections lost or not, once nothing is pending: the server has the database as it is if and only if no check was dropped while a write or the first report was due and without one finishing since |
| `ClientLoop.AnsweredExactly` | client/main.go:517-523 | once no request is queued, every accepted request was followed by a check if and only if none was dropped while a request was unanswered and without another beginning since |
| `ClientLoop.ConnectedMissesNothing` | client/main.go:510-582 | a client that stays connected drops no check, and so neither a change nor a request |
| `ClientLoop.QuietMeansReported` | client/main.go:510-582 | after any run of a connected client, once nothing is pending the last check collected the database as it is, and every request was followed by a check |
| `ClientLoop.LostWhileDisconnected` | client/main.go:517-523 | from any quiet moment, a run that loses a change while the connection is down; the exact condition is `ClientLoop.ReportedExactly` |
| `ClientLoop.RequestLostWhileDisconnected` | client/main.go:517-523 | the run that loses an accepted request |
| `ClientLoop.TickRepairs` | client/main.go:549-552 | in any reachable state the next ticker check brings the server up to date and answers every request |
| `ClientLoop.RequestAnswersWait` | client/main.go:561-573 | a check made on request leaves nothing pending, the wait under way included |
| `ClientLoop.SettledWaitExact` | client/main.go:574-580 | after any run, a settled wait leads to a check if and only if a write came since the last check began, or the database cannot be read now, or could not then |
| `ClientLoop.SpuriousSignalChecks` | client/main.go:574-580 | one signal with no write behind it, from any quiet connected moment, costs a check if and only if the database cannot be read when the wait is over, or could not when the last check began |
| `ClientLoop.SettleChecksNeedWrites` | client/main.go:510-582 | the loop does not feed itself: checks because the database settled are at most as many as real writes and waits that ended with no readable database to compare, however many signals come and whenever the database is readable |
| `ClientLoop.ReadableNeverBlind` | client/main.go:574-580 | on a host whose database is always readable no wait ends so, and writes alone account for such checks |

## Left out

- NATS, HTTP, WebSocket, JSON, metrics, logging, configuration and `exec`: a message arrives whole, an answer is a parameter.
- Stored records that cannot be unmarshalled: every record is readable, so the branches that skip one do not arise.
- The database engine: a transaction is all or nothing and its writes succeed, a bucket that does not exist yet is an empty one, and the only key refused is a blank one.
- Text beyond ASCII: folding, trimming and printability are those of ASCII, where one character is one byte.
- OperationsLog.Bucket.AppendOperation: the sequence number stops short of 2^64, where the engine's counter would wrap.
- OperationsLog.PagingTheorem: the limit is at least 1, as the route in `server/api/operations.go:45-54` ensures; parsing of its query is not modelled.
- RunLog.PipelineEndToEnd: the saved tail and the snapshot travel as JSON too, where a cut at 8 KB or 64 KB can split one more character; here both are the bytes before that.
- LiveOutput.OutputStreamer.Close: the journal text that replaces a blank tail (`client/remoteupdate.go:329-336`) is not modelled.
- GroupStore.Storage.SetHostGroups: which unknown group the error names, and the wording of every other error, is not modelled.
- GroupsApi.Api.UpdateGroup: each route is one atomic step here; what edits between its transactions do is stated of `GroupsApi.Api.WriteBack` and `GroupsApi.Api.Rename`. The 500 answers to failed writes do not arise, and the response bodies are not modelled.
- GroupsApi.Api.CreateGroup: its look-up and its save are two transactions, so a group of the same name created in between is replaced, as `GroupsApi.Api.WriteBack` states.
- BenchmarkScheduling.NoStarvation: hostnames are not blank (the bucket refuses a blank key, and a blank host is the answer for nobody due), and durations do not saturate; a listing that fails is a tick over no systems.
- Dispatch.FanOutExact: the append to the log always succeeds.
- CheckIns.ClosesExactly: uptimes below 292 years; CheckIns.UptimeWraps and CheckIns.MisjudgedExactly cover all of them.
- CheckIns.RebootClosedOnce: a handler's read and save are one step with one reading of the clock and saves that succeed; the tailnet merge is not modelled.
- CheckIns.Subscriber.HandleBenchmarkResult: the scores arrive as the text the log shows of them; formatting floating-point numbers is not modelled.
- RebootListener.Listener.Decide: it looks for a running update only at that moment, and an update can be claimed later, so no exclusion between the two is claimed.
- RebootListener.Listener.CommandFailed: the command that was tried and its error text are not modelled.
- UpdateRunner.Runner.Report: how exit codes and time-outs become the final status, and the systemd unit and journal around the command, are not modelled.
- ClientLoop.RunKeeps: signals before the handler is registered, during the first check, are not modelled; the package database is a version number that every write raises; a check that finds a connection is collected and delivered.
- SettleTimers.SettleTimer.Disarm: the timer has the buffered channel that the comment in `client/recheck.go:10-16` describes.
- Listing routes, hardware and benchmark pages, name tables, service discovery and back-off: easy members beside the above.
- Recognisers for package manager output and distribution quirks on the client: there is no specification to prove them against.
- The web interface.

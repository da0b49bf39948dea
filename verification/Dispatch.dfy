/** Asking hosts to do things (server/api/actions.go): the ladder every request climbs, and the
    concurrent fan-out of one request to every member of a group (server/api/groups.go). */
module Dispatch {
  import opened Options
  import opened Models

  datatype Action = Update | CheckIn | Reboot | Benchmark

  datatype Outcome = Accepted | Skipped | Refused | Unreachable | Failed

  datatype Code = NoCode | UnknownHost | NotOptedIn | NoRebootPending | NotSupported
                | HostRefused | NotListening | RequestFailed

  datatype Result =
    Result(hostname: string, outcome: Outcome, code: Code, reason: string, id: string, command: string)

  /** What came back from the wire. */
  datatype Answer =
    | NoResponder
    | Failure(message: string)
    | Ack(accepted: bool, reason: string, id: string, command: string)

  // ---------- the ladder ----------

  /** The host is known, has opted in to the action, and has something to do. */
  predicate Candidate(seen: Option<System>, act: Action) {
    && seen.Some?
    && (act.Update? ==> seen.value.remoteUpdatesEnabled)
    && (act.Reboot? ==> seen.value.remoteRebootEnabled && seen.value.rebootRequired)
    && (act.Benchmark? ==> seen.value.benchmarkSupported)
  }

  function Bar(seen: Option<System>, act: Action): (c: Code)
    ensures c == NoCode <==> Candidate(seen, act)
    ensures c in {NoCode, UnknownHost, NotOptedIn, NoRebootPending, NotSupported}
  {
    if seen.None? then UnknownHost
    else match act
      case Update => if seen.value.remoteUpdatesEnabled then NoCode else NotOptedIn
      case Reboot =>
        if !seen.value.remoteRebootEnabled then NotOptedIn
        else if !seen.value.rebootRequired then NoRebootPending
        else NoCode
      case Benchmark => if seen.value.benchmarkSupported then NoCode else NotSupported
      case CheckIn => NoCode
  }

  // ---------- what the dashboard says ----------

  function OptIn(what: string): (s: string)
    ensures s != ""
  {
    "This host has not opted into remote " + what + "s (set allow_remote_"
    + (if what == "reboot" then what else what + "s") + ": true in its client config)"
  }

  /** What an action is called in a sentence. */
  function Noun(act: Action): string {
    match act
    case Update => "update"
    case Reboot => "reboot"
    case Benchmark => "benchmark"
    case CheckIn => "check-in"
  }

  function BarReason(act: Action, code: Code): (s: string)
    ensures s != "" <==> code in {UnknownHost, NotOptedIn, NoRebootPending, NotSupported}
  {
    match code
    case UnknownHost => "System not found"
    case NotOptedIn => OptIn(Noun(act))
    case NoRebootPending => "This host did not report a pending reboot at its last check-in"
    case NotSupported => "This host's client is too old to run benchmarks; upgrade muc-client on it"
    case _ => ""
  }

  function NotListeningReason(act: Action, host: string): (s: string)
    ensures s != ""
  {
    "No response from " + host + ": it is offline, or its client is " +
    match act
    case Update => "no longer accepting update commands"
    case Reboot => "no longer accepting reboot commands"
    case Benchmark => "too old to run benchmarks"
    case CheckIn => "too old to accept check-in requests"
  }

  function FailedPrefix(act: Action): (s: string)
    ensures s != ""
  {
    match act
    case Update => "Update request failed"
    case Reboot => "Reboot request failed"
    case Benchmark => "Benchmark request failed"
    case CheckIn => "Check-in request failed"
  }

  function RefusalReason(act: Action): (s: string)
    ensures s != ""
  {
    "the host refused the " + Noun(act) + " request"
  }

  // ---------- the result ----------

  function BarredResult(act: Action, host: string, seen: Option<System>): Result {
    Result(host, Skipped, Bar(seen, act), BarReason(act, Bar(seen, act)), "", "")
  }

  function AnsweredResult(act: Action, host: string, answer: Answer): Result {
    match answer
    case NoResponder => Result(host, Unreachable, NotListening, NotListeningReason(act, host), "", "")
    case Failure(m) => Result(host, Failed, RequestFailed, FailedPrefix(act) + ": " + m, "", "")
    case Ack(accepted, reason, id, command) =>
      var cmd := if act == Update then command else "";
      if accepted then Result(host, Accepted, NoCode, "", id, cmd)
      else Result(host, Refused, HostRefused, if reason == "" then RefusalReason(act) else reason, id, cmd)
  }

  /** The result for one host, from what the store said and, where it was asked, what it answered. */
  function Attempted(act: Action, host: string, seen: Option<System>, answer: Answer): Result {
    if Candidate(seen, act) then AnsweredResult(act, host, answer) else BarredResult(act, host, seen)
  }

  /** The HTTP status of a single-host request. */
  function StatusFor(res: Result): int {
    match res.outcome
    case Accepted => 202
    case Skipped => if res.code == UnknownHost then 404 else 409
    case Refused => 409
    case Unreachable => 503
    case Failed => 502
  }

  /** The status and the outcome say the same about a host: what the group route skips is what
      the single-host route turns away without asking, 404 for a host nobody knows and 409 for
      one that is no candidate; 409 also reports a host that was asked and said no. */
  lemma StatusMeaning(act: Action, host: string, seen: Option<System>, answer: Answer)
    ensures var res := Attempted(act, host, seen, answer);
      var asked := seen.Some? && match act
        case Update => seen.value.remoteUpdatesEnabled
        case Reboot => seen.value.remoteRebootEnabled && seen.value.rebootRequired
        case Benchmark => seen.value.benchmarkSupported
        case CheckIn => true;
      && res.hostname == host && asked == Candidate(seen, act)
      && (res.outcome == Skipped <==> !asked)
      && (StatusFor(res) == 404 <==> seen.None?)
      && (StatusFor(res) == 202 <==> asked && answer.Ack? && answer.accepted)
      && (StatusFor(res) == 409 <==> seen.Some? && (!asked || (answer.Ack? && !answer.accepted)))
      && (StatusFor(res) == 503 <==> asked && answer.NoResponder?)
      && (StatusFor(res) == 502 <==> asked && answer.Failure?)
      && (res.id != "" ==> asked && answer.Ack? && res.id == answer.id)
  {}

  /** What the result quotes of the answer: the id of an answer, the command of an answer to an update,
      the reason a host gave for refusing, the message of a failure. */
  lemma ResultQuotes(act: Action, host: string, seen: Option<System>, answer: Answer)
    requires Candidate(seen, act)
    ensures var res := Attempted(act, host, seen, answer);
      && res.id == (if answer.Ack? then answer.id else "")
      && res.command == (if answer.Ack? && act == Update then answer.command else "")
      && (answer.Ack? && !answer.accepted && answer.reason != "" ==> res.reason == answer.reason)
      && (answer.Failure? ==> |answer.message| < |res.reason|
                              && res.reason[|res.reason| - |answer.message|..] == answer.message)
      && (res.code == NoCode <==> answer.Ack? && answer.accepted)
      && (res.code == HostRefused <==> answer.Ack? && !answer.accepted)
      && (res.code == NotListening <==> answer.NoResponder?)
      && (res.code == RequestFailed <==> answer.Failure?)
  {
    if answer.Failure? {
      var lead := FailedPrefix(act) + ": ";
      assert (lead + answer.message)[|lead|..] == answer.message;
    }
  }

  /** Nobody is turned away without a reason: a result has one exactly when it is no acceptance. */
  lemma ReasonGiven(act: Action, host: string, seen: Option<System>, answer: Answer)
    ensures var res := Attempted(act, host, seen, answer); res.reason == "" <==> res.outcome == Accepted
  {
    if Candidate(seen, act) && answer.Failure? {
      assert |FailedPrefix(act) + ": " + answer.message| > 0;
    }
  }

  function ActionName(act: Action): string {
    match act
    case Update => "update"
    case CheckIn => "checkin"
    case Reboot => "reboot"
    case Benchmark => "benchmark"
  }

  function OutcomeName(o: Outcome): string {
    match o
    case Accepted => "accepted"
    case Skipped => "skipped"
    case Refused => "refused"
    case Unreachable => "unreachable"
    case Failed => "failed"
  }

  /** The log line for one attempt; its number and time are the log's to give. */
  function RequestLine(act: Action, res: Result, requestedBy: string, group: string): Operation {
    Operation(0, "", res.hostname, ActionName(act), "requested", OutcomeName(res.outcome), res.id, requestedBy,
              group, res.command, res.reason)
  }

  /** The words of the line, from what was asked and what came of it. */
  lemma LineSays(act: Action, host: string, seen: Option<System>, answer: Answer, requestedBy: string, group: string)
    ensures var res := Attempted(act, host, seen, answer); var line := RequestLine(act, res, requestedBy, group);
      && line.hostname == host && line.event == "requested"
      && line.requestedBy == requestedBy && line.group == group
      && line.id == res.id && line.command == res.command && line.detail == res.reason
      && line.action == (match act case Update => "update" case CheckIn => "checkin"
                                   case Reboot => "reboot" case Benchmark => "benchmark")
      && line.outcome == (if !Candidate(seen, act) then "skipped"
                          else match answer
                            case NoResponder => "unreachable"
                            case Failure(_) => "failed"
                            case Ack(accepted, _, _, _) => if accepted then "accepted" else "refused")
  {}

  datatype Command = Command(host: string, act: Action, requestedBy: string)

  class Dispatcher {
    var systems: map<string, System>
    var log: seq<Operation>
    /** The commands put on the wire. */
    var sent: seq<Command>

    constructor (systems: map<string, System>)
      ensures this.systems == systems && log == [] && sent == []
    {
      this.systems, log, sent := systems, [], [];
    }

    function Lookup(host: string): Option<System>
      reads this
    {
      if host in systems then Some(systems[host]) else None
    }

    /** `answer` is what the wire gives back if the host is asked at all. */
    method Attempt(act: Action, hostname: string, requestedBy: string, answer: Answer) returns (res: Result)
      modifies this`sent
      ensures res == Attempted(act, hostname, Lookup(hostname), answer)
      ensures sent == if Candidate(Lookup(hostname), act)
                      then old(sent) + [Command(hostname, act, requestedBy)] else old(sent)
    {
      res := Result(hostname, Failed, NoCode, "", "", "");
      var seen := Lookup(hostname);
      if seen.None? {
        return res.(outcome := Skipped, code := UnknownHost, reason := BarReason(act, UnknownHost));
      }
      var system := seen.value;
      match act {
        case Update =>
          if !system.remoteUpdatesEnabled {
            return res.(outcome := Skipped, code := NotOptedIn, reason := BarReason(act, NotOptedIn));
          }
        case Reboot =>
          if !system.remoteRebootEnabled {
            return res.(outcome := Skipped, code := NotOptedIn, reason := BarReason(act, NotOptedIn));
          }
          if !system.rebootRequired {
            return res.(outcome := Skipped, code := NoRebootPending, reason := BarReason(act, NoRebootPending));
          }
        case Benchmark =>
          if !system.benchmarkSupported {
            return res.(outcome := Skipped, code := NotSupported, reason := BarReason(act, NotSupported));
          }
        case CheckIn =>
      }
      sent := sent + [Command(hostname, act, requestedBy)];
      if answer.Ack? {
        res := res.(id := answer.id, command := if act == Update then answer.command else "");
      }
      if answer.NoResponder? {
        return res.(outcome := Unreachable, code := NotListening, reason := NotListeningReason(act, hostname),
                    id := "", command := "");
      }
      if answer.Failure? {
        return res.(outcome := Failed, code := RequestFailed, reason := FailedPrefix(act) + ": " + answer.message,
                    id := "", command := "");
      }
      if !answer.accepted {
        return res.(outcome := Refused, code := HostRefused,
                    reason := if answer.reason == "" then RefusalReason(act) else answer.reason);
      }
      return res.(outcome := Accepted);
    }

    /** An attempt and its line in the log, whatever came of it. */
    method DispatchOne(act: Action, hostname: string, requestedBy: string, group: string, answer: Answer)
      returns (res: Result)
      modifies this`sent, this`log
      ensures res == Attempted(act, hostname, Lookup(hostname), answer)
      ensures log == old(log) + [RequestLine(act, res, requestedBy, group)]
      ensures log[|log| - 1].hostname == hostname
              && log[|log| - 1].outcome == (if !Candidate(Lookup(hostname), act) then "skipped"
                                            else match answer
                                              case NoResponder => "unreachable"
                                              case Failure(_) => "failed"
                                              case Ack(accepted, _, _, _) => if accepted then "accepted" else "refused")
      ensures sent == if Candidate(Lookup(hostname), act)
                      then old(sent) + [Command(hostname, act, requestedBy)] else old(sent)
    {
      res := Attempt(act, hostname, requestedBy, answer);
      LineSays(act, hostname, Lookup(hostname), answer, requestedBy, group);
      log := log + [RequestLine(act, res, requestedBy, group)];
    }
  }

  // ---------- the fan-out ----------

  /** Where one member's goroutine is. `seen` is what the store answered it. */
  datatype Task =
    | Start
    | Ready(seen: Option<System>)
    | Waiting(seen: Option<System>)
    | Answered(seen: Option<System>, res: Result)
    | Logged(seen: Option<System>, res: Result)
    | Done(seen: Option<System>, res: Result)

  /** A log line or a command, tagged with the member it is about, or with nobody when it comes
      from elsewhere in the server. */
  datatype Tagged<T> = Tagged(item: T, from: Option<nat>)

  datatype Request = Request(act: Action, members: seq<string>, requestedBy: string, group: string)

  datatype Fan = Fan(systems: map<string, System>, tasks: seq<Task>, results: seq<Option<Result>>,
                     log: seq<Tagged<Operation>>, sent: seq<Tagged<Command>>)

  /** One step of one member's goroutine, or of the rest of the server. */
  datatype Event =
    | Look(i: nat)
    | Send(i: nat)
    | Receive(i: nat, answer: Answer)
    | Record(i: nat)
    | Finish(i: nat)
    | SystemsChange(systems: map<string, System>)
    | OtherLine(op: Operation)
    | OtherCommand(command: Command)

  ghost predicate Enabled(req: Request, fan: Fan, e: Event) {
    match e
    case Look(i) => i < |fan.tasks| && fan.tasks[i].Start?
    case Send(i) => i < |fan.tasks| && fan.tasks[i].Ready?
    case Receive(i, _) => i < |fan.tasks| && fan.tasks[i].Waiting?
    case Record(i) => i < |fan.tasks| && fan.tasks[i].Answered?
    case Finish(i) => i < |fan.tasks| && i < |fan.results| && fan.tasks[i].Logged?
    case _ => true
  }

  ghost function Step(req: Request, fan: Fan, e: Event): Fan
    requires |fan.tasks| == |fan.results| == |req.members|
  {
    if !Enabled(req, fan, e) then fan
    else match e
      case Look(i) =>
        var host := req.members[i];
        var seen := if host in fan.systems then Some(fan.systems[host]) else None;
        fan.(tasks := fan.tasks[i := if Candidate(seen, req.act) then Ready(seen)
                                     else Answered(seen, BarredResult(req.act, host, seen))])
      case Send(i) =>
        fan.(tasks := fan.tasks[i := Waiting(fan.tasks[i].seen)],
             sent := fan.sent + [Tagged(Command(req.members[i], req.act, req.requestedBy), Some(i))])
      case Receive(i, answer) =>
        fan.(tasks := fan.tasks[i := Answered(fan.tasks[i].seen, AnsweredResult(req.act, req.members[i], answer))])
      case Record(i) =>
        var t := fan.tasks[i];
        fan.(tasks := fan.tasks[i := Logged(t.seen, t.res)],
             log := fan.log + [Tagged(RequestLine(req.act, t.res, req.requestedBy, req.group), Some(i))])
      case Finish(i) =>
        var t := fan.tasks[i];
        fan.(tasks := fan.tasks[i := Done(t.seen, t.res)], results := fan.results[i := Some(t.res)])
      case SystemsChange(systems) => fan.(systems := systems)
      case OtherLine(op) => fan.(log := fan.log + [Tagged(op, None)])
      case OtherCommand(c) => fan.(sent := fan.sent + [Tagged(c, None)])
  }

  /** The items about one member, in order. */
  function About<T>(items: seq<Tagged<T>>, i: nat): seq<T> {
    if items == [] then []
    else
      var init, last := About(items[..|items| - 1], i), items[|items| - 1];
      if last.from == Some(i) then init + [last.item] else init
  }

  lemma AboutAppend<T>(items: seq<Tagged<T>>, item: Tagged<T>, i: nat)
    ensures About(items + [item], i) == if item.from == Some(i) then About(items, i) + [item.item] else About(items, i)
  {
    assert (items + [item])[..|items|] == items;
  }

  /** What a goroutine has left behind so far: a result that fits what it saw, one command if and
      only if the host passed the ladder, and one log line once it has logged. */
  ghost predicate Tidy(req: Request, fan: Fan, i: nat)
    requires i < |fan.tasks| == |fan.results| == |req.members|
  {
    var t := fan.tasks[i];
    var line := About(fan.log, i);
    var commands := About(fan.sent, i);
    var command := Command(req.members[i], req.act, req.requestedBy);
    && (t.Ready? || t.Waiting? ==> Candidate(t.seen, req.act))
    && (t.Answered? || t.Logged? || t.Done? ==>
          exists answer :: t.res == Attempted(req.act, req.members[i], t.seen, answer))
    && commands == (if t.Start? || t.Ready? then []
                    else if Candidate(t.seen, req.act) then [command] else [])
    && line == (if t.Logged? || t.Done? then [RequestLine(req.act, t.res, req.requestedBy, req.group)] else [])
    && fan.results[i] == if t.Done? then Some(t.res) else None
  }

  ghost predicate AllTidy(req: Request, fan: Fan) {
    && |fan.tasks| == |fan.results| == |req.members|
    && forall i :: 0 <= i < |req.members| ==> Tidy(req, fan, i)
  }

  predicate Concerns(e: Event, i: nat) {
    match e
    case Look(j) => i == j
    case Send(j) => i == j
    case Receive(j, _) => i == j
    case Record(j) => i == j
    case Finish(j) => i == j
    case _ => false
  }

  /** A step of another goroutine, or of the rest of the server, leaves this one's trail alone. */
  lemma OtherStep(req: Request, fan: Fan, e: Event, i: nat)
    requires |fan.tasks| == |fan.results| == |req.members| && i < |req.members| && !Concerns(e, i)
    ensures var after := Step(req, fan, e);
      && |after.tasks| == |after.results| == |req.members|
      && after.tasks[i] == fan.tasks[i] && after.results[i] == fan.results[i]
      && About(after.log, i) == About(fan.log, i) && About(after.sent, i) == About(fan.sent, i)
  {
    if Enabled(req, fan, e) {
      match e
      case Send(j) =>
        AboutAppend(fan.sent, Tagged(Command(req.members[j], req.act, req.requestedBy), Some(j)), i);
      case Record(j) =>
        AboutAppend(fan.log, Tagged(RequestLine(req.act, fan.tasks[j].res, req.requestedBy, req.group), Some(j)), i);
      case OtherLine(op) => AboutAppend(fan.log, Tagged(op, None), i);
      case OtherCommand(c) => AboutAppend(fan.sent, Tagged(c, None), i);
      case _ =>
    }
  }

  lemma LookAndReceive(req: Request, fan: Fan, e: Event, i: nat)
    requires |fan.tasks| == |fan.results| == |req.members| && i < |req.members| && Tidy(req, fan, i)
    requires e == Look(i) || (e.Receive? && e.i == i)
    ensures Tidy(req, Step(req, fan, e), i)
  {
    if e == Look(i) {
      var host := req.members[i];
      var seen := if host in fan.systems then Some(fan.systems[host]) else None;
      if !Candidate(seen, req.act) {
        assert BarredResult(req.act, host, seen) == Attempted(req.act, host, seen, NoResponder);
      }
    } else if fan.tasks[i].Waiting? {
      assert AnsweredResult(req.act, req.members[i], e.answer)
          == Attempted(req.act, req.members[i], fan.tasks[i].seen, e.answer);
    }
  }

  lemma OwnStep(req: Request, fan: Fan, e: Event, i: nat)
    requires |fan.tasks| == |fan.results| == |req.members| && i < |req.members| && Tidy(req, fan, i)
    requires Concerns(e, i)
    ensures Tidy(req, Step(req, fan, e), i)
  {
    match e
    case Send(_) =>
      AboutAppend(fan.sent, Tagged(Command(req.members[i], req.act, req.requestedBy), Some(i)), i);
    case Record(_) =>
      if fan.tasks[i].Answered? {
        AboutAppend(fan.log, Tagged(RequestLine(req.act, fan.tasks[i].res, req.requestedBy, req.group), Some(i)), i);
      }
    case Finish(_) =>
    case _ => LookAndReceive(req, fan, e, i);
  }

  /** A fan-out under way: fresh tasks, over a log and a wire that hold nothing of it yet. */
  ghost function Begin(req: Request, systems: map<string, System>): Fan {
    Fan(systems, seq(|req.members|, i => Start), seq(|req.members|, i => None), [], [])
  }

  ghost function Run(req: Request, systems: map<string, System>, events: seq<Event>): (fan: Fan)
    ensures |fan.tasks| == |fan.results| == |req.members|
  {
    if events == [] then Begin(req, systems)
    else Step(req, Run(req, systems, events[..|events| - 1]), events[|events| - 1])
  }

  lemma {:induction false} RunTidy(req: Request, systems: map<string, System>, events: seq<Event>)
    ensures AllTidy(req, Run(req, systems, events))
  {
    if events != [] {
      var init := events[..|events| - 1];
      RunTidy(req, systems, init);
      forall i | 0 <= i < |req.members| ensures Tidy(req, Run(req, systems, events), i) {
        var fan, e := Run(req, systems, init), events[|events| - 1];
        assert Tidy(req, fan, i);
        if Concerns(e, i) {
          OwnStep(req, fan, e, i);
        } else {
          OtherStep(req, fan, e, i);
        }
      }
    }
  }

  // ---------- what each goroutine heard ----------

  /** What the store answered member `i` when it was looked up, if it was. */
  ghost function SystemSeen(req: Request, systems: map<string, System>, events: seq<Event>, i: nat)
    : Option<Option<System>>
    requires i < |req.members|
  {
    if events == [] then None
    else
      var init, e := events[..|events| - 1], events[|events| - 1];
      var fan, host := Run(req, systems, init), req.members[i];
      if e == Look(i) && Enabled(req, fan, e)
      then Some(if host in fan.systems then Some(fan.systems[host]) else None)
      else SystemSeen(req, systems, init, i)
  }

  /** What member `i` answered, if it did. */
  ghost function AnswerHeard(req: Request, systems: map<string, System>, events: seq<Event>, i: nat): Option<Answer>
    requires i < |req.members|
  {
    if events == [] then None
    else
      var init, e := events[..|events| - 1], events[|events| - 1];
      if e.Receive? && e.i == i && Enabled(req, Run(req, systems, init), e) then Some(e.answer)
      else AnswerHeard(req, systems, init, i)
  }

  ghost predicate Heard(req: Request, t: Task, host: string, seen: Option<Option<System>>, answer: Option<Answer>) {
    && (t.Start? ==> seen == None && answer == None)
    && (!t.Start? ==> seen == Some(t.seen))
    && (t.Ready? || t.Waiting? ==> answer == None)
    && (t.Answered? || t.Logged? || t.Done? ==>
          if Candidate(t.seen, req.act) then answer.Some? && t.res == Attempted(req.act, host, t.seen, answer.value)
          else t.res == BarredResult(req.act, host, t.seen))
  }

  lemma {:induction false} RunHeard(req: Request, systems: map<string, System>, events: seq<Event>, i: nat)
    requires i < |req.members|
    ensures Heard(req, Run(req, systems, events).tasks[i], req.members[i],
                  SystemSeen(req, systems, events, i), AnswerHeard(req, systems, events, i))
  {
    if events != [] {
      var init, e := events[..|events| - 1], events[|events| - 1];
      RunHeard(req, systems, init, i);
      RunTidy(req, systems, init);
      assert Tidy(req, Run(req, systems, init), i);
      HeardStep(req, Run(req, systems, init), e, i,
                SystemSeen(req, systems, init, i), AnswerHeard(req, systems, init, i));
    }
  }

  lemma HeardStep(req: Request, fan: Fan, e: Event, i: nat, seen: Option<Option<System>>, answer: Option<Answer>)
    requires |fan.tasks| == |fan.results| == |req.members| && i < |req.members| && Tidy(req, fan, i)
    requires Heard(req, fan.tasks[i], req.members[i], seen, answer)
    ensures var host := req.members[i];
      Heard(req, Step(req, fan, e).tasks[i], host,
            if e == Look(i) && Enabled(req, fan, e)
            then Some(if host in fan.systems then Some(fan.systems[host]) else None) else seen,
            if e.Receive? && e.i == i && Enabled(req, fan, e) then Some(e.answer) else answer)
  {
    if !Concerns(e, i) {
      OtherStep(req, fan, e, i);
    }
  }

  /** Whatever the interleaving with each other, with the store and with other requests, when
      every goroutine is done there is one result per member in member order, which is the one its
      look-up and its answer call for, one agreeing line in the log about each, and one command to
      each member that passed the ladder when it was looked up and none to any other. */
  lemma FanOutExact(req: Request, systems: map<string, System>, events: seq<Event>)
    requires forall t :: t in Run(req, systems, events).tasks ==> t.Done?
    ensures var fan := Run(req, systems, events);
      && |fan.results| == |req.members|
      && forall i :: 0 <= i < |req.members| ==>
           && fan.results[i].Some?
           && var res := fan.results[i].value;
              && res.hostname == req.members[i]
              && SystemSeen(req, systems, events, i) == Some(fan.tasks[i].seen)
              && (res.outcome == Skipped <==> !Candidate(fan.tasks[i].seen, req.act))
              && (res.outcome != Skipped ==>
                    && AnswerHeard(req, systems, events, i).Some?
                    && res == Attempted(req.act, req.members[i], fan.tasks[i].seen,
                                        AnswerHeard(req, systems, events, i).value))
              && About(fan.log, i) == [RequestLine(req.act, res, req.requestedBy, req.group)]
              && About(fan.sent, i) == if res.outcome == Skipped then []
                                       else [Command(req.members[i], req.act, req.requestedBy)]
  {
    RunTidy(req, systems, events);
    var fan := Run(req, systems, events);
    forall i | 0 <= i < |req.members|
      ensures fan.results[i].Some? && fan.results[i].value.hostname == req.members[i]
      ensures SystemSeen(req, systems, events, i) == Some(fan.tasks[i].seen)
      ensures fan.results[i].value.outcome == Skipped <==> !Candidate(fan.tasks[i].seen, req.act)
      ensures fan.results[i].value.outcome != Skipped ==>
        && AnswerHeard(req, systems, events, i).Some?
        && fan.results[i].value == Attempted(req.act, req.members[i], fan.tasks[i].seen,
                                             AnswerHeard(req, systems, events, i).value)
      ensures About(fan.log, i) == [RequestLine(req.act, fan.results[i].value, req.requestedBy, req.group)]
      ensures About(fan.sent, i) == if fan.results[i].value.outcome == Skipped then []
                                    else [Command(req.members[i], req.act, req.requestedBy)]
    {
      assert fan.tasks[i] in fan.tasks && Tidy(req, fan, i);
      RunHeard(req, systems, events, i);
      var answer :| fan.tasks[i].res == Attempted(req.act, req.members[i], fan.tasks[i].seen, answer);
      StatusMeaning(req.act, req.members[i], fan.tasks[i].seen, answer);
    }
  }

  // ---------- the summary ----------

  function Outcomes(results: seq<Result>): (os: seq<Outcome>)
    ensures |os| == |results|
    ensures forall i :: 0 <= i < |os| ==> os[i] == results[i].outcome
  {
    seq(|results|, i requires 0 <= i < |results| => results[i].outcome)
  }

  /** Counts the answers; refused, unreachable and failed all read as failed, and the three
      counts account for every member. */
  method Summarize(results: seq<Result>) returns (requested: nat, accepted: nat, skipped: nat, failed: nat)
    ensures requested == |results| == accepted + skipped + failed
    ensures var counts := multiset(Outcomes(results));
      && accepted == counts[Accepted] && skipped == counts[Skipped]
      && failed == counts[Refused] + counts[Unreachable] + counts[Failed]
  {
    requested, accepted, skipped, failed := |results|, 0, 0, 0;
    for i := 0 to |results|
      invariant accepted + skipped + failed == i
      invariant accepted == multiset(Outcomes(results)[..i])[Accepted]
      invariant skipped == multiset(Outcomes(results)[..i])[Skipped]
      invariant failed == multiset(Outcomes(results)[..i])[Refused] + multiset(Outcomes(results)[..i])[Unreachable]
                          + multiset(Outcomes(results)[..i])[Failed]
    {
      assert Outcomes(results)[..i + 1] == Outcomes(results)[..i] + [results[i].outcome];
      match results[i].outcome {
        case Accepted => accepted := accepted + 1;
        case Skipped => skipped := skipped + 1;
        case _ => failed := failed + 1;
      }
    }
    assert Outcomes(results)[..|results|] == Outcomes(results);
  }
}
